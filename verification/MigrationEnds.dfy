/**
 * The migration never hangs: every state has a next step, and steps lead to the end.  Which end it
 * is can be told from the disk at the start.
 */
module MigrationEnds {
  import opened MigrationDisk
  import opened Migration
  import opened MigrationResume
  import opened MigrationCrash

  /** The machine has stopped: the run is complete, or a call failed. */
  predicate Stopped(pc: Pc) {
    pc.Done? || pc.Failed?
  }

  // ---------------------------------------------------------------- how much is left to do

  function Stage(pc: Pc): nat {
    match pc
    case Start => 14
    case UserDir => 13
    case PrepareMedia => 12
    case MoveToTmp => 11
    case PrepareAgain => 10
    case MoveToOwner => 9
    case UserDirs(_) => 8
    case MoveObb => 7
    case OwnerDir => 6
    case ObbDir => 5
    case OwnerConf => 4
    case CertUsers(_) => 3
    case CertKind(_, _, _) => 3
    case CertFiles(_, _, _, _) => 3
    case DeleteKind(_) => 2
    case Persist => 1
    case Done => 0
    case Failed(_) => 0
  }

  function UsersLeft(pc: Pc): nat {
    match pc
    case UserDirs(left) => |left|
    case CertUsers(left) => |left|
    case CertKind(left, _, _) => |left|
    case CertFiles(left, _, _, _) => |left|
    case _ => 0
  }

  function KindsLeft(pc: Pc): nat {
    match pc
    case CertKind(_, _, k) => if k == Added then 4 else 2
    case CertFiles(_, _, k, _) => if k == Added then 3 else 1
    case DeleteKind(k) => if k == Added then 1 else 0
    case _ => 0
  }

  function FilesLeft(s: State): nat {
    match s.pc
    case CertFiles(_, _, _, files) => |files|
    case DeleteKind(k) => |CertsOf(s.disk.key, k)|
    case _ => 0
  }

  predicate Nearer(s': State, s: State) {
    || Stage(s'.pc) < Stage(s.pc)
    || (Stage(s'.pc) == Stage(s.pc) &&
        (|| UsersLeft(s'.pc) < UsersLeft(s.pc)
         || (UsersLeft(s'.pc) == UsersLeft(s.pc) &&
             (|| KindsLeft(s'.pc) < KindsLeft(s.pc)
              || (KindsLeft(s'.pc) == KindsLeft(s.pc) && FilesLeft(s') < FilesLeft(s))))))
  }

  // ---------------------------------------------------------------- the next step

  lemma NextStep(s: State) returns (s': State)
    requires At(s.disk, s.pc) && !Stopped(s.pc)
    ensures Exec(s, s') && Nearer(s', s)
  {
    match s.pc
    case UserDirs(_) => s' := NextUserDir(s);
    case CertUsers(_) => s' := NextUser(s);
    case CertKind(_, _, _) => s' := NextKind(s);
    case CertFiles(_, _, _, _) => s' := NextFile(s);
    case DeleteKind(_) => s' := NextDelete(s);
    case OwnerConf =>
      var d := s.disk;
      s' := State(d.(conf := d.conf[PRIMARY := ConfOf(d.conf, PRIMARY)]),
                  if d.version <= 2 then CertUsers(d.users) else Persist);
    case Persist => s' := State(if s.disk.version <= 2 then s.disk.(version := 3) else s.disk, Done);
    case _ => s' := NextMedia(s);
  }

  lemma NextMedia(s: State) returns (s': State)
    requires Stage(s.pc) >= 5 && !s.pc.UserDirs?
    ensures Exec(s, s') && Nearer(s', s)
  {
    var d, t := s.disk, s.disk.media;
    match s.pc
    case Start => s' := State(d, UserDir);
    case UserDir =>
      s' := State(d.(users := d.users + {PRIMARY}),
                  if d.version == 0 then PrepareMedia else if d.version == 1 then MoveObb else OwnerDir);
    case PrepareMedia => s' := Try(s, CanPrepare(t, MEDIA), Prepare(t, MEDIA), MoveToTmp);
    case MoveToTmp =>
      s' := Try(s, MEDIA_TMP in t || CanRename(t, MEDIA, MEDIA_TMP),
                if MEDIA_TMP in t then t else Rename(t, MEDIA, MEDIA_TMP), PrepareAgain);
    case PrepareAgain => s' := Try(s, CanPrepare(t, MEDIA), Prepare(t, MEDIA), MoveToOwner);
    case MoveToOwner =>
      s' := Try(s, MEDIA_TMP !in t || CanRename(t, MEDIA_TMP, OWNER),
                if MEDIA_TMP !in t then t else Rename(t, MEDIA_TMP, OWNER), UserDirs(d.users - {PRIMARY}));
    case MoveObb =>
      s' := Try(s, !ObbToMove(d.version, t) || CanRename(t, OWNER_OBB, OBB),
                if ObbToMove(d.version, t) then Rename(t, OWNER_OBB, OBB) else t, OwnerDir);
    case OwnerDir => s' := Try(s, CanPrepare(t, OWNER), Prepare(t, OWNER), ObbDir);
    case ObbDir => s' := Try(s, CanPrepare(t, OBB), Prepare(t, OBB), OwnerConf);
  }

  ghost function Try(s: State, can: bool, t: Tree, next: Pc): State {
    if can then State(s.disk.(media := t), next) else State(s.disk, Failed(s.pc))
  }

  lemma NextUserDir(s: State) returns (s': State)
    requires s.pc.UserDirs?
    ensures Exec(s, s') && Nearer(s', s)
  {
    var t, left := s.disk.media, s.pc.left;
    if left == {} {
      s' := State(s.disk, MoveObb);
    } else {
      var u :| u in left;
      s' := Try(s, CanPrepare(t, UserMedia(u)), Prepare(t, UserMedia(u)), UserDirs(left - {u}));
      assert MediaStep(s, s', CanPrepare(t, UserMedia(u)), Prepare(t, UserMedia(u)), UserDirs(left - {u}));
    }
  }

  lemma NextUser(s: State) returns (s': State)
    requires s.pc.CertUsers?
    ensures Exec(s, s') && Nearer(s', s)
  {
    var d, left := s.disk, s.pc.left;
    if left == {} {
      s' := State(d, DeleteKind(Added));
    } else {
      var u :| u in left;
      s' := State(d.(conf := d.conf[u := ConfOf(d.conf, u)]), CertKind(left - {u}, u, Added));
    }
  }

  lemma NextKind(s: State) returns (s': State)
    requires s.pc.CertKind?
    ensures Exec(s, s') && Nearer(s', s)
  {
    var d, left, u, k := s.disk, s.pc.left, s.pc.user, s.pc.kind;
    if k !in d.key || u !in d.conf {
      s' := State(d, AfterKind(left, u, k));
    } else {
      s' := State(d.(conf := d.conf[u := d.conf[u][k := CertsOf(d.conf[u], k)]]), CertFiles(left, u, k, d.key[k].Keys));
    }
  }

  lemma NextFile(s: State) returns (s': State)
    requires At(s.disk, s.pc) && s.pc.CertFiles?
    ensures Exec(s, s') && Nearer(s', s)
  {
    var d, left, u, k, files := s.disk, s.pc.left, s.pc.user, s.pc.kind, s.pc.files;
    if files == {} {
      s' := State(d, AfterKind(left, u, k));
    } else {
      var n :| n in files;
      s' := Written(s, n, |d.key[k][n]|);
    }
  }

  lemma NextDelete(s: State) returns (s': State)
    requires s.pc.DeleteKind?
    ensures Exec(s, s') && Nearer(s', s)
  {
    var d, k := s.disk, s.pc.kind;
    if k !in d.key {
      s' := State(d, AfterDelete(k));
    } else if d.key[k] == map[] {
      s' := State(d.(key := d.key - {k}), AfterDelete(k));
    } else {
      var n :| n in d.key[k];
      s' := State(d.(key := d.key[k := d.key[k] - {n}]), DeleteKind(k));
      assert d.key[k].Keys == (d.key[k] - {n}).Keys + {n};
    }
  }

  // ---------------------------------------------------------------- to the end

  /** From wherever the program is, it comes to a stop. */
  lemma {:induction false} Finish(s: State) returns (run: seq<State>)
    requires At(s.disk, s.pc)
    ensures |run| > 0 && run[0] == s && Stopped(run[|run| - 1].pc)
    ensures forall i :: 0 <= i < |run| - 1 ==> Exec(run[i], run[i + 1])
    decreases Stage(s.pc), UsersLeft(s.pc), KindsLeft(s.pc), FilesLeft(s)
  {
    if Stopped(s.pc) {
      run := [s];
    } else {
      var s' := NextStep(s);
      ExecKeepsTarget(s, s');
      var rest := Finish(s');
      run := [s] + rest;
      forall i | 0 <= i < |run| - 1
        ensures Exec(run[i], run[i + 1])
      {
        if i > 0 { assert run[i] == rest[i - 1] && run[i + 1] == rest[(i - 1) + 1]; }
      }
    }
  }

  lemma ExecIsNoRestart(s: State, s': State)
    requires Exec(s, s')
    ensures !Restart(s, s')
  {
  }

  // ---------------------------------------------------------------- which end it is

  /** From version 1 on: the obb directory can be moved if it has to be, and both directories that
      are ensured are there or can be made. */
  ghost predicate Finishable(version: nat, t: Tree) {
    && (ObbToMove(version, t) ==> CanRename(t, OWNER_OBB, OBB))
    && var moved := if ObbToMove(version, t) then Rename(t, OWNER_OBB, OBB) else t;
       CanPrepare(moved, OWNER) && CanPrepare(Prepare(moved, OWNER), OBB)
  }

  ghost predicate UsersFit(t: Tree, users: set<string>) {
    forall u :: u in users ==> CanPrepare(t, UserMedia(u))
  }

  /** From the steps of version 0 on, the last first. */
  ghost predicate OwnerFits(t: Tree, users: set<string>) {
    && (MEDIA_TMP in t ==> CanRename(t, MEDIA_TMP, OWNER))
    && var t' := if MEDIA_TMP in t then Rename(t, MEDIA_TMP, OWNER) else t;
       UsersFit(t', users) && Finishable(0, WithUsers(t', users))
  }

  ghost predicate AgainFits(t: Tree, users: set<string>) {
    CanPrepare(t, MEDIA) && OwnerFits(Prepare(t, MEDIA), users)
  }

  ghost predicate TmpFits(t: Tree, users: set<string>) {
    if MEDIA_TMP in t then AgainFits(t, users)
    else CanRename(t, MEDIA, MEDIA_TMP) && AgainFits(Rename(t, MEDIA, MEDIA_TMP), users)
  }

  ghost predicate MediaFits(t: Tree, users: set<string>) {
    CanPrepare(t, MEDIA) && TmpFits(Prepare(t, MEDIA), users)
  }

  /** Every call on the media tree that is still to come is allowed by the tree. */
  ghost predicate Passable(d: Disk, pc: Pc) {
    var t, users := d.media, d.users - {PRIMARY};
    match pc
    case Start => if d.version == 0 then MediaFits(t, users) else Finishable(d.version, t)
    case UserDir => if d.version == 0 then MediaFits(t, users) else Finishable(d.version, t)
    case PrepareMedia => MediaFits(t, users)
    case MoveToTmp => TmpFits(t, users)
    case PrepareAgain => AgainFits(t, users)
    case MoveToOwner => OwnerFits(t, users)
    case UserDirs(left) => UsersFit(t, left) && Finishable(0, WithUsers(t, left))
    case MoveObb => Finishable(d.version, t)
    case OwnerDir => CanPrepare(t, OWNER) && CanPrepare(Prepare(t, OWNER), OBB)
    case ObbDir => CanPrepare(t, OBB)
    case Failed(_) => false
    case _ => true
  }

  lemma UsersStillFit(t: Tree, left: set<string>, u: string)
    requires u in left && CanPrepare(t, UserMedia(u))
    ensures UsersFit(Prepare(t, UserMedia(u)), left - {u}) <==> UsersFit(t, left)
  {
    var t' := Prepare(t, UserMedia(u));
    forall v | v in left - {u}
      ensures CanPrepare(t', UserMedia(v)) <==> CanPrepare(t, UserMedia(v))
    {
      assert UserMedia(v)[1] == v && UserMedia(u)[1] == u;
      assert UserMedia(v)[..1] == MEDIA && |UserMedia(u)| == 2;
    }
    assert left == left - {u} + {u};
  }

  lemma {:induction false} UserDirPassable(s: State, s': State)
    requires ExecMedia(s, s') && s.pc.UserDirs? && s.disk.version == 0
    ensures Passable(s'.disk, s'.pc) <==> Passable(s.disk, s.pc)
  {
    var t, left := s.disk.media, s.pc.left;
    if left == {} {
      NoUserPassable(s.disk);
    } else {
      var u :| u in left &&
        MediaStep(s, s', CanPrepare(t, UserMedia(u)), Prepare(t, UserMedia(u)), UserDirs(left - {u}));
      if CanPrepare(t, UserMedia(u)) {
        OneUserPassable(s.disk, left, u);
      } else {
        UserBlocks(s.disk, left, u);
      }
    }
  }

  lemma NoUserPassable(d: Disk)
    requires d.version == 0
    ensures Passable(d, MoveObb) <==> Passable(d, UserDirs({}))
  {
    NoUsers(d.media);
  }

  lemma UserBlocks(d: Disk, left: set<string>, u: string)
    requires u in left && !CanPrepare(d.media, UserMedia(u))
    ensures !Passable(d, UserDirs(left))
  {
  }

  lemma OneUserPassable(d: Disk, left: set<string>, u: string)
    requires u in left && CanPrepare(d.media, UserMedia(u))
    ensures Passable(d.(media := Prepare(d.media, UserMedia(u))), UserDirs(left - {u})) <==> Passable(d, UserDirs(left))
  {
    UsersStillFit(d.media, left, u);
    UserDirMade(d.media, left, u);
  }

  /** No step changes whether the run will complete. */
  lemma ExecKeepsPassable(s: State, s': State)
    requires At(s.disk, s.pc) && Exec(s, s')
    ensures Passable(s'.disk, s'.pc) <==> Passable(s.disk, s.pc)
  {
    if s.pc.UserDirs? {
      UserDirPassable(s, s');
    } else if Early(s.pc) {
      EarlyPassable(s, s');
    } else if s.pc == MoveObb || s.pc == OwnerDir || s.pc == ObbDir {
      ObbPassable(s, s');
    }
  }

  lemma {:induction false} EarlyPassable(s: State, s': State)
    requires At(s.disk, s.pc) && ExecMedia(s, s') && Early(s.pc)
    ensures Passable(s'.disk, s'.pc) <==> Passable(s.disk, s.pc)
  {
    if s.pc == UserDir {
      assert s.disk.users + {PRIMARY} - {PRIMARY} == s.disk.users - {PRIMARY};
    }
  }

  lemma ObbPassable(s: State, s': State)
    requires ExecMedia(s, s') && (s.pc == MoveObb || s.pc == OwnerDir || s.pc == ObbDir)
    ensures Passable(s'.disk, s'.pc) <==> Passable(s.disk, s.pc)
  {
  }

  lemma {:induction false} PassableAlong(run: seq<State>, n: nat)
    requires |run| > 0 && At(run[0].disk, run[0].pc) && n < |run|
    requires forall i :: 0 <= i < |run| - 1 ==> Exec(run[i], run[i + 1])
    ensures At(run[n].disk, run[n].pc) && (Passable(run[n].disk, run[n].pc) <==> Passable(run[0].disk, run[0].pc))
  {
    if n > 0 {
      PassableAlong(run, n - 1);
      assert Exec(run[n - 1], run[(n - 1) + 1]);
      ExecKeepsPassable(run[n - 1], run[n]);
      ExecKeepsTarget(run[n - 1], run[n]);
    }
  }

  /** Every uninterrupted run that has stopped, in whatever order it took the users, has completed if
      and only if the tree allows every call. */
  lemma EveryRunCompletes(run: seq<State>)
    requires |run| > 0 && run[0].pc == Start && Stopped(run[|run| - 1].pc)
    requires forall i :: 0 <= i < |run| - 1 ==> Exec(run[i], run[i + 1])
    ensures run[|run| - 1].pc == Done <==> Passable(run[0].disk, Start)
  {
    PassableAlong(run, |run| - 1);
  }

  /** From every disk an uninterrupted run comes to its end, and it completes if and only if the tree
      allows every call. */
  lemma Completes(d: Disk) returns (plain: seq<State>)
    ensures CrashRun(plain) && plain[0] == State(d, Start) && Stopped(plain[|plain| - 1].pc)
    ensures forall i :: 0 <= i < |plain| - 1 ==> Exec(plain[i], plain[i + 1]) && !Restart(plain[i], plain[i + 1])
    ensures plain[|plain| - 1].pc == Done <==> Passable(d, Start)
  {
    plain := Finish(State(d, Start));
    forall i | 0 <= i < |plain| - 1
      ensures !Restart(plain[i], plain[i + 1])
    {
      ExecIsNoRestart(plain[i], plain[i + 1]);
    }
    EveryRunCompletes(plain);
  }

  // ---------------------------------------------------------------- an ordinary upgrade from version 0

  const LEGACY_OBB: Path := ["media", "Android", "obb"]

  /** There is a media directory, nothing is left of an upgrade that was cut short, and the old
      place for obb files is not itself a file. */
  ghost predicate Ordinary(t: Tree) {
    && IsDir(t, MEDIA) && (forall q :: q in t ==> !(MEDIA_TMP <= q))
    && (LEGACY_OBB in t ==> t[LEGACY_OBB].DirNode?)
  }

  ghost function Moved(t: Tree): Tree { Rename(t, MEDIA, MEDIA_TMP) }

  ghost function Again(t: Tree): Tree { Prepare(Moved(t), MEDIA) }

  ghost function OwnersTree(t: Tree): Tree { Rename(Again(t), MEDIA_TMP, OWNER) }

  lemma MovedAt(t: Tree, q: Path)
    requires Ordinary(t)
    ensures CanRename(t, MEDIA, MEDIA_TMP)
    ensures q in Moved(t) ==> !(MEDIA <= q)
    ensures MEDIA_TMP in Moved(t) && Moved(t)[MEDIA_TMP] == t[MEDIA]
  {
    assert MEDIA[0] != MEDIA_TMP[0] && MEDIA_TMP <= MEDIA_TMP;
    RenameAt(t, MEDIA, MEDIA_TMP, q);
    RenameAt(t, MEDIA, MEDIA_TMP, MEDIA_TMP);
    assert MEDIA + MEDIA_TMP[1..] == MEDIA;
    if MEDIA_TMP <= q { assert q[0] == MEDIA_TMP[0]; }
    if MEDIA <= q { assert q[0] == MEDIA[0]; }
  }

  lemma AgainCanMove(t: Tree)
    requires Ordinary(t)
    ensures CanPrepare(Moved(t), MEDIA) && MEDIA_TMP in Again(t) && CanRename(Again(t), MEDIA_TMP, OWNER)
  {
    var t' := Again(t);
    MovedAt(t, MEDIA);
    assert MEDIA <= MEDIA;
    forall q | q in t'
      ensures !(OWNER <= q)
    {
      MovedAt(t, q);
      assert OWNER <= q ==> MEDIA <= q;
    }
    assert OWNER[..1] == MEDIA && OWNER[0] != MEDIA_TMP[0];
  }

  /** In the new tree there is nothing in media but 0. */
  lemma OwnersTreeAt(t: Tree, q: Path)
    requires Ordinary(t)
    ensures var n := OwnersTree(t);
            && IsDir(n, MEDIA) && IsDir(n, OWNER)
            && (q in n && MEDIA < q ==> OWNER <= q)
            && (OWNER_OBB in n <==> LEGACY_OBB in t) && (OWNER_OBB in n ==> n[OWNER_OBB].DirNode?)
  {
    var t' := Again(t);
    AgainCanMove(t);
    RenameAt(t', MEDIA_TMP, OWNER, q);
    MovedAt(t, q);
    RenameAt(t', MEDIA_TMP, OWNER, MEDIA);
    MovedAt(t, MEDIA);
    RenameAt(t', MEDIA_TMP, OWNER, OWNER);
    assert MEDIA_TMP + OWNER[2..] == MEDIA_TMP;
    LegacyObbMoves(t);
  }

  lemma LegacyObbMoves(t: Tree)
    requires Ordinary(t)
    ensures OWNER_OBB in OwnersTree(t) <==> LEGACY_OBB in t
    ensures OWNER_OBB in OwnersTree(t) ==> OwnersTree(t)[OWNER_OBB] == t[LEGACY_OBB]
  {
    var mid := MEDIA_TMP + ["Android", "obb"];
    assert OWNER_OBB == OWNER + ["Android", "obb"] && LEGACY_OBB == MEDIA + ["Android", "obb"];
    MovedBelow(Again(t), MEDIA_TMP, OWNER, ["Android", "obb"]);
    assert mid != MEDIA;
    MovedBelow(t, MEDIA, MEDIA_TMP, ["Android", "obb"]);
  }

  /** What is below the target of a rename was below its source. */
  lemma MovedBelow(t: Tree, a: Path, b: Path, r: Path)
    ensures b + r in Rename(t, a, b) <==> a + r in t
    ensures b + r in Rename(t, a, b) ==> Rename(t, a, b)[b + r] == t[a + r]
  {
    RenameAt(t, a, b, b + r);
    assert b <= b + r && (b + r)[|b|..] == r;
  }

  /** The new tree is an ordinary one too: media/0 holds what media held. */
  lemma StillOrdinary(t: Tree)
    requires Ordinary(t)
    ensures Ordinary(OwnersTree(t))
  {
    AgainCanMove(t);
    MovedAt(t, MEDIA);
    OwnerHasMoved(Again(t));
    OwnersTreeAt(t, LEGACY_OBB);
    assert LEGACY_OBB[..1] == MEDIA && LEGACY_OBB[1] != OWNER[1];
  }

  lemma OrdinaryUsers(t: Tree, users: set<string>)
    requires Ordinary(t) && PRIMARY !in users
    ensures UsersFit(OwnersTree(t), users)
  {
    forall u | u in users
      ensures CanPrepare(OwnersTree(t), UserMedia(u))
    {
      OwnersTreeAt(t, UserMedia(u));
      assert UserMedia(u)[1] == u && UserMedia(u)[..1] == MEDIA;
    }
  }

  lemma NothingInObb(t: Tree, users: set<string>, q: Path)
    requires Ordinary(t) && q in WithUsers(OwnersTree(t), users)
    ensures !(OBB < q)
  {
    OwnersTreeAt(t, q);
    if q in OwnersTree(t) && MEDIA < q {
      assert q[1] == OWNER[1];
    } else {
      assert MEDIA < q ==> |q| == 2;
    }
  }

  lemma {:induction false} OrdinaryFinish(t: Tree, users: set<string>)
    requires Ordinary(t) && PRIMARY !in users
    ensures Finishable(0, WithUsers(OwnersTree(t), users))
  {
    var n := WithUsers(OwnersTree(t), users);
    OwnersTreeAt(t, OBB);
    assert OBB[..1] == MEDIA && OBB[1] != OWNER[1] && forall u :: |UserMedia(u)| == 2;
    if ObbToMove(0, n) {
      NoneInObb(t, users);
      ObbMoves(n);
    }
  }

  lemma NoneInObb(t: Tree, users: set<string>)
    requires Ordinary(t)
    ensures forall q :: q in WithUsers(OwnersTree(t), users) ==> !(OBB < q)
  {
    forall q | q in WithUsers(OwnersTree(t), users)
      ensures !(OBB < q)
    {
      NothingInObb(t, users, q);
    }
  }

  lemma ObbMoves(t: Tree)
    requires IsDir(t, MEDIA) && IsDir(t, OWNER) && IsDir(t, OWNER_OBB) && OBB !in t
    requires forall q :: q in t ==> !(OBB < q)
    ensures CanRename(t, OWNER_OBB, OBB) &&
            IsDir(Rename(t, OWNER_OBB, OBB), OWNER) && IsDir(Rename(t, OWNER_OBB, OBB), OBB)
  {
    RenameAt(t, OWNER_OBB, OBB, OWNER);
    RenameAt(t, OWNER_OBB, OBB, OBB);
    assert OWNER_OBB + OBB[2..] == OWNER_OBB && OBB[..1] == MEDIA;
    assert OWNER_OBB[1] != OBB[1] && OWNER[1] != OBB[1];
  }

  /** An ordinary upgrade from version 0 completes. */
  lemma OrdinaryPasses(d: Disk)
    requires d.version == 0 && Ordinary(d.media)
    ensures Passable(d, Start)
  {
    var t, users := d.media, d.users - {PRIMARY};
    assert MEDIA_TMP <= MEDIA_TMP;
    MovedAt(t, MEDIA);
    AgainCanMove(t);
    OrdinaryUsers(t, users);
    OrdinaryFinish(t, users);
  }

  // ---------------------------------------------------------------- a crash that shows

  /** The run up to the step that moves the owner's media. */
  lemma UpToOwner(d: Disk) returns (run: seq<State>)
    requires d.version == 0 && Ordinary(d.media)
    ensures CrashRun(run) && |run| == 7 && run[0] == State(d, Start)
    ensures run[6].pc.UserDirs? && run[6].disk.version == 0 && run[6].disk.media == OwnersTree(d.media)
  {
    var t, d' := d.media, d.(users := d.users + {PRIMARY});
    assert MEDIA_TMP <= MEDIA_TMP;
    MovedAt(t, MEDIA);
    AgainCanMove(t);
    assert d'.(media := t) == d';
    run := [State(d, Start), State(d, UserDir), State(d', PrepareMedia), State(d', MoveToTmp),
            State(d'.(media := Moved(t)), PrepareAgain), State(d'.(media := Again(t)), MoveToOwner),
            State(d'.(media := OwnersTree(t)), UserDirs(d'.users - {PRIMARY}))];
    forall i | 0 <= i < |run| - 1
      ensures Exec(run[i], run[i + 1])
    {
      assert ExecMedia(run[i], run[i + 1]);
    }
  }

  /** Two runs one after the other, with a restart in between. */
  lemma Joined(a: seq<State>, b: seq<State>)
    requires CrashRun(a) && CrashRun(b) && Restart(a[|a| - 1], b[0])
    ensures CrashRun(a + b)
  {
    var run := a + b;
    forall i | 0 <= i < |run| - 1
      ensures Exec(run[i], run[i + 1]) || Restart(run[i], run[i + 1])
    {
      if i < |a| - 1 {
        assert run[i] == a[i] && run[i + 1] == a[i + 1];
      } else if i >= |a| {
        assert run[i] == b[i - |a|] && run[i + 1] == b[(i - |a|) + 1];
      }
    }
  }

  /**
   * From every disk with an ordinary version 0 tree: a run that is cut off right after media.tmp
   * became media/0 and is started again, and one that is not cut off.  Both complete, and they leave
   * different disks.
   */
  lemma LateCrashShows(d: Disk) returns (run: seq<State>, plain: seq<State>)
    requires d.version == 0 && Ordinary(d.media)
    ensures CrashRun(run) && CrashRun(plain) && run[0] == plain[0] == State(d, Start)
    ensures forall i :: 0 <= i < |plain| - 1 ==> !Restart(plain[i], plain[i + 1])
    ensures run[|run| - 1].pc == Done && plain[|plain| - 1].pc == Done
    ensures run[|run| - 1].disk != plain[|plain| - 1].disk
  {
    OrdinaryPasses(d);
    plain := Completes(d);
    var cut := UpToOwner(d);
    var d' := cut[6].disk;
    StillOrdinary(d.media);
    OrdinaryPasses(d');
    var again := Completes(d');
    Joined(cut, again);
    run := cut + again;
    assert run[6] == cut[6] && run[6 + 1] == again[0];
    assert LateRestart(run[6], run[6 + 1]);
    CrashesDoNotShow(run, plain);
  }

  /** For example from an empty media directory. */
  lemma LateCrash() returns (run: seq<State>, plain: seq<State>)
    ensures CrashRun(run) && CrashRun(plain)
    ensures run[0] == plain[0] == State(Disk(0, map[MEDIA := DirNode], {}, map[], map[]), Start)
    ensures run[|run| - 1].pc == Done && plain[|plain| - 1].pc == Done
    ensures run[|run| - 1].disk != plain[|plain| - 1].disk
  {
    var t: Tree := map[MEDIA := DirNode];
    assert MEDIA[0] != MEDIA_TMP[0] && |LEGACY_OBB| == 3;
    assert Ordinary(t);
    run, plain := LateCrashShows(Disk(0, t, {}, map[], map[]));
  }
}
