/**
 * `initialize_directories` as a machine of atomic steps.  The device may lose power between any two
 * of them, and then the program starts again from what is on disk.
 */
module Migration {
  import opened MigrationDisk

  // ---------------------------------------------------------------- the disk

  datatype Kind = Added | Removed

  /** The certificate files of one directory, by name. */
  type Certs = map<string, seq<int>>

  /** The certificate directories that exist, of the keychain or of a user. */
  type CertDirs = map<Kind, Certs>

  /**
   * `version` is the persisted layout version (0 if there is none), `users` the entries of
   * /data/user, among which "0" is a link and the others are directories, and `conf` the
   * directories below /data/misc/user.
   */
  datatype Disk = Disk(version: nat, media: Tree, users: set<string>, conf: map<string, CertDirs>, key: CertDirs)

  const PRIMARY: string := "0"

  /** Writing `src` at the start of a file that is not truncated first. */
  function Overlay(src: seq<int>, old_: seq<int>): seq<int> {
    if |old_| <= |src| then src else src + old_[|src|..]
  }

  function FileOf(c: Certs, n: string): seq<int> {
    if n in c then c[n] else []
  }

  function CertsOf(c: CertDirs, k: Kind): Certs {
    if k in c then c[k] else map[]
  }

  function ConfOf(conf: map<string, CertDirs>, u: string): CertDirs {
    if u in conf then conf[u] else map[]
  }

  // ---------------------------------------------------------------- the steps

  datatype Pc =
    | Start | UserDir
    | PrepareMedia | MoveToTmp | PrepareAgain | MoveToOwner | UserDirs(left: set<string>)
    | MoveObb
    | OwnerDir | ObbDir | OwnerConf
    | CertUsers(left: set<string>)
    | CertKind(left: set<string>, user: string, kind: Kind)
    | CertFiles(left: set<string>, user: string, kind: Kind, files: set<string>)
    | DeleteKind(kind: Kind)
    | Persist | Done
    | Failed(at: Pc)

  datatype State = State(disk: Disk, pc: Pc)

  /** A call on the media tree that works, or else ends the run. */
  ghost predicate MediaStep(s: State, s': State, can: bool, t: Tree, next: Pc) {
    s' == if can then State(s.disk.(media := t), next) else State(s.disk, Failed(s.pc))
  }

  ghost predicate ObbToMove(version: nat, t: Tree) {
    version <= 1 && OBB !in t && OWNER_OBB in t
  }

  function AfterKind(left: set<string>, u: string, k: Kind): Pc {
    if k == Added then CertKind(left, u, Removed) else CertUsers(left)
  }

  function AfterDelete(k: Kind): Pc {
    if k == Added then DeleteKind(Removed) else Persist
  }

  /** The steps up to the end of the upgrade from version 0. */
  ghost predicate ExecMedia(s: State, s': State) {
    var d, t := s.disk, s.disk.media;
    match s.pc
    case Start => s' == State(d, UserDir)
    case UserDir =>
      s' == State(d.(users := d.users + {PRIMARY}),
                  if d.version == 0 then PrepareMedia else if d.version == 1 then MoveObb else OwnerDir)
    case PrepareMedia => MediaStep(s, s', CanPrepare(t, MEDIA), Prepare(t, MEDIA), MoveToTmp)
    case MoveToTmp =>
      if MEDIA_TMP in t then s' == State(d, PrepareAgain)
      else MediaStep(s, s', CanRename(t, MEDIA, MEDIA_TMP), Rename(t, MEDIA, MEDIA_TMP), PrepareAgain)
    case PrepareAgain => MediaStep(s, s', CanPrepare(t, MEDIA), Prepare(t, MEDIA), MoveToOwner)
    case MoveToOwner =>
      if MEDIA_TMP !in t then s' == State(d, UserDirs(d.users - {PRIMARY}))
      else MediaStep(s, s', CanRename(t, MEDIA_TMP, OWNER), Rename(t, MEDIA_TMP, OWNER), UserDirs(d.users - {PRIMARY}))
    case UserDirs(left) =>
      if left == {} then s' == State(d, MoveObb)
      else exists u :: u in left &&
             MediaStep(s, s', CanPrepare(t, UserMedia(u)), Prepare(t, UserMedia(u)), UserDirs(left - {u}))
    case MoveObb =>
      if !ObbToMove(d.version, t) then s' == State(d, OwnerDir)
      else MediaStep(s, s', CanRename(t, OWNER_OBB, OBB), Rename(t, OWNER_OBB, OBB), OwnerDir)
    case OwnerDir => MediaStep(s, s', CanPrepare(t, OWNER), Prepare(t, OWNER), ObbDir)
    case ObbDir => MediaStep(s, s', CanPrepare(t, OBB), Prepare(t, OBB), OwnerConf)
    case _ => false
  }

  /** The steps of the upgrade from version 2, and the end. */
  ghost predicate ExecCerts(s: State, s': State) {
    var d := s.disk;
    match s.pc
    case OwnerConf =>
      s' == State(d.(conf := d.conf[PRIMARY := ConfOf(d.conf, PRIMARY)]),
                  if d.version <= 2 then CertUsers(d.users) else Persist)
    case CertUsers(left) =>
      if left == {} then s' == State(d, DeleteKind(Added))
      else exists u :: u in left &&
             s' == State(d.(conf := d.conf[u := ConfOf(d.conf, u)]), CertKind(left - {u}, u, Added))
    case CertKind(left, u, k) =>
      if k !in d.key || u !in d.conf then s' == State(d, AfterKind(left, u, k))
      else s' == State(d.(conf := d.conf[u := d.conf[u][k := CertsOf(d.conf[u], k)]]),
                       CertFiles(left, u, k, d.key[k].Keys))
    case CertFiles(left, u, k, files) =>
      if files == {} || k !in d.key || u !in d.conf then s' == State(d, AfterKind(left, u, k))
      else exists n, m :: n in files && n in d.key[k] && 0 <= m <= |d.key[k][n]| && s' == Written(s, n, m)
    case DeleteKind(k) =>
      if k !in d.key then s' == State(d, AfterDelete(k))
      else if d.key[k] == map[] then s' == State(d.(key := d.key - {k}), AfterDelete(k))
      else exists n :: n in d.key[k] && s' == State(d.(key := d.key[k := d.key[k] - {n}]), DeleteKind(k))
    case Persist => s' == State(if d.version <= 2 then d.(version := 3) else d, Done)
    case _ => false
  }

  /** The first `m` characters of a certificate are written; with all of them the file is done. */
  function Written(s: State, n: string, m: nat): State
    requires s.pc.CertFiles? && s.pc.kind in s.disk.key && s.pc.user in s.disk.conf
    requires n in s.disk.key[s.pc.kind] && m <= |s.disk.key[s.pc.kind][n]|
  {
    var d, u, k := s.disk, s.pc.user, s.pc.kind;
    var src, dst := d.key[k][n], CertsOf(d.conf[u], k);
    var dst' := dst[n := Overlay(src[..m], FileOf(dst, n))];
    State(d.(conf := d.conf[u := d.conf[u][k := dst']]),
          if m == |src| then CertFiles(s.pc.left, u, k, s.pc.files - {n}) else s.pc)
  }

  ghost predicate Exec(s: State, s': State) {
    ExecMedia(s, s') || ExecCerts(s, s')
  }

  /** The program is started, or started again after a crash. */
  ghost predicate Restart(s: State, s': State) {
    s' == State(s.disk, Start)
  }

  predicate InCerts(pc: Pc) {
    pc.CertUsers? || pc.CertKind? || pc.CertFiles? || pc.DeleteKind?
  }

  /** A call fails.  The run ends, except that a failure with the certificates is only logged; what
      becomes of them then is left open. */
  ghost predicate Failure(s: State, s': State) {
    && s'.disk.media == s.disk.media && s'.disk.version == s.disk.version && s'.disk.users == s.disk.users
    && (s'.pc == Failed(s.pc) || (InCerts(s.pc) && (InCerts(s'.pc) || s'.pc == Persist)))
  }

  /**
   * A call of `access` fails although the path is there.  The code takes it for missing, and goes on:
   * it renames where it would not have, or does not where it would have.
   */
  ghost predicate FailedAccess(s: State, s': State) {
    var d, t := s.disk, s.disk.media;
    match s.pc
    case MoveToTmp => MediaStep(s, s', CanRename(t, MEDIA, MEDIA_TMP), Rename(t, MEDIA, MEDIA_TMP), PrepareAgain)
    case MoveToOwner => s' == State(d, UserDirs(d.users - {PRIMARY}))
    case MoveObb =>
      || s' == State(d, OwnerDir)
      || (d.version <= 1 && OWNER_OBB in t
          && MediaStep(s, s', CanRename(t, OWNER_OBB, OBB), Rename(t, OWNER_OBB, OBB), OwnerDir))
    case _ => false
  }

  // ---------------------------------------------------------------- media files are conserved

  /** A step of a run with any crashes and failures. */
  ghost predicate AnyStep(s: State, s': State) {
    SureStep(s, s') || FailedAccess(s, s')
  }

  /** One in which `access` does not fail. */
  ghost predicate SureStep(s: State, s': State) {
    Exec(s, s') || Restart(s, s') || Failure(s, s')
  }

  ghost predicate AnyRun(run: seq<State>) {
    forall i :: 0 <= i < |run| - 1 ==> AnyStep(run[i], run[i + 1])
  }

  ghost predicate SureRun(run: seq<State>) {
    forall i :: 0 <= i < |run| - 1 ==> SureStep(run[i], run[i + 1])
  }

  /** A rename is made from one regular file to another. */
  ghost predicate Overwrites(s: State, s': State) {
    var t := s.disk.media;
    && s'.disk.media != t
    && match s.pc
       case MoveToTmp => BothFiles(t, MEDIA, MEDIA_TMP)
       case MoveToOwner => BothFiles(t, MEDIA_TMP, OWNER)
       case MoveObb => BothFiles(t, OWNER_OBB, OBB)
       case _ => false
  }

  /** The rename that a step makes, if it changes the media tree otherwise than by a new directory. */
  lemma RenameStep(s: State, s': State, a: Path, b: Path)
    requires s'.disk.media == s.disk.media ||
             (CanRename(s.disk.media, a, b) && s'.disk.media == Rename(s.disk.media, a, b))
    ensures NoMoreFiles(s.disk.media, s'.disk.media)
    ensures if s'.disk.media != s.disk.media && BothFiles(s.disk.media, a, b) then Lost(s.disk.media, s'.disk.media)
            else SameFiles(s.disk.media, s'.disk.media)
  {
    if s'.disk.media != s.disk.media { RenameKeepsFiles(s.disk.media, a, b); }
  }

  /** A step loses a file if and only if it overwrites one. */
  lemma StepFiles(s: State, s': State)
    requires AnyStep(s, s')
    ensures NoMoreFiles(s.disk.media, s'.disk.media)
    ensures if Overwrites(s, s') then Lost(s.disk.media, s'.disk.media) else SameFiles(s.disk.media, s'.disk.media)
  {
    var t := s.disk.media;
    if ExecMedia(s, s') || FailedAccess(s, s') {
      match s.pc
      case PrepareMedia => PrepareKeepsFiles(t, MEDIA);
      case MoveToTmp => RenameStep(s, s', MEDIA, MEDIA_TMP);
      case PrepareAgain => PrepareKeepsFiles(t, MEDIA);
      case MoveToOwner => RenameStep(s, s', MEDIA_TMP, OWNER);
      case UserDirs(left) =>
        if left != {} {
          var u :| u in left &&
            MediaStep(s, s', CanPrepare(t, UserMedia(u)), Prepare(t, UserMedia(u)), UserDirs(left - {u}));
          PrepareKeepsFiles(t, UserMedia(u));
        }
      case MoveObb => RenameStep(s, s', OWNER_OBB, OBB);
      case OwnerDir => PrepareKeepsFiles(t, OWNER);
      case ObbDir => PrepareKeepsFiles(t, OBB);
      case _ =>
    }
  }

  ghost predicate NoOverwrite(run: seq<State>, n: nat)
    requires n < |run|
  {
    forall j :: 0 <= j < n ==> !Overwrites(run[j], run[j + 1])
  }

  lemma LostForGood(a: Tree, b: Tree, c: Tree)
    requires NoMoreFiles(a, b) && NoMoreFiles(b, c) && (Lost(a, b) || Lost(b, c))
    ensures NoMoreFiles(a, c) && Lost(a, c)
  {
    if n: Node :| n.FileNode? && Copies(b, n) < Copies(a, n) {
      assert Copies(c, n) < Copies(a, n);
    } else {
      var n: Node :| n.FileNode? && Copies(c, n) < Copies(b, n);
      assert Copies(c, n) < Copies(a, n);
    }
  }

  /**
   * In every run, from every state and version, with any crashes and failures, of `access` too: the
   * media files are the same, each in as many places, if and only if no rename was made from one
   * regular file to another.
   */
  lemma {:induction false} FilesKept(run: seq<State>, n: nat)
    requires AnyRun(run) && n < |run|
    ensures NoMoreFiles(run[0].disk.media, run[n].disk.media)
    ensures if NoOverwrite(run, n) then SameFiles(run[0].disk.media, run[n].disk.media)
            else Lost(run[0].disk.media, run[n].disk.media)
  {
    if n > 0 {
      FilesKept(run, n - 1);
      assert AnyStep(run[n - 1], run[(n - 1) + 1]);
      StepFiles(run[n - 1], run[n]);
      OneMoreStep(run, n);
      OneMoreTree(run[0].disk.media, run[n - 1].disk.media, run[n].disk.media,
                  NoOverwrite(run, n - 1), !Overwrites(run[n - 1], run[n]));
    }
  }

  lemma OneMoreStep(run: seq<State>, n: nat)
    requires 0 < n < |run|
    ensures NoOverwrite(run, n) <==> NoOverwrite(run, n - 1) && !Overwrites(run[n - 1], run[n])
  {
    assert run[(n - 1) + 1] == run[n];
  }

  lemma OneMoreTree(a: Tree, b: Tree, c: Tree, first: bool, second: bool)
    requires NoMoreFiles(a, b) && (if first then SameFiles(a, b) else Lost(a, b))
    requires NoMoreFiles(b, c) && (if second then SameFiles(b, c) else Lost(b, c))
    ensures NoMoreFiles(a, c) && (if first && second then SameFiles(a, c) else Lost(a, c))
  {
    if !first || !second { LostForGood(a, b, c); }
  }

  // ---------------------------------------------------------------- what the starting disk says

  /** Both media.tmp and media/0 are regular files. */
  ghost predicate Danger(t: Tree) {
    BothFiles(t, MEDIA_TMP, OWNER)
  }

  /** The step that moves media.tmp to media/0 is taken. */
  predicate Passes(s: State, s': State) {
    s.pc == MoveToOwner && s'.pc.UserDirs?
  }

  ghost predicate Passed(run: seq<State>, n: nat)
    requires n < |run|
  {
    exists j :: 0 <= j < n && Passes(run[j], run[j + 1])
  }

  lemma MoveToTmpDanger(t: Tree)
    requires MEDIA_TMP !in t && CanRename(t, MEDIA, MEDIA_TMP)
    ensures !Danger(Rename(t, MEDIA, MEDIA_TMP))
  {
    RenameAt(t, MEDIA, MEDIA_TMP, OWNER);
    assert OWNER[0] != MEDIA_TMP[0] && MEDIA <= OWNER;
  }

  lemma MoveObbDanger(t: Tree)
    requires CanRename(t, OWNER_OBB, OBB)
    ensures Danger(Rename(t, OWNER_OBB, OBB)) <==> Danger(t)
  {
    RenameAt(t, OWNER_OBB, OBB, OWNER);
    RenameAt(t, OWNER_OBB, OBB, MEDIA_TMP);
    assert OBB[1] != OWNER[1] && OBB[0] != MEDIA_TMP[0];
  }

  lemma MoveToOwnerDanger(t: Tree)
    requires CanRename(t, MEDIA_TMP, OWNER)
    ensures MEDIA_TMP in t && MEDIA_TMP !in Rename(t, MEDIA_TMP, OWNER)
  {
    RenameAt(t, MEDIA_TMP, OWNER, MEDIA_TMP);
    assert OWNER[0] != MEDIA_TMP[0];
  }

  /** Only that step changes the danger; it loses a file if there is any, and ends it. */
  lemma StepDanger(s: State, s': State)
    requires SureStep(s, s')
    ensures Danger(s'.disk.media) <==> Danger(s.disk.media) && !Passes(s, s')
    ensures Overwrites(s, s') <==> Danger(s.disk.media) && Passes(s, s')
  {
    var t := s.disk.media;
    if ExecMedia(s, s') {
      match s.pc
      case MoveToTmp => if MEDIA_TMP !in t && CanRename(t, MEDIA, MEDIA_TMP) { MoveToTmpDanger(t); }
      case MoveToOwner => if CanRename(t, MEDIA_TMP, OWNER) { MoveToOwnerDanger(t); }
      case MoveObb => if CanRename(t, OWNER_OBB, OBB) { MoveObbDanger(t); }
      case UserDirs(left) =>
        if left != {} {
          var u :| u in left &&
            MediaStep(s, s', CanPrepare(t, UserMedia(u)), Prepare(t, UserMedia(u)), UserDirs(left - {u}));
        }
      case _ =>
    }
  }

  lemma {:induction false} DangerAlong(run: seq<State>, n: nat)
    requires SureRun(run) && n < |run|
    ensures Danger(run[n].disk.media) <==> Danger(run[0].disk.media) && !Passed(run, n)
    ensures NoOverwrite(run, n) <==> !(Danger(run[0].disk.media) && Passed(run, n))
  {
    if n > 0 {
      DangerAlong(run, n - 1);
      var s, s' := run[n - 1], run[n];
      assert run[(n - 1) + 1] == s';
      StepDanger(s, s');
      assert Passed(run, n) <==> Passed(run, n - 1) || Passes(s, s') by {
        if j :| 0 <= j < n && Passes(run[j], run[j + 1]) { assert j == n - 1 || j < n - 1; }
      }
    }
  }

  /**
   * In every run in which `access` does not fail, with any crashes and other failures: the media
   * files are the same if and only if it is not the case that both media.tmp and media/0 were
   * regular files at the start and the run has moved one to the other.
   */
  lemma MediaConserved(run: seq<State>, n: nat)
    requires SureRun(run) && n < |run|
    ensures SameFiles(run[0].disk.media, run[n].disk.media) <==> !(Danger(run[0].disk.media) && Passed(run, n))
  {
    assert AnyRun(run);
    FilesKept(run, n);
    DangerAlong(run, n);
  }

  // ---------------------------------------------------------------- files that are lost

  lemma ReplacesFile(t: Tree)
    requires t == map[MEDIA := DirNode, MEDIA_TMP := FileNode(1, []), OWNER := FileNode(2, [])]
    ensures CanRename(t, MEDIA_TMP, OWNER) &&
            Copies(Rename(t, MEDIA_TMP, OWNER), FileNode(2, [])) < Copies(t, FileNode(2, []))
    ensures IsDir(t, MEDIA) && MEDIA_TMP in t && Prepare(t, MEDIA) == t
  {
    assert OWNER[..1] == MEDIA && |OWNER| == 2 && |MEDIA_TMP| == 1 && OWNER[0] != MEDIA_TMP[0];
    RenameKeepsFiles(t, MEDIA_TMP, OWNER);
  }

  /** A disk on which a file is lost, and the run that loses it. */
  lemma FileLost() returns (run: seq<State>)
    ensures SureRun(run) && |run| == 7 && run[0].pc == Start
    ensures run[0].disk.media == map[MEDIA := DirNode, MEDIA_TMP := FileNode(1, []), OWNER := FileNode(2, [])]
    ensures Copies(run[6].disk.media, FileNode(2, [])) < Copies(run[0].disk.media, FileNode(2, []))
  {
    var t: Tree := map[MEDIA := DirNode, MEDIA_TMP := FileNode(1, []), OWNER := FileNode(2, [])];
    var d := Disk(0, t, {PRIMARY}, map[], map[]);
    assert d.(media := t) == d && d.(users := d.users + {PRIMARY}) == d && d.users - {PRIMARY} == {};
    ReplacesFile(t);
    run := [State(d, Start), State(d, UserDir), State(d, PrepareMedia), State(d, MoveToTmp), State(d, PrepareAgain),
            State(d, MoveToOwner), State(d.(media := Rename(t, MEDIA_TMP, OWNER)), UserDirs({}))];
    assert ExecMedia(run[0], run[1]) && ExecMedia(run[1], run[2]) && ExecMedia(run[2], run[3]);
    assert ExecMedia(run[3], run[4]) && ExecMedia(run[4], run[5]) && ExecMedia(run[5], run[6]);
    assert forall i :: 0 <= i < |run| - 1 ==> Exec(run[i], run[i + 1]);
  }

  const OWNER_ANDROID: Path := ["media", "0", "Android"]

  lemma ReplacesObb(t: Tree)
    requires t == map[MEDIA := DirNode, OWNER := DirNode, OWNER_ANDROID := DirNode,
                      OWNER_OBB := FileNode(1, []), OBB := FileNode(2, [])]
    ensures CanRename(t, OWNER_OBB, OBB) &&
            Copies(Rename(t, OWNER_OBB, OBB), FileNode(2, [])) < Copies(t, FileNode(2, []))
    ensures OWNER_OBB in t && !Danger(t)
  {
    assert OBB[..1] == MEDIA && OBB[1] != OWNER[1];
    RenameKeepsFiles(t, OWNER_OBB, OBB);
  }

  /** Another one, at version 1, that needs a failing `access`: media/obb is taken for missing. */
  lemma ObbLost() returns (run: seq<State>)
    ensures AnyRun(run) && |run| == 4 && run[0].pc == Start && !Danger(run[0].disk.media)
    ensures Copies(run[3].disk.media, FileNode(2, [])) < Copies(run[0].disk.media, FileNode(2, []))
  {
    var t: Tree := map[MEDIA := DirNode, OWNER := DirNode, OWNER_ANDROID := DirNode,
                       OWNER_OBB := FileNode(1, []), OBB := FileNode(2, [])];
    var d := Disk(1, t, {PRIMARY}, map[], map[]);
    assert d.(users := d.users + {PRIMARY}) == d;
    ReplacesObb(t);
    run := [State(d, Start), State(d, UserDir), State(d, MoveObb),
            State(d.(media := Rename(t, OWNER_OBB, OBB)), OwnerDir)];
    assert ExecMedia(run[0], run[1]) && ExecMedia(run[1], run[2]) && FailedAccess(run[2], run[3]);
  }
}
