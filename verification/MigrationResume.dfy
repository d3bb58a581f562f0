/**
 * What a crash in the middle of `initialize_directories` does to the result.  `Target` is the disk
 * that the run will leave if nothing interrupts it any more.  Every step keeps it, and so does a
 * restart, with one exception: from version 0, a restart after media.tmp became media/0.
 */
module MigrationResume {
  import opened MigrationDisk
  import opened Migration

  // ---------------------------------------------------------------- the final disk

  function CopyCerts(src: Certs, dst: Certs): Certs {
    map n | n in src.Keys + dst.Keys :: if n in src then Overlay(src[n], FileOf(dst, n)) else dst[n]
  }

  function CopyKeys(key: CertDirs, c: CertDirs): CertDirs {
    map k | k in key.Keys + c.Keys :: if k in key then CopyCerts(key[k], CertsOf(c, k)) else c[k]
  }

  /** The users that get the certificates of the keychain. */
  function Receivers(d: Disk): set<string> {
    if d.version <= 2 then d.users + {PRIMARY} else {}
  }

  function FinalOf(d: Disk, u: string): CertDirs {
    if u in Receivers(d) then CopyKeys(d.key, ConfOf(d.conf, u)) else ConfOf(d.conf, u)
  }

  function FinalConf(d: Disk): map<string, CertDirs> {
    map u | u in d.conf.Keys + Receivers(d) + {PRIMARY} :: FinalOf(d, u)
  }

  lemma ConfEqual(d: Disk, d': Disk)
    requires d.conf.Keys + Receivers(d) + {PRIMARY} == d'.conf.Keys + Receivers(d') + {PRIMARY}
    requires forall u :: FinalOf(d, u) == FinalOf(d', u)
    ensures FinalConf(d) == FinalConf(d')
  {
  }

  /** The old media tree moved below media/0. */
  function Nested(t: Tree): Tree {
    var a := if MEDIA_TMP in t then t else Rename(Prepare(t, MEDIA), MEDIA, MEDIA_TMP);
    Rename(Prepare(a, MEDIA), MEDIA_TMP, OWNER)
  }

  function WithUsers(t: Tree, users: set<string>): Tree {
    map q | q in t.Keys + (set u | u in users :: UserMedia(u)) :: if q in t then t[q] else DirNode
  }

  /** The steps from version 1 on. */
  ghost function Finished(version: nat, t: Tree): Tree {
    var moved := if ObbToMove(version, t) then Rename(t, OWNER_OBB, OBB) else t;
    Prepare(Prepare(moved, OWNER), OBB)
  }

  /** The owner's media have not reached media/0 in this run. */
  predicate Early(pc: Pc) {
    match pc
    case Failed(at) => Early(at)
    case _ => pc.Start? || pc.UserDir? || pc.PrepareMedia? || pc.MoveToTmp? || pc.PrepareAgain? || pc.MoveToOwner?
  }

  /** The users whose media directories this run has yet to make. */
  function LeftUsers(pc: Pc): set<string> {
    match pc
    case Failed(at) => LeftUsers(at)
    case UserDirs(left) => left
    case _ => {}
  }

  ghost function FinalMedia(d: Disk, pc: Pc): Tree {
    if d.version > 0 then Finished(d.version, d.media)
    else if Early(pc) then Finished(0, WithUsers(Nested(d.media), d.users - {PRIMARY}))
    else Finished(0, WithUsers(d.media, LeftUsers(pc)))
  }

  ghost function Target(s: State): Disk {
    var d := s.disk;
    Disk(if d.version <= 2 then 3 else d.version, FinalMedia(d, s.pc), d.users + {PRIMARY}, FinalConf(d),
         if d.version <= 2 then map[] else d.key)
  }

  // ---------------------------------------------------------------- the invariant

  ghost predicate FileSettled(d: Disk, u: string, k: Kind, n: string)
    requires k in d.key && n in d.key[k]
  {
    u in d.conf && k in d.conf[u] && n in d.conf[u][k] && d.key[k][n] <= d.conf[u][k][n]
  }

  /** Copying the keychain directory again would change nothing for this user. */
  ghost predicate KindSettled(d: Disk, u: string, k: Kind) {
    k in d.key ==>
      && u in d.conf && k in d.conf[u]
      && forall n :: n in d.key[k] ==> FileSettled(d, u, k, n)
  }

  ghost predicate UserSettled(d: Disk, u: string) {
    u in d.conf && forall k :: KindSettled(d, u, k)
  }

  ghost predicate AllSettled(d: Disk, users: set<string>) {
    forall u :: u in users ==> UserSettled(d, u)
  }

  /** From version 0: the media files are below media/0 and media.tmp is gone. */
  ghost predicate OwnerMoved(d: Disk) {
    d.version == 0 ==> IsDir(d.media, MEDIA) && OWNER in d.media && forall q :: q in d.media ==> !(MEDIA_TMP <= q)
  }

  ghost predicate MediaReady(d: Disk) {
    OwnerMoved(d) && !ObbToMove(d.version, d.media) && PRIMARY in d.users
  }

  ghost predicate CertsReady(d: Disk) {
    && MediaReady(d) && OWNER in d.media && OBB in d.media && PRIMARY in d.conf
  }

  /** What holds on disk when the program is about to take the step `pc`. */
  ghost predicate At(d: Disk, pc: Pc) {
    match pc
    case Start => true
    case UserDir => true
    case PrepareMedia => d.version == 0 && PRIMARY in d.users
    case MoveToTmp => d.version == 0 && PRIMARY in d.users && MEDIA in d.media
    case PrepareAgain => d.version == 0 && PRIMARY in d.users && MEDIA_TMP in d.media
    case MoveToOwner => d.version == 0 && PRIMARY in d.users && MEDIA_TMP in d.media && IsDir(d.media, MEDIA)
    case UserDirs(left) => d.version == 0 && PRIMARY in d.users && OwnerMoved(d)
    case MoveObb => d.version <= 1 && PRIMARY in d.users && OwnerMoved(d)
    case OwnerDir => MediaReady(d)
    case ObbDir => MediaReady(d) && OWNER in d.media
    case OwnerConf => MediaReady(d) && OWNER in d.media && OBB in d.media
    case CertUsers(left) => CertsReady(d) && d.version <= 2 && left <= d.users && AllSettled(d, d.users - left)
    case CertKind(left, u, k) => InUser(d, left, u, k)
    case CertFiles(left, u, k, files) =>
      && InUser(d, left, u, k)
      && k in d.key && k in d.conf[u] && files <= d.key[k].Keys
      && forall n :: n in d.key[k] && n !in files ==> FileSettled(d, u, k, n)
    case DeleteKind(k) =>
      && CertsReady(d) && d.version <= 2 && AllSettled(d, d.users) && (k == Removed ==> Added !in d.key)
    case Persist => CertsReady(d) && (d.version <= 2 ==> d.key == map[] && d.users <= d.conf.Keys)
    case Done => CertsReady(d) && d.version >= 3
    case Failed(at) => d.version == 0 && !Early(at) ==> OwnerMoved(d)
  }

  ghost predicate InUser(d: Disk, left: set<string>, u: string, k: Kind) {
    && CertsReady(d) && d.version <= 2 && left <= d.users && u in d.users && u in d.conf
    && AllSettled(d, d.users - left - {u})
    && (k == Removed ==> KindSettled(d, u, Added))
  }

  // ---------------------------------------------------------------- steps on the media tree

  lemma NestedAfterPrepare(t: Tree)
    ensures Nested(Prepare(t, MEDIA)) == Nested(t)
  {
  }

  lemma NestedAfterMove(t: Tree)
    requires MEDIA in t && MEDIA_TMP !in t && CanRename(t, MEDIA, MEDIA_TMP)
    ensures MEDIA_TMP in Rename(t, MEDIA, MEDIA_TMP)
    ensures Nested(Rename(t, MEDIA, MEDIA_TMP)) == Nested(t)
  {
    RenameAt(t, MEDIA, MEDIA_TMP, MEDIA_TMP);
    assert MEDIA + MEDIA_TMP[1..] == MEDIA;
  }

  lemma OwnerHasMoved(t: Tree)
    requires MEDIA_TMP in t && IsDir(t, MEDIA) && CanRename(t, MEDIA_TMP, OWNER)
    ensures var t' := Rename(t, MEDIA_TMP, OWNER);
            IsDir(t', MEDIA) && OWNER in t' && forall q :: q in t' ==> !(MEDIA_TMP <= q)
  {
    var t' := Rename(t, MEDIA_TMP, OWNER);
    RenameAt(t, MEDIA_TMP, OWNER, MEDIA);
    RenameAt(t, MEDIA_TMP, OWNER, OWNER);
    assert MEDIA_TMP + OWNER[2..] == MEDIA_TMP;
    forall q | q in t'
      ensures !(MEDIA_TMP <= q)
    {
      RenameAt(t, MEDIA_TMP, OWNER, q);
      assert OWNER <= q ==> q[0] == OWNER[0];
    }
  }

  lemma PrepareKeepsMoved(d: Disk, p: Path)
    requires OwnerMoved(d) && !(MEDIA_TMP <= p)
    ensures OwnerMoved(d.(media := Prepare(d.media, p)))
  {
  }

  lemma ObbKeepsMoved(d: Disk)
    requires OwnerMoved(d) && CanRename(d.media, OWNER_OBB, OBB)
    ensures OwnerMoved(d.(media := Rename(d.media, OWNER_OBB, OBB)))
    ensures OBB in Rename(d.media, OWNER_OBB, OBB)
  {
    var t, t' := d.media, Rename(d.media, OWNER_OBB, OBB);
    RenameAt(t, OWNER_OBB, OBB, OBB);
    assert OWNER_OBB + OBB[2..] == OWNER_OBB;
    if d.version == 0 {
      RenameAt(t, OWNER_OBB, OBB, MEDIA);
      RenameAt(t, OWNER_OBB, OBB, OWNER);
      assert OBB[1] != OWNER[1];
      forall q | q in t'
        ensures !(MEDIA_TMP <= q)
      {
        RenameAt(t, OWNER_OBB, OBB, q);
        assert OBB <= q ==> q[0] == OBB[0];
      }
    }
  }

  lemma UserDirMade(t: Tree, users: set<string>, u: string)
    requires u in users
    ensures WithUsers(Prepare(t, UserMedia(u)), users - {u}) == WithUsers(t, users)
  {
    var a, b := WithUsers(Prepare(t, UserMedia(u)), users - {u}), WithUsers(t, users);
    forall q
      ensures q in a <==> q in b
    {
      if q in b && q !in t {
        var v :| v in users && q == UserMedia(v);
        assert v == u || v in users - {u};
      }
    }
  }

  lemma MoveToTmpKeeps(s: State, s': State)
    requires At(s.disk, s.pc) && ExecMedia(s, s') && s.pc == MoveToTmp
    ensures At(s'.disk, s'.pc)
    ensures FinalMedia(s'.disk, s'.pc) == FinalMedia(s.disk, s.pc)
  {
    var t := s.disk.media;
    if MEDIA_TMP !in t && CanRename(t, MEDIA, MEDIA_TMP) { NestedAfterMove(t); }
  }

  lemma MoveToOwnerKeeps(s: State, s': State)
    requires At(s.disk, s.pc) && ExecMedia(s, s') && s.pc == MoveToOwner
    ensures At(s'.disk, s'.pc)
    ensures FinalMedia(s'.disk, s'.pc) == FinalMedia(s.disk, s.pc)
  {
    var t := s.disk.media;
    if CanRename(t, MEDIA_TMP, OWNER) {
      OwnerHasMoved(t);
      assert Nested(t) == Rename(t, MEDIA_TMP, OWNER);
    }
  }

  lemma EarlyStepKeeps(s: State, s': State)
    requires At(s.disk, s.pc) && ExecMedia(s, s')
    requires s.pc == Start || s.pc == UserDir || s.pc == PrepareMedia || s.pc == PrepareAgain
    ensures At(s'.disk, s'.pc)
    ensures FinalMedia(s'.disk, s'.pc) == FinalMedia(s.disk, s.pc)
  {
    var d := s.disk;
    if s.pc == UserDir {
      assert d.users + {PRIMARY} - {PRIMARY} == d.users - {PRIMARY};
    } else {
      NestedAfterPrepare(d.media);
    }
  }

  lemma UserDirKeeps(s: State, s': State)
    requires At(s.disk, s.pc) && ExecMedia(s, s') && s.pc.UserDirs?
    ensures At(s'.disk, s'.pc)
    ensures FinalMedia(s'.disk, s'.pc) == FinalMedia(s.disk, s.pc)
  {
    var t, left := s.disk.media, s.pc.left;
    if left == {} {
      NoUsers(t);
    } else {
      var u :| u in left &&
        MediaStep(s, s', CanPrepare(t, UserMedia(u)), Prepare(t, UserMedia(u)), UserDirs(left - {u}));
      UserDirOne(s.disk, left, u);
    }
  }

  lemma UserDirOne(d: Disk, left: set<string>, u: string)
    requires d.version == 0 && OwnerMoved(d) && u in left
    ensures var d' := d.(media := Prepare(d.media, UserMedia(u)));
            OwnerMoved(d') && FinalMedia(d', UserDirs(left - {u})) == FinalMedia(d, UserDirs(left))
  {
    UserDirMade(d.media, left, u);
    assert UserMedia(u)[0] != MEDIA_TMP[0];
    PrepareKeepsMoved(d, UserMedia(u));
  }

  lemma MoveObbKeeps(s: State, s': State)
    requires At(s.disk, s.pc) && ExecMedia(s, s') && s.pc == MoveObb
    ensures At(s'.disk, s'.pc)
    ensures FinalMedia(s'.disk, s'.pc) == FinalMedia(s.disk, s.pc)
  {
    var d, t := s.disk, s.disk.media;
    NoUsers(t);
    NoUsers(s'.disk.media);
    if ObbToMove(d.version, t) && CanRename(t, OWNER_OBB, OBB) {
      ObbKeepsMoved(d);
      FinishedAfterObb(d.version, t);
    }
  }

  lemma FinishedAfterObb(version: nat, t: Tree)
    requires ObbToMove(version, t) && OBB in Rename(t, OWNER_OBB, OBB)
    ensures Finished(version, Rename(t, OWNER_OBB, OBB)) == Finished(version, t)
  {
  }

  lemma EnsureKeeps(s: State, s': State)
    requires At(s.disk, s.pc) && ExecMedia(s, s') && (s.pc == OwnerDir || s.pc == ObbDir)
    ensures At(s'.disk, s'.pc)
    ensures FinalMedia(s'.disk, s'.pc) == FinalMedia(s.disk, s.pc)
  {
    NoUsers(s.disk.media);
    NoUsers(s'.disk.media);
    var p := if s.pc == OwnerDir then OWNER else OBB;
    assert p[0] != MEDIA_TMP[0];
    PrepareKeepsMoved(s.disk, p);
  }

  lemma NoUsers(t: Tree)
    ensures WithUsers(t, {}) == t
  {
  }

  // ---------------------------------------------------------------- steps on the certificates

  /** Writing a part of a file first does not show once the whole file is written. */
  lemma OverlayAgain(src: seq<int>, old_: seq<int>, m: nat)
    requires m <= |src|
    ensures Overlay(src, Overlay(src[..m], old_)) == Overlay(src, old_)
    ensures m == |src| ==> src <= Overlay(src[..m], old_)
  {
  }

  lemma OverlaySettled(src: seq<int>, file: seq<int>)
    requires src <= file
    ensures Overlay(src, file) == file
  {
  }

  lemma CopyAfterWrite(src: Certs, dst: Certs, n: string, m: nat)
    requires n in src && m <= |src[n]|
    ensures CopyCerts(src, dst[n := Overlay(src[n][..m], FileOf(dst, n))]) == CopyCerts(src, dst)
  {
    OverlayAgain(src[n], FileOf(dst, n), m);
  }

  lemma CopyAfterDelete(src: Certs, dst: Certs, n: string)
    requires n in src && n in dst && src[n] <= dst[n]
    ensures CopyCerts(src - {n}, dst) == CopyCerts(src, dst)
  {
    OverlaySettled(src[n], dst[n]);
  }

  /** What a user gets of one directory decides what the user gets. */
  lemma CopyKeysSame(key: CertDirs, c: CertDirs, k: Kind, certs: Certs)
    requires k in key && CopyCerts(key[k], certs) == CopyCerts(key[k], CertsOf(c, k))
    ensures CopyKeys(key, c[k := certs]) == CopyKeys(key, c)
  {
  }

  lemma ConfSame(d: Disk, u: string, c: CertDirs)
    requires d.version <= 2 && u in d.users && CopyKeys(d.key, c) == CopyKeys(d.key, ConfOf(d.conf, u))
    ensures FinalConf(d.(conf := d.conf[u := c])) == FinalConf(d)
  {
    var d' := d.(conf := d.conf[u := c]);
    assert Receivers(d') == Receivers(d);
    forall v
      ensures FinalOf(d, v) == FinalOf(d', v)
    {
      assert v != u ==> ConfOf(d'.conf, v) == ConfOf(d.conf, v);
    }
    ConfEqual(d, d');
  }

  lemma KeySame(d: Disk, key: CertDirs)
    requires d.version <= 2 && PRIMARY in d.users && d.users <= d.conf.Keys
    requires forall u :: u in d.users ==> CopyKeys(key, d.conf[u]) == CopyKeys(d.key, d.conf[u])
    ensures FinalConf(d.(key := key)) == FinalConf(d)
  {
  }

  /** Deleting a certificate that every user has changes nothing for anyone. */
  lemma DeleteFileKeeps(d: Disk, k: Kind, n: string)
    requires d.version <= 2 && PRIMARY in d.users && AllSettled(d, d.users) && k in d.key && n in d.key[k]
    ensures var d' := d.(key := d.key[k := d.key[k] - {n}]);
            FinalConf(d') == FinalConf(d) && AllSettled(d', d'.users)
  {
    var key := d.key[k := d.key[k] - {n}];
    forall u | u in d.users
      ensures CopyKeys(key, d.conf[u]) == CopyKeys(d.key, d.conf[u])
      ensures UserSettled(d.(key := key), u)
    {
      assert UserSettled(d, u) && KindSettled(d, u, k) && FileSettled(d, u, k, n);
      CopyAfterDelete(d.key[k], d.conf[u][k], n);
      forall j
        ensures KindSettled(d.(key := key), u, j)
      {
        assert KindSettled(d, u, j);
        assert forall m :: j in key && m in key[j] ==> FileSettled(d, u, j, m);
      }
    }
    KeySame(d, key);
  }

  lemma DeleteDirKeeps(d: Disk, k: Kind)
    requires d.version <= 2 && PRIMARY in d.users && AllSettled(d, d.users) && k in d.key && d.key[k] == map[]
    ensures var d' := d.(key := d.key - {k});
            FinalConf(d') == FinalConf(d) && AllSettled(d', d'.users)
  {
    var key := d.key - {k};
    forall u | u in d.users
      ensures CopyKeys(key, d.conf[u]) == CopyKeys(d.key, d.conf[u])
      ensures UserSettled(d.(key := key), u)
    {
      assert UserSettled(d, u) && KindSettled(d, u, k);
      assert CopyCerts(map[], d.conf[u][k]) == d.conf[u][k];
      forall j
        ensures KindSettled(d.(key := key), u, j)
      {
        assert KindSettled(d, u, j);
        assert forall m :: j in key && m in key[j] ==> FileSettled(d, u, j, m);
      }
    }
    KeySame(d, key);
  }

  /** The settled users stay settled when another user's directories change. */
  lemma OthersSettled(d: Disk, u: string, c: CertDirs, users: set<string>)
    requires AllSettled(d, users) && u !in users
    ensures AllSettled(d.(conf := d.conf[u := c]), users)
  {
    var d' := d.(conf := d.conf[u := c]);
    forall v | v in users
      ensures UserSettled(d', v)
    {
      assert UserSettled(d, v);
      forall j
        ensures KindSettled(d', v, j)
      {
        assert KindSettled(d, v, j);
        assert forall m :: j in d.key && m in d.key[j] ==> FileSettled(d, v, j, m);
      }
    }
  }

  /** The other directory of the user stays settled. */
  lemma OtherKindSettled(d: Disk, u: string, k: Kind, certs: Certs, j: Kind)
    requires u in d.conf && KindSettled(d, u, j) && j != k
    ensures KindSettled(d.(conf := d.conf[u := d.conf[u][k := certs]]), u, j)
  {
    if j in d.key {
      forall m | m in d.key[j]
        ensures FileSettled(d.(conf := d.conf[u := d.conf[u][k := certs]]), u, j, m)
      {
        assert FileSettled(d, u, j, m);
      }
    }
  }

  lemma InUserKept(d: Disk, left: set<string>, u: string, k: Kind, certs: Certs)
    requires InUser(d, left, u, k) && k in d.key
    requires CopyCerts(d.key[k], certs) == CopyCerts(d.key[k], CertsOf(d.conf[u], k))
    ensures var d' := d.(conf := d.conf[u := d.conf[u][k := certs]]);
            InUser(d', left, u, k) && FinalConf(d') == FinalConf(d)
  {
    var c := d.conf[u][k := certs];
    OthersSettled(d, u, c, d.users - left - {u});
    if k == Removed { OtherKindSettled(d, u, k, certs, Added); }
    CopyKeysSame(d.key, d.conf[u], k, certs);
    ConfSame(d, u, c);
  }

  lemma KindDone(d: Disk, left: set<string>, u: string, k: Kind)
    requires InUser(d, left, u, k) && KindSettled(d, u, k)
    ensures At(d, AfterKind(left, u, k))
  {
    if k == Removed {
      forall v | v in d.users - left
        ensures UserSettled(d, v)
      {
        assert v != u ==> v in d.users - left - {u};
        forall j
          ensures KindSettled(d, u, j)
        {
          match j case Added => case Removed =>
        }
      }
    }
  }

  lemma CertUserKeeps(s: State, s': State)
    requires At(s.disk, s.pc) && ExecCerts(s, s') && s.pc.CertUsers?
    ensures At(s'.disk, s'.pc) && FinalConf(s'.disk) == FinalConf(s.disk)
  {
    var d, left := s.disk, s.pc.left;
    if left == {} {
      assert d.users - left == d.users;
    } else {
      var u :| u in left && s' == State(d.(conf := d.conf[u := ConfOf(d.conf, u)]), CertKind(left - {u}, u, Added));
      OthersSettled(d, u, ConfOf(d.conf, u), d.users - left);
      assert d.users - (left - {u}) - {u} == d.users - left;
      ConfSame(d, u, ConfOf(d.conf, u));
    }
  }

  lemma CertKindKeeps(s: State, s': State)
    requires At(s.disk, s.pc) && ExecCerts(s, s') && s.pc.CertKind?
    ensures At(s'.disk, s'.pc) && FinalConf(s'.disk) == FinalConf(s.disk)
  {
    var d, left, u, k := s.disk, s.pc.left, s.pc.user, s.pc.kind;
    if k in d.key {
      InUserKept(d, left, u, k, CertsOf(d.conf[u], k));
    } else {
      KindDone(d, left, u, k);
    }
  }

  /** After writing `m` characters of `n`, the finished files are the same, and `n` if it is whole. */
  lemma FilesStaySettled(d: Disk, u: string, k: Kind, n: string, m: nat, j: string)
    requires k in d.key && n in d.key[k] && m <= |d.key[k][n]| && j in d.key[k]
    requires u in d.conf && k in d.conf[u]
    requires if j == n then m == |d.key[k][n]| else FileSettled(d, u, k, j)
    ensures var dst := d.conf[u][k];
            var dst' := dst[n := Overlay(d.key[k][n][..m], FileOf(dst, n))];
            FileSettled(d.(conf := d.conf[u := d.conf[u][k := dst']]), u, k, j)
  {
    OverlayAgain(d.key[k][n], FileOf(d.conf[u][k], n), m);
  }

  lemma CertFileKeeps(s: State, s': State)
    requires At(s.disk, s.pc) && ExecCerts(s, s') && s.pc.CertFiles?
    ensures At(s'.disk, s'.pc) && FinalConf(s'.disk) == FinalConf(s.disk)
  {
    var d, left, u, k, files := s.disk, s.pc.left, s.pc.user, s.pc.kind, s.pc.files;
    if files == {} {
      KindDone(d, left, u, k);
    } else {
      var n, m :| n in files && n in d.key[k] && 0 <= m <= |d.key[k][n]| && s' == Written(s, n, m);
      WriteKeeps(s, n, m);
    }
  }

  lemma WriteKeeps(s: State, n: string, m: nat)
    requires At(s.disk, s.pc) && s.pc.CertFiles? && n in s.pc.files && m <= |s.disk.key[s.pc.kind][n]|
    ensures var s' := Written(s, n, m);
            At(s'.disk, s'.pc) && FinalConf(s'.disk) == FinalConf(s.disk)
  {
    var d, u, k := s.disk, s.pc.user, s.pc.kind;
    var src, dst := d.key[k], d.conf[u][k];
    CopyAfterWrite(src, dst, n, m);
    InUserKept(d, s.pc.left, u, k, dst[n := Overlay(src[n][..m], FileOf(dst, n))]);
    var s' := Written(s, n, m);
    forall j | j in src && j !in s'.pc.files
      ensures FileSettled(s'.disk, u, k, j)
    {
      FilesStaySettled(d, u, k, n, m, j);
    }
  }

  lemma DeleteKeeps(s: State, s': State)
    requires At(s.disk, s.pc) && ExecCerts(s, s') && s.pc.DeleteKind?
    ensures At(s'.disk, s'.pc) && FinalConf(s'.disk) == FinalConf(s.disk)
  {
    var d, k := s.disk, s.pc.kind;
    if k in d.key {
      if d.key[k] == map[] {
        DeleteDirKeeps(d, k);
      } else {
        var n :| n in d.key[k] && s' == State(d.(key := d.key[k := d.key[k] - {n}]), DeleteKind(k));
        DeleteFileKeeps(d, k, n);
      }
    }
    if s'.pc == Persist {
      NoKinds(s'.disk.key);
      forall u | u in d.users
        ensures u in d.conf
      {
        assert UserSettled(d, u);
      }
    }
  }

  lemma NoKinds(key: CertDirs)
    requires Added !in key && Removed !in key
    ensures key == map[]
  {
    forall k: Kind
      ensures k !in key
    {
      match k case Added => case Removed =>
    }
  }

  lemma PersistKeeps(d: Disk)
    requires At(d, Persist)
    ensures var d' := if d.version <= 2 then d.(version := 3) else d;
            FinalConf(d') == FinalConf(d)
  {
    forall c: CertDirs
      ensures CopyKeys(map[], c) == c
    {
    }
  }

  // ---------------------------------------------------------------- every step keeps the target

  lemma ExecKeepsTarget(s: State, s': State)
    requires At(s.disk, s.pc) && Exec(s, s')
    ensures At(s'.disk, s'.pc) && Target(s') == Target(s)
  {
    if ExecMedia(s, s') {
      MediaKeepsTarget(s, s');
    } else {
      CertsKeepTarget(s, s');
    }
  }

  lemma MediaKeepsTarget(s: State, s': State)
    requires At(s.disk, s.pc) && ExecMedia(s, s')
    ensures At(s'.disk, s'.pc) && Target(s') == Target(s)
  {
    MediaStepKeeps(s, s');
    RestUntouched(s, s');
  }

  lemma MediaStepKeeps(s: State, s': State)
    requires At(s.disk, s.pc) && ExecMedia(s, s')
    ensures At(s'.disk, s'.pc) && FinalMedia(s'.disk, s'.pc) == FinalMedia(s.disk, s.pc)
  {
    match s.pc
    case MoveToTmp => MoveToTmpKeeps(s, s');
    case MoveToOwner => MoveToOwnerKeeps(s, s');
    case UserDirs(_) => UserDirKeeps(s, s');
    case MoveObb => MoveObbKeeps(s, s');
    case OwnerDir => EnsureKeeps(s, s');
    case ObbDir => EnsureKeeps(s, s');
    case _ => EarlyStepKeeps(s, s');
  }

  lemma RestUntouched(s: State, s': State)
    requires ExecMedia(s, s')
    ensures s'.disk.version == s.disk.version && s'.disk.users + {PRIMARY} == s.disk.users + {PRIMARY}
    ensures s'.disk.key == s.disk.key && FinalConf(s'.disk) == FinalConf(s.disk)
  {
    assert s.disk.users + {PRIMARY} + {PRIMARY} == s.disk.users + {PRIMARY};
    assert s'.disk.conf == s.disk.conf;
  }

  lemma CertsKeepTarget(s: State, s': State)
    requires At(s.disk, s.pc) && ExecCerts(s, s')
    ensures At(s'.disk, s'.pc) && Target(s') == Target(s)
  {
    if s.pc == Persist {
      PersistStepKeeps(s, s');
    } else {
      MediaUntouched(s, s');
      match s.pc
      case CertUsers(_) => CertUserKeeps(s, s');
      case CertKind(_, _, _) => CertKindKeeps(s, s');
      case CertFiles(_, _, _, _) => CertFileKeeps(s, s');
      case DeleteKind(_) => DeleteKeeps(s, s');
      case OwnerConf => OwnerConfKeeps(s, s');
    }
  }

  lemma MediaUntouched(s: State, s': State)
    requires At(s.disk, s.pc) && ExecCerts(s, s') && s.pc != Persist
    ensures s'.disk.version == s.disk.version && s'.disk.users == s.disk.users
    ensures s.disk.version > 2 ==> s'.disk.key == s.disk.key
    ensures FinalMedia(s'.disk, s'.pc) == FinalMedia(s.disk, s.pc)
  {
    assert s'.disk.media == s.disk.media;
    assert !Early(s.pc) && !Early(s'.pc) && LeftUsers(s.pc) == LeftUsers(s'.pc) == {};
  }

  lemma OwnerConfKeeps(s: State, s': State)
    requires At(s.disk, s.pc) && ExecCerts(s, s') && s.pc == OwnerConf
    ensures At(s'.disk, s'.pc) && FinalConf(s'.disk) == FinalConf(s.disk)
  {
    OwnerConfMade(s.disk);
    assert s.disk.users - s.disk.users == {};
  }

  lemma OwnerConfMade(d: Disk)
    ensures FinalConf(d.(conf := d.conf[PRIMARY := ConfOf(d.conf, PRIMARY)])) == FinalConf(d)
  {
    var d' := d.(conf := d.conf[PRIMARY := ConfOf(d.conf, PRIMARY)]);
    assert Receivers(d') == Receivers(d);
    forall v
      ensures FinalOf(d, v) == FinalOf(d', v)
    {
      assert ConfOf(d'.conf, v) == ConfOf(d.conf, v);
    }
    ConfEqual(d, d');
  }

  lemma PersistStepKeeps(s: State, s': State)
    requires At(s.disk, s.pc) && ExecCerts(s, s') && s.pc == Persist
    ensures At(s'.disk, s'.pc) && Target(s') == Target(s)
  {
    PersistKeeps(s.disk);
    NoUsers(s.disk.media);
  }

  /** A finished run has reached its target. */
  lemma DoneIsTarget(s: State)
    requires At(s.disk, s.pc) && s.pc == Done
    ensures s.disk == Target(s)
  {
    assert FinalConf(s.disk) == s.disk.conf;
  }
}
