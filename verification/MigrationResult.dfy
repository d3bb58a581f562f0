/**
 * What an upgrade is for: where a run that nothing interrupts has put the media files, the shared
 * obb files and the certificates when it is done.
 */
module MigrationResult {
  import opened MigrationDisk
  import opened Migration
  import opened MigrationResume
  import opened MigrationCrash
  import opened MigrationEnds

  /** A run from the start of the program to its end, without a crash and without a failure. */
  ghost predicate Upgrade(run: seq<State>) {
    && |run| > 0 && run[0].pc == Start && run[|run| - 1].pc == Done
    && forall i :: 0 <= i < |run| - 1 ==> Exec(run[i], run[i + 1])
  }

  function First(run: seq<State>): Disk
    requires |run| > 0
  {
    run[0].disk
  }

  function Last(run: seq<State>): Disk
    requires |run| > 0
  {
    run[|run| - 1].disk
  }

  lemma {:induction false} TargetKept(run: seq<State>, n: nat)
    requires |run| > 0 && At(run[0].disk, run[0].pc) && n < |run|
    requires forall i :: 0 <= i < |run| - 1 ==> Exec(run[i], run[i + 1])
    ensures At(run[n].disk, run[n].pc) && Target(run[n]) == Target(run[0])
  {
    if n > 0 {
      TargetKept(run, n - 1);
      assert Exec(run[n - 1], run[(n - 1) + 1]);
      ExecKeepsTarget(run[n - 1], run[n]);
    }
  }

  lemma ReachesTarget(run: seq<State>)
    requires Upgrade(run)
    ensures Last(run) == Target(run[0])
  {
    TargetKept(run, |run| - 1);
    DoneIsTarget(run[|run| - 1]);
  }

  // ---------------------------------------------------------------- where the media files are

  /** The node at `q`, if there is one, is the one that was at `p`, if there was one. */
  ghost predicate CameFrom(t': Tree, q: Path, t: Tree, p: Path) {
    (q in t' <==> p in t) && (q in t' ==> t'[q] == t[p])
  }

  lemma {:induction false} ObbMoved(t: Tree, r: Path)
    requires OWNER_OBB in t && OBB !in t
    ensures var t' := Prepare(Prepare(Rename(t, OWNER_OBB, OBB), OWNER), OBB);
            CameFrom(t', OBB + r, t, OWNER_OBB + r) && OWNER_OBB + r !in t'
  {
    RenameAt(t, OWNER_OBB, OBB, OBB + r);
    RenameAt(t, OWNER_OBB, OBB, OBB);
    RenameAt(t, OWNER_OBB, OBB, OWNER_OBB + r);
    assert (OBB + r)[2..] == r && OBB[2..] == [] && OWNER_OBB + [] == OWNER_OBB;
    assert (OWNER_OBB + r)[1] == "0" && (OBB + r)[1] == "obb";
  }

  lemma {:induction false} ObbElsewhere(t: Tree, q: Path)
    requires OWNER_OBB in t && OBB !in t && !(OBB <= q) && !(OWNER_OBB <= q) && q != OWNER
    ensures CameFrom(Prepare(Prepare(Rename(t, OWNER_OBB, OBB), OWNER), OBB), q, t, q)
  {
    RenameAt(t, OWNER_OBB, OBB, q);
  }

  /** From version 1: the owner's obb files are shared now, if there was no such directory yet. */
  lemma {:induction false} ObbIsShared(run: seq<State>, r: Path)
    requires Upgrade(run) && First(run).version == 1
    requires ["media", "0", "Android", "obb"] in First(run).media && ["media", "obb"] !in First(run).media
    ensures CameFrom(Last(run).media, ["media", "obb"] + r, First(run).media, ["media", "0", "Android", "obb"] + r)
    ensures ["media", "0", "Android", "obb"] + r !in Last(run).media
  {
    ReachesTarget(run);
    ObbMoved(First(run).media, r);
  }

  /** Otherwise they stay where they are. */
  lemma {:induction false} ObbStays(run: seq<State>, q: Path)
    requires Upgrade(run) && First(run).version >= 1
    requires First(run).version >= 2 || ["media", "0", "Android", "obb"] !in First(run).media
             || ["media", "obb"] in First(run).media
    requires q != ["media", "0"] && q != ["media", "obb"]
    ensures CameFrom(Last(run).media, q, First(run).media, q)
  {
    ReachesTarget(run);
  }

  /** Nothing else moves. */
  lemma {:induction false} OthersStay(run: seq<State>, q: Path)
    requires Upgrade(run) && First(run).version >= 1 && q != ["media", "0"]
    requires !(["media", "obb"] <= q) && !(["media", "0", "Android", "obb"] <= q)
    ensures CameFrom(Last(run).media, q, First(run).media, q)
  {
    ReachesTarget(run);
    var t := First(run).media;
    if OWNER_OBB in t && OBB !in t && First(run).version == 1 { ObbElsewhere(t, q); }
  }

  /** From every version: both directories are there in the end. */
  lemma {:induction false} DirectoriesMade(run: seq<State>)
    requires Upgrade(run)
    ensures ["media", "0"] in Last(run).media && ["media", "obb"] in Last(run).media
  {
    ReachesTarget(run);
  }

  /** The tree of an upgrade from version 0, before the obb files are moved. */
  lemma {:induction false} OwnerGetsAll(t: Tree, users: set<string>, r: Path)
    requires Ordinary(t) && PRIMARY !in users
    ensures CameFrom(WithUsers(Nested(t), users), OWNER + r, t, MEDIA + r)
  {
    var t' := WithUsers(Nested(t), users);
    assert MEDIA_TMP <= MEDIA_TMP;
    assert Nested(t) == OwnersTree(t);
    AgainCanMove(t);
    MovedBelow(Again(t), MEDIA_TMP, OWNER, r);
    MovedBelow(t, MEDIA, MEDIA_TMP, r);
    assert (MEDIA_TMP + r)[0] != MEDIA[0];
    forall u | u in users
      ensures UserMedia(u) != OWNER + r
    {
      assert (OWNER + r)[1] == PRIMARY && UserMedia(u)[1] == u;
    }
  }

  /** What is not below media/0 in that tree. */
  lemma {:induction false} NewTreeElsewhere(t: Tree, users: set<string>, q: Path)
    requires Ordinary(t) && !(OWNER <= q)
    ensures q in WithUsers(Nested(t), users) ==> q == MEDIA || (exists u :: u in users && q == UserMedia(u)) || q in t
    ensures MEDIA < q && q in WithUsers(Nested(t), users) ==> exists u :: u in users && q == UserMedia(u)
    ensures forall u :: u in users ==> UserMedia(u) in WithUsers(Nested(t), users)
  {
    assert MEDIA_TMP <= MEDIA_TMP;
    assert Nested(t) == OwnersTree(t);
    OwnersTreeAt(t, q);
    AgainCanMove(t);
    RenameAt(Again(t), MEDIA_TMP, OWNER, q);
    RenameAt(t, MEDIA, MEDIA_TMP, q);
  }

  /** The tree of a finished upgrade from version 0. */
  lemma NewTree(run: seq<State>)
    requires Upgrade(run) && First(run).version == 0
    ensures Last(run).media == Finished(0, WithUsers(Nested(First(run).media), First(run).users - {PRIMARY}))
  {
    ReachesTarget(run);
  }

  /** The obb files of an upgrade from version 0 go on to media/obb, unless a user is called obb. */
  ghost predicate Shared(d: Disk, r: Path) {
    ["Android", "obb"] <= r && ["media", "Android", "obb"] in d.media && "obb" !in d.users
  }

  /**
   * From an ordinary tree of version 0: each file that was below media is below media/0, but what
   * was below media/Android/obb is below media/obb, and has left media/0.
   */
  lemma {:induction false} MediaIsOwners(run: seq<State>, r: Path)
    requires Upgrade(run) && First(run).version == 0 && Ordinary(First(run).media)
    ensures if Shared(First(run), r)
            then && CameFrom(Last(run).media, ["media", "obb"] + r[2..], First(run).media, ["media"] + r)
                 && ["media", "0"] + r !in Last(run).media
            else CameFrom(Last(run).media, ["media", "0"] + r, First(run).media, ["media"] + r)
  {
    NewTree(run);
    var d := First(run);
    var users := d.users - {PRIMARY};
    var t := WithUsers(Nested(d.media), users);
    OwnerGetsAll(d.media, users, r);
    OwnerGetsAll(d.media, users, []);
    OwnerGetsAll(d.media, users, ["Android", "obb"]);
    assert OWNER + ["Android", "obb"] == OWNER_OBB && MEDIA + ["Android", "obb"] == LEGACY_OBB;
    assert OWNER + [] == OWNER && MEDIA + [] == MEDIA;
    ObbOfUser(d.media, users);
    FinishedFrom(t, d.media, MEDIA, r, Shared(d, r));
  }

  /** The obb files of an upgrade that was cut off before go on to media/obb, unless that is there. */
  ghost predicate SharedLater(d: Disk, r: Path) {
    && ["Android", "obb"] <= r && ["media.tmp", "Android", "obb"] in d.media
    && ["media", "obb"] !in d.media && "obb" !in d.users
  }

  lemma ObbPaths()
    ensures OWNER + ["Android", "obb"] == OWNER_OBB && OWNER + [] == OWNER && MEDIA_TMP + [] == MEDIA_TMP
    ensures MEDIA_TMP + ["Android", "obb"] == ["media.tmp", "Android", "obb"]
  {
  }

  /** From version 0 where there is a media.tmp already: the same for the files below media.tmp. */
  lemma {:induction false} TmpIsOwners(run: seq<State>, r: Path)
    requires Upgrade(run) && First(run).version == 0 && ["media.tmp"] in First(run).media
    ensures if SharedLater(First(run), r)
            then && CameFrom(Last(run).media, ["media", "obb"] + r[2..], First(run).media, ["media.tmp"] + r)
                 && ["media", "0"] + r !in Last(run).media
            else CameFrom(Last(run).media, ["media", "0"] + r, First(run).media, ["media.tmp"] + r)
  {
    NewTree(run);
    var d := First(run);
    var users := d.users - {PRIMARY};
    var t := WithUsers(Nested(d.media), users);
    OwnerGetsTmp(d.media, users, r);
    OwnerGetsTmp(d.media, users, []);
    OwnerGetsTmp(d.media, users, ["Android", "obb"]);
    ObbPaths();
    ObbBeside(d.media, users);
    FinishedFrom(t, d.media, MEDIA_TMP, r, SharedLater(d, r));
  }

  lemma {:induction false} OwnerGetsTmp(t: Tree, users: set<string>, r: Path)
    requires MEDIA_TMP in t && PRIMARY !in users
    ensures CameFrom(WithUsers(Nested(t), users), OWNER + r, t, MEDIA_TMP + r)
  {
    MovedBelow(Prepare(t, MEDIA), MEDIA_TMP, OWNER, r);
    assert (MEDIA_TMP + r)[0] != MEDIA[0];
    forall u | u in users
      ensures UserMedia(u) != OWNER + r
    {
      assert (OWNER + r)[1] == PRIMARY && UserMedia(u)[1] == u;
    }
  }

  lemma {:induction false} ObbBeside(t: Tree, users: set<string>)
    requires MEDIA_TMP in t
    ensures OBB in WithUsers(Nested(t), users) <==> OBB in t || "obb" in users
  {
    RenameAt(Prepare(t, MEDIA), MEDIA_TMP, OWNER, OBB);
    assert OWNER[1] == "0" && OBB[1] == "obb" && MEDIA_TMP[0] != OBB[0];
    forall u | u in users && UserMedia(u) == OBB
      ensures u == "obb"
    {
      assert UserMedia(u)[1] == u;
    }
    assert UserMedia("obb") == OBB;
  }

  /** What the steps from version 1 on do below media/0. */
  lemma {:induction false} FinishedAt(t: Tree, r: Path)
    requires OWNER in t
    ensures if ["Android", "obb"] <= r && OWNER_OBB in t && OBB !in t
            then CameFrom(Finished(0, t), OBB + r[2..], t, OWNER + r) && OWNER + r !in Finished(0, t)
            else CameFrom(Finished(0, t), OWNER + r, t, OWNER + r)
  {
    assert (OWNER + r)[1] == "0" && OBB[1] == "obb";
    if OWNER_OBB in t && OBB !in t {
      if ["Android", "obb"] <= r {
        assert r == ["Android", "obb"] + r[2..] && OWNER_OBB + r[2..] == OWNER + r;
        ObbMoved(t, r[2..]);
      } else if r != [] {
        NotInObb(r);
        ObbElsewhere(t, OWNER + r);
      } else {
        assert OWNER + r == OWNER;
        RenameAt(t, OWNER_OBB, OBB, OWNER);
      }
    }
  }

  lemma FinishedFrom(t: Tree, t0: Tree, base: Path, r: Path, shared: bool)
    requires OWNER in t && CameFrom(t, OWNER + r, t0, base + r)
    requires shared <==> ["Android", "obb"] <= r && OWNER_OBB in t && OBB !in t
    ensures if shared then CameFrom(Finished(0, t), OBB + r[2..], t0, base + r) && OWNER + r !in Finished(0, t)
            else CameFrom(Finished(0, t), OWNER + r, t0, base + r)
  {
    FinishedAt(t, r);
  }

  lemma {:induction false} NotInObb(r: Path)
    requires !(["Android", "obb"] <= r)
    ensures !(OWNER_OBB <= OWNER + r) && !(OBB <= OWNER + r)
  {
    var q := OWNER + r;
    assert q[1] == "0";
    if |r| >= 2 {
      assert q[2] == r[0] && q[3] == r[1] && r[..2] == [r[0], r[1]];
    }
  }

  lemma {:induction false} ObbOfUser(t: Tree, users: set<string>)
    requires Ordinary(t)
    ensures OBB in WithUsers(Nested(t), users) <==> "obb" in users
  {
    assert OWNER[1] == "0" && OBB[1] == "obb" && OBB[0] == MEDIA[0];
    NewTreeElsewhere(t, users, OBB);
    if OBB in WithUsers(Nested(t), users) {
      var u :| u in users && OBB == UserMedia(u);
      assert OBB[1] == u;
    }
    if "obb" in users { assert UserMedia("obb") == OBB; }
  }

  /** The other users get a directory each; nothing else is in media, and media.tmp is gone. */
  lemma {:induction false} UsersGetDirectories(run: seq<State>, q: Path)
    requires Upgrade(run) && First(run).version == 0 && Ordinary(First(run).media)
    ensures forall u :: u in First(run).users ==> ["media", u] in Last(run).media
    ensures q in Last(run).media && ["media"] < q && !(["media", "0"] <= q) && !(["media", "obb"] <= q) ==>
              exists u :: u in First(run).users && q == ["media", u]
    ensures ["media.tmp"] <= q ==> q !in Last(run).media
  {
    forall u | u in First(run).users
      ensures ["media", u] in Last(run).media
    {
      UserHasDirectory(run, u);
    }
    if MEDIA_TMP <= q { assert q[0] == "media.tmp" && OWNER[0] == "media" && OBB[0] == "media"; }
    if q in Last(run).media && !(OWNER <= q) && !(OBB <= q) { NothingElse(run, q); }
  }

  lemma {:induction false} NothingElse(run: seq<State>, q: Path)
    requires Upgrade(run) && First(run).version == 0 && Ordinary(First(run).media)
    requires !(OWNER <= q) && !(OBB <= q) && q in Last(run).media
    ensures MEDIA < q ==> exists u :: u in First(run).users && q == ["media", u]
    ensures !(MEDIA_TMP <= q)
  {
    NewTree(run);
    var d := First(run);
    var users := d.users - {PRIMARY};
    var t := WithUsers(Nested(d.media), users);
    FinishedElsewhere(t, q);
    NewTreeElsewhere(d.media, users, q);
    if MEDIA < q {
      var u :| u in users && q == UserMedia(u);
      assert u in d.users && q == ["media", u];
    }
    assert MEDIA_TMP[0] != MEDIA[0];
  }

  lemma {:induction false} FinishedElsewhere(t: Tree, q: Path)
    requires !(OWNER <= q) && !(OBB <= q) && q in Finished(0, t)
    ensures q in t
  {
    if OWNER_OBB in t && OBB !in t { RenameAt(t, OWNER_OBB, OBB, q); }
  }

  lemma {:induction false} UserHasDirectory(run: seq<State>, u: string)
    requires Upgrade(run) && First(run).version == 0 && Ordinary(First(run).media) && u in First(run).users
    ensures ["media", u] in Last(run).media
  {
    NewTree(run);
    var d := First(run);
    var users := d.users - {PRIMARY};
    if u != "0" {
      assert ["media", u][1] == u && OWNER[1] == PRIMARY;
      NewTreeElsewhere(d.media, users, ["media", u]);
      assert UserMedia(u) in WithUsers(Nested(d.media), users);
    }
    FinishedHas(WithUsers(Nested(d.media), users), u);
  }

  lemma {:induction false} FinishedHas(t: Tree, u: string)
    requires u == "0" || ["media", u] in t
    ensures ["media", u] in Finished(0, t)
  {
    var q := ["media", u];
    assert q[1] == u && OWNER[1] == "0" && OBB[1] == "obb";
    if OWNER_OBB in t && OBB !in t { RenameAt(t, OWNER_OBB, OBB, q); }
  }

  // ---------------------------------------------------------------- version and users

  /** The layout is the newest, and the link for the primary user is there. */
  lemma {:induction false} VersionPersisted(run: seq<State>)
    requires Upgrade(run)
    ensures Last(run).version == if First(run).version < 3 then 3 else First(run).version
    ensures Last(run).users == First(run).users + {"0"}
  {
    ReachesTarget(run);
  }

  // ---------------------------------------------------------------- certificates

  /** `c` starts with `src`; where the file was longer, the rest of it is still there. */
  ghost predicate WrittenOver(c: seq<int>, src: seq<int>, before: seq<int>) {
    && src <= c && |c| == (if |src| < |before| then |before| else |src|)
    && forall i :: |src| <= i < |c| ==> c[i] == before[i]
  }

  /** The certificate `n` of kind `k` that user `u` has. */
  ghost predicate Has(d: Disk, u: string, k: Kind, n: string) {
    u in d.conf && k in d.conf[u] && n in d.conf[u][k]
  }

  ghost predicate InKeychain(d: Disk, k: Kind, n: string) {
    k in d.key && n in d.key[k]
  }

  /** Up to version 2, every user gets each certificate of the keychain, and the keychain goes. */
  lemma {:induction false} CertsDelivered(run: seq<State>, u: string, k: Kind, n: string)
    requires Upgrade(run) && First(run).version <= 2 && (u in First(run).users || u == "0")
    requires InKeychain(First(run), k, n)
    ensures Has(Last(run), u, k, n)
    ensures WrittenOver(Last(run).conf[u][k][n], First(run).key[k][n],
                        if Has(First(run), u, k, n) then First(run).conf[u][k][n] else [])
    ensures Last(run).key == map[]
  {
    ReachesTarget(run);
    var d := First(run);
    assert Last(run).conf[u] == CopyKeys(d.key, ConfOf(d.conf, u));
  }

  /** All other certificates stay as they are, and from version 3 on the keychain does. */
  lemma {:induction false} CertsKept(run: seq<State>, u: string, k: Kind, n: string)
    requires Upgrade(run)
    requires First(run).version > 2 || !(u in First(run).users || u == "0") || !InKeychain(First(run), k, n)
    ensures Has(Last(run), u, k, n) <==> Has(First(run), u, k, n)
    ensures Has(Last(run), u, k, n) ==> Last(run).conf[u][k][n] == First(run).conf[u][k][n]
    ensures First(run).version > 2 ==> Last(run).key == First(run).key
  {
    ReachesTarget(run);
    var d := First(run);
    assert u in Last(run).conf ==> Last(run).conf[u] == FinalOf(d, u);
  }
}
