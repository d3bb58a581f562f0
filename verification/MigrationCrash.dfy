/**
 * Runs of `initialize_directories` in which power is lost at any steps.  A run that completes after
 * crashes leaves what an uninterrupted run leaves, if and only if no crash from version 0 came
 * after media.tmp was renamed to media/0.
 */
module MigrationCrash {
  import opened MigrationDisk
  import opened Migration
  import opened MigrationResume

  /** A run from the start, with a crash and a restart wherever one likes. */
  ghost predicate CrashRun(run: seq<State>) {
    && |run| > 0 && run[0].pc == Start
    && forall i :: 0 <= i < |run| - 1 ==> Exec(run[i], run[i + 1]) || Restart(run[i], run[i + 1])
  }

  /** The persisted version is still 0, and this run has moved the owner's media already. */
  predicate Late(s: State) {
    s.disk.version == 0 && !Early(s.pc)
  }

  ghost predicate LateRestart(s: State, s': State) {
    Late(s) && Restart(s, s')
  }

  ghost predicate NoLateRestart(run: seq<State>, n: nat)
    requires n < |run|
  {
    forall i :: 0 <= i < n ==> !LateRestart(run[i], run[i + 1])
  }

  // ---------------------------------------------------------------- how deep the zeros go

  /** media/0/0/.../0 */
  function Zeros(n: nat): (p: Path)
    ensures |p| == n + 1 && p[0] == "media" && forall i :: 0 < i <= n ==> p[i] == "0"
  {
    if n == 0 then MEDIA else Zeros(n - 1) + ["0"]
  }

  /** There is a chain of zeros in the tree, and it is the longest. */
  lemma {:induction false} LongestZeros(t: Tree, k: nat) returns (m: nat)
    requires Zeros(k) in t
    ensures m >= k && Zeros(m) in t && forall j :: j > m ==> Zeros(j) !in t
    decreases |set q | q in t && |q| > k + 1|
  {
    m := k;
    if j :| j > k && Zeros(j) in t {
      var before, after := set q | q in t && |q| > k + 1, set q | q in t && |q| > j + 1;
      assert Zeros(j) in before - after && after <= before;
      Shrinks(before, after, Zeros(j));
      m := LongestZeros(t, j);
    }
  }

  lemma Shrinks(before: set<Path>, after: set<Path>, p: Path)
    requires after <= before && p in before && p !in after
    ensures |after| < |before|
  {
    var rest := before - {p};
    assert after <= rest;
    Fewer(after, rest);
  }

  lemma {:induction false} Fewer(a: set<Path>, b: set<Path>)
    requires a <= b
    ensures |a| <= |b|
  {
    if p :| p in a { Fewer(a - {p}, b - {p}); }
  }

  /** The upgrade from version 0 puts every chain one level deeper. */
  lemma NestsDeeper(t: Tree, j: nat)
    requires MEDIA_TMP !in t && MEDIA in t && Zeros(j) in t
    ensures Zeros(j + 1) in Nested(t)
  {
    var z := MEDIA_TMP + Zeros(j)[1..];
    var a := Rename(t, MEDIA, MEDIA_TMP);
    RenameAt(t, MEDIA, MEDIA_TMP, z);
    assert MEDIA + z[1..] == Zeros(j);
    assert z in a;
    var b := Prepare(a, MEDIA);
    RenameAt(b, MEDIA_TMP, OWNER, Zeros(j + 1));
    assert OWNER <= Zeros(j + 1);
    assert Zeros(j + 1)[2..] == Zeros(j)[1..];
  }

  /** The rest of the program leaves the chains of two or more zeros alone. */
  lemma {:induction false} FinishedZeros(t: Tree, users: set<string>, j: nat)
    requires j >= 2
    ensures Zeros(j) in Finished(0, WithUsers(t, users)) <==> Zeros(j) in t
  {
    var z := Zeros(j);
    assert forall u :: UserMedia(u) != z by {
      assert forall u :: |UserMedia(u)| == 2;
    }
    assert z in WithUsers(t, users) <==> z in t;
    RenameAt(WithUsers(t, users), OWNER_OBB, OBB, z);
    assert z[1] == "0" && z[2] == "0";
    assert !(OBB <= z) by { assert OBB[1] != z[1]; }
    assert !(OWNER_OBB <= z) by { assert OWNER_OBB[2] != z[2]; }
  }

  // ---------------------------------------------------------------- runs

  /** The target differs from the first one in a chain of zeros that is longer than any there. */
  ghost predicate Nests(first: State, s: State, k: nat) {
    k >= 2 && Zeros(k) in Target(s).media && forall j :: j >= k ==> Zeros(j) !in Target(first).media
  }

  /** No late restart so far, and the target is the first one; or else one, and it never is again. */
  ghost predicate Follows(first: State, s: State, clean: bool) {
    if clean then Target(s) == Target(first) else exists k: nat :: Nests(first, s, k)
  }

  /** Chains in what a late state is about to become. */
  lemma {:induction false} LateZeros(s: State, j: nat)
    requires Late(s) && j >= 2
    ensures Zeros(j) in Target(s).media <==> Zeros(j) in s.disk.media
  {
    FinishedZeros(s.disk.media, LeftUsers(s.pc), j);
  }

  /** Chains in what it becomes when it is started again. */
  lemma RestartedZeros(t: Tree, users: set<string>, k: nat, z: Path)
    requires MEDIA_TMP !in t && MEDIA in t && k >= 1 && Zeros(k) in t && z == Zeros(k + 1)
    ensures z in Finished(0, WithUsers(Nested(t), users))
  {
    NestsDeeper(t, k);
    var nested := Nested(t);
    ZerosStay(nested, users, k + 1);
  }

  lemma {:induction false} ZerosStay(t: Tree, users: set<string>, k: nat)
    requires k >= 2 && Zeros(k) in t
    ensures Zeros(k) in Finished(0, WithUsers(t, users))
  {
    FinishedZeros(t, users, k);
  }

  lemma NotThere(t: Tree)
    requires forall q :: q in t ==> !(MEDIA_TMP <= q)
    ensures MEDIA_TMP !in t
  {
    assert MEDIA_TMP <= MEDIA_TMP;
  }

  lemma StartTarget(d: Disk)
    requires d.version == 0
    ensures Target(State(d, Start)).media == Finished(0, WithUsers(Nested(d.media), d.users - {PRIMARY}))
  {
  }

  /** A late restart changes the target, and later ones do not change it back. */
  lemma LateRestartShows(first: State, s: State, clean: bool)
    requires Late(s) && OwnerMoved(s.disk) && Follows(first, s, clean)
    ensures Follows(first, State(s.disk, Start), false)
  {
    var k: nat;
    if clean {
      assert Zeros(1) == OWNER;
      k := LongestZeros(s.disk.media, 1);
    } else {
      k :| Nests(first, s, k);
      LateZeros(s, k);
    }
    NotThere(s.disk.media);
    RestartedZeros(s.disk.media, s.disk.users - {PRIMARY}, k, Zeros(k + 1));
    StartTarget(s.disk);
    forall j | j >= k + 1
      ensures Zeros(j) !in Target(first).media
    {
      LateZeros(s, j);
    }
    assert Nests(first, State(s.disk, Start), k + 1);
  }

  lemma LateIsMoved(s: State)
    requires At(s.disk, s.pc) && Late(s)
    ensures OwnerMoved(s.disk)
  {
  }

  lemma StepFollows(first: State, s: State, s': State, clean: bool)
    requires At(s.disk, s.pc) && Follows(first, s, clean) && (Exec(s, s') || Restart(s, s'))
    ensures At(s'.disk, s'.pc) && Follows(first, s', clean && !LateRestart(s, s'))
  {
    if LateRestart(s, s') {
      LateIsMoved(s);
      LateRestartShows(first, s, clean);
    } else {
      if Exec(s, s') { ExecKeepsTarget(s, s'); }
      assert Target(s') == Target(s);
      if !clean {
        var k: nat :| Nests(first, s, k);
        assert Nests(first, s', k);
      }
    }
  }

  /** Along the run the target is the first one, until a late restart, and never again after it. */
  lemma {:induction false} TargetAlong(run: seq<State>, n: nat)
    requires CrashRun(run) && n < |run|
    ensures At(run[n].disk, run[n].pc)
    ensures Follows(run[0], run[n], NoLateRestart(run, n))
  {
    if n > 0 {
      TargetAlong(run, n - 1);
      var s, s' := run[n - 1], run[n];
      assert run[(n - 1) + 1] == s';
      StepFollows(run[0], s, s', NoLateRestart(run, n - 1));
    }
  }

  /** Where a run that completes ends up. */
  lemma CompleteRun(run: seq<State>)
    requires CrashRun(run) && run[|run| - 1].pc == Done
    ensures run[|run| - 1].disk == Target(run[0]) <==> NoLateRestart(run, |run| - 1)
  {
    var n := |run| - 1;
    TargetAlong(run, n);
    DoneIsTarget(run[n]);
    if !NoLateRestart(run, n) {
      var k: nat :| Nests(run[0], run[n], k);
      assert Zeros(k) !in Target(run[0]).media;
    }
  }

  /**
   * `run` has crashes and `plain` has none; both start on the same disk and complete.  They leave
   * the same disk if and only if `run` was not restarted late.
   */
  lemma CrashesDoNotShow(run: seq<State>, plain: seq<State>)
    requires CrashRun(run) && CrashRun(plain) && run[0] == plain[0]
    requires forall i :: 0 <= i < |plain| - 1 ==> !Restart(plain[i], plain[i + 1])
    requires run[|run| - 1].pc == Done && plain[|plain| - 1].pc == Done
    ensures run[|run| - 1].disk == plain[|plain| - 1].disk <==> NoLateRestart(run, |run| - 1)
  {
    CompleteRun(run);
    CompleteRun(plain);
  }

  /** The persisted version never goes back. */
  lemma {:induction false} VersionStays(run: seq<State>, n: nat)
    requires CrashRun(run) && n < |run| && run[0].disk.version > 0
    ensures run[n].disk.version > 0
  {
    if n > 0 {
      VersionStays(run, n - 1);
      assert run[(n - 1) + 1] == run[n];
    }
  }

  /** From version 1, 2 or later, no crash shows. */
  lemma CrashesNeverShow(run: seq<State>, plain: seq<State>)
    requires CrashRun(run) && CrashRun(plain) && run[0] == plain[0] && run[0].disk.version > 0
    requires run[|run| - 1].pc == Done && plain[|plain| - 1].pc == Done
    ensures run[|run| - 1].disk == plain[|plain| - 1].disk
  {
    forall i | 0 <= i < |run| { VersionStays(run, i); }
    forall i | 0 <= i < |plain| { VersionStays(plain, i); }
    CompleteRun(run);
    CompleteRun(plain);
  }

  /** Every late restart loses the target. */
  lemma LateRestartDiffers(s: State)
    requires At(s.disk, s.pc) && Late(s)
    ensures Target(State(s.disk, Start)) != Target(s)
  {
    LateIsMoved(s);
    LateRestartShows(s, s, true);
    var k: nat :| Nests(s, State(s.disk, Start), k);
    assert Zeros(k) !in Target(s).media;
  }
}
