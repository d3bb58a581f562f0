/** `free_cache`: collect every cache directory, then evict until there is enough space. */
module FreeCache {
  import opened Wrappers
  import opened Limits
  import opened CacheTree
  import opened CacheDisk
  import opened CacheStore
  import opened CacheEvict
  import opened CacheCollect
  import opened CacheRoots
  import opened CacheDirs

  /** A null pointer is followed, or the path buffer of the evictor is too small; or the call returns. */
  datatype Outcome = Returned(value: int) | Killed | Overrun

  /** The cache directories to collect, by their full paths: none lies in another. */
  ghost predicate RootsOk(roots: seq<Entry>) {
    && (forall i :: 0 <= i < |roots| ==> roots[i].Directory? && |roots[i].name| < PATH_MAX && SoundInside(roots[i]))
    && (forall i, j :: 0 <= i < |roots| && 0 <= j < |roots| && i != j ==> !(roots[i].name + "/" <= roots[j].name + "/"))
  }

  const NOTHING: Cache := Cache([], [], [], [], [])

  ghost predicate OfRoots(roots: seq<Entry>, n: string) {
    exists j :: 0 <= j < |roots| && OfEntry("", roots[j].name, n)
  }

  lemma RootsApart(roots: seq<Entry>, i: nat, j: nat, n: string)
    requires RootsOk(roots) && i < |roots| && j < |roots|
    requires OfEntry("", roots[i].name, n) && OfEntry("", roots[j].name, n)
    ensures i == j
  {
    var a, b, m := roots[i].name + "/", roots[j].name + "/", n + "/";
    assert "" + roots[i].name == roots[i].name && "" + roots[j].name == roots[j].name;
    assert a <= m && b <= m;
    assert a <= b || b <= a;
  }

  ghost predicate Under(root: Entry, n: string) {
    root.name + "/" <= n
  }

  lemma {:induction false} InRootIsUnder(root: Entry, n: string)
    requires root.Directory? && InEntry("", root, n)
    ensures Under(root, n)
  {
    InEntryBelow("", root, n);
    assert "" + root.name + "/" == root.name + "/";
  }

  lemma UnderIsOf(root: Entry, n: string)
    requires Under(root, n)
    ensures OfEntry("", root.name, n)
  {
    assert "" + root.name + "/" == root.name + "/";
  }

  ghost predicate InSomeRoot(roots: seq<Entry>, i: nat, n: string) {
    exists j :: 0 <= j < i && j < |roots| && Under(roots[j], n)
  }

  /** Everything collected from the first `i` roots lies in them. */
  ghost predicate FromRoots(c: Cache, roots: seq<Entry>, i: nat)
    requires Shape(c)
  {
    && (forall x :: 0 <= x < |c.tree| ==> InSomeRoot(roots, i, Path(c.tree, x)))
    && (forall k :: 0 <= k < |c.files| ==> InSomeRoot(roots, i, FilePath(c.tree, c.files[k])))
    && (forall x :: 0 <= x < |c.tree| && c.tree[x].parent == -1 ==>
                      exists j :: 0 <= j < i && j < |roots| && c.tree[x].name == roots[j].name)
  }

  ghost predicate ListedFile(roots: seq<Entry>, i: nat, n: string, time: int) {
    exists j :: 0 <= j < i && j < |roots| && FileAt("", roots[j], n, time)
  }

  ghost predicate Listed(roots: seq<Entry>, i: nat, n: string) {
    exists j :: 0 <= j < i && j < |roots| && InEntry("", roots[j], n)
  }

  /** Collected files and directories are listed ones, and their paths fit the buffer, but for a
      directory's terminator. */
  ghost predicate Within(c: Cache, roots: seq<Entry>, i: nat)
    requires Shape(c)
  {
    && (forall x :: 0 <= x < |c.tree| ==> |Path(c.tree, x)| <= PATH_MAX && Listed(roots, i, Path(c.tree, x)))
    && (forall k :: 0 <= k < |c.files| ==>
                      && |FilePath(c.tree, c.files[k])| < PATH_MAX
                      && ListedFile(roots, i, FilePath(c.tree, c.files[k]), c.files[k].modTime))
    && HiddenListed(c, roots, i)
  }

  /** In the directory with path `p` itself there is an entry that is only counted. */
  ghost predicate HasHidden(roots: seq<Entry>, i: nat, p: string) {
    exists j :: 0 <= j < i && j < |roots| && HiddenUnder("", roots[j], p)
  }

  ghost predicate HiddenListed(c: Cache, roots: seq<Entry>, i: nat)
    requires Shape(c)
  {
    forall x :: 0 <= x < |c.tree| && c.hiddenCount[x] > 0 ==> HasHidden(roots, i, Path(c.tree, x))
  }

  lemma HiddenListedStep(c: Cache, c': Cache, roots: seq<Entry>, i: nat)
    requires Growing(c) && i < |roots| && HiddenListed(c, roots, i)
    requires Attached(c, c', -1, roots[i].name) && Walked(c, c', "", roots[i])
    ensures HiddenListed(c', roots, i + 1)
  {
    forall x | 0 <= x < |c'.tree| && c'.hiddenCount[x] > 0
      ensures HasHidden(roots, i + 1, Path(c'.tree, x))
    {
      if x < |c.tree| {
        PathGrows(c.tree, c'.tree, x);
        HasHiddenMore(roots, i, i + 1, Path(c.tree, x));
      }
    }
  }

  lemma HasHiddenMore(roots: seq<Entry>, i: nat, i': nat, p: string)
    requires i <= i' && HasHidden(roots, i, p)
    ensures HasHidden(roots, i', p)
  {
    var j :| 0 <= j < i && j < |roots| && HiddenUnder("", roots[j], p);
  }

  ghost predicate LongIn(root: Entry, n: string) {
    InEntry("", root, n) && |n| == 4096 && n[|n| - 1] == '/'
  }

  /** There is a directory whose path, with its final slash, takes 4096 characters. */
  ghost predicate LongDir(roots: seq<Entry>) {
    exists j, n :: 0 <= j < |roots| && LongIn(roots[j], n)
  }

  lemma WithinStep(c: Cache, c': Cache, roots: seq<Entry>, i: nat)
    requires Growing(c) && i < |roots| && Within(c, roots, i)
    requires Attached(c, c', -1, roots[i].name) && Walked(c, c', "", roots[i])
    ensures Within(c', roots, i + 1)
  {
    HiddenListedStep(c, c', roots, i);
    forall x | 0 <= x < |c'.tree|
      ensures |Path(c'.tree, x)| <= PATH_MAX && Listed(roots, i + 1, Path(c'.tree, x))
    {
      if x < |c.tree| {
        PathGrows(c.tree, c'.tree, x);
        ListedMore(roots, i, i + 1, Path(c.tree, x));
      }
    }
    forall k | 0 <= k < |c'.files|
      ensures |FilePath(c'.tree, c'.files[k])| < PATH_MAX
      ensures ListedFile(roots, i + 1, FilePath(c'.tree, c'.files[k]), c'.files[k].modTime)
    {
      if k < |c.files| {
        FileStays(c, c', -1, roots[i].name, k);
        assert c'.files[k] == c.files[k];
        ListedFileMore(roots, i, i + 1, FilePath(c.tree, c.files[k]), c.files[k].modTime);
      }
    }
  }

  lemma ListedFileMore(roots: seq<Entry>, i: nat, i': nat, n: string, time: int)
    requires i <= i' && ListedFile(roots, i, n, time)
    ensures ListedFile(roots, i', n, time)
  {
    var j :| 0 <= j < i && j < |roots| && FileAt("", roots[j], n, time);
  }

  lemma ListedMore(roots: seq<Entry>, i: nat, i': nat, n: string)
    requires i <= i' && Listed(roots, i, n)
    ensures Listed(roots, i', n)
  {
    var j :| 0 <= j < i && j < |roots| && InEntry("", roots[j], n);
  }

  lemma WithinMore(c: Cache, roots: seq<Entry>, i: nat, i': nat)
    requires Shape(c) && i <= i' && Within(c, roots, i)
    ensures Within(c, roots, i')
  {
    forall x | 0 <= x < |c.tree| && c.hiddenCount[x] > 0
      ensures HasHidden(roots, i', Path(c.tree, x))
    {
      HasHiddenMore(roots, i, i', Path(c.tree, x));
    }
    forall x | 0 <= x < |c.tree|
      ensures Listed(roots, i', Path(c.tree, x))
    {
      ListedMore(roots, i, i', Path(c.tree, x));
    }
    forall k | 0 <= k < |c.files|
      ensures ListedFile(roots, i', FilePath(c.tree, c.files[k]), c.files[k].modTime)
    {
      ListedFileMore(roots, i, i', FilePath(c.tree, c.files[k]), c.files[k].modTime);
    }
  }

  /** The path buffer of the evictor is large enough unless there is such a directory. */
  lemma RoomyUnlessLong(c: Cache, roots: seq<Entry>)
    requires Shape(c) && Within(c, roots, |roots|) && !Roomy(c)
    ensures LongDir(roots)
  {
    var d :| 0 <= d < |c.tree| && |Path(c.tree, d)| >= PATH_MAX;
    var j :| 0 <= j < |roots| && InEntry("", roots[j], Path(c.tree, d));
    assert LongIn(roots[j], Path(c.tree, d));
  }

  ghost predicate CoveredRoots(c: Cache, roots: seq<Entry>, i: nat, nodes: set<string>)
    requires Shape(c)
  {
    forall j, n :: 0 <= j < i && j < |roots| && n in nodes && OfEntry("", roots[j].name, n) ==> Covered(c, 0, n)
  }

  ghost predicate AgreesFrom(roots: seq<Entry>, i: nat, nodes: set<string>) {
    forall j :: i <= j < |roots| ==> Agrees("", roots[j], nodes)
  }

  ghost predicate RootsListed(t: seq<Node>, roots: seq<Entry>, i: nat) {
    forall j :: 0 <= j < i && j < |roots| ==> Node(-1, roots[j].name) in t
  }

  /** A clean collection of the first `i` roots. */
  ghost predicate CleanRoots(c: Cache, roots: seq<Entry>, i: nat, nodes: set<string>)
    requires Shape(c)
  {
    && Present(NOTHING, c, nodes) && AgreesFrom(roots, i, nodes)
    && CoveredRoots(c, roots, i, nodes) && RootsListed(c.tree, roots, i)
  }

  lemma FromRootsStep(c: Cache, c': Cache, roots: seq<Entry>, i: nat)
    requires Growing(c) && i < |roots| && RootsOk(roots) && FromRoots(c, roots, i)
    requires Attached(c, c', -1, roots[i].name) && Walked(c, c', "", roots[i])
    ensures FromRoots(c', roots, i + 1)
  {
    forall x | 0 <= x < |c'.tree|
      ensures InSomeRoot(roots, i + 1, Path(c'.tree, x))
    {
      if x < |c.tree| {
        PathGrows(c.tree, c'.tree, x);
        var j :| 0 <= j < i && j < |roots| && Under(roots[j], Path(c.tree, x));
      } else {
        InRootIsUnder(roots[i], Path(c'.tree, x));
      }
    }
    forall k | 0 <= k < |c'.files|
      ensures InSomeRoot(roots, i + 1, FilePath(c'.tree, c'.files[k]))
    {
      if k < |c.files| {
        assert c'.files[k] == c.files[k];
        PathGrows(c.tree, c'.tree, c.files[k].dir);
        var j :| 0 <= j < i && j < |roots| && Under(roots[j], FilePath(c.tree, c.files[k]));
      } else {
        FileAtIsInEntry("", roots[i], FilePath(c'.tree, c'.files[k]), c'.files[k].modTime);
        InRootIsUnder(roots[i], FilePath(c'.tree, c'.files[k]));
      }
    }
    RootNames(c, c', roots, i);
  }

  lemma RootNames(c: Cache, c': Cache, roots: seq<Entry>, i: nat)
    requires Growing(c) && i < |roots| && FromRoots(c, roots, i) && Attached(c, c', -1, roots[i].name)
    ensures forall x :: 0 <= x < |c'.tree| && c'.tree[x].parent == -1 ==>
                          exists j :: 0 <= j < i + 1 && j < |roots| && c'.tree[x].name == roots[j].name
  {
    forall x | 0 <= x < |c'.tree| && c'.tree[x].parent == -1
      ensures exists j :: 0 <= j < i + 1 && j < |roots| && c'.tree[x].name == roots[j].name
    {
      if x < |c.tree| { assert c'.tree[x] == c.tree[x]; }
    }
  }

  /** The next root overlaps none of those collected so far. */
  lemma NextRootUnused(c: Cache, roots: seq<Entry>, i: nat)
    requires Growing(c) && i < |roots| && RootsOk(roots) && FromRoots(c, roots, i)
    ensures Unused(c, -1, roots[i].name)
  {
    forall x | 0 <= x < |c.tree| && c.tree[x].parent == -1
      ensures !(Path(c.tree, x) <= roots[i].name + "/") && !(roots[i].name + "/" <= Path(c.tree, x))
    {
      var j :| 0 <= j < i && j < |roots| && c.tree[x].name == roots[j].name;
      assert Path(c.tree, x) == "" + roots[j].name + "/" == roots[j].name + "/";
    }
  }

  lemma OtherRootsStay(roots: seq<Entry>, i: nat, j: nat, n: string, nodes: set<string>, nodes': set<string>)
    requires RootsOk(roots) && i < |roots| && j < |roots| && i != j
    requires RemovedInside("", roots[i].name, nodes, nodes') && OfEntry("", roots[j].name, n)
    ensures n in nodes <==> n in nodes'
  {
    if n in nodes && n !in nodes' { RootsApart(roots, i, j, n); }
  }

  lemma StillAgrees(roots: seq<Entry>, i: nat, j: nat, nodes: set<string>, nodes': set<string>)
    requires RootsOk(roots) && i < |roots| && j < |roots| && i != j
    requires RemovedInside("", roots[i].name, nodes, nodes') && Agrees("", roots[j], nodes)
    ensures Agrees("", roots[j], nodes')
  {
    forall n | InEntry("", roots[j], n)
      ensures n in nodes'
    {
      InEntryIsOfEntry("", roots[j], n);
      OtherRootsStay(roots, i, j, n, nodes, nodes');
    }
  }

  lemma CoveredRootsStep(c: Cache, c': Cache, roots: seq<Entry>, i: nat, nodes: set<string>, nodes': set<string>)
    requires Growing(c) && i < |roots| && CoveredRoots(c, roots, i, nodes) && nodes' <= nodes
    requires Attached(c, c', -1, roots[i].name)
    requires forall n :: n in nodes' && OfEntry("", roots[i].name, n) ==> Covered(c', 0, n)
    ensures CoveredRoots(c', roots, i + 1, nodes')
  {
    forall j, n | 0 <= j < i + 1 && n in nodes' && OfEntry("", roots[j].name, n)
      ensures Covered(c', 0, n)
    {
      if j < i {
        assert Covered(c, 0, n);
        CoveredStays(c, c', -1, roots[i].name, n);
      }
    }
  }

  lemma CleanRootsStep(c: Cache, c': Cache, roots: seq<Entry>, i: nat, nodes: set<string>, nodes': set<string>)
    requires Growing(c) && i < |roots| && RootsOk(roots) && FromRoots(c, roots, i) && CleanRoots(c, roots, i, nodes)
    requires Attached(c, c', -1, roots[i].name) && Gathered(c, nodes, "", roots[i], true, c', nodes')
    requires Node(-1, roots[i].name) in c'.tree
    ensures CleanRoots(c', roots, i + 1, nodes')
  {
    forall j | i + 1 <= j < |roots|
      ensures Agrees("", roots[j], nodes')
    {
      StillAgrees(roots, i, j, nodes, nodes');
    }
    CoveredRootsStep(c, c', roots, i, nodes, nodes');
    PresentRoots(c, c', roots, i, nodes, nodes');
  }

  lemma PresentRoots(c: Cache, c': Cache, roots: seq<Entry>, i: nat, nodes: set<string>, nodes': set<string>)
    requires Growing(c) && i < |roots| && RootsOk(roots) && FromRoots(c, roots, i)
    requires Attached(c, c', -1, roots[i].name) && RemovedInside("", roots[i].name, nodes, nodes')
    requires Present(NOTHING, c, nodes) && Present(c, c', nodes')
    ensures Present(NOTHING, c', nodes')
  {
    forall x | 0 <= x < |c.tree|
      ensures Path(c'.tree, x) in nodes'
    {
      PathGrows(c.tree, c'.tree, x);
      var j :| 0 <= j < i && j < |roots| && Under(roots[j], Path(c.tree, x));
      UnderIsOf(roots[j], Path(c.tree, x));
      OtherRootsStay(roots, i, j, Path(c.tree, x), nodes, nodes');
    }
    forall k | 0 <= k < |c.files|
      ensures FilePath(c'.tree, c'.files[k]) in nodes'
    {
      assert c'.files[k] == c.files[k];
      PathGrows(c.tree, c'.tree, c.files[k].dir);
      var n := FilePath(c.tree, c.files[k]);
      var j :| 0 <= j < i && j < |roots| && Under(roots[j], n);
      UnderIsOf(roots[j], n);
      OtherRootsStay(roots, i, j, n, nodes, nodes');
    }
  }

  lemma InsideIsOfRoot(c: Cache, roots: seq<Entry>, n: string) returns (j: int)
    requires Shape(c) && FromRoots(c, roots, |roots|) && Inside(c, n)
    ensures 0 <= j < |roots| && OfEntry("", roots[j].name, n)
  {
    var d :| 0 <= d < |c.tree| && Path(c.tree, d) < n;
    j :| 0 <= j < |roots| && Under(roots[j], Path(c.tree, d));
    assert Under(roots[j], n);
    UnderIsOf(roots[j], n);
  }

  /** A clean collection of all roots is in step with the disk. */
  lemma CleanIsInStep(c: Cache, roots: seq<Entry>, nodes: set<string>)
    requires Shape(c) && FromRoots(c, roots, |roots|) && CleanRoots(c, roots, |roots|, nodes)
    ensures InStep(c, 0, nodes)
  {
    forall n | n in nodes && Inside(c, n)
      ensures Covered(c, 0, n)
    {
      var j := InsideIsOfRoot(c, roots, n);
    }
  }

  // ---------------------------------------------------------------- free_cache

  ghost predicate AllReadable(roots: seq<Entry>) {
    forall j :: 0 <= j < |roots| ==> Readable(roots[j])
  }

  /** The removed nodes all lie in the cache directories. */
  ghost predicate OnlyInRoots(roots: seq<Entry>, before: set<string>, after: set<string>) {
    after <= before && forall n :: n in before && n !in after ==> OfRoots(roots, n)
  }

  /** The state after collecting the first `i` roots. */
  ghost predicate SoFar(roots: seq<Entry>, i: nat, clean: bool, nodes0: set<string>, c: Cache, nodes: set<string>) {
    && Growing(c) && FromRoots(c, roots, i) && Within(c, roots, i) && OnlyInRoots(roots, nodes0, nodes)
    && (clean && AgreesFrom(roots, 0, nodes0) ==> CleanRoots(c, roots, i, nodes))
  }

  lemma SoFarStep(roots: seq<Entry>, i: nat, clean: bool, nodes0: set<string>, c: Cache, nodes: set<string>,
                  clean': bool, c': Cache, nodes': set<string>)
    requires i < |roots| && RootsOk(roots) && SoFar(roots, i, clean, nodes0, c, nodes)
    requires Attached(c, c', -1, roots[i].name) && Gathered(c, nodes, "", roots[i], clean', c', nodes')
    requires clean ==> clean' && Node(-1, roots[i].name) in c'.tree
    ensures SoFar(roots, i + 1, clean, nodes0, c', nodes')
  {
    FromRootsStep(c, c', roots, i);
    WithinStep(c, c', roots, i);
    if clean && AgreesFrom(roots, 0, nodes0) { CleanRootsStep(c, c', roots, i, nodes, nodes'); }
  }

  /** `_add_cache_files` for one cache directory, if it opens. */
  method CollectRoot(cache: Store, disk: Disk, roots: seq<Entry>, i: nat, ghost clean: bool, ghost nodes0: set<string>)
    returns (crashed: bool, next: nat, ghost c': Cache, ghost nodes': set<string>)
    requires cache.Room() && RootsOk(roots) && i < |roots|
    requires SoFar(roots, i, clean, nodes0, cache.Snap(), disk.nodes)
    requires Thorough(cache.Snap(), "", roots, i, !cache.arena.tight, nodes0, disk.nodes)
    requires clean ==> !disk.faulty && !cache.arena.tight && AllReadable(roots)
    modifies cache, cache.arena, disk`nodes, disk`free
    ensures cache.Room() && (crashed ==> cache.arena.tight)
    ensures next == i + 1 && c' == cache.Snap() && nodes' == disk.nodes && SoFar(roots, next, clean, nodes0, c', nodes')
    ensures Thorough(c', "", roots, next, !cache.arena.tight, nodes0, nodes')
  {
    ghost var c, nodes := cache.Snap(), disk.nodes;
    var root := roots[i];
    if !root.opens {
      RootSkipped(c, roots, i, clean, !cache.arena.tight, nodes0, nodes);
      return false, i + 1, c, nodes;
    }
    crashed, next, c', nodes' := OpenRoot(cache, disk, roots, i, clean, nodes0);
  }

  method OpenRoot(cache: Store, disk: Disk, roots: seq<Entry>, i: nat, ghost clean: bool, ghost nodes0: set<string>)
    returns (crashed: bool, next: nat, ghost c': Cache, ghost nodes': set<string>)
    requires cache.Room() && RootsOk(roots) && i < |roots| && roots[i].opens
    requires SoFar(roots, i, clean, nodes0, cache.Snap(), disk.nodes)
    requires Thorough(cache.Snap(), "", roots, i, !cache.arena.tight, nodes0, disk.nodes)
    requires clean ==> !disk.faulty && !cache.arena.tight && AllReadable(roots)
    modifies cache, cache.arena, disk`nodes, disk`free
    ensures cache.Room() && (crashed ==> cache.arena.tight)
    ensures next == i + 1 && c' == cache.Snap() && nodes' == disk.nodes && SoFar(roots, next, clean, nodes0, c', nodes')
    ensures Thorough(c', "", roots, next, !cache.arena.tight, nodes0, nodes')
  {
    ghost var c, nodes := cache.Snap(), disk.nodes;
    var root := roots[i];
    NextRootUnused(c, roots, i);
    crashed := CollectDir(cache, disk, -1, "", root, root.name, PATH_MAX - |root.name|);
    next, c', nodes' := i + 1, cache.Snap(), disk.nodes;
    RootDone(c, c', roots, i, clean, NoFailure(cache, disk, root), !cache.arena.tight, nodes0, nodes, nodes');
  }

  lemma RootSkipped(c: Cache, roots: seq<Entry>, i: nat, clean: bool, full: bool,
                    nodes0: set<string>, nodes: set<string>)
    requires i < |roots| && roots[i].Directory? && !roots[i].opens && !clean
    requires SoFar(roots, i, clean, nodes0, c, nodes) && Thorough(c, "", roots, i, full, nodes0, nodes)
    ensures SoFar(roots, i + 1, clean, nodes0, c, nodes) && Thorough(c, "", roots, i + 1, full, nodes0, nodes)
  {
    SoFarSkip(roots, i, clean, nodes0, c, nodes, i + 1);
    assert Complete(c, "", roots[i]);
  }

  lemma RootDone(c: Cache, c': Cache, roots: seq<Entry>, i: nat, clean: bool, clean': bool, full: bool,
                 nodes0: set<string>, nodes: set<string>, nodes': set<string>)
    requires i < |roots| && RootsOk(roots) && SoFar(roots, i, clean, nodes0, c, nodes)
    requires Thorough(c, "", roots, i, full, nodes0, nodes)
    requires Attached(c, c', -1, roots[i].name) && Gathered(c, nodes, "", roots[i], clean', c', nodes')
    requires clean ==> clean' && Node(-1, roots[i].name) in c'.tree
    requires (full ==> Complete(c', "", roots[i])) && Spared("", roots[i], nodes, nodes')
    ensures SoFar(roots, i + 1, clean, nodes0, c', nodes') && Thorough(c', "", roots, i + 1, full, nodes0, nodes')
  {
    SoFarStep(roots, i, clean, nodes0, c, nodes, clean', c', nodes');
    RootThorough(c, c', roots, i, full, nodes0, nodes, nodes');
  }

  lemma RootThorough(c: Cache, c': Cache, roots: seq<Entry>, i: nat, full: bool,
                     nodes0: set<string>, nodes: set<string>, nodes': set<string>)
    requires Growing(c) && RootsOk(roots) && i < |roots| && Thorough(c, "", roots, i, full, nodes0, nodes)
    requires Attached(c, c', -1, roots[i].name) && (full ==> Complete(c', "", roots[i]))
    requires RemovedInside("", roots[i].name, nodes, nodes') && Spared("", roots[i], nodes, nodes')
    ensures Thorough(c', "", roots, i + 1, full, nodes0, nodes')
  {
    forall j | full && 0 <= j < i + 1
      ensures Complete(c', "", roots[j])
    {
      if j < i { CompleteStays(c, c', -1, roots[i].name, "", roots[j]); }
    }
    forall j | 0 <= j < |roots|
      ensures Spared("", roots[j], nodes0, nodes')
    {
      RootSpared(roots, i, j, nodes0, nodes, nodes');
    }
  }

  lemma RootSpared(roots: seq<Entry>, i: nat, j: nat, nodes0: set<string>, nodes: set<string>, nodes': set<string>)
    requires RootsOk(roots) && i < |roots| && j < |roots| && Spared("", roots[j], nodes0, nodes)
    requires RemovedInside("", roots[i].name, nodes, nodes') && Spared("", roots[i], nodes, nodes')
    ensures Spared("", roots[j], nodes0, nodes')
  {
    forall n | Safe("", roots[j], n) && n in nodes0
      ensures n in nodes'
    {
      assert n in nodes;
      if j != i {
        SafeIsInEntry("", roots[j], n);
        InEntryIsOfEntry("", roots[j], n);
        OtherRootsStay(roots, i, j, n, nodes, nodes');
      }
    }
  }

  lemma SoFarStart(roots: seq<Entry>, clean: bool, nodes: set<string>)
    ensures SoFar(roots, 0, clean, nodes, NOTHING, nodes)
  {
  }

  lemma SoFarSkip(roots: seq<Entry>, i: nat, clean: bool, nodes0: set<string>, c: Cache, nodes: set<string>, i': nat)
    requires i <= i' && !clean && SoFar(roots, i, clean, nodes0, c, nodes)
    ensures SoFar(roots, i', clean, nodes0, c, nodes)
  {
    FromMoreRoots(c, roots, i, i');
    WithinMore(c, roots, i, i');
  }

  lemma FromMoreRoots(c: Cache, roots: seq<Entry>, i: nat, i': nat)
    requires Shape(c) && i <= i' && FromRoots(c, roots, i)
    ensures FromRoots(c, roots, i')
  {
    forall x | 0 <= x < |c.tree|
      ensures InSomeRoot(roots, i', Path(c.tree, x))
    {
      assert InSomeRoot(roots, i, Path(c.tree, x));
      var j :| 0 <= j < i && j < |roots| && Under(roots[j], Path(c.tree, x));
    }
    forall k | 0 <= k < |c.files|
      ensures InSomeRoot(roots, i', FilePath(c.tree, c.files[k]))
    {
      assert InSomeRoot(roots, i, FilePath(c.tree, c.files[k]));
      var j :| 0 <= j < i && j < |roots| && Under(roots[j], FilePath(c.tree, c.files[k]));
    }
  }

  lemma SoFarEnd(roots: seq<Entry>, i: nat, clean: bool, nodes0: set<string>, c: Cache, nodes: set<string>)
    requires SoFar(roots, i, clean, nodes0, c, nodes) && i <= |roots| && (clean ==> i == |roots|)
    ensures Growing(c) && FromRoots(c, roots, |roots|) && Within(c, roots, |roots|) && OnlyInRoots(roots, nodes0, nodes)
    ensures clean && AgreesFrom(roots, 0, nodes0) ==> InStep(c, 0, nodes) && RootsListed(c.tree, roots, |roots|)
  {
    FromMoreRoots(c, roots, i, |roots|);
    WithinMore(c, roots, i, |roots|);
    if clean && AgreesFrom(roots, 0, nodes0) { CleanIsInStep(c, roots, nodes); }
  }

  /** `add_cache_files`, over all cache directories. */
  method CollectRoots(cache: Store, disk: Disk, roots: seq<Entry>) returns (crashed: bool)
    requires cache.Room() && cache.Snap() == NOTHING && RootsOk(roots)
    modifies cache, cache.arena, disk`nodes, disk`free
    ensures cache.Room() && Growing(cache.Snap()) && FromRoots(cache.Snap(), roots, |roots|)
    ensures Within(cache.Snap(), roots, |roots|)
    ensures OnlyInRoots(roots, old(disk.nodes), disk.nodes)
    ensures crashed ==> cache.arena.tight
    ensures Thorough(cache.Snap(), "", roots, |roots|, !cache.arena.tight, old(disk.nodes), disk.nodes)
    ensures !disk.faulty && !cache.arena.tight && AllReadable(roots) && AgreesFrom(roots, 0, old(disk.nodes)) ==>
              InStep(cache.Snap(), 0, disk.nodes) && RootsListed(cache.tree, roots, |roots|)
  {
    ghost var nodes0, clean := disk.nodes, !disk.faulty && !cache.arena.tight && AllReadable(roots);
    SoFarStart(roots, clean, nodes0);
    crashed := false;
    var i := 0;
    ghost var c, nodes := cache.Snap(), disk.nodes;
    while i < |roots| && !crashed
      invariant 0 <= i <= |roots| && cache.Room() && (crashed ==> cache.arena.tight)
      invariant c == cache.Snap() && nodes == disk.nodes && SoFar(roots, i, clean, nodes0, c, nodes)
      invariant Thorough(c, "", roots, i, !cache.arena.tight, nodes0, nodes)
    {
      crashed, i, c, nodes := CollectRoot(cache, disk, roots, i, clean, nodes0);
    }
    SoFarEnd(roots, i, clean, nodes0, c, nodes);
  }

  /** What eviction may remove lies in the cache directories. */
  lemma EvictedInRoots(c: Cache, v: nat, roots: seq<Entry>, before: set<string>, after: set<string>)
    requires Shape(c) && v <= |c.files| && FromRoots(c, roots, |roots|) && OnlyMayGo(c, v, before, after)
    ensures OnlyInRoots(roots, before, after)
  {
    forall n | n in before && n !in after
      ensures OfRoots(roots, n)
    {
      assert MayGo(c, v, n);
      var j: int;
      if k :| 0 <= k < v && n == FilePath(c.tree, c.files[k]) {
        j :| 0 <= j < |roots| && Under(roots[j], FilePath(c.tree, c.files[k]));
      } else {
        var d :| Spent(c, v, d) && TakenWith(c, d, n);
        j :| 0 <= j < |roots| && Under(roots[j], Path(c.tree, d));
        assert Under(roots[j], n);
      }
      UnderIsOf(roots[j], n);
    }
  }

  lemma SortedFromRoots(c: Cache, c': Cache, roots: seq<Entry>)
    requires Shape(c) && Shape(c') && FromRoots(c, roots, |roots|)
    requires c'.tree == c.tree && multiset(c'.files) == multiset(c.files)
    ensures FromRoots(c', roots, |roots|)
  {
    forall k | 0 <= k < |c'.files|
      ensures InSomeRoot(roots, |roots|, FilePath(c'.tree, c'.files[k]))
    {
      assert c'.files[k] in multiset(c.files);
      var l :| 0 <= l < |c.files| && c.files[l] == c'.files[k];
      var j :| 0 <= j < |roots| && Under(roots[j], FilePath(c.tree, c.files[l]));
    }
  }

  lemma SortedInRoots(c: Cache, c': Cache, v: nat, roots: seq<Entry>, before: set<string>, after: set<string>)
    requires Shape(c) && Shape(c') && FromRoots(c, roots, |roots|)
    requires c'.tree == c.tree && multiset(c'.files) == multiset(c.files)
    requires v <= |c'.files| && OnlyMayGo(c', v, before, after)
    ensures OnlyInRoots(roots, before, after)
  {
    SortedFromRoots(c, c', roots);
    EvictedInRoots(c', v, roots, before, after);
  }

  /** With all collected directories gone, nothing is left in the cache directories. */
  lemma RootsEmptied(c: Cache, roots: seq<Entry>, nodes: set<string>)
    requires Shape(c) && RootsListed(c.tree, roots, |roots|)
    requires forall d :: 0 <= d < |c.tree| && c.tree[d].parent < 0 ==> NothingUnder(nodes, Path(c.tree, d))
    ensures forall j :: 0 <= j < |roots| ==> NothingUnder(nodes, roots[j].name + "/")
  {
    forall j | 0 <= j < |roots|
      ensures NothingUnder(nodes, roots[j].name + "/")
    {
      assert Node(-1, roots[j].name) in c.tree;
      var d :| 0 <= d < |c.tree| && c.tree[d] == Node(-1, roots[j].name);
      assert Path(c.tree, d) == "" + roots[j].name + "/" == roots[j].name + "/";
    }
  }

  ghost predicate RootsEmpty(roots: seq<Entry>, nodes: set<string>) {
    forall j :: 0 <= j < |roots| ==> NothingUnder(nodes, roots[j].name + "/")
  }

  // ---------------------------------------------------------------- what one call evicts

  /** `free_cache` can get at a listed visible file with path `n` and time `t`, and the path fits. */
  ghost predicate Evictable(roots: seq<Entry>, n: string, t: int) {
    |n| < 4096 && exists j :: 0 <= j < |roots| && Reach("", roots[j], n, t)
  }

  ghost predicate AllFound(c: Cache, roots: seq<Entry>)
    requires Shape(c)
  {
    forall n, t :: Evictable(roots, n, t) ==> Collected(c, n, t)
  }

  ghost predicate IsFile(roots: seq<Entry>, n: string) {
    exists t :: ListedFile(roots, |roots|, n, t)
  }

  /** The paths are those of listed files, all different, in the order of the files' times. */
  ghost predicate InOrder(roots: seq<Entry>, paths: seq<string>) {
    && (forall i :: 0 <= i < |paths| ==> IsFile(roots, paths[i]))
    && (forall i, j :: 0 <= i < j < |paths| ==> paths[i] != paths[j])
    && (forall i, j, t, u ::
          0 <= i < j < |paths| && ListedFile(roots, |roots|, paths[i], t) && ListedFile(roots, |roots|, paths[j], u) ==>
            t <= u)
  }

  /** Each file comes after every older one that can be got at. */
  ghost predicate NoneSkipped(roots: seq<Entry>, paths: seq<string>) {
    forall j, m, t, u ::
      0 <= j < |paths| && ListedFile(roots, |roots|, paths[j], t) && Evictable(roots, m, u) && u < t ==>
        m in paths[..j]
  }

  /** A file that can be got at and is gone is among the paths. */
  ghost predicate OnlyThese(roots: seq<Entry>, before: set<string>, after: set<string>, paths: seq<string>) {
    forall n, t :: Evictable(roots, n, t) && n in before && n !in after ==> n in paths
  }

  /** No file below directory `p` that can be got at is left once the paths have been evicted. */
  ghost predicate Emptied(roots: seq<Entry>, paths: seq<string>, p: string) {
    && Listed(roots, |roots|, p) && p != [] && p[|p| - 1] == '/'
    && forall m, t :: Evictable(roots, m, t) && p <= m ==> m in paths
  }

  ghost predicate IsRoot(roots: seq<Entry>, p: string) {
    exists j :: 0 <= j < |roots| && p == roots[j].name + "/"
  }

  /** `n` goes with an emptied directory `p`: it is that directory, and not one of the cache directories, or
      it lies in that directory, which has an entry that is only counted. */
  ghost predicate GoesWith(roots: seq<Entry>, paths: seq<string>, n: string, p: string) {
    Emptied(roots, paths, p) && if n == p then !IsRoot(roots, p) else p < n && HasHidden(roots, |roots|, p)
  }

  /** Besides the paths, only what is not safe is removed, and what goes with emptied directories. */
  ghost predicate NothingElse(roots: seq<Entry>, before: set<string>, after: set<string>, paths: seq<string>) {
    forall n :: n in before && n !in after && n !in paths && AlwaysSafe(roots, n) ==>
                  exists p :: GoesWith(roots, paths, n, p)
  }

  ghost predicate AllThese(roots: seq<Entry>, paths: seq<string>) {
    forall n, t :: Evictable(roots, n, t) ==> n in paths
  }

  ghost predicate AllGone(paths: seq<string>, after: set<string>) {
    forall i :: 0 <= i < |paths| ==> paths[i] !in after
  }

  /** Where a file is gone, so is every older one. */
  ghost predicate OlderGone(roots: seq<Entry>, before: set<string>, after: set<string>) {
    forall n, m, t, u :: Evictable(roots, n, t) && Evictable(roots, m, u) && u < t && n in before && n !in after ==>
                           m !in after
  }

  /** What follows from the log of the calls of `unlink` when each of them works. */
  lemma OlderAreGone(roots: seq<Entry>, before: set<string>, after: set<string>, paths: seq<string>)
    requires NoneSkipped(roots, paths) && OnlyThese(roots, before, after, paths) && AllGone(paths, after)
    ensures OlderGone(roots, before, after)
  {
    forall n, m, t, u | Evictable(roots, n, t) && Evictable(roots, m, u) && u < t && n in before && n !in after
      ensures m !in after
    {
      var j :| 0 <= j < |paths| && paths[j] == n;
      EvictableIsListed(roots, n, t);
      assert m in paths[..j];
    }
  }

  lemma EvictableIsListed(roots: seq<Entry>, n: string, t: int)
    requires Evictable(roots, n, t)
    ensures ListedFile(roots, |roots|, n, t)
  {
    var j :| 0 <= j < |roots| && Reach("", roots[j], n, t);
    ReachIsFileAt("", roots[j], n, t);
  }

  lemma ListedTime(roots: seq<Entry>, n: string, t: int, u: int)
    requires RootsOk(roots) && ListedFile(roots, |roots|, n, t) && ListedFile(roots, |roots|, n, u)
    ensures t == u
  {
    var i :| 0 <= i < |roots| && FileAt("", roots[i], n, t);
    var j :| 0 <= j < |roots| && FileAt("", roots[j], n, u);
    FileAtIsOfEntry("", roots[i], n, t);
    FileAtIsOfEntry("", roots[j], n, u);
    RootsApart(roots, i, j, n);
    FileAtUnique("", roots[i], n, t, u);
  }

  /** The collection has been sorted, and its files are listed ones. */
  ghost predicate SortedListing(c: Cache, roots: seq<Entry>) {
    && Shape(c) && Named(c.tree) && FilesNamed(c.files) && Sorted(c.files)
    && forall k :: 0 <= k < |c.files| ==>
                     ListedFile(roots, |roots|, FilePath(c.tree, c.files[k]), c.files[k].modTime)
  }

  lemma SortedListed(c: Cache, c': Cache, roots: seq<Entry>)
    requires Shape(c) && Shape(c') && Within(c, roots, |roots|) && Named(c.tree) && FilesNamed(c.files)
    requires c'.tree == c.tree && multiset(c'.files) == multiset(c.files) && Sorted(c'.files)
    ensures SortedListing(c', roots)
  {
    SortingKeepsNames(c.files, c'.files);
    forall k | 0 <= k < |c'.files|
      ensures ListedFile(roots, |roots|, FilePath(c'.tree, c'.files[k]), c'.files[k].modTime)
    {
      assert c'.files[k] in multiset(c.files);
      var l :| 0 <= l < |c.files| && c.files[l] == c'.files[k];
    }
  }

  lemma SortedFound(c: Cache, c': Cache, roots: seq<Entry>)
    requires Shape(c) && Shape(c') && AllFound(c, roots)
    requires c'.tree == c.tree && multiset(c'.files) == multiset(c.files)
    ensures AllFound(c', roots)
  {
    forall n, t | Evictable(roots, n, t)
      ensures Collected(c', n, t)
    {
      var k :| 0 <= k < |c.files| && FilePath(c.tree, c.files[k]) == n && c.files[k].modTime == t;
      assert c.files[k] in multiset(c'.files);
      var l :| 0 <= l < |c'.files| && c'.files[l] == c.files[k];
    }
  }

  ghost predicate FirstFiles(c: Cache, paths: seq<string>)
    requires Shape(c)
  {
    |paths| <= |c.files| && forall k :: 0 <= k < |paths| ==> paths[k] == FilePath(c.tree, c.files[k])
  }

  lemma FirstInOrder(c: Cache, roots: seq<Entry>, paths: seq<string>)
    requires RootsOk(roots) && SortedListing(c, roots) && FirstFiles(c, paths)
    ensures InOrder(roots, paths)
  {
    forall i | 0 <= i < |paths|
      ensures IsFile(roots, paths[i])
    {
      assert ListedFile(roots, |roots|, paths[i], c.files[i].modTime);
    }
    forall i, j | 0 <= i < j < |paths|
      ensures paths[i] != paths[j]
    {
      FilePathsDiffer(c.tree, c.files[i], c.files[j]);
    }
    forall i, j, t, u | 0 <= i < j < |paths| && ListedFile(roots, |roots|, paths[i], t)
                        && ListedFile(roots, |roots|, paths[j], u)
      ensures t <= u
    {
      ListedTime(roots, paths[i], t, c.files[i].modTime);
      ListedTime(roots, paths[j], u, c.files[j].modTime);
    }
  }

  lemma OlderIsBefore(c: Cache, l: int, j: int)
    requires Sorted(c.files) && 0 <= l < |c.files| && 0 <= j < |c.files| && c.files[l].modTime < c.files[j].modTime
    ensures l < j
  {
  }

  lemma FirstSkipNone(c: Cache, roots: seq<Entry>, paths: seq<string>)
    requires RootsOk(roots) && SortedListing(c, roots) && FirstFiles(c, paths) && AllFound(c, roots)
    ensures NoneSkipped(roots, paths)
  {
    forall j, m, t, u | 0 <= j < |paths| && ListedFile(roots, |roots|, paths[j], t) && Evictable(roots, m, u) && u < t
      ensures m in paths[..j]
    {
      ListedTime(roots, paths[j], t, c.files[j].modTime);
      var l :| 0 <= l < |c.files| && FilePath(c.tree, c.files[l]) == m && c.files[l].modTime == u;
      OlderIsBefore(c, l, j);
      assert paths[..j][l] == m;
    }
  }

  /** What is not among the first files stays. */
  lemma OnlyFirstGone(c: Cache, roots: seq<Entry>, paths: seq<string>, before: set<string>, after: set<string>)
    requires Shape(c) && FirstFiles(c, paths) && AllFound(c, roots)
    requires forall k :: |paths| <= k < |c.files| && FilePath(c.tree, c.files[k]) in before ==>
                           FilePath(c.tree, c.files[k]) in after
    ensures OnlyThese(roots, before, after, paths)
  {
    forall n, t | Evictable(roots, n, t) && n in before && n !in after
      ensures n in paths
    {
      var k :| 0 <= k < |c.files| && FilePath(c.tree, c.files[k]) == n && c.files[k].modTime == t;
      assert k < |paths| && paths[k] == n;
    }
  }

  lemma AllAreThese(c: Cache, roots: seq<Entry>, paths: seq<string>)
    requires Shape(c) && FirstFiles(c, paths) && AllFound(c, roots) && |paths| == |c.files|
    ensures AllThese(roots, paths)
  {
    forall n, t | Evictable(roots, n, t)
      ensures n in paths
    {
      var k :| 0 <= k < |c.files| && FilePath(c.tree, c.files[k]) == n && c.files[k].modTime == t;
      assert paths[k] == n;
    }
  }

  lemma {:induction false} SpentIsEmptied(c: Cache, roots: seq<Entry>, paths: seq<string>, d: int)
    requires Shape(c) && Named(c.tree) && FilesNamed(c.files) && FirstFiles(c, paths) && AllFound(c, roots)
    requires Within(c, roots, |roots|) && Spent(c, |paths|, d)
    ensures Emptied(roots, paths, Path(c.tree, d))
  {
    var p := Path(c.tree, d);
    forall m, t | Evictable(roots, m, t) && p <= m
      ensures m in paths
    {
      var k :| 0 <= k < |c.files| && FilePath(c.tree, c.files[k]) == m && c.files[k].modTime == t;
      FilePrefixIsAncestor(c.tree, d, c.files[k]);
      assert paths[k] == m;
    }
  }

  lemma {:induction false} InnerIsNoRoot(c: Cache, roots: seq<Entry>, d: int)
    requires Shape(c) && RootsOk(roots) && FromRoots(c, roots, |roots|) && 0 <= d < |c.tree| && c.tree[d].parent >= 0
    ensures !IsRoot(roots, Path(c.tree, d))
  {
    var p := Path(c.tree, c.tree[d].parent);
    assert p < Path(c.tree, d);
    var i :| 0 <= i < |roots| && Under(roots[i], p);
    assert forall j :: 0 <= j < |roots| && j != i ==> !(roots[i].name + "/" <= roots[j].name + "/");
  }

  lemma {:induction false} TakenGoesWith(c: Cache, roots: seq<Entry>, paths: seq<string>, d: int, n: string)
    requires Shape(c) && Named(c.tree) && FilesNamed(c.files) && FirstFiles(c, paths) && AllFound(c, roots)
    requires RootsOk(roots) && FromRoots(c, roots, |roots|) && Within(c, roots, |roots|)
    requires Spent(c, |paths|, d) && TakenWith(c, d, n)
    ensures GoesWith(roots, paths, n, Path(c.tree, d))
  {
    SpentIsEmptied(c, roots, paths, d);
    if n == Path(c.tree, d) { InnerIsNoRoot(c, roots, d); }
  }

  lemma NothingElseEvicted(c: Cache, roots: seq<Entry>, paths: seq<string>, before: set<string>, after: set<string>)
    requires Shape(c) && Named(c.tree) && FilesNamed(c.files) && FirstFiles(c, paths) && AllFound(c, roots)
    requires RootsOk(roots) && FromRoots(c, roots, |roots|) && Within(c, roots, |roots|)
    requires OnlyMayGo(c, |paths|, before, after)
    ensures NothingElse(roots, before, after, paths)
  {
    forall n | n in before && n !in after
      ensures n in paths || exists p :: GoesWith(roots, paths, n, p)
    {
      assert MayGo(c, |paths|, n);
      if k :| 0 <= k < |paths| && n == FilePath(c.tree, c.files[k]) {
        assert paths[k] == n;
      } else {
        var d :| Spent(c, |paths|, d) && TakenWith(c, d, n);
        TakenGoesWith(c, roots, paths, d, n);
      }
    }
  }

  lemma SortedWithin(c: Cache, c': Cache, roots: seq<Entry>)
    requires Shape(c) && Shape(c') && Within(c, roots, |roots|)
    requires c'.tree == c.tree && c'.hiddenCount == c.hiddenCount && multiset(c'.files) == multiset(c.files)
    ensures Within(c', roots, |roots|)
  {
    forall k | 0 <= k < |c'.files|
      ensures |FilePath(c'.tree, c'.files[k])| < PATH_MAX
      ensures ListedFile(roots, |roots|, FilePath(c'.tree, c'.files[k]), c'.files[k].modTime)
    {
      assert c'.files[k] in multiset(c.files);
      var l :| 0 <= l < |c.files| && c.files[l] == c'.files[k];
    }
    assert HiddenListed(c', roots, |roots|) by {
      forall x | 0 <= x < |c'.tree| && c'.hiddenCount[x] > 0
        ensures HasHidden(roots, |roots|, Path(c'.tree, x))
      {
        assert HasHidden(roots, |roots|, Path(c.tree, x));
      }
    }
  }

  /** The paths are in order; and if everything was found, none is skipped, and no other file is lost. */
  ghost predicate Oldest(roots: seq<Entry>, full: bool, before: set<string>, after: set<string>, paths: seq<string>) {
    InOrder(roots, paths) && (full ==> NoneSkipped(roots, paths) && OnlyThese(roots, before, after, paths)
                                           && NothingElse(roots, before, after, paths))
  }

  /** From the collection `c`, sorted to `c'`, the first files have been evicted. */
  lemma OldestEvicted(c: Cache, c': Cache, roots: seq<Entry>, full: bool, before: set<string>, after: set<string>,
                      paths: seq<string>)
    requires RootsOk(roots) && Growing(c) && Within(c, roots, |roots|) && (full ==> AllFound(c, roots))
    requires Shape(c') && c'.tree == c.tree && c'.hiddenCount == c.hiddenCount && Sorted(c'.files)
    requires multiset(c'.files) == multiset(c.files) && FromRoots(c, roots, |roots|)
    requires FirstFiles(c', paths) && OnlyMayGo(c', |paths|, before, after)
    requires forall k :: |paths| <= k < |c'.files| && FilePath(c'.tree, c'.files[k]) in before ==>
                           FilePath(c'.tree, c'.files[k]) in after
    ensures Oldest(roots, full, before, after, paths)
    ensures full && |paths| == |c'.files| ==> AllThese(roots, paths)
  {
    SortedListed(c, c', roots);
    FirstInOrder(c', roots, paths);
    if full {
      SortedFound(c, c', roots);
      FirstSkipNone(c', roots, paths);
      OnlyFirstGone(c', roots, paths, before, after);
      SortedFromRoots(c, c', roots);
      SortedWithin(c, c', roots);
      NothingElseEvicted(c', roots, paths, before, after);
      if |paths| == |c'.files| { AllAreThese(c', roots, paths); }
    }
  }

  lemma TriedInTurn(c: Cache, v: nat, before: seq<string>, after: seq<string>, paths: seq<string>)
    requires Shape(c) && v <= |c.files| && InTurn(c, v, before, after) && paths == after[|before|..]
    ensures after == before + paths && |paths| == v && FirstFiles(c, paths)
  {
  }

  /** `clear_cache_files` on what the roots held; `paths` are the files that are unlinked. */
  method ClearRoots(cache: Store, disk: Disk, roots: seq<Entry>, target: int) returns (ghost paths: seq<string>)
    requires Growing(cache.Snap()) && FromRoots(cache.Snap(), roots, |roots|) && Roomy(cache.Snap())
    modifies cache, disk
    ensures OnlyInRoots(roots, old(disk.nodes), disk.nodes)
    ensures disk.asked >= old(disk.asked)
    ensures Shape(cache.Snap()) && cache.tree == old(cache.tree) && Sorted(cache.files)
            && multiset(cache.files) == multiset(old(cache.files))
    ensures disk.tried == old(disk.tried) + paths && FirstFiles(cache.Snap(), paths)
    ensures cache.hiddenCount == old(cache.hiddenCount)
    ensures OnlyMayGo(cache.Snap(), |paths|, old(disk.nodes), disk.nodes)
    ensures forall k :: |paths| <= k < |cache.files| && FilePath(cache.tree, cache.files[k]) in old(disk.nodes) ==>
                          FilePath(cache.tree, cache.files[k]) in disk.nodes
    ensures !disk.faulty ==> AllGone(paths, disk.nodes)
    ensures StoppedByLook(disk, old(disk.asked), target) || |paths| == |cache.files|
    ensures disk.steady ==> Overshoot(disk.unlinkedAt, |old(disk.unlinkedAt)|, target,
                                      MostAfter(disk.failedAt, |old(disk.failedAt)|, target, 10))
    ensures !disk.faulty && old(InStep(cache.Snap(), 0, disk.nodes)) && RootsListed(old(cache.tree), roots, |roots|) ==>
              StoppedByLook(disk, old(disk.asked), target) || RootsEmpty(roots, disk.nodes)
  {
    ghost var c, nodes, tried := cache.Snap(), disk.nodes, disk.tried;
    var visited := ClearCacheFiles(cache, disk, target);
    paths := disk.tried[|tried|..];
    TriedInTurn(cache.Snap(), visited, tried, disk.tried, paths);
    SortedInRoots(c, cache.Snap(), visited, roots, nodes, disk.nodes);
    if !disk.faulty && InStep(c, 0, nodes) && visited == |cache.files| && RootsListed(c.tree, roots, |roots|) {
      RootsEmptied(cache.Snap(), roots, disk.nodes);
    }
  }

  /** The same, in terms of what is listed; `full` says that everything was found. */
  method EvictRoots(cache: Store, disk: Disk, roots: seq<Entry>, target: int, ghost full: bool)
    returns (ghost paths: seq<string>)
    requires RootsOk(roots) && Growing(cache.Snap()) && FromRoots(cache.Snap(), roots, |roots|)
    requires Within(cache.Snap(), roots, |roots|) && Roomy(cache.Snap()) && (full ==> AllFound(cache.Snap(), roots))
    modifies cache, disk
    ensures OnlyInRoots(roots, old(disk.nodes), disk.nodes)
    ensures disk.asked >= old(disk.asked)
    // `paths` are the files that are unlinked: the oldest, in order, and no others
    ensures disk.tried == old(disk.tried) + paths && (!disk.faulty ==> AllGone(paths, disk.nodes))
    ensures Oldest(roots, full, old(disk.nodes), disk.nodes, paths)
    ensures full ==> StoppedByLook(disk, old(disk.asked), target) || AllThese(roots, paths)
    ensures disk.steady ==> Overshoot(disk.unlinkedAt, |old(disk.unlinkedAt)|, target,
                                      MostAfter(disk.failedAt, |old(disk.failedAt)|, target, 10))
    ensures !disk.faulty && old(InStep(cache.Snap(), 0, disk.nodes)) && RootsListed(old(cache.tree), roots, |roots|) ==>
              StoppedByLook(disk, old(disk.asked), target) || RootsEmpty(roots, disk.nodes)
  {
    ghost var c, nodes := cache.Snap(), disk.nodes;
    paths := ClearRoots(cache, disk, roots, target);
    OldestEvicted(c, cache.Snap(), roots, full, nodes, disk.nodes, paths);
  }

  /** The collection of all roots, if it comes to an end and leaves no path too long for the evictor. */
  method Collect(disk: Disk, roots: seq<Entry>, tight: bool) returns (cache: Store, wrong: Option<Outcome>)
    requires RootsOk(roots)
    modifies disk`nodes, disk`free
    ensures fresh(cache) && fresh(cache.arena) && cache.Room() && OnlyInRoots(roots, old(disk.nodes), disk.nodes)
    ensures wrong == None || (wrong == Some(Killed) && tight) || (wrong == Some(Overrun) && LongDir(roots))
    ensures wrong == None ==> && Growing(cache.Snap()) && FromRoots(cache.Snap(), roots, |roots|)
                              && Within(cache.Snap(), roots, |roots|) && Roomy(cache.Snap())
    ensures wrong == None && !tight ==> AllFound(cache.Snap(), roots)
    ensures SparedAll(roots, old(disk.nodes), disk.nodes)
    ensures wrong == None && !disk.faulty && !tight && AllReadable(roots) && AgreesFrom(roots, 0, old(disk.nodes)) ==>
              InStep(cache.Snap(), 0, disk.nodes) && RootsListed(cache.tree, roots, |roots|)
  {
    cache := new Store(tight);
    var crashed := CollectRoots(cache, disk, roots);
    AllSpared(cache.Snap(), roots, !tight, old(disk.nodes), disk.nodes);
    wrong := None;
    if crashed {
      wrong := Some(Killed);
    } else if !Roomy(cache.Snap()) {
      RoomyUnlessLong(cache.Snap(), roots);
      wrong := Some(Overrun);
    }
  }

  /** Collecting removes nothing that it has to leave alone. */
  ghost predicate SparedAll(roots: seq<Entry>, before: set<string>, after: set<string>) {
    forall n :: AlwaysSafe(roots, n) && n in before ==> n in after
  }

  ghost predicate AlwaysSafe(roots: seq<Entry>, n: string) {
    exists j :: 0 <= j < |roots| && Safe("", roots[j], n)
  }

  lemma EvictableIsSafe(roots: seq<Entry>, n: string, t: int)
    requires Evictable(roots, n, t)
    ensures AlwaysSafe(roots, n)
  {
    var j :| 0 <= j < |roots| && Reach("", roots[j], n, t);
    ReachIsSafe("", roots[j], n, t);
  }

  lemma AllSpared(c: Cache, roots: seq<Entry>, full: bool, before: set<string>, after: set<string>)
    requires Shape(c) && Thorough(c, "", roots, |roots|, full, before, after)
    ensures SparedAll(roots, before, after) && (full ==> AllFound(c, roots))
  {
    forall n | AlwaysSafe(roots, n) && n in before
      ensures n in after
    {
      var j :| 0 <= j < |roots| && Safe("", roots[j], n);
      assert Spared("", roots[j], before, after);
    }
    forall n, t | full && Evictable(roots, n, t)
      ensures Collected(c, n, t)
    {
      var j :| 0 <= j < |roots| && Reach("", roots[j], n, t);
    }
  }

  /** The part of `free_cache` between the two looks at the free space; `paths` are the files that
      are unlinked in it. */
  method CollectAndEvict(disk: Disk, roots: seq<Entry>, target: int, tight: bool)
    returns (wrong: Option<Outcome>, ghost paths: seq<string>)
    requires RootsOk(roots) && target >= -1
    modifies disk
    ensures disk.asked >= old(disk.asked)
    ensures wrong == None || (wrong == Some(Killed) && tight) || (wrong == Some(Overrun) && LongDir(roots))
    ensures wrong.Some? ==> disk.unlinkedAt == old(disk.unlinkedAt)
    ensures wrong != Some(Overrun) ==> OnlyInRoots(roots, old(disk.nodes), disk.nodes)
    ensures disk.tried == old(disk.tried) + paths
    ensures Oldest(roots, !tight && wrong == None, old(disk.nodes), disk.nodes, paths)
    ensures wrong == None && !tight ==> && (!disk.faulty ==> AllGone(paths, disk.nodes))
                                        && (disk.free > target || AllThese(roots, paths))
    ensures disk.steady ==> Overshoot(disk.unlinkedAt, |old(disk.unlinkedAt)|, target,
                                      MostAfter(disk.failedAt, |old(disk.failedAt)|, target, 10))
    ensures !disk.faulty && !tight && !LongDir(roots) && AllReadable(roots) && AgreesFrom(roots, 0, old(disk.nodes)) ==>
              wrong == None && (disk.free > target || RootsEmpty(roots, disk.nodes))
  {
    var cache;
    ghost var nodes := disk.nodes;
    paths := [];
    cache, wrong := Collect(disk, roots, tight);
    if wrong.Some? {
      NothingEvicted(roots, disk.nodes);
      return;
    }
    ghost var mid := disk.nodes;
    paths := EvictRoots(cache, disk, roots, target, !tight);
    EvictedTwice(roots, !tight, nodes, mid, disk.nodes, paths);
    var _ := cache.arena.Finish();
  }

  lemma EvictedTwice(roots: seq<Entry>, full: bool, a: set<string>, b: set<string>, c: set<string>, paths: seq<string>)
    requires OnlyInRoots(roots, a, b) && OnlyInRoots(roots, b, c)
    requires SparedAll(roots, a, b) && Oldest(roots, full, b, c, paths)
    ensures OnlyInRoots(roots, a, c) && Oldest(roots, full, a, c, paths)
  {
    assert full ==> NothingElse(roots, a, c, paths);
    forall n, t | Evictable(roots, n, t) && n in a
      ensures n in b
    {
      EvictableIsSafe(roots, n, t);
    }
  }

  /** The looks that failed, but for the last look if that was one of them. */
  ghost function WithoutLast(failed: seq<int>, lastWorks: bool): seq<int> {
    if lastWorks || failed == [] then failed else failed[..|failed| - 1]
  }

  /** The path of each cache directory fits a buffer. */
  ghost predicate CacheDirsFit(device: Entry)
    requires device.Directory?
  {
    forall i :: 0 <= i < |Roots(device)| ==> |Roots(device)[i].name| < PATH_MAX
  }

  lemma {:induction false} FoundRootsOk(device: Entry, roots: seq<Entry>)
    requires device.Directory? && SoundInside(device) && CacheDirsFit(device) && roots == Roots(device)
    ensures RootsOk(roots)
  {
    RootsGood(device, {}, false);
  }

  lemma NothingEvicted(roots: seq<Entry>, nodes: set<string>)
    ensures OnlyInRoots(roots, nodes, nodes) && AllGone([], nodes) && OlderGone(roots, nodes, nodes)
    ensures forall full :: Oldest(roots, full, nodes, nodes, [])
  {
  }

  lemma {:induction false} AllRootsAre(device: Entry, roots: seq<Entry>)
    requires device.Directory? && SoundInside(device) && roots == Roots(device)
    ensures forall r :: r in roots <==> IsCacheDir(device, r)
  {
    forall r
      ensures r in roots <==> IsCacheDir(device, r)
    {
      RootsAre(device, r);
    }
  }

  /** The rest of `free_cache` once the cache directories are found: collect, evict and look again. */
  method MakeRoom(disk: Disk, roots: seq<Entry>, target: int, tight: bool)
    returns (r: Outcome, ghost paths: seq<string>)
    requires RootsOk(roots) && target >= -1 && disk.asked > 0
    modifies disk
    ensures disk.asked > 0
    ensures r.Overrun? || OnlyInRoots(roots, old(disk.nodes), disk.nodes)
    ensures r.Overrun? || disk.tried == old(disk.tried) + paths
    ensures r.Overrun? || Oldest(roots, !tight, old(disk.nodes), disk.nodes, paths)
    ensures || r.Overrun? || tight || disk.faulty
            || (AllGone(paths, disk.nodes) && OlderGone(roots, old(disk.nodes), disk.nodes))
    ensures || r.Overrun? || !disk.steady
            || Overshoot(disk.unlinkedAt, |old(disk.unlinkedAt)|, target,
                         MostAfter(WithoutLast(disk.failedAt, disk.statfs(disk.asked - 1)), |old(disk.failedAt)|,
                                   target, 10))
    ensures r.Overrun? || tight || disk.free >= target || AllThese(roots, paths)
    ensures || r.Overrun? || r.Killed? || target < 0
            || r == Returned(if disk.statfs(disk.asked - 1) && disk.free >= target then 0 else -1)
    ensures !disk.faulty && !tight && !LongDir(roots) && AllReadable(roots) && AgreesFrom(roots, 0, old(disk.nodes)) ==>
              r == Returned(0) || (r == Returned(-1) && (!disk.statfs(disk.asked - 1) || RootsEmpty(roots, disk.nodes)))
    ensures r.Killed? ==> tight
    ensures !r.Overrun? || LongDir(roots)
  {
    var wrong;
    wrong, paths := CollectAndEvict(disk, roots, target, tight);
    if wrong.Some? { return wrong.value, paths; }
    if !tight && !disk.faulty { OlderAreGone(roots, old(disk.nodes), disk.nodes, paths); }
    ghost var failed := disk.failedAt;
    var avail := disk.DataDiskFree();
    assert WithoutLast(disk.failedAt, disk.statfs(disk.asked - 1)) == failed;
    r := Returned(if avail >= target then 0 else -1);
  }

  /** `free_cache`.  `roots` are the cache directories, and `paths` the files that are unlinked to be
      evicted, in their order. */
  method FreeCache(disk: Disk, device: Entry, target: int, tight: bool)
    returns (r: Outcome, ghost roots: seq<Entry>, ghost paths: seq<string>)
    requires device.Directory? && SoundInside(device) && CacheDirsFit(device)
    modifies disk
    ensures roots == Roots(device) && (forall r :: r in roots <==> IsCacheDir(device, r)) && disk.asked > 0
    // nothing is removed when there is no need, or when the free space cannot be told
    ensures old(disk.free) >= target || old(disk.free) < 0 || !disk.statfs(old(disk.asked)) ==>
              disk.nodes == old(disk.nodes)
    ensures old(disk.free) >= target && old(disk.free) >= 0 ==>
              r == Returned(if disk.statfs(old(disk.asked)) then 0 else -1)
    // whatever happens, nothing outside the cache directories is removed
    ensures r.Overrun? || OnlyInRoots(roots, old(disk.nodes), disk.nodes)
    // whatever fails, files are unlinked oldest first; if memory is not short, none that can be got at is
    // skipped, and none is lost in another way; nor is anything else, but that a directory goes when nothing
    // below it is left to evict, with what is in it only if it has entries that are only counted, and that
    // what has too long a path or cannot be examined goes
    ensures r.Overrun? || disk.tried == old(disk.tried) + paths
    ensures r.Overrun? || Oldest(roots, !tight, old(disk.nodes), disk.nodes, paths)
    ensures || r.Overrun? || tight || disk.faulty
            || (AllGone(paths, disk.nodes) && OlderGone(roots, old(disk.nodes), disk.nodes))
    // not much more is unlinked than needed
    ensures || r.Overrun? || !disk.steady
            || Overshoot(disk.unlinkedAt, |old(disk.unlinkedAt)|, target,
                         MostAfter(WithoutLast(disk.failedAt, disk.statfs(disk.asked - 1)), |old(disk.failedAt)|,
                                   target, 10))
    // if the free space could be told, then there is enough at the end, or nothing was spared
    ensures old(disk.free) >= 0 && disk.statfs(old(disk.asked)) ==>
              r.Overrun? || tight || disk.free >= target || AllThese(roots, paths)
    // the result says whether there was enough space at the last look, as far as that could be told
    ensures || r.Overrun? || r.Killed? || target < 0
            || r == Returned(if disk.statfs(disk.asked - 1) && disk.free >= target then 0 else -1)
    // without other failures it gives up only when nothing is left in any cache directory, or when
    // the free space cannot be told
    ensures !disk.faulty && !tight && !LongDir(roots) && AllReadable(roots) && AgreesFrom(roots, 0, old(disk.nodes))
            && old(disk.free) >= 0 ==>
              r == Returned(0) || (r == Returned(-1) && (!disk.statfs(disk.asked - 1) || RootsEmpty(roots, disk.nodes)))
    // how it can go wrong
    ensures r.Killed? ==> tight
    ensures !r.Overrun? || LongDir(roots)
  {
    roots, paths := Roots(device), [];
    AllRootsAre(device, roots);
    var avail := disk.DataDiskFree();
    NothingEvicted(roots, disk.nodes);
    if avail < 0 { return Returned(-1), roots, []; }
    if avail >= target { return Returned(0), roots, []; }
    var found := FindRoots(device);
    FoundRootsOk(device, roots);
    r, paths := MakeRoom(disk, found, target, tight);
  }
}
