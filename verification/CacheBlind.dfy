/** An eviction that cannot see the free space. */
module CacheBlind {
  import opened Limits
  import opened CacheTree
  import opened CacheDisk
  import opened CacheStore
  import opened CacheEvict

  /** A name of `n` letters. */
  function NameOf(n: nat): (s: string)
    ensures |s| == n && SlashFree(s)
  {
    seq(n, _ => 'a')
  }

  /** The path of file `k`. */
  function PathOf(k: nat): (s: string)
    ensures |s| == k + 3 && s[0] == 'c' && s[1] == '/' && s[2..] == NameOf(k + 1)
  {
    "c/" + NameOf(k + 1)
  }

  /** A directory with twelve files in it, and nothing else. */
  function Nodes(): (r: set<string>)
    ensures "c/" in r && forall k: nat :: k < 12 ==> PathOf(k) in r
    ensures forall n :: n in r && n != "c/" ==> exists k: nat :: k < 12 && n == PathOf(k)
  {
    {"c/"} + set k: nat | k < 12 :: PathOf(k)
  }

  /** Twelve files in directory 0. */
  function TwelveFiles(): (fs: seq<File>)
    ensures |fs| == 12 && forall k :: 0 <= k < 12 ==> fs[k].dir == 0 && fs[k].name == NameOf(k + 1)
  {
    seq(12, k requires 0 <= k < 12 => File(0, k, NameOf(k + 1)))
  }

  lemma {:induction false} AllInOne(fs: seq<File>, d: int)
    requires forall k :: 0 <= k < |fs| ==> fs[k].dir == d
    ensures FilesIn(fs, d) == |fs|
  {
    if fs != [] { AllInOne(fs[1..], d); }
  }

  const TREE: seq<Node> := [Node(-1, "c")]

  function Twelve(): Cache {
    Cache(TREE, [12], [0], [false], TwelveFiles())
  }

  lemma GoodCounts()
    ensures Inv(Twelve(), 0)
  {
    var c := Twelve();
    assert c.files[0..] == c.files;
    AllInOne(c.files, 0);
    assert Kids(c, 0) == {};
  }

  lemma GoodPaths()
    ensures Rooted(TREE) && Named(TREE) && Path(TREE, 0) == "c/"
  {
    assert "" + "c" + "/" == "c/";
  }

  lemma GoodNames()
    ensures FilesNamed(TwelveFiles())
  {
  }

  lemma FilePaths()
    requires Rooted(TREE) && Path(TREE, 0) == "c/"
    ensures forall k: nat :: k < 12 ==> FilePath(TREE, TwelveFiles()[k]) == PathOf(k)
  {
  }

  lemma GoodRoom()
    requires Inv(Twelve(), 0)
    ensures Roomy(Twelve())
  {
    GoodPaths();
    FilePaths();
    assert forall k: nat :: k < 12 ==> |PathOf(k)| < PATH_MAX;
  }

  /** The collection is what a walk of the directory gives. */
  lemma GoodStep()
    requires Inv(Twelve(), 0)
    ensures InStep(Twelve(), 0, Nodes())
  {
    var c := Twelve();
    GoodPaths();
    FilePaths();
    forall n | n in Nodes()
      ensures Covered(c, 0, n)
    {
      if n == "c/" {
        assert !c.deleted[0] && n == Path(c.tree, 0);
      } else {
        var k: nat :| k < 12 && n == PathOf(k);
        assert n == FilePath(c.tree, c.files[k]);
      }
    }
  }

  /** A collection of one directory with those files. */
  method Build() returns (cache: Store)
    ensures fresh(cache) && fresh(cache.arena) && cache.tree == TREE && multiset(cache.files) == multiset(TwelveFiles())
    ensures Inv(cache.Snap(), 0) && Named(cache.tree) && FilesNamed(cache.files) && Roomy(cache.Snap())
    ensures |cache.files| == 12 && InStep(cache.Snap(), 0, Nodes())
  {
    GoodCounts();
    GoodPaths();
    GoodNames();
    GoodRoom();
    GoodStep();
    cache := new Store(false);
    cache.tree, cache.childCount, cache.hiddenCount, cache.deleted := TREE, [12], [0], [false];
    cache.files := TwelveFiles();
    assert cache.Snap() == Twelve();
  }

  /** Eviction unlinks a file of the collection, wherever sorting has put it. */
  lemma StillOneOfThem(fs: seq<File>, k: nat) returns (l: nat)
    requires multiset(fs) == multiset(TwelveFiles()) && k < 12
    ensures l < |fs| && fs[l] == TwelveFiles()[k]
  {
    assert TwelveFiles()[k] in multiset(fs);
    l :| 0 <= l < |fs| && fs[l] == TwelveFiles()[k];
  }

  /** A disk with those nodes and with more space than is asked for, on which `statfs` fails every
      time and every other call works. */
  ghost predicate Blind(disk: Disk, target: int)
    reads disk
  {
    && disk.nodes == Nodes() && disk.free > target && !disk.faulty && disk.steady
    && (forall i: nat :: !disk.statfs(i))
    && disk.unlinkedAt == [] && disk.failedAt == []
  }

  method BlindDisk() returns (disk: Disk, target: int)
    ensures fresh(disk) && target == 0 && Blind(disk, target)
  {
    target := 0;
    disk := new Disk(Nodes(), 1, false, true, _ => false);
  }

  lemma {:induction false} Overshot(log: seq<int>, failed: seq<int>, target: int, free: int)
    requires |log| == 12 && AtLeast(log, 0, free) && free > target
    requires Overshoot(log, 0, target, MostAfter(failed, 0, target, 10))
    ensures forall j :: 0 <= j < 12 ==> log[j] > target
    ensures !Overshoot(log, 0, target, 10) && Misses(failed, 0, target) > 0
  {
    assert log[0] > target;
  }

  /** A run that cannot see the free space visits every file. */
  method RunBlind(cache: Store, disk: Disk, target: int)
    requires Inv(cache.Snap(), 0) && Named(cache.tree) && FilesNamed(cache.files) && Roomy(cache.Snap())
    requires target >= -1 && Blind(disk, target) && InStep(cache.Snap(), 0, disk.nodes)
    modifies cache`childCount, cache`deleted, cache`files, disk
    ensures multiset(cache.files) == multiset(old(cache.files)) && Inv(cache.Snap(), |cache.files|)
    ensures InStep(cache.Snap(), |cache.files|, disk.nodes) && disk.nodes <= old(disk.nodes)
    ensures |disk.unlinkedAt| == |cache.files| && AtLeast(disk.unlinkedAt, 0, old(disk.free))
    ensures Overshoot(disk.unlinkedAt, 0, target, MostAfter(disk.failedAt, 0, target, 10))
  {
    var visited := ClearCacheFiles(cache, disk, target);
  }

  /** All twelve files are removed from such a disk, two more than without the failing looks. */
  method TwelveAreUnlinked(disk: Disk, target: int)
    requires target >= -1 && Blind(disk, target)
    modifies disk
    ensures forall k: nat :: k < 12 ==> PathOf(k) in old(disk.nodes) && PathOf(k) !in disk.nodes
    ensures disk.nodes == {"c/"}
    ensures |disk.unlinkedAt| == 12 && forall j :: 0 <= j < 12 ==> disk.unlinkedAt[j] > target
    ensures !Overshoot(disk.unlinkedAt, 0, target, 10) && Misses(disk.failedAt, 0, target) > 0
  {
    var cache := Build();
    ghost var free := disk.free;
    RunBlind(cache, disk, target);
    SameNumber(cache.files);
    Overshot(disk.unlinkedAt, disk.failedAt, target, free);
    AllTwelveGone(cache.Snap(), disk.nodes);
  }

  lemma SameNumber(fs: seq<File>)
    requires multiset(fs) == multiset(TwelveFiles())
    ensures |fs| == 12
  {
    assert |fs| == |multiset(fs)| == |multiset(TwelveFiles())|;
  }

  /** In step with a collection of those files that have all been visited, only the directory is left. */
  lemma AllTwelveGone(c: Cache, nodes: set<string>)
    requires c.tree == TREE && multiset(c.files) == multiset(TwelveFiles()) && nodes <= Nodes()
    requires Inv(c, |c.files|) && InStep(c, |c.files|, nodes)
    ensures forall k: nat :: k < 12 ==> PathOf(k) !in nodes
    ensures nodes == {"c/"}
  {
    GoodPaths();
    FilePaths();
    forall k: nat | k < 12
      ensures PathOf(k) !in nodes
    {
      var l := StillOneOfThem(c.files, k);
    }
    assert !c.deleted[0] && Path(c.tree, 0) in nodes;
  }
}
