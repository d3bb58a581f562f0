/**
 * The directory tree that installd's cache collector builds, as values.
 *
 * `cache_t` holds two growable arrays, one of directories and one of files.  A pointer to a
 * `cache_dir_t` is modelled by its index in the directory array, and the NULL parent of a root
 * by -1.  The fields of `cache_dir_t` that are fixed once the directory has been collected
 * (`parent`, `name`) are kept in `tree`; the three that change are parallel sequences.
 */
module CacheTree {
  datatype Node = Node(parent: int, name: string)

  datatype File = File(dir: int, modTime: int, name: string)

  datatype Cache = Cache(
    tree: seq<Node>,
    childCount: seq<int>,
    hiddenCount: seq<int>,
    deleted: seq<bool>,
    files: seq<File>)

  /** A parent is collected before its children, so its index is smaller. */
  ghost predicate Rooted(t: seq<Node>) {
    forall i :: 0 <= i < |t| ==> -1 <= t[i].parent < i
  }

  ghost predicate Shape(c: Cache) {
    && |c.childCount| == |c.hiddenCount| == |c.deleted| == |c.tree|
    && Rooted(c.tree)
    && (forall k :: 0 <= k < |c.files| ==> 0 <= c.files[k].dir < |c.tree|)
  }

  // ---------------------------------------------------------------- counting

  /** Undeleted subdirectories of `d`. */
  ghost function Kids(c: Cache, d: int): set<int>
    requires |c.deleted| == |c.tree|
  {
    set i | 0 <= i < |c.tree| && c.tree[i].parent == d && !c.deleted[i]
  }

  /** How many of `fs` lie directly in directory `d`. */
  ghost function FilesIn(fs: seq<File>, d: int): nat {
    if fs == [] then 0 else (if fs[0].dir == d then 1 else 0) + FilesIn(fs[1..], d)
  }

  /** `childCount` is what it is meant to be when the first `v` files have been visited. */
  ghost predicate Counts(c: Cache, v: nat)
    requires Shape(c) && v <= |c.files|
  {
    forall d :: 0 <= d < |c.tree| ==> c.childCount[d] == |Kids(c, d)| + FilesIn(c.files[v..], d)
  }

  /** The invariant of collection (with `v == 0`) and of eviction after `v` files. */
  ghost predicate Inv(c: Cache, v: nat) {
    && Shape(c)
    && v <= |c.files|
    && Counts(c, v)
    && (forall d :: 0 <= d < |c.tree| && c.deleted[d] ==> c.tree[d].parent >= 0 && c.childCount[d] == 0)
  }

  /** `e` is `d` or lies somewhere below it. */
  ghost predicate Below(t: seq<Node>, e: int, d: int)
    requires Rooted(t) && 0 <= e < |t|
    decreases e
  {
    e == d || (t[e].parent >= 0 && Below(t, t[e].parent, d))
  }

  lemma {:induction false} FilesInZero(fs: seq<File>, d: int, k: nat)
    requires k < |fs| && fs[k].dir == d
    ensures FilesIn(fs, d) > 0
  {
    if k > 0 { FilesInZero(fs[1..], d, k - 1); }
  }

  lemma {:induction false} FilesInWitness(fs: seq<File>, d: int) returns (k: nat)
    requires FilesIn(fs, d) > 0
    ensures k < |fs| && fs[k].dir == d
  {
    if fs[0].dir == d {
      k := 0;
    } else {
      k := FilesInWitness(fs[1..], d);
      k := k + 1;
    }
  }

  lemma {:induction false} FilesInAppend(fs: seq<File>, gs: seq<File>, d: int)
    ensures FilesIn(fs + gs, d) == FilesIn(fs, d) + FilesIn(gs, d)
  {
    if fs == [] {
      assert fs + gs == gs;
    } else {
      assert (fs + gs)[1..] == fs[1..] + gs;
      FilesInAppend(fs[1..], gs, d);
    }
  }

  /** Sorting does not change how many files a directory has. */
  lemma {:induction false} FilesInPermutation(fs: seq<File>, gs: seq<File>, d: int)
    requires multiset(fs) == multiset(gs)
    ensures FilesIn(fs, d) == FilesIn(gs, d)
  {
    if fs == [] {
      assert |gs| == |multiset(gs)| == |multiset(fs)| == 0;
    } else {
      var x := fs[0];
      assert x in multiset(gs);
      var i :| 0 <= i < |gs| && gs[i] == x;
      WithoutOne(fs, 0, d);
      WithoutOne(gs, i, d);
      FilesInPermutation(Without(fs, 0), Without(gs, i), d);
    }
  }

  ghost function Without(fs: seq<File>, i: nat): seq<File>
    requires i < |fs|
  {
    fs[..i] + fs[i + 1..]
  }

  lemma {:induction false} WithoutOne(fs: seq<File>, i: nat, d: int)
    requires i < |fs|
    ensures multiset(Without(fs, i)) == multiset(fs) - multiset{fs[i]}
    ensures FilesIn(fs, d) == FilesIn(Without(fs, i), d) + (if fs[i].dir == d then 1 else 0)
  {
    var tail := [fs[i]] + fs[i + 1..];
    assert fs == fs[..i] + tail;
    FilesInAppend(fs[..i], tail, d);
    FilesInAppend(fs[..i], fs[i + 1..], d);
    assert tail[1..] == fs[i + 1..];
  }

  /** A directory with something left in it keeps every directory above it alive and counted. */
  lemma {:induction false} AliveAbove(c: Cache, v: nat, e: int, d: int)
    requires Inv(c, v) && 0 <= e < |c.tree| && Below(c.tree, e, d)
    requires c.childCount[e] > 0 || (!c.deleted[e] && e != d)
    ensures 0 <= d < |c.tree| && c.childCount[d] > 0
    decreases e
  {
    if e != d {
      var p := c.tree[e].parent;
      assert e in Kids(c, p);
      AliveAbove(c, v, p, d);
    }
  }

  /** When a directory's count is zero, every unvisited file lies elsewhere. */
  lemma {:induction false} NothingPendingBelow(c: Cache, v: nat, d: int, k: int)
    requires Inv(c, v) && 0 <= d < |c.tree| && c.childCount[d] <= 0
    requires v <= k < |c.files|
    ensures !Below(c.tree, c.files[k].dir, d)
  {
    var e := c.files[k].dir;
    FilesInZero(c.files[v..], e, k - v);
    if Below(c.tree, e, d) { AliveAbove(c, v, e, d); }
  }

  /** When a directory's count is positive, some unvisited file lies below it, unless an undeleted
      empty directory does. */
  lemma {:induction false} PendingBelow(c: Cache, v: nat, d: int) returns (e: int)
    requires Inv(c, v) && 0 <= d < |c.tree| && !c.deleted[d]
    ensures 0 <= e < |c.tree| && !c.deleted[e] && Below(c.tree, e, d)
    ensures (exists k :: v <= k < |c.files| && c.files[k].dir == e) || c.childCount[e] == 0
    ensures e == d || c.tree[e].parent >= 0
    decreases |c.tree| - d
  {
    if FilesIn(c.files[v..], d) > 0 {
      var k := FilesInWitness(c.files[v..], d);
      assert c.files[v + k].dir == d;
      e := d;
    } else if Kids(c, d) == {} {
      e := d;
    } else {
      var i :| i in Kids(c, d);
      e := PendingBelow(c, v, i);
      BelowTransitive(c.tree, e, i, d);
    }
  }

  lemma {:induction false} BelowTransitive(t: seq<Node>, e: int, m: int, d: int)
    requires Rooted(t) && 0 <= e < |t| && 0 <= m < |t|
    requires Below(t, e, m) && (m == d || t[m].parent == d) && 0 <= d < |t|
    ensures Below(t, e, d)
    decreases e
  {
    if e != m { BelowTransitive(t, t[e].parent, m, d); }
  }

  // ---------------------------------------------------------------- the two count updates

  /** `dir->parent->childCount--; dir->deleted = 1`. */
  ghost function Removed(c: Cache, d: int): Cache
    requires Shape(c) && 0 <= d < |c.tree| && c.tree[d].parent >= 0
  {
    var p := c.tree[d].parent;
    c.(childCount := c.childCount[p := c.childCount[p] - 1], deleted := c.deleted[d := true])
  }

  lemma RemovedKeepsInv(c: Cache, v: nat, d: int)
    requires Inv(c, v) && 0 <= d < |c.tree| && c.tree[d].parent >= 0
    requires !c.deleted[d] && c.childCount[d] == 0
    ensures Inv(Removed(c, d), v)
    ensures !c.deleted[c.tree[d].parent]
  {
    var c', p := Removed(c, d), c.tree[d].parent;
    assert d in Kids(c, p);
    forall x | 0 <= x < |c.tree|
      ensures c'.childCount[x] == |Kids(c', x)| + FilesIn(c'.files[v..], x)
    {
      if x == p {
        assert Kids(c', x) == Kids(c, x) - {d};
      } else {
        assert Kids(c', x) == Kids(c, x);
      }
    }
  }

  /** `file->dir->childCount--`. */
  ghost function Visited(c: Cache, v: nat): Cache
    requires Shape(c) && v < |c.files|
  {
    var d := c.files[v].dir;
    c.(childCount := c.childCount[d := c.childCount[d] - 1])
  }

  lemma VisitedKeepsInv(c: Cache, v: nat)
    requires Inv(c, v) && v < |c.files|
    ensures Inv(Visited(c, v), v + 1)
    ensures !c.deleted[c.files[v].dir]
  {
    var c', d := Visited(c, v), c.files[v].dir;
    FilesInZero(c.files[v..], d, 0);
    assert c.files[v..][1..] == c.files[v + 1..];
    forall x | 0 <= x < |c.tree|
      ensures c'.childCount[x] == |Kids(c', x)| + FilesIn(c'.files[v + 1..], x)
    {
      assert Kids(c', x) == Kids(c, x);
    }
  }

  // ---------------------------------------------------------------- paths

  predicate SlashFree(s: string) { '/' !in s }

  /** What `create_dir_path` writes for directory `d`: it always ends in a slash. */
  function Path(t: seq<Node>, d: int): (p: string)
    requires Rooted(t) && 0 <= d < |t|
    ensures p != [] && p[|p| - 1] == '/'
    decreases d
  {
    (if t[d].parent >= 0 then Path(t, t[d].parent) else "") + t[d].name + "/"
  }

  function FilePath(t: seq<Node>, f: File): string
    requires Rooted(t) && 0 <= f.dir < |t|
  {
    Path(t, f.dir) + f.name
  }

  /** Entry names hold no slash, siblings have different names, and no root lies in another. */
  ghost predicate Named(t: seq<Node>)
    requires Rooted(t)
  {
    && (forall i :: 0 <= i < |t| && t[i].parent >= 0 ==> t[i].name != [] && SlashFree(t[i].name))
    && (forall i, j :: 0 <= i < j < |t| && t[i].parent == t[j].parent >= 0 ==> t[i].name != t[j].name)
    && (forall i, j :: 0 <= i < |t| && 0 <= j < |t| && i != j && t[i].parent == t[j].parent == -1 ==>
                         !(Path(t, i) <= Path(t, j)))
  }

  ghost predicate FilesNamed(fs: seq<File>) {
    && (forall k :: 0 <= k < |fs| ==> fs[k].name != [] && SlashFree(fs[k].name))
    && (forall k, l :: 0 <= k < l < |fs| && fs[k].dir == fs[l].dir ==> fs[k].name != fs[l].name)
  }

  /** Two strings that end in a slash and differ only in a slash-free last component. */
  lemma OneComponent(base: string, p: string, name: string)
    requires base < p <= base + name + "/" && p[|p| - 1] == '/' && SlashFree(name)
    ensures p == base + name + "/"
  {
    var i := |p| - 1 - |base|;
    assert p[|p| - 1] == (base + name + "/")[|p| - 1] == (name + "/")[i];
    assert forall j :: 0 <= j < |name| ==> name[j] in name;
    assert i == |name|;
  }

  /** The tree order is the prefix order of the paths. */
  lemma {:induction false} PrefixIsAncestor(t: seq<Node>, d: int, e: int)
    requires Rooted(t) && Named(t) && 0 <= d < |t| && 0 <= e < |t|
    requires Path(t, d) <= Path(t, e)
    ensures Below(t, e, d)
    decreases e + d
  {
    var P, Q := Path(t, d), Path(t, e);
    if t[e].parent >= 0 {
      var pe := t[e].parent;
      var R := Path(t, pe);
      assert R < Q;
      if |P| <= |R| {
        assert P <= R;
        PrefixIsAncestor(t, d, pe);
      } else {
        assert R < P;
        OneComponent(R, P, t[e].name);
        SamePath(t, pe, d, e);
      }
    } else if t[d].parent >= 0 {
      var pd := t[d].parent;
      assert Path(t, pd) <= P;
      PrefixIsAncestor(t, pd, e);
      assert false;
    }
  }

  lemma {:induction false} SamePath(t: seq<Node>, pe: int, d: int, e: int)
    requires Rooted(t) && Named(t) && 0 <= d < |t| && 0 <= e < |t|
    requires t[e].parent == pe >= 0 && Path(t, d) == Path(t, e)
    ensures d == e
    decreases e + d, -1
  {
    var R := Path(t, pe);
    assert R <= Path(t, d);
    PrefixIsAncestor(t, pe, d);
    assert |R| < |Path(t, d)|;
    var pd := t[d].parent;
    var S := Path(t, pd);
    BelowPrefix(t, pd, pe);
    if pd != pe {
      BelowLonger(t, pd, pe);
      assert S < Path(t, d);
      OneComponent(R, S, t[e].name);
    }
    assert t[d].name + "/" == Path(t, d)[|R|..] == t[e].name + "/";
    assert t[d].name == (t[d].name + "/")[..|t[d].name|];
    assert t[e].name == (t[e].name + "/")[..|t[e].name|];
  }

  lemma {:induction false} BelowPrefix(t: seq<Node>, e: int, d: int)
    requires Rooted(t) && 0 <= e < |t| && 0 <= d < |t| && Below(t, e, d)
    ensures Path(t, d) <= Path(t, e)
    decreases e
  {
    if e != d { BelowPrefix(t, t[e].parent, d); }
  }

  lemma {:induction false} BelowLonger(t: seq<Node>, e: int, d: int)
    requires Rooted(t) && 0 <= e < |t| && 0 <= d < |t| && Below(t, e, d) && e != d
    ensures Path(t, d) < Path(t, e)
  {
    BelowPrefix(t, t[e].parent, d);
  }

  /** A file's path starts with a directory's path exactly when the file lies below it. */
  lemma {:induction false} FilePrefixIsAncestor(t: seq<Node>, d: int, f: File)
    requires Rooted(t) && Named(t) && 0 <= d < |t| && 0 <= f.dir < |t| && SlashFree(f.name)
    ensures Path(t, d) <= FilePath(t, f) <==> Below(t, f.dir, d)
  {
    var P, Q := Path(t, d), Path(t, f.dir);
    if Below(t, f.dir, d) { BelowPrefix(t, f.dir, d); }
    if P <= FilePath(t, f) {
      assert forall j :: 0 <= j < |f.name| ==> f.name[j] in f.name;
      assert P[|P| - 1] == (Q + f.name)[|P| - 1];
      assert P <= Q;
      PrefixIsAncestor(t, d, f.dir);
    }
  }

  /** Different files have different paths, and no file has the path of a directory. */
  lemma FilePathsDiffer(t: seq<Node>, f: File, g: File)
    requires Rooted(t) && Named(t) && 0 <= f.dir < |t| && 0 <= g.dir < |t|
    requires SlashFree(f.name) && SlashFree(g.name) && (f.dir != g.dir || f.name != g.name)
    ensures FilePath(t, f) != FilePath(t, g)
  {
    FilePrefixIsAncestor(t, f.dir, g);
    FilePrefixIsAncestor(t, g.dir, f);
    var P := Path(t, f.dir);
    if f.dir == g.dir {
      assert (P + f.name)[|P|..] == f.name;
      assert (P + g.name)[|P|..] == g.name;
    } else if Below(t, f.dir, g.dir) {
      BelowLonger(t, f.dir, g.dir);
    }
  }

  lemma {:induction false} FileNotDir(t: seq<Node>, f: File, d: int)
    requires Rooted(t) && 0 <= f.dir < |t| && 0 <= d < |t| && SlashFree(f.name) && f.name != []
    ensures FilePath(t, f) != Path(t, d)
  {
    var p := FilePath(t, f);
    assert p[|p| - 1] == f.name[|f.name| - 1];
    assert f.name[|f.name| - 1] in f.name;
  }
}
