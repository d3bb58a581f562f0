/**
 * `_add_cache_files`: the walk that collects a cache directory, with its fixed path buffer and
 * every failure it can meet.
 *
 * A directory listing is a value; whether a directory opens and a file can be `stat`ed is part
 * of it.  The path buffer is modelled by the text it holds up to `pathPos` and by the room left.
 */
module CacheCollect {
  import opened Limits
  import opened CacheTree
  import opened CacheDisk
  import opened CacheStore
  import opened CacheEvict

  datatype Entry =
    | Directory(name: string, opens: bool, entries: seq<Entry>)
    | Regular(name: string, modTime: int, stats: bool)
    | Other(name: string)

  ghost predicate DistinctNames(es: seq<Entry>) {
    forall i, j :: 0 <= i < j < |es| ==> es[i].name != es[j].name
  }

  /** What the kernel guarantees of the entries in a directory. */
  ghost predicate Sound(e: Entry)
    decreases e, 1
  {
    && e.name != [] && SlashFree(e.name)
    && (e.Directory? ==> SoundInside(e))
  }

  ghost predicate SoundInside(e: Entry)
    requires e.Directory?
    decreases e, 0
  {
    DistinctNames(e.entries) && forall i :: 0 <= i < |e.entries| ==> Sound(e.entries[i])
  }

  /** Every directory opens and every file can be examined. */
  ghost predicate Readable(e: Entry) {
    match e
    case Directory(_, opens, es) => opens && forall i :: 0 <= i < |es| ==> Readable(es[i])
    case Regular(_, _, stats) => stats
    case Other(_) => true
  }

  /** The paths of an entry of the directory with path `pre`, and of all that lies below it. */
  ghost predicate InEntry(pre: string, e: Entry, n: string)
    decreases e
  {
    match e
    case Directory(name, _, es) =>
      n == pre + name + "/" || exists i :: 0 <= i < |es| && InEntry(pre + name + "/", es[i], n)
    case Regular(name, _, _) => n == pre + name
    case Other(name) => n == pre + name
  }

  /** A visible regular file with path `n` and time `t` is, or lies below, the entry. */
  ghost predicate FileAt(pre: string, e: Entry, n: string, t: int)
    decreases e
  {
    match e
    case Directory(name, _, es) => exists i :: 0 <= i < |es| && FileAt(pre + name + "/", es[i], n, t)
    case Regular(name, modTime, _) => n == pre + name && t == modTime && name != [] && name[0] != '.'
    case Other(name) => false
  }

  /** `n` is the entry called `name` of the directory with path `pre`, or lies below it. */
  ghost predicate OfEntry(pre: string, name: string, n: string) {
    n == pre + name || pre + name + "/" <= n
  }

  lemma {:induction false} InEntryIsOfEntry(pre: string, e: Entry, n: string)
    requires InEntry(pre, e, n)
    ensures OfEntry(pre, e.name, n)
    decreases e
  {
    if e.Directory? && n != pre + e.name + "/" {
      var i :| 0 <= i < |e.entries| && InEntry(pre + e.name + "/", e.entries[i], n);
      InEntryIsOfEntry(pre + e.name + "/", e.entries[i], n);
    }
  }

  /** Entries with different names have nothing in common. */
  lemma EntriesApart(pre: string, a: string, b: string, n: string)
    requires SlashFree(a) && SlashFree(b) && OfEntry(pre, a, n) && OfEntry(pre, b, n)
    ensures a == b
  {
    var m := n + "/";
    var q := m[|pre|..];
    assert a + "/" <= q && b + "/" <= q;
    if |a| <= |b| { SameFirstComponent(a, b, q); } else { SameFirstComponent(b, a, q); }
  }

  lemma SameFirstComponent(a: string, b: string, q: string)
    requires a + "/" <= q && b + "/" <= q && |a| <= |b| && SlashFree(b)
    ensures a == b
  {
    assert q[|a|] == '/';
    assert forall j :: 0 <= j < |b| ==> b[j] == q[j] && b[j] in b;
    assert forall j :: 0 <= j < |a| ==> a[j] == q[j];
  }

  // ---------------------------------------------------------------- growing a collection

  lemma {:induction false} PathGrows(t: seq<Node>, t': seq<Node>, d: int)
    requires Rooted(t) && Rooted(t') && t <= t' && 0 <= d < |t|
    ensures Path(t', d) == Path(t, d)
    decreases d
  {
    if t[d].parent >= 0 { PathGrows(t, t', t[d].parent); }
  }

  /** Nothing collected so far is called `name` in directory `top`, and no root overlaps it. */
  ghost predicate Unused(c: Cache, top: int, name: string)
    requires Shape(c)
  {
    if top >= 0 then
      && (forall j :: 0 <= j < |c.tree| && c.tree[j].parent == top ==> c.tree[j].name != name)
      && (forall k :: 0 <= k < |c.files| && c.files[k].dir == top ==> c.files[k].name != name)
    else
      forall j :: 0 <= j < |c.tree| && c.tree[j].parent == -1 ==>
                    !(Path(c.tree, j) <= name + "/") && !(name + "/" <= Path(c.tree, j))
  }

  /** A collection under construction. */
  ghost predicate Growing(c: Cache) {
    && Inv(c, 0) && Named(c.tree) && FilesNamed(c.files)
    && forall d :: 0 <= d < |c.tree| ==> !c.deleted[d] && c.hiddenCount[d] >= 0
  }

  /** From `c0` to `c`, everything new hangs below one entry called `name` of directory `top`. */
  ghost predicate Attached(c0: Cache, c: Cache, top: int, name: string)
    requires Growing(c0)
  {
    && Growing(c) && c0.tree <= c.tree && c0.files <= c.files
    && (forall j :: |c0.tree| <= j < |c.tree| ==>
                      c.tree[j].parent >= |c0.tree| || (c.tree[j].parent == top && c.tree[j].name == name))
    && (forall k :: |c0.files| <= k < |c.files| ==>
                      c.files[k].dir >= |c0.tree| || (c.files[k].dir == top && c.files[k].name == name))
    && (forall j :: 0 <= j < |c0.tree| ==>
                      if j == top then c.hiddenCount[j] >= c0.hiddenCount[j] else c.hiddenCount[j] == c0.hiddenCount[j])
  }

  lemma {:induction false} NewPath(t: seq<Node>, t': seq<Node>, top: int, name: string)
    requires Rooted(t) && -1 <= top < |t| && t' == t + [Node(top, name)]
    ensures Rooted(t')
    ensures Path(t', |t|) == (if top >= 0 then Path(t, top) else "") + name + "/"
  {
    var n := |t|;
    assert t'[n] == Node(top, name) && t <= t';
    assert forall i :: 0 <= i < n ==> t'[i] == t[i];
    if top >= 0 {
      PathGrows(t, t', top);
      assert t'[n].parent == top;
      assert Path(t', n) == Path(t', top) + t'[n].name + "/";
    } else {
      assert Path(t', n) == "" + t'[n].name + "/";
    }
  }

  /** The three parts of `Named`, one at a time. */
  lemma NamedGrows(c: Cache, top: int, name: string)
    requires Shape(c) && Named(c.tree) && -1 <= top < |c.tree| && Unused(c, top, name)
    requires top >= 0 ==> name != [] && SlashFree(name)
    ensures Rooted(c.tree + [Node(top, name)]) && Named(c.tree + [Node(top, name)])
  {
    var t, n := c.tree + [Node(top, name)], |c.tree|;
    NewPath(c.tree, t, top, name);
    forall i, j | 0 <= i < j < |t| && t[i].parent == t[j].parent >= 0
      ensures t[i].name != t[j].name
    {
      assert t[i] == c.tree[i];
      if j < n { assert t[j] == c.tree[j]; }
    }
    forall i, j | 0 <= i < |t| && 0 <= j < |t| && i != j && t[i].parent == t[j].parent == -1
      ensures !(Path(t, i) <= Path(t, j))
    {
      RootsStayApart(c, t, top, name, i, j);
    }
  }

  lemma {:induction false} RootsStayApart(c: Cache, t: seq<Node>, top: int, name: string, i: int, j: int)
    requires Shape(c) && Named(c.tree) && -1 <= top < |c.tree| && Unused(c, top, name)
    requires t == c.tree + [Node(top, name)] && Rooted(t)
    requires 0 <= i < |t| && 0 <= j < |t| && i != j && t[i].parent == t[j].parent == -1
    ensures !(Path(t, i) <= Path(t, j))
  {
    var n := |c.tree|;
    NewPath(c.tree, t, top, name);
    if i < n { PathGrows(c.tree, t, i); assert t[i] == c.tree[i]; }
    if j < n { PathGrows(c.tree, t, j); assert t[j] == c.tree[j]; }
    if i == n {
      assert !(name + "/" <= Path(c.tree, j));
    } else if j == n {
      assert !(Path(c.tree, i) <= name + "/");
    }
  }

  lemma {:induction false} AttachDir(c: Cache, top: int, name: string)
    requires Growing(c) && -1 <= top < |c.tree| && Unused(c, top, name)
    requires top >= 0 ==> name != [] && SlashFree(name)
    ensures Attached(c, AddedDir(c, top, name), top, name)
    ensures Path(AddedDir(c, top, name).tree, |c.tree|) ==
            (if top >= 0 then Path(c.tree, top) else "") + name + "/"
  {
    AddedDirKeepsInv(c, top, name);
    NamedGrows(c, top, name);
    NewPath(c.tree, c.tree + [Node(top, name)], top, name);
  }

  lemma AttachFile(c: Cache, f: File)
    requires Growing(c) && 0 <= f.dir < |c.tree| && Unused(c, f.dir, f.name) && f.name != [] && SlashFree(f.name)
    ensures Attached(c, AddedFile(c, f), f.dir, f.name)
  {
    AddedFileKeepsInv(c, f);
  }

  /** `cacheDir->hiddenCount++`. */
  ghost function Hid(c: Cache, d: int): Cache
    requires Shape(c) && 0 <= d < |c.tree|
  {
    c.(hiddenCount := c.hiddenCount[d := c.hiddenCount[d] + 1])
  }

  lemma AttachHidden(c: Cache, d: int, name: string)
    requires Growing(c) && 0 <= d < |c.tree|
    ensures Attached(c, Hid(c, d), d, name)
  {
    var c' := Hid(c, d);
    forall x | 0 <= x < |c.tree|
      ensures c'.childCount[x] == |Kids(c', x)| + FilesIn(c'.files[0..], x)
    {
      assert Kids(c', x) == Kids(c, x);
    }
  }

  /** Growth below a new directory is growth where that directory was attached. */
  lemma AttachedBelow(c0: Cache, c1: Cache, c2: Cache, top: int, name: string, d: int, name': string)
    requires Growing(c0) && Attached(c0, c1, top, name) && Attached(c1, c2, d, name')
    requires |c0.tree| <= d
    ensures Attached(c0, c2, top, name)
  {
  }

  lemma UnusedStays(c: Cache, c': Cache, d: int, name: string, name': string)
    requires Growing(c) && 0 <= d < |c.tree| && Attached(c, c', d, name)
    requires Unused(c, d, name') && name != name'
    ensures Unused(c', d, name')
  {
  }

  lemma RestUnused(c: Cache, c': Cache, d: int, es: seq<Entry>, i: nat)
    requires Growing(c) && 0 <= d < |c.tree| && i < |es| && DistinctNames(es) && Attached(c, c', d, es[i].name)
    requires forall j :: i <= j < |es| ==> Unused(c, d, es[j].name)
    ensures forall j :: i + 1 <= j < |es| ==> Unused(c', d, es[j].name)
  {
    forall j | i + 1 <= j < |es|
      ensures Unused(c', d, es[j].name)
    {
      UnusedStays(c, c', d, es[i].name, es[j].name);
    }
  }

  lemma CoveredStays(c: Cache, c': Cache, top: int, name: string, n: string)
    requires Growing(c) && Attached(c, c', top, name) && Covered(c, 0, n)
    ensures Covered(c', 0, n)
  {
    if d :| 0 <= d < |c.tree| && !c.deleted[d] && n == Path(c.tree, d) {
      DirStays(c, c', top, name, d);
    } else if k :| 0 <= k < |c.files| && n == FilePath(c.tree, c.files[k]) {
      FileStays(c, c', top, name, k);
    } else {
      var d :| 0 <= d < |c.tree| && !c.deleted[d] && HiddenIn(c, d, n);
      HiddenStays(c, c', top, name, d, n);
    }
  }

  lemma {:induction false} DirStays(c: Cache, c': Cache, top: int, name: string, d: int)
    requires Growing(c) && Attached(c, c', top, name) && 0 <= d < |c.tree|
    ensures !c'.deleted[d] && Path(c'.tree, d) == Path(c.tree, d)
  {
    PathGrows(c.tree, c'.tree, d);
  }

  lemma FileStays(c: Cache, c': Cache, top: int, name: string, k: int)
    requires Growing(c) && Attached(c, c', top, name) && 0 <= k < |c.files|
    ensures k < |c'.files| && FilePath(c'.tree, c'.files[k]) == FilePath(c.tree, c.files[k])
  {
    assert c'.files[k] == c.files[k];
    PathGrows(c.tree, c'.tree, c.files[k].dir);
  }

  lemma HiddenStays(c: Cache, c': Cache, top: int, name: string, d: int, n: string)
    requires Growing(c) && Attached(c, c', top, name) && 0 <= d < |c.tree| && HiddenIn(c, d, n)
    ensures !c'.deleted[d] && HiddenIn(c', d, n)
  {
    PathGrows(c.tree, c'.tree, d);
  }

  // ---------------------------------------------------------------- what the walk of one entry does

  /** The disk holds exactly the listed nodes of the entry. */
  ghost predicate Agrees(pre: string, e: Entry, nodes: set<string>) {
    && (forall n :: InEntry(pre, e, n) ==> n in nodes)
    && (forall n :: n in nodes && OfEntry(pre, e.name, n) ==> InEntry(pre, e, n))
  }

  /** An entry that the walk only counts is, or lies below, the entry: a dot file, or neither a
      directory nor a regular file. */
  ghost predicate HiddenAt(pre: string, e: Entry, n: string)
    decreases e
  {
    match e
    case Directory(name, _, es) => exists i :: 0 <= i < |es| && HiddenAt(pre + name + "/", es[i], n)
    case Regular(name, _, _) => n == pre + name && name != [] && name[0] == '.'
    case Other(name) => n == pre + name
  }

  /** Such an entry is in the directory with path `p` itself. */
  ghost predicate HiddenUnder(pre: string, e: Entry, p: string) {
    exists n :: HiddenAt(pre, e, n) && p < n && SlashFree(n[|p|..])
  }

  /** Each new file has the path and time of a listed file, each new directory the path of a listed
      one, and paths fit the buffers: that of a file with its terminator, that of a directory with
      its final slash.  Hidden entries are counted only where there is one. */
  ghost predicate Walked(c0: Cache, c: Cache, pre: string, e: Entry)
    requires Shape(c)
  {
    && (forall k :: |c0.files| <= k < |c.files| ==>
                      var n := FilePath(c.tree, c.files[k]);
                      FileAt(pre, e, n, c.files[k].modTime) && |n| < PATH_MAX)
    && (forall j :: |c0.tree| <= j < |c.tree| ==>
                      var n := Path(c.tree, j);
                      InEntry(pre, e, n) && |n| <= PATH_MAX)
    && HiddenCounted(c0, c, pre, e)
  }

  ghost predicate HiddenCounted(c0: Cache, c: Cache, pre: string, e: Entry)
    requires Shape(c)
  {
    && (forall j :: |c0.tree| <= j < |c.tree| && c.hiddenCount[j] > 0 ==> HiddenUnder(pre, e, Path(c.tree, j)))
    && (forall j :: 0 <= j < |c0.tree| && j < |c.tree| && j < |c0.hiddenCount| ==>
                      c.hiddenCount[j] == c0.hiddenCount[j] || HiddenUnder(pre, e, pre))
  }

  lemma {:induction false} FileAtIsInEntry(pre: string, e: Entry, n: string, t: int)
    requires FileAt(pre, e, n, t)
    ensures InEntry(pre, e, n)
    decreases e
  {
    if e.Directory? {
      var i :| 0 <= i < |e.entries| && FileAt(pre + e.name + "/", e.entries[i], n, t);
      FileAtIsInEntry(pre + e.name + "/", e.entries[i], n, t);
    }
  }

  ghost predicate Present(c0: Cache, c: Cache, nodes: set<string>)
    requires Shape(c)
  {
    && (forall j :: |c0.tree| <= j < |c.tree| ==> Path(c.tree, j) in nodes)
    && (forall k :: |c0.files| <= k < |c.files| ==> FilePath(c.tree, c.files[k]) in nodes)
  }

  /** The walk removes nothing outside the entry. */
  ghost predicate RemovedInside(pre: string, name: string, nodes: set<string>, nodes': set<string>) {
    nodes' <= nodes && forall n :: n in nodes && n !in nodes' ==> OfEntry(pre, name, n)
  }

  ghost predicate RemovedBelow(inner: string, nodes: set<string>, nodes': set<string>) {
    nodes' <= nodes && forall n :: n in nodes && n !in nodes' ==> inner < n
  }

  /** From `c0` and `nodes` to `c` and `nodes'` by walking entry `e` of the directory `pre`. */
  ghost predicate Gathered(c0: Cache, nodes: set<string>, pre: string, e: Entry, clean: bool,
                           c: Cache, nodes': set<string>)
    requires Shape(c)
  {
    && Walked(c0, c, pre, e)
    && RemovedInside(pre, e.name, nodes, nodes')
    && (clean && Agrees(pre, e, nodes) ==>
          Present(c0, c, nodes') && forall n :: n in nodes' && OfEntry(pre, e.name, n) ==> Covered(c, 0, n))
  }

  lemma {:induction false} GatherHidden(c: Cache, nodes: set<string>, d: int, e: Entry, clean: bool)
    requires Growing(c) && 0 <= d < |c.tree| && Sound(e) && !e.Directory? && (e.Regular? ==> e.name[0] == '.')
    ensures Gathered(c, nodes, Path(c.tree, d), e, clean, Hid(c, d), nodes)
  {
    var c', pre := Hid(c, d), Path(c.tree, d);
    assert HiddenAt(pre, e, pre + e.name) && (pre + e.name)[|pre|..] == e.name;
    forall n | n in nodes && OfEntry(pre, e.name, n) && Agrees(pre, e, nodes)
      ensures Covered(c', 0, n)
    {
      assert InEntry(pre, e, n) && n[|pre|..] == e.name;
      assert HiddenIn(c', d, n);
    }
  }

  lemma {:induction false} GatherFile(c: Cache, nodes: set<string>, d: int, e: Entry, clean: bool)
    requires Growing(c) && 0 <= d < |c.tree| && Sound(e) && e.Regular? && e.name[0] != '.'
    requires |Path(c.tree, d) + e.name| < PATH_MAX
    ensures Gathered(c, nodes, Path(c.tree, d), e, clean, AddedFile(c, File(d, e.modTime, e.name)), nodes)
  {
    var f, pre := File(d, e.modTime, e.name), Path(c.tree, d);
    var c' := AddedFile(c, f);
    assert c'.files[|c.files|] == f && FilePath(c'.tree, f) == pre + e.name;
    if Agrees(pre, e, nodes) {
      assert InEntry(pre, e, pre + e.name);
      forall n | n in nodes && OfEntry(pre, e.name, n)
        ensures Covered(c', 0, n)
      {
        assert InEntry(pre, e, n) && n == FilePath(c'.tree, c'.files[|c.files|]);
      }
    }
  }

  lemma {:induction false} FileCollected(c: Cache, d: int, e: Entry)
    requires Growing(c) && 0 <= d < |c.tree| && e.Regular?
    ensures Shape(AddedFile(c, File(d, e.modTime, e.name)))
    ensures Complete(AddedFile(c, File(d, e.modTime, e.name)), Path(c.tree, d), e)
  {
    var f := File(d, e.modTime, e.name);
    var c' := AddedFile(c, f);
    assert c'.files[|c.files|] == f && FilePath(c'.tree, f) == Path(c.tree, d) + e.name;
  }

  /** An entry that was deleted instead of collected, or skipped after a failure. */
  lemma GatherDropped(c: Cache, nodes: set<string>, pre: string, e: Entry, clean: bool, nodes': set<string>)
    requires Growing(c) && RemovedInside(pre, e.name, nodes, nodes')
    requires clean && Agrees(pre, e, nodes) ==> forall n :: n in nodes' ==> !OfEntry(pre, e.name, n)
    ensures Gathered(c, nodes, pre, e, clean, c, nodes')
  {
  }

  // ---------------------------------------------------------------- the loop over a directory

  /** What the walk of the first `i` entries `es` of directory `inner` has collected. */
  ghost predicate WalkedTo(c0: Cache, c: Cache, inner: string, es: seq<Entry>, i: nat)
    requires Shape(c)
  {
    && (forall k :: |c0.files| <= k < |c.files| ==>
                      var n := FilePath(c.tree, c.files[k]);
                      |n| < PATH_MAX
                      && exists j :: 0 <= j < i && j < |es| && FileAt(inner, es[j], n, c.files[k].modTime))
    && (forall x :: |c0.tree| <= x < |c.tree| ==>
                      var n := Path(c.tree, x);
                      |n| <= PATH_MAX && (n == inner || exists j :: 0 <= j < i && j < |es| && InEntry(inner, es[j], n)))
    && HiddenCountedTo(c0, c, inner, es, i)
  }

  ghost predicate HiddenCountedTo(c0: Cache, c: Cache, inner: string, es: seq<Entry>, i: nat)
    requires Shape(c)
  {
    && (forall x :: |c0.tree| <= x < |c.tree| && c.hiddenCount[x] > 0 ==>
                      HiddenAmong(inner, es, i, Path(c.tree, x)))
    && (forall x :: 0 <= x < |c0.tree| && x < |c.tree| && x < |c0.hiddenCount| ==>
                      c.hiddenCount[x] == c0.hiddenCount[x])
  }

  ghost predicate HiddenAmong(inner: string, es: seq<Entry>, i: nat, p: string) {
    exists j :: 0 <= j < i && j < |es| && HiddenUnder(inner, es[j], p)
  }

  lemma {:induction false} WalkedStep(c0: Cache, c: Cache, c': Cache, d: int, inner: string, es: seq<Entry>, i: nat)
    requires Growing(c0) && Growing(c) && c0.tree <= c.tree && c0.files <= c.files && i < |es|
    requires WalkedTo(c0, c, inner, es, i) && Attached(c, c', d, es[i].name) && Walked(c, c', inner, es[i])
    requires |c0.tree| <= d < |c.tree| && Path(c.tree, d) == inner
    ensures WalkedTo(c0, c', inner, es, i + 1)
  {
    HiddenStep(c0, c, c', d, inner, es, i);
    forall x | |c0.tree| <= x < |c.tree|
      ensures Path(c'.tree, x) == Path(c.tree, x)
    {
      PathGrows(c.tree, c'.tree, x);
    }
    forall k | |c0.files| <= k < |c.files|
      ensures c'.files[k] == c.files[k] && FilePath(c'.tree, c'.files[k]) == FilePath(c.tree, c.files[k])
    {
      PathGrows(c.tree, c'.tree, c.files[k].dir);
    }
  }

  lemma {:induction false} HiddenStep(c0: Cache, c: Cache, c': Cache, d: int, inner: string, es: seq<Entry>, i: nat)
    requires Growing(c0) && Growing(c) && c0.tree <= c.tree && i < |es|
    requires HiddenCountedTo(c0, c, inner, es, i) && Attached(c, c', d, es[i].name)
    requires HiddenCounted(c, c', inner, es[i])
    requires |c0.tree| <= d < |c.tree| && Path(c.tree, d) == inner
    ensures HiddenCountedTo(c0, c', inner, es, i + 1)
  {
    forall x | |c0.tree| <= x < |c'.tree| && c'.hiddenCount[x] > 0
      ensures HiddenAmong(inner, es, i + 1, Path(c'.tree, x))
    {
      if x < |c.tree| {
        PathGrows(c.tree, c'.tree, x);
        if c.hiddenCount[x] > 0 {
          assert HiddenAmong(inner, es, i, Path(c.tree, x));
          var j :| 0 <= j < i && j < |es| && HiddenUnder(inner, es[j], Path(c.tree, x));
        }
      }
    }
  }

  lemma WalkedEnd(c0: Cache, c: Cache, pre: string, e: Entry, i: nat)
    requires Shape(c) && e.Directory? && WalkedTo(c0, c, pre + e.name + "/", e.entries, i)
    ensures Walked(c0, c, pre, e)
  {
    forall x | |c0.tree| <= x < |c.tree| && c.hiddenCount[x] > 0
      ensures HiddenUnder(pre, e, Path(c.tree, x))
    {
      var inner, p := pre + e.name + "/", Path(c.tree, x);
      var j :| 0 <= j < i && j < |e.entries| && HiddenUnder(inner, e.entries[j], p);
      var n :| HiddenAt(inner, e.entries[j], n) && p < n && SlashFree(n[|p|..]);
      assert HiddenAt(pre, e, n);
    }
  }

  /** A clean walk after `i` of the entries `es` of directory `inner`. */
  ghost predicate Midway(c0: Cache, c: Cache, inner: string, es: seq<Entry>, i: nat, nodes: set<string>)
    requires Shape(c)
  {
    && inner in nodes && Present(c0, c, nodes)
    && (forall j, n :: i <= j < |es| && InEntry(inner, es[j], n) ==> n in nodes)
    && (forall j, n :: 0 <= j < i && j < |es| && n in nodes && InEntry(inner, es[j], n) ==> Covered(c, 0, n))
    && (forall n :: n in nodes && inner < n ==> exists j :: 0 <= j < |es| && InEntry(inner, es[j], n))
  }

  lemma MidwayStart(c0: Cache, pre: string, top: int, e: Entry, nodes: set<string>)
    requires Growing(c0) && -1 <= top < |c0.tree| && e.Directory? && Agrees(pre, e, nodes)
    requires Growing(AddedDir(c0, top, e.name))
    requires Path(AddedDir(c0, top, e.name).tree, |c0.tree|) == pre + e.name + "/"
    ensures Midway(c0, AddedDir(c0, top, e.name), pre + e.name + "/", e.entries, 0, nodes)
  {
    var inner := pre + e.name + "/";
    assert InEntry(pre, e, inner);
    forall j, n | 0 <= j < |e.entries| && InEntry(inner, e.entries[j], n)
      ensures n in nodes
    {
      assert InEntry(pre, e, n);
    }
    forall n | n in nodes && inner < n
      ensures exists j :: 0 <= j < |e.entries| && InEntry(inner, e.entries[j], n)
    {
      assert OfEntry(pre, e.name, n) && InEntry(pre, e, n);
    }
  }

  /** Seen from one entry, a clean walk midway means that the disk agrees with its listing. */
  lemma {:induction false} MidwayAgrees(c0: Cache, c: Cache, inner: string, es: seq<Entry>, i: nat, nodes: set<string>)
    requires Shape(c) && i < |es| && Midway(c0, c, inner, es, i, nodes)
    requires DistinctNames(es) && forall j :: 0 <= j < |es| ==> Sound(es[j])
    ensures Agrees(inner, es[i], nodes)
  {
    forall n | n in nodes && OfEntry(inner, es[i].name, n)
      ensures InEntry(inner, es[i], n)
    {
      assert inner < n;
      var j :| 0 <= j < |es| && InEntry(inner, es[j], n);
      InEntryIsOfEntry(inner, es[j], n);
      EntriesApart(inner, es[i].name, es[j].name, n);
    }
  }

  /** Walking entry `i` leaves the nodes of the other entries, and of the directory, alone. */
  lemma {:induction false} OthersStay(inner: string, es: seq<Entry>, i: nat, j: nat, n: string, nodes: set<string>,
                                      nodes': set<string>)
    requires i < |es| && DistinctNames(es) && forall j :: 0 <= j < |es| ==> Sound(es[j])
    requires RemovedInside(inner, es[i].name, nodes, nodes') && n in nodes
    requires n == inner || (j < |es| && j != i && InEntry(inner, es[j], n))
    ensures n in nodes'
  {
    if n != inner { InEntryIsOfEntry(inner, es[j], n); }
    if OfEntry(inner, es[i].name, n) { EntriesApart(inner, es[i].name, es[j].name, n); }
  }

  lemma {:induction false} NewlyCovered(c: Cache, inner: string, e: Entry, nodes: set<string>, n: string)
    requires Shape(c) && n in nodes && InEntry(inner, e, n)
    requires forall m :: m in nodes && OfEntry(inner, e.name, m) ==> Covered(c, 0, m)
    ensures Covered(c, 0, n)
  {
    InEntryIsOfEntry(inner, e, n);
  }

  lemma {:induction false} MidwayStep(c0: Cache, c: Cache, c': Cache, d: int, inner: string, es: seq<Entry>, i: nat,
                                      nodes: set<string>, nodes': set<string>)
    requires Growing(c0) && Growing(c) && c0.tree <= c.tree && c0.files <= c.files
    requires i < |es| && DistinctNames(es) && forall j :: 0 <= j < |es| ==> Sound(es[j])
    requires Midway(c0, c, inner, es, i, nodes) && WalkedTo(c0, c, inner, es, i)
    requires Attached(c, c', d, es[i].name)
    requires Gathered(c, nodes, inner, es[i], true, c', nodes')
    ensures Midway(c0, c', inner, es, i + 1, nodes')
  {
    MidwayAgrees(c0, c, inner, es, i, nodes);
    forall n, j | i + 1 <= j < |es| && InEntry(inner, es[j], n)
      ensures n in nodes'
    {
      OthersStay(inner, es, i, j, n, nodes, nodes');
    }
    StillCovered(c, c', d, inner, es, i, nodes, nodes');
    PresentStays(c0, c, c', d, inner, es, i, nodes, nodes');
    OthersStay(inner, es, i, i, inner, nodes, nodes');
  }

  lemma StillCovered(c: Cache, c': Cache, d: int, inner: string, es: seq<Entry>, i: nat,
                     nodes: set<string>, nodes': set<string>)
    requires Growing(c) && i < |es| && Attached(c, c', d, es[i].name) && nodes' <= nodes
    requires forall j, n :: 0 <= j < i && n in nodes && InEntry(inner, es[j], n) ==> Covered(c, 0, n)
    requires forall n :: n in nodes' && OfEntry(inner, es[i].name, n) ==> Covered(c', 0, n)
    ensures forall j, n :: 0 <= j < i + 1 && n in nodes' && InEntry(inner, es[j], n) ==> Covered(c', 0, n)
  {
    forall j, n | 0 <= j < i + 1 && n in nodes' && InEntry(inner, es[j], n)
      ensures Covered(c', 0, n)
    {
      if j < i {
        CoveredStays(c, c', d, es[i].name, n);
      } else {
        NewlyCovered(c', inner, es[i], nodes', n);
      }
    }
  }

  /** What was present before the walk of an entry is outside it, and so is still present. */
  lemma PresentStays(c0: Cache, c: Cache, c': Cache, d: int, inner: string, es: seq<Entry>, i: nat,
                     nodes: set<string>, nodes': set<string>)
    requires Growing(c0) && Growing(c) && i < |es| && Attached(c, c', d, es[i].name)
    requires DistinctNames(es) && forall j :: 0 <= j < |es| ==> Sound(es[j])
    requires WalkedTo(c0, c, inner, es, i) && RemovedInside(inner, es[i].name, nodes, nodes')
    requires Present(c0, c, nodes) && Present(c, c', nodes')
    ensures Present(c0, c', nodes')
  {
    forall x | |c0.tree| <= x < |c.tree|
      ensures Path(c'.tree, x) in nodes'
    {
      PathGrows(c.tree, c'.tree, x);
      var n := Path(c.tree, x);
      if n == inner {
        OthersStay(inner, es, i, i, n, nodes, nodes');
      } else {
        var j :| 0 <= j < i && j < |es| && InEntry(inner, es[j], n);
        OthersStay(inner, es, i, j, n, nodes, nodes');
      }
    }
    forall k | |c0.files| <= k < |c.files|
      ensures FilePath(c'.tree, c'.files[k]) in nodes'
    {
      PathGrows(c.tree, c'.tree, c.files[k].dir);
      assert c'.files[k] == c.files[k];
      var n, t := FilePath(c.tree, c.files[k]), c.files[k].modTime;
      var j :| 0 <= j < i && j < |es| && FileAt(inner, es[j], n, t);
      FileAtIsInEntry(inner, es[j], n, t);
      OthersStay(inner, es, i, j, n, nodes, nodes');
    }
  }

  lemma {:induction false} MidwayEnd(c0: Cache, c: Cache, d: int, pre: string, e: Entry, nodes0: set<string>,
                                     nodes: set<string>)
    requires Growing(c) && e.Directory? && Agrees(pre, e, nodes0) && nodes <= nodes0
    requires 0 <= d < |c.tree| && Path(c.tree, d) == pre + e.name + "/"
    requires Midway(c0, c, pre + e.name + "/", e.entries, |e.entries|, nodes)
    ensures forall n :: n in nodes && OfEntry(pre, e.name, n) ==> Covered(c, 0, n)
  {
    forall n | n in nodes && OfEntry(pre, e.name, n)
      ensures Covered(c, 0, n)
    {
      assert InEntry(pre, e, n);
    }
  }

  /** The state of the loop over the entries of `e`, once its own directory `d` is collected. */
  ghost predicate Half(c0: Cache, nodes0: set<string>, pre: string, top: int, e: Entry, clean: bool,
                       c: Cache, nodes: set<string>, d: int, i: nat)
    requires Growing(c0) && e.Directory?
  {
    var inner := pre + e.name + "/";
    && Attached(c0, c, top, e.name) && |c0.tree| == d < |c.tree| && Path(c.tree, d) == inner
    && (forall j :: i <= j < |e.entries| ==> Unused(c, d, e.entries[j].name))
    && WalkedTo(c0, c, inner, e.entries, i)
    && RemovedBelow(inner, nodes0, nodes)
    && (clean && Agrees(pre, e, nodes0) ==> Midway(c0, c, inner, e.entries, i, nodes))
  }

  lemma {:induction false} HalfStart(c0: Cache, nodes: set<string>, pre: string, top: int, e: Entry, clean: bool,
                                     i: nat)
    requires Growing(c0) && -1 <= top < |c0.tree| && Unused(c0, top, e.name) && e.Directory?
    requires top >= 0 ==> Sound(e)
    requires pre == if top >= 0 then Path(c0.tree, top) else ""
    requires |pre + e.name| < PATH_MAX && (clean ==> i == 0)
    ensures Half(c0, nodes, pre, top, e, clean, AddedDir(c0, top, e.name), nodes, |c0.tree|, i)
  {
    var c, d, inner := AddedDir(c0, top, e.name), |c0.tree|, pre + e.name + "/";
    AttachDir(c0, top, e.name);
    if clean && Agrees(pre, e, nodes) { MidwayStart(c0, pre, top, e, nodes); }
  }

  lemma {:induction false} HalfStep(c0: Cache, nodes0: set<string>, pre: string, top: int, e: Entry, clean: bool,
                 c: Cache, nodes: set<string>, d: int, i: nat, clean': bool, c': Cache, nodes': set<string>)
    requires Growing(c0) && e.Directory? && SoundInside(e) && i < |e.entries|
    requires Half(c0, nodes0, pre, top, e, clean, c, nodes, d, i)
    requires Attached(c, c', d, e.entries[i].name)
    requires Gathered(c, nodes, pre + e.name + "/", e.entries[i], clean', c', nodes') && (clean ==> clean')
    ensures Half(c0, nodes0, pre, top, e, clean, c', nodes', d, i + 1)
  {
    var inner, es := pre + e.name + "/", e.entries;
    PathGrows(c.tree, c'.tree, d);
    AttachedBelow(c0, c, c', top, e.name, d, es[i].name);
    RestUnused(c, c', d, es, i);
    WalkedStep(c0, c, c', d, inner, es, i);
    if clean && Agrees(pre, e, nodes0) { MidwayStep(c0, c, c', d, inner, es, i, nodes, nodes'); }
  }

  lemma HalfEnd(c0: Cache, nodes0: set<string>, pre: string, top: int, e: Entry, clean: bool,
                c: Cache, nodes: set<string>, d: int, i: nat)
    requires Growing(c0) && e.Directory? && Half(c0, nodes0, pre, top, e, clean, c, nodes, d, i)
    requires clean ==> i == |e.entries|
    ensures Attached(c0, c, top, e.name) && Gathered(c0, nodes0, pre, e, clean, c, nodes)
    ensures Node(top, e.name) in c.tree && RemovedBelow(pre + e.name + "/", nodes0, nodes)
  {
    assert c.tree[d] == Node(top, e.name);
    WalkedEnd(c0, c, pre, e, i);
    if clean && Agrees(pre, e, nodes0) { MidwayEnd(c0, c, d, pre, e, nodes0, nodes); }
  }

  // ---------------------------------------------------------------- what the walk does not miss

  /** The walk gets at a visible regular file with path `n` and time `t`, which is the entry or lies
      below it: each directory on the way opens, and the file can be examined. */
  ghost predicate Reach(pre: string, e: Entry, n: string, t: int)
    decreases e
  {
    match e
    case Directory(name, opens, es) => opens && exists i :: 0 <= i < |es| && Reach(pre + name + "/", es[i], n, t)
    case Regular(_, _, stats) => stats && FileAt(pre, e, n, t)
    case Other(_) => false
  }

  lemma {:induction false} ReachIsFileAt(pre: string, e: Entry, n: string, t: int)
    requires Reach(pre, e, n, t)
    ensures FileAt(pre, e, n, t)
    decreases e
  {
    if e.Directory? {
      var i :| 0 <= i < |e.entries| && Reach(pre + e.name + "/", e.entries[i], n, t);
      ReachIsFileAt(pre + e.name + "/", e.entries[i], n, t);
    }
  }

  ghost predicate Collected(c: Cache, n: string, t: int)
    requires Shape(c)
  {
    exists k :: 0 <= k < |c.files| && FilePath(c.tree, c.files[k]) == n && c.files[k].modTime == t
  }

  /** Each file of the entry that the walk gets at, and whose path fits, has been collected. */
  ghost predicate Complete(c: Cache, pre: string, e: Entry)
    requires Shape(c)
  {
    forall n, t :: Reach(pre, e, n, t) && |n| < PATH_MAX ==> Collected(c, n, t)
  }

  /** The walk leaves `n` alone, which is the entry or lies below it: whatever is in a directory that does
      not open or that is not entered, what is only counted, files that can be collected, and directories
      that are entered. */
  ghost predicate Safe(pre: string, e: Entry, n: string)
    decreases e
  {
    match e
    case Directory(name, opens, es) =>
      if opens then
        |pre + name| < 4096
        && (n == pre + name + "/" || exists i :: 0 <= i < |es| && Safe(pre + name + "/", es[i], n))
      else InEntry(pre, e, n)
    case Regular(name, _, stats) => n == pre + name && (HiddenAt(pre, e, n) || (stats && |n| < 4096))
    case Other(name) => n == pre + name
  }

  lemma {:induction false} SafeIsInEntry(pre: string, e: Entry, n: string)
    requires Safe(pre, e, n)
    ensures InEntry(pre, e, n)
    decreases e
  {
    if e.Directory? && e.opens && n != pre + e.name + "/" {
      var i :| 0 <= i < |e.entries| && Safe(pre + e.name + "/", e.entries[i], n);
      SafeIsInEntry(pre + e.name + "/", e.entries[i], n);
    }
  }

  /** What can be collected is safe. */
  lemma {:induction false} ReachIsSafe(pre: string, e: Entry, n: string, t: int)
    requires Reach(pre, e, n, t) && |n| < PATH_MAX
    ensures Safe(pre, e, n)
    decreases e
  {
    if e.Directory? {
      var i :| 0 <= i < |e.entries| && Reach(pre + e.name + "/", e.entries[i], n, t);
      ReachIsSafe(pre + e.name + "/", e.entries[i], n, t);
      ReachIsFileAt(pre, e, n, t);
      FileAtIsOfEntry(pre, e, n, t);
    }
  }

  /** Nothing that the walk leaves alone has been removed. */
  ghost predicate Spared(pre: string, e: Entry, nodes: set<string>, nodes': set<string>) {
    forall n :: Safe(pre, e, n) && n in nodes ==> n in nodes'
  }

  lemma {:induction false} FileOrHidden(pre: string, e: Entry, n: string) returns (t: int)
    requires Sound(e) || (e.Directory? && SoundInside(e))
    requires Readable(e) && InEntry(pre, e, n) && n != [] && n[|n| - 1] != '/'
    ensures HiddenAt(pre, e, n) || Reach(pre, e, n, t)
    decreases e
  {
    t := 0;
    if e.Directory? {
      var i :| 0 <= i < |e.entries| && InEntry(pre + e.name + "/", e.entries[i], n);
      t := FileOrHidden(pre + e.name + "/", e.entries[i], n);
    } else if e.Regular? {
      t := e.modTime;
    }
  }

  /** What the walk of a readable entry has not collected, though its path fits, is hidden. */
  lemma {:induction false} UncollectedIsHidden(c: Cache, pre: string, e: Entry, n: string)
    requires Shape(c) && Complete(c, pre, e) && (Sound(e) || (e.Directory? && SoundInside(e))) && Readable(e)
    requires InEntry(pre, e, n) && n != [] && n[|n| - 1] != '/' && |n| < PATH_MAX
    requires forall k :: 0 <= k < |c.files| ==> n != FilePath(c.tree, c.files[k])
    ensures HiddenAt(pre, e, n)
  {
    var t := FileOrHidden(pre, e, n);
    assert !Collected(c, n, t);
  }

  /** A listed path has one time only. */
  lemma {:induction false} FileAtUnique(pre: string, e: Entry, n: string, t: int, t': int)
    requires (e.Directory? ==> SoundInside(e)) && FileAt(pre, e, n, t) && FileAt(pre, e, n, t')
    ensures t == t'
    decreases e
  {
    if e.Directory? {
      var inner, es := pre + e.name + "/", e.entries;
      var i :| 0 <= i < |es| && FileAt(inner, es[i], n, t);
      var j :| 0 <= j < |es| && FileAt(inner, es[j], n, t');
      FileAtIsOfEntry(inner, es[i], n, t);
      FileAtIsOfEntry(inner, es[j], n, t');
      EntriesApart(inner, es[i].name, es[j].name, n);
      FileAtUnique(inner, es[i], n, t, t');
    }
  }

  lemma {:induction false} FileAtIsOfEntry(pre: string, e: Entry, n: string, t: int)
    requires FileAt(pre, e, n, t)
    ensures OfEntry(pre, e.name, n)
  {
    FileAtIsInEntry(pre, e, n, t);
    InEntryIsOfEntry(pre, e, n);
  }

  lemma CollectedStays(c: Cache, c': Cache, top: int, name: string, n: string, t: int)
    requires Growing(c) && Attached(c, c', top, name) && Collected(c, n, t)
    ensures Collected(c', n, t)
  {
    var k :| 0 <= k < |c.files| && FilePath(c.tree, c.files[k]) == n && c.files[k].modTime == t;
    FileStays(c, c', top, name, k);
    assert c'.files[k] == c.files[k];
  }

  lemma CompleteStays(c: Cache, c': Cache, top: int, name: string, pre: string, e: Entry)
    requires Growing(c) && Attached(c, c', top, name) && Complete(c, pre, e)
    ensures Complete(c', pre, e)
  {
    forall n, t | Reach(pre, e, n, t) && |n| < PATH_MAX
      ensures Collected(c', n, t)
    {
      CollectedStays(c, c', top, name, n, t);
    }
  }

  /** The entry's path fills the buffer, so that of each file below it does. */
  lemma NoneFits(c: Cache, pre: string, e: Entry, nodes: set<string>, nodes': set<string>)
    requires Shape(c) && |pre + e.name| >= PATH_MAX && !e.Other? && (e.Directory? ==> e.opens)
    requires e.Regular? ==> e.name != [] && e.name[0] != '.'
    ensures Complete(c, pre, e) && Spared(pre, e, nodes, nodes')
  {
    forall n, t | Reach(pre, e, n, t)
      ensures |n| >= PATH_MAX
    {
      ReachIsFileAt(pre, e, n, t);
      FileAtIsOfEntry(pre, e, n, t);
    }
  }

  /** The walk after `i` of the entries `es` of directory `inner`: what it has missed, and what it
      has spared.  `full` says that memory has not been short. */
  ghost predicate Thorough(c: Cache, inner: string, es: seq<Entry>, i: nat, full: bool,
                           nodes0: set<string>, nodes: set<string>)
    requires Shape(c)
  {
    && (full ==> forall j :: 0 <= j < i && j < |es| ==> Complete(c, inner, es[j]))
    && (forall j :: 0 <= j < |es| ==> Spared(inner, es[j], nodes0, nodes))
  }

  lemma {:induction false} ThoroughStep(c: Cache, c': Cache, d: int, inner: string, es: seq<Entry>, i: nat, full: bool,
                                        nodes0: set<string>, nodes: set<string>, nodes': set<string>)
    requires Growing(c) && i < |es| && Attached(c, c', d, es[i].name)
    requires DistinctNames(es) && forall j :: 0 <= j < |es| ==> Sound(es[j])
    requires Thorough(c, inner, es, i, full, nodes0, nodes)
    requires RemovedInside(inner, es[i].name, nodes, nodes') && Spared(inner, es[i], nodes, nodes')
    requires full ==> Complete(c', inner, es[i])
    ensures Thorough(c', inner, es, i + 1, full, nodes0, nodes')
  {
    forall j | full && 0 <= j < i + 1
      ensures Complete(c', inner, es[j])
    {
      if j < i { CompleteStays(c, c', d, es[i].name, inner, es[j]); }
    }
    forall j | 0 <= j < |es|
      ensures Spared(inner, es[j], nodes0, nodes')
    {
      SparedByOthers(inner, es, i, j, nodes0, nodes, nodes');
    }
  }

  lemma {:induction false} SparedByOthers(inner: string, es: seq<Entry>, i: nat, j: nat, nodes0: set<string>,
                                          nodes: set<string>, nodes': set<string>)
    requires i < |es| && j < |es| && DistinctNames(es) && forall j :: 0 <= j < |es| ==> Sound(es[j])
    requires RemovedInside(inner, es[i].name, nodes, nodes') && Spared(inner, es[i], nodes, nodes')
    requires Spared(inner, es[j], nodes0, nodes)
    ensures Spared(inner, es[j], nodes0, nodes')
  {
    forall n | Safe(inner, es[j], n) && n in nodes0
      ensures n in nodes'
    {
      assert n in nodes;
      if j != i {
        SafeIsInEntry(inner, es[j], n);
        OthersStay(inner, es, i, j, n, nodes, nodes');
      }
    }
  }

  lemma ThoroughEnd(c: Cache, pre: string, e: Entry, i: nat, full: bool, nodes0: set<string>, nodes: set<string>)
    requires Shape(c) && e.Directory? && e.opens && Thorough(c, pre + e.name + "/", e.entries, i, full, nodes0, nodes)
    requires (full ==> i == |e.entries|) && RemovedBelow(pre + e.name + "/", nodes0, nodes)
    ensures (full ==> Complete(c, pre, e)) && Spared(pre, e, nodes0, nodes)
  {
    var inner, es := pre + e.name + "/", e.entries;
    forall n, t | full && Reach(pre, e, n, t) && |n| < PATH_MAX
      ensures Collected(c, n, t)
    {
      var j :| 0 <= j < |es| && Reach(inner, es[j], n, t);
      assert Complete(c, inner, es[j]);
    }
    forall n | Safe(pre, e, n) && n in nodes0
      ensures n in nodes
    {
      if n != inner {
        var j :| 0 <= j < |es| && Safe(inner, es[j], n);
        assert Spared(inner, es[j], nodes0, nodes);
      }
    }
  }

  // ---------------------------------------------------------------- _add_cache_files

  /** Whether a run of the walk met no failure at all. */
  ghost predicate NoFailure(cache: Store, disk: Disk, e: Entry) {
    !disk.faulty && !cache.arena.tight && Readable(e)
  }

  /**
   * One turn of the loop in `_add_cache_files`, for an entry of the collected directory `d`.  The
   * path buffer holds `base` and has `avail` bytes left, its terminator included.
   */
  method CollectEntry(cache: Store, disk: Disk, d: int, e: Entry, base: string, avail: nat) returns (crashed: bool)
    requires cache.Room() && Growing(cache.Snap()) && Sound(e)
    requires 0 <= d < |cache.tree| && Unused(cache.Snap(), d, e.name)
    requires Path(cache.tree, d) == base + "/" && |base| + avail == PATH_MAX && avail >= 1
    modifies cache, cache.arena, disk`nodes, disk`free
    ensures cache.Room() && Attached(old(cache.Snap()), cache.Snap(), d, e.name)
    ensures Gathered(old(cache.Snap()), old(disk.nodes), base + "/", e, NoFailure(cache, disk, e),
                     cache.Snap(), disk.nodes)
    ensures !cache.arena.tight ==> Complete(cache.Snap(), base + "/", e)
    ensures Spared(base + "/", e, old(disk.nodes), disk.nodes)
    ensures crashed ==> cache.arena.tight
    decreases e, 3
  {
    ghost var c, nodes, pre, clean := cache.Snap(), disk.nodes, base + "/", NoFailure(cache, disk, e);
    crashed := false;
    var finalLen := 1 + |e.name|;
    var path := base + "/" + e.name;
    if e.Directory? && e.opens && finalLen < avail {
      crashed := CollectDir(cache, disk, d, base + "/", e, path, avail - finalLen);
    } else if e.Directory? && e.opens {
      var _ := disk.DeleteDirContents(path + "/", true);
      GatherTruncated(c, nodes, pre, e, clean, disk.nodes);
      NoneFits(c, pre, e, nodes, disk.nodes);
    } else if e.Directory? {
      GatherDropped(c, nodes, pre, e, clean, nodes);
    } else if e.Other? || e.name[0] == '.' {
      CollectHidden(cache, disk, d, e);
    } else {
      CollectFile(cache, disk, d, e, base, avail);
    }
  }

  /** An entry that is only counted. */
  method CollectHidden(cache: Store, ghost disk: Disk, d: int, e: Entry)
    requires cache.Room() && Growing(cache.Snap()) && Sound(e) && 0 <= d < |cache.tree|
    requires Unused(cache.Snap(), d, e.name) && !e.Directory? && (e.Regular? ==> e.name[0] == '.')
    modifies cache`hiddenCount
    ensures cache.Room() && Attached(old(cache.Snap()), cache.Snap(), d, e.name)
    ensures Gathered(old(cache.Snap()), disk.nodes, Path(cache.tree, d), e, NoFailure(cache, disk, e),
                     cache.Snap(), disk.nodes)
  {
    ghost var c := cache.Snap();
    cache.hiddenCount := cache.hiddenCount[d := cache.hiddenCount[d] + 1];
    AttachHidden(c, d, e.name);
    GatherHidden(c, disk.nodes, d, e, NoFailure(cache, disk, e));
    assert cache.Snap() == Hid(c, d);
  }

  /** A visible file. */
  method CollectFile(cache: Store, disk: Disk, d: int, e: Entry, base: string, avail: nat)
    requires cache.Room() && Growing(cache.Snap()) && Sound(e) && e.Regular? && e.name[0] != '.'
    requires 0 <= d < |cache.tree| && Unused(cache.Snap(), d, e.name)
    requires Path(cache.tree, d) == base + "/" && |base| + avail == PATH_MAX && avail >= 1
    modifies cache, cache.arena, disk`nodes, disk`free
    ensures cache.Room() && Attached(old(cache.Snap()), cache.Snap(), d, e.name)
    ensures Gathered(old(cache.Snap()), old(disk.nodes), base + "/", e, NoFailure(cache, disk, e),
                     cache.Snap(), disk.nodes)
    ensures !cache.arena.tight ==> Complete(cache.Snap(), base + "/", e)
    ensures Spared(base + "/", e, old(disk.nodes), disk.nodes)
  {
    ghost var c, nodes, clean := cache.Snap(), disk.nodes, NoFailure(cache, disk, e);
    var finalLen := 1 + |e.name|;
    if finalLen < avail && e.stats {
      var ok := cache.AddFile(File(d, e.modTime, e.name));
      if ok {
        AttachFile(c, File(d, e.modTime, e.name));
        GatherFile(c, nodes, d, e, clean);
        FileCollected(c, d, e);
      } else {
        GatherDropped(c, nodes, base + "/", e, clean, nodes);
      }
    } else {
      var _ := disk.Unlink(base + "/" + e.name);
      GatherTruncated(c, nodes, base + "/", e, clean, disk.nodes);
      if e.stats { NoneFits(c, base + "/", e, nodes, disk.nodes); }
    }
  }

  /** An entry whose path does not fit, or that cannot be examined, is deleted on the spot. */
  lemma GatherTruncated(c: Cache, nodes: set<string>, pre: string, e: Entry, clean: bool, nodes': set<string>)
    requires Growing(c) && !e.Other?
    requires e.Directory? ==> nodes - Victims(nodes, pre + e.name + "/", true) <= nodes' <= nodes
    requires e.Directory? && clean && pre + e.name + "/" in nodes ==>
               nodes' == nodes - Victims(nodes, pre + e.name + "/", true)
    requires e.Regular? ==> nodes - {pre + e.name} <= nodes' <= nodes
    requires e.Regular? && clean && pre + e.name in nodes ==> nodes' == nodes - {pre + e.name}
    ensures Gathered(c, nodes, pre, e, clean, c, nodes')
  {
    if clean && Agrees(pre, e, nodes) {
      assert InEntry(pre, e, if e.Directory? then pre + e.name + "/" else pre + e.name);
      forall n | n in nodes && OfEntry(pre, e.name, n)
        ensures n !in nodes'
      {
        assert InEntry(pre, e, n);
        InEntryBelow(pre, e, n);
      }
    }
    GatherDropped(c, nodes, pre, e, clean, nodes');
  }

  lemma {:induction false} InEntryBelow(pre: string, e: Entry, n: string)
    requires InEntry(pre, e, n)
    ensures if e.Directory? then pre + e.name + "/" <= n else n == pre + e.name
  {
    if e.Directory? && n != pre + e.name + "/" {
      var i :| 0 <= i < |e.entries| && InEntry(pre + e.name + "/", e.entries[i], n);
      InEntryIsOfEntry(pre + e.name + "/", e.entries[i], n);
    }
  }

  /**
   * `_add_cache_files` for directory `e`, to be collected in directory `top` (-1 for a root).  The
   * result says whether the process was killed by a null pointer: a hidden entry is counted in
   * its directory even when no memory could be had for that directory.
   */
  method CollectDir(cache: Store, disk: Disk, top: int, pre: string, e: Entry, base: string, avail: nat)
    returns (crashed: bool)
    requires cache.Room() && Growing(cache.Snap()) && e.Directory? && e.opens && SoundInside(e)
    requires -1 <= top < |cache.tree| && Unused(cache.Snap(), top, e.name) && (top >= 0 ==> Sound(e))
    requires pre == if top >= 0 then Path(cache.tree, top) else ""
    requires base == pre + e.name && |base| + avail == PATH_MAX && avail >= 1
    modifies cache, cache.arena, disk`nodes, disk`free
    ensures cache.Room() && Attached(old(cache.Snap()), cache.Snap(), top, e.name)
    ensures Gathered(old(cache.Snap()), old(disk.nodes), pre, e, NoFailure(cache, disk, e), cache.Snap(), disk.nodes)
    ensures !cache.arena.tight ==> Complete(cache.Snap(), pre, e)
    ensures Spared(pre, e, old(disk.nodes), disk.nodes)
    ensures crashed ==> cache.arena.tight
    ensures !cache.arena.tight ==> Node(top, e.name) in cache.tree
    decreases e, 2
  {
    ghost var c0, nodes0, clean := cache.Snap(), disk.nodes, NoFailure(cache, disk, e);
    var d, i;
    d, i, crashed := Enter(cache, disk, top, e, pre);
    if d != -1 {
      crashed := CollectRest(cache, disk, e, base, avail, d, i, c0, nodes0, pre, top, clean);
    } else {
      NothingGathered(c0, nodes0, pre, top, e);
    }
  }

  /** The directory itself is collected, if there is memory for it before one entry or another: `d` is
      its number, or -1, and `i` the entry to go on with. */
  method Enter(cache: Store, ghost disk: Disk, top: int, e: Entry, ghost pre: string)
    returns (d: int, i: nat, crashed: bool)
    requires cache.Room() && Growing(cache.Snap()) && e.Directory? && SoundInside(e)
    requires -1 <= top < |cache.tree| && Unused(cache.Snap(), top, e.name) && (top >= 0 ==> Sound(e))
    requires pre == if top >= 0 then Path(cache.tree, top) else ""
    requires |pre + e.name| < PATH_MAX
    modifies cache, cache.arena
    ensures cache.Room() && i <= |e.entries| && (crashed ==> d == -1)
    ensures d == -1 ==> cache.arena.tight && cache.Snap() == old(cache.Snap())
    ensures d != -1 ==> Half(old(cache.Snap()), disk.nodes, pre, top, e, NoFailure(cache, disk, e),
                             cache.Snap(), disk.nodes, d, i)
    ensures i > 0 ==> cache.arena.tight
  {
    ghost var c0 := cache.Snap();
    d := TryAddDir(cache, disk, top, e, 0, pre);
    i, crashed := 0, false;
    while d == -1 && i < |e.entries|
      invariant i <= |e.entries| && cache.Room() && (i > 0 ==> cache.arena.tight)
      invariant d == -1 ==> cache.arena.tight && cache.Snap() == c0
      invariant d != -1 ==> Half(c0, disk.nodes, pre, top, e, NoFailure(cache, disk, e), cache.Snap(), disk.nodes, d, i)
      decreases |e.entries| - i, d == -1
    {
      var entry := e.entries[i];
      if !entry.Other? && !(entry.Directory? && !entry.opens) {
        d := TryAddDir(cache, disk, top, e, i, pre);
      }
      if d == -1 {
        if entry.Other? || (entry.Regular? && entry.name[0] == '.') { return -1, i, true; }
        i := i + 1;
      }
    }
  }

  lemma NothingGathered(c: Cache, nodes: set<string>, pre: string, top: int, e: Entry)
    requires Growing(c)
    ensures Attached(c, c, top, e.name) && Gathered(c, nodes, pre, e, false, c, nodes)
  {
  }

  /** The attempts to collect the directory itself: `_add_cache_dir_t` before and inside the loop. */
  method TryAddDir(cache: Store, ghost disk: Disk, top: int, e: Entry, ghost i: nat, ghost pre: string) returns (d: int)
    requires cache.Room() && Growing(cache.Snap()) && e.Directory?
    requires -1 <= top < |cache.tree| && Unused(cache.Snap(), top, e.name) && (top >= 0 ==> Sound(e))
    requires pre == if top >= 0 then Path(cache.tree, top) else ""
    requires |pre + e.name| < PATH_MAX && (i == 0 || cache.arena.tight)
    modifies cache, cache.arena
    ensures cache.Room()
    ensures d == -1 ==> cache.arena.tight && cache.Snap() == old(cache.Snap())
    ensures d != -1 ==> Half(old(cache.Snap()), disk.nodes, pre, top, e, NoFailure(cache, disk, e),
                             cache.Snap(), disk.nodes, d, i)
  {
    ghost var c := cache.Snap();
    d := cache.AddDir(top, e.name);
    if d != -1 { HalfStart(c, disk.nodes, pre, top, e, NoFailure(cache, disk, e), i); }
  }

  /** One turn of the loop of `_add_cache_files`. */
  method CollectNext(cache: Store, disk: Disk, e: Entry, base: string, avail: nat, d: int, i: nat,
                     ghost c0: Cache, ghost nodes0: set<string>, ghost pre: string, ghost top: int, ghost clean: bool)
    returns (crashed: bool, next: nat, ghost c': Cache, ghost nodes': set<string>)
    requires cache.Room() && Growing(c0) && e.Directory? && SoundInside(e) && i < |e.entries|
    requires clean ==> NoFailure(cache, disk, e)
    requires Half(c0, nodes0, pre, top, e, clean, cache.Snap(), disk.nodes, d, i)
    requires Thorough(cache.Snap(), pre + e.name + "/", e.entries, i, !cache.arena.tight, nodes0, disk.nodes)
    requires base == pre + e.name && |base| + avail == PATH_MAX && avail >= 1
    modifies cache, cache.arena, disk`nodes, disk`free
    ensures cache.Room() && (crashed ==> cache.arena.tight)
    ensures next == i + 1 && c' == cache.Snap() && nodes' == disk.nodes
    ensures Half(c0, nodes0, pre, top, e, clean, c', nodes', d, next)
    ensures Thorough(c', pre + e.name + "/", e.entries, next, !cache.arena.tight, nodes0, nodes')
    decreases e, 0
  {
    ghost var c, nodes := cache.Snap(), disk.nodes;
    crashed := CollectEntry(cache, disk, d, e.entries[i], base, avail);
    HalfStep(c0, nodes0, pre, top, e, clean, c, nodes, d, i, NoFailure(cache, disk, e.entries[i]),
             cache.Snap(), disk.nodes);
    ThoroughStep(c, cache.Snap(), d, pre + e.name + "/", e.entries, i, !cache.arena.tight, nodes0, nodes, disk.nodes);
    next, c', nodes' := i + 1, cache.Snap(), disk.nodes;
  }

  /** The loop of `_add_cache_files` from entry `from` on, once the directory itself is collected. */
  method CollectRest(cache: Store, disk: Disk, e: Entry, base: string, avail: nat, d: int, from: nat,
                     ghost c0: Cache, ghost nodes0: set<string>, ghost pre: string, ghost top: int, ghost clean: bool)
    returns (crashed: bool)
    requires cache.Room() && Growing(c0) && e.Directory? && e.opens && SoundInside(e) && from <= |e.entries|
    requires clean ==> NoFailure(cache, disk, e)
    requires Half(c0, nodes0, pre, top, e, clean, cache.Snap(), disk.nodes, d, from)
    requires Thorough(cache.Snap(), pre + e.name + "/", e.entries, from, !cache.arena.tight, nodes0, disk.nodes)
    requires base == pre + e.name && |base| + avail == PATH_MAX && avail >= 1
    modifies cache, cache.arena, disk`nodes, disk`free
    ensures cache.Room() && Attached(c0, cache.Snap(), top, e.name)
    ensures Gathered(c0, nodes0, pre, e, clean, cache.Snap(), disk.nodes)
    ensures !cache.arena.tight ==> Complete(cache.Snap(), pre, e)
    ensures Spared(pre, e, nodes0, disk.nodes)
    ensures crashed ==> cache.arena.tight
    ensures Node(top, e.name) in cache.tree
    decreases e, 1
  {
    var i := from;
    ghost var c, nodes := cache.Snap(), disk.nodes;
    crashed := false;
    while i < |e.entries| && !crashed
      invariant from <= i <= |e.entries| && cache.Room() && c == cache.Snap() && nodes == disk.nodes
      invariant Half(c0, nodes0, pre, top, e, clean, c, nodes, d, i)
      invariant Thorough(c, pre + e.name + "/", e.entries, i, !cache.arena.tight, nodes0, nodes)
      invariant crashed ==> cache.arena.tight
    {
      crashed, i, c, nodes := CollectNext(cache, disk, e, base, avail, d, i, c0, nodes0, pre, top, clean);
    }
    HalfEnd(c0, nodes0, pre, top, e, clean, c, nodes, d, i);
    ThoroughEnd(c, pre, e, i, !cache.arena.tight, nodes0, nodes);
  }
}
