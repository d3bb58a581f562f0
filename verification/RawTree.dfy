/** The tree that a backup saves, the paths it skips, and the records it becomes. */
module RawTree {
  import opened RawBytes
  import opened RawFormat

  /** A name in a directory, and a path as the names from the root down. */
  type Name = Text
  type Path = seq<Name>

  const SLASH: byte := 47
  const DOT: byte := 46

  /** What the kernel allows as the name of an entry. */
  ghost predicate NameOk(n: Name) {
    n != [] && SLASH !in n && 0 !in n && n != [DOT] && n != [DOT, DOT]
  }

  ghost predicate PathOk(p: Path) {
    forall i :: 0 <= i < |p| ==> NameOk(p[i])
  }

  /** The text of an absolute path. */
  function Render(p: Path): Text {
    if p == [] then [] else Render(p[..|p| - 1]) + [SLASH] + p[|p| - 1]
  }

  /** The text after the last slash. */
  function LastName(t: Text): (n: Text)
    ensures |n| <= |t| && SLASH !in n && t[|t| - |n|..] == n && (|n| < |t| ==> t[|t| - |n| - 1] == SLASH)
  {
    if t == [] || t[|t| - 1] == SLASH then [] else LastName(t[..|t| - 1]) + [t[|t| - 1]]
  }

  /** How the kernel resolves the text of a path: slashes separate, and empty parts do not count. */
  function Resolve(t: Text): Path
    decreases |t|
  {
    if t == [] then []
    else
      var n := LastName(t);
      if n == [] then Resolve(t[..|t| - 1]) else Resolve(t[..|t| - |n|]) + [n]
  }

  lemma {:induction false} LastNameIs(t: Text, n: Name)
    requires SLASH !in n
    ensures LastName(t + [SLASH] + n) == n
  {
    var s := t + [SLASH] + n;
    if n != [] {
      assert s[..|s| - 1] == t + [SLASH] + n[..|n| - 1];
      LastNameIs(t, n[..|n| - 1]);
    }
  }

  lemma {:induction false} ResolveRender(p: Path)
    requires PathOk(p)
    ensures Resolve(Render(p)) == p
  {
    if p != [] {
      var q, n := p[..|p| - 1], p[|p| - 1];
      assert NameOk(n) && PathOk(q) && q + [n] == p;
      ResolveRender(q);
      ResolveNext(Render(q), n);
      assert Render(p) == Render(q) + [SLASH] + n;
    }
  }

  lemma {:induction false} ResolveNext(t: Text, n: Name)
    requires n != [] && SLASH !in n
    ensures Resolve(t + [SLASH] + n) == Resolve(t) + [n]
  {
    var s := t + [SLASH] + n;
    LastNameIs(t, n);
    assert s[..|s| - |n|] == t + [SLASH];
    SlashAtEnd(t);
  }

  lemma {:induction false} SlashAtEnd(t: Text)
    ensures Resolve(t + [SLASH]) == Resolve(t)
  {
    assert (t + [SLASH])[..|t|] == t;
  }

  // ---------------------------------------------------------------- what is skipped

  /** The bytes of a literal. */
  function Bytes(s: string): Text
    requires forall i :: 0 <= i < |s| ==> s[i] as int < 256
  {
    seq(|s|, i requires 0 <= i < |s| => s[i] as int)
  }

  const DATA: Name := Bytes("data")
  const LOST_FOUND: Name := Bytes("lost+found")

  /** SKIP_PATHS of kind SPECIAL_NO_TOUCH, and those of kind SPECIAL_NO_BACKUP. */
  const NO_TOUCH: set<Path> :=
    {[DATA, Bytes("misc")], [DATA, Bytes("system"), Bytes("batterystats.bin")],
     [DATA, Bytes("system"), Bytes("location")]}
  const NO_BACKUP: set<Path> := {[DATA, Bytes("dalvik-cache")]}
  const SKIP_PATHS: set<Path> := NO_TOUCH + NO_BACKUP

  /** Entries that `backup_dir` passes over, with all that is below them. */
  predicate Skipped(all: bool, p: Path)
    requires p != []
  {
    p[|p| - 1] == LOST_FOUND || (!all && p in SKIP_PATHS)
  }

  // ---------------------------------------------------------------- the tree and its items

  datatype Node = File(meta: Meta, content: seq<byte>) | Dir(meta: Meta, kids: seq<Entry>) | Special

  datatype Entry = Entry(name: Name, node: Node)

  datatype Item = DirItem(path: Path, meta: Meta) | FileItem(path: Path, meta: Meta, content: seq<byte>)

  function RecordOf(x: Item): Record {
    match x
    case DirItem(p, m) => DirRecord(Render(p), m)
    case FileItem(p, m, c) => FileRecord(Render(p), m, c)
  }

  function RecordsOf(xs: seq<Item>): (r: seq<Record>)
    ensures |r| == |xs| && forall i :: 0 <= i < |xs| ==> r[i] == RecordOf(xs[i])
  {
    if xs == [] then [] else [RecordOf(xs[0])] + RecordsOf(xs[1..])
  }

  /** The items of one entry of directory `p`, in the order in which they are saved. */
  function ItemsOf(all: bool, p: Path, e: Entry): seq<Item>
    decreases e
  {
    var q := p + [e.name];
    if Skipped(all, q) then []
    else
      match e.node
      case File(m, c) => [FileItem(q, m, c)]
      case Dir(m, kids) => [DirItem(q, m)] + Items(all, q, kids)
      case Special => []
  }

  function Items(all: bool, p: Path, kids: seq<Entry>): seq<Item>
    decreases kids
  {
    if kids == [] then [] else ItemsOf(all, p, kids[0]) + Items(all, p, kids[1..])
  }

  /** Item `x` is a node at or below entry `e` of directory `p` that nothing skips. */
  ghost predicate Saves(all: bool, p: Path, e: Entry, x: Item)
    decreases e
  {
    var q := p + [e.name];
    && !Skipped(all, q)
    && match e.node
       case File(m, c) => x == FileItem(q, m, c)
       case Dir(m, kids) => x == DirItem(q, m) || exists i :: 0 <= i < |kids| && Saves(all, q, kids[i], x)
       case Special => false
  }

  lemma {:induction false} ItemsOfAreSaved(all: bool, p: Path, e: Entry, x: Item)
    ensures x in ItemsOf(all, p, e) <==> Saves(all, p, e, x)
    decreases e
  {
    var q := p + [e.name];
    if !Skipped(all, q) && e.node.Dir? { ItemsAreSaved(all, q, e.node.kids, x); }
  }

  /** The items of a directory are exactly the nodes below it that nothing skips. */
  lemma {:induction false} ItemsAreSaved(all: bool, p: Path, kids: seq<Entry>, x: Item)
    ensures x in Items(all, p, kids) <==> exists i :: 0 <= i < |kids| && Saves(all, p, kids[i], x)
    decreases kids
  {
    if kids != [] {
      ItemsOfAreSaved(all, p, kids[0], x);
      ItemsAreSaved(all, p, kids[1..], x);
      if i :| 0 <= i < |kids| && Saves(all, p, kids[i], x) {
        if i > 0 { assert kids[1..][i - 1] == kids[i]; }
      }
      if x in Items(all, p, kids[1..]) {
        var j :| 0 <= j < |kids[1..]| && Saves(all, p, kids[1..][j], x);
        assert kids[j + 1] == kids[1..][j];
      }
    }
  }

  // ---------------------------------------------------------------- sound trees

  /** What the kernel guarantees of a directory: proper, distinct names. */
  ghost predicate Sound(kids: seq<Entry>)
    decreases kids
  {
    && (forall i, j :: 0 <= i < j < |kids| ==> kids[i].name != kids[j].name)
    && forall i :: 0 <= i < |kids| ==> NameOk(kids[i].name) && (kids[i].node.Dir? ==> Sound(kids[i].node.kids))
  }

  /** Saved items lie at or below their entry. */
  lemma {:induction false} SavedBelow(all: bool, p: Path, e: Entry, x: Item)
    requires Saves(all, p, e, x)
    ensures p + [e.name] <= x.path
    decreases e
  {
    var q := p + [e.name];
    if e.node.Dir? && x != DirItem(q, e.node.meta) {
      var i :| 0 <= i < |e.node.kids| && Saves(all, q, e.node.kids[i], x);
      SavedBelow(all, q, e.node.kids[i], x);
    }
  }

  ghost predicate DistinctPaths(xs: seq<Item>) {
    forall i, j :: 0 <= i < j < |xs| ==> xs[i].path != xs[j].path
  }

  lemma {:induction false} ItemsDistinct(all: bool, p: Path, kids: seq<Entry>)
    requires Sound(kids)
    ensures DistinctPaths(Items(all, p, kids))
    decreases kids
  {
    if kids != [] {
      var e, xs, ys := kids[0], ItemsOf(all, p, kids[0]), Items(all, p, kids[1..]);
      var q := p + [e.name];
      if e.node.Dir? { ItemsDistinct(all, q, e.node.kids); }
      ItemsDistinct(all, p, kids[1..]);
      forall i | 0 <= i < |xs|
        ensures q <= xs[i].path
      {
        ItemsOfAreSaved(all, p, e, xs[i]);
        SavedBelow(all, p, e, xs[i]);
      }
      forall j | 0 <= j < |ys|
        ensures !(q <= ys[j].path)
      {
        BelowOther(all, p, kids, ys[j]);
      }
      ItemsOfDistinct(all, p, e);
    }
  }

  lemma {:induction false} BelowOther(all: bool, p: Path, kids: seq<Entry>, y: Item)
    requires kids != [] && Sound(kids) && y in Items(all, p, kids[1..])
    ensures !(p + [kids[0].name] <= y.path)
  {
    ItemsAreSaved(all, p, kids[1..], y);
    var k :| 0 <= k < |kids[1..]| && Saves(all, p, kids[1..][k], y);
    SavedBelow(all, p, kids[1..][k], y);
    assert y.path[|p|] == kids[k + 1].name;
  }

  lemma {:induction false} ItemsOfDistinct(all: bool, p: Path, e: Entry)
    requires e.node.Dir? ==> DistinctPaths(Items(all, p + [e.name], e.node.kids))
    ensures DistinctPaths(ItemsOf(all, p, e))
  {
    var q := p + [e.name];
    if !Skipped(all, q) && e.node.Dir? {
      var ys := Items(all, q, e.node.kids);
      forall j | 0 <= j < |ys|
        ensures ys[j].path != q
      {
        ItemsAreSaved(all, q, e.node.kids, ys[j]);
        var k :| 0 <= k < |e.node.kids| && Saves(all, q, e.node.kids[k], ys[j]);
        SavedBelow(all, q, e.node.kids[k], ys[j]);
      }
    }
  }

  // ---------------------------------------------------------------- the order of the items

  /** The directory of item `n` is `p`, or an earlier item. */
  ghost predicate ParentEarlier(p: Path, xs: seq<Item>, n: nat)
    requires n < |xs|
  {
    && xs[n].path != []
    && var up := xs[n].path[..|xs[n].path| - 1];
       up == p || exists j :: 0 <= j < n && xs[j].DirItem? && xs[j].path == up
  }

  ghost predicate ParentsFirst(p: Path, xs: seq<Item>) {
    forall n :: 0 <= n < |xs| ==> ParentEarlier(p, xs, n)
  }

  lemma {:induction false} ItemsParentsFirst(all: bool, p: Path, kids: seq<Entry>)
    ensures ParentsFirst(p, Items(all, p, kids))
    decreases kids
  {
    if kids != [] {
      var e := kids[0];
      var q, xs, ys := p + [e.name], ItemsOf(all, p, e), Items(all, p, kids[1..]);
      ItemsParentsFirst(all, p, kids[1..]);
      if e.node.Dir? && !Skipped(all, q) {
        ItemsParentsFirst(all, q, e.node.kids);
        UnderNewDir(p, q, e.node.meta, Items(all, q, e.node.kids));
      }
      assert q[..|q| - 1] == p;
      Concatenated(p, xs, ys);
    }
  }

  lemma UnderNewDir(p: Path, q: Path, m: Meta, xs: seq<Item>)
    requires q != [] && q[..|q| - 1] == p && ParentsFirst(q, xs)
    ensures ParentsFirst(p, [DirItem(q, m)] + xs)
  {
    var zs := [DirItem(q, m)] + xs;
    forall n | 0 <= n < |zs|
      ensures ParentEarlier(p, zs, n)
    {
      assert zs[0].path == q;
      if n > 0 {
        assert zs[n] == xs[n - 1] && ParentEarlier(q, xs, n - 1);
        var up := xs[n - 1].path[..|xs[n - 1].path| - 1];
        if up != q {
          var j :| 0 <= j < n - 1 && xs[j].DirItem? && xs[j].path == up;
          assert zs[j + 1] == xs[j];
        }
      }
    }
  }

  lemma Concatenated(p: Path, xs: seq<Item>, ys: seq<Item>)
    requires ParentsFirst(p, xs) && ParentsFirst(p, ys)
    ensures ParentsFirst(p, xs + ys)
  {
    var zs := xs + ys;
    forall n | 0 <= n < |zs|
      ensures ParentEarlier(p, zs, n)
    {
      if n < |xs| {
        assert zs[n] == xs[n] && ParentEarlier(p, xs, n);
        var up := xs[n].path[..|xs[n].path| - 1];
        if up != p {
          var j :| 0 <= j < n && xs[j].DirItem? && xs[j].path == up;
          assert zs[j] == xs[j];
        }
      } else {
        var k := n - |xs|;
        assert zs[n] == ys[k] && ParentEarlier(p, ys, k);
        var up := ys[k].path[..|ys[k].path| - 1];
        if up != p {
          var j :| 0 <= j < k && ys[j].DirItem? && ys[j].path == up;
          assert zs[|xs| + j] == ys[j];
        }
      }
    }
  }
}
