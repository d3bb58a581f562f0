/**
 * What a backup is to hold and a restore to bring back, told by the paths of the nodes: which are left
 * out, and which record belongs to which node.
 */
module RawPaths {
  import opened RawBytes
  import opened RawFormat
  import opened RawLayout
  import opened RawTree

  /** "data" */
  const ROOT: Name := [100, 97, 116, 97]

  predicate Is(n: Name, s: string) {
    |n| == |s| && forall i :: 0 <= i < |n| ==> n[i] == s[i] as int
  }

  predicate IsPath(p: Path, names: seq<string>) {
    |p| == |names| && forall i :: 0 <= i < |p| ==> Is(p[i], names[i])
  }

  predicate DalvikCache(p: Path) { IsPath(p, ["data", "dalvik-cache"]) }

  /** What neither a backup nor a restore touches without the all option. */
  predicate Private(p: Path) {
    || IsPath(p, ["data", "misc"])
    || IsPath(p, ["data", "system", "batterystats.bin"])
    || IsPath(p, ["data", "system", "location"])
  }

  ghost predicate InLostFound(p: Path) {
    exists i :: 0 <= i < |p| && Is(p[i], "lost+found")
  }

  ghost predicate InPrivate(p: Path) {
    exists k :: 0 <= k <= |p| && Private(p[..k])
  }

  ghost predicate InDalvikCache(p: Path) {
    exists k :: 0 <= k <= |p| && DalvikCache(p[..k])
  }

  /** A backup holds nothing that is lost+found, and without the all option nothing that is private or
      in the dalvik-cache. */
  ghost predicate LeftOut(all: bool, p: Path) {
    InLostFound(p) || (!all && (InPrivate(p) || InDalvikCache(p)))
  }

  /** By walking the names down from `kids` one gets to `node`. */
  ghost predicate NodeIs(kids: seq<Entry>, names: Path, node: Node)
    decreases |names|
  {
    && names != []
    && exists i :: 0 <= i < |kids| && StepTo(kids[i], names, node)
  }

  ghost predicate StepTo(e: Entry, names: Path, node: Node)
    requires names != []
    decreases |names|, 0
  {
    && e.name == names[0]
    && if |names| == 1 then e.node == node else e.node.Dir? && NodeIs(e.node.kids, names[1..], node)
  }

  /** A file or a directory below /data that belongs in a backup. */
  ghost predicate Wanted(all: bool, data: seq<Entry>, names: Path, node: Node) {
    NodeIs(data, names, node) && !node.Special? && !LeftOut(all, [ROOT] + names)
  }

  /** Each name after a slash. */
  function PathText(p: Path): Text {
    if p == [] then [] else [47] + p[0] + PathText(p[1..])
  }

  function RecordFor(p: Path, node: Node): Record
    requires !node.Special?
  {
    match node
    case File(m, c) => FileRecord(PathText(p), m, c)
    case Dir(m, _) => DirRecord(PathText(p), m)
  }

  ghost predicate RecordOfNode(all: bool, data: seq<Entry>, r: Record) {
    exists names, node :: Wanted(all, data, names, node) && r == RecordFor([ROOT] + names, node)
  }

  /** There is a record for each file and directory that belongs in a backup, and no others. */
  ghost predicate HoldsAllWanted(all: bool, data: seq<Entry>, rs: seq<Record>) {
    forall r :: r in rs <==> RecordOfNode(all, data, r)
  }

  ghost predicate NoPathTwice(rs: seq<Record>) {
    forall i, j :: 0 <= i < j < |rs| ==> rs[i].path != rs[j].path
  }

  ghost predicate IsBackup(all: bool, data: seq<Entry>, stream: seq<byte>) {
    exists rs ::
      IsStream(stream, all, rs) && HoldsAllWanted(all, data, rs) && (Sound(data) ==> NoPathTwice(rs))
  }

  // ---------------------------------------------------------------- the walk finds these nodes

  function ItemFor(p: Path, node: Node): Item
    requires !node.Special?
  {
    match node
    case File(m, c) => FileItem(p, m, c)
    case Dir(m, _) => DirItem(p, m)
  }

  lemma {:induction false} RenderIs(p: Path)
    ensures Render(p) == PathText(p)
  {
    if p != [] {
      RenderIs(p[..|p| - 1]);
      TextLast(p);
    }
  }

  lemma {:induction false} TextLast(p: Path)
    requires p != []
    ensures PathText(p) == PathText(p[..|p| - 1]) + [47] + p[|p| - 1]
  {
    if |p| > 1 {
      TextLast(p[1..]);
      assert p[..|p| - 1][1..] == p[1..][..|p| - 2];
    }
  }

  lemma NameIs(n: Name, s: string)
    requires forall i :: 0 <= i < |s| ==> s[i] as int < 256
    ensures Is(n, s) <==> n == Bytes(s)
  {
  }

  lemma {:induction false} SkippedIs(all: bool, q: Path)
    requires q != []
    ensures Skipped(all, q) <==> Is(q[|q| - 1], "lost+found") || (!all && (Private(q) || DalvikCache(q)))
  {
    NameIs(q[|q| - 1], "lost+found");
    PathsAre(q);
  }

  lemma PathsAre(q: Path)
    ensures Private(q) <==> q in NO_TOUCH
    ensures DalvikCache(q) <==> q in NO_BACKUP
  {
    if |q| >= 2 {
      NameIs(q[0], "data");
      NameIs(q[1], "misc");
      NameIs(q[1], "dalvik-cache");
      NameIs(q[1], "system");
    }
    if |q| == 2 { assert q == [q[0], q[1]]; }
    if |q| == 3 {
      NameIs(q[2], "batterystats.bin");
      NameIs(q[2], "location");
      assert q == [q[0], q[1], q[2]];
    }
  }

  /** What is left out is skipped on the way down. */
  lemma {:induction false} LeftOutStep(all: bool, p: Path, n: Name)
    ensures LeftOut(all, p + [n]) <==> LeftOut(all, p) || Skipped(all, p + [n])
  {
    var q := p + [n];
    SkippedIs(all, q);
    LeftOutBelow(all, p, q);
    assert q[|q| - 1] == n && q[..|q|] == q;
    if i :| 0 <= i < |q| && Is(q[i], "lost+found") { assert i < |p| ==> p[i] == q[i]; }
    if k :| 0 <= k <= |q| && Private(q[..k]) { assert k <= |p| ==> p[..k] == q[..k]; }
    if k :| 0 <= k <= |q| && DalvikCache(q[..k]) { assert k <= |p| ==> p[..k] == q[..k]; }
  }

  lemma {:induction false} LeftOutBelow(all: bool, p: Path, q: Path)
    requires p <= q
    ensures LeftOut(all, p) ==> LeftOut(all, q)
  {
    assert forall k :: 0 <= k <= |p| ==> p[..k] == q[..k];
  }

  lemma {:induction false} SavedIsNode(all: bool, p: Path, e: Entry, x: Item) returns (names: Path, node: Node)
    requires Saves(all, p, e, x) && !LeftOut(all, p)
    ensures names != [] && StepTo(e, names, node) && !node.Special? && !LeftOut(all, p + names)
    ensures x == ItemFor(p + names, node)
    decreases e
  {
    var q := p + [e.name];
    LeftOutStep(all, p, e.name);
    if e.node.Dir? && x != DirItem(q, e.node.meta) {
      var i :| 0 <= i < |e.node.kids| && Saves(all, q, e.node.kids[i], x);
      var rest;
      rest, node := SavedIsNode(all, q, e.node.kids[i], x);
      names := [e.name] + rest;
      assert names[1..] == rest && q + rest == p + names;
    } else {
      names, node := [e.name], e.node;
    }
  }

  lemma {:induction false} NodeIsSaved(all: bool, p: Path, e: Entry, names: Path, node: Node)
    requires names != [] && StepTo(e, names, node) && !node.Special? && !LeftOut(all, p + names)
    ensures Saves(all, p, e, ItemFor(p + names, node))
    decreases |names|
  {
    var q := p + [e.name];
    assert q <= p + names;
    LeftOutBelow(all, q, p + names);
    LeftOutStep(all, p, e.name);
    if |names| > 1 {
      var rest := names[1..];
      var i :| 0 <= i < |e.node.kids| && StepTo(e.node.kids[i], rest, node);
      assert q + rest == p + names;
      NodeIsSaved(all, q, e.node.kids[i], rest, node);
    } else {
      assert q == p + names;
    }
  }

  lemma DataIsRoot()
    ensures DATA == ROOT && forall all :: !LeftOut(all, [ROOT])
  {
    assert DATA == [100, 97, 116, 97];
    forall all
      ensures !LeftOut(all, [ROOT])
    {
      assert forall k :: 0 <= k <= 1 ==> |[ROOT][..k]| <= 1;
    }
  }

  /** The items that the code saves are those of the wanted nodes. */
  lemma {:induction false} ItemsAreWanted(all: bool, data: seq<Entry>, x: Item)
    ensures x in Items(all, [DATA], data) ==>
              exists names, node :: Wanted(all, data, names, node) && x == ItemFor([ROOT] + names, node)
    ensures (exists names, node :: Wanted(all, data, names, node) && x == ItemFor([ROOT] + names, node)) ==>
              x in Items(all, [DATA], data)
  {
    DataIsRoot();
    ItemsAreSaved(all, [DATA], data, x);
    if i :| 0 <= i < |data| && Saves(all, [DATA], data[i], x) {
      var names, node := SavedIsNode(all, [DATA], data[i], x);
      assert Wanted(all, data, names, node);
    }
    if names, node :| Wanted(all, data, names, node) && x == ItemFor([ROOT] + names, node) {
      var i :| 0 <= i < |data| && StepTo(data[i], names, node);
      NodeIsSaved(all, [DATA], data[i], names, node);
    }
  }

  lemma RecordOfItem(p: Path, node: Node)
    requires !node.Special?
    ensures RecordOf(ItemFor(p, node)) == RecordFor(p, node)
  {
    RenderIs(p);
  }

  /** The records of a backup are those of the wanted nodes. */
  lemma {:induction false} RecordsAreWanted(all: bool, data: seq<Entry>, r: Record)
    ensures r in RecordsOf(Items(all, [DATA], data)) <==> RecordOfNode(all, data, r)
  {
    var xs := Items(all, [DATA], data);
    if r in RecordsOf(xs) {
      var i :| 0 <= i < |xs| && r == RecordOf(xs[i]);
      ItemsAreWanted(all, data, xs[i]);
      var names, node :| Wanted(all, data, names, node) && xs[i] == ItemFor([ROOT] + names, node);
      RecordOfItem([ROOT] + names, node);
    }
    if names, node :| Wanted(all, data, names, node) && r == RecordFor([ROOT] + names, node) {
      RecordOfItem([ROOT] + names, node);
      var x := ItemFor([ROOT] + names, node);
      ItemsAreWanted(all, data, x);
      var i :| 0 <= i < |xs| && xs[i] == x;
      assert RecordsOf(xs)[i] == r;
    }
  }

  lemma {:induction false} EncodedIsBackup(all: bool, data: seq<Entry>)
    ensures IsBackup(all, data, EncodeStream(if all then 1 else 0, RecordsOf(Items(all, [DATA], data))))
  {
    var rs := RecordsOf(Items(all, [DATA], data));
    forall r
      ensures r in rs <==> RecordOfNode(all, data, r)
    {
      RecordsAreWanted(all, data, r);
    }
    if Sound(data) { RecordsDistinct(all, data); }
    StreamIs(all, rs);
    assert HoldsAllWanted(all, data, rs);
  }

  lemma {:induction false} SavedPathOk(all: bool, p: Path, e: Entry, x: Item)
    requires Saves(all, p, e, x) && PathOk(p) && NameOk(e.name) && (e.node.Dir? ==> Sound(e.node.kids))
    ensures PathOk(x.path)
    decreases e
  {
    var q := p + [e.name];
    assert PathOk(q);
    if e.node.Dir? && x != DirItem(q, e.node.meta) {
      var i :| 0 <= i < |e.node.kids| && Saves(all, q, e.node.kids[i], x);
      SavedPathOk(all, q, e.node.kids[i], x);
    }
  }

  lemma {:induction false} RecordsDistinct(all: bool, data: seq<Entry>)
    requires Sound(data)
    ensures NoPathTwice(RecordsOf(Items(all, [DATA], data)))
  {
    var xs := Items(all, [DATA], data);
    ItemsDistinct(all, [DATA], data);
    DataIsRoot();
    forall i | 0 <= i < |xs|
      ensures Resolve(RecordOf(xs[i]).path) == xs[i].path
    {
      ItemsAreSaved(all, [DATA], data, xs[i]);
      var k :| 0 <= k < |data| && Saves(all, [DATA], data[k], xs[i]);
      SavedPathOk(all, [DATA], data[k], xs[i]);
      ResolveRender(xs[i].path);
    }
  }
}
