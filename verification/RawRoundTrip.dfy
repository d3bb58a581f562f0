/** A backup followed by a restore: what the device then holds. */
module RawRoundTrip {
  import opened Wrappers
  import opened RawBytes
  import opened RawFormat
  import opened RawTree
  import opened RawBackup
  import opened RawWipe
  import opened RawRestore
  import opened RawPaths
  import opened RawRecovery

  function MaskedItem(x: Item): Item {
    match x
    case DirItem(p, m) => DirItem(p, Masked(m))
    case FileItem(p, m, c) => FileItem(p, Masked(m), c)
  }

  function MaskedItems(xs: seq<Item>): (r: seq<Item>)
    ensures |r| == |xs| && forall i :: 0 <= i < |xs| ==> r[i] == MaskedItem(xs[i])
  {
    if xs == [] then [] else [MaskedItem(xs[0])] + MaskedItems(xs[1..])
  }

  /** Through the stream, items come back with their modes masked. */
  lemma {:induction false} ItemsComeBack(xs: seq<Item>)
    requires forall i :: 0 <= i < |xs| ==> PathOk(xs[i].path)
    ensures ItemsFor(MaskedAll(RecordsOf(xs))) == MaskedItems(xs)
  {
    var ys := ItemsFor(MaskedAll(RecordsOf(xs)));
    forall i | 0 <= i < |xs|
      ensures ys[i] == MaskedItem(xs[i])
    {
      ResolveRender(xs[i].path);
      assert ys[i] == ItemOf(MaskedRecord(RecordOf(xs[i])));
    }
  }

  /** What is saved is not in a place that `wipe` does not enter, and its names are proper. */
  lemma {:induction false} SavedTouchable(all: bool, p: Path, e: Entry, x: Item)
    requires !Untouchable(all, p) && Saves(all, p, e, x) && PathOk(p)
    requires NameOk(e.name) && (e.node.Dir? ==> Sound(e.node.kids))
    ensures !Untouchable(all, x.path) && PathOk(x.path)
    decreases e
  {
    var q := p + [e.name];
    EntryTouchable(all, p, e.name);
    if e.node.Dir? && x != DirItem(q, e.node.meta) {
      var i :| 0 <= i < |e.node.kids| && Saves(all, q, e.node.kids[i], x);
      SavedTouchable(all, q, e.node.kids[i], x);
    }
  }

  /** `x` is a node of the tree under /data that nothing skips. */
  ghost predicate InTree(all: bool, data: seq<Entry>, x: Item) {
    exists i :: 0 <= i < |data| && Saves(all, [DATA], data[i], x)
  }

  lemma DataNameOk()
    ensures PathOk([DATA])
  {
    assert DATA == [100, 97, 116, 97];
  }

  lemma {:induction false} InTreeFacts(all: bool, data: seq<Entry>, x: Item)
    requires Sound(data) && InTree(all, data, x)
    ensures !Untouchable(all, x.path) && PathOk(x.path) && [DATA] < x.path
  {
    var i :| 0 <= i < |data| && Saves(all, [DATA], data[i], x);
    DataTouchable(all);
    DataNameOk();
    SavedTouchable(all, [DATA], data[i], x);
    SavedBelow(all, [DATA], data[i], x);
  }

  /** The node for `x` after the restore.  A file has the contents that reached the disk.  A directory
      is a directory again unless something else stood in its place that could not be removed. */
  ghost predicate Restored(before: Fs, stuck: set<Path>, short: map<Path, nat>, x: Item, fs: Fs) {
    && x.path in fs
    && match MaskedItem(x)
       case FileItem(p, m, c) => fs[p] == FileNode(OwnerOf(m), m.atime, m.mtime, OnDisk(short, p, c))
       case DirItem(p, m) =>
         && fs[p].owner == OwnerOf(m)
         && (fs[p].DirNode? <==> !(p in before && !before[p].DirNode? && p in stuck))
  }

  /** What is not a directory survives `wipe` at a saved path only if it is stuck. */
  lemma SurvivesAtSaved(all: bool, stuck: set<Path>, fs: Fs, p: Path)
    requires WellFormed(fs) && p in fs && !fs[p].DirNode? && !Untouchable(all, p)
    ensures Survives(all, stuck, fs, p) <==> p in stuck
  {
    if p in stuck { assert Keeper(all, stuck, fs, p); }
    if Survives(all, stuck, fs, p) {
      var r :| r in fs && p <= r && Keeper(all, stuck, fs, r);
      if r != p { AboveIsDir(fs, p, r); }
    }
  }

  lemma ShowsIsRestored(all: bool, stuck: set<Path>, short: map<Path, nat>, before: Fs, wiped: Fs, x: Item, fs: Fs)
    requires WellFormed(before) && Wiped(all, stuck, before, [DATA], {}, wiped)
    requires [DATA] < x.path && !Untouchable(all, x.path)
    requires Shows(wiped, Landed(short, MaskedItem(x)), fs)
    ensures Restored(before, stuck, short, x, fs)
  {
    var p := x.path;
    if p in before && !before[p].DirNode? { SurvivesAtSaved(all, stuck, before, p); }
  }

  /** What else is on the device: only what survived `wipe`, unchanged. */
  ghost predicate OnlySurvivors(all: bool, stuck: set<Path>, data: seq<Entry>, before: Fs, fs: Fs) {
    forall q :: (forall x :: InTree(all, data, x) ==> x.path != q) ==>
                  && (q in fs <==> q in before && (q == [DATA] || Survives(all, stuck, before, q)))
                  && (q in fs ==> fs[q] == before[q])
  }

  /** What is applied to the device: the saved items, with their modes masked, as far as they reach the
      disk. */
  function Arriving(all: bool, data: seq<Entry>, short: map<Path, nat>): (r: seq<Item>)
    ensures var xs := Items(all, [DATA], data);
            |r| == |xs| && forall i :: 0 <= i < |xs| ==>
                                                r[i] == Landed(short, MaskedItem(xs[i])) && r[i].path == xs[i].path
  {
    LandedAll(short, MaskedItems(Items(all, [DATA], data)))
  }

  lemma {:induction false} TreeShows(all: bool, data: seq<Entry>, short: map<Path, nat>, wiped: Fs, fs: Fs, x: Item)
    requires Sound(data) && InTree(all, data, x)
    requires AllShow(wiped, Arriving(all, data, short), fs)
    ensures Shows(wiped, Landed(short, MaskedItem(x)), fs)
  {
    var xs := Items(all, [DATA], data);
    ItemsAreSaved(all, [DATA], data, x);
    var i :| 0 <= i < |xs| && xs[i] == x;
    assert Arriving(all, data, short)[i] == Landed(short, MaskedItem(x));
  }

  lemma FreeOfTree(all: bool, data: seq<Entry>, short: map<Path, nat>, q: Path)
    requires forall x :: InTree(all, data, x) ==> x.path != q
    ensures Free(Arriving(all, data, short), q)
  {
    var xs, ys := Items(all, [DATA], data), Arriving(all, data, short);
    forall i | 0 <= i < |xs|
      ensures ys[i].path != q
    {
      ItemsAreSaved(all, [DATA], data, xs[i]);
      assert InTree(all, data, xs[i]);
    }
  }

  /** What was wiped, seen from outside the saved tree. */
  lemma Elsewhere(all: bool, stuck: set<Path>, before: Fs, wiped: Fs, q: Path)
    requires WellFormed(before) && Wiped(all, stuck, before, [DATA], {}, wiped)
    ensures q in wiped <==> q in before && (q == [DATA] || Survives(all, stuck, before, q))
    ensures q in wiped ==> wiped[q] == before[q]
  {
    if q in before { assert [DATA] <= q; }
  }

  /**
   * The device after a restore that succeeded: every node that nothing skips is back, with its
   * kind, owner, permissions and file times and as much of its contents as reached the disk; and
   * apart from those there is only what `wipe` left: what cannot be removed, what lies at, in or
   * above lost+found or a skip-listed path.
   */
  lemma {:induction false} RoundTrip(all: bool, stuck: set<Path>, short: map<Path, nat>, data: seq<Entry>,
                                     before: Fs, wiped: Fs, fs: Fs)
    requires Sound(data) && WellFormed(before) && Wiped(all, stuck, before, [DATA], {}, wiped)
    requires ApplyAll(wiped, Arriving(all, data, short)) == Some(fs)
    ensures forall x :: InTree(all, data, x) ==> Restored(before, stuck, short, x, fs)
    ensures OnlySurvivors(all, stuck, data, before, fs)
  {
    ArrivingOrderly(all, data, short);
    var ys := Arriving(all, data, short);
    ApplyAllShows(wiped, ys, fs);
    forall x | InTree(all, data, x)
      ensures Restored(before, stuck, short, x, fs)
    {
      TreeShows(all, data, short, wiped, fs, x);
      InTreeFacts(all, data, x);
      ShowsIsRestored(all, stuck, short, before, wiped, x, fs);
    }
    forall q | forall x :: InTree(all, data, x) ==> x.path != q
      ensures (q in fs <==> q in before && (q == [DATA] || Survives(all, stuck, before, q)))
      ensures q in fs ==> fs[q] == before[q]
    {
      FreeOfTree(all, data, short, q);
      Elsewhere(all, stuck, before, wiped, q);
    }
  }

  /** Bytes of `x` are lost when it is closed. */
  predicate Loses(short: map<Path, nat>, x: Item) {
    x.FileItem? && x.path in short && short[x.path] < |x.content|
  }

  ghost predicate HasContents(fs: Fs, x: Item) {
    x.FileItem? ==> x.path in fs && fs[x.path].FileNode? && fs[x.path].content == x.content
  }

  /** All files have their contents if and only if no close lost any. */
  lemma ContentsIff(all: bool, stuck: set<Path>, short: map<Path, nat>, data: seq<Entry>, before: Fs, fs: Fs)
    requires forall x :: InTree(all, data, x) ==> Restored(before, stuck, short, x, fs)
    ensures (forall x :: InTree(all, data, x) ==> HasContents(fs, x)) <==>
            (forall x :: InTree(all, data, x) ==> !Loses(short, x))
  {
    forall x | InTree(all, data, x)
      ensures HasContents(fs, x) <==> !Loses(short, x)
    {
      assert Restored(before, stuck, short, x, fs);
    }
  }

  // ---------------------------------------------------------------- when a restore succeeds

  /** Something is in the way of `x`: what is not a regular file where a file is to go, or what is
      not a directory where its directory should be. */
  ghost predicate InTheWay(wiped: Fs, x: Item)
    requires x.path != []
  {
    var up := x.path[..|x.path| - 1];
    || (x.FileItem? && x.path in wiped && !wiped[x.path].FileNode?)
    || (up in wiped && !wiped[up].DirNode?)
  }

  /** Items that can be restored in their order, if nothing is in the way. */
  ghost predicate Orderly(xs: seq<Item>) {
    && DistinctPaths(xs) && ParentsFirst([DATA], xs)
    && forall i :: 0 <= i < |xs| ==> [DATA] < xs[i].path
  }

  lemma {:induction false} NextApplies(wiped: Fs, xs: seq<Item>, n: nat, mid: Fs)
    requires Orderly(xs) && n < |xs| && [DATA] in wiped && wiped[[DATA]].DirNode?
    requires ApplyAll(wiped, xs[..n]) == Some(mid)
    ensures Apply(mid, xs[n]).Some? <==> !InTheWay(wiped, xs[n])
  {
    ApplyAllShows(wiped, xs[..n], mid);
    assert Free(xs[..n], xs[n].path);
    ParentThere(wiped, xs, n, mid);
  }

  /** The directory of the next item is there, and it is one unless something was in its place. */
  lemma ParentThere(wiped: Fs, xs: seq<Item>, n: nat, mid: Fs)
    requires Orderly(xs) && n < |xs| && [DATA] in wiped && wiped[[DATA]].DirNode?
    requires AllShow(wiped, xs[..n], mid) && SameElsewhere(xs[..n], wiped, mid)
    ensures var up := xs[n].path[..|xs[n].path| - 1];
            up in mid && (mid[up].DirNode? <==> (up in wiped ==> wiped[up].DirNode?))
  {
    var before, up := xs[..n], xs[n].path[..|xs[n].path| - 1];
    assert ParentEarlier([DATA], xs, n);
    if up == [DATA] {
      assert Free(before, up);
    } else {
      var j :| 0 <= j < n && xs[j].DirItem? && xs[j].path == up;
      assert before[j] == xs[j] && Shows(wiped, before[j], mid);
    }
  }

  lemma {:induction false} AppliesIff(wiped: Fs, xs: seq<Item>, n: nat)
    requires Orderly(xs) && n <= |xs| && [DATA] in wiped && wiped[[DATA]].DirNode?
    ensures ApplyAll(wiped, xs[..n]).Some? <==> forall i :: 0 <= i < n ==> !InTheWay(wiped, xs[i])
  {
    if n > 0 {
      AppliesIff(wiped, xs, n - 1);
      assert xs[..n][..n - 1] == xs[..n - 1] && xs[..n][n - 1] == xs[n - 1];
      if ApplyAll(wiped, xs[..n - 1]).Some? {
        NextApplies(wiped, xs, n - 1, ApplyAll(wiped, xs[..n - 1]).value);
      }
    }
  }

  lemma {:induction false} ArrivingOrderly(all: bool, data: seq<Entry>, short: map<Path, nat>)
    requires Sound(data)
    ensures Orderly(Arriving(all, data, short))
  {
    var xs := Items(all, [DATA], data);
    var ys := Arriving(all, data, short);
    ItemsDistinct(all, [DATA], data);
    ItemsParentsFirst(all, [DATA], data);
    forall i | 0 <= i < |xs|
      ensures [DATA] < ys[i].path && ParentEarlier([DATA], ys, i)
    {
      ItemsAreSaved(all, [DATA], data, xs[i]);
      InTreeFacts(all, data, xs[i]);
      assert ParentEarlier([DATA], xs, i);
      var up := xs[i].path[..|xs[i].path| - 1];
      if up != [DATA] {
        var j :| 0 <= j < i && xs[j].DirItem? && xs[j].path == up;
        assert ys[j].DirItem? && ys[j].path == up;
      }
    }
  }

  /** What `wipe` leaves at `p`. */
  ghost predicate Stays(all: bool, stuck: set<Path>, before: Fs, p: Path) {
    p in before && (p == [DATA] || Survives(all, stuck, before, p))
  }

  /** The same as `InTheWay`, in terms of the device before the restore. */
  ghost predicate Blocked(all: bool, stuck: set<Path>, before: Fs, x: Item) {
    && x.path != []
    && var up := x.path[..|x.path| - 1];
       || (x.FileItem? && Stays(all, stuck, before, x.path) && !before[x.path].FileNode?)
       || (Stays(all, stuck, before, up) && !before[up].DirNode?)
  }

  /** Something that is neither a file nor a directory, and could not be removed, is at a saved path or
      above one.  What a restore does there is open: it may be a link that leads elsewhere. */
  ghost predicate Astray(all: bool, stuck: set<Path>, data: seq<Entry>, before: Fs) {
    exists x :: InTree(all, data, x) && OnWayBefore(all, stuck, before, x.path)
  }

  ghost predicate OnWayBefore(all: bool, stuck: set<Path>, before: Fs, p: Path) {
    exists k :: 0 < k <= |p| && Stays(all, stuck, before, p[..k]) && before[p[..k]].OtherNode?
  }

  /** The records of a tree can be applied if and only if `wipe` has left nothing in their way. */
  lemma {:induction false} SucceedsIff(all: bool, stuck: set<Path>, short: map<Path, nat>, data: seq<Entry>,
                                       before: Fs, wiped: Fs)
    requires Sound(data) && WellFormed(before) && Wiped(all, stuck, before, [DATA], {}, wiped)
    ensures ApplyAll(wiped, Arriving(all, data, short)).Some? <==>
            forall x :: InTree(all, data, x) ==> !Blocked(all, stuck, before, x)
  {
    var xs := Items(all, [DATA], data);
    var ys := Arriving(all, data, short);
    ArrivingOrderly(all, data, short);
    Elsewhere(all, stuck, before, wiped, [DATA]);
    AppliesIff(wiped, ys, |ys|);
    assert ys[..|ys|] == ys;
    forall i | 0 <= i < |xs|
      ensures InTheWay(wiped, ys[i]) <==> Blocked(all, stuck, before, xs[i])
    {
      SameInTheWay(all, stuck, before, wiped, xs[i], ys[i]);
    }
    TreeIsItems(all, data);
  }

  lemma {:induction false} TreeIsItems(all: bool, data: seq<Entry>)
    ensures forall x :: InTree(all, data, x) <==> x in Items(all, [DATA], data)
  {
    forall x
      ensures InTree(all, data, x) <==> x in Items(all, [DATA], data)
    {
      ItemsAreSaved(all, [DATA], data, x);
    }
  }

  lemma SameInTheWay(all: bool, stuck: set<Path>, before: Fs, wiped: Fs, x: Item, y: Item)
    requires WellFormed(before) && Wiped(all, stuck, before, [DATA], {}, wiped)
    requires x.path != [] && y.path == x.path && y.FileItem? == x.FileItem?
    ensures InTheWay(wiped, y) <==> Blocked(all, stuck, before, x)
  {
    Elsewhere(all, stuck, before, wiped, x.path);
    Elsewhere(all, stuck, before, wiped, x.path[..|x.path| - 1]);
  }

  lemma {:induction false} ThroughIsAstray(all: bool, stuck: set<Path>, data: seq<Entry>, before: Fs, wiped: Fs)
    requires WellFormed(before) && Wiped(all, stuck, before, [DATA], {}, wiped)
    requires Through(wiped, MaskedItems(Items(all, [DATA], data)))
    ensures Astray(all, stuck, data, before)
  {
    var xs := Items(all, [DATA], data);
    var i :| 0 <= i < |xs| && OnWay(wiped, MaskedItems(xs)[i].path);
    var p := xs[i].path;
    var k :| 0 < k <= |p| && p[..k] in wiped && wiped[p[..k]].OtherNode?;
    Elsewhere(all, stuck, before, wiped, p[..k]);
    assert OnWayBefore(all, stuck, before, p);
    ItemsAreSaved(all, [DATA], data, xs[i]);
    assert InTree(all, data, xs[i]);
  }

  // ---------------------------------------------------------------- from end to end

  /** What a restore that returned 0 has done. */
  ghost predicate Recovered(all: bool, stuck: set<Path>, short: map<Path, nat>, data: seq<Entry>, before: Fs, fs: Fs) {
    && (forall x :: InTree(all, data, x) ==> Restored(before, stuck, short, x, fs))
    && OnlySurvivors(all, stuck, data, before, fs)
    && ((forall x :: InTree(all, data, x) ==> HasContents(fs, x)) <==>
        (forall x :: InTree(all, data, x) ==> !Loses(short, x)))
  }

  /** The same by the paths of the nodes. */
  lemma {:induction false} TreeIsWanted(all: bool, data: seq<Entry>, x: Item)
    ensures InTree(all, data, x) ==>
              exists names, node :: Wanted(all, data, names, node) && x == ItemFor([ROOT] + names, node)
    ensures (exists names, node :: Wanted(all, data, names, node) && x == ItemFor([ROOT] + names, node)) ==>
              InTree(all, data, x)
  {
    ItemsAreSaved(all, [DATA], data, x);
    ItemsAreWanted(all, data, x);
  }

  lemma WantedInTree(all: bool, data: seq<Entry>, names: Path, node: Node)
    requires Wanted(all, data, names, node)
    ensures InTree(all, data, ItemFor([ROOT] + names, node))
  {
    TreeIsWanted(all, data, ItemFor([ROOT] + names, node));
  }

  lemma {:induction false} RecoveredIsBack(all: bool, stuck: set<Path>, short: map<Path, nat>, data: seq<Entry>,
                                           before: Fs, fs: Fs)
    requires Recovered(all, stuck, short, data, before, fs)
    ensures BackInPlace(all, stuck, short, data, before, fs)
  {
    forall names, node | Wanted(all, data, names, node)
      ensures NodeBack(stuck, short, before, fs, [ROOT] + names, node)
    {
      WantedInTree(all, data, names, node);
      assert Restored(before, stuck, short, ItemFor([ROOT] + names, node), fs);
    }
    forall q | forall names, node :: Wanted(all, data, names, node) ==> [ROOT] + names != q
      ensures (q in fs <==> Remains(all, stuck, before, q)) && (q in fs ==> fs[q] == before[q])
    {
      forall x | InTree(all, data, x)
        ensures x.path != q
      {
        TreeIsWanted(all, data, x);
      }
      RemainsIs(all, stuck, before, q);
    }
  }

  lemma {:induction false} BlockedIsObstructed(all: bool, stuck: set<Path>, data: seq<Entry>, before: Fs)
    ensures (forall x :: InTree(all, data, x) ==> !Blocked(all, stuck, before, x)) <==>
            !SomeObstructed(all, stuck, data, before)
  {
    forall names, node | Wanted(all, data, names, node)
      ensures InTree(all, data, ItemFor([ROOT] + names, node))
      ensures Blocked(all, stuck, before, ItemFor([ROOT] + names, node)) <==>
              Obstructed(all, stuck, before, [ROOT] + names, node)
    {
      var p := [ROOT] + names;
      WantedInTree(all, data, names, node);
      RemainsIs(all, stuck, before, p);
      RemainsIs(all, stuck, before, p[..|p| - 1]);
    }
    forall x | InTree(all, data, x)
      ensures exists names, node :: Wanted(all, data, names, node) && x == ItemFor([ROOT] + names, node)
    {
      TreeIsWanted(all, data, x);
    }
  }

  lemma {:induction false} AstrayIsLink(all: bool, stuck: set<Path>, data: seq<Entry>, before: Fs)
    ensures Astray(all, stuck, data, before) ==> SomeLinkOnWay(all, stuck, data, before)
  {
    if Astray(all, stuck, data, before) {
      var x :| InTree(all, data, x) && OnWayBefore(all, stuck, before, x.path);
      TreeIsWanted(all, data, x);
      var names, node :| Wanted(all, data, names, node) && x == ItemFor([ROOT] + names, node);
      var p := [ROOT] + names;
      var k :| 0 < k <= |p| && Stays(all, stuck, before, p[..k]) && before[p[..k]].OtherNode?;
      RemainsIs(all, stuck, before, p[..k]);
      assert LinkOnWay(all, stuck, before, p);
    }
  }

  /** From what `restore_data` promises to what the device holds, when the flag was read. */
  lemma {:induction false} Verdict(all: bool, stuck: set<Path>, short: map<Path, nat>, surely: bool, data: seq<Entry>,
                                   heard: Parsed<Contents>, before: Fs, wiped: Fs, fs: Fs, res: int)
    requires Sound(data) && WellFormed(before) && (res == 0 || res == -1)
    requires Says(heard, all, data)
    requires res == 0 ==> Succeeded(heard, stuck, short, before, wiped, fs)
    requires surely && res != 0 ==> Hopeless(heard, stuck, before, wiped)
    requires !Astray(all, stuck, data, before)
    ensures res == 0 ==> Recovered(all, stuck, short, data, before, fs)
    ensures surely ==> (res == 0 <==> forall x :: InTree(all, data, x) ==> !Blocked(all, stuck, before, x))
  {
    var xs := MaskedItems(Items(all, [DATA], data));
    if res == 0 || surely {
      if Through(wiped, xs) { ThroughIsAstray(all, stuck, data, before, wiped); }
      SucceedsIff(all, stuck, short, data, before, wiped);
      SameOutcome(wiped, short, xs);
    }
    if res == 0 {
      RoundTrip(all, stuck, short, data, before, wiped, fs);
      ContentsIff(all, stuck, short, data, before, fs);
    }
  }

  /** What was heard is what was saved. */
  ghost predicate Says(heard: Parsed<Contents>, all: bool, data: seq<Entry>) {
    && heard.Got? && heard.value.all == all
    && ItemsFor(heard.value.records) == MaskedItems(Items(all, [DATA], data))
  }

  /** The backup of a tree. */
  function BackupOf(all: bool, data: seq<Entry>): seq<byte> {
    EncodeStream(if all then 1 else 0, RecordsOf(Items(all, [DATA], data)))
  }

  /** The fields of the tree are in the range of the format. */
  ghost predicate Storable(all: bool, data: seq<Entry>) {
    AllInRange(RecordsOf(Items(all, [DATA], data)))
  }

  lemma {:induction false} ReadsBack(all: bool, data: seq<Entry>)
    requires Sound(data) && Storable(all, data)
    ensures Says(TakeStream(BackupOf(all, data)), all, data)
  {
    var xs := Items(all, [DATA], data);
    StreamRoundTrip(if all then 1 else 0, RecordsOf(xs));
    forall i | 0 <= i < |xs|
      ensures PathOk(xs[i].path)
    {
      ItemsAreSaved(all, [DATA], data, xs[i]);
      InTreeFacts(all, data, xs[i]);
    }
    ItemsComeBack(xs);
  }

  // ---------------------------------------------------------------- when the flag is not read

  /** Without the flag, the rest of a backup made without the all option is taken for an empty one,
      if it is taken for one at all. */
  lemma {:induction false} NothingHeard(rs: seq<Record>, gaps: map<nat, nat>)
    requires AllInRange(rs) && !FlagRead(gaps)
    ensures var heard := Heard(EncodeStream(0, rs), gaps);
            && (heard.Got? ==> heard.value == Contents(false, []))
            && (gaps[1] == 0 ==> heard.Got?)
  {
    var body, s := EncodeRecords(rs), EncodeStream(0, rs);
    var k := gaps[1];
    PreambleOf(0, rs);
    var rest := Int32(0)[k..] + body;
    assert s[4..][k..] == rest;
    FirstWord(rs);
    ZerosFirst(k, body);
  }

  lemma {:induction false} PreambleOf(all: int, rs: seq<Record>)
    requires -TWO31 <= all < TWO31
    ensures var s := EncodeStream(all, rs);
            |s| >= 12 && VersionOf(s) == FILE_VERSION_2 && s[4..] == Int32(all) + EncodeRecords(rs)
  {
    var s := EncodeStream(all, rs);
    U32RoundTrip(FILE_VERSION_2);
    assert s[..4] == Int32(FILE_VERSION_2);
    BodyNotEmpty(rs);
  }

  /** The first word of the records: the type of a node, or the end. */
  lemma {:induction false} FirstWord(rs: seq<Record>)
    ensures var body := EncodeRecords(rs);
            |body| >= 4 && body[0] <= 2 && body[1] == 0 && body[2] == 0 && body[3] == 0
  {
    SmallWord(TYPE_END);
    SmallWord(TYPE_DIR);
    SmallWord(TYPE_FILE);
  }

  lemma SmallWord(v: int)
    requires 0 <= v < 256
    ensures Int32(v) == [v, 0, 0, 0]
  {
    assert Little(v, 4) == [v % 256] + Little(v / 256, 3);
    assert v / 256 == 0;
    assert Little(0, 3) == [0] + Little(0, 2) &&
           Little(0, 2) == [0] + Little(0, 1) && Little(0, 1) == [0] + Little(0, 0);
  }

  /** Some of the bytes of a zero word, and then a small word: the end, or no type that there is. */
  lemma {:induction false} ZerosFirst(k: nat, body: seq<byte>)
    requires k < 4 && |body| >= 4 && body[0] <= 2 && body[1] == 0 && body[2] == 0 && body[3] == 0
    ensures var got := TakeRecords(Int32(0)[k..] + body);
            (got.Got? ==> got.value == []) && (k == 0 ==> got.Got?)
  {
    SmallWord(0);
    var s := Int32(0)[k..] + body;
    var w := s[..4];
    WordValue(w);
    assert w == if k == 0 then [0, 0, 0, 0] else if k == 1 then [0, 0, 0, body[0]]
                else if k == 2 then [0, 0, body[0], 0] else [0, body[0], 0, 0];
    assert Take(s, 4) == Got(w, s[4..]);
    if Read32(w) == TYPE_END {
      assert TakeRecord(s) == Got(None, s[4..]);
    } else {
      assert Read32(w) >= 256;
      assert TakeRecord(s) == Bad;
    }
  }

  lemma {:induction false} WordValue(w: seq<byte>)
    requires |w| == 4
    ensures Value(w) == w[0] as int + 256 * w[1] as int + 0x1_0000 * w[2] as int + 0x100_0000 * w[3] as int
  {
    var a, b, c := w[1..], w[2..], w[3..];
    assert a[1..] == b && b[1..] == c && c[1..] == [];
    assert Value(c) == w[3] as int;
    assert Value(b) == w[2] as int + 256 * Value(c);
    assert Value(a) == w[1] as int + 256 * Value(b);
  }

  /** A cut backup says, if anything, what the whole one says. */
  lemma {:induction false} CutHeard(rs: seq<Record>, gaps: map<nat, nat>, n: nat)
    requires AllInRange(rs) && !FlagRead(gaps) && n < |EncodeStream(0, rs)|
    requires Heard(EncodeStream(0, rs)[..n], gaps).Got?
    ensures Heard(EncodeStream(0, rs)[..n], gaps).value == Contents(false, [])
  {
    var s := EncodeStream(0, rs);
    PreambleOf(0, rs);
    assert s[..n][..4] == s[..4];
    CutBody(s, gaps, n);
    NothingHeard(rs, gaps);
  }

  /** What follows the place of the flag in a cut stream is a prefix of what follows it in the whole. */
  lemma {:induction false} CutBody(s: seq<byte>, gaps: map<nat, nat>, n: nat)
    requires 4 <= n < |s| && |s| >= 12 && !FlagRead(gaps)
    requires VersionOf(s) == FILE_VERSION_2 && VersionOf(s[..n]) == FILE_VERSION_2
    requires TakeRecords(BodyHeard(s[..n], gaps)).Got?
    ensures TakeRecords(BodyHeard(s, gaps)).Got?
    ensures TakeRecords(BodyHeard(s, gaps)).value == TakeRecords(BodyHeard(s[..n], gaps)).value
  {
    var a := BodyHeard(s[..n], gaps);
    NothingIsBad();
    CutSlices(s, gaps[1], n);
    assert a != [] && a + s[n..] == BodyHeard(s, gaps);
    TakeRecordsMore(a, s[n..]);
  }

  lemma NothingIsBad()
    ensures TakeRecords([]) == Bad
  {
    assert Take([], 4) == Bad;
  }

  lemma CutSlices(s: seq<byte>, k: nat, n: nat)
    requires 4 <= n < |s| && k < 4 && |s| >= 12
    ensures var m := if k <= n - 4 then k else n - 4;
            s[..n][4..][m..] == s[4 + m..n] && (m == k ==> s[4 + m..n] + s[n..] == s[4..][k..])
  {
  }

  /**
   * What a restore hears of a backup is what was saved, if and only if the flag was read, or the
   * backup was made without the all option and has nothing in it.
   */
  lemma {:induction false} HeardAsSaved(all: bool, rs: seq<Record>, gaps: map<nat, nat>)
    requires AllInRange(rs)
    ensures var heard := Heard(EncodeStream(if all then 1 else 0, rs), gaps);
            heard.Got? ==> (heard.value == Contents(all, MaskedAll(rs)) <==> FlagRead(gaps) || (!all && rs == []))
  {
    var flag := if all then 1 else 0;
    StreamRoundTrip(flag, rs);
    PreambleOf(flag, rs);
    if FlagRead(gaps) {
      HeardIsSaid(EncodeStream(flag, rs), gaps);
    } else if !all {
      NothingHeard(rs, gaps);
      assert rs == [] <==> MaskedAll(rs) == [];
    }
  }

  // ---------------------------------------------------------------- from end to end

  /** What a restore has done, by the items and by the paths of the nodes. */
  lemma {:induction false} Verdicts(all: bool, stuck: set<Path>, short: map<Path, nat>, surely: bool, data: seq<Entry>,
                                    heard: Parsed<Contents>, before: Fs, wiped: Fs, fs: Fs, res: int)
    requires Sound(data) && WellFormed(before) && (res == 0 || res == -1)
    requires Says(heard, all, data)
    requires res == 0 ==> Succeeded(heard, stuck, short, before, wiped, fs)
    requires surely && res != 0 ==> Hopeless(heard, stuck, before, wiped)
    ensures !SomeLinkOnWay(all, stuck, data, before) ==> !Astray(all, stuck, data, before)
    ensures !Astray(all, stuck, data, before) && res == 0 ==>
              Recovered(all, stuck, short, data, before, fs) && BackInPlace(all, stuck, short, data, before, fs)
    ensures !Astray(all, stuck, data, before) && surely ==>
              && (res == 0 <==> forall x :: InTree(all, data, x) ==> !Blocked(all, stuck, before, x))
              && (res == 0 <==> !SomeObstructed(all, stuck, data, before))
  {
    AstrayIsLink(all, stuck, data, before);
    if !Astray(all, stuck, data, before) {
      Verdict(all, stuck, short, surely, data, heard, before, wiped, fs, res);
      BlockedIsObstructed(all, stuck, data, before);
      if res == 0 { RecoveredIsBack(all, stuck, short, data, before, fs); }
    }
  }

  /** With the flag unread, and a backup made without the all option. */
  lemma {:induction false} NothingBack(data: seq<Entry>, stream: seq<byte>, gaps: map<nat, nat>, stuck: set<Path>,
                                       short: map<Path, nat>, surely: bool, before: Fs, wiped: Fs, fs: Fs, res: int)
    requires Storable(false, data) && stream == BackupOf(false, data) && !FlagRead(gaps)
    requires res == 0 ==> Succeeded(Heard(stream, gaps), stuck, short, before, wiped, fs)
    requires surely && res != 0 ==> Hopeless(Heard(stream, gaps), stuck, before, wiped)
    ensures res == 0 ==> Wiped(false, stuck, before, [DATA], {}, fs)
    ensures surely && gaps[1] == 0 ==> res == 0
    ensures gaps == map[1 := 0] ==> OnlyFlagShort(stream, gaps)
  {
    NothingHeard(RecordsOf(Items(false, [DATA], data)), gaps);
    PreambleOf(0, RecordsOf(Items(false, [DATA], data)));
  }

  /**
   * Backup, then restore on any device, unless something that is neither a file nor a directory is
   * in a saved place and cannot be removed.  `gaps` are the reads of the backup that come up short.
   * If the flag is read, a restore that returns 0 has brought everything back, except for what was
   * lost at a close; and if no call fails for reasons outside the file tree, it returns 0 exactly
   * when nothing that `wipe` leaves is in the way.  If the flag is not read, then after a backup
   * without the all option the device is wiped and nothing is brought back.
   */
  method BackupThenRestore(all: bool, data: seq<Entry>, faulty: bool, reach: Option<nat>, dev: Device,
                           gaps: map<nat, nat>)
    returns (saved: bool, res: int, ghost stream: seq<byte>)
    requires Sound(data) && Storable(all, data) && WellFormed(dev.fs)
    modifies dev
    ensures (!faulty && reach.None? ==> saved) && (saved ==> IsBackup(all, data, stream))
    ensures saved && res == 0 && FlagRead(gaps) ==>
              || Astray(all, dev.stuck, data, old(dev.fs))
              || Recovered(all, dev.stuck, dev.short, data, old(dev.fs), dev.fs)
    ensures saved && !dev.faulty && gaps == map[] ==>
              || Astray(all, dev.stuck, data, old(dev.fs))
              || (res == 0 <==> forall x :: InTree(all, data, x) ==> !Blocked(all, dev.stuck, old(dev.fs), x))
    // the same, told by the paths of the nodes
    ensures saved && res == 0 && FlagRead(gaps) ==>
              || SomeLinkOnWay(all, dev.stuck, data, old(dev.fs))
              || BackInPlace(all, dev.stuck, dev.short, data, old(dev.fs), dev.fs)
    ensures saved && !dev.faulty && gaps == map[] ==>
              || SomeLinkOnWay(all, dev.stuck, data, old(dev.fs))
              || (res == 0 <==> !SomeObstructed(all, dev.stuck, data, old(dev.fs)))
    ensures saved && res == 0 && !FlagRead(gaps) && !all ==> Wiped(false, dev.stuck, old(dev.fs), [DATA], {}, dev.fs)
    ensures saved && !dev.faulty && gaps == map[1 := 0] && !all ==> res == 0
  {
    var backup;
    saved, backup := BackupData(all, data, faulty, reach);
    stream := backup;
    if !saved { return false, -1, []; }
    ghost var before := dev.fs;
    ghost var wiped;
    res, wiped := RestoreData(dev, backup, gaps);
    if FlagRead(gaps) {
      ReadsBack(all, data);
      HeardIsSaid(stream, gaps);
      Verdicts(all, dev.stuck, dev.short, !dev.faulty && gaps == map[], data, Heard(stream, gaps),
               before, wiped, dev.fs, res);
    } else if !all {
      NothingBack(data, stream, gaps, dev.stuck, dev.short, !dev.faulty && OnlyFlagShort(stream, gaps), before, wiped,
                  dev.fs, res);
    }
  }

  /** A backup cut short anywhere is not restored; only if its flag is not read, and it was made
      without the all option, the restore may return 0, and the device is wiped. */
  method RestoreCut(all: bool, data: seq<Entry>, faulty: bool, reach: Option<nat>, n: nat, dev: Device,
                    gaps: map<nat, nat>)
    returns (saved: bool, stream: seq<byte>, res: int)
    requires Storable(all, data) && WellFormed(dev.fs)
    modifies dev
    ensures saved ==> stream == BackupOf(all, data) && IsBackup(all, data, stream)
    ensures saved && n < |stream| && FlagRead(gaps) ==> res == -1
    ensures saved && n < |stream| && !all && res == 0 ==> Wiped(false, dev.stuck, old(dev.fs), [DATA], {}, dev.fs)
  {
    res := 0;
    saved, stream := BackupData(all, data, faulty, reach);
    if saved && n < |stream| {
      ghost var wiped;
      res, wiped := RestoreData(dev, stream[..n], gaps);
      ghost var rs := RecordsOf(Items(all, [DATA], data));
      if FlagRead(gaps) {
        HeardIsSaid(stream[..n], gaps);
        TruncationRejected(if all then 1 else 0, rs, n);
      } else if !all && res == 0 {
        CutHeard(rs, gaps, n);
      }
    }
  }
}
