/** The in-memory `cache_t`: the two growable arrays and the arena that holds them. */
module CacheStore {
  import opened CacheTree
  import opened CacheArena

  const SIZEOF_DIR: nat := 24
  const SIZEOF_FILE: nat := 16

  /** `_add_cache_dir_t`, on values: a new directory, counted by its parent. */
  ghost function AddedDir(c: Cache, parent: int, name: string): Cache
    requires Shape(c) && -1 <= parent < |c.tree|
  {
    var counts := if parent >= 0 then c.childCount[parent := c.childCount[parent] + 1] else c.childCount;
    Cache(c.tree + [Node(parent, name)], counts + [0], c.hiddenCount + [0], c.deleted + [false], c.files)
  }

  /** `_add_cache_file_t`, on values: a new file, counted by its directory. */
  ghost function AddedFile(c: Cache, f: File): Cache
    requires Shape(c) && 0 <= f.dir < |c.tree|
  {
    c.(childCount := c.childCount[f.dir := c.childCount[f.dir] + 1], files := c.files + [f])
  }

  lemma KidsWithNew(c: Cache, parent: int, name: string, d: int)
    requires Shape(c) && -1 <= parent < |c.tree| && 0 <= d <= |c.tree|
    ensures |Kids(AddedDir(c, parent, name), d)| ==
            if d == |c.tree| then 0 else if d == parent then |Kids(c, d)| + 1 else |Kids(c, d)|
  {
    var c', n := AddedDir(c, parent, name), |c.tree|;
    var kids := Kids(c, d);
    forall x
      ensures x in Kids(c', d) <==> x in kids || (x == n && d == parent)
    {
      if 0 <= x < n { assert c'.tree[x] == c.tree[x] && c'.deleted[x] == c.deleted[x]; }
    }
    assert d == n ==> kids == {};
    assert Kids(c', d) == if d == parent then kids + {n} else kids;
  }

  lemma AddedDirKeepsInv(c: Cache, parent: int, name: string)
    requires Inv(c, 0) && -1 <= parent < |c.tree| && (parent >= 0 ==> !c.deleted[parent])
    ensures Inv(AddedDir(c, parent, name), 0)
  {
    var c', n := AddedDir(c, parent, name), |c.tree|;
    forall d | 0 <= d <= n
      ensures c'.childCount[d] == |Kids(c', d)| + FilesIn(c'.files[0..], d)
    {
      KidsWithNew(c, parent, name, d);
      if d == n && FilesIn(c.files[0..], d) > 0 { var _ := FilesInWitness(c.files[0..], d); }
    }
  }

  lemma AddedFileKeepsInv(c: Cache, f: File)
    requires Inv(c, 0) && 0 <= f.dir < |c.tree| && !c.deleted[f.dir]
    ensures Inv(AddedFile(c, f), 0)
  {
    var c' := AddedFile(c, f);
    assert c.files[0..] == c.files && c'.files[0..] == c.files + [f];
    forall d | 0 <= d < |c.tree|
      ensures c'.childCount[d] == |Kids(c', d)| + FilesIn(c'.files[0..], d)
    {
      assert Kids(c', d) == Kids(c, d);
      FilesInAppend(c.files, [f], d);
    }
  }

  // ---------------------------------------------------------------- the arrays in the arena

  /** `p` is an array of `avail` pointers. */
  ghost predicate ArrayOf(regions: seq<Region>, p: Pointer, avail: nat) {
    if avail == 0 then p == Null else p.At? && p.region in regions && avail * WORD <= p.region.len
  }

  /** The array at `p` holds the pointers `xs`. */
  ghost predicate Slots(m: Memory, p: Pointer, avail: nat, xs: seq<Region>) {
    |xs| <= avail && (xs == [] || (p.At? && forall i :: 0 <= i < |xs| ==> SlotHolds(m, p.region, i, xs[i])))
  }

  ghost predicate SlotHolds(m: Memory, r: Region, i: nat, x: Region) {
    Byte(r, i * WORD) in m && m[Byte(r, i * WORD)] == x
  }

  /** The pointers lead to regions of the arena that do not overlap. */
  ghost predicate Structs(regions: seq<Region>, xs: seq<Region>) {
    && (forall i :: 0 <= i < |xs| ==> xs[i] in regions)
    && (forall i, j :: 0 <= i < j < |xs| ==> Disjoint(xs[i], xs[j]))
  }

  ghost predicate Apart(p: Pointer, q: Pointer) {
    p.At? && q.At? ==> Disjoint(p.region, q.region)
  }

  /** Each pointer of the array of `avail` pointers at `p` is at its place in the one at `p'`. */
  ghost predicate CarriedOver(m: Memory, p: Pointer, avail: nat, m': Memory, p': Pointer) {
    p.At? ==>
      && p'.At?
      && forall i: nat :: i < avail * WORD && Byte(p.region, i) in m ==>
                            Byte(p'.region, i) in m' && m'[Byte(p'.region, i)] == m[Byte(p.region, i)]
  }

  /** What was stored in the regions is still there. */
  ghost predicate Intact(regions: seq<Region>, m: Memory, m': Memory) {
    forall r, i :: r in regions && 0 <= i < r.len && Byte(r, i) in m ==>
                     Byte(r, i) in m' && m'[Byte(r, i)] == m[Byte(r, i)]
  }

  lemma SlotsMoved(m: Memory, p: Pointer, avail: nat, xs: seq<Region>, m': Memory, p': Pointer, avail': nat)
    requires Slots(m, p, avail, xs) && CarriedOver(m, p, avail, m', p') && avail <= avail'
    ensures Slots(m', p', avail', xs)
  {
    forall i | 0 <= i < |xs|
      ensures p'.At? && SlotHolds(m', p'.region, i, xs[i])
    {
      assert p.At? && SlotHolds(m, p.region, i, xs[i]);
    }
  }

  lemma SlotsKept(regions: seq<Region>, m: Memory, p: Pointer, avail: nat, xs: seq<Region>, m': Memory)
    requires Slots(m, p, avail, xs) && ArrayOf(regions, p, avail) && Intact(regions, m, m')
    ensures Slots(m', p, avail, xs)
  {
    forall i | 0 <= i < |xs|
      ensures p.At? && SlotHolds(m', p.region, i, xs[i])
    {
      assert p.At? && SlotHolds(m, p.region, i, xs[i]);
    }
  }

  /** The next slot is written. */
  lemma SlotWritten(m: Memory, p: Pointer, avail: nat, xs: seq<Region>, v: Region)
    requires Slots(m, p, avail, xs) && |xs| < avail && p.At?
    ensures Slots(m[Byte(p.region, |xs| * WORD) := v], p, avail, xs + [v])
  {
    var m' := m[Byte(p.region, |xs| * WORD) := v];
    forall i | 0 <= i <= |xs|
      ensures SlotHolds(m', p.region, i, (xs + [v])[i])
    {
      if i < |xs| { assert SlotHolds(m, p.region, i, xs[i]); }
    }
  }

  /** A slot of the other array is written. */
  lemma OtherWritten(regions: seq<Region>, m: Memory, p: Pointer, avail: nat, xs: seq<Region>, r: Region, i: nat,
                     v: Region)
    requires Slots(m, p, avail, xs) && ArrayOf(regions, p, avail) && Apart(At(r), p) && (i + 1) * WORD <= r.len
    ensures Slots(m[Byte(r, i * WORD) := v], p, avail, xs)
  {
    forall j | 0 <= j < |xs|
      ensures p.At? && SlotHolds(m[Byte(r, i * WORD) := v], p.region, j, xs[j])
    {
      assert p.At? && SlotHolds(m, p.region, j, xs[j]);
      assert (j + 1) * WORD <= p.region.len;
    }
  }

  /** A region handed out last is apart from all others. */
  lemma NewIsApart(blocks: seq<Block>, regions: seq<Region>, r: Region, q: Region)
    requires RegionsOk(blocks, regions + [r]) && q in regions
    ensures Disjoint(q, r) && Disjoint(r, q)
  {
    var k :| 0 <= k < |regions| && regions[k] == q;
    assert (regions + [r])[k] == q && (regions + [r])[|regions|] == r;
  }

  lemma StructAdded(blocks: seq<Block>, regions: seq<Region>, r: Region, xs: seq<Region>)
    requires RegionsOk(blocks, regions + [r]) && Structs(regions, xs)
    ensures Structs(regions + [r], xs + [r]) && Structs(regions + [r], xs)
  {
    forall i | 0 <= i < |xs|
      ensures xs[i] in regions + [r] && Disjoint(xs[i], r)
    {
      NewIsApart(blocks, regions, r, xs[i]);
    }
  }

  lemma StructsMore(regions: seq<Region>, regions': seq<Region>, xs: seq<Region>)
    requires Structs(regions, xs) && regions <= regions'
    ensures Structs(regions', xs)
  {
    assert forall x :: x in regions ==> x in regions';
  }

  class Store {
    var tree: seq<Node>
    var childCount: seq<int>
    var hiddenCount: seq<int>
    var deleted: seq<bool>
    var files: seq<File>

    const arena: Arena
    var availDirs: nat
    var availFiles: nat
    var dirsAt: Pointer
    var filesAt: Pointer
    /** Where each directory and each file is in the arena. */
    ghost var dirs: seq<Region>
    ghost var entries: seq<Region>

    /** The current contents as a value. */
    function Snap(): Cache
      reads this
    {
      Cache(tree, childCount, hiddenCount, deleted, files)
    }

    /** Both arrays lie in the arena, have room for what they hold, and hold a pointer to each
        directory and to each file. */
    ghost predicate Room()
      reads this, arena
    {
      && arena.Valid()
      && |dirs| == |tree| && ArrayOf(arena.regions, dirsAt, availDirs)
      && Slots(arena.memory, dirsAt, availDirs, dirs) && Structs(arena.regions, dirs)
      && |entries| == |files| && ArrayOf(arena.regions, filesAt, availFiles)
      && Slots(arena.memory, filesAt, availFiles, entries) && Structs(arena.regions, entries)
      && Apart(dirsAt, filesAt)
    }

    /** `start_cache_collection`. */
    constructor (tight: bool)
      ensures Snap() == Cache([], [], [], [], []) && Room() && fresh(arena) && arena.tight == tight
      ensures Inv(Snap(), 0) && Named(tree) && FilesNamed(files)
    {
      tree, childCount, hiddenCount, deleted, files := [], [], [], [], [];
      availDirs, availFiles, dirsAt, filesAt := 0, 0, Null, Null;
      dirs, entries := [], [];
      arena := new Arena(tight);
    }

    /** The size an array grows to. */
    static function NewAvail(avail: nat): (r: nat)
      ensures r > avail
    {
      if avail < 1000 then 1000 else avail * 2
    }

    /** Takes a region from the arena. */
    method Allocate(len: nat) returns (p: Pointer)
      requires Room() && 0 < len
      modifies arena
      ensures Room() && arena.memory == old(arena.memory)
      ensures p.Null? ==> arena.tight
      ensures p.At? ==> && p.region.len >= len && p.region in arena.regions
                        && Structs(arena.regions, dirs + [p.region]) && Structs(arena.regions, entries + [p.region])
    {
      ghost var regions := arena.regions;
      p := arena.Malloc(len);
      if p.At? {
        StructAdded(arena.blocks, regions, p.region, dirs);
        StructAdded(arena.blocks, regions, p.region, entries);
      }
    }

    /** Makes room for one more directory. */
    method GrowDirs() returns (ok: bool)
      requires Room()
      modifies this`availDirs, this`dirsAt, arena
      ensures Room() && old(arena.regions) <= arena.regions
      ensures if ok then |tree| < availDirs else arena.tight
      ensures ok ==> availDirs == if |tree| < old(availDirs) then old(availDirs)
                                  else if old(availDirs) < 1000 then 1000 else 2 * old(availDirs)
      ensures ok ==> CarriedOver(old(arena.memory), old(dirsAt), old(availDirs), arena.memory, dirsAt)
    {
      ok := true;
      if |tree| >= availDirs {
        var newAvail := NewAvail(availDirs);
        ghost var regions, m := arena.regions, arena.memory;
        var newDirs := arena.Realloc(dirsAt, availDirs * WORD, newAvail * WORD);
        if newDirs.Null? { return false; }
        Regrown(arena.blocks, regions, m, dirsAt, availDirs, dirs, filesAt, availFiles, entries,
                arena.memory, newDirs, newAvail);
        availDirs, dirsAt := newAvail, newDirs;
      }
    }

    /** Makes room for one more file. */
    method GrowFiles() returns (ok: bool)
      requires Room()
      modifies this`availFiles, this`filesAt, arena
      ensures Room() && old(arena.regions) <= arena.regions
      ensures if ok then |files| < availFiles else arena.tight
      ensures ok ==> availFiles == if |files| < old(availFiles) then old(availFiles)
                                   else if old(availFiles) < 1000 then 1000 else 2 * old(availFiles)
      ensures ok ==> CarriedOver(old(arena.memory), old(filesAt), old(availFiles), arena.memory, filesAt)
    {
      ok := true;
      if |files| >= availFiles {
        var newAvail := NewAvail(availFiles);
        ghost var regions, m := arena.regions, arena.memory;
        var newFiles := arena.Realloc(filesAt, availFiles * WORD, newAvail * WORD);
        if newFiles.Null? { return false; }
        Regrown(arena.blocks, regions, m, filesAt, availFiles, entries, dirsAt, availDirs, dirs,
                arena.memory, newFiles, newAvail);
        availFiles, filesAt := newAvail, newFiles;
      }
    }

    /** `_add_cache_dir_t`; -1 stands for NULL. */
    method AddDir(parent: int, name: string) returns (r: int)
      requires Room() && Shape(Snap()) && -1 <= parent < |tree|
      modifies this, arena
      ensures Room()
      ensures r == -1 ==> arena.tight && Snap() == old(Snap()) && dirs == old(dirs) && entries == old(entries)
      ensures r != -1 ==> r == old(|tree|) && Snap() == AddedDir(old(Snap()), parent, name)
      ensures r != -1 ==> |dirs| == r + 1 && old(dirs) == dirs[..r] && dirs[r].len > 24 + |name|
    {
      var dir := Allocate(SIZEOF_DIR + |name| + 1);
      if dir.Null? { return -1; }
      ghost var before := arena.regions;
      var ok := GrowDirs();
      if !ok { return -1; }
      StructsMore(before, arena.regions, dirs + [dir.region]);
      r := |tree|;
      EnterDir(parent, name, dir.region);
    }

    /** Stores the pointer to a new directory, and counts the directory. */
    method EnterDir(parent: int, name: string, r: Region)
      requires Room() && Shape(Snap()) && -1 <= parent < |tree| < availDirs && Structs(arena.regions, dirs + [r])
      modifies this`tree, this`childCount, this`hiddenCount, this`deleted, this`dirs, arena`memory
      ensures Room() && Snap() == AddedDir(old(Snap()), parent, name) && dirs == old(dirs) + [r]
    {
      ghost var m := arena.memory;
      arena.Put(dirsAt.region, |tree| * WORD, r);
      SlotWritten(m, dirsAt, availDirs, dirs, r);
      OtherWritten(arena.regions, m, filesAt, availFiles, entries, dirsAt.region, |tree|, r);
      dirs := dirs + [r];
      Append(parent, name);
    }

    /** Counts and records the new directory. */
    method Append(parent: int, name: string)
      requires Shape(Snap()) && -1 <= parent < |tree|
      modifies this`tree, this`childCount, this`hiddenCount, this`deleted
      ensures Snap() == AddedDir(old(Snap()), parent, name)
    {
      tree := tree + [Node(parent, name)];
      if parent >= 0 {
        childCount := childCount[parent := childCount[parent] + 1];
      }
      childCount, hiddenCount, deleted := childCount + [0], hiddenCount + [0], deleted + [false];
    }

    /** `_add_cache_file_t`. */
    method AddFile(f: File) returns (ok: bool)
      requires Room() && Shape(Snap()) && 0 <= f.dir < |tree|
      modifies this, arena
      ensures Room()
      ensures !ok ==> arena.tight && Snap() == old(Snap()) && dirs == old(dirs) && entries == old(entries)
      ensures ok ==> Snap() == AddedFile(old(Snap()), f)
      ensures ok ==> |entries| == |files| && old(entries) == entries[..|files| - 1]
                     && entries[|files| - 1].len > 16 + |f.name|
    {
      var file := Allocate(SIZEOF_FILE + |f.name| + 1);
      if file.Null? { return false; }
      ghost var before := arena.regions;
      ok := GrowFiles();
      if !ok { return; }
      StructsMore(before, arena.regions, entries + [file.region]);
      EnterFile(f, file.region);
    }

    /** Stores the pointer to a new file, and counts the file. */
    method EnterFile(f: File, r: Region)
      requires Room() && Shape(Snap()) && 0 <= f.dir < |tree| && |files| < availFiles
      requires Structs(arena.regions, entries + [r])
      modifies this`files, this`childCount, this`entries, arena`memory
      ensures Room() && Snap() == AddedFile(old(Snap()), f) && entries == old(entries) + [r]
    {
      ghost var m := arena.memory;
      arena.Put(filesAt.region, |files| * WORD, r);
      SlotWritten(m, filesAt, availFiles, entries, r);
      OtherWritten(arena.regions, m, dirsAt, availDirs, dirs, filesAt.region, |files|, r);
      entries := entries + [r];
      files := files + [f];
      childCount := childCount[f.dir := childCount[f.dir] + 1];
    }
  }

  /** An array has been moved to a new region: both arrays hold what they held. */
  lemma Regrown(blocks: seq<Block>, regions: seq<Region>, m: Memory,
                p: Pointer, avail: nat, xs: seq<Region>, q: Pointer, availQ: nat, ys: seq<Region>,
                m': Memory, p': Pointer, avail': nat)
    requires ArrayOf(regions, p, avail) && Slots(m, p, avail, xs) && Structs(regions, xs)
    requires ArrayOf(regions, q, availQ) && Slots(m, q, availQ, ys) && Structs(regions, ys)
    requires p'.At? && RegionsOk(blocks, regions + [p'.region]) && avail < avail' && avail' * WORD <= p'.region.len
    requires CarriedOver(m, p, avail, m', p') && Intact(regions, m, m')
    ensures ArrayOf(regions + [p'.region], p', avail') && Slots(m', p', avail', xs)
            && Structs(regions + [p'.region], xs)
    ensures ArrayOf(regions + [p'.region], q, availQ) && Slots(m', q, availQ, ys) && Structs(regions + [p'.region], ys)
    ensures Apart(p', q) && Apart(q, p')
  {
    SlotsMoved(m, p, avail, xs, m', p', avail');
    SlotsKept(regions, m, q, availQ, ys, m');
    StructAdded(blocks, regions, p'.region, xs);
    StructAdded(blocks, regions, p'.region, ys);
    if q.At? && availQ > 0 { NewIsApart(blocks, regions, p'.region, q.region); }
  }
}
