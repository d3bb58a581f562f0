/**
 * The arena behind a cache collection: `_cache_malloc`, `_cache_realloc` and the release of all
 * blocks in `finish_cache_collection`.
 *
 * A pointer into the arena is a block and an offset.  The first word of each block links it to
 * the next; the list itself is the sequence `blocks`, head first.
 */
module CacheArena {

  const BLOCK_SIZE: nat := 512 * 1024
  const WORD: nat := 8

  datatype Block = Block(id: nat, size: nat)

  datatype Region = Region(block: nat, offset: nat, len: nat)

  datatype Pointer = Null | At(region: Region)

  ghost predicate Disjoint(a: Region, b: Region) {
    a.block == b.block ==> a.offset + a.len <= b.offset || b.offset + b.len <= a.offset
  }

  ghost predicate InBlock(r: Region, b: Block) {
    r.block == b.id && 8 <= r.offset && r.offset + r.len <= b.size
  }

  /** `(len + 3) & ~3`. */
  function RoundUp(len: nat): (r: nat)
    ensures len <= r < len + 4 && r % 4 == 0
  {
    (len + 3) / 4 * 4
  }

  type Memory = map<(nat, nat), Region>

  class Arena {
    /** `memBlocks` and the links. */
    var blocks: seq<Block>
    /** How many blocks `malloc` has handed out; it never hands out one that is still in use. */
    var handedOut: nat
    /** `curMemBlockAvail` and `curMemBlockEnd`, as offsets in the block `current` (or NULL). */
    var current: int
    var avail: nat
    var end: nat
    /** The pointers that have been stored in the arena, by their addresses. */
    var memory: Memory
    /** Every region handed out so far. */
    ghost var regions: seq<Region>
    /** Whether `malloc` may fail. */
    const tight: bool

    ghost predicate Valid()
      reads this
    {
      && ListOk(blocks, handedOut)
      && RegionsOk(blocks, regions)
      // the current block is the head of the list, and what lies beyond `avail` is unused
      && (if current < 0 then current == -1 && avail == 0 && end == 0 else
            && blocks != [] && blocks[0] == Block(current, 524288)
            && 8 <= avail <= end == 524288
            && forall r :: r in regions && r.block == current ==> r.offset + r.len <= avail)
    }

    constructor (tight: bool)
      ensures Valid() && regions == [] && this.tight == tight
    {
      this.tight := tight;
      blocks, handedOut, current, avail, end, memory, regions := [], 0, -1, 0, 0, map[], [];
    }

    /** `malloc`: a block that is not in use, or failure. */
    method NewBlock(size: nat) returns (b: Block, ok: bool)
      ensures b == Block(handedOut, size)
      ensures !tight ==> ok
    {
      b := Block(handedOut, size);
      ok := *;
      ok := ok || !tight;
    }

    /** `_cache_malloc`. */
    method Malloc(len: nat) returns (p: Pointer)
      requires Valid() && 0 < len
      modifies this
      ensures Valid() && memory == old(memory)
      ensures p.Null? ==> tight && unchanged(this)
      ensures p.At? ==> p.region.len == RoundUp(len) && regions == old(regions) + [p.region]
      // more than half a block gets a block of its own, which leaves the current one as it is
      ensures p.At? && RoundUp(len) > 262144 ==>
                && p.region == Region(old(handedOut), 8, RoundUp(len)) && handedOut == old(handedOut) + 1
                && Block(old(handedOut), RoundUp(len) + 8) in blocks
                && current == old(current) && avail == old(avail)
      // anything else goes behind what the current block holds, or to the start of a new one
      ensures p.At? && RoundUp(len) <= 262144 ==>
                if old(current) >= 0 && old(avail) + RoundUp(len) <= 524288
                then p.region == Region(old(current), old(avail), RoundUp(len)) && blocks == old(blocks)
                else p.region == Region(old(handedOut), 8, RoundUp(len))
                     && blocks == [Block(old(handedOut), 524288)] + old(blocks)
    {
      var n := RoundUp(len);
      if n > BLOCK_SIZE / 2 {
        var b, ok := NewBlock(n + WORD);
        if !ok { return Null; }
        AddBlock(b, n);
        return At(Region(b.id, WORD, n));
      }
      if blocks == [] || avail + n > end {
        var b, ok := NewBlock(BLOCK_SIZE);
        if !ok { return Null; }
        StartBlock(b);
      }
      p := At(Region(current, avail, n));
      Placed(blocks, regions, blocks[0], p.region);
      regions := regions + [p.region];
      avail := avail + n;
    }

    /** A dedicated block goes second in the list, so that the current one stays at its head. */
    method AddBlock(b: Block, n: nat)
      requires Valid() && b == Block(handedOut, n + WORD)
      modifies this`blocks, this`handedOut, this`regions
      ensures Valid() && handedOut == old(handedOut) + 1
      ensures blocks == if old(blocks) == [] then [b] else [old(blocks)[0], b] + old(blocks)[1..]
      ensures regions == old(regions) + [Region(b.id, WORD, n)]
    {
      ghost var r := Region(b.id, WORD, n);
      ghost var at := if blocks == [] then 0 else 1;
      Inserted(blocks, at, b, handedOut, regions);
      Placed(InsertAt(blocks, at, b), regions, b, r);
      blocks := if blocks == [] then [b] else [blocks[0], b] + blocks[1..];
      assert blocks == InsertAt(old(blocks), at, b);
      handedOut := handedOut + 1;
      regions := regions + [r];
    }

    /** A new current block. */
    method StartBlock(b: Block)
      requires Valid() && b == Block(handedOut, BLOCK_SIZE)
      modifies this`blocks, this`handedOut, this`current, this`avail, this`end
      ensures Valid() && current == b.id && avail == WORD && end == BLOCK_SIZE
      ensures blocks == [b] + old(blocks) && handedOut == old(handedOut) + 1
    {
      Inserted(blocks, 0, b, handedOut, regions);
      blocks := [b] + blocks;
      assert blocks == InsertAt(old(blocks), 0, b);
      handedOut := handedOut + 1;
      current, avail, end := b.id, WORD, BLOCK_SIZE;
    }

    /** `_cache_realloc`: a new region that starts with what the old one held. */
    method Realloc(cur: Pointer, origLen: nat, len: nat) returns (p: Pointer)
      requires Valid() && 0 < len
      requires cur.At? ==> cur.region in regions && origLen <= cur.region.len
      modifies this
      ensures Valid()
      ensures p.Null? ==> tight && unchanged(this)
      ensures p.At? ==> p.region.len == RoundUp(len) && regions == old(regions) + [p.region]
      ensures p.At? && cur.At? ==>
                forall i :: 0 <= i < origLen && i < len && Byte(cur.region, i) in old(memory) ==>
                  Byte(p.region, i) in memory && memory[Byte(p.region, i)] == old(memory[Byte(cur.region, i)])
      ensures forall r, i :: r in old(regions) && 0 <= i < r.len && Byte(r, i) in old(memory) ==>
                Byte(r, i) in memory && memory[Byte(r, i)] == old(memory)[Byte(r, i)]
    {
      p := Malloc(len);
      if p.At? && cur.At? {
        var n := if origLen < len then origLen else len;
        var from, to := cur.region, p.region;
        assert forall i :: 0 <= i < |old(regions)| ==> Disjoint(regions[i], regions[|old(regions)|]);
        assert forall i :: 0 <= i < |old(regions)| ==> regions[i] == old(regions)[i];
        var copied := map i | 0 <= i < n && Byte(from, i) in memory :: Byte(to, i) := memory[Byte(from, i)];
        memory := memory + copied;
      }
    }

    /** Stores a pointer in a region. */
    method Put(r: Region, i: nat, v: Region)
      requires Valid() && r in regions && i + WORD <= r.len
      modifies this`memory
      ensures Valid() && memory == old(memory)[Byte(r, i) := v]
    {
      memory := memory[Byte(r, i) := v];
    }

    /** `finish_cache_collection`: walks the list and frees each block. */
    method Finish() returns (freed: seq<nat>)
      requires Valid()
      ensures forall id :: 0 <= id < handedOut ==> id in freed
      ensures forall i, j :: 0 <= i < j < |freed| ==> freed[i] != freed[j]
    {
      freed := [];
      var block := 0;
      while block < |blocks|
        invariant 0 <= block <= |blocks| && |freed| == block
        invariant forall i :: 0 <= i < block ==> freed[i] == blocks[i].id
      {
        freed := freed + [blocks[block].id];
        block := block + 1;
      }
      forall id: nat | id < handedOut
        ensures id in freed
      {
        assert Listed(blocks, id);
        var i :| 0 <= i < |blocks| && blocks[i].id == id;
        assert freed[i] == id;
      }
    }
  }

  /** The address of the byte at offset `i` of a region. */
  function Byte(r: Region, i: nat): (nat, nat) {
    (r.block, r.offset + i)
  }

  ghost predicate Listed(blocks: seq<Block>, id: nat) {
    exists i :: 0 <= i < |blocks| && blocks[i].id == id
  }

  ghost predicate Housed(blocks: seq<Block>, r: Region) {
    exists b :: b in blocks && InBlock(r, b)
  }

  /** The list holds every one of the `n` blocks handed out, each once. */
  ghost predicate ListOk(blocks: seq<Block>, n: nat) {
    && (forall i :: 0 <= i < |blocks| ==> blocks[i].id < n)
    && (forall id: nat :: id < n ==> Listed(blocks, id))
    && (forall i, j :: 0 <= i < j < |blocks| ==> blocks[i].id != blocks[j].id)
  }

  /** Regions lie in listed blocks, off the link words, and are disjoint. */
  ghost predicate RegionsOk(blocks: seq<Block>, regions: seq<Region>) {
    && (forall r :: r in regions ==> Housed(blocks, r))
    && (forall i, j :: 0 <= i < j < |regions| ==> Disjoint(regions[i], regions[j]))
  }

  ghost function InsertAt(blocks: seq<Block>, at: nat, b: Block): seq<Block>
    requires at <= |blocks|
  {
    blocks[..at] + [b] + blocks[at..]
  }

  lemma Inserted(blocks: seq<Block>, at: nat, b: Block, n: nat, regions: seq<Region>)
    requires at <= |blocks| && b.id == n && ListOk(blocks, n) && RegionsOk(blocks, regions)
    ensures ListOk(InsertAt(blocks, at, b), n + 1) && RegionsOk(InsertAt(blocks, at, b), regions)
    ensures b in InsertAt(blocks, at, b)
    ensures forall r :: r in regions ==> r.block != b.id
  {
    var now := InsertAt(blocks, at, b);
    assert now[at] == b;
    forall x | x in blocks
      ensures x in now
    {
      InsertedHas(blocks, at, b, x);
    }
    InsertedList(blocks, at, b, n);
    forall r | r in regions
      ensures Housed(now, r) && r.block != b.id
    {
      assert Housed(blocks, r);
    }
  }

  lemma InsertedHas(blocks: seq<Block>, at: nat, b: Block, x: Block)
    requires at <= |blocks| && x in blocks
    ensures x in InsertAt(blocks, at, b)
  {
    assert blocks == blocks[..at] + blocks[at..];
  }

  lemma InsertedList(blocks: seq<Block>, at: nat, b: Block, n: nat)
    requires at <= |blocks| && b.id == n && ListOk(blocks, n)
    ensures ListOk(InsertAt(blocks, at, b), n + 1)
  {
    var now := InsertAt(blocks, at, b);
    assert forall i :: 0 <= i < |now| ==> now[i] == if i < at then blocks[i] else if i == at then b else blocks[i - 1];
    forall id: nat | id < n + 1
      ensures Listed(now, id)
    {
      if id < n {
        assert Listed(blocks, id);
        var i :| 0 <= i < |blocks| && blocks[i].id == id;
        assert now[if i < at then i else i + 1].id == id;
      } else {
        assert now[at].id == id;
      }
    }
  }

  /** A region apart from all others in its block can join them. */
  lemma Placed(blocks: seq<Block>, regions: seq<Region>, b: Block, r: Region)
    requires RegionsOk(blocks, regions) && b in blocks && InBlock(r, b)
    requires forall q :: q in regions && q.block == r.block ==> q.offset + q.len <= r.offset
    ensures RegionsOk(blocks, regions + [r])
  {
    assert forall i :: 0 <= i < |regions| ==> regions[i] in regions;
  }
}
