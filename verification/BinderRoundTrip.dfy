/** What is put into a `binder_io` and sent comes back as it was, exactly when it can. */
module BinderRoundTrip {
  import opened BinderIo

  /** The call that puts an item. */
  method PutItem(bio: Bio, x: Item)
    requires bio.Writing() && IsText(x)
    modifies bio, bio.mem
    ensures bio.Put(x)
  {
    match x
    case U32(n) => bio.PutUint32(n);
    case Ref(h) => bio.PutRef(h);
    case NoStr => bio.PutString16(Nil);
    case Str(s) =>
      UpToNulText(s);
      bio.PutString16(At(s + [0]));
  }

  lemma {:induction false} UpToNulText(s: seq<half>)
    requires 0 !in s
    ensures UpToNul(s + [0]) == s
  {
    if s != [] {
      assert (s + [0])[1..] == s[1..] + [0];
      UpToNulText(s[1..]);
    }
  }

  ghost predicate AllText(xs: seq<Item>) {
    forall i :: 0 <= i < |xs| ==> IsText(xs[i])
  }

  ghost predicate AllFaithful(xs: seq<Item>) {
    forall i :: 0 <= i < |xs| ==> Faithful(xs[i])
  }

  /** How many entries of the offset table the items need. */
  function Refs(xs: seq<Item>): nat {
    if xs == [] then 0 else (if xs[0].Ref? && xs[0].handle != 0 then 1 else 0) + Refs(xs[1..])
  }

  lemma {:induction false} RefsAppend(xs: seq<Item>, x: Item)
    ensures Refs(xs + [x]) == Refs(xs) + (if x.Ref? && x.handle != 0 then 1 else 0)
  {
    if xs != [] {
      assert (xs + [x])[1..] == xs[1..] + [x];
      RefsAppend(xs[1..], x);
    }
  }

  /** The items need no more than `data` units and `offs` table entries. */
  predicate RoomFor(xs: seq<Item>, data: nat, offs: nat) {
    Total(xs) <= data && Refs(xs) <= offs
  }

  /** Puts in sequence: they overflow exactly when there is not room for them all, and otherwise the
      buffer holds the items, and only their references are in the offset table. */
  method PutAll(bio: Bio, xs: seq<Item>)
    requires bio.Writing() && AllText(xs) && bio.pos == 0 && bio.offs == [] && !bio.overflow
    modifies bio, bio.mem
    ensures bio.Writing()
    ensures bio.overflow <==> !RoomFor(xs, old(bio.dataAvail), old(bio.offsAvail))
    ensures !bio.overflow ==> bio.pos == Total(xs) && HoldsAll(bio.mem[..], bio.offs, 0, xs)
  {
    ghost var data, table := bio.dataAvail, bio.offsAvail;
    var i := 0;
    while i < |xs|
      invariant 0 <= i <= |xs| && bio.Writing() && HasPut(bio, xs[..i], data, table)
    {
      PutNext(bio, xs[..i], xs[i], data, table);
      assert xs[..i + 1] == xs[..i] + [xs[i]];
      i := i + 1;
    }
    assert xs[..|xs|] == xs;
  }

  /** The state of the loop when the items `xs` have been put, into `data` units and `table` entries. */
  ghost predicate HasPut(bio: Bio, xs: seq<Item>, data: nat, table: nat)
    reads bio, bio.mem
  {
    && bio.Valid()
    && (bio.overflow <==> !RoomFor(xs, data, table))
    && (!bio.overflow ==>
          && bio.pos == Total(xs) && bio.dataAvail == data - Total(xs) && bio.offsAvail == table - Refs(xs)
          && HoldsAll(bio.mem[..], bio.offs, 0, xs))
  }

  method PutNext(bio: Bio, ghost xs: seq<Item>, x: Item, ghost data: nat, ghost table: nat)
    requires bio.Writing() && IsText(x) && HasPut(bio, xs, data, table)
    modifies bio, bio.mem
    ensures bio.Writing() && HasPut(bio, xs + [x], data, table)
  {
    ghost var m, offs := bio.mem[..], bio.offs;
    PutItem(bio, x);
    TotalAppend(xs, x);
    RefsAppend(xs, x);
    if !bio.overflow { HoldsAppend(m, bio.mem[..], offs, bio.offs, 0, xs, x); }
  }

  datatype Kind = AnU32 | AString | ARef

  function KindOf(x: Item): Kind {
    match x
    case U32(_) => AnU32
    case Str(_) => AString
    case NoStr => AString
    case Ref(_) => ARef
  }

  /** The call that reads an item of a kind; a string that is not all there reads as missing. */
  method GetItem(bio: Bio, kind: Kind, ghost x: Item) returns (y: Item)
    requires bio.Valid() && bio.offsAvail == |bio.offs| && kind == KindOf(x)
    requires Size(x) <= bio.dataAvail < 0x1_0000_0000 && Holds(bio.mem[..], bio.offs, bio.pos, x)
    modifies bio`pos, bio`dataAvail, bio`overflow
    ensures bio.Valid() && bio.dataAvail <= old(bio.dataAvail)
    ensures Faithful(x) ==> && y == x && bio.overflow == old(bio.overflow)
                            && bio.pos == old(bio.pos) + Size(x) && bio.dataAvail == old(bio.dataAvail) - Size(x)
    ensures !Faithful(x) ==> bio.overflow
  {
    match kind
    case AnU32 =>
      var n := bio.GetUint32();
      y := U32(n);
    case ARef =>
      var h := bio.GetRef();
      y := Ref(h);
    case AString =>
      var len, str := bio.GetString16();
      y := if str.Nil? then NoStr else Str(str.units[..len]);
  }

  /** Reading what a buffer holds. */
  method GetAll(bio: Bio, kinds: seq<Kind>, ghost xs: seq<Item>) returns (ys: seq<Item>)
    requires bio.Valid() && bio.offsAvail == |bio.offs| && !bio.overflow
    requires |kinds| == |xs| && forall i :: 0 <= i < |xs| ==> kinds[i] == KindOf(xs[i])
    requires Total(xs) == bio.dataAvail < 0x1_0000_0000
    requires bio.pos + Total(xs) <= bio.mem.Length && HoldsAll(bio.mem[..], bio.offs, bio.pos, xs)
    modifies bio`pos, bio`dataAvail, bio`overflow
    ensures AllFaithful(xs) ==> ys == xs && bio.dataAvail == 0 && !bio.overflow
    ensures !AllFaithful(xs) ==> bio.overflow
    decreases xs
  {
    if |kinds| == 0 { return []; }
    var y := GetItem(bio, kinds[0], xs[0]);
    if bio.overflow { return [y]; }
    var rest := GetAll(bio, kinds[1..], xs[1..]);
    ys := [y] + rest;
  }

  /** The kernel carries the bytes up to `data` and the offsets up to `offs`. */
  lemma {:induction false} HoldsAllSent(m: seq<half>, offs: seq<nat>, at: nat, xs: seq<Item>)
    requires at + Total(xs) <= |m| && HoldsAll(m, offs, at, xs)
    ensures HoldsAll(m[..at + Total(xs)], offs, at, xs)
    decreases xs
  {
    if xs != [] { HoldsAllPrefix(m, m[..at + Total(xs)], offs, at, xs); }
  }

  lemma {:induction false} HoldsAllPrefix(m: seq<half>, m': seq<half>, offs: seq<nat>, at: nat, xs: seq<Item>)
    requires at + Total(xs) <= |m'| && m' <= m && HoldsAll(m, offs, at, xs)
    ensures HoldsAll(m', offs, at, xs)
    decreases xs
  {
    if xs != [] {
      var x := xs[0];
      if x.Str? && |x.s| < MAX_UNITS {
        assert m'[at + 2..at + 2 + |x.s|] == m[at + 2..at + 2 + |x.s|];
      }
      HoldsAllPrefix(m, m', offs, at + Size(x), xs[1..]);
    }
  }

  /**
   * A message through the kernel.  It can be sent exactly when the buffer has room for it, and then
   * the receiver, reading the same kinds, gets the same values, uses up the data and never
   * overflows, if and only if every string is present and shorter than MAX_BIO_SIZE and every
   * handle is nonzero.
   */
  method Transfer(xs: seq<Item>, maxData: nat, maxOffs: nat) returns (sent: bool, ys: seq<Item>, overflow: bool,
                  left: nat)
    requires AllText(xs) && maxData < 0x1_0000_0000 && 8 * maxOffs <= maxData
    ensures sent <==> RoomFor(xs, (maxData - 8 * maxOffs) / 2, maxOffs)
    ensures sent && AllFaithful(xs) ==> ys == xs && !overflow && left == 0
    ensures sent && !AllFaithful(xs) ==> overflow
  {
    var out := new Bio(maxData, maxOffs);
    PutAll(out, xs);
    if out.overflow { return false, [], false, 0; }
    sent := true;
    HoldsAllSent(out.mem[..], out.offs, 0, xs);
    var received := new Bio.FromTxn(out.mem[..out.pos], out.offs);
    assert out.mem[..out.pos] == out.mem[..][..0 + Total(xs)];
    var kinds := seq(|xs|, i requires 0 <= i < |xs| => KindOf(xs[i]));
    ys := GetAll(received, kinds, xs);
    overflow, left := received.overflow, received.dataAvail;
  }
}
