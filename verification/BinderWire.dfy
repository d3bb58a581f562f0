/**
 * What goes over the wire: the units that each item takes in memory, as a receiver built against the
 * kernel's headers expects them.  Words are little-endian, so their low half comes first.
 */
module BinderWire {
  import opened BinderIo
  import opened BinderRoundTrip

  /** The two units at `at` are the word `w`. */
  ghost predicate WordAt(m: seq<half>, at: nat, w: word) {
    at + 2 <= |m| && m[at] == w % 65536 && m[at + 1] == w / 65536
  }

  /**
   * The item lies between `at` and `end`: a word; a string's length, its characters, a NUL and padding to
   * a multiple of four bytes, or the word -1 if the string is missing or too long; or a
   * `flat_binder_object` of 24 bytes with its type, flags, handle and cookie, which is listed among the
   * objects if the handle is not 0.
   */
  ghost predicate OnWire(m: seq<half>, offs: seq<nat>, at: nat, end: nat, x: Item) {
    match x
    case U32(n) => end == at + 2 && WordAt(m, at, n)
    case Str(s) =>
      if |s| >= 0x2000_0000 then end == at + 2 && WordAt(m, at, 0xffff_ffff)
      else
        && at + 2 + |s| < end <= |m| && end <= at + 2 + |s| + 2 && (end - at) % 2 == 0
        && WordAt(m, at, |s|) && m[at + 2..at + 2 + |s|] == s && m[at + 2 + |s|] == 0
    case NoStr => end == at + 2 && WordAt(m, at, 0xffff_ffff)
    case Ref(h) =>
      && end == at + 12 <= |m| && WordAt(m, at, 0x7368_2a85) && WordAt(m, at + 2, 0x17f) && WordAt(m, at + 4, h)
      && WordAt(m, at + 8, 0) && WordAt(m, at + 10, 0) && (at in offs <==> h != 0)
  }

  /** The items lie one after another between `at` and `end`. */
  ghost predicate AllOnWire(m: seq<half>, offs: seq<nat>, at: nat, end: nat, xs: seq<Item>)
    decreases xs
  {
    if xs == [] then at == end
    else exists mid :: OnWire(m, offs, at, mid, xs[0]) && AllOnWire(m, offs, mid, end, xs[1..])
  }

  lemma WordIsAt(m: seq<half>, at: nat, w: word)
    requires at + 2 <= |m| && Word(m, at) == w
    ensures WordAt(m, at, w)
  {
  }

  lemma HeldIsOnWire(m: seq<half>, offs: seq<nat>, at: nat, x: Item)
    requires at + Size(x) <= |m| && Holds(m, offs, at, x)
    ensures OnWire(m, offs, at, at + Size(x), x)
  {
    match x
    case U32(n) => WordIsAt(m, at, n);
    case Str(s) => if |s| < MAX_UNITS { WordIsAt(m, at, |s|); } else { WordIsAt(m, at, 0xffff_ffff); }
    case NoStr => WordIsAt(m, at, 0xffff_ffff);
    case Ref(h) =>
      WordIsAt(m, at, 0x7368_2a85);
      WordIsAt(m, at + 4, h);
  }

  lemma {:induction false} AllHeldAreOnWire(m: seq<half>, offs: seq<nat>, at: nat, xs: seq<Item>)
    requires at + Total(xs) <= |m| && HoldsAll(m, offs, at, xs)
    ensures AllOnWire(m, offs, at, at + Total(xs), xs)
    decreases xs
  {
    if xs != [] {
      HeldIsOnWire(m, offs, at, xs[0]);
      AllHeldAreOnWire(m, offs, at + Size(xs[0]), xs[1..]);
    }
  }

  /** What is sent when a message fits its buffer. */
  method Send(xs: seq<Item>, maxData: nat, maxOffs: nat) returns (sent: bool, data: seq<half>, offs: seq<nat>)
    requires AllText(xs)
    ensures sent ==> AllOnWire(data, offs, 0, |data|, xs) && 2 * |data| + 8 * maxOffs <= maxData
    ensures sent <==> 8 * maxOffs <= maxData && RoomFor(xs, (maxData - 8 * maxOffs) / 2, maxOffs)
  {
    var out := new Bio(maxData, maxOffs);
    if out.overflow { return false, [], []; }
    PutAll(out, xs);
    sent := !out.overflow;
    data, offs := out.mem[..out.pos], out.offs;
    if sent {
      HoldsAllSent(out.mem[..], out.offs, 0, xs);
      assert data == out.mem[..][..0 + Total(xs)];
      AllHeldAreOnWire(data, offs, 0, xs);
    }
  }
}
