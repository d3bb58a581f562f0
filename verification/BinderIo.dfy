/**
 * The `binder_io` marshaller of the service manager.
 *
 * Everything put into a `binder_io` takes a multiple of four bytes and is made of 16-bit units,
 * so memory, positions and sizes are counted in 16-bit units here.  The table of object offsets
 * is a sequence.  A handle is a 32-bit number.
 */
module BinderIo {

  type half = h: int | 0 <= h < 0x1_0000
  type word = w: int | 0 <= w < 0x1_0000_0000

  /** MAX_BIO_SIZE / sizeof(uint16_t) */
  const MAX_UNITS: nat := 0x2000_0000
  /** The length that marks a missing string. */
  const NO_STRING: word := 0xffff_ffff
  /** sizeof(struct flat_binder_object) */
  const OBJ: nat := 12
  const BINDER_TYPE_HANDLE: word := 0x7368_2a85
  const OBJ_FLAGS: word := 0x17f

  function Low(w: word): half { w % 0x1_0000 }

  function High(w: word): half { w / 0x1_0000 }

  function Word(m: seq<half>, at: nat): word
    requires at + 2 <= |m|
  {
    (m[at] as int) + (m[at + 1] as int) * 0x1_0000
  }

  /** `(2 * n + 3) & ~3` bytes, in units. */
  function Even(n: nat): (r: nat)
    ensures n <= r <= n + 1 && r % 2 == 0
  {
    n + n % 2
  }

  // ---------------------------------------------------------------- items and their layout

  datatype Item = U32(n: word) | Str(s: seq<half>) | NoStr | Ref(handle: word)

  /** A C string: it holds no NUL. */
  ghost predicate IsText(x: Item) {
    x.Str? ==> 0 !in x.s
  }

  /** What comes back as it was put. */
  predicate Faithful(x: Item) {
    match x
    case U32(_) => true
    case Str(s) => |s| < MAX_UNITS
    case NoStr => false
    case Ref(h) => h != 0
  }

  function Size(x: Item): nat {
    match x
    case U32(_) => 2
    case Str(s) => if |s| < MAX_UNITS then 2 + Even(|s| + 1) else 2
    case NoStr => 2
    case Ref(_) => OBJ
  }

  /** Memory `m` and offset table `offs` hold item `x` at `at`. */
  ghost predicate Holds(m: seq<half>, offs: seq<nat>, at: nat, x: Item)
    requires at + Size(x) <= |m|
  {
    match x
    case U32(n) => Word(m, at) == n
    case Str(s) =>
      if |s| < MAX_UNITS then Word(m, at) == |s| && m[at + 2..at + 2 + |s|] == s && m[at + 2 + |s|] == 0
      else Word(m, at) == NO_STRING
    case NoStr => Word(m, at) == NO_STRING
    case Ref(h) =>
      && Word(m, at) == BINDER_TYPE_HANDLE && Word(m, at + 2) == OBJ_FLAGS && Word(m, at + 4) == h
      && Word(m, at + 8) == 0 && Word(m, at + 10) == 0 && (at in offs <==> h != 0)
  }

  function Total(xs: seq<Item>): nat {
    if xs == [] then 0 else Size(xs[0]) + Total(xs[1..])
  }

  ghost predicate HoldsAll(m: seq<half>, offs: seq<nat>, at: nat, xs: seq<Item>)
    requires at + Total(xs) <= |m|
    decreases xs
  {
    xs == [] || (Holds(m, offs, at, xs[0]) && HoldsAll(m, offs, at + Size(xs[0]), xs[1..]))
  }

  lemma {:induction false} TotalAppend(xs: seq<Item>, x: Item)
    ensures Total(xs + [x]) == Total(xs) + Size(x)
  {
    if xs != [] {
      assert (xs + [x])[1..] == xs[1..] + [x];
      TotalAppend(xs[1..], x);
    }
  }

  /** One more item, stored after all the others and without disturbing them. */
  lemma {:induction false} HoldsAppend(m: seq<half>, m': seq<half>, offs: seq<nat>, offs': seq<nat>, at: nat,
                                       xs: seq<Item>, x: Item)
    requires at + Total(xs) + Size(x) <= |m| == |m'| && HoldsAll(m, offs, at, xs)
    requires forall i :: 0 <= i < at + Total(xs) ==> m'[i] == m[i]
    requires forall o :: o < at + Total(xs) ==> (o in offs' <==> o in offs)
    requires Holds(m', offs', at + Total(xs), x)
    ensures at + Total(xs + [x]) <= |m'| && HoldsAll(m', offs', at, xs + [x])
    decreases xs
  {
    TotalAppend(xs, x);
    if xs == [] {
      assert (xs + [x])[1..] == [];
    } else {
      assert (xs + [x])[1..] == xs[1..] + [x];
      Undisturbed(m, m', offs, offs', at, xs[0]);
      HoldsAppend(m, m', offs, offs', at + Size(xs[0]), xs[1..], x);
    }
  }

  lemma Undisturbed(m: seq<half>, m': seq<half>, offs: seq<nat>, offs': seq<nat>, at: nat, x: Item)
    requires at + Size(x) <= |m| == |m'| && Holds(m, offs, at, x)
    requires forall i :: at <= i < at + Size(x) ==> m'[i] == m[i]
    requires at in offs' <==> at in offs
    ensures Holds(m', offs', at, x)
  {
    if x.Str? && |x.s| < MAX_UNITS {
      assert m'[at + 2..at + 2 + |x.s|] == m[at + 2..at + 2 + |x.s|];
    }
  }

  /** A `uint16_t *`: NULL, or the units from there on. */
  datatype CString = Nil | At(units: seq<half>)

  function UpToNul(units: seq<half>): (r: seq<half>)
    requires 0 in units
    ensures 0 !in r && |r| < |units|
  {
    if units[0] == 0 then [] else [units[0]] + UpToNul(units[1..])
  }

  function TextOf(str: CString): Item
    requires str.At? ==> 0 in str.units
  {
    match str
    case Nil => NoStr
    case At(units) => Str(UpToNul(units))
  }

  // ---------------------------------------------------------------- binder_io

  class Bio {
    const mem: array<half>
    /** `data - data0`. */
    var pos: nat
    var dataAvail: nat
    /** The offsets between `offs0` and `offs` when writing, all of them when reading. */
    var offs: seq<nat>
    var offsAvail: nat
    /** BIO_F_OVERFLOW */
    var overflow: bool
    /** BIO_F_SHARED */
    var shared: bool

    ghost predicate Valid()
      reads this
    {
      pos + dataAvail <= mem.Length
    }

    /** While writing, every recorded offset lies in what has been written. */
    ghost predicate Writing()
      reads this
    {
      Valid() && forall o :: o in offs ==> o < pos
    }

    /** `bio_init`, with sizes in bytes: the offset table comes out of the same buffer. */
    constructor (maxData: nat, maxOffs: nat)
      ensures Writing() && fresh(mem) && pos == 0 && offs == [] && !shared
      ensures overflow <==> maxOffs * 8 > maxData
      ensures dataAvail == (if overflow then 0 else (maxData - maxOffs * 8) / 2)
      ensures offsAvail == (if overflow then 0 else maxOffs)
    {
      var n := maxOffs * 8;
      overflow := n > maxData;
      var room := if n > maxData then 0 else (maxData - n) / 2;
      mem := new half[room](_ => 0);
      pos, dataAvail, offs, shared := 0, room, [], false;
      offsAvail := if n > maxData then 0 else maxOffs;
    }

    /** `bio_init_from_txn`: what the kernel delivers. */
    constructor FromTxn(data: seq<half>, offsets: seq<nat>)
      ensures Valid() && fresh(mem) && mem[..] == data && pos == 0 && dataAvail == |data|
      ensures offs == offsets && offsAvail == |offsets| && !overflow && shared
    {
      mem := new half[|data|](i requires 0 <= i < |data| => data[i]);
      pos, dataAvail, offs, offsAvail, overflow, shared := 0, |data|, offsets, |offsets|, false, true;
    }

    // -------------------------------------------------------------- writing

    /** `bio_alloc`; -1 stands for NULL. */
    method Alloc(size: nat) returns (ptr: int)
      requires Valid()
      modifies this`pos, this`dataAvail, this`overflow
      ensures if Even(size) > old(dataAvail)
              then ptr == -1 && overflow && pos == old(pos) && dataAvail == old(dataAvail)
              else ptr == old(pos) && overflow == old(overflow) && pos == old(pos) + Even(size)
                   && dataAvail == old(dataAvail) - Even(size)
    {
      var n := Even(size);
      if n > dataAvail {
        overflow := true;
        return -1;
      }
      ptr := pos;
      pos := pos + n;
      dataAvail := dataAvail - n;
    }

    /** Writes one 32-bit word. */
    method Store(at: nat, w: word)
      requires at + 2 <= mem.Length
      modifies mem
      ensures Word(mem[..], at) == w
      ensures forall i :: 0 <= i < mem.Length && i != at && i != at + 1 ==> mem[i] == old(mem[i])
    {
      mem[at] := Low(w);
      mem[at + 1] := High(w);
    }

    /** There is room for `x`. */
    predicate Fits(x: Item)
      reads this
    {
      Size(x) <= dataAvail && (x.Ref? && x.handle != 0 ==> offsAvail > 0)
    }

    /** What putting `x` brings about. */
    twostate predicate Put(x: Item)
      reads this, mem
    {
      && Writing()
      && (forall i :: 0 <= i < mem.Length && i < old(pos) ==> mem[i] == old(mem[i]))
      && overflow == (old(overflow) || !old(Fits(x)))
      && (old(Fits(x)) ==>
            && pos == old(pos) + Size(x) && dataAvail == old(dataAvail) - Size(x)
            && offs == old(offs) + (if x.Ref? && x.handle != 0 then [old(pos)] else [])
            && offsAvail + |offs| == old(offsAvail + |offs|)
            && Holds(mem[..], offs, old(pos), x))
    }

    /** `bio_put_uint32`. */
    method PutUint32(n: word)
      requires Writing()
      modifies this`pos, this`dataAvail, this`overflow, mem
      ensures Put(U32(n))
      ensures !old(Fits(U32(n))) ==> pos == old(pos) && dataAvail == old(dataAvail)
    {
      var ptr := Alloc(2);
      if ptr != -1 { Store(ptr, n); }
    }

    /** `bio_alloc_obj`: an object also needs an entry in the offset table. */
    method AllocObj() returns (ptr: int)
      requires Writing()
      modifies this`pos, this`dataAvail, this`overflow, this`offs, this`offsAvail
      ensures Writing()
      ensures if OBJ <= old(dataAvail) && old(offsAvail) > 0
              then && ptr == old(pos) && pos == old(pos) + OBJ && dataAvail == old(dataAvail) - OBJ
                   && offs == old(offs) + [old(pos)] && offsAvail == old(offsAvail) - 1 && overflow == old(overflow)
              else ptr == -1 && overflow
    {
      ptr := Alloc(OBJ);
      if ptr != -1 && offsAvail > 0 {
        offsAvail := offsAvail - 1;
        offs := offs + [ptr];
        return;
      }
      overflow := true;
      ptr := -1;
    }

    /** `bio_put_ref`: a zero handle gets no entry in the offset table. */
    method PutRef(handle: word)
      requires Writing()
      modifies this`pos, this`dataAvail, this`overflow, this`offs, this`offsAvail, mem
      ensures Put(Ref(handle))
    {
      var ptr;
      if handle != 0 {
        ptr := AllocObj();
      } else {
        ptr := Alloc(OBJ);
      }
      if ptr == -1 { return; }
      Store(ptr + 2, OBJ_FLAGS);
      Store(ptr, BINDER_TYPE_HANDLE);
      Store(ptr + 4, handle);
      Store(ptr + 8, 0);
      Store(ptr + 10, 0);
    }

    /** `while (str[len]) len++`. */
    static method Strlen(units: seq<half>) returns (len: nat)
      requires 0 in units
      ensures len <= |units| && UpToNul(units) == units[..len]
    {
      len := 0;
      while units[len] != 0
        invariant 0 <= len < |units| && 0 in units[len..]
        invariant UpToNul(units) == units[..len] + UpToNul(units[len..])
        decreases |units| - len
      {
        assert units[len..][1..] == units[len + 1..];
        assert units[..len] + [units[len]] == units[..len + 1];
        len := len + 1;
      }
    }

    /** `bio_put_string16`. */
    method PutString16(str: CString)
      requires Writing() && (str.At? ==> 0 in str.units)
      modifies this`pos, this`dataAvail, this`overflow, mem
      ensures Put(TextOf(str))
      ensures !old(Fits(TextOf(str))) ==> pos <= old(pos) + 2
    {
      if str.Nil? {
        PutUint32(NO_STRING);
        return;
      }
      var len := Strlen(str.units);
      if len >= MAX_UNITS {
        PutUint32(NO_STRING);
        return;
      }
      PutText(str.units[..len]);
    }

    /** The two allocations of `bio_put_string16`: the length, then the units with their NUL. */
    method PutText(text: seq<half>)
      requires Writing() && |text| < MAX_UNITS
      modifies this`pos, this`dataAvail, this`overflow, mem
      ensures Put(Str(text))
      ensures !old(Fits(Str(text))) ==> pos <= old(pos) + 2
    {
      PutUint32(|text|);
      var ptr := Alloc(|text| + 1);
      if ptr == -1 { return; }
      Copy(ptr, text + [0]);
      ghost var m := mem[..];
      assert m[ptr..ptr + |text|] == m[ptr..ptr + |text| + 1][..|text|] == text;
      assert m[ptr + |text|] == m[ptr..ptr + |text| + 1][|text|] == 0;
    }

    /** `memcpy`. */
    method Copy(at: nat, units: seq<half>)
      requires at + |units| <= mem.Length
      modifies mem
      ensures mem[..][at..at + |units|] == units
      ensures forall i :: 0 <= i < mem.Length && !(at <= i < at + |units|) ==> mem[i] == old(mem[i])
    {
      var i := 0;
      while i < |units|
        invariant 0 <= i <= |units|
        invariant forall j :: 0 <= j < i ==> mem[at + j] == units[j]
        invariant forall j :: 0 <= j < mem.Length && !(at <= j < at + i) ==> mem[j] == old(mem[j])
      {
        mem[at + i] := units[i];
        i := i + 1;
      }
    }

    // -------------------------------------------------------------- reading

    /** `bio_get`: on failure nothing more can be read. */
    method Get(size: nat) returns (ptr: int)
      requires Valid()
      modifies this`pos, this`dataAvail, this`overflow
      ensures Valid()
      ensures if old(dataAvail) < Even(size)
              then ptr == -1 && overflow && dataAvail == 0 && pos == old(pos)
              else ptr == old(pos) && overflow == old(overflow) && pos == old(pos) + Even(size)
                   && dataAvail == old(dataAvail) - Even(size)
    {
      var n := Even(size);
      if dataAvail < n {
        dataAvail := 0;
        overflow := true;
        return -1;
      }
      ptr := pos;
      pos := pos + n;
      dataAvail := dataAvail - n;
    }

    /** `bio_get_uint32`. */
    method GetUint32() returns (n: word)
      requires Valid()
      modifies this`pos, this`dataAvail, this`overflow
      ensures Valid()
      ensures if old(dataAvail) < 2
              then n == 0 && overflow && dataAvail == 0 && pos == old(pos)
              else n == Word(mem[..], old(pos)) && overflow == old(overflow) && pos == old(pos) + 2
                   && dataAvail == old(dataAvail) - 2
    {
      var ptr := Get(2);
      n := if ptr == -1 then 0 else Word(mem[..], ptr);
    }

    /** `bio_get_string16`: the length as read, and the units unless they are not all there. */
    method GetString16() returns (len: word, str: CString)
      requires Valid()
      modifies this`pos, this`dataAvail, this`overflow
      ensures Valid()
      ensures old(dataAvail) >= 2 ==> len == Word(mem[..], old(pos))
      ensures if old(dataAvail) >= 2 && 2 + Even(len + 1) <= old(dataAvail)
              then && str == At(mem[..][old(pos) + 2..old(pos) + 2 + len + 1]) && overflow == old(overflow)
                   && pos == old(pos) + 2 + Even(len + 1) && dataAvail == old(dataAvail) - 2 - Even(len + 1)
              else str == Nil && overflow && dataAvail == 0
    {
      len := GetUint32();
      var ptr := Get(len + 1);
      str := if ptr == -1 then Nil else At(mem[..][ptr..ptr + len + 1]);
    }

    /** `_bio_get_obj`: an object can only be read where the offset table says that one is. */
    method GetObj() returns (ptr: int)
      requires Valid() && offsAvail == |offs|
      modifies this`pos, this`dataAvail, this`overflow
      ensures Valid()
      ensures if old(pos) in offs && OBJ <= old(dataAvail)
              then ptr == old(pos) && overflow == old(overflow)
                   && pos == old(pos) + OBJ && dataAvail == old(dataAvail) - OBJ
              else ptr == -1 && overflow && dataAvail == 0 && pos == old(pos)
    {
      var n := 0;
      while n < offsAvail
        invariant 0 <= n <= offsAvail && pos == old(pos) && dataAvail == old(dataAvail) && overflow == old(overflow)
        invariant forall i :: 0 <= i < n ==> offs[i] != pos
      {
        if offs[n] == pos {
          ptr := Get(OBJ);
          return;
        }
        n := n + 1;
      }
      dataAvail := 0;
      overflow := true;
      ptr := -1;
    }

    /** `bio_get_ref`. */
    method GetRef() returns (handle: word)
      requires Valid() && offsAvail == |offs|
      modifies this`pos, this`dataAvail, this`overflow
      ensures Valid()
      ensures if old(pos) in offs && OBJ <= old(dataAvail)
              then && handle == (if Word(mem[..], old(pos)) == BINDER_TYPE_HANDLE
                                           then Word(mem[..], old(pos) + 4) else 0)
                   && overflow == old(overflow) && pos == old(pos) + OBJ && dataAvail == old(dataAvail) - OBJ
              else handle == 0 && overflow && dataAvail == 0 && pos == old(pos)
    {
      var obj := GetObj();
      if obj == -1 { return 0; }
      handle := if Word(mem[..], obj) == BINDER_TYPE_HANDLE then Word(mem[..], obj + 4) else 0;
    }
  }
}
