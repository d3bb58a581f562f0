/** The bytes of a backup: where each field is, and what it looks like. */
module RawLayout {
  import opened RawBytes
  import opened RawFormat

  function Four(a: int, b: int, c: int, d: int): int {
    a + 0x100 * b + 0x1_0000 * c + 0x100_0000 * d
  }

  /** The two's complement of `v` in four bytes, lowest byte first. */
  ghost predicate Is32(b: seq<byte>, v: int) {
    |b| == 4 && Four(b[0], b[1], b[2], b[3]) == v % 0x1_0000_0000
  }

  /** In eight bytes. */
  ghost predicate Is64(b: seq<byte>, v: int) {
    && |b| == 8
    && Four(b[0], b[1], b[2], b[3]) + 0x1_0000_0000 * Four(b[4], b[5], b[6], b[7]) == v % 0x1_0000_0000_0000_0000
  }

  lemma {:induction false} ValueFirst(b: seq<byte>)
    requires |b| >= 1
    ensures Value(b) == b[0] + 256 * Value(b[1..])
  {
  }

  lemma {:induction false} ValueFour(b: seq<byte>)
    requires |b| >= 4
    ensures Value(b) == Four(b[0], b[1], b[2], b[3]) + 0x1_0000_0000 * Value(b[4..])
  {
    var b1, b2, b3, b4 := b[1..], b[2..], b[3..], b[4..];
    assert b1[1..] == b2 && b2[1..] == b3 && b3[1..] == b4;
    ValueFirst(b);
    ValueFirst(b1);
    ValueFirst(b2);
    ValueFirst(b3);
  }

  lemma {:induction false} Int32Is(v: int)
    ensures Is32(Int32(v), v)
  {
    Powers();
    ValueOfLittle(Bits(v, TWO32), 4);
    ValueFour(Int32(v));
    assert Int32(v)[4..] == [];
  }

  lemma {:induction false} Int64Is(v: int)
    ensures Is64(Int64(v), v)
  {
    Powers();
    var b := Int64(v);
    ValueOfLittle(Bits(v, TWO64), 8);
    ValueFour(b);
    ValueFour(b[4..]);
    assert b[4..][4..] == [];
  }

  // ---------------------------------------------------------------- a record

  /** The status of a file or a directory; times are in nanoseconds. */
  ghost predicate IsMeta(b: seq<byte>, m: Meta) {
    && |b| == 36
    && Is32(b[0..4], m.uid) && Is32(b[4..8], m.gid) && Is32(b[8..12], m.mode)
    && Is64(b[12..20], m.atime * 1000000000) && Is64(b[20..28], m.mtime * 1000000000)
    && Is64(b[28..36], m.ctime * 1000000000)
  }

  /** 1 for a directory and 2 for a file, the length of the path, the path, the status, and for a file its
      size and its contents. */
  ghost predicate IsRecord(b: seq<byte>, r: Record) {
    var p := |r.path|;
    && |b| == 44 + p + (if r.FileRecord? then 8 + |r.content| else 0)
    && Is32(b[0..4], if r.DirRecord? then 1 else 2) && Is32(b[4..8], p) && b[8..8 + p] == r.path
    && IsMeta(b[8 + p..44 + p], r.meta)
    && (r.FileRecord? ==> Is64(b[44 + p..52 + p], |r.content|) && b[52 + p..] == r.content)
  }

  /** A piece in the middle. */
  lemma Piece(s: seq<byte>, a: seq<byte>, b: seq<byte>, c: seq<byte>)
    requires s == a + (b + c)
    ensures s[|a|..|a| + |b|] == b && s == (a + b) + c
  {
  }

  lemma {:induction false} MetaIs(m: Meta)
    ensures IsMeta(EncodeMeta(m), m)
  {
    var u, g, o := Int32(m.uid), Int32(m.gid), Int32(m.mode);
    var a, b, c := Int64(m.atime * NANO), Int64(m.mtime * NANO), Int64(m.ctime * NANO);
    Int32Is(m.uid);
    Int32Is(m.gid);
    Int32Is(m.mode);
    Int64Is(m.atime * NANO);
    Int64Is(m.mtime * NANO);
    Int64Is(m.ctime * NANO);
    MetaPieces(EncodeMeta(m), u, g, o, a, b, c);
  }

  lemma MetaPieces(s: seq<byte>, u: seq<byte>, g: seq<byte>, o: seq<byte>, a: seq<byte>, b: seq<byte>, c: seq<byte>)
    requires |u| == |g| == |o| == 4 && |a| == |b| == |c| == 8
    requires s == u + (g + (o + (a + (b + c))))
    ensures |s| == 36 && s[0..4] == u && s[4..8] == g && s[8..12] == o
    ensures s[12..20] == a && s[20..28] == b && s[28..36] == c
  {
    Piece(s, u, g, o + (a + (b + c)));
    Piece(s, u + g, o, a + (b + c));
    Piece(s, u + g + o, a, b + c);
    Piece(s, u + g + o + a, b, c);
  }

  lemma RecordPieces(s: seq<byte>, k: seq<byte>, l: seq<byte>, p: seq<byte>, m: seq<byte>, rest: seq<byte>)
    requires |k| == |l| == 4 && |m| == 36 && s == k + (l + (p + (m + rest)))
    ensures |s| == 44 + |p| + |rest| && s[0..4] == k && s[4..8] == l && s[8..8 + |p|] == p
    ensures s[8 + |p|..44 + |p|] == m && s[44 + |p|..] == rest
  {
    Piece(s, k, l, p + (m + rest));
    Piece(s, k + l, p, m + rest);
    Piece(s, k + l + p, m, rest);
  }

  lemma {:induction false} RecordIs(r: Record)
    ensures IsRecord(EncodeRecord(r), r)
  {
    var kind, p := if r.DirRecord? then 1 else 2, |r.path|;
    Int32Is(kind);
    Int32Is(p);
    MetaIs(r.meta);
    var s, m := EncodeRecord(r), EncodeMeta(r.meta);
    match r
    case DirRecord(_, _) =>
      assert m + [] == m;
      RecordPieces(s, Int32(kind), Int32(p), r.path, m, []);
    case FileRecord(_, _, c) =>
      var z := Int64(|c|);
      Int64Is(|c|);
      RecordPieces(s, Int32(kind), Int32(p), r.path, m, z + c);
      assert s[44 + p..][..8] == z && s[44 + p..][8..] == c;
      assert s[44 + p..52 + p] == s[44 + p..][..8] && s[52 + p..] == s[44 + p..][8..];
  }

  // ---------------------------------------------------------------- a stream

  /** The records one after another, and a zero word. */
  ghost predicate AreRecords(s: seq<byte>, rs: seq<Record>)
    decreases rs
  {
    if rs == [] then Is32(s, 0)
    else exists n :: 0 <= n <= |s| && IsRecord(s[..n], rs[0]) && AreRecords(s[n..], rs[1..])
  }

  /** The version, the flag, the records. */
  ghost predicate IsStream(s: seq<byte>, all: bool, rs: seq<Record>) {
    |s| >= 8 && Is32(s[0..4], 0xffff_0002) && Is32(s[4..8], if all then 1 else 0) && AreRecords(s[8..], rs)
  }

  lemma {:induction false} RecordsAre(rs: seq<Record>)
    ensures AreRecords(EncodeRecords(rs), rs)
    decreases rs
  {
    if rs == [] {
      Int32Is(0);
    } else {
      var e, rest := EncodeRecord(rs[0]), EncodeRecords(rs[1..]);
      var s := e + rest;
      RecordIs(rs[0]);
      RecordsAre(rs[1..]);
      assert s[..|e|] == e && s[|e|..] == rest;
    }
  }

  lemma StreamPieces(s: seq<byte>, v: seq<byte>, f: seq<byte>, body: seq<byte>)
    requires |v| == |f| == 4 && s == v + (f + body)
    ensures |s| >= 8 && s[0..4] == v && s[4..8] == f && s[8..] == body
  {
    Piece(s, v, f, body);
  }

  lemma {:induction false} StreamIs(all: bool, rs: seq<Record>)
    ensures IsStream(EncodeStream(if all then 1 else 0, rs), all, rs)
  {
    var flag := if all then 1 else 0;
    var v, f, body := Int32(FILE_VERSION_2), Int32(flag), EncodeRecords(rs);
    var s := EncodeStream(flag, rs);
    Int32Is(FILE_VERSION_2);
    Int32Is(flag);
    RecordsAre(rs);
    StreamPieces(s, v, f, body);
  }

  // ---------------------------------------------------------------- versions

  lemma {:induction false} VersionIs(s: seq<byte>, v: nat)
    requires |s| >= 4 && v < 0x1_0000_0000
    ensures VersionOf(s) == v <==> Is32(s[0..4], v)
  {
    var b := s[0..4];
    assert s[..4] == b;
    assert VersionOf(s) == ReadU32(b);
    OneWord(b, v);
  }

  lemma {:induction false} OneWord(b: seq<byte>, v: nat)
    requires |b| == 4 && v < 0x1_0000_0000
    ensures ReadU32(b) == v <==> Is32(b, v)
  {
    ValueFour(b);
    assert b[4..] == [];
    assert ReadU32(b) == Value(b) == Four(b[0], b[1], b[2], b[3]);
    assert v % 0x1_0000_0000 == v;
  }

  /** Only versions 1 and 2 are accepted. */
  lemma {:induction false} OnlyVersions(s: seq<byte>)
    requires |s| >= 4
    ensures TakeStream(s).Got? ==> Is32(s[0..4], 0xffff_0001) || Is32(s[0..4], 0xffff_0002)
  {
    VersionIs(s, 0xffff_0001);
    VersionIs(s, 0xffff_0002);
  }

  /** A stream of version 1 has no flag: it means the records, without the all option. */
  lemma {:induction false} OldStreamIs(s: seq<byte>, rs: seq<Record>)
    requires |s| >= 4 && Is32(s[0..4], 0xffff_0001) && s[4..] == EncodeRecords(rs) && AllInRange(rs)
    ensures TakeStream(s) == Got(Contents(false, MaskedAll(rs)), [])
  {
    VersionIs(s, 0xffff_0001);
    TakeRecordsFront(rs, []);
    assert EncodeRecords(rs) + [] == EncodeRecords(rs);
  }
}
