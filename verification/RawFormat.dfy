/**
 * The format of a rawbu backup: what `write_header` and `backup_dir` write and what `read_header`
 * and `restore_data` accept.
 */
module RawFormat {
  import opened Wrappers
  import opened RawBytes

  const FILE_VERSION_1: nat := 0xffff_0001
  const FILE_VERSION_2: nat := 0xffff_0002
  const TYPE_END: int := 0
  const TYPE_DIR: int := 1
  const TYPE_FILE: int := 2
  /** Nanoseconds in a second. */
  const NANO: nat := 1000 * 1000 * 1000
  const PERMISSIONS: nat := 0x1ff

  type Text = seq<byte>

  /** What `lstat` says, as far as it is saved; times in seconds. */
  datatype Meta = Meta(uid: nat, gid: nat, mode: nat, atime: int, mtime: int, ctime: int)

  datatype Record = DirRecord(path: Text, meta: Meta) | FileRecord(path: Text, meta: Meta, content: seq<byte>)

  /** The fields are in the range that the format can carry. */
  ghost predicate InRange(r: Record) {
    && 0 < |r.path| < TWO31
    && r.meta.uid < TWO32 - 1 && r.meta.gid < TWO32 - 1 && r.meta.mode < TWO32 - 1
    && TimeOk(r.meta.atime) && TimeOk(r.meta.mtime) && TimeOk(r.meta.ctime)
    && (r.FileRecord? ==> |r.content| < TWO63)
  }

  predicate TimeOk(t: int) {
    0 <= t && t * NANO < TWO63
  }

  /** What restoring sets: only the permission bits of the mode. */
  function Masked(m: Meta): Meta {
    m.(mode := m.mode % (PERMISSIONS + 1))
  }

  function MaskedRecord(r: Record): Record {
    match r
    case DirRecord(p, m) => DirRecord(p, Masked(m))
    case FileRecord(p, m, c) => FileRecord(p, Masked(m), c)
  }

  // ---------------------------------------------------------------- writing

  /** The fields that `write_header` writes after the path. */
  function EncodeMeta(m: Meta): seq<byte> {
    Int32(m.uid) + (Int32(m.gid) + (Int32(m.mode) +
      (Int64(m.atime * NANO) + (Int64(m.mtime * NANO) + Int64(m.ctime * NANO)))))
  }

  function EncodeRecord(r: Record): seq<byte> {
    match r
    case DirRecord(p, m) => Int32(TYPE_DIR) + (Int32(|p|) + (p + EncodeMeta(m)))
    case FileRecord(p, m, c) => Int32(TYPE_FILE) + (Int32(|p|) + (p + (EncodeMeta(m) + (Int64(|c|) + c))))
  }

  function EncodeRecords(rs: seq<Record>): seq<byte> {
    if rs == [] then Int32(TYPE_END) else EncodeRecord(rs[0]) + EncodeRecords(rs[1..])
  }

  function EncodeStream(all: int, rs: seq<Record>): seq<byte> {
    Int32(FILE_VERSION_2) + (Int32(all) + EncodeRecords(rs))
  }

  // ---------------------------------------------------------------- reading

  datatype Parsed<T> = Bad | Got(value: T, rest: seq<byte>)

  function Take(s: seq<byte>, n: nat): Parsed<seq<byte>> {
    if |s| < n then Bad else Got(s[..n], s[n..])
  }

  /** A 32-bit field that must not read as -1, which stands for a failed read. */
  function TakeId(s: seq<byte>): Parsed<nat> {
    match Take(s, 4)
    case Bad => Bad
    case Got(b, rest) => if ReadU32(b) == TWO32 - 1 then Bad else Got(ReadU32(b), rest)
  }

  function TakeTime(s: seq<byte>): Parsed<int> {
    match Take(s, 8)
    case Bad => Bad
    case Got(b, rest) => if Read64(b) < 0 then Bad else Got(Read64(b) / 1000 / 1000 / 1000, rest)
  }

  function TakeMeta(s: seq<byte>): Parsed<Meta> {
    match TakeId(s) case Bad => Bad case Got(uid, s1) =>
    match TakeId(s1) case Bad => Bad case Got(gid, s2) =>
    match TakeId(s2) case Bad => Bad case Got(mode, s3) =>
    match TakeTime(s3) case Bad => Bad case Got(atime, s4) =>
    match TakeTime(s4) case Bad => Bad case Got(mtime, s5) =>
    match TakeTime(s5) case Bad => Bad case Got(ctime, s6) =>
    Got(Masked(Meta(uid, gid, mode, atime, mtime, ctime)), s6)
  }

  datatype Header = End | Header(kind: int, path: Text, meta: Meta)

  /** `read_header`. */
  function TakeHeader(s: seq<byte>): Parsed<Header> {
    match Take(s, 4) case Bad => Bad case Got(k, s1) =>
    var kind := Read32(k);
    if kind == TYPE_END then Got(End, s1) else if kind < 0 then Bad else TakeNode(kind, s1)
  }

  /** The rest of a header that is not the end marker. */
  function TakeNode(kind: int, s: seq<byte>): Parsed<Header> {
    match TakePath(s) case Bad => Bad case Got(path, s1) =>
    match TakeMeta(s1) case Bad => Bad case Got(meta, s2) =>
    Got(Header(kind, path, meta), s2)
  }

  function TakePath(s: seq<byte>): Parsed<Text> {
    match Take(s, 4) case Bad => Bad case Got(l, s1) =>
    if Read32(l) <= 0 then Bad else Take(s1, Read32(l))
  }

  /** The size of a file and its bytes. */
  function TakeContent(s: seq<byte>): Parsed<seq<byte>> {
    match Take(s, 8) case Bad => Bad case Got(z, s1) =>
    if Read64(z) < 0 then Bad else Take(s1, Read64(z))
  }

  /** One turn of the loop in `restore_data`: a record, or the end marker. */
  function TakeRecord(s: seq<byte>): Parsed<Option<Record>> {
    match TakeHeader(s) case Bad => Bad case Got(h, s1) =>
    match h
    case End => Got(None, s1)
    case Header(kind, path, meta) =>
      if kind == TYPE_DIR then Got(Some(DirRecord(path, meta)), s1)
      else if kind == TYPE_FILE then
        match TakeContent(s1) case Bad => Bad case Got(content, s2) =>
        Got(Some(FileRecord(path, meta, content)), s2)
      else Bad
  }

  lemma TakeRecordShrinks(s: seq<byte>)
    ensures TakeRecord(s).Got? ==> |TakeRecord(s).rest| < |s|
  {
  }

  /** Records up to the end marker. */
  function TakeRecords(s: seq<byte>): Parsed<seq<Record>>
    decreases |s|
  {
    TakeRecordShrinks(s);
    match TakeRecord(s)
    case Bad => Bad
    case Got(None, rest) => Got([], rest)
    case Got(Some(r), rest) =>
      match TakeRecords(rest)
      case Bad => Bad
      case Got(rs, rest') => Got([r] + rs, rest')
  }

  /** What a whole stream means to `restore_data`: the flag, and the records. */
  datatype Contents = Contents(all: bool, records: seq<Record>)

  /** The version word; a short read counts as version 0. */
  function VersionOf(s: seq<byte>): nat {
    if |s| < 4 then 0 else ReadU32(s[..4])
  }

  function Accepted(s: seq<byte>): bool {
    FILE_VERSION_1 <= VersionOf(s) <= FILE_VERSION_2
  }

  /** Whether everything is to be replaced: only version 2 says so, and a short read says no. */
  function FlagOf(s: seq<byte>): bool
    requires |s| >= 4
  {
    VersionOf(s) == FILE_VERSION_2 && |s| >= 8 && Read32(s[4..8]) != 0
  }

  /** Where the records start: a short read of the flag uses up what there was. */
  function BodyOf(s: seq<byte>): seq<byte>
    requires |s| >= 4
  {
    if VersionOf(s) != FILE_VERSION_2 then s[4..] else if |s| < 8 then [] else s[8..]
  }

  function TakeStream(s: seq<byte>): Parsed<Contents> {
    if |s| < 4 || !Accepted(s) then Bad
    else
      match TakeRecords(BodyOf(s))
      case Bad => Bad
      case Got(rs, rest) => Got(Contents(FlagOf(s), rs), rest)
  }

  // ---------------------------------------------------------------- the round trip

  lemma TakeFront(a: seq<byte>, t: seq<byte>)
    ensures Take(a + t, |a|) == Got(a, t)
  {
  }

  lemma TakeIdFront(v: nat, t: seq<byte>)
    requires v < TWO32 - 1
    ensures TakeId(Int32(v) + t) == Got(v, t)
  {
    TakeFront(Int32(v), t);
    U32RoundTrip(v);
  }

  lemma TakeTimeFront(sec: int, t: seq<byte>)
    requires TimeOk(sec)
    ensures TakeTime(Int64(sec * NANO) + t) == Got(sec, t)
  {
    TakeFront(Int64(sec * NANO), t);
    Int64RoundTrip(sec * NANO);
    Seconds(sec);
  }

  lemma Seconds(sec: int)
    ensures sec * NANO / 1000 / 1000 / 1000 == sec
  {
    assert sec * NANO == sec * 1000 * 1000 * 1000;
    assert sec * 1000 * 1000 * 1000 / 1000 == sec * 1000 * 1000;
    assert sec * 1000 * 1000 / 1000 == sec * 1000;
  }

  lemma TakeMetaFront(m: Meta, t: seq<byte>)
    requires m.uid < TWO32 - 1 && m.gid < TWO32 - 1 && m.mode < TWO32 - 1
    requires TimeOk(m.atime) && TimeOk(m.mtime) && TimeOk(m.ctime)
    ensures TakeMeta(EncodeMeta(m) + t) == Got(Masked(m), t)
  {
    var a, b, c := Int64(m.atime * NANO), Int64(m.mtime * NANO), Int64(m.ctime * NANO);
    var t5 := c + t;
    var t4 := b + t5;
    var t3 := a + t4;
    var t2 := Int32(m.mode) + t3;
    var t1 := Int32(m.gid) + t2;
    assert EncodeMeta(m) + t == Int32(m.uid) + t1;
    TakeIdFront(m.uid, t1);
    TakeIdFront(m.gid, t2);
    TakeIdFront(m.mode, t3);
    TakeTimeFront(m.atime, t4);
    TakeTimeFront(m.mtime, t5);
    TakeTimeFront(m.ctime, t);
  }

  lemma TakeHeaderFront(kind: int, path: Text, m: Meta, t: seq<byte>)
    requires 0 < kind < TWO31 && 0 < |path| < TWO31
    requires m.uid < TWO32 - 1 && m.gid < TWO32 - 1 && m.mode < TWO32 - 1
    requires TimeOk(m.atime) && TimeOk(m.mtime) && TimeOk(m.ctime)
    ensures TakeHeader(Int32(kind) + (Int32(|path|) + (path + (EncodeMeta(m) + t)))) ==
              Got(Header(kind, path, Masked(m)), t)
  {
    var t3 := EncodeMeta(m) + t;
    var t2 := path + t3;
    var t1 := Int32(|path|) + t2;
    TakeFront(Int32(kind), t1);
    TakeFront(Int32(|path|), t2);
    TakeFront(path, t3);
    Int32RoundTrip(kind);
    Int32RoundTrip(|path|);
    TakeMetaFront(m, t);
  }

  /** A record written comes back with its mode masked, and leaves what follows. */
  lemma TakeRecordFront(r: Record, t: seq<byte>)
    requires InRange(r)
    ensures TakeRecord(EncodeRecord(r) + t) == Got(Some(MaskedRecord(r)), t)
  {
    match r
    case DirRecord(p, m) =>
      assert EncodeRecord(r) + t == Int32(TYPE_DIR) + (Int32(|p|) + (p + (EncodeMeta(m) + t)));
      TakeHeaderFront(TYPE_DIR, p, m, t);
    case FileRecord(p, m, c) =>
      TakeFileFront(p, m, c, t);
  }

  lemma TakeFileFront(p: Text, m: Meta, c: seq<byte>, t: seq<byte>)
    requires InRange(FileRecord(p, m, c))
    ensures TakeRecord(EncodeRecord(FileRecord(p, m, c)) + t) == Got(Some(MaskedRecord(FileRecord(p, m, c))), t)
  {
    var t2 := c + t;
    var t1 := Int64(|c|) + t2;
    FileLayout(p, m, c, t, t1);
    TakeHeaderFront(TYPE_FILE, p, m, t1);
    TakeContentFront(c, t);
  }

  lemma TakeContentFront(c: seq<byte>, t: seq<byte>)
    requires |c| < TWO63
    ensures TakeContent(Int64(|c|) + (c + t)) == Got(c, t)
  {
    TakeFront(Int64(|c|), c + t);
    Int64RoundTrip(|c|);
    TakeFront(c, t);
  }

  lemma FileLayout(p: Text, m: Meta, c: seq<byte>, t: seq<byte>, t1: seq<byte>)
    requires InRange(FileRecord(p, m, c)) && t1 == Int64(|c|) + (c + t)
    ensures EncodeRecord(FileRecord(p, m, c)) + t == Int32(TYPE_FILE) + (Int32(|p|) + (p + (EncodeMeta(m) + t1)))
  {
  }

  function MaskedAll(rs: seq<Record>): (r: seq<Record>)
    ensures |r| == |rs| && forall i :: 0 <= i < |rs| ==> r[i] == MaskedRecord(rs[i])
  {
    if rs == [] then [] else [MaskedRecord(rs[0])] + MaskedAll(rs[1..])
  }

  ghost predicate AllInRange(rs: seq<Record>) {
    forall i :: 0 <= i < |rs| ==> InRange(rs[i])
  }

  lemma TakeEndFront(t: seq<byte>)
    ensures TakeRecord(Int32(TYPE_END) + t) == Got(None, t)
  {
    TakeFront(Int32(TYPE_END), t);
    Int32RoundTrip(TYPE_END);
  }

  lemma {:induction false} TakeRecordsStep(s: seq<byte>, r: Record, rest: seq<byte>)
    requires TakeRecord(s) == Got(Some(r), rest) && TakeRecords(rest).Got?
    ensures TakeRecords(s) == Got([r] + TakeRecords(rest).value, TakeRecords(rest).rest)
  {
  }

  lemma {:induction false} TakeRecordsEnd(s: seq<byte>, t: seq<byte>)
    requires TakeRecord(s) == Got(None, t)
    ensures TakeRecords(s) == Got([], t)
  {
  }

  lemma Associative(a: seq<byte>, b: seq<byte>, c: seq<byte>)
    ensures (a + b) + c == a + (b + c)
  {
  }

  lemma {:induction false} TakeRecordsFront(rs: seq<Record>, t: seq<byte>)
    requires AllInRange(rs)
    ensures TakeRecords(EncodeRecords(rs) + t) == Got(MaskedAll(rs), t)
  {
    if rs == [] {
      TakeEndFront(t);
      TakeRecordsEnd(Int32(TYPE_END) + t, t);
    } else {
      var head, tail := EncodeRecord(rs[0]), EncodeRecords(rs[1..]);
      TakeRecordsFront(rs[1..], t);
      TakeRecordFront(rs[0], tail + t);
      TakeRecordsStep(head + (tail + t), MaskedRecord(rs[0]), tail + t);
      Associative(head, tail, t);
    }
  }

  /** A whole backup is read back as it was written, with nothing left over. */
  lemma {:induction false} StreamRoundTrip(all: int, rs: seq<Record>)
    requires AllInRange(rs) && -TWO31 <= all < TWO31
    ensures TakeStream(EncodeStream(all, rs)) == Got(Contents(all != 0, MaskedAll(rs)), [])
  {
    var body := EncodeRecords(rs);
    var s := EncodeStream(all, rs);
    U32RoundTrip(FILE_VERSION_2);
    Int32RoundTrip(all);
    assert s[..4] == Int32(FILE_VERSION_2) && s[4..8] == Int32(all) && s[8..] == body;
    TakeRecordsFront(rs, []);
    assert body + [] == body;
  }

  // ---------------------------------------------------------------- truncation

  lemma TakeMore(s: seq<byte>, n: nat, t: seq<byte>)
    requires Take(s, n).Got?
    ensures Take(s + t, n) == Got(Take(s, n).value, Take(s, n).rest + t)
  {
    assert (s + t)[..n] == s[..n] && (s + t)[n..] == s[n..] + t;
  }

  lemma TakeIdMore(s: seq<byte>, t: seq<byte>)
    requires TakeId(s).Got?
    ensures TakeId(s + t) == Got(TakeId(s).value, TakeId(s).rest + t)
  {
    TakeMore(s, 4, t);
  }

  lemma TakeTimeMore(s: seq<byte>, t: seq<byte>)
    requires TakeTime(s).Got?
    ensures TakeTime(s + t) == Got(TakeTime(s).value, TakeTime(s).rest + t)
  {
    TakeMore(s, 8, t);
  }

  lemma TakeMetaMore(s: seq<byte>, t: seq<byte>)
    requires TakeMeta(s).Got?
    ensures TakeMeta(s + t) == Got(TakeMeta(s).value, TakeMeta(s).rest + t)
  {
    TakeIdMore(s, t);
    var s1 := TakeId(s).rest;
    TakeIdMore(s1, t);
    var s2 := TakeId(s1).rest;
    TakeIdMore(s2, t);
    var s3 := TakeId(s2).rest;
    TakeTimeMore(s3, t);
    var s4 := TakeTime(s3).rest;
    TakeTimeMore(s4, t);
    TakeTimeMore(TakeTime(s4).rest, t);
  }

  lemma TakeHeaderMore(s: seq<byte>, t: seq<byte>)
    requires TakeHeader(s).Got?
    ensures TakeHeader(s + t) == Got(TakeHeader(s).value, TakeHeader(s).rest + t)
  {
    TakeMore(s, 4, t);
    var s1 := Take(s, 4).rest;
    if Read32(Take(s, 4).value) != TYPE_END {
      TakeMore(s1, 4, t);
      var s2, len := Take(s1, 4).rest, Read32(Take(s1, 4).value);
      TakeMore(s2, len, t);
      TakeMetaMore(Take(s2, len).rest, t);
    }
  }

  lemma TakeRecordMore(s: seq<byte>, t: seq<byte>)
    requires TakeRecord(s).Got?
    ensures TakeRecord(s + t) == Got(TakeRecord(s).value, TakeRecord(s).rest + t)
  {
    TakeHeaderMore(s, t);
    var h, s1 := TakeHeader(s).value, TakeHeader(s).rest;
    if h.Header? && h.kind == TYPE_FILE { TakeContentMore(s1, t); }
  }

  lemma TakeContentMore(s: seq<byte>, t: seq<byte>)
    requires TakeContent(s).Got?
    ensures TakeContent(s + t) == Got(TakeContent(s).value, TakeContent(s).rest + t)
  {
    TakeMore(s, 8, t);
    TakeMore(Take(s, 8).rest, Read64(Take(s, 8).value), t);
  }

  /** Bytes after the end marker make no difference. */
  lemma {:induction false} TakeRecordsMore(s: seq<byte>, t: seq<byte>)
    requires TakeRecords(s).Got?
    ensures TakeRecords(s + t) == Got(TakeRecords(s).value, TakeRecords(s).rest + t)
    decreases |s|
  {
    TakeRecordShrinks(s);
    TakeRecordMore(s, t);
    if TakeRecord(s).value.Some? { TakeRecordsMore(TakeRecord(s).rest, t); }
  }

  lemma {:induction false} BodyTruncated(rs: seq<Record>, n: nat)
    requires AllInRange(rs) && n < |EncodeRecords(rs)|
    ensures TakeRecords(EncodeRecords(rs)[..n]) == Bad
  {
    var body := EncodeRecords(rs);
    assert body == body[..n] + body[n..] && body == body + [];
    TakeRecordsFront(rs, []);
    if TakeRecords(body[..n]).Got? { TakeRecordsMore(body[..n], body[n..]); }
  }

  /** The start of a cut stream: its version, and what is left of the records. */
  lemma CutStream(flag: seq<byte>, body: seq<byte>, n: nat)
    requires |flag| == 4 && 4 <= n <= 8 + |body|
    ensures var s := (Int32(FILE_VERSION_2) + (flag + body))[..n];
            |s| >= 4 && VersionOf(s) == FILE_VERSION_2 && BodyOf(s) == body[..if n < 8 then 0 else n - 8]
  {
    var s := (Int32(FILE_VERSION_2) + (flag + body))[..n];
    U32RoundTrip(FILE_VERSION_2);
    assert s[..4] == Int32(FILE_VERSION_2);
    if n >= 8 { assert s[8..] == body[..n - 8]; }
  }

  /** Every strict prefix of a backup is rejected, wherever it is cut. */
  lemma TruncationRejected(all: int, rs: seq<Record>, n: nat)
    requires AllInRange(rs) && n < |EncodeStream(all, rs)|
    ensures TakeStream(EncodeStream(all, rs)[..n]) == Bad
  {
    if n >= 4 {
      CutStream(Int32(all), EncodeRecords(rs), n);
      BodyNotEmpty(rs);
      BodyTruncated(rs, if n < 8 then 0 else n - 8);
    }
  }

  lemma {:induction false} BodyNotEmpty(rs: seq<Record>)
    ensures |EncodeRecords(rs)| > 0
  {
    if rs != [] { assert |EncodeRecord(rs[0])| >= 4; }
  }
}
