/** `backup_data`: a directory tree written to a stream, record by record. */
module RawBackup {
  import opened Wrappers
  import opened RawBytes
  import opened RawFormat
  import opened RawTree
  import opened RawPaths

  /** How many bytes call number `call` of `fread` gives of the `n` that are asked for. */
  function Fetched(short: map<nat, nat>, call: nat, n: nat, left: nat): (k: nat)
    ensures k <= n && k <= left
  {
    var most := if n <= left then n else left;
    if call in short && short[call] < most then short[call] else most
  }

  /** A `FILE *` open for reading. */
  class Reader {
    const data: seq<byte>
    var pos: nat
    /** How often it has been read from. */
    var calls: nat
    /** The reads that come up short before the end of the file, and how much they give. */
    const short: map<nat, nat>

    ghost predicate Valid()
      reads this
    {
      pos <= |data|
    }

    /** From here on, reads come up short only at the end of the file. */
    ghost predicate Steady()
      reads this
    {
      Valid() && forall c :: c in short ==> c < calls
    }

    /** What has not been read yet. */
    function Left(): seq<byte>
      requires pos <= |data|
      reads this
    {
      data[pos..]
    }

    constructor (data: seq<byte>, short: map<nat, nat>)
      ensures this.data == data && this.short == short && pos == 0 && calls == 0 && Valid()
    {
      this.data := data;
      this.short := short;
      pos, calls := 0, 0;
    }

    method Fread(n: nat) returns (b: seq<byte>)
      requires Valid()
      modifies this
      ensures Valid() && calls == old(calls) + 1
      ensures |b| == Fetched(short, old(calls), n, |old(Left())|)
      ensures b == old(Left())[..|b|] && Left() == old(Left())[|b|..]
    {
      var k := Fetched(short, calls, n, |data| - pos);
      b := data[pos..pos + k];
      pos := pos + k;
      calls := calls + 1;
    }
  }

  /** A `FILE *` open for writing.  What is written goes to a buffer first, and may get lost on its way
      to the file. */
  class Writer {
    /** What has been written. */
    var out: seq<byte>
    /** Whether a write may fail. */
    const faulty: bool
    /** How much of it reaches the file in the end, if not all. */
    const reach: Option<nat>

    constructor (faulty: bool, reach: Option<nat>)
      ensures out == [] && this.faulty == faulty && this.reach == reach
    {
      this.faulty := faulty;
      this.reach := reach;
      out := [];
    }

    /** Whether a call on the tree that is being saved works. */
    method Works() returns (ok: bool)
      ensures !faulty ==> ok
    {
      ok := *;
      ok := ok || !faulty;
    }

    /** `fflush` and `fsync`: success means that all has reached the file. */
    method Flush() returns (ok: bool)
      ensures ok <==> Reached(reach, out) == out
    {
      ok := reach.None? || reach.value >= |out|;
    }

    /** `fclose`: what the file then holds.  The caller that does not look at the result of the call
        does not learn whether that is all. */
    method Close() returns (content: seq<byte>)
      ensures content == Reached(reach, out)
    {
      content := if reach.Some? && reach.value < |out| then out[..reach.value] else out;
    }

    method Fwrite(b: seq<byte>) returns (ok: bool)
      modifies this
      ensures old(out) <= out && (ok ==> out == old(out) + b) && (!faulty ==> ok)
    {
      var n: int := *;
      n := if faulty && 0 <= n < |b| then n else |b|;
      out := out + b[..n];
      ok := n == |b|;
    }

    /** `write_int32` */
    method WriteInt32(v: int) returns (ok: bool)
      modifies this
      ensures old(out) <= out && (ok ==> out == old(out) + Int32(v)) && (!faulty ==> ok)
    {
      ok := Fwrite(Int32(v));
    }

    /** `write_int64` */
    method WriteInt64(v: int) returns (ok: bool)
      modifies this
      ensures old(out) <= out && (ok ==> out == old(out) + Int64(v)) && (!faulty ==> ok)
    {
      ok := Fwrite(Int64(v));
    }

    /** `write_header` */
    method WriteHeader(kind: int, path: Text, m: Meta) returns (ok: bool)
      modifies this
      ensures !faulty ==> ok
      ensures ok ==> out == old(out) + (Int32(kind) + (Int32(|path|) + (path + EncodeMeta(m))))
    {
      ghost var o := out;
      ok := WriteInt32(kind);
      if !ok { return; }
      ok := WriteInt32(|path|);
      if !ok { return; }
      ok := Fwrite(path);
      if !ok { return; }
      ok := WriteMeta(m);
      InOrder4(o, Int32(kind), Int32(|path|), path, EncodeMeta(m));
    }

    method WriteMeta(m: Meta) returns (ok: bool)
      modifies this
      ensures !faulty ==> ok
      ensures ok ==> out == old(out) + EncodeMeta(m)
    {
      ghost var o := out;
      ok := WriteInt32(m.uid);
      if !ok { return; }
      ok := WriteInt32(m.gid);
      if !ok { return; }
      ok := WriteInt32(m.mode);
      if !ok { return; }
      ok := WriteInt64(m.atime * NANO);
      if !ok { return; }
      ok := WriteInt64(m.mtime * NANO);
      if !ok { return; }
      ok := WriteInt64(m.ctime * NANO);
      InOrderMeta(o, m);
    }
  }

  /** What reaches a file of what is written to it. */
  function Reached(reach: Option<nat>, out: seq<byte>): (content: seq<byte>)
    ensures content <= out && (content == out <==> !(reach.Some? && reach.value < |out|))
  {
    if reach.Some? && reach.value < |out| then out[..reach.value] else out
  }

  /** Pieces written one after another. */
  lemma InOrder4(o: seq<byte>, a: seq<byte>, b: seq<byte>, c: seq<byte>, d: seq<byte>)
    ensures o + a + b + c + d == o + (a + (b + (c + d)))
  {
  }

  lemma InOrderMeta(o: seq<byte>, m: Meta)
    ensures o + Int32(m.uid) + Int32(m.gid) + Int32(m.mode) +
              Int64(m.atime * NANO) + Int64(m.mtime * NANO) + Int64(m.ctime * NANO)
         == o + EncodeMeta(m)
  {
    var a, b, c := Int64(m.atime * NANO), Int64(m.mtime * NANO), Int64(m.ctime * NANO);
    InOrder4(o + Int32(m.uid) + Int32(m.gid), Int32(m.mode), a, b, c);
    InOrder4(o, Int32(m.uid), Int32(m.gid), [], Int32(m.mode) + (a + (b + c)));
  }

  lemma InOrder6(o: seq<byte>, a: seq<byte>, b: seq<byte>, c: seq<byte>, d: seq<byte>, e: seq<byte>, f: seq<byte>)
    ensures o + (a + (b + (c + d))) + e + f == o + (a + (b + (c + (d + (e + f)))))
  {
  }

  lemma CopyStep(from: seq<byte>, k: nat, n: nat)
    requires k + n <= |from|
    ensures from[..k] + from[k..][..n] == from[..k + n] && from[k..][n..] == from[k + n..]
  {
  }

  const COPY_BUFFER: nat := 8192

  /** Reads a piece and writes it; 0 if either fails. */
  method CopyPiece(dest: Writer, src: Reader, amt: nat) returns (n: nat)
    requires src.Valid() && amt > 0
    modifies dest, src
    ensures src.Valid() && (old(src.Steady()) ==> src.Steady())
    ensures !dest.faulty && old(src.Steady()) && old(src.Left()) != [] ==> n > 0
    ensures n <= amt && n <= |old(src.Left())|
    ensures n > 0 ==> dest.out == old(dest.out) + old(src.Left())[..n] && src.Left() == old(src.Left())[n..]
  {
    var b := src.Fread(amt);
    if |b| == 0 { return 0; }
    var wrote := dest.Fwrite(b);
    n := if wrote then |b| else 0;
  }

  /** `copy_file`: in pieces of the size of the buffer. */
  method CopyFile(dest: Writer, src: Reader, size: nat) returns (ok: bool)
    requires src.Valid()
    modifies dest, src
    ensures src.Valid() && (old(src.Steady()) ==> src.Steady())
    ensures !dest.faulty && old(src.Steady()) && size <= |old(src.Left())| ==> ok
    ensures ok ==> && size <= |old(src.Left())| && dest.out == old(dest.out) + old(src.Left())[..size]
                   && src.Left() == old(src.Left())[size..]
  {
    ghost var from, out, k := src.Left(), dest.out, 0;
    var left := size;
    while left > 0
      invariant 0 <= left && 0 <= k <= |from| && k + left == size && src.Valid() && (old(src.Steady()) ==> src.Steady())
      invariant src.Left() == from[k..]
      invariant dest.out == out + from[..k]
    {
      var n := CopyPiece(dest, src, if left > COPY_BUFFER then COPY_BUFFER else left);
      if n == 0 { return false; }
      CopyStep(from, k, n);
      Associative(out, from[..k], from[k..][..n]);
      left := left - n;
      k := k + n;
    }
    ok := true;
  }

  /** The records of a directory without an end marker. */
  function EncodeBody(rs: seq<Record>): seq<byte> {
    if rs == [] then [] else EncodeRecord(rs[0]) + EncodeBody(rs[1..])
  }

  lemma {:induction false} EncodeBodyAppend(a: seq<Record>, b: seq<Record>)
    ensures EncodeBody(a + b) == EncodeBody(a) + EncodeBody(b)
  {
    if a == [] {
      assert a + b == b;
    } else {
      assert (a + b)[1..] == a[1..] + b;
      EncodeBodyAppend(a[1..], b);
      Associative(EncodeRecord(a[0]), EncodeBody(a[1..]), EncodeBody(b));
    }
  }

  lemma {:induction false} BodyThenEnd(rs: seq<Record>)
    ensures EncodeRecords(rs) == EncodeBody(rs) + Int32(TYPE_END)
  {
    if rs != [] {
      BodyThenEnd(rs[1..]);
      Associative(EncodeRecord(rs[0]), EncodeBody(rs[1..]), Int32(TYPE_END));
    }
  }

  lemma {:induction false} RecordsOfAppend(a: seq<RawTree.Item>, b: seq<RawTree.Item>)
    ensures RecordsOf(a + b) == RecordsOf(a) + RecordsOf(b)
  {
  }

  /** What `backup_dir` writes for some entries of directory `p`. */
  function Saved(all: bool, p: Path, kids: seq<Entry>): seq<byte> {
    EncodeBody(RecordsOf(Items(all, p, kids)))
  }

  function SavedEntry(all: bool, p: Path, e: Entry): seq<byte> {
    EncodeBody(RecordsOf(ItemsOf(all, p, e)))
  }

  lemma SavedStep(all: bool, p: Path, kids: seq<Entry>)
    requires kids != []
    ensures Saved(all, p, kids) == SavedEntry(all, p, kids[0]) + Saved(all, p, kids[1..])
  {
    var a, b := ItemsOf(all, p, kids[0]), Items(all, p, kids[1..]);
    RecordsOfAppend(a, b);
    EncodeBodyAppend(RecordsOf(a), RecordsOf(b));
  }

  lemma SavedDir(all: bool, p: Path, e: Entry)
    requires e.node.Dir? && !Skipped(all, p + [e.name])
    ensures var q := p + [e.name];
            SavedEntry(all, p, e) == EncodeRecord(DirRecord(Render(q), e.node.meta)) + Saved(all, q, e.node.kids)
  {
    var q := p + [e.name];
    var x := DirItem(q, e.node.meta);
    assert ([x] + Items(all, q, e.node.kids))[1..] == Items(all, q, e.node.kids);
  }

  lemma {:induction false} SavedFile(all: bool, p: Path, e: Entry)
    requires e.node.File? && !Skipped(all, p + [e.name])
    ensures SavedEntry(all, p, e) == EncodeRecord(FileRecord(Render(p + [e.name]), e.node.meta, e.node.content))
  {
    var r := FileRecord(Render(p + [e.name]), e.node.meta, e.node.content);
    assert RecordsOf(ItemsOf(all, p, e)) == [r];
    assert EncodeBody([r]) == EncodeRecord(r) + [];
  }

  /** `backup_dir`: the loop over the entries of the directory with path `p`. */
  method BackupDir(fh: Writer, all: bool, p: Path, kids: seq<Entry>) returns (ok: bool)
    modifies fh
    ensures !fh.faulty ==> ok
    ensures ok ==> fh.out == old(fh.out) + Saved(all, p, kids)
    decreases kids, 1
  {
    ghost var o := fh.out;
    var i := 0;
    ok := fh.Works();
    if !ok { return; }
    while i < |kids|
      invariant 0 <= i <= |kids| && ok
      invariant o + Saved(all, p, kids) == fh.out + Saved(all, p, kids[i..])
    {
      assert kids[i..][0] == kids[i] && kids[i..][1..] == kids[i + 1..];
      SavedStep(all, p, kids[i..]);
      Associative(fh.out, SavedEntry(all, p, kids[i]), Saved(all, p, kids[i + 1..]));
      ok := BackupEntry(fh, all, p, kids[i]);
      if !ok { return; }
      i := i + 1;
    }
    assert kids[i..] == [];
  }

  /** One turn of that loop. */
  method BackupEntry(fh: Writer, all: bool, p: Path, e: Entry) returns (ok: bool)
    modifies fh
    ensures !fh.faulty ==> ok
    ensures ok ==> fh.out == old(fh.out) + SavedEntry(all, p, e)
    decreases e, 0
  {
    ghost var o := fh.out;
    var q := p + [e.name];
    if Skipped(all, q) { return true; }
    ok := fh.Works();
    if !ok || e.node.Special? { return; }
    if e.node.Dir? {
      ok := fh.WriteHeader(TYPE_DIR, Render(q), e.node.meta);
      if !ok { return; }
      ghost var mid := fh.out;
      ok := BackupDir(fh, all, q, e.node.kids);
      SavedDir(all, p, e);
      Associative(o, EncodeRecord(DirRecord(Render(q), e.node.meta)), Saved(all, q, e.node.kids));
    } else {
      ok := BackupFile(fh, Render(q), e.node.meta, e.node.content);
      SavedFile(all, p, e);
    }
  }

  method BackupFile(fh: Writer, path: Text, m: Meta, content: seq<byte>) returns (ok: bool)
    modifies fh
    ensures !fh.faulty ==> ok
    ensures ok ==> fh.out == old(fh.out) + EncodeRecord(FileRecord(path, m, content))
  {
    ghost var o := fh.out;
    ok := fh.WriteHeader(TYPE_FILE, path, m);
    if !ok { return; }
    ok := fh.WriteInt64(|content|);
    if !ok { return; }
    ok := fh.Works();
    if !ok { return; }
    var short: map<nat, nat> := *;
    if !fh.faulty { short := map[]; }
    var src := new Reader(content, short);
    ok := CopyFile(fh, src, |content|);
    assert content[0..][..|content|] == content;
    InOrder6(o, Int32(TYPE_FILE), Int32(|path|), path, EncodeMeta(m), Int64(|content|), content);
  }

  /** `backup_data`: success means that the stream is the encoding of all that is to be saved. */
  method BackupData(all: bool, data: seq<Entry>, faulty: bool, reach: Option<nat>) returns (ok: bool, stream: seq<byte>)
    ensures !faulty && reach.None? ==> ok
    ensures ok ==> stream == EncodeStream(if all then 1 else 0, RecordsOf(Items(all, [DATA], data)))
    ensures ok ==> IsBackup(all, data, stream)
  {
    var fh := new Writer(faulty, reach);
    stream := [];
    ok := fh.WriteInt32(FILE_VERSION_2);
    if !ok { return; }
    ok := fh.WriteInt32(if all then 1 else 0);
    if !ok { return; }
    ok := BackupDir(fh, all, [DATA], data);
    if !ok { return; }
    ok := fh.WriteInt32(TYPE_END);
    ghost var rs := RecordsOf(Items(all, [DATA], data));
    BodyThenEnd(rs);
    Assembled(Int32(FILE_VERSION_2), Int32(if all then 1 else 0), EncodeBody(rs), Int32(TYPE_END));
    EncodedIsBackup(all, data);
    var flushed := fh.Flush();
    ok := ok && flushed;
    if ok { stream := fh.Close(); }
  }

  lemma Assembled(version: seq<byte>, flag: seq<byte>, body: seq<byte>, end: seq<byte>)
    ensures [] + version + flag + body + end == version + (flag + (body + end))
  {
  }
}
