/** `restore_data`, and what a restored device looks like. */
module RawRestore {
  import opened Wrappers
  import opened RawBytes
  import opened RawFormat
  import opened RawTree
  import opened RawBackup
  import opened RawWipe

  // ---------------------------------------------------------------- one record

  function OwnerOf(m: Meta): Owner {
    Owner(m.uid, m.gid, m.mode)
  }

  function WithOwner(n: FsNode, o: Owner): FsNode {
    n.(owner := o)
  }

  function Attributed(n: FsNode, m: Meta): FsNode {
    match n
    case FileNode(_, _, _, c) => FileNode(OwnerOf(m), m.atime, m.mtime, c)
    case DirNode(_) => DirNode(OwnerOf(m))
    case OtherNode(_) => OtherNode(OwnerOf(m))
  }

  ghost predicate ParentOk(fs: Fs, p: Path) {
    |p| > 1 && p[..|p| - 1] in fs && fs[p[..|p| - 1]].DirNode?
  }

  /** What a record does when none of its calls fails for other reasons.  A directory record leaves
      what it finds at its path in place; a file record replaces a regular file, and nothing else. */
  ghost function Apply(fs: Fs, x: Item): Option<Fs> {
    if !ParentOk(fs, x.path) then None
    else
      match x
      case DirItem(p, m) => Some(fs[p := if p in fs then Attributed(fs[p], m) else DirNode(OwnerOf(m))])
      case FileItem(p, m, c) =>
        if p in fs && !fs[p].FileNode? then None
        else Some(fs[p := FileNode(OwnerOf(m), m.atime, m.mtime, c)])
  }

  ghost function ApplyAll(fs: Fs, xs: seq<Item>): Option<Fs> {
    if xs == [] then Some(fs)
    else
      match ApplyAll(fs, xs[..|xs| - 1])
      case None => None
      case Some(mid) => Apply(mid, xs[|xs| - 1])
  }

  /** The node that a record leaves, given what was there before the restore. */
  ghost predicate Shows(before: Fs, x: Item, fs: Fs) {
    && x.path in fs
    && match x
       case DirItem(p, m) =>
         && fs[p].owner == OwnerOf(m)
         && (fs[p].DirNode? <==> (p in before ==> before[p].DirNode?))
       case FileItem(p, m, c) => fs[p] == FileNode(OwnerOf(m), m.atime, m.mtime, c)
  }

  /** No item has path `q`. */
  ghost predicate Free(xs: seq<Item>, q: Path) {
    forall i :: 0 <= i < |xs| ==> xs[i].path != q
  }

  ghost predicate AllShow(before: Fs, xs: seq<Item>, fs: Fs) {
    forall i :: 0 <= i < |xs| ==> Shows(before, xs[i], fs)
  }

  /** The two agree where no item has its path. */
  ghost predicate SameElsewhere(xs: seq<Item>, a: Fs, b: Fs) {
    forall q :: Free(xs, q) ==> (q in a <==> q in b) && (q in a ==> b[q] == a[q])
  }

  /** After records with distinct paths, each shows, and nothing else has changed. */
  lemma {:induction false} ApplyAllShows(fs: Fs, xs: seq<Item>, fs': Fs)
    requires ApplyAll(fs, xs) == Some(fs') && DistinctPaths(xs)
    ensures AllShow(fs, xs, fs') && SameElsewhere(xs, fs, fs')
  {
    if xs != [] {
      var n := |xs| - 1;
      var before, x := xs[..n], xs[n];
      var mid := ApplyAll(fs, before).value;
      ApplyAllShows(fs, before, mid);
      assert xs == before + [x];
      ShowsOne(fs, before, mid, x, fs');
    }
  }

  /** One more record with a path of its own. */
  lemma ShowsOne(fs: Fs, before: seq<Item>, mid: Fs, x: Item, fs': Fs)
    requires AllShow(fs, before, mid) && SameElsewhere(before, fs, mid) && Free(before, x.path)
    requires Apply(mid, x) == Some(fs')
    ensures AllShow(fs, before + [x], fs') && SameElsewhere(before + [x], fs, fs')
  {
    var xs := before + [x];
    assert Shows(fs, x, fs');
    forall i | 0 <= i < |before|
      ensures Shows(fs, xs[i], fs')
    {
      assert xs[i] == before[i] && before[i].path != x.path;
    }
    forall q | Free(xs, q)
      ensures (q in fs <==> q in fs') && (q in fs ==> fs'[q] == fs[q])
    {
      assert xs[|before|] == x;
      assert forall i :: 0 <= i < |before| ==> xs[i] == before[i];
      assert Free(before, q);
    }
  }

  /** The item that a record stands for, once the kernel has resolved its path. */
  function ItemOf(r: Record): Item {
    match r
    case DirRecord(t, m) => DirItem(Resolve(t), m)
    case FileRecord(t, m, c) => FileItem(Resolve(t), m, c)
  }

  function ItemsFor(rs: seq<Record>): (xs: seq<Item>)
    ensures |xs| == |rs| && forall i :: 0 <= i < |rs| ==> xs[i] == ItemOf(rs[i])
  {
    if rs == [] then [] else [ItemOf(rs[0])] + ItemsFor(rs[1..])
  }

  // ---------------------------------------------------------------- what is lost on the way

  /** What reaches the disk of a file with contents `c`. */
  function OnDisk(short: map<Path, nat>, p: Path, c: seq<byte>): (r: seq<byte>)
    ensures r <= c && (r == c <==> !(p in short && short[p] < |c|))
  {
    Reached(if p in short then Some(short[p]) else None, c)
  }

  function Landed(short: map<Path, nat>, x: Item): Item {
    match x
    case DirItem(_, _) => x
    case FileItem(p, m, c) => FileItem(p, m, OnDisk(short, p, c))
  }

  function LandedAll(short: map<Path, nat>, xs: seq<Item>): (r: seq<Item>)
    ensures |r| == |xs| && forall i :: 0 <= i < |xs| ==> r[i] == Landed(short, xs[i])
  {
    if xs == [] then [] else [Landed(short, xs[0])] + LandedAll(short, xs[1..])
  }

  /**
   * A node that is neither a file nor a directory is at `p` or above it.  What is done at `p` may then
   * happen elsewhere, as with a symbolic link, or not at all.
   */
  predicate OnWay(fs: Fs, p: Path) {
    exists k :: 0 < k <= |p| && p[..k] in fs && fs[p[..k]].OtherNode?
  }

  ghost predicate Through(fs: Fs, xs: seq<Item>) {
    exists i :: 0 <= i < |xs| && OnWay(fs, xs[i].path)
  }

  /** Records make no such nodes. */
  lemma {:induction false} NoNewOther(fs: Fs, xs: seq<Item>, fs': Fs, q: Path)
    requires ApplyAll(fs, xs) == Some(fs') && q in fs' && fs'[q].OtherNode?
    ensures q in fs && fs[q].OtherNode?
  {
    if xs != [] { NoNewOther(fs, xs[..|xs| - 1], ApplyAll(fs, xs[..|xs| - 1]).value, q); }
  }

  lemma {:induction false} OnWayFromStart(fs: Fs, xs: seq<Item>, fs': Fs, p: Path)
    requires ApplyAll(fs, xs) == Some(fs') && OnWay(fs', p)
    ensures OnWay(fs, p)
  {
    var k :| 0 < k <= |p| && p[..k] in fs' && fs'[p[..k]].OtherNode?;
    NoNewOther(fs, xs, fs', p[..k]);
  }

  // ---------------------------------------------------------------- reading the stream

  /** `read_int32`. */
  method ReadInt32(fh: Reader, def: int) returns (v: int)
    requires fh.Valid()
    modifies fh
    ensures fh.Valid() && fh.calls == old(fh.calls) + 1
    ensures var k := Fetched(fh.short, old(fh.calls), 4, |old(fh.Left())|);
            fh.Left() == old(fh.Left())[k..] && v == if k < 4 then def else Read32(old(fh.Left())[..4])
  {
    var b := fh.Fread(4);
    v := if |b| < 4 then def else Read32(b);
  }

  /** `read_int64`. */
  method ReadInt64(fh: Reader, def: int) returns (v: int)
    requires fh.Valid()
    modifies fh
    ensures fh.Valid() && fh.calls == old(fh.calls) + 1
    ensures var k := Fetched(fh.short, old(fh.calls), 8, |old(fh.Left())|);
            fh.Left() == old(fh.Left())[k..] && v == if k < 8 then def else Read64(old(fh.Left())[..8])
  {
    var b := fh.Fread(8);
    v := if |b| < 8 then def else Read64(b);
  }

  /** A field that must not be -1. */
  method ReadId(fh: Reader) returns (ok: bool, v: nat)
    requires fh.Valid()
    modifies fh
    ensures fh.Valid() && (old(fh.Steady()) ==> fh.Steady())
    ensures ok ==> TakeId(old(fh.Left())) == Got(v, fh.Left())
    ensures !ok && old(fh.Steady()) ==> TakeId(old(fh.Left())) == Bad
  {
    var raw := ReadInt32(fh, -1);
    v := Bits(raw, TWO32);
    ok := v != TWO32 - 1;
  }

  method ReadTime(fh: Reader) returns (ok: bool, sec: int)
    requires fh.Valid()
    modifies fh
    ensures fh.Valid() && (old(fh.Steady()) ==> fh.Steady())
    ensures ok ==> TakeTime(old(fh.Left())) == Got(sec, fh.Left())
    ensures !ok && old(fh.Steady()) ==> TakeTime(old(fh.Left())) == Bad
  {
    var ltime := ReadInt64(fh, -1);
    ok, sec := ltime >= 0, ltime / 1000 / 1000 / 1000;
  }

  /** The fields of a header after its path. */
  method ReadMeta(fh: Reader) returns (ok: bool, m: Meta)
    requires fh.Valid()
    modifies fh
    ensures fh.Valid() && (old(fh.Steady()) ==> fh.Steady())
    ensures ok ==> TakeMeta(old(fh.Left())) == Got(m, fh.Left())
    ensures !ok && old(fh.Steady()) ==> TakeMeta(old(fh.Left())) == Bad
  {
    m := Meta(0, 0, 0, 0, 0, 0);
    var uid, gid, mode, atime, mtime, ctime;
    ok, uid := ReadId(fh);
    if !ok { return; }
    ok, gid := ReadId(fh);
    if !ok { return; }
    ok, mode := ReadId(fh);
    if !ok { return; }
    ok, atime := ReadTime(fh);
    if !ok { return; }
    ok, mtime := ReadTime(fh);
    if !ok { return; }
    ok, ctime := ReadTime(fh);
    m := Masked(Meta(uid, gid, mode, atime, mtime, ctime));
  }

  /** `read_header`. */
  method ReadHeader(fh: Reader) returns (ok: bool, h: Header)
    requires fh.Valid()
    modifies fh
    ensures fh.Valid() && (old(fh.Steady()) ==> fh.Steady())
    ensures ok ==> TakeHeader(old(fh.Left())) == Got(h, fh.Left())
    ensures !ok && old(fh.Steady()) ==> TakeHeader(old(fh.Left())) == Bad
  {
    h := End;
    var kind := ReadInt32(fh, -1);
    if kind == TYPE_END { return true, h; }
    if kind < 0 { return false, h; }
    ok, h := ReadNode(fh, kind);
  }

  /** The rest of a header that is not the end marker. */
  method ReadNode(fh: Reader, kind: int) returns (ok: bool, h: Header)
    requires fh.Valid()
    modifies fh
    ensures fh.Valid() && (old(fh.Steady()) ==> fh.Steady())
    ensures ok ==> TakeNode(kind, old(fh.Left())) == Got(h, fh.Left())
    ensures !ok && old(fh.Steady()) ==> TakeNode(kind, old(fh.Left())) == Bad
  {
    h := End;
    var path, m;
    ok, path := ReadPath(fh);
    if !ok { return; }
    ok, m := ReadMeta(fh);
    h := Header(kind, path, m);
  }

  method ReadPath(fh: Reader) returns (ok: bool, path: Text)
    requires fh.Valid()
    modifies fh
    ensures fh.Valid() && (old(fh.Steady()) ==> fh.Steady())
    ensures ok ==> TakePath(old(fh.Left())) == Got(path, fh.Left())
    ensures !ok && old(fh.Steady()) ==> TakePath(old(fh.Left())) == Bad
  {
    path := [];
    var len := ReadInt32(fh, -1);
    if len <= 0 { return false, path; }
    path := fh.Fread(len);
    ok := |path| == len;
  }

  // ---------------------------------------------------------------- restore_data

  /** `mkdir`, where EEXIST is no failure. */
  method MakeDir(dev: Device, p: Path, o: Owner) returns (ok: bool)
    modifies dev
    ensures !dev.faulty && ParentOk(old(dev.fs), p) ==> ok
    ensures ok ==> && ParentOk(old(dev.fs), p)
                   && dev.fs == if p in old(dev.fs) then old(dev.fs) else old(dev.fs)[p := DirNode(o)]
  {
    ok := dev.Works();
    ok := ok && |p| > 1 && p[..|p| - 1] in dev.fs && dev.fs[p[..|p| - 1]].DirNode?;
    if ok && p !in dev.fs { dev.fs := dev.fs[p := DirNode(o)]; }
  }

  /** `fopen` for writing, `copy_file`, and `fclose`, whose result is not looked at. */
  method WriteFile(dev: Device, p: Path, fh: Reader, size: nat) returns (ok: bool)
    requires fh.Valid()
    modifies dev, fh
    ensures fh.Valid() && (old(fh.Steady()) ==> fh.Steady())
    ensures !dev.faulty && old(fh.Steady()) && size <= |old(fh.Left())| && ParentOk(old(dev.fs), p) ==>
              (ok <==> (p in old(dev.fs) ==> old(dev.fs[p]).FileNode?))
    ensures ok ==> && ParentOk(old(dev.fs), p) && (p in old(dev.fs) ==> old(dev.fs[p]).FileNode?)
                   && size <= |old(fh.Left())| && fh.Left() == old(fh.Left())[size..]
                   && p in dev.fs && dev.fs[p].FileNode?
                   && dev.fs[p].content == OnDisk(dev.short, p, old(fh.Left())[..size])
                   && dev.fs == old(dev.fs)[p := dev.fs[p]]
  {
    ok := dev.Works();
    ok := ok && |p| > 1 && p[..|p| - 1] in dev.fs && dev.fs[p[..|p| - 1]].DirNode?
          && (p in dev.fs ==> dev.fs[p].FileNode?);
    if !ok { return; }
    var dest := new Writer(dev.faulty, if p in dev.short then Some(dev.short[p]) else None);
    ok := CopyFile(dest, fh, size);
    ghost var bytes := if size <= |old(fh.Left())| then old(fh.Left())[..size] else [];
    assert [] + bytes == bytes;
    var content := dest.Close();
    dev.fs := dev.fs[p := FileNode(Owner(0, 0, 0), 0, 0, content)];
  }

  /** `chmod`, `chown` and `utime`. */
  method SetAttributes(dev: Device, p: Path, m: Meta) returns (ok: bool)
    modifies dev
    ensures !dev.faulty && p in old(dev.fs) ==> ok
    ensures ok ==> && p in old(dev.fs)
                   && dev.fs == old(dev.fs)[p := Attributed(old(dev.fs)[p], m)]
  {
    ok := dev.Works();
    if !ok || p !in dev.fs { return false; }
    var n := dev.fs[p];
    dev.fs := dev.fs[p := WithOwner(n, Owner(n.owner.uid, n.owner.gid, m.mode))];
    ok := dev.Works();
    if !ok { return; }
    dev.fs := dev.fs[p := WithOwner(dev.fs[p], Owner(m.uid, m.gid, m.mode))];
    ok := dev.Works();
    if !ok { return; }
    if dev.fs[p].FileNode? { dev.fs := dev.fs[p := dev.fs[p].(atime := m.atime, mtime := m.mtime)]; }
  }

  method RestoreDir(dev: Device, p: Path, m: Meta) returns (ok: bool)
    modifies dev
    ensures !dev.faulty && Apply(old(dev.fs), DirItem(p, m)).Some? ==> ok
    ensures ok ==> Apply(old(dev.fs), DirItem(p, m)) == Some(dev.fs)
  {
    ghost var fs := dev.fs;
    ok := MakeDir(dev, p, OwnerOf(m));
    if !ok { return; }
    ok := SetAttributes(dev, p, m);
    if ok { assert dev.fs == fs[p := if p in fs then Attributed(fs[p], m) else DirNode(OwnerOf(m))]; }
  }

  method RestoreFile(dev: Device, p: Path, m: Meta, fh: Reader, size: nat) returns (ok: bool)
    requires fh.Valid()
    modifies dev, fh
    ensures fh.Valid() && (old(fh.Steady()) ==> fh.Steady())
    ensures !dev.faulty && old(fh.Steady()) && size <= |old(fh.Left())| ==>
              (Apply(old(dev.fs), FileItem(p, m, old(fh.Left())[..size])).Some? ==> ok)
    ensures ok ==> && size <= |old(fh.Left())| && fh.Left() == old(fh.Left())[size..]
                   && Apply(old(dev.fs), FileItem(p, m, OnDisk(dev.short, p, old(fh.Left())[..size]))) == Some(dev.fs)
  {
    ghost var fs, left := dev.fs, fh.Left();
    ok := WriteFile(dev, p, fh, size);
    if !ok { return; }
    ok := SetAttributes(dev, p, m);
    if ok { assert dev.fs == fs[p := FileNode(OwnerOf(m), m.atime, m.mtime, OnDisk(dev.short, p, left[..size]))]; }
  }

  /** There is no record, or there is one that cannot be applied, or whose outcome is open. */
  ghost predicate Unfit(fs: Fs, r: Parsed<Option<Record>>) {
    r.Bad? || (r.value.Some? && (var x := ItemOf(r.value.value); OnWay(fs, x.path) || Apply(fs, x).None?))
  }

  /** A file record whose path leads through something that is neither a file nor a directory: its
      bytes are read from the stream, and anything may have happened on the device. */
  method FileAstray(dev: Device, fh: Reader, size: nat) returns (ok: bool)
    requires fh.Valid()
    modifies dev, fh
    ensures fh.Valid() && (old(fh.Steady()) ==> fh.Steady())
    ensures ok ==> size <= |old(fh.Left())| && fh.Left() == old(fh.Left())[size..]
  {
    var dest := new Writer(true, None);
    ok := CopyFile(dest, fh, size);
    var worked := DirAstray(dev);
    ok := ok && worked;
  }

  method DirAstray(dev: Device) returns (ok: bool)
    modifies dev
  {
    var fs: Fs := *;
    dev.fs := fs;
    ok := *;
  }

  /** One turn of the loop in `restore_data`. */
  method RestoreRecord(dev: Device, fh: Reader) returns (ok: bool, ghost r: Option<Record>, end: bool)
    requires fh.Valid()
    modifies dev, fh
    ensures fh.Valid() && (old(fh.Steady()) ==> fh.Steady())
    ensures ok ==> TakeRecord(old(fh.Left())) == Got(r, fh.Left()) && end == r.None?
    ensures ok && end ==> dev.fs == old(dev.fs)
    ensures ok && !end ==>
              var x := ItemOf(r.value);
              OnWay(old(dev.fs), x.path) || Apply(old(dev.fs), Landed(dev.short, x)) == Some(dev.fs)
    ensures !dev.faulty && old(fh.Steady()) && !ok ==> Unfit(old(dev.fs), TakeRecord(old(fh.Left())))
  {
    r, end := None, false;
    var h;
    ok, h := ReadHeader(fh);
    if !ok { return; }
    if h.End? { return true, None, true; }
    if h.kind == TYPE_DIR {
      r := Some(DirRecord(h.path, h.meta));
      ok := DirTurn(dev, Resolve(h.path), h.meta);
    } else if h.kind == TYPE_FILE {
      ghost var content;
      ok, content := SizedFileTurn(dev, Resolve(h.path), h.meta, fh);
      r := Some(FileRecord(h.path, h.meta, content));
    } else {
      ok := false;
    }
  }

  /** What follows the header of a file. */
  method SizedFileTurn(dev: Device, p: Path, m: Meta, fh: Reader) returns (ok: bool, ghost content: seq<byte>)
    requires fh.Valid()
    modifies dev, fh
    ensures fh.Valid() && (old(fh.Steady()) ==> fh.Steady())
    ensures ok ==> TakeContent(old(fh.Left())) == Got(content, fh.Left())
    ensures ok ==> OnWay(old(dev.fs), p)
                   || Apply(old(dev.fs), FileItem(p, m, OnDisk(dev.short, p, content))) == Some(dev.fs)
    ensures !dev.faulty && old(fh.Steady()) && !ok && TakeContent(old(fh.Left())).Got? ==>
              OnWay(old(dev.fs), p) || Apply(old(dev.fs), FileItem(p, m, TakeContent(old(fh.Left())).value)).None?
  {
    content := [];
    var size := ReadInt64(fh, -1);
    if size < 0 { return false, content; }
    ghost var left := fh.Left();
    ok := FileTurn(dev, p, m, fh, size);
    if ok { content := left[..size]; }
  }

  method DirTurn(dev: Device, p: Path, m: Meta) returns (ok: bool)
    modifies dev
    ensures ok ==> OnWay(old(dev.fs), p) || Apply(old(dev.fs), DirItem(p, m)) == Some(dev.fs)
    ensures !dev.faulty && !ok ==> OnWay(old(dev.fs), p) || Apply(old(dev.fs), DirItem(p, m)).None?
  {
    if OnWay(dev.fs, p) {
      ok := DirAstray(dev);
    } else {
      ok := RestoreDir(dev, p, m);
    }
  }

  method FileTurn(dev: Device, p: Path, m: Meta, fh: Reader, size: nat) returns (ok: bool)
    requires fh.Valid()
    modifies dev, fh
    ensures fh.Valid() && (old(fh.Steady()) ==> fh.Steady())
    ensures ok ==> size <= |old(fh.Left())| && fh.Left() == old(fh.Left())[size..]
    ensures ok ==> OnWay(old(dev.fs), p)
                   || Apply(old(dev.fs), FileItem(p, m, OnDisk(dev.short, p, old(fh.Left())[..size]))) == Some(dev.fs)
    ensures !dev.faulty && old(fh.Steady()) && !ok && size <= |old(fh.Left())| ==>
              OnWay(old(dev.fs), p) || Apply(old(dev.fs), FileItem(p, m, old(fh.Left())[..size])).None?
  {
    if OnWay(dev.fs, p) {
      ok := FileAstray(dev, fh, size);
    } else {
      ok := RestoreFile(dev, p, m, fh, size);
    }
  }

  /** What has been read so far, and what follows, are the records of the whole. */
  ghost predicate Continues(body: seq<byte>, done: seq<Record>, left: seq<byte>) {
    match TakeRecords(left)
    case Bad => TakeRecords(body).Bad?
    case Got(rs, rest) => TakeRecords(body) == Got(done + rs, rest)
  }

  lemma ContinuesStep(body: seq<byte>, done: seq<Record>, left: seq<byte>, r: Record, left': seq<byte>)
    requires Continues(body, done, left) && TakeRecord(left) == Got(Some(r), left')
    ensures Continues(body, done + [r], left')
  {
    if TakeRecords(left').Got? {
      TakeRecordsStep(left, r, left');
      assert done + ([r] + TakeRecords(left').value) == done + [r] + TakeRecords(left').value;
    }
  }

  /** What the records read so far have done to `fs`. */
  ghost predicate Applied(fs: Fs, short: map<Path, nat>, rs: seq<Record>, fs': Fs) {
    Through(fs, ItemsFor(rs)) || ApplyAll(fs, LandedAll(short, ItemsFor(rs))) == Some(fs')
  }

  lemma AppliedOneMore(fs: Fs, short: map<Path, nat>, done: seq<Record>, r: Record, mid: Fs, fs': Fs)
    requires Applied(fs, short, done, mid)
    requires OnWay(mid, ItemOf(r).path) || Apply(mid, Landed(short, ItemOf(r))) == Some(fs')
    ensures Applied(fs, short, done + [r], fs')
  {
    var xs, ys, x := ItemsFor(done), ItemsFor(done + [r]), ItemOf(r);
    ItemsFront(done, [r]);
    assert ys[..|done| + 1] == ys == xs + [x];
    LandedFront(short, xs, x);
    if Through(fs, xs) {
      var i :| 0 <= i < |xs| && OnWay(fs, xs[i].path);
      assert ys[i] == xs[i];
    } else if OnWay(mid, x.path) {
      LandedOnWay(fs, short, xs, mid, x.path);
      assert ys[|xs|] == x;
    } else {
      ApplyStep(fs, LandedAll(short, xs), Landed(short, x), mid);
    }
  }

  lemma {:induction false} LandedOnWay(fs: Fs, short: map<Path, nat>, xs: seq<Item>, mid: Fs, p: Path)
    requires ApplyAll(fs, LandedAll(short, xs)) == Some(mid) && OnWay(mid, p)
    ensures OnWay(fs, p)
  {
    OnWayFromStart(fs, LandedAll(short, xs), mid, p);
  }

  lemma {:induction false} LandedFront(short: map<Path, nat>, xs: seq<Item>, x: Item)
    ensures LandedAll(short, xs + [x]) == LandedAll(short, xs) + [Landed(short, x)]
  {
    var a, b := LandedAll(short, xs + [x]), LandedAll(short, xs) + [Landed(short, x)];
    forall i | 0 <= i <= |xs|
      ensures a[i] == b[i]
    {
      assert a[i] == Landed(short, (xs + [x])[i]);
    }
  }

  /** The stream was read to its end marker, and `fs` is the wiped device with its records applied, as
      far as they reached the disk. */
  ghost predicate Succeeded(heard: Parsed<Contents>, stuck: set<Path>, short: map<Path, nat>,
                            before: Fs, wiped: Fs, fs: Fs) {
    && heard.Got?
    && Wiped(heard.value.all, stuck, before, [DATA], {}, wiped)
    && Applied(wiped, short, heard.value.records, fs)
  }

  /** The records cannot be read to their end marker, or not all of them can be applied, or the
      outcome is open. */
  ghost predicate CannotApply(fs: Fs, p: Parsed<seq<Record>>) {
    p.Bad? || Through(fs, ItemsFor(p.value)) || ApplyAll(fs, ItemsFor(p.value)).None?
  }

  /** The stream cannot be read to its end marker, or it cannot be applied to the wiped device. */
  ghost predicate Hopeless(heard: Parsed<Contents>, stuck: set<Path>, before: Fs, wiped: Fs) {
    heard.Got? ==>
      var xs := ItemsFor(heard.value.records);
      && Wiped(heard.value.all, stuck, before, [DATA], {}, wiped)
      && (Through(wiped, xs) || ApplyAll(wiped, xs).None?)
  }

  // ---------------------------------------------------------------- the flag

  /** The second read of the stream, that of the flag, gives all four bytes if they are there. */
  predicate FlagRead(gaps: map<nat, nat>) {
    !(1 in gaps && gaps[1] < 4)
  }

  /** The flag of a version 2 stream has not been read; 0 is taken for it. */
  predicate Unheard(stream: seq<byte>, gaps: map<nat, nat>)
    requires |stream| >= 4
  {
    VersionOf(stream) == FILE_VERSION_2 && !FlagRead(gaps)
  }

  function FlagHeard(stream: seq<byte>, gaps: map<nat, nat>): bool
    requires |stream| >= 4
  {
    if Unheard(stream, gaps) then false else FlagOf(stream)
  }

  /** No read but that of the flag comes up short. */
  predicate OnlyFlagShort(stream: seq<byte>, gaps: map<nat, nat>) {
    gaps == map[] || (gaps.Keys == {1} && (|stream| >= 4 ==> VersionOf(stream) == FILE_VERSION_2))
  }

  /** Where reading goes on: the bytes of the flag that were not read come first. */
  function BodyHeard(stream: seq<byte>, gaps: map<nat, nat>): seq<byte>
    requires |stream| >= 4
  {
    if Unheard(stream, gaps) then stream[4..][Fetched(gaps, 1, 4, |stream| - 4)..] else BodyOf(stream)
  }

  /** What `restore_data` takes the stream to say. */
  function Heard(stream: seq<byte>, gaps: map<nat, nat>): Parsed<Contents> {
    if |stream| < 4 || !Accepted(stream) then Bad
    else
      match TakeRecords(BodyHeard(stream, gaps))
      case Bad => Bad
      case Got(rs, rest) => Got(Contents(FlagHeard(stream, gaps), rs), rest)
  }

  /** If the flag is read, that is what the stream says. */
  lemma HeardIsSaid(stream: seq<byte>, gaps: map<nat, nat>)
    requires FlagRead(gaps)
    ensures Heard(stream, gaps) == TakeStream(stream)
  {
  }

  /** `restore_data`.  `gaps` are the reads of the stream that come up short. */
  method RestoreData(dev: Device, stream: seq<byte>, gaps: map<nat, nat>) returns (res: int, ghost wiped: Fs)
    requires WellFormed(dev.fs)
    modifies dev
    ensures res == 0 || res == -1
    ensures res == 0 ==> Succeeded(Heard(stream, gaps), dev.stuck, dev.short, old(dev.fs), wiped, dev.fs)
    ensures !dev.faulty && OnlyFlagShort(stream, gaps) && res != 0 ==>
              Hopeless(Heard(stream, gaps), dev.stuck, old(dev.fs), wiped)
  {
    res, wiped := -1, dev.fs;
    var fh := new Reader(stream, gaps);
    assert fh.Left() == stream;
    var all;
    var ok;
    ok, all := ReadPreamble(fh, stream);
    if !ok { return; }
    DataTouchable(all);
    ok := Wipe(dev, all, [DATA]);
    if !ok { return; }
    wiped := dev.fs;
    ghost var rs;
    ok, rs := RestoreRecords(dev, fh);
    if ok { res := 0; }
  }

  /** The loop of `restore_data`. */
  method RestoreRecords(dev: Device, fh: Reader) returns (ok: bool, ghost done: seq<Record>)
    requires fh.Valid()
    modifies dev, fh
    ensures ok ==> && TakeRecords(old(fh.Left())).Got? && TakeRecords(old(fh.Left())).value == done
                   && Applied(old(dev.fs), dev.short, done, dev.fs)
    ensures !dev.faulty && old(fh.Steady()) && !ok ==> CannotApply(old(dev.fs), TakeRecords(old(fh.Left())))
  {
    ghost var body, fs := fh.Left(), dev.fs;
    done := [];
    ContinuesStart(body);
    while true
      invariant fh.Valid() && (old(fh.Steady()) ==> fh.Steady())
      invariant Continues(body, done, fh.Left()) && Applied(fs, dev.short, done, dev.fs)
      decreases |fh.Left()|
    {
      ghost var left, mid := fh.Left(), dev.fs;
      ghost var r;
      var end;
      ok, r, end := RestoreRecord(dev, fh);
      if !ok {
        if !dev.faulty && old(fh.Steady()) { GetsStuck(body, fs, dev.short, done, left, mid); }
        return;
      }
      TakeRecordShrinks(left);
      if end {
        ContinuesEnd(body, done, left, fh.Left());
        return;
      }
      ContinuesStep(body, done, left, r.value, fh.Left());
      AppliedOneMore(fs, dev.short, done, r.value, mid, dev.fs);
      done := done + [r.value];
    }
  }

  lemma {:induction false} GetsStuck(body: seq<byte>, fs: Fs, short: map<Path, nat>, done: seq<Record>,
                                     left: seq<byte>, mid: Fs)
    requires Continues(body, done, left) && Applied(fs, short, done, mid) && Unfit(mid, TakeRecord(left))
    ensures CannotApply(fs, TakeRecords(body))
  {
    if TakeRecords(left).Got? {
      var rs := TakeRecords(left).value;
      if Through(fs, ItemsFor(done)) {
        ThroughMore(fs, done, rs);
      } else if rs != [] {
        NextUnfit(fs, short, done, rs, mid);
      }
    }
  }

  lemma {:induction false} ThroughMore(fs: Fs, done: seq<Record>, rs: seq<Record>)
    requires Through(fs, ItemsFor(done))
    ensures Through(fs, ItemsFor(done + rs))
  {
    var xs, ys := ItemsFor(done), ItemsFor(done + rs);
    var i :| 0 <= i < |xs| && OnWay(fs, xs[i].path);
    assert ys[i] == ItemOf((done + rs)[i]) == xs[i];
  }

  lemma {:induction false} NextUnfit(fs: Fs, short: map<Path, nat>, done: seq<Record>, rs: seq<Record>, mid: Fs)
    requires rs != [] && ApplyAll(fs, LandedAll(short, ItemsFor(done))) == Some(mid)
    requires OnWay(mid, ItemOf(rs[0]).path) || Apply(mid, ItemOf(rs[0])).None?
    ensures var xs := ItemsFor(done + rs); Through(fs, xs) || ApplyAll(fs, xs).None?
  {
    var xs, x := ItemsFor(done + rs), ItemOf(rs[0]);
    ItemsFront(done, rs);
    if OnWay(mid, x.path) {
      LandedOnWay(fs, short, ItemsFor(done), mid, x.path);
      assert xs[..|done| + 1][|done|] == xs[|done|] == x;
    } else {
      LandedFront(short, ItemsFor(done), x);
      ApplyStep(fs, LandedAll(short, ItemsFor(done)), Landed(short, x), mid);
      SameOutcome(fs, short, xs[..|done| + 1]);
      StaysStuck(fs, xs, |done| + 1);
    }
  }

  /** Whether records can be applied does not depend on how much of them reaches the disk. */
  lemma {:induction false} SameOutcome(fs: Fs, short: map<Path, nat>, xs: seq<Item>)
    ensures ApplyAll(fs, xs).Some? <==> ApplyAll(fs, LandedAll(short, xs)).Some?
    ensures ApplyAll(fs, xs).Some? ==> SameKinds(ApplyAll(fs, xs).value, ApplyAll(fs, LandedAll(short, xs)).value)
  {
    if xs != [] {
      var n := |xs| - 1;
      var up, x := xs[..n], xs[n];
      assert xs == up + [x];
      SameOutcome(fs, short, up);
      LandedFront(short, up, x);
      if ApplyAll(fs, up).Some? {
        var a, b := ApplyAll(fs, up).value, ApplyAll(fs, LandedAll(short, up)).value;
        ApplyStep(fs, up, x, a);
        ApplyStep(fs, LandedAll(short, up), Landed(short, x), b);
        SameStep(a, b, short, x);
      } else {
        StaysStuck(fs, xs, n);
        assert LandedAll(short, xs)[..n] == LandedAll(short, up);
        StaysStuck(fs, LandedAll(short, xs), n);
      }
    }
  }

  lemma SameStep(a: Fs, b: Fs, short: map<Path, nat>, x: Item)
    requires SameKinds(a, b)
    ensures Apply(a, x).Some? <==> Apply(b, Landed(short, x)).Some?
    ensures Apply(a, x).Some? ==> SameKinds(Apply(a, x).value, Apply(b, Landed(short, x)).value)
  {
  }

  /** The same paths with the same kinds of nodes. */
  ghost predicate SameKinds(a: Fs, b: Fs) {
    a.Keys == b.Keys && forall q :: q in a ==> a[q].DirNode? == b[q].DirNode? && a[q].FileNode? == b[q].FileNode?
  }

  lemma {:induction false} StaysStuck(fs: Fs, xs: seq<Item>, n: nat)
    requires n <= |xs| && ApplyAll(fs, xs[..n]).None?
    ensures ApplyAll(fs, xs).None?
  {
    if n < |xs| {
      var up := xs[..|xs| - 1];
      assert up[..n] == xs[..n];
      StaysStuck(fs, up, n);
    } else {
      assert xs[..n] == xs;
    }
  }

  lemma {:induction false} ItemsFront(done: seq<Record>, rs: seq<Record>)
    requires rs != []
    ensures ItemsFor(done + rs)[..|done| + 1] == ItemsFor(done) + [ItemOf(rs[0])]
  {
    var xs, ys := ItemsFor(done + rs), ItemsFor(done) + [ItemOf(rs[0])];
    forall i | 0 <= i <= |done|
      ensures xs[i] == ys[i]
    {
      assert xs[i] == ItemOf((done + rs)[i]);
    }
  }

  lemma {:induction false} ApplyStep(fs: Fs, ys: seq<Item>, x: Item, mid: Fs)
    requires ApplyAll(fs, ys) == Some(mid)
    ensures ApplyAll(fs, ys + [x]) == Apply(mid, x)
  {
    var xs := ys + [x];
    assert xs[..|xs| - 1] == ys;
  }

  lemma ContinuesStart(body: seq<byte>)
    ensures Continues(body, [], body)
  {
    if TakeRecords(body).Got? { assert [] + TakeRecords(body).value == TakeRecords(body).value; }
  }

  lemma {:induction false} ContinuesEnd(body: seq<byte>, done: seq<Record>, left: seq<byte>, rest: seq<byte>)
    requires Continues(body, done, left) && TakeRecord(left) == Got(None, rest)
    ensures TakeRecords(body) == Got(done, rest)
  {
    TakeRecordsEnd(left, rest);
    assert done + [] == done;
  }

  lemma DataTouchable(all: bool)
    ensures !Untouchable(all, [DATA])
  {
    assert |DATA| == 4 && |LOST_FOUND| == 10;
    forall k | 0 <= k <= 1
      ensures [DATA][..k] !in NO_TOUCH
    {
      assert forall p :: p in NO_TOUCH ==> |p| >= 2;
    }
  }

  /** The version and the flag at the start of `restore_data`. */
  method ReadPreamble(fh: Reader, ghost stream: seq<byte>) returns (ok: bool, all: bool)
    requires fh.Valid() && fh.Left() == stream && fh.calls == 0
    modifies fh
    ensures fh.Valid() && (OnlyFlagShort(stream, fh.short) && ok ==> fh.Steady())
    ensures !ok && OnlyFlagShort(stream, fh.short) ==> Heard(stream, fh.short) == Bad
    ensures ok ==> && |stream| >= 4 && Accepted(stream)
                   && all == FlagHeard(stream, fh.short) && fh.Left() == BodyHeard(stream, fh.short)
  {
    all := false;
    var raw := ReadInt32(fh, 0);
    var version := Bits(raw, TWO32);
    ok := FILE_VERSION_1 <= version <= FILE_VERSION_2;
    if ok && version == FILE_VERSION_2 {
      var flag := ReadInt32(fh, 0);
      all := flag != 0;
      AfterVersion(stream);
    }
  }

  lemma AfterVersion(stream: seq<byte>)
    requires |stream| >= 4
    ensures |stream| >= 8 ==> stream[4..][..4] == stream[4..8] && stream[4..][4..] == stream[8..]
    ensures |stream| < 8 ==> stream[4..][|stream| - 4..] == []
  {
  }
}
