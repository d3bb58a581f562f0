/** Three restores that return 0 and do not bring everything back. */
module RawLosses {
  import opened Wrappers
  import opened RawBytes
  import opened RawFormat
  import opened RawTree
  import opened RawBackup
  import opened RawWipe
  import opened RawRestore
  import opened RawRoundTrip

  const NAME: Name := [100]
  const PATH: Path := [DATA, NAME]
  const META: Meta := Meta(0, 0, 0, 0, 0, 0)
  const ROOT: Owner := Owner(0, 0, 0)

  /** The one item of a tree with the one entry `e`. */
  function OnlyItem(e: Entry): Item
    requires !e.node.Special?
  {
    match e.node
    case File(m, c) => FileItem([DATA, e.name], m, c)
    case Dir(m, _) => DirItem([DATA, e.name], m)
  }

  lemma RenderedPath()
    ensures |Render(PATH)| == 7
  {
    assert PATH[..1] == [DATA] && [DATA][..0] == [] && |DATA| == 4;
    assert |Render([DATA])| == 5;
  }

  lemma OneEntry(e: Entry)
    requires e == Entry(NAME, File(META, [1])) || e == Entry(NAME, Dir(META, []))
    ensures Sound([e]) && Items(true, [DATA], [e]) == [OnlyItem(e)]
    ensures Storable(true, [e])
    ensures forall x :: InTree(true, [e], x) <==> x == OnlyItem(e)
  {
    var x := OnlyItem(e);
    assert [DATA] + [NAME] == PATH && |LOST_FOUND| == 10;
    assert Items(true, PATH, []) == [] && Items(true, [DATA], [e][1..]) == [];
    assert ItemsOf(true, [DATA], e) == [x];
    RenderedPath();
    assert RecordsOf([x]) == [RecordOf(x)];
    forall y
      ensures InTree(true, [e], y) <==> y == x
    {
      ItemsAreSaved(true, [DATA], [e], y);
    }
  }

  /** A device with nothing in the way of the entry, as far as `wipe` and the calls are concerned. */
  lemma NothingInTheWay(e: Entry, stuck: set<Path>, fs: Fs)
    requires e == Entry(NAME, File(META, [1])) || e == Entry(NAME, Dir(META, []))
    requires fs.Keys <= {[DATA], PATH} && [DATA] in fs && fs[[DATA]].DirNode?
    requires PATH in fs ==> fs[PATH].FileNode?
    ensures WellFormed(fs) && !Astray(true, stuck, [e], fs)
    ensures forall x :: InTree(true, [e], x) ==> !Blocked(true, stuck, fs, x)
  {
    OneEntry(e);
    SmallDevice(fs);
    forall x | InTree(true, [e], x)
      ensures !OnWayBefore(true, stuck, fs, x.path) && !Blocked(true, stuck, fs, x)
    {
      PathIsFree(stuck, fs, x);
    }
  }

  lemma SmallDevice(fs: Fs)
    requires fs.Keys <= {[DATA], PATH} && [DATA] in fs && fs[[DATA]].DirNode?
    ensures WellFormed(fs)
  {
    assert PATH[..1] == [DATA];
  }

  lemma PathIsFree(stuck: set<Path>, fs: Fs, x: Item)
    requires fs.Keys <= {[DATA], PATH} && [DATA] in fs && fs[[DATA]].DirNode?
    requires PATH in fs ==> fs[PATH].FileNode?
    requires x.path == PATH
    ensures !OnWayBefore(true, stuck, fs, x.path) && !Blocked(true, stuck, fs, x)
  {
    assert PATH[..1] == [DATA] && PATH[..2] == PATH;
  }

  /**
   * One file with one byte in it.  No call fails, but the byte gets lost when the file is closed, and
   * the restore returns 0 with an empty file.
   */
  method TruncatedFile() returns (res: int, dev: Device)
    ensures res == 0 && !dev.faulty && dev.stuck == {} && dev.short == map[PATH := 0]
    ensures PATH in dev.fs && dev.fs[PATH].FileNode? && dev.fs[PATH].content == []
  {
    var e := Entry(NAME, File(META, [1]));
    var fs: Fs := map[[DATA] := DirNode(ROOT)];
    dev := new Device(fs, {}, false, map[PATH := 0]);
    OneEntry(e);
    NothingInTheWay(e, {}, fs);
    var saved;
    ghost var stream;
    saved, res, stream := BackupThenRestore(true, [e], false, None, dev, map[]);
    assert InTree(true, [e], OnlyItem(e));
    assert Restored(fs, {}, dev.short, OnlyItem(e), dev.fs);
  }

  /**
   * One empty directory.  On the device there is a file in its place that cannot be removed, and the
   * restore returns 0 with a file there.
   */
  method FileForDirectory() returns (res: int, dev: Device)
    ensures res == 0 && !dev.faulty && dev.stuck == {PATH} && dev.short == map[]
    ensures PATH in dev.fs && !dev.fs[PATH].DirNode?
  {
    var e := Entry(NAME, Dir(META, []));
    var fs: Fs := map[[DATA] := DirNode(ROOT), PATH := FileNode(ROOT, 0, 0, [])];
    dev := new Device(fs, {PATH}, false, map[]);
    OneEntry(e);
    NothingInTheWay(e, {PATH}, fs);
    var saved;
    ghost var stream;
    saved, res, stream := BackupThenRestore(true, [e], false, None, dev, map[]);
    assert InTree(true, [e], OnlyItem(e));
    assert Restored(fs, {PATH}, dev.short, OnlyItem(e), dev.fs);
  }

  lemma NotSkipped()
    ensures !Skipped(false, PATH)
  {
    assert |NAME| == 1 && |LOST_FOUND| == 10;
    assert forall q :: q in SKIP_PATHS ==> |q| >= 2 && |q[1]| >= 4;
  }

  /** The file is saved without the all option as well. */
  lemma OneFile(e: Entry)
    requires e == Entry(NAME, File(META, [1]))
    ensures Sound([e]) && Storable(false, [e]) && InTree(false, [e], FileItem(PATH, META, [1]))
  {
    OneEntry(e);
    NotSkipped();
    assert [DATA] + [NAME] == PATH;
    assert Items(false, [DATA], [e][1..]) == [];
    assert Items(false, [DATA], [e]) == ItemsOf(false, [DATA], e) == Items(true, [DATA], [e]);
    assert Saves(false, [DATA], [e][0], FileItem(PATH, META, [1]));
  }

  /**
   * One file with one byte in it.  No call on the device fails and no close loses a byte, but the flag
   * cannot be read from the backup, and the restore returns 0 with nothing brought back.
   */
  method UnreadFlag() returns (res: int, dev: Device)
    ensures res == 0 && !dev.faulty && dev.stuck == {} && dev.short == map[]
    ensures PATH !in dev.fs && InTree(false, [Entry(NAME, File(META, [1]))], FileItem(PATH, META, [1]))
  {
    var e := Entry(NAME, File(META, [1]));
    var fs: Fs := map[[DATA] := DirNode(ROOT)];
    dev := new Device(fs, {}, false, map[]);
    OneFile(e);
    SmallDevice(fs);
    var saved;
    ghost var stream;
    saved, res, stream := BackupThenRestore(false, [e], false, None, dev, map[1 := 0]);
  }
}
