/** `wipe`: what is removed from /data before a restore, and what stays. */
module RawWipe {
  import opened RawBytes
  import opened RawFormat
  import opened RawTree

  datatype Owner = Owner(uid: nat, gid: nat, mode: nat)

  /** A node of the device.  The times of a directory change with its entries and are left out. */
  datatype FsNode =
    | FileNode(owner: Owner, atime: int, mtime: int, content: seq<byte>)
    | DirNode(owner: Owner)
    | OtherNode(owner: Owner)

  type Fs = map<Path, FsNode>

  /** A file system rooted at /data: what contains something is a directory. */
  ghost predicate WellFormed(fs: Fs) {
    && [DATA] in fs && fs[[DATA]].DirNode?
    && forall p :: p in fs ==> [DATA] <= p && (|p| > 1 ==> p[..|p| - 1] in fs && fs[p[..|p| - 1]].DirNode?)
  }

  lemma {:induction false} AboveIsDir(fs: Fs, q: Path, r: Path)
    requires WellFormed(fs) && r in fs && q < r && q != []
    ensures q in fs && fs[q].DirNode?
    decreases |r|
  {
    var up := r[..|r| - 1];
    assert up in fs && fs[up].DirNode?;
    if q != up { AboveIsDir(fs, q, up); }
  }

  // ---------------------------------------------------------------- what stays

  /** At or below something that `wipe` does not enter. */
  ghost predicate Untouchable(all: bool, p: Path) {
    LOST_FOUND in p || (!all && exists k :: 0 <= k <= |p| && p[..k] in NO_TOUCH)
  }

  /** A directory that is emptied but not removed. */
  predicate KeptDir(all: bool, p: Path) {
    p in SKIP_PATHS && (all || p in NO_BACKUP)
  }

  /** A node that stays for its own sake; `stuck` are those that cannot be removed. */
  ghost predicate Keeper(all: bool, stuck: set<Path>, fs: Fs, r: Path)
    requires r in fs
  {
    Untouchable(all, r) || (fs[r].DirNode? && KeptDir(all, r)) || r in stuck
  }

  /** A node that stays: a keeper, or a directory above one. */
  ghost predicate Survives(all: bool, stuck: set<Path>, fs: Fs, q: Path) {
    exists r :: r in fs && q <= r && Keeper(all, stuck, fs, r)
  }

  /** `fs'` is what is left of `fs` when everything at `q` or below has been dealt with. */
  ghost predicate EntryWiped(all: bool, stuck: set<Path>, fs: Fs, q: Path, fs': Fs) {
    && (forall r :: r in fs' ==> r in fs && fs'[r] == fs[r])
    && (forall r :: r in fs ==> (r in fs' <==> !(q <= r) || Survives(all, stuck, fs, r)))
  }

  /** The same for everything strictly below `path`, except the entries in `todo`. */
  ghost predicate Wiped(all: bool, stuck: set<Path>, fs: Fs, path: Path, todo: set<Name>, fs': Fs) {
    && (forall r :: r in fs' ==> r in fs && fs'[r] == fs[r])
    && (forall r :: r in fs ==> (r in fs' <==> !(path < r) || r[|path|] in todo || Survives(all, stuck, fs, r)))
  }

  lemma SurvivesSame(all: bool, stuck: set<Path>, a: Fs, b: Fs, q: Path)
    requires forall r :: q <= r ==> (r in a <==> r in b) && (r in a ==> a[r] == b[r])
    ensures Survives(all, stuck, a, q) <==> Survives(all, stuck, b, q)
  {
    if r :| r in a && q <= r && Keeper(all, stuck, a, r) { assert r in b && Keeper(all, stuck, b, r); }
    if r :| r in b && q <= r && Keeper(all, stuck, b, r) { assert r in a && Keeper(all, stuck, a, r); }
  }

  lemma WipedStep(all: bool, stuck: set<Path>, fs: Fs, path: Path, todo: set<Name>, mid: Fs, name: Name, fs': Fs)
    requires Wiped(all, stuck, fs, path, todo, mid) && name in todo
    requires EntryWiped(all, stuck, mid, path + [name], fs')
    ensures Wiped(all, stuck, fs, path, todo - {name}, fs')
  {
    var q := path + [name];
    forall r | r in fs
      ensures r in fs' <==> !(path < r) || r[|path|] in todo - {name} || Survives(all, stuck, fs, r)
    {
      assert path < r && r[|path|] == name ==> r[..|path| + 1] == q;
      if q <= r {
        assert path < r && r[|path|] == name;
        forall s | r <= s
          ensures (s in fs <==> s in mid) && (s in fs ==> fs[s] == mid[s])
        {
          assert path < s && s[|path|] == name;
        }
        SurvivesSame(all, stuck, fs, mid, r);
      }
    }
  }

  /** What is left of a well-formed file system is well-formed. */
  lemma WipedWellFormed(all: bool, stuck: set<Path>, fs: Fs, path: Path, todo: set<Name>, fs': Fs)
    requires WellFormed(fs) && Wiped(all, stuck, fs, path, todo, fs') && [DATA] <= path
    ensures WellFormed(fs')
  {
    forall p | p in fs' && |p| > 1
      ensures p[..|p| - 1] in fs' && fs'[p[..|p| - 1]].DirNode?
    {
      var up := p[..|p| - 1];
      assert up in fs && fs[up].DirNode?;
      if path < up {
        assert path < p && p[|path|] == up[|path|];
        if Survives(all, stuck, fs, p) {
          var r :| r in fs && p <= r && Keeper(all, stuck, fs, r);
          assert up <= r;
        }
      }
    }
  }

  // ---------------------------------------------------------------- wipe

  class Device {
    var fs: Fs
    /** Nodes that `wipe` cannot remove: `unlink` or `rmdir` fails on them, or `lstat` fails on them or
        on a directory above them, or they are the backup file, which is spared. */
    const stuck: set<Path>
    /** Whether other calls may fail although the file tree would let them succeed. */
    const faulty: bool
    /** Files of which only so many bytes reach the disk; the rest is lost when they are closed. */
    const short: map<Path, nat>

    constructor (fs: Fs, stuck: set<Path>, faulty: bool, short: map<Path, nat>)
      ensures this.fs == fs && this.stuck == stuck && this.faulty == faulty && this.short == short
    {
      this.fs := fs;
      this.stuck := stuck;
      this.faulty := faulty;
      this.short := short;
    }

    /** `lstat`, which can fail only where that leaves everything in place. */
    method Lstat(q: Path) returns (ok: bool)
      ensures !ok ==> forall r :: r in fs && q <= r ==> r in stuck
    {
      ok := *;
      ok := ok || exists r :: r in fs && q <= r && r !in stuck;
    }

    /** Whether the next call works. */
    method Works() returns (ok: bool)
      ensures !faulty ==> ok
    {
      ok := *;
      ok := ok || !faulty;
    }
  }

  function Inside(fs: Fs, path: Path): set<Path> {
    set r | r in fs && path < r
  }

  /** The names in a directory. */
  function Listing(fs: Fs, path: Path): set<Name> {
    set r | r in fs && path < r && |r| == |path| + 1 :: r[|path|]
  }

  lemma Listed(fs: Fs, path: Path, r: Path)
    requires WellFormed(fs) && r in fs && path < r && path != []
    ensures path + [r[|path|]] in fs && r[|path|] in Listing(fs, path)
  {
    var q := path + [r[|path|]];
    assert q <= r;
    if q != r { AboveIsDir(fs, q, r); }
    assert q[|path|] == r[|path|];
  }

  /** Passing over an entry is right when everything at it or below is untouchable. */
  lemma PassedOver(all: bool, stuck: set<Path>, fs: Fs, q: Path)
    requires q != [] && (q[|q| - 1] == LOST_FOUND || (!all && q in NO_TOUCH))
    ensures EntryWiped(all, stuck, fs, q, fs)
  {
    forall r | r in fs && q <= r
      ensures Survives(all, stuck, fs, r)
    {
      assert r[|q| - 1] == q[|q| - 1] && r[..|q|] == q;
      assert Untouchable(all, r) && Keeper(all, stuck, fs, r);
    }
  }

  /** Passing over an entry that cannot be examined. */
  lemma NotExamined(all: bool, stuck: set<Path>, fs: Fs, q: Path)
    requires forall r :: r in fs && q <= r ==> r in stuck
    ensures EntryWiped(all, stuck, fs, q, fs)
  {
    forall r | r in fs && q <= r
      ensures Survives(all, stuck, fs, r)
    {
      assert r <= r && Keeper(all, stuck, fs, r);
    }
  }

  /** An entry that is neither untouchable nor in an untouchable directory. */
  lemma EntryTouchable(all: bool, path: Path, name: Name)
    requires !Untouchable(all, path) && name != LOST_FOUND && (all || path + [name] !in NO_TOUCH)
    ensures !Untouchable(all, path + [name])
  {
    var q := path + [name];
    forall k | 0 <= k <= |q|
      ensures all || q[..k] !in NO_TOUCH
    {
      if k <= |path| { assert q[..k] == path[..k]; } else { assert q[..k] == q; }
    }
  }

  /** Unlinking what is not a directory. */
  lemma Unlinked(all: bool, stuck: set<Path>, fs: Fs, q: Path)
    requires WellFormed(fs) && q in fs && !fs[q].DirNode? && !Untouchable(all, q) && q != []
    ensures EntryWiped(all, stuck, fs, q, if q in stuck then fs else fs - {q})
  {
    forall r | r in fs && q <= r
      ensures r == q
    {
      if q != r { AboveIsDir(fs, q, r); }
    }
    if q in stuck { assert Keeper(all, stuck, fs, q); }
  }

  /** A directory stays exactly when it is kept or something in it stays. */
  lemma DirectorySurvives(all: bool, stuck: set<Path>, fs: Fs, q: Path, mid: Fs)
    requires q in fs && fs[q].DirNode? && !Untouchable(all, q)
    requires Wiped(all, stuck, fs, q, {}, mid)
    ensures Survives(all, stuck, fs, q) <==> KeptDir(all, q) || q in stuck || Inside(mid, q) != {}
  {
    if KeptDir(all, q) || q in stuck { assert Keeper(all, stuck, fs, q); }
    if Inside(mid, q) != {} {
      var r :| r in Inside(mid, q);
      assert r in fs && Survives(all, stuck, fs, r);
      var s :| s in fs && r <= s && Keeper(all, stuck, fs, s);
      assert q <= s;
    }
    if Survives(all, stuck, fs, q) {
      var s :| s in fs && q <= s && Keeper(all, stuck, fs, s);
      if s != q {
        assert s <= s && Survives(all, stuck, fs, s);
        assert s in Inside(mid, q);
      }
    }
  }

  /** A directory, once everything below it has been dealt with. */
  lemma DirectoryDone(all: bool, stuck: set<Path>, fs: Fs, q: Path, mid: Fs)
    requires q in fs && fs[q].DirNode? && !Untouchable(all, q)
    requires Wiped(all, stuck, fs, q, {}, mid)
    ensures var goes := !KeptDir(all, q) && q !in stuck && Inside(mid, q) == {};
            EntryWiped(all, stuck, fs, q, if goes then mid - {q} else mid)
  {
    DirectorySurvives(all, stuck, fs, q, mid);
    var goes := !KeptDir(all, q) && q !in stuck && Inside(mid, q) == {};
    var fs' := if goes then mid - {q} else mid;
    forall r | r in fs
      ensures r in fs' <==> !(q <= r) || Survives(all, stuck, fs, r)
    {
      assert q <= r <==> q == r || q < r;
    }
  }

  /** One turn of the loop in `wipe`, for entry `name` of directory `path`. */
  method WipeEntry(dev: Device, all: bool, path: Path, name: Name) returns (ok: bool)
    requires WellFormed(dev.fs) && [DATA] <= path && !Untouchable(all, path) && path + [name] in dev.fs
    modifies dev
    ensures !dev.faulty ==> ok
    ensures ok ==> EntryWiped(all, dev.stuck, old(dev.fs), path + [name], dev.fs)
    decreases Inside(dev.fs, path), 0
  {
    ghost var fs := dev.fs;
    var q := path + [name];
    if name == LOST_FOUND || (q in SKIP_PATHS && !KeptDir(all, q)) {
      PassedOver(all, dev.stuck, fs, q);
      return true;
    }
    EntryTouchable(all, path, name);
    var seen := dev.Lstat(q);
    if !seen {
      NotExamined(all, dev.stuck, fs, q);
      return true;
    }
    if dev.fs[q].DirNode? {
      assert q in Inside(dev.fs, path) && Inside(dev.fs, q) <= Inside(dev.fs, path);
      ok := Wipe(dev, all, q);
      if !ok { return; }
      DirectoryDone(all, dev.stuck, fs, q, dev.fs);
      if !KeptDir(all, q) && q !in dev.stuck && Inside(dev.fs, q) == {} {
        dev.fs := dev.fs - {q};
      }
    } else {
      Unlinked(all, dev.stuck, fs, q);
      if q !in dev.stuck { dev.fs := dev.fs - {q}; }
      ok := true;
    }
  }

  /** `wipe`: false means that some directory could not be opened. */
  method Wipe(dev: Device, all: bool, path: Path) returns (ok: bool)
    requires WellFormed(dev.fs) && [DATA] <= path && !Untouchable(all, path) && path in dev.fs
    modifies dev
    ensures !dev.faulty ==> ok
    ensures ok ==> Wiped(all, dev.stuck, old(dev.fs), path, {}, dev.fs) && WellFormed(dev.fs)
    decreases Inside(dev.fs, path), 2
  {
    ghost var fs := dev.fs;
    ok := dev.Works();
    if !ok { return; }
    var todo := Listing(dev.fs, path);
    WipingStart(all, dev.stuck, fs, path);
    while todo != {}
      invariant ok && Wiping(all, dev.stuck, fs, path, todo, dev.fs)
      decreases todo
    {
      var name :| name in todo;
      ok := WipeNext(dev, all, path, todo, name, fs);
      if !ok { return; }
      todo := todo - {name};
    }
    WipingEnd(all, dev.stuck, fs, path, dev.fs);
  }

  method WipeNext(dev: Device, all: bool, path: Path, ghost todo: set<Name>, name: Name,
                  ghost fs: Fs) returns (ok: bool)
    requires WellFormed(fs) && [DATA] <= path && !Untouchable(all, path)
    requires name in todo && Wiping(all, dev.stuck, fs, path, todo, dev.fs)
    modifies dev
    ensures !dev.faulty ==> ok
    ensures ok ==> Wiping(all, dev.stuck, fs, path, todo - {name}, dev.fs)
    decreases Inside(fs, path), 1
  {
    ghost var mid := dev.fs;
    WipingInside(all, dev.stuck, fs, path, todo, mid);
    ok := WipeEntry(dev, all, path, name);
    if ok { WipingStep(all, dev.stuck, fs, path, todo, mid, name, dev.fs); }
  }

  lemma WipingEnd(all: bool, stuck: set<Path>, fs: Fs, path: Path, cur: Fs)
    requires Wiping(all, stuck, fs, path, {}, cur)
    ensures Wiped(all, stuck, fs, path, {}, cur) && WellFormed(cur)
  {
  }

  /** The state of the loop in `wipe` with the entries `todo` left. */
  ghost predicate Wiping(all: bool, stuck: set<Path>, fs: Fs, path: Path, todo: set<Name>, cur: Fs) {
    && WellFormed(cur) && Wiped(all, stuck, fs, path, todo, cur)
    && forall n :: n in todo ==> path + [n] in cur
  }

  lemma WipingStart(all: bool, stuck: set<Path>, fs: Fs, path: Path)
    requires WellFormed(fs) && path != []
    ensures Wiping(all, stuck, fs, path, Listing(fs, path), fs)
  {
    forall r | r in fs && path < r
      ensures r[|path|] in Listing(fs, path)
    {
      Listed(fs, path, r);
    }
    assert Wiped(all, stuck, fs, path, Listing(fs, path), fs);
    forall n | n in Listing(fs, path)
      ensures path + [n] in fs
    {
      ListedIsThere(fs, path, n);
    }
  }

  lemma ListedIsThere(fs: Fs, path: Path, n: Name)
    requires n in Listing(fs, path)
    ensures path + [n] in fs
  {
    var r :| r in fs && path < r && |r| == |path| + 1 && r[|path|] == n;
    assert r == path + [n];
  }

  lemma WipingInside(all: bool, stuck: set<Path>, fs: Fs, path: Path, todo: set<Name>, cur: Fs)
    requires Wiped(all, stuck, fs, path, todo, cur)
    ensures Inside(cur, path) <= Inside(fs, path)
  {
  }

  lemma WipingStep(all: bool, stuck: set<Path>, fs: Fs, path: Path, todo: set<Name>, mid: Fs, name: Name, cur: Fs)
    requires WellFormed(fs) && [DATA] <= path && Wiping(all, stuck, fs, path, todo, mid) && name in todo
    requires EntryWiped(all, stuck, mid, path + [name], cur)
    ensures Wiping(all, stuck, fs, path, todo - {name}, cur)
  {
    WipedStep(all, stuck, fs, path, todo, mid, name, cur);
    WipedWellFormed(all, stuck, fs, path, todo - {name}, cur);
    forall n | n in todo - {name}
      ensures path + [n] in cur
    {
      assert (path + [n])[|path|] == n && path + [n] in fs;
    }
  }
}
