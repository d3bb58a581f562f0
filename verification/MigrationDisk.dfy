/**
 * The part of /data that `initialize_directories` changes, and the file system calls it makes, each
 * of them atomic.
 */
module MigrationDisk {

  /** A path below /data. */
  type Path = seq<string>

  /** A node below media or media.tmp; a file keeps its identity when it moves. */
  datatype Node = FileNode(inode: nat, data: seq<int>) | DirNode

  type Tree = map<Path, Node>

  const MEDIA: Path := ["media"]
  const MEDIA_TMP: Path := ["media.tmp"]
  const OWNER: Path := ["media", "0"]
  const OBB: Path := ["media", "obb"]
  const OWNER_OBB: Path := ["media", "0", "Android", "obb"]

  function UserMedia(user: string): Path {
    ["media", user]
  }

  // ---------------------------------------------------------------- calls on the media tree

  predicate IsDir(t: Tree, p: Path) {
    p in t && t[p].DirNode?
  }

  /** `fs_prepare_dir`: works where there is a directory already, or where one can be made. */
  predicate CanPrepare(t: Tree, p: Path) {
    IsDir(t, p) || (p !in t && (|p| == 1 || (p != [] && IsDir(t, p[..|p| - 1]))))
  }

  function Prepare(t: Tree, p: Path): Tree {
    if p in t then t else t[p := DirNode]
  }

  /** `rename` of `a` to `b`: the parent of the target is there, the target does not lie in what is
      moved, and it is missing, or an empty directory that a directory replaces, or a file that a
      file replaces. */
  predicate CanRename(t: Tree, a: Path, b: Path) {
    && a in t && b != [] && !(a <= b) && !(b <= a)
    && (|b| > 1 ==> IsDir(t, b[..|b| - 1]))
    && (b in t ==> t[b].DirNode? == t[a].DirNode?)
    && (forall q :: q in t ==> !(b < q))
  }

  /** Where a node of the result of the rename came from. */
  function Origin(a: Path, b: Path, q: Path): Path {
    if b <= q then a + q[|b|..] else q
  }

  /** The paths after the rename: those that stay, and those that move. */
  function NewPaths(t: Tree, a: Path, b: Path): set<Path> {
    (set q | q in t && !(a <= q) && !(b <= q)) + (set q | q in t && a <= q :: b + q[|a|..])
  }

  function Rename(t: Tree, a: Path, b: Path): Tree {
    map q | q in NewPaths(t, a, b) && Origin(a, b, q) in t :: t[Origin(a, b, q)]
  }

  // ---------------------------------------------------------------- which files there are

  ghost function PathsOf(t: Tree, n: Node): set<Path> {
    set p | p in t && t[p] == n
  }

  /** In how many places a file is. */
  ghost function Copies(t: Tree, n: Node): nat {
    |PathsOf(t, n)|
  }

  /** The same files, each with its contents and in as many places. */
  ghost predicate SameFiles(t: Tree, t': Tree) {
    forall n: Node :: n.FileNode? ==> Copies(t', n) == Copies(t, n)
  }

  /** No file has been added. */
  ghost predicate NoMoreFiles(t: Tree, t': Tree) {
    forall n: Node :: n.FileNode? ==> Copies(t', n) <= Copies(t, n)
  }

  /** Some file is in fewer places than it was. */
  ghost predicate Lost(t: Tree, t': Tree) {
    exists n: Node :: n.FileNode? && Copies(t', n) < Copies(t, n)
  }

  lemma {:induction false} RenameAt(t: Tree, a: Path, b: Path, q: Path)
    ensures var t' := Rename(t, a, b);
            && (q in t' <==> Origin(a, b, q) in t && (b <= q || !(a <= q)))
            && (q in t' ==> t'[q] == t[Origin(a, b, q)])
  {
    if b <= q && Origin(a, b, q) in t {
      var o := Origin(a, b, q);
      assert a <= o && o[|a|..] == q[|b|..] && q == b + o[|a|..];
    }
    if q in NewPaths(t, a, b) && !(b <= q) {
      assert q in t && !(a <= q) by {
        forall r | r in t && a <= r
          ensures b + r[|a|..] != q
        {
          assert b <= b + r[|a|..];
        }
      }
    }
  }

  lemma {:induction false} OriginInjective(a: Path, b: Path, p: Path, q: Path)
    requires p != q && (b <= p || !(a <= p)) && (b <= q || !(a <= q))
    ensures Origin(a, b, p) != Origin(a, b, q)
  {
    var o, r := Origin(a, b, p), Origin(a, b, q);
    if b <= p && b <= q {
      assert p == b + p[|b|..] && q == b + q[|b|..];
      assert o[|a|..] == p[|b|..] && r[|a|..] == q[|b|..];
    } else if b <= p {
      assert a <= o;
    } else if b <= q {
      assert a <= r;
    }
  }

  /** Two sets of paths of which each is the origin of one. */
  lemma {:induction false} SameNumber(a: Path, b: Path, from: set<Path>, to: set<Path>)
    requires forall q :: q in to ==> (b <= q || !(a <= q)) && Origin(a, b, q) in from
    requires forall p :: p in from ==> exists q :: q in to && Origin(a, b, q) == p
    ensures |from| == |to|
  {
    if q :| q in to {
      var p := Origin(a, b, q);
      var from', to' := from - {p}, to - {q};
      forall r | r in to'
        ensures Origin(a, b, r) in from'
      {
        OriginInjective(a, b, q, r);
      }
      forall o | o in from'
        ensures exists r :: r in to' && Origin(a, b, r) == o
      {
        var r :| r in to && Origin(a, b, r) == o;
        assert r in to';
      }
      SameNumber(a, b, from', to');
    } else {
      assert from == {};
    }
  }

  /** A rename keeps each file in as many places, but for what it replaces. */
  lemma {:induction false} RenameCopies(t: Tree, a: Path, b: Path, n: Node)
    requires CanRename(t, a, b) && n.FileNode?
    ensures Copies(Rename(t, a, b), n) == |PathsOf(t, n) - {b}|
  {
    var t' := Rename(t, a, b);
    var from, to := PathsOf(t, n) - {b}, PathsOf(t', n);
    forall q | q in to
      ensures (b <= q || !(a <= q)) && Origin(a, b, q) in from
    {
      RenameAt(t, a, b, q);
      var o := Origin(a, b, q);
      assert b <= q ==> a <= o;
    }
    forall p | p in from
      ensures exists q :: q in to && Origin(a, b, q) == p
    {
      var q := if a <= p then b + p[|a|..] else p;
      RenameAt(t, a, b, q);
      if a <= p {
        assert b <= q && q[|b|..] == p[|a|..] && a + p[|a|..] == p;
      } else {
        assert !(b < p) && p != b;
        assert b <= p ==> p == b;
      }
      assert Origin(a, b, q) == p && q in to;
    }
    SameNumber(a, b, from, to);
  }

  /** Both are regular files, so that renaming one to the other replaces it. */
  ghost predicate BothFiles(t: Tree, a: Path, b: Path) {
    a in t && t[a].FileNode? && b in t && t[b].FileNode?
  }

  /** A rename that replaces no file loses none, and one that does loses it. */
  lemma {:induction false} RenameKeepsFiles(t: Tree, a: Path, b: Path)
    requires CanRename(t, a, b)
    ensures NoMoreFiles(t, Rename(t, a, b))
    ensures !BothFiles(t, a, b) ==> SameFiles(t, Rename(t, a, b))
    ensures BothFiles(t, a, b) ==> Lost(t, Rename(t, a, b)) && Copies(Rename(t, a, b), t[b]) < Copies(t, t[b])
  {
    forall n: Node | n.FileNode?
      ensures Copies(Rename(t, a, b), n) == if b in t && t[b] == n then Copies(t, n) - 1 else Copies(t, n)
    {
      RenameCopies(t, a, b, n);
      if b in PathsOf(t, n) {
        assert PathsOf(t, n) == PathsOf(t, n) - {b} + {b};
      } else {
        assert PathsOf(t, n) == PathsOf(t, n) - {b};
      }
    }
  }

  lemma {:induction false} PrepareKeepsFiles(t: Tree, p: Path)
    ensures SameFiles(t, Prepare(t, p))
  {
    forall n: Node | n.FileNode?
      ensures PathsOf(Prepare(t, p), n) == PathsOf(t, n)
    {
    }
  }
}
