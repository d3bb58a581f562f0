/** What a restore is to leave on the device, told by the paths of the nodes. */
module RawRecovery {
  import opened RawBytes
  import opened RawFormat
  import opened RawTree
  import opened RawPaths
  import opened RawWipe

  /** A node that `wipe` leaves: lost+found and what is in it; without the all option what is private; the
      dalvik-cache directory, and with the all option the private directories, emptied; and what cannot
      be removed. */
  ghost predicate Kept(all: bool, stuck: set<Path>, fs: Fs, r: Path)
    requires r in fs
  {
    || InLostFound(r) || (!all && InPrivate(r))
    || (fs[r].DirNode? && (DalvikCache(r) || (all && Private(r))))
    || r in stuck
  }

  /** What stays of the device: /data, what is kept, and the directories above it. */
  ghost predicate Remains(all: bool, stuck: set<Path>, before: Fs, q: Path) {
    q in before && (q == [ROOT] || exists r :: r in before && q <= r && Kept(all, stuck, before, r))
  }

  lemma {:induction false} KeeperIsKept(all: bool, stuck: set<Path>, fs: Fs, r: Path)
    requires r in fs
    ensures Keeper(all, stuck, fs, r) <==> Kept(all, stuck, fs, r)
  {
    assert LOST_FOUND in r <==> InLostFound(r) by {
      forall i | 0 <= i < |r|
        ensures r[i] == LOST_FOUND <==> Is(r[i], "lost+found")
      {
        NameIs(r[i], "lost+found");
      }
    }
    forall k | 0 <= k <= |r|
      ensures r[..k] in NO_TOUCH <==> Private(r[..k])
    {
      PathsAre(r[..k]);
    }
    PathsAre(r);
  }

  lemma {:induction false} RemainsIs(all: bool, stuck: set<Path>, before: Fs, q: Path)
    ensures Remains(all, stuck, before, q) <==> q in before && (q == [DATA] || Survives(all, stuck, before, q))
  {
    DataIsRoot();
    forall r | r in before
      ensures Keeper(all, stuck, before, r) <==> Kept(all, stuck, before, r)
    {
      KeeperIsKept(all, stuck, before, r);
    }
  }

  /**
   * The node is back: a file with its owner, permissions and times, and with its contents as far as
   * they reached the disk; a directory with its owner and permissions, unless something else
   * stood at its path that could not be removed.
   */
  ghost predicate NodeBack(stuck: set<Path>, short: map<Path, nat>, before: Fs, fs: Fs, p: Path, node: Node) {
    && p in fs
    && match node
       case File(m, c) =>
         && fs[p].FileNode? && fs[p].owner == Owner(m.uid, m.gid, m.mode % 512)
         && fs[p].atime == m.atime && fs[p].mtime == m.mtime
         && fs[p].content <= c && (fs[p].content == c <==> !(p in short && short[p] < |c|))
       case Dir(m, _) =>
         && fs[p].owner == Owner(m.uid, m.gid, m.mode % 512)
         && (fs[p].DirNode? <==> !(p in before && !before[p].DirNode? && p in stuck))
       case Special => true
  }

  /** Where no saved node is, the device holds what remains of it, unchanged. */
  ghost predicate NothingElse(all: bool, stuck: set<Path>, data: seq<Entry>, before: Fs, fs: Fs) {
    forall q :: (forall names, node :: Wanted(all, data, names, node) ==> [ROOT] + names != q) ==>
                  && (q in fs <==> Remains(all, stuck, before, q))
                  && (q in fs ==> fs[q] == before[q])
  }

  ghost predicate BackInPlace(all: bool, stuck: set<Path>, short: map<Path, nat>, data: seq<Entry>, before: Fs,
                              fs: Fs) {
    && (forall names, node ::
          Wanted(all, data, names, node) ==> NodeBack(stuck, short, before, fs, [ROOT] + names, node))
    && NothingElse(all, stuck, data, before, fs)
  }

  /** Something that remains is in the way of the node: what is not a file where a file belongs, or what
      is not a directory where its directory should be. */
  ghost predicate Obstructed(all: bool, stuck: set<Path>, before: Fs, p: Path, node: Node)
    requires p != []
  {
    var up := p[..|p| - 1];
    || (node.File? && Remains(all, stuck, before, p) && !before[p].FileNode?)
    || (Remains(all, stuck, before, up) && !before[up].DirNode?)
  }

  ghost predicate SomeObstructed(all: bool, stuck: set<Path>, data: seq<Entry>, before: Fs) {
    exists names, node :: Wanted(all, data, names, node) && Obstructed(all, stuck, before, [ROOT] + names, node)
  }

  /** What is neither a file nor a directory remains at the path or above it. */
  ghost predicate LinkOnWay(all: bool, stuck: set<Path>, before: Fs, p: Path) {
    exists k :: 0 < k <= |p| && Remains(all, stuck, before, p[..k]) && before[p[..k]].OtherNode?
  }

  ghost predicate SomeLinkOnWay(all: bool, stuck: set<Path>, data: seq<Entry>, before: Fs) {
    exists names, node :: Wanted(all, data, names, node) && LinkOnWay(all, stuck, before, [ROOT] + names)
  }
}
