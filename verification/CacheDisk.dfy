/**
 * The file system calls that the evictor makes, each of which may fail.
 *
 * A node of the file system is named by its path: a directory's path ends in a slash, that of
 * anything else does not.  So "lies below directory p" is "has p as a proper prefix".
 */
module CacheDisk {

  /** The nodes that `delete_dir_contents(p, also)` sets out to remove. */
  function Victims(nodes: set<string>, p: string, also: bool): set<string> {
    set n | n in nodes && p <= n && (also || n != p)
  }

  predicate NothingUnder(nodes: set<string>, p: string) {
    forall n :: n in nodes ==> !(p < n)
  }

  lemma JustItself(nodes: set<string>, p: string)
    requires p in nodes && NothingUnder(nodes, p)
    ensures Victims(nodes, p, true) == {p}
  {
    forall n | n in Victims(nodes, p, true)
      ensures n == p
    {
      assert !(p < n);
    }
  }

  class Disk {
    var nodes: set<string>
    /** What `statfs` would report: bytes available. */
    var free: int
    /** The paths that eviction has passed to `unlink`, and the value of `free` just before each call. */
    ghost var tried: seq<string>
    ghost var unlinkedAt: seq<int>
    /** The value of `free` at each call of `statfs` that failed. */
    ghost var failedAt: seq<int>
    /** How often `statfs` has been called. */
    var asked: nat
    /** Whether each call of `statfs` works. */
    const statfs: nat -> bool
    /** Whether the other calls may fail for reasons outside the file tree. */
    const faulty: bool
    /** Whether free space never shrinks while the evictor runs. */
    const steady: bool

    constructor (nodes: set<string>, free: int, faulty: bool, steady: bool, statfs: nat -> bool)
      ensures this.nodes == nodes && this.free == free && asked == 0
      ensures tried == [] && unlinkedAt == [] && failedAt == []
      ensures this.faulty == faulty && this.steady == steady && this.statfs == statfs
    {
      this.nodes := nodes;
      this.free := free;
      this.faulty := faulty;
      this.steady := steady;
      this.statfs := statfs;
      this.tried := [];
      this.unlinkedAt := [];
      this.failedAt := [];
      this.asked := 0;
    }

    /** Freed blocks, and other activity on the device, change the free space. */
    method Drift()
      modifies this`free
      ensures steady ==> free >= old(free)
    {
      var change: int := *;
      free := free + (if steady && change < 0 then 0 else change);
    }

    /** Whether a call fails although the file tree would let it succeed. */
    method Fault() returns (fault: bool)
      ensures fault ==> faulty
    {
      fault := *;
      fault := fault && faulty;
    }

    /** `unlink` and `unlinkat`. */
    method Unlink(path: string) returns (ok: bool)
      modifies this`nodes, this`free
      ensures nodes == if ok then old(nodes) - {path} else old(nodes)
      ensures ok ==> path in old(nodes)
      ensures !faulty && path in old(nodes) ==> ok
      ensures steady ==> free >= old(free)
    {
      var fault := Fault();
      ok := path in nodes && !fault;
      if ok { nodes := nodes - {path}; }
      Drift();
    }

    /** The call of `unlink` on a file that is evicted. */
    method Evict(path: string) returns (ok: bool)
      modifies this`nodes, this`free, this`tried, this`unlinkedAt
      ensures nodes == if ok then old(nodes) - {path} else old(nodes)
      ensures ok ==> path in old(nodes)
      ensures !faulty && path in old(nodes) ==> ok
      ensures steady ==> free >= old(free)
      ensures tried == old(tried) + [path] && unlinkedAt == old(unlinkedAt) + [old(free)]
    {
      tried, unlinkedAt := tried + [path], unlinkedAt + [free];
      ok := Unlink(path);
    }

    /** `rmdir`: only an empty directory can go. */
    method Rmdir(path: string) returns (ok: bool)
      modifies this`nodes, this`free
      ensures nodes == if ok then old(nodes) - {path} else old(nodes)
      ensures ok ==> path in old(nodes) && NothingUnder(old(nodes), path)
      ensures !faulty && path in old(nodes) && NothingUnder(old(nodes), path) ==> ok
      ensures steady ==> free >= old(free)
    {
      var fault := Fault();
      ok := path in nodes && NothingUnder(nodes, path) && !fault;
      if ok { nodes := nodes - {path}; }
      Drift();
    }

    /** `delete_dir_contents`: carries on after each failure, and reports success exactly when
        nothing that it set out to remove is left.  Without the directory there is nothing to do. */
    method DeleteDirContents(path: string, also: bool) returns (ok: bool)
      modifies this`nodes, this`free
      ensures old(nodes) - Victims(old(nodes), path, also) <= nodes <= old(nodes)
      ensures path in old(nodes) ==> (ok <==> nodes == old(nodes) - Victims(old(nodes), path, also))
      ensures path !in old(nodes) ==> !ok && nodes == old(nodes)
      ensures !faulty && path in old(nodes) ==> ok
      ensures steady ==> free >= old(free)
    {
      var victims := Victims(nodes, path, also);
      var stuck: set<string> := *;
      stuck := if faulty then stuck * victims else {};
      ok := path in nodes && stuck == {};
      ghost var before := nodes;
      if path in nodes { nodes := nodes - (victims - stuck); }
      assert path in before ==> before - nodes == victims - stuck;
      assert stuck != {} ==> victims - stuck != victims;
      Drift();
    }

    /** `data_disk_free`. */
    method DataDiskFree() returns (avail: int)
      modifies this`asked, this`failedAt
      ensures asked == old(asked) + 1
      ensures avail == if statfs(old(asked)) then free else -1
      ensures failedAt == if statfs(old(asked)) then old(failedAt) else old(failedAt) + [free]
    {
      avail := if statfs(asked) then free else -1;
      if !statfs(asked) { failedAt := failedAt + [free]; }
      asked := asked + 1;
    }
  }
}
