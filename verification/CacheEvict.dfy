/**
 * `clear_cache_files`: the eviction of collected cache files, oldest first, with the removal of
 * directories cascading upwards.
 */
module CacheEvict {
  import opened Limits
  import opened CacheTree
  import opened CacheDisk
  import opened CacheStore
  import opened CachePath

  // ---------------------------------------------------------------- what a run may remove

  /** No file that is still to be visited lies below `d`. */
  ghost predicate Spent(c: Cache, v: nat, d: int)
    requires Shape(c)
  {
    0 <= d < |c.tree| && forall k :: v <= k < |c.files| ==> !Below(c.tree, c.files[k].dir, d)
  }

  /** What may go when directory `d` is removed: the directory itself, unless it is a root, and what is
      in it if hidden entries have been counted there. */
  ghost predicate TakenWith(c: Cache, d: int, n: string)
    requires Shape(c) && 0 <= d < |c.tree|
  {
    || (n == Path(c.tree, d) && c.tree[d].parent >= 0)
    || (Path(c.tree, d) < n && c.hiddenCount[d] > 0)
  }

  ghost predicate OnlyTaken(c: Cache, d: int, before: set<string>, after: set<string>)
    requires Shape(c) && 0 <= d < |c.tree|
  {
    after <= before && forall n :: n in before && n !in after ==> TakenWith(c, d, n)
  }

  /** `n` may be gone once `v` files have been visited: it is one of them, or it has been taken with a
      directory below which nothing is left to visit. */
  ghost predicate MayGo(c: Cache, v: nat, n: string)
    requires Shape(c) && v <= |c.files|
  {
    || (exists k :: 0 <= k < v && n == FilePath(c.tree, c.files[k]))
    || (exists d :: Spent(c, v, d) && TakenWith(c, d, n))
  }

  ghost predicate OnlyMayGo(c: Cache, v: nat, before: set<string>, after: set<string>)
    requires Shape(c) && v <= |c.files|
  {
    after <= before && forall n :: n in before && n !in after ==> MayGo(c, v, n)
  }

  /** An unvisited file is never among the nodes that may be gone. */
  lemma UnvisitedStays(c: Cache, v: nat, before: set<string>, after: set<string>, k: int)
    requires Shape(c) && v <= |c.files| && Named(c.tree) && FilesNamed(c.files)
    requires OnlyMayGo(c, v, before, after)
    requires v <= k < |c.files| && FilePath(c.tree, c.files[k]) in before
    ensures FilePath(c.tree, c.files[k]) in after
  {
    var n := FilePath(c.tree, c.files[k]);
    forall j | 0 <= j < v
      ensures n != FilePath(c.tree, c.files[j])
    {
      FilePathsDiffer(c.tree, c.files[j], c.files[k]);
    }
    forall d | 0 <= d < |c.tree| && Spent(c, v, d)
      ensures !(Path(c.tree, d) <= n)
    {
      FilePrefixIsAncestor(c.tree, d, c.files[k]);
    }
  }

  lemma AllUnvisitedStay(c: Cache, v: nat, before: set<string>, after: set<string>)
    requires Shape(c) && v <= |c.files| && Named(c.tree) && FilesNamed(c.files) && OnlyMayGo(c, v, before, after)
    ensures forall k :: v <= k < |c.files| && FilePath(c.tree, c.files[k]) in before ==>
                          FilePath(c.tree, c.files[k]) in after
  {
    forall k | v <= k < |c.files| && FilePath(c.tree, c.files[k]) in before
      ensures FilePath(c.tree, c.files[k]) in after
    {
      UnvisitedStays(c, v, before, after, k);
    }
  }

  lemma MayGoLater(c: Cache, c': Cache, v: nat, v': nat, n: string)
    requires Shape(c) && Shape(c') && v <= v' <= |c.files|
    requires c.tree == c'.tree && c.files == c'.files && c.hiddenCount == c'.hiddenCount
    requires MayGo(c, v, n)
    ensures MayGo(c', v', n)
  {
    if d :| Spent(c, v, d) && TakenWith(c, d, n) {
      assert Spent(c', v', d) && TakenWith(c', d, n);
    }
  }

  // ---------------------------------------------------------------- runs without failures

  /** `n` may be an entry of directory `d` itself that was counted and not collected. */
  ghost predicate HiddenIn(c: Cache, d: int, n: string)
    requires Shape(c) && 0 <= d < |c.tree|
  {
    var p := Path(c.tree, d);
    c.hiddenCount[d] > 0 && p < n && SlashFree(n[|p|..])
  }

  /** Everything below a collected directory is accounted for by what is left of the collection. */
  ghost predicate Covered(c: Cache, v: nat, n: string)
    requires Shape(c)
  {
    || (exists d :: 0 <= d < |c.tree| && !c.deleted[d] && n == Path(c.tree, d))
    || (exists k :: v <= k < |c.files| && n == FilePath(c.tree, c.files[k]))
    || (exists d :: 0 <= d < |c.tree| && !c.deleted[d] && HiddenIn(c, d, n))
  }

  ghost predicate Inside(c: Cache, n: string)
    requires Shape(c)
  {
    exists d :: 0 <= d < |c.tree| && Path(c.tree, d) < n
  }

  /** The collection and the disk agree: what is below the roots is accounted for, and of the
      collected files exactly the unvisited ones are there. */
  ghost predicate InStep(c: Cache, v: nat, nodes: set<string>)
    requires Shape(c)
  {
    && (forall n :: n in nodes && Inside(c, n) ==> Covered(c, v, n))
    && (forall d :: 0 <= d < |c.tree| && !c.deleted[d] ==> Path(c.tree, d) in nodes)
    && (forall k :: v <= k < |c.files| ==> FilePath(c.tree, c.files[k]) in nodes)
    && (forall k :: 0 <= k < v && k < |c.files| ==> FilePath(c.tree, c.files[k]) !in nodes)
  }

  /** A directory needs no further attention: it is gone, it still has something collected in it,
      or it is a root with nothing in it. */
  ghost predicate Settled(c: Cache, nodes: set<string>, d: int)
    requires Shape(c) && 0 <= d < |c.tree|
  {
    || c.deleted[d]
    || c.childCount[d] > 0
    || (c.tree[d].parent == -1 && NothingUnder(nodes, Path(c.tree, d)))
  }

  ghost predicate AllSettled(c: Cache, nodes: set<string>, from: int)
    requires Shape(c)
  {
    forall d :: 0 <= d < |c.tree| && from <= d ==> Settled(c, nodes, d)
  }

  /** In step with the disk, a directory with count zero holds nothing but entries of its own that were
      not collected. */
  lemma {:induction false} EmptyDirectory(c: Cache, v: nat, nodes: set<string>, d: int, n: string)
    requires Inv(c, v) && Named(c.tree) && FilesNamed(c.files) && InStep(c, v, nodes)
    requires 0 <= d < |c.tree| && !c.deleted[d] && c.childCount[d] == 0
    requires n in nodes && Path(c.tree, d) < n
    ensures HiddenIn(c, d, n)
    ensures forall e :: 0 <= e < |c.tree| && !c.deleted[e] ==> n != Path(c.tree, e)
    ensures forall k :: v <= k < |c.files| ==> n != FilePath(c.tree, c.files[k])
  {
    var P := Path(c.tree, d);
    assert Inside(c, n);
    forall e | 0 <= e < |c.tree| && !c.deleted[e]
      ensures n != Path(c.tree, e)
      ensures HiddenIn(c, e, n) ==> e == d
    {
      NotBelowEmpty(c, v, d, e, n);
    }
    forall k | v <= k < |c.files|
      ensures n != FilePath(c.tree, c.files[k])
    {
      NothingPendingBelow(c, v, d, k);
      FilePrefixIsAncestor(c.tree, d, c.files[k]);
    }
  }

  lemma {:induction false} NotBelowEmpty(c: Cache, v: nat, d: int, e: int, n: string)
    requires Inv(c, v) && Named(c.tree)
    requires 0 <= d < |c.tree| && c.childCount[d] == 0 && Path(c.tree, d) < n
    requires 0 <= e < |c.tree| && !c.deleted[e]
    ensures n != Path(c.tree, e)
    ensures HiddenIn(c, e, n) ==> e == d
  {
    var P, Q := Path(c.tree, d), Path(c.tree, e);
    if HiddenIn(c, e, n) { LastSlash(P, Q, n); }
    if P <= Q {
      PrefixIsAncestor(c.tree, d, e);
      if e != d { AliveAbove(c, v, e, d); }
    }
  }

  /** A directory above an entry of directory `q` is `q` or lies above it. */
  lemma LastSlash(p: string, q: string, n: string)
    requires p < n && q < n && p != [] && p[|p| - 1] == '/' && SlashFree(n[|q|..])
    ensures p <= q
  {
    var rest := n[|q|..];
    assert n == q + rest && p[|p| - 1] == n[|p| - 1];
    assert forall j :: 0 <= j < |rest| ==> rest[j] in rest;
  }

  // ---------------------------------------------------------------- how each step keeps in step

  lemma {:induction false} StillCovered(c: Cache, v: nat, d: int, n: string)
    requires Inv(c, v) && Covered(c, v, n)
    requires 0 <= d < |c.tree| && !c.deleted[d] && c.childCount[d] == 0 && c.tree[d].parent >= 0
    requires !(Path(c.tree, d) <= n)
    ensures Covered(Removed(c, d), v, n)
  {
    var c' := Removed(c, d);
    if e :| 0 <= e < |c.tree| && !c.deleted[e] && n == Path(c.tree, e) {
      assert !c'.deleted[e];
    } else if e :| 0 <= e < |c.tree| && !c.deleted[e] && HiddenIn(c, e, n) {
      assert !c'.deleted[e] && HiddenIn(c', e, n);
    }
  }

  lemma CoveredAfterVisit(c: Cache, v: nat, n: string)
    requires Inv(c, v) && v < |c.files| && Covered(c, v, n) && n != FilePath(c.tree, c.files[v])
    ensures Covered(Visited(c, v), v + 1, n)
  {
    var c' := Visited(c, v);
    if e :| 0 <= e < |c.tree| && !c.deleted[e] && n == Path(c.tree, e) {
      assert !c'.deleted[e];
    } else if e :| 0 <= e < |c.tree| && !c.deleted[e] && HiddenIn(c, e, n) {
      assert !c'.deleted[e] && HiddenIn(c', e, n);
    }
  }

  /** Removing an empty directory, with whatever hidden entries it has. */
  lemma {:induction false} AfterRemoval(c: Cache, v: nat, nodes: set<string>, after: set<string>, d: int)
    requires Inv(c, v) && Named(c.tree) && FilesNamed(c.files) && InStep(c, v, nodes)
    requires 0 <= d < |c.tree| && !c.deleted[d] && c.childCount[d] == 0 && c.tree[d].parent >= 0
    requires after == nodes - Victims(nodes, Path(c.tree, d), true)
    ensures InStep(Removed(c, d), v, after)
    ensures forall x :: 0 <= x < |c.tree| && (Settled(c, nodes, x) || x == d) && x != c.tree[d].parent ==>
                          Settled(Removed(c, d), after, x)
  {
    var c', P := Removed(c, d), Path(c.tree, d);
    forall n | n in after && Inside(c', n)
      ensures Covered(c', v, n)
    {
      assert Inside(c, n) && !(P <= n);
      StillCovered(c, v, d, n);
    }
    forall e | 0 <= e < |c.tree| && !c'.deleted[e]
      ensures Path(c.tree, e) in after
    {
      if P <= Path(c.tree, e) {
        PrefixIsAncestor(c.tree, d, e);
        AliveAbove(c, v, e, d);
      }
    }
    forall k | v <= k < |c.files|
      ensures FilePath(c.tree, c.files[k]) in after
    {
      NothingPendingBelow(c, v, d, k);
      FilePrefixIsAncestor(c.tree, d, c.files[k]);
    }
  }

  /** Clearing the hidden entries of an empty root. */
  lemma {:induction false} AfterRootCleared(c: Cache, v: nat, nodes: set<string>, after: set<string>, d: int)
    requires Inv(c, v) && Named(c.tree) && FilesNamed(c.files) && InStep(c, v, nodes)
    requires 0 <= d < |c.tree| && c.childCount[d] == 0 && c.tree[d].parent == -1
    requires after == nodes - Victims(nodes, Path(c.tree, d), false)
    ensures InStep(c, v, after) && Settled(c, after, d)
  {
    var P := Path(c.tree, d);
    forall e | 0 <= e < |c.tree| && !c.deleted[e]
      ensures Path(c.tree, e) in after
    {
      if P <= Path(c.tree, e) {
        PrefixIsAncestor(c.tree, d, e);
        if e != d { AliveAbove(c, v, e, d); }
      }
    }
    forall k | v <= k < |c.files|
      ensures FilePath(c.tree, c.files[k]) in after
    {
      NothingPendingBelow(c, v, d, k);
      FilePrefixIsAncestor(c.tree, d, c.files[k]);
    }
  }

  /** Unlinking the next file. */
  lemma AfterUnlink(c: Cache, v: nat, nodes: set<string>, after: set<string>)
    requires Inv(c, v) && Named(c.tree) && FilesNamed(c.files) && InStep(c, v, nodes)
    requires v < |c.files| && after == nodes - {FilePath(c.tree, c.files[v])}
    ensures Inv(Visited(c, v), v + 1) && InStep(Visited(c, v), v + 1, after)
    ensures forall x :: 0 <= x < |c.tree| && x != c.files[v].dir && Settled(c, nodes, x) ==>
                          Settled(Visited(c, v), after, x)
  {
    VisitedKeepsInv(c, v);
    OthersStillThere(c, v, nodes, after);
    RestStillCovered(c, v, nodes, after);
  }

  lemma OthersStillThere(c: Cache, v: nat, nodes: set<string>, after: set<string>)
    requires Inv(c, v) && Named(c.tree) && FilesNamed(c.files) && InStep(c, v, nodes)
    requires v < |c.files| && after == nodes - {FilePath(c.tree, c.files[v])}
    ensures forall e :: 0 <= e < |c.tree| && !c.deleted[e] ==> Path(c.tree, e) in after
    ensures forall k :: v + 1 <= k < |c.files| ==> FilePath(c.tree, c.files[k]) in after
  {
    forall e | 0 <= e < |c.tree| && !c.deleted[e]
      ensures Path(c.tree, e) in after
    {
      FileNotDir(c.tree, c.files[v], e);
    }
    forall k | v + 1 <= k < |c.files|
      ensures FilePath(c.tree, c.files[k]) in after
    {
      FilePathsDiffer(c.tree, c.files[v], c.files[k]);
    }
  }

  lemma RestStillCovered(c: Cache, v: nat, nodes: set<string>, after: set<string>)
    requires Inv(c, v) && v < |c.files| && Inv(Visited(c, v), v + 1) && InStep(c, v, nodes)
    requires after == nodes - {FilePath(c.tree, c.files[v])}
    ensures forall n :: n in after && Inside(Visited(c, v), n) ==> Covered(Visited(c, v), v + 1, n)
  {
    forall n | n in after && Inside(Visited(c, v), n)
      ensures Covered(Visited(c, v), v + 1, n)
    {
      assert Inside(c, n);
      CoveredAfterVisit(c, v, n);
    }
  }

  /** What a call of `delete_cache_dir` may remove. */
  lemma {:induction false} EmptyMayGo(c: Cache, v: nat, d: int, before: set<string>, after: set<string>)
    requires Inv(c, v) && 0 <= d < |c.tree| && c.childCount[d] == 0 && OnlyTaken(c, d, before, after)
    ensures OnlyMayGo(c, v, before, after)
  {
    forall k | v <= k < |c.files|
      ensures !Below(c.tree, c.files[k].dir, d)
    {
      NothingPendingBelow(c, v, d, k);
    }
    assert Spent(c, v, d);
  }

  lemma OnlyMayGoStep(c: Cache, c': Cache, v: nat, v': nat, a: set<string>, b: set<string>, b': set<string>)
    requires Shape(c) && Shape(c') && v <= v' <= |c.files|
    requires c.tree == c'.tree && c.files == c'.files && c.hiddenCount == c'.hiddenCount
    requires OnlyMayGo(c, v, a, b) && OnlyMayGo(c', v', b, b')
    ensures OnlyMayGo(c', v', a, b')
  {
    forall n | n in a && n !in b
      ensures MayGo(c', v', n)
    {
      MayGoLater(c, c', v, v', n);
    }
  }

  // ---------------------------------------------------------------- delete_cache_dir

  /** A directory is marked as deleted only when it is gone. */
  ghost predicate DeletedGone(c: Cache, nodes: set<string>)
    requires Shape(c)
  {
    forall x :: 0 <= x < |c.tree| && c.deleted[x] ==> Path(c.tree, x) !in nodes
  }

  /**
   * What `delete_cache_dir(d)` brings about, from `c` and `nodes` to `c'` and `nodes'`.
   * `clean` says that no call failed for reasons outside the file tree.
   */
  ghost predicate Cascaded(c: Cache, v: nat, nodes: set<string>, d: int, clean: bool,
                           c': Cache, nodes': set<string>)
    requires Shape(c)
  {
    && c'.tree == c.tree && c'.hiddenCount == c.hiddenCount && c'.files == c.files
    && Inv(c', v)
    && OnlyMayGo(c', v, nodes, nodes')
    && (forall x :: 0 <= x < |c.tree| && c.deleted[x] ==> c'.deleted[x])
    && (DeletedGone(c, nodes) ==> DeletedGone(c', nodes'))
    && (clean && InStep(c, v, nodes) ==> InStep(c', v, nodes') && Resettled(c, nodes, d, c', nodes'))
  }

  /** What was settled is settled, and so is `d`. */
  ghost predicate Resettled(c: Cache, nodes: set<string>, d: int, c': Cache, nodes': set<string>)
    requires Shape(c) && Shape(c') && c'.tree == c.tree
  {
    forall x :: 0 <= x < |c.tree| && (Settled(c, nodes, x) || x == d) ==> Settled(c', nodes', x)
  }

  /** The call that removes the directory itself failed. */
  lemma {:induction false} CascadeFails(c: Cache, v: nat, nodes: set<string>, d: int, clean: bool, nodes': set<string>)
    requires Inv(c, v) && Named(c.tree) && FilesNamed(c.files)
    requires 0 <= d < |c.tree| && !c.deleted[d] && c.childCount[d] == 0
    requires OnlyTaken(c, d, nodes, nodes')
    requires clean && Path(c.tree, d) in nodes ==> c.hiddenCount[d] <= 0 && !NothingUnder(nodes, Path(c.tree, d))
    ensures Cascaded(c, v, nodes, d, clean, c, nodes')
  {
    EmptyMayGo(c, v, d, nodes, nodes');
    if clean && InStep(c, v, nodes) {
      var n :| n in nodes && Path(c.tree, d) < n;
      EmptyDirectory(c, v, nodes, d, n);
    }
  }

  /** The directory is gone and its parent still has something in it. */
  lemma {:induction false} CascadeStops(c: Cache, v: nat, nodes: set<string>, d: int, clean: bool, nodes': set<string>)
    requires Inv(c, v) && Named(c.tree) && FilesNamed(c.files)
    requires 0 <= d < |c.tree| && !c.deleted[d] && c.childCount[d] == 0 && c.tree[d].parent >= 0
    requires nodes' == nodes - Victims(nodes, Path(c.tree, d), true) && OnlyTaken(c, d, nodes, nodes')
    requires c.childCount[c.tree[d].parent] > 1
    ensures Cascaded(c, v, nodes, d, clean, Removed(c, d), nodes')
  {
    RemovedKeepsInv(c, v, d);
    EmptyMayGo(c, v, d, nodes, nodes');
    OnlyMayGoStep(c, Removed(c, d), v, v, nodes, nodes', nodes');
    if clean && InStep(c, v, nodes) { StopSettles(c, v, nodes, d, nodes'); }
  }

  lemma {:induction false} StopSettles(c: Cache, v: nat, nodes: set<string>, d: int, nodes': set<string>)
    requires Inv(c, v) && Named(c.tree) && FilesNamed(c.files) && InStep(c, v, nodes)
    requires 0 <= d < |c.tree| && !c.deleted[d] && c.childCount[d] == 0 && c.tree[d].parent >= 0
    requires nodes' == nodes - Victims(nodes, Path(c.tree, d), true)
    requires c.childCount[c.tree[d].parent] > 1
    ensures InStep(Removed(c, d), v, nodes') && Resettled(c, nodes, d, Removed(c, d), nodes')
  {
    AfterRemoval(c, v, nodes, nodes', d);
  }

  /** The directory is gone and the cascade goes on with its parent. */
  lemma {:induction false} CascadeGoesUp(c: Cache, v: nat, nodes: set<string>, d: int, clean: bool, mid: set<string>,
                      c': Cache, nodes': set<string>)
    requires Inv(c, v) && Named(c.tree) && FilesNamed(c.files)
    requires 0 <= d < |c.tree| && !c.deleted[d] && c.childCount[d] == 0 && c.tree[d].parent >= 0
    requires mid == nodes - Victims(nodes, Path(c.tree, d), true) && OnlyTaken(c, d, nodes, mid)
    requires Inv(Removed(c, d), v)
    requires Cascaded(Removed(c, d), v, mid, c.tree[d].parent, clean, c', nodes')
    ensures Cascaded(c, v, nodes, d, clean, c', nodes')
  {
    EmptyMayGo(c, v, d, nodes, mid);
    OnlyMayGoStep(c, c', v, v, nodes, mid, nodes');
    assert DeletedGone(c, nodes) ==> DeletedGone(Removed(c, d), mid);
    if clean && InStep(c, v, nodes) { UpSettles(c, v, nodes, d, mid, c', nodes'); }
  }

  lemma {:induction false} UpSettles(c: Cache, v: nat, nodes: set<string>, d: int, mid: set<string>,
                                     c': Cache, nodes': set<string>)
    requires Inv(c, v) && Named(c.tree) && FilesNamed(c.files) && InStep(c, v, nodes)
    requires 0 <= d < |c.tree| && !c.deleted[d] && c.childCount[d] == 0 && c.tree[d].parent >= 0
    requires mid == nodes - Victims(nodes, Path(c.tree, d), true) && Inv(Removed(c, d), v)
    requires Cascaded(Removed(c, d), v, mid, c.tree[d].parent, true, c', nodes')
    ensures InStep(c', v, nodes') && Resettled(c, nodes, d, c', nodes')
  {
    AfterRemoval(c, v, nodes, mid, d);
    assert InStep(c', v, nodes') && Resettled(Removed(c, d), mid, c.tree[d].parent, c', nodes');
  }

  /** A root keeps its directory and loses its hidden entries. */
  lemma {:induction false} CascadeAtRoot(c: Cache, v: nat, nodes: set<string>, d: int, clean: bool, nodes': set<string>)
    requires Inv(c, v) && Named(c.tree) && FilesNamed(c.files)
    requires 0 <= d < |c.tree| && c.childCount[d] == 0 && c.tree[d].parent == -1
    requires nodes - Victims(nodes, Path(c.tree, d), false) <= nodes' <= nodes
    requires clean && Path(c.tree, d) in nodes && c.hiddenCount[d] > 0 ==>
               nodes' == nodes - Victims(nodes, Path(c.tree, d), false)
    requires c.hiddenCount[d] <= 0 ==> nodes' == nodes
    ensures Cascaded(c, v, nodes, d, clean, c, nodes')
  {
    assert OnlyTaken(c, d, nodes, nodes');
    EmptyMayGo(c, v, d, nodes, nodes');
    if clean && InStep(c, v, nodes) {
      if c.hiddenCount[d] > 0 {
        AfterRootCleared(c, v, nodes, nodes', d);
      } else {
        forall n | n in nodes
          ensures !(Path(c.tree, d) < n)
        {
          if Path(c.tree, d) < n { EmptyDirectory(c, v, nodes, d, n); }
        }
      }
    }
  }

  /** All paths of the collection fit a buffer of PATH_MAX characters, terminators included. */
  predicate Roomy(c: Cache)
    requires Shape(c)
  {
    && (forall d :: 0 <= d < |c.tree| ==> |Path(c.tree, d)| < PATH_MAX)
    && (forall k :: 0 <= k < |c.files| ==> |FilePath(c.tree, c.files[k])| < PATH_MAX)
  }

  /** The path of a directory, by way of the buffer. */
  method DirText(path: array<char>, cache: Store, d: int) returns (text: string)
    requires path.Length == PATH_MAX && Rooted(cache.tree) && 0 <= d < |cache.tree| && |Path(cache.tree, d)| < PATH_MAX
    modifies path
    ensures text == Path(cache.tree, d)
  {
    var end := CreateDirPath(path, cache.tree, d);
    text := path[..end];
  }

  /** Removes a directory, with its hidden entries if it has any. */
  method RemoveDir(path: array<char>, cache: Store, disk: Disk, d: int) returns (ok: bool)
    requires path.Length == PATH_MAX && Shape(cache.Snap()) && 0 <= d < |cache.tree| && |Path(cache.tree, d)| < PATH_MAX
    requires cache.tree[d].parent >= 0
    modifies path, disk`nodes, disk`free
    ensures ok ==> disk.nodes == old(disk.nodes) - Victims(old(disk.nodes), Path(cache.tree, d), true)
    ensures OnlyTaken(cache.Snap(), d, old(disk.nodes), disk.nodes)
    ensures !disk.faulty && !ok && Path(cache.tree, d) in old(disk.nodes) ==>
              cache.hiddenCount[d] <= 0 && !NothingUnder(old(disk.nodes), Path(cache.tree, d))
    ensures disk.steady ==> disk.free >= old(disk.free)
  {
    var text := DirText(path, cache, d);
    if cache.hiddenCount[d] <= 0 {
      ok := disk.Rmdir(text);
      if ok { JustItself(old(disk.nodes), text); }
    } else {
      ok := disk.DeleteDirContents(text, true);
    }
  }

  /** The path of a file, by way of the buffer. */
  method FileText(path: array<char>, cache: Store, f: File) returns (text: string)
    requires path.Length == PATH_MAX && Rooted(cache.tree) && 0 <= f.dir < |cache.tree|
             && |FilePath(cache.tree, f)| < PATH_MAX
    modifies path
    ensures text == FilePath(cache.tree, f)
  {
    var end := CreateFilePath(path, cache.tree, f);
    text := path[..end];
  }

  /**
   * `delete_cache_dir`.  It is only ever entered for a directory that has not been deleted, and
   * it goes up the tree while counts drop to zero.
   */
  method DeleteCacheDir(path: array<char>, cache: Store, disk: Disk, d: int, ghost v: nat)
    requires path.Length == PATH_MAX
    requires Inv(cache.Snap(), v) && Named(cache.tree) && FilesNamed(cache.files) && Roomy(cache.Snap())
    requires 0 <= d < |cache.tree| && !cache.deleted[d] && cache.childCount[d] <= 0
    modifies path, cache`childCount, cache`deleted, disk`nodes, disk`free
    ensures Cascaded(old(cache.Snap()), v, old(disk.nodes), d, !disk.faulty, cache.Snap(), disk.nodes)
    ensures disk.steady ==> disk.free >= old(disk.free)
    decreases d, 1
  {
    ghost var c, nodes := cache.Snap(), disk.nodes;
    var p := cache.tree[d].parent;
    if p >= 0 {
      var ok := RemoveDir(path, cache, disk, d);
      if !ok {
        CascadeFails(c, v, nodes, d, !disk.faulty, disk.nodes);
        return;
      }
      DirGone(path, cache, disk, d, v, nodes);
    } else {
      if cache.hiddenCount[d] > 0 {
        var text := DirText(path, cache, d);
        var _ := disk.DeleteDirContents(text, false);
      }
      CascadeAtRoot(c, v, nodes, d, !disk.faulty, disk.nodes);
    }
  }

  method MarkRemoved(cache: Store, d: int)
    requires Shape(cache.Snap()) && 0 <= d < |cache.tree| && cache.tree[d].parent >= 0
    modifies cache`childCount, cache`deleted
    ensures cache.Snap() == Removed(old(cache.Snap()), d)
  {
    var p := cache.tree[d].parent;
    cache.childCount := cache.childCount[p := cache.childCount[p] - 1];
    cache.deleted := cache.deleted[d := true];
  }

  /** The rest of `delete_cache_dir` once the directory itself is gone; before, the nodes were `nodes`. */
  method DirGone(path: array<char>, cache: Store, disk: Disk, d: int, ghost v: nat, ghost nodes: set<string>)
    requires path.Length == PATH_MAX
    requires Inv(cache.Snap(), v) && Named(cache.tree) && FilesNamed(cache.files) && Roomy(cache.Snap())
    requires 0 <= d < |cache.tree| && !cache.deleted[d] && cache.childCount[d] == 0 && cache.tree[d].parent >= 0
    requires disk.nodes == nodes - Victims(nodes, Path(cache.tree, d), true)
    requires OnlyTaken(cache.Snap(), d, nodes, disk.nodes)
    modifies path, cache`childCount, cache`deleted, disk`nodes, disk`free
    ensures Cascaded(old(cache.Snap()), v, nodes, d, !disk.faulty, cache.Snap(), disk.nodes)
    ensures disk.steady ==> disk.free >= old(disk.free)
    decreases d, 0
  {
    ghost var c, mid := cache.Snap(), disk.nodes;
    var p := cache.tree[d].parent;
    RemovedKeepsInv(c, v, d);
    MarkRemoved(cache, d);
    if cache.childCount[p] <= 0 {
      DeleteCacheDir(path, cache, disk, p, v);
      CascadeGoesUp(c, v, nodes, d, !disk.faulty, mid, cache.Snap(), disk.nodes);
    } else {
      CascadeStops(c, v, nodes, d, !disk.faulty, disk.nodes);
    }
  }

  // ---------------------------------------------------------------- qsort by modification time

  predicate Sorted(fs: seq<File>) {
    forall k, l :: 0 <= k < l < |fs| ==> fs[k].modTime <= fs[l].modTime
  }

  function InsertByTime(f: File, fs: seq<File>): (r: seq<File>)
    ensures multiset(r) == multiset(fs) + multiset{f}
  {
    if fs == [] || f.modTime <= fs[0].modTime then
      [f] + fs
    else
      assert fs == [fs[0]] + fs[1..];
      [fs[0]] + InsertByTime(f, fs[1..])
  }

  lemma {:induction false} InsertKeepsSorted(f: File, fs: seq<File>)
    requires Sorted(fs)
    ensures Sorted(InsertByTime(f, fs))
  {
    if fs != [] && f.modTime > fs[0].modTime {
      var rest := InsertByTime(f, fs[1..]);
      InsertKeepsSorted(f, fs[1..]);
      forall k | 0 <= k < |rest|
        ensures fs[0].modTime <= rest[k].modTime
      {
        Among(f, fs[1..], rest, k);
      }
    }
  }

  lemma Among(f: File, fs: seq<File>, r: seq<File>, k: nat)
    requires multiset(r) == multiset(fs) + multiset{f} && k < |r|
    ensures r[k] == f || r[k] in fs
  {
    assert r[k] in multiset(r);
  }

  /** `qsort` with `cache_modtime_sort`.  Callers may rely on the order and on the contents, not
      on the order of files with equal times. */
  function SortByModTime(fs: seq<File>): (r: seq<File>)
    ensures Sorted(r) && multiset(r) == multiset(fs)
  {
    if fs == [] then [] else
      assert fs == [fs[0]] + fs[1..];
      var rest := SortByModTime(fs[1..]);
      InsertKeepsSorted(fs[0], rest);
      InsertByTime(fs[0], rest)
  }

  /** Reordering the files does not disturb the collection. */
  lemma SortingKeepsInv(c: Cache, fs: seq<File>)
    requires Inv(c, 0) && FilesNamed(c.files) && multiset(fs) == multiset(c.files)
    ensures Inv(c.(files := fs), 0)
  {
    var c' := c.(files := fs);
    forall k | 0 <= k < |fs|
      ensures 0 <= fs[k].dir < |c.tree|
    {
      assert fs[k] in multiset(c.files);
    }
    assert c.files[0..] == c.files && fs[0..] == fs;
    forall d | 0 <= d < |c.tree|
      ensures c'.childCount[d] == |Kids(c', d)| + FilesIn(c'.files[0..], d)
    {
      assert Kids(c', d) == Kids(c, d);
      FilesInPermutation(c.files, fs, d);
    }
  }

  lemma SortingKeepsInStep(c: Cache, fs: seq<File>, nodes: set<string>)
    requires Inv(c, 0) && multiset(fs) == multiset(c.files) && InStep(c, 0, nodes) && Shape(c.(files := fs))
    ensures InStep(c.(files := fs), 0, nodes)
  {
    var c' := c.(files := fs);
    forall n | n in nodes && Inside(c', n)
      ensures Covered(c', 0, n)
    {
      assert Inside(c, n) && Covered(c, 0, n);
      if k :| 0 <= k < |c.files| && n == FilePath(c.tree, c.files[k]) {
        assert c.files[k] in multiset(fs);
        var l :| 0 <= l < |fs| && fs[l] == c.files[k];
      } else if d :| 0 <= d < |c.tree| && !c.deleted[d] && HiddenIn(c, d, n) {
        assert HiddenIn(c', d, n);
      }
    }
    forall k | 0 <= k < |fs|
      ensures FilePath(c.tree, fs[k]) in nodes
    {
      assert fs[k] in multiset(c.files);
    }
  }

  lemma SortingKeepsRoom(c: Cache, fs: seq<File>)
    requires Shape(c) && Roomy(c) && multiset(fs) == multiset(c.files) && Shape(c.(files := fs))
    ensures Roomy(c.(files := fs))
  {
    forall k | 0 <= k < |fs|
      ensures |FilePath(c.tree, fs[k])| < PATH_MAX
    {
      assert fs[k] in multiset(c.files);
    }
  }

  lemma SortingKeepsNames(fs: seq<File>, gs: seq<File>)
    requires FilesNamed(fs) && multiset(fs) == multiset(gs)
    ensures FilesNamed(gs)
  {
    forall k | 0 <= k < |gs|
      ensures gs[k] in fs
    {
      assert gs[k] in multiset(fs);
    }
    forall k, l | 0 <= k < l < |gs| && gs[k].dir == gs[l].dir
      ensures gs[k].name != gs[l].name
    {
      var x, y := gs[k], gs[l];
      assert x in fs && y in fs;
      if x == y {
        Twice(gs, k, l);
        NamedOnce(fs, x);
      } else {
        var i :| 0 <= i < |fs| && fs[i] == x;
        var j :| 0 <= j < |fs| && fs[j] == y;
      }
    }
  }

  lemma Twice(fs: seq<File>, k: int, l: int)
    requires 0 <= k < l < |fs| && fs[k] == fs[l]
    ensures multiset(fs)[fs[k]] >= 2
  {
    assert fs == fs[..l] + fs[l..];
    assert fs[k] in fs[..l] && fs[l] in fs[l..];
  }

  lemma {:induction false} NamedOnce(fs: seq<File>, x: File)
    requires FilesNamed(fs)
    ensures multiset(fs)[x] <= 1
  {
    if fs != [] {
      NamedOnce(fs[1..], x);
      assert fs == [fs[0]] + fs[1..];
      if x == fs[0] { assert x !in fs[1..]; }
    }
  }

  /** The call of `qsort` on a collection. */
  method SortFiles(cache: Store, ghost nodes: set<string>)
    requires Inv(cache.Snap(), 0) && Named(cache.tree) && FilesNamed(cache.files) && Roomy(cache.Snap())
    modifies cache`files
    ensures Sorted(cache.files) && multiset(cache.files) == multiset(old(cache.files))
    ensures Inv(cache.Snap(), 0) && FilesNamed(cache.files) && Roomy(cache.Snap())
    ensures old(InStep(cache.Snap(), 0, nodes)) ==> InStep(cache.Snap(), 0, nodes)
  {
    ghost var c := cache.Snap();
    cache.files := SortByModTime(cache.files);
    SortingKeepsInv(c, cache.files);
    SortingKeepsNames(c.files, cache.files);
    SortingKeepsRoom(c, cache.files);
    if InStep(c, 0, nodes) { SortingKeepsInStep(c, cache.files, nodes); }
    assert cache.Snap() == c.(files := cache.files);
  }

  // ---------------------------------------------------------------- clear_cache_files

  /** What the first loop has brought about when directories `i` and up have been looked at. */
  ghost predicate Cleaned(c: Cache, nodes: set<string>, clean: bool, c': Cache, nodes': set<string>, i: int)
    requires Shape(c)
  {
    && c'.tree == c.tree && c'.hiddenCount == c.hiddenCount && c'.files == c.files
    && Inv(c', 0) && OnlyMayGo(c', 0, nodes, nodes')
    && (DeletedGone(c, nodes) ==> DeletedGone(c', nodes'))
    && (clean && InStep(c, 0, nodes) ==> InStep(c', 0, nodes') && AllSettled(c', nodes', i))
  }

  lemma CleanedNone(c: Cache, nodes: set<string>, clean: bool)
    requires Inv(c, 0)
    ensures Cleaned(c, nodes, clean, c, nodes, |c.tree|)
  {
  }

  lemma CleanedStep(c: Cache, nodes: set<string>, clean: bool, c1: Cache, nodes1: set<string>, i: nat,
                    c2: Cache, nodes2: set<string>)
    requires Shape(c) && i < |c.tree| && Cleaned(c, nodes, clean, c1, nodes1, i + 1)
    requires if c1.childCount[i] <= 0 && !c1.deleted[i] then Cascaded(c1, 0, nodes1, i, clean, c2, nodes2)
             else c2 == c1 && nodes2 == nodes1
    ensures Cleaned(c, nodes, clean, c2, nodes2, i)
  {
    OnlyMayGoStep(c1, c2, 0, 0, nodes, nodes1, nodes2);
  }

  /** The body of the first loop of `clear_cache_files`. */
  method CleanNext(path: array<char>, cache: Store, disk: Disk, i: nat, ghost c0: Cache, ghost nodes0: set<string>)
    returns (ghost c: Cache, ghost nodes: set<string>)
    requires path.Length == PATH_MAX
    requires Shape(c0) && Named(c0.tree) && FilesNamed(c0.files) && Roomy(c0) && i < |c0.tree|
    requires Cleaned(c0, nodes0, !disk.faulty, cache.Snap(), disk.nodes, i + 1)
    modifies path, cache`childCount, cache`deleted, disk`nodes, disk`free
    ensures c == cache.Snap() && nodes == disk.nodes && (disk.steady ==> disk.free >= old(disk.free))
    ensures Cleaned(c0, nodes0, !disk.faulty, c, nodes, i)
  {
    ghost var c1, nodes1 := cache.Snap(), disk.nodes;
    if cache.childCount[i] <= 0 && !cache.deleted[i] {
      DeleteCacheDir(path, cache, disk, i, 0);
    }
    c, nodes := cache.Snap(), disk.nodes;
    CleanedStep(c0, nodes0, !disk.faulty, c1, nodes1, i, c, nodes);
  }

  /** The first loop of `clear_cache_files`: directories in which nothing was collected. */
  method CleanEmptyDirs(path: array<char>, cache: Store, disk: Disk)
    requires path.Length == PATH_MAX
    requires Inv(cache.Snap(), 0) && Named(cache.tree) && FilesNamed(cache.files) && Roomy(cache.Snap())
    modifies path, cache`childCount, cache`deleted, disk`nodes, disk`free
    ensures Inv(cache.Snap(), 0)
    ensures OnlyMayGo(cache.Snap(), 0, old(disk.nodes), disk.nodes)
    ensures old(DeletedGone(cache.Snap(), disk.nodes)) ==> DeletedGone(cache.Snap(), disk.nodes)
    ensures disk.steady ==> disk.free >= old(disk.free)
    ensures !disk.faulty && old(InStep(cache.Snap(), 0, disk.nodes)) ==>
              InStep(cache.Snap(), 0, disk.nodes) && AllSettled(cache.Snap(), disk.nodes, 0)
  {
    ghost var c0, nodes0 := cache.Snap(), disk.nodes;
    ghost var c, nodes := c0, nodes0;
    var i := |cache.tree|;
    CleanedNone(c0, nodes0, !disk.faulty);
    while i > 0
      invariant 0 <= i <= |c0.tree| && c == cache.Snap() && nodes == disk.nodes
      invariant Cleaned(c0, nodes0, !disk.faulty, c, nodes, i)
      invariant disk.steady ==> disk.free >= old(disk.free)
    {
      i := i - 1;
      c, nodes := CleanNext(path, cache, disk, i, c0, nodes0);
    }
  }

  /** What visiting files `v..v'` brings about. */
  ghost predicate Trimmed(c: Cache, v: nat, nodes: set<string>, clean: bool,
                          c': Cache, v': nat, nodes': set<string>)
    requires Shape(c)
  {
    && c'.tree == c.tree && c'.hiddenCount == c.hiddenCount && c'.files == c.files
    && v <= v' && Inv(c', v')
    && OnlyMayGo(c', v', nodes, nodes')
    && (DeletedGone(c, nodes) ==> DeletedGone(c', nodes'))
    && (clean ==> forall k :: v <= k < v' ==> FilePath(c.tree, c.files[k]) !in nodes')
    && (clean && InStep(c, v, nodes) && AllSettled(c, nodes, 0) ==>
          InStep(c', v', nodes') && AllSettled(c', nodes', 0))
  }

  lemma TrimmedStep(c: Cache, v: nat, nodes: set<string>, clean: bool,
                    c1: Cache, v1: nat, nodes1: set<string>, c2: Cache, v2: nat, nodes2: set<string>)
    requires Shape(c) && Trimmed(c, v, nodes, clean, c1, v1, nodes1)
    requires Trimmed(c1, v1, nodes1, clean, c2, v2, nodes2)
    ensures Trimmed(c, v, nodes, clean, c2, v2, nodes2)
  {
    OnlyMayGoStep(c1, c2, v1, v2, nodes, nodes1, nodes2);
  }

  lemma TrimmedNone(c: Cache, nodes: set<string>, clean: bool)
    requires Inv(c, 0)
    ensures Trimmed(c, 0, nodes, clean, c, 0, nodes)
  {
  }

  /** From `before` to `after`, the first `v` files have been passed to `unlink`, in their order. */
  ghost predicate InTurn(c: Cache, v: nat, before: seq<string>, after: seq<string>)
    requires Shape(c) && v <= |c.files|
  {
    && before <= after && |after| == |before| + v
    && forall k :: 0 <= k < v ==> after[|before| + k] == FilePath(c.tree, c.files[k])
  }

  lemma InTurnStep(c: Cache, c': Cache, v: nat, before: seq<string>, after: seq<string>)
    requires Shape(c) && Shape(c') && c'.tree == c.tree && c'.files == c.files && v < |c.files|
    requires InTurn(c, v, before, after)
    ensures InTurn(c', v + 1, before, after + [FilePath(c.tree, c.files[v])])
  {
  }

  /** The free space is looked at before every eleventh file.  A look that fails is taken for -1. */
  method CheckSpace(disk: Disk, target: int, skip: int) returns (skip': int, enough: bool)
    requires 0 <= skip <= 10
    modifies disk`asked, disk`failedAt
    ensures skip < 10 ==> skip' == skip + 1 && !enough && disk.asked == old(disk.asked)
                          && disk.failedAt == old(disk.failedAt)
    ensures skip == 10 ==>
              var works := disk.statfs(old(disk.asked));
              && disk.asked == old(disk.asked) + 1
              && (enough <==> (if works then disk.free else -1) > target) && (!enough ==> skip' == 0)
              && disk.failedAt == if works then old(disk.failedAt) else old(disk.failedAt) + [disk.free]
  {
    skip', enough := skip + 1, false;
    if skip' > 10 {
      var avail := disk.DataDiskFree();
      if avail > target { return skip', true; }
      skip' := 0;
    }
  }

  /** One file and the cascade after it: `mid` is what the unlink left. */
  lemma VisitTrims(c: Cache, v: nat, nodes: set<string>, clean: bool, mid: set<string>, c': Cache, nodes': set<string>)
    requires Inv(c, v) && Named(c.tree) && FilesNamed(c.files) && v < |c.files| && Inv(Visited(c, v), v + 1)
    requires nodes - {FilePath(c.tree, c.files[v])} <= mid <= nodes
    requires clean ==> FilePath(c.tree, c.files[v]) !in mid
    requires if Visited(c, v).childCount[c.files[v].dir] <= 0
             then Cascaded(Visited(c, v), v + 1, mid, c.files[v].dir, clean, c', nodes')
             else c' == Visited(c, v) && nodes' == mid
    ensures Trimmed(c, v, nodes, clean, c', v + 1, nodes')
  {
    var c1 := Visited(c, v);
    UnlinkMayGo(c, c1, v, nodes, mid);
    OnlyMayGoStep(c1, c', v + 1, v + 1, nodes, mid, nodes');
    if clean && InStep(c, v, nodes) && AllSettled(c, nodes, 0) { VisitSettles(c, v, nodes, mid, c', nodes'); }
  }

  lemma VisitSettles(c: Cache, v: nat, nodes: set<string>, mid: set<string>, c': Cache, nodes': set<string>)
    requires Inv(c, v) && Named(c.tree) && FilesNamed(c.files) && v < |c.files| && Inv(Visited(c, v), v + 1)
    requires mid == nodes - {FilePath(c.tree, c.files[v])}
    requires if Visited(c, v).childCount[c.files[v].dir] <= 0
             then Cascaded(Visited(c, v), v + 1, mid, c.files[v].dir, true, c', nodes')
             else c' == Visited(c, v) && nodes' == mid
    requires InStep(c, v, nodes) && AllSettled(c, nodes, 0)
    ensures InStep(c', v + 1, nodes') && AllSettled(c', nodes', 0)
  {
    AfterUnlink(c, v, nodes, mid);
    var c1, d := Visited(c, v), c.files[v].dir;
    assert forall x :: 0 <= x < |c.tree| && x != d ==> Settled(c1, mid, x);
  }

  lemma UnlinkMayGo(c: Cache, c1: Cache, v: nat, nodes: set<string>, mid: set<string>)
    requires Shape(c) && v < |c.files| && Shape(c1) && c1.tree == c.tree && c1.files == c.files
    requires nodes - {FilePath(c.tree, c.files[v])} <= mid <= nodes
    ensures OnlyMayGo(c1, v + 1, nodes, mid)
  {
  }

  /** The next file is unlinked and no longer counted. */
  method UnlinkFile(path: array<char>, cache: Store, disk: Disk, v: nat)
    requires path.Length == PATH_MAX && Inv(cache.Snap(), v) && v < |cache.files| && Roomy(cache.Snap())
    modifies path, cache`childCount, disk`nodes, disk`free, disk`tried, disk`unlinkedAt
    ensures cache.Snap() == Visited(old(cache.Snap()), v) && Inv(cache.Snap(), v + 1)
    ensures !cache.deleted[cache.files[v].dir]
    ensures old(disk.nodes) - {FilePath(cache.tree, cache.files[v])} <= disk.nodes <= old(disk.nodes)
    ensures !disk.faulty ==> FilePath(cache.tree, cache.files[v]) !in disk.nodes
    ensures disk.steady ==> disk.free >= old(disk.free)
    ensures disk.tried == old(disk.tried) + [FilePath(cache.tree, cache.files[v])]
    ensures disk.unlinkedAt == old(disk.unlinkedAt) + [old(disk.free)]
  {
    var d := cache.files[v].dir;
    VisitedKeepsInv(cache.Snap(), v);
    var text := FileText(path, cache, cache.files[v]);
    var _ := disk.Evict(text);
    cache.childCount := cache.childCount[d := cache.childCount[d] - 1];
  }

  /** The body of the second loop for one file: unlink it, then let the directory removal cascade. */
  method VisitFile(path: array<char>, cache: Store, disk: Disk, v: nat)
    requires path.Length == PATH_MAX && Inv(cache.Snap(), v) && v < |cache.files|
    requires Named(cache.tree) && FilesNamed(cache.files) && Roomy(cache.Snap())
    modifies path, cache`childCount, cache`deleted, disk`nodes, disk`free, disk`tried, disk`unlinkedAt
    ensures Trimmed(old(cache.Snap()), v, old(disk.nodes), !disk.faulty, cache.Snap(), v + 1, disk.nodes)
    ensures disk.steady ==> disk.free >= old(disk.free)
    ensures disk.tried == old(disk.tried) + [FilePath(cache.tree, cache.files[v])]
    ensures disk.unlinkedAt == old(disk.unlinkedAt) + [old(disk.free)]
  {
    ghost var c, nodes := cache.Snap(), disk.nodes;
    var d := cache.files[v].dir;
    UnlinkFile(path, cache, disk, v);
    ghost var mid := disk.nodes;
    if cache.childCount[d] <= 0 {
      DeleteCacheDir(path, cache, disk, d, v + 1);
    }
    VisitTrims(c, v, nodes, !disk.faulty, mid, cache.Snap(), disk.nodes);
  }

  /** The same, as the next step of a whole run from `c0` and `nodes0`. */
  method VisitNext(path: array<char>, cache: Store, disk: Disk, v: nat, ghost c0: Cache, ghost nodes0: set<string>,
                   ghost tried0: seq<string>)
    returns (next: nat, ghost c: Cache, ghost nodes: set<string>)
    requires path.Length == PATH_MAX && Shape(c0) && Trimmed(c0, 0, nodes0, !disk.faulty, cache.Snap(), v, disk.nodes)
    requires InTurn(cache.Snap(), v, tried0, disk.tried)
    requires v < |cache.files| && Named(cache.tree) && FilesNamed(cache.files) && Roomy(cache.Snap())
    modifies path, cache`childCount, cache`deleted, disk`nodes, disk`free, disk`tried, disk`unlinkedAt
    ensures next == v + 1 && c == cache.Snap() && nodes == disk.nodes
    ensures Trimmed(c0, 0, nodes0, !disk.faulty, c, next, nodes) && InTurn(c, next, tried0, disk.tried)
    ensures disk.steady ==> disk.free >= old(disk.free)
    ensures disk.unlinkedAt == old(disk.unlinkedAt) + [old(disk.free)]
  {
    ghost var before, was, tried := cache.Snap(), disk.nodes, disk.tried;
    VisitFile(path, cache, disk, v);
    next, c, nodes := v + 1, cache.Snap(), disk.nodes;
    InTurnStep(before, c, v, tried0, tried);
    TrimmedStep(c0, 0, nodes0, !disk.faulty, before, v, was, c, next, nodes);
  }

  /** Of the unlinks logged from index `from` on, those made while the free space already exceeded
      the target are among the last `most`. */
  ghost predicate Overshoot(log: seq<int>, from: nat, target: int, most: int) {
    forall j :: from <= j < |log| && log[j] > target ==> |log| - j <= most
  }

  ghost predicate AtMost(log: seq<int>, from: nat, free: int) {
    forall j :: from <= j < |log| ==> log[j] <= free
  }

  /** How many of the failed looks from index `from` on were made while there was enough space. */
  ghost function Misses(failed: seq<int>, from: nat, target: int): nat {
    if |failed| <= from then 0
    else Misses(failed[..|failed| - 1], from, target) + (if failed[|failed| - 1] > target then 1 else 0)
  }

  lemma {:induction false} MissesMore(failed: seq<int>, from: nat, target: int, free: int)
    requires from <= |failed|
    ensures Misses(failed + [free], from, target) == Misses(failed, from, target) + (if free > target then 1 else 0)
  {
    assert (failed + [free])[..|failed|] == failed;
  }

  /** Ten files may follow after there is enough space, and eleven more for each look that fails. */
  ghost function MostAfter(failed: seq<int>, from: nat, target: int, skip: int): int {
    skip + 11 * Misses(failed, from, target)
  }

  /** One turn: what the counter and the looks allow, for a file unlinked when `free` was available. */
  lemma OvershootStep(log: seq<int>, from: nat, target: int, skip: int, failed: seq<int>, base: nat, free: int,
                      skip': int, failed': seq<int>, free': int)
    requires 0 <= skip <= 10 && from <= |log| && base <= |failed| && free <= free' && AtMost(log, from, free)
    requires Overshoot(log, from, target, MostAfter(failed, base, target, skip))
    requires skip < 10 ==> skip' == skip + 1 && failed' == failed
    requires skip == 10 ==> skip' == 0 && (failed' == failed + [free] || (failed' == failed && free <= target))
    ensures Overshoot(log + [free], from, target, MostAfter(failed', base, target, skip'))
    ensures AtMost(log + [free], from, free')
  {
    if failed' == failed + [free] { MissesMore(failed, base, target, free); }
  }

  /** No unlink was made with less space than `least`. */
  ghost predicate AtLeast(log: seq<int>, from: nat, least: int) {
    forall j :: from <= j < |log| ==> log[j] >= least
  }

  /** The last look at the free space ended the loop. */
  ghost predicate StoppedByLook(disk: Disk, asked: nat, target: int)
    reads disk
  {
    disk.asked > asked && (if disk.statfs(disk.asked - 1) then disk.free else -1) > target
  }

  /** The free space has been looked at before files 10, 21, 32 and so on, and before no others; the loop
      ended early only at such a file: `11 * n - 1` files have gone before look number `n`. */
  ghost predicate LooksMade(visited: nat, files: nat, before: nat, after: nat) {
    before <= after &&
    if visited < files then visited == 11 * (after - before) - 1
    else 11 * (after - before) <= visited < 11 * (after - before) + 11
  }

  /** Where the second loop stands with the space. */
  ghost predicate Budget(disk: Disk, from: nat, base: nat, target: int, skip: int, least: int)
    reads disk
  {
    && Overshoot(disk.unlinkedAt, from, target, MostAfter(disk.failedAt, base, target, skip))
    && AtMost(disk.unlinkedAt, from, disk.free) && AtLeast(disk.unlinkedAt, from, least) && disk.free >= least
  }

  /** One turn of the second loop: it ends with a look at the space, or visits file `v`. */
  method TrimNext(path: array<char>, cache: Store, disk: Disk, v: nat, target: int, skip: int,
                  ghost c0: Cache, ghost nodes0: set<string>, ghost tried0: seq<string>,
                  ghost from: nat, ghost base: nat, ghost least: int)
    returns (enough: bool, next: nat, skip': int, ghost c: Cache, ghost nodes: set<string>)
    requires path.Length == PATH_MAX && Shape(c0) && Trimmed(c0, 0, nodes0, !disk.faulty, cache.Snap(), v, disk.nodes)
    requires InTurn(cache.Snap(), v, tried0, disk.tried)
    requires v < |cache.files| && Named(cache.tree) && FilesNamed(cache.files) && Roomy(cache.Snap())
    requires 0 <= skip <= 10 && from <= |disk.unlinkedAt| && base <= |disk.failedAt|
    requires disk.steady ==> Budget(disk, from, base, target, skip, least)
    modifies path, cache`childCount, cache`deleted, disk
    ensures c == cache.Snap() && nodes == disk.nodes && base <= |disk.failedAt|
    ensures Trimmed(c0, 0, nodes0, !disk.faulty, c, next, nodes) && InTurn(c, next, tried0, disk.tried)
    ensures |disk.unlinkedAt| == |old(disk.unlinkedAt)| + next - v
    ensures disk.asked == old(disk.asked) + (if skip == 10 then 1 else 0)
    ensures enough ==> next == v && skip == 10 && StoppedByLook(disk, old(disk.asked), target)
                       && (disk.steady ==> Overshoot(disk.unlinkedAt, from, target,
                                                     MostAfter(disk.failedAt, base, target, 10))
                                           && AtLeast(disk.unlinkedAt, from, least))
    ensures !enough ==> next == v + 1 && skip' == (if skip == 10 then 0 else skip + 1)
                        && (disk.steady ==> Budget(disk, from, base, target, skip', least))
  {
    ghost var log, failed := disk.unlinkedAt, disk.failedAt;
    next, c, nodes := v, cache.Snap(), disk.nodes;
    skip', enough := CheckSpace(disk, target, skip);
    if enough { return; }
    ghost var free, failed' := disk.free, disk.failedAt;
    next, c, nodes := VisitNext(path, cache, disk, v, c0, nodes0, tried0);
    if disk.steady { OvershootStep(log, from, target, skip, failed, base, free, skip', failed', disk.free); }
  }

  /** The second loop of `clear_cache_files`; returns how many files were visited. */
  method TrimFiles(path: array<char>, cache: Store, disk: Disk, target: int) returns (visited: nat)
    requires path.Length == PATH_MAX
    requires Inv(cache.Snap(), 0) && Named(cache.tree) && FilesNamed(cache.files) && Roomy(cache.Snap())
    modifies path, cache`childCount, cache`deleted, disk
    ensures Trimmed(old(cache.Snap()), 0, old(disk.nodes), !disk.faulty, cache.Snap(), visited, disk.nodes)
    ensures visited < |cache.files| ==> StoppedByLook(disk, old(disk.asked), target)
    ensures InTurn(cache.Snap(), visited, old(disk.tried), disk.tried)
    ensures |disk.unlinkedAt| == |old(disk.unlinkedAt)| + visited
    ensures |old(disk.failedAt)| <= |disk.failedAt| && old(disk.asked) <= disk.asked
    ensures LooksMade(visited, |cache.files|, old(disk.asked), disk.asked)
    ensures disk.steady ==> Overshoot(disk.unlinkedAt, |old(disk.unlinkedAt)|, target,
                                      MostAfter(disk.failedAt, |old(disk.failedAt)|, target, 10))
    ensures disk.steady ==> AtLeast(disk.unlinkedAt, |old(disk.unlinkedAt)|, old(disk.free))
  {
    ghost var c0, nodes0, from, base := cache.Snap(), disk.nodes, |disk.unlinkedAt|, |disk.failedAt|;
    ghost var tried0 := disk.tried;
    ghost var c, nodes := c0, nodes0;
    visited := 0;
    var skip := 0;
    TrimmedNone(c0, nodes0, !disk.faulty);
    while visited < |cache.files|
      invariant visited <= |cache.files| && c == cache.Snap() && nodes == disk.nodes
      invariant 0 <= skip <= 10 && visited == 11 * (disk.asked - old(disk.asked)) + skip
      invariant Trimmed(c0, 0, nodes0, !disk.faulty, c, visited, nodes) && InTurn(c, visited, tried0, disk.tried)
      invariant |disk.unlinkedAt| == from + visited && base <= |disk.failedAt| && old(disk.asked) <= disk.asked
      invariant disk.steady ==> Budget(disk, from, base, target, skip, old(disk.free))
    {
      var enough: bool;
      enough, visited, skip, c, nodes := TrimNext(path, cache, disk, visited, target, skip,
                                                  c0, nodes0, tried0, from, base, old(disk.free));
      if enough { return; }
    }
  }

  /** After the pass over empty directories, and ever after, each directory other than a root that
      is still there has an unvisited file below it. */
  lemma SettledHasFile(c: Cache, v: nat, nodes: set<string>, d: int) returns (k: int)
    requires Inv(c, v) && AllSettled(c, nodes, 0)
    requires 0 <= d < |c.tree| && !c.deleted[d] && (c.tree[d].parent >= 0 || c.childCount[d] > 0)
    ensures v <= k < |c.files| && Below(c.tree, c.files[k].dir, d)
  {
    var e := PendingBelow(c, v, d);
    assert Settled(c, nodes, e);
    k :| v <= k < |c.files| && c.files[k].dir == e;
  }

  /** Every directory but the roots is gone, and the roots are empty. */
  ghost predicate OnlyRootsLeft(c: Cache, nodes: set<string>)
    requires Shape(c)
  {
    forall d :: 0 <= d < |c.tree| ==>
                  if c.tree[d].parent >= 0 then c.deleted[d] else NothingUnder(nodes, Path(c.tree, d))
  }

  /** Once every file has been visited, only the roots are left, with nothing in them. */
  lemma EverythingGone(c: Cache, nodes: set<string>)
    requires Inv(c, |c.files|) && AllSettled(c, nodes, 0)
    ensures OnlyRootsLeft(c, nodes)
  {
    forall d | 0 <= d < |c.tree|
      ensures if c.tree[d].parent >= 0 then c.deleted[d] else NothingUnder(nodes, Path(c.tree, d))
    {
      assert Settled(c, nodes, d);
      if !c.deleted[d] && (c.tree[d].parent >= 0 || c.childCount[d] > 0) {
        var _ := SettledHasFile(c, |c.files|, nodes, d);
      }
    }
  }

  /** The part of `clear_cache_files` before the second loop. */
  method SortAndClean(path: array<char>, cache: Store, disk: Disk)
    requires path.Length == PATH_MAX
    requires Inv(cache.Snap(), 0) && Named(cache.tree) && FilesNamed(cache.files) && Roomy(cache.Snap())
    modifies path, cache`childCount, cache`deleted, cache`files, disk`nodes, disk`free
    ensures Sorted(cache.files) && multiset(cache.files) == multiset(old(cache.files))
    ensures Inv(cache.Snap(), 0) && FilesNamed(cache.files) && Roomy(cache.Snap())
    ensures OnlyMayGo(cache.Snap(), 0, old(disk.nodes), disk.nodes)
    ensures old(DeletedGone(cache.Snap(), disk.nodes)) ==> DeletedGone(cache.Snap(), disk.nodes)
    ensures disk.steady ==> disk.free >= old(disk.free)
    ensures !disk.faulty && old(InStep(cache.Snap(), 0, disk.nodes)) ==>
              InStep(cache.Snap(), 0, disk.nodes) && AllSettled(cache.Snap(), disk.nodes, 0)
  {
    SortFiles(cache, disk.nodes);
    CleanEmptyDirs(path, cache, disk);
  }

  /** `clear_cache_files`. */
  method ClearCacheFiles(cache: Store, disk: Disk, target: int) returns (visited: nat)
    requires Inv(cache.Snap(), 0) && Named(cache.tree) && FilesNamed(cache.files) && Roomy(cache.Snap())
    modifies cache`childCount, cache`deleted, cache`files, disk
    // oldest first
    ensures Sorted(cache.files) && multiset(cache.files) == multiset(old(cache.files))
    // whatever failed, the counts are right, the visited files were unlinked in this order, and
    // nothing newer was lost
    ensures Inv(cache.Snap(), visited) && InTurn(cache.Snap(), visited, old(disk.tried), disk.tried)
    ensures OnlyMayGo(cache.Snap(), visited, old(disk.nodes), disk.nodes)
    ensures forall k :: visited <= k < |cache.files| && FilePath(cache.tree, cache.files[k]) in old(disk.nodes) ==>
                          FilePath(cache.tree, cache.files[k]) in disk.nodes
    ensures !disk.faulty ==> forall k :: 0 <= k < visited ==> FilePath(cache.tree, cache.files[k]) !in disk.nodes
    ensures old(DeletedGone(cache.Snap(), disk.nodes)) ==> DeletedGone(cache.Snap(), disk.nodes)
    // without failures, the collection stays in step with the disk, and if no file was spared
    // then nothing is left below the roots
    ensures !disk.faulty && old(InStep(cache.Snap(), 0, disk.nodes)) ==>
              && InStep(cache.Snap(), visited, disk.nodes) && AllSettled(cache.Snap(), disk.nodes, 0)
              && (visited == |cache.files| ==> OnlyRootsLeft(cache.Snap(), disk.nodes))
    // whatever failed, it stops early only after a look at the free space; and after there was
    // enough, at most ten files follow, and eleven more for each look that failed since
    ensures visited < |cache.files| ==> StoppedByLook(disk, old(disk.asked), target)
    ensures |disk.unlinkedAt| == |old(disk.unlinkedAt)| + visited
    ensures |old(disk.failedAt)| <= |disk.failedAt| && old(disk.asked) <= disk.asked
    ensures LooksMade(visited, |cache.files|, old(disk.asked), disk.asked)
    ensures disk.steady ==> Overshoot(disk.unlinkedAt, |old(disk.unlinkedAt)|, target,
                                      MostAfter(disk.failedAt, |old(disk.failedAt)|, target, 10))
    ensures disk.steady ==> AtLeast(disk.unlinkedAt, |old(disk.unlinkedAt)|, old(disk.free))
  {
    ghost var nodes0 := disk.nodes;
    ghost var inStep := !disk.faulty && InStep(cache.Snap(), 0, nodes0);
    var path := new char[PATH_MAX];
    SortAndClean(path, cache, disk);
    ghost var c1, nodes1 := cache.Snap(), disk.nodes;
    visited := TrimFiles(path, cache, disk, target);
    ghost var c2 := cache.Snap();
    TrimmedAll(c1, nodes1, !disk.faulty, c2, visited, disk.nodes, nodes0);
    if inStep { VisitedAll(c2, visited, disk.nodes); }
  }

  lemma TrimmedAll(c1: Cache, nodes1: set<string>, clean: bool, c2: Cache, v: nat, nodes2: set<string>,
                   nodes0: set<string>)
    requires Inv(c1, 0) && Named(c1.tree) && FilesNamed(c1.files) && OnlyMayGo(c1, 0, nodes0, nodes1)
    requires Trimmed(c1, 0, nodes1, clean, c2, v, nodes2)
    ensures OnlyMayGo(c2, v, nodes0, nodes2)
    ensures forall k :: v <= k < |c2.files| && FilePath(c2.tree, c2.files[k]) in nodes0 ==>
                          FilePath(c2.tree, c2.files[k]) in nodes2
    ensures clean ==> forall k :: 0 <= k < v ==> FilePath(c2.tree, c2.files[k]) !in nodes2
  {
    OnlyMayGoStep(c1, c2, 0, v, nodes0, nodes1, nodes2);
    AllUnvisitedStay(c2, v, nodes0, nodes2);
  }

  lemma VisitedAll(c: Cache, v: nat, nodes: set<string>)
    requires Inv(c, v) && AllSettled(c, nodes, 0)
    ensures v == |c.files| ==> OnlyRootsLeft(c, nodes)
  {
    if v == |c.files| { EverythingGone(c, nodes); }
  }
}
