/**
 * The registry of the service manager: a linked list of services, newest first, whose entries hold
 * strong references to kernel handles.
 *
 * A pointer to an entry is the entry's place in the order of registration, which never changes.
 * SELinux decisions and the success of `malloc` are parameters of each call.
 */
module ServiceRegistry {
  import opened BinderIo

  type Name = seq<half>

  datatype Svc = Svc(name: Name, handle: word, allowIsolated: bool)

  /** What the service manager writes to the binder driver. */
  datatype Command = Acquire(handle: word) | Release(handle: word) | LinkDeath(handle: word, entry: nat)

  datatype Registry = Registry(list: seq<Svc>, log: seq<Command>)

  const EMPTY: Registry := Registry([], [])

  const MAX_NAME: nat := 127
  const AID_USER: nat := 100000
  const AID_ISOLATED_START: nat := 99000
  const AID_ISOLATED_END: nat := 99999

  predicate Isolated(uid: nat) {
    AID_ISOLATED_START <= uid % AID_USER <= AID_ISOLATED_END
  }

  // ---------------------------------------------------------------- the operations, on values

  /** The first entry called `name`, or -1. */
  function Find(list: seq<Svc>, name: Name): (i: int)
    ensures -1 <= i < |list| && (i >= 0 ==> list[i].name == name)
    ensures forall j :: 0 <= j < |list| && (j < i || i == -1) ==> list[j].name != name
  {
    if list == [] then -1
    else if list[0].name == name then 0
    else var i := Find(list[1..], name); if i == -1 then -1 else i + 1
  }

  /** `svcinfo_death` on the entry at index `i`. */
  function Died(r: Registry, i: nat): Registry
    requires i < |r.list|
  {
    var si := r.list[i];
    if si.handle == 0 then r
    else Registry(r.list[i := si.(handle := 0)], r.log + [Release(si.handle)])
  }

  /** `do_add_service`: the new registry, and whether the call succeeded. */
  function Added(r: Registry, name: Name, handle: word, allowIsolated: bool, permitted: bool,
                 memory: bool): (Registry, bool) {
    if handle == 0 || |name| == 0 || |name| > MAX_NAME || !permitted then (r, false)
    else
      var i := Find(r.list, name);
      if i >= 0 then
        var r1 := Died(r, i);
        var entry := |r.list| - 1 - i;
        (Registry(r1.list[i := r1.list[i].(handle := handle)],
                  r1.log + [Acquire(handle), LinkDeath(handle, entry)]), true)
      else if !memory then (r, false)
      else
        (Registry([Svc(name, handle, allowIsolated)] + r.list,
                  r.log + [Acquire(handle), LinkDeath(handle, |r.list|)]), true)
  }

  /** `do_find_service`: 0 stands for "no such service". */
  function Looked(r: Registry, name: Name, uid: nat, permitted: bool): word {
    if !permitted then 0
    else
      var i := Find(r.list, name);
      if i == -1 || (!r.list[i].allowIsolated && Isolated(uid)) then 0 else r.list[i].handle
  }

  // ---------------------------------------------------------------- strong references

  /** Acquires minus releases of `h`. */
  ghost function Net(log: seq<Command>, h: word): int {
    if log == [] then 0
    else
      var last := log[|log| - 1];
      Net(log[..|log| - 1], h) + (if last == Acquire(h) then 1 else if last == Release(h) then -1 else 0)
  }

  ghost function Holders(list: seq<Svc>, h: word): nat {
    if list == [] then 0 else (if list[0].handle == h then 1 else 0) + Holders(list[1..], h)
  }

  /** Every handle is held as often as there are entries with it. */
  ghost predicate Balanced(r: Registry) {
    forall h: word :: h != 0 ==> Net(r.log, h) == Holders(r.list, h)
  }

  ghost predicate Distinct(list: seq<Svc>) {
    forall i, j :: 0 <= i < j < |list| ==> list[i].name != list[j].name
  }

  ghost predicate Valid(r: Registry) {
    && Distinct(r.list) && Balanced(r)
    && forall i :: 0 <= i < |r.list| ==> 0 < |r.list[i].name| <= MAX_NAME
  }

  lemma {:induction false} NetAppend(log: seq<Command>, c: Command, h: word)
    ensures Net(log + [c], h) == Net(log, h) + (if c == Acquire(h) then 1 else if c == Release(h) then -1 else 0)
  {
    assert (log + [c])[..|log|] == log;
  }

  lemma {:induction false} HoldersUpdate(list: seq<Svc>, i: nat, si: Svc, h: word)
    requires i < |list|
    ensures Holders(list[i := si], h) ==
            Holders(list, h) - (if list[i].handle == h then 1 else 0) + (if si.handle == h then 1 else 0)
  {
    if i > 0 {
      assert list[i := si][1..] == list[1..][i - 1 := si];
      HoldersUpdate(list[1..], i - 1, si, h);
    } else {
      assert list[i := si][1..] == list[1..];
    }
  }

  lemma DiedKeepsValid(r: Registry, i: nat)
    requires Valid(r) && i < |r.list|
    ensures Valid(Died(r, i))
  {
    forall h: word | h != 0
      ensures Net(Died(r, i).log, h) == Holders(Died(r, i).list, h)
    {
      NetAppend(r.log, Release(r.list[i].handle), h);
      HoldersUpdate(r.list, i, r.list[i].(handle := 0), h);
    }
  }

  /** What an override or a new registration does to the references. */
  lemma AddedKeepsValid(r: Registry, name: Name, handle: word, allowIsolated: bool, permitted: bool, memory: bool)
    requires Valid(r)
    ensures Valid(Added(r, name, handle, allowIsolated, permitted, memory).0)
  {
    var r', ok := Added(r, name, handle, allowIsolated, permitted, memory).0,
        Added(r, name, handle, allowIsolated, permitted, memory).1;
    var i := Find(r.list, name);
    if ok && i >= 0 {
      DiedKeepsValid(r, i);
      var mid := Died(r, i);
      Acquired(mid, handle, |r.list| - 1 - i);
      forall h: word | h != 0
        ensures Net(r'.log, h) == Holders(r'.list, h)
      {
        HoldersUpdate(mid.list, i, mid.list[i].(handle := handle), h);
      }
    } else if ok {
      Acquired(r, handle, |r.list|);
      assert r'.list[1..] == r.list;
    }
  }

  lemma Acquired(r: Registry, handle: word, entry: nat)
    ensures forall h: word :: Net(r.log + [Acquire(handle), LinkDeath(handle, entry)], h) ==
                              Net(r.log, h) + (if h == handle then 1 else 0)
  {
    forall h: word
      ensures Net(r.log + [Acquire(handle), LinkDeath(handle, entry)], h) ==
              Net(r.log, h) + (if h == handle then 1 else 0)
    {
      NetAppend(r.log, Acquire(handle), h);
      NetAppend(r.log + [Acquire(handle)], LinkDeath(handle, entry), h);
      assert r.log + [Acquire(handle)] + [LinkDeath(handle, entry)] ==
             r.log + [Acquire(handle), LinkDeath(handle, entry)];
    }
  }
}
