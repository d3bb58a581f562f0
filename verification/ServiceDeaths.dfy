/**
 * Death links: each registration asks the driver to report the death of the process that holds its
 * handle, and names the entry that is to be cleared then.
 */
module ServiceDeaths {
  import opened Wrappers
  import opened BinderIo
  import opened ServiceRegistry
  import opened ServiceRuns

  /** Entry number `e` in the order of registration, which is counted from the end of the list, is
      called `name`. */
  ghost predicate EntryIs(list: seq<Svc>, e: nat, name: Name) {
    e < |list| && list[|list| - 1 - e].name == name
  }

  ghost predicate Registered(list: seq<Svc>, name: Name) {
    exists i :: 0 <= i < |list| && list[i].name == name
  }

  /** An add that is carried out. */
  ghost predicate CarriedOut(list: seq<Svc>, e: Event) {
    && e.Add? && e.handle != 0 && 0 < |e.name| <= 127 && e.permitted
    && (e.memory || Registered(list, e.name))
  }

  /** The handle that is given up when `name` is registered anew. */
  ghost function GivenUp(list: seq<Svc>, name: Name): seq<Command> {
    if list == [] then []
    else if list[0].name == name then (if list[0].handle == 0 then [] else [Release(list[0].handle)])
    else GivenUp(list[1..], name)
  }

  /** What an add that is carried out does: the name has the handle, which is acquired after the old
      one has been released, and the death link is that of the entry of that name. */
  ghost predicate LinksEntry(r: Registry, e: Event, r': Registry, entry: nat)
    requires e.Add?
  {
    && EntryIs(r'.list, entry, e.name) && r'.list[|r'.list| - 1 - entry].handle == e.handle
    && r'.log == r.log + GivenUp(r.list, e.name) + [Acquire(e.handle), LinkDeath(e.handle, entry)]
  }

  lemma {:induction false} GivenUpIs(list: seq<Svc>, name: Name)
    ensures var i := Find(list, name);
            GivenUp(list, name) == if i >= 0 && list[i].handle != 0 then [Release(list[i].handle)] else []
  {
    if list != [] && list[0].name != name { GivenUpIs(list[1..], name); }
  }

  /** An add is carried out exactly when it may be, and then links the entry of its name. */
  lemma {:induction false} AddLinks(r: Registry, e: Event) returns (entry: nat)
    requires e.Add?
    ensures CarriedOut(r.list, e) ==> LinksEntry(r, e, Step(r, e), entry)
    ensures !CarriedOut(r.list, e) ==> Step(r, e) == r
  {
    var i := Find(r.list, e.name);
    entry := if i >= 0 then |r.list| - 1 - i else |r.list|;
    GivenUpIs(r.list, e.name);
    assert i >= 0 <==> Registered(r.list, e.name);
    if CarriedOut(r.list, e) && i >= 0 {
      var mid := Died(r, i);
      assert mid.log == r.log + GivenUp(r.list, e.name);
    }
  }

  // ---------------------------------------------------------------- over whole runs

  /** An entry keeps its number and its name for good. */
  lemma {:induction false} EntryStays(r: Registry, e: Event, entry: nat, name: Name)
    requires EntryIs(r.list, entry, name)
    ensures EntryIs(Step(r, e).list, entry, name)
  {
  }

  /** Event `k` of the run is the add of `name` that has written the command at `i`. */
  ghost predicate Wrote(events: seq<Event>, k: nat, i: nat, name: Name, handle: word) {
    && k < |events| && CarriedOut(Run(events[..k]).list, events[k])
    && events[k].name == name && events[k].handle == handle && i + 1 == |Run(events[..k + 1]).log|
  }

  /** The log only grows. */
  lemma {:induction false} LogGrows(r: Registry, e: Event)
    ensures r.log <= Step(r, e).log
  {
    if e.Add? {
      var entry := AddLinks(r, e);
    }
  }

  /** In every run, each death link names the entry of the name whose registration has written it. */
  lemma {:induction false} LinksNameTheirEntry(events: seq<Event>, i: nat, handle: word, entry: nat)
    returns (k: nat, name: Name)
    requires i < |Run(events).log| && Run(events).log[i] == LinkDeath(handle, entry)
    ensures Wrote(events, k, i, name, handle) && EntryIs(Run(events).list, entry, name)
  {
    var n := |events| - 1;
    var before, e, r := events[..n], events[n], Run(events[..n]);
    assert events[..n + 1] == events;
    LogGrows(r, e);
    if i < |r.log| {
      k, name := LinksNameTheirEntry(before, i, handle, entry);
      assert before[..k] == events[..k] && before[..k + 1] == events[..k + 1];
      EntryStays(r, e, entry, name);
    } else {
      LinkIsNew(r, e, i, handle, entry);
      k, name := n, e.name;
    }
  }

  lemma {:induction false} LinkIsNew(r: Registry, e: Event, i: nat, handle: word, entry: nat)
    requires |r.log| <= i < |Step(r, e).log| && Step(r, e).log[i] == LinkDeath(handle, entry)
    ensures CarriedOut(r.list, e) && e.handle == handle && i + 1 == |Step(r, e).log|
    ensures EntryIs(Step(r, e).list, entry, e.name)
  {
    GivenUpIs(r.list, if e.Add? then e.name else []);
    if e.Add? {
      var linked := AddLinks(r, e);
      if CarriedOut(r.list, e) {
        var prefix := r.log + GivenUp(r.list, e.name);
        assert Step(r, e).log == prefix + [Acquire(e.handle), LinkDeath(e.handle, linked)];
        assert i == |prefix| + 1;
      }
    }
  }

  /** And each registration that is carried out has written one. */
  lemma {:induction false} EachAddLinks(events: seq<Event>, k: nat) returns (i: nat, entry: nat)
    requires k < |events| && CarriedOut(Run(events[..k]).list, events[k])
    ensures Wrote(events, k, i, events[k].name, events[k].handle)
    ensures i < |Run(events).log| && Run(events).log[i] == LinkDeath(events[k].handle, entry)
    decreases |events|
  {
    var n := |events| - 1;
    assert events[..n + 1] == events;
    if k < n {
      assert events[..n][..k] == events[..k] && events[..n][..k + 1] == events[..k + 1];
      i, entry := EachAddLinks(events[..n], k);
      LogGrows(Run(events[..n]), events[n]);
    } else {
      entry := AddLinks(Run(events[..n]), events[n]);
      i := |Run(events).log| - 1;
    }
  }

  // ---------------------------------------------------------------- when the news comes

  /** A death clears the name of its entry, whoever asks, and no other name. */
  lemma {:induction false} DeathClears(events: seq<Event>, entry: nat, name: Name, asked: Name, uid: nat,
                                       permitted: bool)
    requires EntryIs(Run(events).list, entry, name)
    ensures Looked(Run(events + [Death(entry)]), asked, uid, permitted) ==
            if asked == name then 0 else Looked(Run(events), asked, uid, permitted)
  {
    assert (events + [Death(entry)])[..|events|] == events;
    RunIsValid(events);
    var r := Run(events);
    var i := |r.list| - 1 - entry;
    var after := Run(events + [Death(entry)]);
    assert after == Died(r, i);
    SameNames(r.list, after.list);
    assert Find(r.list, name) == i;
  }

  /** The driver reports a death by the number that the link names.  It clears the name whose
      registration has written the link, and no other. */
  lemma {:induction false} LinkedDeath(events: seq<Event>, i: nat, handle: word, entry: nat, asked: Name, uid: nat,
                                       permitted: bool)
    returns (k: nat, name: Name)
    requires i < |Run(events).log| && Run(events).log[i] == LinkDeath(handle, entry)
    ensures Wrote(events, k, i, name, handle)
    ensures Looked(Run(events + [Death(entry)]), asked, uid, permitted) ==
            if asked == name then 0 else Looked(Run(events), asked, uid, permitted)
  {
    k, name := LinksNameTheirEntry(events, i, handle, entry);
    DeathClears(events, entry, name, asked, uid, permitted);
  }
}
