/** Whole runs of the registry, and the map from names to services that it implements. */
module ServiceRuns {
  import opened Wrappers
  import opened BinderIo
  import opened ServiceRegistry

  /** An add request, or the news that the holder of an entry has died.  The news may be late, and
      may be repeated: death links of overridden handles are never cleared. */
  datatype Event =
    | Add(name: Name, handle: word, allowIsolated: bool, permitted: bool, memory: bool)
    | Death(entry: nat)

  function Step(r: Registry, e: Event): Registry {
    match e
    case Add(name, handle, iso, permitted, memory) => Added(r, name, handle, iso, permitted, memory).0
    case Death(entry) => if entry < |r.list| then Died(r, |r.list| - 1 - entry) else r
  }

  function Run(events: seq<Event>): Registry {
    if events == [] then EMPTY else Step(Run(events[..|events| - 1]), events[|events| - 1])
  }

  /** In every run, names stay distinct and references stay balanced. */
  lemma {:induction false} RunIsValid(events: seq<Event>)
    ensures Valid(Run(events))
  {
    if events == [] {
    } else {
      var e, r := events[|events| - 1], Run(events[..|events| - 1]);
      RunIsValid(events[..|events| - 1]);
      match e
      case Add(name, handle, iso, permitted, memory) => AddedKeepsValid(r, name, handle, iso, permitted, memory);
      case Death(entry) => if entry < |r.list| { DiedKeepsValid(r, |r.list| - 1 - entry); }
    }
  }

  // ---------------------------------------------------------------- the abstract registry

  datatype Service = Service(handle: word, allowIsolated: bool)

  /** A map from names to services, and the names in the order of their first registration, newest first. */
  datatype Directory = Directory(services: map<Name, Service>, order: seq<Name>)

  function AbstractStep(d: Directory, e: Event): Directory {
    match e
    case Add(name, handle, iso, permitted, memory) =>
      if handle == 0 || |name| == 0 || |name| > MAX_NAME || !permitted then d
      else if name in d.services then
        d.(services := d.services[name := Service(handle, d.services[name].allowIsolated)])
      else if memory then
        Directory(d.services[name := Service(handle, iso)], [name] + d.order)
      else d
    case Death(entry) =>
      if entry < |d.order| && d.order[|d.order| - 1 - entry] in d.services then
        var name := d.order[|d.order| - 1 - entry];
        d.(services := d.services[name := Service(0, d.services[name].allowIsolated)])
      else d
  }

  function AbstractRun(events: seq<Event>): Directory {
    if events == [] then Directory(map[], [])
    else AbstractStep(AbstractRun(events[..|events| - 1]), events[|events| - 1])
  }

  /** The list, read from its end, is the directory. */
  ghost predicate Implements(r: Registry, d: Directory) {
    && |r.list| == |d.order|
    && (forall i :: 0 <= i < |r.list| ==> r.list[i].name == d.order[i])
    && (forall i :: 0 <= i < |r.list| ==>
                      r.list[i].name in d.services
                      && d.services[r.list[i].name] == Service(r.list[i].handle, r.list[i].allowIsolated))
    && (forall n :: n in d.services ==> Find(r.list, n) >= 0)
  }

  /** Changing the handle of an entry changes the handle of its name. */
  lemma {:induction false} HandleRefines(r: Registry, d: Directory, i: nat, h: word, log: seq<Command>)
    requires Distinct(r.list) && Implements(r, d) && i < |r.list|
    ensures var name := r.list[i].name;
            && name in d.services
            && Implements(Registry(r.list[i := r.list[i].(handle := h)], log),
                          d.(services := d.services[name := Service(h, d.services[name].allowIsolated)]))
  {
    SameNames(r.list, r.list[i := r.list[i].(handle := h)]);
  }

  lemma {:induction false} NewRefines(r: Registry, d: Directory, s: Svc, log: seq<Command>)
    requires Implements(r, d) && Find(r.list, s.name) == -1
    ensures Implements(Registry([s] + r.list, log),
                       Directory(d.services[s.name := Service(s.handle, s.allowIsolated)], [s.name] + d.order))
  {
    var list, order := [s] + r.list, [s.name] + d.order;
    var services := d.services[s.name := Service(s.handle, s.allowIsolated)];
    forall i | 0 <= i < |list|
      ensures list[i].name == order[i] && list[i].name in services
      ensures services[list[i].name] == Service(list[i].handle, list[i].allowIsolated)
    {
      if i > 0 { assert list[i] == r.list[i - 1] && order[i] == d.order[i - 1]; }
    }
    forall n | n in services
      ensures Find(list, n) >= 0
    {
      if n != s.name { FindBehind(s, r.list, n); }
    }
  }

  lemma {:induction false} FindBehind(s: Svc, list: seq<Svc>, n: Name)
    requires Find(list, n) >= 0
    ensures Find([s] + list, n) >= 0
  {
    assert ([s] + list)[Find(list, n) + 1].name == n;
  }

  lemma {:induction false} AddRefines(r: Registry, d: Directory, e: Event)
    requires Distinct(r.list) && Implements(r, d) && e.Add?
    ensures Implements(Step(r, e), AbstractStep(d, e))
  {
    var r', i := Step(r, e), Find(r.list, e.name);
    if i >= 0 { assert r.list[i].name in d.services; }
    if Added(r, e.name, e.handle, e.allowIsolated, e.permitted, e.memory).1 {
      if i == -1 {
        NewRefines(r, d, Svc(e.name, e.handle, e.allowIsolated), r'.log);
      } else {
        assert r' == Registry(r.list[i := r.list[i].(handle := e.handle)], r'.log);
        HandleRefines(r, d, i, e.handle, r'.log);
      }
    }
  }

  lemma DiedList(r: Registry, i: nat)
    requires i < |r.list|
    ensures Died(r, i) == Registry(r.list[i := r.list[i].(handle := 0)], Died(r, i).log)
  {
  }

  lemma AbstractDeath(d: Directory, entry: nat, name: Name)
    requires entry < |d.order| && d.order[|d.order| - 1 - entry] == name && name in d.services
    ensures AbstractStep(d, Death(entry)) ==
            d.(services := d.services[name := Service(0, d.services[name].allowIsolated)])
  {
  }

  lemma {:induction false} DeathRefines(r: Registry, d: Directory, entry: nat)
    requires Distinct(r.list) && Implements(r, d)
    ensures Implements(Step(r, Death(entry)), AbstractStep(d, Death(entry)))
  {
    if entry < |r.list| {
      var i := |r.list| - 1 - entry;
      assert d.order[i] == r.list[i].name && r.list[i].name in d.services;
      AbstractDeath(d, entry, r.list[i].name);
      DiedRefines(r, d, i);
    }
  }

  lemma {:induction false} DiedRefines(r: Registry, d: Directory, i: nat)
    requires Distinct(r.list) && Implements(r, d) && i < |r.list| && r.list[i].name in d.services
    ensures var name := r.list[i].name;
            Implements(Died(r, i), d.(services := d.services[name := Service(0, d.services[name].allowIsolated)]))
  {
    DiedList(r, i);
    HandleRefines(r, d, i, 0, Died(r, i).log);
  }

  lemma StepRefines(r: Registry, d: Directory, e: Event)
    requires Distinct(r.list) && Implements(r, d)
    ensures Implements(Step(r, e), AbstractStep(d, e))
  {
    if e.Add? { AddRefines(r, d, e); } else { DeathRefines(r, d, e.entry); }
  }

  lemma {:induction false} SameNames(a: seq<Svc>, b: seq<Svc>)
    requires |a| == |b| && forall i :: 0 <= i < |a| ==> a[i].name == b[i].name
    ensures forall n :: Find(a, n) == Find(b, n)
  {
    forall n
      ensures Find(a, n) == Find(b, n)
    {
      var i, j := Find(a, n), Find(b, n);
      if i >= 0 { assert b[i].name == n; }
      if j >= 0 { assert a[j].name == n; }
    }
  }

  /** The linked list implements the directory in every run. */
  lemma {:induction false} RunRefines(events: seq<Event>)
    ensures Implements(Run(events), AbstractRun(events))
  {
    if events == [] {
    } else {
      RunIsValid(events[..|events| - 1]);
      RunRefines(events[..|events| - 1]);
      StepRefines(Run(events[..|events| - 1]), AbstractRun(events[..|events| - 1]), events[|events| - 1]);
    }
  }

  // ---------------------------------------------------------------- what a lookup returns

  /** The add is accepted in state `d`. */
  ghost predicate Accepted(d: Directory, e: Event, name: Name) {
    && e.Add? && e.name == name && e.handle != 0 && 0 < |name| <= MAX_NAME && e.permitted
    && (e.memory || name in d.services)
  }

  /** The death hits the entry registered under `name`. */
  ghost predicate Hits(d: Directory, e: Event, name: Name) {
    e.Death? && e.entry < |d.order| && d.order[|d.order| - 1 - e.entry] == name
  }

  /** The handle of the last accepted add of `name`, or 0 if a death has hit its entry since. */
  ghost function Current(events: seq<Event>, name: Name): word {
    if events == [] then 0
    else
      var before, e := events[..|events| - 1], events[|events| - 1];
      if Accepted(AbstractRun(before), e, name) then e.handle
      else if Hits(AbstractRun(before), e, name) then 0
      else Current(before, name)
  }

  function HandleOf(d: Directory, name: Name): word {
    if name in d.services then d.services[name].handle else 0
  }

  lemma StepHandle(d: Directory, e: Event, name: Name)
    requires forall i :: 0 <= i < |d.order| ==> d.order[i] in d.services
    ensures HandleOf(AbstractStep(d, e), name) ==
            if Accepted(d, e, name) then e.handle else if Hits(d, e, name) then 0 else HandleOf(d, name)
  {
  }

  lemma {:induction false} LookupIsCurrent(events: seq<Event>, name: Name, uid: nat)
    requires !Isolated(uid)
    ensures Looked(Run(events), name, uid, true) == Current(events, name)
  {
    RunRefines(events);
    HandleIsCurrent(events, name);
    var r, d := Run(events), AbstractRun(events);
    var i := Find(r.list, name);
    if i >= 0 {
      assert d.services[name].handle == r.list[i].handle;
    }
  }

  lemma {:induction false} HandleIsCurrent(events: seq<Event>, name: Name)
    ensures Current(events, name) == HandleOf(AbstractRun(events), name)
  {
    if events == [] {
    } else {
      var before, e := events[..|events| - 1], events[|events| - 1];
      HandleIsCurrent(before, name);
      RunRefines(before);
      var r, d := Run(before), AbstractRun(before);
      assert forall i :: 0 <= i < |d.order| ==> r.list[i].name == d.order[i];
      StepHandle(d, e, name);
    }
  }

  /** The `allow_isolated` of the first accepted add of `name` in the run. */
  ghost function FirstFlag(events: seq<Event>, name: Name): Option<bool> {
    if events == [] then None
    else
      var before, e := events[..|events| - 1], events[|events| - 1];
      if FirstFlag(before, name).Some? then FirstFlag(before, name)
      else if Accepted(AbstractRun(before), e, name) then Some(e.allowIsolated)
      else None
  }

  lemma StepFlag(d: Directory, e: Event, name: Name)
    ensures var d' := AbstractStep(d, e);
            && (name in d'.services <==> name in d.services || Accepted(d, e, name))
            && (name in d'.services ==>
                  d'.services[name].allowIsolated ==
                    (if name in d.services then d.services[name].allowIsolated else e.allowIsolated))
  {
  }

  /** In every run, a name is registered if and only if an add of it was accepted, and the stored
      permission is that of the first such add. */
  lemma {:induction false} FlagIsFirst(events: seq<Event>, name: Name)
    ensures var d := AbstractRun(events);
            && (name in d.services <==> FirstFlag(events, name).Some?)
            && (name in d.services ==> d.services[name].allowIsolated == FirstFlag(events, name).value)
  {
    if events != [] {
      var before, e := events[..|events| - 1], events[|events| - 1];
      FlagIsFirst(before, name);
      StepFlag(AbstractRun(before), e, name);
    }
  }

  /** An isolated process gets the current handle if and only if the first accepted registration of
      the name allowed it. */
  lemma {:induction false} IsolatedLookup(events: seq<Event>, name: Name, uid: nat)
    requires Isolated(uid)
    ensures Looked(Run(events), name, uid, true) ==
            (if FirstFlag(events, name) == Some(true) then Current(events, name) else 0)
  {
    RunRefines(events);
    HandleIsCurrent(events, name);
    FlagIsFirst(events, name);
    var r, d := Run(events), AbstractRun(events);
    var i := Find(r.list, name);
    if i >= 0 {
      assert d.services[name] == Service(r.list[i].handle, r.list[i].allowIsolated);
    }
  }

  /**
   * What a permitted caller gets, by user and application id: the handle of the last accepted
   * registration, or 0 if its process has died since; but an isolated process, which has an
   * application id from 99000 to 99999, gets it only if the first accepted registration allowed that.
   */
  lemma {:induction false} LookupByUid(events: seq<Event>, name: Name, user: nat, app: nat)
    requires app < 100000
    ensures Looked(Run(events), name, user * 100000 + app, true) ==
            if 99000 <= app <= 99999 && FirstFlag(events, name) != Some(true) then 0 else Current(events, name)
    ensures Looked(Run(events), name, user * 100000 + app, false) == 0
  {
    var uid := user * 100000 + app;
    assert uid % 100000 == app;
    if 99000 <= app <= 99999 {
      IsolatedLookup(events, name, uid);
    } else {
      LookupIsCurrent(events, name, uid);
    }
  }
}
