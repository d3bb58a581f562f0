/** Requests from end to end: marshalled by a client, handled, and the reply read back. */
module ServiceClient {
  import opened BinderIo
  import opened BinderRoundTrip
  import opened ServiceRegistry
  import opened ServiceManager

  /** The reply buffer that `binder_parse` gives to a handler: 256 bytes with room for 4 objects. */
  const REPLY_BYTES: nat := 256
  const REPLY_OBJECTS: nat := 4
  /** The longest name that fits the reply to LIST. */
  const LONGEST_LISTED: nat := 109

  /** A request that a client can marshal in its buffer. */
  ghost predicate Sendable(req: Request) {
    && AllText(ArgsOf(req)) && AllFaithful(ArgsOf(req))
    && (req.Get? || req.Check? || req.AddService? ==> |req.name| <= MAX_NAME)
  }

  lemma MessageFits(req: Request, policy: word)
    requires Sendable(req)
    ensures RoomFor(MessageOf(req, policy), 1000, 4) && AllText(MessageOf(req, policy))
  {
    ArgsFit(req);
    HeaderFits(MessageOf(req, policy), policy, ArgsOf(req));
    MessageIsText(policy, ArgsOf(req));
    assert |SVCMGR_ID| < 100;
  }

  lemma MessageIsText(policy: word, args: seq<Item>)
    requires AllText(args)
    ensures AllText([U32(policy), Str(SVCMGR_ID)] + args)
  {
    var xs := [U32(policy), Str(SVCMGR_ID)] + args;
    assert 0 !in SVCMGR_ID;
    forall i | 0 <= i < |xs|
      ensures IsText(xs[i])
    {
      if i >= 2 { assert xs[i] == args[i - 2]; }
    }
  }

  lemma {:induction false} HeaderFits(xs: seq<Item>, policy: word, args: seq<Item>)
    requires xs == [U32(policy), Str(SVCMGR_ID)] + args
    ensures Total(xs) == Size(U32(policy)) + Size(Str(SVCMGR_ID)) + Total(args) && Refs(xs) == Refs(args)
  {
    var ys := xs[1..];
    assert ys[0] == Str(SVCMGR_ID) && ys[1..] == args;
    assert Total(xs) == Size(xs[0]) + Total(ys) && Refs(xs) == Refs(ys);
  }

  lemma ArgsFit(req: Request)
    requires Sendable(req)
    ensures Total(ArgsOf(req)) <= 200 && Refs(ArgsOf(req)) <= 1
  {
    match req
    case Ping =>
    case Get(name) => OneItem(Str(name));
    case Check(name) => OneItem(Str(name));
    case ListServices(n) => OneItem(U32(n));
    case AddService(name, handle, iso) =>
      var xs := ArgsOf(req);
      assert xs[0] == Str(name) && xs[1..] == [Ref(handle), U32(iso)] && xs[1..][1..] == [U32(iso)];
      assert Total(xs) == Size(xs[0]) + Total(xs[1..]) && Refs(xs) == Refs(xs[1..]);
      OneItem(U32(iso));
  }

  lemma OneItem(x: Item)
    ensures Total([x]) == Size(x) && Refs([x]) <= 1 && (!x.Ref? ==> Refs([x]) == 0)
  {
    assert [x][1..] == [];
  }

  /** Marshals the message of a request as the kernel delivers it. */
  method Deliver(req: Request, policy: word) returns (msg: Bio)
    requires Sendable(req)
    ensures fresh(msg) && fresh(msg.mem) && Carries(msg, req, policy)
  {
    ghost var xs := MessageOf(req, policy);
    MessageFits(req, policy);
    var out := new Bio(2032, 4);
    PutAll(out, MessageOf(req, policy));
    HoldsAllSent(out.mem[..], out.offs, 0, xs);
    assert out.mem[..out.pos] == out.mem[..][..0 + Total(xs)];
    msg := new Bio.FromTxn(out.mem[..out.pos], out.offs);
  }

  /** What `do_add_service` lets in. */
  ghost predicate ShortNames(list: seq<Svc>) {
    forall i :: 0 <= i < |list| ==> |list[i].name| <= MAX_NAME
  }

  /** Asks for the name of service number `n` and reads the reply. */
  method ListOne(m: Manager, n: word, grants: Grants) returns (found: bool, name: CString)
    requires ShortNames(m.svclist)
    modifies m
    ensures m.View() == old(m.View())
    ensures found <==> grants.list && n < |m.svclist|
    ensures found && 0 !in m.svclist[n].name ==>
              name == (if |m.svclist[n].name| <= LONGEST_LISTED then At(m.svclist[n].name + [0]) else Nil)
  {
    var req := ListServices(n);
    var msg := Deliver(req, 0);
    var reply := new Bio(REPLY_BYTES, REPLY_OBJECTS);
    var status := m.Handle(SVCMGR_HANDLE, SVC_MGR_LIST_SERVICES, 0, msg, reply, grants, req, 0);
    if status != 0 { return false, Nil; }
    found := true;
    ghost var text := m.svclist[n].name;
    if 0 !in text { UpToNulText(text); }
    name := ReadString(reply, UpToNul(text + [0]));
  }

  /** The client reads the string in a reply. */
  method ReadString(reply: Bio, ghost text: seq<half>) returns (name: CString)
    requires reply.Valid() && |text| < MAX_UNITS
    ensures reply.pos == Size(Str(text)) && Holds(reply.mem[..], reply.offs, 0, Str(text)) ==> name == At(text + [0])
    ensures reply.pos <= 2 ==> name == Nil
  {
    var data := reply.mem[..reply.pos];
    var received := new Bio.FromTxn(data, reply.offs);
    var len;
    len, name := received.GetString16();
    if reply.pos == Size(Str(text)) && Holds(reply.mem[..], reply.offs, 0, Str(text)) {
      assert data == reply.mem[..][..reply.pos];
      TextThenNul(reply.mem[..], reply.pos, |text|);
    }
  }

  lemma TextThenNul(all: seq<half>, k: nat, n: nat)
    requires 2 + n + 1 <= k <= |all|
    ensures all[..k][2..2 + n + 1] == all[2..2 + n] + [all[2 + n]]
  {
  }

  /** Names that come back from LIST as they are. */
  predicate Listable(name: Name) {
    0 !in name && |name| <= LONGEST_LISTED
  }

  /** LIST with n = 0, 1, 2, ... gives each registered name once, newest first, and then an error. */
  method ListAll(m: Manager, grants: Grants) returns (names: seq<CString>)
    requires |m.svclist| < 0x1_0000_0000 && ShortNames(m.svclist)
    modifies m
    ensures m.View() == old(m.View())
    ensures |names| == if grants.list then |m.svclist| else 0
    ensures forall i :: 0 <= i < |names| && Listable(m.svclist[i].name) ==>
              names[i] == At(m.svclist[i].name + [0])
    ensures Distinct(m.svclist) ==>
              forall i, j :: 0 <= i < j < |names| && Listable(m.svclist[i].name) && Listable(m.svclist[j].name) ==>
                               names[i] != names[j]
  {
    names := [];
    var n := 0;
    var found := true;
    while found && n < 0x1_0000_0000
      invariant 0 <= n == |names| <= |m.svclist| && m.View() == old(m.View())
      invariant !found ==> !grants.list || n == |m.svclist|
      invariant n > 0 ==> grants.list
      invariant forall i :: 0 <= i < n && Listable(m.svclist[i].name) ==>
          names[i] == At(m.svclist[i].name + [0])
      decreases found, |m.svclist| - n
    {
      var name;
      found, name := ListOne(m, n, grants);
      if found {
        names := names + [name];
        n := n + 1;
      }
    }
    forall i, j | 0 <= i < j < |names| && m.svclist[i].name + [0] == m.svclist[j].name + [0]
      ensures m.svclist[i].name == m.svclist[j].name
    {
      assert (m.svclist[i].name + [0])[..|m.svclist[i].name|] == m.svclist[i].name;
      assert (m.svclist[j].name + [0])[..|m.svclist[j].name|] == m.svclist[j].name;
    }
  }

  lemma AddedIsFound(r: Registry, name: Name, handle: word, iso: bool, permitted: bool, memory: bool, uid: nat)
    requires !Isolated(uid) && Added(r, name, handle, iso, permitted, memory).1
    ensures Looked(Added(r, name, handle, iso, permitted, memory).0, name, uid, true) == handle
  {
    var i, r' := Find(r.list, name), Added(r, name, handle, iso, permitted, memory).0;
    var j := Find(r'.list, name);
    assert r'.list[if i == -1 then 0 else i].name == name;
    if i >= 0 {
      assert forall k :: 0 <= k < |r.list| ==> r'.list[k].name == r.list[k].name;
      assert j == i;
    }
  }

  /** A registration followed by a lookup, both through messages, finds the registered handle. */
  method RegisterAndLookUp(m: Manager, name: Name, handle: word, allowIsolated: word, uid: nat, grants: Grants)
    returns (registered: bool, h: word)
    requires Sendable(AddService(name, handle, allowIsolated)) && |name| > 0 && !Isolated(uid) && grants.find
    modifies m
    ensures registered <==> grants.add && (grants.memory || Find(old(m.svclist), name) >= 0)
    ensures h == if registered then handle else Looked(old(m.View()), name, uid, true)
  {
    ghost var args := ArgsOf(AddService(name, handle, allowIsolated));
    assert IsText(args[0]) && Faithful(args[0]) && Faithful(args[1]);
    ghost var r := m.View();
    var msg := Deliver(AddService(name, handle, allowIsolated), 0);
    var reply := new Bio(REPLY_BYTES, REPLY_OBJECTS);
    var status := m.Handle(SVCMGR_HANDLE, SVC_MGR_ADD_SERVICE, uid, msg, reply, grants,
                           AddService(name, handle, allowIsolated), 0);
    registered := status == 0;
    if registered { AddedIsFound(r, name, handle, allowIsolated != 0, grants.add, grants.memory, uid); }
    h := LookUp(m, name, uid, grants);
  }

  /** Asks for a service by name and reads the reply. */
  method LookUp(m: Manager, name: Name, uid: nat, grants: Grants) returns (h: word)
    requires Sendable(Get(name))
    modifies m
    ensures m.View() == old(m.View())
    ensures h == Looked(m.View(), name, uid, grants.find)
  {
    var msg := Deliver(Get(name), 0);
    var reply := new Bio(REPLY_BYTES, REPLY_OBJECTS);
    var _ := m.Handle(SVCMGR_HANDLE, SVC_MGR_GET_SERVICE, uid, msg, reply, grants, Get(name), 0);
    var data := reply.mem[..reply.pos];
    var received := new Bio.FromTxn(data, reply.offs);
    ghost var x := LookupReply(m.View(), name, uid, grants.find);
    assert Holds(reply.mem[..], reply.offs, 0, x);
    assert Word(data, 0) == Word(reply.mem[..], 0);
    h := received.GetRef();
  }
}
