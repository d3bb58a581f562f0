/** The service manager process: its list in memory, and its handling of transactions. */
module ServiceManager {
  import opened BinderIo
  import opened ServiceRegistry

  /** `BINDER_SERVICE_MANAGER`, the handle of the service manager itself. */
  const SVCMGR_HANDLE: word := 0
  const PING_TRANSACTION: word := 0x5f50_4e47
  const SVC_MGR_GET_SERVICE: word := 1
  const SVC_MGR_CHECK_SERVICE: word := 2
  const SVC_MGR_ADD_SERVICE: word := 3
  const SVC_MGR_LIST_SERVICES: word := 4

  /** "android.os.IServiceManager" */
  const SVCMGR_ID: seq<half> :=
    [97, 110, 100, 114, 111, 105, 100, 46, 111, 115, 46, 73, 83, 101, 114, 118, 105, 99,
     101, 77, 97, 110, 97, 103, 101, 114]

  /** Its characters. */
  lemma InterfaceName()
    ensures |SVCMGR_ID| == |"android.os.IServiceManager"|
    ensures forall i :: 0 <= i < |SVCMGR_ID| ==> SVCMGR_ID[i] == "android.os.IServiceManager"[i] as int
  {
  }

  // ---------------------------------------------------------------- reading a message item by item

  /** What is left to read in `bio` is exactly the items `xs`. */
  ghost predicate Pending(bio: Bio, xs: seq<Item>)
    reads bio, bio.mem
  {
    && bio.Valid() && bio.offsAvail == |bio.offs| && bio.dataAvail == Total(xs)
    && HoldsAll(bio.mem[..], bio.offs, bio.pos, xs)
  }

  ghost predicate Readable(bio: Bio)
    reads bio
  {
    bio.Valid() && bio.offsAvail == |bio.offs|
  }

  method TakeUint32(bio: Bio, ghost xs: seq<Item>) returns (n: word)
    requires Readable(bio)
    modifies bio`pos, bio`dataAvail, bio`overflow
    ensures Readable(bio)
    ensures old(Pending(bio, xs)) && xs != [] && xs[0].U32? ==> n == xs[0].n && Pending(bio, xs[1..])
  {
    n := bio.GetUint32();
  }

  method TakeString(bio: Bio, ghost xs: seq<Item>) returns (len: word, str: CString)
    requires Readable(bio)
    modifies bio`pos, bio`dataAvail, bio`overflow
    ensures Readable(bio) && (str.At? ==> |str.units| == len + 1)
    ensures old(Pending(bio, xs)) && xs != [] && xs[0].Str? && Faithful(xs[0]) ==>
              str == At(xs[0].s + [0]) && len == |xs[0].s| && Pending(bio, xs[1..])
  {
    ghost var m, at := bio.mem[..], bio.pos;
    len, str := bio.GetString16();
    if old(Pending(bio, xs)) && xs != [] && xs[0].Str? && Faithful(xs[0]) {
      assert m[at + 2..at + 2 + len + 1] == m[at + 2..at + 2 + len] + [m[at + 2 + len]];
    }
  }

  method TakeRef(bio: Bio, ghost xs: seq<Item>) returns (h: word)
    requires Readable(bio)
    modifies bio`pos, bio`dataAvail, bio`overflow
    ensures Readable(bio)
    ensures old(Pending(bio, xs)) && xs != [] && xs[0].Ref? && Faithful(xs[0]) ==>
              h == xs[0].handle && Pending(bio, xs[1..])
  {
    h := bio.GetRef();
  }

  // ---------------------------------------------------------------- requests

  datatype Request =
    | Ping
    | Get(name: Name)
    | Check(name: Name)
    | AddService(name: Name, handle: word, allowIsolated: word)
    | ListServices(n: word)

  function CodeOf(req: Request): word {
    match req
    case Ping => 0x5f50_4e47
    case Get(_) => 1
    case Check(_) => 2
    case AddService(_, _, _) => 3
    case ListServices(_) => 4
  }

  function ArgsOf(req: Request): seq<Item> {
    match req
    case Ping => []
    case Get(name) => [Str(name)]
    case Check(name) => [Str(name)]
    case AddService(name, handle, iso) => [Str(name), Ref(handle), U32(iso)]
    case ListServices(n) => [U32(n)]
  }

  /** The message of a request: a strict mode policy, the interface name, the arguments. */
  function MessageOf(req: Request, policy: word): seq<Item> {
    [U32(policy), Str(SVCMGR_ID)] + ArgsOf(req)
  }

  /** `msg` carries `req`, and everything in it can be read back. */
  ghost predicate Carries(msg: Bio, req: Request, policy: word)
    reads msg, msg.mem
  {
    && Pending(msg, MessageOf(req, policy))
    && forall i :: 0 <= i < |ArgsOf(req)| ==> Faithful(ArgsOf(req)[i])
  }

  /** What the access checks say about a call, and whether memory can be had. */
  datatype Grants = Grants(find: bool, add: bool, list: bool, memory: bool)

  class Manager {
    /** The list that starts at `svclist`. */
    var svclist: seq<Svc>
    /** What has been written to the driver. */
    var log: seq<Command>

    function View(): Registry
      reads this
    {
      Registry(svclist, log)
    }

    constructor ()
      ensures View() == EMPTY
    {
      svclist, log := [], [];
    }

    /** `find_svc`; -1 stands for NULL. */
    method FindSvc(name: Name) returns (i: int)
      ensures i == Find(svclist, name)
    {
      i := 0;
      while i < |svclist|
        invariant 0 <= i <= |svclist|
        invariant forall j :: 0 <= j < i ==> svclist[j].name != name
      {
        if svclist[i].name == name { return; }
        i := i + 1;
      }
      i := -1;
    }

    /** `svcinfo_death`. */
    method SvcinfoDeath(i: nat)
      requires i < |svclist|
      modifies this
      ensures View() == Died(old(View()), i)
    {
      var si := svclist[i];
      if si.handle != 0 {
        log := log + [Release(si.handle)];
        svclist := svclist[i := si.(handle := 0)];
      }
    }

    /** `do_find_service`. */
    method DoFindService(name: Name, uid: nat, permitted: bool) returns (handle: word)
      ensures handle == Looked(View(), name, uid, permitted)
    {
      if !permitted { return 0; }
      var i := FindSvc(name);
      if i == -1 || svclist[i].handle == 0 { return 0; }
      if !svclist[i].allowIsolated && Isolated(uid) { return 0; }
      handle := svclist[i].handle;
    }

    /** `do_add_service`. */
    method DoAddService(name: Name, handle: word, allowIsolated: bool, permitted: bool, memory: bool) returns (ok: bool)
      modifies this
      ensures (View(), ok) == Added(old(View()), name, handle, allowIsolated, permitted, memory)
    {
      if handle == 0 || |name| == 0 || |name| > MAX_NAME || !permitted { return false; }
      var i := FindSvc(name);
      var entry;
      if i >= 0 {
        entry := |svclist| - 1 - i;
        if svclist[i].handle != 0 { SvcinfoDeath(i); }
        svclist := svclist[i := svclist[i].(handle := handle)];
      } else {
        if !memory { return false; }
        entry := |svclist|;
        svclist := [Svc(name, handle, allowIsolated)] + svclist;
      }
      log := log + [Acquire(handle), LinkDeath(handle, entry)];
      ok := true;
    }

    /** The checks at the start of `svcmgr_handler`: the policy word is ignored. */
    method EnforceInterface(msg: Bio, ghost xs: seq<Item>) returns (ok: bool)
      requires Readable(msg)
      modifies msg`pos, msg`dataAvail, msg`overflow
      ensures Readable(msg)
      ensures old(Pending(msg, xs)) && |xs| >= 2 && xs[0].U32? && xs[1] == Str(SVCMGR_ID) ==>
                ok && Pending(msg, xs[2..])
    {
      var _ := TakeUint32(msg, xs);
      var len, s := TakeString(msg, if xs == [] then [] else xs[1..]);
      ok := s.At? && len == |SVCMGR_ID| && s.units[..len] == SVCMGR_ID;
    }

    /** The lookups of `svcmgr_handler`. */
    method HandleLookup(msg: Bio, reply: Bio, uid: nat, grants: Grants, ghost xs: seq<Item>) returns (status: int)
      requires Readable(msg) && reply.Writing() && msg != reply && msg.mem != reply.mem
      modifies msg`pos, msg`dataAvail, msg`overflow, reply, reply.mem
      ensures old(Pending(msg, xs)) && |xs| == 1 && xs[0].Str? && Faithful(xs[0]) ==>
                var h := Looked(View(), xs[0].s, uid, grants.find);
                status == 0 && reply.Put(if h != 0 then Ref(h) else U32(0))
    {
      var len, s := TakeString(msg, xs);
      if s.Nil? { return -1; }
      assert old(Pending(msg, xs)) && |xs| == 1 && xs[0].Str? && Faithful(xs[0]) ==> s.units[..len] == xs[0].s;
      var handle := DoFindService(s.units[..len], uid, grants.find);
      if handle != 0 {
        reply.PutRef(handle);
      } else {
        reply.PutUint32(0);
      }
      status := 0;
    }

    /** The registration branch of `svcmgr_handler`. */
    method HandleAdd(msg: Bio, reply: Bio, grants: Grants, ghost xs: seq<Item>) returns (status: int)
      requires Readable(msg) && reply.Writing() && msg != reply && msg.mem != reply.mem
      modifies this, msg`pos, msg`dataAvail, msg`overflow, reply, reply.mem
      ensures Valid(old(View())) ==> Valid(View())
      ensures old(Pending(msg, xs)) && |xs| == 3 && xs[0].Str? && xs[1].Ref? && xs[2].U32?
              && Faithful(xs[0]) && Faithful(xs[1]) ==>
                && (View(), status == 0) == Added(old(View()), xs[0].s, xs[1].handle,
                                                     xs[2].n != 0, grants.add, grants.memory)
                && (status == 0 ==> reply.Put(U32(0)))
                && (status != 0 ==> status == -1)
    {
      ghost var r := View();
      var len, s := TakeString(msg, xs);
      if s.Nil? { return -1; }
      assert old(Pending(msg, xs)) && |xs| == 3 && xs[0].Str? && Faithful(xs[0]) ==> s.units[..len] == xs[0].s;
      var handle := TakeRef(msg, if xs == [] then [] else xs[1..]);
      var iso := TakeUint32(msg, if |xs| < 2 then [] else xs[2..]);
      var ok := DoAddService(s.units[..len], handle, iso != 0, grants.add, grants.memory);
      if Valid(r) { AddedKeepsValid(r, s.units[..len], handle, iso != 0, grants.add, grants.memory); }
      if !ok { return -1; }
      reply.PutUint32(0);
      status := 0;
    }

    /** The listing branch of `svcmgr_handler`: the name of service number `n`, newest first. */
    method HandleList(msg: Bio, reply: Bio, grants: Grants, ghost xs: seq<Item>) returns (status: int)
      requires Readable(msg) && reply.Writing() && msg != reply && msg.mem != reply.mem
      modifies msg`pos, msg`dataAvail, msg`overflow, reply, reply.mem
      ensures old(Pending(msg, xs)) && |xs| == 1 && xs[0].U32? ==>
                if grants.list && xs[0].n < |svclist|
                then var x := Str(UpToNul(svclist[xs[0].n].name + [0]));
                     status == 0 && reply.Put(x) && (!old(reply.Fits(x)) ==> reply.pos <= old(reply.pos) + 2)
                else status == -1
    {
      var n := TakeUint32(msg, xs);
      if !grants.list { return -1; }
      var si := 0;
      var left := n;
      while left > 0 && si < |svclist|
        invariant 0 <= si <= |svclist| && 0 <= left && si + left == n
      {
        left := left - 1;
        si := si + 1;
      }
      if si < |svclist| {
        reply.PutString16(At(svclist[si].name + [0]));
        return 0;
      }
      status := -1;
    }

    /** `svcmgr_handler`. */
    method Handle(target: word, code: word, uid: nat, msg: Bio, reply: Bio, grants: Grants, ghost req: Request,
                  ghost policy: word)
      returns (status: int)
      requires Readable(msg) && reply.Writing() && msg != reply && msg.mem != reply.mem
      modifies this, msg`pos, msg`dataAvail, msg`overflow, reply, reply.mem
      // whatever arrives, the registry stays in order
      ensures Valid(old(View())) ==> Valid(View())
      ensures code != 3 || target != 0 ==> View() == old(View())
      ensures target != 0 ==> status == -1
      // a proper request gets its proper answer
      ensures target == 0 && code == CodeOf(req) && (req.Ping? || old(Carries(msg, req, policy))) ==>
                match req
                case Ping => status == 0 && reply.pos == old(reply.pos)
                case Get(name) => status == 0 && reply.Put(LookupReply(View(), name, uid, grants.find))
                case Check(name) => status == 0 && reply.Put(LookupReply(View(), name, uid, grants.find))
                case AddService(name, handle, iso) =>
                  && (View(), status == 0) == Added(old(View()), name, handle, iso != 0, grants.add, grants.memory)
                  && (if status == 0 then reply.Put(U32(0)) else status == -1)
                case ListServices(n) =>
                  if grants.list && n < |svclist| then
                    var x := Str(UpToNul(svclist[n].name + [0]));
                    status == 0 && reply.Put(x) && (!old(reply.Fits(x)) ==> reply.pos <= old(reply.pos) + 2)
                  else status == -1
    {
      if target != SVCMGR_HANDLE { return -1; }
      if code == PING_TRANSACTION { return 0; }
      ghost var xs := MessageOf(req, policy);
      assert xs[2..] == ArgsOf(req);
      var ok := EnforceInterface(msg, xs);
      if !ok { return -1; }
      if code == SVC_MGR_GET_SERVICE || code == SVC_MGR_CHECK_SERVICE {
        status := HandleLookup(msg, reply, uid, grants, xs[2..]);
      } else if code == SVC_MGR_ADD_SERVICE {
        status := HandleAdd(msg, reply, grants, xs[2..]);
      } else if code == SVC_MGR_LIST_SERVICES {
        status := HandleList(msg, reply, grants, xs[2..]);
      } else {
        status := -1;
      }
    }
  }

  function LookupReply(r: Registry, name: Name, uid: nat, permitted: bool): Item {
    var handle := Looked(r, name, uid, permitted);
    if handle != 0 then Ref(handle) else U32(0)
  }
}
