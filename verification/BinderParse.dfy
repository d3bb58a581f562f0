/**
 * `binder_parse`: the loop over the commands that the binder driver returns.
 *
 * The buffer is a sequence of 32-bit words; sizes are those of the 64-bit ABI.  The transaction
 * handler and the death callback are functions on a state of any type.
 */
module BinderParse {
  import opened Wrappers
  import opened BinderIo

  const BR_TRANSACTION: word := 0x8040_7202
  const BR_REPLY: word := 0x8040_7203
  const BR_DEAD_REPLY: word := 0x7205
  const BR_TRANSACTION_COMPLETE: word := 0x7206
  const BR_INCREFS: word := 0x8010_7207
  const BR_ACQUIRE: word := 0x8010_7208
  const BR_RELEASE: word := 0x8010_7209
  const BR_DECREFS: word := 0x8010_720a
  const BR_NOOP: word := 0x720c
  const BR_DEAD_BINDER: word := 0x8008_720f
  const BR_FAILED_REPLY: word := 0x7211

  /** Words in a `binder_transaction_data`, a `binder_ptr_cookie` and a `binder_uintptr_t`. */
  const TXN: nat := 16
  const PTR_COOKIE: nat := 4
  const PTR: nat := 2

  type Txn = t: seq<word> | |t| == 16 witness [0, 0, 0, 0, 0, 0, 0, 0, 0, 0, 0, 0, 0, 0, 0, 0]

  /** `txn->data.ptr.buffer` */
  function Buffer(t: Txn): nat {
    Pointer(t[12], t[13])
  }

  function Pointer(low: word, high: word): nat {
    (low as int) + (high as int) * 0x1_0000_0000
  }

  // ---------------------------------------------------------------- commands and their effects

  datatype Cmd =
    | Ignored(cmd: word)
    | RefCount(cmd: word, payload: seq<word>)
    | Transaction(txn: Txn)
    | Reply(txn: Txn)
    | DeadBinder(low: word, high: word)
    | Failure(cmd: word)

  ghost predicate WellFormed(c: Cmd) {
    match c
    case Ignored(w) => w == 0x720c || w == 0x7206
    case RefCount(w, payload) => |payload| == 4 && 0x8010_7207 <= w <= 0x8010_720a
    case Failure(w) => w == 0x7211 || w == 0x7205
    case _ => true
  }

  function Encode(c: Cmd): seq<word> {
    match c
    case Ignored(w) => [w]
    case RefCount(w, payload) => [w] + payload
    case Transaction(t) => [0x8040_7202] + t
    case Reply(t) => [0x8040_7203] + t
    case DeadBinder(low, high) => [0x8008_720f, low, high]
    case Failure(w) => [w]
  }

  function EncodeAll(cs: seq<Cmd>): seq<word> {
    if cs == [] then [] else Encode(cs[0]) + EncodeAll(cs[1..])
  }

  /** What the loop does to the outside: calls of the handler, and what is written to the driver. */
  datatype Effect =
    | Handled(txn: Txn)
    | FreeAndReply(buffer: nat, status: int)
    | Died(cookie: nat)

  /** The state of the loop besides its position. */
  datatype Progress<S> = Progress(state: S, log: seq<Effect>, filled: Option<Txn>, r: int)

  /** What the loop was called with: a handler or NULL, and whether `bio` is not NULL. */
  datatype Setup<!S> = Setup(handler: Option<(S, Txn) -> (S, int)>, death: (S, nat) -> S, bio: bool)

  function OnTransaction<S>(u: Setup<S>, p: Progress<S>, t: Txn): Progress<S> {
    match u.handler
    case None => p
    case Some(f) =>
      var (state, status) := f(p.state, t);
      p.(state := state, log := p.log + [Handled(t), FreeAndReply(Buffer(t), status)])
  }

  function OnReply<S>(u: Setup<S>, p: Progress<S>, t: Txn): Progress<S> {
    p.(filled := if u.bio && p.filled.None? then Some(t) else p.filled, r := 0)
  }

  function OnDeath<S>(u: Setup<S>, p: Progress<S>, cookie: nat): Progress<S> {
    p.(state := u.death(p.state, cookie), log := p.log + [Died(cookie)])
  }

  function Exec<S>(u: Setup<S>, p: Progress<S>, c: Cmd): Progress<S> {
    match c
    case Ignored(_) => p
    case RefCount(_, _) => p
    case Transaction(t) => OnTransaction(u, p, t)
    case Reply(t) => OnReply(u, p, t)
    case DeadBinder(low, high) => OnDeath(u, p, Pointer(low, high))
    case Failure(_) => p.(r := -1)
  }

  function ExecAll<S>(u: Setup<S>, p: Progress<S>, cs: seq<Cmd>): Progress<S>
    decreases cs
  {
    if cs == [] then p else ExecAll(u, Exec(u, p, cs[0]), cs[1..])
  }

  // ---------------------------------------------------------------- binder_parse

  predicate KnownCommand(w: word) {
    w in {0x720c, 0x7206, 0x8010_7207, 0x8010_7208, 0x8010_7209, 0x8010_720a, 0x8040_7202, 0x8040_7203, 0x8008_720f,
          0x7211, 0x7205}
  }

  /** A place where parsing cannot go on: an unknown command, or a transaction cut short. */
  ghost predicate Broken(words: seq<word>) {
    words != [] && (!KnownCommand(words[0])
                    || ((words[0] == 0x8040_7202 || words[0] == 0x8040_7203) && |words| < 17))
  }

  ghost predicate AllWellFormed(cs: seq<Cmd>) {
    forall i :: 0 <= i < |cs| ==> WellFormed(cs[i])
  }

  /** One turn of the loop at `ptr`; a negative `next` means that the call returns -1. */
  method ParseOne<S>(words: seq<word>, ptr: nat, u: Setup<S>, p: Progress<S>, stale: word, ghost c: Cmd)
    returns (next: int, q: Progress<S>)
    requires ptr < |words|
    ensures next == -1 || next > ptr
    ensures next == -1 <==> Broken(words[ptr..])
    ensures next == -1 ==> q == p
    ensures WellFormed(c) && Encode(c) <= words[ptr..] ==> next == ptr + |Encode(c)| && q == Exec(u, p, c)
  {
    var cmd := words[ptr];
    next, q := ptr + 1, p;
    assert words[ptr..][0] == cmd;
    if WellFormed(c) && Encode(c) <= words[ptr..] { FirstCommand(words, ptr, c); }
    if cmd == BR_NOOP || cmd == BR_TRANSACTION_COMPLETE {
    } else if cmd == BR_INCREFS || cmd == BR_ACQUIRE || cmd == BR_RELEASE || cmd == BR_DECREFS {
      next := next + PTR_COOKIE;
    } else if cmd == BR_TRANSACTION {
      if |words| - next < TXN { return -1, p; }
      q := OnTransaction(u, p, words[next..next + TXN]);
      next := next + TXN;
    } else if cmd == BR_REPLY {
      if |words| - next < TXN { return -1, p; }
      q := OnReply(u, p, words[next..next + TXN]);
      next := next + TXN;
    } else if cmd == BR_DEAD_BINDER {
      var low := if next < |words| then words[next] else stale;
      var high := if next + 1 < |words| then words[next + 1] else stale;
      q := OnDeath(u, p, Pointer(low, high));
      next := next + PTR;
    } else if cmd == BR_FAILED_REPLY || cmd == BR_DEAD_REPLY {
      q := p.(r := -1);
    } else {
      return -1, p;
    }
  }

  /** What the words at `ptr` are when a command is encoded there. */
  lemma FirstCommand(words: seq<word>, ptr: nat, c: Cmd)
    requires ptr < |words| && WellFormed(c) && Encode(c) <= words[ptr..]
    ensures words[ptr] == Encode(c)[0] && ptr + |Encode(c)| <= |words|
    ensures c.Transaction? || c.Reply? ==> |Encode(c)| == 1 + TXN && words[ptr + 1..ptr + 1 + TXN] == c.txn
    ensures c.DeadBinder? ==> |Encode(c)| == 3 && words[ptr + 1] == c.low && words[ptr + 2] == c.high
  {
    var e := Encode(c);
    assert words[ptr..][..|e|] == e;
    assert forall i :: 0 <= i < |e| ==> words[ptr + i] == words[ptr..][i] == e[i];
    if c.Transaction? || c.Reply? {
      assert words[ptr + 1..ptr + 1 + TXN] == e[1..1 + TXN] == c.txn;
    }
  }

  // ---------------------------------------------------------------- what a buffer asks for

  /** The state that the commands lead to: the handler is applied to each transaction and the callback
      to the cookie of each dead binder, in their order. */
  ghost function StateAfter<S>(u: Setup<S>, s: S, cs: seq<Cmd>): S {
    if cs == [] then s
    else
      var before := StateAfter(u, s, cs[..|cs| - 1]);
      match cs[|cs| - 1]
      case Transaction(t) => if u.handler.Some? then u.handler.value(before, t).0 else before
      case DeadBinder(low, high) => u.death(before, low as int + 0x1_0000_0000 * high as int)
      case _ => before
  }

  /** The calls that the last of the commands leads to.  A transaction is handled in the state that
      the commands before it lead to; the reply frees the buffer that its words 12 and 13 point to, and
      carries the status that the handler returned. */
  ghost function LastTraffic<S>(u: Setup<S>, s: S, cs: seq<Cmd>): seq<Effect>
    requires cs != []
  {
    match cs[|cs| - 1]
    case Transaction(t) =>
      if u.handler.None? then []
      else
        [Handled(t), FreeAndReply(t[12] as int + 0x1_0000_0000 * t[13] as int,
                                  u.handler.value(StateAfter(u, s, cs[..|cs| - 1]), t).1)]
    case DeadBinder(low, high) => [Died(low as int + 0x1_0000_0000 * high as int)]
    case _ => []
  }

  /** All calls, in order. */
  ghost function Traffic<S>(u: Setup<S>, s: S, cs: seq<Cmd>): seq<Effect> {
    if cs == [] then [] else Traffic(u, s, cs[..|cs| - 1]) + LastTraffic(u, s, cs)
  }

  /** 0 after a reply and -1 after a failure, whichever came last; 1 with neither. */
  ghost function LastOutcome(cs: seq<Cmd>): int {
    if cs == [] then 1
    else
      match cs[|cs| - 1]
      case Reply(_) => 0
      case Failure(_) => -1
      case _ => LastOutcome(cs[..|cs| - 1])
  }

  ghost function FirstReply(cs: seq<Cmd>): Option<Txn> {
    if cs == [] then None
    else match cs[0]
      case Reply(t) => Some(t)
      case _ => FirstReply(cs[1..])
  }

  lemma {:induction false} OutcomeIs<S>(u: Setup<S>, p: Progress<S>, cs: seq<Cmd>)
    requires p.r == 1
    ensures ExecAll(u, p, cs).r == LastOutcome(cs)
    decreases |cs|
  {
    if cs != [] {
      ExecLast(u, p, cs);
      OutcomeIs(u, p, cs[..|cs| - 1]);
    }
  }

  lemma {:induction false} FilledIs<S>(u: Setup<S>, p: Progress<S>, cs: seq<Cmd>)
    requires p.filled.None?
    ensures ExecAll(u, p, cs).filled == if u.bio then FirstReply(cs) else None
    decreases cs
  {
    if cs != [] {
      if cs[0].Reply? && u.bio {
        FilledStays(u, Exec(u, p, cs[0]), cs[1..]);
      } else {
        FilledIs(u, Exec(u, p, cs[0]), cs[1..]);
      }
    }
  }

  lemma {:induction false} ExecLast<S>(u: Setup<S>, p: Progress<S>, cs: seq<Cmd>)
    requires cs != []
    ensures ExecAll(u, p, cs) == Exec(u, ExecAll(u, p, cs[..|cs| - 1]), cs[|cs| - 1])
    decreases cs
  {
    if |cs| > 1 {
      ExecLast(u, Exec(u, p, cs[0]), cs[1..]);
      assert cs[..|cs| - 1][1..] == cs[1..][..|cs| - 2];
    }
  }

  /** What the loop does is what the buffer asks for. */
  lemma {:induction false} ExecAllIs<S>(u: Setup<S>, p: Progress<S>, cs: seq<Cmd>)
    ensures ExecAll(u, p, cs).state == StateAfter(u, p.state, cs)
    ensures ExecAll(u, p, cs).log == p.log + Traffic(u, p.state, cs)
    decreases |cs|
  {
    if cs != [] {
      var n := |cs| - 1;
      ExecLast(u, p, cs);
      ExecAllIs(u, p, cs[..n]);
      assert ExecAll(u, p, cs).log == ExecAll(u, p, cs[..n]).log + LastTraffic(u, p.state, cs);
    }
  }

  lemma {:induction false} RunIs<S>(u: Setup<S>, p: Progress<S>, cs: seq<Cmd>)
    requires p.r == 1 && p.filled.None?
    ensures var q := ExecAll(u, p, cs);
            && q.state == StateAfter(u, p.state, cs) && q.log == p.log + Traffic(u, p.state, cs)
            && q.filled == (if u.bio then FirstReply(cs) else None) && q.r == LastOutcome(cs)
  {
    ExecAllIs(u, p, cs);
    OutcomeIs(u, p, cs);
    FilledIs(u, p, cs);
  }

  /** The reply to the transaction at index `i` of the buffer: where in the log it is, and what it says. */
  lemma {:induction false} ReplyOf<S>(u: Setup<S>, s: S, cs: seq<Cmd>, i: nat) returns (at: nat)
    requires i < |cs| && cs[i].Transaction? && u.handler.Some?
    ensures var log, t := Traffic(u, s, cs), cs[i].txn;
            && at + 1 < |log| && at == |Traffic(u, s, cs[..i])| && log[at] == Handled(t)
            && log[at + 1] == FreeAndReply(t[12] as int + 0x1_0000_0000 * t[13] as int,
                                           u.handler.value(StateAfter(u, s, cs[..i]), t).1)
    decreases |cs|
  {
    var n := |cs| - 1;
    if i < n {
      at := ReplyOf(u, s, cs[..n], i);
      assert cs[..n][..i] == cs[..i];
    } else {
      at := |Traffic(u, s, cs[..n])|;
    }
  }

  /**
   * `binder_parse`.  On any sequence of well-formed commands it reads them all and does, in order,
   * what they ask for; where something broken follows them, it has done that much and returns -1.
   */
  method Parse<S>(words: seq<word>, u: Setup<S>, state: S, stale: word, ghost cs: seq<Cmd>, ghost tail: seq<word>)
    returns (p: Progress<S>, r: int)
    requires AllWellFormed(cs) && words == EncodeAll(cs) + tail && (tail == [] || Broken(tail))
    ensures p.state == StateAfter(u, state, cs) && p.log == Traffic(u, state, cs)
    ensures p.filled == if u.bio then FirstReply(cs) else None
    ensures r == if tail == [] then LastOutcome(cs) else -1
    ensures p == ExecAll(u, Progress(state, [], None, 1), cs)
  {
    p := Progress(state, [], None, 1);
    var ptr := 0;
    ghost var rest := cs;
    while ptr < |words|
      invariant 0 <= ptr <= |words| && AllWellFormed(rest)
      invariant words[ptr..] == EncodeAll(rest) + tail
      invariant ExecAll(u, p, rest) == ExecAll(u, Progress(state, [], None, 1), cs)
    {
      ghost var c := if rest == [] then Failure(BR_DEAD_REPLY) else rest[0];
      Front(rest, tail);
      var next;
      next, p := ParseOne(words, ptr, u, p, stale, c);
      if next == -1 {
        RunIs(u, Progress(state, [], None, 1), cs);
        return p, -1;
      }
      RestOf(words, ptr, |Encode(c)|);
      ptr := next;
      rest := rest[1..];
    }
    Front(rest, tail);
    RunIs(u, Progress(state, [], None, 1), cs);
    r := p.r;
  }

  lemma RestOf(words: seq<word>, ptr: nat, n: nat)
    requires ptr + n <= |words|
    ensures words[ptr + n..] == words[ptr..][n..]
  {
  }

  /** A well-formed command in front is whole, is not broken, and leaves the others. */
  lemma {:induction false} Front(cs: seq<Cmd>, tail: seq<word>)
    requires AllWellFormed(cs)
    ensures cs == [] ==> EncodeAll(cs) + tail == tail
    ensures cs != [] ==>
              var all := EncodeAll(cs) + tail;
              var e := Encode(cs[0]);
              && |e| > 0 && e <= all && !Broken(all) && all[|e|..] == EncodeAll(cs[1..]) + tail
  {
    if cs != [] {
      var e, rest := Encode(cs[0]), EncodeAll(cs[1..]);
      assert EncodeAll(cs) == e + rest;
      Joined(e, rest, tail);
      NotBroken(cs[0], rest + tail);
    }
  }

  lemma Joined(a: seq<word>, b: seq<word>, c: seq<word>)
    ensures a + b + c == a + (b + c) && a <= a + (b + c) && (a + (b + c))[|a|..] == b + c
  {
  }

  lemma NotBroken(c: Cmd, rest: seq<word>)
    requires WellFormed(c)
    ensures |Encode(c)| > 0 && !Broken(Encode(c) + rest)
  {
    var e := Encode(c);
    assert (e + rest)[0] == e[0];
    assert KnownCommand(e[0]);
  }

  // ---------------------------------------------------------------- what a whole run amounts to

  predicate IsOutcome(c: Cmd) { c.Reply? || c.Failure? }

  /** The result is the outcome of the last reply or failure. */
  lemma {:induction false} ResultIsLastOutcome<S>(u: Setup<S>, p: Progress<S>, cs: seq<Cmd>, i: nat)
    requires i < |cs| && IsOutcome(cs[i]) && forall j :: i < j < |cs| ==> !IsOutcome(cs[j])
    ensures ExecAll(u, p, cs).r == if cs[i].Reply? then 0 else -1
    decreases cs
  {
    if i == 0 {
      ResultWithoutOutcome(u, Exec(u, p, cs[0]), cs[1..]);
    } else {
      ResultIsLastOutcome(u, Exec(u, p, cs[0]), cs[1..], i - 1);
    }
  }

  lemma {:induction false} ResultWithoutOutcome<S>(u: Setup<S>, p: Progress<S>, cs: seq<Cmd>)
    requires forall j :: 0 <= j < |cs| ==> !IsOutcome(cs[j])
    ensures ExecAll(u, p, cs).r == p.r
    decreases cs
  {
    if cs != [] { ResultWithoutOutcome(u, Exec(u, p, cs[0]), cs[1..]); }
  }

  /** `bio` is filled from the first reply, and from no other. */
  lemma {:induction false} FilledByFirstReply<S>(u: Setup<S>, p: Progress<S>, cs: seq<Cmd>, i: nat)
    requires u.bio && p.filled.None?
    requires i < |cs| && cs[i].Reply? && forall j :: 0 <= j < i ==> !cs[j].Reply?
    ensures ExecAll(u, p, cs).filled == Some(cs[i].txn)
    decreases cs
  {
    if i == 0 {
      FilledStays(u, Exec(u, p, cs[0]), cs[1..]);
    } else {
      FilledByFirstReply(u, Exec(u, p, cs[0]), cs[1..], i - 1);
    }
  }

  lemma {:induction false} FilledStays<S>(u: Setup<S>, p: Progress<S>, cs: seq<Cmd>)
    requires p.filled.Some? || !u.bio || forall j :: 0 <= j < |cs| ==> !cs[j].Reply?
    ensures ExecAll(u, p, cs).filled == p.filled
    decreases cs
  {
    if cs != [] { FilledStays(u, Exec(u, p, cs[0]), cs[1..]); }
  }

  ghost function Transactions(cs: seq<Cmd>): seq<Txn> {
    if cs == [] then [] else (if cs[0].Transaction? then [cs[0].txn] else []) + Transactions(cs[1..])
  }

  ghost function Calls(log: seq<Effect>): seq<Txn> {
    if log == [] then []
    else Calls(log[..|log| - 1]) + (if log[|log| - 1].Handled? then [log[|log| - 1].txn] else [])
  }

  /** Each call of the handler is followed at once by the one reply that frees its buffer, and there
      are no other replies. */
  ghost predicate Answered(log: seq<Effect>) {
    && (forall i :: 0 <= i < |log| && log[i].Handled? ==>
                      i + 1 < |log| && log[i + 1].FreeAndReply? && log[i + 1].buffer == Buffer(log[i].txn))
    && (forall i :: 0 <= i < |log| && log[i].FreeAndReply? ==> i > 0 && log[i - 1].Handled?)
  }

  lemma {:induction false} CallsAppend(log: seq<Effect>, e: Effect)
    ensures Calls(log + [e]) == Calls(log) + (if e.Handled? then [e.txn] else [])
  {
    assert (log + [e])[..|log|] == log;
  }

  lemma AnsweredCall(log: seq<Effect>, t: Txn, status: int)
    requires Answered(log)
    ensures Answered(log + [Handled(t), FreeAndReply(Buffer(t), status)])
  {
    var after := log + [Handled(t), FreeAndReply(Buffer(t), status)];
    assert after[|log|] == Handled(t) && after[|log| + 1] == FreeAndReply(Buffer(t), status);
    assert forall i :: 0 <= i < |log| ==> after[i] == log[i];
  }

  lemma AnsweredDeath(log: seq<Effect>, cookie: nat)
    requires Answered(log)
    ensures Answered(log + [Died(cookie)])
  {
    var after := log + [Died(cookie)];
    assert after[|log|] == Died(cookie);
    assert forall i :: 0 <= i < |log| ==> after[i] == log[i];
  }

  lemma ExecLog<S>(u: Setup<S>, p: Progress<S>, c: Cmd)
    requires Answered(p.log)
    ensures var log := Exec(u, p, c).log;
            && Answered(log)
            && Calls(log) == Calls(p.log) + (if c.Transaction? && u.handler.Some? then [c.txn] else [])
  {
    var log := Exec(u, p, c).log;
    if c.Transaction? && u.handler.Some? {
      var status := u.handler.value(p.state, c.txn).1;
      var e := FreeAndReply(Buffer(c.txn), status);
      CallsAppend(p.log, Handled(c.txn));
      CallsAppend(p.log + [Handled(c.txn)], e);
      assert log == p.log + [Handled(c.txn), e] == p.log + [Handled(c.txn)] + [e];
      AnsweredCall(p.log, c.txn, status);
    } else if c.DeadBinder? {
      CallsAppend(p.log, Died(Pointer(c.low, c.high)));
      AnsweredDeath(p.log, Pointer(c.low, c.high));
    }
  }

  /** The handler is called once for each transaction, in order, and each call is answered. */
  lemma {:induction false} HandlerCalls<S>(u: Setup<S>, p: Progress<S>, cs: seq<Cmd>)
    requires Answered(p.log)
    ensures var log := ExecAll(u, p, cs).log;
            && Answered(log)
            && Calls(log) == Calls(p.log) + (if u.handler.Some? then Transactions(cs) else [])
    decreases cs
  {
    if cs != [] {
      var q := Exec(u, p, cs[0]);
      ExecLog(u, p, cs[0]);
      HandlerCalls(u, q, cs[1..]);
      if u.handler.Some? {
        Regroup(Calls(p.log), if cs[0].Transaction? then [cs[0].txn] else [], Transactions(cs[1..]));
      }
    }
  }

  lemma Regroup(a: seq<Txn>, b: seq<Txn>, c: seq<Txn>)
    ensures a + b + c == a + (b + c)
  {
  }
}
