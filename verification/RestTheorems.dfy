/** The promises of RestClient on its transport, for every run from a new client. */
module RestTheorems {
  import opened Basics
  import opened Responses
  import opened Registry
  import opened Clients
  import opened Holders
  import opened RestSystem
  import opened RestRuns
  import T = Transport
  import TR = TransportRuns
  import TT = TransportTheorems

  lemma {:induction false} ExecConcat(s: System, a: seq<Op>, b: seq<Op>)
    ensures Exec(s, a + b) == Exec(Exec(s, a), b)
    decreases |b|
  {
    hide Step;
    if b == [] {
      assert a + b == a;
    } else {
      ExecConcat(s, a, ButLast(b));
      assert ButLast(a + b) == a + ButLast(b);
    }
  }

  // ---- the system's transport is a transport on its own -------------------------------------------------------

  /** The steps the transport makes during one step of the system. */
  function Seen(s: System, op: Op): seq<T.Op<Closure>> {
    if !Enabled(s, op) then []
    else match op
      case NewContext(_, _) => []
      case ThrowBeforeSend => []
      case TickEnter => []
      case TickLeave => []
      case HandlerReturn => []
      case TickPop => [T.Pop]
      case Disconnect => [T.CancelAll]
      case DestroyClient => [T.CancelAll]
      case _ => [TransportOp(s, op)]
  }

  function SeenAll(s: System, ops: seq<Op>): seq<T.Op<Closure>> {
    if ops == [] then [] else SeenAll(s, ButLast(ops)) + Seen(Exec(s, ButLast(ops)), Last(ops))
  }

  lemma SeenStep(s: System, op: Op)
    ensures Step(s, op).transport == T.Exec(s.transport, Seen(s, op))
  {
    hide T.Step, CancelEach, Lookup, Release, ReleaseAll, Allocate;
    if |Seen(s, op)| == 1 {
      TT.OneStep(s.transport, Seen(s, op)[0]);
      assert Seen(s, op) == [Seen(s, op)[0]];
    }
  }

  /** Every run of the two layers, seen from below, is a run of the transport: all that is proved of the transport
      holds inside the system. */
  lemma {:induction false} TransportInside(s: System, ops: seq<Op>)
    ensures Exec(s, ops).transport == T.Exec(s.transport, SeenAll(s, ops))
    decreases |ops|
  {
    hide Step, Seen, T.Step;
    if ops != [] {
      var m := Exec(s, ButLast(ops));
      TransportInside(s, ButLast(ops));
      SeenStep(m, Last(ops));
      T.ExecConcat(s.transport, SeenAll(s, ButLast(ops)), Seen(m, Last(ops)));
    }
  }

  // ---- no answer misses its context ---------------------------------------------------------------------------

  /** The "Not found request context." branch is never taken, no handler is read through a dead pointer, and no
      handler is called twice. */
  lemma EveryAnswerFindsItsContext(hasDefault: bool, ops: seq<Op>)
    ensures var s := Exec(Init(hasDefault), ops);
            && (forall call | call in s.calls :: call.Handled? && call.serial < |s.registry.home|)
            && (forall k :: CallBag(s.calls)[k] <= 1)
            && s.registry.faults == 0
  {
    ReachableInv(hasDefault, ops);
    hide TR.Inv, Exec;
  }

  /** Addresses are reused freely, and yet: two closures that the lists, the running handlers or the request under
      construction hold are the same closure or point to different contexts; each is held once; each is registered
      and leads to the very allocation it was made for. */
  lemma HeldPointersAreDistinctAndRegistered(hasDefault: bool, ops: seq<Op>, c: Closure, d: Closure)
    requires Exec(Init(hasDefault), ops).clientAlive
    requires var s := Exec(Init(hasDefault), ops);
             var w := WaitingOf(s.transport, s.building);
             (Some(c) in w || c in FrameBag(s.stack)) && (Some(d) in w || d in FrameBag(s.stack))
    ensures var s := Exec(Init(hasDefault), ops);
            var w := WaitingOf(s.transport, s.building);
            && w[Some(c)] + FrameBag(s.stack)[c] == 1
            && c.ptr in s.registry.contexts && c.ptr in s.registry.live
            && s.registry.live[c.ptr].serial == c.serial
            && (c != d ==> c.ptr != d.ptr)
  {
    ReachableInv(hasDefault, ops);
    var s := Exec(Init(hasDefault), ops);
    hide TR.Inv, CallbackBag, FrameBag, CallBag, Exec;
    if Some(c) in WaitingOf(s.transport, s.building) {
      WaitingClosure(s.registry, WaitingOf(s.transport, s.building), FrameBag(s.stack), s.unsent, s.calls, c);
    } else {
      RunningClosure(s.registry, WaitingOf(s.transport, s.building), FrameBag(s.stack), s.unsent, s.calls, c);
    }
  }

  // ---- ownership ----------------------------------------------------------------------------------------------

  /** While the client lives, a context has been deleted exactly if its handler was called and has returned; until
      then it stays registered under its own address. */
  lemma FreedMeansAnswered(hasDefault: bool, ops: seq<Op>, k: nat)
    requires Exec(Init(hasDefault), ops).clientAlive && k < |Exec(Init(hasDefault), ops).registry.home|
    ensures var s := Exec(Init(hasDefault), ops);
            var r := s.registry;
            && (k in r.freed <==> CallBag(s.calls)[k] == 1 && Closure(r.home[k], k) !in FrameBag(s.stack))
            && (k !in r.freed ==> r.home[k] in r.contexts && Holds(r, Closure(r.home[k], k)))
  {
    ReachableInv(hasDefault, ops);
    var s := Exec(Init(hasDefault), ops);
    hide TR.Inv, CallbackBag, FrameBag, CallBag, Exec;
    assert Places(s.registry, WaitingOf(s.transport, s.building), FrameBag(s.stack), s.unsent, k) == 1;
    assert Allocation(s.registry, k) == Closure(s.registry.home[k], k);
  }

  /** Over a whole run that ends with the client's destructor every context ever allocated is deleted exactly once:
      answered, cancelled by the destructor, left finished but undelivered, or never sent. */
  lemma EveryContextFreedOnce(hasDefault: bool, ops: seq<Op>, k: nat)
    requires !Exec(Init(hasDefault), ops).clientAlive
    ensures var r := Exec(Init(hasDefault), ops).registry;
            && multiset(r.freed)[k] == (if k < |r.home| then 1 else 0)
            && r.live == map[] && r.contexts == {} && r.faults == 0
  {
    ReachableInv(hasDefault, ops);
    hide TR.Inv, Exec, Consistent;
    EmptyMeansAllFreedOnce(Exec(Init(hasDefault), ops).registry, k);
  }

  /** With both lists empty and no handler running, every context that was sent has had its handler called exactly
      once. */
  lemma DrainedMeansEveryHandlerCalled(hasDefault: bool, ops: seq<Op>, k: nat)
    requires var s := Exec(Init(hasDefault), ops);
             && s.clientAlive && s.building.None? && s.stack == []
             && s.transport.pending == [] && s.transport.finished == []
             && k < |s.registry.home|
    ensures var s := Exec(Init(hasDefault), ops);
            CallBag(s.calls)[k] == if k in s.unsent then 0 else 1
  {
    ReachableInv(hasDefault, ops);
    var s := Exec(Init(hasDefault), ops);
    assert Callbacks(s.transport.pending) == [] && Callbacks(s.transport.finished) == [];
    assert FrameBag(s.stack) == multiset{};
    hide TR.Inv, CallBag, Exec, FrameBag;
    assert Places(s.registry, WaitingOf(s.transport, s.building), FrameBag(s.stack), s.unsent, k) == 1;
  }

  // ---- re-entrancy --------------------------------------------------------------------------------------------

  /** Along the run the user's thread never leaves the innermost d activities it was inside. */
  ghost predicate StaysInside(s: System, ops: seq<Op>, d: nat) {
    forall n | 0 <= n <= |ops| :: |Exec(s, ops[..n]).stack| >= d
  }

  lemma StepKeepsBelow(s: System, op: Op, d: nat)
    requires d <= |s.stack| && d <= |Step(s, op).stack|
    ensures Step(s, op).stack[..d] == s.stack[..d]
  {
    hide T.Step, CancelEach, Lookup, Release, ReleaseAll, Allocate, RestVerdict;
  }

  lemma {:induction false} RunKeepsBelow(s: System, ops: seq<Op>, d: nat)
    requires StaysInside(s, ops, d)
    ensures d <= |s.stack| && d <= |Exec(s, ops).stack| && Exec(s, ops).stack[..d] == s.stack[..d]
    decreases |ops|
  {
    hide Step;
    assert ops[..0] == [] && ops[..|ops|] == ops;
    assert |Exec(s, ops[..0]).stack| >= d && |Exec(s, ops[..|ops|]).stack| >= d;
    if ops != [] {
      var b := ButLast(ops);
      assert ops[..|ops| - 1] == b;
      assert |Exec(s, ops[..|ops| - 1]).stack| >= d;
      forall n | 0 <= n <= |b|
        ensures |Exec(s, b[..n]).stack| >= d
      {
        assert b[..n] == ops[..n];
      }
      RunKeepsBelow(s, b, d);
      StepKeepsBelow(Exec(s, b), Last(ops), d);
    }
  }

  lemma ReturnErasesItsOwn(u: System)
    requires Inv(u) && Enabled(u, HandlerReturn) && u.stack != [] && Last(u.stack).Handling?
    ensures Step(u, HandlerReturn) ==
            u.(stack := ButLast(u.stack), registry := Release(u.registry, Last(u.stack).closure.ptr))
    ensures ErasedOnly(u.registry, Release(u.registry, Last(u.stack).closure.ptr), Last(u.stack).closure, u.calls)
  {
    hide TR.Inv, CallbackBag, CallBag, ErasedOnly, Consistent;
    assert Last(u.stack).closure in FrameBag(u.stack);
    ReturnErases(u.registry, WaitingOf(u.transport, u.building), FrameBag(u.stack), u.unsent, u.calls,
                 Last(u.stack).closure);
  }

  /** A handler may issue any number of requests, disconnect, or tick again, with completions arriving throughout.
      When it returns, the erase removes exactly its own context, and the frames below it are as it found them. */
  lemma HandlerReturnsToItsOwnContext(hasDefault: bool, before: seq<Op>, inside: seq<Op>)
    requires var s := Exec(Init(hasDefault), before);
             && s.stack != [] && Last(s.stack).Handling?
             && StaysInside(s, inside, |s.stack|)
             && |Exec(s, inside).stack| == |s.stack| && Enabled(Exec(s, inside), HandlerReturn)
    ensures var s := Exec(Init(hasDefault), before);
            var u := Exec(s, inside);
            var v := Step(u, HandlerReturn);
            && v == u.(stack := ButLast(s.stack), registry := v.registry)
            && ErasedOnly(u.registry, v.registry, Last(s.stack).closure, v.calls)
  {
    hide Inv, Step, Exec, ErasedOnly, Enabled;
    var s := Exec(Init(hasDefault), before);
    var u := Exec(s, inside);
    RunKeepsBelow(s, inside, |s.stack|);
    assert u.stack == s.stack;
    ReachableInv(hasDefault, before);
    RunKeeps(s, inside);
    ReturnErasesItsOwn(u);
  }

  // ---- disconnect ---------------------------------------------------------------------------------------------

  /** What a disconnect calls: each pending request's error path, in issue order, with CancelledByUser. */
  ghost function CancelCalls(specs: seq<RequestSpec>, hasDefault: bool, pending: seq<T.ReqContext<Closure>>)
    : seq<Call>
    decreases pending
  {
    if pending == [] then []
    else
      var rest := CancelCalls(specs, hasDefault, pending[1..]);
      match pending[0].callback
      case None => rest
      case Some(c) =>
        if c.serial < |specs| then [Handled(c.serial, ReqError(specs[c.serial], hasDefault, CancelledByUser))] + rest
        else rest
  }

  /** The allocations those requests are, in the same order. */
  ghost function CancelSerials(pending: seq<T.ReqContext<Closure>>): seq<nat>
    decreases pending
  {
    if pending == [] then []
    else (if pending[0].callback.Some? then [pending[0].callback.value.serial] else []) + CancelSerials(pending[1..])
  }

  lemma CancelOneCalls(r: Registry, calls: seq<Call>, hasDefault: bool, c: Closure)
    requires Sound(r) && Holds(r, c)
    ensures var (r', calls') := CancelOne(r, calls, hasDefault, c);
            && c.serial < |r.specs|
            && calls' == calls + [Handled(c.serial, ReqError(r.specs[c.serial], hasDefault, CancelledByUser))]
            && r'.specs == r.specs && r'.freed == r.freed + [c.serial]
  {
  }

  /** One turn of the cancel loop. */
  lemma CancelHead(r: Registry, calls: seq<Call>, hasDefault: bool, pending: seq<T.ReqContext<Closure>>,
                   rest: Waiting, frames: multiset<Closure>, unsent: set<nat>)
    requires Consistent(r, CallbackBag(pending) + rest, frames, unsent, calls) && pending != []
    ensures var after := CallbackBag(pending[1..]) + rest;
            match pending[0].callback
            case None => Consistent(r, after, frames, unsent, calls)
            case Some(c) =>
              && c.serial < |r.specs|
              && var (r1, calls1) := CancelOne(r, calls, hasDefault, c);
                 && Consistent(r1, after, frames, unsent, calls1)
                 && calls1 == calls + [Handled(c.serial, ReqError(r.specs[c.serial], hasDefault, CancelledByUser))]
                 && r1.specs == r.specs && r1.freed == r.freed + [c.serial]
  {
    hide Consistent, CancelOne, CallbackBag, ReqError;
    CallbackBagHead(pending);
    var before, after := CallbackBag(pending) + rest, CallbackBag(pending[1..]) + rest;
    if pending[0].callback.None? {
      SameClosuresConsistent(r, before, after, frames, unsent, calls);
    } else {
      var c := pending[0].callback.value;
      assert before - multiset{Some(c)} == after;
      WaitingClosure(r, before, frames, unsent, calls, c);
      SoundOf(r, before, frames, unsent, calls);
      CancelOneCalls(r, calls, hasDefault, c);
      CancelOneConsistent(r, calls, hasDefault, c, before, frames, unsent);
    }
  }

  lemma {:induction false} CancelEachCalls(r: Registry, calls: seq<Call>, hasDefault: bool,
                                           pending: seq<T.ReqContext<Closure>>, rest: Waiting,
                                           frames: multiset<Closure>, unsent: set<nat>)
    requires Consistent(r, CallbackBag(pending) + rest, frames, unsent, calls)
    ensures var (r', calls') := CancelEach(r, calls, hasDefault, pending);
            && calls' == calls + CancelCalls(r.specs, hasDefault, pending)
            && r'.freed == r.freed + CancelSerials(pending) && r'.specs == r.specs
    decreases |pending|
  {
    hide Consistent, CancelOne, CallbackBag, ReqError;
    if pending != [] {
      CancelHead(r, calls, hasDefault, pending, rest, frames, unsent);
      if pending[0].callback.None? {
        CancelEachCalls(r, calls, hasDefault, pending[1..], rest, frames, unsent);
      } else {
        var (r1, calls1) := CancelOne(r, calls, hasDefault, pending[0].callback.value);
        CancelEachCalls(r1, calls1, hasDefault, pending[1..], rest, frames, unsent);
      }
    }
  }

  lemma SoundOf(r: Registry, w: Waiting, frames: multiset<Closure>, unsent: set<nat>, calls: seq<Call>)
    requires Consistent(r, w, frames, unsent, calls)
    ensures Sound(r)
  {
  }

  lemma StepDefaultStays(s: System, op: Op)
    ensures Step(s, op).hasDefault == s.hasDefault
  {
    hide T.Step, CancelEach, Lookup, Release, ReleaseAll, Allocate, RestVerdict;
  }

  lemma {:induction false} HasDefaultStays(s: System, ops: seq<Op>)
    ensures Exec(s, ops).hasDefault == s.hasDefault
    decreases |ops|
  {
    hide Step;
    if ops != [] {
      HasDefaultStays(s, ButLast(ops));
      StepDefaultStays(Exec(s, ButLast(ops)), Last(ops));
    }
  }

  lemma DisconnectCalls(s: System)
    requires Inv(s) && InUserCode(s)
    ensures DoDisconnect(s).calls == s.calls + CancelCalls(s.registry.specs, s.hasDefault, s.transport.pending)
    ensures DoDisconnect(s).registry.freed == s.registry.freed + CancelSerials(s.transport.pending)
    ensures DoDisconnect(s).registry.specs == s.registry.specs
  {
    hide TR.Inv, Consistent, CancelEach, CallbackBag, CancelCalls, CancelSerials, FrameBag, T.Step;
    var rest := CallbackBag(s.transport.finished) + multiset{s.building};
    assert WaitingOf(s.transport, s.building) == CallbackBag(s.transport.pending) + rest;
    CancelEachCalls(s.registry, s.calls, s.hasDefault, s.transport.pending, rest, FrameBag(s.stack), s.unsent);
  }

  lemma DisconnectLists(s: System)
    requires InUserCode(s)
    ensures Step(s, Disconnect) == DoDisconnect(s)
    ensures DoDisconnect(s).transport.pending == [] && DoDisconnect(s).stack == s.stack
    ensures DoDisconnect(s).transport.finished == s.transport.finished
  {
    hide CancelEach;
  }

  lemma PendingInIssueOrder(s: System)
    requires Inv(s) && InUserCode(s)
    ensures TR.Increasing(s.transport.pending)
  {
    hide Consistent, TR.Whereabouts, TR.AllOk, TR.LaunchedOk, TR.StartingOk;
  }

  /** A pending request whose callback is stored: it is the allocation its callback names. */
  lemma PendingCallback(s: System, e: T.ReqContext<Closure>)
    requires Inv(s) && InUserCode(s) && e in s.transport.pending
    ensures e.callback.Some? && e.callback.value.serial < |s.registry.specs|
  {
    var t := s.transport;
    assert TR.PendingOk(t.issued, TR.Built(t), e);
    assert e.callback in t.issued;
    var i :| 0 <= i < |t.pending| && t.pending[i] == e;
    assert Callbacks(t.pending)[i] == e.callback;
    assert e.callback in CallbackBag(t.pending);
    WaitingClosure(s.registry, WaitingOf(t, s.building), FrameBag(s.stack), s.unsent, s.calls, e.callback.value);
  }

  lemma {:induction false} EachIsCalled(specs: seq<RequestSpec>, hasDefault: bool,
                                        pending: seq<T.ReqContext<Closure>>)
    requires forall e | e in pending :: e.callback.Some? && e.callback.value.serial < |specs|
    ensures var calls := CancelCalls(specs, hasDefault, pending);
            && |calls| == |CancelSerials(pending)| == |pending|
            && forall i | 0 <= i < |pending| ::
                 var k := pending[i].callback.value.serial;
                 && calls[i] == Handled(k, ReqError(specs[k], hasDefault, CancelledByUser))
                 && CancelSerials(pending)[i] == k
    decreases |pending|
  {
    hide ReqError;
    if pending != [] {
      EachIsCalled(specs, hasDefault, pending[1..]);
    }
  }

  lemma NoneIsSkipped(s: System, pending: seq<T.ReqContext<Closure>>)
    requires Inv(s) && InUserCode(s)
    requires forall e | e in pending :: e in s.transport.pending
    ensures var calls := CancelCalls(s.registry.specs, s.hasDefault, pending);
            && |calls| == |CancelSerials(pending)| == |pending|
            && forall i | 0 <= i < |pending| ::
                 && pending[i].callback.Some?
                 && var k := pending[i].callback.value.serial;
                    && k < |s.registry.specs|
                    && calls[i] == Handled(k, ReqError(s.registry.specs[k], s.hasDefault, CancelledByUser))
                    && CancelSerials(pending)[i] == k
  {
    forall e | e in pending
      ensures e.callback.Some? && e.callback.value.serial < |s.registry.specs|
    {
      PendingCallback(s, e);
    }
    hide Inv, InUserCode, ReqError;
    EachIsCalled(s.registry.specs, s.hasDefault, pending);
  }

  /** disconnect resolves the requests pending at that moment, every one of them and no other, in issue order: each
      gets its error path with CancelledByUser and its context is deleted. Answers that already came in stay for the
      next tick. */
  lemma DisconnectResolvesExactlyThePending(hasDefault: bool, ops: seq<Op>)
    requires InUserCode(Exec(Init(hasDefault), ops))
    ensures var s := Exec(Init(hasDefault), ops);
            var u := Step(s, Disconnect);
            var pending := s.transport.pending;
            && u.transport.pending == [] && u.transport.finished == s.transport.finished && u.stack == s.stack
            && TR.Increasing(pending)
            && s.calls <= u.calls && |u.calls| == |s.calls| + |pending|
            && s.registry.freed <= u.registry.freed && |u.registry.freed| == |s.registry.freed| + |pending|
            && forall i | 0 <= i < |pending| ::
                 && pending[i].callback.Some?
                 && var k := pending[i].callback.value.serial;
                    && k < |s.registry.specs|
                    && u.calls[|s.calls| + i]
                       == Handled(k, ReqError(s.registry.specs[k], hasDefault, CancelledByUser))
                    && u.registry.freed[|s.registry.freed| + i] == k
  {
    hide *;
    var s := Exec(Init(hasDefault), ops);
    ReachableInv(hasDefault, ops);
    HasDefaultStays(Init(hasDefault), ops);
    DisconnectCalls(s);
    DisconnectLists(s);
    PendingInIssueOrder(s);
    NoneIsSkipped(s, s.transport.pending);
    InitDefault(hasDefault);
  }

  lemma InitDefault(hasDefault: bool)
    ensures Init(hasDefault).hasDefault == hasDefault
  {
  }

  /** After a disconnect, however the run goes on, a completion for a request it cancelled changes nothing. */
  lemma CancelledRequestsAreInert(hasDefault: bool, ops: seq<Op>, later: seq<Op>, i: nat, outcome: T.Outcome)
    requires InUserCode(Exec(Init(hasDefault), ops)) && i < |Exec(Init(hasDefault), ops).transport.pending|
    ensures var id := Exec(Init(hasDefault), ops).transport.pending[i].id;
            var u := Exec(Init(hasDefault), ops + [Disconnect] + later);
            Step(u, Arrive(id, outcome)) == u
  {
    hide *;
    var init := Init(hasDefault);
    var s := Exec(init, ops);
    var c := ops + [Disconnect];
    var d, u := Exec(init, c), Exec(init, c + later);
    ExecOneMore(init, ops, Disconnect);
    DisconnectResolves(s, i);
    TransportInside(init, c);
    ExecConcat(init, c, later);
    TransportInside(d, later);
    InitTransport(hasDefault);
    T.ExecConcat(init.transport, SeenAll(init, c), SeenAll(d, later));
    TT.ResolvedIdsAreInert(SeenAll(init, c), SeenAll(d, later), s.transport.pending[i].id, outcome);
    InertBelow(u, s.transport.pending[i].id, outcome);
  }

  lemma ExecOneMore(s: System, ops: seq<Op>, op: Op)
    ensures Exec(s, ops + [op]) == Step(Exec(s, ops), op)
  {
    assert ButLast(ops + [op]) == ops;
  }

  lemma InitTransport(hasDefault: bool)
    ensures Init(hasDefault).transport == T.Init()
  {
  }

  lemma InertBelow(u: System, id: nat, outcome: T.Outcome)
    requires T.Step(u.transport, T.Arrive(id, outcome)) == u.transport
    ensures Step(u, Arrive(id, outcome)) == u
  {
    hide T.IndexOf;
  }

  lemma DisconnectResolves(s: System, i: nat)
    requires InUserCode(s) && i < |s.transport.pending|
    ensures s.transport.pending[i].id in T.ResolvedIds(Step(s, Disconnect).transport.resolved)
  {
    CancelledIsResolved(s.transport, i);
  }

  lemma CancelledIsResolved(t: T.Transport<Closure>, i: nat)
    requires i < |t.pending| && T.Idle(t)
    ensures t.pending[i].id in T.ResolvedIds(T.Step(t, T.CancelAll).resolved)
  {
    var r := T.Step(t, T.CancelAll).resolved;
    var j := |t.resolved| + i;
    assert r[j] == T.CancelResolution(t.pending[i]);
    assert T.ResolvedIds(r)[j] == t.pending[i].id;
  }
}
