/** Which function each answer runs, on every run of RestClient: the calls made, one by one, against the answers the
    transport delivered. */
module RestAnswers {
  import opened Basics
  import opened Responses
  import opened Registry
  import opened Clients
  import opened RestSystem
  import opened RestRuns
  import opened RestTheorems
  import T = Transport
  import TR = TransportRuns
  import TT = TransportTheorems

  /** This call is what this answer asks for, from the request the answer belongs to. */
  predicate CallFor(specs: seq<RequestSpec>, hasDefault: bool, r: T.Resolution<Closure>, call: Call) {
    && r.callback.Some? && r.response.Some?
    && call.Handled? && call.serial == r.callback.value.serial < |specs|
    && AnsweredBy(specs[call.serial], hasDefault, r.response.value, call.invocation)
  }

  predicate AllCallsFor(specs: seq<RequestSpec>, hasDefault: bool, rs: seq<T.Resolution<Closure>>, calls: seq<Call>) {
    |calls| == |rs| && forall i | 0 <= i < |rs| :: CallFor(specs, hasDefault, rs[i], calls[i])
  }

  predicate Explained(s: System) {
    AllCallsFor(s.registry.specs, s.hasDefault, s.transport.resolved, s.calls)
  }

  lemma StillExplained(specs: seq<RequestSpec>, specs': seq<RequestSpec>, hasDefault: bool,
                       rs: seq<T.Resolution<Closure>>, calls: seq<Call>)
    requires AllCallsFor(specs, hasDefault, rs, calls) && specs <= specs'
    ensures AllCallsFor(specs', hasDefault, rs, calls)
  {
    hide AnsweredBy;
  }

  lemma TickPopExplains(s: System)
    requires Inv(s) && Enabled(s, TickPop) && Explained(s)
    ensures Explained(Step(s, TickPop))
  {
    TickPopUnfolds(s);
    var e := s.transport.finished[0];
    var spec := s.registry.specs[e.callback.value.serial];
    var answer := e.response.value;
    VerdictAnswers(spec, s.hasDefault, answer, Invoke(spec, s.hasDefault, RestVerdict(answer)));
    PopResolves(s);
    hide Inv, Step, T.Step, AnsweredBy, Invoke, RestVerdict, WaitingOf;
  }

  lemma PopResolves(s: System)
    requires Enabled(s, TickPop)
    ensures var e := s.transport.finished[0];
            T.Step(s.transport, T.Pop).resolved
            == s.transport.resolved + [T.Resolution(e.id, e.callback, e.response, T.Ticked)]
  {
  }

  lemma CallsTogether(specs: seq<RequestSpec>, hasDefault: bool, rs: seq<T.Resolution<Closure>>, calls: seq<Call>,
                      rs': seq<T.Resolution<Closure>>, calls': seq<Call>)
    requires AllCallsFor(specs, hasDefault, rs, calls) && AllCallsFor(specs, hasDefault, rs', calls')
    ensures AllCallsFor(specs, hasDefault, rs + rs', calls + calls')
  {
    hide CallFor;
  }

  lemma CancelledCallsFor(s: System)
    requires Inv(s) && InUserCode(s)
    ensures AllCallsFor(s.registry.specs, s.hasDefault, T.CancelResolutions(s.transport.pending),
                        CancelCalls(s.registry.specs, s.hasDefault, s.transport.pending))
  {
    var pending := s.transport.pending;
    NoneIsSkipped(s, pending);
    CancelResolves(s);
    hide Inv, InUserCode, DoDisconnect, CancelCalls, CancelSerials, T.CancelResolutions, ReqError, AnsweredBy;
    forall i | 0 <= i < |pending|
      ensures CallFor(s.registry.specs, s.hasDefault, T.CancelResolutions(pending)[i],
                      CancelCalls(s.registry.specs, s.hasDefault, pending)[i])
    {
      CancelledAnswer(s.registry.specs[pending[i].callback.value.serial], s.hasDefault);
    }
  }

  lemma CancelExplains(s: System)
    requires Inv(s) && InUserCode(s) && Explained(s)
    ensures Explained(DoDisconnect(s))
  {
    DisconnectCalls(s);
    CancelledCallsFor(s);
    CancelResolves(s);
    hide Inv, InUserCode, DoDisconnect, CancelCalls, CancelSerials, T.CancelResolutions, AllCallsFor;
    CallsTogether(s.registry.specs, s.hasDefault, s.transport.resolved, s.calls,
                  T.CancelResolutions(s.transport.pending),
                  CancelCalls(s.registry.specs, s.hasDefault, s.transport.pending));
  }

  lemma CancelledAnswer(spec: RequestSpec, hasDefault: bool)
    ensures AnsweredBy(spec, hasDefault, CANCELLED_BY_CALLER, ReqError(spec, hasDefault, CancelledByUser))
  {
  }

  lemma CancelResolves(s: System)
    requires InUserCode(s)
    ensures var rs := T.CancelResolutions(s.transport.pending);
            && DoDisconnect(s).transport.resolved == s.transport.resolved + rs
            && DoDisconnect(s).hasDefault == s.hasDefault
            && forall i | 0 <= i < |rs| ::
                 && rs[i].callback == s.transport.pending[i].callback
                 && (rs[i].callback.Some? ==> rs[i].response == Some(CANCELLED_BY_CALLER))
  {
    hide CancelEach;
  }

  lemma DestroyUnfolds(s: System)
    requires Enabled(s, DestroyClient)
    ensures var d := DoDisconnect(s);
            Step(s, DestroyClient) == d.(registry := ReleaseAll(d.registry), clientAlive := false)
    ensures InUserCode(s)
  {
    hide DoDisconnect, ReleaseAll;
  }

  lemma DestroyExplains(s: System)
    requires Inv(s) && Enabled(s, DestroyClient) && Explained(s)
    ensures Explained(Step(s, DestroyClient))
  {
    DestroyUnfolds(s);
    CancelExplains(s);
    ReleaseAllKeepsSpecs(DoDisconnect(s).registry);
    hide Inv, Step, Enabled, DoDisconnect, AllCallsFor, ReleaseAll;
  }

  lemma ArriveResolvesNone(t: T.Transport<Closure>, id: nat, outcome: T.Outcome)
    requires id in t.launched ==> t.launched[id]
    ensures T.Step(t, T.Arrive(id, outcome)).resolved == t.resolved
  {
    hide T.IndexOf;
  }

  lemma ArriveUnfolds(s: System, id: nat, outcome: T.Outcome)
    requires Enabled(s, Arrive(id, outcome))
    ensures Step(s, Arrive(id, outcome)) == s.(transport := T.Step(s.transport, T.Arrive(id, outcome)))
    ensures id in s.transport.launched
  {
    hide T.Step;
  }

  lemma ArriveExplains(s: System, id: nat, outcome: T.Outcome)
    requires Inv(s) && Enabled(s, Arrive(id, outcome)) && Explained(s)
    ensures Explained(Step(s, Arrive(id, outcome)))
  {
    ArriveUnfolds(s, id, outcome);
    AlwaysHasCallback(s.transport, id);
    ArriveResolvesNone(s.transport, id, outcome);
    hide Inv, AllCallsFor, Step, T.Step, Enabled;
  }

  lemma OtherStepExplains(s: System, op: Op)
    requires Explained(s) && !op.TickPop? && !op.Disconnect? && !op.DestroyClient? && !op.Arrive?
    ensures Explained(Step(s, op))
  {
    hide AllCallsFor, T.IndexOf;
    StillExplained(s.registry.specs, Step(s, op).registry.specs, s.hasDefault, s.transport.resolved, s.calls);
  }

  lemma StepExplains(s: System, op: Op)
    requires Inv(s) && Explained(s)
    ensures Explained(Step(s, op))
  {
    hide Inv, Explained;
    if Enabled(s, op) {
      match op
      case TickPop => TickPopExplains(s);
      case Disconnect => CancelExplains(s);
      case DestroyClient => DestroyExplains(s);
      case Arrive(id, outcome) => ArriveExplains(s, id, outcome);
      case _ => OtherStepExplains(s, op);
    }
  }

  /** On every run the calls are the answers delivered or cancelled, one for one and in order: call i is the function
      that answer i should run, for the request answer i belongs to. */
  lemma {:induction false} EveryCallIsItsAnswers(hasDefault: bool, ops: seq<Op>)
    ensures var s := Exec(Init(hasDefault), ops);
            && AllCallsFor(s.registry.specs, hasDefault, s.transport.resolved, s.calls)
            && s.hasDefault == hasDefault
    decreases |ops|
  {
    hide Step, Inv, AllCallsFor;
    HasDefaultStays(Init(hasDefault), ops);
    InitDefault(hasDefault);
    if ops == [] {
      assert AllCallsFor([], hasDefault, [], []) by { NoCalls(hasDefault); }
    } else {
      EveryCallIsItsAnswers(hasDefault, ButLast(ops));
      ReachableInv(hasDefault, ButLast(ops));
      StepExplains(Exec(Init(hasDefault), ButLast(ops)), Last(ops));
    }
  }

  lemma NoCalls(hasDefault: bool)
    ensures AllCallsFor([], hasDefault, [], [])
  {
  }

  // ---- what the made-up answers come to -----------------------------------------------------------------------

  /** The error path of a request, with this code. */
  predicate ErrorCall(specs: seq<RequestSpec>, hasDefault: bool, serial: nat, code: ErrorCode, call: Call) {
    && call.Handled? && call.serial == serial < |specs|
    && IsError(call.invocation) && call.invocation.code == code
    && RightReceiver(specs[serial], hasDefault, call.invocation)
  }

  /** The transport's run inside a run of the system, with one step of interest in the middle. */
  lemma RunsThrough(hasDefault: bool, ops: seq<Op>, op: Op, down: T.Op<Closure>, later: seq<Op>)
    requires Enabled(Exec(Init(hasDefault), ops), op) && Seen(Exec(Init(hasDefault), ops), op) == [down]
    ensures var init := Init(hasDefault);
            var before, after := SeenAll(init, ops), SeenAll(Exec(init, ops + [op]), later);
            && Exec(init, ops).transport == T.Exec(T.Init(), before)
            && Exec(init, ops + [op] + later).transport == T.Exec(T.Init(), before + [down] + after)
  {
    hide *;
    var init := Init(hasDefault);
    InitTransport(hasDefault);
    TransportInside(init, ops);
    TransportInside(init, ops + [op]);
    SeenOneMore(init, ops, op);
    ExecConcat(init, ops + [op], later);
    TransportInside(Exec(init, ops + [op]), later);
    T.ExecConcat(T.Init(), SeenAll(init, ops) + [down], SeenAll(Exec(init, ops + [op]), later));
  }

  lemma SeenOneMore(s: System, ops: seq<Op>, op: Op)
    ensures SeenAll(s, ops + [op]) == SeenAll(s, ops) + Seen(Exec(s, ops), op)
  {
    assert ButLast(ops + [op]) == ops;
    hide Seen, Exec;
  }

  lemma ArriveSeen(s: System, id: nat, outcome: T.Outcome)
    requires id in s.transport.launched
    ensures Enabled(s, Arrive(id, outcome)) && Seen(s, Arrive(id, outcome)) == [T.Arrive(id, outcome)]
  {
  }

  lemma RefuseSeen(s: System)
    requires s.clientAlive && T.Attached(s.transport) && T.Uninitialized(s.transport)
    ensures Enabled(s, Refuse) && Seen(s, Refuse) == [T.Refuse]
  {
  }

  /** What the network brings in for a pending request is what its caller hears of, if anything: call i is the one the
      answer should run, or the error path with ConnectionError if the exchange failed. */
  lemma WhatCameInIsHandled(hasDefault: bool, ops: seq<Op>, id: nat, outcome: T.Outcome, later: seq<Op>, i: nat)
    requires var t := Exec(Init(hasDefault), ops).transport;
             t.alive && T.IndexOf(t.pending, id) < |t.pending| && id in t.launched
    requires var u := Exec(Init(hasDefault), ops + [Arrive(id, outcome)] + later);
             i < |u.transport.resolved| && u.transport.resolved[i].id == id
    ensures var t := Exec(Init(hasDefault), ops).transport;
            var u := Exec(Init(hasDefault), ops + [Arrive(id, outcome)] + later);
            var callback := t.pending[T.IndexOf(t.pending, id)].callback;
            && callback.Some? && i < |u.calls|
            && match outcome
               case Threw => ErrorCall(u.registry.specs, hasDefault, callback.value.serial, ConnectionError, u.calls[i])
               case Responded(answer) =>
                 && u.calls[i].Handled? && u.calls[i].serial == callback.value.serial < |u.registry.specs|
                 && AnsweredBy(u.registry.specs[callback.value.serial], hasDefault, answer, u.calls[i].invocation)
  {
    var init := Init(hasDefault);
    var s := Exec(init, ops);
    ReachableInv(hasDefault, ops);
    AlwaysHasCallback(s.transport, id);
    ArriveSeen(s, id, outcome);
    RunsThrough(hasDefault, ops, Arrive(id, outcome), T.Arrive(id, outcome), later);
    EveryCallIsItsAnswers(hasDefault, ops + [Arrive(id, outcome)] + later);
    hide Exec, T.Exec, Inv, SeenAll, Seen, Enabled, StandsFor;
    TT.TheAnswerThatCameInIsDelivered(SeenAll(init, ops), id, outcome,
                                      SeenAll(Exec(init, ops + [Arrive(id, outcome)]), later), i);
  }

  /** A request refused for want of a base URI ends in the error path with Unknown, never with success. */
  lemma TheRefusalIsHandled(hasDefault: bool, ops: seq<Op>, later: seq<Op>, i: nat)
    requires var s := Exec(Init(hasDefault), ops);
             s.clientAlive && T.Attached(s.transport) && s.transport.baseUri == ""
    requires var u := Exec(Init(hasDefault), ops + [Refuse] + later);
             && i < |u.transport.resolved|
             && u.transport.resolved[i].id == Exec(Init(hasDefault), ops).transport.starting.value.id
    ensures var callback := Exec(Init(hasDefault), ops).transport.starting.value.callback;
            var u := Exec(Init(hasDefault), ops + [Refuse] + later);
            && callback.Some? && i < |u.calls|
            && ErrorCall(u.registry.specs, hasDefault, callback.value.serial, Unknown, u.calls[i])
  {
    var init := Init(hasDefault);
    var s := Exec(init, ops);
    InitTransport(hasDefault);
    TransportInside(init, ops);
    TT.ClientHasTheBaseUri(SeenAll(init, ops));
    RefuseSeen(s);
    RunsThrough(hasDefault, ops, Refuse, T.Refuse, later);
    EveryCallIsItsAnswers(hasDefault, ops + [Refuse] + later);
    hide Exec, T.Exec, Inv, SeenAll, Seen, Enabled;
    TT.TheRefusalIsDelivered(SeenAll(init, ops), SeenAll(Exec(init, ops + [Refuse]), later), i);
  }
}
