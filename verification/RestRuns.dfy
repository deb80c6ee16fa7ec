/** What every run of RestClient on its transport keeps. */
module RestRuns {
  import opened Basics
  import opened Responses
  import opened Registry
  import opened Clients
  import opened Holders
  import opened RestSystem
  import T = Transport
  import TR = TransportRuns

  /** Closures whose answer has not been handed to the client yet. */
  ghost function WaitingOf(t: T.Transport<Closure>, building: Option<Closure>): Waiting {
    CallbackBag(t.pending) + CallbackBag(t.finished) + multiset{building}
  }

  /** Between creating a context and the transport storing its callback the two layers agree on it. */
  ghost predicate BuildingOk(t: T.Transport<Closure>, building: Option<Closure>) {
    t.starting.Some? ==>
      && (building.Some? <==> !t.starting.value.attached)
      && (building.Some? ==> t.starting.value.callback == building)
  }

  ghost predicate AllGiven(issued: seq<Option<Closure>>) {
    forall c | c in issued :: c.Some?
  }

  /** The client is gone: nothing of it is left. */
  ghost predicate Gone(s: System) {
    && s.stack == [] && s.building.None? && s.transport.starting.None?
    && Sound(s.registry) && s.registry.live == map[]
    && CallsOk(s.registry, s.calls)
  }

  ghost predicate Inv(s: System) {
    && TR.Inv(s.transport)
    && AllGiven(s.transport.issued)
    && (if s.clientAlive then
          && s.transport.alive
          && BuildingOk(s.transport, s.building)
          && Consistent(s.registry, WaitingOf(s.transport, s.building), FrameBag(s.stack), s.unsent, s.calls)
        else Gone(s))
  }

  lemma InitInv(hasDefault: bool)
    ensures Inv(Init(hasDefault))
  {
    TR.ReachableInv<Closure>([]);
    assert Callbacks([]) == [];
  }

  // ---- each step keeps the invariant --------------------------------------------------------------------------

  lemma NewContextKeeps(s: System, ptr: Ptr, spec: RequestSpec)
    requires Inv(s) && Enabled(s, NewContext(ptr, spec))
    ensures Inv(Step(s, NewContext(ptr, spec)))
  {
    hide TR.Inv, Consistent;
    var u := Step(s, NewContext(ptr, spec));
    var w := WaitingOf(s.transport, s.building);
    NewConsistent(s.registry, w, FrameBag(s.stack), s.unsent, s.calls, ptr, spec);
    SameClosuresConsistent(u.registry, w + multiset{u.building}, WaitingOf(u.transport, u.building),
                           FrameBag(u.stack), u.unsent, u.calls);
  }

  lemma ThrowKeeps(s: System)
    requires Inv(s) && Enabled(s, ThrowBeforeSend)
    ensures Inv(Step(s, ThrowBeforeSend))
  {
    hide TR.Inv, Consistent;
    var u := Step(s, ThrowBeforeSend);
    var w := WaitingOf(s.transport, s.building);
    var c := s.building.value;
    assert Some(c) in w;
    ThrowConsistent(s.registry, w, FrameBag(s.stack), s.unsent, s.calls, c);
    SameClosuresConsistent(u.registry, w - multiset{Some(c)}, WaitingOf(u.transport, u.building),
                           FrameBag(u.stack), u.unsent, u.calls);
  }

  /** Transport steps that no closure is moved out of: the client's books stay right. */
  lemma SameWaitingKeeps(s: System, u: System)
    requires Inv(s) && s.clientAlive
    requires u == s.(transport := u.transport, building := u.building)
    requires SameClosures(WaitingOf(s.transport, s.building), WaitingOf(u.transport, u.building))
    requires TR.Inv(u.transport) && u.transport.alive && AllGiven(u.transport.issued)
    requires BuildingOk(u.transport, u.building)
    ensures Inv(u)
  {
    hide TR.Inv, Consistent;
    SameClosuresConsistent(s.registry, WaitingOf(s.transport, s.building), WaitingOf(u.transport, u.building),
                           FrameBag(s.stack), s.unsent, s.calls);
  }

  lemma SendKeeps(s: System)
    requires Inv(s) && Enabled(s, Send)
    ensures Inv(Step(s, Send))
  {
    hide TR.Inv, Consistent;
    var u := Step(s, Send);
    var t := s.transport;
    TR.StepKeeps(t, T.Create(s.building));
    CallbackBagAppend(t.pending, T.ReqContext(t.nextReqId, None, None));
    SameWaitingKeeps(s, u);
  }

  lemma LastPending(t: T.Transport<Closure>)
    requires TR.Inv(t) && t.starting.Some? && !t.starting.value.attached
    ensures t.pending != [] && Last(t.pending).callback.None?
    ensures T.DoAttach(t).pending ==
            t.pending[|t.pending| - 1 := Last(t.pending).(callback := t.starting.value.callback)]
  {
    TR.FindsStarted(t);
    assert TR.PendingOk(t.issued, TR.Built(t), Last(t.pending));
  }

  lemma AttachKeeps(s: System)
    requires Inv(s) && Enabled(s, Attach)
    ensures Inv(Step(s, Attach))
  {
    hide TR.Inv, Consistent, CallbackBag, T.IndexOf;
    var u := Step(s, Attach);
    var t := s.transport;
    TR.StepKeeps(t, T.Attach);
    LastPending(t);
    CallbackBagSetLast(t.pending, Last(t.pending).(callback := s.building));
    var p, p', f := CallbackBag(t.pending), CallbackBag(u.transport.pending), CallbackBag(t.finished);
    assert p + multiset{s.building} == p' + multiset{None};
    BagSums(p, f, multiset{s.building});
    BagSums(p', f, multiset{None});
    SameWaitingKeeps(s, u);
  }

  lemma FinishSameWaiting(t: T.Transport<Closure>, id: nat, response: Response)
    ensures var f := T.Finish(t, id, response);
            && CallbackBag(f.pending) + CallbackBag(f.finished) == CallbackBag(t.pending) + CallbackBag(t.finished)
            && f.issued == t.issued && f.alive == t.alive && f.starting == t.starting
  {
    var k := T.IndexOf(t.pending, id);
    if k < |t.pending| {
      CallbackBagRemoveAt(t.pending, k);
      CallbackBagAppend(t.finished, t.pending[k].(response := Some(response)));
    }
  }

  /** Every continuation of RestClient's requests carries hasCallback = true. */
  lemma AlwaysHasCallback(t: T.Transport<Closure>, id: nat)
    requires TR.Inv(t) && AllGiven(t.issued) && id in t.launched
    ensures t.launched[id]
  {
  }

  /** The step moved no closure out of the transport and left the rest of the system alone. */
  ghost predicate Unseen(s: System, u: System) {
    var t, t' := s.transport, u.transport;
    && CallbackBag(t'.pending) + CallbackBag(t'.finished) == CallbackBag(t.pending) + CallbackBag(t.finished)
    && t'.issued == t.issued
    && t'.alive == t.alive
    && (t'.starting == t.starting || t'.starting.None?)
    && u == s.(transport := t')
  }

  lemma ArriveMovesNoClosure(t: T.Transport<Closure>, id: nat, outcome: T.Outcome)
    requires TR.Inv(t) && AllGiven(t.issued) && id in t.launched
    ensures var u := T.DoArrive(t, id, outcome);
            && CallbackBag(u.pending) + CallbackBag(u.finished) == CallbackBag(t.pending) + CallbackBag(t.finished)
            && u.issued == t.issued && u.alive == t.alive && u.starting == t.starting
  {
    AlwaysHasCallback(t, id);
    hide TR.Inv, CallbackBag, T.Finish, T.Remove;
    FinishSameWaiting(t, id, if outcome.Threw? then CONNECTION_LOST else outcome.response);
  }

  lemma ArriveUnseen(s: System, id: nat, outcome: T.Outcome)
    requires TR.Inv(s.transport) && AllGiven(s.transport.issued) && Enabled(s, Arrive(id, outcome))
    ensures Unseen(s, Step(s, Arrive(id, outcome)))
  {
    hide TR.Inv, CallbackBag, T.DoArrive;
    ArriveMovesNoClosure(s.transport, id, outcome);
  }

  lemma RefuseUnseen(s: System)
    requires Enabled(s, Refuse)
    ensures Unseen(s, Step(s, Refuse))
  {
    hide CallbackBag;
    var t := s.transport;
    FinishSameWaiting(t.(starting := None), t.starting.value.id, NOT_INITIALIZED);
  }

  lemma UnseenKeeps(s: System, op: Op)
    requires Inv(s) && Enabled(s, op)
    requires op.Refuse? || op.Launch? || op.Abandon? || op.SetBaseUri? || op.Arrive?
    ensures Inv(Step(s, op))
  {
    hide TR.Inv, Consistent, CallbackBag;
    var u := Step(s, op);
    TR.StepKeeps(s.transport, TransportOp(s, op));
    if op.Arrive? {
      ArriveUnseen(s, op.id, op.outcome);
    }
    if op.Refuse? {
      RefuseUnseen(s);
    }
    assert Unseen(s, u);
    if s.clientAlive {
      SameWaitingKeeps(s, u);
    }
  }

  lemma AliveParts(s: System)
    requires s.clientAlive && s.transport.alive && TR.Inv(s.transport) && AllGiven(s.transport.issued)
    requires BuildingOk(s.transport, s.building)
    requires Consistent(s.registry, WaitingOf(s.transport, s.building), FrameBag(s.stack), s.unsent, s.calls)
    ensures Inv(s)
  {
  }

  lemma TickFrameKeeps(s: System, op: Op)
    requires Inv(s) && Enabled(s, op) && (op.TickEnter? || op.TickLeave?)
    ensures Inv(Step(s, op))
  {
    hide TR.Inv, Consistent, CallbackBag;
    var u := Step(s, op);
    if op.TickEnter? {
      assert u == s.(stack := s.stack + [Ticking]);
      FrameBagAppend(s.stack, Ticking);
    } else {
      assert u == s.(stack := ButLast(s.stack));
      assert s.stack == u.stack + [Ticking];
      FrameBagAppend(u.stack, Ticking);
    }
    hide *;
    AliveParts(u);
  }

  /** The answer a tick pops belongs to a registered context, the one its closure was made for. */
  lemma PoppedIsWaiting(t: T.Transport<Closure>, building: Option<Closure>)
    requires TR.Inv(t) && AllGiven(t.issued) && t.finished != []
    ensures var e := t.finished[0];
            && e.callback.Some? && e.response.Some?
            && e.callback in WaitingOf(t, building)
            && (t.starting.None? ==> WaitingOf(T.DoPop(t), building) == WaitingOf(t, building) - multiset{e.callback})
  {
    var e := t.finished[0];
    assert TR.FinishedOk(t.issued, TR.Built(t), e);
    assert e.callback in t.issued;
    CallbackBagHead(t.finished);
  }

  /** A pop in full: the answer goes to the context it was asked for, whose handler starts. */
  lemma TickPopUnfolds(s: System)
    requires Inv(s) && Enabled(s, TickPop)
    ensures var e := s.transport.finished[0];
            && e.callback.Some? && e.response.Some? && e.callback in WaitingOf(s.transport, s.building)
            && e.callback.value.serial < |s.registry.specs|
            && var c := e.callback.value;
               var call := Handled(c.serial, Invoke(s.registry.specs[c.serial], s.hasDefault,
                                                    RestVerdict(e.response.value)));
               Step(s, TickPop) == s.(transport := T.Step(s.transport, T.Pop), calls := s.calls + [call],
                                      stack := s.stack + [Handling(c)])
  {
    hide TR.Inv, Consistent, CallbackBag, Sound, Invoke, RestVerdict, FrameBag, T.Step, Lookup;
    var e := s.transport.finished[0];
    var w := WaitingOf(s.transport, s.building);
    PoppedIsWaiting(s.transport, s.building);
    FindsWaiting(s.registry, w, FrameBag(s.stack), s.unsent, s.calls, e.callback.value, s.hasDefault,
                 RestVerdict(e.response.value));
  }

  lemma TickPopKeeps(s: System)
    requires Inv(s) && Enabled(s, TickPop)
    ensures Inv(Step(s, TickPop))
  {
    hide TR.Inv, Consistent, CallbackBag, Step, RestVerdict, Invoke, FrameBag;
    var e := s.transport.finished[0];
    var w := WaitingOf(s.transport, s.building);
    TickPopUnfolds(s);
    PoppedIsWaiting(s.transport, s.building);
    TR.StepKeeps(s.transport, T.Pop);
    var u := Step(s, TickPop);
    CallConsistent(s.registry, w, FrameBag(s.stack), s.unsent, s.calls, e.callback.value, Last(u.calls));
    FrameBagAppend(s.stack, Handling(e.callback.value));
    assert u.transport == T.DoPop(s.transport);
    hide *;
    AliveParts(u);
  }

  lemma FindsWaiting(r: Registry, w: Waiting, frames: multiset<Closure>, unsent: set<nat>, calls: seq<Call>,
                     c: Closure, hasDefault: bool, v: Verdict)
    requires Consistent(r, w, frames, unsent, calls) && (Some(c) in w || c in frames)
    ensures c.serial < |r.specs|
    ensures Lookup(r, c.ptr, hasDefault, v) == Handled(c.serial, Invoke(r.specs[c.serial], hasDefault, v))
  {
    LookupFinds(r, c, hasDefault, v);
  }

  lemma HandlerReturnKeeps(s: System)
    requires Inv(s) && Enabled(s, HandlerReturn)
    ensures Inv(Step(s, HandlerReturn))
  {
    hide TR.Inv, Consistent, CallbackBag, Release;
    var c := Last(s.stack).closure;
    assert FrameBag(s.stack) == FrameBag(ButLast(s.stack)) + multiset{c};
    ReturnConsistent(s.registry, WaitingOf(s.transport, s.building), FrameBag(s.stack), s.unsent, s.calls, c);
    assert FrameBag(s.stack) - multiset{c} == FrameBag(ButLast(s.stack));
  }

  /** One turn of the cancel loop calls one waiting handler and frees its context. */
  lemma CancelOneConsistent(r: Registry, calls: seq<Call>, hasDefault: bool, c: Closure, w: Waiting,
                            frames: multiset<Closure>, unsent: set<nat>)
    requires Consistent(r, w, frames, unsent, calls) && Some(c) in w
    ensures var (r', calls') := CancelOne(r, calls, hasDefault, c);
            Consistent(r', w - multiset{Some(c)}, frames, unsent, calls')
  {
    hide Consistent, Release;
    var v := RestVerdict(CANCELLED_BY_CALLER);
    var call := Lookup(r, c.ptr, hasDefault, v);
    FindsWaiting(r, w, frames, unsent, calls, c, hasDefault, v);
    CallConsistent(r, w, frames, unsent, calls, c, call);
    ReturnConsistent(r, w - multiset{Some(c)}, frames + multiset{c}, unsent, calls + [call], c);
    assert frames + multiset{c} - multiset{c} == frames;
  }

  /** The cancel loop: every pending closure is called once and its context freed; the others stay as they are. */
  lemma {:induction false} CancelEachConsistent(r: Registry, calls: seq<Call>, hasDefault: bool,
                                                pending: seq<T.ReqContext<Closure>>, rest: Waiting,
                                                frames: multiset<Closure>, unsent: set<nat>)
    requires Consistent(r, CallbackBag(pending) + rest, frames, unsent, calls)
    ensures var (r', calls') := CancelEach(r, calls, hasDefault, pending);
            Consistent(r', rest, frames, unsent, calls')
    decreases |pending|
  {
    hide Consistent, CancelOne;
    if pending == [] {
      assert Callbacks(pending) == [];
      assert CallbackBag(pending) + rest == rest;
    } else {
      CallbackBagHead(pending);
      var tail := pending[1..];
      var before, after := CallbackBag(pending) + rest, CallbackBag(tail) + rest;
      if pending[0].callback.None? {
        SameClosuresConsistent(r, before, after, frames, unsent, calls);
        CancelEachConsistent(r, calls, hasDefault, tail, rest, frames, unsent);
      } else {
        var c := pending[0].callback.value;
        assert before - multiset{Some(c)} == after;
        CancelOneConsistent(r, calls, hasDefault, c, before, frames, unsent);
        var (r1, calls1) := CancelOne(r, calls, hasDefault, c);
        CancelEachConsistent(r1, calls1, hasDefault, tail, rest, frames, unsent);
      }
    }
  }

  lemma DisconnectKeeps(s: System)
    requires Inv(s) && InUserCode(s)
    ensures Inv(DoDisconnect(s))
  {
    hide TR.Inv, Consistent, CancelEach;
    var t := s.transport;
    TR.StepKeeps(t, T.CancelAll);
    var rest := CallbackBag(t.finished) + multiset{s.building};
    assert WaitingOf(t, s.building) == CallbackBag(t.pending) + rest;
    CancelEachConsistent(s.registry, s.calls, s.hasDefault, t.pending, rest, FrameBag(s.stack), s.unsent);
    assert WaitingOf(T.DoCancelAll(t), s.building) == rest by {
      assert Callbacks([]) == [];
    }
  }

  lemma NothingLeft(r: Registry, w: Waiting, frames: multiset<Closure>, unsent: set<nat>, calls: seq<Call>)
    requires Consistent(r, w, frames, unsent, calls)
    ensures Sound(ReleaseAll(r)) && ReleaseAll(r).live == map[] && CallsOk(ReleaseAll(r), calls)
  {
    ReleaseAllSound(r);
  }

  lemma GoneParts(s: System, r: Registry)
    requires Inv(s) && s.clientAlive && s.stack == [] && s.building.None? && s.transport.starting.None?
    requires Sound(r) && r.live == map[] && CallsOk(r, s.calls)
    ensures Inv(s.(registry := r, clientAlive := false))
  {
    hide Consistent, TR.Inv, Sound, CallsOk;
  }

  lemma CancelLeavesIdle(t: T.Transport<Closure>)
    requires T.Idle(t)
    ensures T.Step(t, T.CancelAll).starting.None?
  {
  }

  lemma DestroyClientKeeps(s: System)
    requires Inv(s) && Enabled(s, DestroyClient)
    ensures Inv(Step(s, DestroyClient))
  {
    hide TR.Inv, Consistent, CallsOk, Sound, ReleaseAll, CancelEach, T.Step;
    var d := DoDisconnect(s);
    assert Step(s, DestroyClient) == d.(registry := ReleaseAll(d.registry), clientAlive := false);
    assert d.stack == [] && d.building.None? && d.clientAlive;
    assert d.transport.starting.None? by {
      CancelLeavesIdle(s.transport);
    }
    hide Step, DoDisconnect;
    DisconnectKeeps(s);
    NothingLeft(d.registry, WaitingOf(d.transport, d.building), FrameBag(d.stack), d.unsent, d.calls);
    GoneParts(d, ReleaseAll(d.registry));
  }

  lemma StepKeeps(s: System, op: Op)
    requires Inv(s)
    ensures Inv(Step(s, op))
  {
    hide TR.Inv, Inv;
    if Enabled(s, op) {
      match op
      case NewContext(ptr, spec) => NewContextKeeps(s, ptr, spec);
      case ThrowBeforeSend => ThrowKeeps(s);
      case Send => SendKeeps(s);
      case Attach => AttachKeeps(s);
      case TickEnter => TickFrameKeeps(s, op);
      case TickLeave => TickFrameKeeps(s, op);
      case TickPop => TickPopKeeps(s);
      case HandlerReturn => HandlerReturnKeeps(s);
      case Disconnect => DisconnectKeeps(s);
      case DestroyClient => DestroyClientKeeps(s);
      case DestroyTransport => DestroyTransportKeeps(s);
      case _ => UnseenKeeps(s, op);
    }
  }

  lemma DestroyTransportKeeps(s: System)
    requires Inv(s) && Enabled(s, DestroyTransport)
    ensures Inv(Step(s, DestroyTransport))
  {
    hide TR.Inv;
    TR.StepKeeps(s.transport, T.Destroy);
  }

  lemma {:induction false} RunKeeps(s: System, ops: seq<Op>)
    requires Inv(s)
    ensures Inv(Exec(s, ops))
    decreases |ops|
  {
    hide Inv, Step;
    if ops != [] {
      RunKeeps(s, ButLast(ops));
      StepKeeps(Exec(s, ButLast(ops)), Last(ops));
    }
  }

  lemma ReachableInv(hasDefault: bool, ops: seq<Op>)
    ensures Inv(Exec(Init(hasDefault), ops))
  {
    InitInv(hasDefault);
    RunKeeps(Init(hasDefault), ops);
  }
}
