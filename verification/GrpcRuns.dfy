/** What every run of GrpcClient keeps, and what it promises. */
module GrpcRuns {
  import opened Basics
  import opened Responses
  import opened Registry
  import opened Clients
  import opened GrpcSystem

  function Somes(s: seq<Closure>): (r: seq<Option<Closure>>)
    ensures |r| == |s|
  {
    seq(|s|, i requires 0 <= i < |s| => Some(s[i]))
  }

  function Tags(q: seq<Event>): (r: seq<Option<Closure>>)
    ensures |r| == |q|
  {
    seq(|q|, i requires 0 <= i < |q| => Some(q[i].tag))
  }

  ghost function WaitingOf(inFlight: seq<Closure>, queue: seq<Event>, building: Option<Closure>): Waiting {
    multiset(Somes(inFlight)) + multiset(Tags(queue)) + multiset{building}
  }

  ghost predicate Inv(s: System) {
    if s.clientAlive then
      Consistent(s.registry, WaitingOf(s.inFlight, s.queue, s.building), FrameBag(s.stack), s.unsent, s.calls)
    else
      s.stack == [] && s.building.None? && Sound(s.registry) && s.registry.live == map[] && CallsOk(s.registry, s.calls)
  }

  lemma AliveParts(s: System)
    requires s.clientAlive
    requires Consistent(s.registry, WaitingOf(s.inFlight, s.queue, s.building), FrameBag(s.stack), s.unsent, s.calls)
    ensures Inv(s)
  {
  }

  lemma NewContextKeeps(s: System, ptr: Ptr, spec: RequestSpec)
    requires Inv(s) && Enabled(s, NewContext(ptr, spec))
    ensures Inv(Step(s, NewContext(ptr, spec)))
  {
    hide Consistent, FrameBag;
    var u := Step(s, NewContext(ptr, spec));
    var w := WaitingOf(s.inFlight, s.queue, s.building);
    NewConsistent(s.registry, w, FrameBag(s.stack), s.unsent, s.calls, ptr, spec);
    SameClosuresConsistent(u.registry, w + multiset{u.building}, WaitingOf(u.inFlight, u.queue, u.building),
                           FrameBag(u.stack), u.unsent, u.calls);
  }

  lemma ThrowKeeps(s: System)
    requires Inv(s) && Enabled(s, ThrowBeforeSend)
    ensures Inv(Step(s, ThrowBeforeSend))
  {
    hide Consistent, FrameBag;
    var u := Step(s, ThrowBeforeSend);
    var w := WaitingOf(s.inFlight, s.queue, s.building);
    var c := s.building.value;
    if s.clientAlive {
      assert Some(c) in w;
      ThrowConsistent(s.registry, w, FrameBag(s.stack), s.unsent, s.calls, c);
      SameClosuresConsistent(u.registry, w - multiset{Some(c)}, WaitingOf(u.inFlight, u.queue, u.building),
                             FrameBag(u.stack), u.unsent, u.calls);
    }
  }

  lemma LaunchKeeps(s: System)
    requires Inv(s) && Enabled(s, Launch)
    ensures Inv(Step(s, Launch))
  {
    hide Consistent, FrameBag;
    var u := Step(s, Launch);
    assert Somes(u.inFlight) == Somes(s.inFlight) + [s.building];
    if s.clientAlive {
      SameClosuresConsistent(s.registry, WaitingOf(s.inFlight, s.queue, s.building),
                             WaitingOf(u.inFlight, u.queue, u.building), FrameBag(s.stack), s.unsent, s.calls);
    }
  }

  lemma CompleteMovesNoClosure(inFlight: seq<Closure>, queue: seq<Event>, building: Option<Closure>, e: Event)
    requires e.tag in inFlight
    ensures WaitingOf(RemoveAt(inFlight, TagIndex(inFlight, e.tag)), queue + [e], building)
            == WaitingOf(inFlight, queue, building)
  {
    var k := TagIndex(inFlight, e.tag);
    RemoveAtBag(Somes(inFlight), k);
    assert RemoveAt(Somes(inFlight), k) == Somes(RemoveAt(inFlight, k));
    assert Tags(queue + [e]) == Tags(queue) + [Some(e.tag)];
  }

  lemma CompleteKeeps(s: System, e: Event)
    requires Inv(s) && Enabled(s, Complete(e.tag, e.ok, e.status))
    ensures Inv(Step(s, Complete(e.tag, e.ok, e.status)))
  {
    hide Consistent, FrameBag, WaitingOf;
    CompleteMovesNoClosure(s.inFlight, s.queue, s.building, e);
  }

  lemma TickFrameKeeps(s: System, op: Op)
    requires Inv(s) && Enabled(s, op) && (op.TickEnter? || op.TickLeave?)
    ensures Inv(Step(s, op))
  {
    hide Consistent, WaitingOf;
    var u := Step(s, op);
    if op.TickEnter? {
      FrameBagAppend(s.stack, Ticking);
    } else {
      assert s.stack == u.stack + [Ticking];
      FrameBagAppend(u.stack, Ticking);
    }
    hide *;
    AliveParts(u);
  }

  /** The event a tick takes goes to the context whose call it completes. */
  lemma TickEventUnfolds(s: System)
    requires Inv(s) && Enabled(s, TickEvent)
    ensures var e := s.queue[0];
            && Some(e.tag) in WaitingOf(s.inFlight, s.queue, s.building)
            && e.tag.serial < |s.registry.specs|
            && Step(s, TickEvent) ==
               s.(queue := s.queue[1..], stack := s.stack + [Handling(e.tag)],
                  calls := s.calls + [Handled(e.tag.serial, Invoke(s.registry.specs[e.tag.serial], s.hasDefault,
                                                                   GrpcVerdict(e.ok, e.status)))])
  {
    hide Invoke, GrpcVerdict, FrameBag, CallBag, Conserved, CallsOk;
    var e := s.queue[0];
    assert Tags(s.queue)[0] == Some(e.tag);
    LookupFinds(s.registry, e.tag, s.hasDefault, GrpcVerdict(e.ok, e.status));
  }

  lemma TickEventKeeps(s: System)
    requires Inv(s) && Enabled(s, TickEvent)
    ensures Inv(Step(s, TickEvent))
  {
    hide Consistent, Step, GrpcVerdict, Invoke, FrameBag;
    TickEventUnfolds(s);
    var u := Step(s, TickEvent);
    var c := s.queue[0].tag;
    var w := WaitingOf(s.inFlight, s.queue, s.building);
    assert Tags(s.queue) == [Some(c)] + Tags(u.queue);
    CallConsistent(s.registry, w, FrameBag(s.stack), s.unsent, s.calls, c, Last(u.calls));
    FrameBagAppend(s.stack, Handling(c));
    assert WaitingOf(u.inFlight, u.queue, u.building) == w - multiset{Some(c)};
    hide *;
    AliveParts(u);
  }

  lemma HandlerReturnKeeps(s: System)
    requires Inv(s) && Enabled(s, HandlerReturn)
    ensures Inv(Step(s, HandlerReturn))
  {
    hide Consistent, Release, WaitingOf;
    var c := Last(s.stack).closure;
    assert FrameBag(s.stack) == FrameBag(ButLast(s.stack)) + multiset{c};
    ReturnConsistent(s.registry, WaitingOf(s.inFlight, s.queue, s.building), FrameBag(s.stack), s.unsent, s.calls, c);
    assert FrameBag(s.stack) - multiset{c} == FrameBag(ButLast(s.stack));
  }

  lemma DestroyClientKeeps(s: System)
    requires Inv(s) && Enabled(s, DestroyClient)
    ensures Inv(Step(s, DestroyClient))
  {
    hide WaitingOf, FrameBag, CallBag, Conserved, AllHeld, ReleaseAll;
    ReleaseAllSound(s.registry);
    hide Sound;
  }

  lemma StepKeeps(s: System, op: Op)
    requires Inv(s)
    ensures Inv(Step(s, op))
  {
    if Enabled(s, op) {
      hide Inv;
      match op
      case NewContext(ptr, spec) => NewContextKeeps(s, ptr, spec);
      case ThrowBeforeSend => ThrowKeeps(s);
      case Launch => LaunchKeeps(s);
      case Complete(tag, ok, status) => CompleteKeeps(s, Event(tag, ok, status));
      case TickEnter => TickFrameKeeps(s, op);
      case TickEvent => TickEventKeeps(s);
      case TickLeave => TickFrameKeeps(s, op);
      case HandlerReturn => HandlerReturnKeeps(s);
      case Disconnect => ShutDownKeeps(s);
      case DestroyClient => DestroyClientKeeps(s);
    }
  }

  lemma ShutDownKeeps(s: System)
    requires Inv(s)
    ensures Inv(s.(shutDown := true))
  {
    hide Consistent;
  }

  lemma {:induction false} RunKeeps(s: System, ops: seq<Op>)
    requires Inv(s)
    ensures Inv(Exec(s, ops))
    decreases |ops|
  {
    hide Inv, Step;
    if ops != [] {
      RunKeeps(s, ButLast(ops));
      StepKeeps(Exec(s, ButLast(ops)), Last(ops));
    }
  }

  lemma ReachableInv(hasDefault: bool, ops: seq<Op>)
    ensures Inv(Exec(Init(hasDefault), ops))
  {
    var s := Init(hasDefault);
    assert Somes([]) == [] && Tags([]) == [];
    assert Inv(s);
    RunKeeps(s, ops);
  }

  // ---- the promises -------------------------------------------------------------------------------------------

  /** No completion misses its context and none runs a handler twice, on this client too. */
  lemma EveryEventFindsItsContext(hasDefault: bool, ops: seq<Op>)
    ensures var s := Exec(Init(hasDefault), ops);
            && (forall call | call in s.calls :: call.Handled? && call.serial < |s.registry.home|)
            && (forall k :: CallBag(s.calls)[k] <= 1)
            && s.registry.faults == 0
  {
    ReachableInv(hasDefault, ops);
    hide Exec;
  }

  /** Over a whole run that ends with the destructor every context is deleted exactly once. */
  lemma EveryContextFreedOnce(hasDefault: bool, ops: seq<Op>, k: nat)
    requires !Exec(Init(hasDefault), ops).clientAlive
    ensures var r := Exec(Init(hasDefault), ops).registry;
            && multiset(r.freed)[k] == (if k < |r.home| then 1 else 0)
            && r.live == map[] && r.contexts == {} && r.faults == 0
  {
    ReachableInv(hasDefault, ops);
    hide Exec;
    EmptyMeansAllFreedOnce(Exec(Init(hasDefault), ops).registry, k);
  }

  // ---- what one tick delivers ---------------------------------------------------------------------------------

  /** The calls that answer these events: each to the handler its request and outcome select. */
  ghost function Answers(specs: seq<RequestSpec>, hasDefault: bool, q: seq<Event>): (calls: seq<Call>)
    ensures |calls| == |q|
  {
    seq(|q|, i requires 0 <= i < |q| => Answer(specs, hasDefault, q[i]))
  }

  ghost function Answer(specs: seq<RequestSpec>, hasDefault: bool, e: Event): Call {
    if e.tag.serial < |specs|
    then Handled(e.tag.serial, Invoke(specs[e.tag.serial], hasDefault, GrpcVerdict(e.ok, e.status)))
    else UnknownContext
  }

  /** From s to u the queue lost a prefix, and just its events were answered, in its order. */
  ghost predicate Drained(s: System, u: System) {
    && s.registry.specs <= u.registry.specs && u.hasDefault == s.hasDefault
    && |u.queue| <= |s.queue|
    && u.queue == s.queue[|s.queue| - |u.queue|..]
    && u.calls == s.calls + Answers(s.registry.specs, s.hasDefault, s.queue[..|s.queue| - |u.queue|])
  }

  ghost predicate TagsKnown(s: System) {
    forall e | e in s.queue :: e.tag.serial < |s.registry.specs|
  }

  lemma KnowsTags(s: System)
    requires Inv(s) && s.clientAlive
    ensures TagsKnown(s)
  {
    var w := WaitingOf(s.inFlight, s.queue, s.building);
    forall e | e in s.queue
      ensures e.tag.serial < |s.registry.specs|
    {
      var i :| 0 <= i < |s.queue| && s.queue[i] == e;
      assert Tags(s.queue)[i] == Some(e.tag);
      assert Some(e.tag) in w;
      WaitingClosure(s.registry, w, FrameBag(s.stack), s.unsent, s.calls, e.tag);
    }
  }

  lemma PopDrains(s: System, m: System)
    requires TagsKnown(s) && Drained(s, m) && Inv(m) && Enabled(m, TickEvent)
    ensures Drained(s, Step(m, TickEvent))
  {
    TickEventUnfolds(m);
    hide Inv, Step, Invoke, GrpcVerdict, WaitingOf, Enabled;
    var k := |s.queue| - |m.queue|;
    var e := m.queue[0];
    assert e == s.queue[k] && e in s.queue;
    assert s.queue[..k + 1] == s.queue[..k] + [e];
    var specs := s.registry.specs;
    assert Answers(specs, s.hasDefault, s.queue[..k] + [e])
        == Answers(specs, s.hasDefault, s.queue[..k]) + [Answer(specs, s.hasDefault, e)];
    assert Answer(specs, s.hasDefault, e) == Answer(m.registry.specs, m.hasDefault, e);
  }

  lemma QuietStepDrains(s: System, m: System, op: Op)
    requires TagsKnown(s) && Drained(s, m) && Inv(m) && !op.Complete?
    ensures Drained(s, Step(m, op))
  {
    if op.TickEvent? && Enabled(m, op) {
      PopDrains(s, m);
    } else {
      QuietStepKeepsTheQueue(m, op);
      hide Step, Inv, Answers, TagsKnown;
    }
  }

  lemma QuietStepKeepsTheQueue(m: System, op: Op)
    requires !op.Complete? && !(op.TickEvent? && Enabled(m, op))
    ensures var u := Step(m, op);
            && u.queue == m.queue && u.calls == m.calls && u.hasDefault == m.hasDefault
            && m.registry.specs <= u.registry.specs
  {
    hide ReleaseAll;
    ReleaseAllKeepsSpecs(m.registry);
  }

  /** With no completion coming in, whatever handlers do the queue only loses its head, one answer at a time. */
  lemma {:induction false} QuietRunsOnlyDrain(s: System, ops: seq<Op>)
    requires Inv(s) && s.clientAlive && forall op | op in ops :: !op.Complete?
    ensures Drained(s, Exec(s, ops))
    decreases |ops|
  {
    hide Step, Inv, Drained, TagsKnown;
    KnowsTags(s);
    if ops == [] {
      NothingDrained(s);
    } else {
      QuietRunsOnlyDrain(s, ButLast(ops));
      RunKeeps(s, ButLast(ops));
      QuietStepDrains(s, Exec(s, ButLast(ops)), Last(ops));
    }
  }

  lemma NothingDrained(s: System)
    ensures Drained(s, s)
  {
    assert s.calls + Answers(s.registry.specs, s.hasDefault, []) == s.calls;
  }

  /** So a tick that empties the queue has answered exactly what was in it when it began, in that order. */
  lemma TickAnswersWhatWasQueued(s: System, ops: seq<Op>)
    requires Inv(s) && s.clientAlive && forall op | op in ops :: !op.Complete?
    requires Exec(s, ops).queue == []
    ensures Exec(s, ops).calls == s.calls + Answers(s.registry.specs, s.hasDefault, s.queue)
  {
    hide Inv, Exec;
    QuietRunsOnlyDrain(s, ops);
    assert s.queue[..|s.queue| - 0] == s.queue;
  }

  // ---- which function each event runs -------------------------------------------------------------------------

  /** The events that ticks took off the queue, in the order they took them. */
  ghost function Delivered(s: System, ops: seq<Op>): seq<Event> {
    if ops == [] then []
    else
      var m := Exec(s, ButLast(ops));
      Delivered(s, ButLast(ops)) + if Last(ops).TickEvent? && Enabled(m, TickEvent) then [m.queue[0]] else []
  }

  /** This call is what this event asks for, from the request whose tag it carries. */
  predicate CallFor(specs: seq<RequestSpec>, hasDefault: bool, e: Event, call: Call) {
    && call.Handled? && call.serial == e.tag.serial < |specs|
    && CompletedBy(specs[call.serial], hasDefault, e.ok, e.status, call.invocation)
  }

  predicate AllCallsFor(specs: seq<RequestSpec>, hasDefault: bool, es: seq<Event>, calls: seq<Call>) {
    |calls| == |es| && forall i | 0 <= i < |es| :: CallFor(specs, hasDefault, es[i], calls[i])
  }

  lemma TakenExplains(s: System, es: seq<Event>)
    requires Inv(s) && Enabled(s, TickEvent) && AllCallsFor(s.registry.specs, s.hasDefault, es, s.calls)
    ensures var u := Step(s, TickEvent);
            && s.queue != [] && AllCallsFor(u.registry.specs, u.hasDefault, es + [s.queue[0]], u.calls)
  {
    TickEventUnfolds(s);
    var e := s.queue[0];
    var spec := s.registry.specs[e.tag.serial];
    VerdictCompletes(spec, s.hasDefault, e.ok, e.status, Invoke(spec, s.hasDefault, GrpcVerdict(e.ok, e.status)));
    hide Inv, Step, CompletedBy, Invoke, GrpcVerdict, WaitingOf;
  }

  lemma OtherStepExplains(s: System, op: Op, es: seq<Event>)
    requires AllCallsFor(s.registry.specs, s.hasDefault, es, s.calls) && !(op.TickEvent? && Enabled(s, TickEvent))
    ensures var u := Step(s, op); AllCallsFor(u.registry.specs, u.hasDefault, es, u.calls)
  {
    OtherStepCallsNobody(s, op);
    hide Step, CompletedBy;
  }

  lemma OtherStepCallsNobody(s: System, op: Op)
    requires !(op.TickEvent? && Enabled(s, TickEvent))
    ensures var u := Step(s, op);
            u.calls == s.calls && u.hasDefault == s.hasDefault && s.registry.specs <= u.registry.specs
  {
    hide ReleaseAll, TagIndex;
    ReleaseAllKeepsSpecs(s.registry);
  }

  /** On every run the calls are the events delivered, one for one and in order: call i is the function that event i
      should run, for the request event i belongs to. */
  lemma {:induction false} EveryCallIsItsEvents(hasDefault: bool, ops: seq<Op>)
    ensures var s := Exec(Init(hasDefault), ops);
            && AllCallsFor(s.registry.specs, hasDefault, Delivered(Init(hasDefault), ops), s.calls)
            && s.hasDefault == hasDefault
    decreases |ops|
  {
    hide Step, Inv, AllCallsFor, Enabled;
    if ops == [] {
      NoCalls(hasDefault);
    } else {
      var b, op := ButLast(ops), Last(ops);
      var m := Exec(Init(hasDefault), b);
      var es := Delivered(Init(hasDefault), b);
      EveryCallIsItsEvents(hasDefault, b);
      ReachableInv(hasDefault, b);
      if op.TickEvent? && Enabled(m, TickEvent) {
        TakenExplains(m, es);
        TakenKeepsDefault(m);
      } else {
        OtherStepExplains(m, op, es);
        OtherStepCallsNobody(m, op);
        assert es + [] == es;
      }
    }
  }

  lemma NoCalls(hasDefault: bool)
    ensures AllCallsFor([], hasDefault, [], [])
  {
  }

  lemma TakenKeepsDefault(s: System)
    ensures Step(s, TickEvent).hasDefault == s.hasDefault
  {
    hide Lookup;
  }

  /** The completions of calls in flight, as the events they are, in the order they came in. */
  ghost function Completed(s: System, ops: seq<Op>): seq<Event> {
    if ops == [] then []
    else
      var op := Last(ops);
      Completed(s, ButLast(ops)) +
      if op.Complete? && Enabled(Exec(s, ButLast(ops)), op) then [Event(op.tag, op.ok, op.status)] else []
  }

  /** Ticks take the events as they came in: what was delivered and what is queued make up what was completed. */
  lemma {:induction false} EventsFollowCompletions(hasDefault: bool, ops: seq<Op>)
    ensures var init := Init(hasDefault);
            Delivered(init, ops) + Exec(init, ops).queue == Completed(init, ops)
    decreases |ops|
  {
    if ops != [] {
      var init := Init(hasDefault);
      var b, op := ButLast(ops), Last(ops);
      var m := Exec(init, b);
      var d, c := Delivered(init, b), Completed(init, b);
      EventsFollowCompletions(hasDefault, b);
      QueueStep(m, op);
      assert Exec(init, ops) == Step(m, op);
      hide Step, Exec, Enabled;
      if op.TickEvent? && Enabled(m, TickEvent) {
        assert Delivered(init, ops) == d + [m.queue[0]] && Completed(init, ops) == c + [];
        hide Delivered, Completed;
        assert m.queue == [m.queue[0]] + m.queue[1..];
      } else if op.Complete? && Enabled(m, op) {
        var e := Event(op.tag, op.ok, op.status);
        assert Delivered(init, ops) == d + [] && Completed(init, ops) == c + [e];
        hide Delivered, Completed;
        assert d + (m.queue + [e]) == (d + m.queue) + [e];
      } else {
        assert Delivered(init, ops) == d + [] && Completed(init, ops) == c + [];
      }
    }
  }

  lemma QueueStep(s: System, op: Op)
    ensures Step(s, op).queue ==
            if op.TickEvent? && Enabled(s, TickEvent) then s.queue[1..]
            else if op.Complete? && Enabled(s, op) then s.queue + [Event(op.tag, op.ok, op.status)]
            else s.queue
    ensures op.TickEvent? && Enabled(s, TickEvent) ==> s.queue != []
  {
    hide Lookup, ReleaseAll, TagIndex;
  }

  // ---- after Shutdown -----------------------------------------------------------------------------------------

  lemma ShutStep(s: System, op: Op)
    requires s.shutDown
    ensures Step(s, op).shutDown && multiset(Step(s, op).inFlight) <= multiset(s.inFlight)
  {
    hide Lookup, ReleaseAll, TagIndex;
    if op.Complete? && Enabled(s, op) {
      RemoveAtBag(s.inFlight, TagIndex(s.inFlight, op.tag));
    }
  }

  lemma {:induction false} ShutRun(s: System, ops: seq<Op>)
    requires s.shutDown
    ensures Exec(s, ops).shutDown && multiset(Exec(s, ops).inFlight) <= multiset(s.inFlight)
    decreases |ops|
  {
    hide Step;
    if ops != [] {
      ShutRun(s, ButLast(ops));
      ShutStep(Exec(s, ButLast(ops)), Last(ops));
    }
  }

  /** disconnect leaves the calls in flight to complete, and however the run goes on no other call joins them. */
  lemma DisconnectStartsNothing(s: System, later: seq<Op>)
    requires InUserCode(s)
    ensures var d := Step(s, Disconnect);
            && d.inFlight == s.inFlight && d.queue == s.queue && d.calls == s.calls
            && multiset(Exec(d, later).inFlight) <= multiset(s.inFlight)
  {
    ShutRun(Step(s, Disconnect), later);
  }
}
