/** GrpcClient as the class it is, driven by a tape of user actions and completions like RestStack. The ghost fields
    `sys` and `trace` tie it to the state machine, and each method says that the run it makes plays the tape. */
module GrpcStack {
  import opened Basics
  import opened Responses
  import opened Registry
  import opened Clients
  import GS = GrpcSystem
  import GR = GrpcRuns
  import opened GrpcTape

  /** What CompletionQueue::AsyncNext answers with a zero deadline. */
  datatype Next = GotEvent(event: GS.Event) | TimedOut | ShutDown

  // ---- the steps spelled out ----------------------------------------------------------------------------------

  lemma NewContextStep(s: GS.System, ptr: Ptr, spec: RequestSpec)
    requires GS.InUserCode(s) && ptr !in s.registry.live
    ensures GS.Step(s, GS.NewContext(ptr, spec))
            == s.(registry := Allocate(s.registry, ptr, spec), building := Some(Closure(ptr, |s.registry.home|)))
  {
  }

  lemma EventStep(s: GS.System)
    requires GS.InTick(s) && s.queue != []
    ensures var e := s.queue[0];
            var u := s.(queue := s.queue[1..]);
            && (e.tag.ptr in s.registry.contexts && e.tag.ptr in s.registry.live ==>
                  var b := s.registry.live[e.tag.ptr];
                  var call := Handled(b.serial, Invoke(b.spec, s.hasDefault, GrpcVerdict(e.ok, e.status)));
                  GS.Step(s, GS.TickEvent) == u.(calls := s.calls + [call], stack := s.stack + [Handling(e.tag)])
                  && GS.InUserCode(GS.Step(s, GS.TickEvent)))
            && (e.tag.ptr !in s.registry.contexts ==>
                  GS.Step(s, GS.TickEvent) == u.(calls := s.calls + [UnknownContext])
                  && GS.InTick(GS.Step(s, GS.TickEvent)))
  {
    hide Invoke, GrpcVerdict;
  }

  lemma TickEnterStep(s: GS.System)
    requires GS.InUserCode(s)
    ensures GS.Step(s, GS.TickEnter) == s.(stack := s.stack + [Ticking])
    ensures s.stack == [] || Last(s.stack).Handling?
    ensures GS.InTick(GS.Step(s, GS.TickEnter))
  {
  }

  lemma TickLeaveStep(s: GS.System)
    requires GS.InTick(s) && s.queue == []
    ensures GS.Step(s, GS.TickLeave) == s.(stack := ButLast(s.stack))
    ensures ButLast(s.stack) == [] || Last(ButLast(s.stack)).Handling? ==> GS.InUserCode(GS.Step(s, GS.TickLeave))
  {
  }

  lemma RunningIsAlive(s: GS.System, c: Closure)
    requires GR.Inv(s) && s.stack != [] && Last(s.stack) == Handling(c)
    ensures c.ptr in s.registry.live
  {
    hide Conserved, CallsOk, GR.WaitingOf;
    assert c in FrameBag(s.stack);
  }

  lemma ReturnStep(s: GS.System, c: Closure)
    requires GS.InUserCode(s) && s.stack != [] && Last(s.stack) == Handling(c)
    ensures GS.Step(s, GS.HandlerReturn) == s.(registry := Release(s.registry, c.ptr), stack := ButLast(s.stack))
    ensures ButLast(s.stack) != [] && Last(ButLast(s.stack)).Ticking? ==> GS.InTick(GS.Step(s, GS.HandlerReturn))
  {
    hide Release;
  }

  lemma DestroyStep(s: GS.System)
    requires GS.InUserCode(s) && s.stack == [] && s.shutDown
    ensures GS.Step(s, GS.DestroyClient) == s.(registry := ReleaseAll(s.registry), clientAlive := false)
  {
    hide ReleaseAll;
  }

  /** Completions move closures from the calls in flight to the queue and nothing else. */
  ghost predicate OnlyCompletions(a: GS.System, b: GS.System) {
    b == a.(inFlight := b.inFlight, queue := b.queue)
  }

  class GrpcClient {
    const hasDefault: bool
    var reqContexts: set<Ptr>
    var heap: map<Ptr, Block>
    var allocations: nat
    var alive: bool
    /** The completion queue: calls handed to gRPC, events that came back, and whether Shutdown was called. */
    var inFlight: seq<Closure>
    var events: seq<GS.Event>
    var shutDown: bool
    ghost var registry: Registry
    ghost var calls: seq<Call>
    ghost var sys: GS.System
    ghost var trace: seq<GS.Op>

    ghost predicate RegistryMatches(r: Registry)
      reads this
    {
      reqContexts == r.contexts == heap.Keys && heap == r.live && allocations == |r.home|
    }

    /** Between library calls the object is a state that the machine reaches by `trace`. */
    ghost predicate Valid()
      reads this
    {
      && sys == GS.Exec(GS.Init(hasDefault), trace)
      && alive == sys.clientAlive && hasDefault == sys.hasDefault
      && inFlight == sys.inFlight && events == sys.queue && shutDown == sys.shutDown
      && registry == sys.registry && RegistryMatches(registry)
      && calls == sys.calls
    }

    /** The run so far, with this tape left. */
    ghost function At(tape: seq<Act>): Moment
      reads this
    {
      Moment(trace, shutDown, tape)
    }

    constructor (hasDefault: bool)
      ensures Valid() && GS.InUserCode(sys) && sys.stack == [] && trace == []
      ensures sys == GS.Init(hasDefault)
    {
      this.hasDefault := hasDefault;
      reqContexts, heap, allocations, alive := {}, map[], 0, true;
      inFlight, events, shutDown := [], [], false;
      registry, calls, sys, trace := EMPTY, [], GS.Init(hasDefault), [];
    }

    /** What the state machine promises of every run, read off the object at any moment. */
    lemma AtAnyMoment()
      requires Valid()
      ensures registry.faults == 0 && forall call | call in calls :: call.Handled?
      ensures forall k :: CallBag(calls)[k] <= 1
      ensures GR.AllCallsFor(registry.specs, hasDefault, GR.Delivered(GS.Init(hasDefault), trace), calls)
      ensures !alive ==> forall k | 0 <= k < allocations :: multiset(registry.freed)[k] == 1
    {
      hide GS.Exec, CallBag, GR.AllCallsFor, GR.Delivered;
      GR.EveryEventFindsItsContext(hasDefault, trace);
      GR.EveryCallIsItsEvents(hasDefault, trace);
      if !alive {
        forall k | 0 <= k < allocations
          ensures multiset(registry.freed)[k] == 1
        {
          GR.EveryContextFreedOnce(hasDefault, trace, k);
        }
      }
    }

    ghost method Record(op: GS.Op)
      requires sys == GS.Exec(GS.Init(hasDefault), trace)
      modifies this`sys, this`trace
      ensures sys == GS.Step(old(sys), op) && trace == old(trace) + [op]
      ensures sys == GS.Exec(GS.Init(hasDefault), trace)
    {
      hide GS.Step;
      assert ButLast(trace + [op]) == trace;
      sys, trace := GS.Step(sys, op), trace + [op];
    }

    /** One completion; the library has none for a call that is not in flight. */
    method CompleteCall(e: GS.Event)
      requires Valid()
      modifies this
      ensures Valid() && sys == GS.Step(old(sys), GS.Complete(e.tag, e.ok, e.status))
      ensures trace == old(trace) + [GS.Complete(e.tag, e.ok, e.status)] && OnlyCompletions(old(sys), sys)
    {
      hide GS.Exec;
      if e.tag in inFlight {
        inFlight := RemoveAt(inFlight, GS.TagIndex(inFlight, e.tag));
        events := events + [e];
      }
      Record(GS.Complete(e.tag, e.ok, e.status));
    }

    /** The library's turn: the completions at the head of the tape. */
    method PollNetwork(tape: seq<Act>) returns (tape': seq<Act>)
      requires Valid()
      modifies this
      ensures Valid() && OnlyCompletions(old(sys), sys)
      ensures Plays(old(At(tape)), At(tape')) && (tape' == [] || !tape'[0].Complete?)
      ensures |tape'| <= |tape| && (|tape'| == |tape| ==> tape' == tape && sys == old(sys))
    {
      hide GS.Exec, GS.Step, Plays;
      tape' := tape;
      PlaysNothing(At(tape));
      while tape' != [] && tape'[0].Complete?
        invariant Valid() && OnlyCompletions(old(sys), sys)
        invariant Plays(old(At(tape)), At(tape'))
        invariant |tape'| <= |tape| && (|tape'| == |tape| ==> tape' == tape && sys == old(sys))
        decreases |tape'|
      {
        ghost var soFar := At(tape');
        var act := tape'[0];
        tape' := tape'[1..];
        assert soFar.tape == [act] + tape';
        CompleteCall(GS.Event(act.tag, act.ok, act.status));
        PlaysItem(soFar.trace, soFar.shut, act, tape', Last(trace));
        PlaysOn(old(At(tape)), soFar, At(tape'));
      }
    }

    /** One API method: create the context and hand the call to the completion queue, unless it throws first. */
    method ApiCall(proposed: Ptr, spec: RequestSpec, sent: bool) returns (ptr: Ptr)
      requires Valid() && GS.InUserCode(sys) && !shutDown
      modifies this
      ensures Valid() && GS.InUserCode(sys) && sys.stack == old(sys.stack) && events == old(events)
      ensures !shutDown && ptr !in old(heap)
      ensures trace == old(trace) + [GS.NewContext(ptr, spec)] + [if sent then GS.Launch else GS.ThrowBeforeSend]
    {
      hide GS.Exec;
      ptr := Unused(proposed, heap.Keys);
      NewContextStep(sys, ptr, spec);
      var ctx := Closure(ptr, allocations);
      heap := heap[ptr := Block(allocations, spec)];
      reqContexts := reqContexts + {ptr};
      allocations := allocations + 1;
      registry := Allocate(registry, ptr, spec);
      Record(GS.NewContext(ptr, spec));
      if sent {
        inFlight := inFlight + [ctx];
        Record(GS.Launch);
      } else {
        Record(GS.ThrowBeforeSend);
      }
    }

    /** The branches of onResponse and reqError: which user function this event runs. */
    method ChooseCallback(spec: RequestSpec, ok: bool, status: int) returns (chosen: Invocation)
      ensures CompletedBy(spec, hasDefault, ok, status, chosen)
      ensures chosen == Invoke(spec, hasDefault, GrpcVerdict(ok, status))
    {
      VerdictCompletes(spec, hasDefault, ok, status, Invoke(spec, hasDefault, GrpcVerdict(ok, status)));
      chosen := Nothing;
      if ok {
        if status == GRPC_OK {
          if spec.hasSuccess {
            chosen := SuccessCallback;
          }
        } else {
          chosen := ReqError(spec, hasDefault, CodeOf(status));
        }
      } else {
        chosen := ReqError(spec, hasDefault, ConnectionError);
      }
    }

    /** `delete reqContext; _reqContexts.erase(it);` once the handler of c is back. */
    method Discard(c: Closure)
      requires Valid() && GS.InUserCode(sys) && sys.stack != [] && Last(sys.stack) == Handling(c)
      modifies this
      ensures Valid() && sys == GS.Step(old(sys), GS.HandlerReturn) && trace == old(trace) + [GS.HandlerReturn]
      ensures sys.stack == ButLast(old(sys.stack)) && reqContexts == old(reqContexts) - {c.ptr}
      ensures sys.stack != [] && Last(sys.stack).Ticking? ==> GS.InTick(sys)
      ensures events == old(events) && shutDown == old(shutDown)
    {
      hide GS.Step, GS.Exec, GR.Inv, GS.InTick, GS.InUserCode;
      GR.ReachableInv(hasDefault, trace);
      RunningIsAlive(sys, c);
      ReturnStep(sys, c);
      heap := heap - {c.ptr};
      reqContexts := reqContexts - {c.ptr};
      registry := Release(registry, c.ptr);
      Record(GS.HandlerReturn);
    }

    method AsyncNext() returns (next: Next)
      requires Valid()
      modifies this`events
      ensures old(events) == [] ==> next == (if shutDown && inFlight == [] then ShutDown else TimedOut) && events == []
      ensures old(events) != [] ==> next == GotEvent(old(events)[0]) && events == old(events)[1..]
    {
      if events == [] {
        return if shutDown && inFlight == [] then ShutDown else TimedOut;
      }
      next := GotEvent(events[0]);
      events := events[1..];
    }

    /** onResponse for the event a tick takes off the queue. */
    method OnResponse(e: GS.Event, tape: seq<Act>) returns (tape': seq<Act>)
      requires sys == GS.Exec(GS.Init(hasDefault), trace) && GS.InTick(sys)
      requires sys.queue == [e] + events && inFlight == sys.inFlight && shutDown == sys.shutDown
      requires alive == sys.clientAlive && hasDefault == sys.hasDefault && calls == sys.calls
      requires registry == sys.registry && RegistryMatches(registry)
      modifies this
      ensures Valid() && GS.InTick(sys) && sys.stack == old(sys.stack)
      ensures Plays(old(At(tape)), At(tape'))
      ensures |tape'| < |tape| || (tape' == tape && events == old(events))
      decreases |tape|, 1
    {
      hide GS.Step, GS.Exec, GR.Inv, Invoke, GrpcVerdict, GS.InTick, GS.InUserCode, Plays, PlaysToReturn;
      TickTurn(sys);
      EventStep(sys);
      PlaysSilently(trace, shutDown, tape, GS.TickEvent);
      var c := e.tag;
      if c.ptr in reqContexts {
        var chosen := ChooseCallback(heap[c.ptr].spec, e.ok, e.status);
        calls := calls + [Handled(heap[c.ptr].serial, chosen)];
        Record(GS.TickEvent);
        ghost var taken := At(tape);
        tape' := RunUserCode(tape);
        ghost var ran := At(tape');
        Discard(c);
        PlaysReturn(taken, ran);
        PlaysOn(old(At(tape)), taken, At(tape'));
      } else {
        calls := calls + [UnknownContext];
        Record(GS.TickEvent);
        tape' := tape;
      }
    }

    /** One turn of tick's loop: whatever the library does first, then AsyncNext and onResponse. */
    method TakeNext(tape: seq<Act>) returns (continueLoop: bool, tape': seq<Act>)
      requires Valid() && GS.InTick(sys)
      modifies this
      ensures Valid() && GS.InTick(sys) && sys.stack == old(sys.stack)
      ensures |tape'| <= |tape| && Plays(old(At(tape)), At(tape'))
      ensures !continueLoop ==> events == []
      ensures continueLoop && |tape'| == |tape| ==> |events| < |old(events)|
      decreases |tape|, 2
    {
      hide GS.Step, GS.Exec, GR.Inv, Plays;
      tape' := PollNetwork(tape);
      ghost var polled := At(tape');
      var next := AsyncNext();
      match next {
        case ShutDown => continueLoop := false;
        case GotEvent(e) =>
          continueLoop := true;
          tape' := OnResponse(e, tape');
          PlaysOn(old(At(tape)), polled, At(tape'));
        case TimedOut => continueLoop := false;
      }
    }

    ghost method EnterTick(tape: seq<Act>)
      requires Valid() && GS.InUserCode(sys)
      modifies this`sys, this`trace
      ensures Valid() && GS.InTick(sys) && sys.stack == old(sys.stack) + [Ticking]
      ensures old(sys.stack) == [] || Last(old(sys.stack)).Handling?
      ensures trace == old(trace) + [GS.TickEnter] && Plays(old(At([TickAgain] + tape)), At(tape))
    {
      PlaysTickEnter(trace, shutDown, tape);
      TickEnterStep(sys);
      hide GS.Exec, GS.Step, GS.InTick, GS.InUserCode, Plays;
      Record(GS.TickEnter);
    }

    ghost method LeaveTick(before: seq<Frame>, tape: seq<Act>)
      requires Valid() && GS.InTick(sys) && events == []
      requires sys.stack == before + [Ticking] && (before == [] || Last(before).Handling?)
      modifies this`sys, this`trace
      ensures Valid() && GS.InUserCode(sys) && sys.stack == before
      ensures trace == old(trace) + [GS.TickLeave] && Plays(old(At(tape)), At(tape))
    {
      PlaysSilently(trace, shutDown, tape, GS.TickLeave);
      assert ButLast(sys.stack) == before;
      TickLeaveStep(sys);
      hide GS.Exec, GS.Step, GS.InTick, GS.InUserCode, Plays;
      Record(GS.TickLeave);
    }

    /** tick: takes completions off the queue until it is empty. The handlers may do anything, ticks included. */
    method Tick(tape: seq<Act>) returns (tape': seq<Act>)
      requires Valid() && GS.InUserCode(sys)
      modifies this
      ensures Valid() && GS.InUserCode(sys) && sys.stack == old(sys.stack)
      ensures events == [] && |tape'| <= |tape|
      ensures old(trace) + [GS.TickEnter] <= trace
      ensures Plays(old(At([TickAgain] + tape)), At(tape'))
      ensures QuietTape(tape) ==>
                calls == old(calls) + GR.Answers(old(sys.registry.specs), hasDefault, old(events))
      decreases |tape|, 3
    {
      hide *;
      ghost var start := At([TickAgain] + tape);
      SeenFromOutside([TickAgain] + tape);
      EnterTick(tape);
      tape' := tape;
      var continueLoop := true;
      while continueLoop
        invariant Valid() && GS.InTick(sys) && sys.stack == old(sys.stack) + [Ticking]
        invariant |tape'| <= |tape| && Plays(start, At(tape'))
        invariant old(trace) + [GS.TickEnter] <= trace
        invariant !continueLoop ==> events == []
        decreases |tape'|, |events|, continueLoop
      {
        ghost var soFar := At(tape');
        MomentIs(tape');
        continueLoop, tape' := TakeNext(tape');
        PlaysOn(start, soFar, At(tape'));
        MomentIs(tape');
      }
      ghost var looped := At(tape');
      MomentIs(tape');
      LeaveTick(old(sys.stack), tape');
      PlaysOn(start, looped, At(tape'));
      MomentIs(tape');
      QuietTick(old(sys), start, tape, tape');
    }

    lemma MomentIs(tape: seq<Act>)
      ensures At(tape) == Moment(trace, shutDown, tape)
    {
    }

    lemma SeenFromOutside(tape: seq<Act>)
      requires Valid() && GS.InUserCode(sys)
      ensures sys == GS.Exec(GS.Init(hasDefault), trace) && sys.hasDefault == hasDefault && sys.clientAlive
      ensures events == sys.queue && calls == sys.calls && At(tape) == Moment(trace, shutDown, tape)
    {
    }

    lemma QuietTick(s: GS.System, start: Moment, tape: seq<Act>, tape': seq<Act>)
      requires Valid() && events == [] && s.clientAlive && s.hasDefault == hasDefault
      requires s == GS.Exec(GS.Init(hasDefault), start.trace) && start.tape == [TickAgain] + tape
      requires Plays(start, At(tape'))
      ensures QuietTape(tape) ==> calls == s.calls + GR.Answers(s.registry.specs, hasDefault, s.queue)
    {
      hide GS.Exec, Plays, GR.Answers, GR.Inv;
      if QuietTape(tape) {
        GR.ReachableInv(hasDefault, start.trace);
        QuietTickAnswers(GS.Init(hasDefault), start, At(tape'));
      }
    }

    /** User code with the thread, at top level or inside a handler, until the tape says it returns. */
    method RunUserCode(tape: seq<Act>) returns (tape': seq<Act>)
      requires Valid() && GS.InUserCode(sys)
      modifies this
      ensures Valid() && GS.InUserCode(sys) && sys.stack == old(sys.stack)
      ensures PlaysToReturn(old(At(tape)), At(tape')) || (tape' == [] && Plays(old(At(tape)), At(tape')))
      ensures |tape'| < |tape| || (tape == tape' == [] && events == old(events))
      decreases |tape|, 0
    {
      hide GS.Step, GS.Exec, Plays, PlaysToReturn;
      tape' := tape;
      PlaysNothing(At(tape));
      while tape' != []
        invariant Valid() && GS.InUserCode(sys) && sys.stack == old(sys.stack)
        invariant Plays(old(At(tape)), At(tape'))
        invariant |tape'| < |tape| || (tape' == tape && events == old(events))
        decreases |tape'|
      {
        ghost var soFar := At(tape');
        var act := tape'[0];
        tape' := tape'[1..];
        assert soFar.tape == [act] + tape';
        if act.Return? {
          StopsAtReturn(old(At(tape)), trace, shutDown, tape');
          return;
        }
        tape' := Perform(act, tape');
        PlaysOn(old(At(tape)), soFar, At(tape'));
      }
    }

    /** One action of user code, or one completion while user code has the thread. */
    method Perform(act: Act, tape: seq<Act>) returns (tape': seq<Act>)
      requires Valid() && GS.InUserCode(sys) && !act.Return?
      modifies this
      ensures Valid() && GS.InUserCode(sys) && sys.stack == old(sys.stack)
      ensures |tape'| <= |tape| && Plays(old(At([act] + tape)), At(tape'))
      ensures act.Complete? ==> trace == old(trace) + [GS.Complete(act.tag, act.ok, act.status)] && tape' == tape
      ensures act.Disconnect? ==> trace == old(trace) + [GS.Disconnect] && tape' == tape
      ensures act.TickAgain? ==> old(trace) + [GS.TickEnter] <= trace && events == []
      ensures act.Call? && !old(shutDown) ==>
                tape' == tape && exists ptr ::
                  trace == old(trace) + [GS.NewContext(ptr, act.spec)]
                           + [if act.sent then GS.Launch else GS.ThrowBeforeSend]
      decreases |tape|, 4
    {
      hide GS.Step, GS.Exec, Plays;
      tape' := tape;
      match act {
        case Complete(tag, ok, status) =>
          CompleteCall(GS.Event(tag, ok, status));
          PlaysItem(old(trace), old(shutDown), act, tape, GS.Complete(tag, ok, status));
        case TickAgain => tape' := Tick(tape');
        case Disconnect =>
          DisconnectAll();
          PlaysItem(old(trace), old(shutDown), act, tape, GS.Disconnect);
        case Call(proposed, spec, sent) =>
          if shutDown {
            PlaysNoCall(trace, act, tape);
          } else {
            var ptr := ApiCall(proposed, spec, sent);
            PlaysCall(old(trace), proposed, ptr, spec, sent, tape);
          }
      }
    }

    /** disconnect: shuts the queue down, and cancels nothing. */
    method DisconnectAll()
      requires Valid() && GS.InUserCode(sys)
      modifies this
      ensures Valid() && GS.InUserCode(sys) && sys == GS.Step(old(sys), GS.Disconnect)
      ensures trace == old(trace) + [GS.Disconnect] && sys.stack == old(sys.stack) && shutDown
      ensures inFlight == old(inFlight) && events == old(events) && calls == old(calls)
    {
      hide GS.Exec;
      shutDown := true;
      Record(GS.Disconnect);
    }

    /** ~GrpcClient. */
    method Destroy()
      requires Valid() && GS.InUserCode(sys) && sys.stack == []
      modifies this
      ensures Valid() && !alive && heap == map[] && reqContexts == {}
      ensures trace == old(trace) + [GS.Disconnect] + [GS.DestroyClient]
    {
      hide GS.Exec, GS.Step;
      DisconnectAll();
      DestroyStep(sys);
      ghost var whole := ReleaseAll(registry);
      var todo := reqContexts;
      while todo != {}
        invariant todo == registry.contexts == heap.Keys && heap == registry.live
        invariant ReleaseAll(registry) == whole
        invariant registry.home == sys.registry.home
        modifies `heap, `registry
        decreases todo
      {
        var p := First(todo);
        heap := heap - {p};
        todo := todo - {p};
        registry := Release(registry, p);
      }
      reqContexts := {};
      alive := false;
      Record(GS.DestroyClient);
    }
  }

  lemma TickTurn(s: GS.System)
    requires GS.InTick(s)
    ensures s.stack != [] && Last(s.stack).Ticking? && s.clientAlive
  {
  }
}
