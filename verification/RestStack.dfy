/** NHttpClientCppRest and RestClient as the classes they are. Everything outside them is read from a tape; the methods
    hold for every tape, and each says that the run it makes plays the tape. The ghost fields `sys` and `trace` tie the
    objects to the state machine: whatever the classes do is a run of RestSystem. */
module RestStack {
  import opened Basics
  import opened Responses
  import opened Registry
  import opened Clients
  import T = Transport
  import TR = TransportRuns
  import RS = RestSystem
  import RR = RestRuns
  import RT = RestTheorems
  import RA = RestAnswers
  import opened RestSteps
  import opened RestTape

  class NHttpClientCppRest {
    var pendingRequests: seq<T.ReqContext<Closure>>
    var finishedRequests: seq<T.ReqContext<Closure>>
    var nextReqId: nat
    var alive: bool
    var client: Option<string>
    var baseUri: string
    /** The continuations handed to the network, with the hasCallback flag each captured. */
    var continuations: map<nat, bool>

    ghost predicate Matches(t: T.Transport<Closure>)
      reads this
    {
      && pendingRequests == t.pending
      && finishedRequests == t.finished
      && nextReqId == t.nextReqId
      && alive == t.alive
      && client == t.client
      && baseUri == t.baseUri
      && continuations == t.launched
    }

    constructor ()
      ensures Matches(T.Init())
    {
      pendingRequests, finishedRequests, nextReqId := [], [], 1;
      alive, client, baseUri, continuations := true, None, "", map[];
    }

    method SetUri(uri: string, ghost t: T.Transport<Closure>)
      requires Matches(t)
      modifies this
      ensures Matches(T.DoSetBaseUri(t, uri))
      ensures baseUri == uri && client == if old(client) == Some(uri) then Some(uri) else None
    {
      baseUri := uri;
      if client == Some(uri) {
        return;
      }
      client := None;
    }

    method CreateReqContext(ghost callback: Option<Closure>, ghost t: T.Transport<Closure>) returns (id: nat)
      requires Matches(t)
      modifies this
      ensures Matches(T.DoCreate(t, callback)) && id == t.nextReqId
    {
      id := nextReqId;
      nextReqId := nextReqId + 1;
      pendingRequests := pendingRequests + [T.ReqContext(id, None, None)];
    }

    /** `ctx->callback = callback`: ctx is the last context pending. */
    method StoreCallback(id: nat, callback: Option<Closure>, ghost t: T.Transport<Closure>)
      requires Matches(t) && t.starting == Some(T.Starting(id, callback, false)) && TR.Inv(t)
      modifies this
      ensures Matches(T.DoAttach(t))
    {
      TR.FindsStarted(t);
      var k := |pendingRequests| - 1;
      pendingRequests := pendingRequests[k := pendingRequests[k].(callback := callback)];
    }

    method FinishReq(id: nat, response: Response, ghost t: T.Transport<Closure>)
      requires Matches(t)
      modifies this
      ensures Matches(T.Finish(t, id, response))
    {
      var i := 0;
      while i < |pendingRequests|
        invariant 0 <= i <= |pendingRequests|
        invariant Matches(t)
        invariant forall j | 0 <= j < i :: pendingRequests[j].id != id
      {
        if pendingRequests[i].id == id {
          T.FirstIs(t.pending, id, i);
          finishedRequests := finishedRequests + [pendingRequests[i].(response := Some(response))];
          pendingRequests := RemoveAt(pendingRequests, i);
          return;
        }
        i := i + 1;
      }
      T.FirstIs(t.pending, id, i);
    }

    /** The answer that finishReqWithError makes up: a status and no body. */
    method FinishReqWithError(id: nat, statusCode: int, ghost t: T.Transport<Closure>)
      requires Matches(t)
      modifies this
      ensures Matches(T.Finish(t, id, Response(statusCode, NotJson, false)))
    {
      FinishReq(id, Response(statusCode, NotJson, false), t);
    }

    method RemovePendingReq(id: nat, ghost t: T.Transport<Closure>)
      requires Matches(t)
      modifies this
      ensures Matches(T.Remove(t, id))
    {
      var i := 0;
      while i < |pendingRequests|
        invariant 0 <= i <= |pendingRequests|
        invariant Matches(t)
        invariant forall j | 0 <= j < i :: pendingRequests[j].id != id
      {
        if pendingRequests[i].id == id {
          T.FirstIs(t.pending, id, i);
          pendingRequests := RemoveAt(pendingRequests, i);
          return;
        }
        i := i + 1;
      }
      T.FirstIs(t.pending, id, i);
    }

    method PopFinishedReq(ghost t: T.Transport<Closure>) returns (ctx: Option<T.ReqContext<Closure>>)
      requires Matches(t)
      modifies this
      ensures t.finished == [] ==> ctx.None? && Matches(t)
      ensures t.finished != [] ==> ctx == Some(t.finished[0]) && Matches(T.DoPop(t))
    {
      if finishedRequests == [] {
        return None;
      }
      ctx := Some(finishedRequests[0]);
      finishedRequests := finishedRequests[1..];
    }

    /** The task-based continuation of request `id`. */
    method Continue(id: nat, outcome: T.Outcome, ghost t: T.Transport<Closure>)
      requires Matches(t) && id in t.launched
      modifies this
      ensures Matches(T.DoArrive(t, id, outcome))
      ensures !alive ==> Matches(t)
      ensures alive && outcome.Threw? && T.IndexOf(t.pending, id) < |t.pending| ==>
                && finishedRequests != [] && Last(finishedRequests).id == id
                && Last(finishedRequests).response.Some? && Last(finishedRequests).response.value.statusCode == 600
      ensures alive && outcome.Responded? && t.launched[id] && T.IndexOf(t.pending, id) < |t.pending| ==>
                finishedRequests != [] && Last(finishedRequests).id == id
                && Last(finishedRequests).response == Some(outcome.response)
      ensures alive && outcome.Responded? && !t.launched[id] ==> finishedRequests == t.finished
    {
      if !alive {
        return;
      }
      match outcome {
        case Threw => FinishReqWithError(id, CONNECTION_ERROR, t);
        case Responded(response) =>
          if continuations[id] {
            FinishReq(id, response, t);
          } else {
            RemovePendingReq(id, t);
          }
      }
    }

    /** cancelAllRequests: one lock section; the callbacks it runs do not come back to the transport. */
    method CancelAllRequests(rest: RestClient)
      requires rest.http == this && rest.Valid() && RS.InUserCode(rest.sys)
      modifies this, rest
      ensures rest.Valid() && rest.sys == RS.Step(old(rest.sys), RS.Disconnect)
      ensures rest.trace == old(rest.trace) + [RS.Disconnect]
    {
      hide RS.Step, RS.Exec, RS.InUserCode, RS.CancelOne, T.Idle, Own;
      ghost var s := rest.sys;
      DisconnectStep(s);
      ghost var whole := RS.CancelEach(s.registry, s.calls, s.hasDefault, s.transport.pending);
      client := None;
      while pendingRequests != []
        invariant rest.http == this && rest.sys == s && rest.trace == old(rest.trace) && rest.Steady(s)
        invariant Matches(s.transport.(client := None, pending := pendingRequests))
        invariant rest.RegistryMatches(rest.registry)
        invariant RS.CancelEach(rest.registry, rest.calls, s.hasDefault, pendingRequests) == whole
        decreases |pendingRequests|
      {
        var ctx := pendingRequests[0];
        if ctx.callback.Some? {
          rest.ResolveCancelled(ctx.callback.value);
        }
        pendingRequests := pendingRequests[1..];
      }
      hide RS.CancelEach;
      rest.Record(RS.Disconnect);
    }

    /** request up to the point where its callback is stored: a lock section, a gap, and an unlocked write. */
    method Prepare(rest: RestClient, callback: Option<Closure>, tape: seq<Act>) returns (id: nat, tape': seq<Act>)
      requires rest.http == this && rest.Valid()
      requires rest.sys.clientAlive && rest.sys.building == callback && callback.Some? && T.Idle(rest.sys.transport)
      modifies this, rest
      ensures rest.Valid() && rest.sys.clientAlive && rest.sys.building.None?
      ensures rest.sys.transport.alive && rest.sys.transport.starting == Some(T.Starting(id, callback, true))
      ensures T.Uninitialized(rest.sys.transport) == T.Uninitialized(old(rest.sys.transport))
      ensures rest.sys.stack == old(rest.sys.stack) && |tape'| <= |tape|
      ensures Plays(old(rest.trace), tape, rest.trace, tape')
      ensures Own(rest.trace) == Own(old(rest.trace)) + [RS.Send] + [RS.Attach]
    {
      hide RS.Step, RS.Exec, TR.Inv, RR.Inv, T.DoAttach, Plays, Own;
      SendStep(rest.sys);
      id := CreateReqContext(callback, rest.sys.transport);
      rest.Record(RS.Send);
      PlaysSilently(old(rest.trace), tape, RS.Send);
      ghost var sent := rest.trace;
      tape' := rest.PollNetwork(tape);
      PlaysOn(old(rest.trace), tape, sent, tape, rest.trace, tape');
      ghost var polled := rest.trace;
      rest.Reachable();
      AttachStep(rest.sys);
      StoreCallback(id, callback, rest.sys.transport);
      rest.Record(RS.Attach);
      rest.PlayedSilently(old(rest.trace), tape, polled, tape', RS.Attach);
    }

    /** The rest of request: refuse at once, or hand the continuation to the network, or throw. */
    method Dispatch(id: nat, hasCallback: bool, fate: Fate, ghost t: T.Transport<Closure>)
      requires Matches(t) && T.Attached(t) && !fate.ThrowsBeforeSend?
      requires t.starting.value.id == id && t.starting.value.callback.Some? == hasCallback
      modifies this
      ensures Matches(T.Step(t, TransportDispatch(fate, T.Uninitialized(t))))
      ensures old(client).None? && old(baseUri) == "" && T.IndexOf(t.pending, id) < |t.pending| ==>
                && finishedRequests != [] && Last(finishedRequests).id == id && continuations == old(continuations)
                && Last(finishedRequests).response.Some? && Last(finishedRequests).response.value.statusCode == 601
      ensures (old(client).Some? || old(baseUri) != "") && fate.Sent? ==>
                && continuations == old(continuations)[id := hasCallback]
                && client == (if old(client).Some? then old(client) else Some(old(baseUri)))
                && finishedRequests == old(finishedRequests)
      ensures (old(client).Some? || old(baseUri) != "") && fate.ThrowsInTransport? ==>
                continuations == old(continuations) && finishedRequests == old(finishedRequests)
    {
      hide T.IndexOf;
      if client.None? {
        if baseUri == "" {
          FinishReqWithError(id, NOT_INITIALIZED_ERROR, t.(starting := None));
          return;
        }
        if fate == ThrowsInTransport(false) {
          return;
        }
        client := Some(baseUri);
      }
      if fate.ThrowsInTransport? {
        return;
      }
      continuations := continuations[id := hasCallback];
    }

    /** request: its lock sections, with the network free to act between them. */
    method Request(rest: RestClient, callback: Option<Closure>, fate: Fate, tape: seq<Act>) returns (tape': seq<Act>)
      requires rest.http == this && rest.Valid() && !fate.ThrowsBeforeSend?
      requires rest.sys.clientAlive && rest.sys.building == callback && callback.Some? && T.Idle(rest.sys.transport)
      modifies this, rest
      ensures rest.Valid() && rest.sys.clientAlive && rest.sys.building.None? && T.Idle(rest.sys.transport)
      ensures rest.sys.stack == old(rest.sys.stack) && |tape'| <= |tape|
      ensures Plays(old(rest.trace), tape, rest.trace, tape')
      ensures Own(rest.trace) == Own(old(rest.trace)) + [RS.Send, RS.Attach]
                                 + [if old(client).None? && old(baseUri) == "" then RS.Refuse
                                    else if fate.Sent? then RS.Launch else RS.Abandon(fate.clientMade)]
    {
      hide RS.Step, RS.Exec, T.Idle, T.Step, Plays, Own;
      var id;
      id, tape' := Prepare(rest, callback, tape);
      ghost var prepared, tape1 := rest.trace, tape';
      tape' := rest.PollNetwork(tape');
      PlaysOn(old(rest.trace), tape, prepared, tape1, rest.trace, tape');
      ghost var polled := rest.trace;
      DispatchStep(rest.sys, fate);
      Dispatch(id, callback.Some?, fate, rest.sys.transport);
      rest.Record(DispatchOp(fate, T.Uninitialized(rest.sys.transport)));
      rest.PlayedSilently(old(rest.trace), tape, polled, tape', Last(rest.trace));
    }

    /** One turn of tick's loop: whatever the network does first, then popFinishedReq and the callback. */
    method DeliverNext(rest: RestClient, tape: seq<Act>) returns (delivered: bool, tape': seq<Act>)
      requires rest.http == this && rest.Valid() && RS.InTick(rest.sys)
      modifies this, rest
      ensures rest.Valid() && RS.InTick(rest.sys) && rest.sys.stack == old(rest.sys.stack)
      ensures |tape'| <= |tape| && Plays(old(rest.trace), tape, rest.trace, tape')
      ensures !delivered ==> finishedRequests == []
      ensures delivered && |tape'| == |tape| ==> |finishedRequests| < old(|finishedRequests|)
      decreases |tape|, 2
    {
      hide RS.Step, RS.Exec, RS.InTick, RS.InUserCode, RR.Inv, TR.Inv, T.DoPop, Plays, Own;
      tape' := rest.PollNetwork(tape);
      ghost var polled, tape1 := rest.trace, tape';
      var ctx := PopFinishedReq(rest.sys.transport);
      if ctx.None? {
        return false, tape';
      }
      delivered := true;
      PopShortens(rest.sys.transport);
      if ctx.value.callback.Some? {
        rest.Reachable();
        PopHasResponse(rest.sys.transport);
        tape' := rest.OnResponse(ctx.value.callback.value, ctx.value.response.value, tape');
        PlaysOn(old(rest.trace), tape, polled, tape1, rest.trace, tape');
      } else {
        SkipStep(rest.sys);
        rest.Record(RS.TickPop);
        rest.PlayedSilently(old(rest.trace), tape, polled, tape', RS.TickPop);
      }
    }

    /** tick: pops finished requests and runs their callbacks until the list is empty. The callbacks may do anything,
        ticks included. */
    method Tick(rest: RestClient, tape: seq<Act>) returns (tape': seq<Act>)
      requires rest.http == this && rest.Valid() && RS.InUserCode(rest.sys)
      modifies this, rest
      ensures rest.Valid() && RS.InUserCode(rest.sys) && rest.sys.stack == old(rest.sys.stack)
      ensures finishedRequests == [] && |tape'| <= |tape|
      ensures old(rest.trace) + [RS.TickEnter] <= rest.trace
      ensures Plays(old(rest.trace), [TickAgain] + tape, rest.trace, tape')
      ensures old(baseUri) != "" && QuietTape(tape) ==>
                T.TickedIds(rest.sys.transport.resolved)
                == T.TickedIds(old(rest.sys.transport.resolved)) + T.Ids(old(finishedRequests))
      decreases |tape|, 3
    {
      hide *;
      ghost var start := [TickAgain] + tape;
      rest.SeenFromOutside();
      TickFromUserCode(rest.sys);
      rest.EnterTick(tape);
      tape' := tape;
      var delivered := true;
      while delivered
        invariant rest.Valid() && RS.InTick(rest.sys) && rest.sys.stack == old(rest.sys.stack) + [Ticking]
        invariant |tape'| <= |tape| && Plays(old(rest.trace), start, rest.trace, tape')
        invariant old(rest.trace) + [RS.TickEnter] <= rest.trace
        invariant !delivered ==> finishedRequests == []
        decreases |tape'|, |finishedRequests|, delivered
      {
        ghost var soFar, tape1 := rest.trace, tape';
        delivered, tape' := DeliverNext(rest, tape');
        PlaysOn(old(rest.trace), start, soFar, tape1, rest.trace, tape');
      }
      ghost var looped := rest.trace;
      rest.LeaveTick(old(rest.sys.stack), tape');
      PlaysOn(old(rest.trace), start, looped, tape', rest.trace, tape');
      QuietTick(rest, old(rest.sys), old(rest.trace), tape, tape');
    }

    lemma QuietTick(rest: RestClient, s: RS.System, was: seq<RS.Op>, tape: seq<Act>, tape': seq<Act>)
      requires rest.http == this && rest.Valid() && finishedRequests == []
      requires s == RS.Exec(RS.Init(rest.hasDefault), was) && Plays(was, [TickAgain] + tape, rest.trace, tape')
      ensures s.transport.baseUri != "" && QuietTape(tape) ==>
                T.TickedIds(rest.sys.transport.resolved)
                == T.TickedIds(s.transport.resolved) + T.Ids(s.transport.finished)
    {
      hide RS.Exec, Plays, T.TickedIds;
      if s.transport.baseUri != "" && QuietTape(tape) {
        QuietTickDelivers(RS.Init(rest.hasDefault), was, [TickAgain] + tape, rest.trace, tape');
      }
    }
  }

  class RestClient {
    const http: NHttpClientCppRest
    const hasDefault: bool
    var reqContexts: set<Ptr>
    var heap: map<Ptr, Block>
    var allocations: nat
    var alive: bool
    ghost var registry: Registry
    ghost var calls: seq<Call>
    ghost var sys: RS.System
    ghost var trace: seq<RS.Op>

    /** The set lists exactly the contexts that are allocated, and the ledger agrees. */
    ghost predicate RegistryMatches(r: Registry)
      reads this
    {
      reqContexts == r.contexts == heap.Keys && heap == r.live && allocations == |r.home|
    }

    ghost predicate Steady(s: RS.System)
      reads this
    {
      alive == s.clientAlive && hasDefault == s.hasDefault && s == RS.Exec(RS.Init(hasDefault), trace)
    }

    /** Between lock sections the two objects are a state that the machine reaches by `trace`. */
    ghost predicate Valid()
      reads this, http
    {
      && http.Matches(sys.transport)
      && ClientMatches()
    }

    ghost predicate ClientMatches()
      reads this
    {
      && Steady(sys)
      && registry == sys.registry && RegistryMatches(registry)
      && calls == sys.calls
    }

    constructor (hasDefault: bool, http: NHttpClientCppRest)
      requires http.Matches(T.Init())
      ensures Valid() && RS.InUserCode(sys) && sys.stack == [] && this.http == http && trace == []
      ensures sys == RS.Init(hasDefault)
    {
      this.http, this.hasDefault := http, hasDefault;
      reqContexts, heap, allocations, alive := {}, map[], 0, true;
      registry, calls, sys, trace := EMPTY, [], RS.Init(hasDefault), [];
    }

    ghost method Record(op: RS.Op)
      requires sys == RS.Exec(RS.Init(hasDefault), trace)
      modifies this`sys, this`trace
      ensures sys == RS.Step(old(sys), op) && trace == old(trace) + [op]
      ensures sys == RS.Exec(RS.Init(hasDefault), trace)
      ensures Own(trace) == if op.Arrive? then Own(old(trace)) else Own(old(trace)) + [op]
    {
      hide RS.Step;
      OwnAppend(trace, op);
      assert ButLast(trace + [op]) == trace;
      sys, trace := RS.Step(sys, op), trace + [op];
    }

    /** A step that takes nothing off the tape, after steps that played it. */
    lemma PlayedSilently(was: seq<RS.Op>, tape: seq<Act>, mid: seq<RS.Op>, tape': seq<Act>, op: RS.Op)
      requires Plays(was, tape, mid, tape')
      requires trace == mid + [op] && Did(op) == []
      ensures Plays(was, tape, trace, tape')
    {
      hide Plays, Did;
      PlaysSilently(mid, tape', op);
      PlaysOn(was, tape, mid, tape', trace, tape');
    }

    ghost method EnterTick(tape: seq<Act>)
      requires Valid() && RS.InUserCode(sys)
      modifies this`sys, this`trace
      ensures Valid() && RS.InTick(sys) && sys.stack == old(sys.stack) + [Ticking]
      ensures trace == old(trace) + [RS.TickEnter] && Plays(old(trace), [TickAgain] + tape, trace, tape)
    {
      PlaysItem(trace, TickAgain, tape, RS.TickEnter);
      hide RS.Step, RS.Exec, RS.InTick, RS.InUserCode;
      TickEnterStep(sys);
      Record(RS.TickEnter);
    }

    ghost method LeaveTick(before: seq<Frame>, tape: seq<Act>)
      requires Valid() && RS.InTick(sys) && http.finishedRequests == []
      requires sys.stack == before + [Ticking] && (before == [] || Last(before).Handling?)
      modifies this`sys, this`trace
      ensures Valid() && RS.InUserCode(sys) && sys.stack == before
      ensures trace == old(trace) + [RS.TickLeave] && Plays(old(trace), tape, trace, tape)
    {
      PlaysSilently(trace, tape, RS.TickLeave);
      hide RS.Step, RS.Exec, RS.InTick, RS.InUserCode;
      assert ButLast(sys.stack) == before;
      TickLeaveStep(sys);
      Record(RS.TickLeave);
    }

    lemma SeenFromOutside()
      requires Valid()
      ensures sys == RS.Exec(RS.Init(hasDefault), trace)
      ensures http.baseUri == sys.transport.baseUri && http.finishedRequests == sys.transport.finished
    {
    }

    lemma Reachable()
      requires sys == RS.Exec(RS.Init(hasDefault), trace)
      ensures RR.Inv(sys)
      ensures TR.Inv(sys.transport)
    {
      hide RS.Exec, TR.Inv;
      RR.ReachableInv(hasDefault, trace);
    }

    /** What the state machine promises of every run, read off the objects at any moment between lock sections. */
    lemma AtAnyMoment(k: nat)
      requires Valid()
      ensures CallBag(calls)[k] <= 1 && registry.faults == 0 && forall call | call in calls :: call.Handled?
      ensures RA.AllCallsFor(registry.specs, hasDefault, sys.transport.resolved, calls)
      ensures alive && k < allocations ==>
                (k in registry.freed <==>
                 CallBag(calls)[k] == 1 && Closure(registry.home[k], k) !in FrameBag(sys.stack))
      ensures !alive ==> multiset(registry.freed)[k] == if k < allocations then 1 else 0
    {
      hide RS.Exec, RR.Inv, CallBag, FrameBag, RA.AllCallsFor;
      RT.EveryAnswerFindsItsContext(hasDefault, trace);
      RA.EveryCallIsItsAnswers(hasDefault, trace);
      if !alive {
        RT.EveryContextFreedOnce(hasDefault, trace, k);
      } else if k < allocations {
        RT.FreedMeansAnswered(hasDefault, trace, k);
      }
    }

    /** The network's turn: the completions at the head of the tape. */
    method PollNetwork(tape: seq<Act>) returns (tape': seq<Act>)
      requires Valid()
      modifies this, http
      ensures Valid() && SameControl(old(sys), sys) && Own(trace) == Own(old(trace))
      ensures RS.InTick(old(sys)) == RS.InTick(sys) && RS.InUserCode(old(sys)) == RS.InUserCode(sys)
      ensures Plays(old(trace), tape, trace, tape') && (tape' == [] || !tape'[0].Arrive?)
      ensures |tape'| <= |tape| && (|tape'| == |tape| ==> tape' == tape && sys == old(sys))
    {
      hide Plays, Own, RS.Exec, RS.Step;
      tape' := tape;
      PlaysNothing(trace, tape);
      while tape' != [] && tape'[0].Arrive?
        invariant Valid() && SameControl(old(sys), sys) && Own(trace) == Own(old(trace))
        invariant Plays(old(trace), tape, trace, tape')
        invariant |tape'| <= |tape| && (|tape'| == |tape| ==> tape' == tape && sys == old(sys))
        decreases |tape'|
      {
        ghost var soFar, tape1 := trace, tape';
        TakeArrival(tape'[0].id, tape'[0].outcome);
        tape' := tape'[1..];
        assert tape1 == [tape1[0]] + tape';
        PlaysItem(soFar, tape1[0], tape', Last(trace));
        PlaysOn(old(trace), tape, soFar, tape1, trace, tape');
      }
      SameControlSameTurn(old(sys), sys);
    }

    /** One completion; the network has none for a request that never reached it. */
    method TakeArrival(id: nat, outcome: T.Outcome)
      requires Valid()
      modifies this, http
      ensures Valid() && SameControl(old(sys), sys) && sys == RS.Step(old(sys), RS.Arrive(id, outcome))
      ensures trace == old(trace) + [RS.Arrive(id, outcome)] && Own(trace) == Own(old(trace))
    {
      hide RS.Exec, RS.Step, Own;
      if id in http.continuations {
        ArriveStep(sys, id, outcome);
        http.Continue(id, outcome, sys.transport);
      } else {
        StrayStep(sys, id, outcome);
      }
      Record(RS.Arrive(id, outcome));
    }

    method CreateReqContext(ptr: Ptr, spec: RequestSpec) returns (c: Closure)
      requires Valid() && RS.InUserCode(sys) && ptr !in heap
      modifies this
      ensures Valid() && sys == RS.Step(old(sys), RS.NewContext(ptr, spec))
      ensures trace == old(trace) + [RS.NewContext(ptr, spec)]
      ensures Own(trace) == Own(old(trace)) + [RS.NewContext(ptr, spec)]
      ensures c.ptr == ptr && sys.building == Some(c) && sys.stack == old(sys.stack)
      ensures sys.clientAlive && T.Idle(sys.transport) && sys.transport == old(sys.transport)
    {
      hide RS.Step, RS.Exec, Own;
      NewContextStep(sys, ptr, spec);
      c := Closure(ptr, allocations);
      heap := heap[ptr := Block(allocations, spec)];
      reqContexts := reqContexts + {ptr};
      allocations := allocations + 1;
      registry := Allocate(registry, ptr, spec);
      Record(RS.NewContext(ptr, spec));
    }

    /** One API method: create the context, then send, unless an exception gets in between. */
    method ApiCall(proposed: Ptr, spec: RequestSpec, fate: Fate, tape: seq<Act>) returns (ptr: Ptr, tape': seq<Act>)
      requires Valid() && RS.InUserCode(sys)
      modifies this, http
      ensures Valid() && RS.InUserCode(sys) && sys.stack == old(sys.stack) && ptr !in old(heap)
      ensures fate.ThrowsBeforeSend? ==>
                Own(trace) == Own(old(trace)) + [RS.NewContext(ptr, spec), RS.ThrowBeforeSend]
      ensures !fate.ThrowsBeforeSend? ==>
                Own(trace) == Own(old(trace)) + [RS.NewContext(ptr, spec), RS.Send, RS.Attach]
                              + [if old(http.client).None? && old(http.baseUri) == "" then RS.Refuse
                                 else if fate.Sent? then RS.Launch else RS.Abandon(fate.clientMade)]
      ensures |tape'| <= |tape| && Plays(old(trace), [Call(proposed, spec, fate)] + tape, trace, tape')
    {
      hide RS.Step, RS.Exec, Plays, Own;
      ptr := Unused(proposed, heap.Keys);
      var c := CreateReqContext(ptr, spec);
      if fate.ThrowsBeforeSend? {
        ThrowStep(sys);
        Record(RS.ThrowBeforeSend);
        PlaysThrowing(old(trace), proposed, ptr, spec, tape);
        tape' := tape;
      } else {
        ghost var made := trace;
        PlaysItem(old(trace), Call(proposed, spec, fate), tape, RS.NewContext(ptr, spec));
        tape' := http.Request(this, Some(c), fate, tape);
        PlaysOn(old(trace), [Call(proposed, spec, fate)] + tape, made, tape, trace, tape');
      }
    }

    /** The branches of onResponse and reqError: which user function this answer runs. */
    method ChooseCallback(spec: RequestSpec, response: Response) returns (chosen: Invocation)
      ensures AnsweredBy(spec, hasDefault, response, chosen)
      ensures chosen == Invoke(spec, hasDefault, RestVerdict(response))
    {
      VerdictAnswers(spec, hasDefault, response, Invoke(spec, hasDefault, RestVerdict(response)));
      chosen := Nothing;
      if response.statusCode == HTTP_OK {
        if spec.hasSuccess {
          var ok := true;
          if spec.hasData {
            ok := response.decodes;
            if !ok {
              chosen := ReqError(spec, hasDefault, InternalError);
            }
          }
          if ok {
            chosen := SuccessCallback;
          }
        }
      } else {
        var code := Unknown;
        if response.statusCode == CONNECTION_ERROR {
          code := ConnectionError;
        } else if response.statusCode == CANCELLED_BY_USER {
          code := CancelledByUser;
        } else if response.body.BadJson? {
          code := InternalError;
        } else if response.body.Json? && response.body.code.Some? {
          code := CodeOf(response.body.code.value);
        }
        chosen := ReqError(spec, hasDefault, code);
      }
    }

    /** onResponse for a cancelled request: its handler leaves the transport alone. */
    method ResolveCancelled(c: Closure)
      requires RegistryMatches(registry)
      modifies this`reqContexts, this`heap, this`registry, this`calls
      ensures RegistryMatches(registry)
      ensures (registry, calls) == RS.CancelOne(old(registry), old(calls), hasDefault, c)
    {
      if c.ptr in reqContexts {
        var chosen := ChooseCallback(heap[c.ptr].spec, CANCELLED_BY_CALLER);
        calls := calls + [Handled(heap[c.ptr].serial, chosen)];
        heap := heap - {c.ptr};
        reqContexts := reqContexts - {c.ptr};
        registry := Release(registry, c.ptr);
      } else {
        calls := calls + [UnknownContext];
      }
    }

    /** `delete reqContext; _reqContexts.erase(it);` once the handler of c is back. */
    method Discard(c: Closure)
      requires Valid() && RS.InUserCode(sys) && sys.stack != [] && Last(sys.stack) == Handling(c)
      modifies this
      ensures Valid() && sys == RS.Step(old(sys), RS.HandlerReturn) && trace == old(trace) + [RS.HandlerReturn]
      ensures sys.stack == ButLast(old(sys.stack)) && reqContexts == old(reqContexts) - {c.ptr}
      ensures sys.stack != [] && Last(sys.stack).Ticking? ==> RS.InTick(sys)
    {
      hide RS.Step, RS.Exec, RR.Inv, TR.Inv, T.Idle, RS.InTick, RS.InUserCode;
      Reachable();
      RunningIsAlive(sys, c);
      ReturnStep(sys, c);
      heap := heap - {c.ptr};
      reqContexts := reqContexts - {c.ptr};
      registry := Release(registry, c.ptr);
      Record(RS.HandlerReturn);
    }

    /** onResponse for an answer a tick delivers. */
    method OnResponse(c: Closure, response: Response, tape: seq<Act>) returns (tape': seq<Act>)
      requires ClientMatches() && RS.InTick(sys) && sys.transport.finished != []
      requires http.Matches(T.DoPop(sys.transport))
      requires sys.transport.finished[0].callback == Some(c) && sys.transport.finished[0].response == Some(response)
      modifies this, http
      ensures Valid() && RS.InTick(sys) && sys.stack == old(sys.stack)
      ensures Plays(old(trace), tape, trace, tape')
      ensures |tape'| < |tape| || (tape' == tape && http.finishedRequests == old(http.finishedRequests))
      decreases |tape|, 1
    {
      hide RS.Step, RS.Exec, RR.Inv, TR.Inv, Invoke, RestVerdict, T.Idle, RS.InTick, RS.InUserCode, T.DoPop, Own,
           Plays, PlaysToReturn;
      TickTurn(sys);
      DeliverStep(sys, c, response);
      PlaysSilently(trace, tape, RS.TickPop);
      if c.ptr in reqContexts {
        var chosen := ChooseCallback(heap[c.ptr].spec, response);
        calls := calls + [Handled(heap[c.ptr].serial, chosen)];
        Record(RS.TickPop);
        ghost var popped := trace;
        tape' := RunUserCode(tape);
        ghost var ran := trace;
        Discard(c);
        PlaysReturn(popped, tape, ran, tape');
        PlaysOn(old(trace), tape, popped, tape, trace, tape');
      } else {
        calls := calls + [UnknownContext];
        Record(RS.TickPop);
        tape' := tape;
      }
    }

    method DisconnectAll()
      requires Valid() && RS.InUserCode(sys)
      modifies this, http
      ensures Valid() && sys == RS.Step(old(sys), RS.Disconnect) && trace == old(trace) + [RS.Disconnect]
    {
      http.CancelAllRequests(this);
    }

    /** User code with the thread, at top level or inside a handler, until the tape says it returns. */
    method RunUserCode(tape: seq<Act>) returns (tape': seq<Act>)
      requires Valid() && RS.InUserCode(sys)
      modifies this, http
      ensures Valid() && RS.InUserCode(sys) && sys.stack == old(sys.stack)
      ensures PlaysToReturn(old(trace), tape, trace, tape') || (tape' == [] && Plays(old(trace), tape, trace, tape'))
      ensures |tape'| < |tape| || (tape == tape' == [] && http.finishedRequests == old(http.finishedRequests))
      decreases |tape|, 0
    {
      hide RS.Step, RS.Exec, Plays, PlaysToReturn;
      tape' := tape;
      PlaysNothing(trace, tape);
      while tape' != []
        invariant Valid() && RS.InUserCode(sys) && sys.stack == old(sys.stack)
        invariant Plays(old(trace), tape, trace, tape')
        invariant |tape'| < |tape| || (tape' == tape && http.finishedRequests == old(http.finishedRequests))
        decreases |tape'|
      {
        ghost var soFar, tape1 := trace, tape';
        var act := tape'[0];
        tape' := tape'[1..];
        assert tape1 == [act] + tape';
        if act.Return? {
          StopsAtReturn(old(trace), tape, trace, tape');
          return;
        }
        tape' := Perform(act, tape');
        PlaysOn(old(trace), tape, soFar, tape1, trace, tape');
      }
    }

    /** One action of user code, or one completion while user code has the thread. */
    method Perform(act: Act, tape: seq<Act>) returns (tape': seq<Act>)
      requires Valid() && RS.InUserCode(sys) && !act.Return?
      modifies this, http
      ensures Valid() && RS.InUserCode(sys) && sys.stack == old(sys.stack)
      ensures |tape'| <= |tape| && Plays(old(trace), [act] + tape, trace, tape')
      ensures act.Arrive? ==> trace == old(trace) + [RS.Arrive(act.id, act.outcome)] && tape' == tape
      ensures act.Disconnect? ==> trace == old(trace) + [RS.Disconnect] && tape' == tape
      ensures act.SetBaseUri? ==> trace == old(trace) + [RS.SetBaseUri(act.uri)] && tape' == tape
      ensures act.TickAgain? ==> old(trace) + [RS.TickEnter] <= trace && http.finishedRequests == []
      ensures act.Call? ==> exists ptr :: Own(old(trace)) + [RS.NewContext(ptr, act.spec)] <= Own(trace)
      decreases |tape|, 4
    {
      hide RS.Step, RS.Exec, RS.InUserCode, Plays, Own, T.DoSetBaseUri;
      tape' := tape;
      match act {
        case Arrive(id, outcome) =>
          TakeArrival(id, outcome);
          SameControlSameTurn(old(sys), sys);
          PlaysItem(old(trace), act, tape, RS.Arrive(id, outcome));
        case TickAgain => tape' := http.Tick(this, tape');
        case Disconnect =>
          DisconnectStep(sys);
          DisconnectAll();
          PlaysItem(old(trace), act, tape, RS.Disconnect);
        case SetBaseUri(uri) =>
          SetBaseUriStep(sys, uri);
          http.SetUri(uri, sys.transport);
          Record(RS.SetBaseUri(uri));
          PlaysItem(old(trace), act, tape, RS.SetBaseUri(uri));
        case Call(proposed, spec, fate) =>
          var ptr;
          ptr, tape' := ApiCall(proposed, spec, fate, tape');
      }
    }

    /** ~RestClient. */
    method Destroy()
      requires Valid() && RS.InUserCode(sys) && sys.stack == []
      modifies this, http
      ensures Valid() && !alive && heap == map[] && reqContexts == {}
      ensures sys == RS.Step(RS.Step(old(sys), RS.Disconnect), RS.DestroyClient)
      ensures trace == old(trace) + [RS.Disconnect] + [RS.DestroyClient]
    {
      hide RS.Step, RS.Exec, Own;
      DisconnectStep(sys);
      DisconnectAll();
      DestroyStep(sys);
      ghost var whole := ReleaseAll(registry);
      var todo := reqContexts;
      while todo != {}
        invariant todo == registry.contexts == heap.Keys && heap == registry.live
        invariant ReleaseAll(registry) == whole
        invariant registry.home == sys.registry.home
        modifies `heap, `registry
        decreases todo
      {
        var p := First(todo);
        heap := heap - {p};
        todo := todo - {p};
        registry := Release(registry, p);
      }
      reqContexts := {};
      alive := false;
      Record(RS.DestroyClient);
    }
  }
}
