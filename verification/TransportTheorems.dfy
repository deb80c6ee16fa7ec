/** The promises of the HTTP transport, for every run from a new transport. */
module TransportTheorems {
  import opened Basics
  import opened Responses
  import opened Transport
  import opened TransportRuns

  /** How often the callback of request `id` has run. */
  ghost function Runs<C>(resolved: seq<Resolution<C>>, id: nat): nat {
    if resolved == [] then 0
    else Runs(ButLast(resolved), id) + if Last(resolved).id == id && Last(resolved).callback.Some? then 1 else 0
  }

  /** Every id ever issued is in exactly one place; no other number is anywhere. */
  lemma EachRequestHasOnePlace<C>(ops: seq<Op<C>>, id: nat)
    ensures var t := Exec(Init<C>(), ops);
            Whereabouts(t)[id] == if 1 <= id < t.nextReqId then 1 else 0
  {
    ReachableInv(ops);
    UpToCount(Exec(Init<C>(), ops).nextReqId, id);
  }

  lemma {:induction false} RunsCount<C>(issued: seq<Option<C>>, built: nat, resolved: seq<Resolution<C>>, id: nat)
    requires forall r | r in resolved :: ResolvedOk(issued, built, r)
    ensures Runs(resolved, id) ==
            if 1 <= id <= |issued| && issued[id - 1].Some? then multiset(ResolvedIds(resolved))[id] else 0
    decreases |resolved|
  {
    if resolved != [] {
      RunsCount(issued, built, ButLast(resolved), id);
      assert resolved == ButLast(resolved) + [Last(resolved)];
      ResolvedAppend(ButLast(resolved), Last(resolved));
      assert ResolvedOk(issued, built, Last(resolved));
    }
  }

  /** Whatever happens, a request's callback runs at most once, and only if it was given one. */
  lemma CallbackRunsAtMostOnce<C>(ops: seq<Op<C>>, id: nat)
    ensures var t := Exec(Init<C>(), ops);
            && Runs(t.resolved, id) <= 1
            && (Runs(t.resolved, id) == 1 ==> 1 <= id <= |t.issued| && t.issued[id - 1].Some?)
  {
    var t := Exec(Init<C>(), ops);
    ReachableInv(ops);
    EachRequestHasOnePlace(ops, id);
    RunsCount(t.issued, Built(t), t.resolved, id);
  }

  /** Once both lists are empty every request given a callback has had it run exactly once. */
  lemma DrainedMeansExactlyOnce<C>(ops: seq<Op<C>>, id: nat)
    requires var t := Exec(Init<C>(), ops); t.pending == [] && t.finished == [] && 1 <= id <= |t.issued|
    ensures var t := Exec(Init<C>(), ops);
            Runs(t.resolved, id) == if t.issued[id - 1].Some? then 1 else 0
  {
    var t := Exec(Init<C>(), ops);
    ReachableInv(ops);
    EachRequestHasOnePlace(ops, id);
    RunsCount(t.issued, Built(t), t.resolved, id);
    assert Ids(t.pending) == [] && Ids(t.finished) == [];
  }

  /** n calls of popFinishedReq in a row: a tick whose callbacks do nothing to the transport. */
  function Pops<C>(n: nat): (ops: seq<Op<C>>)
    ensures |ops| == n
  {
    seq(n, _ => Pop)
  }

  lemma {:induction false} PopsDrain<C>(t: Transport<C>, n: nat)
    requires Idle(t) && n <= |t.finished|
    ensures var u := Exec(t, Pops(n));
            Idle(u) && u.pending == t.pending && u.finished == t.finished[n..] && u.issued == t.issued
            && u.nextReqId == t.nextReqId
    decreases n
  {
    if n > 0 {
      PopsDrain(t, n - 1);
      assert ButLast(Pops<C>(n)) == Pops<C>(n - 1);
      var u := Exec(t, Pops(n - 1));
      assert u.finished[1..] == t.finished[n..];
    }
  }

  /** From any state in which the user may call the transport, a cancel and a tick finish every request there is:
      each callback ever given has then run exactly once. */
  lemma CancelThenTickRunsEverything<C>(ops: seq<Op<C>>, id: nat)
    requires Idle(Exec(Init<C>(), ops)) && 1 <= id <= |Exec(Init<C>(), ops).issued|
    ensures var t := Exec(Init<C>(), ops);
            var u := Exec(Init<C>(), ops + [CancelAll] + Pops(|t.finished|));
            && u.pending == [] && u.finished == []
            && Runs(u.resolved, id) == if t.issued[id - 1].Some? then 1 else 0
  {
    var t := Exec(Init<C>(), ops);
    var n := |t.finished|;
    ExecConcat(Init<C>(), ops + [CancelAll], Pops(n));
    ExecConcat(Init<C>(), ops, [CancelAll]);
    OneStep(t, CancelAll);
    var c := Step(t, CancelAll);
    PopsDrain(c, n);
    DrainedMeansExactlyOnce(ops + [CancelAll] + Pops(n), id);
  }

  /** Every callback that runs gets a response, and it is the callback its request was given. */
  lemma NoCallbackGetsANullResponse<C>(ops: seq<Op<C>>, i: nat)
    requires i < |Exec(Init<C>(), ops).resolved|
    ensures var t := Exec(Init<C>(), ops);
            var r := t.resolved[i];
            && 1 <= r.id <= |t.issued|
            && r.callback == t.issued[r.id - 1]
            && (r.callback.Some? ==> r.response.Some? && !r.manner.Removed?)
            && (r.callback.Some? && r.manner.Cancelled? ==> r.response == Some(CANCELLED_BY_CALLER))
  {
    var t := Exec(Init<C>(), ops);
    ReachableInv(ops);
    assert ResolvedOk(t.issued, Built(t), t.resolved[i]);
  }

  /** A tick hands out answers in the order the network brought them in. */
  lemma TicksFollowCompletionOrder<C>(ops: seq<Op<C>>)
    ensures var t := Exec(Init<C>(), ops);
            TickedIds(t.resolved) <= t.completed && TickedIds(t.resolved) + Ids(t.finished) == t.completed
  {
    ReachableInv(ops);
  }

  /** The raw pointer that `request` keeps across the unlocked gap is never dead. */
  lemma RequestNeverWritesThroughADeadPointer<C>(ops: seq<Op<C>>)
    ensures !Exec(Init<C>(), ops).dangling
  {
    ReachableInv(ops);
  }

  // ---- the linear searches refine removal from a map keyed by id ----------------------------------------------

  function Keyed<C>(s: seq<ReqContext<C>>): map<nat, ReqContext<C>> {
    if s == [] then map[] else Keyed(ButLast(s))[Last(s).id := Last(s)]
  }

  lemma {:induction false} KeyedLookup<C>(s: seq<ReqContext<C>>, id: nat)
    requires Increasing(s)
    ensures var k := IndexOf(s, id);
            if k == |s| then id !in Keyed(s) else id in Keyed(s) && Keyed(s)[id] == s[k]
    decreases |s|
  {
    if s != [] {
      var b, e := ButLast(s), Last(s);
      assert forall i | 0 <= i < |b| :: b[i] == s[i] && b[i].id < e.id;
      KeyedLookup(b, id);
      FirstIs(s, id, if IndexOf(b, id) < |b| || e.id == id then IndexOf(b, id) else |s|);
    }
  }

  lemma UpdateThenRemove<K, V>(m: map<K, V>, a: K, v: V, b: K)
    ensures a != b ==> m[a := v] - {b} == (m - {b})[a := v]
    ensures a == b && a !in m ==> m[a := v] - {b} == m
  {
  }

  lemma IncreasingFront<C>(s: seq<ReqContext<C>>)
    requires Increasing(s) && s != []
    ensures Increasing(ButLast(s)) && forall i | 0 <= i < |s| - 1 :: s[i].id < Last(s).id
  {
    assert forall i | 0 <= i < |s| - 1 :: ButLast(s)[i] == s[i];
  }

  lemma KeyedAppend<C>(s: seq<ReqContext<C>>, e: ReqContext<C>)
    ensures Keyed(s + [e]) == Keyed(s)[e.id := e]
  {
    assert ButLast(s + [e]) == s;
  }

  lemma LastIsNew<C>(s: seq<ReqContext<C>>)
    requires Increasing(s) && s != []
    ensures Last(s).id !in Keyed(ButLast(s))
  {
    IncreasingFront(s);
    KeyedLookup(ButLast(s), Last(s).id);
  }

  lemma {:induction false} KeyedRemoveAt<C>(s: seq<ReqContext<C>>, k: nat)
    requires Increasing(s) && k < |s|
    ensures Keyed(RemoveAt(s, k)) == Keyed(s) - {s[k].id}
    decreases |s|
  {
    var b, e := ButLast(s), Last(s);
    assert s == b + [e];
    IncreasingFront(s);
    KeyedAppend(b, e);
    UpdateThenRemove(Keyed(b), e.id, e, s[k].id);
    hide Keyed, Increasing;
    if k == |s| - 1 {
      assert RemoveAt(s, k) == b;
      LastIsNew(s);
    } else {
      RemoveAtFront(s, k);
      hide RemoveAt;
      KeyedRemoveAt(b, k);
      KeyedAppend(RemoveAt(b, k), e);
    }
  }

  /** finishReq and removePendingReq take exactly the entry with their id out of the pending map; finishReq moves
      it, with its response, behind everything already finished. Nothing else changes. */
  lemma SearchesRefineMapRemoval<C>(ops: seq<Op<C>>, id: nat, response: Response)
    ensures var t := Exec(Init<C>(), ops);
            var f := Finish(t, id, response);
            var r := Remove(t, id);
            && Keyed(f.pending) == Keyed(r.pending) == Keyed(t.pending) - {id}
            && f.finished == t.finished + (if id in Keyed(t.pending)
                                           then [Keyed(t.pending)[id].(response := Some(response))] else [])
            && r.finished == t.finished
  {
    var t := Exec(Init<C>(), ops);
    ReachableInv(ops);
    KeyedLookup(t.pending, id);
    var k := IndexOf(t.pending, id);
    if k < |t.pending| {
      KeyedRemoveAt(t.pending, k);
    } else {
      assert Keyed(t.pending) - {id} == Keyed(t.pending);
    }
  }

  /** A completion takes its request out of the pending map, whatever it brings. The request joins the finished list,
      behind all that are there, if it was given a callback or the exchange failed; without a callback an answer just
      removes it. */
  lemma ACompletionSettlesItsRequest<C>(ops: seq<Op<C>>, id: nat, outcome: Outcome)
    requires Exec(Init<C>(), ops).alive && id in Exec(Init<C>(), ops).launched
    ensures var t := Exec(Init<C>(), ops);
            var u := Step(t, Arrive(id, outcome));
            && 1 <= id <= |t.issued|
            && Keyed(u.pending) == Keyed(t.pending) - {id}
            && Ids(u.finished) == Ids(t.finished) +
               (if id in Keyed(t.pending) && (t.issued[id - 1].Some? || outcome.Threw?) then [id] else [])
            && t.finished <= u.finished
  {
    var t := Exec(Init<C>(), ops);
    ReachableInv(ops);
    SearchesRefineMapRemoval(ops, id, if outcome.Threw? then CONNECTION_LOST else outcome.response);
    KeyedLookup(t.pending, id);
    hide Keyed, Exec, Whereabouts, AllOk, IndexOf, UpTo, TickedIds;
  }

  // ---- what late and repeated completions can do --------------------------------------------------------------

  lemma StepResolvedGrows<C>(t: Transport<C>, op: Op<C>)
    ensures t.resolved <= Step(t, op).resolved
  {
    hide IndexOf, CancelResolutions, Ids;
  }

  lemma {:induction false} ResolvedGrows<C>(t: Transport<C>, ops: seq<Op<C>>)
    ensures t.resolved <= Exec(t, ops).resolved
    decreases |ops|
  {
    hide Step;
    if ops != [] {
      ResolvedGrows(t, ButLast(ops));
      StepResolvedGrows(Exec(t, ButLast(ops)), Last(ops));
    }
  }

  /** A request that has left the lists never comes back: after any further run a completion for it does nothing. */
  lemma ResolvedIdsAreInert<C>(ops: seq<Op<C>>, later: seq<Op<C>>, id: nat, outcome: Outcome)
    requires id in ResolvedIds(Exec(Init<C>(), ops).resolved)
    ensures var u := Exec(Init<C>(), ops + later);
            Step(u, Arrive(id, outcome)) == u
  {
    var t := Exec(Init<C>(), ops);
    var u := Exec(Init<C>(), ops + later);
    ExecConcat(Init<C>(), ops, later);
    ResolvedGrows(t, later);
    var i :| 0 <= i < |t.resolved| && ResolvedIds(t.resolved)[i] == id;
    assert ResolvedIds(u.resolved)[i] == id;
    assert id in multiset(ResolvedIds(u.resolved));
    EachRequestHasOnePlace(ops + later, id);
    AbsentId(u.pending, id);
  }

  lemma AbsentId<C>(s: seq<ReqContext<C>>, id: nat)
    requires multiset(Ids(s))[id] == 0
    ensures IndexOf(s, id) == |s|
  {
    forall i | 0 <= i < |s|
      ensures s[i].id != id
    {
      assert Ids(s)[i] in multiset(Ids(s));
    }
  }

  /** Once the destructor has cleared `alive` nothing changes any more, whatever completions still arrive. */
  lemma {:induction false} DeadTransportIsInert<C>(t: Transport<C>, later: seq<Op<C>>)
    requires Idle(t)
    ensures Exec(Step(t, Destroy), later) == Step(t, Destroy)
    decreases |later|
  {
    if later != [] {
      DeadTransportIsInert(t, ButLast(later));
    }
  }

  // ---- the answer that came in is the one delivered -----------------------------------------------------------

  /** The answer waits in the finished list, or a tick has run the callback on it. */
  ghost predicate Settled<C>(t: Transport<C>, id: nat, callback: Option<C>, answer: Response) {
    || ReqContext(id, callback, Some(answer)) in t.finished
    || Resolution(id, callback, Some(answer), Ticked) in t.resolved
  }

  lemma StepKeepsSettled<C>(t: Transport<C>, op: Op<C>, id: nat, callback: Option<C>, answer: Response)
    requires Settled(t, id, callback, answer)
    ensures Settled(Step(t, op), id, callback, answer)
  {
    hide IndexOf, CancelResolutions;
    var e, r := ReqContext(id, callback, Some(answer)), Resolution(id, callback, Some(answer), Ticked);
    var u := Step(t, op);
    StepResolvedGrows(t, op);
    if r in t.resolved {
      var i :| 0 <= i < |t.resolved| && t.resolved[i] == r;
      assert u.resolved[i] == r;
    } else if op.Pop? && Enabled(t, op) {
      if e == t.finished[0] {
        assert Last(u.resolved) == r;
      } else {
        assert t.finished == [t.finished[0]] + u.finished;
      }
    } else {
      assert t.finished <= u.finished;
      var i :| 0 <= i < |t.finished| && t.finished[i] == e;
      assert u.finished[i] == e;
    }
  }

  lemma {:induction false} RunKeepsSettled<C>(t: Transport<C>, ops: seq<Op<C>>, id: nat, callback: Option<C>,
                                              answer: Response)
    requires Settled(t, id, callback, answer)
    ensures Settled(Exec(t, ops), id, callback, answer)
    decreases |ops|
  {
    hide Step, Settled;
    if ops != [] {
      RunKeepsSettled(t, ButLast(ops), id, callback, answer);
      StepKeepsSettled(Exec(t, ButLast(ops)), Last(ops), id, callback, answer);
    }
  }

  lemma FinishedIsListed<C>(finished: seq<ReqContext<C>>, e: ReqContext<C>)
    requires e in finished
    ensures multiset(Ids(finished))[e.id] >= 1
  {
    var j :| 0 <= j < |finished| && finished[j] == e;
    assert Ids(finished)[j] == e.id;
    assert e.id in multiset(Ids(finished));
  }

  /** On a run, however an id left the lists, it left once; so what is settled is what was delivered. */
  lemma SettledIsDelivered<C>(ops: seq<Op<C>>, id: nat, callback: Option<C>, answer: Response, i: nat)
    requires Settled(Exec(Init<C>(), ops), id, callback, answer)
    requires i < |Exec(Init<C>(), ops).resolved| && Exec(Init<C>(), ops).resolved[i].id == id
    ensures Exec(Init<C>(), ops).resolved[i] == Resolution(id, callback, Some(answer), Ticked)
  {
    var t := Exec(Init<C>(), ops);
    EachRequestHasOnePlace(ops, id);
    hide Exec;
    var ids := ResolvedIds(t.resolved);
    assert ids[i] == id && id in multiset(ids);
    var e := ReqContext(id, callback, Some(answer));
    if e in t.finished {
      FinishedIsListed(t.finished, e);
    } else {
      var j :| 0 <= j < |t.resolved| && t.resolved[j] == Resolution(id, callback, Some(answer), Ticked);
      assert ids[j] == id;
      if i < j {
        CountedTwice(ids, i, j);
      } else if j < i {
        CountedTwice(ids, j, i);
      }
    }
  }

  /** What the network brings in for a pending request, its answer or the news that there is none, is what its
      callback gets, however the run goes on: the answer itself, or status 600. */
  lemma TheAnswerThatCameInIsDelivered<C>(ops: seq<Op<C>>, id: nat, outcome: Outcome, later: seq<Op<C>>, i: nat)
    requires var t := Exec(Init<C>(), ops);
             t.alive && IndexOf(t.pending, id) < |t.pending| && id in t.launched && t.launched[id]
    requires var u := Exec(Init<C>(), ops + [Arrive(id, outcome)] + later);
             i < |u.resolved| && u.resolved[i].id == id
    ensures var t := Exec(Init<C>(), ops);
            var r := Exec(Init<C>(), ops + [Arrive(id, outcome)] + later).resolved[i];
            && r.manner == Ticked && r.response.Some?
            && r.callback == t.pending[IndexOf(t.pending, id)].callback
            && (outcome.Responded? ==> r.response.value == outcome.response)
            && (outcome.Threw? ==> r.response.value.statusCode == 600)
  {
    var t := Exec(Init<C>(), ops);
    var m := Step(t, Arrive(id, outcome));
    var callback := t.pending[IndexOf(t.pending, id)].callback;
    var answer := Last(m.finished).response.value;
    assert Last(m.finished) == ReqContext(id, callback, Some(answer));
    ExecConcat(Init<C>(), ops, [Arrive(id, outcome)]);
    OneStep(t, Arrive(id, outcome));
    ExecConcat(Init<C>(), ops + [Arrive(id, outcome)], later);
    hide Exec, Step;
    RunKeepsSettled(m, later, id, callback, answer);
    SettledIsDelivered(ops + [Arrive(id, outcome)] + later, id, callback, answer, i);
  }

  /** A request refused for want of a base URI gets status 601, with no body to read an error from. */
  lemma TheRefusalIsDelivered<C>(ops: seq<Op<C>>, later: seq<Op<C>>, i: nat)
    requires Attached(Exec(Init<C>(), ops)) && Exec(Init<C>(), ops).baseUri == ""
    requires var u := Exec(Init<C>(), ops + [Refuse] + later);
             i < |u.resolved| && u.resolved[i].id == Exec(Init<C>(), ops).starting.value.id
    ensures var r := Exec(Init<C>(), ops + [Refuse] + later).resolved[i];
            && r.manner == Ticked && r.callback == Exec(Init<C>(), ops).starting.value.callback
            && r.response.Some? && r.response.value.statusCode == 601 && r.response.value.body == NotJson
  {
    var t := Exec(Init<C>(), ops);
    ReachableInv(ops);
    ClientHasTheBaseUri(ops);
    FindsStarted(t);
    assert PendingOk(t.issued, Built(t), Last(t.pending));
    var m := Step(t, Refuse);
    var id, callback := t.starting.value.id, t.starting.value.callback;
    var answer := Last(m.finished).response.value;
    assert Last(m.finished) == ReqContext(id, callback, Some(answer));
    ExecConcat(Init<C>(), ops, [Refuse]);
    OneStep(t, Refuse);
    ExecConcat(Init<C>(), ops + [Refuse], later);
    hide Exec, Step, Inv;
    RunKeepsSettled(m, later, id, callback, answer);
    SettledIsDelivered(ops + [Refuse] + later, id, callback, answer, i);
  }

  // ---- the client ---------------------------------------------------------------------------------------------

  /** When there is an HTTP client and for which URI: a request that gets that far makes one and keeps one there is, a
      change of the base URI, a cancel and the destructor drop it, and nothing else touches it. */
  lemma ClientFollows<C>(ops: seq<Op<C>>, op: Op<C>)
    requires Enabled(Exec(Init<C>(), ops), op)
    ensures var t := Exec(Init<C>(), ops);
            var u := Step(t, op);
            match op
            case Launch => u.client == Some(t.baseUri) && u.baseUri == t.baseUri
            case Abandon(made) => u.client == (if made then Some(t.baseUri) else t.client) && u.baseUri == t.baseUri
            case SetBaseUri(uri) => u.client == (if uri == t.baseUri then t.client else None) && u.baseUri == uri
            case CancelAll => u.client == None && u.baseUri == t.baseUri
            case Destroy => u.client == None
            case _ => u.client == t.client && u.baseUri == t.baseUri
  {
    ClientHasTheBaseUri(ops);
    hide Exec, IndexOf, CancelResolutions;
  }

  // ---- what one tick delivers ---------------------------------------------------------------------------------

  predicate Quiet<C>(op: Op<C>) {
    !op.Arrive? && (op.SetBaseUri? ==> op.uri != "")
  }

  /** From t to u the finished list lost a prefix, and the callbacks of just that prefix ran, in its order. */
  ghost predicate Drained<C>(t: Transport<C>, u: Transport<C>) {
    && |u.finished| <= |t.finished|
    && u.finished == t.finished[|t.finished| - |u.finished|..]
    && TickedIds(u.resolved) == TickedIds(t.resolved) + Ids(t.finished[..|t.finished| - |u.finished|])
  }

  /** With a base URI set and no completion coming in, the callbacks of a tick may do anything they like (new
      requests, cancels, ticks of their own): the finished list only loses its head, one callback at a time. */
  lemma {:induction false} QuietRunsOnlyDrain<C>(t: Transport<C>, ops: seq<Op<C>>)
    requires t.baseUri != "" && forall op | op in ops :: Quiet(op)
    ensures Exec(t, ops).baseUri != "" && Drained(t, Exec(t, ops))
    decreases |ops|
  {
    hide Step, Drained;
    if ops == [] {
      NothingDrained(t);
    } else {
      QuietRunsOnlyDrain(t, ButLast(ops));
      assert Quiet(Last(ops));
      QuietStepDrains(t, Exec(t, ButLast(ops)), Last(ops));
    }
  }

  lemma NothingDrained<C>(t: Transport<C>)
    ensures Drained(t, t)
  {
    assert Ids(t.finished[..0]) == [];
  }

  /** A step that delivers nothing. */
  lemma DrainsNothing<C>(t: Transport<C>, m: Transport<C>, u: Transport<C>)
    requires Drained(t, m) && u.finished == m.finished && TickedIds(u.resolved) == TickedIds(m.resolved)
    ensures Drained(t, u)
  {
  }

  lemma PopDrains<C>(t: Transport<C>, m: Transport<C>)
    requires Drained(t, m) && m.finished != []
    ensures Drained(t, DoPop(m))
  {
    var e := m.finished[0];
    var k := |t.finished| - |m.finished|;
    ResolvedAppend(m.resolved, Resolution(e.id, e.callback, e.response, Ticked));
    assert t.finished[..k + 1] == t.finished[..k] + [e];
    IdsAppend(t.finished[..k], e);
    hide TickedIds, Ids;
  }

  lemma QuietStepDrains<C>(t: Transport<C>, m: Transport<C>, op: Op<C>)
    requires m.baseUri != "" && Quiet(op) && Drained(t, m)
    ensures Step(m, op).baseUri != "" && Drained(t, Step(m, op))
  {
    hide Drained, TickedIds, Ids, IndexOf, CancelResolutions;
    if op.Pop? && Enabled(m, op) {
      PopDrains(t, m);
    } else {
      CancelledNotTicked(m.resolved, m.pending);
      DrainsNothing(t, m, Step(m, op));
    }
  }

  /** So a tick that ends has run exactly what was finished when it began, in that order. */
  lemma TickDeliversWhatWasFinished<C>(t: Transport<C>, ops: seq<Op<C>>)
    requires t.baseUri != "" && forall op | op in ops :: Quiet(op)
    requires Exec(t, ops).finished == []
    ensures TickedIds(Exec(t, ops).resolved) == TickedIds(t.resolved) + Ids(t.finished)
  {
    QuietRunsOnlyDrain(t, ops);
    assert t.finished[..|t.finished| - 0] == t.finished;
  }

  // ---- and only with a base URI -------------------------------------------------------------------------------

  /** A client is only ever made for the base URI there is, so the guard of `request` comes down to the base URI. */
  lemma {:induction false} ClientHasTheBaseUri<C>(ops: seq<Op<C>>)
    ensures var t := Exec(Init<C>(), ops);
            && (t.client.Some? ==> t.baseUri != "" && t.client == Some(t.baseUri))
            && (Uninitialized(t) <==> t.baseUri == "")
    decreases |ops|
  {
    hide IndexOf, CancelResolutions;
    if ops != [] {
      ClientHasTheBaseUri(ButLast(ops));
    }
  }

  /** The only step of the user's thread that adds to the finished list is a request without a base URI. */
  lemma OnlyRefusalsFeedTheTick<C>(ops: seq<Op<C>>, op: Op<C>)
    requires !op.Arrive?
    ensures var t := Exec(Init<C>(), ops);
            |Step(t, op).finished| > |t.finished| <==> op.Refuse? && Attached(t) && t.baseUri == ""
  {
    var t := Exec(Init<C>(), ops);
    ReachableInv(ops);
    ClientHasTheBaseUri(ops);
    if op.Refuse? && Enabled(t, op) {
      FindsStarted(t);
    }
  }

  /** What user code does between completions without touching the base URI. */
  predicate UserOnly<C>(op: Op<C>) {
    !op.Arrive? && !op.SetBaseUri?
  }

  /** A request as far as it goes without a base URI. */
  function Refused<C>(callback: Option<C>): (ops: seq<Op<C>>)
    ensures |ops| == 3
  {
    [Create(callback), Attach, Refuse]
  }

  /** From wherever the user may call the transport: ticks deliver what is finished, in order, and nothing else,
      whatever user code does with sends, cancels and further ticks, exactly if there is a base URI. */
  lemma TicksOnlyDrainExactlyWithABaseUri<C>(before: seq<Op<C>>)
    requires Idle(Exec(Init<C>(), before))
    ensures var t := Exec(Init<C>(), before);
            (forall ops: seq<Op<C>> | (forall op | op in ops :: UserOnly(op)) :: Drained(t, Exec(t, ops)))
            <==> t.baseUri != ""
  {
    var t := Exec(Init<C>(), before);
    if t.baseUri != "" {
      forall ops: seq<Op<C>> | forall op | op in ops :: UserOnly(op)
        ensures Drained(t, Exec(t, ops))
      {
        assert forall op | op in ops :: Quiet(op);
        QuietRunsOnlyDrain(t, ops);
      }
    } else {
      var ops := Refused<C>(None);
      RefusedAtOnce(before, None);
      hide Exec, Drained;
      assert forall op | op in ops :: UserOnly(op);
      GrownIsNotDrained(t, Exec(t, ops));
    }
  }

  lemma GrownIsNotDrained<C>(t: Transport<C>, u: Transport<C>)
    requires |u.finished| > |t.finished|
    ensures !Drained(t, u)
  {
  }

  /** A request without a base URI finishes on the spot, behind everything finished before. */
  lemma RefusedAtOnce<C>(before: seq<Op<C>>, callback: Option<C>)
    requires Idle(Exec(Init<C>(), before)) && Exec(Init<C>(), before).baseUri == ""
    ensures var t := Exec(Init<C>(), before);
            var u := Exec(t, Refused(callback));
            && Idle(u) && u.baseUri == "" && u.pending == t.pending && u.resolved == t.resolved
            && u.finished == t.finished + [ReqContext(t.nextReqId, callback, Some(NOT_INITIALIZED))]
  {
    var t := Exec(Init<C>(), before);
    ReachableInv(before);
    ClientHasTheBaseUri(before);
    ThreeSteps(t, Create(callback), Attach, Refuse);
    forall i | 0 <= i < |t.pending|
      ensures t.pending[i].id != t.nextReqId
    {
      assert PendingOk(t.issued, Built(t), t.pending[i]);
    }
    hide Inv;
    LastOneRefused(t, callback);
  }

  lemma LastOneRefused<C>(t: Transport<C>, callback: Option<C>)
    requires Idle(t) && Uninitialized(t) && forall i | 0 <= i < |t.pending| :: t.pending[i].id != t.nextReqId
    ensures Step(Step(Step(t, Create(callback)), Attach), Refuse)
            == t.(nextReqId := t.nextReqId + 1, issued := t.issued + [callback],
                  completed := t.completed + [t.nextReqId],
                  finished := t.finished + [ReqContext(t.nextReqId, callback, Some(NOT_INITIALIZED))])
  {
    var n, id := |t.pending|, t.nextReqId;
    var a := Step(t, Create(callback));
    FirstIs(a.pending, id, n);
    var b := Step(a, Attach);
    assert b.pending == t.pending + [ReqContext(id, callback, None)];
    FirstIs(b.pending, id, n);
    assert RemoveAt(b.pending, n) == t.pending;
  }

  /** A callback that answers its response with another request. */
  function Retries<C>(callback: Option<C>, n: nat): seq<Op<C>> {
    if n == 0 then Refused(callback) else Retries(callback, n - 1) + ([Pop] + Refused(callback))
  }

  /** So without a base URI one tick need not end: from any state, callbacks that send again keep the finished list at
      its length after any number of turns of the loop, and user code alone does that. */
  lemma {:induction false} TickWithoutBaseUriNeedNotEnd<C>(before: seq<Op<C>>, callback: Option<C>, n: nat)
    requires Idle(Exec(Init<C>(), before)) && Exec(Init<C>(), before).baseUri == ""
    ensures forall op | op in Retries(callback, n) :: UserOnly(op)
    ensures var t := Exec(Init<C>(), before);
            var u := Exec(t, Retries(callback, n));
            && Idle(u) && u.baseUri == "" && u.pending == t.pending
            && |u.finished| == |t.finished| + 1 && |TickedIds(u.resolved)| == |TickedIds(t.resolved)| + n
  {
    var t := Exec(Init<C>(), before);
    if n == 0 {
      RefusedAtOnce(before, callback);
    } else {
      TickWithoutBaseUriNeedNotEnd(before, callback, n - 1);
      var soFar := Retries(callback, n - 1);
      ExecConcat(t, soFar, [Pop] + Refused(callback));
      ExecConcat(Init<C>(), before, soFar);
      hide Exec, TickedIds;
      AnotherTurn(before + soFar, callback);
    }
  }

  /** One turn of tick's loop whose callback sends again. */
  lemma AnotherTurn<C>(before: seq<Op<C>>, callback: Option<C>)
    requires var m := Exec(Init<C>(), before); Idle(m) && m.baseUri == "" && m.finished != []
    ensures var m := Exec(Init<C>(), before);
            var u := Exec(m, [Pop] + Refused(callback));
            && Idle(u) && u.baseUri == "" && u.pending == m.pending
            && |u.finished| == |m.finished| && |TickedIds(u.resolved)| == |TickedIds(m.resolved)| + 1
  {
    var m := Exec(Init<C>(), before);
    ExecConcat(m, [Pop], Refused(callback));
    ExecConcat(Init<C>(), before, [Pop]);
    OneStep(m, Pop);
    PoppedOne(m);
    hide Exec, TickedIds, Step, Refused;
    RefusedAtOnce(before + [Pop], callback);
  }

  lemma PoppedOne<C>(t: Transport<C>)
    requires Idle(t) && t.finished != []
    ensures var p := Step(t, Pop);
            && Idle(p) && p.baseUri == t.baseUri && p.pending == t.pending && |p.finished| == |t.finished| - 1
            && |TickedIds(p.resolved)| == |TickedIds(t.resolved)| + 1
  {
    var e := t.finished[0];
    ResolvedAppend(t.resolved, Resolution(e.id, e.callback, e.response, Ticked));
  }

  lemma OneStep<C>(t: Transport<C>, op: Op<C>)
    ensures Exec(t, [op]) == Step(t, op)
  {
    assert ButLast([op]) == [];
  }

  lemma ThreeSteps<C>(t: Transport<C>, a: Op<C>, b: Op<C>, c: Op<C>)
    ensures Exec(t, [a, b, c]) == Step(Step(Step(t, a), b), c)
  {
    assert ButLast([a, b, c]) == [a, b] && ButLast([a, b]) == [a] && ButLast([a]) == [];
    assert Exec(t, [a]) == Step(t, a);
    assert Exec(t, [a, b]) == Step(Exec(t, [a]), b);
  }
}
