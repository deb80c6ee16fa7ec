/** RestClient and GrpcClient refine one abstract request registry, and so run the same handlers. */
module Refinement {
  import opened Basics
  import opened Responses
  import opened Registry
  import opened Clients
  import opened Holders
  import T = Transport
  import TR = TransportRuns
  import TT = TransportTheorems
  import RS = RestSystem
  import RR = RestRuns
  import RT = RestTheorems
  import GS = GrpcSystem
  import GR = GrpcRuns

  // ---- the abstract registry ----------------------------------------------------------------------------------

  /** Requests known by their number: what their callers asked for, which are outstanding, in the order they were
      started, which have an outcome that has not been delivered, and the handlers called. */
  datatype Abstract = Abstract(
    specs: seq<RequestSpec>,
    outstanding: seq<nat>,
    ready: seq<(nat, Verdict)>,
    calls: seq<Call>,
    hasDefault: bool)

  datatype Label =
    | Register(spec: RequestSpec)
    | Start(k: nat)
    | Finish(done: nat, verdict: Verdict)
    | Deliver
    | CancelAll
    | Silent

  function AStep(a: Abstract, l: Label): Abstract {
    match l
    case Register(spec) => a.(specs := a.specs + [spec])
    case Start(k) => a.(outstanding := a.outstanding + [k])
    case Finish(k, v) =>
      if k in a.outstanding then a.(outstanding := Without(a.outstanding, k), ready := a.ready + [(k, v)]) else a
    case Deliver =>
      if a.ready == [] || a.ready[0].0 >= |a.specs| then a
      else
        var (k, v) := a.ready[0];
        a.(ready := a.ready[1..], calls := a.calls + [Handled(k, Invoke(a.specs[k], a.hasDefault, v))])
    case CancelAll =>
      a.(outstanding := [], calls := a.calls + CancelledCalls(a.specs, a.hasDefault, a.outstanding))
    case Silent => a
  }

  function Without(s: seq<nat>, k: nat): seq<nat> {
    if s == [] then [] else Without(ButLast(s), k) + if Last(s) == k then [] else [Last(s)]
  }

  /** Requests that are cancelled: each goes to its error path with CancelledByUser. */
  function CancelledCalls(specs: seq<RequestSpec>, hasDefault: bool, ks: seq<nat>): (calls: seq<Call>)
    ensures |calls| == |ks|
  {
    seq(|ks|, i requires 0 <= i < |ks| => CancelledCall(specs, hasDefault, ks[i]))
  }

  function CancelledCall(specs: seq<RequestSpec>, hasDefault: bool, k: nat): Call {
    if k < |specs| then Handled(k, ReqError(specs[k], hasDefault, CancelledByUser)) else UnknownContext
  }

  function AExec(a: Abstract, ls: seq<Label>): Abstract {
    if ls == [] then a else AStep(AExec(a, ButLast(ls)), Last(ls))
  }

  function Trim(ls: seq<Label>): seq<Label> {
    if ls == [] then []
    else if Last(ls).Silent? then Trim(ButLast(ls))
    else Trim(ButLast(ls)) + [Last(ls)]
  }

  lemma {:induction false} TrimChangesNothing(a: Abstract, ls: seq<Label>)
    ensures AExec(a, Trim(ls)) == AExec(a, ls)
    decreases |ls|
  {
    if ls != [] {
      TrimChangesNothing(a, ButLast(ls));
      if !Last(ls).Silent? {
        assert ButLast(Trim(ls)) == Trim(ButLast(ls));
      }
    }
  }

  /** The completions that count, in the order they came in: those of requests still outstanding. */
  function Completions(a: Abstract, ls: seq<Label>): seq<(nat, Verdict)> {
    if ls == [] then []
    else
      Completions(a, ButLast(ls)) +
      if Last(ls).Finish? && Last(ls).done in AExec(a, ButLast(ls)).outstanding then [(Last(ls).done, Last(ls).verdict)]
      else []
  }

  /** The first completions have been delivered, each to the handler its request and verdict select; the others are
      ready. */
  ghost predicate Follows(a: Abstract, done: seq<(nat, Verdict)>) {
    && |a.calls| + |a.ready| == |done|
    && a.ready == done[|a.calls|..]
    && forall i | 0 <= i < |a.calls| ::
         done[i].0 < |a.specs| && a.calls[i] == Handled(done[i].0, Invoke(a.specs[done[i].0], a.hasDefault, done[i].1))
  }

  lemma StepFollows(a: Abstract, l: Label, done: seq<(nat, Verdict)>)
    requires Follows(a, done) && !l.CancelAll?
    ensures Follows(AStep(a, l),
                    done + if l.Finish? && l.done in a.outstanding then [(l.done, l.verdict)] else [])
  {
    hide Invoke;
  }

  /** However issues, completions and deliveries interleave, handlers run in completion order, as long as nothing is
      cancelled. */
  lemma {:induction false} DeliveriesFollowCompletions(a: Abstract, ls: seq<Label>)
    requires a.calls == [] && a.ready == [] && CancelAll !in ls
    ensures Follows(AExec(a, ls), Completions(a, ls)) && AExec(a, ls).hasDefault == a.hasDefault
    decreases |ls|
  {
    hide AStep, Follows;
    if ls == [] {
      NothingFollows(a);
    } else {
      DeliveriesFollowCompletions(a, ButLast(ls));
      StepFollows(AExec(a, ButLast(ls)), Last(ls), Completions(a, ButLast(ls)));
      DefaultStays(AExec(a, ButLast(ls)), Last(ls));
    }
  }

  lemma NothingFollows(a: Abstract)
    requires a.calls == [] && a.ready == []
    ensures Follows(a, [])
  {
  }

  lemma DefaultStays(a: Abstract, l: Label)
    ensures AStep(a, l).hasDefault == a.hasDefault
  {
  }

  /** Two registries with the same requests and completions differ only in how far they have delivered. */
  lemma SameCompletionsSameCalls(a: Abstract, b: Abstract, done: seq<(nat, Verdict)>)
    requires Follows(a, done) && Follows(b, done) && a.specs == b.specs && a.hasDefault == b.hasDefault
    ensures |a.calls| <= |b.calls| ==> a.calls <= b.calls
  {
    hide Invoke;
  }

  // ---- serial numbers in a list of closures -------------------------------------------------------------------

  function Serials(s: seq<Option<Closure>>): seq<nat> {
    if s == [] then [] else Serials(ButLast(s)) + if Last(s).Some? then [Last(s).value.serial] else []
  }

  ghost predicate DistinctSerials(s: seq<Option<Closure>>) {
    forall i, j | 0 <= i < j < |s| && s[i].Some? && s[j].Some? :: s[i].value.serial != s[j].value.serial
  }

  /** Closures that wait for an answer have different serial numbers. */
  lemma WaitingSerialsDiffer(r: Registry, w: Waiting, frames: multiset<Closure>, unsent: set<nat>, calls: seq<Call>,
                             s: seq<Option<Closure>>)
    requires Consistent(r, w, frames, unsent, calls) && multiset(s) <= w
    ensures DistinctSerials(s)
  {
    hide Consistent;
    forall i, j | 0 <= i < j < |s| && s[i].Some? && s[j].Some?
      ensures s[i].value.serial != s[j].value.serial
    {
      assert s[i] in multiset(s) && s[j] in multiset(s);
      WaitingClosure(r, w, frames, unsent, calls, s[i].value);
      WaitingClosure(r, w, frames, unsent, calls, s[j].value);
      if s[i] == s[j] {
        CountedTwice(s, i, j);
      }
    }
  }

  lemma SerialsAppend(s: seq<Option<Closure>>, c: Option<Closure>)
    ensures Serials(s + [c]) == if c.Some? then Serials(s) + [c.value.serial] else Serials(s)
  {
    assert ButLast(s + [c]) == s;
  }

  lemma {:induction false} SerialsHold(s: seq<Option<Closure>>, k: nat)
    ensures k in Serials(s) <==> exists i :: 0 <= i < |s| && s[i].Some? && s[i].value.serial == k
    decreases |s|
  {
    if s != [] {
      var b, e := ButLast(s), Last(s);
      SerialsHold(b, k);
      assert s == b + [e];
      assert forall i | 0 <= i < |b| :: s[i] == b[i];
    }
  }

  lemma WithoutAppend(s: seq<nat>, k: nat, n: nat)
    ensures Without(s + [n], k) == if n == k then Without(s, k) else Without(s, k) + [n]
  {
    assert ButLast(s + [n]) == s;
  }

  lemma {:induction false} WithoutAbsent(s: seq<nat>, k: nat)
    requires k !in s
    ensures Without(s, k) == s
    decreases |s|
  {
    if s != [] {
      var b, n := ButLast(s), Last(s);
      assert s == b + [n];
      WithoutAppend(b, k, n);
      hide Without;
      WithoutAbsent(b, k);
    }
  }

  lemma DistinctFront(s: seq<Option<Closure>>)
    requires DistinctSerials(s) && s != []
    ensures DistinctSerials(ButLast(s))
    ensures Last(s).Some? ==>
              && Last(s).value.serial !in Serials(ButLast(s))
              && forall i | 0 <= i < |s| - 1 && s[i].Some? :: s[i].value.serial != Last(s).value.serial
  {
    var b := ButLast(s);
    assert forall i | 0 <= i < |b| :: b[i] == s[i];
    if Last(s).Some? {
      SerialsHold(b, Last(s).value.serial);
    }
  }

  lemma {:induction false} SerialsRemoveAt(s: seq<Option<Closure>>, k: nat)
    requires DistinctSerials(s) && k < |s| && s[k].Some?
    ensures Serials(RemoveAt(s, k)) == Without(Serials(s), s[k].value.serial)
    decreases |s|
  {
    hide Serials, Without, DistinctSerials;
    var b, e := ButLast(s), Last(s);
    var n := s[k].value.serial;
    assert s == b + [e];
    SerialsAppend(b, e);
    DistinctFront(s);
    if k == |s| - 1 {
      assert RemoveAt(s, k) == b;
      WithoutAppend(Serials(b), n, n);
      WithoutAbsent(Serials(b), n);
    } else {
      RemoveAtFront(s, k);
      hide RemoveAt;
      SerialsRemoveAt(b, k);
      SerialsAppend(RemoveAt(b, k), e);
      if e.Some? {
        WithoutAppend(Serials(b), n, e.value.serial);
      }
    }
  }

  lemma {:induction false} SerialsOfAll(s: seq<Option<Closure>>)
    requires forall i | 0 <= i < |s| :: s[i].Some?
    ensures |Serials(s)| == |s| && forall i | 0 <= i < |s| :: Serials(s)[i] == s[i].value.serial
    decreases |s|
  {
    if s != [] {
      SerialsOfAll(ButLast(s));
    }
  }

  // ---- RestClient ---------------------------------------------------------------------------------------------

  function ReadyEntry(e: T.ReqContext<Closure>): (nat, Verdict) {
    (if e.callback.Some? then e.callback.value.serial else 0,
     if e.response.Some? then RestVerdict(e.response.value) else Failed(Unknown))
  }

  function RestReady(s: seq<T.ReqContext<Closure>>): (r: seq<(nat, Verdict)>)
    ensures |r| == |s|
  {
    seq(|s|, i requires 0 <= i < |s| => ReadyEntry(s[i]))
  }

  ghost function RestAbstract(s: RS.System): Abstract {
    Abstract(s.registry.specs, Serials(Callbacks(s.transport.pending)), RestReady(s.transport.finished), s.calls,
             s.hasDefault)
  }

  function OutcomeResponse(o: T.Outcome): Response {
    match o
    case Threw => CONNECTION_LOST
    case Responded(r) => r
  }

  /** The registry's view of a step: a completion the transport no longer waits for is none. */
  function RestLabel(s: RS.System, op: RS.Op): Label {
    if !RS.Enabled(s, op) then Silent
    else match op
      case NewContext(_, spec) => Register(spec)
      case Attach => Start(s.building.value.serial)
      case Refuse => Finished(s.transport, s.transport.starting.value.id, NOT_INITIALIZED)
      case Arrive(id, outcome) =>
        if s.transport.alive then Finished(s.transport, id, OutcomeResponse(outcome)) else Silent
      case TickPop => Deliver
      case Disconnect => if s.transport.pending == [] then Silent else CancelAll
      case _ => Silent
  }

  function Finished(t: T.Transport<Closure>, id: nat, response: Response): Label {
    var k := T.IndexOf(t.pending, id);
    if k < |t.pending| && t.pending[k].callback.Some?
    then Finish(t.pending[k].callback.value.serial, RestVerdict(response))
    else Silent
  }

  /** Everything that happens until the client is destroyed. */
  predicate Serving(op: RS.Op) {
    !op.DestroyClient? && !op.DestroyTransport?
  }

  lemma AStepFinish(a: Abstract, k: nat, v: Verdict)
    requires k in a.outstanding
    ensures AStep(a, Finish(k, v)) == a.(outstanding := Without(a.outstanding, k), ready := a.ready + [(k, v)])
  {
  }

  lemma FinishRefines(s: RS.System, t: T.Transport<Closure>, id: nat, response: Response)
    requires DistinctSerials(Callbacks(t.pending))
    requires T.IndexOf(t.pending, id) < |t.pending| ==> t.pending[T.IndexOf(t.pending, id)].callback.Some?
    ensures RestAbstract(s.(transport := T.Finish(t, id, response)))
            == AStep(RestAbstract(s.(transport := t)), Finished(t, id, response))
  {
    hide RestVerdict;
    var k := T.IndexOf(t.pending, id);
    if k < |t.pending| {
      var f := T.Finish(t, id, response);
      var c := Callbacks(t.pending);
      assert Callbacks(f.pending) == RemoveAt(c, k);
      SerialsRemoveAt(c, k);
      SerialsHold(c, c[k].value.serial);
      var e := t.pending[k].(response := Some(response));
      assert RestReady(f.finished) == RestReady(t.finished) + [ReadyEntry(e)];
      AStepFinish(RestAbstract(s.(transport := t)), c[k].value.serial, RestVerdict(response));
      hide AStep, Serials, Without, DistinctSerials, RestReady, T.IndexOf;
    }
  }

  lemma PendingFacts(s: RS.System)
    requires RR.Inv(s) && s.clientAlive
    ensures DistinctSerials(Callbacks(s.transport.pending))
    ensures forall i | 0 <= i < |s.transport.pending| && s.transport.pending[i].id != TR.Built(s.transport) ::
              s.transport.pending[i].callback.Some?
  {
    var t := s.transport;
    var w := RR.WaitingOf(t, s.building);
    forall i | 0 <= i < |t.pending| && t.pending[i].id != TR.Built(t)
      ensures t.pending[i].callback.Some?
    {
      assert TR.PendingOk(t.issued, TR.Built(t), t.pending[i]);
      assert t.pending[i].callback in t.issued;
    }
    hide TR.Inv, Consistent, FrameBag;
    WaitingSerialsDiffer(s.registry, w, FrameBag(s.stack), s.unsent, s.calls, Callbacks(t.pending));
  }

  lemma ArriveUnfolds(s: RS.System, id: nat, outcome: T.Outcome)
    requires RS.Enabled(s, RS.Arrive(id, outcome)) && s.transport.launched[id] && s.transport.alive
    ensures RS.Step(s, RS.Arrive(id, outcome)) == s.(transport := T.Finish(s.transport, id, OutcomeResponse(outcome)))
    ensures RestLabel(s, RS.Arrive(id, outcome)) == Finished(s.transport, id, OutcomeResponse(outcome))
  {
    hide T.Finish, Finished, T.Remove;
  }

  lemma ArriveRefines(s: RS.System, id: nat, outcome: T.Outcome)
    requires RR.Inv(s) && s.clientAlive && RS.Enabled(s, RS.Arrive(id, outcome))
    ensures RestAbstract(RS.Step(s, RS.Arrive(id, outcome)))
            == AStep(RestAbstract(s), RestLabel(s, RS.Arrive(id, outcome)))
  {
    var t := s.transport;
    RR.AlwaysHasCallback(t, id);
    NotBuilt(t, id);
    PendingFacts(s);
    ArriveUnfolds(s, id, outcome);
    hide *;
    assert s.(transport := t) == s;
    FinishRefines(s, t, id, OutcomeResponse(outcome));
  }

  lemma NotBuilt(t: T.Transport<Closure>, id: nat)
    requires TR.Inv(t) && id in t.launched
    ensures id != TR.Built(t)
  {
  }

  lemma RefuseUnfolds(s: RS.System)
    requires RS.Enabled(s, RS.Refuse)
    ensures var t := s.transport;
            && t.starting.Some? && t.starting.value.attached && s.clientAlive
            && var t' := t.(starting := None);
               && RS.Step(s, RS.Refuse) == s.(transport := T.Finish(t', t.starting.value.id, NOT_INITIALIZED))
               && RestLabel(s, RS.Refuse) == Finished(t', t.starting.value.id, NOT_INITIALIZED)
               && RestAbstract(s.(transport := t')) == RestAbstract(s)
  {
    hide T.Finish, T.IndexOf, RestVerdict, Serials, RestReady, Callbacks;
  }

  lemma RefuseRefines(s: RS.System)
    requires RR.Inv(s) && RS.Enabled(s, RS.Refuse)
    ensures RestAbstract(RS.Step(s, RS.Refuse)) == AStep(RestAbstract(s), RestLabel(s, RS.Refuse))
  {
    var t := s.transport;
    RefuseUnfolds(s);
    PendingFacts(s);
    StartedHasId(s, t);
    hide *;
    FinishRefines(s, t.(starting := None), t.starting.value.id, NOT_INITIALIZED);
  }

  lemma StartedHasId(s: RS.System, t: T.Transport<Closure>)
    requires RR.Inv(s) && t == s.transport && t.starting.Some?
    ensures t.starting.value.id >= 1
    ensures t.starting.value.attached ==> TR.Built(t) == 0
  {
  }

  lemma CallbacksSetLast(s: seq<T.ReqContext<Closure>>, e: T.ReqContext<Closure>)
    requires s != []
    ensures Callbacks(s) == Callbacks(ButLast(s)) + [Last(s).callback]
    ensures Callbacks(s[|s| - 1 := e]) == Callbacks(ButLast(s)) + [e.callback]
  {
  }

  lemma AttachCallbacks(t: T.Transport<Closure>)
    requires TR.Inv(t) && t.starting.Some? && !t.starting.value.attached
    ensures t.pending != []
    ensures var b := Callbacks(ButLast(t.pending));
            && Callbacks(t.pending) == b + [None]
            && Callbacks(T.DoAttach(t).pending) == b + [t.starting.value.callback]
            && T.DoAttach(t).finished == t.finished
  {
    hide TR.Inv, T.IndexOf, Callbacks;
    RR.LastPending(t);
    CallbacksSetLast(t.pending, Last(t.pending).(callback := t.starting.value.callback));
  }

  lemma AttachUnfolds(s: RS.System)
    requires RR.Inv(s) && s.clientAlive && RS.Enabled(s, RS.Attach)
    ensures var t := s.transport;
            && TR.Inv(t) && t.starting.Some? && !t.starting.value.attached
            && s.building.Some? && t.starting.value.callback == s.building
            && RS.Step(s, RS.Attach) == s.(transport := T.DoAttach(t), building := None)
            && RestLabel(s, RS.Attach) == Start(s.building.value.serial)
  {
    hide TR.Inv, Consistent, T.IndexOf, RestVerdict;
  }

  lemma AttachRefines(s: RS.System)
    requires RR.Inv(s) && s.clientAlive && RS.Enabled(s, RS.Attach)
    ensures RestAbstract(RS.Step(s, RS.Attach)) == AStep(RestAbstract(s), RestLabel(s, RS.Attach))
  {
    AttachUnfolds(s);
    AttachCallbacks(s.transport);
    hide RR.Inv, TR.Inv, RS.Step, T.DoAttach, Callbacks, Serials, RS.Enabled, RestLabel;
    var b := Callbacks(ButLast(s.transport.pending));
    SerialsAppend(b, None);
    SerialsAppend(b, s.building);
  }

  lemma SendRefines(s: RS.System)
    requires RS.Enabled(s, RS.Send)
    ensures RestAbstract(RS.Step(s, RS.Send)) == RestAbstract(s)
  {
    var t := s.transport;
    var e: T.ReqContext<Closure> := T.ReqContext(t.nextReqId, None, None);
    assert Callbacks(t.pending + [e]) == Callbacks(t.pending) + [None];
    hide Callbacks, Serials, RestReady;
    SerialsAppend(Callbacks(t.pending), None);
  }

  lemma RestReadyHead(s: seq<T.ReqContext<Closure>>)
    requires s != []
    ensures RestReady(s) == [ReadyEntry(s[0])] + RestReady(s[1..])
  {
  }

  lemma AStepDeliver(a: Abstract, k: nat, v: Verdict, rest: seq<(nat, Verdict)>)
    requires a.ready == [(k, v)] + rest && k < |a.specs|
    ensures AStep(a, Deliver)
            == a.(ready := rest, calls := a.calls + [Handled(k, Invoke(a.specs[k], a.hasDefault, v))])
  {
    hide Invoke;
  }

  /** What the registry sees of a pop. */
  lemma TickPopSeen(s: RS.System)
    requires RR.Inv(s) && RS.Enabled(s, RS.TickPop)
    ensures var u := RS.Step(s, RS.TickPop);
            var e := ReadyEntry(s.transport.finished[0]);
            && e.0 < |s.registry.specs|
            && u.transport.pending == s.transport.pending
            && u.transport.finished == s.transport.finished[1..]
            && u.registry == s.registry && u.hasDefault == s.hasDefault
            && u.calls == s.calls + [Handled(e.0, Invoke(s.registry.specs[e.0], s.hasDefault, e.1))]
  {
    RR.TickPopUnfolds(s);
    hide RR.Inv, RestVerdict, Invoke, RS.Step;
  }

  lemma TickPopRefines(s: RS.System)
    requires RR.Inv(s) && RS.Enabled(s, RS.TickPop)
    ensures RestAbstract(RS.Step(s, RS.TickPop)) == AStep(RestAbstract(s), Deliver)
  {
    hide RR.Inv, Invoke, RS.Step, RestReady, Callbacks, Serials, RS.Enabled, AStep, ReadyEntry;
    CanPop(s);
    TickPopSeen(s);
    RestReadyHead(s.transport.finished);
    var e := ReadyEntry(s.transport.finished[0]);
    AStepDeliver(RestAbstract(s), e.0, e.1, RestReady(s.transport.finished[1..]));
  }

  lemma CanPop(s: RS.System)
    requires RS.Enabled(s, RS.TickPop)
    ensures s.transport.finished != []
  {
  }

  lemma RestStepRefines(s: RS.System, op: RS.Op)
    requires RR.Inv(s) && s.clientAlive && Serving(op)
    ensures RS.Step(s, op).clientAlive
    ensures RestAbstract(RS.Step(s, op)) == AStep(RestAbstract(s), RestLabel(s, op))
  {
    hide RR.Inv, Lookup, Release, Invoke, RestVerdict, T.IndexOf, Serials, RestReady, Callbacks;
    StaysAlive(s, op);
    if RS.Enabled(s, op) {
      match op
      case Attach => AttachRefines(s);
      case Send => SendRefines(s);
      case Refuse => RefuseRefines(s);
      case Arrive(id, outcome) => ArriveRefines(s, id, outcome);
      case TickPop => TickPopRefines(s);
      case Disconnect => DisconnectRefines(s);
      case _ => QuietRefines(s, op);
    }
  }

  /** A disconnect finishes and delivers every outstanding request, in the order they were started. */
  lemma DisconnectRefines(s: RS.System)
    requires RR.Inv(s) && RS.InUserCode(s)
    ensures RestAbstract(RS.Step(s, RS.Disconnect)) == AStep(RestAbstract(s), RestLabel(s, RS.Disconnect))
  {
    RT.DisconnectCalls(s);
    RT.DisconnectLists(s);
    CancelledInOrder(s);
    DisconnectLabel(s);
    DisconnectDefault(s);
    assert Serials(Callbacks([])) == [];
    AStepCancel(RestAbstract(s));
    hide RR.Inv, RS.InUserCode, RS.Step, RS.DoDisconnect, RestLabel, RestReady, RT.CancelCalls, CancelledCalls, AStep,
         Serials, Callbacks;
  }

  lemma AStepCancel(a: Abstract)
    ensures AStep(a, CancelAll)
            == a.(outstanding := [], calls := a.calls + CancelledCalls(a.specs, a.hasDefault, a.outstanding))
    ensures a.outstanding == [] ==> CancelledCalls(a.specs, a.hasDefault, a.outstanding) == []
  {
  }

  lemma CancelledInOrder(s: RS.System)
    requires RR.Inv(s) && RS.InUserCode(s)
    ensures RT.CancelCalls(s.registry.specs, s.hasDefault, s.transport.pending)
            == CancelledCalls(s.registry.specs, s.hasDefault, Serials(Callbacks(s.transport.pending)))
  {
    RT.NoneIsSkipped(s, s.transport.pending);
    hide RR.Inv, RS.InUserCode, RT.CancelCalls, Serials, ReqError;
    SerialsOfAll(Callbacks(s.transport.pending));
  }

  lemma DisconnectLabel(s: RS.System)
    requires RS.InUserCode(s)
    ensures RestLabel(s, RS.Disconnect) == if s.transport.pending == [] then Silent else CancelAll
  {
  }

  lemma DisconnectDefault(s: RS.System)
    ensures RS.DoDisconnect(s).hasDefault == s.hasDefault
  {
    hide RS.CancelEach;
  }

  lemma StaysAlive(s: RS.System, op: RS.Op)
    requires Serving(op)
    ensures RS.Step(s, op).clientAlive == s.clientAlive
  {
    hide Lookup, Release, Invoke, RestVerdict, T.Step, RS.CancelEach;
  }

  lemma QuietRefines(s: RS.System, op: RS.Op)
    requires RS.Enabled(s, op) && Serving(op)
    requires !op.Attach? && !op.Send? && !op.Refuse? && !op.Arrive? && !op.TickPop? && !op.Disconnect?
    ensures RestAbstract(RS.Step(s, op)) == AStep(RestAbstract(s), RestLabel(s, op))
  {
    hide Serials, RestReady, Callbacks, T.IndexOf;
  }

  function RestLabels(s: RS.System, ops: seq<RS.Op>): seq<Label> {
    if ops == [] then []
    else RestLabels(s, ButLast(ops)) + [RestLabel(RS.Exec(s, ButLast(ops)), Last(ops))]
  }

  lemma {:induction false} RestRunRefines(s: RS.System, ops: seq<RS.Op>)
    requires RR.Inv(s) && s.clientAlive && forall op | op in ops :: Serving(op)
    ensures RS.Exec(s, ops).clientAlive
    ensures RestAbstract(RS.Exec(s, ops)) == AExec(RestAbstract(s), RestLabels(s, ops))
    decreases |ops|
  {
    hide RR.Inv, RS.Step, RestLabel, RestAbstract, AStep, Serving;
    if ops != [] {
      var b := ButLast(ops);
      RestRunRefines(s, b);
      RR.RunKeeps(s, b);
      RestStepRefines(RS.Exec(s, b), Last(ops));
      assert ButLast(RestLabels(s, ops)) == RestLabels(s, b);
    }
  }

  // ---- GrpcClient ---------------------------------------------------------------------------------------------

  function GrpcReady(q: seq<GS.Event>): (r: seq<(nat, Verdict)>)
    ensures |r| == |q|
  {
    seq(|q|, i requires 0 <= i < |q| => (q[i].tag.serial, GrpcVerdict(q[i].ok, q[i].status)))
  }

  ghost function GrpcAbstract(s: GS.System): Abstract {
    Abstract(s.registry.specs, Serials(GR.Somes(s.inFlight)), GrpcReady(s.queue), s.calls, s.hasDefault)
  }

  function GrpcLabel(s: GS.System, op: GS.Op): Label {
    if !GS.Enabled(s, op) then Silent
    else match op
      case NewContext(_, spec) => Register(spec)
      case Launch => Start(s.building.value.serial)
      case Complete(tag, ok, status) => Finish(tag.serial, GrpcVerdict(ok, status))
      case TickEvent => Deliver
      case _ => Silent
  }

  predicate GrpcServing(op: GS.Op) {
    !op.DestroyClient?
  }

  lemma InFlightFacts(s: GS.System, tag: Closure)
    requires GR.Inv(s) && s.clientAlive && tag in s.inFlight
    ensures var c, k := GR.Somes(s.inFlight), GS.TagIndex(s.inFlight, tag);
            && DistinctSerials(c) && c[k] == Some(tag)
            && RemoveAt(c, k) == GR.Somes(RemoveAt(s.inFlight, k))
  {
    hide Consistent, FrameBag, DistinctSerials;
    WaitingSerialsDiffer(s.registry, GR.WaitingOf(s.inFlight, s.queue, s.building), FrameBag(s.stack), s.unsent,
                         s.calls, GR.Somes(s.inFlight));
  }

  lemma CompleteUnfolds(s: GS.System, e: GS.Event)
    requires s.clientAlive && e.tag in s.inFlight
    ensures GS.Step(s, GS.Complete(e.tag, e.ok, e.status))
            == s.(inFlight := RemoveAt(s.inFlight, GS.TagIndex(s.inFlight, e.tag)), queue := s.queue + [e])
  {
  }

  lemma GrpcParts(s: GS.System)
    ensures var a := GrpcAbstract(s);
            && a.specs == s.registry.specs && a.calls == s.calls && a.hasDefault == s.hasDefault
            && a.outstanding == Serials(GR.Somes(s.inFlight)) && a.ready == GrpcReady(s.queue)
  {
    hide Serials, GrpcReady, GR.Somes;
  }

  lemma GrpcReadyAppend(q: seq<GS.Event>, e: GS.Event)
    ensures GrpcReady(q + [e]) == GrpcReady(q) + [(e.tag.serial, GrpcVerdict(e.ok, e.status))]
  {
  }

  lemma CompleteRefines(s: GS.System, e: GS.Event)
    requires GR.Inv(s) && s.clientAlive && e.tag in s.inFlight
    ensures GrpcAbstract(GS.Step(s, GS.Complete(e.tag, e.ok, e.status)))
            == AStep(GrpcAbstract(s), Finish(e.tag.serial, GrpcVerdict(e.ok, e.status)))
  {
    hide *;
    var c := GR.Somes(s.inFlight);
    var k := GS.TagIndex(s.inFlight, e.tag);
    InFlightFacts(s, e.tag);
    CompleteUnfolds(s, e);
    SerialsRemoveAt(c, k);
    SerialsHold(c, e.tag.serial);
    GrpcParts(s);
    GrpcParts(GS.Step(s, GS.Complete(e.tag, e.ok, e.status)));
    GrpcReadyAppend(s.queue, e);
    AStepFinish(GrpcAbstract(s), e.tag.serial, GrpcVerdict(e.ok, e.status));
  }

  lemma TickEventRefines(s: GS.System)
    requires GR.Inv(s) && GS.Enabled(s, GS.TickEvent)
    ensures GrpcAbstract(GS.Step(s, GS.TickEvent)) == AStep(GrpcAbstract(s), Deliver)
  {
    GR.TickEventUnfolds(s);
    hide GR.Inv, GrpcVerdict, Invoke, GS.Step, AStep, Serials, GR.Somes;
    var e := s.queue[0];
    var rest := GrpcReady(s.queue[1..]);
    assert GrpcReady(s.queue) == [(e.tag.serial, GrpcVerdict(e.ok, e.status))] + rest;
    AStepDeliver(GrpcAbstract(s), e.tag.serial, GrpcVerdict(e.ok, e.status), rest);
  }

  lemma LaunchRefines(s: GS.System)
    requires GS.Enabled(s, GS.Launch)
    ensures GrpcAbstract(GS.Step(s, GS.Launch)) == AStep(GrpcAbstract(s), Start(s.building.value.serial))
  {
    assert GR.Somes(s.inFlight + [s.building.value]) == GR.Somes(s.inFlight) + [s.building];
    SerialsAppend(GR.Somes(s.inFlight), s.building);
  }

  lemma GrpcQuietRefines(s: GS.System, op: GS.Op)
    requires GS.Enabled(s, op) && GrpcServing(op)
    requires !op.Launch? && !op.Complete? && !op.TickEvent?
    ensures GrpcAbstract(GS.Step(s, op)) == AStep(GrpcAbstract(s), GrpcLabel(s, op))
  {
    hide Serials, GrpcReady, GR.Somes;
  }

  lemma GrpcStepRefines(s: GS.System, op: GS.Op)
    requires GR.Inv(s) && s.clientAlive && GrpcServing(op)
    ensures GS.Step(s, op).clientAlive
    ensures GrpcAbstract(GS.Step(s, op)) == AStep(GrpcAbstract(s), GrpcLabel(s, op))
  {
    hide GR.Inv, Lookup, Release, Invoke, GrpcVerdict, Serials, GrpcReady, GR.Somes;
    if GS.Enabled(s, op) {
      match op
      case Launch => LaunchRefines(s);
      case Complete(tag, ok, status) => CompleteRefines(s, GS.Event(tag, ok, status));
      case TickEvent => TickEventRefines(s);
      case _ => GrpcQuietRefines(s, op);
    }
  }

  function GrpcLabels(s: GS.System, ops: seq<GS.Op>): seq<Label> {
    if ops == [] then []
    else GrpcLabels(s, ButLast(ops)) + [GrpcLabel(GS.Exec(s, ButLast(ops)), Last(ops))]
  }

  lemma {:induction false} GrpcRunRefines(s: GS.System, ops: seq<GS.Op>)
    requires GR.Inv(s) && s.clientAlive && forall op | op in ops :: GrpcServing(op)
    ensures GS.Exec(s, ops).clientAlive
    ensures GrpcAbstract(GS.Exec(s, ops)) == AExec(GrpcAbstract(s), GrpcLabels(s, ops))
    decreases |ops|
  {
    hide GR.Inv, GS.Step, GrpcLabel, GrpcAbstract, AStep, GrpcServing;
    if ops != [] {
      var b := ButLast(ops);
      GrpcRunRefines(s, b);
      GR.RunKeeps(s, b);
      GrpcStepRefines(GS.Exec(s, b), Last(ops));
      assert ButLast(GrpcLabels(s, ops)) == GrpcLabels(s, b);
    }
  }

  // ---- the two clients agree ----------------------------------------------------------------------------------

  /** If a run of each client makes requests with the same callbacks in the same order, and the same outcomes come
      in and are picked up in the same order, then both run the same handlers in the same order with the same error
      codes, and leave the same requests outstanding and undelivered. Addresses, ids, and every step in between may
      differ. */
  lemma SameRequestsSameHandlers(hasDefault: bool, rest: seq<RS.Op>, grpc: seq<GS.Op>)
    requires forall op | op in rest :: Serving(op)
    requires forall op | op in grpc :: GrpcServing(op)
    requires Trim(RestLabels(RS.Init(hasDefault), rest)) == Trim(GrpcLabels(GS.Init(hasDefault), grpc))
    ensures RS.Exec(RS.Init(hasDefault), rest).calls == GS.Exec(GS.Init(hasDefault), grpc).calls
    ensures RestAbstract(RS.Exec(RS.Init(hasDefault), rest)) == GrpcAbstract(GS.Exec(GS.Init(hasDefault), grpc))
  {
    var r, g := RS.Init(hasDefault), GS.Init(hasDefault);
    RR.InitInv(hasDefault);
    GR.ReachableInv(hasDefault, []);
    RestRunRefines(r, rest);
    GrpcRunRefines(g, grpc);
    assert Callbacks([]) == [] && GR.Somes([]) == [] && RestReady([]) == [] && GrpcReady([]) == [];
    assert RestAbstract(r) == GrpcAbstract(g);
    TrimChangesNothing(RestAbstract(r), RestLabels(r, rest));
    TrimChangesNothing(GrpcAbstract(g), GrpcLabels(g, grpc));
  }

  /** The requests were made in the same order and the same outcomes came in in the same order: then both clients run
      the same handlers in the same order with the same error codes. Only how far they have got may differ; once both
      have delivered what came in, nothing does. Addresses, ids, and how issues, completions and deliveries interleave
      are each client's own. RestClient may disconnect, as long as nothing is pending then. */
  lemma SameCompletionsSameHandlers(hasDefault: bool, rest: seq<RS.Op>, grpc: seq<GS.Op>)
    requires forall op | op in rest :: Serving(op)
    requires forall op | op in grpc :: GrpcServing(op)
    requires CancelAll !in RestLabels(RS.Init(hasDefault), rest)
    requires RS.Exec(RS.Init(hasDefault), rest).registry.specs == GS.Exec(GS.Init(hasDefault), grpc).registry.specs
    requires Completions(RestAbstract(RS.Init(hasDefault)), RestLabels(RS.Init(hasDefault), rest))
             == Completions(GrpcAbstract(GS.Init(hasDefault)), GrpcLabels(GS.Init(hasDefault), grpc))
    ensures var r := RS.Exec(RS.Init(hasDefault), rest);
            var g := GS.Exec(GS.Init(hasDefault), grpc);
            && (r.calls <= g.calls || g.calls <= r.calls)
            && (r.transport.finished == [] && g.queue == [] ==> r.calls == g.calls)
  {
    hide RS.Step, GS.Step, RS.Exec, GS.Exec, RestLabels, GrpcLabels, Completions, AExec, RR.Inv, GR.Inv;
    var r, g := RS.Init(hasDefault), GS.Init(hasDefault);
    RR.InitInv(hasDefault);
    GrpcInitInv(hasDefault);
    RestRunRefines(r, rest);
    GrpcRunRefines(g, grpc);
    DeliveriesFollowCompletions(RestAbstract(r), RestLabels(r, rest));
    GrpcNeverCancels(g, grpc);
    DeliveriesFollowCompletions(GrpcAbstract(g), GrpcLabels(g, grpc));
    var a, b := RestAbstract(RS.Exec(r, rest)), GrpcAbstract(GS.Exec(g, grpc));
    var done := Completions(RestAbstract(r), RestLabels(r, rest));
    SameCompletionsSameCalls(a, b, done);
    SameCompletionsSameCalls(b, a, done);
  }

  /** A task that throws over REST and an event without an exchange over gRPC are the same completion: a failure with
      ConnectionError. So after SameCompletionsSameHandlers they run the same handler with the same code. */
  lemma LostConnectionsAreOneCompletion(s: RS.System, id: nat, g: GS.System, tag: Closure, status: int)
    requires s.transport.alive && id in s.transport.launched && tag in g.inFlight
    requires var k := T.IndexOf(s.transport.pending, id);
             k < |s.transport.pending| && s.transport.pending[k].callback == Some(tag)
    ensures RestLabel(s, RS.Arrive(id, T.Threw)) == Finish(tag.serial, Failed(ConnectionError))
    ensures GrpcLabel(g, GS.Complete(tag, false, status)) == Finish(tag.serial, Failed(ConnectionError))
  {
  }

  lemma {:induction false} GrpcNeverCancels(g: GS.System, grpc: seq<GS.Op>)
    ensures CancelAll !in GrpcLabels(g, grpc)
    decreases |grpc|
  {
    if grpc != [] {
      GrpcNeverCancels(g, ButLast(grpc));
    }
  }

  lemma GrpcInitInv(hasDefault: bool)
    ensures GR.Inv(GS.Init(hasDefault))
  {
    GR.ReachableInv(hasDefault, []);
  }

  /** Disconnecting is where they part: RestClient answers every pending request on the spot, GrpcClient none. From
      states with the same calls made, the two disconnects agree exactly if RestClient had nothing pending. */
  lemma DisconnectsAgreeOnlyWhenNothingIsPending(hasDefault: bool, rest: seq<RS.Op>, g: GS.System)
    requires RS.InUserCode(RS.Exec(RS.Init(hasDefault), rest))
    requires g.calls == RS.Exec(RS.Init(hasDefault), rest).calls
    ensures var r := RS.Exec(RS.Init(hasDefault), rest);
            RS.Step(r, RS.Disconnect).calls == GS.Step(g, GS.Disconnect).calls <==> r.transport.pending == []
  {
    var r := RS.Exec(RS.Init(hasDefault), rest);
    RR.ReachableInv(hasDefault, rest);
    RT.DisconnectResolvesExactlyThePending(hasDefault, rest);
    GrpcDisconnectCallsNobody(g);
  }

  lemma GrpcDisconnectCallsNobody(g: GS.System)
    ensures GS.Step(g, GS.Disconnect).calls == g.calls
    ensures GS.Step(g, GS.Disconnect).inFlight == g.inFlight && GS.Step(g, GS.Disconnect).queue == g.queue
  {
  }

  /** One request sent over REST, and not answered. */
  function OneOverRest(spec: RequestSpec): seq<RS.Op> {
    [RS.SetBaseUri("http://localhost")] + [RS.NewContext(0, spec)] + [RS.Send] + [RS.Attach] + [RS.Launch]
  }

  function OneOverGrpc(spec: RequestSpec): seq<GS.Op> {
    [GS.NewContext(0, spec)] + [GS.Launch]
  }

  lemma GrpcRun(s: GS.System, ops: seq<GS.Op>, op: GS.Op)
    ensures GS.Exec(s, ops + [op]) == GS.Step(GS.Exec(s, ops), op)
  {
    assert ButLast(ops + [op]) == ops;
  }

  lemma SentIsPending(s: RS.System, c: Closure)
    requires s.building == Some(c) && s.clientAlive && T.Idle(s.transport)
    requires s.transport.pending == [] && s.transport.baseUri != ""
    ensures var t := s.transport;
            var u := RS.Step(RS.Step(RS.Step(s, RS.Send), RS.Attach), RS.Launch);
            && u == s.(transport := u.transport, building := None)
            && T.Idle(u.transport) && u.transport.finished == t.finished
            && u.transport.pending == [T.ReqContext(t.nextReqId, Some(c), None)]
  {
    var a := RS.Step(s, RS.Send);
    assert a.transport.pending == [T.ReqContext(s.transport.nextReqId, None, None)];
    assert T.IndexOf(a.transport.pending, s.transport.nextReqId) == 0;
    var b := RS.Step(a, RS.Attach);
    assert b.transport.pending == [T.ReqContext(s.transport.nextReqId, Some(c), None)];
  }

  lemma ReadyToSend(hasDefault: bool, spec: RequestSpec)
    ensures var s := RS.Step(RS.Step(RS.Init(hasDefault), RS.SetBaseUri("http://localhost")), RS.NewContext(0, spec));
            && s == RS.Init(hasDefault).(transport := s.transport, registry := s.registry, building := s.building)
            && s.building == Some(Closure(0, 0)) && s.registry.specs == [spec] && T.Idle(s.transport)
            && s.transport.pending == [] && s.transport.finished == [] && s.transport.baseUri != ""
  {
  }

  lemma OneIsPending(hasDefault: bool, spec: RequestSpec)
    ensures var r := RS.Exec(RS.Init(hasDefault), OneOverRest(spec));
            && RS.InUserCode(r) && r.registry.specs == [spec] && r.calls == [] && r.hasDefault == hasDefault
            && r.transport.finished == [] && Callbacks(r.transport.pending) == [Some(Closure(0, 0))]
  {
    var init := RS.Init(hasDefault);
    var a := [RS.SetBaseUri("http://localhost")];
    var b := a + [RS.NewContext(0, spec)];
    RT.ExecOneMore(init, [], RS.SetBaseUri("http://localhost"));
    assert [] + a == a;
    RT.ExecOneMore(init, a, RS.NewContext(0, spec));
    RT.ExecOneMore(init, b, RS.Send);
    RT.ExecOneMore(init, b + [RS.Send], RS.Attach);
    RT.ExecOneMore(init, b + [RS.Send] + [RS.Attach], RS.Launch);
    assert RS.Exec(init, []) == init;
    ReadyToSend(hasDefault, spec);
    hide RS.Exec, RS.Step;
    SentIsPending(RS.Exec(init, b), Closure(0, 0));
  }

  lemma OneIsInFlight(hasDefault: bool, spec: RequestSpec)
    ensures var g := GS.Exec(GS.Init(hasDefault), OneOverGrpc(spec));
            && GS.InUserCode(g) && g.registry.specs == [spec] && g.calls == [] && g.hasDefault == hasDefault
            && g.queue == [] && g.inFlight == [Closure(0, 0)]
  {
    var init := GS.Init(hasDefault);
    GrpcRun(init, [], GS.NewContext(0, spec));
    assert [] + [GS.NewContext(0, spec)] == [GS.NewContext(0, spec)];
    GrpcRun(init, [GS.NewContext(0, spec)], GS.Launch);
    hide GS.Exec;
  }

  /** And they do part: after the same one request the two clients look the same to the registry, and a disconnect
      makes them call different handlers. */
  lemma DisconnectsDifferOnAnUnansweredRequest(hasDefault: bool, spec: RequestSpec)
    ensures var r := RS.Exec(RS.Init(hasDefault), OneOverRest(spec));
            var g := GS.Exec(GS.Init(hasDefault), OneOverGrpc(spec));
            && RS.InUserCode(r) && GS.InUserCode(g) && RestAbstract(r) == GrpcAbstract(g)
            && RS.Step(r, RS.Disconnect).calls == [Handled(0, ReqError(spec, hasDefault, CancelledByUser))]
            && GS.Step(g, GS.Disconnect).calls == []
  {
    OneIsPending(hasDefault, spec);
    OneIsInFlight(hasDefault, spec);
    RT.DisconnectResolvesExactlyThePending(hasDefault, OneOverRest(spec));
    hide RS.Step, RS.Exec, GS.Exec, RS.InUserCode, OneOverRest, OneOverGrpc, ReqError;
    var r, g := RS.Exec(RS.Init(hasDefault), OneOverRest(spec)), GS.Exec(GS.Init(hasDefault), OneOverGrpc(spec));
    GrpcDisconnectCallsNobody(g);
    assert Callbacks(r.transport.pending)[0] == r.transport.pending[0].callback;
    assert GR.Somes(g.inFlight) == Callbacks(r.transport.pending);
    assert RestReady(r.transport.finished) == GrpcReady(g.queue);
  }
}
