/** What every run of the HTTP transport keeps, whatever the user's thread and the network do. */
module TransportRuns {
  import opened Basics
  import opened Responses
  import opened Transport

  /** The ids 1 .. n-1, once each. */
  ghost function UpTo(n: nat): multiset<nat> {
    if n <= 1 then multiset{} else UpTo(n - 1) + multiset{n - 1}
  }

  lemma {:induction false} UpToCount(n: nat, id: nat)
    ensures UpTo(n)[id] == if 1 <= id < n then 1 else 0
  {
    if n > 1 {
      UpToCount(n - 1, id);
    }
  }

  /** Where every id ever issued is: pending, finished or resolved. */
  ghost function Whereabouts<C>(t: Transport<C>): multiset<nat> {
    multiset(Ids(t.pending)) + multiset(Ids(t.finished)) + multiset(ResolvedIds(t.resolved))
  }

  ghost predicate Increasing<C>(s: seq<ReqContext<C>>) {
    forall i, j | 0 <= i < j < |s| :: s[i].id < s[j].id
  }

  /** The id whose callback `request` has not stored yet, 0 when there is none. */
  ghost function Built<C>(t: Transport<C>): nat {
    if t.starting.Some? && !t.starting.value.attached then t.starting.value.id else 0
  }

  ghost predicate PendingOk<C>(issued: seq<Option<C>>, built: nat, e: ReqContext<C>) {
    && 1 <= e.id <= |issued|
    && e.response.None?
    && e.callback == if e.id == built then None else issued[e.id - 1]
  }

  ghost predicate FinishedOk<C>(issued: seq<Option<C>>, built: nat, e: ReqContext<C>) {
    && 1 <= e.id <= |issued|
    && e.id != built
    && e.response.Some?
    && e.callback == issued[e.id - 1]
  }

  /** No callback is lost: whoever leaves with a callback leaves with a response and not through removal. */
  ghost predicate ResolvedOk<C>(issued: seq<Option<C>>, built: nat, r: Resolution<C>) {
    && 1 <= r.id <= |issued|
    && r.id != built
    && r.callback == issued[r.id - 1]
    && (r.callback.Some? ==> r.response.Some? && !r.manner.Removed?)
    && (r.callback.Some? && r.manner.Cancelled? ==> r.response == Some(CANCELLED_BY_CALLER))
  }

  ghost predicate AllOk<C>(t: Transport<C>) {
    && (forall e | e in t.pending :: PendingOk(t.issued, Built(t), e))
    && (forall e | e in t.finished :: FinishedOk(t.issued, Built(t), e))
    && (forall r | r in t.resolved :: ResolvedOk(t.issued, Built(t), r))
  }

  ghost predicate StartingOk<C>(t: Transport<C>) {
    t.starting.Some? ==>
      && t.alive
      && t.pending != []
      && t.issued != []
      && t.starting.value.id == Last(t.pending).id == |t.issued|
      && t.starting.value.callback == Last(t.issued)
  }

  ghost predicate LaunchedOk<C>(t: Transport<C>) {
    forall id | id in t.launched ::
      && 1 <= id <= |t.issued|
      && t.launched[id] == t.issued[id - 1].Some?
      && (t.starting.Some? ==> id != t.starting.value.id)
  }

  ghost predicate Inv<C>(t: Transport<C>) {
    && t.nextReqId == |t.issued| + 1
    && Whereabouts(t) == UpTo(t.nextReqId)
    && Increasing(t.pending)
    && AllOk(t)
    && StartingOk(t)
    && LaunchedOk(t)
    && TickedIds(t.resolved) + Ids(t.finished) == t.completed
    && !t.dangling
  }

  // ---- each section keeps the invariant -----------------------------------------------------------------------

  lemma IdsAppend<C>(s: seq<ReqContext<C>>, e: ReqContext<C>)
    ensures Ids(s + [e]) == Ids(s) + [e.id]
  {
  }

  lemma IdsRemove<C>(s: seq<ReqContext<C>>, k: nat)
    requires k < |s|
    ensures multiset(Ids(s)) == multiset(Ids(RemoveAt(s, k))) + multiset{s[k].id}
  {
    RemoveAtBag(Ids(s), k);
    assert RemoveAt(Ids(s), k) == Ids(RemoveAt(s, k));
  }

  lemma ResolvedAppend<C>(s: seq<Resolution<C>>, r: Resolution<C>)
    ensures ResolvedIds(s + [r]) == ResolvedIds(s) + [r.id]
    ensures TickedIds(s + [r]) == TickedIds(s) + if r.manner.Ticked? then [r.id] else []
  {
    assert ButLast(s + [r]) == s;
  }

  lemma CreateLedger<C>(t: Transport<C>, callback: Option<C>)
    requires t.nextReqId == |t.issued| + 1 && Whereabouts(t) == UpTo(t.nextReqId)
    ensures Whereabouts(DoCreate(t, callback)) == UpTo(t.nextReqId + 1)
  {
    IdsAppend(t.pending, ReqContext(t.nextReqId, None, None));
  }

  lemma CreateOk<C>(t: Transport<C>, callback: Option<C>)
    requires AllOk(t) && t.starting.None? && t.nextReqId == |t.issued| + 1
    ensures AllOk(DoCreate(t, callback))
    ensures forall e | e in t.pending :: e.id < t.nextReqId
  {
    var t' := DoCreate(t, callback);
    forall e | e in t.pending
      ensures e.id < t.nextReqId && PendingOk(t'.issued, Built(t'), e)
    {
      assert PendingOk(t.issued, Built(t), e);
    }
    forall e | e in t.finished
      ensures FinishedOk(t'.issued, Built(t'), e)
    {
      assert FinishedOk(t.issued, Built(t), e);
    }
    forall r | r in t.resolved
      ensures ResolvedOk(t'.issued, Built(t'), r)
    {
      assert ResolvedOk(t.issued, Built(t), r);
    }
  }

  lemma CreateLaunched<C>(t: Transport<C>, callback: Option<C>)
    requires LaunchedOk(t) && t.nextReqId == |t.issued| + 1
    ensures LaunchedOk(DoCreate(t, callback))
  {
  }

  lemma CreateKeeps<C>(t: Transport<C>, callback: Option<C>)
    requires Inv(t) && t.starting.None? && t.alive
    ensures Inv(DoCreate(t, callback))
  {
    CreateLedger(t, callback);
    CreateOk(t, callback);
    CreateLaunched(t, callback);
    assert Built(t) == 0;
    hide Whereabouts, AllOk, LaunchedOk, TickedIds, Ids, UpTo;
  }

  /** The raw pointer still leads to the context that createReqContext made: it is the last one pending. */
  lemma FindsStarted<C>(t: Transport<C>)
    requires Inv(t) && t.starting.Some?
    ensures IndexOf(t.pending, t.starting.value.id) == |t.pending| - 1
  {
    var last := |t.pending| - 1;
    forall i | 0 <= i < last
      ensures t.pending[i].id != t.starting.value.id
    {
      assert t.pending[i].id < t.pending[last].id;
    }
  }

  lemma AttachKeeps<C>(t: Transport<C>)
    requires Inv(t) && t.alive && t.starting.Some? && !t.starting.value.attached
    ensures Inv(DoAttach(t))
  {
    FindsStarted(t);
    var t' := DoAttach(t);
    var last := |t.pending| - 1;
    assert Ids(t'.pending) == Ids(t.pending);
    forall e | e in t'.pending
      ensures PendingOk(t'.issued, Built(t'), e)
    {
      var i :| 0 <= i < |t'.pending| && t'.pending[i] == e;
      assert PendingOk(t.issued, Built(t), t.pending[i]);
      assert i != last ==> t.pending[i].id < t.pending[last].id;
    }
    AttachedOk(t, t');
  }

  /** Once the callback is stored nothing is exempt any more. */
  lemma AttachedOk<C>(t: Transport<C>, t': Transport<C>)
    requires AllOk(t) && t'.issued == t.issued && Built(t') == 0
    ensures forall e | e in t.finished :: FinishedOk(t'.issued, 0, e)
    ensures forall r | r in t.resolved :: ResolvedOk(t'.issued, 0, r)
  {
    forall e | e in t.finished
      ensures FinishedOk(t'.issued, 0, e)
    {
      assert FinishedOk(t.issued, Built(t), e);
    }
    forall r | r in t.resolved
      ensures ResolvedOk(t'.issued, 0, r)
    {
      assert ResolvedOk(t.issued, Built(t), r);
    }
  }

  /** Leaving `request`, with the callback stored, changes nothing but who owns the user's thread. */
  lemma LeaveRequestKeeps<C>(t: Transport<C>)
    requires Inv(t) && Attached(t)
    ensures Inv(t.(starting := None))
  {
    assert Built(t.(starting := None)) == Built(t);
  }

  lemma AbandonKeeps<C>(t: Transport<C>, clientMade: bool)
    requires Inv(t) && Attached(t)
    ensures Inv(DoAbandon(t, clientMade))
  {
    assert Built(DoAbandon(t, clientMade)) == Built(t);
  }

  lemma LaunchKeeps<C>(t: Transport<C>)
    requires Inv(t) && Attached(t)
    ensures Inv(DoLaunch(t))
  {
    assert Built(DoLaunch(t)) == Built(t);
  }

  /** Taking out one pending context that is not the one `request` is working on. */
  lemma RemoveAtKeeps<C>(t: Transport<C>, k: nat)
    requires Inv(t) && k < |t.pending|
    requires t.starting.Some? ==> t.pending[k].id != t.starting.value.id
    ensures var p := RemoveAt(t.pending, k);
            && Increasing(p)
            && (forall e | e in p :: e in t.pending)
            && (t.starting.Some? ==> p != [] && Last(p) == Last(t.pending))
  {
  }

  lemma FinishLedger<C>(t: Transport<C>, id: nat, response: Response)
    ensures Whereabouts(Finish(t, id, response)) == Whereabouts(t)
    ensures TickedIds(t.resolved) + Ids(t.finished) == t.completed ==>
              TickedIds(t.resolved) + Ids(Finish(t, id, response).finished) == Finish(t, id, response).completed
  {
    hide IndexOf, TickedIds, ResolvedIds;
    var k := IndexOf(t.pending, id);
    if k < |t.pending| {
      IdsRemove(t.pending, k);
      IdsAppend(t.finished, t.pending[k].(response := Some(response)));
    }
  }

  lemma FinishKeeps<C>(t: Transport<C>, id: nat, response: Response)
    requires Inv(t)
    requires t.starting.Some? ==> id != t.starting.value.id
    ensures Inv(Finish(t, id, response))
  {
    var k := IndexOf(t.pending, id);
    FinishLedger(t, id, response);
    if k < |t.pending| {
      RemoveAtKeeps(t, k);
      assert PendingOk(t.issued, Built(t), t.pending[k]);
      assert FinishedOk(t.issued, Built(t), t.pending[k].(response := Some(response)));
      assert AllOk(Finish(t, id, response));
    }
  }

  lemma RemoveLedger<C>(t: Transport<C>, id: nat)
    ensures Whereabouts(Remove(t, id)) == Whereabouts(t)
    ensures TickedIds(Remove(t, id).resolved) == TickedIds(t.resolved)
  {
    var k := IndexOf(t.pending, id);
    if k < |t.pending| {
      IdsRemove(t.pending, k);
      ResolvedAppend(t.resolved, Resolution(id, t.pending[k].callback, None, Removed));
    }
  }

  lemma RemoveOk<C>(t: Transport<C>, id: nat)
    requires AllOk(t) && 1 <= id <= |t.issued| && t.issued[id - 1].None? && id != Built(t)
    ensures AllOk(Remove(t, id))
  {
    var k := IndexOf(t.pending, id);
    if k < |t.pending| {
      assert PendingOk(t.issued, Built(t), t.pending[k]);
      assert ResolvedOk(t.issued, Built(t), Resolution(id, t.pending[k].callback, None, Removed));
      assert forall e | e in RemoveAt(t.pending, k) :: e in t.pending;
    }
  }

  lemma RemoveKeeps<C>(t: Transport<C>, id: nat)
    requires Inv(t)
    requires t.starting.Some? ==> id != t.starting.value.id
    requires 1 <= id <= |t.issued| && t.issued[id - 1].None?
    ensures Inv(Remove(t, id))
  {
    var k := IndexOf(t.pending, id);
    if k < |t.pending| {
      var t' := Remove(t, id);
      RemoveLedger(t, id);
      RemoveAtKeeps(t, k);
      RemoveOk(t, id);
      assert Built(t') == Built(t);
      hide *;
      InvParts(t, t');
    }
  }

  /** What a step that only moves entries out of the pending list must preserve. */
  lemma InvParts<C>(t: Transport<C>, t': Transport<C>)
    requires Inv(t)
    requires t'.nextReqId == t.nextReqId && t'.issued == t.issued && t'.starting == t.starting
    requires t'.launched == t.launched && t'.alive == t.alive && t'.dangling == t.dangling
    requires t'.completed == t.completed && t'.finished == t.finished
    requires TickedIds(t'.resolved) == TickedIds(t.resolved)
    requires Whereabouts(t') == Whereabouts(t) && AllOk(t') && Increasing(t'.pending)
    requires t.starting.Some? ==> t'.pending != [] && Last(t'.pending) == Last(t.pending)
    ensures Inv(t')
  {
  }

  lemma PopLedger<C>(t: Transport<C>)
    requires t.finished != []
    ensures Whereabouts(DoPop(t)) == Whereabouts(t)
    ensures TickedIds(DoPop(t).resolved) + Ids(DoPop(t).finished) == TickedIds(t.resolved) + Ids(t.finished)
  {
    var e0 := t.finished[0];
    var rest := Ids(t.finished[1..]);
    assert Ids(t.finished) == [e0.id] + rest;
    ResolvedAppend(t.resolved, Resolution(e0.id, e0.callback, e0.response, Ticked));
    assert TickedIds(t.resolved) + ([e0.id] + rest) == (TickedIds(t.resolved) + [e0.id]) + rest;
  }

  lemma PopOk<C>(t: Transport<C>)
    requires AllOk(t) && t.finished != []
    ensures AllOk(DoPop(t))
  {
    var e0 := t.finished[0];
    assert FinishedOk(t.issued, Built(t), e0);
    assert ResolvedOk(t.issued, Built(t), Resolution(e0.id, e0.callback, e0.response, Ticked));
  }

  lemma PopKeeps<C>(t: Transport<C>)
    requires Inv(t) && t.starting.None? && t.finished != []
    ensures Inv(DoPop(t))
  {
    PopLedger(t);
    PopOk(t);
  }

  lemma {:induction false} CancelledNotTicked<C>(s: seq<Resolution<C>>, p: seq<ReqContext<C>>)
    ensures TickedIds(s + CancelResolutions(p)) == TickedIds(s)
    decreases |p|
  {
    if p == [] {
      assert s + CancelResolutions(p) == s;
    } else {
      CancelledNotTicked(s, ButLast(p));
      assert CancelResolutions(p) == CancelResolutions(ButLast(p)) + [CancelResolution(Last(p))];
      assert s + CancelResolutions(p) == (s + CancelResolutions(ButLast(p))) + [CancelResolution(Last(p))];
      ResolvedAppend(s + CancelResolutions(ButLast(p)), CancelResolution(Last(p)));
    }
  }

  lemma CancelAllLedger<C>(t: Transport<C>)
    ensures Whereabouts(DoCancelAll(t)) == Whereabouts(t)
  {
    hide TickedIds;
    var c := CancelResolutions(t.pending);
    assert ResolvedIds(c) == Ids(t.pending);
    assert ResolvedIds(t.resolved + c) == ResolvedIds(t.resolved) + ResolvedIds(c);
    assert Ids(DoCancelAll(t).pending) == [];
  }

  lemma CancelAllOk<C>(t: Transport<C>)
    requires AllOk(t) && t.starting.None?
    ensures AllOk(DoCancelAll(t))
  {
    forall r | r in CancelResolutions(t.pending)
      ensures ResolvedOk(t.issued, Built(t), r)
    {
      var i :| 0 <= i < |t.pending| && r == CancelResolution(t.pending[i]);
      assert PendingOk(t.issued, Built(t), t.pending[i]);
    }
  }

  lemma CancelAllKeeps<C>(t: Transport<C>)
    requires Inv(t) && t.starting.None?
    ensures Inv(DoCancelAll(t))
  {
    CancelAllLedger(t);
    CancelledNotTicked(t.resolved, t.pending);
    CancelAllOk(t);
    hide Whereabouts, AllOk, TickedIds;
  }

  lemma ArriveKeeps<C>(t: Transport<C>, id: nat, outcome: Outcome)
    requires Inv(t) && id in t.launched
    ensures Inv(DoArrive(t, id, outcome))
  {
    FinishKeeps(t, id, if outcome.Threw? then CONNECTION_LOST else outcome.response);
    if !t.launched[id] {
      RemoveKeeps(t, id);
    }
    hide Whereabouts, AllOk, Finish, Remove;
  }

  lemma RefuseKeeps<C>(t: Transport<C>)
    requires Inv(t) && Attached(t)
    ensures Inv(DoRefuse(t))
  {
    LeaveRequestKeeps(t);
    hide Whereabouts, AllOk, Finish;
    FinishKeeps(t.(starting := None), t.starting.value.id, NOT_INITIALIZED);
  }

  /** Steps that touch neither a list nor a history. */
  lemma SideFieldsKeep<C>(t: Transport<C>, alive: bool, client: Option<string>, baseUri: string)
    requires Inv(t) && t.starting.None?
    ensures Inv(t.(alive := alive, client := client, baseUri := baseUri))
  {
    assert Built(t.(alive := alive, client := client, baseUri := baseUri)) == Built(t);
  }

  lemma StepKeeps<C>(t: Transport<C>, op: Op<C>)
    requires Inv(t)
    ensures Inv(Step(t, op))
  {
    hide Inv, DoCreate, DoAttach, DoRefuse, DoLaunch, DoArrive, DoPop, DoCancelAll;
    if Enabled(t, op) {
      match op
      case Create(callback) => CreateKeeps(t, callback);
      case Attach => AttachKeeps(t);
      case Refuse => RefuseKeeps(t);
      case Launch => LaunchKeeps(t);
      case Abandon(clientMade) => AbandonKeeps(t, clientMade);
      case SetBaseUri(uri) => SideFieldsKeep(t, t.alive, DoSetBaseUri(t, uri).client, uri);
      case Arrive(id, outcome) => ArriveKeeps(t, id, outcome);
      case Pop => PopKeeps(t);
      case CancelAll => CancelAllKeeps(t);
      case Destroy => SideFieldsKeep(t, false, None, t.baseUri);
    }
  }

  lemma {:induction false} RunKeeps<C>(t: Transport<C>, ops: seq<Op<C>>)
    requires Inv(t)
    ensures Inv(Exec(t, ops))
    decreases |ops|
  {
    if ops != [] {
      RunKeeps(t, ButLast(ops));
      StepKeeps(Exec(t, ButLast(ops)), Last(ops));
    }
  }

  lemma ReachableInv<C>(ops: seq<Op<C>>)
    ensures Inv(Exec(Init<C>(), ops))
  {
    RunKeeps(Init<C>(), ops);
  }
}
