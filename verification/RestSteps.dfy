/** Each step of RestSystem spelled out, for the classes that carry it out. */
module RestSteps {
  import opened Basics
  import opened Responses
  import opened Registry
  import opened Clients
  import T = Transport
  import TR = TransportRuns
  import RS = RestSystem
  import RR = RestRuns
  import opened RestTape

  /** Only the lists of the transport and its histories moved; the user's thread is where it was. */
  ghost predicate SameControl(a: RS.System, b: RS.System) {
    && b == a.(transport := b.transport)
    && b.transport.starting == a.transport.starting
    && b.transport.alive == a.transport.alive
    && b.transport.client == a.transport.client
    && b.transport.baseUri == a.transport.baseUri
  }

  lemma SameControlSameTurn(a: RS.System, b: RS.System)
    requires SameControl(a, b)
    ensures RS.InUserCode(a) == RS.InUserCode(b) && RS.InTick(a) == RS.InTick(b)
  {
  }

  lemma ArriveStep(s: RS.System, id: nat, outcome: T.Outcome)
    requires id in s.transport.launched
    ensures RS.Step(s, RS.Arrive(id, outcome)) == s.(transport := T.DoArrive(s.transport, id, outcome))
    ensures SameControl(s, RS.Step(s, RS.Arrive(id, outcome)))
  {
    hide T.IndexOf;
  }

  /** A completion for a request the network does not have: there is no such step. */
  lemma StrayStep(s: RS.System, id: nat, outcome: T.Outcome)
    requires id !in s.transport.launched
    ensures RS.Step(s, RS.Arrive(id, outcome)) == s
  {
  }

  lemma NewContextStep(s: RS.System, ptr: Ptr, spec: RequestSpec)
    requires RS.InUserCode(s) && ptr !in s.registry.live
    ensures RS.Step(s, RS.NewContext(ptr, spec))
            == s.(registry := Allocate(s.registry, ptr, spec), building := Some(Closure(ptr, |s.registry.home|)))
  {
  }

  lemma ThrowStep(s: RS.System)
    requires s.building.Some? && T.Idle(s.transport)
    ensures RS.Step(s, RS.ThrowBeforeSend) == s.(building := None, unsent := s.unsent + {s.building.value.serial})
  {
  }

  lemma SendStep(s: RS.System)
    requires s.building.Some? && T.Idle(s.transport)
    ensures RS.Step(s, RS.Send) == s.(transport := T.DoCreate(s.transport, s.building))
  {
  }

  lemma AttachStep(s: RS.System)
    requires TR.Inv(s.transport) && s.building.Some? && s.transport.alive
    requires s.transport.starting.Some? && !s.transport.starting.value.attached
    ensures RS.Step(s, RS.Attach) == s.(transport := T.DoAttach(s.transport), building := None)
    ensures var t := T.DoAttach(s.transport);
            && t.starting == Some(s.transport.starting.value.(attached := true))
            && t.alive && t.client == s.transport.client && t.baseUri == s.transport.baseUri
            && t.launched == s.transport.launched
  {
    TR.FindsStarted(s.transport);
    hide TR.Inv, T.IndexOf;
  }

  /** The end of request. */
  lemma DispatchStep(s: RS.System, fate: Fate)
    requires s.clientAlive && T.Attached(s.transport)
    ensures var u := T.Uninitialized(s.transport);
            && RS.Step(s, DispatchOp(fate, u)) == s.(transport := T.Step(s.transport, TransportDispatch(fate, u)))
            && T.Idle(T.Step(s.transport, TransportDispatch(fate, u)))
  {
    hide T.IndexOf;
  }

  lemma SetBaseUriStep(s: RS.System, uri: string)
    requires RS.InUserCode(s)
    ensures RS.Step(s, RS.SetBaseUri(uri)) == s.(transport := T.DoSetBaseUri(s.transport, uri))
    ensures RS.InUserCode(RS.Step(s, RS.SetBaseUri(uri)))
  {
  }

  lemma TickEnterStep(s: RS.System)
    requires RS.InUserCode(s)
    ensures RS.Step(s, RS.TickEnter) == s.(stack := s.stack + [Ticking])
    ensures s.stack == [] || Last(s.stack).Handling?
    ensures RS.InTick(RS.Step(s, RS.TickEnter))
  {
  }

  lemma TickFromUserCode(s: RS.System)
    requires RS.InUserCode(s)
    ensures s.stack == [] || Last(s.stack).Handling?
  {
  }

  lemma TickLeaveStep(s: RS.System)
    requires RS.InTick(s) && s.transport.finished == []
    ensures RS.Step(s, RS.TickLeave) == s.(stack := ButLast(s.stack))
    ensures ButLast(s.stack) == [] || Last(ButLast(s.stack)).Handling? ==> RS.InUserCode(RS.Step(s, RS.TickLeave))
  {
  }

  lemma PopHasResponse(t: T.Transport<Closure>)
    requires TR.Inv(t) && t.finished != []
    ensures t.finished[0].response.Some?
  {
    assert TR.FinishedOk(t.issued, TR.Built(t), t.finished[0]);
  }

  lemma PopShortens(t: T.Transport<Closure>)
    requires t.finished != []
    ensures |T.DoPop(t).finished| == |t.finished| - 1
  {
  }

  lemma TickTurn(s: RS.System)
    requires RS.InTick(s)
    ensures s.stack != [] && Last(s.stack).Ticking? && s.clientAlive
  {
  }

  lemma SkipStep(s: RS.System)
    requires RS.InTick(s) && s.transport.finished != [] && s.transport.finished[0].callback.None?
    ensures RS.Step(s, RS.TickPop) == s.(transport := T.DoPop(s.transport))
    ensures RS.InTick(RS.Step(s, RS.TickPop))
  {
  }

  lemma DeliverStep(s: RS.System, c: Closure, response: Response)
    requires RS.InTick(s) && s.transport.finished != []
    requires s.transport.finished[0].callback == Some(c) && s.transport.finished[0].response == Some(response)
    ensures var u := s.(transport := T.DoPop(s.transport));
            && (c.ptr in s.registry.contexts && c.ptr in s.registry.live ==>
                  var b := s.registry.live[c.ptr];
                  var call := Handled(b.serial, Invoke(b.spec, s.hasDefault, RestVerdict(response)));
                  RS.Step(s, RS.TickPop) == u.(calls := s.calls + [call], stack := s.stack + [Handling(c)])
                  && RS.InUserCode(RS.Step(s, RS.TickPop)))
            && (c.ptr !in s.registry.contexts ==>
                  RS.Step(s, RS.TickPop) == u.(calls := s.calls + [UnknownContext])
                  && RS.InTick(RS.Step(s, RS.TickPop)))
  {
    hide Invoke, RestVerdict;
  }

  lemma RunningIsAlive(s: RS.System, c: Closure)
    requires RR.Inv(s) && s.stack != [] && Last(s.stack) == Handling(c)
    ensures c.ptr in s.registry.live
  {
    hide TR.Inv, Conserved, CallsOk, RR.WaitingOf;
    assert c in FrameBag(s.stack);
  }

  lemma ReturnStep(s: RS.System, c: Closure)
    requires RS.InUserCode(s) && s.stack != [] && Last(s.stack) == Handling(c)
    ensures RS.Step(s, RS.HandlerReturn) == s.(registry := Release(s.registry, c.ptr), stack := ButLast(s.stack))
    ensures ButLast(s.stack) != [] && Last(ButLast(s.stack)).Ticking? ==> RS.InTick(RS.Step(s, RS.HandlerReturn))
  {
    hide Release;
  }

  lemma DisconnectStep(s: RS.System)
    requires RS.InUserCode(s)
    ensures var (r, calls) := RS.CancelEach(s.registry, s.calls, s.hasDefault, s.transport.pending);
            RS.Step(s, RS.Disconnect) == s.(transport := T.DoCancelAll(s.transport), registry := r, calls := calls)
    ensures RS.InUserCode(RS.Step(s, RS.Disconnect))
  {
    hide RS.CancelEach;
  }

  /** The destructor's step once its disconnect has run. */
  lemma DestroyStep(s: RS.System)
    requires RS.InUserCode(s) && s.stack == [] && s.transport.pending == [] && s.transport.client.None?
    ensures RS.Step(s, RS.DestroyClient) == s.(registry := ReleaseAll(s.registry), clientAlive := false)
  {
    hide ReleaseAll;
    assert T.DoCancelAll(s.transport).resolved == s.transport.resolved;
  }
}
