/** What happens outside the class of GrpcStack, read from a tape like RestTape's. */
module GrpcTape {
  import opened Basics
  import opened Responses
  import opened Registry
  import opened Clients
  import GS = GrpcSystem
  import GR = GrpcRuns

  /** One item of the tape. An API method may throw after it created its context (`sent` is false then). */
  datatype Act =
    | Call(ptr: Ptr, spec: RequestSpec, sent: bool)
    | TickAgain
    | Disconnect
    | Return
    | Complete(tag: Closure, ok: bool, status: int)

  /** What of an item must show in the run, and what of a step comes from an item. */
  datatype Deed =
    | Calls(spec: RequestSpec)
    | Sends
    | Throws
    | Ticks
    | Disconnects
    | Returns
    | Completes(tag: Closure, ok: bool, status: int)

  /** After Shutdown no call can be made. */
  function Shown(act: Act, shut: bool): seq<Deed> {
    match act
    case Call(_, spec, sent) => if shut then [] else [Calls(spec)] + [if sent then Sends else Throws]
    case TickAgain => [Ticks]
    case Disconnect => [Disconnects]
    case Return => [Returns]
    case Complete(tag, ok, status) => [Completes(tag, ok, status)]
  }

  function ShownAll(tape: seq<Act>, shut: bool): seq<Deed> {
    if tape == [] then [] else Shown(tape[0], shut) + ShownAll(tape[1..], shut || tape[0].Disconnect?)
  }

  function Did(op: GS.Op): seq<Deed> {
    match op
    case NewContext(_, spec) => [Calls(spec)]
    case Launch => [Sends]
    case ThrowBeforeSend => [Throws]
    case TickEnter => [Ticks]
    case Disconnect => [Disconnects]
    case HandlerReturn => [Returns]
    case Complete(tag, ok, status) => [Completes(tag, ok, status)]
    case _ => []
  }

  function DidAll(trace: seq<GS.Op>): seq<Deed> {
    if trace == [] then [] else DidAll(ButLast(trace)) + Did(Last(trace))
  }

  lemma DidAppend(trace: seq<GS.Op>, op: GS.Op)
    ensures DidAll(trace + [op]) == DidAll(trace) + Did(op)
  {
    assert ButLast(trace + [op]) == trace;
  }

  /** A run up to some moment, and what is left of the tape then. */
  datatype Moment = Moment(trace: seq<GS.Op>, shut: bool, tape: seq<Act>)

  /** What was done so far and what is still to do. */
  function Story(m: Moment): seq<Deed> {
    DidAll(m.trace) + ShownAll(m.tape, m.shut)
  }

  // ---- a run plays the tape -----------------------------------------------------------------------------------

  /** Between two moments the run did what the tape lost: no item dropped, doubled, invented or out of order. Handlers
      still running when the tape is at its end return without an item. */
  ghost predicate Plays(m: Moment, n: Moment) {
    && m.trace <= n.trace
    && |n.tape| <= |m.tape|
    && (Story(m) == Story(n) || (n.tape == [] && PaddedBy(Story(m), Story(n), Returns)))
  }

  /** The same for user code that met its `Return`: the item is off the tape, the handler about to return. */
  ghost predicate PlaysToReturn(m: Moment, n: Moment) {
    && m.trace <= n.trace
    && |n.tape| < |m.tape|
    && Story(m) == DidAll(n.trace) + [Returns] + ShownAll(n.tape, n.shut)
  }

  lemma PlaysNothing(m: Moment)
    ensures Plays(m, m)
  {
  }

  lemma PlaysOn(a: Moment, b: Moment, c: Moment)
    requires Plays(a, b) && Plays(b, c)
    ensures Plays(a, c) && b.trace <= c.trace
  {
    hide Story;
  }

  /** A step that shows what the next item asks for. */
  lemma PlaysItem(trace: seq<GS.Op>, shut: bool, act: Act, tape: seq<Act>, op: GS.Op)
    requires Did(op) == Shown(act, shut)
    ensures Plays(Moment(trace, shut, [act] + tape), Moment(trace + [op], shut || act.Disconnect?, tape))
  {
    DidAppend(trace, op);
    hide Did, Shown, DidAll;
    assert ([act] + tape)[1..] == tape;
  }

  lemma PlaysTickEnter(trace: seq<GS.Op>, shut: bool, tape: seq<Act>)
    ensures Plays(Moment(trace, shut, [TickAgain] + tape), Moment(trace + [GS.TickEnter], shut, tape))
  {
    hide Plays;
    PlaysItem(trace, shut, TickAgain, tape, GS.TickEnter);
  }

  /** A step that takes nothing off the tape. */
  lemma PlaysSilently(trace: seq<GS.Op>, shut: bool, tape: seq<Act>, op: GS.Op)
    requires Did(op) == []
    ensures Plays(Moment(trace, shut, tape), Moment(trace + [op], shut, tape))
  {
    DidAppend(trace, op);
    hide Did, DidAll;
  }

  lemma PlaysCall(trace: seq<GS.Op>, ptr: Ptr, ptr': Ptr, spec: RequestSpec, sent: bool, tape: seq<Act>)
    ensures Plays(Moment(trace, false, [Call(ptr, spec, sent)] + tape),
                  Moment(trace + [GS.NewContext(ptr', spec)] + [if sent then GS.Launch else GS.ThrowBeforeSend],
                         false, tape))
  {
    var op := if sent then GS.Launch else GS.ThrowBeforeSend;
    var act := Call(ptr, spec, sent);
    DidAppend(trace, GS.NewContext(ptr', spec));
    DidAppend(trace + [GS.NewContext(ptr', spec)], op);
    assert ([act] + tape)[1..] == tape;
    assert ShownAll([act] + tape, false) == Shown(act, false) + ShownAll(tape, false);
    assert Shown(act, false) == Did(GS.NewContext(ptr', spec)) + Did(op);
    hide DidAll, PaddedBy, Did, Shown, ShownAll;
  }

  lemma PlaysNoCall(trace: seq<GS.Op>, act: Act, tape: seq<Act>)
    requires act.Call?
    ensures Plays(Moment(trace, true, [act] + tape), Moment(trace, true, tape))
  {
    assert ([act] + tape)[1..] == tape;
  }

  lemma StopsAtReturn(m: Moment, trace: seq<GS.Op>, shut: bool, tape: seq<Act>)
    requires Plays(m, Moment(trace, shut, [Return] + tape))
    ensures PlaysToReturn(m, Moment(trace, shut, tape))
  {
    assert ([Return] + tape)[1..] == tape;
    hide DidAll;
  }

  /** The handler's return, with or without an item for it. */
  lemma PlaysReturn(m: Moment, n: Moment)
    requires PlaysToReturn(m, n) || (Plays(m, n) && n.tape == [])
    ensures Plays(m, n.(trace := n.trace + [GS.HandlerReturn]))
  {
    DidAppend(n.trace, GS.HandlerReturn);
    assert ShownAll([], n.shut) == [];
    hide DidAll, ShownAll;
    var r := n.(trace := n.trace + [GS.HandlerReturn]);
    if !PlaysToReturn(m, n) {
      assert Story(r) == DidAll(n.trace) + [Returns] && Story(n) == DidAll(n.trace);
      assert PaddedBy(Story(m), Story(r), Returns);
    }
  }

  // ---- ticks on a quiet tape ----------------------------------------------------------------------------------

  /** No completion comes in. */
  predicate QuietTape(tape: seq<Act>) {
    forall act | act in tape :: !act.Complete?
  }

  lemma {:induction false} QuietDeeds(tape: seq<Act>, shut: bool)
    requires QuietTape(tape)
    ensures forall d | d in ShownAll(tape, shut) :: !d.Completes?
    decreases |tape|
  {
    if tape != [] {
      QuietDeeds(tape[1..], shut || tape[0].Disconnect?);
    }
  }

  lemma {:induction false} DidConcat(a: seq<GS.Op>, b: seq<GS.Op>)
    ensures DidAll(a + b) == DidAll(a) + DidAll(b)
    decreases |b|
  {
    if b == [] {
      assert a + b == a;
    } else {
      var m, op := ButLast(b), Last(b);
      assert b == m + [op] && a + b == (a + m) + [op];
      DidAppend(m, op);
      DidAppend(a + m, op);
      hide Did, DidAll;
      DidConcat(a, m);
    }
  }

  lemma {:induction false} NoCompletions(ops: seq<GS.Op>)
    requires forall d | d in DidAll(ops) :: !d.Completes?
    ensures forall op | op in ops :: !op.Complete?
    decreases |ops|
  {
    if ops != [] {
      var before, op := DidAll(ButLast(ops)), Last(ops);
      assert DidAll(ops) == before + Did(op);
      assert forall i | 0 <= i < |before| :: before[i] in DidAll(ops);
      NoCompletions(ButLast(ops));
      assert Did(op) != [] ==> DidAll(ops)[|before|] == Did(op)[0];
      assert ops == ButLast(ops) + [op];
    }
  }

  lemma {:induction false} ExecConcat(s: GS.System, a: seq<GS.Op>, b: seq<GS.Op>)
    ensures GS.Exec(s, a + b) == GS.Exec(GS.Exec(s, a), b)
    decreases |b|
  {
    hide GS.Step;
    if b == [] {
      assert a + b == a;
    } else {
      ExecConcat(s, a, ButLast(b));
      assert ButLast(a + b) == a + ButLast(b);
    }
  }

  lemma QuietAdded(m: Moment, added: seq<GS.Op>, n: Moment)
    requires Plays(m, n) && n.trace == m.trace + added && QuietTape(m.tape)
    ensures forall op | op in added :: !op.Complete?
  {
    DidConcat(m.trace, added);
    QuietDeeds(m.tape, m.shut);
    hide DidAll, ShownAll;
    FromTheTape(DidAll(m.trace), ShownAll(m.tape, m.shut), DidAll(added), ShownAll(n.tape, n.shut), Returns);
    NoCompletions(added);
  }

  lemma TraceGrows(m: Moment, n: Moment)
    requires Plays(m, n)
    ensures m.trace <= n.trace
  {
  }

  /** A tick played from a quiet tape has answered what was queued when it began, in that order, and nothing else. */
  lemma QuietTickAnswers(init: GS.System, m: Moment, n: Moment)
    requires Plays(m, n) && QuietTape(m.tape)
    requires GR.Inv(GS.Exec(init, m.trace)) && GS.Exec(init, m.trace).clientAlive
    requires GS.Exec(init, n.trace).queue == []
    ensures var s := GS.Exec(init, m.trace);
            GS.Exec(init, n.trace).calls == s.calls + GR.Answers(s.registry.specs, s.hasDefault, s.queue)
  {
    hide *;
    TraceGrows(m, n);
    var added := n.trace[|m.trace|..];
    assert n.trace == m.trace + added;
    QuietAdded(m, added, n);
    ExecConcat(init, m.trace, added);
    GR.TickAnswersWhatWasQueued(GS.Exec(init, m.trace), added);
  }
}
