/** What happens outside the classes of RestStack, read from a tape: what user code does when it has the thread, which
    address `new` proposes, which completions the network posts between two lock sections. */
module RestTape {
  import opened Basics
  import opened Responses
  import opened Registry
  import opened Clients
  import opened RestTheorems
  import T = Transport
  import TT = TransportTheorems
  import RS = RestSystem

  /** How an API method goes: it may throw before it reaches the transport, or inside it, or send its request. */
  datatype Fate = Sent | ThrowsBeforeSend | ThrowsInTransport(clientMade: bool)

  /** One item of the tape: an action of user code, the end of a user handler, or a completion from the network. */
  datatype Act =
    | Call(ptr: Ptr, spec: RequestSpec, fate: Fate)
    | TickAgain
    | Disconnect
    | SetBaseUri(uri: string)
    | Return
    | Arrive(id: nat, outcome: T.Outcome)

  /** What of an item must show in the run, and what of a step comes from an item. */
  datatype Deed =
    | Calls(spec: RequestSpec)
    | Throws
    | Ticks
    | Disconnects
    | SetsBaseUri(uri: string)
    | Returns
    | Arrives(id: nat, outcome: T.Outcome)

  function Shown(act: Act): seq<Deed> {
    match act
    case Call(_, spec, fate) => if fate.ThrowsBeforeSend? then [Calls(spec), Throws] else [Calls(spec)]
    case TickAgain => [Ticks]
    case Disconnect => [Disconnects]
    case SetBaseUri(uri) => [SetsBaseUri(uri)]
    case Return => [Returns]
    case Arrive(id, outcome) => [Arrives(id, outcome)]
  }

  function ShownAll(tape: seq<Act>): seq<Deed> {
    if tape == [] then [] else Shown(tape[0]) + ShownAll(tape[1..])
  }

  function Did(op: RS.Op): seq<Deed> {
    match op
    case NewContext(_, spec) => [Calls(spec)]
    case ThrowBeforeSend => [Throws]
    case TickEnter => [Ticks]
    case Disconnect => [Disconnects]
    case SetBaseUri(uri) => [SetsBaseUri(uri)]
    case HandlerReturn => [Returns]
    case Arrive(id, outcome) => [Arrives(id, outcome)]
    case _ => []
  }

  function DidAll(trace: seq<RS.Op>): seq<Deed> {
    if trace == [] then [] else DidAll(ButLast(trace)) + Did(Last(trace))
  }

  // ---- a run plays the tape -----------------------------------------------------------------------------------

  /** Between two moments the run did what the tape lost: no item dropped, doubled, invented or out of order. Handlers
      still running when the tape is at its end return without an item. */
  ghost predicate Plays(was: seq<RS.Op>, tape: seq<Act>, now: seq<RS.Op>, tape': seq<Act>) {
    && was <= now
    && |tape'| <= |tape|
    && var a, b := DidAll(was) + ShownAll(tape), DidAll(now) + ShownAll(tape');
       a == b || (tape' == [] && PaddedBy(a, b, Returns))
  }

  /** The same for user code that met its `Return`: the item is off the tape, the handler about to return. */
  ghost predicate PlaysToReturn(was: seq<RS.Op>, tape: seq<Act>, now: seq<RS.Op>, tape': seq<Act>) {
    && was <= now
    && |tape'| < |tape|
    && DidAll(was) + ShownAll(tape) == DidAll(now) + [Returns] + ShownAll(tape')
  }

  lemma PlaysNothing(trace: seq<RS.Op>, tape: seq<Act>)
    ensures Plays(trace, tape, trace, tape)
  {
  }

  lemma PlaysOn(was: seq<RS.Op>, tape: seq<Act>, mid: seq<RS.Op>, tape1: seq<Act>, now: seq<RS.Op>, tape2: seq<Act>)
    requires Plays(was, tape, mid, tape1) && Plays(mid, tape1, now, tape2)
    ensures Plays(was, tape, now, tape2) && mid <= now
  {
    hide DidAll, ShownAll;
  }

  /** A step that shows what the next item asks for. */
  lemma PlaysItem(trace: seq<RS.Op>, act: Act, tape: seq<Act>, op: RS.Op)
    requires Did(op) == Shown(act)
    ensures Plays(trace, [act] + tape, trace + [op], tape)
  {
    hide Did, Shown;
    assert ButLast(trace + [op]) == trace;
    assert ([act] + tape)[1..] == tape;
  }

  /** A step that takes nothing off the tape. */
  lemma PlaysSilently(trace: seq<RS.Op>, tape: seq<Act>, op: RS.Op)
    requires Did(op) == []
    ensures Plays(trace, tape, trace + [op], tape)
  {
    hide Did;
    assert ButLast(trace + [op]) == trace;
  }

  lemma PlaysThrowing(trace: seq<RS.Op>, ptr: Ptr, ptr': Ptr, spec: RequestSpec, tape: seq<Act>)
    ensures Plays(trace, [Call(ptr, spec, ThrowsBeforeSend)] + tape,
                  trace + [RS.NewContext(ptr', spec)] + [RS.ThrowBeforeSend], tape)
  {
    var one := trace + [RS.NewContext(ptr', spec)];
    assert ButLast(one) == trace && ButLast(one + [RS.ThrowBeforeSend]) == one;
    assert ([Call(ptr, spec, ThrowsBeforeSend)] + tape)[1..] == tape;
  }

  lemma StopsAtReturn(was: seq<RS.Op>, tape: seq<Act>, now: seq<RS.Op>, tape': seq<Act>)
    requires Plays(was, tape, now, [Return] + tape')
    ensures PlaysToReturn(was, tape, now, tape')
  {
    assert ([Return] + tape')[1..] == tape';
    hide DidAll;
  }

  /** The handler's return, with or without an item for it. */
  lemma PlaysReturn(was: seq<RS.Op>, tape: seq<Act>, now: seq<RS.Op>, tape': seq<Act>)
    requires PlaysToReturn(was, tape, now, tape') || (Plays(was, tape, now, tape') && tape' == [])
    ensures Plays(was, tape, now + [RS.HandlerReturn], tape')
  {
    assert ButLast(now + [RS.HandlerReturn]) == now;
    assert DidAll(now + [RS.HandlerReturn]) == DidAll(now) + [Returns];
    assert ShownAll([]) == [];
    hide DidAll, ShownAll;
    var a, b := DidAll(was) + ShownAll(tape), DidAll(now + [RS.HandlerReturn]) + ShownAll(tape');
    if !PlaysToReturn(was, tape, now, tape') {
      assert b == DidAll(now) + [Returns] && DidAll(now) + ShownAll(tape') == DidAll(now);
      assert PaddedBy(a, b, Returns);
    }
  }

  // ---- the steps of one API method ----------------------------------------------------------------------------

  /** The steps of the user's thread. */
  function Own(trace: seq<RS.Op>): seq<RS.Op> {
    if trace == [] then [] else Own(ButLast(trace)) + if Last(trace).Arrive? then [] else [Last(trace)]
  }

  lemma OwnAppend(trace: seq<RS.Op>, op: RS.Op)
    ensures Own(trace + [op]) == if op.Arrive? then Own(trace) else Own(trace) + [op]
  {
    assert ButLast(trace + [op]) == trace;
  }

  /** How request ends, after its callback was stored. */
  function DispatchOp(fate: Fate, uninitialized: bool): RS.Op {
    if uninitialized then RS.Refuse else if fate.ThrowsInTransport? then RS.Abandon(fate.clientMade) else RS.Launch
  }

  function TransportDispatch(fate: Fate, uninitialized: bool): T.Op<Closure> {
    if uninitialized then T.Refuse else if fate.ThrowsInTransport? then T.Abandon(fate.clientMade) else T.Launch
  }

  // ---- ticks on a quiet tape ----------------------------------------------------------------------------------

  /** No completion comes in, and nobody takes the base URI away. */
  predicate QuietTape(tape: seq<Act>) {
    forall act | act in tape :: !act.Arrive? && (act.SetBaseUri? ==> act.uri != "")
  }

  predicate QuietDeed(d: Deed) {
    !d.Arrives? && (d.SetsBaseUri? ==> d.uri != "")
  }

  lemma {:induction false} QuietDeeds(tape: seq<Act>)
    requires QuietTape(tape)
    ensures forall d | d in ShownAll(tape) :: QuietDeed(d)
  {
    if tape != [] {
      QuietDeeds(tape[1..]);
    }
  }

  lemma DidAppend(trace: seq<RS.Op>, op: RS.Op)
    ensures DidAll(trace + [op]) == DidAll(trace) + Did(op)
  {
    assert ButLast(trace + [op]) == trace;
  }

  lemma {:induction false} DidConcat(a: seq<RS.Op>, b: seq<RS.Op>)
    ensures DidAll(a + b) == DidAll(a) + DidAll(b)
    decreases |b|
  {
    if b == [] {
      assert a + b == a;
    } else {
      var m, op := ButLast(b), Last(b);
      assert b == m + [op] && a + b == (a + m) + [op];
      DidAppend(m, op);
      DidAppend(a + m, op);
      hide Did, DidAll;
      DidConcat(a, m);
    }
  }

  lemma AddedDeeds(was: seq<RS.Op>, tape: seq<Act>, added: seq<RS.Op>, tape': seq<Act>)
    requires Plays(was, tape, was + added, tape') && QuietTape(tape)
    ensures forall d | d in DidAll(added) :: QuietDeed(d)
  {
    DidConcat(was, added);
    QuietDeeds(tape);
    assert QuietDeed(Returns);
    hide DidAll, ShownAll, QuietDeed;
    FromTheTape(DidAll(was), ShownAll(tape), DidAll(added), ShownAll(tape'), Returns);
  }

  lemma {:induction false} QuietInside(s: RS.System, ops: seq<RS.Op>)
    requires forall d | d in DidAll(ops) :: QuietDeed(d)
    ensures forall op | op in SeenAll(s, ops) :: TT.Quiet(op)
    decreases |ops|
  {
    if ops != [] {
      QuietInside(s, ButLast(ops));
      hide RS.Exec, RS.Step, SeenAll;
      QuietSeen(RS.Exec(s, ButLast(ops)), Last(ops));
    }
  }

  lemma QuietSeen(s: RS.System, op: RS.Op)
    requires forall d | d in Did(op) :: QuietDeed(d)
    ensures forall o | o in Seen(s, op) :: TT.Quiet(o)
  {
    hide T.Enabled;
    if op.Arrive? || op.SetBaseUri? {
      assert QuietDeed(Did(op)[0]);
    }
  }

  /** A tick played from a quiet tape, with a base URI set, has delivered what was finished when it began, in that
      order, and nothing else. */
  lemma QuietTickDelivers(init: RS.System, was: seq<RS.Op>, tape: seq<Act>, now: seq<RS.Op>, tape': seq<Act>)
    requires Plays(was, tape, now, tape') && QuietTape(tape)
    requires RS.Exec(init, was).transport.baseUri != "" && RS.Exec(init, now).transport.finished == []
    ensures var t, u := RS.Exec(init, was).transport, RS.Exec(init, now).transport;
            T.TickedIds(u.resolved) == T.TickedIds(t.resolved) + T.Ids(t.finished)
  {
    var added := now[|was|..];
    assert now == was + added;
    var s := RS.Exec(init, was);
    AddedDeeds(was, tape, added, tape');
    QuietInside(s, added);
    hide *;
    ExecConcat(init, was, added);
    TransportInside(s, added);
    TT.TickDeliversWhatWasFinished(s.transport, SeenAll(s, added));
  }
}
