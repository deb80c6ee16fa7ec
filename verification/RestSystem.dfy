/** RestClient (src/RestClient.cpp) on top of the HTTP transport, as one state machine: the user's thread, with the
    stack of ticks and handlers it is inside, and the network. */
module RestSystem {
  import opened Basics
  import opened Responses
  import opened Registry
  import opened Clients
  import T = Transport

  /** `building` is the context an API method has created but whose callback the transport has not stored yet;
      `unsent` the serials of contexts whose API method threw before it reached the transport. */
  datatype System = System(
    transport: T.Transport<Closure>,
    registry: Registry,
    stack: seq<Frame>,
    building: Option<Closure>,
    unsent: set<nat>,
    calls: seq<Call>,
    hasDefault: bool,
    clientAlive: bool)

  datatype Op =
    | NewContext(ptr: Ptr, spec: RequestSpec)
    | ThrowBeforeSend
    | Send
    | Attach
    | Refuse
    | Launch
    | Abandon(clientMade: bool)
    | SetBaseUri(uri: string)
    | Arrive(id: nat, outcome: T.Outcome)
    | TickEnter
    | TickPop
    | TickLeave
    | HandlerReturn
    | Disconnect
    | DestroyClient
    | DestroyTransport

  function Init(hasDefault: bool): System {
    System(T.Init(), EMPTY, [], None, {}, [], hasDefault, true)
  }

  /** The user's own code has the thread: at top level, or inside a handler that a tick runs. */
  predicate InUserCode(s: System) {
    && s.clientAlive
    && s.building.None?
    && T.Idle(s.transport)
    && (s.stack == [] || Last(s.stack).Handling?)
  }

  predicate InTick(s: System) {
    s.clientAlive && s.stack != [] && Last(s.stack).Ticking? && s.building.None? && T.Idle(s.transport)
  }

  /** onResponse up to the point where the user's handler gets the thread. */
  function Deliver(s: System, c: Closure, response: Option<Response>): System {
    if response.None? then s.(calls := s.calls + [Dangling])
    else
      var call := Lookup(s.registry, c.ptr, s.hasDefault, RestVerdict(response.value));
      s.(calls := s.calls + [call], stack := if call.Handled? then s.stack + [Handling(c)] else s.stack)
  }

  function DoTickPop(s: System): System
    requires s.transport.finished != []
  {
    var e := s.transport.finished[0];
    var u := s.(transport := T.Step(s.transport, T.Pop));
    if e.callback.None? then u else Deliver(u, e.callback.value, e.response)
  }

  /** The rest of onResponse, once the handler has returned. */
  function DoHandlerReturn(s: System): System
    requires s.stack != [] && Last(s.stack).Handling?
  {
    s.(registry := Release(s.registry, Last(s.stack).closure.ptr), stack := ButLast(s.stack))
  }

  /** One onResponse with the 602 answer; its handler must not call the transport, so it happens in one go. */
  function CancelOne(r: Registry, calls: seq<Call>, hasDefault: bool, c: Closure): (Registry, seq<Call>) {
    var call := Lookup(r, c.ptr, hasDefault, RestVerdict(CANCELLED_BY_CALLER));
    (if call.Handled? then Release(r, c.ptr) else r, calls + [call])
  }

  /** The loop of cancelAllRequests, front to back. */
  function CancelEach(r: Registry, calls: seq<Call>, hasDefault: bool, pending: seq<T.ReqContext<Closure>>)
    : (Registry, seq<Call>)
    decreases pending
  {
    if pending == [] then (r, calls)
    else if pending[0].callback.None? then CancelEach(r, calls, hasDefault, pending[1..])
    else
      var (r1, calls1) := CancelOne(r, calls, hasDefault, pending[0].callback.value);
      CancelEach(r1, calls1, hasDefault, pending[1..])
  }

  function DoDisconnect(s: System): System {
    var (r, calls) := CancelEach(s.registry, s.calls, s.hasDefault, s.transport.pending);
    s.(transport := T.Step(s.transport, T.CancelAll), registry := r, calls := calls)
  }

  /** ~RestClient: disconnect, then delete whatever is still registered. */
  function DoDestroyClient(s: System): System {
    var d := DoDisconnect(s);
    d.(registry := ReleaseAll(d.registry), clientAlive := false)
  }

  predicate Enabled(s: System, op: Op) {
    match op
    case NewContext(ptr, _) => InUserCode(s) && ptr !in s.registry.live
    case ThrowBeforeSend => s.building.Some? && T.Idle(s.transport)
    case Send => s.building.Some? && T.Idle(s.transport)
    case Attach => s.building.Some? && T.Enabled(s.transport, T.Attach)
    case Refuse => s.clientAlive && T.Enabled(s.transport, T.Refuse)
    case Launch => s.clientAlive && T.Enabled(s.transport, T.Launch)
    case Abandon(made) => s.clientAlive && T.Enabled(s.transport, T.Abandon(made))
    case SetBaseUri(_) => InUserCode(s)
    case Arrive(id, _) => id in s.transport.launched
    case TickEnter => InUserCode(s)
    case TickPop => InTick(s) && s.transport.finished != []
    case TickLeave => InTick(s) && s.transport.finished == []
    case HandlerReturn => InUserCode(s) && s.stack != []
    case Disconnect => InUserCode(s)
    case DestroyClient => InUserCode(s) && s.stack == []
    case DestroyTransport => !s.clientAlive && T.Idle(s.transport)
  }

  /** Which step of the transport a step of the system is, where it is one. */
  function TransportOp(s: System, op: Op): T.Op<Closure>
    requires Enabled(s, op) && (op.Send? || op.Attach? || op.Refuse? || op.Launch? || op.Abandon? || op.SetBaseUri?
                                || op.Arrive? || op.DestroyTransport?)
  {
    match op
    case Send => T.Create(s.building)
    case Attach => T.Attach
    case Refuse => T.Refuse
    case Launch => T.Launch
    case Abandon(made) => T.Abandon(made)
    case SetBaseUri(uri) => T.SetBaseUri(uri)
    case Arrive(id, outcome) => T.Arrive(id, outcome)
    case DestroyTransport => T.Destroy
  }

  /** One step; an operation that is not enabled does not happen. */
  function Step(s: System, op: Op): System {
    if !Enabled(s, op) then s
    else match op
      case NewContext(ptr, spec) =>
        s.(registry := Allocate(s.registry, ptr, spec), building := Some(Closure(ptr, |s.registry.home|)))
      case ThrowBeforeSend => s.(building := None, unsent := s.unsent + {s.building.value.serial})
      case TickEnter => s.(stack := s.stack + [Ticking])
      case TickPop => DoTickPop(s)
      case TickLeave => s.(stack := ButLast(s.stack))
      case HandlerReturn => DoHandlerReturn(s)
      case Disconnect => DoDisconnect(s)
      case DestroyClient => DoDestroyClient(s)
      case Attach => s.(transport := T.Step(s.transport, T.Attach), building := None)
      case _ => s.(transport := T.Step(s.transport, TransportOp(s, op)))
  }

  function Exec(s: System, ops: seq<Op>): System {
    if ops == [] then s else Step(Exec(s, ButLast(ops)), Last(ops))
  }
}
