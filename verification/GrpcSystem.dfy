/** GrpcClient (src/GrpcClient.cpp) on its completion queue, as a state machine with the same shape as RestSystem. */
module GrpcSystem {
  import opened Basics
  import opened Responses
  import opened Registry
  import opened Clients

  /** What the completion queue hands out: the tag of a call, the `ok` flag, and the status gRPC wrote for it. */
  datatype Event = Event(tag: Closure, ok: bool, status: int)

  datatype System = System(
    registry: Registry,
    inFlight: seq<Closure>,
    queue: seq<Event>,
    stack: seq<Frame>,
    building: Option<Closure>,
    unsent: set<nat>,
    calls: seq<Call>,
    hasDefault: bool,
    clientAlive: bool,
    shutDown: bool)

  datatype Op =
    | NewContext(ptr: Ptr, spec: RequestSpec)
    | ThrowBeforeSend
    | Launch
    | Complete(tag: Closure, ok: bool, status: int)
    | TickEnter
    | TickEvent
    | TickLeave
    | HandlerReturn
    | Disconnect
    | DestroyClient

  function Init(hasDefault: bool): System {
    System(EMPTY, [], [], [], None, {}, [], hasDefault, true, false)
  }

  predicate InUserCode(s: System) {
    s.clientAlive && s.building.None? && (s.stack == [] || Last(s.stack).Handling?)
  }

  predicate InTick(s: System) {
    s.clientAlive && s.building.None? && s.stack != [] && Last(s.stack).Ticking?
  }

  function TagIndex(s: seq<Closure>, tag: Closure): (k: nat)
    requires tag in s
    ensures k < |s| && s[k] == tag
  {
    if s[0] == tag then 0 else 1 + TagIndex(s[1..], tag)
  }

  /** onResponse up to the point where the user's handler gets the thread. */
  function DoTickEvent(s: System): System
    requires s.queue != []
  {
    var e := s.queue[0];
    var call := Lookup(s.registry, e.tag.ptr, s.hasDefault, GrpcVerdict(e.ok, e.status));
    s.(queue := s.queue[1..], calls := s.calls + [call],
       stack := if call.Handled? then s.stack + [Handling(e.tag)] else s.stack)
  }

  function DoHandlerReturn(s: System): System
    requires s.stack != [] && Last(s.stack).Handling?
  {
    s.(registry := Release(s.registry, Last(s.stack).closure.ptr), stack := ButLast(s.stack))
  }

  predicate Enabled(s: System, op: Op) {
    match op
    case NewContext(ptr, _) => InUserCode(s) && ptr !in s.registry.live
    case ThrowBeforeSend => s.building.Some?
    case Launch => s.building.Some? && !s.shutDown
    case Complete(tag, _, _) => tag in s.inFlight
    case TickEnter => InUserCode(s)
    case TickEvent => InTick(s) && s.queue != []
    case TickLeave => InTick(s) && s.queue == []
    case HandlerReturn => InUserCode(s) && s.stack != []
    case Disconnect => InUserCode(s)
    case DestroyClient => InUserCode(s) && s.stack == []
  }

  function Step(s: System, op: Op): System {
    if !Enabled(s, op) then s
    else match op
      case NewContext(ptr, spec) =>
        s.(registry := Allocate(s.registry, ptr, spec), building := Some(Closure(ptr, |s.registry.home|)))
      case ThrowBeforeSend => s.(building := None, unsent := s.unsent + {s.building.value.serial})
      case Launch => s.(inFlight := s.inFlight + [s.building.value], building := None)
      case Complete(tag, ok, status) =>
        s.(inFlight := RemoveAt(s.inFlight, TagIndex(s.inFlight, tag)), queue := s.queue + [Event(tag, ok, status)])
      case TickEnter => s.(stack := s.stack + [Ticking])
      case TickEvent => DoTickEvent(s)
      case TickLeave => s.(stack := ButLast(s.stack))
      case HandlerReturn => DoHandlerReturn(s)
      case Disconnect => s.(shutDown := true)
      case DestroyClient => s.(shutDown := true, registry := ReleaseAll(s.registry), clientAlive := false)
  }

  function Exec(s: System, ops: seq<Op>): System {
    if ops == [] then s else Step(Exec(s, ButLast(ops)), Last(ops))
  }
}
