/** The HTTP transport (src/NHttpClientCppRest.cpp) as a state machine. Every step is one section that the source
    runs under its mutex, or one step of the user's thread between two of them. C is what a callback captures. */
module Transport {
  import opened Basics
  import opened Responses

  datatype ReqContext<+C> = ReqContext(id: nat, callback: Option<C>, response: Option<Response>)

  /** How a request left the transport's lists. */
  datatype Manner = Ticked | Cancelled | Removed

  datatype Resolution<+C> = Resolution(id: nat, callback: Option<C>, response: Option<Response>, manner: Manner)

  /** The user's thread inside `request`: the id it was given, its callback, and whether it is stored yet. */
  datatype Starting<+C> = Starting(id: nat, callback: Option<C>, attached: bool)

  /** The fields of the transport and its shared context, the continuations the network holds (`launched`, with the
      captured hasCallback flag), and three histories: the callback given to each id, the ids in the order their
      answers came in, and how each request left the lists. `dangling` records a write through a dead pointer. */
  datatype Transport<+C> = Transport(
    pending: seq<ReqContext<C>>,
    finished: seq<ReqContext<C>>,
    nextReqId: nat,
    alive: bool,
    client: Option<string>,
    baseUri: string,
    starting: Option<Starting<C>>,
    launched: map<nat, bool>,
    issued: seq<Option<C>>,
    completed: seq<nat>,
    resolved: seq<Resolution<C>>,
    dangling: bool)

  /** What the task-based continuation finds: an HTTP answer, or an exception. */
  datatype Outcome = Responded(response: Response) | Threw

  datatype Op<+C> =
    | Create(callback: Option<C>)
    | Attach
    | Refuse
    | Launch
    | Abandon(clientMade: bool)
    | SetBaseUri(uri: string)
    | Arrive(id: nat, outcome: Outcome)
    | Pop
    | CancelAll
    | Destroy

  function Init<C>(): Transport<C> {
    Transport([], [], 1, true, None, "", None, map[], [], [], [], false)
  }

  function Ids<C>(s: seq<ReqContext<C>>): (ids: seq<nat>)
    ensures |ids| == |s|
  {
    seq(|s|, i requires 0 <= i < |s| => s[i].id)
  }

  function ResolvedIds<C>(s: seq<Resolution<C>>): (ids: seq<nat>)
    ensures |ids| == |s|
  {
    seq(|s|, i requires 0 <= i < |s| => s[i].id)
  }

  /** Ids whose callback a tick ran, in the order it ran them. */
  function TickedIds<C>(s: seq<Resolution<C>>): seq<nat> {
    if s == [] then []
    else TickedIds(ButLast(s)) + if Last(s).manner.Ticked? then [Last(s).id] else []
  }

  /** The linear search by id; the length of the list when there is none. */
  function IndexOf<C>(s: seq<ReqContext<C>>, id: nat): (k: nat)
    ensures k <= |s|
    ensures k < |s| ==> s[k].id == id
    ensures forall i | 0 <= i < k :: s[i].id != id
  {
    if s == [] then 0 else if s[0].id == id then 0 else 1 + IndexOf(s[1..], id)
  }

  lemma FirstIs<C>(s: seq<ReqContext<C>>, id: nat, k: nat)
    requires k <= |s| && (k < |s| ==> s[k].id == id) && forall i | 0 <= i < k :: s[i].id != id
    ensures IndexOf(s, id) == k
  {
  }

  // ---- the sections -------------------------------------------------------------------------------------------

  /** createReqContext: a new context without callback or response joins the pending list. */
  function DoCreate<C>(t: Transport<C>, callback: Option<C>): Transport<C> {
    t.(pending := t.pending + [ReqContext(t.nextReqId, None, None)],
       nextReqId := t.nextReqId + 1,
       issued := t.issued + [callback],
       starting := Some(Starting(t.nextReqId, callback, false)))
  }

  /** `ctx->callback = callback`, through the raw pointer that createReqContext returned. */
  function DoAttach<C>(t: Transport<C>): Transport<C>
    requires t.starting.Some?
  {
    var k := IndexOf(t.pending, t.starting.value.id);
    if k == |t.pending| then t.(dangling := true)
    else t.(pending := t.pending[k := t.pending[k].(callback := t.starting.value.callback)],
            starting := Some(t.starting.value.(attached := true)))
  }

  /** finishReq: the first pending context with this id takes the response and joins the finished list. */
  function Finish<C>(t: Transport<C>, id: nat, response: Response): Transport<C> {
    var k := IndexOf(t.pending, id);
    if k == |t.pending| then t
    else t.(pending := RemoveAt(t.pending, k),
            finished := t.finished + [t.pending[k].(response := Some(response))],
            completed := t.completed + [id])
  }

  /** removePendingReq: the first pending context with this id is destroyed. */
  function Remove<C>(t: Transport<C>, id: nat): Transport<C> {
    var k := IndexOf(t.pending, id);
    if k == |t.pending| then t
    else t.(pending := RemoveAt(t.pending, k),
            resolved := t.resolved + [Resolution(id, t.pending[k].callback, None, Removed)])
  }

  predicate Uninitialized<C>(t: Transport<C>) {
    t.client.None? && t.baseUri == ""
  }

  /** request without a client or a base URI: the context finishes at once with status 601. */
  function DoRefuse<C>(t: Transport<C>): Transport<C>
    requires t.starting.Some?
  {
    Finish(t.(starting := None), t.starting.value.id, NOT_INITIALIZED)
  }

  /** request hands the continuation, with its hasCallback flag, to the network. */
  function DoLaunch<C>(t: Transport<C>): Transport<C>
    requires t.starting.Some?
  {
    var st := t.starting.value;
    t.(client := if t.client.None? then Some(t.baseUri) else t.client,
       launched := t.launched[st.id := st.callback.Some?],
       starting := None)
  }

  /** An exception leaves request after the callback was stored, before or after it made its client. */
  function DoAbandon<C>(t: Transport<C>, clientMade: bool): Transport<C> {
    t.(client := if clientMade && t.client.None? then Some(t.baseUri) else t.client, starting := None)
  }

  /** The continuation: nothing once the transport is gone, else finishReq, removePendingReq or finishReqWithError. */
  function DoArrive<C>(t: Transport<C>, id: nat, outcome: Outcome): Transport<C>
    requires id in t.launched
  {
    if !t.alive then t
    else match outcome
      case Threw => Finish(t, id, CONNECTION_LOST)
      case Responded(r) => if t.launched[id] then Finish(t, id, r) else Remove(t, id)
  }

  /** popFinishedReq, followed by the callback of the context it returns. */
  function DoPop<C>(t: Transport<C>): Transport<C>
    requires t.finished != []
  {
    var e := t.finished[0];
    t.(finished := t.finished[1..],
       resolved := t.resolved + [Resolution(e.id, e.callback, e.response, Ticked)])
  }

  function CancelResolution<C>(e: ReqContext<C>): Resolution<C> {
    Resolution(e.id, e.callback, if e.callback.Some? then Some(CANCELLED_BY_CALLER) else None, Cancelled)
  }

  function CancelResolutions<C>(s: seq<ReqContext<C>>): (r: seq<Resolution<C>>)
    ensures |r| == |s|
  {
    seq(|s|, i requires 0 <= i < |s| => CancelResolution(s[i]))
  }

  /** cancelAllRequests: drops the client and resolves the pending list from the front, all under the lock. */
  function DoCancelAll<C>(t: Transport<C>): Transport<C> {
    t.(client := None, pending := [], resolved := t.resolved + CancelResolutions(t.pending))
  }

  function DoSetBaseUri<C>(t: Transport<C>, uri: string): Transport<C> {
    t.(baseUri := uri, client := if t.client == Some(uri) then t.client else None)
  }

  /** The user's thread is free to call the transport. */
  predicate Idle<C>(t: Transport<C>) {
    t.alive && t.starting.None?
  }

  predicate Attached<C>(t: Transport<C>) {
    t.alive && t.starting.Some? && t.starting.value.attached
  }

  predicate Enabled<C>(t: Transport<C>, op: Op<C>) {
    match op
    case Create(_) => Idle(t)
    case Attach => t.alive && t.starting.Some? && !t.starting.value.attached
    case Refuse => Attached(t) && Uninitialized(t)
    case Launch => Attached(t) && !Uninitialized(t)
    case Abandon(_) => Attached(t) && !Uninitialized(t)
    case SetBaseUri(_) => Idle(t)
    case Arrive(id, _) => id in t.launched
    case Pop => Idle(t) && t.finished != []
    case CancelAll => Idle(t)
    case Destroy => Idle(t)
  }

  /** One step; an operation that is not enabled does not happen. */
  function Step<C>(t: Transport<C>, op: Op<C>): Transport<C> {
    if !Enabled(t, op) then t
    else match op
      case Create(callback) => DoCreate(t, callback)
      case Attach => DoAttach(t)
      case Refuse => DoRefuse(t)
      case Launch => DoLaunch(t)
      case Abandon(clientMade) => DoAbandon(t, clientMade)
      case SetBaseUri(uri) => DoSetBaseUri(t, uri)
      case Arrive(id, outcome) => DoArrive(t, id, outcome)
      case Pop => DoPop(t)
      case CancelAll => DoCancelAll(t)
      case Destroy => t.(alive := false, client := None)
  }

  function Exec<C>(t: Transport<C>, ops: seq<Op<C>>): Transport<C> {
    if ops == [] then t else Step(Exec(t, ButLast(ops)), Last(ops))
  }

  lemma {:induction false} ExecConcat<C>(t: Transport<C>, a: seq<Op<C>>, b: seq<Op<C>>)
    ensures Exec(t, a + b) == Exec(Exec(t, a), b)
    decreases |b|
  {
    if b == [] {
      assert a + b == a;
    } else {
      ExecConcat(t, a, ButLast(b));
      assert ButLast(a + b) == a + ButLast(b);
    }
  }
}
