/** What a server answer means to each client: the status codes, the answer's verdict and the callback it selects. */
module Responses {
  import opened Basics

  /** Status codes the HTTP transport makes up itself. */
  const CONNECTION_ERROR := 600
  const NOT_INITIALIZED_ERROR := 601
  const CANCELLED_BY_USER := 602
  const HTTP_OK := 200

  /** gRPC status codes, by their numbers in the gRPC specification. */
  const GRPC_OK := 0
  const GRPC_INVALID_ARGUMENT := 3
  const GRPC_NOT_FOUND := 5
  const GRPC_ALREADY_EXISTS := 6
  const GRPC_PERMISSION_DENIED := 7
  const GRPC_INTERNAL := 13
  const GRPC_UNAVAILABLE := 14
  const GRPC_UNAUTHENTICATED := 16

  /** How the body of an error answer reads: not JSON at all, JSON that does not parse, or a JSON object
      whose `code` member is a number or is not. */
  datatype Body = NotJson | BadJson | Json(code: Option<int>)

  /** An HTTP answer. `decodes` is the environment's verdict on decoding the body into the expected message. */
  datatype Response = Response(statusCode: int, body: Body, decodes: bool)

  const CONNECTION_LOST := Response(CONNECTION_ERROR, NotJson, false)
  const NOT_INITIALIZED := Response(NOT_INITIALIZED_ERROR, NotJson, false)
  const CANCELLED_BY_CALLER := Response(CANCELLED_BY_USER, NotJson, false)

  datatype ErrorCode =
    | Unknown | NotFound | AlreadyExists | InvalidArgument | Unauthenticated
    | PermissionDenied | ConnectionError | InternalError | CancelledByUser

  /** The switch both clients make over a gRPC code. */
  function CodeOf(grpc: int): ErrorCode {
    if grpc == GRPC_UNAVAILABLE then ConnectionError
    else if grpc == GRPC_INTERNAL then InternalError
    else if grpc == GRPC_NOT_FOUND then NotFound
    else if grpc == GRPC_ALREADY_EXISTS then AlreadyExists
    else if grpc == GRPC_INVALID_ARGUMENT then InvalidArgument
    else if grpc == GRPC_UNAUTHENTICATED then Unauthenticated
    else if grpc == GRPC_PERMISSION_DENIED then PermissionDenied
    else Unknown
  }

  /** The outcome of a request as the layer above the wire sees it. */
  datatype Verdict = Succeeded(decodes: bool) | Failed(code: ErrorCode)

  /** RestClient::onResponse: what an HTTP answer amounts to. */
  function RestVerdict(r: Response): Verdict {
    if r.statusCode == HTTP_OK then Succeeded(r.decodes)
    else if r.statusCode == CONNECTION_ERROR then Failed(ConnectionError)
    else if r.statusCode == CANCELLED_BY_USER then Failed(CancelledByUser)
    else match r.body
      case NotJson => Failed(Unknown)
      case BadJson => Failed(InternalError)
      case Json(None) => Failed(Unknown)
      case Json(Some(code)) => Failed(CodeOf(code))
  }

  /** GrpcClient::onResponse: what a completion event amounts to. */
  function GrpcVerdict(ok: bool, status: int): Verdict {
    if !ok then Failed(ConnectionError)
    else if status == GRPC_OK then Succeeded(true)
    else Failed(CodeOf(status))
  }

  /** The same server error, delivered over HTTP with its gRPC code in the body and over gRPC as a status, reads
      the same on both clients exactly when the HTTP status is none of the three the client interprets itself,
      or the two readings happen to meet. */
  lemma SameErrorOnBothWires(r: Response, code: int)
    requires r.body == Json(Some(code))
    ensures RestVerdict(r) == GrpcVerdict(true, code) <==>
            || (r.statusCode == HTTP_OK && code == GRPC_OK && r.decodes)
            || (r.statusCode == CONNECTION_ERROR && code == GRPC_UNAVAILABLE)
            || (r.statusCode !in {HTTP_OK, CONNECTION_ERROR, CANCELLED_BY_USER} && code != GRPC_OK)
  {
  }

  /** A server error that each of the three statuses hides. */
  lemma StatusHidesTheError()
    ensures RestVerdict(Response(HTTP_OK, Json(Some(GRPC_NOT_FOUND)), false)) == Succeeded(false)
    ensures RestVerdict(Response(CONNECTION_ERROR, Json(Some(GRPC_NOT_FOUND)), false)) == Failed(ConnectionError)
    ensures RestVerdict(Response(CANCELLED_BY_USER, Json(Some(GRPC_NOT_FOUND)), false)) == Failed(CancelledByUser)
    ensures GrpcVerdict(true, GRPC_NOT_FOUND) == Failed(NotFound)
  {
  }

  /** The callbacks a caller gave, and whether the answer has a message to decode. */
  datatype RequestSpec = RequestSpec(hasSuccess: bool, hasError: bool, hasData: bool)

  /** Which user function one answer runs. */
  datatype Invocation =
    | SuccessCallback
    | ErrorCallback(code: ErrorCode)
    | DefaultErrorCallback(code: ErrorCode)
    | Unhandled(code: ErrorCode)
    | Nothing

  /** reqError: the request's own error callback, else the client's default one, else a log line. */
  function ReqError(spec: RequestSpec, hasDefault: bool, code: ErrorCode): Invocation {
    if spec.hasError then ErrorCallback(code)
    else if hasDefault then DefaultErrorCallback(code)
    else Unhandled(code)
  }

  function Invoke(spec: RequestSpec, hasDefault: bool, v: Verdict): Invocation {
    match v
    case Succeeded(decodes) =>
      if !spec.hasSuccess then Nothing
      else if spec.hasData && !decodes then ReqError(spec, hasDefault, InternalError)
      else SuccessCallback
    case Failed(code) => ReqError(spec, hasDefault, code)
  }

  // ---- what the caller sees, in the terms of the answer alone -------------------------------------------------

  /** Who hears of an error: the request's own callback if it has one, else the default one if there is one, else
      nobody. */
  predicate RightReceiver(spec: RequestSpec, hasDefault: bool, chosen: Invocation) {
    && (chosen.ErrorCallback? ==> spec.hasError)
    && (chosen.DefaultErrorCallback? ==> !spec.hasError && hasDefault)
    && (chosen.Unhandled? ==> !spec.hasError && !hasDefault)
  }

  predicate IsError(chosen: Invocation) {
    chosen.ErrorCallback? || chosen.DefaultErrorCallback? || chosen.Unhandled?
  }

  /** The error code that stands for a server's number, by the numbers of the gRPC specification. */
  predicate StandsFor(code: ErrorCode, number: int) {
    && (code == InvalidArgument <==> number == 3)
    && (code == NotFound <==> number == 5)
    && (code == AlreadyExists <==> number == 6)
    && (code == PermissionDenied <==> number == 7)
    && (code == InternalError <==> number == 13)
    && (code == ConnectionError <==> number == 14)
    && (code == Unauthenticated <==> number == 16)
    && code != CancelledByUser
  }

  /** The error code that stands for an HTTP answer. */
  predicate ExplainsAnswer(code: ErrorCode, r: Response) {
    if r.statusCode == 200 then code == InternalError
    else if r.statusCode == 600 then code == ConnectionError
    else if r.statusCode == 602 then code == CancelledByUser
    else match r.body
      case NotJson => code == Unknown
      case BadJson => code == InternalError
      case Json(None) => code == Unknown
      case Json(Some(number)) => StandsFor(code, number)
  }

  /** An HTTP answer runs this function: success if and only if the status is 200 and whatever has to be decoded
      decodes; otherwise the error path, with the code that explains the answer. */
  predicate AnsweredBy(spec: RequestSpec, hasDefault: bool, r: Response, chosen: Invocation) {
    && (chosen == SuccessCallback <==> r.statusCode == 200 && spec.hasSuccess && (spec.hasData ==> r.decodes))
    && (chosen == Nothing <==> r.statusCode == 200 && !spec.hasSuccess)
    && RightReceiver(spec, hasDefault, chosen)
    && (IsError(chosen) ==> ExplainsAnswer(chosen.code, r))
  }

  /** A completion event runs this function: success if and only if the exchange took place with status 0; otherwise
      the error path, with ConnectionError if there was no exchange. */
  predicate CompletedBy(spec: RequestSpec, hasDefault: bool, ok: bool, status: int, chosen: Invocation) {
    && (chosen == SuccessCallback <==> ok && status == 0 && spec.hasSuccess)
    && (chosen == Nothing <==> ok && status == 0 && !spec.hasSuccess)
    && RightReceiver(spec, hasDefault, chosen)
    && (IsError(chosen) ==> if ok then StandsFor(chosen.code, status) else chosen.code == ConnectionError)
  }

  /** Of all functions an HTTP answer could run, the verdict selects exactly the one it should. */
  lemma VerdictAnswers(spec: RequestSpec, hasDefault: bool, r: Response, chosen: Invocation)
    ensures AnsweredBy(spec, hasDefault, r, chosen) <==> chosen == Invoke(spec, hasDefault, RestVerdict(r))
  {
  }

  /** And so does a completion event. */
  lemma VerdictCompletes(spec: RequestSpec, hasDefault: bool, ok: bool, status: int, chosen: Invocation)
    ensures CompletedBy(spec, hasDefault, ok, status, chosen) <==>
            chosen == Invoke(spec, hasDefault, GrpcVerdict(ok, status))
  {
    assert StandsFor(CodeOf(status), status);
  }

  /** A lost connection, status 600 over HTTP and no exchange over gRPC, runs the same function with the same code on
      both clients. */
  lemma LostConnectionReadsTheSame(spec: RequestSpec, hasDefault: bool, r: Response, status: int, chosen: Invocation)
    requires r.statusCode == 600
    ensures AnsweredBy(spec, hasDefault, r, chosen) <==> CompletedBy(spec, hasDefault, false, status, chosen)
    ensures AnsweredBy(spec, hasDefault, r, chosen) ==> IsError(chosen) && chosen.code == ConnectionError
  {
  }
}
