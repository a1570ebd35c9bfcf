/** The request dispatcher of the embedded HTTP server, and its counters. */
module Dispatcher {
  import opened Common

  /** The response classes of section 6 of RFC 7231; any other code is invalid. */
  datatype StatusClass = Invalid | Informational | Successful | Redirection | ClientError | ServerError

  /** The class of a response; a code that the HTTP library does not list is read back as an unknown status. */
  function ClassOf(status: nat, known: set<nat>): StatusClass {
    if status in known then ClassByHundreds(status / 100) else Invalid
  }

  function ClassByHundreds(hundreds: nat): StatusClass {
    if hundreds == 1 then Informational
    else if hundreds == 2 then Successful
    else if hundreds == 3 then Redirection
    else if hundreds == 4 then ClientError
    else if hundreds == 5 then ServerError
    else Invalid
  }

  /** The responses of each class, in the dispatcher's `write_invalid_`, `write_100_` to `write_500_`. */
  datatype ByClass = ByClass(
    invalid: nat, informational: nat, successful: nat, redirection: nat, clientError: nat, serverError: nat)

  datatype Counters = Counters(
    openConnection: nat, closeConnection: nat, readOk: nat, readError: nat, responses: ByClass,
    writeOk: nat, writeError: nat, acceptOk: nat, acceptError: nat, acceptClosed: nat)

  /** The number of responses of a class. */
  function Responses(c: Counters, k: StatusClass): nat {
    match k
    case Invalid => c.responses.invalid
    case Informational => c.responses.informational
    case Successful => c.responses.successful
    case Redirection => c.responses.redirection
    case ClientError => c.responses.clientError
    case ServerError => c.responses.serverError
  }

  function AllResponses(c: Counters): nat {
    var r := c.responses;
    r.invalid + r.informational + r.successful + r.redirection + r.clientError + r.serverError
  }

  const ZERO := Counters(0, 0, 0, 0, ByClass(0, 0, 0, 0, 0, 0), 0, 0, 0, 0, 0)

  /** Only the response counters differ. */
  ghost predicate SameApartFromResponses(a: Counters, b: Counters) {
    && a.openConnection == b.openConnection && a.closeConnection == b.closeConnection
    && a.readOk == b.readOk && a.readError == b.readError
    && a.writeOk == b.writeOk && a.writeError == b.writeError
    && a.acceptOk == b.acceptOk && a.acceptError == b.acceptError && a.acceptClosed == b.acceptClosed
  }

  /** `b` counts exactly one response more than `a`, of the class `k`. */
  ghost predicate OneMoreResponse(a: Counters, b: Counters, k: StatusClass) {
    && SameApartFromResponses(a, b)
    && forall l :: Responses(b, l) == Responses(a, l) + if l == k then 1 else 0
  }

  function CountResponse(c: Counters, k: StatusClass): Counters {
    c.(responses := CountClass(c.responses, k))
  }

  function CountClass(r: ByClass, k: StatusClass): ByClass {
    match k
    case Invalid => r.(invalid := r.invalid + 1)
    case Informational => r.(informational := r.informational + 1)
    case Successful => r.(successful := r.successful + 1)
    case Redirection => r.(redirection := r.redirection + 1)
    case ClientError => r.(clientError := r.clientError + 1)
    case ServerError => r.(serverError := r.serverError + 1)
  }

  lemma CountsOne(c: Counters, k: StatusClass)
    ensures OneMoreResponse(c, CountResponse(c, k), k)
    ensures AllResponses(CountResponse(c, k)) == AllResponses(c) + 1
  {
  }

  /**
   * A response with this status, and no other, is counted in these classes.
   * The library lists the code or the response is invalid; listed codes go by hundreds.
   */
  ghost predicate CountedByRange(before: ByClass, after: ByClass, status: nat, known: set<nat>) {
    && (status in known && 100 <= status < 200 ==> after == before.(informational := before.informational + 1))
    && (status in known && 200 <= status < 300 ==> after == before.(successful := before.successful + 1))
    && (status in known && 300 <= status < 400 ==> after == before.(redirection := before.redirection + 1))
    && (status in known && 400 <= status < 500 ==> after == before.(clientError := before.clientError + 1))
    && (status in known && 500 <= status < 600 ==> after == before.(serverError := before.serverError + 1))
    && (status !in known || status < 100 || 600 <= status ==> after == before.(invalid := before.invalid + 1))
  }

  /** The class of a response decides the counter by the range its code is in. */
  lemma ClassDecidesCounter(c: Counters, status: nat, known: set<nat>)
    ensures CountedByRange(c.responses, CountResponse(c, ClassOf(status, known)).responses, status, known)
  {
  }

  /** What a handler does with a request: fill a response, or throw. */
  datatype Outcome = Responds(status: nat, contentType: string, body: string) | Throws

  datatype Request = Request(target: string, version: nat)
  datatype Response = Response(status: nat, version: nat, server: string, contentType: string, body: string)

  type Handler = Request -> Outcome

  datatype DispatchError = DuplicatePath

  class Dispatcher {
    const serverName: string
    /** The status codes that the HTTP library lists. */
    const known: set<nat>
    var handlers: map<string, Handler>
    var counters: Counters

    /** The library lists at least the two codes that the dispatcher itself answers with. */
    predicate Valid() {
      404 in known && 500 in known
    }

    constructor (name: string, listed: set<nat>)
      requires 404 in listed && 500 in listed
      ensures Valid() && known == listed
      ensures serverName == name && handlers == map[] && counters == ZERO
    {
      serverName := name;
      known := listed;
      handlers := map[];
      counters := ZERO;
    }

    /** Register a handler; the first one registered for a path stays. */
    method AddHandler(path: string, handler: Handler) returns (r: Result<(), DispatchError>)
      modifies this`handlers
      ensures r.Err? <==> path in old(handlers)
      ensures path in handlers && forall p | p in old(handlers) :: p in handlers && handlers[p] == old(handlers)[p]
      ensures handlers.Keys == old(handlers).Keys + {path}
      ensures r.Ok? ==> handlers[path] == handler
    {
      if path in handlers {
        return Err(DuplicatePath);
      }
      handlers := handlers[path := handler];
      return Ok(());
    }

    /**
     * Answer a request. Whatever the path and whatever the handler does, there
     * is a response and it is counted once, by the range of its status code.
     */
    method Process(req: Request) returns (res: Response)
      requires Valid()
      modifies this`counters
      ensures req.target !in handlers ==>
                res == Response(404, req.version, serverName, "text/plain", "path: " + req.target + " not found\r\n")
      ensures req.target in handlers ==>
                match handlers[req.target](req)
                case Responds(status, contentType, body) =>
                  res == Response(status, req.version, serverName, contentType, body)
                case Throws =>
                  res == Response(500, req.version, serverName, "text/plain", "An internal error occurred")
      ensures SameApartFromResponses(old(counters), counters)
      ensures CountedByRange(old(counters.responses), counters.responses, res.status, known)
      ensures OneMoreResponse(old(counters), counters, ClassOf(res.status, known))
    {
      var found := FindHandler(req.target);
      match found
      case None =>
        res := NotFound(req);
      case Some(handler) =>
        match handler(req)
        case Responds(status, contentType, body) =>
          res := Response(status, req.version, serverName, contentType, body);
          UpdateResponseCounter(res);
        case Throws =>
          res := InternalError(req);
    }

    method FindHandler(path: string) returns (r: Option<Handler>)
      ensures r.Some? <==> path in handlers
      ensures r.Some? ==> r.value == handlers[path]
    {
      return if path in handlers then Some(handlers[path]) else None;
    }

    method NotFound(req: Request) returns (res: Response)
      requires Valid()
      modifies this`counters
      ensures res == Response(404, req.version, serverName, "text/plain", "path: " + req.target + " not found\r\n")
      ensures counters == old(counters).(
                responses := old(counters.responses).(clientError := old(counters.responses.clientError) + 1))
      ensures OneMoreResponse(old(counters), counters, ClientError)
    {
      res := Response(404, req.version, serverName, "text/plain", "path: " + req.target + " not found\r\n");
      UpdateResponseCounter(res);
    }

    method InternalError(req: Request) returns (res: Response)
      requires Valid()
      modifies this`counters
      ensures res == Response(500, req.version, serverName, "text/plain", "An internal error occurred")
      ensures counters == old(counters).(
                responses := old(counters.responses).(serverError := old(counters.responses.serverError) + 1))
      ensures OneMoreResponse(old(counters), counters, ServerError)
    {
      res := Response(500, req.version, serverName, "text/plain", "An internal error occurred");
      UpdateResponseCounter(res);
    }

    method UpdateResponseCounter(res: Response)
      modifies this`counters
      ensures SameApartFromResponses(old(counters), counters)
      ensures CountedByRange(old(counters.responses), counters.responses, res.status, known)
      ensures counters == CountResponse(old(counters), ClassOf(res.status, known))
      ensures OneMoreResponse(old(counters), counters, ClassOf(res.status, known))
    {
      var r := counters.responses;
      match ClassOf(res.status, known) {
        case Invalid => r := r.(invalid := r.invalid + 1);
        case Informational => r := r.(informational := r.informational + 1);
        case Successful => r := r.(successful := r.successful + 1);
        case Redirection => r := r.(redirection := r.redirection + 1);
        case ClientError => r := r.(clientError := r.clientError + 1);
        case ServerError => r := r.(serverError := r.serverError + 1);
      }
      counters := counters.(responses := r);
    }
  }
}
