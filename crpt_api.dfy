/** The rate-limited document client: a fixed-window call counter consulted by
    createDocument, reset by a periodic timer through run().

    The limiter's state is a counter of attempts in the current window and a
    limit fixed at construction. The pure functions below (Call, Reset) give the
    meaning of one createDocument call and of one timer tick on that state; the
    class CrptApiImpl holds the state in place and its methods are proved to
    behave as those functions say. */
module CrptApi {
  import opened Documents

  datatype Option<T> = None | Some(value: T)

  /** The two runtime exceptions a createDocument call can raise. */
  datatype Raised = HttpClientCallException | JsonFormatException

  datatype Result<T> = Success(value: T) | Failure(error: Raised)

  /** What the JSON encoder does with a document: it writes text, or fails
      with an IOException. */
  datatype Serialization = Written(json: string) | WriteFailed

  /** What executing the HTTP request does: a response with a status code, or
      an IOException. */
  datatype Exchange = Responded(code: int) | IoFailed

  /** How a createDocument call ends for its caller: a boolean return, or a
      thrown exception. */
  datatype Reply = Returned(value: bool) | Threw(exception: Raised)

  /** One createDocument call seen from outside: its reply, and the request
      body handed to the transport if the call got that far. */
  datatype Outcome = Outcome(reply: Reply, sent: Option<string>) {
    /** The limiter let the call through: it did not end in `false`. */
    predicate Admitted() {
      reply != Returned(false)
    }
  }

  /** The limiter's state: attempts counted in the current window, and the
      limit. ACCEPTING while the counter is at most the limit, SATURATED
      after an attempt has pushed it past. */
  datatype Limiter = Limiter(calls: nat, limit: nat) {
    predicate Accepting() {
      calls <= limit
    }

    predicate Saturated() {
      calls > limit
    }
  }

  /** A limiter state and the outcome of the call that produced it. */
  datatype Step = Step(limiter: Limiter, outcome: Outcome)

  /** The stored limit: a negative request limit is raised to 0. */
  function ClampLimit(requestLimit: int): (limit: nat)
    ensures limit >= requestLimit
    ensures limit == requestLimit || limit == 0
  {
    if requestLimit < 0 then 0 else requestLimit
  }

  /** Encoding a document; an encoder failure becomes JsonFormatException. */
  function ConvertToJsonString(objectMapper: Document -> Serialization, document: Document): (r: Result<string>)
    ensures r.Success? <==> objectMapper(document).Written?
    ensures r.Success? ==> r.value == objectMapper(document).json
    ensures r.Failure? ==> r.error == JsonFormatException
  {
    match objectMapper(document)
    case Written(json) => Success(json)
    case WriteFailed => Failure(JsonFormatException)
  }

  /** Executing the request; an I/O failure becomes HttpClientCallException. */
  function MakeCall(exchange: Exchange): (r: Result<int>)
    ensures r.Success? <==> exchange.Responded?
    ensures r.Success? ==> r.value == exchange.code
    ensures r.Failure? ==> r.error == HttpClientCallException
  {
    match exchange
    case Responded(code) => Success(code)
    case IoFailed => Failure(HttpClientCallException)
  }

  /** The path of a call the limiter let through: encode, send, and report
      `true` for any response whatever its status code. */
  function Submit(objectMapper: Document -> Serialization, document: Document, exchange: Exchange): (o: Outcome)
    ensures o.Admitted()
    ensures o.reply == Returned(true) <==> objectMapper(document).Written? && exchange.Responded?
    ensures o.reply == Threw(JsonFormatException) <==> objectMapper(document).WriteFailed?
    ensures o.reply == Threw(HttpClientCallException) <==> objectMapper(document).Written? && exchange.IoFailed?
    ensures o.sent.Some? <==> objectMapper(document).Written?
    ensures o.sent.Some? ==> o.sent.value == objectMapper(document).json
  {
    match ConvertToJsonString(objectMapper, document)
    case Failure(e) => Outcome(Threw(e), None)
    case Success(body) =>
      match MakeCall(exchange)
      case Failure(e) => Outcome(Threw(e), Some(body))
      case Success(_) => Outcome(Returned(true), Some(body))
  }

  /** One createDocument call on limiter state `l`. */
  function Call(l: Limiter, objectMapper: Document -> Serialization, document: Document, exchange: Exchange): (s: Step)
    // every attempt is counted, accepted or not; the limit never changes
    ensures s.limiter.calls == l.calls + 1 && s.limiter.limit == l.limit
    // accepted exactly when the incremented counter is within the limit
    ensures s.outcome.Admitted() <==> l.calls + 1 <= l.limit
    // a rejected call returns false and never reaches the transport
    ensures !s.outcome.Admitted() ==> s.outcome.reply == Returned(false) && s.outcome.sent == None
    ensures s.outcome.Admitted() ==> s.outcome == Submit(objectMapper, document, exchange)
    // a call is rejected exactly when it leaves the limiter saturated
    ensures s.limiter.Saturated() <==> !s.outcome.Admitted()
    // only a reset leaves the saturated state
    ensures l.Saturated() ==> s.limiter.Saturated()
  {
    var next := Limiter(l.calls + 1, l.limit);
    if next.calls > next.limit then
      Step(next, Outcome(Returned(false), None))
    else
      Step(next, Submit(objectMapper, document, exchange))
  }

  /** One timer tick: run() sets the counter back to 0 and leaves the limit. */
  function Reset(l: Limiter): (r: Limiter)
    ensures r.calls == 0 && r.limit == l.limit
    ensures r.Accepting()
  {
    Limiter(0, l.limit)
  }

  /** After a reset the next call is accepted exactly when the limit is at
      least 1, however many calls the previous window rejected. */
  lemma ResetReopens(l: Limiter, objectMapper: Document -> Serialization, document: Document, exchange: Exchange)
    ensures Call(Reset(l), objectMapper, document, exchange).outcome.Admitted() <==> l.limit >= 1
  {
  }

  /** The client object. Its counter is updated in place by createDocument and
      by the timer's run(); the limit and the encoder are fixed. */
  class CrptApiImpl {
    const requestLimit: nat
    const objectMapper: Document -> Serialization
    var calls: nat

    /** The limiter state this object holds. */
    function State(): Limiter
      reads this
    {
      Limiter(calls, requestLimit)
    }

    constructor (requestLimit: int, objectMapper: Document -> Serialization)
      ensures this.requestLimit == ClampLimit(requestLimit)
      ensures this.objectMapper == objectMapper
      ensures calls == 0 && State().Accepting()
    {
      this.requestLimit := ClampLimit(requestLimit);
      this.objectMapper := objectMapper;
      this.calls := 0;
    }

    /** createDocument: count the attempt; past the limit return false at once,
        otherwise encode, send and return true on any response. `exchange` is
        what the transport answers to this request. `sign` is accepted and not
        used, as in the Java code. The second result is the body handed to the
        transport, if any. */
    method CreateDocument(document: Document, sign: string, exchange: Exchange) returns (reply: Reply, sent: Option<string>)
      modifies this
      ensures calls == old(calls) + 1
      ensures Step(State(), Outcome(reply, sent)) == Call(old(State()), objectMapper, document, exchange)
    {
      calls := calls + 1;
      if calls > requestLimit {
        return Returned(false), None;
      }
      var body := ConvertToJsonString(objectMapper, document);
      if body.Failure? {
        return Threw(body.error), None;
      }
      sent := Some(body.value);
      var response := MakeCall(exchange);
      if response.Failure? {
        return Threw(response.error), sent;
      }
      reply := Returned(true);
    }

    /** run(): the timer's reset of the counter; nothing else changes. */
    method Run()
      modifies this
      ensures State() == Reset(old(State()))
      ensures calls == 0
    {
      calls := 0;
    }
  }

  // The counter as written is a Java `int` incremented by incrementAndGet,
  // which wraps from 2147483647 to -2147483648.

  const INT_MIN: int := -0x8000_0000
  const INT_MAX: int := 0x7fff_ffff

  newtype int32 = x: int | -0x8000_0000 <= x <= 0x7fff_ffff

  /** incrementAndGet on a 32-bit counter: the int32 congruent to calls + 1. */
  function IncrementAndGet(calls: int32): (r: int32)
    ensures (r as int - calls as int - 1) % 0x1_0000_0000 == 0
  {
    if calls as int == INT_MAX then INT_MIN as int32 else calls + 1
  }

  /** The admission test as written: the call goes through unless the
      incremented 32-bit counter is greater than the limit. */
  predicate AdmitsAsWritten(calls: int32, limit: int32): (ok: bool)
    // within range this is the unbounded test; at the top it wraps and admits
    ensures ok <==> calls as int == INT_MAX || calls as int + 1 <= limit as int
  {
    !(IncrementAndGet(calls) > limit)
  }

  /** With limit 0 every call ought to be rejected, and a saturated limiter
      ought to stay saturated; but once 2147483647 attempts have been counted
      in one window, the as-written counter wraps and the next call is let
      through, while the unbounded counter keeps rejecting it. */
  lemma WrapAroundReadmits(objectMapper: Document -> Serialization, document: Document, exchange: Exchange)
    ensures AdmitsAsWritten(INT_MAX as int32, 0)
    ensures !Call(Limiter(INT_MAX, 0), objectMapper, document, exchange).outcome.Admitted()
  {
  }
}
