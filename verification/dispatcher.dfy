/** One pass of the request dispatcher: which host is called, what is
    logged for an HTTP response, and whether the call returns the body or
    raises. The network is the parameter `transport`, the answer the HTTP
    library gives for the request; response status codes are those of
    section 15 of RFC 9110. */
module Dispatcher {
  import opened Common

  const Api := "https://api.gdax.com"
  const SandboxApi := "https://api-public.sandbox.gdax.com"

  /** The verbs the dispatcher knows how to send. */
  const Verbs := {"GET", "POST", "DELETE"}

  /** A three-digit HTTP status code. */
  type StatusCode = c: int | 100 <= c <= 599 witness 200

  datatype Response = Response(code: StatusCode, headers: map<string, string>, text: string)

  /** What the HTTP library does with one request. `Timeout` is Python's
      built-in TimeoutError and `ConnectionFailure` the library's
      ConnectionError, the two failures the dispatcher catches. */
  datatype Transport = Received(resp: Response) | Timeout | ConnectionFailure | OtherFailure

  /** A line written to the log. */
  datatype LogLine =
    | TransportWarning
    | StatusLine(code: int)
    | HeadersLine(headers: map<string, string>)
    | TextLine(text: string)

  /** What one pass of the dispatcher loop logs, and the body it returns
      (the text `resp.json()` parses) or the exception it raises. */
  datatype Outcome = Outcome(logged: seq<LogLine>, result: Result<string>)

  /** The host used for every request of a client, chosen by its sandbox flag. */
  function RequestUrl(sandbox: bool, endpoint: string): (url: string)
    ensures var host := if sandbox then SandboxApi else Api;
            host <= url && url[|host|..] == endpoint
  {
    var host := if sandbox then SandboxApi else Api;
    assert (host + endpoint)[|host|..] == endpoint;
    host + endpoint
  }

  /** The error lines logged for a response before `raise_for_status`. */
  function ErrorLog(resp: Response): (lines: seq<LogLine>)
    ensures lines == [] <==> resp.code == 200
    ensures |lines| <= 3
    ensures lines != [] ==> lines[0] == StatusLine(resp.code)
    ensures |lines| >= 2 ==> lines[1] == HeadersLine(resp.headers)
    ensures |lines| == 3 ==> lines[2] == TextLine(resp.text)
    ensures HeadersLine(resp.headers) in lines <==> resp.code !in {200, 500}
    ensures TextLine(resp.text) in lines <==> resp.code !in {200, 401, 403, 404, 500}
  {
    if resp.code == 400 then [StatusLine(resp.code), HeadersLine(resp.headers), TextLine(resp.text)]
    else if resp.code in {401, 403, 404} then [StatusLine(resp.code), HeadersLine(resp.headers)]
    else if resp.code == 500 then [StatusLine(resp.code)]
    else if resp.code != 200 then [StatusLine(resp.code), HeadersLine(resp.headers), TextLine(resp.text)]
    else []
  }

  /** `raise_for_status` of the HTTP library raises for a client error,
      400 to 499, and for a server error, 500 to 599: exactly the codes of
      the 4xx and 5xx classes. */
  function RaisesForStatus(code: StatusCode): (raises: bool)
    ensures raises <==> code / 100 in {4, 5}
  {
    (400 <= code < 500) || (500 <= code < 600)
  }

  /** One pass of the `while True` loop for a request sent with `verb`.
      An unknown verb sends nothing and leaves `resp` unassigned; a caught
      transport failure reads `retry`, which the later `retry -= 1` makes a
      local variable that was never assigned. */
  function Attempt(verb: string, transport: Transport): (o: Outcome)
    ensures verb !in Verbs ==> o == Outcome([], Err(UnboundLocalError("resp")))
    ensures verb in Verbs && (transport.Timeout? || transport.ConnectionFailure?)
            ==> o == Outcome([TransportWarning], Err(UnboundLocalError("retry")))
    ensures verb in Verbs && transport.OtherFailure? ==> o == Outcome([], Err(TransportError))
    ensures verb in Verbs && transport.Received? ==> o.logged == ErrorLog(transport.resp)
    ensures o.result.Ok? <==> verb in Verbs && transport.Received? && !RaisesForStatus(transport.resp.code)
    ensures o.result.Ok? ==> o.result.value == transport.resp.text
    ensures verb in Verbs && transport.Received? && o.result.Err?
            ==> o.result.error == HttpError(transport.resp.code)
  {
    if verb !in Verbs then Outcome([], Err(UnboundLocalError("resp")))
    else match transport
      case Timeout => Outcome([TransportWarning], Err(UnboundLocalError("retry")))
      case ConnectionFailure => Outcome([TransportWarning], Err(UnboundLocalError("retry")))
      case OtherFailure => Outcome([], Err(TransportError))
      case Received(resp) =>
        Outcome(ErrorLog(resp), if RaisesForStatus(resp.code) then Err(HttpError(resp.code)) else Ok(resp.text))
  }

  /** A 200 response returns its body and logs nothing. */
  lemma SuccessReturnsBody(verb: string, resp: Response)
    requires verb in Verbs && resp.code == 200
    ensures Attempt(verb, Received(resp)) == Outcome([], Ok(resp.text))
  {
  }

  /** Once a response exists the pass ends: it returns the body or raises
      the HTTP error, and never goes round the loop again. */
  lemma ResponseIsFinal(verb: string, resp: Response)
    requires verb in Verbs
    ensures var o := Attempt(verb, Received(resp));
            o.result == Ok(resp.text) || o.result == Err(HttpError(resp.code))
  {
  }

  /** Every non-200 code is logged as an error, at least with its status,
      before `raise_for_status` is reached. */
  lemma NonSuccessLogged(verb: string, resp: Response)
    requires verb in Verbs && resp.code != 200
    ensures var o := Attempt(verb, Received(resp));
            |o.logged| > 0 && o.logged[0] == StatusLine(resp.code)
  {
  }

  /** A 4xx or 5xx code raises on the first response, whatever retry budget
      a caller had in mind. */
  lemma ErrorStatusRaises(verb: string, resp: Response)
    requires verb in Verbs && 400 <= resp.code
    ensures Attempt(verb, Received(resp)).result == Err(HttpError(resp.code))
  {
  }

  /** A non-200 code below 400 (a 201, say, or a 3xx the library did not
      follow) is logged as an error and then its body is returned all the same. */
  lemma LoggedButReturned(verb: string, resp: Response)
    requires verb in Verbs && resp.code != 200 && resp.code < 400
    ensures var o := Attempt(verb, Received(resp));
            o.logged != [] && o.result == Ok(resp.text)
  {
  }

  /** A caught transport failure is never retried either: reading `retry`
      raises before the `continue`. */
  lemma TransportFailureNotRetried(verb: string, transport: Transport)
    requires verb in Verbs && (transport.Timeout? || transport.ConnectionFailure?)
    ensures Attempt(verb, transport).result == Err(UnboundLocalError("retry"))
  {
  }
}
