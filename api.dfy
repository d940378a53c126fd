/**
 * The client request `generatePrompt(seedConcept)`.
 *
 * It builds the request URL with `encodeURIComponent`, arms a 10-second
 * timer that aborts the request, clears the timer once `fetch` settles, and
 * turns the settled fetch into either the prompt or a thrown `Error`.
 * `fetch` itself is a parameter: the `FetchOutcome` it settled with, or the
 * timer winning the race.
 */
module Api {
  import opened Common
  import UriComponent
  import Route

  const Endpoint := "/api/initial-prompt?concept="
  const TimeoutMs := 10000
  const TimedOutMessage := "Request timed out. Please try again later."
  const StatusMessagePrefix := "API request failed with status "

  /** A thrown JavaScript value, by its `name` and `message`. */
  datatype JsError = JsError(name: string, message: string)

  /** `new Error(message)`. */
  function Error(message: string): JsError
  {
    JsError("Error", message)
  }

  /** What `fetch` rejects with when its signal is aborted. */
  const AbortError := JsError("AbortError", "This operation was aborted")

  /** Reading `.prompt` of a body that parsed to `null`. */
  const NullPromptError := JsError("TypeError", "Cannot read properties of null (reading 'prompt')")

  /**
   * A parsed JSON body: `null`, or any other value, seen through the string
   * members `prompt` and `error` it has (`None` when absent).
   */
  datatype Json = Null | Value(prompt: Option<string>, error: Option<string>)

  /** The result of `response.json()`. */
  datatype Body = Unparseable(parseError: JsError) | Parsed(json: Json)

  datatype Response = Response(status: nat, statusText: string, body: Body)

  /** How the `fetch` promise settled. */
  datatype FetchOutcome = Fulfilled(response: Response) | Rejected(reason: JsError)

  /** How the promise returned by `generatePrompt` settles. */
  datatype Settled = Resolved(prompt: Option<string>) | Thrown(error: JsError)

  /** `response.ok`: an ok status in the sense of the WHATWG Fetch Standard. */
  predicate IsOkStatus(status: nat)
  {
    200 <= status <= 299
  }

  /** JavaScript truthiness of a string-or-undefined value. */
  predicate Truthy(s: Option<string>)
  {
    s.Some? && s.value != ""
  }

  /** The URL `fetch` is called with. */
  function RequestUrl(seedConcept: string): (url: string)
    ensures |url| >= |Endpoint| && url[..|Endpoint|] == Endpoint
  {
    Endpoint + UriComponent.EncodeURIComponent(seedConcept)
  }

  function StatusMessage(status: nat): string
  {
    StatusMessagePrefix + NatToString(status)
  }

  function StatusTextMessage(status: nat, statusText: string): string
  {
    StatusMessage(status) + ": " + (if statusText != "" then statusText else "Unknown error")
  }

  /**
   * `errorMessage` for a response that is not ok: a truthy `error` of the
   * parsed body, else the status-only message; a body that does not parse,
   * or is `null` so that reading `.error` throws, gets the status text.
   */
  function ErrorMessage(response: Response): (m: string)
    ensures m != ""
    ensures response.body.Parsed? && response.body.json.Value? && Truthy(response.body.json.error) ==>
      m == response.body.json.error.value
    ensures response.body.Parsed? && response.body.json.Value? && !Truthy(response.body.json.error) ==>
      m == StatusMessage(response.status)
    ensures !(response.body.Parsed? && response.body.json.Value?) ==>
      m == StatusTextMessage(response.status, response.statusText)
  {
    match response.body
    case Parsed(Value(_, error)) =>
      if Truthy(error) then error.value else StatusMessage(response.status)
    case _ =>
      StatusTextMessage(response.status, response.statusText)
  }

  /** The outer `catch`: an `AbortError` becomes the timeout error, anything else is rethrown. */
  function Caught(e: JsError): (r: JsError)
    ensures r.name != "AbortError"
    ensures e.name == "AbortError" ==> r == Error(TimedOutMessage)
    ensures e.name != "AbortError" ==> r == e
  {
    if e.name == "AbortError" then Error(TimedOutMessage) else e
  }

  /** How `generatePrompt` settles once `fetch` has settled with `outcome`. */
  function Classify(outcome: FetchOutcome): (r: Settled)
    ensures r.Resolved? <==>
      outcome.Fulfilled? && IsOkStatus(outcome.response.status)
      && outcome.response.body.Parsed? && outcome.response.body.json.Value?
    ensures r.Resolved? ==> r.prompt == outcome.response.body.json.prompt
    ensures r.Thrown? ==> r.error.name != "AbortError"
    ensures outcome.Fulfilled? && !IsOkStatus(outcome.response.status) ==>
      r == Thrown(Error(ErrorMessage(outcome.response)))
    ensures outcome.Rejected? ==>
      r == Thrown(if outcome.reason.name == "AbortError" then Error(TimedOutMessage) else outcome.reason)
    ensures outcome.Fulfilled? && IsOkStatus(outcome.response.status) && outcome.response.body.Unparseable? ==>
      r == Thrown(Caught(outcome.response.body.parseError))
    ensures outcome.Fulfilled? && IsOkStatus(outcome.response.status) && outcome.response.body == Parsed(Null) ==>
      r == Thrown(NullPromptError)
  {
    match outcome
    case Rejected(e) => Thrown(Caught(e))
    case Fulfilled(response) =>
      if !IsOkStatus(response.status) then
        Thrown(Caught(Error(ErrorMessage(response))))
      else
        match response.body
        case Unparseable(e) => Thrown(Caught(e))
        case Parsed(Null) => Thrown(Caught(NullPromptError))
        case Parsed(Value(prompt, _)) => Resolved(prompt)
  }

  /** The status-only message is the fixed prefix and the status code, with nothing after it. */
  lemma StatusMessageLayout(status: nat)
    ensures var m, n := StatusMessage(status), |StatusMessagePrefix|;
      n < |m| && m[..n] == StatusMessagePrefix && m[n..] == NatToString(status)
  {
    SuffixOfConcat(StatusMessagePrefix, NatToString(status));
  }

  /**
   * The message used when the body cannot be read extends the status-only
   * one with `": "` and the status text, or `"Unknown error"` when that is
   * empty.
   */
  lemma StatusTextMessageLayout(status: nat, statusText: string)
    ensures var m, t := StatusMessage(status), StatusTextMessage(status, statusText);
      |m| < |t| && t[..|m|] == m
    ensures var t, tail := StatusTextMessage(status, statusText), ": " + statusText;
      statusText != "" ==> |tail| <= |t| && t[|t| - |tail|..] == tail
    ensures var t, tail := StatusTextMessage(status, statusText), ": Unknown error";
      statusText == "" ==> |tail| <= |t| && t[|t| - |tail|..] == tail
  {
    var m, t := StatusMessage(status), StatusTextMessage(status, statusText);
    if statusText != "" {
      assert t == m + (": " + statusText);
      SuffixOfConcat(m, ": " + statusText);
    } else {
      assert t == m + ": Unknown error";
      SuffixOfConcat(m, ": Unknown error");
    }
  }

  lemma SuffixOfConcat(m: string, tail: string)
    ensures (m + tail)[..|m|] == m
    ensures (m + tail)[|m|..] == tail
    ensures (m + tail)[|m + tail| - |tail|..] == tail
  {
  }

  /** A non-ok response whose body carries a truthy `error` throws exactly that message. */
  lemma ServerErrorPassedThrough(status: nat, statusText: string, prompt: Option<string>, error: string)
    requires !IsOkStatus(status) && error != ""
    ensures Classify(Fulfilled(Response(status, statusText, Parsed(Value(prompt, Some(error)))))) == Thrown(Error(error))
  {
  }

  /** The status code a synthesized message reports, if it is one. */
  function StatusOf(message: string): Option<nat>
  {
    var n := |StatusMessagePrefix|;
    if |message| > n && message[..n] == StatusMessagePrefix && IsDigit(message[n])
    then Some(ParseNat(LeadingDigits(message[n..])))
    else None
  }

  /** The status-only message reports the status. */
  lemma StatusMessageReportsStatus(status: nat)
    ensures StatusOf(StatusMessage(status)) == Some(status)
  {
    var m := StatusMessage(status);
    var n := |StatusMessagePrefix|;
    assert m[n..] == NatToString(status) + [];
    LeadingDigitsOfNumber(status, []);
    ParseNatToString(status);
  }

  /** The status-and-text message reports the status, whatever the status text. */
  lemma StatusTextMessageReportsStatus(status: nat, statusText: string)
    ensures StatusOf(StatusTextMessage(status, statusText)) == Some(status)
  {
    var m := StatusTextMessage(status, statusText);
    var n := |StatusMessagePrefix|;
    var rest := ": " + (if statusText != "" then statusText else "Unknown error");
    assert m[n..] == NatToString(status) + rest;
    LeadingDigitsOfNumber(status, rest);
    ParseNatToString(status);
  }

  /**
   * A non-ok response whose `error` is not truthy throws a message that
   * reports its status code, whether or not the body parsed.
   */
  lemma SynthesizedMessageReportsStatus(response: Response)
    requires !IsOkStatus(response.status)
    requires !(response.body.Parsed? && response.body.json.Value? && Truthy(response.body.json.error))
    ensures StatusOf(Classify(Fulfilled(response)).error.message) == Some(response.status)
  {
    if response.body.Parsed? && response.body.json.Value? {
      StatusMessageReportsStatus(response.status);
    } else {
      StatusTextMessageReportsStatus(response.status, response.statusText);
    }
  }

  /** The `AbortController` and the `setTimeout` that aborts it. */
  class AbortTimer {
    /** The timeout is scheduled and has neither run nor been cleared. */
    var pending: bool
    /** `controller.signal.aborted`. */
    var aborted: bool
    const delayMs: nat

    /** `new AbortController()` and `setTimeout(() => controller.abort(), delayMs)`. */
    constructor Start(delayMs: nat)
      ensures pending && !aborted && this.delayMs == delayMs
    {
      this.delayMs := delayMs;
      pending := true;
      aborted := false;
    }

    /** The delay elapses while the timeout is still scheduled: the callback aborts the controller. */
    method Elapse()
      requires pending
      modifies this
      ensures !pending && aborted
    {
      pending := false;
      aborted := true;
    }

    /** `clearTimeout(timeoutId)`: the callback can no longer run. */
    method Clear()
      modifies this
      ensures !pending && aborted == old(aborted)
    {
      pending := false;
    }
  }

  /** Which settles first: `fetch` (with its outcome) or the timeout. */
  datatype Race = FetchFirst(outcome: FetchOutcome) | TimeoutFirst

  /** `generatePrompt(seedConcept)` with the given race between `fetch` and the timer. */
  method GeneratePrompt(seedConcept: string, race: Race) returns (url: string, result: Settled, timer: AbortTimer)
    ensures url == RequestUrl(seedConcept)
    ensures fresh(timer) && timer.delayMs == TimeoutMs
    ensures !timer.pending
    ensures timer.aborted <==> race.TimeoutFirst?
    ensures race.TimeoutFirst? ==> result == Thrown(Error(TimedOutMessage))
    ensures race.FetchFirst? ==> result == Classify(race.outcome)
  {
    url := RequestUrl(seedConcept);
    timer := new AbortTimer.Start(TimeoutMs);
    var outcome: FetchOutcome;
    if race.TimeoutFirst? {
      timer.Elapse();
      outcome := Rejected(AbortError);
    } else {
      outcome := race.outcome;
    }
    timer.Clear();
    result := Classify(outcome);
  }

  /**
   * `url.searchParams.get('concept')` on the server, for a URL of the shape
   * this client builds: nothing outside the endpoint, and the empty string
   * for a bare `?concept=`.
   */
  function ServerConcept(url: string): (r: Option<string>)
    ensures r.Some? ==> |url| >= |Endpoint| && url[..|Endpoint|] == Endpoint
    ensures url == Endpoint ==> r == Some("")
  {
    if |url| >= |Endpoint| && url[..|Endpoint|] == Endpoint
    then UriComponent.DecodeURIComponent(url[|Endpoint|..])
    else None
  }

  /** The route's JSON response as `fetch` delivers it. */
  function Deliver(r: Route.Response, statusText: string): FetchOutcome
  {
    var json := match r.body
      case PromptBody(p) => Value(Some(p), None)
      case ErrorBody(e) => Value(None, Some(e));
    Fulfilled(Response(r.status, statusText, Parsed(json)))
  }

  /** The concept reaches the server's `searchParams` intact. */
  lemma ConceptReachesServer(seedConcept: string)
    ensures ServerConcept(RequestUrl(seedConcept)) == Some(seedConcept)
  {
    var url := RequestUrl(seedConcept);
    assert url[|Endpoint|..] == UriComponent.EncodeURIComponent(seedConcept);
    UriComponent.EncodeRoundTrip(seedConcept);
  }

  /**
   * Client and endpoint together: an empty concept comes back as the thrown "missing parameter" error, a
   * non-empty one as a prompt that is one of its four templates; a fault in
   * the handler comes back as the thrown "failed to generate" error.
   */
  lemma EndToEnd(seedConcept: string, random: real, fault: Route.Fault, statusText: string)
    requires 0.0 <= random < 1.0
    ensures var settled := Classify(Deliver(Route.Get(ServerConcept(RequestUrl(seedConcept)), random, fault), statusText));
      && (settled.Resolved? <==> fault == Route.NoFault && seedConcept != "")
      && (settled.Resolved? ==> settled.prompt.Some? && settled.prompt.value in Route.Templates(seedConcept)
                                && Contains(settled.prompt.value, seedConcept))
      && (fault != Route.UrlFault && seedConcept == "" ==> settled == Thrown(Error(Route.MissingConceptError)))
      && (fault == Route.UrlFault ==> settled == Thrown(Error(Route.GenerationFailedError)))
      && (fault == Route.GenerationFault && seedConcept != "" ==> settled == Thrown(Error(Route.GenerationFailedError)))
  {
    ConceptReachesServer(seedConcept);
  }
}
