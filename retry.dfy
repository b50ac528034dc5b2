/**
 * The retry and redirect loop of `SendMessageAsyncAndGetResponse`
 * (DiscourseApi/Api.cs): after each response the client either returns it,
 * or waits and sends the request again, possibly to another URI. The
 * statuses are 302 Found (section 15.4.3 of RFC 9110), 429 Too Many Requests
 * (section 4 of RFC 6585) and 502, 503 and 504; `Retry-After` is read as
 * delay-seconds (section 10.2.3 of RFC 9110).
 */
module Retry {
  import opened Wrappers
  import opened Text
  import opened Json

  /** A `Location` header: `AbsoluteUri` is defined only on an absolute URI. */
  datatype Location = Absolute(uri: string) | Relative(path: string)

  /** The parts of an HTTP response the client reads. `None` is an absent header. */
  datatype Response = Response(
    status: int,
    reason: string,
    location: Option<Location>,
    retryAfter: Option<seq<string>>,
    lastModified: Option<seq<string>>,
    body: string)

  const Found: int := 302
  const TooManyRequests: int := 429
  const BadGateway: int := 502
  const ServiceUnavailable: int := 503
  const GatewayTimeout: int := 504

  /** The value `backoff` starts from, in milliseconds. */
  const InitialBackoff: int := 1000
  /** A gateway error whose doubled backoff exceeds this is returned to the caller. */
  const GiveUpAbove: int := 16000
  /** The shortest wait after a 429, in milliseconds. */
  const RateLimitFloor: int := 5000

  predicate IsGatewayError(status: int)
  {
    status == BadGateway || status == ServiceUnavailable || status == GatewayTimeout
  }

  /** What to do after one response. */
  datatype Step =
    | Final                                       // return the response
    | Again(delay: int, next: string, backoff: int) // wait, then send to `next`
    | Fault(error: Exception)                     // an exception escapes

  /**
   * The wait after a 429: 5000 ms, or `1000 * int.Parse(first value)` when that
   * is larger. The product is computed in unchecked 32-bit arithmetic, and a
   * value that does not parse is ignored.
   */
  function RateLimitDelay(retryAfter: Option<seq<string>>): (d: int)
    ensures d >= RateLimitFloor
    ensures retryAfter.None? || |retryAfter.value| == 0 ==> d == RateLimitFloor
    ensures retryAfter.Some? && |retryAfter.value| > 0 && ParseInt(Some(retryAfter.value[0])).Err? ==> d == RateLimitFloor
    ensures retryAfter.Some? && |retryAfter.value| > 0 && ParseInt(Some(retryAfter.value[0])).Ok? ==>
      var product := Wrap32(1000 * ParseInt(Some(retryAfter.value[0])).value);
      d == if product > RateLimitFloor then product else RateLimitFloor
  {
    match retryAfter
    case None => RateLimitFloor
    case Some(values) =>
      match ParseInt(if |values| == 0 then None else Some(values[0]))
      case Err(_) => RateLimitFloor
      case Ok(n) =>
        var product := Wrap32(1000 * n);
        if product > RateLimitFloor then product else RateLimitFloor
  }

  /** The `switch` on the status code, given the current URI and backoff. */
  function Decide(r: Response, uri: string, backoff: int): Step
  {
    if r.status == Found then
      match r.location
      case None => Fault(NullReference)
      case Some(Relative(_)) => Fault(InvalidOperation)
      case Some(Absolute(next)) => Again(1, next, backoff)
    else if r.status == TooManyRequests then
      Again(RateLimitDelay(r.retryAfter), uri, backoff)
    else if IsGatewayError(r.status) then
      var doubled := Wrap32(backoff * 2);
      if doubled > GiveUpAbove then Final else Again(doubled, uri, doubled)
    else
      Final
  }

  /** How a conversation with the server ends. */
  datatype End =
    | Delivered(response: Response)  // a response is returned to the caller
    | Faulted(error: Exception)      // an exception escapes
    | Unanswered(uri: string)        // the server's answers ran out while retrying

  /** The end, the URI of every request sent, and every wait, in order. */
  datatype Outcome = Outcome(end: End, sent: seq<string>, delays: seq<int>)

  function Prepend(sent: seq<string>, delays: seq<int>, o: Outcome): Outcome
  {
    Outcome(o.end, sent + o.sent, delays + o.delays)
  }

  /**
   * The conversation when the server answers the successive requests with
   * `rs`. With `carry` the backoff is kept from one attempt to the next; without
   * it every attempt starts again from `InitialBackoff`.
   */
  function Run(uri: string, rs: seq<Response>, backoff: int, carry: bool): Outcome
    decreases |rs|
  {
    if |rs| == 0 then Outcome(Unanswered(uri), [], [])
    else
      match Decide(rs[0], uri, backoff)
      case Final => Outcome(Delivered(rs[0]), [uri], [])
      case Fault(e) => Outcome(Faulted(e), [uri], [])
      case Again(delay, next, b) =>
        Prepend([uri], [delay], Run(next, rs[1..], if carry then b else InitialBackoff, carry))
  }

  /** The loop as written: `backoff` is declared, and so reset, inside the loop body. */
  function AsWritten(uri: string, rs: seq<Response>): Outcome
  {
    Run(uri, rs, InitialBackoff, false)
  }

  /** The loop with `backoff` declared before it, as the give-up test implies. */
  function Intended(uri: string, rs: seq<Response>): Outcome
  {
    Run(uri, rs, InitialBackoff, true)
  }

  /**
   * `SendMessageAsyncAndGetResponse`: send, and retry as the status demands,
   * while the server answers with `responses`.
   */
  method Send(uri: string, responses: seq<Response>) returns (o: Outcome)
    ensures o == AsWritten(uri, responses)
  {
    var current := uri;
    var sent: seq<string> := [];
    var delays: seq<int> := [];
    var i := 0;
    while i < |responses|
      invariant 0 <= i <= |responses|
      invariant AsWritten(uri, responses) == Prepend(sent, delays, Run(current, responses[i..], InitialBackoff, false))
    {
      var backoff := InitialBackoff;
      var result := responses[i];
      assert responses[i..][0] == result && responses[i..][1..] == responses[i + 1..];
      match Decide(result, current, backoff) {
        case Final =>
          return Outcome(Delivered(result), sent + [current], delays);
        case Fault(e) =>
          return Outcome(Faulted(e), sent + [current], delays);
        case Again(delay, next, b) =>
          sent := sent + [current];
          delays := delays + [delay];
          current := next;
          backoff := b;
      }
      i := i + 1;
    }
    assert responses[i..] == [];
    o := Outcome(Unanswered(current), sent, delays);
  }

  // --------------------------------------------------------------- properties

  /** Every wait is at least a millisecond: the loop never resends at once. */
  lemma {:induction false} DelaysPositive(uri: string, rs: seq<Response>, backoff: int, carry: bool)
    requires InitialBackoff <= backoff <= GiveUpAbove
    ensures forall k :: 0 <= k < |Run(uri, rs, backoff, carry).delays| ==> Run(uri, rs, backoff, carry).delays[k] >= 1
    decreases |rs|
  {
    if |rs| > 0 {
      match Decide(rs[0], uri, backoff) {
        case Final =>
        case Fault(_) =>
        case Again(delay, next, b) =>
          assert delay >= 1 && InitialBackoff <= b <= GiveUpAbove;
          DelaysPositive(next, rs[1..], if carry then b else InitialBackoff, carry);
      }
    }
  }

  /**
   * One request per answer used, one wait between consecutive requests, and
   * the first request goes to the URI the caller gave.
   */
  lemma {:induction false} Attempts(uri: string, rs: seq<Response>, backoff: int, carry: bool)
    ensures var o := Run(uri, rs, backoff, carry);
      |o.sent| <= |rs| &&
      |o.sent| == |o.delays| + (if o.end.Unanswered? then 0 else 1) &&
      (|rs| > 0 ==> o.sent[0] == uri) &&
      (o.end.Unanswered? ==> |o.sent| == |rs|)
    decreases |rs|
  {
    if |rs| > 0 {
      match Decide(rs[0], uri, backoff) {
        case Final =>
        case Fault(_) =>
        case Again(delay, next, b) =>
          Attempts(next, rs[1..], if carry then b else InitialBackoff, carry);
      }
    }
  }

  /**
   * As written, a response handed back to the caller is never a redirect, a
   * rate limit or a gateway error: those are always retried.
   */
  lemma {:induction false} AsWrittenDeliversOnlyFinal(uri: string, rs: seq<Response>)
    ensures var o := AsWritten(uri, rs);
      o.end.Delivered? ==> o.end.response.status != Found &&
                           o.end.response.status != TooManyRequests &&
                           !IsGatewayError(o.end.response.status)
    decreases |rs|
  {
    if |rs| > 0 {
      match Decide(rs[0], uri, InitialBackoff) {
        case Final =>
        case Fault(_) =>
        case Again(delay, next, b) =>
          AsWrittenDeliversOnlyFinal(next, rs[1..]);
      }
    }
  }

  /** `n` copies of `x`. */
  function Repeat<T>(x: T, n: nat): (r: seq<T>)
    ensures |r| == n && forall k :: 0 <= k < n ==> r[k] == x
  {
    if n == 0 then [] else [x] + Repeat(x, n - 1)
  }

  /**
   * As written, a run of gateway errors is retried every 2000 ms for as long
   * as it lasts: the client never gives up.
   */
  lemma {:induction false} GatewayRetriesForever(uri: string, rs: seq<Response>)
    requires forall k :: 0 <= k < |rs| ==> IsGatewayError(rs[k].status)
    ensures AsWritten(uri, rs) == Outcome(Unanswered(uri), Repeat(uri, |rs|), Repeat(2000, |rs|))
    decreases |rs|
  {
    if |rs| > 0 {
      assert Decide(rs[0], uri, InitialBackoff) == Again(2000, uri, 2000);
      GatewayRetriesForever(uri, rs[1..]);
      assert [uri] + Repeat(uri, |rs| - 1) == Repeat(uri, |rs|);
      assert [2000] + Repeat(2000, |rs| - 1) == Repeat(2000, |rs|);
    }
  }

  /**
   * With the backoff carried over, gateway errors are retried after 2, 4, 8
   * and 16 seconds, and the fifth consecutive one is returned.
   */
  lemma GatewayGivesUpAfterFour(uri: string, rs: seq<Response>)
    requires |rs| >= 5
    requires forall k :: 0 <= k < 5 ==> IsGatewayError(rs[k].status)
    ensures Intended(uri, rs) == Outcome(Delivered(rs[4]), [uri, uri, uri, uri, uri], [2000, 4000, 8000, 16000])
  {
    var r1 := rs[1..];
    var r2 := r1[1..];
    var r3 := r2[1..];
    var r4 := r3[1..];
    assert r4[0] == rs[4];
    assert Run(uri, r4, 16000, true) == Outcome(Delivered(rs[4]), [uri], []);
    assert Run(uri, r3, 8000, true) == Prepend([uri], [16000], Run(uri, r4, 16000, true));
    assert Run(uri, r2, 4000, true) == Prepend([uri], [8000], Run(uri, r3, 8000, true));
    assert Run(uri, r1, 2000, true) == Prepend([uri], [4000], Run(uri, r2, 4000, true));
    assert Run(uri, rs, 1000, true) == Prepend([uri], [2000], Run(uri, r1, 2000, true));
  }

  /**
   * A 302 is followed to its `Location` after 1 ms, with the backoff kept; a
   * missing `Location` or a relative one makes the call throw.
   */
  lemma RedirectFollowed(uri: string, r: Response, rs: seq<Response>)
    requires r.status == Found
    ensures r.location.None? ==> AsWritten(uri, [r] + rs) == Outcome(Faulted(NullReference), [uri], [])
    ensures r.location.Some? && r.location.value.Relative? ==>
              AsWritten(uri, [r] + rs) == Outcome(Faulted(InvalidOperation), [uri], [])
    ensures r.location.Some? && r.location.value.Absolute? ==>
              AsWritten(uri, [r] + rs) == Prepend([uri], [1], AsWritten(r.location.value.uri, rs))
  {
    assert ([r] + rs)[0] == r && ([r] + rs)[1..] == rs;
  }

  /**
   * A response that is not a redirect, a rate limit or a gateway error is
   * handed back at once, after a single request.
   */
  lemma FinalStatusReturned(uri: string, r: Response, rs: seq<Response>)
    requires r.status != Found && r.status != TooManyRequests && !IsGatewayError(r.status)
    ensures AsWritten(uri, [r] + rs) == Outcome(Delivered(r), [uri], [])
  {
    assert ([r] + rs)[0] == r && ([r] + rs)[1..] == rs;
  }

  /**
   * A 429 makes the client wait `RateLimitDelay` of its `Retry-After` header
   * and send the same request again, with the backoff untouched.
   */
  lemma RateLimited(uri: string, r: Response, rs: seq<Response>)
    requires r.status == TooManyRequests
    ensures AsWritten(uri, [r] + rs) == Prepend([uri], [RateLimitDelay(r.retryAfter)], AsWritten(uri, rs))
  {
    assert ([r] + rs)[0] == r && ([r] + rs)[1..] == rs;
  }

  /**
   * A 429 with no `Retry-After` header makes the client wait exactly 5000 ms
   * and send the same request again.
   */
  lemma RateLimitedWaitsFloor(uri: string, r: Response, rs: seq<Response>)
    requires r.status == TooManyRequests && r.retryAfter.None?
    ensures AsWritten(uri, [r] + rs) == Prepend([uri], [RateLimitFloor], AsWritten(uri, rs))
  {
    assert ([r] + rs)[0] == r && ([r] + rs)[1..] == rs;
  }

  /** A `Retry-After` of `n` seconds is honoured when `1000 * n` exceeds 5000 and fits in 32 bits. */
  lemma RetryAfterHonoured(n: int, rest: seq<string>)
    requires RateLimitFloor < 1000 * n <= Int32Max
    ensures RateLimitDelay(Some([IntToString(n)] + rest)) == 1000 * n
  {
    ParseIntRoundTrip(n);
  }

  /**
   * A `Retry-After` between 2147484 and 4294967 seconds overflows the 32-bit
   * product to a negative number, and the client waits only 5000 ms.
   */
  lemma RetryAfterOverflowIgnored(n: int)
    requires 2147484 <= n <= 4294967
    ensures RateLimitDelay(Some([IntToString(n)])) == RateLimitFloor
  {
    ParseIntRoundTrip(n);
    assert Wrap32(1000 * n) == 1000 * n - 0x1_0000_0000;
  }
}
