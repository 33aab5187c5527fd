/** Polling for the token of a device authorization (section 3.5 of RFC 8628), with
    429 answers (section 4 of RFC 6585) and Retry-After (section 10.2.3 of RFC 9110).
    Durations and instants are nanoseconds. */
module DevicePolling {
  import opened Options
  import Diagnostics

  const U64_MAX := 18_446_744_073_709_551_615
  const DURATION_MAX := 18_446_744_073_709_551_615_999_999_999

  type Duration = d: nat | d <= DURATION_MAX

  function Secs(n: nat): nat { 1_000_000_000 * n }

  const SLOW_DOWN_INCREMENT: Duration := 5_000_000_000
  const MIN_POLL_INTERVAL: Duration := 5_000_000_000

  datatype DeviceToken = DeviceToken(
    accessToken: string,
    tokenType: string,
    installationId: string,
    deviceId: string,
    scopes: seq<string>,
    userId: string,
    orgId: string)

  const AUTHORIZATION_PENDING := "authorization_pending"
  const SLOW_DOWN := "slow_down"
  const ACCESS_DENIED := "access_denied"
  const EXPIRED_TOKEN := "expired_token"

  /** What came back for one request. `None` in place of content is a body that does not parse. */
  datatype Response =
    | TransportError
    | TooManyRequests(retryAfter: Option<Duration>)
    | Success(token: Option<DeviceToken>)
    | BadRequest(error: Option<string>)
    | OtherStatus

  datatype PollError = Http | AccessDenied | Expired | BackendRejected | InvalidToken

  datatype PollResult = Token(token: DeviceToken) | Failed(error: PollError)

  predicate ValidToken(t: DeviceToken) {
    && Diagnostics.AsciiLower(t.tokenType) == "bearer"
    && t.accessToken != "" && t.installationId != "" && t.deviceId != "" && t.userId != "" && t.orgId != ""
  }

  predicate IsSlowDown(r: Response) { r == BadRequest(Some(SLOW_DOWN)) }

  /** Answers after which the device asks again. */
  predicate KeepsPolling(r: Response) {
    r.TooManyRequests? || r == BadRequest(Some(AUTHORIZATION_PENDING)) || IsSlowDown(r)
  }

  /** What any other answer means. */
  function Verdict(r: Response): PollResult
    requires !KeepsPolling(r)
  {
    match r
    case TransportError => Failed(Http)
    case Success(None) => Failed(Http)
    case Success(Some(t)) => if ValidToken(t) then Token(t) else Failed(InvalidToken)
    case OtherStatus => Failed(Http)
    case BadRequest(None) => Failed(Http)
    case BadRequest(Some(e)) =>
      if e == ACCESS_DENIED then Failed(AccessDenied)
      else if e == EXPIRED_TOKEN then Failed(Expired)
      else Failed(BackendRejected)
  }

  /** "bearer" in any mixture of cases, and nothing required is missing. */
  predicate Complete(t: DeviceToken) {
    && Diagnostics.Spells(t.tokenType, "bearer")
    && |t.accessToken| > 0 && |t.installationId| > 0 && |t.deviceId| > 0 && |t.userId| > 0 && |t.orgId| > 0
  }

  lemma ValidTokenMeans(t: DeviceToken)
    ensures ValidToken(t) <==> Complete(t)
  {
    Diagnostics.LowerSpells(t.tokenType, "bearer");
  }

  /** The answers after which the device asks again. */
  lemma KeepsPollingMeans(r: Response)
    ensures KeepsPolling(r) <==>
      r.TooManyRequests? || (r.BadRequest? && r.error in {Some("authorization_pending"), Some("slow_down")})
  {
  }

  /** A token is only ever returned complete, and expiry is what the backend calls expired. */
  lemma VerdictMeans(r: Response)
    requires !KeepsPolling(r)
    ensures Verdict(r).Token? <==> r.Success? && r.token.Some? && Complete(r.token.value)
    ensures Verdict(r).Token? ==> Verdict(r).token == r.token.value
    ensures Verdict(r) == Failed(InvalidToken) <==> r.Success? && r.token.Some? && !Complete(r.token.value)
    ensures Verdict(r) == Failed(Expired) <==> r == BadRequest(Some("expired_token"))
    ensures Verdict(r) == Failed(AccessDenied) <==> r == BadRequest(Some("access_denied"))
    ensures Verdict(r) == Failed(BackendRejected) <==>
      r.BadRequest? && r.error.Some? && r.error.value !in {"access_denied", "expired_token"}
  {
    if r.Success? && r.token.Some? { ValidTokenMeans(r.token.value); }
  }

  function Max(a: Duration, b: Duration): Duration { if a < b then b else a }

  function SaturatingAdd(a: Duration, b: Duration): Duration {
    if a + b <= DURATION_MAX then a + b else DURATION_MAX
  }

  /** The interval the backend asks for, but never less than five seconds. */
  function FirstInterval(intervalSecs: nat): (first: Duration)
    requires intervalSecs <= U64_MAX
    ensures first >= Secs(intervalSecs) && first >= Secs(5)
    ensures first == Secs(intervalSecs) || first == Secs(5)
  {
    Max(Secs(intervalSecs), MIN_POLL_INTERVAL)
  }

  function NextInterval(interval: Duration, r: Response): (next: Duration)
    ensures next >= interval
    // 429: the longest of Retry-After, the interval so far, and five seconds
    ensures r.TooManyRequests? ==> next >= Secs(5)
    ensures r.TooManyRequests? ==>
      next == interval || next == Secs(5) || (r.retryAfter.Some? && next == r.retryAfter.value)
    ensures r.TooManyRequests? && r.retryAfter.Some? ==> next >= r.retryAfter.value
    // slow_down: five seconds more; otherwise no change
    ensures IsSlowDown(r) ==> next == if interval + Secs(5) <= DURATION_MAX then interval + Secs(5) else DURATION_MAX
    ensures !r.TooManyRequests? && !IsSlowDown(r) ==> next == interval
  {
    if r.TooManyRequests? then
      Max(Max(if r.retryAfter.Some? then r.retryAfter.value else interval, interval), MIN_POLL_INTERVAL)
    else if IsSlowDown(r) then SaturatingAdd(interval, SLOW_DOWN_INCREMENT)
    else interval
  }

  function Sum(xs: seq<Duration>): nat { if xs == [] then 0 else Sum(xs[..|xs| - 1]) + xs[|xs| - 1] }

  lemma SumAppend(xs: seq<Duration>, x: Duration)
    ensures Sum(xs + [x]) == Sum(xs) + x
  {
    assert (xs + [x])[..|xs|] == xs;
  }

  /** The waits before the requests: none shorter than five seconds, none shorter
      than the one before. */
  predicate Patient(waits: seq<Duration>) {
    waits == [] ||
      var n := |waits| - 1;
      Patient(waits[..n]) && waits[n] >= MIN_POLL_INTERVAL && (n > 0 ==> waits[n - 1] <= waits[n])
  }

  lemma {:induction false} PatientMeans(waits: seq<Duration>)
    requires Patient(waits)
    ensures forall i | 0 <= i < |waits| :: waits[i] >= MIN_POLL_INTERVAL
    ensures forall i, j | 0 <= i < j < |waits| :: waits[i] <= waits[j]
  {
    if |waits| > 1 {
      var n := |waits| - 1;
      PatientMeans(waits[..n]);
      forall i | 0 <= i < n ensures waits[i] <= waits[n] {
        assert waits[..n][i] <= waits[..n][n - 1];
      }
    }
  }

  /** Every answer before the n-th request was `slow_down`. */
  predicate AllSlowDown(responses: nat -> Response, n: nat) {
    forall i | 0 <= i < n - 1 :: IsSlowDown(responses(i))
  }

  lemma {:induction false} PatientSum(waits: seq<Duration>)
    requires Patient(waits)
    ensures Sum(waits) >= Secs(5 * |waits|)
  {
    if waits != [] { PatientSum(waits[..|waits| - 1]); }
  }

  /** 5 + 10 + ... + 5n. */
  function SlowDownTotal(n: nat): nat { if n == 0 then 0 else SlowDownTotal(n - 1) + 5 * n }

  lemma {:induction false} SlowDownTotalIsQuadratic(n: nat)
    ensures 2 * SlowDownTotal(n) == 5 * n * (n + 1)
  {
    if n > 0 {
      SlowDownTotalIsQuadratic(n - 1);
      assert 5 * (n - 1) * n + 10 * n == 5 * n * (n + 1);
    }
  }

  /** The wait that the answers so far lead to. */
  function IntervalAfter(waits: seq<Duration>, first: Duration, responses: nat -> Response): Duration {
    if waits == [] then first else NextInterval(waits[|waits| - 1], responses(|waits| - 1))
  }

  /** Each wait is what the answer before it asks for. */
  predicate Follows(waits: seq<Duration>, first: Duration, responses: nat -> Response) {
    waits == [] ||
      var n := |waits| - 1;
      && Follows(waits[..n], first, responses)
      && waits[n] == IntervalAfter(waits[..n], first, responses)
      && (n > 0 ==> KeepsPolling(responses(n - 1)))
  }

  lemma {:induction false} StartsWithFirst(waits: seq<Duration>, first: Duration, responses: nat -> Response)
    requires Follows(waits, first, responses) && waits != []
    ensures waits[0] == first
  {
    if |waits| > 1 { StartsWithFirst(waits[..|waits| - 1], first, responses); }
  }

  /** The sleeps before requests end before the code expires, hence so few requests. */
  predicate Bounded(waits: seq<Duration>, expiresIn: nat, responses: nat -> Response) {
    waits != [] ==>
      && Sum(waits) < Secs(expiresIn)
      && 5 * |waits| < expiresIn
      && (AllSlowDown(responses, |waits|) ==> SlowDownTotal(|waits|) < expiresIn)
  }

  /** Sleeping lasts at least as long as asked: `oversleep` is the excess of each sleep
      and `roundTrip` the time each request takes. `maxInstant` is the last instant the
      clock can represent. Besides the result: whether it is what the last answer says,
      the arguments of the sleeps that were followed by a request, the argument of a
      last sleep that was not, and when the last answer was looked at. */
  method PollWithSleep(expiresIn: nat, intervalSecs: nat, start: nat, maxInstant: nat,
                       responses: nat -> Response, oversleep: nat -> nat, roundTrip: nat -> nat)
    returns (result: PollResult, answered: bool, waits: seq<Duration>, lastSleep: nat, seenAt: nat)
    requires expiresIn <= U64_MAX && intervalSecs <= U64_MAX
    ensures Patient(waits) && Follows(waits, FirstInterval(intervalSecs), responses)
    ensures waits != [] ==> waits[0] == FirstInterval(intervalSecs)
    ensures Bounded(waits, expiresIn, responses)
    ensures Within(waits, lastSleep, Secs(expiresIn))
    // a last sleep is only cut short because the next wait would outlast the code
    ensures lastSleep <= IntervalAfter(waits, FirstInterval(intervalSecs), responses)
    ensures answered ==> waits != [] && Decides(responses(|waits| - 1), result)
    ensures answered && result != Failed(Http) ==> seenAt < start + Secs(expiresIn)
    ensures !answered ==> result == Failed(Expired)
    ensures !answered ==> start + Secs(expiresIn) > maxInstant || seenAt >= start + Secs(expiresIn)
  {
    if start + Secs(expiresIn) > maxInstant {
      return Failed(Expired), false, [], 0, start;
    }
    var last;
    last, waits, lastSleep, seenAt :=
      PollLoop(Secs(expiresIn), FirstInterval(intervalSecs), start, responses, oversleep, roundTrip);
    Bounds(waits, FirstInterval(intervalSecs), expiresIn, responses);
    if waits != [] { StartsWithFirst(waits, FirstInterval(intervalSecs), responses); }
    answered := last.Some?;
    result := if answered then Verdict(last.value) else Failed(Expired);
  }

  /** The loop: the answer that ends it, or `None` when time runs out. */
  method PollLoop(lifetime: nat, first: Duration, start: nat,
                  responses: nat -> Response, oversleep: nat -> nat, roundTrip: nat -> nat)
    returns (last: Option<Response>, waits: seq<Duration>, lastSleep: nat, seenAt: nat)
    requires first >= MIN_POLL_INTERVAL
    ensures Patient(waits) && Follows(waits, first, responses)
    ensures Within(waits, lastSleep, lifetime)
    ensures lastSleep <= IntervalAfter(waits, first, responses)
    ensures last.Some? ==> waits != [] && last.value == responses(|waits| - 1) && !KeepsPolling(last.value)
    ensures last.Some? && !last.value.TransportError? ==> seenAt < start + lifetime
    ensures last.None? ==> seenAt >= start + lifetime
  {
    last, waits, lastSleep, seenAt := None, [], 0, start;
    var deadline := start + lifetime;
    var interval := first;
    var now := start;
    while true
      invariant Waiting(waits, interval, first, responses)
      invariant OnTime(waits, now - start, lifetime) && start <= now
      decreases deadline - now
    {
      seenAt := now;
      if now >= deadline { break; }
      var remaining := deadline - now;
      var n := |waits|;
      if interval >= remaining {
        LastSleepFits(waits, now - start, lifetime);
        lastSleep, seenAt := remaining, now + remaining + oversleep(n);
        break;
      }
      AnotherWait(waits, interval, first, responses);
      ghost var before := now - start;
      now := now + interval + oversleep(n) + roundTrip(n);
      StillOnTime(waits, interval, before, now - start, lifetime);
      waits := waits + [interval];
      seenAt := now;
      var response := responses(n);
      if response.TransportError? {
        last := Some(response);
        break;
      }
      if !response.TooManyRequests? {
        if now >= deadline { break; }
        if !KeepsPolling(response) {
          last := Some(response);
          break;
        }
      }
      interval := NextInterval(interval, response);
    }
  }

  /** The result is the meaning of an answer that ends the polling. */
  predicate Decides(r: Response, result: PollResult) { !KeepsPolling(r) && result == Verdict(r) }

  /** Between two requests. */
  predicate Waiting(waits: seq<Duration>, interval: Duration, first: Duration, responses: nat -> Response) {
    && Patient(waits) && Follows(waits, first, responses)
    && interval >= MIN_POLL_INTERVAL && interval == IntervalAfter(waits, first, responses)
    && (waits != [] ==> KeepsPolling(responses(|waits| - 1)) && waits[|waits| - 1] <= interval)
  }

  /** The sleeps asked for so far took at least as long as they should. */
  predicate OnTime(waits: seq<Duration>, elapsed: nat, lifetime: nat) {
    Sum(waits) <= elapsed && Within(waits, 0, lifetime)
  }

  predicate Within(waits: seq<Duration>, lastSleep: nat, lifetime: nat) {
    Sum(waits) + lastSleep <= lifetime && (waits != [] ==> Sum(waits) < lifetime)
  }

  lemma StillOnTime(waits: seq<Duration>, interval: Duration, before: nat, elapsed: nat, lifetime: nat)
    requires OnTime(waits, before, lifetime) && before + interval < lifetime && before + interval <= elapsed
    ensures OnTime(waits + [interval], elapsed, lifetime)
  {
    SumAppend(waits, interval);
  }

  lemma LastSleepFits(waits: seq<Duration>, elapsed: nat, lifetime: nat)
    requires OnTime(waits, elapsed, lifetime) && elapsed < lifetime
    ensures Within(waits, lifetime - elapsed, lifetime)
  {
  }

  lemma AnotherWait(waits: seq<Duration>, interval: Duration, first: Duration, responses: nat -> Response)
    requires Waiting(waits, interval, first, responses)
    ensures Patient(waits + [interval]) && Follows(waits + [interval], first, responses)
  {
    assert (waits + [interval])[..|waits|] == waits;
  }

  /** From the sleeps to the number of requests. */
  lemma Bounds(waits: seq<Duration>, first: Duration, expiresIn: nat, responses: nat -> Response)
    requires Patient(waits) && expiresIn <= U64_MAX && Follows(waits, first, responses)
    requires waits != [] ==> Sum(waits) < Secs(expiresIn)
    ensures Bounded(waits, expiresIn, responses)
  {
    if waits != [] {
      PatientSum(waits);
      if AllSlowDown(responses, |waits|) { GrowsEachTime(waits, first, expiresIn, responses); }
    }
  }

  /** After `slow_down` answers only, the n-th wait is at least 5n seconds: the
      saturating addition never saturates on a wait that is followed by a request. */
  lemma {:induction false} GrowsEachTime(waits: seq<Duration>, first: Duration, expiresIn: nat,
                                         responses: nat -> Response)
    requires Patient(waits) && Follows(waits, first, responses) && AllSlowDown(responses, |waits|)
    requires expiresIn <= U64_MAX && Sum(waits) <= Secs(expiresIn)
    ensures waits != [] ==> waits[|waits| - 1] >= Secs(5 * |waits|)
    ensures Sum(waits) >= Secs(SlowDownTotal(|waits|))
  {
    if waits != [] {
      var n := |waits| - 1;
      GrowsEachTime(waits[..n], first, expiresIn, responses);
      if n > 0 { assert IsSlowDown(responses(n - 1)); }
    }
  }
}
