/** How the daemon reconnects: which identities share an account, how a session ends,
    what a changed configuration does to running children, and how long to wait. */
module Reconnect {
  import opened Options
  import opened EnvStores
  import opened Slots
  import opened Diagnostics

  datatype CredentialKind = ClientAccessToken | LegacyApiKey

  /** The values one connection is made with. */
  datatype ResolvedRun = ResolvedRun(
    backend: string,
    credential: string,
    credentialKind: CredentialKind,
    installationId: Option<string>,
    secretKey: Option<string>,
    deviceId: string,
    deviceLabel: string)

  predicate SameConnection(a: ResolvedRun, b: ResolvedRun) {
    && a.backend == b.backend && a.credential == b.credential && a.credentialKind == b.credentialKind
    && a.installationId == b.installationId && a.secretKey == b.secretKey
    && a.deviceId == b.deviceId && a.deviceLabel == b.deviceLabel
  }

  /** Selects the file of stored values. */
  function EnvNamespace(r: ResolvedRun): Option<string> {
    if r.installationId.Some? then Some(r.backend + "\n" + r.installationId.value) else None
  }

  predicate RequiresChildReset(current: ResolvedRun, next: ResolvedRun) {
    || current.backend != next.backend
    || current.credentialKind != next.credentialKind
    || current.installationId != next.installationId
    || current.deviceId != next.deviceId
    || (current.credentialKind == LegacyApiKey && current.credential != next.credential)
  }

  predicate SameAccount(a: ResolvedRun, b: ResolvedRun) { !RequiresChildReset(a, b) }

  /** What makes two identities the same account; a client token may be renewed. */
  datatype AccountKey = AccountKey(
    backend: string, kind: CredentialKind, installation: Option<string>, device: string, legacyKey: Option<string>)

  function KeyOf(r: ResolvedRun): AccountKey {
    AccountKey(r.backend, r.credentialKind, r.installationId, r.deviceId,
               if r.credentialKind == LegacyApiKey then Some(r.credential) else None)
  }

  lemma SameAccountMeans(a: ResolvedRun, b: ResolvedRun)
    ensures SameAccount(a, b) <==> KeyOf(a) == KeyOf(b)
  {
  }

  /** Two identities make the same connection exactly if they agree in everything. */
  lemma SameConnectionMeans(a: ResolvedRun, b: ResolvedRun)
    ensures SameConnection(a, b) <==> a == b
  {
  }

  lemma SameAccountIsAnEquivalence(a: ResolvedRun, b: ResolvedRun, c: ResolvedRun)
    ensures SameAccount(a, a)
    ensures SameAccount(a, b) <==> SameAccount(b, a)
    ensures SameAccount(a, b) && SameAccount(b, c) ==> SameAccount(a, c)
    ensures SameConnection(a, b) ==> SameAccount(a, b)
  {
  }

  lemma NamespaceChangeResets(a: ResolvedRun, b: ResolvedRun)
    ensures EnvNamespace(a) != EnvNamespace(b) ==> RequiresChildReset(a, b)
  {
  }

  predicate NewlineFree(s: string) { '\n' !in s }

  /** The namespace separates backends and installations from each other. */
  lemma NamespaceSeparates(a: ResolvedRun, b: ResolvedRun)
    requires NewlineFree(a.backend) && NewlineFree(b.backend)
    ensures EnvNamespace(a) == EnvNamespace(b) <==>
      a.installationId == b.installationId && (a.installationId.Some? ==> a.backend == b.backend)
  {
    if a.installationId.Some? && b.installationId.Some? {
      SplitAtNewline(a.backend, a.installationId.value, b.backend, b.installationId.value);
    }
  }

  lemma SplitAtNewline(p: string, x: string, q: string, y: string)
    requires NewlineFree(p) && NewlineFree(q)
    ensures p + "\n" + x == q + "\n" + y ==> p == q && x == y
  {
    var s, t := p + "\n" + x, q + "\n" + y;
    if s == t {
      assert s[|p|] == '\n' && t[|q|] == '\n';
      assert forall k | 0 <= k < |p| :: s[k] == p[k];
      assert forall k | 0 <= k < |q| :: t[k] == q[k];
      assert s[..|p|] == p && t[..|q|] == q;
      assert s[|p| + 1..] == x && t[|q| + 1..] == y;
    }
  }

  /** With a newline in a backend two accounts could share a namespace. */
  lemma NewlineWouldMerge(a: ResolvedRun, b: ResolvedRun)
    requires a.backend == "b\nx" && a.installationId == Some("y")
    requires b.backend == "b" && b.installationId == Some("x\ny")
    ensures EnvNamespace(a) == EnvNamespace(b) && RequiresChildReset(a, b)
  {
    assert "b\nx" + "\n" + "y" == "b" + "\n" + "x\ny";
    assert a.backend != b.backend;
  }

  // ------------------------------------------------- how a session can end

  datatype SessionError =
    | UpgradeRejected(status: nat)                   // HTTP status of the upgrade
    | Closed(policyCode: bool, reason: string)       // close frame with a reason
    | OtherError

  datatype Verdict = NeedsReauth | NeedsUpgrade | Retry

  const CREDENTIAL_REVOKED := "client credential revoked"
  const INSTALLATION_REVOKED := "client installation revoked"
  const MISMATCH := "protocol_version mismatch"

  function Classify(e: SessionError): Verdict {
    match e
    case UpgradeRejected(status) => if status == 401 || status == 403 then NeedsReauth else Retry
    case Closed(policy, reason) =>
      var text := AsciiLower(Trim(reason));
      if policy && (text == CREDENTIAL_REVOKED || text == INSTALLATION_REVOKED) then NeedsReauth
      else if policy && MISMATCH <= text then NeedsUpgrade
      else Retry
    case OtherError => Retry
  }

  lemma ClassifyMeans(e: SessionError)
    ensures e.UpgradeRejected? ==> Classify(e) == if e.status in {401, 403} then NeedsReauth else Retry
    ensures e.OtherError? || (e.Closed? && !e.policyCode) ==> Classify(e) == Retry
  {
  }

  /** Close reasons are read without the blanks around them, in any mixture of cases. */
  lemma CloseReasonMeans(a: string, t: string, b: string)
    requires Blank(a) && Blank(b) && (t != "" ==> !IsWhitespace(t[0]) && !IsWhitespace(t[|t| - 1]))
    ensures Classify(Closed(true, a + t + b)) ==
      if Spells(t, "client credential revoked") || Spells(t, "client installation revoked") then NeedsReauth
      else if |t| >= 25 && Spells(t[..25], "protocol_version mismatch") then NeedsUpgrade
      else Retry
  {
    TrimMeans(a, t, b);
    ReasonsAreSmall();
    LowerSpells(t, CREDENTIAL_REVOKED);
    LowerSpells(t, INSTALLATION_REVOKED);
    LowerBegins(t, MISMATCH);
  }

  lemma ReasonsAreSmall()
    ensures NoCapitals(CREDENTIAL_REVOKED) && NoCapitals(INSTALLATION_REVOKED) && NoCapitals(MISMATCH)
    ensures |MISMATCH| == 25
  {
  }

  lemma LowerBegins(t: string, m: string)
    requires NoCapitals(m)
    ensures m <= AsciiLower(t) <==> |t| >= |m| && Spells(t[..|m|], m)
  {
    if |t| >= |m| {
      LowerSpells(t[..|m|], m);
      assert AsciiLower(t)[..|m|] == AsciiLower(t[..|m|]);
    }
  }

  // ---------------------------------------------------------------- delays

  const BACKOFF_MIN := 1
  const BACKOFF_MAX := 30

  function Pow2(n: nat): (p: nat)
    ensures p >= 1
  {
    if n == 0 then 1 else 2 * Pow2(n - 1)
  }

  function Min(a: nat, b: nat): nat { if a < b then a else b }

  lemma CappedDoubling(n: nat)
    ensures Min(2 * Min(Pow2(n), BACKOFF_MAX), BACKOFF_MAX) == Min(Pow2(n + 1), BACKOFF_MAX)
    ensures 1 <= Min(Pow2(n), BACKOFF_MAX)
  {
  }

  /** Division of signed machine integers: towards zero. */
  function TruncDiv(a: int, b: int): int
    requires b > 0
  {
    if a >= 0 then a / b else -(-a / b)
  }

  /** Up to a quarter more or less, taken from the clock's nanoseconds. */
  function Jittered(baseMs: nat, nanos: nat): (ms: nat)
    ensures 3 * baseMs <= 4 * ms <= 5 * baseMs
  {
    var pct := nanos % 51 - 25;
    var deltaMs := TruncDiv(baseMs * pct, 100);
    JitterBounds(baseMs, pct);
    baseMs + deltaMs
  }

  /** The whole range of a quarter either way is used. */
  lemma JitterReachesItsBounds(baseMs: nat)
    ensures Jittered(baseMs, 0) == baseMs - baseMs / 4
    ensures Jittered(baseMs, 25) == baseMs
    ensures Jittered(baseMs, 50) == baseMs + baseMs / 4
  {
    assert -(baseMs * -25) / 100 == baseMs / 4;
    assert (baseMs * 25) / 100 == baseMs / 4;
  }

  lemma JitterBounds(baseMs: nat, pct: int)
    requires -25 <= pct <= 25
    ensures -(baseMs as int) <= 4 * TruncDiv(baseMs * pct, 100) <= baseMs
  {
    var a := baseMs * pct;
    assert -25 * baseMs <= a <= 25 * baseMs;
    assert -a <= 100 * TruncDiv(-a, 100) + 99;
  }

  // -------------------------------------------------------------- the loop

  /** What the supervisor is told while connected: frames from the backend and steps of
      the pumps. */
  type SessionCommand = c: Command | !c.ShutdownChildren? && !c.SwitchEnvStore? witness PumpTakes("")

  /** One look at the configuration, `at` milliseconds after waiting began;
      `None` when it is missing, incomplete or unreadable. */
  datatype ConfigPoll = ConfigPoll(config: Option<ResolvedRun>, at: nat)

  /** What happens in one turn of the loop: what the supervisor is told (pump steps
      while the daemon waits included, which do nothing to a process once it is stopped),
      the looks at the configuration meanwhile, how the session would end by itself, the
      looks while waiting, the clock, and the values stored for another namespace, if
      they can be opened. */
  datatype Turn = Turn(
    commands: seq<SessionCommand>,
    watched: seq<Option<ResolvedRun>>,
    error: Option<SessionError>,
    polls: seq<ConfigPoll>,
    nanos: nat,
    storeData: Option<Specs>)

  /** A connected daemon that sees this ends the session. */
  predicate EndsSession(current: ResolvedRun, seen: Option<ResolvedRun>) {
    seen.None? || !SameConnection(current, seen.value)
  }

  predicate EndedByWatch(current: ResolvedRun, t: Turn) {
    exists i | 0 <= i < |t.watched| :: EndsSession(current, t.watched[i])
  }

  /** The look that ends the session is unusable or belongs to another account. */
  predicate WatchStopsAll(current: ResolvedRun, watched: seq<Option<ResolvedRun>>) {
    exists i | 0 <= i < |watched| :: StopsAll(current, watched[i]) && NoneEnds(current, watched[..i])
  }

  predicate StopsAll(current: ResolvedRun, seen: Option<ResolvedRun>) {
    seen.None? || RequiresChildReset(current, seen.value)
  }

  predicate NoneEnds(current: ResolvedRun, watched: seq<Option<ResolvedRun>>) {
    forall j | 0 <= j < |watched| :: !EndsSession(current, watched[j])
  }

  predicate EndedCleanly(current: ResolvedRun, t: Turn) { EndedByWatch(current, t) || t.error.None? }

  predicate Rejected(current: ResolvedRun, t: Turn) {
    !EndedCleanly(current, t) && Classify(t.error.value) != Retry
  }

  /** Every look while connected shows the configuration in use. */
  predicate NeverTouched(current: ResolvedRun, t: Turn) {
    forall i | 0 <= i < |t.watched| :: t.watched[i] == Some(current)
  }

  lemma WatchMeans(current: ResolvedRun, t: Turn)
    ensures EndedByWatch(current, t) <==> !NeverTouched(current, t)
  {
    if i :| 0 <= i < |t.watched| && t.watched[i] != Some(current) { assert EndsSession(current, t.watched[i]); }
  }

  lemma RejectedMeans(current: ResolvedRun, t: Turn)
    ensures Rejected(current, t) <==>
      NeverTouched(current, t) && t.error.Some? && Classify(t.error.value) != Retry
  {
    WatchMeans(current, t);
  }

  /** One look after the other is unchanged, until one shows a logout or another account. */
  lemma WatchStopsAllMeans(current: ResolvedRun, watched: seq<Option<ResolvedRun>>)
    ensures WatchStopsAll(current, watched) <==>
      exists i | 0 <= i < |watched| ::
        && (watched[i].None? || KeyOf(watched[i].value) != KeyOf(current))
        && forall j | 0 <= j < i :: watched[j] == Some(current)
  {
    forall i | 0 <= i < |watched|
      ensures NoneEnds(current, watched[..i]) <==> forall j | 0 <= j < i :: watched[j] == Some(current)
    {
      assert forall j | 0 <= j < i :: watched[..i][j] == watched[j];
    }
  }

  predicate SomeUnusable(polls: seq<ConfigPoll>, n: nat)
    requires n <= |polls|
  {
    exists j | 0 <= j < n :: polls[j].config.None?
  }

  /** The i-th look lets the daemon go on: a usable configuration that is different
      or follows an unusable one, or an unchanged one once the time is up. */
  predicate Answers(current: ResolvedRun, limitMs: Option<nat>, polls: seq<ConfigPoll>, i: nat)
    requires i < |polls|
  {
    polls[i].config.Some? &&
      (!SameConnection(current, polls[i].config.value) || SomeUnusable(polls, i)
       || (limitMs.Some? && polls[i].at >= limitMs.value))
  }

  /** The first look from `i` on that lets the daemon go on, or the number of looks. */
  function AnswerFrom(current: ResolvedRun, limitMs: Option<nat>, polls: seq<ConfigPoll>, i: nat): (n: nat)
    requires i <= |polls|
    ensures i <= n <= |polls| && forall j | i <= j < n :: !Answers(current, limitMs, polls, j)
    ensures n < |polls| ==> Answers(current, limitMs, polls, n)
    decreases |polls| - i
  {
    if i == |polls| || Answers(current, limitMs, polls, i) then i else AnswerFrom(current, limitMs, polls, i + 1)
  }

  function FirstAnswer(current: ResolvedRun, limitMs: Option<nat>, polls: seq<ConfigPoll>): (n: nat)
    ensures n <= |polls| && (n < |polls| ==> Answers(current, limitMs, polls, n))
  {
    AnswerFrom(current, limitMs, polls, 0)
  }

  /** A look that leaves the daemon waiting: unusable, or the configuration it has, seen
      before the time is up and never interrupted by an unusable one. */
  predicate PassedOver(current: ResolvedRun, limitMs: Option<nat>, polls: seq<ConfigPoll>, j: nat)
    requires j < |polls|
  {
    polls[j].config.None? ||
      (polls[j].config == Some(current) && (limitMs.None? || polls[j].at < limitMs.value)
       && forall q | 0 <= q < j :: polls[q].config.Some?)
  }

  /** The look after which the daemon goes on: a configuration that is new, or came back,
      or is still the same when the time is up. */
  predicate GoesOnAt(current: ResolvedRun, limitMs: Option<nat>, polls: seq<ConfigPoll>, n: nat)
    requires n < |polls|
  {
    && polls[n].config.Some?
    && (polls[n].config.value != current || (exists j | 0 <= j < n :: polls[j].config.None?)
        || (limitMs.Some? && polls[n].at >= limitMs.value))
    && forall j | 0 <= j < n :: PassedOver(current, limitMs, polls, j)
  }

  lemma FirstAnswerMeans(current: ResolvedRun, limitMs: Option<nat>, polls: seq<ConfigPoll>)
    ensures var n := FirstAnswer(current, limitMs, polls);
      if n < |polls| then GoesOnAt(current, limitMs, polls, n)
      else forall j | 0 <= j < |polls| :: PassedOver(current, limitMs, polls, j)
  {
    var n := FirstAnswer(current, limitMs, polls);
    forall j | 0 <= j < n ensures PassedOver(current, limitMs, polls, j) {
      assert !Answers(current, limitMs, polls, j);
    }
  }

  /** The wait meets a logout before it is over. */
  lemma WaitSawUnusableMeans(current: ResolvedRun, limitMs: Option<nat>, polls: seq<ConfigPoll>)
    ensures WaitSawUnusable(current, limitMs, polls) <==>
      exists j | 0 <= j < |polls| :: polls[j].config.None? && UnchangedBefore(current, limitMs, polls, j)
  {
    var n := FirstAnswer(current, limitMs, polls);
    FirstAnswerMeans(current, limitMs, polls);
    if WaitSawUnusable(current, limitMs, polls) {
      var j := FirstUnusable(polls, n);
      forall q | 0 <= q < j ensures polls[q].config.Some? && PassedOver(current, limitMs, polls, q) {}
      assert UnchangedBefore(current, limitMs, polls, j);
    }
    if j :| 0 <= j < |polls| && polls[j].config.None? && UnchangedBefore(current, limitMs, polls, j) {
      assert j < n;
    }
  }

  predicate UnchangedBefore(current: ResolvedRun, limitMs: Option<nat>, polls: seq<ConfigPoll>, j: nat)
    requires j <= |polls|
  {
    forall q | 0 <= q < j :: polls[q].config == Some(current) && (limitMs.None? || polls[q].at < limitMs.value)
  }

  lemma FirstUnusable(polls: seq<ConfigPoll>, n: nat) returns (j: nat)
    requires n <= |polls| && SomeUnusable(polls, n)
    ensures j < n && polls[j].config.None? && !SomeUnusable(polls, j)
  {
    if SomeUnusable(polls, n - 1) { j := FirstUnusable(polls, n - 1); } else { j := n - 1; }
  }

  /** Before the daemon goes on it sees no usable configuration for a while. */
  predicate WaitSawUnusable(current: ResolvedRun, limitMs: Option<nat>, polls: seq<ConfigPoll>) {
    SomeUnusable(polls, FirstAnswer(current, limitMs, polls))
  }

  predicate DelayInRange(ms: nat, n: nat) {
    3 * (1000 * Min(Pow2(n), BACKOFF_MAX)) <= 4 * ms <= 5 * (1000 * Min(Pow2(n), BACKOFF_MAX))
  }

  /** Unchanged waits in a row, after one more turn. */
  function NextWaits(from: ResolvedRun, to: ResolvedRun, t: Turn, waits: nat): nat {
    if !SameConnection(from, to) then 0
    else if Rejected(from, t) || EndedCleanly(from, t) then 1
    else waits + 1
  }

  /** Unchanged waits in a row when turn `i` begins, counted from the identities dialled with. */
  function WaitsBefore(dialled: seq<ResolvedRun>, turns: seq<Turn>, i: nat): nat
    requires i < |dialled| && i <= |turns|
  {
    if i == 0 then 0
    else NextWaits(dialled[i - 1], dialled[i], turns[i - 1], WaitsBefore(dialled, turns, i - 1))
  }

  lemma WaitsOfPrefix(more: seq<ResolvedRun>, dialled: seq<ResolvedRun>, turns: seq<Turn>, i: nat)
    requires i < |dialled| && i <= |turns| && dialled <= more
    ensures WaitsBefore(more, turns, i) == WaitsBefore(dialled, turns, i)
  {
    if i > 0 { WaitsOfPrefix(more, dialled, turns, i - 1); }
  }

  /** The daemon dials with what it saw when it was time to go on. After a rejection no
      delay is set, so that only a new configuration, or one that came back, will do. */
  predicate Gated(dialled: seq<ResolvedRun>, delays: seq<Option<nat>>, turns: seq<Turn>) {
    |dialled| <= |delays| + 1 && |delays| <= |turns|
    && forall i | 0 <= i < |dialled| - 1 :: GatedAt(dialled[i], dialled[i + 1], delays[i], turns[i])
  }

  predicate GatedAt(from: ResolvedRun, to: ResolvedRun, delayMs: Option<nat>, t: Turn) {
    exists n | 0 <= n < |t.polls| :: t.polls[n].config == Some(to) && GoesOnAt(from, delayMs, t.polls, n)
  }

  /** A turn sets no delay after a rejection, and otherwise one that fits its place in the run. */
  predicate Paced(dialled: seq<ResolvedRun>, delays: seq<Option<nat>>, turns: seq<Turn>) {
    |dialled| == |delays| <= |turns| && forall i | 0 <= i < |dialled| :: PacedAt(dialled, delays[i], turns, i)
  }

  predicate PacedAt(dialled: seq<ResolvedRun>, delay: Option<nat>, turns: seq<Turn>, i: nat)
    requires i < |dialled| && i < |turns|
  {
    DelayFits(dialled[i], delay, turns[i], WaitsBefore(dialled, turns, i))
  }

  /** None after a rejection, otherwise 2^n seconds, at most 30, give or take a quarter,
      for n unchanged waits; a clean end starts the count again. */
  predicate DelayFits(current: ResolvedRun, delay: Option<nat>, t: Turn, waits: nat) {
    if Rejected(current, t) then delay.None?
    else delay.Some? && DelayInRange(delay.value, if EndedCleanly(current, t) then 0 else waits)
  }

  /** The daemon dials once more. */
  lemma DialAgain(dialled: seq<ResolvedRun>, delays: seq<Option<nat>>, turns: seq<Turn>,
                  from: ResolvedRun, delay: Option<nat>, to: ResolvedRun)
    requires |dialled| == |delays| < |turns| && Gated(dialled + [from], delays, turns)
    requires GatedAt(from, to, delay, turns[|dialled|])
    ensures var n, here := |dialled|, dialled + [from];
      && Gated(here + [to], delays + [delay], turns)
      && WaitsBefore(here + [to], turns, n + 1) == NextWaits(from, to, turns[n], WaitsBefore(here, turns, n))
  {
    GatedStep(dialled + [from], delays, turns, delay, to);
    WaitsOfPrefix(dialled + [from] + [to], dialled + [from], turns, |dialled|);
  }

  lemma GatedStep(dialled: seq<ResolvedRun>, delays: seq<Option<nat>>, turns: seq<Turn>,
                  delay: Option<nat>, to: ResolvedRun)
    requires 0 < |dialled| == |delays| + 1 <= |turns| && Gated(dialled, delays, turns)
    requires GatedAt(dialled[|dialled| - 1], to, delay, turns[|dialled| - 1])
    ensures Gated(dialled + [to], delays + [delay], turns)
  {
    var more, ds := dialled + [to], delays + [delay];
    forall i | 0 <= i < |dialled| ensures GatedAt(more[i], more[i + 1], ds[i], turns[i]) {
      if i < |dialled| - 1 { assert GatedAt(dialled[i], dialled[i + 1], delays[i], turns[i]); }
    }
  }

  lemma PrefixGated(dialled: seq<ResolvedRun>, delays: seq<Option<nat>>, turns: seq<Turn>, last: ResolvedRun)
    requires Gated(dialled + [last], delays, turns)
    ensures Gated(dialled, delays, turns)
  {
    var more := dialled + [last];
    forall i | 0 <= i < |dialled| - 1 ensures GatedAt(dialled[i], dialled[i + 1], delays[i], turns[i]) {
      assert GatedAt(more[i], more[i + 1], delays[i], turns[i]);
    }
  }

  lemma PacedStep(dialled: seq<ResolvedRun>, delays: seq<Option<nat>>, turns: seq<Turn>,
                  from: ResolvedRun, delay: Option<nat>)
    requires Paced(dialled, delays, turns) && |dialled| < |turns|
    requires DelayFits(from, delay, turns[|dialled|], WaitsBefore(dialled + [from], turns, |dialled|))
    ensures Paced(dialled + [from], delays + [delay], turns)
  {
    var more := dialled + [from];
    forall i | 0 <= i < |dialled| ensures PacedAt(more, delays[i], turns, i) {
      assert PacedAt(dialled, delays[i], turns, i);
      WaitsOfPrefix(more, dialled, turns, i);
    }
  }

  /** A session that fails without being rejected, its configuration never touched. */
  predicate FailsPlainly(current: ResolvedRun, t: Turn) {
    NeverTouched(current, t) && t.error.Some? && Classify(t.error.value) == Retry
  }

  lemma PlainFailureMeans(current: ResolvedRun, t: Turn)
    ensures FailsPlainly(current, t) <==> !Rejected(current, t) && !EndedCleanly(current, t)
  {
    WatchMeans(current, t);
  }

  /** From turn `r` to turn `i` the identity stays the same and every session fails. */
  predicate KeepsFailing(dialled: seq<ResolvedRun>, turns: seq<Turn>, r: nat, i: nat)
    requires r <= i < |dialled| <= |turns|
  {
    forall j | r <= j <= i :: dialled[j] == dialled[r] && FailsPlainly(dialled[j], turns[j])
  }

  /** The n-th failure in a row with a new identity, or the (n-1)-th after a session that
      ended well or was rejected, makes the daemon wait for 2^n seconds, but at most 30,
      give or take a quarter. */
  lemma BackoffDoubles(dialled: seq<ResolvedRun>, delays: seq<Option<nat>>, turns: seq<Turn>, r: nat, i: nat)
    requires Paced(dialled, delays, turns) && r <= i < |dialled| && KeepsFailing(dialled, turns, r, i)
    requires r == 0 || dialled[r - 1] != dialled[r] || !FailsPlainly(dialled[r - 1], turns[r - 1])
    ensures var n := if r == 0 || dialled[r - 1] != dialled[r] then i - r else i - r + 1;
      var base := if Pow2(n) < 30 then 1000 * Pow2(n) else 30000;
      delays[i].Some? && 3 * base <= 4 * delays[i].value <= 5 * base
  {
    WaitsCount(dialled, turns, r, i);
    PlainFailureMeans(dialled[i], turns[i]);
    assert PacedAt(dialled, delays[i], turns, i);
  }

  lemma {:induction false} WaitsCount(dialled: seq<ResolvedRun>, turns: seq<Turn>, r: nat, i: nat)
    requires r <= i < |dialled| <= |turns| && KeepsFailing(dialled, turns, r, i)
    requires r == 0 || dialled[r - 1] != dialled[r] || !FailsPlainly(dialled[r - 1], turns[r - 1])
    ensures WaitsBefore(dialled, turns, i) ==
      if r == 0 || dialled[r - 1] != dialled[r] then i - r else i - r + 1
  {
    if r < i {
      WaitsCount(dialled, turns, r, i - 1);
      OneMoreWait(dialled, turns, i);
    } else {
      WaitsStart(dialled, turns, r);
    }
  }

  lemma OneMoreWait(dialled: seq<ResolvedRun>, turns: seq<Turn>, i: nat)
    requires 0 < i < |dialled| <= |turns|
    ensures dialled[i] == dialled[i - 1] && FailsPlainly(dialled[i - 1], turns[i - 1]) ==>
      WaitsBefore(dialled, turns, i) == WaitsBefore(dialled, turns, i - 1) + 1
  {
    PlainFailureMeans(dialled[i - 1], turns[i - 1]);
  }

  lemma WaitsStart(dialled: seq<ResolvedRun>, turns: seq<Turn>, r: nat)
    requires r < |dialled| <= |turns|
    requires r == 0 || dialled[r - 1] != dialled[r] || !FailsPlainly(dialled[r - 1], turns[r - 1])
    ensures WaitsBefore(dialled, turns, r) == if r == 0 || dialled[r - 1] != dialled[r] then 0 else 1
  {
    if r > 0 { PlainFailureMeans(dialled[r - 1], turns[r - 1]); }
  }

  /** After a session that ended well the wait is a second, give or take a quarter. */
  lemma BackoffStartsOver(dialled: seq<ResolvedRun>, delays: seq<Option<nat>>, turns: seq<Turn>, i: nat)
    requires Paced(dialled, delays, turns) && i < |dialled|
    requires turns[i].error.None? || !NeverTouched(dialled[i], turns[i])
    ensures delays[i].Some? && 750 <= delays[i].value <= 1250
  {
    WatchMeans(dialled[i], turns[i]);
    assert PacedAt(dialled, delays[i], turns, i);
  }

  /** Where the loop is before a turn. */
  predicate OnCourse(dialled: seq<ResolvedRun>, delays: seq<Option<nat>>, turns: seq<Turn>,
                     current: ResolvedRun, waits: nat) {
    && |dialled| == |delays| <= |turns|
    && Gated(dialled + [current], delays, turns) && Paced(dialled, delays, turns)
    && waits == WaitsBefore(dialled + [current], turns, |dialled|)
  }

  lemma StaysOnCourse(dialled: seq<ResolvedRun>, delays: seq<Option<nat>>, turns: seq<Turn>,
                      from: ResolvedRun, waits: nat, delay: Option<nat>, to: ResolvedRun)
    requires OnCourse(dialled, delays, turns, from, waits) && |dialled| < |turns|
    requires DelayFits(from, delay, turns[|dialled|], waits)
    ensures var n, here, ds := |dialled|, dialled + [from], delays + [delay];
      && Gated(here, ds, turns) && Paced(here, ds, turns)
      && (GatedAt(from, to, delay, turns[n]) ==> OnCourse(here, ds, turns, to, NextWaits(from, to, turns[n], waits)))
  {
    PacedStep(dialled, delays, turns, from, delay);
    MoreDelays(dialled + [from], delays, turns, delay);
    if GatedAt(from, to, delay, turns[|dialled|]) { DialAgain(dialled, delays, turns, from, delay, to); }
  }

  lemma MoreDelays(dialled: seq<ResolvedRun>, delays: seq<Option<nat>>, turns: seq<Turn>, delay: Option<nat>)
    requires Gated(dialled, delays, turns) && |delays| < |turns|
    ensures Gated(dialled, delays + [delay], turns)
  {
    forall i | 0 <= i < |dialled| - 1 ensures GatedAt(dialled[i], dialled[i + 1], (delays + [delay])[i], turns[i]) {
      assert GatedAt(dialled[i], dialled[i + 1], delays[i], turns[i]);
    }
  }

  /** The stored values for the next configuration are at hand. */
  predicate StoreReady(from: ResolvedRun, to: ResolvedRun, t: Turn) {
    EnvNamespace(from) == EnvNamespace(to) || t.storeData.Some?
  }

  /** A turn stops everything if it was rejected, or saw a logout, or another account. */
  predicate StopsChildren(from: ResolvedRun, to: ResolvedRun, delayMs: Option<nat>, t: Turn) {
    || Rejected(from, t) || WatchStopsAll(from, t.watched)
    || WaitSawUnusable(from, delayMs, t.polls) || RequiresChildReset(from, to)
  }

  /** Spelled out: the session was rejected; or the configuration was seen to be unusable,
      or of another account, with nothing but the one in use before; or the daemon goes on
      with another account. */
  lemma StopsChildrenMeans(from: ResolvedRun, to: ResolvedRun, delayMs: Option<nat>, t: Turn)
    ensures StopsChildren(from, to, delayMs, t) <==>
      || (NeverTouched(from, t) && t.error.Some? && Classify(t.error.value) != Retry)
      || (exists i | 0 <= i < |t.watched| ::
            && (t.watched[i].None? || KeyOf(t.watched[i].value) != KeyOf(from))
            && forall j | 0 <= j < i :: t.watched[j] == Some(from))
      || (exists j | 0 <= j < |t.polls| :: t.polls[j].config.None? && UnchangedBefore(from, delayMs, t.polls, j))
      || KeyOf(from) != KeyOf(to)
  {
    RejectedMeans(from, t);
    WatchStopsAllMeans(from, t.watched);
    WaitSawUnusableMeans(from, delayMs, t.polls);
    SameAccountMeans(from, to);
  }

  lemma WatchEnds(current: ResolvedRun, watched: seq<Option<ResolvedRun>>, i: nat)
    requires i < |watched| && NoneEnds(current, watched[..i]) && EndsSession(current, watched[i])
    ensures WatchStopsAll(current, watched) <==> StopsAll(current, watched[i])
  {
    forall k | 0 <= k < i ensures !EndsSession(current, watched[k]) { assert watched[..i][k] == watched[k]; }
    forall k | i < k < |watched| ensures !NoneEnds(current, watched[..k]) { assert watched[..k][i] == watched[i]; }
  }
}
