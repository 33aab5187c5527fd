/** The saved configuration: how flags are laid over it, and how login and logout
    change it. Every credential-like value carries where it came from; no operation
    looks at that part, so what it says afterwards is where values have flowed. */
module Credentials {
  import opened Options
  import opened Reconnect
  import opened DevicePolling

  /** Whom a login is for. */
  datatype Account =
    | ClientAccount(backend: string, installation: string, user: string, org: string)
    | LegacyAccount(backend: string, key: string)

  datatype Origin =
    | File                        // read from the saved file
    | Flag                        // given on the command line or in the environment
    | Local                       // this machine's host name
    | SuppliedFor(account: Account)   // given or issued during a login to this account

  datatype Value = Value(text: string, origin: Origin)

  datatype Config = Config(
    backendUrl: Option<string>,
    apiKey: Option<Value>,
    clientAccessToken: Option<Value>,
    installationId: Option<Value>,
    userId: Option<Value>,
    orgId: Option<Value>,
    scopes: seq<string>,
    secretKey: Option<Value>,
    deviceId: Option<Value>,
    deviceLabel: Option<string>)

  const EMPTY_CONFIG := Config(None, None, None, None, None, None, [], None, None, None)

  /** URL normalisation, as far as it matters here: a partial function whose results
      are non-empty, free of newlines, and already normal. */
  type Normalizer = string -> Option<string>

  ghost predicate IsNormalizer(norm: Normalizer) {
    forall raw :: norm(raw).Some? ==>
      var url := norm(raw).value; norm(url) == Some(url) && url != "" && NewlineFree(url)
  }

  predicate NonEmpty(v: Option<Value>) { v.Some? && v.value.text != "" }

  predicate HasCredential(c: Config) { NonEmpty(c.clientAccessToken) || NonEmpty(c.apiKey) }

  predicate HasIssuerBoundValues(c: Config) {
    || HasCredential(c) || NonEmpty(c.installationId) || NonEmpty(c.userId) || NonEmpty(c.orgId)
    || NonEmpty(c.secretKey) || NonEmpty(c.deviceId)
  }

  predicate EnsureInstallable(norm: Normalizer, c: Config) {
    && c.backendUrl.Some? && c.backendUrl.value != "" && norm(c.backendUrl.value).Some?
    && HasCredential(c)
    && (NonEmpty(c.clientAccessToken) ==> NonEmpty(c.installationId) && NonEmpty(c.deviceId))
  }

  predicate SameBackend(norm: Normalizer, left: Option<string>, right: string) {
    left.Some? && norm(right).Some? && norm(left.value) == norm(right)
  }

  function ClearedAuthentication(c: Config): Config {
    EMPTY_CONFIG.(backendUrl := c.backendUrl, deviceLabel := c.deviceLabel)
  }

  // ----------------------------------------------------------------- merge

  datatype Resolved = Resolved(
    backendUrl: Option<string>,
    apiKey: Option<Value>,
    clientAccessToken: Option<Value>,
    installationId: Option<Value>,
    secretKey: Option<Value>,
    deviceId: Option<Value>,
    deviceLabel: Option<string>)

  /** What the command line and the environment may override. */
  datatype Overrides = Overrides(
    backendUrl: Option<string>,
    apiKey: Option<Value>,
    secretKey: Option<Value>,
    deviceId: Option<Value>,
    deviceLabel: Option<string>)

  datatype MergeError = BadBackendUrl | BackendMismatch | NoBackendBinding | DeviceIdBound

  datatype MergeResult = Merged(resolved: Resolved) | Refused(error: MergeError)

  function Normalized(norm: Normalizer, url: Option<string>): Option<string> {
    if url.Some? then norm(url.value) else None
  }

  predicate Unparsable(norm: Normalizer, url: Option<string>) { url.Some? && norm(url.value).None? }

  function Merge(norm: Normalizer, saved: Config, over: Overrides): MergeResult {
    var legacy := over.apiKey.Some?;
    var requested := Normalized(norm, over.backendUrl);
    var bound := Normalized(norm, saved.backendUrl);
    if Unparsable(norm, over.backendUrl) then Refused(BadBackendUrl)
    else if Unparsable(norm, saved.backendUrl) && !(legacy && requested.Some?) then Refused(BadBackendUrl)
    else if legacy then
      var preserve := !NonEmpty(saved.clientAccessToken) && NonEmpty(saved.apiKey)
        && (requested.None? || bound == requested);
      Merged(Resolved(
        Or(requested, bound),
        over.apiKey,
        None,
        None,
        Or(over.secretKey, if preserve then saved.secretKey else None),
        Or(over.deviceId, if preserve then saved.deviceId else None),
        Or(over.deviceLabel, saved.deviceLabel)))
    else if requested.Some? && bound.Some? && requested != bound && HasIssuerBoundValues(saved) then
      Refused(BackendMismatch)
    else if requested.Some? && bound.None? && HasIssuerBoundValues(saved) then
      Refused(NoBackendBinding)
    else if NonEmpty(saved.clientAccessToken) && over.deviceId.Some?
      && !(NonEmpty(saved.deviceId) && saved.deviceId.value.text == over.deviceId.value.text) then
      Refused(DeviceIdBound)
    else
      Merged(Resolved(
        Or(requested, bound),
        saved.apiKey,
        saved.clientAccessToken,
        saved.installationId,
        Or(over.secretKey, saved.secretKey),
        Or(over.deviceId, saved.deviceId),
        Or(over.deviceLabel, saved.deviceLabel)))
  }

  predicate OriginIs(v: Option<Value>, o: Origin) { v.Some? ==> v.value.origin == o }

  /** All values of the file are tagged as such, and the overrides as flags. */
  predicate Tagged(saved: Config, over: Overrides) {
    && OriginIs(saved.apiKey, File) && OriginIs(saved.clientAccessToken, File)
    && OriginIs(saved.installationId, File) && OriginIs(saved.userId, File) && OriginIs(saved.orgId, File)
    && OriginIs(saved.secretKey, File) && OriginIs(saved.deviceId, File)
    && OriginIs(over.apiKey, Flag) && OriginIs(over.secretKey, Flag) && OriginIs(over.deviceId, Flag)
  }

  /** The saved file holds nothing that a backend issued or that was meant for one. */
  predicate Unbound(saved: Config) {
    forall v | v in {saved.clientAccessToken, saved.apiKey, saved.installationId, saved.userId, saved.orgId,
                     saved.secretKey, saved.deviceId} :: !NonEmpty(v)
  }

  /** When merging is refused: a URL that does not parse, another backend than the one
      the saved values are bound to, or another device id than the one a saved client
      token was issued for. An explicit legacy key is only refused for its URL. */
  lemma MergeIsRefusedIff(norm: Normalizer, saved: Config, over: Overrides)
    ensures Merge(norm, saved, over).Refused? <==>
      var requested := if over.backendUrl.Some? then norm(over.backendUrl.value) else None;
      var bound := if saved.backendUrl.Some? then norm(saved.backendUrl.value) else None;
      || (over.backendUrl.Some? && requested.None?)
      || (saved.backendUrl.Some? && bound.None? && (over.apiKey.None? || over.backendUrl.None?))
      || (over.apiKey.None? && requested.Some? && requested != bound && !Unbound(saved))
      || (over.apiKey.None? && over.deviceId.Some? && NonEmpty(saved.clientAccessToken)
          && !(saved.deviceId.Some? && saved.deviceId.value.text == over.deviceId.value.text
               && over.deviceId.value.text != ""))
  {
    assert Unbound(saved) <==> !HasIssuerBoundValues(saved);
  }

  /** What was given wins, then what was saved; next to an explicit legacy key, a saved
      secret or device id counts only if it belongs to a legacy login at that backend. */
  lemma MergePrefersOverrides(norm: Normalizer, saved: Config, over: Overrides)
    requires Merge(norm, saved, over).Merged?
    ensures var r := Merge(norm, saved, over).resolved;
      var bound := if saved.backendUrl.Some? then norm(saved.backendUrl.value) else None;
      var fromLegacy := over.apiKey.None? ||
        (NonEmpty(saved.apiKey) && !NonEmpty(saved.clientAccessToken) && r.backendUrl == bound);
      && r.backendUrl == (if over.backendUrl.Some? then norm(over.backendUrl.value) else bound)
      && r.deviceLabel == (if over.deviceLabel.Some? then over.deviceLabel else saved.deviceLabel)
      && r.apiKey == (if over.apiKey.Some? then over.apiKey else saved.apiKey)
      && (over.apiKey.None? ==>
           r.clientAccessToken == saved.clientAccessToken && r.installationId == saved.installationId)
      && (over.secretKey.Some? ==> r.secretKey == over.secretKey)
      && (over.secretKey.None? ==> r.secretKey == if fromLegacy then saved.secretKey else None)
      && (over.deviceId.Some? ==> r.deviceId == over.deviceId)
      && (over.deviceId.None? ==> r.deviceId == if fromLegacy then saved.deviceId else None)
  {
  }

  predicate CameFromFile(v: Option<Value>) { NonEmpty(v) && v.value.origin == File }

  /** A value issued or saved for one backend is never paired with another. */
  lemma MergeIsIssuerBound(norm: Normalizer, saved: Config, over: Overrides)
    requires Tagged(saved, over) && Merge(norm, saved, over).Merged?
    ensures var r := Merge(norm, saved, over).resolved;
      && (CameFromFile(r.apiKey) || CameFromFile(r.clientAccessToken) || CameFromFile(r.installationId)
          || CameFromFile(r.secretKey) || CameFromFile(r.deviceId)
          ==> r.backendUrl == Normalized(norm, saved.backendUrl))
      // an explicit legacy key takes no client credential along
      && (over.apiKey.Some? ==> r.clientAccessToken.None? && r.installationId.None? && r.apiKey == over.apiKey)
      // the device id a client credential was issued for cannot be changed
      && (NonEmpty(r.clientAccessToken) && over.deviceId.Some? ==>
          NonEmpty(saved.deviceId) && r.deviceId.value.text == saved.deviceId.value.text)
  {
  }

  // ------------------------------------------- the values a session is opened with

  datatype Selected = Selected(
    backend: string,
    credential: Value,
    kind: CredentialKind,
    installationId: Option<Value>,
    secretKey: Option<Value>,
    deviceId: Value,
    deviceLabel: string)

  function FromArgs(norm: Normalizer, hostname: string, saved: Config, over: Overrides): Option<Selected> {
    match Merge(norm, saved, over)
    case Refused(_) => None
    case Merged(r) =>
      var shown := if r.deviceLabel.Some? then r.deviceLabel.value else hostname;
      if NonEmpty(r.clientAccessToken) then
        if NonEmpty(r.installationId) && NonEmpty(r.deviceId) && r.backendUrl.Some? then
          Some(Selected(r.backendUrl.value, r.clientAccessToken.value, ClientAccessToken, r.installationId,
                        r.secretKey, r.deviceId.value, shown))
        else None
      else if NonEmpty(r.apiKey) && r.backendUrl.Some? then
        var device := if r.deviceId.Some? then r.deviceId.value else Value(hostname, Local);
        Some(Selected(r.backendUrl.value, r.apiKey.value, LegacyApiKey, None, r.secretKey, device, shown))
      else None
  }

  /** No connection carries a saved secret to a backend other than the saved one,
      and its backend never contains a newline. */
  lemma SelectedIsIssuerBound(norm: Normalizer, hostname: string, saved: Config, over: Overrides)
    requires IsNormalizer(norm) && Tagged(saved, over) && FromArgs(norm, hostname, saved, over).Some?
    ensures var s := FromArgs(norm, hostname, saved, over).value;
      && (s.credential.origin == File || CameFromFile(s.installationId) || CameFromFile(s.secretKey)
          || (s.deviceId.origin == File && s.deviceId.text != "")
          ==> Normalized(norm, saved.backendUrl) == Some(s.backend))
      && (s.kind == ClientAccessToken ==>
          s.credential.origin == File && over.apiKey.None? && NonEmpty(s.installationId) && s.deviceId.text != "")
      && s.credential.text != "" && NewlineFree(s.backend) && norm(s.backend) == Some(s.backend)
  {
    MergeIsIssuerBound(norm, saved, over);
    var r := Merge(norm, saved, over).resolved;
    assert r.backendUrl == Or(Normalized(norm, over.backendUrl), Normalized(norm, saved.backendUrl));
  }

  /** A session uses the merged values: the client token if there is one, with the ids it
      was issued for, and otherwise the key; the host name stands in for a label, and
      with a key for a device id. */
  lemma SelectedMeans(norm: Normalizer, hostname: string, saved: Config, over: Overrides)
    requires Merge(norm, saved, over).Merged?
    ensures var r := Merge(norm, saved, over).resolved;
      var s := FromArgs(norm, hostname, saved, over);
      var client := NonEmpty(r.clientAccessToken);
      var complete := if client then NonEmpty(r.installationId) && NonEmpty(r.deviceId) else NonEmpty(r.apiKey);
      && (s.Some? <==> r.backendUrl.Some? && complete)
      && (s.Some? ==>
           && Some(s.value.backend) == r.backendUrl && s.value.secretKey == r.secretKey
           && s.value.deviceLabel == (if r.deviceLabel.Some? then r.deviceLabel.value else hostname)
           && (s.value.kind == ClientAccessToken <==> client)
           && Some(s.value.credential) == (if client then r.clientAccessToken else r.apiKey)
           && s.value.installationId == (if client then r.installationId else None)
           && (if r.deviceId.Some? then Some(s.value.deviceId) == r.deviceId else s.value.deviceId.text == hostname))
  {
  }

  /** Without overrides, the daemon can connect with a saved file exactly if the file
      passes the check made after a login. */
  lemma InstallableIffConnects(norm: Normalizer, hostname: string, saved: Config)
    requires norm("") == None
    ensures EnsureInstallable(norm, saved) <==>
      FromArgs(norm, hostname, saved, Overrides(None, None, None, None, None)).Some?
  {
  }

  function ToRun(s: Selected): ResolvedRun {
    ResolvedRun(s.backend, s.credential.text, s.kind,
                if s.installationId.Some? then Some(s.installationId.value.text) else None,
                if s.secretKey.Some? then Some(s.secretKey.value.text) else None,
                s.deviceId.text, s.deviceLabel)
  }

  /** Two usable configurations share a file of stored values exactly when both are
      legacy logins, or both are the same installation at the same backend. */
  lemma StoresAreSeparate(norm: Normalizer, hostname: string, saved: Config, over: Overrides,
                          saved': Config, over': Overrides)
    requires IsNormalizer(norm) && Tagged(saved, over) && Tagged(saved', over')
    requires FromArgs(norm, hostname, saved, over).Some? && FromArgs(norm, hostname, saved', over').Some?
    ensures var a, b := FromArgs(norm, hostname, saved, over).value, FromArgs(norm, hostname, saved', over').value;
      EnvNamespace(ToRun(a)) == EnvNamespace(ToRun(b)) <==>
        a.kind == b.kind && (a.kind == ClientAccessToken ==>
          a.backend == b.backend && a.installationId.value.text == b.installationId.value.text)
  {
    SelectedIsIssuerBound(norm, hostname, saved, over);
    SelectedIsIssuerBound(norm, hostname, saved', over');
    NamespaceSeparates(ToRun(FromArgs(norm, hostname, saved, over).value),
                       ToRun(FromArgs(norm, hostname, saved', over').value));
  }

  // ------------------------------------------------------- login and logout

  datatype LoginArgs = LoginArgs(
    backend: Option<string>,
    apiKey: Option<string>,
    secretKey: Option<string>,
    deviceId: Option<string>,
    deviceLabel: Option<string>)

  /** The backend to log in to: the flag, or else the saved one. */
  function LoginBackend(norm: Normalizer, c: Config, args: LoginArgs): Option<string> {
    if args.backend.Some? then norm(args.backend.value)
    else if c.backendUrl.Some? && c.backendUrl.value != "" then norm(c.backendUrl.value)
    else None
  }

  predicate Reads(v: Option<Value>, text: string) { v.Some? && v.value.text == text }

  predicate AccountChanged(c: Config, sameIssuer: bool, token: DeviceToken) {
    || !sameIssuer || !Reads(c.installationId, token.installationId)
    || !Reads(c.userId, token.userId) || !Reads(c.orgId, token.orgId)
  }

  function Given(text: Option<string>, account: Account): Option<Value> {
    if text.Some? then Some(Value(text.value, SuppliedFor(account))) else None
  }

  function AccountOfToken(backend: string, token: DeviceToken): Account {
    ClientAccount(backend, token.installationId, token.userId, token.orgId)
  }

  function BrowserLogin(c: Config, backend: string, sameIssuer: bool, token: DeviceToken, args: LoginArgs): Config {
    var account := AccountOfToken(backend, token);
    var here := SuppliedFor(account);
    Config(
      Some(backend),
      None,
      Some(Value(token.accessToken, here)),
      Some(Value(token.installationId, here)),
      Some(Value(token.userId, here)),
      Some(Value(token.orgId, here)),
      token.scopes,
      Or(Given(args.secretKey, account), if AccountChanged(c, sameIssuer, token) then None else c.secretKey),
      Some(Value(token.deviceId, here)),
      Or(args.deviceLabel, c.deviceLabel))
  }

  function LegacyLogin(c: Config, backend: string, sameIssuer: bool, apiKey: string, args: LoginArgs): Config {
    var keep := sameIssuer && !NonEmpty(c.clientAccessToken);
    var account := LegacyAccount(backend, apiKey);
    EMPTY_CONFIG.(
      backendUrl := Some(backend),
      apiKey := Some(Value(apiKey, SuppliedFor(account))),
      secretKey := Or(Given(args.secretKey, account), if keep then c.secretKey else None),
      deviceId := Or(Given(args.deviceId, account), if keep then c.deviceId else None),
      deviceLabel := Or(args.deviceLabel, c.deviceLabel))
  }

  /** The configuration a login leaves behind, if it gets that far. */
  function LoggedIn(norm: Normalizer, c: Config, args: LoginArgs, answer: PollResult): Option<Config> {
    var backend := LoginBackend(norm, c, args);
    if backend.None? then None
    else
      var same := SameBackend(norm, c.backendUrl, backend.value);
      if args.apiKey.Some? then
        if args.apiKey.value == "" then None
        else Some(LegacyLogin(c, backend.value, same, args.apiKey.value, args))
      else if answer.Failed? then None
      else Some(BrowserLogin(c, backend.value, same, answer.token, args))
  }

  /** The mutable configuration object the commands work on. */
  class PersistedConfig {
    var backendUrl: Option<string>
    var apiKey: Option<Value>
    var clientAccessToken: Option<Value>
    var installationId: Option<Value>
    var userId: Option<Value>
    var orgId: Option<Value>
    var scopes: seq<string>
    var secretKey: Option<Value>
    var deviceId: Option<Value>
    var deviceLabel: Option<string>

    function Contents(): Config reads this {
      Config(backendUrl, apiKey, clientAccessToken, installationId, userId, orgId, scopes,
             secretKey, deviceId, deviceLabel)
    }

    constructor (c: Config)
      ensures Contents() == c
    {
      backendUrl, apiKey, clientAccessToken := c.backendUrl, c.apiKey, c.clientAccessToken;
      installationId, userId, orgId, scopes := c.installationId, c.userId, c.orgId, c.scopes;
      secretKey, deviceId, deviceLabel := c.secretKey, c.deviceId, c.deviceLabel;
    }

    method ClearAuthentication()
      modifies this
      ensures Contents() == ClearedAuthentication(old(Contents()))
    {
      apiKey, clientAccessToken := None, None;
      installationId, userId, orgId := None, None, None;
      scopes := [];
      secretKey, deviceId := None, None;
    }

    method AcceptToken(backend: string, sameIssuer: bool, token: DeviceToken, args: LoginArgs) returns (changed: bool)
      modifies this
      ensures changed == AccountChanged(old(Contents()), sameIssuer, token)
      ensures Contents() == BrowserLogin(old(Contents()), backend, sameIssuer, token, args)
    {
      changed := AccountChanged(Contents(), sameIssuer, token);
      var account := AccountOfToken(backend, token);
      var here := SuppliedFor(account);
      backendUrl := Some(backend);
      apiKey := None;
      clientAccessToken := Some(Value(token.accessToken, here));
      installationId := Some(Value(token.installationId, here));
      userId := Some(Value(token.userId, here));
      orgId := Some(Value(token.orgId, here));
      deviceId := Some(Value(token.deviceId, here));
      scopes := token.scopes;
      if args.deviceLabel.Some? { deviceLabel := args.deviceLabel; }
      if changed {
        secretKey := Given(args.secretKey, account);
      } else if args.secretKey.Some? {
        secretKey := Given(args.secretKey, account);
      }
    }

    method ConfigureLegacyLogin(backend: string, sameIssuer: bool, key: string, args: LoginArgs)
      modifies this
      ensures Contents() == LegacyLogin(old(Contents()), backend, sameIssuer, key, args)
    {
      if !sameIssuer || NonEmpty(clientAccessToken) { ClearAuthentication(); }
      var account := LegacyAccount(backend, key);
      backendUrl := Some(backend);
      apiKey := Some(Value(key, SuppliedFor(account)));
      clientAccessToken, installationId, userId, orgId := None, None, None, None;
      scopes := [];
      if args.secretKey.Some? { secretKey := Given(args.secretKey, account); }
      if args.deviceId.Some? { deviceId := Given(args.deviceId, account); }
      if args.deviceLabel.Some? { deviceLabel := args.deviceLabel; }
    }
  }

  /** A client credential to revoke, and the backend the request goes to. */
  datatype Revocation = Revocation(backend: string, token: Value)

  function CaptureRevocation(c: Config): Option<Revocation> {
    if c.backendUrl.Some? && NonEmpty(c.clientAccessToken)
    then Some(Revocation(c.backendUrl.value, c.clientAccessToken.value))
    else None
  }

  /** What the commands do outside their own memory. */
  datatype Effect = Saved(config: Config) | Revoked(revocation: Revocation)

  function Sent(r: Option<Revocation>): seq<Effect> { if r.Some? then [Revoked(r.value)] else [] }

  /** The revocation of the client token in `c`, sent to its backend, if `b` holds. */
  function TokenOf(c: Config, b: bool): seq<Effect> {
    if b && c.backendUrl.Some? && c.clientAccessToken.Some?
    then [Revoked(Revocation(c.backendUrl.value, c.clientAccessToken.value))]
    else []
  }

  /** No value that a backend issued or that belongs to an account. */
  predicate NothingIssued(c: Config) {
    && c.apiKey.None? && c.clientAccessToken.None? && c.installationId.None? && c.userId.None? && c.orgId.None?
    && c.scopes == [] && c.secretKey.None? && c.deviceId.None?
  }

  /** Revocations follow a save at once and go to the backend that issued the token. */
  predicate Orderly(effects: seq<Effect>) {
    forall i | 0 <= i < |effects| && effects[i].Revoked? ::
      && i > 0 && effects[i - 1].Saved?
      && effects[i].revocation.token.origin.SuppliedFor?
      && effects[i].revocation.token.origin.account.backend == effects[i].revocation.backend
  }

  /** The file before names the account that the file after names. */
  predicate NamesAccountOf(before: Config, after: Config) {
    && after.backendUrl.Some? && after.installationId.Some? && after.userId.Some? && after.orgId.Some?
    && NamesAccount(before, after.backendUrl.value, after.installationId.value.text,
                    after.userId.value.text, after.orgId.value.text)
  }

  /** A login replaces the client credential, so that the one before can be revoked. */
  predicate Supersedes(norm: Normalizer, c: Config, args: LoginArgs, answer: PollResult)
    requires LoggedIn(norm, c, args, answer).Some?
  {
    args.apiKey.Some? ||
      AccountChanged(c, SameBackend(norm, c.backendUrl, LoginBackend(norm, c, args).value), answer.token)
  }

  /** The saved file, and what was saved and sent so far. `saves` is the outcome of the write. */
  class ConfigFile {
    const norm: Normalizer
    var file: Config
    var effects: seq<Effect>

    ghost predicate Valid() reads this {
      IsNormalizer(norm) && Sound(norm, file) && Orderly(effects)
    }

    constructor (norm: Normalizer)
      requires IsNormalizer(norm)
      ensures Valid() && file == EMPTY_CONFIG && effects == []
    {
      this.norm, file, effects := norm, EMPTY_CONFIG, [];
    }

    /** Save, and only then send the revocation, if there is one. */
    method Commit(c: Config, r: Option<Revocation>)
      requires Orderly(effects)
      requires r.Some? ==> r.value.token.origin.SuppliedFor? && r.value.token.origin.account.backend == r.value.backend
      modifies this`file, this`effects
      ensures file == c && effects == old(effects) + [Saved(c)] + Sent(r) && Orderly(effects)
    {
      file := c;
      effects := effects + [Saved(c)];
      if r.Some? { effects := effects + [Revoked(r.value)]; }
    }

    method Login(args: LoginArgs, answer: PollResult, saves: bool) returns (ok: bool)
      requires Valid() && (answer.Token? ==> ValidToken(answer.token))
      modifies this
      ensures Valid()
      ensures ok <==> saves && LoggedIn(norm, old(file), args, answer).Some?
      ensures file == if ok then LoggedIn(norm, old(file), args, answer).value else old(file)
      ensures ok ==> EnsureInstallable(norm, file)
      ensures !ok ==> effects == old(effects)
      // the previous client token is revoked after the save, unless the account stays the same
      ensures var revokes := NonEmpty(old(file).clientAccessToken)
                && (args.apiKey.Some? || !NamesAccountOf(old(file), file));
        ok ==> effects == old(effects) + [Saved(file)] + TokenOf(old(file), revokes)
    {
      LoginIsSound(norm, file, args, answer);
      LoginMeans(norm, file, args, answer);
      var cfg := new PersistedConfig(file);
      var backend := LoginBackend(norm, file, args);
      if backend.None? { return false; }
      var same := SameBackend(norm, file.backendUrl, backend.value);
      var previous := CaptureRevocation(file);
      var revoke := true;
      if args.apiKey.Some? {
        if args.apiKey.value == "" { return false; }
        cfg.ConfigureLegacyLogin(backend.value, same, args.apiKey.value, args);
      } else {
        if answer.Failed? { return false; }
        revoke := cfg.AcceptToken(backend.value, same, answer.token, args);
      }
      if !saves { return false; }
      Commit(cfg.Contents(), if revoke then previous else None);
      return true;
    }

    method Logout(saves: bool) returns (ok: bool)
      requires Valid()
      modifies this
      ensures Valid()
      ensures ok == saves && file == if ok then ClearedAuthentication(old(file)) else old(file)
      ensures !ok ==> effects == old(effects)
      // only the credential goes; backend and label stay
      ensures ok ==> file.backendUrl == old(file).backendUrl && file.deviceLabel == old(file).deviceLabel
      ensures ok ==> NothingIssued(file)
      ensures var revokes := NonEmpty(old(file).clientAccessToken);
        ok ==> effects == old(effects) + [Saved(file)] + TokenOf(old(file), revokes)
    {
      var cfg := new PersistedConfig(file);
      var previous := CaptureRevocation(file);
      cfg.ClearAuthentication();
      if !saves { return false; }
      Commit(cfg.Contents(), previous);
      return true;
    }

    /** Any history of commands. */
    method Commands(history: seq<Command>)
      requires Valid()
      requires forall c | c in history && c.LoginCommand? && c.answer.Token? :: ValidToken(c.answer.token)
      modifies this
      ensures Valid()
    {
      for i := 0 to |history|
        invariant Valid()
      {
        assert history[i] in history;
        match history[i] {
          case LoginCommand(args, answer, saves) => var _ := Login(args, answer, saves);
          case LogoutCommand(saves) => var _ := Logout(saves);
        }
      }
    }
  }

  datatype Command =
    | LoginCommand(args: LoginArgs, answer: PollResult, saves: bool)
    | LogoutCommand(saves: bool)

  predicate SuppliedHere(v: Option<Value>, c: Config) {
    v.Some? ==>
      && c.backendUrl.Some? && v.value.origin.SuppliedFor?
      && v.value.origin.account.backend == c.backendUrl.value
  }

  /** The file names exactly this account, compared as texts. */
  predicate NamesAccount(c: Config, backend: string, installation: string, user: string, org: string) {
    && c.backendUrl == Some(backend) && Reads(c.installationId, installation)
    && Reads(c.userId, user) && Reads(c.orgId, org)
  }

  predicate SuppliedForAccount(v: Option<Value>, account: Account) {
    v.Some? ==> v.value.origin == SuppliedFor(account)
  }

  /** Next to a client token everything was supplied for the account that the file names. */
  predicate OneAccount(c: Config) {
    if NonEmpty(c.clientAccessToken) then
      && c.backendUrl.Some? && c.installationId.Some? && c.userId.Some? && c.orgId.Some?
      && var account := ClientAccount(c.backendUrl.value, c.installationId.value.text,
                                      c.userId.value.text, c.orgId.value.text);
         && SuppliedForAccount(c.clientAccessToken, account) && SuppliedForAccount(c.secretKey, account)
         && SuppliedForAccount(c.deviceId, account) && SuppliedForAccount(c.installationId, account)
         && SuppliedForAccount(c.userId, account) && SuppliedForAccount(c.orgId, account)
    else c.installationId.None? && c.userId.None? && c.orgId.None?
  }

  /** What every history of logins and logouts keeps. */
  predicate Sound(norm: Normalizer, c: Config) {
    && !(NonEmpty(c.apiKey) && NonEmpty(c.clientAccessToken))
    && (NonEmpty(c.clientAccessToken) ==> NonEmpty(c.installationId) && NonEmpty(c.deviceId))
    && (c.backendUrl.Some? ==> norm(c.backendUrl.value) == c.backendUrl && c.backendUrl.value != "")
    && SuppliedHere(c.apiKey, c) && SuppliedHere(c.clientAccessToken, c)
    && SuppliedHere(c.installationId, c) && SuppliedHere(c.userId, c) && SuppliedHere(c.orgId, c)
    && SuppliedHere(c.secretKey, c) && SuppliedHere(c.deviceId, c)
    && (HasCredential(c) ==> EnsureInstallable(norm, c))
    && OneAccount(c)
  }

  lemma LoginIsSound(norm: Normalizer, c: Config, args: LoginArgs, answer: PollResult)
    requires IsNormalizer(norm) && Sound(norm, c) && (answer.Token? ==> ValidToken(answer.token))
    ensures LoggedIn(norm, c, args, answer).Some? ==>
      var d := LoggedIn(norm, c, args, answer).value;
      Sound(norm, d) && EnsureInstallable(norm, d)
  {
    if LoggedIn(norm, c, args, answer).Some? {
      LoginBackendIsNormal(norm, c, args);
    }
  }

  lemma LoginBackendIsNormal(norm: Normalizer, c: Config, args: LoginArgs)
    requires IsNormalizer(norm) && Sound(norm, c) && LoginBackend(norm, c, args).Some?
    ensures var backend := LoginBackend(norm, c, args).value;
      && norm(backend) == Some(backend) && backend != ""
      && (SameBackend(norm, c.backendUrl, backend) <==> c.backendUrl == Some(backend))
  {
  }

  /** What a login leaves in the file, field by field, and when it leaves anything. */
  lemma LoginMeans(norm: Normalizer, c: Config, args: LoginArgs, answer: PollResult)
    requires IsNormalizer(norm) && Sound(norm, c)
    ensures var url := if args.backend.Some? then args.backend else c.backendUrl;
      LoggedIn(norm, c, args, answer).Some? <==>
        && url.Some? && norm(url.value).Some?
        && (if args.apiKey.Some? then args.apiKey.value != "" else answer.Token?)
    ensures LoggedIn(norm, c, args, answer).Some? ==>
      var d := LoggedIn(norm, c, args, answer).value;
      && d.backendUrl == norm((if args.backend.Some? then args.backend else c.backendUrl).value)
      && d.deviceLabel == (if args.deviceLabel.Some? then args.deviceLabel else c.deviceLabel)
      && (args.apiKey.None? ==> LeavesToken(c, d, answer.token, args.secretKey))
      && (args.apiKey.Some? ==> LeavesKey(c, d, args))
      && (Supersedes(norm, c, args, answer) <==> args.apiKey.Some? || !NamesAccountOf(c, d))
  {
    if LoginBackend(norm, c, args).Some? { LoginBackendIsNormal(norm, c, args); }
  }

  /** A browser login: everything is the token's; an earlier secret stays only for the
      very same account. */
  predicate LeavesToken(c: Config, d: Config, token: DeviceToken, secretKey: Option<string>) {
    && d.apiKey.None? && d.scopes == token.scopes
    && Reads(d.clientAccessToken, token.accessToken) && Reads(d.installationId, token.installationId)
    && Reads(d.userId, token.userId) && Reads(d.orgId, token.orgId) && Reads(d.deviceId, token.deviceId)
    && if secretKey.Some? then Reads(d.secretKey, secretKey.value)
       else d.secretKey == if NamesAccountOf(c, d) then c.secretKey else None
  }

  /** A legacy login: no client credential is left; an earlier secret and device stay
      only for the same backend and if there was no client credential before. */
  predicate LeavesKey(c: Config, d: Config, args: LoginArgs)
    requires args.apiKey.Some?
  {
    var keep := c.backendUrl == d.backendUrl && !NonEmpty(c.clientAccessToken);
    && Reads(d.apiKey, args.apiKey.value) && d.clientAccessToken.None? && d.scopes == []
    && d.installationId.None? && d.userId.None? && d.orgId.None?
    && (if args.secretKey.Some? then Reads(d.secretKey, args.secretKey.value)
        else d.secretKey == if keep then c.secretKey else None)
    && (if args.deviceId.Some? then Reads(d.deviceId, args.deviceId.value)
        else d.deviceId == if keep then c.deviceId else None)
  }

  /** After a logout nothing is bound to the old backend: every backend that parses
      can be requested, and it gets no saved value. */
  lemma LogoutUnbinds(norm: Normalizer, c: Config, over: Overrides)
    requires IsNormalizer(norm) && Sound(norm, c)
    requires over.backendUrl.Some? && norm(over.backendUrl.value).Some?
    ensures var m := Merge(norm, ClearedAuthentication(c), over);
      && m.Merged? && m.resolved.backendUrl == norm(over.backendUrl.value)
      && m.resolved.apiKey == over.apiKey && m.resolved.clientAccessToken.None?
      && m.resolved.secretKey == over.secretKey && m.resolved.deviceId == over.deviceId
  {
  }
}
