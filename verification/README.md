# A verified model of edison-stdiod

`edison-stdiod` is a daemon that keeps one connection to a backend, runs the local
MCP servers the backend asks for, and carries frames between the two. This project
models the parts of it that decide something and proves what they keep.

| file | what it models |
|---|---|
| `Slots.dfy`, `Supervisors.dfy`, `Reconciliation.dfy`, `Handlers.dfy` | the supervisor: snapshots, deltas, env and spec updates, MCP frames, restarts, account switches |
| `EnvStores.dfy`, `Protocol.dfy` | the stored values of a device and the data the backend sends |
| `Templates.dfy` | placeholder substitution in spawn arguments |
| `Diagnostics.dfy`, `TerminalReport.dfy` | a child's stderr tail, redaction, and the one-shot terminal report |
| `CommandLine.dfy` | the Windows command line |
| `Reconnect.dfy`, `Daemons.dfy` | the reconnect loop around the supervisor, account changes, backoff |
| `DevicePolling.dfy` | polling for a device authorization token |
| `Credentials.dfy` | merging flags with the saved configuration, login, logout |
| `SecureFiles.dfy` | replacing a private file |
| `Text.dfy`, `Options.dfy` | strings, `str::replace`, `BTreeMap` key order |

## How the supervisor is modelled

Each handler is one atomic step, as it runs under the supervisor's mutex. A spawn
attempt is numbered per server id, and an oracle `World` says how the n-th attempt for
an id turns out; this covers every sequence of outcomes and gives each process an
identity (id and attempt). The outcome of a write to disk is a parameter of the
handler. A log records the frames sent and the processes shut down.

`Supervisors.Supervisor` is the class with the two maps, changed in place by loops that
pick ids in arbitrary order. Each of its methods is proved to take the state of every
id (`View`) to what `Slots.Step` says about that id. Since `Step` looks at one id only,
this already says that the order of visiting a hash map never matters. The theorems in
`Reconciliation` are about `Step` and `Run`; `Reconciliation.Life` puts them back on
the class for any sequence of commands, and `Daemons.RunDaemon` on the whole daemon, which
drives one supervisor through all its connections and accounts.

Functions such as `Step`, `Answers` or `AsciiLower` follow the code. What they amount to is
stated by lemmas that do not call them: `Handlers` says what each command achieves, and the
lemmas named `...Means` say the same of smaller functions.

Where the code and its documentation differ, the model follows the code: a spec update
is merged into the stored values and does not replace them (the comment at
`daemon.rs:743` says otherwise), and the backoff is capped at 30 seconds
(`ARCHITECTURE.md:242` says 60).

## Properties that hold on a condition

- The daemon fills placeholders in by one naive replacement after another, in the byte
  order of their names. That equals filling all of them in at once, for all clean
  values, exactly for the args in which every brace group around a placeholder closes
  late: one of the placeholders inside is greater than the text before the first one at
  the character where they first differ (`Templates.DaemonSafeIffHarmless`). In `{{A}}`
  the value of `{A}` can make a new placeholder (`Templates.NestedPlaceholderGoesWrong`);
  in `{a{b}}` it cannot (`Templates.HarmlessThoughNotFlat`).
- An arg stays as it is when it is substituted again, with any values for the same or
  fewer placeholders, exactly if no brace group in it contains a complete placeholder
  (`Templates.StaysFilledIffFlat`). These are also the args for which any order of the
  bindings would do (`Templates.OrderSafeIffFlat`), which the daemon does not need.
- Redaction hides every value that can share no character with a marker, whatever the
  other values are (`Diagnostics.RecordedHidesSecrets`, `Diagnostics.RedactionWorksIff`). For a value without brackets this
  means that it is not part of the word "redacted" (`Diagnostics.BracketFreeIsApart`); a
  JSON array of strings qualifies too (`Diagnostics.JsonArrayIsApart`). For one value by
  itself the exact condition is `Diagnostics.OneValueWorksIff`: `a[re` leaks, `[[` does not.
- A child runs with the current stored values unless a merge since its spawn could not
  be written to disk; then the merge stays in memory and the child is not restarted. It
  is up to date all the same exactly if the pushed values make no difference to it
  (`Reconciliation.FailedEnvPushIsFreshIff`, `Reconciliation.FailedSpecPushIsFreshIff`),
  and after several such pushes if together they make none
  (`Reconciliation.FailedPushesAreFreshIff`);
  `Reconciliation.FailedWriteLeavesStaleChild` is a run in which they do.
- In any state, a delta and a snapshot do the same to an id unless its entry is unchanged
  and its child is not as the entry asks: only the snapshot then puts it right
  (`Reconciliation.DeltaMatchesSnapshot`).
- A repeated snapshot does nothing exactly if no wanted server failed to start
  (`Reconciliation.SnapshotConverges`).

## Model

| member | source | states |
|---|---|---|
| Reconciliation.EveryRun | crates/edison-stdiod/src/daemon.rs:571-820 | after every run of handlers and pump steps from an empty supervisor: each started process is the one entry under its own id or was shut down exactly once, each attempt has exactly one spawn result that tells its outcome, each process reports `server_offline` at most once, accepted frames are consumed + in flight + queued in order with at most 64 queued, and the process runs with the values now stored unless a merge since its spawn was not written |
| Reconciliation.Life | crates/edison-stdiod/src/daemon.rs:385-506 | the same for the mutable supervisor after any commands, for all ids at once; an entry is in the published server list exactly if there is a child of that id with that process id |
| Reconciliation.SpawnKeeps | crates/edison-stdiod/src/daemon.rs:676-722 | spawning into an empty slot keeps the accounting exact and starts the process with the current values |
| Reconciliation.SpawnOverLiveChildLeaks | crates/edison-stdiod/src/daemon.rs:692-693 | spawning over a live child breaks the accounting exactly when the spawn succeeds, so callers must remove the old entry first |
| Reconciliation.FailedEnvPushIsFreshIff | crates/edison-stdiod/src/daemon.rs:771-789 | after an env push that could not be written, a running child is up to date exactly when the push was empty, or repeats stored values, or, with nothing stored before, is just what the backend asked for |
| Reconciliation.FailedSpecPushIsFreshIff | crates/edison-stdiod/src/daemon.rs:745-765 | the same for a spec update: besides the env part, each arg comes out the same (for a harmless arg and clean values: when all its placeholders are filled in at once), every pushed placeholder value was redacted already and every one it replaces is still redacted |
| Reconciliation.FailedPushesAreFreshIff | crates/edison-stdiod/src/daemon.rs:745-789 | after any number of pushes that could not be written, with pump steps in between, a process is up to date exactly when all of them together make no difference to the values it was launched with; a later push can undo an earlier one |
| Reconciliation.RepeatedPushIsFresh | crates/edison-stdiod/src/daemon.rs:745-789 | a push that only repeats stored values leaves every child up to date even if it cannot be written, whatever its args are |
| Reconciliation.FailedWriteLeavesStaleChild | crates/edison-stdiod/src/env_store.rs:142-146 | a run in which a value is merged in memory, the write fails, and the child keeps running without it |
| Reconciliation.SnapshotConverges | crates/edison-stdiod/src/daemon.rs:636-674 | a snapshot leaves exactly the enabled wanted servers minus those whose spawn failed in this pass, keeps the very same healthy unchanged processes, and repeating it changes nothing exactly if none failed |
| Reconciliation.LastDuplicateWins | crates/edison-stdiod/src/daemon.rs:640-643 | of several entries for one id the last one counts |
| Reconciliation.DeltaLastWriterWins | crates/edison-stdiod/src/daemon.rs:791-819 | updated entries override added ones, the last entry for an id wins, removal overrides both and drops the stored values, a missing child means its latest spawn failed, and a healthy child with the last entry keeps its process if no other entry for it stands in the delta and loses it for good otherwise |
| Reconciliation.DeltaMatchesSnapshot | crates/edison-stdiod/src/daemon.rs:791-819 | from any state, the delta S1 to S2 leaves the same processes and log as snapshot(S2), and stores that differ only on removed ids, exactly for the ids whose entry changes or whose child already is as S2 asks |
| Reconciliation.InLineAfterSnapshot | crates/edison-stdiod/src/daemon.rs:636-674 | right after a snapshot a child is as asked for unless its spawn has just failed |
| Reconciliation.FrameFate | crates/edison-stdiod/src/daemon.rs:415-454 | a frame for a missing or exited process vanishes without a trace, otherwise it becomes the last one in the queue, or the full queue yields one `server_unresponsive` error, the process is shut down once and replaced with an empty queue |
| Reconciliation.EnrichFillsPlaceholders | crates/edison-stdiod/src/daemon.rs:607-615 | with clean values, each harmless arg a process is started with is the raw arg with all stored placeholders filled at once |
| Reconciliation.RespawnMustStartFromRaw | crates/edison-stdiod/src/daemon.rs:755-760 | enriching an already enriched server keeps the old values in each flat arg, so respawning must start from the raw one |
| Slots.Enrich | crates/edison-stdiod/src/daemon.rs:602-615 | only args and env can differ from what the backend sent, and the number of args is kept |
| Handlers.EnvPushRestarts | crates/edison-stdiod/src/daemon.rs:771-789 | an env push that was written is stored over the earlier values key by key; a running child is shut down once and one attempt is made to start its raw server again, which then has every pushed and every other stored value; without a child nothing else happens |
| Handlers.SpecPushRestarts | crates/edison-stdiod/src/daemon.rs:745-765 | the same for a spec update, with the args of the new process filled in from the merged placeholder values |
| Handlers.FailedPushIsOnlyLogged | crates/edison-stdiod/src/daemon.rs:745-789 | a push that could not be written is in memory all the same, is logged, and touches no process |
| Handlers.StoredIsLatest | crates/edison-stdiod/src/env_store.rs:132-175 | after any commands, the value stored under a key of an id is the one pushed last, or opened with the last store, or on disk at the start, and none after a removal |
| Handlers.LaunchedValues | crates/edison-stdiod/src/daemon.rs:676-722 | a process starts with the stored env, or the backend's if none is stored, all of its values and the placeholder values being cut out of its stderr, with an empty queue and the process id it was given |
| Handlers.OthersAreUntouched | crates/edison-stdiod/src/daemon.rs:395-503 | a command about one server, or a delta that does not mention it, leaves an id as it is |
| Handlers.PumpEndReports | crates/edison-stdiod/src/proc.rs:654-698 | when either pump ends, the process counts as exited and exactly one `server_offline` is out |
| Handlers.PumpDelivers | crates/edison-stdiod/src/proc.rs:654-682 | the stdin pump hands the queued frames over one by one in their order |
| Supervisors.Supervisor.ApplySnapshot | crates/edison-stdiod/src/daemon.rs:636-674 | every id, whatever order the map is iterated in, ends up as the snapshot function of its old state says; the published list equals the children |
| Supervisors.Supervisor.ApplyDelta | crates/edison-stdiod/src/daemon.rs:791-819 | every id ends up as the delta function of its old state says, with ids not mentioned untouched |
| Supervisors.Supervisor.TrySpawn | crates/edison-stdiod/src/daemon.rs:678-722 | one attempt is made, its one result is sent, the child is inserted exactly if it started, other ids are untouched |
| Supervisors.Supervisor.RespawnChild | crates/edison-stdiod/src/daemon.rs:728-736 | the old process is shut down and the raw server spawned again; nothing happens for an unknown id |
| Supervisors.Supervisor.ApplySpecUpdate | crates/edison-stdiod/src/daemon.rs:745-765 | values are merged for one id and a running child restarted exactly if the write succeeded |
| Supervisors.Supervisor.ApplyEnvUpdate | crates/edison-stdiod/src/daemon.rs:771-789 | the same for an env-only push |
| Supervisors.Supervisor.RouteMcpFrame | crates/edison-stdiod/src/daemon.rs:415-454 | only the addressed id changes, by queueing, reporting or restarting |
| Supervisors.Supervisor.ReportTerminal | crates/edison-stdiod/src/proc.rs:416-426 | `server_offline` is sent only the first time and the process counts as exited from then on |
| Supervisors.Supervisor.PumpStep | crates/edison-stdiod/src/proc.rs:654-698 | the pumps move frames from the queue through the one in flight, and report when they end |
| Supervisors.Supervisor.ShutdownAll | crates/edison-stdiod/src/daemon.rs:594-600 | every child is shut down once and nothing else changes |
| Supervisors.Supervisor.SwitchStore | crates/edison-stdiod/src/daemon.rs:589-592 | no child survives a switch and every id gets the values of the new store |
| Supervisors.Supervisor.Handle | crates/edison-stdiod/src/daemon.rs:395-503 | dispatch of one frame acts on every id as its handler says; after a switch no child is left and every id reads the new store |
| Supervisors.Supervisor.HandleAll | crates/edison-stdiod/src/daemon.rs:390-505 | a run of frames is the run function applied to every id |
| Supervisors.StateWriter.Update | crates/edison-stdiod/src/state.rs:137-142 | the state becomes what the given change makes of it, and its generation then goes up by one until it saturates |
| EnvStores.MergedSpec | crates/edison-stdiod/src/env_store.rs:153-167 | per key, a pushed value replaces the stored one and every key not mentioned is kept |
| EnvStores.EnvStore.MergeTemplateValues | crates/edison-stdiod/src/env_store.rs:153-167 | memory is changed for one id whether or not the write succeeds; the file follows only if it does |
| EnvStores.EnvStore.MergeEnv | crates/edison-stdiod/src/env_store.rs:142-146 | the same for an env-only merge, which leaves stored placeholders alone |
| EnvStores.EnvStore.Set | crates/edison-stdiod/src/env_store.rs:132-135 | one entry is replaced as a whole and written through |
| EnvStores.EnvStore.Remove | crates/edison-stdiod/src/env_store.rs:170-175 | one entry is dropped; nothing is written for an unknown id |
| Templates.DaemonSafeIffHarmless | crates/edison-stdiod/src/env_store.rs:211-224 | in the order the daemon has, the naive replacements give the simultaneous substitution for every clean set of bindings exactly if every brace group around a placeholder closes late |
| Templates.ArgsAreSimultaneousIff | crates/edison-stdiod/src/env_store.rs:211-224 | the same for a whole list of args |
| Templates.AscendingIsSimultaneous | crates/edison-stdiod/src/env_store.rs:217-220 | for a harmless arg, after any number of bindings in ascending order the arg is the simultaneous substitution of those used so far |
| Templates.SortedOrderFails | crates/edison-stdiod/src/env_store.rs:217-220 | for every arg that is not harmless there are clean bindings that the daemon fills in wrongly |
| Templates.NestedPlaceholderGoesWrong | crates/edison-stdiod/src/env_store.rs:217-220 | with `{A}` = "x" and `{x}` = "" the daemon turns `{{A}}` into nothing where the text `{x}` is meant |
| Templates.HarmlessThoughNotFlat | crates/edison-stdiod/src/env_store.rs:217-220 | a placeholder inside a brace group is safe if its name is greater than the text before it |
| Templates.StaysFilledIffFlat | crates/edison-stdiod/src/daemon.rs:755-760 | substituting again in the daemon's order changes nothing, for all clean values of the same or fewer placeholders, exactly for the args in which no brace group holds a complete placeholder |
| Templates.SequentialIsSimultaneous | crates/edison-stdiod/src/env_store.rs:217-220 | for a flat arg, after any bindings in any order the arg is the simultaneous substitution of those used so far |
| Templates.ArgsAreSimultaneous | crates/edison-stdiod/src/env_store.rs:211-224 | the arg list keeps its length and each harmless arg has all its placeholders filled at once |
| Templates.AlreadySubstituted | crates/edison-stdiod/src/daemon.rs:755-760 | for a flat arg that is so after every single replacement |
| Templates.Compose | crates/edison-stdiod/src/env_store.rs:217-220 | if filling in the first bindings creates no placeholder of the second, two substitutions in a row are one in which the first takes precedence |
| Templates.ReplaceIsSimultaneous | crates/edison-stdiod/src/env_store.rs:218-220 | for one placeholder the naive replacement looks up complete placeholders only |
| Templates.SubstituteEach | crates/edison-stdiod/src/env_store.rs:211-224 | the nested loop computes the sequential substitution of every arg |
| Text.ReplaceIsLeftmost | crates/edison-stdiod/src/env_store.rs:219 | a replacement keeps everything before the first match and goes on after it |
| Text.SortedKeys | crates/edison-stdiod/src/env_store.rs:213-218 | map iteration visits every key once in ascending byte order |
| Diagnostics.RecordedHidesSecrets | crates/edison-stdiod/src/proc.rs:347-379 | for every line and every set of values, a recorded line is nothing, a fixed notice, or at most 500 characters containing none of the values of four bytes or more that can share no character with a marker |
| Diagnostics.RedactionWorksIff | crates/edison-stdiod/src/proc.rs:364-366 | among any other values, a value that is apart from the marker or spelled out by it is hidden in every line exactly if it is not spelled out |
| Diagnostics.OneValueWorksIff | crates/edison-stdiod/src/proc.rs:364-366 | for one value, whatever its characters, replacing it hides it in every line exactly if it can neither begin inside a marker nor run into one after text in which it does not already stand |
| Diagnostics.BracketFreeIsApart | crates/edison-stdiod/src/proc.rs:364-366 | a value without brackets is apart from the marker exactly if it is not part of "redacted" |
| Diagnostics.JsonArrayIsApart | crates/edison-stdiod/src/proc.rs:364-366 | a value such as a JSON array of strings, with no second opening bracket, is apart from the marker |
| Diagnostics.RedactAllKeepsOut | crates/edison-stdiod/src/proc.rs:364-366 | replacements of any values never bring back or create a value that is apart from the marker |
| Diagnostics.BracketedValueLeaks | crates/edison-stdiod/src/proc.rs:364-366 | `a[re` can reappear next to an inserted marker, `[[` cannot although it ends like the marker begins |
| Diagnostics.SanitizeMeans | crates/edison-stdiod/src/proc.rs:429-475 | exactly what becomes of a line, read character by character: nothing if it is blank, a notice if a credential marker in any mixture of cases, a URL user name, a JWT shape or a URL query stands in it, and otherwise its first 500 characters without the blanks around it |
| Diagnostics.ShownIsClean | crates/edison-stdiod/src/proc.rs:429-475 | a line that is shown, after trimming and shortening, has no credential marker in any mixture of cases, no JWT shape, no URL user name and no URL query |
| Diagnostics.NothingToRedact | crates/edison-stdiod/src/proc.rs:364-366 | a line without a sensitive value is left as it is |
| Diagnostics.TotalBytesMeans | crates/edison-stdiod/src/proc.rs:373-377 | the size of the tail is the number of bytes of its UTF-8 encoding |
| Diagnostics.SanitizeOnlyCuts | crates/edison-stdiod/src/proc.rs:429-475 | sanitizing yields a fixed notice or a part of the line of at most 500 characters |
| Diagnostics.KeptValues | crates/edison-stdiod/src/proc.rs:348-355 | the values of four bytes or more, each once, longest first |
| Diagnostics.ChildDiagnostics.RecordStderr | crates/edison-stdiod/src/proc.rs:362-379 | the recorded line is appended to the history, and the tail stays the longest end of the whole history within 20 lines and 8192 bytes, with the newest line in it |
| Diagnostics.ChildDiagnostics.Push | crates/edison-stdiod/src/proc.rs:372-377 | dropping oldest lines ends with exactly the longest fitting end |
| Diagnostics.ChildDiagnostics.TakeTerminalError | crates/edison-stdiod/src/proc.rs:416-426 | the tail is handed out once, and every call leaves both flags set |
| TerminalReport.EveryRun | crates/edison-stdiod/src/proc.rs:394-426 | under every interleaving of the atomic steps of any callers: one call at most obtains the error, exited implies reported, flags never go back, a finished call leaves exited set, and a call begun after exited was seen gets nothing |
| TerminalReport.ExactlyOneReport | crates/edison-stdiod/src/proc.rs:687-698 | once all calls are over exactly one holds the error |
| CommandLine.CmdLineRoundTrip | crates/edison-stdiod/src/proc.rs:319-333 | reading the command line back gives exactly the program followed by its arguments, for all strings |
| CommandLine.CmdLineInjective | crates/edison-stdiod/src/proc.rs:329-333 | different commands have different command lines |
| CommandLine.ReadsTokenBack | crates/edison-stdiod/src/proc.rs:319-325 | one quoted token is read back whatever follows it |
| CommandLine.CmdLineIsSheltered | crates/edison-stdiod/src/proc.rs:319-333 | for all programs and arguments, no tab and none of `& < > ^ ( )` or the pipe character stands outside quotes, and all quotes are closed |
| CommandLine.TokensShow | crates/edison-stdiod/src/proc.rs:319-325 | an empty argument is written as two quotes |
| Daemons.RunDaemon | crates/edison-stdiod/src/daemon.rs:97-216 | the daemon from its start through any number of connections and accounts: every process of the supervisor is accounted for and up to date as in `EveryRun`, every live child was started under an identity with the same backend, kind, installation, device and legacy key as the current one, the stored values are those pushed since the last switch over those opened with it, the daemon dials with what it saw when it was time to, and the delays fit |
| Daemons.NextSession | crates/edison-stdiod/src/daemon.rs:183-216 | a child that lives on into the next connection was started for the same account, however many sessions ago |
| Daemons.Daemon.Loop | crates/edison-stdiod/src/daemon.rs:116-216 | over any number of turns: at the head of the loop every child of the supervisor belongs to the current account; each dial goes to the first configuration that was new, or came back after being unusable, or was still the same when the delay had passed; after a rejection there is no delay to pass; otherwise the delay is 2^n seconds, at most 30, give or take a quarter, for n unchanged waits in a row |
| Daemons.Daemon.TakeTurn | crates/edison-stdiod/src/daemon.rs:119-216 | no child is left exactly after a rejection, an unusable configuration seen while connected or waiting, or a change of account; in all other turns every child is what the session made of it; with another namespace every id reads the values opened for it, otherwise what the session left stored; the same configuration is dialled again only at a look no earlier than the delay or after an unusable one |
| Daemons.Daemon.WaitForConfig | crates/edison-stdiod/src/daemon.rs:219-264 | returns the first configuration that is new, or came back after an unusable one, or is unchanged at the deadline; every look passed over was unusable, or unchanged before the deadline with no unusable one before it; all children are stopped if an unusable one was seen, and nothing else happens to them |
| Daemons.Daemon.RunSession | crates/edison-stdiod/src/daemon.rs:266-287 | the supervisor handles what it is told, and all children are stopped exactly if the look that ends the session is unusable or belongs to another account |
| Daemons.TurnSurvivors | crates/edison-stdiod/src/daemon.rs:119-197 | of the commands a turn adds by itself, any one is enough to leave no child, and none of them touches one otherwise |
| Reconnect.FirstAnswerMeans | crates/edison-stdiod/src/daemon.rs:230-262 | which look ends the wait, in terms of the looks and their times |
| Reconnect.StopsChildrenMeans | crates/edison-stdiod/src/daemon.rs:119-197 | when a turn leaves no child, in terms of the error and the configurations seen |
| Reconnect.BackoffDoubles | crates/edison-stdiod/src/daemon.rs:178-215 | the n-th plain failure in a row with a new identity makes the daemon wait for 2^n seconds, at most 30, give or take a quarter; after a session that ended well or was rejected the count goes on from one |
| Reconnect.BackoffStartsOver | crates/edison-stdiod/src/daemon.rs:155-158 | after a session that ended well the wait is between 0.75 and 1.25 seconds |
| Reconnect.CloseReasonMeans | crates/edison-stdiod/src/tunnel.rs:265-289 | which close reasons mean revoked or outdated, without the blanks around them and in any mixture of cases |
| Reconnect.SameAccountMeans | crates/edison-stdiod/src/daemon_auth.rs:139-146 | an account is the backend, the kind of credential, the installation, the device and, for a legacy login, the key; a renewed client token, another secret or label change nothing |
| Reconnect.SameAccountIsAnEquivalence | crates/edison-stdiod/src/daemon_auth.rs:139-146 | not requiring a reset is an equivalence relation that contains being the same connection |
| Reconnect.NamespaceChangeResets | crates/edison-stdiod/src/daemon_auth.rs:117-121 | configurations with different stores always require a reset |
| Reconnect.NamespaceSeparates | crates/edison-stdiod/src/daemon_auth.rs:117-121 | for backends without newlines a namespace determines backend and installation |
| Reconnect.NewlineWouldMerge | crates/edison-stdiod/src/daemon_auth.rs:117-121 | why that hypothesis is there: with a newline in a backend, which no normalised backend has, two accounts could share a namespace |
| Reconnect.Jittered | crates/edison-stdiod/src/daemon.rs:556-569 | every wait lies within three and five quarters of its base under truncating division |
| Reconnect.JitterReachesItsBounds | crates/edison-stdiod/src/daemon.rs:564-567 | the clock can produce the lower bound, the base itself and the upper bound |
| Reconnect.CappedDoubling | crates/edison-stdiod/src/daemon.rs:211-215 | doubling under the cap of 30 seconds yields min(2^n, 30) |
| DevicePolling.PollWithSleep | crates/edison-stdiod/src/auth.rs:203-292 | the loop terminates; the first wait is the longer of the interval asked for and five seconds; n requests imply 5n < expires_in, and 5+10+...+5n < expires_in if all were answered `slow_down`; waits never shrink or drop below five seconds; all sleeps together fit into the lifetime, and a last one is only cut short if the next wait would outlast it; a token is returned only if seen before the deadline; only the answers that say so keep it polling |
| DevicePolling.PollLoop | crates/edison-stdiod/src/auth.rs:219-291 | the same for the bare loop: it ends with the first deciding answer or when time is up |
| DevicePolling.NextInterval | crates/edison-stdiod/src/auth.rs:246-251 | after 429 the interval is the longest of itself, Retry-After and five seconds; after `slow_down` it is five seconds longer unless that overflows; otherwise it stays |
| DevicePolling.VerdictMeans | crates/edison-stdiod/src/auth.rs:258-290 | which answer leads to which result; a token is returned exactly if its type spells "bearer" in any mixture of cases and nothing required is missing |
| DevicePolling.KeepsPollingMeans | crates/edison-stdiod/src/auth.rs:246-288 | which answers make the device ask again |
| DevicePolling.GrowsEachTime | crates/edison-stdiod/src/auth.rs:286 | if the first n-1 answers were all `slow_down`, the n-th wait is at least 5n seconds and the n waits last at least 5+10+...+5n together: the saturating addition cannot cut them short within the lifetime of a code |
| DevicePolling.PatientMeans | crates/edison-stdiod/src/auth.rs:244-286 | in `PollWithSleep`, no wait is shorter than five seconds or than any wait before it |
| DevicePolling.SlowDownTotalIsQuadratic | crates/edison-stdiod/src/auth.rs:286 | 5+10+...+5n is 5n(n+1)/2 |
| Credentials.MergeIsIssuerBound | crates/edison-stdiod/src/config.rs:216-313 | a value from the saved file appears only together with the normalised saved backend; a legacy override takes no client credential along; a client's device id cannot be overridden |
| Credentials.MergeIsRefusedIff | crates/edison-stdiod/src/config.rs:216-283 | merging is refused exactly for a URL that does not parse, another backend than the one the saved values are bound to, or another device id than the one the saved client token was issued for |
| Credentials.MergePrefersOverrides | crates/edison-stdiod/src/config.rs:284-313 | what was given wins over what was saved; next to an explicit legacy key a saved secret or device id counts only if it belongs to a legacy login at that backend |
| Credentials.InstallableIffConnects | crates/edison-stdiod/src/config.rs:164-184 | a saved file passes the check made after a login exactly if the daemon can connect with it |
| Credentials.SelectedIsIssuerBound | crates/edison-stdiod/src/daemon_auth.rs:53-105 | no connection carries a saved secret to another backend; a client token comes with installation and device ids; its backend is normal and free of newlines |
| Credentials.StoresAreSeparate | crates/edison-stdiod/src/daemon_auth.rs:117-121 | two configurations share stored values exactly if both are legacy, or they are the same installation at the same backend |
| Credentials.LoginIsSound | crates/edison-stdiod/src/cli/login.rs:77-97 | every login that gets that far leaves a configuration that can be installed, with one kind of credential, every value supplied for its backend, and next to a client token for exactly the account, user and organisation included, that the file names |
| Credentials.LoginMeans | crates/edison-stdiod/src/cli/login.rs:77-97 | what a login leaves in each field; an earlier secret survives a browser login only if backend, installation, user and organisation are the same as texts |
| Credentials.ConfigFile.Login | crates/edison-stdiod/src/cli/login.rs:38-133 | a login either saves that configuration or leaves the file alone and sends nothing; the previous client token is revoked after the save, at its backend, exactly if the login is a legacy one or one of backend, installation, user and organisation differs as a text |
| Credentials.ConfigFile.Logout | crates/edison-stdiod/src/cli/logout.rs:14-40 | the file without authentication is saved first, keeping backend and label; only then is the client token, and never a legacy key, sent for revocation; if the save fails nothing is |
| Credentials.ConfigFile.Commands | crates/edison-stdiod/src/cli/login.rs:77-133 | over every history of logins and logouts from an empty configuration: the configuration stays sound, a secret next to a client token was supplied for the account the file names, and every revocation directly follows a save and goes to the issuing backend |
| Credentials.LogoutUnbinds | crates/edison-stdiod/src/config.rs:245-263 | after a logout any valid backend can be requested and gets no saved value |
| Credentials.PersistedConfig.ClearAuthentication | crates/edison-stdiod/src/config.rs:188-197 | everything but backend and label is cleared |
| Credentials.PersistedConfig.AcceptToken | crates/edison-stdiod/src/cli/login.rs:78-95 | the assignments amount to the configuration of a browser login; the secret survives only for an unchanged account |
| Credentials.PersistedConfig.ConfigureLegacyLogin | crates/edison-stdiod/src/cli/login.rs:169-204 | the assignments amount to the configuration of a legacy login; secret and device survive only for the same issuer and a legacy credential |
| SecureFiles.FileSystem.WritePrivate | crates/edison-stdiod/src/secure_file.rs:12-33 | at every intermediate state the destination is the complete old or complete synced new body (on Windows at worst the old body waits at the backup); which answers of the system mean success, exactly; an error leaves the old body in place except, exactly, when it was set aside, could not be replaced and could not be moved back; after a success the backup is gone if the system lets it be removed; no other file is touched |
| SecureFiles.FileSystem.Replace | crates/edison-stdiod/src/secure_file.rs:72-117 | the same for the replacement step of either platform |
| SecureFiles.FileSystem.SetAside | crates/edison-stdiod/src/secure_file.rs:87-114 | the Windows detour never leaves a state without a complete copy |
| SecureFiles.FileSystem.CreateTemp | crates/edison-stdiod/src/secure_file.rs:35-55 | a fresh empty file under an unused name if one of 32 tries finds a free name, or nothing at all |
| SecureFiles.SiblingsDiffer | crates/edison-stdiod/src/secure_file.rs:61-70 | temporary, backup and destination names never coincide |
| SecureFiles.NumberedSiblingsDiffer | crates/edison-stdiod/src/secure_file.rs:61-70 | names with different numbers differ |

## Left out

- WebSocket and HTTP transport, TLS, headers, JSON and TOML encoding: frames and configuration are datatypes, and a response is what it parses to.
- `OutgoingHandle` (`tunnel.rs`): the log holds every frame the daemon tries to send; whether a session is there to take it is not modelled.
- Real processes, process groups, PATH and PATHEXT lookup: the outcome of a spawn is an oracle.
- Cancellation of a handler between two awaits: handlers are atomic steps. Interleaving is modelled for the terminal report, and between handlers and pump steps.
- The internals of URL normalisation: a partial function whose results are non-empty, newline-free and already normal.
- Hash collisions of store file names: different namespaces are different stores.
- The initial wait for a first login, and when the connection state and error texts of `state.json` change: the writer takes any change, and no order of the file writes is claimed.
- `connection_error_message`, `build_ws_url` and the `server`, `install`, `status` and `logs` commands: they would add only easy members.
- Diagnostics.RecordedHidesSecrets: nothing is said about a value that can overlap a marker; for one such value `OneValueWorksIff` is exact, how several of them affect each other is not characterised.
- Diagnostics.OneValueWorksIff: is about the replacement; whether a value that leaks through it is then withheld or cut off by the notices and the limit of 500 characters is not characterised.
- Templates.DaemonSafeIffHarmless: placeholders that are not brace-delimited and values with braces are outside the theorem.
- Templates.StaysFilledIffFlat: starts from a correctly filled arg; for args that are not harmless the daemon's own first result can be another one.
- Credentials.ConfigFile.Commands: nothing is said about files edited by hand; `MergeIsIssuerBound` covers those.
- Daemons.Daemon.TakeTurn: which values the store of another namespace holds is arbitrary; the files of different namespaces are not followed over several switches. The shutdown signal, which stops all children and ends the program, is not modelled.
- Supervisors.StateWriter.Update: `state.json` lists servers as a set; the order of the list is the hash map's.
- SecureFiles.FileSystem.WritePrivate: one writer at a time, and a backup name already in use may be overwritten.
- Overflow of the counters for temporary names is not modelled.
