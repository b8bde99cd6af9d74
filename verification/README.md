# Fortmont Agent: verified model

This project models the stateful core of the Fortmont Agent (Go) in Dafny and proves properties of it.
The agent enrolls a machine with a gateway, keeps a WebSocket connection alive over several gateways,
and runs plugins that the gateway installs and removes. `dafny verify dfyconfig.toml` checks everything.

How the environment enters the model:

- Whatever can fail from outside is an argument: each fallible step of an operation has a fault, each
  probe an outcome, each connection a script of what it reads and which writes succeed. Theorems hold
  for all of them, and for every crash point and every interleaving.
- A file replaced by temporary file and rename is one map update that happens or leaves the old content.
- Sealing, signing and JSON are free constructors: opening gives back what was sealed, and only under
  the same key and plugin id. No secrecy is claimed.
- An operation that takes several steps is specified by the list of worlds it passes through, so a
  crash is a prefix of that list. The imperative methods are proved to leave exactly that trail.

Files by part of the agent:

| part | files |
|---|---|
| plugin files and lifecycle | `Manifest`, `SecretStore`, `PluginManager`, `PluginConsistency`, `PluginRestart`, `PluginConservation` |
| gateway selection and failover | `Gateway`, `ProbeSchedule`, `Failover` |
| handshake and enrollment | `Agent`, `Enrollment`, `DeviceId` |
| concurrent loops | `ReadLoop`, `PluginTraffic`, `ServiceControl` |
| environment and configuration | `Text`, `EnvFile`, `EnvRoundTrip`, `Configuration` |

## What does not hold, and exactly when it does

Plugin ids are taken as POSIX path parts here: an id with a separator names a file in another
directory, which is assumed not to exist, so that its secret cannot be written. Under that restriction:

- A plugin id is used as a file-name suffix without a check, and the id `manifest.json` names the
  manifest. Installing it fails, but only after its secret has replaced the manifest; from then on no
  install succeeds and a restart brings no plugin back, until the manifest's name is removed
  (`InstallingTheManifestName`, `LostManifestStaysLost`). Removing it deletes the manifest and reports
  success (`RemovingTheManifestName`). `InstallIsSafeIff` and `RemoveIsSafeIff` give the exact conditions.
- The running and the stored configuration differ after a reinstall whose manifest update fails, or a
  remove that cannot delete a running plugin's secret: `InstallAlignedIff`, `RemoveAlignedIff`, with runs
  in which it happens (`ReinstallDiverges`, `FailedRemoveDiverges`). A failing Stop would do the same;
  both plugins of today return nil from it (proxmox.go:44, unifi.go:128).
- Durations wrap around. A setting above 9223372036 seconds is not what it says (`SecondsAreExactIff`)
  and is no time at all exactly for multiples of 2^55 (`ZeroDurationIff`). The doubling backoff has its
  closed form exactly for caps from 1s up to below 2^62 ns (`ClosedFormIff`). Every sleep pauses exactly
  when the cap is positive and below 2^62 ns (`AlwaysPausesIff`), no sleep after the first pauses exactly
  when the cap is no positive duration (`NeverPausesIff`), and from 2^62 ns on the 35th sleep is negative
  (`LargeCapTurnsNegative`). `ConfiguredBackoffIff` and `UnwrappedBackoffIff` say this of settings.
- The service variables all come back from the environment file exactly when each of them has no newline,
  no outer space, no enclosing quotes and fits the scanner's buffer; otherwise those before the first
  offender do, and the offender does not (`ServiceEnvRoundTrip`).
- The failed set leaves a node to try in every run exactly when no node is listed twice
  (`FailedSetStaysProperIff`); otherwise one gateway can be tried for ever (`RepeatedNodeGetsStuck`).
  The attempts form rounds exactly when no node is listed twice or the list has at most two entries
  (`AttemptsFormRoundsIff`). Both hold of whole runs of the agent (`FailedGatewaysLeaveOneIff`,
  `GatewaysFormRoundsIff`). `Load` yields a single node today (config.go:35), so that no shipped agent
  meets a repeated one (`LoadedNodesAreDistinct`).
- Plugin messages wait for the first successful handshake of a process, not for that of a reconnect.
  During a handshake one can be sent exactly when a plugin runs or is still to be visited by the
  collector (`HandshakeLeaksIff`, `FirstHandshakeLeaksNothing`, `ReconnectTrafficExample`).
- The enrollment token is dropped after the first failed connection attempt, even one that sent nothing
  (agent.go:54; README.md:31-37 speaks only of a token that is no longer needed once registered). A
  register is handed to the connection exactly when the first attempt gets through dialing with a token
  and without an enrollment (`TokenIsSentIff`). When that dial fails, an agent without an enrollment
  hands over nothing for the rest of the process's life (`LostTokenNeverEnrolls`, `FailedDialLosesToken`);
  and it enrolls only if that first attempt goes on to read an accepted registration (`EnrolledIff`).
- The reader goroutine can outlive its connection: once the consumer has returned, it can end exactly
  when the next thing to leave it is the read error, so never with a frame in flight (`ReaderEndsIff`,
  `ClosedReaderEndsIff`, `ReaderLeftBehind`).

## Model

| member | source | states |
|---|---|---|
| Manifest.ReplaceInPlace | internal/plugins/store.go:77-84 | the search loop overwrites only the first entry of the id and reports whether there was one |
| Manifest.FilterInPlace | internal/plugins/store.go:91-96 | the filter that shares the backing array never overwrites an unread entry, keeps exactly the others in order, and its length tells whether anything was dropped |
| Manifest.UpsertIsMapUpdate | internal/plugins/store.go:74-86 | saving an installation is map update; uniqueness is kept, a present id keeps its position, a new one is appended |
| Manifest.WithoutIsMapRemoval | internal/plugins/store.go:88-97 | deleting an installation is map removal; uniqueness and the order of the others are kept |
| SecretStore.PathsAreSeparate | internal/plugins/store.go:35-63 | secret paths are injective in the id, and equal the manifest path for the one id `manifest.json` |
| SecretStore.PluginFilesAvoidEnrollmentFiles | internal/agent/agent.go:34 | the secrets of ids without a separator and the manifest lie beside the credentials and the enrollment token under other names |
| SecretStore.OpensIff | internal/plugins/store.go:45-55 | a secret opens iff the file of its id was sealed under this key and for this id |
| SecretStore.SealIsBound | internal/plugins/store.go:33-52 | another key opens nothing, and a file copied to another id opens for neither |
| SecretStore.SeparatorTouchesNothing | internal/plugins/store.go:57-61 | under an id with a separator nothing opens and nothing is deleted |
| SecretStore.Store.Save | internal/plugins/store.go:28-43 | the secret is replaced whole or not at all; an id with a separator is never written |
| SecretStore.Store.Load | internal/plugins/store.go:45-55 | a secret opens only under its own key and plugin id |
| SecretStore.Store.Delete | internal/plugins/store.go:57-61 | an absent secret counts as deleted; a failure changes nothing |
| SecretStore.Store.ListInstallations | internal/plugins/store.go:65-72 | a missing manifest is an empty list, an undecodable one an error |
| SecretStore.Store.SaveInstallation | internal/plugins/store.go:74-86 | the manifest on disk becomes the updated list exactly when it could be read and written |
| SecretStore.Store.DeleteInstallation | internal/plugins/store.go:88-97 | the manifest on disk loses the id; nothing is written when the id was not there |
| PluginManager.NewPlugin | internal/plugins/manager.go:121-142 | a plugin is built for the three supported slugs, and any other slug is an error |
| PluginManager.SpelledConfigIsBuiltIff | internal/plugins/manager.go:121-142 | a configuration that spells out all fields of a plugin builds exactly that plugin, whatever other keys it has, iff the constructors leave those fields alone |
| PluginManager.BuiltIsClean | internal/plugins/unifi/unifi.go:93-98 | no plugin keeps a trailing slash in its endpoint, and a UniFi site name is trimmed and not empty |
| PluginManager.TrailingSlashIsIgnored | internal/plugins/proxmox/proxmox.go:34-38 | a trailing slash makes no difference to a Proxmox plugin |
| PluginManager.WrongTypesAreAbsent | internal/plugins/manager.go:200-212 | keys that hold a value of another type than the plugin reads there change nothing |
| PluginManager.EmptyConfigIsDefault | internal/plugins/manager.go:123-139 | without readable keys certificates are verified for Proxmox alone, the UniFi site is `default`, and other fields are empty |
| PluginManager.Manager.Install | internal/plugins/manager.go:28-56 | leaves the trail of worlds of launch, secret, manifest, publish, cut at the first failure with a started plugin stopped; succeeds iff all four and the last status report did |
| PluginManager.PublishedIff | internal/plugins/manager.go:49-55 | an install runs through all its steps iff it succeeds or fails in that report alone |
| PluginManager.Manager.Persist | internal/plugins/manager.go:39-54 | the part of that trail from the started plugin on |
| PluginManager.Manager.Remove | internal/plugins/manager.go:58-78 | the id no longer runs whatever fails; leaves the trail of unpublish and stop, secret, manifest, cut at the first failure, and says exactly when it succeeds |
| PluginManager.Manager.Forget | internal/plugins/manager.go:71-77 | the part of that trail on disk, and exactly when it succeeds |
| PluginManager.Manager.Restore | internal/plugins/manager.go:85-119 | leaves the trail of one world per manifest entry, skipping what cannot be loaded, built or started |
| PluginConsistency.ConsistentMeansRestorable | internal/plugins/manager.go:85-104 | consistency gives each running id one manifest entry of a supported slug and a secret that opens |
| PluginConsistency.InstallKeeps | internal/plugins/manager.go:28-56 | every step of an install, under every failure pattern, keeps every running plugin backed by its files |
| PluginConsistency.RemoveKeeps | internal/plugins/manager.go:58-78 | every step of a remove does |
| PluginConsistency.RestoreKeeps | internal/plugins/manager.go:85-119 | every step of a restore does, without touching the disk |
| PluginConsistency.CrashConsistency | internal/plugins/manager.go:28-119 | every world of every run is consistent, with a crash and restart allowed between any two steps |
| PluginConsistency.InstallIsSafeIff | internal/plugins/store.go:35 | an install is safe under all failures iff the id is not the manifest's name or the slug is unsupported |
| PluginConsistency.RemoveIsSafeIff | internal/plugins/store.go:57-63 | a remove is safe under all failures iff the id is not the manifest's name or nothing is running |
| PluginConsistency.InstallingTheManifestName | internal/plugins/store.go:35 | an install under the manifest's name fails after replacing the manifest by a secret, and a restart then brings nothing back |
| PluginConsistency.LostManifestStaysLost | internal/plugins/store.go:65-76 | a manifest that cannot be decoded stays so over every run that does not remove its name; no install succeeds and no new id runs |
| PluginConsistency.RemovingTheManifestName | internal/plugins/store.go:57-63 | a remove of the manifest's name leaves every other running plugin without a manifest entry |
| PluginRestart.RestoreRebuildsDisk | internal/plugins/manager.go:85-119 | a clean restore into empty memory runs exactly what the disk stores |
| PluginRestart.RestoreRunsIff | internal/plugins/manager.go:85-119 | under every failure pattern and from any world, an id comes to run what is stored iff manifest and secret were read and its plugin started; any other id is left as it was |
| PluginRestart.InstallAlignedIff | internal/plugins/manager.go:39-48 | an install keeps running and stored configuration equal iff it is not a failed manifest update of an id that has an entry and a changed configuration |
| PluginRestart.RemoveAlignedIff | internal/plugins/manager.go:66-77 | a remove keeps them equal iff it did not fail to stop a running plugin or to delete its secret |
| PluginRestart.InstallTakesEffect | internal/plugins/manager.go:28-56 | an install that gets through has entered, sealed and started exactly what it was asked for, and changed no other id |
| PluginRestart.RemoveTakesEffect | internal/plugins/manager.go:58-78 | a remove that succeeds leaves no entry, no secret and nothing running under its id, and changed no other id |
| PluginRestart.SucceedsIff | internal/plugins/manager.go:28-78 | exactly which ids, slugs and faults let an install and a remove succeed |
| PluginRestart.ReinstallDiverges | internal/plugins/manager.go:39-48 | from an empty disk, an install and a reinstall with a failing manifest update run the old configuration and store the new one |
| PluginRestart.FailedRemoveDiverges | internal/plugins/manager.go:66-77 | from an empty disk, an install and a failing remove leave on disk what no longer runs |
| PluginRestart.HistoryKeeps | internal/plugins/manager.go:28-119 | running and stored configurations stay equal over any history of commands, crashes and restarts without those failures |
| PluginRestart.RestartEquivalence | internal/plugins/manager.go:28-142 | after such a history, dropping memory and restoring rebuilds the same ids with the same effective configurations |
| PluginConservation.OperationConserves | internal/plugins/manager.go:28-119 | after each operation a started plugin is the value of one id and unstopped, or gone and stopped once |
| PluginConservation.StartsBalance | internal/plugins/manager.go:35-115 | over any run successful starts equal running plugins plus stopped ones, none stopped twice |
| PluginConservation.RestoreBalances | internal/plugins/manager.go:98-115 | into empty memory, a restore has started exactly what then runs and stopped each failed start once |
| Gateway.FilterNodes | internal/gateway/select.go:27-31 | the candidates are the nodes outside the excluded set, in order |
| Gateway.KeptInPlace | internal/gateway/select.go:27-31 | each kept node stands behind exactly the kept nodes before it |
| Gateway.PoolFallsBackIff | internal/gateway/select.go:32 | excluded nodes are probed iff all are excluded, and then the whole list is |
| Gateway.SwapKeepsOrderOfEquals | internal/gateway/select.go:51 | exchanging neighbours of different latency keeps the order of equals |
| Gateway.SortStable | internal/gateway/select.go:51 | the reachable candidates are sorted in place by latency, equals in their old order |
| Gateway.StableHeadIsLeftmostMinimum | internal/gateway/select.go:51-53 | the head of any stable sort is the leftmost element of least latency |
| Gateway.SortedHeadIsFastest | internal/gateway/select.go:47-53 | that head is the leftmost fastest reachable candidate; there is none iff all probes failed |
| Gateway.SelectFastestExcluding | internal/gateway/select.go:26-54 | given what the probes report, selection returns the leftmost fastest reachable node of the pool, or an error when all fail |
| ProbeSchedule.ReachableInv | internal/gateway/select.go:34-45 | in every interleaving the wait group counts the live probes and each written slot is its own probe's outcome |
| ProbeSchedule.ProbeOrderIsIrrelevant | internal/gateway/select.go:34-45 | once the wait ends, every slot holds the outcome of its own candidate |
| ProbeSchedule.ScheduleSelects | internal/gateway/select.go:34-53 | for every schedule whose wait ends, sorting the reachable slots stably puts the node of the selection at the head |
| ProbeSchedule.SomeStepUntilDone | internal/gateway/select.go:36-45 | until the wait ends, some goroutine can move |
| ProbeSchedule.SchedulesAreBounded | internal/gateway/select.go:34-45 | no schedule has more than three steps a probe, and the wait ends exactly after that many |
| Failover.PoolAvoidsFailed | internal/gateway/select.go:27-32 | at the loop head the failed set is a proper subset of the nodes, so the full-pool fallback is not used |
| Failover.TurnKeepsRounds | internal/agent/agent.go:44-58 | one turn of the loop extends the current round by a new node, or completes the round and clears the failed set |
| Failover.AttemptsFormRounds | internal/agent/agent.go:42-57 | over any run the attempts are permutations of the nodes followed by a tail without repeats |
| Failover.RepeatedNodeGetsStuck | internal/agent/agent.go:57 | with any repeated node there is a run that fails every node once and then tries one gateway any number of times |
| Failover.FailedSetStaysProperIff | internal/agent/agent.go:42-57 | in every run the failed set leaves a node to try, iff no node is repeated |
| Failover.AttemptsFormRoundsIff | internal/agent/agent.go:42-57 | in every run the attempts form rounds, iff no node is repeated or the list has at most two entries |
| Failover.SleepsDependOnCountOnly | internal/agent/agent.go:48-56 | the k-th sleep depends on k and the cap alone, whatever rounds were unreachable or failed |
| Failover.ClosedForm | internal/agent/agent.go:56 | the k-th sleep is min(1s * 2^k, cap), never decreasing and between 1s and the cap |
| Failover.ClosedFormIff | internal/agent/agent.go:56 | for every int64 cap, the closed form holds at every step iff the cap is from 1s up to below 2^62 ns |
| Failover.NeverPausesIff | internal/agent/agent.go:56 | no sleep after the first pauses, iff the cap is no positive duration |
| Failover.LargeCapTurnsNegative | internal/agent/agent.go:56 | under every cap of 2^62 ns or more the 35th sleep is negative |
| Failover.AlwaysPausesIff | internal/agent/agent.go:50-56 | for every int64 cap, every sleep pauses iff the cap is positive and below 2^62 ns |
| Agent.HandledSnoc | internal/agent/agent.go:114 | handling messages one by one equals the fold over them |
| Agent.Agent.FinishHandshake | internal/agent/agent.go:114 | the loop handles the messages up to the first that ends it, and succeeds iff that one is authenticated |
| Agent.HandshakeEndsAtFirst | internal/agent/agent.go:114 | the handshake succeeds iff an authenticated message comes after nothing but unknown messages, saved registrations and answered challenges; it reads up to the first other message |
| Agent.Agent.HandleMessage | internal/agent/agent.go:114 | one message updates credentials, files and wire as the fold says, also when saving or sending fails |
| Agent.Agent.ConnectAndRun | internal/agent/agent.go:61-109 | a connection opens with authenticate when enrolled, else with register when a token is left, else ends |
| Agent.Agent.RunOnce | internal/agent/agent.go:44-57 | the body of the loop: one turn changes loop variables, agent and record as specified |
| Agent.Agent.Conclude | internal/agent/agent.go:48-57 | the failed gateway, the spent token, the sleep, the doubling and the reset after a turn |
| Agent.Agent.Run | internal/agent/agent.go:39-59 | the loop over selection, connection, failed set, token and backoff, for any number of turns |
| Agent.StopsIff | internal/agent/agent.go:43-55 | the loop has returned iff some round found the context ended at its head, while connected or asleep, or its connection ended cleanly |
| Agent.NothingAfterTheEnd | internal/agent/agent.go:43-55 | rounds after one that ended the loop add no attempt, sleep, frame or file state |
| Agent.EveryRoundSleeps | internal/agent/agent.go:46-57 | while the loop runs, each round slept once and exactly the selected gateways were attempted |
| Agent.RunTriesGatewaysInRounds | internal/agent/agent.go:39-59 | a whole run over distinct nodes tries gateways in rounds and sleeps by count |
| Agent.LoopIsRun | internal/agent/agent.go:42-58 | every possible run of the loop is a run of the agent under some probe outcomes and connections |
| Agent.FailedGatewaysLeaveOneIff | internal/agent/agent.go:42-57 | in every run of the agent a node is left to try at the loop head, iff no node is repeated |
| Agent.GatewaysFormRoundsIff | internal/agent/agent.go:42-57 | in every run of the agent its connections form rounds, iff no node is repeated or there are at most two entries |
| Enrollment.ChallengesAreAnsweredInOrder | internal/agent/agent.go:114 | the responses are exactly the received challenges in order, each signed over its own text under the key id known then |
| Enrollment.KeyIsTheLatestAccepted | internal/agent/agent.go:114 | the ids known at a point are those of the latest accepted registration before it |
| Enrollment.KeyIsLoadedWithoutRegistration | internal/agent/agent.go:114 | without one they are those loaded from disk |
| Enrollment.RunKeepsLog | internal/agent/agent.go:44-75 | over a run, memory holds the fold of all messages read and every opening follows from it |
| Enrollment.TokenIsUsedOnce | internal/agent/agent.go:44-75 | register is sent at most once, only while not enrolled, as the first opening; unreachable rounds leave the token unspent |
| Enrollment.TokenIsSentIff | internal/agent/agent.go:51-75 | exactly one register is handed to the connection if the first attempt of the run got through dialing with a token and without an enrollment, and none otherwise |
| Enrollment.LostTokenNeverEnrolls | internal/agent/agent.go:54-75 | an agent without an enrollment sends nothing and stays as it was started, iff it has no token, attempts nothing or fails in its first dial |
| Enrollment.EnrolledIff | internal/agent/agent.go:51-114 | a process knows an enrollment iff it started with one, or its first attempt dialed, opened with a token and read an accepted registration |
| Enrollment.FailedDialLosesToken | internal/agent/agent.go:54 | over one gateway, every undisturbed run with a failing first dial connects in vain for ever |
| Enrollment.RegisteredMeansAuthenticate | internal/agent/agent.go:75 | after a registration every opening authenticates with the ids received last |
| Enrollment.SavedIdsAreOnDisk | internal/agent/agent.go:114 | after a run the credentials file holds the started identity with the ids of the last saved registration, or what it held; the token is gone iff it was or a saved registration removed it |
| Enrollment.LastSavedIdsStay | internal/identity/store.go:24-62 | over all processes, crashes and restarts the file holds the ids of the last registration saved |
| Enrollment.RestartAuthenticatesAsSaved | internal/agent/agent.go:75 | after a restart the agent authenticates with exactly those ids |
| Enrollment.LoadedIsOnDisk | internal/identity/store.go:24-47 | what a process loads is what is on disk; new credentials have no ids and leave the token alone |
| Enrollment.LoadsIff | internal/identity/store.go:24-47 | loading succeeds iff credentials with a device id can be read, or there are none and new ones can be saved |
| Enrollment.LifeKeepsFiles | internal/identity/store.go:24-62 | every disk state of one process keeps the means to enroll and the identity |
| Enrollment.EnrollmentIsNeverLost | cmd/agent/main.go:94-102 | over all processes, crashes and restarts, the token file is there or the credentials hold both ids |
| Enrollment.IdentityNeverChanges | internal/identity/store.go:24-47 | once stored, device id and key pair never change |
| Enrollment.LivesStayLoadable | internal/identity/store.go:24-47 | over all processes and crashes the credentials are missing or have a device id |
| Enrollment.EveryStartCanOpen | cmd/agent/main.go:94-117 | after any history a process comes up iff it can read its credentials, or save them when there are none, and then has a first message: authenticate when enrolled, else register with a token |
| Text.TrimTightens | internal/config/config.go:120 | trimming leaves exactly the strings without outer space alone and shortens all others |
| Text.SpacesAreWhiteSpace | internal/config/config.go:120 | trimmed are exactly the 25 code points of the Unicode property White_Space |
| Text.TrimDropsNewline | internal/service/service_linux.go:19 | a token written with a newline is read back as it was trimmed |
| EnvFile.Process.LoadDotEnv | internal/config/config.go:112-142 | scanning and setting line by line equals applying the scanned lines in order, stopping at an overlong one; it succeeds iff the file opens and has none |
| EnvFile.Process.HandleLine | internal/config/config.go:119-140 | comments, export, cut, trimming, quotes and first-wins for one line |
| EnvFile.LengthOfOne | internal/config/config.go:118 | the scanner counts one to four bytes a character, as UTF-8 does (section 3 of RFC 3629) |
| EnvFile.AsciiLineFitsIff | internal/config/config.go:118 | a line of ASCII characters is scanned iff it has at most 65535 of them |
| EnvFile.WriteServiceEnv | internal/service/service_linux.go:44-50 | the printed lines joined by newlines, empty variables left out |
| EnvRoundTrip.ParsePrintedLine | internal/config/config.go:120-134 | of a printed line only the trimmed and unquoted value is read, under the printed key |
| EnvRoundTrip.QuotesAreDropped | internal/config/config.go:131-134 | one pair of matching quotes around a value is dropped and nothing else of it |
| EnvRoundTrip.OtherQuotesStay | internal/config/config.go:131-134 | quotes that do not match or stand alone stay |
| EnvRoundTrip.ExportIsOptional | internal/config/config.go:124-126 | a leading export changes nothing |
| EnvRoundTrip.SpaceAroundIsDropped | internal/config/config.go:120-130 | space around line, key and value is dropped |
| EnvRoundTrip.OtherLinesAssignNothing | internal/config/config.go:121-134 | blank lines, comments, and lines without equals sign or key assign nothing |
| EnvRoundTrip.OffendingLine | internal/config/config.go:118-140 | a value that cannot survive is lost or changed, whatever follows it |
| EnvRoundTrip.RoundTripIff | internal/config/config.go:112-142 | for any distinct service-style keys the round trip restores all printed variables iff every value survives, and then adds nothing else; otherwise it restores those before the first offender and not the offender |
| EnvRoundTrip.EmptyVariablesStayAbsent | internal/service/service_linux.go:46-48 | variables that are absent or empty are not printed and stay absent |
| EnvRoundTrip.ServiceEnvRoundTrip | internal/service/service_linux.go:44-50 | the same for the eight variables the installer prints |
| Configuration.LinesAreFirstWins | internal/config/config.go:119-140 | an existing variable is never changed and the first assignment in a file wins |
| Configuration.NulIsNeverSet | internal/config/config.go:137 | no variable is set whose name or value has a NUL, which the operating system refuses |
| Configuration.EnvironmentPrecedence | internal/config/config.go:27-33 | process variables, then .env, then the service file in the directory the first two determine |
| Configuration.ReloadChangesNothing | internal/config/config.go:135-139 | loading the same file twice is loading it once |
| Configuration.SecondsAreExactIff | internal/config/config.go:82-92 | a positive setting becomes that many seconds iff it is at most 9223372036 |
| Configuration.PositiveSettingsAreAccepted | internal/config/config.go:82-92 | every positive int64, written in decimal, is accepted and becomes the wrapped product |
| Configuration.SignsAndZero | internal/config/config.go:87-90 | signs are read, zero and negative settings are rejected |
| Configuration.NoInteger | internal/config/config.go:87-90 | numbers beyond int64 and any other text are rejected |
| Configuration.ZeroDurationIff | internal/config/config.go:91 | a positive setting becomes a zero duration iff it is a multiple of 2^55 |
| Configuration.SettingsRepeat | internal/config/config.go:91 | settings 2^55 apart are the same duration |
| Configuration.ConfiguredBackoffIff | internal/config/config.go:50 | for every accepted setting, by its wrapped cap: closed form iff from 1s up to below 2^62 ns, every sleep pauses iff positive and below 2^62 ns, no sleep after the first pauses iff not positive |
| Configuration.UnwrappedBackoffIff | internal/config/config.go:50 | by default the backoff has its closed form and always pauses; with a setting that does not wrap, iff it is at most 4611686018 seconds |
| Configuration.HugeCapNeverPauses | internal/agent/agent.go:56 | a cap of a multiple of 2^55 seconds is accepted, and the loop pauses once and then never |
| Configuration.Loader.Load | internal/config/config.go:27-72 | the environment after loading, and a configuration of nodes, paths and durations unless some duration is not a positive integer |
| Configuration.LoadingFailsIff | internal/config/config.go:47-70 | loading fails iff one of the six duration variables is set, not empty and no positive integer |
| Configuration.FieldsAreTheirVariables | internal/config/config.go:46-72 | each of the six variables sets its own field, or leaves it at its own default |
| Configuration.DefaultConfiguration | internal/config/config.go:35-72 | the configuration of an empty environment, field by field |
| Configuration.SettingSetsItsField | internal/config/config.go:46-72 | setting one of the six changes its own field to the wrapped product and no other |
| Configuration.VersionAndPaths | internal/config/config.go:42-72 | the version is the variable or "dev"; nodes, directory and both paths under it are fixed |
| Configuration.DirectoryIsConfigured | internal/config/config.go:28-32 | the directory is the one named after .env is loaded, unless that is empty or absent |
| Configuration.LoadedBackoffIff | internal/config/config.go:50 | the backoff results for the cap of a loaded configuration, by the variable the environment holds |
| Configuration.LoadedNodesAreDistinct | internal/config/config.go:35 | a loaded configuration names no gateway twice |
| DeviceId.NewDeviceId | internal/identity/store.go:72-78 | the bytes are masked in place and printed in five groups |
| DeviceId.HexDigitsAre | internal/identity/store.go:77 | the sixteen digits are 0 to 9 and a to f, in order |
| DeviceId.ParseHexOfHex | internal/identity/store.go:77 | parsing the hex text gives back the bytes |
| DeviceId.DeviceIdIsVersion4 | internal/identity/store.go:72-78 | every id is a version 4 UUID (section 5.4 of RFC 9562) whose digits give back the masked bytes |
| DeviceId.SameIdIff | internal/identity/store.go:75-76 | two inputs give the same id iff they agree on the 122 bits outside version and variant |
| ReadLoop.HandleServerMessage | internal/agent/agent.go:116-130 | complete install and remove commands reach the plugin manager, all other messages change nothing; the result says exactly which are accepted |
| ReadLoop.InstallMessageTakesEffect | internal/agent/agent.go:120-123 | an install message enters its slug and version, seals its configuration and runs the plugin built from them, under its id alone |
| ReadLoop.RemoveMessageTakesEffect | internal/agent/agent.go:124-127 | a remove message leaves no entry, no secret and nothing running under its id |
| ReadLoop.OtherMessagesChangeNothing | internal/agent/agent.go:116-130 | incomplete or undecodable commands and all other messages change nothing, and only unknown types are no error |
| ReadLoop.StepKeepsInv | internal/agent/agent.go:92-112 | each step of reader or consumer keeps read = handled + buffered + being sent |
| ReadLoop.CommandsApplyInWireOrder | internal/agent/agent.go:92-130 | in every scheduling at most two frames are in flight, an error is last, and the plugins are the fold of the handled commands |
| ReadLoop.NoFrameIsStuck | internal/agent/agent.go:92-112 | while the consumer lives and a frame is unhandled, reader or consumer can move |
| ReadLoop.ReaderEndsIff | internal/agent/agent.go:92-112 | once the consumer has returned, the reader can end iff it has, or the next thing to leave it is the read error |
| ReadLoop.ClosedReaderEndsIff | internal/agent/agent.go:66-112 | when the closed connection yields nothing but an error, iff no frame is in flight |
| ReadLoop.ReaderLeftBehind | internal/agent/agent.go:92-112 | a run in which the reader blocks for ever |
| ReadLoop.TrafficKeepsPluginsConsistent | internal/agent/agent.go:92-130 | in every scheduling of any commands that spare the manifest's name, each running plugin keeps its files |
| PluginTraffic.NoTrafficBeforeTrust | internal/plugins/manager.go:144-174 | in every interleaving no plugin message is sent before a handshake succeeded, and Restore runs once, before any command |
| PluginTraffic.NothingSentWhileIdle | internal/agent/agent.go:133-141 | between two connections no step sends a message |
| PluginTraffic.RunningFollowsCommands | internal/plugins/manager.go:28-119 | in every run exactly the plugins run that were restored or installed and not removed since |
| PluginTraffic.VisitsInOrder | internal/plugins/manager.go:148-171 | undisturbed, the collector visits its snapshot once and in order |
| PluginTraffic.HandshakeLeaksIff | internal/agent/agent.go:67 | at any handshake of any run the collector can send a plugin message before it ends, iff a plugin runs or is still to be visited |
| PluginTraffic.FirstHandshakeLeaksNothing | internal/agent/agent.go:76-86 | until a handshake has succeeded it cannot |
| PluginTraffic.ReconnectTrafficExample | internal/agent/agent.go:67 | the run to a reconnect after any one plugin was restored, at which it can |
| ServiceControl.StepKeepsInv | internal/service/run_windows.go:32-69 | each step keeps the reported states well formed and cancels before waiting |
| ServiceControl.ControlLoopIsSafe | internal/service/run_windows.go:32-69 | the handler returns only with the worker's one result and a cancelled context, with exit code 0 iff that result is nil or a cancellation |
| ServiceControl.ReportsFollowRequests | internal/service/run_windows.go:32-69 | in every run Running is reported once and again for each interrogation, and StopPending iff a stop or shutdown was served, at most once |
| ServiceControl.OnlyMoves | internal/service/run_windows.go:55-66 | a stop or shutdown leads to cancelling; from then on the handler only cancels and takes the result |
| ServiceControl.MovesOrWaits | internal/service/run_windows.go:42-69 | until it has returned, the handler can move, or the worker still runs |

## Left out

- PluginManager.Manager.Install: of the status reports only the outcome of the last, which Install returns, is modelled; `PluginTraffic` says when such messages can be sent.
- SecretStore.PluginFilesAvoidEnrollmentFiles: says nothing of ids with a separator, whose paths can be other names of any file, as after cleaning on Windows.
- SecretStore.Store.Save: paths are POSIX and case-sensitive, and the config directory holds no subdirectory named like a secret file, so that an id with a separator cannot be written.
- Gateway.SelectFastestExcluding: takes what the probes report as given; `ScheduleSelects` joins it to their schedules.
- Gateway.SortStable: the block merging that the Go library uses beyond 20 elements is not modelled; `StableHeadIsLeftmostMinimum` holds for every stable sort.
- Configuration.Loader.Load: cleaning of joined paths is not modelled.
- Agent.Agent.ConnectAndRun: heartbeats, pings, health probes and metrics are one outcome, whether the connection was lost; Restore and the commands served meanwhile are in `PluginManager`, `ReadLoop` and `PluginTraffic`.
- Enrollment.EnrollmentIsNeverLost: neither uninstalling the service, which deletes the directory, nor installing it on Windows is a step; the latter deletes the credentials before it writes the token (service_windows.go:25-28), so that a crash in between leaves neither.
- Enrollment.IdentityNeverChanges: holds between installations; installing on Windows discards the identity.
- Enrollment.LivesStayLoadable: that a generated device id is not empty is assumed of `Life`; `DeviceIdIsVersion4` is about the generator.
- EnvFile.Process.LoadDotEnv: text is valid UTF-8, and variable names are case-sensitive as on Linux.
- The probes, the reader and consumer, the collector and the Windows handler are transition systems over values, not threads; fairness and timing are not modelled.
- Loading the credentials is a function over the two enrollment files; key decoding is folded into a file that is rejected.
- WebSocket dialing, deadlines, tickers and clocks: environment events with arbitrary outcomes.
- AES-GCM, SHA-256, Ed25519, base64 and JSON internals.
- The Proxmox and UniFi plugins beyond Start and Stop, system metrics, logging, systemd and sc.exe calls.
