# A verified model of the GXhost node agent

The node agent runs game servers in containers. It builds container configurations, keeps one power-state
machine per server, streams consoles, replaces server data, and rebuilds its memory from Docker after a
restart. The panel API in front of it issues refresh tokens. This project models the parts of both that hold
the hardest promises and proves those promises for all inputs and all runs.

Each source loop is a method proved against a specification that does not mention the loop: a grammar, the
full history, a set of endpoints, a step relation.

| files | subject |
|---|---|
| `Text`, `Ordering`, `Paths` | strings, 64-bit integers, sorting, path rules |
| `Tokenizer`, `ShellQuoting`, `Placeholders`, `Argv` | startup templates |
| `ContainerSpec`, `PortRecovery`, `Recovery` | building a container, recovering a server from it, building it again |
| `Lifecycle` | the power-state machine under one lock |
| `Jail`, `Archive`, `Restore`, `ModpackPath` | path checks, backup archives and their restoration |
| `DataSwap`, `ModpackInstall` | rename swaps with crashes, the boot sweep, the modpack run |
| `ConsoleRing`, `BootScanner`, `ConsolePump`, `ConsoleHub`, `ConsoleFeed`, `InputLimiter` | the console |
| `Env` | container environments |
| `RefreshSessions` | refresh-token families |

## Main results

- **Recovery is a fixpoint exactly when it can be.** `Recovery.RecoverAndRebuild`: recovering a server from its
  container and building it again gives the same container if and only if the uid is positive, no argument
  holds `{{`, no extra mount was granted, the limits survive 64-bit arithmetic and every protocol is a bare
  name. The integers wrap as Go's do, and the condition on them is exact.
- **Tokenizing undoes quoting.** The tokenizer is specified by an unambiguous grammar; the quoted join of any
  argument vector reads back as that vector.
- **Data is never partial.** A replacement cut after any step, then swept once, leaves the old tree, the new
  tree, or no live directory with the old tree whole beside it (`DataSwap.CutAndBoot`). `DataSwap.SecondBoot` and
  `DataSwap.LostAfterTwoBoots` show where the guarantee ends: registering recreates a missing live directory empty,
  and the next sweep deletes the old tree. `DataSwap.ActivateReaped` says exactly when the delayed deletion of an
  earlier swap costs a later one its data.
- **What "restored" means, exactly.** `ModpackInstall.RunModpackInstall` says for every run, from whatever jail handle
  the server has, which final report is made or that none is, which handle is left, and that after a restored report the live files are those the backup could open, over whatever an ignored
  failure to clear staging left there. `ModpackInstall.RestoredExactly` says when those are the previous files.
  The chain is tree walk, archive, extraction and rename.
- **Every interleaving keeps the lifecycle invariant, except for two steps.** `Lifecycle.InvStep` is an
  equivalence: a failed removal and a failed adoption of a live server, and nothing else, break the invariant.
  Suspension, stops and restarts hold against all watchers, and a start never meets a worker that is still attached
  unless one of two named steps came before it.
- **The bounded console agrees with the full history.** The ring is the longest fitting suffix of everything
  appended, and the boot scanner decides like a reader of the full output as long as the lines between two
  polls fit the ring, which 32 lines of 8192 bytes always do. Under concurrent publishers a subscriber is offered
  every line once, each publisher's lines in order, and a line is overtaken only by lines of overlapping publishes.
- **A reused refresh token ends its family,** over every run of logins, refreshes and logouts, one request at a time.
  A token is exchanged exactly while its row is unused, unrevoked and unexpired, and `RefreshSessions.UsableUntilEnded`
  lists what ends that.
- **What a container is.** Every built container runs under the server's own uid, with the memory, swap and processor
  limits asked for, its own ports and the granted mounts, each stated in plain numbers.

## Where the code and its comments disagree

- `agent/internal/srv/server.go:36-42` says a crashed server's container is gone or killed. A stop that fails
  also sets that state, with the container, pump and collector all still there (`Lifecycle.CrashedWithWorkers`);
  `Lifecycle.CrashedStep` says that nothing else does.
- `agent/internal/srv/manager.go:156-162` says an old copy without a live directory is never swept. That holds for
  one boot; `DataSwap.LostAfterTwoBoots` is the boot after it, and `DataSwap.LossWitness` one such replacement.
- `agent/internal/backup/restore.go:30-31` wants an empty destination and `agent/internal/srv/backup.go:38-42` promises
  a fresh staging directory. The failure to clear it is ignored, so files left there are swapped in with the
  restored ones (`ModpackInstall.RestoredBesideLeftovers`).
- `agent/internal/backup/local.go:66-69` promises the entire tree. The listing drops every path the kernel does not
  open, so a file whose path has 4096 bytes or more is missing from a backup that succeeds
  (`Restore.DeepFileIsLost`, and `Restore.FullBackupRestores` for the exact condition).
- `agent/internal/api/routes_modpacks.go:121-129` reports every rollback. When the swap fails and the directory
  cannot be reopened, the server is left without a jail, and the rollback closes that missing jail before it can
  report. When the rollback fails before it looks for the jail, the next run does not survive its backup
  (`ModpackInstall.RunModpackInstall` states exactly when, `ModpackInstall.RunWithoutFinalReport` and
  `ModpackInstall.NextRunDies` are such runs).

## Model

| member | source | states |
|---|---|---|
| `Text.ParseOfFormat` | agent/internal/spec/hostconfig.go:175-184 | printing any 64-bit label value and parsing it back is the identity |
| `Text.TrimsBothEnds` | agent/internal/spec/argv.go:188-192 | trimming takes white space off both ends and nothing else |
| `Text.RuneLength` | agent/internal/fsx/jail.go:97-103 | the byte length of a rune is the one its UTF-8 lead byte announces, and no shorter form holds it |
| `Tokenizer.TokenizeTemplate` | agent/internal/spec/argv.go:115-169 | succeeds exactly on the texts of the template grammar, with their words; reports a dangling backslash exactly when the text stops after an unquoted one, and an unterminated quote exactly when it stops inside a quote |
| `Tokenizer.TokenizeOfReading` | agent/internal/spec/argv.go:107-114 | the grammar is unambiguous: any reading of a template gives the same words |
| `Tokenizer.Peel` | agent/internal/spec/argv.go:129-163 | pieces that spell a prefix of a template are the first pieces of every reading of it |
| `Tokenizer.TwoWords` | agent/internal/spec/argv.go:157-161 | words separated by any mix of space, tab, CR and LF are separate words, as they stand |
| `Tokenizer.QuotedWord` | agent/internal/spec/argv.go:133-149 | a word in single quotes, or escaped in double quotes, is that word |
| `Tokenizer.BackslashedWord` | agent/internal/spec/argv.go:150-156 | a word with every rune behind a backslash is that word |
| `ShellQuoting.JoinTokenizes` | agent/cmd/pxagent/serve.go:316-328 | for every argument vector, empty arguments and quotes included, tokenizing its quoted join gives it back |
| `ShellQuoting.JoinShellArgs` | agent/cmd/pxagent/serve.go:316-328 | the string it builds tokenizes to its input |
| `Placeholders.SubstituteToken` | agent/internal/spec/argv.go:175-202 | fills exactly the tokens that split into closed, declared placeholders, each value verbatim and once |
| `Placeholders.SubstituteOfSplit` | agent/internal/spec/argv.go:175-202 | the split of a token into literals and placeholders is unique and decides the result |
| `Placeholders.SubstituteNoVars` | agent/internal/spec/argv.go:193-197 | without variables a token is itself, and any `{{` in it is an error |
| `Placeholders.BracesAlike` | agent/internal/spec/argv.go:175-202 | `{{NAME}}` is its value wherever it stands, with or without white space inside the braces |
| `Placeholders.UnclosedIsError` | agent/internal/spec/argv.go:183-187 | a placeholder that is never closed is an error |
| `Argv.RewriteLegacyForgeArgfile` | agent/internal/spec/argv.go:77-105 | only the first argument file of a legacy Forge server becomes `-jar <jar>` |
| `Argv.BuildArgv` | agent/internal/spec/argv.go:36-66 | succeeds exactly when the template starts an argument vector, with that vector |
| `Argv.StartsUnique` | agent/internal/spec/argv.go:36-66 | template and variables determine the argument vector |
| `Argv.ArgvElement` | agent/internal/spec/argv.go:45-105 | for every vector a template starts: each argument is its token's literals with the values verbatim between them, in place; a legacy Forge server's first argument file is `-jar <jar>` instead and shifts the later ones by one |
| `Argv.Restarts` | agent/internal/spec/argv.go:36-66 | a launchable vector read back as a template without variables starts itself, unless some argument holds `{{` |
| `Argv.StartsNoShell` | agent/internal/spec/argv.go:14-66 | nothing is started through one of the listed interpreters, and no argument holds a NUL byte |
| `Argv.LegacyUpTo16` | agent/internal/spec/argv.go:98-105 | Minecraft 1.n, with any patch version, is legacy exactly up to 1.16 |
| `Argv.RewrittenIff` | agent/internal/spec/argv.go:77-96 | the argument file is rewritten for a Forge server of such a version with a jar, and for no other |
| `ContainerSpec.ValidateServer` | agent/internal/spec/hostconfig.go:139-169 | accepts exactly the valid servers |
| `ContainerSpec.BuildPortBindings` | agent/internal/spec/hostconfig.go:208-229 | the bindings of every allocation on each of its protocols, in order, and their keys exposed |
| `ContainerSpec.BindProtocols` | agent/internal/spec/hostconfig.go:213-226 | one allocation bound on each of its protocols, and the keys exposed |
| `ContainerSpec.PortBindingsBind` | agent/internal/spec/hostconfig.go:208-229 | a port map binds exactly the (address, protocol) pairs of the allocations |
| `ContainerSpec.BuildContainerSpec` | agent/internal/spec/hostconfig.go:25-137 | succeeds exactly when validation, command and data mount do, with the one container they determine |
| `ContainerSpec.RunsAsItsUser` | agent/internal/spec/hostconfig.go:45 | the process runs under the server's own uid and gid, in the node's range and never 0 |
| `ContainerSpec.BuiltConfig` | agent/internal/spec/hostconfig.go:35-57 | image, command and stop signal of every built container |
| `ContainerSpec.LabelsSay` | agent/internal/spec/hostconfig.go:171-191 | the labels name the server and parse back to its uid and disk limit |
| `ContainerSpec.BuiltHost` | agent/internal/spec/hostconfig.go:79-133 | network, privileges, profiles and log bounds of every built container |
| `ContainerSpec.BuiltMounts` | agent/internal/spec/mounts.go:40-84 | the data directory writable at its place first, and beside it only what was asked for and granted |
| `ContainerSpec.DataMountIff` | agent/internal/spec/mounts.go:40-55 | the data directory is refused exactly when it has no name or is a control socket |
| `ContainerSpec.GrantedAreExtras` | agent/internal/spec/mounts.go:60-118 | on a node that lists a source once, everything asked for and granted is mounted |
| `ContainerSpec.BuiltPorts` | agent/internal/spec/hostconfig.go:208-229 | exactly the allocations' own ports, for their protocols or tcp and udp, from 1024 to 65535 |
| `ContainerSpec.MemoryInBytes` | agent/internal/spec/hostconfig.go:243 | memory is the megabytes times 1048576 if and only if that fits 64 bits |
| `ContainerSpec.ReservesNineTenths` | agent/internal/spec/hostconfig.go:253 | the reservation is nine tenths of the memory, rounded down |
| `ContainerSpec.SwapOnTop` | agent/internal/spec/hostconfig.go:270-277 | swap comes on top of the memory, and a negative amount is no limit |
| `ContainerSpec.CpuShare` | agent/internal/spec/hostconfig.go:279-284 | the quota is the percentage of one period if and only if it fits 64 bits |
| `ContainerSpec.WeightInRange` | agent/internal/spec/hostconfig.go:286-297 | the nearest weight from 10 to 1000, 500 when unset, none where unsupported; 512 processes when unset |
| `Jail.JoinPlain` | agent/internal/spec/mounts.go:50 | a name joined to a rooted directory is that name below it |
| `PortRecovery.RecoveredAllocations` | agent/cmd/pxagent/serve.go:268-314 | sorted allocations with the first one primary that publish exactly the endpoints of the port map |
| `PortRecovery.RecoveryUnique` | agent/cmd/pxagent/serve.go:294-313 | those allocations are unique, so map order never shows |
| `PortRecovery.RecoveredAreValid` | agent/cmd/pxagent/serve.go:268-314 | allocations recovered from valid ones are valid |
| `PortRecovery.PortsFixpoint` | agent/cmd/pxagent/serve.go:268-314 | building recovered allocations binds the same endpoints if and only if every protocol is a bare name |
| `Recovery.CpuComesBack` | agent/cmd/pxagent/serve.go:234-236 | the quota read back and rebuilt is the same if and only if the percentage modulo 2^61 is within a bound |
| `Recovery.SwapComesBack` | agent/cmd/pxagent/serve.go:237-241 | the swap ceiling comes back if and only if it is unlimited or did not wrap below the memory limit |
| `Recovery.LimitsFixpoint` | agent/cmd/pxagent/serve.go:231-249 | rebuilding recovered limits gives the same cgroup resources if and only if the limits are recoverable |
| `Recovery.ReadLimits` | agent/cmd/pxagent/serve.go:231-249 | fills in exactly the recovered limits |
| `Recovery.RecoveredUnits` | agent/cmd/pxagent/serve.go:213-249 | the limits read from any container, in the panel's units, rounded down |
| `Recovery.LabelNumber` | agent/cmd/pxagent/serve.go:258-266 | a missing, malformed or negative label counts as zero, any other as its number |
| `Recovery.RecoveredServerSpec` | agent/cmd/pxagent/serve.go:210-256 | succeeds exactly on identifiable containers, with a server that reads back every kept field |
| `Recovery.RecoveredIsValid` | agent/cmd/pxagent/serve.go:210-256 | a server recovered from a built container passes validation again with the same uuid, uid and disk limit |
| `Recovery.RebuildAgrees` | agent/cmd/pxagent/serve.go:210-256 | a recoverable server builds the same container again |
| `Recovery.AgreementNeeds` | agent/cmd/pxagent/serve.go:210-256 | when the rebuilt container is the same, the server was recoverable |
| `Recovery.RecoverAndRebuild` | agent/cmd/pxagent/serve.go:174-208 | recover then rebuild gives the same container if and only if the uid is positive and the server recoverable |
| `Lifecycle.InvStep` | agent/internal/srv/server.go:159-830 | a step keeps the invariant if and only if it is not a failed removal or failed adoption of a live server |
| `Lifecycle.InvRun` | agent/internal/srv/server.go:47-55 | no run without such a step ever leaves a half-done stop or a live server without container, pump and collector |
| `Lifecycle.Reachable` | agent/internal/srv/server.go:92-129 | the same from a fresh server, with an adoption allowed first |
| `Lifecycle.StaysDown` | agent/internal/srv/server.go:602-608 | a stopped server stays stopped under every step but a start or an adoption |
| `Lifecycle.StopsAndStaysDown` | agent/internal/srv/server.go:656-704 | after a successful stop or kill the workers are gone and the state stays down until the next start |
| `Lifecycle.SuspensionHolds` | agent/internal/srv/suspend.go:24-36 | once suspension has returned, nothing that interleaves before or after its kill brings the server up |
| `Lifecycle.NeverStuck` | agent/internal/srv/server.go:667-683 | after any failures an unsuspended server with a container accepts a start or a stop |
| `Lifecycle.RestartStarts` | agent/internal/api/power.go:22-28 | a restart whose Docker calls succeed starts the server under every interleaving that neither takes it down before the stop nor unseats it before the start |
| `Lifecycle.StartableStep` | agent/internal/srv/server.go:219-238 | exactly which steps make a startable server unstartable |
| `Lifecycle.RestartKeepsInv` | agent/internal/api/power.go:22-28 | however a restart ends, among whatever sound steps, the invariant holds |
| `Lifecycle.RestartAlone` | agent/internal/api/power.go:22-28 | with nothing in between it is a stop and a start |
| `Lifecycle.StaysUp` | agent/internal/srv/crash.go:38-126 | over every run without a stop, kill, fatal boot line, container seen gone, removal or adoption, a live server stays live with its container and workers |
| `Lifecycle.RunningOncePromoted` | agent/internal/srv/server.go:602-608 | over every run that nothing takes down, a starting server is running exactly when its ready line has been seen |
| `Lifecycle.BecomesStarting` | agent/internal/srv/server.go:219-270 | exactly when a step makes a server starting |
| `Lifecycle.BecomesRunning` | agent/internal/srv/server.go:602-608 | exactly when a step makes a server running |
| `Lifecycle.LiveCrashes` | agent/internal/srv/crash.go:38-62 | exactly which steps leave a live server crashed |
| `Lifecycle.LiveGoesOffline` | agent/internal/srv/crash.go:38-62 | exactly which steps leave a live server offline |
| `Lifecycle.StoppedMoves` | agent/internal/srv/server.go:256-262 | exactly which steps move a stopped server between offline and crashed |
| `Lifecycle.WorkersAfter` | agent/internal/srv/server.go:690-705 | which steps attach and detach the workers |
| `Lifecycle.ContainerAfter` | agent/internal/srv/server.go:775-843 | the container, suspension and removal flags after every step |
| `Lifecycle.EndsAsTakenDown` | agent/internal/srv/crash.go:38-126 | a live server ends crashed or offline as the step that took it down says, whatever the watchers do afterwards |
| `Lifecycle.IdleStep` | agent/internal/srv/server.go:36-42 | a stopped server keeps a worker if and only if a live one's stop failed or a stopped container was adopted over it |
| `Lifecycle.CrashedStep` | agent/internal/srv/server.go:36-42 | a crashed server keeps a worker if and only if a live one's stop failed |
| `Lifecycle.IdleRun` | agent/internal/srv/server.go:36-42 | over every run without those steps a stopped server has no worker |
| `Lifecycle.StartFindsNoWorker` | agent/internal/srv/server.go:249-253 | over such runs an accepted start never meets an attached worker |
| `Lifecycle.OrphansShow` | agent/internal/srv/server.go:249-253 | right after such a step both workers are attached and a start is accepted over them unless the server is suspended |
| `Lifecycle.CrashedWithWorkers` | agent/internal/srv/server.go:36-42 | a run from a fresh server that ends crashed with both workers |
| `Lifecycle.FailedRemovalBreaks` | agent/internal/srv/server.go:811-830 | a failed removal leaves a running server without workers |
| `Lifecycle.Server.CreateContainer` | agent/internal/srv/server.go:159-190 | one create step; succeeds only without a container |
| `Lifecycle.Server.StartServer` | agent/internal/srv/server.go:219-293 | one start step; succeeds exactly when accepted and both Docker calls do |
| `Lifecycle.Server.StopServer` | agent/internal/srv/server.go:656-687 | one stop step, through `stopping`; a failed stop ends crashed |
| `Lifecycle.Server.KillServer` | agent/internal/srv/server.go:691-704 | one kill step |
| `Lifecycle.Server.PromoteStarting` | agent/internal/srv/server.go:602-608 | one promotion step, from `starting` only |
| `Lifecycle.Server.HandleFatalBootError` | agent/internal/srv/server.go:496-505 | one fatal-boot step, from `starting` only |
| `Lifecycle.Server.HandleStatsStreamEnded` | agent/internal/srv/crash.go:106-125 | one stream-end step on the state read under the lock |
| `Lifecycle.Server.RecreateContainer` | agent/internal/srv/server.go:719-806 | one recreate step, refused unless stopped |
| `Lifecycle.Server.AdoptContainer` | agent/internal/srv/server.go:613-649 | one adoption step |
| `Lifecycle.Server.RemoveServer` | agent/internal/srv/server.go:811-843 | one removal step |
| `Lifecycle.Server.SetSuspendedFlag` | agent/internal/srv/suspend.go:25-30 | the flag step, and whether a kill must follow |
| `Lifecycle.Server.Restart` | agent/internal/api/power.go:22-28 | keeps the invariant; succeeds exactly when the server is startable and the Docker calls succeed; it is the interleaved restart with nothing in between |
| `Jail.ResolveSpec` | agent/internal/fsx/jail.go:94-122 | sanitize accepts exactly the acceptable paths and keeps their components without empty and `.` ones |
| `Jail.SanitizeIdempotent` | agent/internal/fsx/jail.go:94-122 | sanitizing a sanitized path changes nothing |
| `Jail.ResolveNames` | agent/internal/fsx/jail.go:94-122 | a path of valid names resolves to itself unless it is too long |
| `Jail.LocateNames` | agent/internal/fsx/jail_linux.go:76-97 | a path of valid names is found if and only if the kernel takes its length; sanitize never refuses it earlier |
| `Jail.OpensAbove` | agent/internal/fsx/jail_linux.go:76-97 | every directory above a path that opens also opens |
| `ModpackPath.SafeRelativeSpec` | agent/internal/srv/modpack.go:596-606 | accepts exactly the relative paths without backslash whose walk never leaves the root and ends below it |
| `Archive.WalkAndTar` | agent/internal/backup/local.go:123-147 | appends exactly the files the walk visits, in order; entries that cannot be opened are skipped without an error |
| `Archive.TarNode` | agent/internal/backup/local.go:136-162 | one listed entry: a directory is walked, a file is written under its path, and no listed path is refused |
| `Archive.WalkVisits` | agent/internal/fsx/ops.go:40-77 | a file is visited if and only if it and every directory above it can be opened and is not ignored |
| `Archive.ReachedIff` | agent/internal/fsx/ops.go:56-60 | of the paths on the way down, only the file's own length matters |
| `Archive.EntriesPrefixFree` | agent/internal/backup/local.go:123-147 | no visited path is a prefix of another |
| `Archive.KeptIff` | agent/internal/backup/ignore.go:33-53 | a path is kept exactly when no pattern is a glob of it or of its last name, or names it or a directory above it, and likewise for every directory above |
| `Archive.DirectoryPattern` | agent/internal/backup/ignore.go:47-50 | a pattern that names a directory, with or without a slash, drops everything below it |
| `Archive.NamePattern` | agent/internal/backup/ignore.go:44-46 | a glob of a name drops that name at any depth and everything below it |
| `Restore.ValidateRestoreArchive` | agent/internal/backup/restore.go:50-82 | accepts exactly the archives with few enough headers whose declared sizes, of every kind of entry, never sum above the limit in 64 bits |
| `Restore.LimitsAreTotals` | agent/internal/backup/restore.go:19-23 | when no sum can wrap, that is a limit on the number of entries and on their total size |
| `Restore.RestoreArchive` | agent/internal/backup/restore.go:32-135 | succeeds exactly when the limits hold and every entry extracts onto what the destination holds, with the resulting contents |
| `Restore.MkdirAllExact` | agent/internal/fsx/archive.go:193-221 | succeeds if and only if no proper prefix is a file, and then every prefix exists |
| `Restore.MkdirAllMakesPrefixes` | agent/internal/fsx/archive.go:193-221 | adds exactly the missing prefixes and touches no file |
| `Restore.ExtractItems` | agent/internal/backup/restore.go:84-135 | extraction onto any directory succeeds if and only if no file or directory there is in the way, and adds exactly the files and the directories leading to them |
| `Restore.DirectoriesAreMade` | agent/internal/backup/restore.go:119-122 | a directory entry is made with everything above it if and only if no file stands above it |
| `Restore.OthersAreSkipped` | agent/internal/backup/restore.go:130-132 | entries of any other kind change nothing |
| `Restore.BackupRestores` | agent/internal/backup/restore.go:84-135 | restoring a backup of any tree onto any directory: when it succeeds, and which files stand there afterwards, byte for byte |
| `Restore.FreshRestore` | agent/internal/backup/restore.go:84-135 | onto an empty directory it gives exactly the files that can be opened and nothing on whose path is ignored |
| `Restore.FullBackupRestores` | agent/internal/backup/local.go:66-69 | without patterns the whole tree survives if and only if every file's path is short enough to open |
| `Restore.DeepFileIsLost` | agent/internal/fsx/ops.go:56-60 | trees whose file is missing from a backup that succeeds, exactly from 2049 levels on |
| `DataSwap.Stage` | agent/internal/srv/backup.go:56-90 | every state while staging leaves the live directory untouched, and the old copy is gone if and only if its clean-up worked |
| `DataSwap.MoveIn` | agent/internal/srv/backup.go:102-111 | the second rename and its revert keep the data whole at every step |
| `DataSwap.Activate` | agent/internal/srv/curseforge_modpack.go:355-377 | the swap is safe at every step, which step failed decides result and jail handle (a failed close leaves it closed), and the live directory is missing exactly when the move in and the revert both fail |
| `DataSwap.Replace` | agent/internal/srv/backup.go:48-118 | a whole replacement passes only through volumes where the data is old, new, or whole beside a missing live directory |
| `DataSwap.ActivateReaped` | agent/internal/srv/backup.go:99-116 | with the delayed deletion of an earlier swap firing anywhere in this one: every volume on the way is safe if and only if it does not reach the only copy of the old tree, and exactly when the data is whole at the end |
| `DataSwap.SweepStaleOldDirs` | agent/internal/srv/manager.go:167-216 | touches only listed, aged leftovers with a live sibling, and deletes every one of them whose deletion works |
| `DataSwap.CutThenSweep` | agent/internal/srv/manager.go:147-166 | after a cut replacement and one sweep the live directory is absent, old or new, and when absent the old tree stands whole beside it |
| `DataSwap.CutAndBoot` | agent/internal/srv/manager.go:147-166 | the same end to end: any replacement, cut at any step, any sweep |
| `DataSwap.SecondBoot` | agent/internal/srv/server.go:92-96 | after a second boot whose sweep deleted the copy, the data survives if and only if the cut left a live directory |
| `DataSwap.LostAfterTwoBoots` | agent/internal/srv/manager.go:167-216 | every replacement that loses its live directory, swept, registered and swept again, ends with an empty live directory and no copy |
| `DataSwap.LossWitness` | agent/internal/srv/curseforge_modpack.go:355-377 | one such replacement |
| `ModpackInstall.BackUp` | agent/internal/srv/backup.go:34-36 | the archive of everything the walk can open, exactly with an open handle and no failure; it dies exactly when it gets to the walk without a handle |
| `ModpackInstall.Install` | agent/internal/srv/modpack.go:65-233 | exactly when the new tree is live, which handle is left, and that a restore's own directories are untouched |
| `ModpackInstall.RestoreBackup` | agent/internal/srv/backup.go:48-118 | exactly when it restores, fails or panics and which handle it leaves; restored means the archive extracted onto what clearing staging left is live |
| `ModpackInstall.RestoredFiles` | agent/internal/srv/backup.go:56-88 | extracting the safety backup onto leftovers succeeds if and only if nothing is in its way, and gives the leftovers with the openable files over them |
| `ModpackInstall.RestoredExactly` | agent/internal/srv/backup.go:38-42 | those are the previous files if and only if staging kept no file of its own and every previous file can be opened or was left unchanged |
| `ModpackInstall.RollBack` | agent/internal/api/routes_modpacks.go:121-129 | one final report that says restored exactly when the restore went through |
| `ModpackInstall.InstallAndValidate` | agent/internal/api/routes_modpacks.go:74-130 | completed, restored, not restored or no report, each exactly on its combination of outcomes |
| `ModpackInstall.RunModpackInstall` | agent/internal/api/routes_modpacks.go:54-130 | for every run and every starting handle the exact condition of each final report and of a missing one, "completed" on the run's own outcomes, and the handle left; after "restored" the live files are the openable previous ones over the leftovers of staging |
| `ModpackInstall.RollbackOnFields` | agent/internal/api/routes_modpacks.go:119-130 | when a run reports the previous files restored, and when it dies in the rollback, on its own outcomes |
| `ModpackInstall.HandleOnFields` | agent/internal/srv/modpack.go:211-229 | when the installation comes up, loses its handle or leaves it closed, on the run's own outcomes |
| `ModpackInstall.EndsWithoutHandle` | agent/internal/srv/modpack.go:213-224 | exactly which runs end with a final report and leave no handle |
| `ModpackInstall.RunsWithoutHandle` | agent/internal/api/routes_modpacks.go:67-73 | over any sequence of runs a closed or missing handle stays so, nothing changes on disk, and one dies if and only if the handle is missing and its backup gets to the walk |
| `ModpackInstall.RunWithoutFinalReport` | agent/internal/srv/modpack.go:220-224 | a run that ends without a final report |
| `ModpackInstall.NextRunDies` | agent/internal/srv/backup.go:84-88 | a run that reports its failure and leaves no handle, after which every run that gets to the walk dies |
| `ModpackInstall.RestoredBesideLeftovers` | agent/internal/srv/backup.go:59-63 | runs that report the previous files restored and leave any staging leftovers live |
| `ConsoleRing.RetainedStep` | agent/internal/console/ring.go:44-58 | evicting at every append keeps what evicting once from the full history would keep |
| `ConsoleRing.RetainedIsLongest` | agent/internal/console/ring.go:53-56 | no longer suffix of the history fits both caps |
| `ConsoleRing.Evict` | agent/internal/console/ring.go:53-56 | drops from the front down to the longest suffix within both caps |
| `ConsoleRing.Above` | agent/internal/console/ring.go:76-81 | exactly the lines numbered above the given one |
| `ConsoleRing.Ring.Append` | agent/internal/console/ring.go:44-58 | extends the history by one numbered line and keeps the ring its longest fitting suffix |
| `ConsoleRing.Ring.Since` | agent/internal/console/ring.go:63-83 | exactly the retained lines after the given one, and a gap exactly when a line after it was evicted |
| `BootScanner.Scanner.Next` | agent/internal/srv/server.go:477-489 | the verdict of the first deciding visible line, and where the scan stands; it tells what the first visible line that holds "Done (" or the fatal text tells |
| `BootScanner.BatchVisible` | agent/internal/srv/server.go:477-489 | a poll sees all new lines if and only if they fit the ring |
| `BootScanner.ScanIsComplete` | agent/internal/srv/server.go:399-422 | with batches that fit, the first verdict is that of the full output |
| `BootScanner.VerdictMeans` | agent/internal/srv/server.go:320-345 | ready, failed and pending in terms of the two texts: the first line that holds either decides, and ready wins on a line with both |
| `BootScanner.ScanTells` | agent/internal/srv/server.go:466-490 | with batches that fit, polling tells what the full output tells |
| `BootScanner.ThirtyTwoLinesNeverMissed` | agent/internal/console/attach.go:14 | 32 lines of at most 8192 bytes between polls are never missed |
| `BootScanner.OverfullBatchLosesItsFirstLine` | agent/internal/console/ring.go:19-22 | a batch that does not fit loses lines, and the scan decides on what is left |
| `ConsolePump.PumpLines` | agent/internal/console/attach.go:78-89 | cuts the stream into maximal chunks and publishes each without its line end |
| `ConsolePump.ChunksUnique` | agent/internal/console/attach.go:78-89 | the cut is determined by the stream |
| `ConsolePump.NothingLost` | agent/internal/console/attach.go:69-77 | every byte that is no line end is published once and in order, in pieces of at most 8192 bytes |
| `ConsolePump.LinesComeBack` | agent/internal/console/attach.go:69-77 | lines that fit the buffer are published as they were written |
| `ConsoleHub.Subscriber.Receive` | agent/internal/console/hub.go:9-19 | takes the oldest buffered line |
| `ConsoleHub.Subscriber.TakeDropped` | agent/internal/console/hub.go:24-30 | reports the drops since the last call, keeping every offered line accounted for |
| `ConsoleHub.Hub.FanOut` | agent/internal/console/hub.go:67-77 | one line offered once to every subscriber; each buffers or counts it by its own buffer alone |
| `ConsoleHub.Hub.Publish` | agent/internal/console/hub.go:64-79 | one history line, then its fan-out |
| `ConsoleFeed.InvRun` | agent/internal/console/hub.go:62-79 | over every interleaving of publishers: no line is lost, invented or offered twice, and each publisher's lines keep their order |
| `ConsoleFeed.Subscribed` | agent/internal/console/hub.go:48-54 | a new subscriber starts in that invariant, whatever publishers are doing |
| `ConsoleFeed.OvertakesPending` | agent/internal/console/hub.go:64-79 | a line overtakes only lines that other publishers are about to send, at most one each |
| `ConsoleFeed.Quiescent` | agent/internal/console/hub.go:64-79 | with no publish under way exactly the lines since the subscription have been offered |
| `ConsoleFeed.ApartInOrder` | agent/internal/console/hub.go:64-79 | when no two publishes overlap, lines arrive in number order |
| `ConsoleFeed.Overtaken` | agent/internal/console/attach.go:66-67 | two overlapping publishes whose lines arrive the other way round |
| `InputLimiter.RateLimiter.Allow` | agent/internal/console/input.go:42-65 | one bucket step |
| `InputLimiter.Bounded` | agent/internal/console/input.go:42-65 | over any clock the tokens stay in [0, 10], and lines allowed plus tokens left are at most tokens held plus 5 per second forward |
| `InputLimiter.WindowBound` | agent/internal/console/input.go:16-20 | with a clock that does not go back, every window lets through at most 10 lines plus 5 per second between its own first and last call |
| `InputLimiter.PauseAllows` | agent/internal/console/input.go:42-65 | after any run, a line a fifth of a second after the last call is let through |
| `InputLimiter.SteadyPace` | agent/internal/console/input.go:42-65 | calls a fifth of a second apart are never refused |
| `InputLimiter.BurstIsTen` | agent/internal/console/input.go:12 | a full bucket lets exactly ten lines through at one instant |
| `Env.BuildEnv` | agent/internal/spec/env.go:39-93 | succeeds exactly when all kept entries are valid and the merged size is within the cap, with the sorted listing |
| `Env.ListingUnique` | agent/internal/spec/env.go:82-90 | the listing does not depend on map order |
| `Env.TotalRemove` | agent/internal/spec/env.go:46-80 | the size of an environment is the same in every order of counting |
| `Env.KeepDeclared` | agent/internal/spec/env.go:48-63 | keeps exactly the declared values, refuses an invalid one, sizes them exactly |
| `Env.AddInjected` | agent/internal/spec/env.go:67-76 | injected values win and the running size stays exact |
| `Env.EntrySays` | agent/internal/spec/env.go:95-112 | exactly which entries pass: key form, value size and characters, and the denied customer keys |
| `Env.AcceptedEntries` | agent/internal/spec/env.go:39-93 | every entry of an accepted listing is such an entry, injected or declared by the customer |
| `Env.AcceptedBytes` | agent/internal/spec/env.go:74-80 | an accepted listing takes at most 64 KiB |
| `Env.SplitEnvKV` | agent/internal/api/routes_create_server.go:495-502 | cuts at the first `=` |
| `Env.BuildEnvMap` | agent/internal/api/routes_create_server.go:474-493 | the listing split back is the declared values overridden by the injected ones |
| `Env.InstallAccepts` | agent/internal/spec/install.go:80-84 | the merged environment fed back as injected values is accepted unchanged |
| `RefreshSessions.InvNext` | apps/api/src/modules/auth/auth.service.ts:424-471 | every request keeps at most one usable session per family, chained to a used parent |
| `RefreshSessions.InvRun` | apps/api/src/modules/auth/auth.service.ts:417-423 | so does every run |
| `RefreshSessions.ReuseKills` | apps/api/src/modules/auth/auth.service.ts:432-435 | presenting a used or revoked token is refused and revokes its whole family |
| `RefreshSessions.DeadStays` | apps/api/src/modules/auth/auth.service.ts:570-574 | a revoked family stays revoked and refreshes nothing |
| `RefreshSessions.ReuseIsFinal` | apps/api/src/modules/auth/auth.service.ts:417-457 | after a reuse no token of the family refreshes at any later step of any run |
| `RefreshSessions.ExchangedOnce` | apps/api/src/modules/auth/auth.service.ts:446-451 | two refreshes with one token are never both granted |
| `RefreshSessions.GrantedIff` | apps/api/src/modules/auth/auth.service.ts:425-446 | a refresh is granted exactly to an active account whose row is unused, unrevoked and unexpired |
| `RefreshSessions.RotationWrites` | apps/api/src/modules/auth/auth.service.ts:446-451 | what a granted refresh writes, and that it writes nothing else |
| `RefreshSessions.NeverAfterExpiry` | apps/api/src/modules/auth/auth.service.ts:437-439 | over every run, no token is exchanged after the time it was issued until |
| `RefreshSessions.NeverAfterLogout` | apps/api/src/modules/auth/auth.service.ts:459-471 | over every run, no token is exchanged after a logout of its session or of its user everywhere |
| `RefreshSessions.UsableUntilEnded` | apps/api/src/modules/auth/auth.service.ts:424-471 | exactly which requests end a usable session |
| `RefreshSessions.FreshTokenIsGranted` | apps/api/src/modules/auth/auth.service.ts:424-457 | over every run, a token presented in time with nothing ending its session in between is exchanged |
| `RefreshSessions.AuthService.LogIn` | apps/api/src/modules/auth/auth.service.ts:593-613 | a login step, keeping the invariant |
| `RefreshSessions.AuthService.FindByHash` | apps/api/src/modules/auth/auth.service.ts:425-430 | finds a session that carries the presented hash, and none exactly when there is none |
| `RefreshSessions.AuthService.RevokeSessions` | apps/api/src/modules/auth/auth.service.ts:570-574 | afterwards exactly the sessions of the family are revoked in addition, nothing else changes |
| `RefreshSessions.AuthService.RefreshToken` | apps/api/src/modules/auth/auth.service.ts:424-457 | a refresh step, keeping the invariant; granted exactly to an active account with an unused, unrevoked, unexpired row of that hash |
| `RefreshSessions.AuthService.LogOut` | apps/api/src/modules/auth/auth.service.ts:464-468 | a logout step, keeping the invariant |
| `RefreshSessions.AuthService.LogOutAll` | apps/api/src/modules/auth/session-revocation.service.ts:38-48 | a revocation of every session of a user, keeping the invariant |

## Left out

- Invalid UTF-8: strings are rune sequences, or bytes where the console counts them.
- Container fields that are constants or come from the node alone and are never read back (capabilities, tmpfs, ulimits, health check).
- The port key syntax follows the Docker client library, whose source is not part of the repository.
- Glob matching, tar, gzip and hashing: an ignore set carries its matching function, an archive is a sequence of entries.
- Symbolic links, ownership, modes and I/O errors inside one file operation; of what makes an entry impossible to open only the path length is modelled.
- Sequence numbers of console lines do not wrap at 2^64.
- ConsoleHub.Hub.Publish: runs its two sections without another publisher in between; `ConsoleFeed` states the interleavings.
- Lifecycle.Server.Restart: takes its two sections without other steps in between; `Lifecycle.RestartStarts` states the interleavings.
- A closed descriptor number that the process reuses: closing or reading through a closed handle always fails.
- How a modpack's new tree is built (download, index, overrides): it is an arbitrary tree.
- RefreshSessions.AuthService.RefreshToken: each request is one atomic step, because the promise is about sequential requests; overlapping requests are not modelled.
- Files written by a running server while a backup walks its tree.
- Redis deny lists, audit records and access tokens around the session table.
- Floating-point rounding in the input limiter.
- `Manager.States` and the heartbeat, reconciliation of orphaned containers, transfers, HTTP and WebSocket handlers.
- The panel, billing, capacity, gateway and canary services.
