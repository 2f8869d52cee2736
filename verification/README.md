# lath, modelled and proved in Dafny

lath runs deploys as pipelines of steps, compiles a directory of Go functions into a command line
tool, and ships a kit of small packages for locks, secrets, supervision, manifests and output. This
project models the logic of those parts and proves what they promise, for every input and every run.

| file | what it models |
|---|---|
| `Wrappers.dfy`, `Text.dfy` | option and result values; decimal numerals; byte-wise sorting |
| `Pipeline.dfy` | the value bag and the wiring check |
| `Engine.dfy` | debuggers, the control wire, and the step loop with its replays |
| `RunLaws.dfy` | laws of every run: moves, outcomes, replays, provenance, acknowledged stepping |
| `Handover.dfy` | starting, probing and retiring containers, on top of the step loop |
| `HandoverExample.dfy` | a deploy pipeline that meets the handover's hypotheses and succeeds |
| `Lock.dfy` | the single-instance lock, as code for one process and as a protocol for many |
| `Shell.dfy` | printing an argv as a shell line, and a reader that undoes it |
| `CacheKey.dfy` | the byte streams fed to the cache-key hashes, and their decoding |
| `Replaces.dfy` | the bounded walk over local module replacements |
| `Dispatcher.dfy` | from exported functions to a nested switch, and what the switch does |
| `EditDistance.dfy` | the two-row distance table and verb suggestions |
| `Manifest.dfy` | rendering and parsing checksum manifests |
| `Streams.dfy` | line splitting and line prefixing of chunked output |
| `Supervise.dfy` | the restart loop and its backoff |
| `SecretSync.dfy` | reconciling credentials with a store that may fail |

`dafny verify dfyconfig.toml` checks the whole project.

## How the code is represented

* Code that changes state is a class or a loop: the value bag, both debuggers, the step loop, the
  lock file and a claim on it, the two distance rows, the walk's `seen` set, the writers, the docker
  client, the secret store, the restart loop. Each method is proved against a function or relation,
  and the promises are proved about those.
* A Go string is a `string` with one character per byte. `Manifest` and the import aliases of
  `Dispatcher` are the exceptions: there a character is a rune, because trimming and the alias loop are
  defined on runes.
* What a step does, whether the context has ended, what an operator answers, what docker, a store or
  a supervised function replies are parameters that may take any value. A run of the step loop takes
  a `World`: its `n`-th execution of step `i` may leave any bag and may fail. Steps keep their
  contract only where a lemma says so (`Honours`, `Functional`).
* Control streams, answer scripts and supervision scripts are finite, which is what makes the loops
  end. An endless session is covered through its finite beginnings.
* Map values are immutable, so a shallow snapshot restores everything a step could see.
* The liveness oracle of the lock is taken to be right, and records are distinct per attempt.

## Where the code and its comments part ways

The model follows the code.

* The comment on the local-replace walk promises every reachable directory. The walk turns back after
  four replace lines, marks a directory the first time it is met however deep, and does not mark the
  definition itself; `LongWayHidesModule` and `CycleHidesModule` are concrete graphs on which it
  misses a module. `ShallowIsComplete` is a condition on the replace lines under which it misses none.
  No condition on the set of lines can be exact: by `OrderDecides` the same lines in another order are
  covered. What is exact, `CompleteIffCutsAreClosed`, speaks of where the walk turned back.
* `Policy.Max` is documented as a cap on the delay; the first wait after a start or a healthy run is the
  backoff itself, even above the cap (`FirstWaitAboveCap`). No wait of any run exceeds the cap exactly
  when the backoff does not, or when one run is all the policy allows. Every wait of every run is the
  backoff doubled exactly when none of the doublings that the restart limit lets a run come to starts
  below the cap and at 2^62 ns or more; for all backoffs and waits, when the cap is at most 2^62 ns.
* The lock's steal is a read followed by a rename, and a release is a read followed by a removal. Other
  processes may move in between, and this need not do harm: the file names its live owner throughout a
  run exactly when each rename is taken while no other live attempt owns the file, and at most one
  recorded holder exists exactly when no rename and no removal is taken while another live attempt holds
  the lock. `TwoStealersBothHold` and `ReleaseRemovesAnother` are runs on which this fails; a steal that
  nobody overtakes, and a run without steals, never fails.
* A replayed pause keeps its number, so a decision typed ahead of a rerun can decide the replayed pause
  (`TypedAheadDecidesReplay`), although acks are documented to rule that out. A pause's number was used
  before exactly when it follows an accepted rerun.
* Container names are documented as unique to a release. Two releases of one definition share a name
  exactly when two of their stems, a process name with the commit behind it, are equal. Every definition
  keeps two commits apart exactly when they differ, neither is empty, and neither ends with a dash and
  the other; `DashedCommitCollides` is a valid definition that confuses `a-b` with `b`.
* Commands are matched without regard to case, but a namespace keeps the case of its directory, so a
  target in a directory with an upper-case letter cannot be reached (`CapitalHidesTarget`).
* Two namespaces whose names differ only in punctuation get one import alias, so that the generated file
  imports two packages under one name.
* `Report.Accounted` is documented to count the desired keys a report explains. It also counts names a
  prune failed to delete, and is exact only when there are none.
* `Hasher.AddString` frames its values; file contents are not framed. A file list shares its stream with
  another exactly when it has two files or more, or one whose content holds the frame of a path.

## Model

| member | source | states |
|---|---|---|
| Bag.State.Snapshot | pipeline/state.go:126-132 | the snapshot holds exactly the bag's entries at that moment |
| Wiring.Validate | pipeline/pipeline.go:36-73 | succeeds exactly on non-empty pipelines whose steps are configured, whose needs are given earlier and whose keys are given once; otherwise names the earliest fault, with its step, key and first provider |
| Wiring.UniqueProvider | pipeline/pipeline.go:64-70 | in a wired pipeline a key has one provider |
| Debugging.FirstMatch | pipeline/debug/server.go:81-96 | the obeyed control is the first that names this pause and carries a declared action |
| Debugging.Ask | pipeline/debug/server.go:65-97 | a pause takes what it reads off the wire, in order, and a decision costs at least one message |
| Debugging.AskSkipsStale | pipeline/debug/server.go:81-96 | stale controls and unknown actions do not end a pause: the first control that answers it does, however many precede it |
| Debugging.AskLostIff | pipeline/debug/server.go:65-91 | a pause on the wire fails exactly when it cannot be sent or no control on the stream answers it |
| Debugging.Server.Pause | pipeline/debug/server.go:65-97 | on what is queued: the first control with this pause's number and a declared action is obeyed, and only what follows it is left; controls before it are skipped; the debugger is lost exactly when the pause cannot be announced or no queued control answers it |
| Debugging.FakeDebugger.Pause | pipeline/fake.go:43-52 | the n-th pause gets the n-th scripted answer, and from the end of the script on an error |
| Engine.Advance | pipeline/pipeline.go:202-297 | every turn of the loop that goes on has used up an answer or moved to the next step |
| Engine.Drive | pipeline/pipeline.go:196-299 | the loop over the real bag and the real debugger ends with the outcome, bag and remaining answers of the step-by-step machine |
| Engine.Run | pipeline/pipeline.go:156-190 | nothing runs or changes unless the pipeline is wired, no listing was asked for and the plan could be announced; the fault reported is the first |
| RunLaws.RunsAreLawful | pipeline/pipeline.go:196-299 | in every run each execution follows from the one before, pauses follow every failure and, while stepping, every success but the last, and the result is what the last turn calls for; a run that ends right after an execution, failed or not, leaves the bag as that execution left it |
| RunLaws.IndexClimbs | pipeline/pipeline.go:202-297 | the executed index never goes back and never skips a step |
| RunLaws.NextTurn | pipeline/pipeline.go:264-280 | a step runs again only on an accepted rerun and from the bag it first saw; the next one starts only after a success; nothing follows an unretried failure |
| RunLaws.SuccessMeansEveryLastAttempt | pipeline/pipeline.go:196-299 | a run returns nil exactly when each step's last execution succeeded |
| RunLaws.SameStart | pipeline/state.go:126-137 | every execution of a step, replays included, starts from the same bag, whatever the step does |
| RunLaws.StartsFromComposition | pipeline/pipeline.go:212-280 | when successes are functions of the bag, that bag is what the earlier steps compose to |
| RunLaws.ReplaysPreserveMeaning | pipeline/pipeline.go:212-280 | a debugged run that returns nil leaves the bag the steps compose to, whatever failed attempts wrote |
| RunLaws.DebuggedEqualsPlain | pipeline/pipeline.go:212-280 | a debugged and an undebugged run that both return nil end in the same bag |
| RunLaws.PlainRunSucceeds | pipeline/pipeline.go:196-299 | without a debugger a run returns nil exactly when every execution it meets succeeds and the context lets it end |
| RunLaws.Provenance | pipeline/step.go:18-22 | a key given by an earlier step holds, at every execution, that step's latest successful write |
| RunLaws.NeedsArePresent | pipeline/errors.go:15-19 | in a wired pipeline no execution finds a needed key missing, and the value is its only provider's |
| RunLaws.WireConserved | pipeline/debug/server.go:81-96 | a socket-driven run reads the control stream once, in order, and every decision acks its pause |
| RunLaws.SteppingIsAcknowledged | pipeline/debug/protocol.go:96-108 | until a continue is accepted, a step starts only after a `next` that acks the pause before it |
| RunLaws.QueuedKeysCannotSkip | pipeline/debug/protocol.go:96-108 | controls queued for other pauses, later continues among them, never move a run past a pause nobody answers; the run is reported as abandoned |
| RunLaws.NumberReusedIffReplayed | pipeline/pipeline.go:252-280 | a pause has a number an earlier pause had exactly when it follows an accepted rerun |
| RunLaws.NoStaleDecisions | pipeline/debug/protocol.go:96-108 | in a run without replays no obeyed control acks an earlier pause |
| RunLaws.TypedAheadDecidesReplay | pipeline/debug/server.go:81-96 | a rerun and a next queued for one pause replay the step and move past it unseen |
| Handover.Itoa | steps/docker/container.go:707-719 | the digit buffer prints every non-negative int, and nothing for a negative one |
| Handover.NamesIdentifyReplicas | steps/docker/container.go:362-373 | equal container names of one release mean the same process name and replica |
| Handover.NamesIdentifyStems | steps/docker/container.go:360-373 | names, of one release or of two, are equal exactly for the same replica and the same process name with its commit |
| Handover.NamesIdentifyReleases | steps/docker/container.go:360-373 | with non-empty commits free of dashes that means the same process name, replica and commit |
| Handover.ReleasesShareIffStemsMeet | steps/docker/container.go:360-373 | for any two commits, the releases of one definition share a name exactly when a process name with one commit reads like a process name with the other |
| Handover.KeptApartIff | steps/docker/container.go:360-373 | every valid definition keeps two commits apart exactly when they differ, neither is empty, and neither ends with a dash and the other |
| Handover.ReleasesShareIffSameCommit | steps/docker/container.go:360-373 | with non-empty commits free of dashes two releases of one definition share a name exactly when the commits are the same |
| Handover.DashedCommitCollides | steps/docker/container.go:362-373 | a valid definition whose releases for two commits share a name |
| Handover.NameOrigin | steps/docker/container.go:293-297 | a release is exactly the replicas of its processes |
| Handover.RoutedOrigin | steps/docker/container.go:293-299 | the routed names are exactly the replicas of the routed processes |
| Handover.ReleaseNamesDistinct | steps/docker/container.go:266-281 | a validated start step never uses a name twice |
| Handover.ValidateStart | steps/docker/container.go:266-281 | accepts exactly the non-empty lists of valid, distinctly named processes |
| Handover.StartRun | steps/docker/container.go:283-339 | without an image fails before any command; otherwise runs every replica its process asks for, a scale below one meaning one, in order, clearing each name first under Replace, stops at the first refused run, and after all ran stores exactly those names, and those that take traffic, under the two keys; a rehearsal issues no command |
| Handover.ReleaseListsAll | steps/docker/container.go:86-91 | a release lists, process by process and number by number, the spelled-out name of every replica, and as many names as the scales add up to |
| Handover.RoutedListsAll | steps/docker/container.go:293-299 | the routed names are listed so too, for the processes that take traffic |
| Handover.StartIsSpelled | steps/docker/container.go:283-328 | the commit in the bag, or none when it is no text, is the one the stored names end with, and each stored name was run |
| Handover.PlainStartInOrder | steps/docker/container.go:290-321 | without Replace the commands are one run for each name, in order |
| Handover.ReplacingStartInOrder | steps/docker/container.go:353-358 | under Replace each run comes right after a stop and then a removal of its name |
| Handover.StartMeans | steps/docker/container.go:283-328 | a start touches only names of its release, stops nothing without Replace, and when it succeeds the whole release runs |
| Handover.WaitHealthyRun | steps/docker/container.go:600-632 | fails without a command when the bag lists no containers; otherwise probes them in order, up to the first bad answer, and succeeds only when there is none |
| Handover.WaitMeans | steps/docker/container.go:600-632 | a wait that succeeds had a good answer from every container in the bag |
| Handover.StopPreviousRun | steps/docker/container.go:487-557 | after the drain stops and removes each listed container outside the release, in order, up to the first refusal; nothing when the drain is cut short or in a rehearsal |
| Handover.StopInOrder | steps/docker/container.go:546-553 | each stale container is stopped, then removed, before the next |
| Handover.StaleInTwo | steps/docker/container.go:518-527 | what is stale keeps the order of the listing, less what the release names |
| Handover.StopMeans | steps/docker/container.go:487-557 | no container of the release is stopped or removed, and a success has stopped and removed all else that was listed |
| Handover.NothingStoppedNothingLost | steps/docker/container.go:437-441 | while nothing is stopped, what was running stays running |
| Handover.StopsOnlyAfterHealthy | steps/docker/container.go:487-557 | in every debugged run, a stop is the retiring step's, hits no container of the release and follows a successful wait on all of it; or it is a start's under Replace, and hits a name of the release being started |
| Handover.NoRetirementNoStops | pipeline/pipeline.go:149-155 | a run in which the retiring step never had its turn stopped nothing, names that Replace cleared aside |
| Handover.PreviousReleaseSurvives | pipeline/pipeline.go:147-155 | at every point of every run, either all that ran at first still runs, names that Replace cleared aside, or a whole release proved healthy before the first stop of the retiring step, and runs from then on |
| Handover.PlainHandover | pipeline/pipeline.go:147-155 | without Replace that is all that ran at first, and nothing at all was stopped before |
| Handover.ReleaseRuns | steps/docker/container.go:437-441 | the release a retirement keeps runs from the end of its start to the end of the run |
| Handover.SuccessLeavesOnlyRelease | steps/docker/container.go:511-555 | after a successful deploy the whole release runs, and of what was listed nothing else, unless a later step of the author's ran it again |
| HandoverExample.ExampleIsPlausible | pipeline/pipeline.go:147-155 | a four-step deploy meets every hypothesis of the handover, with Replace and without |
| HandoverExample.ExampleSucceeds | pipeline/pipeline.go:196-299 | and its undebugged run returns nil |
| Lock.StepKeepsRecord | kit/lock/lock.go:133-232 | each file operation of each process leaves the file naming its live owner exactly when it is no rename over another owner |
| Lock.RecordedIffClear | kit/lock/lock.go:133-232 | throughout any run, with crashes anywhere, the file names its live owner exactly when each rename was taken while no other live attempt owned the file |
| Lock.ExclusionIffHarmless | kit/lock/lock.go:133-232 | throughout any run at most one live attempt holds the lock, as recorded, exactly when no rename and no removal was taken while another held it |
| Lock.UndisturbedIsClear | kit/lock/lock.go:161-172 | a steal whose read and rename nobody comes between never renames over a live owner |
| Lock.LockExclusion | kit/lock/lock.go:133-232 | in every state of a run whose renames spare live owners at most one live attempt holds the lock, and the file is its record |
| Lock.ExclusionWithoutSteals | kit/lock/lock.go:151-159 | runs that never steal are exclusive under any interleaving |
| Lock.ReleaseRemovesOwnRecord | kit/lock/lock.go:214-232 | in runs whose renames spare live owners a release deletes only its own record |
| Lock.ReleaseRemovesAnother | kit/lock/lock.go:221-230 | a run in which every rename finds no live holder, and a release yet removes another holder's record, after which two hold the lock |
| Lock.FileIsWhole | kit/lock/lock.go:176-201 | the file is what it was at first, absent, or one attempt's whole record |
| Lock.StepKeepsExclusion | kit/lock/lock.go:203-230 | from an exclusive state a file operation keeps exclusion exactly when it is no rename or removal while another live attempt holds the lock |
| Lock.TwoStealersBothHold | kit/lock/lock.go:161-172 | a run in which two attempts judge one dead record and both hold the lock |
| Lock.JudgeSpelled | kit/lock/lock.go:161-171 | an attempt gives up on a record exactly when its process lives, or it is young and of another host |
| Lock.TryAcquire | kit/lock/lock.go:133-172 | one attempt takes the lock exactly when the file is absent, corrupt, dead and of this host, or dead and old, and its file operations work; it is refused as held exactly when the record is alive or young and foreign, and leaves the file alone unless it wins |
| Lock.Acquire | kit/lock/lock.go:109-130 | ends with the first attempt that wins or fails to write, or at a refusal without a wait or past the deadline, or when the context ends in a wait; and no sooner: every earlier attempt found a record to honour, before the deadline, with the context alive |
| Lock.Claim.Release | kit/lock/lock.go:214-232 | removes the file unless it has become another holder's, and does nothing the second time |
| Lock.UndisturbedRelease | kit/lock/lock.go:214-232 | the protocol's release, undisturbed, does to the file what the code does: removes it unless it records another |
| Lock.UndisturbedAttempt | kit/lock/lock.go:133-172 | the code's single attempt is a run of the protocol |
| Shell.CommandLine | kit/proc/option.go:201-209 | the builder writes the words in order, one space apart |
| Shell.RemoteCommand | kit/runner/runner.go:50-56 | the remote command is every word quoted, one space apart |
| Shell.CommandLineRoundTrip | kit/proc/option.go:193-220 | a shell reading the printed line recovers exactly the argv |
| Shell.SafeIsTakenAsItself | kit/proc/option.go:188-189 | the printer's safe set is the reader's own alphabet: characters the shell takes as themselves |
| Shell.RemoteRoundTrip | kit/runner/runner.go:45-57 | the remote shell recovers exactly the argv |
| Shell.PrintersAreInjective | kit/ssh/ssh.go:186-195 | different argvs never print alike |
| Shell.BareOnlyWhenSafe | kit/proc/option.go:212-220 | a word is left unquoted exactly when it is non-empty and all letters, digits and `@%+=:,./-_`, which is exactly when a shell reads it back unchanged |
| CacheKey.ReadBackFrames | cmd/lath/build.go:103-113 | path and length frames decode to the files they came from |
| CacheKey.PreimageInjective | cmd/lath/build.go:83-126 | equal streams mean equal version, toolchain, executable stamp, files and replace digest |
| CacheKey.PreimageSpelled | cmd/lath/build.go:83-126 | the stream, byte for byte: marker, version, toolchain, the stamp if there is one, the files, and the replace digest if there is one |
| CacheKey.FramesSpelled | cmd/lath/build.go:103-113 | each file is its path, a NUL, its length in decimal, a NUL and its content |
| CacheKey.WalkedIsNoMarker | cmd/lath/build.go:154-168 | no path the walks admit reads like a marker of the stream |
| CacheKey.KeptSpelled | cmd/lath/build.go:141-182 | for any path, by its directories and its name: kept are the names that end in .go, and go.mod and go.sum, in no directory that begins with a dot or an underscore; the generated file, and for replaced directories tests, testdata and vendor, are not |
| CacheKey.KeptMeaning | cmd/lath/build.go:141-182 | exactly the hashable files are kept, each as often as it was met |
| CacheKey.HashableFiles | cmd/lath/build.go:141-182 | the walk's filter keeps exactly those files, in order |
| CacheKey.Scan | cmd/lath/build.go:71-133 | succeeds exactly when there are files, all readable, and a replace digest; feeds the hash the stream of what it saw, and otherwise names the first file it cannot read |
| CacheKey.ScanIdentifiesInputs | cmd/lath/build.go:67-70 | scans that fed the same bytes saw the same environment, paths, contents and digest |
| CacheKey.WalkOrderForgotten | cmd/lath/build.go:79-81 | the filesystem's listing order does not reach the hash |
| CacheKey.HashDirInto | cmd/lath/replaces.go:189-240 | filters, sorts and writes the files of a replaced directory, or names the first it cannot read |
| CacheKey.WholePathsSortAlike | cmd/lath/replaces.go:223-238 | sorting whole paths is sorting the relative ones that are written |
| CacheKey.HashModules | cmd/lath/replaces.go:63-73 | the digest loop writes the framed stream of every replaced directory, or ends at the first unreadable one |
| CacheKey.ReplacesIdentifyInputs | cmd/lath/replaces.go:63-73 | digests over the same bytes saw the same directories, with the same counted files and contents |
| CacheKey.ModuleStreamInjective | cmd/lath/replaces.go:63-73 | equal module streams mean equal directories with equal files |
| CacheKey.ModuleStreamSpelled | cmd/lath/replaces.go:63-73 | each replaced directory is the marker, its path and its framed files |
| CacheKey.StringStreamInjective | kit/hashtree/hashtree.go:138-148 | equal key streams mean equal string lists, whatever bytes they hold |
| CacheKey.StringStreamSpelled | kit/hashtree/hashtree.go:138-148 | each value is its length in decimal, a NUL, the value and a NUL |
| CacheKey.PathFrameSpelled | kit/hashtree/hashtree.go:66-82 | before a file's content stands its path, marked as a file and framed |
| CacheKey.FilesCollideIff | kit/hashtree/hashtree.go:66-82 | another file list feeds the hash the same bytes exactly when the list has two files or more, or one whose content holds the frame of a path |
| CacheKey.FilesCanCollide | kit/hashtree/hashtree.go:66-82 | any two neighbouring files and one crafted file feed the hash the same bytes |
| CacheKey.Hasher.AddString | kit/hashtree/hashtree.go:54-59 | appends the framed values, or nothing once an error is held |
| CacheKey.Hasher.AddFile | kit/hashtree/hashtree.go:66-82 | feeds the framed path and what could be read of the content; the first error sticks, and later calls change nothing |
| ReplaceWalk.Walker.Walk | cmd/lath/replaces.go:79-99 | the recursive closure marks what the depth-bounded search marks |
| ReplaceWalk.LocalReplaceDirs | cmd/lath/replaces.go:77-110 | the result is sorted, without repetition, and holds exactly the marked directories |
| ReplaceWalk.WalkBounds | cmd/lath/replaces.go:31 | every direct replace is covered, and nothing more than four replace lines away |
| ReplaceWalk.VisitReads | cmd/lath/replaces.go:82-98 | a walk that succeeds could read the module file of every directory it marked and did not turn back at |
| ReplaceWalk.VisitSucceeds | cmd/lath/replaces.go:82-98 | it succeeds when every module file can be read; a directory without one counts as read |
| ReplaceWalk.CompleteIffCutsAreClosed | cmd/lath/replaces.go:82-85 | the result is the transitive closure exactly when no directory the depth guard stopped at leads to one that is missing |
| ReplaceWalk.OrderDecides | cmd/lath/replaces.go:90-98 | two graphs with the same replace lines in another order, one covered by the walk and the other not |
| ReplaceWalk.ShallowIsComplete | cmd/lath/replaces.go:77-110 | it is the closure when no simple path exceeds four replace lines and none returns to the definition |
| ReplaceWalk.LongWayHidesModule | cmd/lath/replaces.go:90-98 | a graph on which a module two replace lines away is missed |
| ReplaceWalk.CycleHidesModule | cmd/lath/replaces.go:90-98 | a graph with a cycle on the definition, all simple paths short, on which a module is missed |
| Dispatcher.Discover | cmd/lath/discover.go:189-221 | accepts exactly the non-empty sets of functions with distinct commands and no namespace that is also a root command; a duplicate is reported before a clash; the result is those targets, sorted |
| Dispatcher.LowerInPlace | cmd/lath/generate.go:293-301 | folds exactly the upper-case ASCII letters, in place |
| Dispatcher.Generate | cmd/lath/generate.go:337-378 | the switch is one case per target in the order of the targets, under its namespace, each namespace once, with its import alias, in the order it first appears |
| Dispatcher.NamespacesAreExact | cmd/lath/generate.go:367-375 | the groups are the namespaces of the targets, each once |
| Dispatcher.GroupsAreInhabited | cmd/lath/generate.go:367-377 | no group is empty |
| Dispatcher.GenerationIsStable | cmd/lath/generate.go:335-337 | the switch does not depend on the order in which the functions were found |
| Dispatcher.DispatchPreservesMeaning | cmd/lath/generate.go:192-219 | the switch runs a target exactly when argv names it, with exactly the remaining arguments, and everything else gets usage |
| Dispatcher.NamesUnique | cmd/lath/discover.go:191-219 | no argv names two accepted targets |
| Dispatcher.NamesIsTheCommand | cmd/lath/discover.go:309-312 | for words without spaces, naming a target is typing its command in any letter case |
| Dispatcher.ReachableIffLowerCase | cmd/lath/discover.go:309-312 | the generated switch can run a target exactly when it has no namespace or a lower-case one |
| Dispatcher.CapitalHidesTarget | cmd/lath/discover.go:309-312 | an accepted target that no argv can run |
| Dispatcher.NoDuplicateCase | cmd/lath/generate.go:193-218 | no two cases of one switch statement read alike, root words and group names included |
| Dispatcher.NamespaceAlias | cmd/lath/generate.go:396-408 | the alias keeps letters and digits and turns everything else into an underscore |
| Dispatcher.AliasesCollide | cmd/lath/generate.go:390-408 | two namespaces share an alias exactly when they differ, rune by rune, only in runes that are neither ASCII letters nor digits |
| Dispatcher.DashAndUnderscoreCollide | cmd/lath/generate.go:390-408 | two directories that share an alias |
| Dispatcher.ImportsDistinctIff | cmd/lath/generate.go:367-375 | the generated imports have distinct names exactly when no two namespaces share an alias |
| EditDistance.EditDistance | cmd/lath/main.go:419-437 | the two rolling rows end in the recursive distance |
| EditDistance.DistanceIsLeastCost | cmd/lath/main.go:416-418 | that distance is the least cost of any insert, delete and substitute script, and some script costs it |
| EditDistance.UnitCosts | cmd/lath/main.go:416-418 | one character changed, dropped or added costs one, and one kept nothing |
| EditDistance.DistanceSymmetric | cmd/lath/main.go:416-418 | the distance is symmetric |
| EditDistance.DistanceTriangle | cmd/lath/main.go:416-418 | the distance obeys the triangle inequality |
| EditDistance.DistanceZero | cmd/lath/main.go:416-418 | the distance is zero exactly between equal strings |
| EditDistance.ClosestVerb | cmd/lath/main.go:401-414 | suggests the first of the nearest verbs, none farther than a third of the length typed, one at least; and nothing exactly when every verb is farther |
| Manifest.Render | kit/checksum/checksum.go:100-106 | writes one line per entry |
| Manifest.RenderedSpelled | kit/checksum/checksum.go:100-106 | each entry is its digest, two spaces, its name and a newline |
| Manifest.Parse | kit/checksum/checksum.go:118-145 | the scanning loop returns the entries of the lines, or the first faulty line and its fault |
| Manifest.LineMeaning | kit/checksum/checksum.go:118-145 | what stands before the first space must be 64 hex digits, folded to lower case, and what follows, less blanks and one star, is the name; the faults come in the order separator, name, digest |
| Manifest.WordMeaning | kit/checksum/checksum.go:118-145 | a blank line is skipped and a line of one word is a fault |
| Manifest.LineByLine | kit/checksum/checksum.go:115-121 | a newline ends a line, less one carriage return |
| Manifest.TrimSpaceSpelled | kit/checksum/checksum.go:118-145 | trimming takes off Unicode white space and nothing else |
| Manifest.TrimSpaceEnds | kit/checksum/checksum.go:118-145 | and leaves none at either end |
| Manifest.OneEntryPerLine | kit/checksum/checksum.go:115-117 | an accepted text yields exactly one entry for each line that is not blank, in order |
| Manifest.LineRoundTrip | kit/checksum/checksum.go:120-139 | a printed line reads back exactly when its name is non-empty, untrimmed and not starred |
| Manifest.ManifestRoundTrip | kit/checksum/checksum.go:100-145 | a manifest reads back as its entries exactly when every name is such, and free of newlines |
| Manifest.ReparseIsStable | kit/checksum/checksum.go:100-145 | printing what was parsed and parsing again changes nothing, for such names |
| Streams.LineWriter.Write | pipeline/reporter.go:112-126 | emits the finished lines of buffer and input, keeps the unfinished one, and never holds a newline between writes |
| Streams.LineWriter.Flush | pipeline/reporter.go:130-135 | emits the unfinished line once |
| Streams.SplitIsExact | pipeline/reporter.go:97-106 | the split loses nothing and cuts at every newline, and no other split does both |
| Streams.OneShotLineByLine | pipeline/reporter.go:112-135 | a stream's lines are those between its newlines, one after the other, each less its trailing carriage returns |
| Streams.SplitLines | pipeline/reporter.go:112-135 | for every way of cutting a stream into writes the lines after a flush are those of the whole stream, and after a second flush the same |
| Streams.PrefixWriter.Write | kit/out/out.go:74-99 | makes one write for each piece of a line and one for each prefix, and reports its whole input exactly when the sink takes them all; when the sink fails, reports zero, having sent a beginning of the input so prefixed, or that and the next prefix, as its line state says |
| Streams.PrefixedInTwo | kit/out/out.go:59-63 | prefixing a stream in two parts is prefixing it whole |
| Streams.PrefixedLineByLine | kit/out/out.go:64-99 | a prefixed stream has the prefix before each line, the unfinished one too, and before nothing else |
| Streams.PrefixStream | kit/out/out.go:64-99 | for every way of cutting a stream into writes the bytes sent are the whole stream, prefixed, exactly when the sink takes every write this makes; otherwise a beginning of it |
| Streams.TotalCallsAtMost | kit/out/out.go:74-99 | that is at most two writes for each byte |
| Supervise.WithDefaults | kit/supervise/supervise.go:77-101 | unset fields take their defaults, one second, eight seconds, fifteen seconds and ten restarts, and any negative limit means none |
| Supervise.WaitsDouble | kit/supervise/supervise.go:198-203 | when the doublings before it fit, the n-th wait is the backoff doubled n times, capped, and does not overflow |
| Supervise.ClosedFormIffDoublingFits | kit/supervise/supervise.go:198-203 | the closed form holds up to the n-th wait exactly when no doubling before it starts below the cap and at 2^62 or more |
| Supervise.RunsAreIdealIff | kit/supervise/supervise.go:136-205 | every wait of every run of a policy is the closed form exactly when that holds of the doublings its restart limit lets a run come to |
| Supervise.CapHoldsIff | kit/supervise/supervise.go:55-58 | no wait exceeds the cap exactly when the backoff does not |
| Supervise.RunsKeepCapIff | kit/supervise/supervise.go:55-58 | no wait of any run exceeds the cap exactly when the backoff does not, or when the policy allows a single run |
| Supervise.FirstWaitAboveCap | kit/supervise/supervise.go:55-58 | a policy and a run whose first wait, and the wait after a healthy run, exceed the cap |
| Supervise.ClosedFormIffCapFits | kit/supervise/supervise.go:198-203 | the closed form holds for every backoff exactly when the cap is at most 2^62 |
| Supervise.RunLoop | kit/supervise/supervise.go:136-205 | every run but the last failed for now and was slept after; the end is fatal exactly when the last run failed for good, finished exactly when it succeeded, given up exactly when it failed for now at the limit, each with its context alive, and stopped otherwise; the last such failure is reported; totals every run's duration; each wait depends only on the failures since the last healthy run |
| Supervise.WaitsSinceHealthy | kit/supervise/supervise.go:176-181 | the count a wait depends on goes back to the last run that lasted long enough, or to the first |
| Supervise.Supervised | kit/supervise/supervise.go:136-205 | in every run a wait is the closed form whenever the doublings it took fit, and exceeds the cap only where the backoff itself does, first since a start or a healthy run |
| SecretSync.AlreadyCorrect | kit/secret/sync.go:154-166 | a value counts as correct only when the store could be asked and holds it |
| SecretSync.SyncDesired | kit/secret/sync.go:107-135 | settles the desired keys in sorted order, and writes exactly the keys it reports as set; reserved names are only skipped, and a value is kept only when the store confirmed it; stops before a key exactly when the context has ended by then, and has touched no later one |
| SecretSync.Prune | kit/secret/sync.go:170-195 | deletes exactly the unwanted, unreserved names whose deletion works, records the others, and touches nothing else |
| SecretSync.Sync | kit/secret/sync.go:70-149 | each error has exactly its cause; no reserved name is written, deleted or changed; once the writes are done a desired key is skipped exactly when reserved, kept exactly when the store confirmed its value, and otherwise set, or failed exactly when its write fails; a prune deletes exactly the unwanted names it can; the store is the desired values where set, empty where deleted and untouched elsewhere |
| SecretSync.ExactlyOneFate | kit/secret/store.go:112-117 | a desired key is in exactly one of set, unchanged, skipped and failed |
| SecretSync.AccountedCounts | kit/secret/store.go:130-134 | the count is that of the desired keys and of the failed names outside them |
| SecretSync.CountIsExactIff | kit/secret/store.go:130-134 | it is that of the desired keys exactly when the prune failed to delete nothing |
| SecretSync.DryRunPredicts | kit/secret/sync.go:30-31 | of two runs whose options differ only in the rehearsal, the rehearsal changes nothing and names exactly what the other sets or fails to set, keeps and skips, and what its prune deletes or fails to delete; without a prune neither deletes anything |

## Left out

- Processes, sockets, HTTP, ssh, docker and git themselves: they answer through parameters.
- SHA-256 and its truncation to twelve characters: the results are about the bytes fed to it.
- Lock.Claim.Release: an error of the removal itself is not modelled.
- Lock.Acquire: the clock is a flag per attempt, and what other processes do between attempts is given; each attempt is a new one of the protocol.
- Lock.LockExclusion: liveness is an oracle that is always right; process start times, zombies and `ps` are not modelled.
- Handover.WaitHealthyRun: how one container is judged (healthcheck, restarts, settling time) is one answer of the daemon.
- Handover.StartRun: the other `docker run` options are not modelled, and a failed command leaves the set of running containers as it was.
- Dispatcher.Discover: parsing Go files and classifying signatures come before it; function names are folded as ASCII, and file names and descriptions are dropped.
- Dispatcher.Generate: the template's text, the debug-session flags and the import list are not modelled; the switch is a value and its execution is a function.
- CacheKey.Scan: directory traversal is a list of slash-separated file paths; text fields are assumed free of NUL where a lemma says so.
- Manifest.Parse: the scanner's limit of 64 KiB per line is not modelled.
- EditDistance.ClosestVerb: lower-casing the input is done by the caller, which also passes its byte length.
- Engine.Drive: reporters, timings, the displayed state and the replayable flag shown at a pause are not modelled, nor are values that a step edits in place after storing them.
- SecretSync.Sync: progress events are not modelled, a failed operation leaves the store as it was, and comparison and deletion fail or not per key.
- Supervise.RunLoop: progress lines and the wording that sets Loop apart from Retry are not modelled.
- `hashtree.AddTree`, `remotefs`, the terminal panel, help text, scaffolding, listings, and the `cloudflare`, `github`, `caddy`, `certs`, `brew` and `download` steps: rendering or thin wrappers.
