# Verified models of Triage Factory's supervision, bridge and deployment protocols

This project models five parts of Triage Factory in Dafny and proves what they
promise.

- **The cap-broker** (`cmd/capbroker`). `BrokerRegistry` is the server's shared
  state: the launch semaphore and the run registry, as values and as the
  classes `Server` and `RunEntry`. `BrokerProtocol` is a step relation over
  that state and one program counter per call and per supervising goroutine,
  so a run is any interleaving of launches, captures, waits, kills, sidecar
  launches, process exits and shutdown. `BrokerSlots`, `BrokerRecords`,
  `BrokerReachability` and `BrokerSidecars` prove invariants over every run,
  and `BrokerCalls` what each call comes to.
  `CaptureClient` is the client's streamed capture, two threads over two
  channels. `Frames` is the length-prefixed frame codec.
- **The git bridge** (`cmd/gitssh`). `PktLine`, `GitFetch`, `GitPush` and
  `RemotePath` read git's byte streams exactly as the bridge does, over
  `ByteStrings`, which holds the few functions of Go's strings package it
  uses. Every statement is about all byte strings of unbounded length. The
  formats are those of "pkt-line Format" in gitprotocol-common,
  "Packet-Line Framing" in gitprotocol-v2 and "Reference Update Request and
  Packfile Transfer" in gitprotocol-pack.
- **The deployment lifecycle** (`cmd/deploy`). `DrainProtocol` is an executor
  learning of a drain through heartbeats, `DrainWait` the upgrade's wait,
  `DrainExecutors` the drain and its compensation. `Rendering` and
  `DeployDirectory` are the directory and its atomic writes, `Releases` the
  order of versions, `Lifecycle` whole command histories, `EnvFill` the fill of
  `.env`.
- **The credential sidecar** (`cmd/runsidecar`). `SidecarRuntime` is the class
  whose lanes are fixed at start while its bundle changes.
- **The Slack channel list** (`ee/slack`). `ChannelOrder` is the comparator, the
  uniqueness of the sorted list and paging; `ChannelMerge` the merge of the
  three sources and the filter.

Code that computes values is modelled by functions; code that changes state by
classes and methods with loops, each proved against a function whose own
properties are lemmas. What the outside does (a process exit, a docker call, a
lost answer, a write that fails) is an outcome the model carries, free to turn
out either way.

## What does not hold as promised

Six promises are false as they stand. The model follows the code; a lemma gives
an input on which the promise fails, and another the exact condition under
which it holds.

- **Sidecars are always reachable** (`cmd/capbroker/sidecarlaunch_linux.go`).
  Launch validation refuses a sidecar id without the `-sc` suffix, but not a
  run id with it. `BrokerSidecars.CoverageStep`: a step keeps every live
  sidecar accounted for if and only if it does not register a jail over a live
  sidecar's entry. `RunIdStrandsASidecar` is a run that does;
  `SidecarsNeverStranded` covers every run whose run ids lack the suffix.
- **A push that sends objects is posted whole** (`cmd/gitssh/bridge.go`). The
  three-field test uses `strings.Fields`, which splits at Unicode spaces git
  allows in ref names. `GitPush.PackPostedExactlyWhen`: the pack is posted if
  and only if some update that sends objects has a ref of one field.
  `NoBreakSpaceHidesAnUpdate` is a ref with U+00A0.
- **Every spelling of a repository gives the same pair**
  (`cmd/gitssh/bridge.go`). One `.git` is always stripped, so a repository
  whose own name ends in `.git` is misread when spelled without the suffix.
  `RemotePath.SpellingsAgree` and `CommandNamesTheRepository` are the
  if-and-only-if.
- **None in flight means nothing starts** (`cmd/deploy/upgrade.go`). The
  dispatcher checks the drain and takes its slot in two steps.
  `DrainProtocol.NeverRunsAgainExactly`: an executor that knows it is draining
  starts nothing more if and only if it holds no slot and its dispatcher is
  not between the two. `SettledZeroThenARun` is a settled count of zero
  followed by a run; `SettledZeroIsFinal` covers every other.
- **An interrupted drain leaves the stack as it was** (`cmd/deploy/upgrade.go`).
  A drain whose answer is lost takes effect, is reported failed and is not
  undone. `DrainExecutors.DrainAll`: the registry is restored if and only if
  every drain that took effect was reported and its undrain took effect.
  `LostAnswerLeavesADrain` is the input.
- **A fill leaves every needed key set** (`cmd/deploy/env.go`). A client id of
  two quotes passes validation and reads back empty.
  `EnvFill.FillIsComplete`: every needed key is there afterwards if and only if
  every input added is non-empty once space and quotes are stripped.
  `QuotesReadBackEmpty` is the input.

In `cmd/gitssh/pktline.go:54-56` and `cmd/capbroker/protocol.go:105-107` a
stream that ends right behind a complete length field yields an error that
still satisfies `errors.Is(io.EOF)`. The models keep that
(`PktLine.WrappedEof`, `Frames.CleanCloseExactly`), and no statement tells that
truncation from a clean close.

## Model

| member | source | states |
|---|---|---|
| BrokerRegistry.Server.AcquireLaunchSlot | cmd/capbroker/server.go:116-125 | takes exactly one slot when there is room and none when the call ended or the broker is closing; nothing else changes |
| BrokerRegistry.Server.ReleaseLaunchSlot | cmd/capbroker/server.go:128-135 | gives one slot back, and on an empty semaphore does nothing |
| BrokerRegistry.Server.Lookup | cmd/capbroker/runlaunch_linux.go:238-244 | returns the entry registered under the id now, or none |
| BrokerRegistry.Server.Register | cmd/capbroker/runlaunch_linux.go:194-200 | the entry is registered under its id, over any predecessor; other ids keep theirs |
| BrokerRegistry.Server.RegisterSidecar | cmd/capbroker/sidecarlaunch_linux.go:142-155 | never replaces a registered entry, and reports whether the id was free |
| BrokerRegistry.Server.ForgetRun | cmd/capbroker/runlaunch_linux.go:271-277 | removes the id exactly when it still names this very entry |
| BrokerRegistry.Server.Shutdown | cmd/capbroker/server.go:167-188 | closes once; only the first call finds the server open |
| BrokerRegistry.RunEntry.RecordJail | cmd/capbroker/runlaunch_linux.go:219-228 | publishes all four exit fields of a jail before done |
| BrokerRegistry.RunEntry.RecordSidecar | cmd/capbroker/sidecarlaunch_linux.go:157-162 | publishes a sidecar's exit before done, with no oom or actuals |
| BrokerSlots.SlotsConservedByStep | cmd/capbroker/runlaunch_linux.go:102-231 | every step keeps used slots equal to launches in setup plus captures running plus jails whose supervisor has not released, within the cap |
| BrokerSlots.BundlesConservedByStep | cmd/capbroker/runlaunch_linux.go:148-231 | every step keeps each bundle owed by exactly one owner or removed exactly once |
| BrokerSlots.RunsConserve | cmd/capbroker/runlaunch_linux.go:102-231 | both hold in every state of every interleaving, and the cap never changes |
| BrokerSlots.ReleaseAlwaysFindsASlot | cmd/capbroker/server.go:128-135 | in every run a statement that releases finds a slot to take: the "never happens" branch is unreachable |
| BrokerSlots.QuiescentBrokerHoldsNothing | cmd/capbroker/runcapture_linux.go:42-45 | once every thread has returned no slot is used and every bundle was removed exactly once |
| BrokerRecords.KeptByStep | cmd/capbroker/runlaunch_linux.go:206-228 | every step keeps one writer per exit record, and a record whose done is closed complete |
| BrokerRecords.DoneIsFinal | cmd/capbroker/runlaunch_linux.go:219-228 | once done is closed no step changes anything in the record |
| BrokerRecords.RunsRecord | cmd/capbroker/runlaunch_linux.go:194-277 | the record invariants hold in every state of every run |
| BrokerRecords.WaitReportsTheWholeExit | cmd/capbroker/runlaunch_linux.go:233-264 | what a wait returned is the full report of its child's exit, never part of one |
| BrokerReachability.BindsByLookup | cmd/capbroker/runlaunch_linux.go:238-244 | a call is bound to an entry only by a step at which the id named that entry |
| BrokerReachability.WaitReturnsTheEntryItFound | cmd/capbroker/runlaunch_linux.go:238-264 | the entry a wait reports is the one registered under its id when it looked |
| BrokerReachability.EntryLeavesOnlyBy | cmd/capbroker/runlaunch_linux.go:266-277 | an entry leaves the registry only by its own wait's forget or a run relaunched over it; no sidecar launch replaces one |
| BrokerReachability.SuccessorStaysReachable | cmd/capbroker/runlaunch_linux.go:266-277 | a relaunched entry stays registered through any steps of others, until its own wait or a later relaunch |
| BrokerReachability.OnlyTheEntryItFound | cmd/capbroker/sidecarrun_linux.go:78-96 | while nothing is launched under the id, the id names at most the entry the waiter found, and not once it forgot |
| BrokerReachability.DrainFreesTheId | cmd/capbroker/runlaunch_linux.go:252-277 | once a wait under the id has returned an exit status, with no launch since its lookup, the id is free |
| BrokerCalls.KillKills | cmd/capbroker/runlaunch_linux.go:279-291 | in every run a kill that returned looked its id up once; the process the id named then has been signalled, and if it named none no process changed |
| BrokerCalls.SignalStep | cmd/capbroker/runlaunch_linux.go:289-290 | the signal marks exactly the looked-up process and changes nothing else of any process |
| BrokerCalls.KilledAndDrained | cmd/capbroker/sidecarrun_linux.go:78-96 | after a kill and a wait of the same entry both returned, with no launch in between, the process was signalled and reaped and the id is free |
| BrokerCalls.WaitRefusedOnlyBy | cmd/capbroker/runlaunch_linux.go:238-250 | a wait is refused only if its id named nothing at its lookup or the broker closed before done |
| BrokerCalls.LaunchComesTo | cmd/capbroker/runlaunch_linux.go:102-231 | a launch that answered well had registered a jail it started under its id; a refused one had a stage fail |
| BrokerCalls.FailedStageRefuses | cmd/capbroker/runlaunch_linux.go:102-192 | a launch one of whose stages failed is refused and registers nothing after |
| BrokerCalls.SidecarComesTo | cmd/capbroker/sidecarlaunch_linux.go:93-165 | a sidecar launch that answered well had registered its process under a free id; a refused one had a stage fail or found the id taken |
| BrokerCalls.TakenIdRefuses | cmd/capbroker/sidecarlaunch_linux.go:102-153 | a sidecar launch that finds its id taken at either check, or fails a stage, is refused |
| BrokerCalls.CaptureComesTo | cmd/capbroker/runcapture_linux.go:30-45 | a capture that answered well had taken a slot; a refused one had a stage fail |
| BrokerCalls.CaptureRefused | cmd/capbroker/runcapture_linux.go:30-45 | a capture that fails validation or gets no slot is refused at once and takes none |
| BrokerSidecars.CoverageStep | cmd/capbroker/sidecarlaunch_linux.go:102-165 | a step keeps every live sidecar held, registered or killed with a reaper if and only if it does not register a jail over one |
| BrokerSidecars.StrandingUncovers | cmd/capbroker/runlaunch_linux.go:194-200 | registering a jail over a live sidecar's entry leaves that sidecar unaccounted for |
| BrokerSidecars.RunsStaySound | cmd/capbroker/sidecarlaunch_linux.go:102-165 | in every run a losing launch has signalled its process and no entry names a process still in a launching call's hands |
| BrokerSidecars.SidecarsNeverStranded | cmd/capbroker/sidecarlaunch_linux.go:102-165 | in every run whose run ids lack the sidecar suffix every live sidecar is accounted for |
| BrokerSidecars.RunIdStrandsASidecar | internal/sandbox/launchspec_linux.go:529-635 | a concrete run in which a run id with the suffix leaves a sidecar unreachable |
| CaptureClient.RunsKeepInv | cmd/capbroker/ipc.go:261-337 | the invariant tying both threads, both channels, the listener and the connection holds in every interleaving |
| CaptureClient.ManifestNeedsBothSignals | cmd/capbroker/ipc.go:307-337 | manifest bytes are returned only after the RPC succeeded and the stream ended without error, and are those the stream carried |
| CaptureClient.InTimeTheStreamDecides | cmd/capbroker/ipc.go:328-337 | with time left, a finished run whose RPC succeeded returns the manifest exactly when the stream ended without error |
| CaptureClient.TakenStreamIsReturned | cmd/capbroker/ipc.go:328-333 | a caller that takes a clean stream result returns that manifest |
| CaptureClient.NoSendBlocks | cmd/capbroker/ipc.go:278-305 | each channel gets at most one value and a send is always possible when the reader comes to it |
| CaptureClient.RunsAreShort | cmd/capbroker/ipc.go:261-337 | every run ends: no interleaving has more than eleven steps |
| CaptureClient.StuckMeansClean | cmd/capbroker/ipc.go:261-337 | a run that can go no further has both threads finished, each channel sent to exactly once, listener and connection closed |
| CaptureClient.FailurePathNeverWaits | cmd/capbroker/ipc.go:309-326 | the failure path's receive finds its value or a reader that still sends it |
| CaptureClient.FailureEndsTheRead | cmd/capbroker/ipc.go:310-325 | a caller that returned after a failed RPC has closed any accepted connection, so no read can go on to a stream |
| CaptureClient.AcceptedConnIsClosed | cmd/capbroker/ipc.go:294-326 | in every finished run an accepted connection was closed |
| Frames.WriteFrame | cmd/capbroker/protocol.go:68-87 | appends exactly the encoding of a body within the cap, and nothing for one beyond it |
| Frames.ReadFrame | cmd/capbroker/protocol.go:92-112 | consumes and returns what decoding the stream gives, for every stream |
| Frames.RoundTrip | cmd/capbroker/protocol.go:68-112 | a frame within the cap reads back with the remainder untouched |
| Frames.OnlyEncodingsDecode | cmd/capbroker/protocol.go:92-112 | whatever decodes is the encoding of the body returned, followed by the rest |
| Frames.ManyRoundTrip | cmd/capbroker/protocol.go:68-112 | any sequence of frames written back to back reads back as the same bodies in order |
| Frames.CutNeverReads | cmd/capbroker/protocol.go:92-112 | a frame cut anywhere is never read as a frame |
| Frames.SidesRefuseAlike | cmd/capbroker/protocol.go:68-112 | the writer refuses exactly the lengths the reader refuses |
| Frames.CleanCloseExactly | cmd/capbroker/protocol.go:92-112 | a bare end of stream is returned exactly on an empty stream |
| PktLine.PacketReadsBack | cmd/gitssh/pktline.go:30-60 | a packet is read off the front whatever follows it |
| PktLine.WrittenPacketReads | cmd/gitssh/pktline.go:38-60 | four hexadecimal digits of the length plus four, in any mix of cases, and a payload of up to 65531 bytes are read as one packet with that payload, whatever follows |
| PktLine.OnlyWrittenPackets | cmd/gitssh/pktline.go:30-60 | nothing is read as a packet but 0000, 0001, 0002 and what git writes for a payload |
| PktLine.ControlPackets | cmd/gitssh/pktline.go:42-51 | 0000, 0001 and 0002 are packets without payload, 0000 alone is the flush, 0003 is refused |
| PktLine.OtherFieldsRefused | cmd/gitssh/pktline.go:38-41 | a length field with a character that is no hexadecimal digit is refused |
| PktLine.CutPacketStops | cmd/gitssh/pktline.go:30-60 | a written packet cut anywhere is never read; nothing, or a bare length field, counts as an end of stream |
| PktLine.BlockReadsBack | cmd/gitssh/pktline.go:68-80 | packets ended by a flush read back as one block, with delim and response-end packets inside it |
| PktLine.CutBlockIsNone | cmd/gitssh/pktline.go:68-80 | a block whose stream stops before its flush yields no block |
| PktLine.BlocksDecompose | cmd/gitssh/pktline.go:68-80 | every block read is whole packets, none of them a flush, and a flush |
| PktLine.PktReader.ReadRawBlock | cmd/gitssh/pktline.go:68-80 | the loop consumes exactly one block, byte for byte |
| PktLine.PktReader.ReadRequestBlock | cmd/gitssh/pktline.go:85-97 | a block that is only its flush ends the requests; any other is returned whole |
| GitFetch.BridgeFetch | cmd/gitssh/bridge.go:148-176 | the POST bodies are the session's blocks in order, up to the first unanswered one, and git reads the answers in order |
| GitFetch.RequestsAreGitsBlocks | cmd/gitssh/bridge.go:148-176 | for every list of command blocks git writes, the requests are those blocks byte for byte and then those of what follows |
| GitFetch.SessionEndedByFlush | cmd/gitssh/bridge.go:148-176 | a bare flush ends the session and nothing behind it is read |
| GitFetch.SessionCutShort | cmd/gitssh/bridge.go:148-176 | an incomplete trailing block is never posted |
| GitFetch.EveryStreamSplits | cmd/gitssh/bridge.go:148-176 | for every stream at all the requests are a prefix of it cut into flush-ended command blocks |
| GitFetch.FirstAdvertisedPacket | cmd/gitssh/pktline.go:105-121 | skips one service packet and its flush and returns the packet behind, or fails exactly when there is none |
| GitFetch.RelayAdvertisement | cmd/gitssh/bridge.go:183-217 | git reads the advertisement behind that header, unless its version was not the one asked for |
| GitFetch.AdvertisementIsASuffix | cmd/gitssh/bridge.go:183-217 | what git reads is the body minus at most one leading service packet and its flush |
| GitFetch.HeaderMakesNoDifference | cmd/gitssh/pktline.go:105-121 | a server that sends the header and one that omits it look the same to git |
| GitFetch.RelayInGitsTerms | cmd/gitssh/bridge.go:183-217 | on the literal texts "# service=", "0000" and "version 2": what git reads, with the header and without |
| GitPush.InspectLine | cmd/gitssh/bridge.go:282-318 | decides of one command line whether it brings a pack and which capabilities it lists |
| GitPush.ReadPushCommands | cmd/gitssh/bridge.go:282-318 | reads exactly the command block, with the verdict of all its lines |
| GitPush.BridgePush | cmd/gitssh/bridge.go:102-136 | posts what the specification of the push says, for every stream |
| GitPush.PostIsAPrefix | cmd/gitssh/bridge.go:102-136 | what is posted is a prefix of git's stream and the rest is left unread |
| GitPush.UpdateSeenExactly | cmd/gitssh/bridge.go:282-318 | an update counts as sending objects exactly when some digit of its new id is not 0 and its ref is one field |
| GitPush.DeletionNeverSeen | cmd/gitssh/pktline.go:123-136 | an update whose new id is all zero digits, of any width, is never seen |
| GitPush.ShallowNeverSeen | cmd/gitssh/bridge.go:282-318 | a shallow line never counts as sending objects |
| GitPush.ScanReadsTheLines | cmd/gitssh/bridge.go:282-318 | for every list of lines the scan gives the block, the capabilities sent and whether a line was seen to send objects |
| GitPush.PushPostsExactly | cmd/gitssh/bridge.go:102-136 | the POST is the whole stream, or the prefix through the command flush and the push options, with nothing consumed beyond |
| GitPush.PackPostedExactlyWhen | cmd/gitssh/bridge.go:102-136 | a push that sends objects is posted whole if and only if one such update has a ref of one field |
| GitPush.SolidRefsArePosted | cmd/gitssh/bridge.go:102-136 | with refs free of white space, whole if some new id has a digit other than 0 and otherwise exactly that prefix |
| GitPush.PushOptionsAgreed | cmd/gitssh/bridge.go:319-328 | push options are agreed on exactly when a word of the list is push-options or starts with push-options= |
| GitPush.PushInGitsTerms | cmd/gitssh/bridge.go:102-136 | the whole push on written packets, capability words and id digits: whole, or the commands and the agreed options and nothing beyond |
| GitPush.NoBreakSpaceHidesAnUpdate | cmd/gitssh/bridge.go:282-318 | an update of a ref holding U+00A0 is not seen |
| ByteStrings.SpaceLenExactly | cmd/gitssh/bridge.go:305 | for every code point, in its UTF-8 form and whatever follows, white space is what Unicode's White_Space property says |
| RemotePath.CopyQuoted | cmd/gitssh/bridge.go:389-396 | copies up to the first closing quote, or the end |
| RemotePath.UnquotePath | cmd/gitssh/bridge.go:382-412 | the loop computes the shell's reading of every byte string, both errors included |
| RemotePath.UnquoteQuote | cmd/gitssh/bridge.go:379-412 | unquoting git's quoting of any byte string gives it back, whatever else is escaped |
| RemotePath.SpellingsAgree | cmd/gitssh/bridge.go:359-377 | every leading-slash, trailing-slash and ".git" spelling gives the pair if and only if it does not leave the repository's own ".git" bare |
| RemotePath.OnlySpellingsSplit | cmd/gitssh/bridge.go:370-377 | nothing but a spelling of the returned pair is accepted, and both segments are admissible to the proxy |
| RemotePath.SegmentRule | internal/proxy/gitproxy/gate.go:96-111 | a segment is admissible exactly when it is not empty, holds only letters, digits, dot, underscore and dash, and no two dots in a row |
| RemotePath.CommandNamesTheRepository | cmd/gitssh/bridge.go:345-357 | through the whole command, with any spaces, quoting and spelling, service and repository come out right under the same condition |
| DrainProtocol.InvOnRuns | internal/delegate/instance_heartbeat.go:155-242 | over every interleaving of operator, heartbeat, dispatcher and runs, a heartbeat a whole gap after the drain carries a count sampled after the executor knew |
| DrainProtocol.LearnsWhatLanded | internal/delegate/instance_heartbeat.go:228-241 | a heartbeat teaches the executor exactly the drain its row held when it landed |
| DrainProtocol.UndrainedKeepsClaiming | internal/delegate/dispatch.go:436-443 | an executor nobody drains never takes itself to be draining, over every interleaving |
| DrainProtocol.QuietForever | internal/delegate/dispatch.go:401-496 | an executor that knows, holds no slot and has no passed check stays so until an undrain or restart |
| DrainProtocol.NeverRunsAgainExactly | internal/delegate/dispatch.go:436-460 | an executor that knows it is draining never runs again if and only if it holds no slot and its dispatcher is not past its check |
| DrainProtocol.SettledZeroIsFinal | cmd/deploy/upgrade.go:33-40 | a count of zero from a heartbeat a gap after the drain is final, unless the dispatcher stood past its check at the sample |
| DrainProtocol.SettledZeroThenARun | internal/delegate/dispatch.go:436-460 | a run with a settled count of zero after which a run still starts |
| DrainWait.Judge | cmd/deploy/upgrade.go:468-482 | both totals are zero if and only if every live waited-on executor has a settled count of zero |
| DrainWait.WaitForRuns | cmd/deploy/upgrade.go:454-503 | "none in flight" is reported if and only if the first poll that decides anything is clear: every waited-on row no older than 30 seconds says zero, from a heartbeat 10 seconds after the drain |
| DrainWait.SinceDrainIsALowerBound | cmd/instance/instance.go:140-146 | the computed time since the drain never exceeds the time from the drain to the heartbeat's stamp, with the age clamped at zero or not |
| DrainWait.NoneInFlightIsFinal | cmd/deploy/upgrade.go:448-486 | "none in flight" holds of each executor it was said about and stays so, with heartbeats and clock skew within the settling time |
| DrainExecutors.DrainFirst | cmd/deploy/upgrade.go:386-401 | drains exactly the members reached that were not draining, and remembers those reported drained |
| DrainExecutors.UndoDrain | cmd/deploy/upgrade.go:431-446 | undrains each given executor once, in order, and names exactly those that answered with an error |
| DrainExecutors.DrainAll | cmd/deploy/upgrade.go:358-426 | the calls made for every interruption point; with none, no undrain; interrupted, the registry is restored if and only if every drain that took effect was reported and undone |
| DrainExecutors.CallsExactly | cmd/deploy/upgrade.go:358-446 | each executor is drained once if reached and not draining, undrained once if that succeeded, and otherwise never called |
| DrainExecutors.LostAnswerLeavesADrain | cmd/deploy/upgrade.go:395-399 | a drain that took effect and reported failure is left behind |
| Rendering.PrefixOfPlan | cmd/deploy/upgrade.go:251-268 | after any prefix of a re-render, each path holds what its own operation put there, and other paths are untouched |
| Rendering.WholePlan | cmd/deploy/upgrade.go:251-268 | a finished re-render leaves the new bundle, none of the dropped files, everything else as it was, and the new state |
| Rendering.StoppedNamesTheOldVersion | cmd/deploy/upgrade.go:224-229 | stopped before its last operation, the state still names the old version |
| Rendering.NewVersionMeansWritten | cmd/deploy/upgrade.go:251-254 | a state naming the new version implies every recorded hash matches the file on disk |
| Rendering.InterruptedThenFinished | cmd/deploy/upgrade.go:251-268 | any number of interrupted attempts in any orders, then a finished one, leave exactly what one uninterrupted run would |
| DeployDirectory.Directory.WriteBundleFiles | cmd/deploy/init.go:355-366 | writes the files in order until one fails |
| DeployDirectory.Directory.WriteRendered | cmd/deploy/upgrade.go:251-268 | performs exactly the plan's operations up to the failing one, the state last |
| DeployDirectory.Directory.ChangedFiles | cmd/deploy/bundle.go:242-255 | lists exactly the recorded files that differ or are gone; both lists are empty if and only if every hash matches |
| DeployDirectory.Directory.TakeBack | cmd/deploy/init.go:329-342 | removes everything under the names a first init writes and nothing else, or the directory it created |
| DeployDirectory.Directory.WriteDeployment | cmd/deploy/init.go:323-351 | writes everything, or leaves what was there outside the names it would have written |
| DeployDirectory.BundleWritten | cmd/deploy/init.go:355-378 | any part of the bundle changes nothing outside the bundle's top-level names; all of it overlays the directory |
| DeployDirectory.FirstSegment | cmd/deploy/init.go:371-378 | a top-level name is what stands before the first slash |
| Releases.ComparePreorder | cmd/deploy/up.go:226-233 | a total preorder on releases: comparable exactly when both are releases, antisymmetric, transitive |
| Releases.CompareWritten | cmd/deploy/up.go:224-233 | written releases compare 1 exactly when the first of major, minor and patch to differ is larger, 0 when all agree, -1 otherwise |
| Releases.NewerIsLater | cmd/deploy/upgrade.go:102-110 | newer means later by those numbers, for every pair of version strings |
| Releases.WrittenReleaseParses | cmd/deploy/up.go:235-248 | digits decide the release whatever their leading zeros, and only a number beyond an int refuses it |
| Releases.OnlyWrittenReleasesParse | cmd/deploy/bundle.go:41-43 | nothing but v and three dotted runs of digits is a release |
| Releases.ReleaseRoundTrip | cmd/deploy/up.go:235-248 | numbers written out parse back to themselves, up to the largest 64-bit int and no further |
| Lifecycle.RunInit | cmd/deploy/init.go:46-147 | does on the directory what the model's init step does: nothing on a rendered or non-empty one |
| Lifecycle.RunUp | cmd/deploy/up.go:54-123 | does what the model's up step does: the version gate before any write or start |
| Lifecycle.RunUpgrade | cmd/deploy/upgrade.go:85-238 | does what the model's upgrade step does: every refusal before the first write |
| Lifecycle.StepAdvances | cmd/deploy/upgrade.go:99-110 | any command keeps the state file valid, the kind of deployment and the project, and moves the version only to a strictly newer release |
| Lifecycle.UpgradeStartsExactly | cmd/deploy/upgrade.go:85-238 | an upgrade reaches compose if and only if nothing refuses it, in particular the binary is a later release of a pinned deployment |
| Lifecycle.FinishedUpgradeRecords | cmd/deploy/upgrade.go:219-232 | a finished upgrade records the binary's version, the new pin and every hash, keeps project and scale, and the files on disk match |
| Lifecycle.FinishedInitRecords | cmd/deploy/init.go:135-147 | a finished first init records where its image comes from, one executor and every hash, and the files on disk match |
| Lifecycle.UpStartsExactly | cmd/deploy/up.go:54-123 | up reaches compose if and only if its checks pass, a pinned deployment's binary is its own and a new scale is stored |
| Lifecycle.AlwaysValid | cmd/deploy/bundle.go:184-213 | every state file any history writes passes the validation later commands apply |
| Lifecycle.VersionsOnlyGrow | cmd/deploy/up.go:209-222 | between any two points of any history by any binaries the version only grows, and image and source build never swap |
| Lifecycle.StartsNeverGoBack | cmd/deploy/up.go:69-76 | of two starts of a pinned deployment the later is by the same version or a strictly newer release, never an older one |
| Lifecycle.UpgradeConverges | cmd/deploy/upgrade.go:214-232 | forced upgrades stopped anywhere any number of times, then one that finishes, end as that one alone would have |
| EnvFill.ReadFlags | cmd/deploy/env.go:129-149 | sorts the inputs into problems, settled and still missing |
| EnvFill.ResolveInputs | cmd/deploy/env.go:116-180 | gives exactly the inputs .env lacks, or refuses exactly when one conflicts, is invalid or cannot be had |
| EnvFill.Fill | cmd/deploy/env.go:274-329 | the assignments the specification of the fill lists, or a failure exactly when a keypair to reuse is unreadable |
| EnvFill.PlanAt | cmd/deploy/env.go:274-329 | a key is assigned if and only if it is needed and missing, or is the token of a keypair that is gone |
| EnvFill.AssignedOnLookups | cmd/deploy/env.go:274-329 | for each kind of key, on plain lookups: a secret is assigned exactly without a plain value and, if mountable, without a file; the token exactly without a file and, its keypair present, without a plain value |
| EnvFill.FileFormStands | cmd/deploy/env.go:43-52 | a secret or token moved to a file is not put back, and a file does not stand in for a secret that cannot be mounted |
| EnvFill.NothingReplaced | cmd/deploy/env.go:269-273 | nothing .env has in plain or file form is assigned, but that token |
| EnvFill.FillIsComplete | cmd/deploy/env.go:68-76 | afterwards every needed key is there if and only if every input added reads back as something |
| EnvFill.SecondFillIsEmpty | cmd/deploy/env.go:269-329 | and then a second fill, whatever is offered or drawn, is empty |
| EnvFill.QuotesReadBackEmpty | cmd/deploy/env.go:257-267 | a client id of two quotes passes for a token and leaves the key missing |
| EnvFill.HexDrawIsGood | cmd/deploy/env.go:331-337 | hexadecimal secrets read back as something, as completeness needs of them |
| SidecarRuntime.CredRuntime.AcceptSealedBundle | cmd/runsidecar/runtime.go:161-179 | the newest bundle replaces the held one, an unreadable one changes nothing, and open lanes stay aligned |
| SidecarRuntime.CredRuntime.HeldGitHub | cmd/runsidecar/runtime.go:631-645 | hands out the held half if and only if its base is the one the open lanes forward to |
| SidecarRuntime.CredRuntime.JiraAuthHeader | cmd/runsidecar/runtime.go:911-934 | hands out the Jira credential if and only if it is sealed and for the site the open Jira lane forwards to |
| SidecarRuntime.CredRuntime.StartJira | cmd/runsidecar/runtime.go:870-903 | the Jira lane forwards to the site of the bundle held when it starts, even one re-sealed during the start |
| SidecarRuntime.CredRuntime.StartProxies | cmd/runsidecar/runtime.go:268-487 | succeeds if and only if every stage asked for does; a failure leaves nothing of it listening; a success has every lane asked for listening and recorded |
| SidecarRuntime.CredRuntime.Shutdown | cmd/runsidecar/runtime.go:1198-1237 | leaves no server listening and the handed-down listener closed |
| SidecarRuntime.Live | cmd/runsidecar/runtime.go:161-179 | over any sequence of re-seals, starts, requests and shutdowns no credential reaches a lane that forwards to another host |
| ChannelOrder.Antisymmetric | ee/slack/channels_list.go:190-247 | for every key and direction swapping two channels turns the comparison round |
| ChannelOrder.Transitive | ee/slack/channels_list.go:190-247 | for every key and direction the comparisons of three channels fit together, ties included |
| ChannelOrder.TiesShareTheId | ee/slack/channels_list.go:182-185 | two channels compare equal only if they share the channel id |
| ChannelOrder.DirectionTurnsValuesOnly | ee/slack/channels_list.go:23-38 | a channel without the key's value sorts last in both directions, and descending reverses exactly the pairs whose values differ |
| ChannelOrder.TiesGoByName | ee/slack/channels_list.go:190-208 | channels the key does not tell apart go by name and then channel id, ascending in both directions |
| ChannelOrder.WhatSortsFirst | ee/slack/channels_list.go:190-247 | ascending means the name smaller at its first differing byte, the earlier mention, and this team's primary before none, another team's and unwatched, on the channels' own fields; descending turns each round |
| ChannelOrder.SortedByNeighbours | ee/slack/channels_list.go:186-188 | neighbours in order put the whole list in order |
| ChannelOrder.SortIsUnique | ee/slack/channels_list.go:182-188 | with distinct ids every sorted permutation is the same list, whatever the algorithm and the order of arrival |
| ChannelOrder.PageEnds | ee/slack/channels_list.go:250-255 | a page ends the list, or its token points right behind it |
| ChannelOrder.PagesCoverTheList | internal/server/httpx/page.go:366-371 | following tokens, each page cut from its own read and sort, yields every matching channel once and in order |
| ChannelMerge.MergeIn | ee/slack/channels_handler.go:458-529 | a source's rows leave each channel with the view its rows make, found or created by channel id |
| ChannelMerge.MergedChannels | ee/slack/channels_handler.go:458-536 | every channel some source names appears once, with its view, and no other |
| ChannelMerge.UnionOfTheSources | ee/slack/channels_handler.go:470-513 | the merge is the union of the three sources, trackers add none, and a row's source is the first to name it |
| ChannelMerge.FieldsFromRows | ee/slack/channels_handler.go:470-513 | name and workspace are the first a sighted or live row gives; mention, private, member and primary flags those of the last row of their source |
| ChannelMerge.IdFromRows | ee/slack/channels_handler.go:470-479 | the registry id is the last sighted row's, or without one the last tracked row's |
| ChannelMerge.TrackersFromRows | ee/slack/channels_handler.go:515-529 | the trackers shown are those of the last list for the channel, and none without one |
| ChannelMerge.FilterChannels | ee/slack/channels_list.go:158-166 | keeps exactly the matching channels in their order, ids still distinct |

## Left out

- Sockets, file descriptors, runsc, cgroups, network namespaces, docker and HTTP: each call is an outcome that may go either way, with its stated effect.
- JSON bodies: opaque byte strings in the frame and RPC models.
- `freezeRun`, network setup and the other one-shot broker RPCs: no shared state beyond a registry lookup.
- Liveness of the broker (that a waiting call is eventually served): only safety is stated, except for the capture client, whose runs are bounded.
- Signed-push certificates in `readPushCommands`: its three-field test also matches a certificate version line, so the push statements are about ref updates and shallow lines.
- `DrainProtocol`: clock skew and heartbeat gaps are bounded by premises, since the code checks neither; a heartbeat whose write commits but whose answer is lost while draining is excluded by the same premise.
- DrainWait.Judge: states when its totals are zero, not the totals, which only word a message.
- `scaleDown`: it does not look at existing drains, so the statements about them are `drainExecutors`' alone.
- `liveExecutors`: the fleet given to the drain model is the already filtered one.
- `Lifecycle`: preflight, signatures, pulls, the seccomp probe, the environment checks and the drain are outcomes of a command; the rendering of docker-compose.yml and compose project-name checks are not modelled, nor are two deploy commands running at once on one directory.
- `DeployDirectory`: the order of writes is any order, not the sorted one, and file modes and directory creation are not modelled.
- `EnvFill`: the text of `.env` is a map of what reading each key gives; comments, duplicate lines and `export` prefixes are not modelled, and JWT and key generation are fresh values.
- Concurrent duplicate `startProxies` requests: the guard is checked and set in separate critical sections, so starts are sequential; a re-seal may arrive during one.
- `SidecarRuntime`: canonicalisation of a GitHub base URL is done before the model sees the bundle; the git proxy's and agent host's own logic is not modelled.
- ChannelMerge.MergedChannels: the order of its output is any order, since the list sorts it again before cutting pages.
- ChannelMerge.FilterChannels: whether the search text matches a channel is given, not computed.
- Slack pagination's truncated flag, channel facets and `diffChannelIDs`: would only add easy members, and "not truncated" does not mean complete at the cap.
- Cosign, JWT and license cryptography, CLI help and dispatch, telemetry, the frontend: I/O or thin wrappers.
