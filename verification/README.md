# Verified model of the traffic tester

The repository drives network tests from a control server and a set of agents. An agent prepares Linux
interfaces for a test, undoes that preparation, replays captured traffic, and generates load; the capture
library turns PCAP and PCAPNG files into TCP flows, HTTP transactions and replay turns. This project models
those parts in Dafny and proves what they promise. `dafny verify dfyconfig.toml` verifies the whole project.

## What is modelled

* **Managed networks** (`HostModel`, `NetworkPlan`, `PlanConditions`, `PlanCommands`, `NetworkOps`,
  `NetworkManager`, `NetworkSafety`, `NetworkRuns`, `NetworkRetries`, `NetworkOutcome`, `NetworkLimits`, `TwoPhase`,
  `TwoPhaseHistory`). A host is a set of namespaces and of interfaces with their place, IPv4 addresses, MTU, link state and offloads. Each command the agent runs has a step semantics,
  including the kernel rules that make the order of commands matter: a move between namespaces flushes the
  addresses and takes the link down, switching transmit checksums off switches segmentation off with it and
  segmentation cannot be switched on before it, deleting a primary address deletes its secondaries, and
  deleting a namespace destroys the interfaces inside. Failures, failures that are reported although the
  command took effect, and crashes are read from a tape of events, one for each command attempt and each
  change of the journal, and the tape is arbitrary. Control and its agents form a transition system with
  lost and late replies, timeouts, crashes, restarts, dropped streams and lease tasks; the history of a run is
  computed beside it and says whom control contacted and what each agent carried out.
* **Capture analysis** (`Containers`, `ContainerFiles`, `ContainerErrors`, `PcapngSections`, `Dissect`, `FrameReasons`,
  `FlowTable`, `Reassembly`, `SequenceWrap`, `Turns`, `Http1`, `Http1Messages`, `Http1Parts`, `Http1Bodies`, `Http1Heads`, `Http1Ends`,
  `Numbers`, `Http2`, `Http2Refusals`, `Http2Transactions`, `FlowReport`, `FlowFates`), from the bytes of a capture file
  to the report.
* **Replay** (`Replay`, `Rewrite`, `RewriteTexts`, `RewriteSound`, `RewriteLaws`): accepted flow sets, the responder's
  byte-by-byte recognition, client and responder as processes over bounded channels, request rewriting.
* **Transfer and load** (`Artifacts`, `ChunkOutcomes`, `Framing`, `Exchange`, `ExchangeTexts`, `ActiveWindow`,
  `LoadSchedule`).

`Base`, `Conversation`, `Ordered`, `Words` and `Walk` hold shared notions: optional values and bytes, who says
what, finite sets in ascending order, numbers as bytes, and walking over a byte string with a reader.

Objects and loops that change state are classes and methods proved against specification functions; what
the repository promises is then proved about those functions. Code made of expressions is a function. What a
function decides case by case has, besides, its exact condition stated on the inputs alone, without the function:
`PlanConditions` and `PlanCommands` for planning, `NetworkRetries` for the attempts of a rollback, `ContainerErrors`,
`FrameReasons` and `FlowFates` for what becomes of a file, a frame and a flow, `Http1Heads` and `Http1Ends` for where a
message begins and ends, `Http2Transactions`, `RewriteTexts`, `ChunkOutcomes` and `ExchangeTexts`.

## Where the code does not keep a promise

Each of these is proved with the exact condition under which the promise holds, or with the input that breaks it.

* `apply` overwrites a journal that is already there (`crates/agent/src/network.rs:592-600`). Whatever follows without
  another stage, recovery then leads to the host at the time of staging, so a way back to the host before the earlier
  operation is left exactly when both are equal: `NetworkRuns.StagingKeepsOriginIff`. Any two plans for different
  interfaces of one node show the loss: `NetworkLimits.SecondStageLosesOrigin`. The journal invariant therefore asks
  that no journal is present when a plan is staged.
* A rollback that fails leaves the journal in its phase, so after a failed lease rollback a commit still succeeds
  and marks a partly undone host as prepared. A staged or prepared operation is configured exactly when no rollback
  since its stage has deleted an address that was there or moved an interface home:
  `NetworkLimits.PreparedConfiguredIff`. Every plan that gives an interface an address can end up prepared without
  being configured, in three steps: `NetworkLimits.PreparedButNotConfigured`. `NetworkLimits.LossesAreReal` gives an
  ordinary host and plans for both failures.
* `docs/NETWORK_CONFIGURATION.md:20` says that a restart rolls back only applying and staged work. The code rolls
  back everything that is not prepared (`crates/agent/src/network.rs:636-643`), which includes an interrupted
  rollback; the lease task covers applying and staged only (`crates/agent/src/network.rs:629-634`). The model follows
  the code.
* Repeated bytes are counted with the smaller of two lengths (`crates/capture/src/lib.rs:659-663`), so streams and
  repeated bytes account for all payload exactly when no packet repeats a sequence number with more data:
  `FlowTable.FlowConservesBytes`, `FlowTable.LongerRepeatIsLost`.
* Segments are put together in the order of their numbers (`crates/capture/src/lib.rs:756-777`), so a stream whose
  numbers pass 2^32 is put back together exactly when no segment starts behind that end, and otherwise its flow is
  counted as incomplete: `SequenceWrap.WrapIff`.
* Section 6.3 of RFC 9112 ends a response with status 1xx, 204 or 304, and an answer to HEAD, at the blank line
  whatever its fields say. The code looks at the chunked coding and the length first
  (`crates/capture/src/lib.rs:401-417`), so a 304 that announces a length takes the bytes behind it along:
  `Http1Bodies.LengthSwallows`, `Http1Bodies.UnchangedIsMisleading`. Fields of one name form one list (section 5.3 of
  RFC 9110), and the code reads the first of them only: `Http1Bodies.SecondFieldIsNotRead`. Splitting inverts writing
  exactly under the condition of `Http1Bodies.SplitInvertsPrinting`, in the ordinary case of
  `Http1Bodies.PlainMessagesSplit`.
* A section header of a PCAPNG file starts a new list of interfaces, and the code goes on with the old one
  (`crates/capture/src/lib.rs:540-590`): `PcapngSections.SectionsReadIff`, `PcapngSections.SecondSectionIsMisread`.
* A header section is accepted in whatever pieces it arrives exactly when it ends within one byte more than the
  limit, or has been read ahead: `Framing.FitsIsExact`.
* A part file that an earlier session left behind blocks its artifact for good: a transfer succeeds exactly when
  none is there (`Artifacts.TransferSucceedsIffNoFileLeft`).
* The proxy form of a request is undone by the server's rewriting exactly when the path starts with a slash:
  `RewriteLaws.ProxyThenServer`.
* The average of a window lies between its minimum and maximum exactly when the window has lasted or its minimum
  is zero (`ActiveWindow.SnapshotMeans`); clock readings that are accounted out of order count time twice
  (`ActiveWindow.OldReadingCountsTwice`).
* Past the end of the schedule the number of clients stays within the number of workers exactly when the last stage
  holds, or does not rise, or rounding still hides the overshoot: `LoadSchedule.PastEndWithinWorkersIff`, with
  `LoadSchedule.RampGoesOnPastEnd` as an instance of the other case. The run loop can evaluate the schedule there once
  (`crates/agent/src/runner.rs:86-96`).
* If the rollback command of a committed node is never delivered, the node stays prepared although control has
  given up: `TwoPhase.SuccessAndLostRollback`. At any time a node is prepared exactly when a commit was carried out on
  it and no rollback command was (`TwoPhaseHistory.PreparedIff`); control always tries that rollback
  (`TwoPhaseHistory.GivingUpRollsBack`), so a node that is still prepared after control gave up is one on which it was
  not sent, not handled or disturbed (`TwoPhaseHistory.StillPreparedMeansLostRollback`), and otherwise nothing is left
  of the operation (`TwoPhaseHistory.GivingUpLeavesNothing`).

## Model

| member | source | states |
|---|---|---|
| NetworkPlan.PlanNode | crates/agent/src/network.rs:286-580 | planning decides client then server, refuses with the first error, and otherwise returns the forward commands and, separately, the rollback commands of every borrowed interface in order |
| NetworkPlan.ForwardCommands | crates/agent/src/network.rs:399-489 | the commands that prepare one interface: duplicate-address probes, namespace, move, loopback, link, the whole pool, all six offloads |
| NetworkPlan.UndoCommands | crates/agent/src/network.rs:490-554 | the commands that undo one preparation: the pool in reverse, the move home, recorded offloads, MTU, link state, and the namespace last |
| PlanConditions.PlanAcceptedIff | crates/agent/src/network.rs:286-398 | a plan is accepted if and only if every endpoint of the node has a safe name, an interface that exists and is not protected, and a readable start address, and, managed by the operator, all its addresses on the interface already, or else an interface without IPv4 addresses and master, of an allowed kind, and a safe namespace name; a refusal names a condition that the first unacceptable endpoint violates |
| PlanConditions.PlanTells | crates/agent/src/network.rs:286-580 | an accepted plan carries the fingerprint and one entry for each endpoint of the node with consecutive addresses from the start address on; managed by the operator it has no commands, otherwise those of every borrowed interface as the inventory describes it |
| PlanCommands.ForwardTells | crates/agent/src/network.rs:382-489 | place by place: the probes if the node has arping, the four commands for namespace, move, loopback and link, one addition for each address, and, if the node has ethtool, the six offloads with segmentation before checksums |
| PlanCommands.UndoTells | crates/agent/src/network.rs:490-554 | place by place: one deletion for each address, the last first, the move home, the recorded offloads with checksums before segmentation, the recorded MTU, the link state, the namespace |
| PlanCommands.RunFailsIff | crates/agent/src/network.rs:780-823 | on any host a command fails as absent if and only if its target or the address to delete is not there, and is refused if and only if what it creates is there, the namespace to move into is not, or a segmentation offload lacks its checksum; it loses no interface but those inside a namespace that it deletes |
| PlanCommands.BlocksAreSubnets | crates/agent/src/network.rs:490-492 | the subnet of an address with prefix p has 2^(32-p) addresses, of which deleting the first on an interface deletes the others |
| NetworkOutcome.AcceptedPlanFits | crates/agent/src/network.rs:286-580 | every plan accepted from an accurate inventory with unused namespace names and distinct interfaces meets all hypotheses of the recovery theorems |
| NetworkManager.Manager.Execute | crates/agent/src/network.rs:780-823 | one execution has its effect and verdict as the event says; a rollback execution tolerates failures that say the thing is already absent |
| NetworkManager.Manager.Rollback | crates/agent/src/network.rs:651-699 | every restoration is tried three times, namespaces are deleted only when all restorations succeeded, and the journal is removed only when everything succeeded |
| NetworkManager.Manager.Apply | crates/agent/src/network.rs:582-614 | the fingerprint check, the journal written ahead of and after every command, and the abort with rollback on the first failure |
| NetworkManager.Manager.Commit | crates/agent/src/network.rs:615-625 | only a staged journal becomes prepared |
| NetworkManager.Manager.Recover | crates/agent/src/network.rs:645-650 | recovery rolls back whatever journal is present |
| NetworkManager.Manager.RecoverOnStartup | crates/agent/src/network.rs:636-644 | startup leaves a prepared operation alone and rolls back any other |
| NetworkManager.Manager.EnforceLease | crates/agent/src/network.rs:626-635 | lease expiry rolls back its own operation if that is applying or staged, and nothing else |
| NetworkSafety.RunRestores | crates/agent/src/network.rs:490-554 | each restoring command, run on any intermediate state, changes only its interface and establishes its part of the recorded state |
| NetworkSafety.AttemptRestores | crates/agent/src/network.rs:651-672 | through any sequence of failing, half-failing and crashing attempts, a command reported done has established its part, and nothing else is lost |
| NetworkSafety.ChecksumComesFirst | crates/agent/src/network.rs:518-532 | in the planned order no offload restoration is refused by the kernel's dependency on transmit checksums |
| NetworkSafety.UndoRestoresOne | crates/agent/src/network.rs:490-554 | the rollback list of one interface, wherever its preparation stopped, reports success only with the interface exactly as recorded |
| NetworkRuns.RollbackRestores | crates/agent/src/network.rs:651-699 | whatever fails, a rollback keeps the host recoverable; it reports success only when the host is as before the plan; undisturbed it succeeds |
| NetworkRetries.RollbackSucceedsIff | crates/agent/src/network.rs:651-699 | for every tape of events: a rollback does all its work, and leaves the original host, if and only if no command fails three times in a row and nothing crashes, up to the last command; then it is reported as done if and only if the removal of the journal, the next event, is undisturbed, and the journal is gone if that removal took effect; in all other cases it fails and keeps the journal |
| NetworkRetries.RetriesHelp | crates/agent/src/network.rs:660-672 | in particular, on a tape without a crash and without three failures in a row the host is restored, and the journal gone once its removal goes through |
| NetworkRetries.PatientTapeSuffices | crates/agent/src/network.rs:660-672 | such a tape lasts for any number of commands |
| NetworkRuns.RollbackLosesNoInterface | crates/agent/src/network.rs:651-699 | no rollback, whichever attempts fail, deletes a namespace that still holds an interface |
| NetworkRuns.CrashSafeUndo | crates/agent/src/network.rs:286-699 | after any prefix of the commands, each taking effect or not, and any number of disturbed or interrupted rollbacks, one undisturbed rollback restores the host completely, also with both endpoints on one node |
| NetworkRuns.ApplyKeepsSecured | crates/agent/src/network.rs:582-614 | at every point of an apply the durable journal holds the list that restores the host, and apply never leaves a prepared journal |
| NetworkRuns.FailedStageIsUndone | crates/agent/src/network.rs:601-611 | a stage in which any command fails, with or without effect, ends with the original host, no journal and a failure report, if nothing goes wrong after that command |
| NetworkRuns.UndisturbedStage | crates/agent/src/network.rs:582-614 | an undisturbed stage, whatever journal it finds, either succeeds or reports failure and leaves nothing behind |
| NetworkRuns.RunKeepsSafe | crates/agent/src/network.rs:582-699 | over every run of apply, crash, restart, commit, lease and recovery, a changed host always has a durable journal with the list that restores it |
| NetworkRuns.RunCanBeUndone | crates/agent/src/network.rs:636-699 | after any such run one undisturbed restart of an unprepared node, or one undisturbed recovery, restores the original host and removes the journal |
| NetworkRuns.LeaseUndoes | crates/agent/src/network.rs:626-635 | an undisturbed lease expiry undoes the uncommitted operation it was armed for |
| NetworkRuns.StagingKeepsOriginIff | crates/agent/src/network.rs:592-600 | after staging over an existing journal, every continuation without another stage recovers to the host at the time of staging, so some continuation leads back to the host before the earlier operation if and only if both hosts are equal |
| NetworkOutcome.StageConfigures | crates/agent/src/network.rs:582-614 | a stage reported as successful has left every borrowed interface in its namespace, up, with exactly the pool and MTU and no offload, and nothing else changed |
| NetworkOutcome.UndisturbedStageIff | crates/agent/src/network.rs:582-614 | an undisturbed stage of a fitting plan succeeds, with every interface configured and the journal staged, if and only if no pool repeats an address; otherwise it leaves nothing behind |
| NetworkOutcome.PlannedPoolDiffers | crates/agent/src/network.rs:752-761 | a planned pool of at most 2^32 addresses repeats none, also where it wraps around |
| NetworkOutcome.PreparedMeansConfigured | crates/agent/src/network.rs:582-699 | over every run with undisturbed rollbacks, a prepared journal means that the host is configured as planned |
| NetworkLimits.PreparedConfiguredIff | crates/agent/src/network.rs:615-699 | over every run with clear stages and arbitrary failures and crashes, a staged or prepared operation is configured exactly as planned if and only if no rollback since its stage has deleted a present address or moved an interface home |
| NetworkLimits.PreparedButNotConfigured | crates/agent/src/network.rs:615-699 | for every fitting plan that gives its first interface an address, the run of a stage, a lease expiry whose first deletion is not seen to succeed, and a commit ends prepared and not configured |
| NetworkLimits.SecondStageLosesOrigin | crates/agent/src/network.rs:592-600 | on a clear node, for every two fitting plans with different interfaces and namespaces: after staging the first its origin can be recovered, after staging the second in addition no run without another stage leads back to it |
| NetworkLimits.LossesAreReal | crates/agent/src/network.rs:286-580 | a host with two spare interfaces and two plans with one address each meet the hypotheses of both losses |
| NetworkOutcome.ReverseDeletionFindsEveryAddress | crates/agent/src/network.rs:489-505 | deleting a planned pool in reverse, every deletion finds its address and none is lost by cascade |
| TwoPhase.AllOrNothing | crates/control/src/network_orchestration.rs:206-257 | over every run with failures, lost and late replies, timeouts, crashes, restarts and leases: success means that every node is prepared; a node without a journal has its original host, any other holds the journal that leads back to it, and a node whose rollback or lease reported success, or that was never reached, has none |
| TwoPhase.SettledForGood | crates/control/src/network_orchestration.rs:206-257 | a node that was rolled back or whose lease expired stays at its original host in every continuation |
| TwoPhaseHistory.GivingUpRollsBack | crates/control/src/network_orchestration.rs:206-257 | when control gives up it has tried the stages in order up to the first failure, or all stages and the commits up to the first failure, and then a rollback of every node whose stage was confirmed, after everything else; it reports success after all stages and all commits |
| TwoPhaseHistory.PreparedIff | crates/agent/src/main.rs:406-426 | at every moment of every run a node is prepared if and only if a commit was carried out on it and no rollback command was; none is prepared before every stage was confirmed; and a node that answered its stage with success has its lease armed unless its process died or its lease task has run |
| TwoPhaseHistory.NodeIsClean | crates/control/src/network_orchestration.rs:245-257 | a node has no journal and its original host if its rollback was handled undisturbed, or if it was not committed and its failing stage, lease or restart was undisturbed |
| TwoPhaseHistory.GivingUpLeavesNothing | crates/control/src/network_orchestration.rs:206-257 | after control gave up every node has no journal and its original host, provided that each rollback was sent and handled undisturbed, and each other node that had begun its stage was undisturbed in failing it, in its lease or in a restart |
| TwoPhaseHistory.LateReplyIsUndone | crates/control/src/network_orchestration.rs:223-257 | for every fitting plan without repeated addresses such a run exists: the commit is carried out, its reply comes late, control gives up, and the handled rollback leaves the original host and no journal |
| TwoPhaseHistory.StillPreparedMeansLostRollback | crates/control/src/network_orchestration.rs:206-257 | a node that is prepared after control gave up was committed, and control's rollback of it, made after everything else, was not sent, not handled or disturbed |
| TwoPhaseHistory.StalePlanStopsApply | crates/agent/src/network.rs:588-591 | if the interfaces of a single node have changed since its plan was made, then in every run no node is ever prepared, control never reports success, and that node is left as it is |
| TwoPhaseHistory.StepInOrder | crates/control/src/network_orchestration.rs:206-257 | every single step keeps the correspondence between what control has tried, which stages were confirmed, and where it is |
| TwoPhase.StepKeeps | crates/control/src/network_orchestration.rs:11-63 | every single step of control, an agent, a stream or a lease task keeps the invariant behind all-or-nothing |
| TwoPhase.StepKeepsInStep | crates/control/src/network_orchestration.rs:206-243 | while nothing has failed, at most the awaited command is under way and every confirmed node is prepared |
| TwoPhase.ExchangeUpToCommit | crates/control/src/network_orchestration.rs:206-243 | for every fitting plan without repeated addresses the undisturbed exchange with a node reaches the state in which the stage and the commit were carried out |
| TwoPhase.SuccessAndLostRollback | crates/control/src/network_orchestration.rs:206-257 | for every such plan both ends are reachable from one start: success, and giving up with a node that stays prepared and configured because its rollback could not be sent |
| Containers.AnalyzePcap | crates/capture/src/lib.rs:108-160 | the packet loop over a PCAP file records exactly the frames of the file, or reports the container's error |
| Containers.AnalyzePcapng | crates/capture/src/lib.rs:520-593 | the block loop over a PCAPNG file records exactly the frames of the file, or reports the container's error |
| ContainerFiles.PcapReadsBack | crates/capture/src/lib.rs:108-160 | a PCAP file written in either byte order and either resolution is read back to its frames |
| ContainerFiles.PcapngReadsBack | crates/capture/src/lib.rs:520-593 | a PCAPNG file with interfaces, packets with padding and options, and other blocks, in either byte order, is read back to the frames its blocks tell |
| ContainerErrors.PcapAcceptedIff | crates/capture/src/lib.rs:108-160 | any byte string is accepted, for certain frames, if and only if it is a header of 24 bytes with one of the four magic numbers and link type 1, filled up to its end by records of these frames; it is of an unsupported format if and only if it has a header and no magic number, of an unsupported link type if and only if only that is wrong, and truncated in all other cases |
| ContainerErrors.PcapngAcceptedIff | crates/capture/src/lib.rs:520-593 | any byte string is accepted if and only if it starts with a section header and is filled up to its end by blocks of a length that is a multiple of four and stands at both ends, in which every packet block holds the bytes it announces; its frames are then those of its packet blocks, each on Ethernet if the interface block with its number says link type 1; it is of an unsupported format if and only if it has no section header, and truncated in all other cases |
| PcapngSections.SectionsReadIff | crates/capture/src/lib.rs:540-590 | a PCAPNG file of any number of sections in one byte order is read to its frames if and only if, for every packet, its interface number names an Ethernet interface in the list of all interfaces exactly if it does in its own section |
| PcapngSections.OneSectionIsOwn | crates/capture/src/lib.rs:540-590 | with a single section that condition holds |
| PcapngSections.SecondSectionIsMisread | crates/capture/src/lib.rs:540-590 | a second section whose first interface is not an Ethernet interface breaks it |
| ContainerFiles.ContainerDoesNotMatter | crates/capture/src/lib.rs:92-160 | the same Ethernet frames give the identical analysis in either container, whatever byte orders, timestamps and header fields |
| ContainerFiles.ConversionKeepsAnalysis | crates/capture/src/lib.rs:520-593 | any PCAP records, converted to one interface and padded packet blocks, give the identical analysis |
| Dissect.Recorder.ParseEthernet | crates/capture/src/lib.rs:595-664 | a frame either becomes the packet it carries in the flow table or is counted under one reason |
| Dissect.Recorder.Accept | crates/capture/src/lib.rs:625-664 | the update in place of the flow map, the order and the segments is that of the flow table |
| Dissect.FramesAreAccountedFor | crates/capture/src/lib.rs:595-664 | every frame is a packet of the flow table or counted as excluded, once |
| Dissect.FrameReadsBack | crates/capture/src/lib.rs:693-754 | a TCP packet written with any options over IPv4 or IPv6 is read back |
| FrameReasons.FrameOutcomeIff | crates/capture/src/lib.rs:595-754 | on the bytes of any frame: it becomes a packet if and only if it is an IPv4 or IPv6 frame of protocol 6, unfragmented, with complete headers, and then the packet has the addresses, ports, sequence number and payload that stand there; and each of the four reasons has its exact condition |
| FrameReasons.CountersCount | crates/capture/src/lib.rs:595-754 | each counter is the number of frames with its condition, and the captured bytes are the lengths on the wire of all frames added up |
| FlowTable.EachFlowIsGathered | crates/capture/src/lib.rs:625-664 | the table separates the flows: an entry holds exactly the packets between its two endpoints, and exists exactly for the key whose client sent the first of them |
| FlowTable.NeverBothDirections | crates/capture/src/lib.rs:633-641 | the table never holds a key and its distinct reverse |
| FlowTable.ConversationHasOneFlow | crates/capture/src/lib.rs:625-641 | both directions of a conversation share one entry, unless an endpoint talks to itself |
| FlowTable.ConcernsMeans | crates/capture/src/lib.rs:625-641 | the packets of an entry are those from its client to its server and those back |
| FlowTable.OrderListsFlows | crates/capture/src/lib.rs:633-641 | the order lists every flow once |
| FlowTable.SideStoresFirst | crates/capture/src/lib.rs:654-663 | the stored segment of a sequence number is the payload of the first packet that carried it |
| FlowTable.FlowConservesBytes | crates/capture/src/lib.rs:654-663 | stream bytes, repeated bytes and the excess of longer repetitions are all payload bytes of the flow; the first two suffice if and only if no packet repeats a sequence number with more data |
| FlowTable.LongerRepeatIsLost | crates/capture/src/lib.rs:659-663 | a repetition with more data loses the difference |
| FlowTable.ArrivalOrderDoesNotMatter | crates/capture/src/lib.rs:595-664 | when repeated segments agree, any reordering that keeps the direction of the first packet keeps the flow, both streams and the repeated bytes |
| Reassembly.Reassemble | crates/capture/src/lib.rs:756-777 | the reassembly loop computes the walk over the segments in sequence order |
| Reassembly.ReassemblyMeans | crates/capture/src/lib.rs:756-777 | the output lists the covered positions in ascending order with their bytes, the gap flag is set exactly when a position between is missing, and output and repeated bytes add up to all segment bytes |
| Reassembly.PositionMeans | crates/capture/src/lib.rs:756-777 | the byte of a position is that of the lowest-sequence segment covering it, and a position has none exactly when no segment covers it |
| SequenceWrap.WrapIff | crates/capture/src/lib.rs:756-777 | a stream of less than 2^32 bytes, cut into any pieces and with any first number, is put back together if and only if no piece starts behind the end of the sequence space; otherwise a gap is reported |
| SequenceWrap.WrappedMeans | crates/capture/src/lib.rs:773 | the next number is taken modulo 2^32 |
| Turns.BuildTurns | crates/capture/src/lib.rs:666-689 | the grouping loop and the filter compute the turns of the runs |
| Turns.GroupsAlternate | crates/capture/src/lib.rs:666-681 | neighbouring runs are in opposite directions |
| Turns.TurnsMatchStreams | crates/capture/src/lib.rs:666-689 | when every run is captured without a gap and starts where the previous run of its direction ended, turns strictly alternate and spell out the reassembled stream of each direction |
| Turns.FlowTurnsMatchStreams | crates/capture/src/lib.rs:168-227 | so the turns reported for a flow spell out the two streams reported for it |
| Http2.ParseH2Direction | crates/capture/src/lib.rs:239-311 | the frame loop computes the parse of a direction |
| Http2.ParsingReadsFrames | crates/capture/src/lib.rs:239-311 | serialised frames below 2^24 bytes parse back: reading the bytes is accepting the frames (section 4.1 of RFC 9113) |
| Http2.CutBlockActsWhole | crates/capture/src/lib.rs:262-299 | a header block cut into HEADERS and any CONTINUATION frames acts like the whole block (sections 6.2 and 6.10 of RFC 9113) |
| Http2.EventsExtend | crates/capture/src/lib.rs:239-311 | the parsed streams hold, stream by stream, the last decoded headers, the joined body and the end flag of what was sent, whatever SETTINGS, PING, WINDOW_UPDATE, PRIORITY and other skipped frames stand between |
| Http2.ParseDependsOnContent | crates/capture/src/lib.rs:239-311 | two serialised directions with the same header blocks in the same global order and the same per-stream bodies and ends parse to the same streams |
| Http2.RewritingsKeepContent | crates/capture/src/lib.rs:239-311 | at any place and in either direction, cutting a header block elsewhere, splitting a DATA frame, exchanging neighbours that are not about one stream and not both header blocks, and dropping a skipped frame keep that content |
| Http2Refusals.RefusedIff | crates/capture/src/lib.rs:239-311 | a direction made of any frames is refused if and only if RST_STREAM, PUSH_PROMISE or GOAWAY occurs, or a CONTINUATION does not go on with the open header block, or a block is left open, or a finished block does not decode |
| Http2Transactions.FrameSays | crates/capture/src/lib.rs:248-261 | the length, type, flags and 31-bit stream id of a frame by their places in its header |
| Http2Transactions.NumbersOfFrames | crates/capture/src/lib.rs:262-311 | the frame types by number, and the end flags as bits 0x01 and 0x04 |
| Http2.ExtractHttp2Transactions | crates/capture/src/lib.rs:313-351 | the extraction loop computes the transactions of the odd request streams |
| Http2.ExtractedInOrder | crates/capture/src/lib.rs:313-351 | transactions come in ascending order of stream id, one for each request stream, with the bodies of that stream in both directions, both ended |
| Http2Transactions.TransactionsTell | crates/capture/src/lib.rs:313-351 | there is one transaction for each odd stream id of the client, in ascending order, and its method, path and authority are each the value of the first header of the request stream with that name, its status that of the response stream, an authority being empty if there is none |
| Http2Transactions.TransactionMeans | crates/capture/src/lib.rs:328-347 | a stream gives a transaction if and only if both directions are there and ended and :method, :path and :status are given |
| Http2Transactions.NothingExtractedIff | crates/capture/src/lib.rs:313-351 | nothing is extracted if and only if the preface is missing, a direction is refused, there is no stream with an odd id, or one of these is unanswered, unended or without a required value |
| Http2.ExtractionDependsOnContent | crates/capture/src/lib.rs:313-351 | extraction is unchanged by any such rewriting of either direction |
| Http1.SplitHttpMessages | crates/capture/src/lib.rs:383-426 | the splitting loop computes the messages and terminates |
| Http1.FindChunkedEnd | crates/capture/src/lib.rs:486-514 | the chunk loop finds the end of a chunked body and terminates |
| Http1.TrimAscii | crates/capture/src/lib.rs:476-484 | both trimming loops together remove the surrounding white space |
| Http1.TrimMeans | crates/capture/src/lib.rs:476-484 | trimming takes away white space at both ends, all of it, and nothing else |
| Http1.SplitLosesNothing | crates/capture/src/lib.rs:383-426 | whenever splitting succeeds, on any input, the messages are non-empty and concatenate to exactly the input |
| Http1.TransactionsLoseNothing | crates/capture/src/lib.rs:365-381 | extracted transactions account for every byte of both streams |
| Http1Parts.SplitIff | crates/capture/src/lib.rs:383-426 | on any input, a stream splits into certain pieces if and only if they make it up and each of them, split alone, is itself; so any messages, put one behind the other, split into themselves |
| Http1Heads.HeadAcceptedIff | crates/capture/src/lib.rs:387-405 | a header section of any lines is accepted if and only if its start line is a verb, a target and HTTP/1.1, or HTTP/1.1 and three digits, and no line is an Upgrade field and the first Connection field does not list upgrade |
| Http1Heads.RefusedHeadRefusesAll | crates/capture/src/lib.rs:387-405 | behind any messages, a section that is not accepted makes splitting the whole stream fail, whatever follows |
| Http1Heads.ListsIff | crates/capture/src/lib.rs:470-474 | a value lists a token if and only if it consists of elements between commas one of which, trimmed, is this token in any case of letters |
| Http1Heads.FirstFieldMeans | crates/capture/src/lib.rs:457-468 | what is found for a name is the trimmed value of the first line that is a field of this name, and nothing if there is no such line |
| Http1Ends.MessageEndsIff | crates/capture/src/lib.rs:383-426 | any stream that begins with a header section begins with a message of a certain length if and only if the section is accepted and its first fields put the end there: the end of the chunks if the first Transfer-Encoding field lists chunked, else of the bytes that the first Content-Length field announces, else of the section, for requests and status 1xx, 204 and 304 |
| Http1Ends.ChunkedEndIff | crates/capture/src/lib.rs:486-514 | in any stream a chunked body ends at a place if and only if chunks stand up to it, each with a hexadecimal size before a semicolon or line end, its bytes and a line end, and then a chunk of size 0 with a blank line at once or behind trailers |
| Http1Bodies.SplitInvertsPrinting | crates/capture/src/lib.rs:383-514 | any well-formed messages as section 6.3 of RFC 9112 ends them, concatenated, split into exactly these messages if and only if for each the first transfer coding field tells whether it is chunked, or else its first length field is the length of its body, or else it is a request without a body or has status 1xx, 204 or 304 |
| Http1Bodies.PlainMessagesSplit | crates/capture/src/lib.rs:401-419 | messages that announce their bodies in one field, with chunk extensions and trailers and without HEAD, split into themselves if and only if no response with status 1xx, 204 or 304 is chunked or has a length field other than 0 |
| Http1Bodies.MessageReadsIff | crates/capture/src/lib.rs:383-426 | a written well-formed message, split on its own, is one message under exactly that condition |
| Http1Bodies.LengthSwallows | crates/capture/src/lib.rs:409-417 | a bodiless response that announces n bytes takes the next n bytes of the stream with it |
| Http1Bodies.UnchangedIsMisleading | crates/capture/src/lib.rs:405-417 | a 304 that announces a length is well-formed, and is read right only if the length is 0 |
| Http1Bodies.SecondFieldIsNotRead | crates/capture/src/lib.rs:401-404 | a request with the transfer codings gzip and chunked in two fields is well-formed and read wrong |
| Http1Messages.MessageReads | crates/capture/src/lib.rs:383-426 | a written message whose first transfer coding and length fields announce its body is read to its end, whatever follows it |
| Http1Messages.HeaderIsLookup | crates/capture/src/lib.rs:457-468 | the header lookup on a written message finds the first field with that name, ignoring case |
| Http1Messages.ChunksRead | crates/capture/src/lib.rs:486-514 | a written chunked body is read to its end, wherever it stands |
| Http1Bodies.TransactionsInvertPrinting | crates/capture/src/lib.rs:365-381 | written well-formed requests and responses come back as transactions in order if and only if each is read right and there are as many responses as requests, and at least one |
| Numbers.NumberReadsIff | crates/capture/src/lib.rs:409-413 | a length field reads as a number below 2^64 if and only if it consists of white space, at most one plus sign, leading zeros, the decimal or hexadecimal digits of that number in either case, and white space |
| FlowReport.FinishAnalysis | crates/capture/src/lib.rs:162-230 | the final loop, which takes each flow out of the table, computes the report |
| FlowFates.FateIff | crates/capture/src/lib.rs:172-180 | a flow is incomplete if and only if a direction is empty or has a gap, and encrypted if and only if it is not and a direction starts with a TLS record header |
| FlowFates.ReadHttpIff | crates/capture/src/lib.rs:190-219 | a flow without HTTP/1.1 transactions is no HTTP if and only if its client shows no version of HTTP, an upgrade if and only if it does and one direction mentions an upgrade in any case of letters, and unsupported otherwise |
| FlowFates.FlowTells | crates/capture/src/lib.rs:181-228 | a reported flow has the HTTP/2 transactions if the client announces HTTP/2 and there are some, else those of HTTP/1.1 |
| FlowFates.CountersTell | crates/capture/src/lib.rs:162-230 | from frames to report: each of the six counters is the number of flows with its condition |
| FlowReport.FlowsAreAccountedFor | crates/capture/src/lib.rs:167-229 | every ordered flow is reported or counted once as incomplete or encrypted, and every reported flow has transactions or is counted under one reason |
| FlowReport.ReportListsFlows | crates/capture/src/lib.rs:167-229 | the report lists, in order of first packets, exactly the flows that are complete in both directions and not encrypted |
| FlowReport.ReportedFlowAccounts | crates/capture/src/lib.rs:167-228 | a reported flow carries the packets between its endpoints, and its streams, repeated bytes and excess are all payload captured for it |
| FlowReport.CaptureIsAccountedFor | crates/capture/src/lib.rs:108-230 | from frames to report: every frame is a packet or excluded, every flow reported or counted, every reported flow has transactions or a reason, each once |
| Replay.ValidateFlows | crates/agent/src/replay.rs:72-92 | accepts exactly the flow sets whose first turns are non-empty client turns and pairwise prefix-free; a refusal names an offending flow or pair |
| Replay.ReplayServerDetect | crates/agent/src/workload/tcp.rs:106-136 | on any byte stream: a flow is picked exactly when the stream starts with its first turn, after exactly that turn; detection gives up at exactly the first byte after which nothing fits |
| Replay.RightOutcomeIsOne | crates/agent/src/workload/tcp.rs:106-136 | every byte stream has one right outcome |
| Replay.WholePayloadDecides | crates/agent/src/workload/tcp.rs:118-131 | once a whole first turn has arrived its flow is the only candidate |
| Replay.ReplayTurns | crates/agent/src/workload/tcp.rs:31-104 | on any input the turn loop of either peer completes turns up to the first one of the other side that has more bytes than are left: it has written exactly its own payloads among them, and both counters and the bytes taken are the totals of exactly these turns; it completes all if and only if enough input arrives |
| Replay.NeverStuck | crates/agent/src/workload/tcp.rs:31-136 | in every reachable state over channels of any capacity, a peer can act or both have finished |
| Replay.StepsProgress | crates/agent/src/workload/tcp.rs:31-136 | every step keeps the invariant and decreases the remaining work, so every schedule ends |
| Replay.ReplayComposes | crates/agent/src/workload/tcp.rs:31-136 | for every accepted flow set, flow, capacity and schedule the responder never picks another flow or gives up, and when neither peer can act both have finished, the channels are empty, and each side has received what the other sent |
| Replay.ReplayFromStart | crates/agent/src/workload/tcp.rs:31-136 | so it is from the start, with empty channels and nothing received, for every flow set that validation accepts |
| Rewrite.RewriteHttpRequest | crates/agent/src/replay.rs:111-179 | the appending loop with its flag computes the rewritten request |
| RewriteTexts.PathMeans | crates/agent/src/replay.rs:125-135 | the path of a target is what stands behind http:// and an authority without a slash, a slash if nothing does, and the whole of any other target |
| RewriteTexts.TargetMeans | crates/agent/src/replay.rs:136-147 | for a proxy the scheme and the address stand before that path |
| RewriteTexts.HostMeans | crates/agent/src/replay.rs:161-168 | exactly the lines whose part before the first colon is Host in any case of letters are replaced |
| RewriteLaws.RewritingIsSound | crates/agent/src/replay.rs:111-179 | a request accepted as one message becomes one message with the same method, version and body, the same other header lines in order, the new target, and only Host lines naming the new host |
| RewriteLaws.ServerRewritingIsIdempotent | crates/agent/src/replay.rs:111-179 | rewriting for a server is idempotent on every byte string |
| RewriteLaws.ProxyThenServer | crates/agent/src/replay.rs:125-147 | rewriting for a proxied client and then for a server is rewriting for the server alone if and only if the path starts with a slash |
| RewriteSound.NewLinesFields | crates/agent/src/replay.rs:155-175 | every header field but Host keeps the value it had |
| Artifacts.Receiver.AcceptChunk | crates/agent/src/artifact.rs:21-89 | the update of both tables, the part file and the digest, and the outcome, for every chunk |
| Artifacts.Receiver.FinishTransfer | crates/agent/src/artifact.rs:91-115 | a finished transfer is checked for length and digest, kept as a file or in memory, or removed |
| ChunkOutcomes.ChunkOutcomeIff | crates/agent/src/artifact.rs:21-115 | whatever the agent holds, each of the nine refusals of a chunk, and its acceptance, has its exact condition, with limits of 512 MiB for captures and 64 MiB for other artifacts |
| ChunkOutcomes.ChunkEffect | crates/agent/src/artifact.rs:21-115 | what the agent holds after any chunk: nothing changes unless it comes next; bytes beyond the total leave a transfer as it is, or opened with an empty part file; bytes that fit are appended; a failed digest removes the transfer and its part file; a complete capture stays in the file, a complete payload is taken out |
| Artifacts.SendArtifact | crates/control/src/orchestration.rs:693-759 | the reading loop sends the chunks of a file for every pattern of short reads |
| ChunkOutcomes.ChunkSizes | crates/control/src/orchestration.rs:722-756 | a chunk holds at most 256 KiB, and exactly so much while the file has it at hand and does not end |
| Artifacts.AcceptKeepsConsistent | crates/agent/src/artifact.rs:21-115 | for every chunk: part files hold what was digested and counted, within the declared size and the limit, and no artifact is both incoming and complete |
| Artifacts.RunVerifies | crates/agent/src/artifact.rs:21-115 | over any run of chunks for any artifacts, whatever is complete has the length and digest that one of its last chunks declared |
| Artifacts.CompletedStays | crates/agent/src/artifact.rs:35-40 | a completed artifact never changes, and chunks repeated for it change nothing |
| Artifacts.InterleavingDoesNotMatter | crates/agent/src/artifact.rs:21-115 | what becomes of an artifact in any interleaving, and whether all its chunks are accepted, is as when its chunks come alone |
| Artifacts.EofIsLast | crates/control/src/orchestration.rs:725-756 | the end is announced by the last chunk and by no other |
| Artifacts.TransferIsIdentity | crates/control/src/orchestration.rs:725-756 | any artifact within the limits, empty or not, read in any pieces, arrives byte for byte, and each of its chunks is accepted when its turn comes in any interleaving with other transfers |
| Artifacts.LeftFileBlocks | crates/agent/src/artifact.rs:49-55 | while a part file of an earlier session is left, no chunk for its artifact is accepted and it never completes |
| Artifacts.TransferSucceedsIffNoFileLeft | crates/agent/src/artifact.rs:41-68 | an artifact this session holds nothing of is transferred if and only if no part file of it is left |
| Framing.Reader.Next | crates/agent/src/workload/http1.rs:126-158 | the two read loops and the cuts of the buffer compute the next message and what stays pending |
| Framing.FramingIgnoresReads | crates/agent/src/workload/http1.rs:126-158 | when the header section fits, any delivery gives the message at the front of the stream, and pending with unread bytes is the rest of the stream |
| Framing.FitsIsExact | crates/agent/src/workload/http1.rs:131-144 | a header section is accepted however its bytes arrive if and only if it ends within one byte more than the limit or has been read ahead |
| ExchangeTexts.ReadSizeMeans | crates/agent/src/workload/http1.rs:138-152 | a read returns what has arrived, up to 8192 bytes, and nothing only at the end |
| Framing.SequenceIgnoresReads | crates/agent/src/workload/http1.rs:126-158 | any two deliveries of a stream give the same sequence of messages and leave the same rest |
| Exchange.RequestSays | crates/agent/src/workload/http1.rs:48-56 | the written request announces its body length, the wanted response length and whether to keep the connection, as the server reads them |
| ExchangeTexts.RequestIsSpelled | crates/agent/src/workload/http1.rs:48-56 | the written request, letter by letter |
| ExchangeTexts.ResponseIsSpelled | crates/agent/src/workload/http1.rs:100-104 | the written response head, letter by letter |
| ExchangeTexts.ServerAnswers | crates/agent/src/workload/http1.rs:88-124 | the server answers every message it can read, with as many bytes as X-Response-Bytes asks for or its own payload, zeros if the length differs, and goes on if and only if a Connection field says keep-alive |
| ExchangeTexts.ClientTakes | crates/agent/src/workload/http1.rs:63-76 | the client takes a response if and only if it can read one that begins with HTTP/1.1 2 |
| ExchangeTexts.NumberMeans | crates/agent/src/workload/http1.rs:160-166 | a numeric header is the number below 2^64 in the first field of its name; a missing or unreadable length counts as 0 |
| ExchangeTexts.AnyFieldMeans | crates/agent/src/workload/http1.rs:168-176 | a comparison holds if and only if some field of that name has that value, in any case of letters |
| Exchange.MessageIsRead | crates/agent/src/workload/http1.rs:126-158 | a written message on an idle connection is read exactly and leaves the connection idle |
| Exchange.TalkBalances | crates/agent/src/workload/http1.rs:10-124 | after any number of transactions on a connection, however the bytes arrive, both sides have finished, nothing is left over, client tx is server rx and client rx is server tx, with exact totals |
| ActiveWindow.ActiveCounter.Open | crates/agent/src/telemetry.rs:129-140 | opening accounts the time so far and moves current, minimum and maximum |
| ActiveWindow.ActiveCounter.Close | crates/agent/src/telemetry.rs:167-179 | closing accounts the time so far and moves current and minimum, never below zero |
| ActiveWindow.ActiveCounter.Snapshot | crates/agent/src/telemetry.rs:142-164 | a snapshot reports the window and starts the next one |
| ActiveWindow.RunIsAccounted | crates/agent/src/telemetry.rs:37-179 | over any run with ordered clock readings current is opens minus closes, the weighted time is the integral of the number of open connections since the window started, and the windows' integrals add up to that of the run |
| ActiveWindow.RunIsBounded | crates/agent/src/telemetry.rs:129-179 | minimum and maximum bound every value in the window |
| ActiveWindow.SnapshotMeans | crates/agent/src/telemetry.rs:142-164 | a snapshot reports that integral, and an average between minimum and maximum if and only if the window has lasted or its minimum is zero |
| ActiveWindow.OldReadingCountsTwice | crates/agent/src/telemetry.rs:60-66 | a reading taken earlier but accounted later makes the time between count twice, unless no connection is open |
| LoadSchedule.FindLoad | crates/domain/src/lib.rs:461-490 | the stage loop computes stage, number of clients and inclusion |
| LoadSchedule.PlainLoad | crates/domain/src/lib.rs:462-464 | without stages the load is the one number of clients, included in the results |
| LoadSchedule.RoundMeans | crates/domain/src/lib.rs:476-480 | the target is the nearest whole number within 32 bits, the upper one of two |
| LoadSchedule.SaturatedMeans | crates/domain/src/lib.rs:468-469 | sums and products stop at the largest 64-bit number |
| LoadSchedule.LoadMeans | crates/domain/src/lib.rs:461-490 | for validated stages the stage is the one given by the cumulative durations and the target is that stage's |
| LoadSchedule.StageIsUnique | crates/domain/src/lib.rs:467-470 | no time belongs to two stages |
| LoadSchedule.IndexNeverDecreases | crates/domain/src/lib.rs:467-488 | time never leads back to an earlier stage |
| LoadSchedule.TargetIsBounded | crates/domain/src/lib.rs:449-490 | within the schedule the target lies between the previous stage's and its own and never exceeds the number of workers |
| LoadSchedule.StageIsMonotone | crates/domain/src/lib.rs:473-481 | within one stage the number of clients moves towards its target and never back |
| LoadSchedule.RampEnds | crates/domain/src/lib.rs:473-481 | a ramp starts at the previous target and ends at its own |
| LoadSchedule.PastEndWithinWorkersIff | crates/domain/src/lib.rs:449-490 | at and past the end of the schedule the number of clients is within the number of workers if and only if the last stage holds, or does not rise, or the overshoot rounds away, or the number of workers is the largest 32-bit number |
| LoadSchedule.RampGoesOnPastEnd | crates/domain/src/lib.rs:470-484 | fifty milliseconds past the end of a ramp of one second from 0 to 100 it asks for 105 clients |

## Left out

- Reassembly.ReassemblyMeans: assumes non-empty segments that end below 2^32; streams that pass that end are covered by `SequenceWrap.WrapIff` for segments that do not overlap.
- FlowTable.FlowConservesBytes: payload is everything behind the TCP header, as in the code, so padding of short Ethernet frames counts as payload.
- Http2.ParseDependsOnContent: padding and priority fields count as part of the payload, as the parser takes them; HPACK (RFC 7541) is an arbitrary deterministic decoder.
- Http1Bodies.SplitInvertsPrinting: a well-formed line contains no line feed; lines may contain carriage returns. Tunnels after CONNECT, and responses whose first transfer coding field lists chunked but whose last coding is another one, are left out.
- PcapngSections.SectionsReadIff: sections whose byte order differs from that of the first are left out; the code reads their lengths in the first section's order.
- RewriteLaws.RewritingIsSound: the replacement of ill-formed text in a proxied target is a parameter that keeps ASCII text.
- Artifacts.TransferIsIdentity: SHA-256 is an arbitrary function; disk errors other than an existing part file are not modelled.
- Exchange.TalkBalances: the gate, pauses, think time and timeouts are left out; a header value is trimmed of ASCII white space only.
- LoadSchedule.TargetIsBounded: floating point is modelled by real numbers, with halves rounded upwards.
- ActiveWindow.RunIsAccounted: clock readings are nanoseconds as natural numbers.
- TwoPhase.AllOrNothing: one network operation at a time; interfaces may have changed in any way between planning and the run, but nobody else changes them while it lasts; a lease check and its rollback are one step; the time of a lease, status rows in the database and single-use plan tokens are left out.
- NetworkRuns.CrashSafeUndo: IPv6 addresses, ARP caches and routes are not part of the host; replacing or removing the journal file is atomic.
- The inventory is taken as accurate; its collection from `ip`, `ethtool` and `/sys` is not modelled.
- Addresses are numbers with a prefix length; parsing of dotted and CIDR text, plan warnings and semantic descriptions are left out.
- Counters are unbounded; the widths of packet, byte and duplicate counters are not modelled.
- The replay plan's choice of turns for HTTP and its per-flow scheduling, read timeouts and TLS are left out.
- User interface, REST routes, message conversions, SQL repositories, certificates, payload presets and scenario fields other than load stages are not modelled.
