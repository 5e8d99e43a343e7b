# Verification of SPP (Soft Patch Panel)

A Dafny model of the parts of SPP whose correctness spans whole runs: the
classifier and its live reconfiguration, the capture pipeline, forwarder,
merger and mirror, the flow rules of the primary process with the command
language they travel in, the component commands of `spp_vf`, and the string
buffer that replies are built in.

Concurrent code is a state machine: every indivisible action of a thread is an
event, a run is any interleaving of events, and the main results hold of every
run. The sequential code behind the events is also given in its own form, as
classes and loops on arrays and linked records, and each method is proved
against the function that the run model uses.

| file | part of SPP |
|---|---|
| ClassifierTable, ClassifierProtocol, ClassifierComponent | lookup tables, master/worker/NIC interleavings, code of the classifier |
| CaptureFile, Capture, CaptureContents, CaptureWriter | files of a writer, receiver/writer interleavings, what the files hold, code of `spp_pcap` |
| CaptureProgress, CaptureReader | single turns, starting and stopping; reading capture files back |
| TwoSides, Forwarder, Mirror | two-sided publication, forwarder and merger, deep copy |
| FlowRules, FlowStatus | rule list against device, status text |
| FlowCommand, FlowParser, FlowMeaning, TypedCommands | printing and parsing flow commands in Python and C, commands as a user types them |
| FlowValues, FlowMask, FlowObjects | values and masks of flow items and actions, down to their bytes |
| VfCommands, VfEffects, VfRunner | component and port commands, what each of them does, their records in memory |
| StringBuffer, JsonHelper, CommandResponse, JsonReader | growable buffer, JSON helpers, response builders, reading their texts back |
| Text, Bytes, Sequences | fields, white space and numbers; bytes; distinct sequences |

## Properties that do not hold as one would expect

Each has a lemma with an input or run that shows it, and a lemma with the exact
condition.

- A classifier starts with equal indexes. An update published before the
  worker's first pass is wiped: `UpdateBeforeFirstPassIsLost`,
  `UpdateSurvivesIffIndexesDiffer`, `FirstPassMakesReady`.
- An update that fails half-way leaves its tables behind. A retry on them pushes
  multicast packets twice, and an update with fewer ports leads to a push to a
  TX buffer that is not there: `RetryPushesTwice`, `LeftOverMakesPushMiss`,
  `BuildNeedsWipedSide`, `UpdateSideIsWiped`. References are safe as long as
  the published tables name only ports of their side: `ReferencesAreConserved`,
  `CleanRunsStayOnPorts`.
- A packet that the VLAN operation of a TX port rejects is freed by the
  operation and again by its caller, in the classifier and in the forwarder:
  `TaggedConservesIffNoneRejected`, `ReferencesAreConserved`,
  `RejectedPacketIsFreedTwice`, `ConservesIffNoneRejected`.
- With no writer thread the capture ring is not drained:
  `NotDrainedWithoutWriters`, `DrainedWhenIdle`.
- The rule list and the device part company when the device keeps a rule that
  was rolled back or flushed: `ShadowsStep`.
- The status text of flow rules may lose its end and count as success, and
  for a port without rules it depends on memory that was never written:
  `StatusMayLoseItsEnd`, `SuccessIsWholeIffItFits`,
  `EmptyStatusDependsOnMemory`.
- A printed flow rule is not always read back: `TransferFalseIsLost`,
  `RoundTripIff`; a group or priority reaches the device only if it fits in 32
  bits, and a port number only if it fits in an `int`: `NumberIsKeptIff`,
  `PortIsKeptIff`.
- In a VLAN item the priority and the drop bit are put where the VLAN ID begins,
  so that different tags become the same: `TagsCoincide`,
  `TagIsRightIffNoPriority`. A whole tag is stored in the order of the host:
  `TciIsNetworkOrderIff`. Ranges are checked after the number has been cut:
  `RangesAreOfLowBits`.

- The JSON helpers do not escape: a string is read back exactly if it has neither
  quotes nor backslashes (`StringIsReadIff`).

Two oddities of the code are shown to do no harm. `forward_packets` carries the
count of packets sent from one RX port to the next, which would lose a packet
on a path with an unattached TX port behind an attached one
(`StaleCountLosesPacket`, `ConservesIffUnattachedFirst`); `update_forwarder`
never builds such a path (`BuiltPathConservesIff`). And `del_comp_info` removes
the first entry of a list when it does not find the component; it always does
(`StopListed`).

## Model

| member | source | states |
|---|---|---|
| ClassifierTable.VidOfTag | src/vf/classifier.c:125-140 | The VID of a tagged packet is the low twelve bits of the tag, whatever its PCP and DEI bits (clause 9.6 of IEEE 802.1Q). |
| ClassifierTable.HeaderOfFrame | src/vf/classifier.c:125-140 | Of every frame, octet by octet: a tagged one has the VID of its tag whatever its PCP and DEI, an untagged one the VID 0xfff, and group addresses are those with the lowest bit of their first octet set (the I/G bit of IEEE 802, clause 9.6 of IEEE 802.1Q). |
| ClassifierTable.BuildMembers | src/vf/classifier.c:342-402 | After any number of ports the table of a VID exists exactly if a port of that VID was seen, and lists exactly those ports, in order. |
| ClassifierTable.BuildAnswers | src/vf/classifier.c:342-402 | The MAC entry and the default that the tables give are the last port that asks for them, or none. |
| ClassifierTable.LookupIsScan | src/vf/classifier.c:304-414 | For every configuration, VID and destination the lookup gives the answer of a linear scan of the ports and no other: last exact match, else multicast for a registered VID, else the last default of the VID, else the untagged default, else none. |
| ClassifierTable.FanoutIsOnePerPort | src/vf/classifier.c:500-549 | A multicast packet of a registered VID goes to exactly the ports of the VID, plus the untagged default when the VID is tagged and one exists, none of them twice. |
| ClassifierTable.DestinationsInRange | src/vf/classifier.c:604-632 | Every packet's destinations are distinct TX ports that exist. |
| ClassifierTable.DestinationsAreRoute | src/vf/classifier.c:304-632 | For every configuration and header, a packet goes exactly where the TX ports want it, in order: to the last port that asks for its address; else, to a group, to each port of its VID and the untagged default; else to the default of its VID or the untagged one; else nowhere. |
| ClassifierTable.FrameIsRouted | src/vf/classifier.c:551-632 | The same for every frame, tagged or not, with VID and group bit read off its octets. |
| ClassifierTable.BuildNeedsWipedSide | src/vf/classifier.c:342-402 | Building over left-over tables gives the tables of the configuration if and only if nothing was left over. |
| ClassifierTable.RetryOnLeftOverPushesTwice | src/vf/classifier.c:342-402 | On the tables a failed one-port update leaves, the retried update gives tables that name only that port, and send a multicast packet to it twice. |
| ClassifierTable.WithinIsRouted | src/vf/classifier.c:500-632 | If the tables name only TX ports that exist, so do the destinations of every packet. |
| ClassifierTable.LeftOverNamesMissingPort | src/vf/classifier.c:342-402 | After an update that failed at its second port, an update with the first port alone gives tables that send a multicast packet to port 0 and to port 1, which the side does not have. |
| ClassifierProtocol.SidesAreNeverShared | src/vf/classifier.c:637-702 | In every interleaving of master, worker and driver from differing indexes, the side the master builds or wipes is not the side the worker uses. |
| ClassifierProtocol.UpdateSideIsWiped | src/vf/classifier.c:664-702 | In every run, when an update can begin its side is all zero if and only if no update was given up since the last wipe. |
| ClassifierProtocol.WipeDiscardsNothing | src/vf/classifier.c:444-459 | In every run in which published tables named only ports of their side, the TX buffers of the side being wiped are empty: the worker flushed them before it moved on. |
| ClassifierProtocol.ReferencesAreConserved | src/vf/classifier.c:418-632 | In every run in which published tables named only ports of their side, every TX buffer is below MAX_PKT_BURST; and the reference count of every mbuf is its entries in TX buffers plus copies still to be pushed plus references of the driver, with nothing freed without a reference or pushed outside a buffer, if and only if no VLAN operation rejected a packet in the whole run. |
| ClassifierProtocol.CleanRunsStayOnPorts | src/vf/classifier.c:304-414 | In every run in which no side left over by a failed update was published, published tables named only ports of their side. |
| ClassifierProtocol.TransmitConserves | src/vf/classifier.c:418-441 | Sending any part of a TX buffer and freeing the rest keeps every reference accounted for. |
| ClassifierProtocol.PushSettles | src/vf/classifier.c:463-481 | Pushing one pending copy, with the burst that a full buffer triggers, keeps every reference accounted for unless the VLAN operation rejects a packet of that burst; and once one was rejected, references stay unaccounted for. |
| ClassifierProtocol.WorkerFollowsConfig | src/vf/classifier.c:664-702 | In every run in which no side left over by a failed update was published, the tables the worker uses are those of one complete configuration, and that is the new one as soon as the master stops waiting. |
| ClassifierProtocol.WaitEndsWithNextPass | src/vf/classifier.c:690-693 | While the master waits the worker can finish at most the start of the pass it is in; its next pass ends the wait. |
| ClassifierProtocol.WorkerIsNeverStuck | src/vf/classifier.c:706-764 | In every reachable state, after failed updates too, the worker has a step of its own. |
| ClassifierProtocol.WaitIsBounded | src/vf/classifier.c:690-693 | The master's wait ends: while it lasts the worker makes at most a number of steps that is known when the update is published, and always has a next one. |
| ClassifierProtocol.FirstPassMakesReady | src/vf/classifier.c:637-660 | From the start-up state the worker's first pass leads to the state from which updates are safe. |
| ClassifierProtocol.UpdateSurvivesIffIndexesDiffer | src/vf/classifier.c:664-702 | Whatever the worker does meanwhile, a published update is what the worker ends up with if and only if the indexes differed at publication; otherwise it is wiped. |
| ClassifierProtocol.UpdateBeforeFirstPassIsLost | src/vf/classifier.c:655-702 | For every port there is a run from the start-up state, publishing before the worker's first pass, at whose end the update is wiped. |
| ClassifierProtocol.RetryPushesTwice | src/vf/classifier.c:342-402 | A run: a one-port update fails at its MAC entry, is tried again and published. The published tables name only that port and send multicast packets to it twice. |
| ClassifierProtocol.LeftOverMakesPushMiss | src/vf/classifier.c:342-414 | A run: an update fails at its second port, one with the first port alone is published, the worker takes it over, and a multicast packet is pushed to a TX buffer that is not there. |
| ClassifierProtocol.TaggedConservesIffNoneRejected | src/shared/secondary/spp_worker_th/port_capability.c:344-406 | Sending through the VLAN wrapper keeps references accounted for if and only if the VLAN operation rejects no packet. |
| ClassifierComponent.TxBuffer.Transmit | src/vf/classifier.c:418-441 | The driver takes a prefix of what the VLAN operation processed, the rest is freed, packets the VLAN operation rejected once more, and the buffer is empty. |
| ClassifierComponent.CompInfo.PushPacket | src/vf/classifier.c:463-481 | The packet is behind the others in the buffer of its port, or, if it is the 32nd, the buffer is sent and empty; no other buffer changes; the same as the run model's push. |
| ClassifierComponent.CompInfo.TransmitAllPacket | src/vf/classifier.c:444-459 | Empties every TX buffer of the side; references stay accounted for exactly as long as no packet is rejected. |
| ClassifierComponent.CompInfo.HandleL2Multicast | src/vf/classifier.c:500-549 | Pushes the packet to each port of its fan-out once, in order, with references accounted for, even when a push bursts half-way, exactly as long as no packet is rejected. |
| ClassifierComponent.CompInfo.ClassifyOne | src/vf/classifier.c:604-632 | Pushes one packet to exactly the ports that want it by a scan of the configuration, or frees it when there are none. |
| ClassifierComponent.CompInfo.ClassifyPackets | src/vf/classifier.c:604-632 | Over a whole burst the pushes are exactly each packet to the ports that want it, in order, and no reference is left over unless a packet was rejected. |
| ClassifierComponent.CompInfo.RegisterPort | src/vf/classifier.c:352-402 | Adds one port to the tables, or stops with exactly the entries made before the failing call. |
| ClassifierComponent.CompInfo.InitComponentInfo | src/vf/classifier.c:304-414 | Succeeds when the hash calls do, and then the tables are those built from the old ones, the entry flag tells whether any port is classified, and all buffers are empty. |
| ClassifierComponent.CompInfo.CleanComponentInfo | src/vf/classifier.c:66-74 | The side is all zero, and so are the packet counts of its TX buffers. |
| CaptureFile.FileOperationOwns | src/pcap/spp_pcap.c:495-719 | On every success and failure path of init, rotate and close: the file is open exactly if the output buffer is live, every other buffer was freed exactly once, a close never fails, and init or rotate leave the file open exactly on success. |
| CaptureFile.FileOperationIff | src/pcap/spp_pcap.c:495-719 | An operation succeeds if and only if each of its calls does; a new file then has the file header, the next number and no packets, and a finished one is put aside as it was. |
| CaptureFile.CompressPacketOwns | src/pcap/spp_pcap.c:722-787 | The same for writing a packet, with any rotation and any failing write: the file stays open exactly if the packet was written. |
| CaptureFile.CompressPacketIff | src/pcap/spp_pcap.c:722-787 | A packet is written if and only if the rotation it needs, its header and the segments that hold its first 65535 bytes are written. |
| CaptureFile.WriteSegmentsContents | src/pcap/spp_pcap.c:766-784 | The data loop writes exactly the first bytes of the concatenated segments, as many as remain to be written or exist. |
| CaptureFile.RecordOfPacket | src/pcap/spp_pcap.c:722-787 | A written packet adds a 16-byte header and exactly the first min(65535, length) bytes of its segments to the file (Packet Record section of draft-ietf-opsawg-pcap), and a rotation puts the old file aside and starts the new one with the file header. |
| CaptureFile.SizeIsBounded | src/pcap/spp_pcap.c:722-787 | After a packet the size counter is at most max(limit, LZ4 header) + 16 + 65535. |
| CaptureReader.PacketHeaderIsRead | src/pcap/spp_pcap.c:749-757 | A reader finds in a packet header, least significant byte first, the seconds, the microseconds, min(65535, length) and the length, in this order. |
| CaptureReader.FileHeaderIsRead | src/pcap/spp_pcap.c:699-708 | A reader accepts the file header and finds version 2.4, no time zone, a snapshot length of 65535 and link type Ethernet. |
| CaptureReader.RecordIsRightIffWhole | src/pcap/spp_pcap.c:736-784 | The length in the header of a record is that of the data behind it if and only if the segments of the packet hold that much. |
| CaptureReader.ImageIsRead | src/pcap/spp_pcap.c:722-787 | Reading a file back gives the times, lengths and data of its packets, in order. |
| Capture.StartUpCount | src/pcap/spp_pcap.c:804-930 | In every run the start-up count is the number of capturing threads plus writers that failed while capturing, so its guards never suppress a decrement. |
| Capture.PortIsReadWhenAllStarted | src/pcap/spp_pcap.c:841-866 | In every run packets are taken from the port only when every writer is capturing or failed while capturing. |
| Capture.WriterOwnsFileWhileCapturing | src/pcap/spp_pcap.c:870-940 | In every run a writer has an open file and a live buffer exactly while it captures, and no buffer leaks or is freed twice. |
| Capture.RingHasWriters | src/pcap/spp_pcap.c:896-939 | In every run packets in the ring mean that every writer is capturing or failed while capturing. |
| Capture.DrainedWhenIdle | src/pcap/spp_pcap.c:841-939 | With a writer at all, once every thread is idle and none failed: the ring is empty, every packet taken and not dropped at the ring was written exactly once, and every packet taken was freed exactly once. |
| Capture.NotDrainedWithoutWriters | src/pcap/spp_pcap.c:841-866 | With no writer there is a run that ends idle with a packet in the ring. |
| CaptureProgress.RingIsBounded | src/pcap/spp_pcap.c:852-853 | In every run the ring holds at most what it has room for. |
| CaptureProgress.ReceiverTurnIs | src/pcap/spp_pcap.c:793-867 | In every run the receiver reads the port if and only if a capture is requested, no stop is pending and every writer is counted; then the whole burst is taken, its longest prefix that fits goes behind what is in the ring, and the rest is dropped and freed with the ring full. |
| CaptureProgress.WriterTakes | src/pcap/spp_pcap.c:896-939 | A capturing writer takes the first 256 packets of the ring, or all there are, frees them all, and writes them up to the first that fails, all of them if the calls work. |
| CaptureProgress.WriterRests | src/pcap/spp_pcap.c:898-914 | With an empty ring a capturing writer goes on while the capture runs, and otherwise closes its file, goes idle and is counted down. |
| CaptureProgress.IdleTurnIs | src/pcap/spp_pcap.c:880-895 | An idle writer opens its first file and is counted while a capture runs, ends if it cannot or is told to stop, and otherwise does nothing. |
| CaptureProgress.CaptureStarts | src/pcap/spp_pcap.c:793-940 | From every reachable state with a request and idle writers, one turn of the receiver and one of each writer make every thread capture. |
| CaptureProgress.CaptureStops | src/pcap/spp_pcap.c:793-940 | From every reachable state in which no writer failed, turns of the threads with working calls lead to a state in which all are quiet. |
| CaptureContents.FilesHoldWhatWasWritten | src/pcap/spp_pcap.c:869-940 | In every run in which no writer failed, every file of every writer is the file header followed by exactly the records of the packets put into it, and a packet is in the files of all writers together as often as it is counted as written. |
| CaptureContents.FilesHoldWhatWasTaken | src/pcap/spp_pcap.c:841-939 | With a writer at all, once every thread is idle and none failed, every packet taken from the port and not dropped at the ring is recorded in the files exactly as often as it was taken. |
| CaptureReader.FilesAreReadable | src/pcap/spp_pcap.c:869-940 | In every run in which no writer failed, every file of every writer whose packets are whole is read back as those packets. |
| CaptureWriter.WriterInfo.FileCompressionOperation | src/pcap/spp_pcap.c:495-719 | Changes the writer's record as the file model does, in every mode and for every outcome of the foreign calls, and keeps file and buffer owned together. |
| CaptureWriter.WriterInfo.CompressFilePacket | src/pcap/spp_pcap.c:722-787 | Adds exactly the packet's record to the file, in a new file after a rotation, keeps file and buffer owned together, and leaves the file open exactly on success. |
| CaptureWriter.Pcap.ProcReceive | src/pcap/spp_pcap.c:793-867 | One receiver call changes the process state as the run model's receive event does and keeps the invariant of the run results. |
| CaptureWriter.Pcap.ProcWrite | src/pcap/spp_pcap.c:869-940 | One writer call changes the process state as the run model's write event does and keeps the invariant of the run results. |
| TwoSides.PassReadsOneConfig | src/vf/forwarder.c:154-197 | In every interleaving, also with half-written updates, the worker sees one complete configuration throughout a pass. |
| TwoSides.UpdateIsInForce | src/mirror/spp_mirror.c:240-303 | In every run the worker's side holds the configuration in force, and when the master can leave its wait that is the one just written. |
| TwoSides.ConfigChangesByHandOver | src/vf/forwarder.c:166-177 | Only the start of a worker pass changes the configuration in force, and only to the update the master waits for. |
| TwoSides.WaitEndsWithNextPass | src/vf/forwarder.c:154-156 | A waiting master has seen at most the rest of one pass; the start of the next one ends the wait. |
| TwoSides.UpdateTakesEffect | src/vf/forwarder.c:154-177 | Once the worker has started a pass after a publication, the configuration written is in force on its side and the master can go on. |
| Forwarder.PathBuffer.UpdateForwarder | src/vf/forwarder.c:103-164 | Refuses a forwarder with two RX ports and any component with two TX ports and leaves the path alone; otherwise the RX ports are copied and every used index gets the one TX port. |
| Forwarder.PathBuffer.ForwardPackets | src/vf/forwarder.c:184-235 | Does nothing unless there is one TX port and one RX port, or any number of them for a merger; otherwise it sends what the TX bursts take, frees the rest and rejected packets once more, and conserves packets if and only if none is rejected. |
| Forwarder.PassSends | src/vf/forwarder.c:222-227 | On every path the packets sent are those that the TX bursts of attached ports take. |
| Forwarder.PassIsTakenAndLeft | src/vf/forwarder.c:187-234 | Without an unattached TX port after an attached one, a pass sends what the bursts take and frees what they leave, rejected packets twice and bursts without a port whole. |
| Forwarder.ConservesIffUnattachedFirst | src/vf/forwarder.c:187-234 | While VLAN operations reject nothing, every packet of every burst is sent or freed exactly once, whatever the bursts do, if and only if no unattached TX port comes after an attached one. |
| Forwarder.ConservesIffNoneRejected | src/vf/forwarder.c:187-234 | On every path without an unattached TX port after an attached one, what is sent or freed is what was received plus the rejected packets once more, so that packets are conserved if and only if no VLAN operation rejects one. |
| Forwarder.RejectedPacketIsFreedTwice | src/shared/secondary/spp_worker_th/port_capability.c:344-406 | A rejected packet on a forwarder with an attached TX port is freed twice. |
| Forwarder.StaleCountLosesPacket | src/vf/forwarder.c:187-234 | For every path with an unattached TX port after an attached one, two bursts that lose a packet. |
| Forwarder.BuiltPathConservesIff | src/vf/forwarder.c:145-152 | On a path with one TX port at every used index, packets are conserved if and only if the VLAN operation of that port rejects none: the carried count does no harm. |
| Mirror.DeepCopy | src/mirror/spp_mirror.c:354-388 | For every chain and every pattern of failing allocations: a fresh chain, disjoint from the original, with the same contents in the same order, or null with every segment given back; null exactly if an allocation failed; the original is unchanged. |
| FlowRules.ListStaysDescending | src/primary/flow/flow.c:521-671 | After any sequence of create, destroy and flush the list is strictly descending in rule ID. |
| FlowRules.ShadowsStep | src/primary/flow/flow.c:521-671 | One operation keeps the recorded handles, each once, equal to the device's if and only if the device gives up the rules it is told to. |
| FlowRules.ListShadowsDevice | src/primary/flow/flow.c:521-671 | Over every run in which the device obeys, the list records exactly the device's live handles, creates rolled back half-way included, also when the device gives a freed handle out again. |
| FlowRules.DestroyRemovesOneRule | src/primary/flow/flow.c:583-634 | A destroy the device carries out removes the rule with the ID asked for, and the device loses the handle recorded for it; all other rules stay with their handles and in order; any other destroy changes nothing. |
| FlowRules.CreatePutsRuleFirst | src/primary/flow/flow.c:520-581 | A create the device carries out puts a rule with the handle given in front, with an ID above all others, unless the IDs are exhausted or storage fails; then, and if the device refuses, the list stays. |
| FlowRules.FlushEmptiesList | src/primary/flow/flow.c:636-671 | After a flush no rule is listed and the device holds what it kept. |
| FlowRules.PortFlow.Create | src/primary/flow/flow.c:520-581 | Changes list and device as the model does and returns the ID given, or -1, with the error path for exhausted IDs and failed storage. |
| FlowRules.PortFlow.Search | src/primary/flow/flow.c:584-612 | Finds the first rule with the ID and the rule linked before it. |
| FlowRules.PortFlow.Destroy | src/primary/flow/flow.c:583-634 | Unlinks exactly the rule found, through its neighbour or the head, if the device destroys it. |
| FlowRules.PortFlow.Flush | src/primary/flow/flow.c:636-671 | Empties the list and leaves the device with what it kept. |
| FlowStatus.AppendFlowJson | src/primary/flow/flow.c:969-1041 | Succeeds exactly if every rule can be told, the list fits the buffer and the oldest text fits with its brackets (for no rules: if the text found in memory not yet written does); then the output is the bracketed list, oldest first, as far as the buffer goes. |
| FlowStatus.StatusIsAscending | src/primary/flow/flow.c:986-1032 | After any operations a successful status lists the rules in ascending ID order, whole if and only if list and brackets fit. |
| FlowStatus.SucceedsIff | src/primary/flow/flow.c:986-1032 | The call succeeds if and only if every rule can be told, the list fits the buffer and the oldest text fits with two brackets. |
| FlowStatus.SuccessIsWholeIffItFits | src/primary/flow/flow.c:1021-1032 | A successful call has printed the whole list if and only if list and brackets fit the buffer; otherwise it has lost exactly the closing bracket, or that and the last character of the list. |
| FlowStatus.StatusMayLoseItsEnd | src/primary/flow/flow.c:1021-1032 | Two rules and a buffer for which the call succeeds with a text that lost its end. |
| FlowStatus.EmptyStatusDependsOnMemory | src/primary/flow/flow.c:977-1032 | For a port without rules the call succeeds or not by the text that happens to be in memory not yet written; when it does, it prints an empty list. |
| Text.ParseOfDecimal | src/cli/commands/pri_flow.py:636-645 | Reading a printed number gives the number back, for every integer. |
| FlowCommand.SplitPrint | src/spp-ctl/spp_webapi.py:655-693 | The fields of a printed command are the three leading words, the attributes, and the two lists with a slash behind every item and an end. |
| FlowCommand.ParseAttributes | src/cli/commands/pri_flow.py:626-664 | The attribute loop reads what the grammar of attributes says, failing exactly on a missing or bad number. |
| FlowCommand.ParseItems | src/cli/commands/pri_flow.py:666-721 | The pattern loop and the action loop gather the items between slashes up to the end, stripped of trailing white space as Python knows it. |
| FlowCommand.ParseFlowRule | src/cli/commands/pri_flow.py:602-624 | The three parts are read in order, or there is no rule. |
| FlowCommand.RoundTrip | src/cli/commands/pri_flow.py:602-721 | For every rule with a direction and items free of "/" and "end", parsing the printed command gives the rule, items stripped of trailing white space, an empty list as one empty item, transfer only if set. |
| FlowCommand.RoundTripIff | src/cli/commands/pri_flow.py:602-721 | For every rule with a direction the printed command is parsed to the same rule if and only if transfer is not false and both lists are non-empty, free of "/" and "end", and without trailing white space. |
| FlowCommand.TransferFalseIsLost | src/spp-ctl/spp_webapi.py:676-679 | A rule with transfer false comes back without transfer. |
| TypedCommands.TypedIsRead | src/cli/commands/pri_flow.py:602-721 | Every command with attributes in any order and number, unknown words and any items is read, if and only if its numbers are numbers, as the last value of each attribute and the items closed by slashes; words that no slash closes are lost. |
| TypedCommands.IncompleteIsRefused | src/cli/commands/pri_flow.py:602-664 | Without the word pattern, or with a keyword at the end, there is no rule. |
| TypedCommands.AttributesAreTold | src/primary/flow/attr.c:9-81 | The primary process reads attributes in any order and number, the last value counting and both directions if both are given; it refuses if and only if a word is unknown, a number is none or pattern is missing. |
| FlowParser.ParseFlowAttr | src/primary/flow/attr.c:9-81 | The attribute loop reads what the attribute grammar says, numbers by strtoul cut to 32 bits, failing on a missing number, a bad number, an unknown word and a missing pattern. |
| FlowParser.StrtoulOfDecimal | src/primary/flow/common.c:98-283 | Every printed integer is read back by strtoul in base 10 and in base 0, as an unsigned long. |
| FlowParser.StrtoulOfHex | src/primary/flow/common.c:98-283 | Every printed hexadecimal number is read back in base 0 and in base 16. |
| FlowParser.StrtoulOfOctal | src/primary/flow/common.c:98-283 | A number that starts with a zero is octal where the base is left open. |
| FlowParser.ParseItemField | src/primary/flow/common.c:285-460 | One relation and its value write to the value, bound and mask objects as the field grammar says, or are refused. |
| FlowParser.ParseItemCommon | src/primary/flow/common.c:462-538 | The field loop of an item reads up to the slash what the item grammar says. |
| FlowParser.ParseActionCommon | src/primary/flow/common.c:540-615 | The argument loop of an action reads up to the slash what the action grammar says. |
| FlowParser.ParseFlowPattern | src/primary/flow/flow.c:324-377 | The pattern loop reads items up to and including the end as the pattern grammar says. |
| FlowParser.ParseFlowActions | src/primary/flow/flow.c:256-321 | The action loop reads actions up to and including the end as the action grammar says. |
| FlowParser.ParseFlowRule | src/primary/flow/flow.c:380-429 | The port is read from the third word, then attributes, pattern and actions in this order, with the keyword between them. |
| FlowMeaning.ItemIsRead | src/primary/flow/common.c:462-538 | For every list of clauses the parser finds exactly the writes they stand for on value, bound and mask, in order, or refuses, exactly if some field, relation or value is invalid. |
| FlowMeaning.ItemIsCutOff | src/primary/flow/common.c:285-300 | A command that ends behind a field, or behind its relation, makes the parser look behind the end of the words. |
| FlowMeaning.PatternIsRead | src/primary/flow/flow.c:324-377 | For every pattern the parser finds its items in order, closed by one end entry, or refuses exactly if some item is invalid. |
| FlowMeaning.ActionsAreRead | src/primary/flow/flow.c:256-321 | The same for actions. |
| FlowMeaning.AttributesAreRead | src/primary/flow/attr.c:9-81 | The printed attributes of every accepted rule give that rule's attributes. |
| FlowMeaning.NumberIsKeptIff | src/primary/flow/attr.c:23-49 | The group or priority the device gets is the one in the rule if and only if it fits in 32 bits. |
| FlowMeaning.NumberIsLowBits | src/primary/flow/attr.c:23-49 | The device gets the low 32 bits of a group or priority, negative ones included, or all ones beyond 64 bits. |
| FlowMeaning.PortIsKeptIff | src/primary/flow/common.c:34-60 | The port the primary process gets is the one in the command, negative ones included, if and only if it fits in an int. |
| FlowMeaning.UidIsRead | src/primary/flow/common.c:34-60 | A resource is read as a port if and only if it is a physical one, with a queue or without. |
| FlowMeaning.CommandIsUnderstood | src/primary/flow/flow.c:380-429 | The command spp-ctl prints for a rule is read by the primary process as exactly the port, attributes, items and actions the rule spells, in order, each list closed by one end entry, or is refused if and only if some type, field, relation or value is invalid. |
| FlowMeaning.SppPatternShaped | src/primary/flow/flow.c:31-116 | With the tables of spp_primary every pattern of clauses with values qualifies for the result above. |
| FlowMeaning.SppActionsShaped | src/primary/flow/flow.c:31-116 | The same for every list of actions whose arguments have values, `of_pop_vlan` having none. |
| FlowValues.AddressIsReadBack | src/primary/flow/common.c:63-96 | The text of an Ethernet address, as the status prints it, is converted to exactly its bytes; of a shorter one only the first bytes are written, and seven to ten octets are refused. |
| FlowValues.LongAddressIsCut | src/primary/flow/common.c:76-77 | Of a word of 32 characters or more only the first 32 count. |
| Bytes.ByteValue | src/primary/flow/common.c:82-86 | Cutting a number to a byte keeps it modulo 256. |
| FlowValues.SixteenBits | src/primary/flow/common.c:225-267 | Numbers that agree in their low 16 bits are stored alike, in network order and in the order of the host. |
| FlowValues.RangesAreOfLowBits | src/primary/flow/common.c:114-223 | A priority is accepted if and only if the low 8 bits of the number are below 8, a drop bit if and only if they are below 2, a VLAN ID if and only if the low 16 bits are below 4096. |
| FlowValues.TciIsNetworkOrderIff | src/primary/flow/common.c:98-112 | A TCI is stored in network order if and only if the host is big-endian or both of its bytes are the same. |
| FlowMask.PrefixMask | src/primary/flow/common.c:401-450 | Refuses exactly a prefix longer than the field; otherwise every byte of the field gets its share of leading ones and nothing outside the field changes. |
| FlowMask.PrefixBits | src/primary/flow/common.c:428-450 | Bit k of the mask, most significant first across bytes, is set if and only if k < prefix. |
| FlowObjects.MaskOfItem | src/primary/flow/common.c:285-460 | In the mask object of a parsed item, whatever came before and unless a later clause is about the same bytes, a prefix clause leaves exactly the first bits of its field set and an is clause leaves them all set. |
| FlowObjects.ValueOfItem | src/primary/flow/common.c:285-340 | In the value object of a parsed item, whatever came before and unless a later clause is about the same bytes, a field holds exactly the bytes that its word is converted to. |
| FlowObjects.AddressOfItem | src/primary/flow/pattern/eth.c:11-35 | A printed address given with is for the source or destination of an eth item is in the value byte for byte, and the mask compares all of its bits. |
| FlowObjects.TypeOfItem | src/primary/flow/common.c:225-248 | The type of an eth item is the low 16 bits of the number given, in network order. |
| FlowObjects.ValueOfAction | src/primary/flow/common.c:540-615 | In the object of a parsed action, whatever came before and unless a later argument is about the same bytes, a field holds exactly the bytes that its word is converted to. |
| FlowObjects.IndexOfAction | src/primary/flow/common.c:250-267 | The index of a queue action is the low 16 bits of the number given, in the order of the host. |
| FlowObjects.GroupOfAction | src/primary/flow/common.c:269-283 | The group of a jump action is the low 32 bits of the number given, in the order of the host. |
| FlowObjects.TypeAndVidOfAction | src/primary/flow/common.c:225-248 | The type of a pushed tag and the VLAN ID set are the low 16 bits of the number given, in network order. |
| FlowObjects.PriorityOfAction | src/primary/flow/common.c:114-132 | The priority set, if it is accepted, is below 8 and is the one byte of its object. |
| FlowObjects.TagIsRightIffNoPriority | src/primary/flow/common.c:134-223 | For every priority, drop bit and VLAN ID, a vlan item that gives all three has in its value three bits of priority, one drop bit and twelve bits of VLAN ID if and only if priority and drop bit are zero. |
| FlowObjects.TagsCoincide | src/primary/flow/common.c:134-223 | Priority 1 in VLAN 0 and no priority in VLAN 512 give the same value. |
| FlowObjects.WritePrefix | src/primary/flow/common.c:401-450 | The prefix loops leave in memory what the parser's write stands for. |
| VfCommands.CommandsKeepLimits | src/vf/vf_cmd_runner.c:219-379 | After every sequence of commands no component has a port twice in one direction and every component is within the limits of its type. |
| VfCommands.CoresListTheirComponents | src/vf/vf_cmd_runner.c:121-214 | After every sequence of commands the list of each core names exactly the components on it, each once, and has room for them. |
| VfCommands.StopListed | src/vf/vf_cmd_runner.c:182-206 | A component that stops is in the list of its core, so that del_comp_info removes it and no other. |
| VfCommands.UpdatesAreAccepted | src/vf/vf_cmd_runner.c:519-550 | After every sequence of commands the checks of update_forwarder refuse no forwarder and no merger. |
| VfCommands.NoPortGetsAPacketTwice | src/vf/vf_cmd_runner.c:304-350 | A classifier configured by any sequence of commands sends no packet to one port twice. |
| VfCommands.AddThenDelete | src/vf/vf_cmd_runner.c:297-374 | Deleting a port just added gives back every component as it was. |
| VfCommands.StepKeeps | src/vf/vf_cmd_runner.c:121-379 | Every command keeps the limits, distinct ports, that a name denotes one component, and that a record with a name has a type. |
| VfEffects.StartTakesFreeRecord | src/vf/vf_cmd_runner.c:138-180 | Starting is refused if and only if the core is not usable, the name is taken or no record is free; otherwise the first free record becomes the component, without ports and marked changed, and is last in the list of its core. |
| VfEffects.StopFreesRecord | src/vf/vf_cmd_runner.c:184-207 | Stopping clears the record of the component and takes it, and no other, out of the list of its core, in order; nothing else changes. |
| VfEffects.UnknownName | src/vf/vf_cmd_runner.c:184-282 | With a name that denotes nothing, a stop succeeds and a port command fails, and nothing changes. |
| VfEffects.AddPutsPortLast | src/vf/vf_cmd_runner.c:297-350 | Adding a port is refused if and only if the type allows no more, the component is full or no slot is free for the ability; otherwise the port is last in its direction, the component is marked changed, and the first free slot of the port, and no other, has the ability. |
| VfEffects.AddAgainReplacesTag | src/vf/vf_cmd_runner.c:305-326 | Adding a port again replaces the tag it adds, if it adds one, and changes nothing else. |
| VfEffects.DeleteRemovesPort | src/vf/vf_cmd_runner.c:355-378 | Deleting takes the port out of that direction of the component, keeping the others in order, and clears exactly the port's abilities of that direction. |
| VfRunner.GetIdxPortInfo | src/shared/secondary/spp_worker_th/cmd_utils.c:640-656 | Finds the last index of a port. |
| VfRunner.DeletePortInfo | src/shared/secondary/spp_worker_th/cmd_utils.c:679-702 | Closes the gap of the port found in place, keeping the order of the others, or changes nothing. |
| VfRunner.DelCompInfo | src/shared/secondary/spp_worker_th/cmd_runner.c:408-432 | Removes the last entry of the component in place, or the first entry of the list when it is not there, keeping the order of the others; on an empty list it clears the first place. |
| VfRunner.Runner.UpdateComp | src/vf/vf_cmd_runner.c:121-214 | Starting and stopping change the records, the lists of the cores and the flags as the command model does, other records untouched. |
| VfRunner.Runner.UpdatePort | src/vf/vf_cmd_runner.c:257-379 | Adding and deleting a port change the records, abilities and flags as the command model does, other records untouched. |
| VfRunner.Runner.UpdateCompInfo | src/vf/vf_cmd_runner.c:518-550 | Activates the changed components in order and stops at the first that fails; it fails if and only if building the tables of a changed classifier does. |
| StringBuffer.Reallocate | src/shared/secondary/string_buffer.c:22-40 | The doubling loop ends for every capacity of at least one; the new buffer has room for the length required and holds the same text. |
| StringBuffer.Append | src/shared/secondary/string_buffer.c:73-95 | The buffer given back holds the concatenation, and is the old one when that has room. |
| StringBuffer.RemoveFront | src/shared/secondary/string_buffer.c:97-110 | The buffer holds the text without its first characters. |
| JsonHelper.AppendJsonNumber | src/shared/secondary/json_helper.c:24-62 | The room made is enough for every name and every 32-bit number, and the text gets one more member. |
| JsonHelper.AppendJsonStr | src/shared/secondary/json_helper.c:64-83 | The room made is enough, and the text gets one more member with a string value. |
| JsonHelper.AppendJsonArray | src/shared/secondary/json_helper.c:85-107 | The room made is enough, and the text gets one more member with an array. |
| JsonHelper.AppendJsonBlock | src/shared/secondary/json_helper.c:109-136 | The room made is enough, and the text gets one more block, with a name if there is one. |
| JsonReader.MembersAreRead | src/shared/secondary/json_helper.c:24-136 | Members joined by the helpers are read back, names and values, in order. |
| JsonReader.AppendedIsRead | src/shared/secondary/json_helper.c:24-107 | Appending a member to members gives, for a reader, the same members and one more. |
| JsonReader.BlockIsRead | src/shared/secondary/json_helper.c:109-136 | A block with a name is read as that name and the block. |
| JsonReader.StringIsReadIff | src/shared/secondary/json_helper.c:64-83 | A string is read back if and only if it has neither quotes nor backslashes. |
| CommandResponse.AppendResponseList | src/shared/secondary/spp_worker_th/cmd_res_formatter.c:362-416 | The output holds its text with the fragments added, unless a fragment or an allocation fails. |
| CommandResponse.FragmentsAreJoined | src/shared/secondary/spp_worker_th/cmd_res_formatter.c:377-412 | Adding fragments one by one gives the ", "-join of the non-empty ones, the text before them included. |
| CommandResponse.JoinShape | src/shared/secondary/spp_worker_th/cmd_res_formatter.c:377-412 | Cut between any two fragments, a join is a join, one separator and a join. |
| CommandResponse.AppendCommandResults | src/shared/secondary/spp_worker_th/cmd_res_formatter.c:418-477 | The output gets one member whose array is the join of one block for every result, each the join of its non-empty fragments. |
| JsonReader.ResultsAreRead | src/shared/secondary/spp_worker_th/cmd_res_formatter.c:418-477 | The results of a command are read back as one block each, in order, and each block as its fragments that are not empty. |

## Left out

- DPDK, LZ4, stdio, sockets, clocks, logging and HTTP are foreign. Their calls
  enter as outcomes, chosen freely: a TX burst takes a prefix, the ring is a
  FIFO, the hash is a map in which a new entry replaces an old one. The timed
  drain of `classify_packets` is a free choice.
- ClassifierProtocol.ReferencesAreConserved: says nothing of references once
  tables that name a port their side does not have were published, which takes
  a failed update before.
- ClassifierTable.LookupIsScan: MAC addresses are compared on their low 48 bits,
  as the hash key is.
- Capture.DrainedWhenIdle: one call of `pcap_proc_receive` or
  `pcap_proc_write` is one step, so the separate reads of ring and flag, and the
  unlocked counter, are not interleaved.
- CaptureFile.FileOperationOwns: the `malloc` of the output buffer, whose result
  the code does not check, succeeds.
- Forwarder.PathBuffer.UpdateForwarder: the path array is large enough for the
  ports of the component, whose bound is that of the record.
- Mirror.DeepCopy: header fields that are copied one by one are kept as one
  value with the data; the tail of `mirror_proc` that discards packets is not
  modelled.
- FlowStatus.AppendFlowJson: rule texts are given, and have passed through a
  buffer of the same size.
- FlowParser.ParseItemField: which words a conversion accepts is a parameter, so
  that the results on parsing hold of any; FlowValues defines the conversions.
  Memory for objects is had.
- FlowValues.LongAddressIsCut: the copy of such a word has no terminator, so the
  code reads on into the text behind it, which is a parameter.
- FlowParser.ParseFlowRule: words that make the code look behind the end of the
  word list give `Undefined`; the limit of 48 words, the size of the message
  buffer and texts with a NUL character are not modelled.
- CaptureProgress.RingIsBounded: the room in the ring is a parameter.
- FlowCommand.ParseAttributes: of the numbers that Python reads, those with
  underscores, white space around them or digits other than 0 to 9 are not
  modelled.
- VfCommands.StepKeeps: the attributes of classifier tables are not modelled,
  nor is what a stop does to the classifier.
- VfRunner.Runner.UpdateComp: the two sides of a core's list are one list.
- StringBuffer.Reallocate: capacities are unbounded, so the doubling does not
  wrap around, and freeing the old buffer is not modelled.
- StringBuffer.RemoveFront: the number of characters is at most the length of the
  text; beyond it the code moves memory from behind the buffer.
- JsonHelper.AppendJsonNumber: to make room, the helpers copy as many bytes as
  they need from a literal "" (src/shared/secondary/json_helper.c:29, 49, 70, 94
  and 121), reading behind its end; the model gives these bytes as any text. The
  same holds of AppendJsonStr, AppendJsonArray and AppendJsonBlock.
- Port capability swapping, the statistics and status texts of other processes,
  the CLI shell, `spp_nfv` and the pipe driver would add members without adding
  to the results above.
