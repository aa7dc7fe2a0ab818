# Bluetooth audio path: a verified model

A Dafny model of the code that carries Bluetooth audio between a USB radio, the Bluetooth
daemon and the desktop audio graph, with proofs of what that code promises over every input
and every run. `dafny verify dfyconfig.toml` checks the whole project.

| file | models |
|---|---|
| `Hci.dfy` | framing of HCI packets: the byte-by-byte reassembler and its laws |
| `Wire.dfy` | `Wire`, the packets built byte by byte from what they say, and their round trip; `LinkLaws`, what the link machine does with each of them |
| `Transport.dfy` | `TransportSpec`, the tracked synchronous link as a state machine with the traces it emits; `Transport`, the objects that refine it |
| `Endpoints.dfy` | endpoint discovery against an order-independent specification |
| `UsbOwner.dfy` | `Transfers`, libusb, a clock and the bounded receive queue; `UsbOwner`, the owner of the 72 transfer slots |
| `Daemon.dfy` | the main loop: received fragments and host packets become actions, executed in order against the USB owner |
| `Lease.dfy` | `LeaseSpec`, the audio-session lease as a state machine with an adversarial native stack; `Lease`, the daemon object that refines it |
| `LeaseLaws.dfy` | what callers of the lease daemon may rely on, over its events and answers |
| `Bridge.dfy` | the automatic profile machine of the audio bridge, as one function per timer tick |
| `ProfileLaws.dfy` | what the profile machine does in each situation a user can tell apart |
| `BridgeClient.dfy` | the bridge composed with the daemon: every call it makes, with anything happening in between |
| `Arithmetic.dfy` | three facts about products |
| `Ring.dfy` | the byte rings: copying between two wrapping buffers, and a FIFO queue on a ring |
| `Pcm.dfy` | playback, voice and capture queues with sample credit and overrun shedding |
| `Downmix.dfy` | decoding, averaging and encoding of signed little-endian samples through a wrapping source |
| `Sessions.dfy` | whole voice and music sessions under any mix of operations |
| `Clock.dfy` | the bounded PI clock controller and the transport positions, over the reals |
| `Cadence.dfy` | the aptX and aptX HD packet cadence |

Code that changes fields step by step is a class whose methods are proved against pure
functions of the old state; properties of whole runs are lemmas about those functions or
invariants of a driver method. What such a function answers is described a second time,
without it, by laws over packets built byte by byte, events and answers, or literal numbers. Everything the model cannot see is a nondeterministic choice:
libusb may refuse any request and complete any submitted transfer with any status, the native
Bluetooth stack may report anything at any time, sockets may take or deliver any amount, and
other clients may use the daemon between any two calls of the bridge. The objects that make
these choices count their refusals, so that contracts can say that an operation fails only
after one.

Two promises of the design do not hold of the code, and the model keeps the code.

- Once the missing-PCM probe has failed, HFP is supposed not to be attempted again while A2DP
  is available. A tick does attempt it in two situations: a codec request made while the
  bridge is on HFP is refused, so that the old transport is restored
  (`pw-floss/src/pw-floss.c:1503-1508`), or the decision for HFP was taken before the device
  snapshot of the same tick brought A2DP back (lines 1471-1489). `BrokenHfpIsAttemptedExactly`
  states that these are exactly the cases; `BrokenHfpCanBeAttempted` and
  `BrokenHfpCanBeDecidedEarly` give a run from start-up for each.
- The capture source is supposed to exist exactly when the device has a microphone and the
  profile is Automatic or Handsfree. A bridge for which a music profile is requested while its
  card is exported enters the main loop without one, under Automatic
  (`pw-floss/src/pw-floss.c:1656-1663`), and stays so until its first completed switch.
  `ReachableStatesAreCoherent` gives the exact condition, `MicrophoneCanBeMissing` the run.

## Main results

Everything else in the table below serves these.

| result | where |
|---|---|
| framing round trip of every packet under any fragmentation, and invisible fragment boundaries | `Wire.SentIsReceived`, `Hci.FramingRoundTrip`, `TransportSpec.FragmentsAreInvisible` |
| the link tracked, counted and announced in order, in every run | `TransportSpec.RunsAreFaithful`, `TransportSpec.ScoFramesAllForwarded` |
| what becomes of every packet of the host and of the controller | `LinkLaws.WellFormedIsServed`, `LinkLaws.MalformedFails`, `LinkLaws.AnnouncementIsFollowed`, `LinkLaws.AclSurvivesBoundaries` |
| discovery against a declarative, order-independent specification | `Endpoints.Discover`, `Endpoints.PublishedPacketFits` |
| transfer ownership and standing receives under any completions | `UsbOwner.Usb.Completed`, `UsbOwner.Usb.PumpEvents`, `UsbOwner.Usb.Cancel`, `UsbOwner.Usb.SetSco`, `UsbOwner.Usb.Send` |
| end-to-end order from everything received to everything executed | `Daemon.Daemon.Run` |
| lease safety in every daemon run | `LeaseSpec.TokensIncrease`, `LeaseSpec.PhasesOnlyAdvance`, `LeaseSpec.StoppingHoldsOverRuns`, `LeaseSpec.RunsAreCoherent` |
| who is granted a lease and what its listener is told | `LeaseLaws.ReservationIsGrantedExactly`, `LeaseLaws.StartIsAcceptedExactly`, `LeaseLaws.StartedListenerIsTold` |
| the bridge composed with the daemon | `BridgeClient.AudioBridge.Serve`, `BridgeClient.AudioBridge.Tick` |
| profile coherence, and both exact conditions | `ProfileSpec.ReachableStatesAreCoherent`, `ProfileSpec.BrokenHfpIsAttemptedExactly` |
| the automatic decision in every situation, and over runs | `ProfileLaws.RecorderBringsHfp`, `ProfileLaws.IdleBringsMusic`, `ProfileLaws.FixedProfileDecides`, `ProfileLaws.BackOff` |
| rings as FIFO queues, capture alignment and credit conservation | `Ring.CopyChunk`, `Sessions.VoiceSession`, `Sessions.MusicSession` |
| downmix through a wrapping source | `Downmix.ProcessStereo`, `DownmixSpec.EncodedAverageMixes` |
| bounded clock recovery over any run | `ClockSpec.RunsStayBounded`, `ClockSpec.RateReacts`, `Clock.TransportPosition.PlaybackLevel` |
| exact codec cadence for every packet count | `CadenceSpec.CadenceIsExact`, `Cadence.Encoder.SendFrames` |

## Model

| member | source | states |
|---|---|---|
| `Hci.UnfinishedIsBounded` | floss-usb/src/transport.rs:41-49 | a fragment that is retained between calls is shorter than 4096 bytes |
| `Hci.FeedConserves` | floss-usb/src/transport.rs:15-59 | every byte of an accepted input ends up, in order, in exactly one emitted packet or in the retained fragment; every emitted packet is whole, and a synchronous one carries the current handle; only ACL data can be oversized |
| `Hci.FeedAppend` | floss-usb/src/transport.rs:15-59 | cutting an input in two at any place changes neither the packets nor the retained fragment, as long as the first part is consumed; an error or a foreign synchronous header in the first part ends the whole input there |
| `Hci.FeedCompletes` | floss-usb/src/transport.rs:15-59 | from any proper prefix of a whole packet, the remaining bytes complete exactly that packet and leave the reassembler empty |
| `Hci.FeedRetains` | floss-usb/src/transport.rs:15-59 | a packet that is not finished is retained byte for byte |
| `Hci.FeedParses` | floss-usb/src/transport.rs:15-59 | whole packets followed by an unfinished one parse to exactly those packets and that rest |
| `Hci.FeedAllIsFeed` | floss-usb/src/transport.rs:15-59 | calls per fragment give what one call on the concatenation gives, errors included; only after a foreign synchronous header, which discards the rest of its own call, may later fragments add packets behind the same ones |
| `Hci.ForeignHeaderTellsPiecesApart` | floss-usb/src/transport.rs:36-39 | a concrete pair of fragments for that exception: a packet of the link after a foreign header is heard on its own and lost in one piece |
| `Hci.FramingRoundTrip` | floss-usb/src/transport.rs:14-59 | any sequence of well-formed packets, concatenated and cut into arbitrary fragments, comes out as exactly those packets in order with nothing left over |
| `Wire.BuiltIsWhole` | floss-usb/src/transport.rs:41-50 | every packet built from a handle or event code, its flags and its payload, byte by byte and within the limits, is one that the reassembler takes for whole |
| `Wire.WholeIsBuilt` | floss-usb/src/transport.rs:41-50 | and there are no others: what it takes for whole can be built |
| `Wire.SentIsReceived` | floss-usb/src/transport.rs:14-59 | whatever packets are built and however their bytes are cut, exactly those packets come out, in order, with nothing left over |
| `Wire.BeginningStays` | floss-usb/src/transport.rs:25-33 | after any packets, the first bytes of one more are retained, whatever their number |
| `Wire.OversizedFails` | floss-usb/src/transport.rs:41-49 | after any packets, an ACL header that announces more than 4092 bytes ends the input with an error, and the packets before it are out |
| `Wire.ForeignHeaderDiscards` | floss-usb/src/transport.rs:36-39 | after any packets of the link, a synchronous header of another handle discards the rest of the fragment, and the packets before it are out |
| `Transport.Framer.Push` | floss-usb/src/transport.rs:15-59 | one call refines the reassembler for every kind: whole frames with their kind byte, the retained rest, the discarded foreign synchronous header, the oversized and unsupported errors |
| `Transport.Transport.TrackEvent` | floss-usb/src/transport.rs:86-121 | connection, duplicate, second connection, bad connection and disconnection events change the link, the synchronous fragment and the counters as the link machine does |
| `Transport.Transport.DeliverFrame` | floss-usb/src/transport.rs:85-130 | one reassembled packet is tracked, counted and forwarded as the link machine does |
| `Transport.Transport.DeliverFrames` | floss-usb/src/transport.rs:85-131 | the loop over reassembled packets delivers them one after another, stopping at the first error |
| `Transport.Transport.FromUsb` | floss-usb/src/transport.rs:73-131 | one call takes the step of the link machine and keeps its invariant, also when it fails |
| `Transport.Transport.FromHost` | floss-usb/src/transport.rs:132-168 | validation of host packets, Reset, and dropping of synchronous data for another handle, as the link machine does them |
| `Transport.Transport.Take` | floss-usb/src/transport.rs:73-168 | one input of either side takes the step of the link machine |
| `TransportSpec.RunsAreFaithful` | floss-usb/src/transport.rs:73-168 | in every error-free run: the last configured mode in the emitted trace is the tracked link's (0 if none), synchronous data and connection events only follow the matching configuration, and both byte counters equal the payload forwarded since the link was established |
| `TransportSpec.OrderedEverywhere` | floss-usb/src/transport.rs:108-128 | in an ordered trace, what precedes each single action admits it |
| `TransportSpec.StepKeepsInv` | floss-usb/src/transport.rs:73-168 | across connect, duplicate, disconnect, reset and errors, a retained synchronous fragment with a complete header belongs to the current link, and no fragment is retained without a link |
| `TransportSpec.UsbKeeps` | floss-usb/src/transport.rs:73-131 | received bytes keep the trace faithful to the tracked link |
| `TransportSpec.HostKeeps` | floss-usb/src/transport.rs:132-168 | host packets keep the trace faithful to the tracked link |
| `TransportSpec.StepKeeps` | floss-usb/src/transport.rs:73-168 | any input keeps the trace faithful to the tracked link |
| `TransportSpec.RunNext` | floss-usb/src/transport.rs:73-168 | a run with one more input is the run before it followed by one step |
| `TransportSpec.FaithfulThen` | floss-usb/src/transport.rs:73-131 | what keeps a trace faithful after some actions keeps it so when they are counted as emitted with it |
| `TransportSpec.ScoFramesAllForwarded` | floss-usb/src/transport.rs:122-128 | every reassembled synchronous frame carries the current handle and reaches the host, so that the second handle check never drops one; the receive counter grows by exactly their payload |
| `TransportSpec.ForwardAll` | floss-usb/src/transport.rs:122-128 | delivery of frames of the current handle forwards each of them and changes nothing but the counter |
| `TransportSpec.DeliverAppend` | floss-usb/src/transport.rs:85-131 | delivering two lists of packets one after the other is delivering their concatenation |
| `TransportSpec.DeliverNext` | floss-usb/src/transport.rs:85-131 | delivering the packets from one on is delivering it and then the rest, and stops at its error |
| `TransportSpec.DeliverIgnoresBuffer` | floss-usb/src/transport.rs:85-131 | delivering events or ACL packets neither reads nor changes the fragment of their own kind |
| `TransportSpec.DeliverTwice` | floss-usb/src/transport.rs:85-131 | packets of two fragments are delivered as those of one, whatever fragment is retained, also when the first delivery fails |
| `TransportSpec.AclNeverFails` | floss-usb/src/transport.rs:85-131 | delivering ACL packets cannot fail |
| `TransportSpec.FragmentsAreInvisible` | floss-usb/src/transport.rs:73-131 | for arbitrary ACL and event bytes, feeding a and then b gives the actions and the final state of feeding a+b; the concatenation fails exactly when one of the fragments does, with the same error |
| `LinkLaws.WellFormedIsServed` | floss-usb/src/transport.rs:132-168 | every well-formed command and ACL packet of the host is forwarded unchanged and nothing else happens; Reset also takes the link down first; synchronous data of the current handle is forwarded with its payload counted, and that of another is dropped |
| `LinkLaws.MalformedFails` | floss-usb/src/transport.rs:132-151 | a packet that is none of these is an error and changes nothing |
| `LinkLaws.AnnouncementIsFollowed` | floss-usb/src/transport.rs:86-121 | a successful connection event configures its own mode, resets the counters and then reaches the host; the same one again only reaches the host; another, a bad handle or a bad mode is an error; a disconnection of the current handle takes the link down first, and one of another handle only reaches the host |
| `LinkLaws.OtherEventsAreForwarded` | floss-usb/src/transport.rs:86-130 | any other event reaches the host and changes nothing |
| `LinkLaws.FedIsOneFragment` | floss-usb/src/transport.rs:73-131 | any number of ACL or event fragments do what their concatenation does |
| `LinkLaws.AclSurvivesBoundaries` | floss-usb/src/transport.rs:73-131 | ACL packets reach the host unchanged and in order however the controller cuts them, and change nothing else |
| `LinkLaws.ScoReachesTheHost` | floss-usb/src/transport.rs:122-130 | synchronous packets of the current handle reach the host in order, and exactly their payload is counted |
| `LinkLaws.NoLinkNoSco` | floss-usb/src/transport.rs:74-77 | without a link synchronous data is dropped |
| `Endpoints.LastOf` | floss-usb/src/usb.rs:385-405 | the endpoint that counts is the last one of its transfer kind and direction; none is reported exactly when there is none |
| `Endpoints.ScanEndpoints` | floss-usb/src/usb.rs:384-405 | the scan of one alternate finds the last endpoint of each transfer kind and direction, and only on the interface it is looked for on |
| `Endpoints.Absorb` | floss-usb/src/usb.rs:380-427 | how one alternate changes the selection: control endpoints, wide-band choice, wanted isochronous endpoints |
| `Endpoints.Discover` | floss-usb/src/usb.rs:377-433 | discovery succeeds exactly when the descriptors offer the wanted alternate and the control endpoints, and then meets the declarative specification of every published field; otherwise it is -ENOTSUP |
| `Endpoints.ReportedAlternateIsDiscoverable` | floss-usb/src/usb.rs:406-433 | the alternate reported for wide-band speech can be discovered on the same descriptors and reports itself again, with a positive endpoint size |
| `Endpoints.PublishedPacketFits` | floss-usb/src/usb.rs:406-426 | with unique settings, a packet of the published size plus its 3-byte header fits the endpoint of alternate 6 |
| `Endpoints.WideBandIgnoresOrder` | floss-usb/src/usb.rs:412-419 | reordering or repeating descriptors does not change the wide-band choice |
| `Endpoints.DirectionIsABit` | floss-usb/src/usb.rs:389-399 | an endpoint is one in exactly when bit 7 of its address is set |
| `Endpoints.KindIsTwoBits` | floss-usb/src/usb.rs:385-385 | the transfer kind is the low two bits of the attributes |
| `Endpoints.SizeIsElevenBits` | floss-usb/src/usb.rs:398-398 | the size is the low eleven bits of the packet size |
| `Endpoints.UsableExactly` | floss-usb/src/usb.rs:380-412 | a synchronous alternate counts exactly when it is one of interface 1 of a Bluetooth radio whose last endpoints in and out have addresses and the same nonzero size |
| `Endpoints.UsableNeedsBothDirections` | floss-usb/src/usb.rs:406-412 | an alternate with one direction only does not count |
| `Endpoints.ControlIsTakenExactly` | floss-usb/src/usb.rs:380-395 | a control endpoint comes from alternate 0 of interface 0 of a Bluetooth radio; a later one of its kind replaces it, and nothing else does |
| `Endpoints.UsualRadio` | floss-usb/src/usb.rs:377-433 | what discovery publishes for the descriptors of a usual radio |
| `Endpoints.SmallRadio` | floss-usb/src/usb.rs:412-419 | with a synchronous endpoint of less than 63 bytes on alternate 6, wide-band speech uses alternate 1 if there is one, and otherwise nothing |
| `Transfers.AcceptAllKeepsOrder` | floss-usb/src/main.rs:28-43 | unless it overflowed, a burst is queued completely and in order; the bounds on packets and bytes hold and the byte count is exact |
| `Transfers.AcceptAllGrows` | floss-usb/src/main.rs:28-43 | a burst only adds entries behind the others, and the record of everything ever accepted grows by exactly those, overflow or not |
| `Transfers.AcceptKeepsBounds` | floss-usb/src/main.rs:28-43 | one buffer keeps the bounds and the exact byte count; the overflow flag is never cleared |
| `Transfers.AcceptedExactly` | floss-usb/src/main.rs:28-43 | a buffer is queued exactly when it is not empty, at most 4096 bytes, and neither 128 buffers nor 262144 bytes would be exceeded; too much of anything is an overflow and queues nothing |
| `Transfers.TotalHead` | floss-usb/src/main.rs:231-232 | taking the oldest entry keeps the byte count exact |
| `Transfers.Incoming.Receive` | floss-usb/src/main.rs:28-43 | an oversized buffer or a full queue sets the overflow flag and queues nothing, an empty buffer is ignored, anything else is appended |
| `Transfers.Incoming.Pop` | floss-usb/src/main.rs:231-232 | the oldest entry leaves and the byte count stays exact |
| `UsbOwner.Segments` | floss-usb/src/usb.rs:950-997 | ceil(len/size) pieces, all full but the last, none empty, summing to the packet |
| `UsbOwner.FramesAverage` | floss-usb/src/usb.rs:950-951 | n sends from either phase use 7.5 USB frames each, rounded by at most half a frame |
| `UsbOwner.LengthsSpread` | floss-usb/src/usb.rs:950-997 | isochronous data is cut into full packets and a last one, or on alternate 6 sent whole after 6 or 7 empty packets |
| `UsbOwner.OutgoingDelivers` | floss-usb/src/usb.rs:967-987 | a command becomes a class request of type 0x20 with its length, low byte first, in bytes 6 and 7, zeros in the other setup bytes and the command behind; other data is sent as it is |
| `UsbOwner.CompletionsAreJudged` | floss-usb/src/usb.rs:521-588 | the failure code by status: completed, lost isochronous and expected cancelled transfers keep it, an unexpected cancellation gives -125, and a panic, a short transmission or anything else -5 |
| `UsbOwner.LossesAreCounted` | floss-usb/src/usb.rs:521-564 | only isochronous transfers count as lost: as one when the whole transfer failed, and otherwise by their damaged packets |
| `UsbOwner.PacketsAreJudged` | floss-usb/src/usb.rs:542-564 | isochronous packets are judged one by one: damaged with another status than 0 or, outgoing, when short; the others give their data in order |
| `UsbOwner.PiecesAreData` | floss-usb/src/usb.rs:539-574 | what is handed over is the intact packets of an isochronous transfer, or all bytes of another, if there are any |
| `UsbOwner.Usb.FreeSlot` | floss-usb/src/usb.rs:496-507 | frees exactly the transfer and buffer of one slot, which are no longer in flight; freeing one twice is not expressible |
| `UsbOwner.Usb.Allocate` | floss-usb/src/usb.rs:708-741 | takes one empty slot for one new transfer; -ENOBUFS exactly when all 72 slots are busy, -ENOMEM exactly when libusb refuses; every failure path leaves nothing allocated |
| `UsbOwner.Usb.SubmitSlot` | floss-usb/src/usb.rs:742-753 | in flight on success, freed on refusal, and one of the two exactly as libusb answers |
| `UsbOwner.Usb.Receive` | floss-usb/src/usb.rs:754-798 | one new receive in flight in a slot that was free, or no change; it fails exactly when all slots are busy or libusb refuses something |
| `UsbOwner.Usb.Arm` | floss-usb/src/usb.rs:754-798 | success adds exactly one receive of the kind and none of another; it fails exactly when all slots are busy or libusb refuses something |
| `UsbOwner.Usb.ArmControl` | floss-usb/src/usb.rs:799-807 | on an empty pool the one interrupt and two bulk receives stand exactly when libusb refuses nothing |
| `UsbOwner.Usb.StartReceivers` | floss-usb/src/usb.rs:799-807 | on success exactly one interrupt and two bulk receives are in flight, and it succeeds exactly when libusb refuses nothing |
| `UsbOwner.Usb.Completed` | floss-usb/src/usb.rs:515-600 | the completion callback exactly: the failure code is -EIO after a refused resubmission and otherwise that of the completion, harmless ones changing nothing; a receive stays exactly when nothing is being stopped and no failure is recorded, and any other slot is freed; both loss counters; received data is handed over in order |
| `UsbOwner.Usb.Assess` | floss-usb/src/usb.rs:521-588 | the exact failure code and both loss counters of a completion: intact ones, lost isochronous ones and cancelled ones while stopping are harmless, other cancellations record -ECANCELED, everything else -EIO |
| `UsbOwner.Usb.Hand` | floss-usb/src/usb.rs:540-574 | intact, non-empty isochronous packets, or the bytes of any other transfer, reach the receiver in order; damaged packets are counted, and only a panicking receiver records a failure |
| `UsbOwner.Usb.HandPackets` | floss-usb/src/usb.rs:542-564 | the packet loop hands over the intact packets in order and counts the others |
| `UsbOwner.ReceivedInOrder` | floss-usb/src/usb.rs:539-574 | unless the queue overflows, everything a completion received is queued, in order |
| `UsbOwner.Usb.CompleteAny` | floss-usb/src/usb.rs:515-600 | one completion of any transfer in flight, with any status, keeps ownership; if it is harmless and nothing is refused, no failure is recorded |
| `UsbOwner.Usb.Pump` | floss-usb/src/usb.rs:831-842 | over any number of completions of any transfers with any status, slots hold exactly what is in flight; without a failure every receive that is not being stopped stays; if every completion was harmless and no resubmission refused, the failure code is unchanged |
| `UsbOwner.Usb.PumpEvents` | floss-usb/src/usb.rs:831-842 | pumping keeps the whole invariant, the standing receives being exactly one interrupt, two bulk and two isochronous ones on a nonzero alternate; harmless completions without a refusal record no failure; every pump is counted |
| `UsbOwner.Usb.NextFragment` | floss-usb/src/main.rs:231-232 | taking the oldest fragment keeps the invariant of the owner |
| `UsbOwner.Usb.Cancel` | floss-usb/src/usb.rs:843-871 | success means that no selected transfer is in flight; -EIO exactly after a failed reading of the clock; a time-out is reported only at or after the deadline, with one still in flight; meanwhile slots only become empty |
| `UsbOwner.Usb.LoadDescriptors` | floss-usb/src/usb.rs:678-686 | a load fails exactly when the device cannot be read or its descriptors do not offer the alternate; one that succeeds publishes a positive endpoint size |
| `UsbOwner.TargetsAreDiscoverable` | floss-usb/src/usb.rs:879-885 | on a device whose control endpoints were found, every wide-band alternate that a mode can ask for is offered |
| `UsbOwner.Usb.SetSco` | floss-usb/src/usb.rs:872-934 | success leaves exactly the alternate of the mode, with its receives standing; the alternate already in force succeeds without a change; alternate 0 means that no isochronous transfer exists in either direction; after any change none of the old ones is left; bad and unsupported modes are refused, and anything else fails only after a refusal of libusb, a failed clock, two seconds, a recorded failure, an alternate that the descriptors do not offer or for lack of two free slots |
| `UsbOwner.Usb.Switch` | floss-usb/src/usb.rs:893-927 | success reaches the target without a failure; whenever the alternate changed, no isochronous transfer from before is still there, in any slot; it fails only for one of the same reasons |
| `UsbOwner.Usb.StopIso` | floss-usb/src/usb.rs:893-913 | success leaves alternate 0, no isochronous transfer and the interrupt and bulk receives as they were; it fails only after a refusal, a failed clock, two seconds or a recorded failure, and then the alternate stays |
| `UsbOwner.Usb.SelectZero` | floss-usb/src/usb.rs:900-913 | alternate 0 is in force, or the device refused it |
| `UsbOwner.Usb.Restart` | floss-usb/src/usb.rs:914-927 | from alternate 0, success reaches the target with its receives standing; it fails only after a refusal, on an alternate that is not offered or for lack of two free slots |
| `UsbOwner.Usb.StartIso` | floss-usb/src/usb.rs:918-927 | success leaves the target alternate with exactly two isochronous receives; it fails for the same reasons |
| `UsbOwner.Usb.SelectTarget` | floss-usb/src/usb.rs:918-924 | the alternate is in force unless the device refuses or the descriptors do not offer it |
| `UsbOwner.Usb.ArmTwo` | floss-usb/src/usb.rs:925-927 | two isochronous receives are added, unless libusb refuses or two slots are not free |
| `UsbOwner.Usb.Send` | floss-usb/src/usb.rs:935-1007 | -EINVAL, -ENOTCONN and -ENOBUFS exactly in their cases, and success exactly on a packet that can be sent, with a free slot, when libusb refuses nothing; then one free slot holds the transfer, the isochronous lengths are full packets with the rest at the end or the alternate-6 cadence, a command is a class request that carries its length and its bytes and other data is carried as it is, and the packet is recorded as transmitted; on failure neither slots, phase nor record change |
| `UsbOwner.Usb.Fill` | floss-usb/src/usb.rs:945-997 | the isochronous lengths and the bytes of one transfer |
| `UsbOwner.Usb.Dispatch` | floss-usb/src/usb.rs:957-1003 | accepted exactly with a free slot and no refusal; only an accepted packet is recorded as transmitted and advances the phase |
| `UsbOwner.Usb.Accepted` | floss-usb/src/usb.rs:1001-1005 | an accepted packet joins the record of transmitted ones, and an alternate-6 one advances the phase |
| `UsbOwner.Usb.Launch` | floss-usb/src/usb.rs:957-1000 | one outgoing transfer in a slot that was free, exactly when there is one and libusb refuses nothing, or no change; the standing receives are untouched |
| `UsbOwner.Usb.Alternate6` | floss-usb/src/usb.rs:1001-1003 | the phase keeps the frames used over all accepted alternate-6 sends at 15 for every two |
| `UsbOwner.Usb.Drop` | floss-usb/src/usb.rs:1009-1020 | if every transfer came back, nothing is left allocated or in flight; otherwise the clock failed, or two seconds passed with one still in flight |
| `Daemon.Daemon.Drain` | floss-usb/src/main.rs:225-238 | the inputs grow by exactly the fragments of the receive queue, in order, the queue is empty and at most 256 actions are pending; or the loop stops, on an overflow of either queue or on the error of the link machine |
| `Daemon.Daemon.DrainOne` | floss-usb/src/main.rs:231-236 | the oldest fragment becomes the next input, and its actions are those of the link machine |
| `Daemon.Daemon.Take` | floss-usb/src/main.rs:233-233 | one input: its actions, those of the link machine, join the queue, or its error stops the loop |
| `Daemon.Daemon.Emit` | floss-usb/src/main.rs:233-234 | executed plus pending actions stay what was emitted |
| `Daemon.Daemon.Execute` | floss-usb/src/main.rs:240-262 | one action moves from pending to executed after it took effect, stays first only while all 72 transfers are in use, or stops the loop, exactly when the device or the host failed just now; the transmit error is never -ENOTCONN or -ENOBUFS |
| `Daemon.Daemon.Commit` | floss-usb/src/main.rs:240-262 | committing an action that took effect restores the invariant between devices, log and queue |
| `Daemon.Daemon.WriteRecord` | floss-usb/src/main.rs:242-242 | a host record is written whole and then counts as executed, or the loop stops |
| `Daemon.Daemon.ChangeEndpoint` | floss-usb/src/main.rs:243-251 | after a successful change the alternate is the one of the mode and the action counts as executed; received fragments are only added meanwhile |
| `Daemon.Daemon.Transmit` | floss-usb/src/main.rs:252-260 | an action is held back only while all 72 transfers are in use; it counts as executed exactly when the owner accepted the packet |
| `Daemon.Daemon.ExecuteAll` | floss-usb/src/main.rs:239-262 | execution ends with nothing pending, or with every transfer in use, and executed actions only grow |
| `Daemon.Daemon.HostPacket` | floss-usb/src/main.rs:110-110 | a packet read from the host becomes the next input and at most two actions, those of the link machine |
| `Daemon.Daemon.ReadHost` | floss-usb/src/main.rs:108-114 | every record read from the host becomes an input |
| `Daemon.Daemon.QueueHost` | floss-usb/src/main.rs:101-117 | the host is read until there is nothing left or exactly 32 times; every packet becomes an input, and at most 64 actions are added |
| `Daemon.Daemon.ReadWhenIdle` | floss-usb/src/main.rs:263-265 | the host is read when nothing is pending, and left alone otherwise |
| `Daemon.Daemon.Work` | floss-usb/src/main.rs:225-262 | drain and execution: the inputs grow by the received fragments, and what stays pending waits for one of 72 busy transfers |
| `Daemon.Daemon.Advance` | floss-usb/src/main.rs:225-265 | everything received before the turn becomes an input in it; then the host is read until there is nothing left or 32 times, unless actions are still pending |
| `Daemon.Daemon.PumpUsb` | floss-usb/src/main.rs:269-269 | the USB owner handles its completions, which only add received fragments and keep the invariant |
| `Daemon.Daemon.Iterate` | floss-usb/src/main.rs:224-270 | one turn of the loop keeps the invariant, handles everything received before it, reads the host as `Advance` does and pumps the USB owner after its last transmission |
| `Daemon.Daemon.Run` | floss-usb/src/main.rs:222-270 | over any number of turns: the emitted actions are those of the link machine on the inputs, which are every fragment the receive queue gave out and every record read from the host, in order; executed plus pending actions are exactly the emitted ones, in order; the devices have seen exactly the executed ones; every executed action was admissible where it was executed, so that synchronous data never meets alternate 0 and a connection event reaches the host only after its endpoint change succeeded; without a stop every turn reads, executes and pumps, and everything received before the last turn became an input; a stop has its reason: a queue overflowed, the link machine failed on the inputs, or the device or the host failed just now |
| `LeaseSpec.StepKeepsCoherence` | patches/bluetooth-service-runtime.patch:808-985 | while a session exists, an unstarted or stopping one has no pending listener and a started one only that of its own profile, under any mix of lease, legacy and native events |
| `LeaseSpec.NoListenerOutlivesItsLease` | patches/bluetooth-service-runtime.patch:839-985 | whatever ends a session leaves no listener behind |
| `LeaseSpec.EndingTellsTheListener` | patches/bluetooth-service-runtime.patch:839-975 | a terminal callback that ends a started session first consumes its listener, with a failure |
| `LeaseSpec.StepMovesForward` | patches/bluetooth-service-runtime.patch:808-834 | an event moves a session forward by at most one phase or ends it; a session never turns into another one, and only a reservation makes one, with the next token |
| `LeaseSpec.TokensAreFresh` | patches/bluetooth-service-runtime.patch:1118-1119 | a token is returned only for a new reservation, is the successor of the last one and fits 64 bits |
| `LeaseSpec.ForeignRequestsAreInert` | patches/bluetooth-service-runtime.patch:1106-1176 | requests with another token or from another owner, other reservations, codec changes and legacy calls leave an existing session unchanged |
| `LeaseSpec.StoppingHoldsUntilTerminal` | patches/bluetooth-service-runtime.patch:808-834 | a stopping session is released exactly by a terminal event of its own address and profile or by a full cleanup, and until then refuses reservations, starts, codec changes and legacy starts |
| `LeaseSpec.StoppingRetriesTheStop` | patches/bluetooth-service-runtime.patch:826-834 | a stopping transport that reports itself up is stopped again |
| `LeaseSpec.StoppingHoldsOneStep` | patches/bluetooth-service-runtime.patch:808-834 | no event but an ending one changes a stopping session or grants a reservation or codec change |
| `LeaseSpec.StoppingStays` | patches/bluetooth-service-runtime.patch:808-834 | over every run a stopping session stays until an event ends it |
| `LeaseSpec.RunsAreCoherent` | patches/bluetooth-service-runtime.patch:799-834 | the listener invariant holds after every run |
| `LeaseSpec.PhasesOnlyAdvance` | patches/bluetooth-service-runtime.patch:808-834 | between any two points of a run, each session only moves from reserved to started to stopping to gone, and the last token only grows |
| `LeaseSpec.OneEventAdvances` | patches/bluetooth-service-runtime.patch:808-834 | the same for two successive points |
| `LeaseSpec.TokensIncrease` | patches/bluetooth-service-runtime.patch:1106-1176 | over every run the returned tokens strictly increase, so that none is repeated |
| `LeaseSpec.StoppingHoldsOverRuns` | patches/bluetooth-service-runtime.patch:808-834 | over every run a stopping session stays, and blocks reservations and codec changes, until an event ends it |
| `LeaseLaws.ReservationIsGrantedExactly` | patches/bluetooth-service-runtime.patch:1106-1120 | a reservation is granted exactly to a named owner on an initialised daemon with nothing reserved or pending, every voice transport down, no other music and a connected device; it is a fresh session with the next token, and otherwise nothing changes |
| `LeaseLaws.StartIsAcceptedExactly` | patches/bluetooth-service-runtime.patch:1138-1168 | a start is accepted exactly for the owner of a fresh reservation when the native stack accepts it and, for voice, the device is connected and every voice transport is down |
| `LeaseLaws.AcceptedStartWaits` | patches/bluetooth-service-runtime.patch:1141-1162 | an accepted start leaves exactly its listener waiting, or told of success when music already runs; voice is occupied at once |
| `LeaseLaws.RefusedStartReleases` | patches/bluetooth-service-runtime.patch:1163-1168 | a refused start by the owner removes the reservation and nothing else; any other refused start changes nothing |
| `LeaseLaws.StartedListenerIsTold` | patches/bluetooth-service-runtime.patch:857-871 | when the transport of a started session comes up its listener is told of success, once, and the session stays |
| `LeaseLaws.NobodyWaits` | patches/bluetooth-service-runtime.patch:857-871 | without a listener a transport that comes up changes nothing of a session that is not stopping |
| `LeaseLaws.OtherTransportsAreIgnored` | patches/bluetooth-service-runtime.patch:826-834 | callbacks of other transports, links that come or go and half-way voice states leave a session alone |
| `LeaseLaws.LegacyListenerIsTold` | patches/bluetooth-service-runtime.patch:843-871 | without a session a waiting listener of the profile is told exactly what is reported |
| `LeaseLaws.CancelledLease` | patches/bluetooth-service-runtime.patch:808-824 | the stop of the owner, its disappearance and, before the start, the expiry remove a session that was not started, and make a started one stopping and deaf with a native stop requested |
| `LeaseLaws.StopIsAnswered` | patches/bluetooth-service-runtime.patch:1170-1176 | a stop is refused exactly when it names the session of another owner; an old token is harmless, and neither changes anything |
| `LeaseLaws.LegacyStopIsConfined` | patches/bluetooth-service-runtime.patch:1227-1251 | a legacy stop is refused while a session exists and otherwise touches only the listener of its profile |
| `LeaseLaws.CleanupForgets` | patches/bluetooth-service-runtime.patch:785-791 | a full cleanup forgets session and listeners; a requested one is refused while a session exists |
| `LeaseLaws.LegacyCallsAreAcceptedExactly` | patches/bluetooth-service-runtime.patch:1091-1098 | codec changes and legacy starts are accepted exactly without a session, for a known or connected device, with no other request pending, when the native stack accepts them |
| `LeaseLaws.VoiceIsKnown` | patches/bluetooth-service-runtime.patch:925-985 | what the daemon knows of a voice transport is what the last callback about it said, or that an accepted start occupied it since |
| `LeaseLaws.MusicIsKnown` | patches/bluetooth-service-runtime.patch:843-871 | likewise of a music stream |
| `LeaseLaws.LinksAreKnown` | patches/bluetooth-service-runtime.patch:843-922 | and of the links of a device |
| `LeaseLaws.VoiceStaysDown` | patches/bluetooth-service-runtime.patch:925-985 | over any run, a voice transport reported down stays down until a callback about it or an accepted start |
| `Lease.BluetoothMedia.CancelAudioSession` | patches/bluetooth-service-runtime.patch:808-824 | an unstarted session is removed, a started one is kept as stopping with its listener dropped and a native stop requested, another token is ignored |
| `Lease.BluetoothMedia.AudioSessionState` | patches/bluetooth-service-runtime.patch:826-834 | a terminal state of the session's own transport ends it, any other repeats a pending stop |
| `Lease.BluetoothMedia.AnswerListener` | patches/bluetooth-service-runtime.patch:843-850 | a pending listener is answered unless a session of another transport exists |
| `Lease.BluetoothMedia.OnA2dpAudioState` | patches/bluetooth-service-runtime.patch:857-871 | the music audio callback takes its step of the lease machine |
| `Lease.BluetoothMedia.OnA2dpDisconnected` | patches/bluetooth-service-runtime.patch:843-855 | the music disconnection callback takes its step |
| `Lease.BluetoothMedia.OnHfpAudioState` | patches/bluetooth-service-runtime.patch:925-985 | the voice audio callback takes its step in all four states |
| `Lease.BluetoothMedia.OnHfpDisconnected` | patches/bluetooth-service-runtime.patch:899-922 | the voice disconnection callback takes its step |
| `Lease.BluetoothMedia.ReserveAudioSession` | patches/bluetooth-service-runtime.patch:1106-1134 | refusal exactly when uninitialised, unowned, busy or not connected, or out of tokens; otherwise the new session with the new token |
| `Lease.BluetoothMedia.StartScoTransport` | patches/bluetooth-service-runtime.patch:1010-1035 | one SCO at a time: accepted only with a service-level connection and no other SCO, and then reserved at once |
| `Lease.BluetoothMedia.StartAudioSession` | patches/bluetooth-service-runtime.patch:1138-1168 | only the owner starts a fresh session; a refused start removes the session and both listeners; an already running stream is acknowledged at once |
| `Lease.BluetoothMedia.StopAudioSession` | patches/bluetooth-service-runtime.patch:1170-1176 | old tokens are harmless, foreign owners are refused, the owner's stop cancels |
| `Lease.BluetoothMedia.ExpireAudioReservation` | patches/bluetooth-service-runtime.patch:878-882 | expiry removes only a session that was never started |
| `Lease.BluetoothMedia.StartAudioRequest` | patches/bluetooth-service-runtime.patch:1216-1225 | the legacy music start is refused while a session or listener exists and leaves no listener when it fails |
| `Lease.BluetoothMedia.StartScoCall` | patches/bluetooth-service-runtime.patch:1232-1250 | the legacy voice start, likewise |
| `Lease.BluetoothMedia.SetAudioConfig` | patches/bluetooth-service-runtime.patch:1091-1098 | a codec change is refused while a session exists and changes nothing of the lease |
| `Lease.BluetoothMedia.Cleanup` | patches/bluetooth-service-runtime.patch:788-791 | a full cleanup removes the session together with both listeners and keeps the token counter |
| `ProfileSpec.StepKeepsCoherence` | pw-floss/src/pw-floss.c:1464-1561 | a tick or a profile request keeps the coherence of profile, transport and lease; a completed switch publishes the microphone of its profile and nothing else touches it; a failure stays |
| `ProfileSpec.TickKeeps` | pw-floss/src/pw-floss.c:1464-1561 | the same for one tick |
| `ProfileSpec.MicrophoneAfterRun` | pw-floss/src/pw-floss.c:1252-1268 | after any run the microphone is the one of the selected profile if the run has switched, and as at the start otherwise |
| `ProfileSpec.ReachableStatesAreCoherent` | pw-floss/src/pw-floss.c:1464-1561 | from every start, whatever available profile was requested while the card was exported, in every reachable state that has not failed: Handsfree means HFP, a fixed music profile means A2DP, a lease is held with its PCM socket; and the capture source exists exactly when the device has a microphone and the profile is Automatic or Handsfree, if and only if a switch has completed, the device has no microphone or no music profile was requested at the start |
| `ProfileSpec.MicrophoneCanBeMissing` | pw-floss/src/pw-floss.c:1656-1663 | a concrete start after which Automatic is selected, nothing is left to switch and the microphone of the device is not published |
| `ProfileSpec.CompletedSwitchSelectsARequest` | pw-floss/src/pw-floss.c:1502-1525 | a completed tick selects the old profile, the requested one or Automatic, and after a switch nothing remains requested |
| `ProfileSpec.AgreedTicksSelectTheRequest` | pw-floss/src/pw-floss.c:1489-1561 | a tick in which nothing is refused fails exactly when the device does, and otherwise selects the requested profile on the transport kind that was decided, unless its codec cannot be used, which restores the selected one |
| `ProfileSpec.RunNext` | pw-floss/src/pw-floss.c:1464-1561 | a run with one more event is the run before it followed by one step |
| `ProfileSpec.AskNext` | pw-floss/src/profiles.h:96-112 | a run with one more profile request ends with that request |
| `ProfileSpec.SessionNext` | pw-floss/src/pw-floss.c:1464-1561 | one more round of a session appends what was asked and one tick |
| `ProfileSpec.SwitchKeeps` | pw-floss/src/pw-floss.c:1494-1561 | a switch to a consistent profile and transport kind leaves a coherent state or a failure |
| `ProfileSpec.TargetKeeps` | pw-floss/src/pw-floss.c:1502-1509 | the profile to start is the selected or the requested one, with the transport kind it needs |
| `ProfileSpec.SnapshotKeeps` | pw-floss/src/pw-floss.c:1467-1489 | demand and the device snapshot change neither profile, transport kind nor microphone |
| `ProfileSpec.FinishKeeps` | pw-floss/src/pw-floss.c:1526-1558 | publishing ends in a coherent state with nothing left to request, or in a failure |
| `ProfileSpec.RestartKeeps` | pw-floss/src/pw-floss.c:1509-1525 | after a start or its fallback, a transport that is up matches the profile about to be published |
| `ProfileSpec.BrokenHfpIsAttemptedExactly` | pw-floss/src/pw-floss.c:1471-1509 | after the failed probe and with A2DP available, a switching tick attempts HFP if and only if a codec request made on HFP is refused, or no request is refused, A2DP was unknown before the snapshot and the profile is Automatic |
| `ProfileSpec.BrokenHfpIsAvoided` | pw-floss/src/pw-floss.c:1474-1474 | with A2DP already known and no refused codec request, HFP is not attempted after the failed probe |
| `ProfileSpec.BrokenHfpCanBeAttempted` | pw-floss/src/pw-floss.c:1503-1508 | a concrete run from start-up, in which a device without A2DP reports no codecs, after which a refused codec request makes the bridge attempt HFP again with the probe failed and A2DP available |
| `ProfileSpec.BrokenHfpCanBeDecidedEarly` | pw-floss/src/pw-floss.c:1471-1489 | a concrete run from start-up after which a tick decides for HFP before its own snapshot brings A2DP back, and attempts it with the probe failed |
| `ProfileLaws.RecorderBringsHfp` | pw-floss/src/pw-floss.c:1471-1471 | under Automatic on music, a recorder on the published microphone brings HFP as soon as the retry time has come |
| `ProfileLaws.MusicGoesOn` | pw-floss/src/pw-floss.c:1471-1474 | without a recorder, before the retry time or after the failed probe, nothing is stopped or started |
| `ProfileLaws.HfpStays` | pw-floss/src/pw-floss.c:1471-1472 | HFP stays while the recorder does, once the retry time has come, and for less than two seconds after it went |
| `ProfileLaws.IdleBringsMusic` | pw-floss/src/pw-floss.c:1471-1472 | two seconds after the recorder went, music comes back |
| `ProfileLaws.NoMusicMeansHfp` | pw-floss/src/pw-floss.c:1471-1471 | a device without music is on HFP whatever is recorded |
| `ProfileLaws.SilentDeviceKeepsMusic` | pw-floss/src/pw-floss.c:1474-1474 | after the failed probe a device with music is on music |
| `ProfileLaws.DemandIsNoted` | pw-floss/src/pw-floss.c:1468-1470 | demand is a recorder on the published microphone, and the idle time starts when it ends |
| `ProfileLaws.FixedProfileDecides` | pw-floss/src/pw-floss.c:1473-1473 | a fixed profile decides by itself: Handsfree for HFP, the others for music |
| `ProfileLaws.MusicWithdrawsTheMicrophone` | pw-floss/src/pw-floss.c:1255-1265 | a switch to a music profile withdraws the microphone with all that was known of its use |
| `ProfileLaws.ProfilesAreAvailableExactly` | pw-floss/src/profiles.h:5-26 | profiles 1, 2, 4, 5 and 6 can be requested exactly while the device can use codec 0, 1, 2, 3 or 4, Handsfree with a microphone that was not found silent, Automatic always; any other request is ignored |
| `ProfileLaws.AbsenceFails` | pw-floss/src/pw-floss.c:1476-1488 | a device that is gone, changed or not configured fails the bridge, and nothing is switched |
| `ProfileLaws.SnapshotIsKept` | pw-floss/src/pw-floss.c:1340-1366 | what a snapshot reports of music and codecs is what the bridge knows afterwards |
| `ProfileLaws.FailedHfpFallsBack` | pw-floss/src/pw-floss.c:1511-1525 | a start of HFP that fails falls back to music under Automatic, waits ten seconds, remembers missing PCM, and fails only when the fallback or the publication does |
| `ProfileLaws.FailedMusicFails` | pw-floss/src/pw-floss.c:1511-1525 | a start of music that fails fails the bridge |
| `ProfileLaws.FailedPublicationSelectsNothing` | pw-floss/src/pw-floss.c:1529-1545 | when the microphone or the formats cannot be published the bridge fails with the old profile selected |
| `ProfileLaws.RefusedCodecRestores` | pw-floss/src/pw-floss.c:1503-1508 | a refused codec request restores the profile and the transport of before |
| `ProfileLaws.BackOff` | pw-floss/src/pw-floss.c:1518-1518 | after a failed start of HFP no run of ticks before the retry time switches anything, whatever is recorded |
| `ProfileLaws.GraceTime` | pw-floss/src/pw-floss.c:1472-1472 | no run of ticks within two seconds of the last recording leaves HFP |
| `LeaseClient.OthersMakeNoStrayLease` | patches/bluetooth-service-runtime.patch:808-834 | nothing that other clients or the native stack do creates a session of the bridge that it does not hold and that is not stopping, and a session that was started stays started, stopping or over |
| `LeaseClient.LeaseStaysForItsTransport` | patches/bluetooth-service-runtime.patch:808-834 | whatever anybody does, a session that was given out stays one for the same address and profile kind |
| `LeaseClient.ReservationIsHeld` | patches/bluetooth-service-runtime.patch:1106-1134 | a granted reservation is a fresh session of the caller with the returned token |
| `LeaseClient.StopReleases` | patches/bluetooth-service-runtime.patch:1170-1176 | after its stop the caller owns nothing that is not stopping |
| `LeaseClient.StartKeepsTheLease` | patches/bluetooth-service-runtime.patch:1138-1168 | a start never leaves the caller with a session it does not hold |
| `BridgeClient.Surroundings.Reserve` | patches/bluetooth-service-runtime.patch:1106-1134 | a reservation is the step of the daemon, and one that is not granted is on record |
| `BridgeClient.Surroundings.SetConfig` | patches/bluetooth-service-runtime.patch:1091-1098 | a codec request is answered as the daemon and the native stack decide |
| `BridgeClient.Surroundings.Start` | patches/bluetooth-service-runtime.patch:1138-1168 | a start is the step of the daemon, and a refusal is on record |
| `BridgeClient.Surroundings.Stop` | patches/bluetooth-service-runtime.patch:1170-1176 | a stop is the step of the daemon |
| `BridgeClient.AudioBridge.Open` | pw-floss/src/pw-floss.c:1630-1670 | a successful start-up, with any profile requests while the card is exported, enters the main loop in the fresh, coherent state with the microphone of the profile that was requested; with a device it fails only after a refusal |
| `BridgeClient.AudioBridge.Launch` | pw-floss/src/pw-floss.c:1630-1633 | the only kind of transport there is, started, or a safe failure after a refusal |
| `BridgeClient.AudioBridge.ExportCard` | pw-floss/src/pw-floss.c:1654-1664 | the desktop is asked for profiles, any number of which are served, and the nodes are then published with the microphone of the one requested last; it fails exactly when they cannot be |
| `BridgeClient.AudioBridge.ServeRequests` | pw-floss/src/profiles.h:96-112 | all the profile requests there are, in order, extend a run of the profile machine and leave an available profile requested |
| `BridgeClient.AudioBridge.PublishNodes` | pw-floss/src/pw-floss.c:1663-1664 | the nodes are published with the microphone of the requested profile, exactly when that is not refused |
| `BridgeClient.AudioBridge.World` | patches/bluetooth-service-runtime.patch:808-834 | any number of foreign daemon steps keep every session of the bridge held or stopping, and a started one started, stopping or over |
| `BridgeClient.AudioBridge.ReserveCall` | pw-floss/src/pw-floss.c:643-646 | can only be called without a lease; a granted token is a fresh session for the device and the profile kind of the bridge, and the only one of the bridge that is not stopping; none is granted exactly when the daemon refuses |
| `BridgeClient.AudioBridge.SetConfigCall` | pw-floss/src/pw-floss.c:1450-1452 | can only be called without a lease; accepted only while the daemon has no session, and refused only by the daemon |
| `BridgeClient.AudioBridge.StartCall` | pw-floss/src/pw-floss.c:662-673 | an accepted start is a started session with the held token; it fails exactly when the daemon refuses |
| `BridgeClient.AudioBridge.StopCall` | pw-floss/src/pw-floss.c:1394-1398 | afterwards no lease is held and every session of the bridge is stopping |
| `BridgeClient.AudioBridge.CloseSocket` | pw-floss/src/pw-floss.c:1399-1401 | a connected socket can only be closed once no lease is held |
| `BridgeClient.AudioBridge.ReserveAudio` | pw-floss/src/pw-floss.c:637-660 | reservations are only requested while no lease is held; success is a held token; at start-up one refusal of the daemon ends the attempt, in a transition only the deadline does, after at least one refusal |
| `BridgeClient.AudioBridge.RequestCodec` | pw-floss/src/pw-floss.c:1439-1463 | codec changes are only requested while no lease is held; profiles without a codec need none, unusable codecs are refused, and any other fails exactly when the daemon refused until the deadline |
| `BridgeClient.AudioBridge.StartTransport` | pw-floss/src/pw-floss.c:715-813 | with foreign steps between any two calls, a start that reports success holds a lease that was started and a connected PCM socket, and any failure keeps the bridge safe and follows a refusal; it lacks PCM exactly when a connected voice socket stayed silent |
| `BridgeClient.AudioBridge.ConnectMusic` | pw-floss/src/pw-floss.c:792-812 | the music socket is connected, whatever happens in between, exactly when nothing is refused |
| `BridgeClient.AudioBridge.ConnectVoice` | pw-floss/src/pw-floss.c:735-771 | over any number of retries the voice socket is connected and delivers PCM, exactly unless one answer ends the attempt; the deadline does so only for what was not ready |
| `BridgeClient.AudioBridge.TryVoice` | pw-floss/src/pw-floss.c:738-766 | one try connects the socket, ends the attempt with a refusal or a silent socket, or leaves the socket closed for the next try because something was not ready |
| `BridgeClient.AudioBridge.StopTransport` | pw-floss/src/pw-floss.c:1394-1401 | the lease is stopped before its connected socket is closed, and nothing of the bridge is left that is not stopping |
| `BridgeClient.AudioBridge.RequestProfile` | pw-floss/src/profiles.h:96-112 | a profile request is recorded exactly when the profile is available |
| `BridgeClient.AudioBridge.NoteDemand` | pw-floss/src/pw-floss.c:1468-1470 | demand needs a published microphone, and its end starts the idle time |
| `BridgeClient.AudioBridge.Decide` | pw-floss/src/pw-floss.c:1471-1474 | the decision for HFP is that of the profile machine |
| `BridgeClient.AudioBridge.DiscoverDevice` | pw-floss/src/pw-floss.c:1476-1489 | a due snapshot updates the device or fails the bridge |
| `BridgeClient.AudioBridge.Look` | pw-floss/src/pw-floss.c:1467-1489 | demand, decision and snapshot are those of the profile machine for the one sight taken of clock, graph and device, the decision being taken first |
| `BridgeClient.AudioBridge.Tick` | pw-floss/src/pw-floss.c:1464-1561 | one tick refines the profile machine for the sight it took and the answers it got; afterwards an unfailed bridge holds a lease that was started and a connected socket; without a refusal every answer was the favourable one, except for a codec that cannot be used |
| `BridgeClient.AudioBridge.ChangeProfile` | pw-floss/src/pw-floss.c:1494-1561 | the switch refines that of the profile machine, and without a refusal nothing in it fails |
| `BridgeClient.AudioBridge.ReplaceTransport` | pw-floss/src/pw-floss.c:1501-1525 | the old transport is stopped, the target settled and the next one brought up as the profile machine does it |
| `BridgeClient.AudioBridge.SelectProfile` | pw-floss/src/pw-floss.c:1501-1509 | the old transport is stopped first, foreign steps may follow, and a codec that is refused, or cannot be used, restores the old profile and transport kind |
| `BridgeClient.AudioBridge.SettleProfile` | pw-floss/src/pw-floss.c:1502-1509 | with nothing running, a codec that is refused or cannot be used restores the old profile and transport kind |
| `BridgeClient.AudioBridge.BringUp` | pw-floss/src/pw-floss.c:1510-1525 | start with fallback, as the profile machine does it; the first start succeeds exactly when nothing is refused |
| `BridgeClient.AudioBridge.FallBack` | pw-floss/src/pw-floss.c:1511-1525 | a failed start ends on music under Automatic with a retry ten seconds after it, or failed, and is safe either way; it fails only without music, or after another refusal |
| `BridgeClient.AudioBridge.Recover` | pw-floss/src/pw-floss.c:1515-1525 | what the fallback leaves is the restart of the profile machine |
| `BridgeClient.AudioBridge.StartMusic` | pw-floss/src/pw-floss.c:1517-1521 | music under Automatic starts exactly when nothing is refused |
| `BridgeClient.AudioBridge.Announce` | pw-floss/src/pw-floss.c:1252-1268 | the microphone is published or withdrawn with the profile, and a failure to do so fails the bridge |
| `BridgeClient.AudioBridge.PublishProfile` | pw-floss/src/pw-floss.c:1526-1558 | publishing refines that of the profile machine, keeps lease and socket, and succeeds when nothing is refused |
| `BridgeClient.AudioBridge.Teardown` | pw-floss/src/pw-floss.c:1704-1714 | leaving the main loop stops the lease and then closes the socket, and changes nothing else |
| `BridgeClient.AudioBridge.Round` | pw-floss/src/pw-floss.c:1464-1561 | one round of the main loop, among any foreign steps, extends the run of the profile machine by everything the desktop asked for and one tick on one sight |
| `BridgeClient.AudioBridge.Serve` | pw-floss/src/pw-floss.c:1464-1561 | a whole session is a run of the profile machine: every request of the desktop and one tick for each sight, in order, among any foreign steps, up to the limit or the first failure; it ends with everything released |
| `Ring.Index` | pw-floss/src/pw-floss.c:957-969 | places in the ring are positions modulo its size |
| `Ring.WrapIsModulo` | pw-floss/src/pw-floss.c:957-969 | positions in a source of any size are taken modulo that size |
| `Ring.ChunkByte` | pw-floss/src/pw-floss.c:957-969 | byte k of a chunk is the byte of the buffer at its offset plus k, modulo the size, or zero for silence |
| `Ring.CopyChunk` | pw-floss/src/pw-floss.c:957-969 | byte k of the span, or zero for silence, goes to place (start+k) mod the ring size, and no other byte of the ring is written |
| `Ring.Queue.Append` | pw-floss/src/pw-floss.c:838-856 | appends exactly the given bytes behind the contents, across the wrap |
| `Ring.Queue.AppendChunk` | pw-floss/src/pw-floss.c:1047-1059 | appends exactly the chunk of a wrapping buffer |
| `Ring.Queue.Drop` | pw-floss/src/pw-floss.c:828-829 | removes exactly the oldest n bytes |
| `Ring.Queue.Peek` | pw-floss/src/pw-floss.c:818-821 | the contiguous run handed to a system call is a prefix of the contents |
| `Ring.Queue.Read` | pw-floss/src/pw-floss.c:1092-1094 | a read in two pieces is a prefix of the contents |
| `Pcm.LimitsFit` | pw-floss/src/pw-floss.c:426-434 | for every accepted format the queue limit never exceeds the ring, and limit, target and primer are whole frames |
| `Pcm.LimitsInTime` | pw-floss/src/pw-floss.c:426-434 | for every accepted format the limit is exactly 100 ms, the target 30 ms, and the primer 10 ms of voice or 30 ms of music |
| `Pcm.Pcm.FlushAudio` | pw-floss/src/pw-floss.c:815-836 | whatever the socket takes, sent plus queued stays everything enqueued, in order; flushing ends only with an empty queue, a socket that would block or a failure |
| `Pcm.Pcm.QueueOutput` | pw-floss/src/pw-floss.c:838-856 | all bytes are queued, or none and the bridge fails, exactly by the limit |
| `Pcm.Pcm.VoicePlaybackCredit` | pw-floss/src/pw-floss.c:861-883 | for n incoming bytes exactly the whole samples due are queued, queued voice first and silence after it, and less than a sample of credit remains |
| `Pcm.Pcm.PrimeVoice` | pw-floss/src/pw-floss.c:868-870 | voice starts exactly once 30 ms of it are queued |
| `Pcm.Pcm.Refill` | pw-floss/src/pw-floss.c:871-881 | exactly the wanted bytes, queued voice first if it was primed, silence after it |
| `Pcm.Pcm.SendVoice` | pw-floss/src/pw-floss.c:871-879 | as much queued voice as is due moves to the output, in order |
| `Pcm.Pcm.DiscardIdleCapture` | pw-floss/src/pw-floss.c:887-893 | without a recorder only a partial sample is kept, and whole samples leave |
| `Pcm.Pcm.Overrun` | pw-floss/src/pw-floss.c:903-922 | a full capture ring keeps the newest 30 ms, shedding whole samples, and counts it |
| `Pcm.Pcm.Receive` | pw-floss/src/pw-floss.c:923-935 | a packet of any size joins the capture stream and earns its credit |
| `Pcm.Pcm.Prepare` | pw-floss/src/pw-floss.c:901-922 | makes room for the next read, or reports that there is nothing to read or that the socket failed; only a partial sample is kept while nobody records, and nothing is shed otherwise without an overrun |
| `Pcm.Pcm.Shed` | pw-floss/src/pw-floss.c:917-918 | whole samples leave the front of the capture stream |
| `Pcm.Pcm.Pull` | pw-floss/src/pw-floss.c:1092-1097 | the bytes delivered are the next ones of the incoming stream |
| `Pcm.Pcm.PrimeCapture` | pw-floss/src/pw-floss.c:1084-1085 | capture starts exactly once 30 ms of it are queued |
| `Pcm.Pcm.ReadCapture` | pw-floss/src/pw-floss.c:895-939 | reading ends on its budget of one ring, on a socket with nothing left or on a failure, keeps alignment and credit, and only extends what was received; while nobody records less than a sample is kept, and while somebody does nothing is lost without an overrun |
| `Pcm.Pcm.ReadOnce` | pw-floss/src/pw-floss.c:899-935 | one read within the budget; none only when the socket had nothing or failed; nothing is lost of a recording without an overrun |
| `Pcm.Pcm.CaptureProcess` | pw-floss/src/pw-floss.c:1066-1105 | the graph gets the next whole samples of the incoming stream, in order, and silence for the rest, of exactly the requested length |
| `Pcm.Pcm.Process` | pw-floss/src/pw-floss.c:971-1064 | a quantum enters the rings completely or not at all; voice exactly by the limit; music is dropped only after a failure, when more than a tenth of a second is queued or unacknowledged, or when it does not fit what is left after the flush; it is taken only with at most three tenths of a second outstanding and a transport that has not stalled |
| `Pcm.Pcm.OfferMusic` | pw-floss/src/pw-floss.c:1028-1061 | music waits for a transport that is too far behind, by the level of its last position, and fails on a stalled one |
| `Pcm.Pcm.QueueVoice` | pw-floss/src/pw-floss.c:1042-1049 | a voice quantum is appended whole, exactly when it fits the limit |
| `Pcm.Pcm.QueueMusic` | pw-floss/src/pw-floss.c:1050-1061 | a music quantum is enqueued whole, in whole frames, unless the bridge failed or it does not fit what is left after the flush |
| `Pcm.Pcm.Report` | pw-floss/src/pw-floss.c:493-510 | an acceptable position report never acknowledges more than was sent; any other fails the bridge and leaves the position alone |
| `Pcm.Pcm.PlaybackStopped` | pw-floss/src/pw-floss.c:1113-1119 | queued voice is dropped with its stream, and a stopped stream restarts the progress watchdog |
| `Pcm.Pcm.CaptureStopped` | pw-floss/src/pw-floss.c:1126-1137 | when recording stops only a partial sample remains |
| `Sessions.VoiceSession` | pw-floss/src/pw-floss.c:861-1105 | over any mix of operations: absent failure, voice plus silence sent and queued is the primer plus the incoming bytes rounded down to a sample, and every read went on to an empty socket or a full budget; what left the capture ring is whole samples; the retained credit is below one sample; the graph got exactly as many bytes as it asked for and every quantum was handled |
| `Sessions.MusicSession` | pw-floss/src/pw-floss.c:971-1064 | over any mix of operations and position reports: what is enqueued is the primer and then, in order, the whole chunks, mixed for a mono transport, of the quanta that were taken; sent plus queued is everything enqueued, in whole frames, within the limit of the format; the acknowledged bytes are among the sent ones; every quantum was handled |
| `Sessions.MusicOperation` | pw-floss/src/pw-floss.c:941-1064 | one operation adds nothing to the sound, or the whole chunk of its quantum |
| `Sessions.VoiceOperation` | pw-floss/src/pw-floss.c:861-1105 | one operation of a voice session reads, answers a pull with exactly the bytes asked for, or offers its quantum |
| `DownmixSpec.DecodeAfterEncode` | pw-floss/src/pw-floss.c:1012-1019 | a value that fits the width survives encoding its low bytes and decoding them |
| `DownmixSpec.EncodeAfterDecode` | pw-floss/src/pw-floss.c:1007-1019 | the bytes of a sample survive decoding and encoding |
| `DownmixSpec.SignedIsLittleEndian` | pw-floss/src/pw-floss.c:1007-1013 | samples of two, three and four bytes are little-endian two's complement |
| `DownmixSpec.HalvedIsTruncated` | pw-floss/src/pw-floss.c:1017-1017 | halving drops the fraction towards zero |
| `DownmixSpec.EncodedAverageMixes` | pw-floss/src/pw-floss.c:1003-1020 | the mono sample decodes to the truncated average of the signed channels, lies between them and so fits the width, and repeats the input bytes when they agree |
| `Downmix.ReadSample` | pw-floss/src/pw-floss.c:1007-1013 | the byte loop decodes the signed sample at any position of a wrapping source |
| `Downmix.WriteSample` | pw-floss/src/pw-floss.c:1017-1019 | the byte loop writes exactly the low bytes of the 32-bit word |
| `Downmix.AverageAt` | pw-floss/src/pw-floss.c:1004-1017 | the sum of both channels, or silence, halved towards zero |
| `Downmix.MixOne` | pw-floss/src/pw-floss.c:1003-1020 | one more mono sample that mixes its frame, with the earlier ones untouched |
| `Downmix.Mix` | pw-floss/src/pw-floss.c:1003-1020 | sample i of the mono buffer mixes frame i of the wrapping stereo source, or silence, for 16, 24 and 32 bits |
| `Downmix.MixBuffer` | pw-floss/src/pw-floss.c:1001-1026 | what the rings read from the mono buffer mixes the chunk, also when the chunk is silent |
| `Downmix.ProcessStereo` | pw-floss/src/pw-floss.c:985-1061 | for a mono transport the rings receive the mix of the whole chunk, or nothing for lack of room or, with music, because more than a tenth of a second is queued or unacknowledged; a chunk that ends inside a frame fails the bridge |
| `Downmix.QueueMix` | pw-floss/src/pw-floss.c:1001-1061 | whole stereo frames are mixed and queued, or refused in exactly those cases |
| `ClockSpec.Clamp` | pw-floss/src/pw-floss.c:570-573 | the result is in the band and equals a value that is; a value outside takes the nearer bound |
| `ClockSpec.FilterIsLowPass` | pw-floss/src/pw-floss.c:596-597 | the filter is one backward Euler step of a one-second low pass, with a gain between 0 and 1 |
| `ClockSpec.FilterIsConvex` | pw-floss/src/pw-floss.c:597-597 | the filtered error never leaves an interval that contains it and the new error |
| `ClockSpec.NoWindup` | pw-floss/src/pw-floss.c:598-604 | when proportional and integral part reach a clamp the integral does not move towards that clamp; otherwise it takes its new value |
| `ClockSpec.RunsStayBounded` | pw-floss/src/pw-floss.c:580-614 | over any run the integral stays in [-0.01, 0.01], the rate in [0.99, 1.01] and the filtered error in the hull of 0 and the errors seen |
| `ClockSpec.RateFollowsTheLevel` | pw-floss/src/pw-floss.c:575-607 | while every level seen was at or above the target the rate never exceeds one, and symmetrically |
| `ClockSpec.RateReacts` | pw-floss/src/pw-floss.c:575-607 | over any run without a level on the other side of the target, a level off the target moves the rate the right way, strictly, as soon as time passes |
| `ClockSpec.LevelMovesTheRate` | pw-floss/src/pw-floss.c:592-607 | the same for one step from a controller on that side |
| `ClockSpec.CorrectionIsProportionalPlusIntegral` | pw-floss/src/pw-floss.c:605-608 | the correction is a fifth of the filtered error plus the integral, or the bound of the band of one per cent |
| `ClockSpec.IntegralGrows` | pw-floss/src/pw-floss.c:598-604 | inside the band the integral moves by two hundredths of the filtered error a second |
| `ClockSpec.FirstUpdateOnlyStarts` | pw-floss/src/pw-floss.c:585-591 | every update is remembered as the last, and the first one after a restart corrects nothing |
| `ClockSpec.NoLevelNoCorrection` | pw-floss/src/pw-floss.c:592-594 | without a level nothing is corrected or learned |
| `ClockSpec.ElapsedIsInSeconds` | pw-floss/src/pw-floss.c:590-590 | the time step is the seconds since the last update, at most a quarter |
| `ClockSpec.SinceIsElapsed` | pw-floss/src/pw-floss.c:551-556 | differences of the 64-bit clock are elapsed times, also when it wraps |
| `ClockSpec.ExtrapolatesAtSpeed` | pw-floss/src/pw-floss.c:560-567 | consumption is extrapolated at the nominal speed from the time stamp, for at most 200 ms and never beyond what was submitted |
| `ClockSpec.StaleExactly` | pw-floss/src/pw-floss.c:551-559 | a position is stale exactly two seconds after the last report, or after the last progress on submitted bytes of a running stream |
| `ClockSpec.ReportsAreAcceptedExactly` | pw-floss/src/pw-floss.c:493-497 | a complete report is accepted exactly when it counts up, is not ahead of what was submitted and its time stamp advances up to now |
| `ClockSpec.WaitingIsBracketed` | pw-floss/src/pw-floss.c:560-567 | the bytes behind a level lie between the local queue and that plus the bytes the transport has not acknowledged, of which at most 200 ms are taken as played since |
| `ClockSpec.TenthOfASecond` | pw-floss/src/pw-floss.c:1031-1031 | from a bracketed level to the bytes outstanding, in both directions |
| `Clock.ClockController.AdaptRate` | pw-floss/src/pw-floss.c:580-607 | one call takes the step of the controller and returns its rate |
| `Clock.TransportPosition.PositionReceived` | pw-floss/src/pw-floss.c:493-504 | accepted positions and their time stamps are monotone and never exceed the bytes written; a report that is not acceptable is rejected and leaves the position alone |
| `Clock.TransportPosition.Written` | pw-floss/src/pw-floss.c:828-830 | bytes written only grow, so that accepted positions stay within them |
| `Clock.TransportPosition.PlaybackStopped` | pw-floss/src/pw-floss.c:1113-1118 | a stopped stream restarts the progress watchdog and nothing else |
| `Clock.TransportPosition.PlaybackLevel` | pw-floss/src/pw-floss.c:546-568 | a level exists exactly with a fresh position of a transport that consumes; it is the time that the bytes waiting take, and they are bracketed |
| `Clock.TransportPosition.IsBehind` | pw-floss/src/pw-floss.c:1028-1036 | a level above 100 ms means that more than a tenth of a second is queued or unacknowledged, any other at most three tenths; stalled exactly with a position that is stale |
| `CadenceSpec.PacketsAreWhole` | patches/bluetooth-floss.patch:1484-1521 | every read is a positive multiple of the codec group of 16 or 24 bytes, the reads fit the read buffer, and PCM bytes divided by 4 are the announced packet size |
| `CadenceSpec.PacketsOfAptxHd` | patches/bluetooth-floss.patch:1490-1521 | at 44.1 kHz the 80th, every other 20th and the remaining packets of each 80, with their bytes and reads, as the source lists them |
| `CadenceSpec.PacketsOfAptx` | patches/bluetooth-floss.patch:1980-2002 | at 44.1 kHz the last and the other packets of each 8, or 20 with content protection |
| `CadenceSpec.PacketsAt48kHz` | patches/bluetooth-floss.patch:1490-1494 | at 48 kHz all packets are alike |
| `CadenceSpec.TableIsPeriodic` | patches/bluetooth-floss.patch:1490-1521 | the packet sizes repeat with periods 80, 8, 20 and 1 |
| `CadenceSpec.PacketMovesTheLag` | patches/bluetooth-floss.patch:1490-1521 | one packet moves the lag behind real time to the next position of its closed form |
| `CadenceSpec.CadenceIsExact` | patches/bluetooth-floss.patch:1477-1521 | for every packet count: never ahead of real time, at most 35.1 (aptX HD), 10.5 (aptX) or 26.6 (aptX with SCMS-T) frames behind at 44.1 kHz, exact at every 80th, 8th or 20th packet and nowhere else, and exact at every packet at 48 kHz |
| `Cadence.CodecClient.Transcode` | patches/bluetooth-codec-service.patch:369-415 | the sandboxed encoder refuses sizes that are not whole groups or do not fit, and otherwise returns a quarter of the input unless the codec fails |
| `Cadence.Encoder.UpdateFraming` | patches/bluetooth-floss.patch:1965-2009 | the counter automaton produces exactly the packet table, for both codecs, rates and content protection |
| `Cadence.Encoder.OnTime` | patches/bluetooth-floss.patch:1458-1521 | after any run of ticks the frames asked for follow real time within the bound |
| `Cadence.Encoder.Encode` | patches/bluetooth-floss.patch:1598-1608 | a packet is encoded completely, read by read, exactly when the codec fails on none of them |
| `Cadence.Encoder.SendFrames` | patches/bluetooth-floss.patch:1559-1635 | the cadence advances with every tick; a packet is dropped exactly for lack of PCM or by a codec failure; a sent one carries the time stamp of its first frame modulo 2^32 and its full payload, and a dropped one leaves the time stamp alone |
| `Cadence.Encoder.Reset` | patches/bluetooth-floss.patch:1533-1541 | a reset restarts the cadence and not the time stamp |

## Left out

- libusb structures, raw pointers, panics, signals, systemd notification, sysfs and virtual-HCI registration: foreign code and I/O; a panic of the receiver callback is one flag of a completion.
- The native Bluetooth stack behind the patches: its callbacks are arbitrary events, its answers are parameters. Callbacks that the daemon ignores early are absent events. What a legacy stop call leaves as its listener, once no session exists, is unconstrained.
- D-Bus and PipeWire plumbing: only decoded values and callbacks appear. Every call of the bridge is taken to be answered; tearing down after the bus was lost is not modelled.
- The bridge's fixed-profile mode without the desktop card (`automatic` false), and graph buffers that are not mapped or arrive before a format is agreed, which only fail or are skipped.
- Elapsed time: deadlines are compared with an abstract clock that is taken to advance; the deadlines of start, codec and reservation retries allow some number of tries that the environment chooses.
- The registry of graph objects in `pw-floss/src/capture-demand.h`: capture demand is an input of a tick; a nested search would add only easy members.
- The callback identity map and `rfkill` in the daemon patch, `uinput`, UI and packaging: little state and no property that spans operations.
- The address, type and time-out of a USB transfer, which follow from its kind and direction.
- LDAC feeding and all bit-exact floating point: the clock controller is over the reals and the 30 ms targets are integers, which they are for every accepted rate.
- The generation-guarded A2DP byte counter in `patches/bluetooth-floss.patch`: the position reports it feeds are arbitrary inputs here.
- Byte counters of the synchronous link, which are 64 bits wide in the source, are unbounded.
- The descriptors of one opened device are constant, so that re-reading them gives the same alternates or fails.
- Audio samples inside an encoded packet: the codec is a black box that turns a group of PCM bytes into a quarter as many bytes or fails.
- UsbOwner.Usb.Send: says exactly when a packet is accepted and does not tell a refused allocation from a refused submission, because libusb's code for an unsupported operation is the same number as -ENOMEM.
- Pcm.Pcm.Process: does not call the clock controller or report the latency; the laws of the controller hold for any levels it is given.
- Daemon.Daemon.Run: states order and admissibility for runs that stop on an error only up to the last executed action, because the source ends the process there.
