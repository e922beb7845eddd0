# Verified models of the libcore components

This project models the state-changing core of libcore, the Go library behind the Android
client, and proves what its components keep in every run. Each file is one component:

- `HttpRace`, `HttpRaceProof`, `HttpRaceReplies`: the direct request race between HTTP(S) and HTTP/3.
- `GlQueue`: the GL call queue, its batching worker and the one-at-a-time worker.
- `Masks`, `EventPump`: the event pump's growing ring buffer and its masked indices.
- `StunPacket`, `StunParser`, `StunRequest`: the STUN wire form, its in-place parser, the binding request.
- `NatModel`, `NatDiscovery`: a stateful NAT with an honest server, and the two discovery procedures.
- `AssetExtraction`: asset upgrade over runs that can crash at any step.
- `BoxLifecycle`: start schedule, failure and close of a box.
- `BoxInstance`: start, close, main instance and protect listener under their locks.
- `Wire`, `SavedBinary`, `FakeIpMetadata`: the cached binary forms.
- `TrafficStats`: traffic counters under concurrent connections and queries.
- `IndentPrinter`: the binding generator's printer.
- `Common`: shared vocabulary.

Concurrent code is a step relation: one action is one atomic operation of one goroutine, an
execution is any list of enabled actions, and results quantify over all executions. Objects
and buffers that the code updates in place are classes and arrays proved against a
specification function, about which the properties are then proved. Fixed-width arithmetic
is written out. What comes from outside (replies, failures, cancellation, crashes, the order
of steps, the checksum) is a parameter or an action; the codecs of net/netip are a parameter
and are also given as net/netip defines them.

## What turned out not to hold

Each of these keeps the code as it is and gives the input or history. The condition under which
the property holds is exact, except in the item on older APKs, where it is sufficient.

- The STUN parse loop admits bodies of up to 65535 bytes but ends for all of them only up to
  65528 (`StunParser.EndsIffShort`, `StunParser.CanLoop`). The only caller supplies at most 1004.
- Printing and parsing lose a zero-length last attribute (`StunPacket.ParsePrint`).
- `discover` needs a socket that has not reached the server's other endpoints
  (`NatDiscovery.SeenIsKind`).
- `behaviorTest` sends its mapping tests through the mapping whose filter it tests next, so a
  restricted cone NAT is reported with endpoint-independent filtering
  (`NatDiscovery.SeenFilteringIsTrue`, `NatDiscovery.RestrictedConeMisreported`).
- `discover` takes a NAT that maps by destination but does not filter for a full cone
  (`NatDiscovery.SeenIsKind`).
- A box whose start failed is closed and has used up its one close
  (`BoxLifecycle.RetriedStartIsNeverClosed`), although the instance around it allows the start to
  be retried and clients to be built: both then meet a torn-down box
  (`BoxInstance.MeetsTornIffFailed`, `BoxInstance.RetryMeetsTornBox`).
- `SetAsMain` on a closed instance leaves it main, unless a Close is still on its way to clear it
  (`BoxInstance.ClosedIsNotMain`, `BoxInstance.SetAsMainIgnoresClosed`, `BoxInstance.ClosedMainStays`).
- After a crash, an older APK can keep a torn directory (`AssetExtraction.DowngradeKeepsTornYacd`).
- An archive without a directory, after one that had one, can turn a leftover whose removal failed
  into the asset (`AssetExtraction.CurrentIffBringing`, `AssetExtraction.LeftoverPassesForRelease`).
- Fake-IP metadata does not read back with a zone of 65520 bytes or more
  (`FakeIpMetadata.NetipRoundTrip`, `FakeIpMetadata.LongZoneIsLost`).

Where code and documentation disagree the model follows the code: an attribute's length field
holds the padded length, while section 15 of RFC 5389 asks for the length before padding; the
pump's comment promises an unbounded buffer, which holds until a quarter of the word range is
queued.

## Model

| member | source | states |
|---|---|---|
| HttpRaceProof.BodyOwnership | libcore/http.go:390-494 | In every interleaving of n racing requests each obtained body is closed by its own goroutine or handed to the caller, never both and never twice; at most one is handed over; a goroutine that has ended leaves no body unowned |
| HttpRaceProof.ReturnedOutcome | libcore/http.go:454-493 | The race returns exactly one of a response and an error, never (nil, nil); on success exactly the losers are cancelled and the winner stays live until its body is closed, on failure all are cancelled; the close hook takes effect at most once |
| HttpRaceProof.EarlyWakeMeansAllFailed | libcore/http.go:392-399 | If the wait was cancelled by a goroutine, no request has scored a success and all n are at their end, so no success is discarded |
| HttpRaceProof.RunsAreFinite | libcore/http.go:383-494 | Any schedule of n requests has at most 11n + 8 steps, apart from repeated closes by the caller |
| HttpRaceProof.StuckMeansDone | libcore/http.go:383-494 | A race in which only the deadline could still fire has returned and every goroutine has ended: nobody waits for ever on the unbuffered channel |
| HttpRaceProof.Progress | libcore/http.go:442-493 | Until the race is over some goroutine can step without the deadline |
| HttpRaceProof.AllFinishedWakes | libcore/http.go:392-399 | When every goroutine has ended and the caller still waits, the wait has been cancelled: the two-counter check in the deferred function misses no case |
| HttpRaceProof.InvStep | libcore/http.go:390-493 | Every atomic step of every goroutine and of the waiting caller keeps the invariant tying program points to successCount, failedCount, finalErr and body ownership |
| HttpRaceProof.InvExec | libcore/http.go:390-493 | The invariant holds along every schedule |
| HttpRaceProof.StepDecreases | libcore/http.go:390-493 | Every step but the caller closing a body lowers the rank |
| HttpRaceReplies.EndedAsReplied | libcore/http.go:410-440 | In every interleaving a goroutine that has ended scored a success if and only if its request was answered with status 200, and joined its error if and only if the request failed or had another status |
| HttpRaceReplies.ReturnedIsGood | libcore/http.go:421-429 | The response the race returns is one that was answered with status 200 |
| HttpRaceReplies.ErrorsAreReplies | libcore/http.go:470-493 | An error the race returns joins only errors of requests that failed or had another status |
| HttpRaceReplies.SucceedsIffSomeGood | libcore/http.go:390-493 | Unless the deadline fires the race returns a response if and only if some request was answered with status 200, and otherwise reports exactly the failures of all |
| HttpRaceReplies.CloseCancelsOnce | libcore/http.go:463-466 | Closing the returned body any number of times closes the winner's body each time and cancels its request the first time only |
| HttpRaceReplies.SecondLook | libcore/http.go:473-481 | When the wait is over the caller gives up exactly if no goroutine is parked on the channel; a parked one can be received from |
| HttpRaceReplies.PanicCountsAsFailure | libcore/http.go:390-399 | A request that panics counts as failed exactly if no success has been counted by then, and joins no error |
| HttpRaceReplies.CountedButMissed | libcore/http.go:437-481 | A first success that is counted but not yet on offer is missed by a caller taking its second look then: the caller gives up and the goroutine closes the body |
| GlQueue.ProcessC | libcore/gomobile/gl/work.go:27-39 | The unrolled C function executes the first count entries in order and returns the value of the last |
| GlQueue.ProcessBatch | libcore/gomobile/gl/work.go:135-140 | A batch copied into the fixed arrays executes exactly the queued calls in order; the value is that of the last call after the whole log |
| GlQueue.Gathers | libcore/gomobile/gl/work.go:116-134 | A batch takes what waits, up to three calls and up to the first blocking one |
| GlQueue.StepRefines | libcore/gomobile/gl/work.go:112-148 | Each step of the batching worker is a step of the one-at-a-time worker or invisible to it |
| GlQueue.BatchedRefinesSingle | libcore/gomobile/gl/work_windows.go:44-71 | Every run of the batching worker has a run of the one-at-a-time worker with the same calls, results, channel contents and, between batches, the same state |
| GlQueue.ExactlyOnceInOrder | libcore/gomobile/gl/work.go:98-148 | Executed, batched and queued calls together are the calls made, in order and once each; each finished blocking call got its own value, not that of another call in the batch |
| GlQueue.NoLostWakeUp | libcore/gomobile/gl/work.go:98-110 | Work queued while the worker is idle has a wake-up token, present or about to be posted |
| GlQueue.Progress | libcore/gomobile/gl/work.go:98-148 | Until everything is done some step is possible, so a caller blocked on the full queue or on its result can be unblocked |
| GlQueue.RunsAreFinite | libcore/gomobile/gl/work.go:98-148 | m calls take at most 12m steps under any interleaving |
| GlQueue.StuckMeansDone | libcore/gomobile/gl/work.go:98-148 | When no step is possible every call was executed and every result returned |
| Masks.MaskIsMod | libcore/gomobile/app/app.go:151-167 | Masking with 2^k - 1 is the remainder by 2^k, for all non-negative integers |
| RingIndex.MaskedPlus | libcore/gomobile/app/app.go:165-189 | Masking an index that wraps at the machine word steps the masked index around the ring |
| EventPump.FifoOrder | libcore/gomobile/app/app.go:134-177 | After any schedule, what was delivered followed by what is queued is exactly what was sent before the stop; the channel is closed exactly when stopped and empty |
| EventPump.DrainsThenCloses | libcore/gomobile/app/app.go:142-193 | After a stop a consumer that keeps receiving gets everything queued, and only then sees the channel closed |
| EventPump.ReceivesGetTheOldest | libcore/gomobile/app/app.go:154-177 | After any schedule, stopped or not, n receives get exactly the next n accepted events in order, as many as there are |
| EventPump.WindowUnroll | libcore/gomobile/app/app.go:180-186 | Copying the two halves of a full ring to the front of a longer buffer keeps its contents in order |
| EventPump.Pump.constructor | libcore/gomobile/app/app.go:150-153 | A new pump is the empty queue |
| EventPump.Pump.Deliver | libcore/gomobile/app/app.go:165-167 | Serving dst takes the oldest event of the queue |
| EventPump.Pump.Append | libcore/gomobile/app/app.go:188-189 | Storing at the masked index appends to the queue |
| EventPump.Pump.Grow | libcore/gomobile/app/app.go:180-186 | Doubling a full ring leaves the queue as it was |
| EventPump.Pump.Receive | libcore/gomobile/app/app.go:169-189 | A message from src does what it does to an unbounded queue, through growth and index wrap; the one exception is a queue of a quarter of the word range |
| EventPump.Pump.Run | libcore/gomobile/app/app.go:154-193 | The ring buffer refines the unbounded FIFO on every schedule that never queues a quarter of the word range |
| StunPacket.AlignIsMasked | libcore/stun/utils.go:29-31 | Rounding up to a multiple of four is the masked sum in 16-bit arithmetic, including the wrap to 0 from 65533 on |
| StunPacket.Be16RoundTrip | libcore/stun/packet.go:77-91 | Numbers of two bytes are written most significant byte first and read back |
| StunPacket.NewAttributeFits | libcore/stun/attribute.go:29-35 | A value of at most 65532 bytes is kept, followed by zeros to a multiple of four, and the length field is the padded length |
| StunPacket.ParseBody | libcore/stun/packet.go:56-70 | Parsing a printed attribute list gives it back, without a zero-length last attribute |
| StunPacket.AddAllIsBodySize | libcore/stun/packet.go:72-75 | Adding attributes adds the printed size of the body to the length field, modulo 2^16 |
| StunPacket.ParsePrint | libcore/stun/packet.go:44-91 | Parsing undoes printing in type, transaction ID and attributes for every packet of padded attributes, exactly when the last value is not empty; the length field comes back with the body size added once more |
| StunPacket.ParsedSize | libcore/stun/packet.go:57-68 | Parsed attributes take no more room, padded, than the body rounded up |
| StunParser.ParsePrintParse | libcore/stun/packet.go:44-91 | Whatever the parser accepts is accepted again once printed, in any buffer that holds it, with the same type, transaction ID and attributes, up to an empty last value |
| StunParser.LongBodiesAreRefused | libcore/stun/packet.go:48-68 | Although bodies of 65533 to 65535 bytes are let in, none is ever accepted |
| StunParser.PacketBuilder.constructor | libcore/stun/packet.go:31-42 | A new packet has the drawn transaction ID and nothing else |
| StunParser.PacketBuilder.AddAttribute | libcore/stun/packet.go:72-75 | Appends the attribute and adds its padded size and header to the length, in 16 bits |
| StunParser.PacketBuilder.Bytes | libcore/stun/packet.go:77-91 | Prints header and attributes as the specification of the wire form says |
| StunParser.AttrNumbers | libcore/stun/packet.go:57-67 | An iteration that finds an attribute read in range, without unnoticed wrap, and moved past the padded value |
| StunParser.IterateStops | libcore/stun/packet.go:57-63 | Where the 16-bit loop exits or rejects, the unbounded specification does, with the same verdict |
| StunParser.ShortBodiesEnd | libcore/stun/packet.go:57-68 | Up to 65528 bytes the loop neither panics nor comes back, whatever the body holds |
| StunParser.EndsIffShort | libcore/stun/packet.go:48-68 | The loop ends for all bodies of a given size if and only if that size is at most 65528, although sizes to 65535 are let in |
| StunParser.CanLoop | libcore/stun/packet.go:48-68 | From 65533 bytes on there is a body on which the position returns to 0 |
| StunParser.StopsOnTrack | libcore/stun/packet.go:57-70 | How the loop leaves off is what the specification says of the whole body: attributes, mismatch, panic or coming back |
| StunParser.Pad | libcore/stun/utils.go:22-25 | Appending zeros writes into the shared buffer exactly when it has the room |
| StunParser.PadKeeps | libcore/stun/packet.go:64-67 | Padding a value in place disturbs no header and no value already found, and shows as zeros in the attribute |
| StunParser.ParseLoop | libcore/stun/packet.go:57-68 | The loop in 16-bit arithmetic over the shared buffer follows the specification from its start and changes padding bytes only |
| StunParser.NewPacketFromBytes | libcore/stun/packet.go:44-70 | Returns what the specification says, errors included, whenever the loop ends, and otherwise tells a panic from a loop that comes back; every changed byte is a padding byte set to zero; each attribute shows its padded value in the buffer afterwards |
| StunRequest.BindingRequest | libcore/stun/net.go:32-53 | The checksum covers exactly what is sent before the fingerprint, with the final length field; that field is right if and only if the name is short enough; a receiver then parses type 0x0001, the magic cookie and the random bytes, attribute 0x8022 with the name and zeros, attribute 0x0003 exactly if a change is asked for, with bit 2 for the address and bit 1 for the port, and attribute 0x8028 with the checksum |
| StunRequest.UnsignedCarries | libcore/stun/attribute.go:44-57 | The attributes before the fingerprint are those, by their numbers |
| StunRequest.SentLayout | libcore/stun/attribute.go:37-57 | The packet printed for the checksum is the sent packet less its last eight bytes |
| StunRequest.SignedSize | libcore/stun/net.go:39-50 | The body fits 16 bits exactly for names up to the stated length |
| NatDiscovery.Discover | libcore/stun/discover.go:66-173 | On any network: the requests are the planned ones, an error comes with the error kind and only then, the mapped address is the first one reported, and fakeFullCone is set if and only if the first answer held a mapped address and some changed reply came from an endpoint other than the one asked for. For every stateful NAT, open host or firewall and every honest lossless two-address server: the result is what the tests can see, the mapped address is the NAT mapping and fakeFullCone is false |
| NatDiscovery.AlternateTests | libcore/stun/discover.go:100-173 | The tests at the other endpoint, on any network: errors are passed on, and a stray reply is noticed if and only if there is one |
| NatDiscovery.SeenIsKind | libcore/stun/discover.go:66-173 | What the tests see is the kind of the NAT by section 5 of RFC 3489 if and only if the socket has not reached the other server endpoints before; a NAT that maps by destination and lets everybody in is of no such kind and is always taken for a full cone |
| NatDiscovery.DiscoverBehind | libcore/stun/discover.go:66-173 | Behind any NAT in any state, with an honest server, the procedure returns what the tests can see; on a socket whose mapping has contacted nobody that is the kind of the NAT, for every NAT that is of one |
| NatDiscovery.BehaviorBehind | libcore/stun/discover.go:175-269 | Likewise the true mapping and the visible filtering |
| NatDiscovery.FreshSocketIsUnused | libcore/stun/discover.go:66-173 | A socket whose mapping has contacted nobody meets that condition |
| NatDiscovery.ReusedSocketMisreported | libcore/stun/discover.go:100-173 | With an honest network, a restricted cone NAT on a socket that has talked to the other address is reported as full cone |
| NatDiscovery.ThirdTest | libcore/stun/discover.go:140-173 | The last test is answered exactly when the filter is by address or the exact endpoint was contacted before |
| NatDiscovery.MappingTests | libcore/stun/discover.go:178-238 | On any network the tests go on only after accepted replies, and end with the error of the first that is not accepted; they determine the mapping behaviour of every such NAT, and leave the stated contacts behind |
| NatDiscovery.BehaviorTest | libcore/stun/discover.go:175-269 | On any network an error is that of the first refused reply and the last reply decides the filtering; behind every such NAT the mapping is right and the filtering is what is left visible after the mapping tests |
| NatDiscovery.SeenFilteringIsTrue | libcore/stun/discover.go:240-266 | The filtering reported is the true one if and only if the mapping tests and earlier traffic have not already opened the filter |
| NatDiscovery.RestrictedConeMisreported | libcore/stun/discover.go:198-250 | With an honest network and a fresh socket, endpoint-independent mapping with address-dependent filtering is reported as endpoint-independent filtering |
| NatDiscovery.FilteringTests | libcore/stun/discover.go:240-266 | Which of the two filtering tests is answered, for every NAT and history |
| NatDiscovery.Checked | libcore/stun/tests.go:22-43 | Silence is an error exactly without change flags; an answer is accepted exactly if it is from the endpoint asked for, and then passed on as it is |
| NatDiscovery.CheckedPasses | libcore/stun/tests.go:38-43 | Every answer of an honest server passes the address check |
| NatModel.MappingTells | libcore/stun/discover.go:196-238 | Two destinations share an external endpoint exactly when the mapping cannot tell them apart |
| NatModel.MappingStays | libcore/stun/discover.go:196-238 | Traffic to other destinations never changes an existing mapping |
| AssetExtraction.NeedsLaw | libcore/assets_android.go:97-105 | An asset of the APK's own version or marked Custom is not extracted again; between two numbers the larger replaces; other versions replace whenever they differ |
| AssetExtraction.NumberLaw | libcore/assets_android.go:97-103 | A number is one or more digits, most significant first, whose value fits 64 bits |
| AssetExtraction.CurrentIsLeftAlone | libcore/assets_android.go:80-105 | An asset of this APK's version, one marked Custom and a geo file that is not official are left alone by a run, which ends without error |
| AssetExtraction.SecondRunChangesNothing | libcore/assets_android.go:80-192 | After any history that ends with a run without error the asset exists and the same run once more changes nothing |
| AssetExtraction.ImportedIsKept | libcore/assets_android.go:93-110 | A geo file that the user installed stays, whatever runs, crashes and failures follow |
| AssetExtraction.RemovalErrorsAreIgnored | libcore/assets_android.go:85-192 | A removal that fails leaves the disk as it is and the run goes on as if it had not |
| AssetExtraction.ErrorsAreReported | libcore/assets_android.go:60-192 | Any other operation that fails ends the run with an error, after the archive and the temporary file of the extraction are removed; asset and version file are as they were |
| AssetExtraction.WreckageIsRemoved | libcore/assets_android.go:163-175 | Without exactly one Yacd directory the run ends with an error and removes them all |
| AssetExtraction.StaleIsRemoved | libcore/assets_android.go:85-92 | An asset without a version file is removed before it is extracted again |
| AssetExtraction.CrashTearsFiles | libcore/assets_android.go:114-192 | A crash can leave part of the archive, of the decompressed file, or any prefix of the version |
| AssetExtraction.CrashTearsDirectories | libcore/assets_android.go:147-175 | A crash can leave any one directory torn, by extraction or removal, or gone |
| AssetExtraction.GeoAlwaysComplete | libcore/assets_android.go:114-132 | At every moment of every history of runs, crashed anywhere, failing anywhere and of any APK versions, a geo file that exists is a complete extraction or the user's own |
| AssetExtraction.TornYacdIsRedone | libcore/assets_android.go:80-112 | With APK versions that do not fall, and no leftover taken for an extraction, a torn yacd directory is extracted again by the next run |
| AssetExtraction.CleanRunIsCurrent | libcore/assets_android.go:80-192 | Under the same conditions a run that ends without error in an upgrading mode leaves its own APK's asset complete, even if removals failed; only a geo file marked Custom is left alone |
| AssetExtraction.OneGoodRunRepairs | libcore/assets_android.go:147-192 | From any disk that crashes and errors can leave, one run in which every operation succeeds ends without error and in that state |
| AssetExtraction.CurrentIffBringing | libcore/assets_android.go:80-192 | For releases whose versions upgrade: every clean run in every history of crashes and failures leaves its own yacd directory complete, if and only if every release after one whose archive holds a directory has one that does too |
| AssetExtraction.BringingNeverSlips | libcore/assets_android.go:151-174 | As long as archives keep bringing directories no leftover is taken for an extraction, whatever removals fail |
| AssetExtraction.LeftoverPassesForRelease | libcore/assets_android.go:155-192 | With an archive that holds none after one that does, a leftover whose removal failed becomes the asset of a clean run, torn, with the version file written |
| AssetExtraction.GlobFinds | libcore/assets_android.go:163-175 | The one directory found is one the archive brought, complete |
| AssetExtraction.DowngradeKeepsTornYacd | libcore/assets_android.go:85-105 | With an older APK after a crash, a torn yacd directory is kept by a clean run: the version order is needed |
| AssetExtraction.NumbersUpgrade | libcore/assets_android.go:97-103 | Growing decimal versions upgrade whatever prefix of the version file a crash left |
| AssetExtraction.TornVersionCanHideUpgrade | libcore/assets_android.go:97-103 | Other version texts need not |
| AssetExtraction.KeepMeansCurrent | libcore/assets_android.go:93-105 | A version file that stops extraction was written by the current release |
| AssetExtraction.InvStep | libcore/assets_android.go:80-192 | Each file operation, complete, partial or failing, each crash, import and start of a run keeps what the disk can look like |
| AssetExtraction.InvExec | libcore/assets_android.go:80-192 | So does every history with versions that do not fall in which no leftover is taken for an extraction |
| AssetExtraction.FinishIsClean | libcore/assets_android.go:147-192 | A run in which nothing fails reaches its end without error |
| BoxLifecycle.RunIsPrefix | libcore/sing-box/adapter/lifecycle.go:78-109 | Whatever fails or is cancelled, the calls made are a prefix of the list; the run goes through exactly if nothing stopped it, and stops at the first failure |
| BoxLifecycle.NoEarlyStage | libcore/sing-box/box.go:525-599 | No component gets a stage before every component scheduled for an earlier stage has had it, successfully |
| BoxLifecycle.EachStageOnce | libcore/sing-box/box.go:525-599 | The schedule gives each component each of its stages exactly once, for any number of internal services |
| BoxLifecycle.ScheduleByStage | libcore/sing-box/box.go:525-599 | The thirteen start calls together are the four stages one after another |
| BoxLifecycle.ClosesEachOnce | libcore/sing-box/box.go:601-657 | Closing reaches each component exactly once, the debug server if it is up |
| BoxLifecycle.ClosesInReverse | libcore/sing-box/box.go:615-636 | Of any two managers, the one told of the Started stage first is closed last |
| BoxLifecycle.ClosesLayers | libcore/sing-box/box.go:601-657 | The debug server is closed first and the logger last; every manager before the HTTP client, which is closed before every internal service |
| BoxLifecycle.InternalsInOrder | libcore/sing-box/box.go:593-650 | Internal services are started and closed in the order of the list |
| BoxLifecycle.RetriedStartIsNeverClosed | libcore/sing-box/box.go:506-523 | A failed start closes everything; a second start then runs the schedule again, and neither its failure nor a later Close closes what it started |
| BoxLifecycle.Box.StartServices | libcore/sing-box/adapter/lifecycle.go:78-109 | The loop makes the calls of one block until one fails or the context is cancelled |
| BoxLifecycle.Box.PreStartInner | libcore/sing-box/box.go:525-559 | preStart follows the first part of the schedule; the debug server is up exactly if it was configured and its start was reached and succeeded |
| BoxLifecycle.Box.StartInner | libcore/sing-box/box.go:561-599 | start follows the whole schedule, whatever fails |
| BoxLifecycle.Box.CloseAll | libcore/sing-box/box.go:615-650 | Every component of the list is closed, errors are collected in order |
| BoxLifecycle.Box.Close | libcore/sing-box/box.go:601-657 | A first Close closes everything in order and reports exactly the failing ones; a later one does nothing |
| BoxLifecycle.Box.StartBox | libcore/sing-box/box.go:506-523 | Start leaves a prefix of the schedule; a failed one is followed by closing everything, exactly if the box was not closed before |
| BoxInstance.InvStep | libcore/box.go:142-215 | Every step of every goroutine keeps the invariant tying locks, states, main instance and listener together |
| BoxInstance.InvExec | libcore/box.go:142-297 | The invariant holds in every interleaving of any number of goroutines and instances |
| BoxInstance.ClosedIsFinal | libcore/box.go:142-196 | A closed instance stays closed, whatever calls follow and whatever they return |
| BoxInstance.ClosedIsTornDown | libcore/box.go:167-193 | In every interleaving the box of a closed instance has been closed or a Close is on its way to do so; with every call returned it has been closed |
| BoxInstance.SuccessfulStartIsLast | libcore/box.go:142-165 | Once a Box.Start has succeeded no Box.Start of that instance runs again in any interleaving, and the instance is running until it is closed |
| BoxInstance.ClientCall | libcore/box.go:250-261 | A client is built exactly if the instance is not closed |
| BoxInstance.TestMainCall | libcore/box.go:263-278 | A test without an instance goes on with the main one, if there is one |
| BoxInstance.MeetsTornIffFailed | libcore/box.go:142-165 | In every interleaving Box.Start, or the building of a client, meets a torn-down box if and only if an earlier Box.Start of that instance failed, since a failed start closes the box and the instance may then be used again |
| BoxInstance.RetryMeetsTornBox | libcore/box.go:155-163 | From any fresh instance: a failed Start followed by the retry its rollback allows reaches Box.Start on a torn-down box, and so does a client in between |
| BoxInstance.NotTornMeanwhile | libcore/box.go:247-261 | While Box.Start runs or a client is built no Close of the instance is tearing the box down, and no step of another goroutine can begin to |
| BoxInstance.OneListener | libcore/box.go:280-297 | At most one protect listener is open, and with the main lock free only while there is a main instance |
| BoxInstance.ClosedIsNotMain | libcore/box.go:173-215 | For each instance and every run: at no moment is it closed and main with no Close on its way to clear it, if and only if none of its own SetAsMain calls assigns when it is closed and no Close will clear it any more; other instances, and a SetAsMain that a Close still clears, do not matter |
| BoxInstance.ClosedMainStep | libcore/box.go:173-215 | No other step makes a closed instance main for good, and every such step does |
| BoxInstance.SetAsMainIgnoresClosed | libcore/box.go:210-215 | With the main lock free SetAsMain always makes its instance main, whether or not the listener opens, and the new main instance is closed if and only if it was closed before the call |
| BoxInstance.ClosedMainStays | libcore/box.go:167-215 | Such a closed main instance stays main through any calls, Close included, until another instance is made main |
| BoxInstance.Progress | libcore/box.go:167-215 | The lock order admits no deadlock: while a call is unfinished some goroutine can step |
| BoxInstance.StuckMeansDone | libcore/box.go:142-278 | When no goroutine can step every call has returned and every lock is free |
| BoxInstance.RunsAreFinite | libcore/box.go:142-278 | A call takes at most eight steps of its goroutine |
| Wire.ReadPutUvarint | libcore/sing-box/adapter/experimental.go:73-116 | Reading a variable-length integer undoes writing it exactly for values of 64 bits; larger ones are refused as overflow |
| Wire.ReadPutInt64 | libcore/sing-box/adapter/experimental.go:81-128 | The eight bytes of a signed number read back to it |
| Wire.FixedDigits | libcore/sing-box/adapter/experimental.go:81-84 | A fixed-width number is written most significant byte first |
| Wire.UvarintBytes | libcore/sing-box/adapter/experimental.go:73-76 | A variable-length integer is written in groups of seven bits, the least significant first |
| Wire.UvarintCut | libcore/sing-box/adapter/experimental.go:111-114 | A number cut short is the end of the input at its first byte and an unexpected end later |
| Wire.ReadBytes | libcore/sing-box/adapter/experimental.go:111-122 | Length-prefixed bytes are a stretch of the remaining input, never longer than it |
| SavedBinary.LoadImage | libcore/sing-box/adapter/experimental.go:67-158 | Unmarshal undoes marshal, time to whole seconds, whatever the fields held before and whatever follows the input, using up exactly what was written |
| SavedBinary.LoadOldImage | libcore/sing-box/adapter/experimental.go:141-144 | Data of a version below 2 decodes the shorter layout and leaves the URL hash alone |
| SavedBinary.LoadStable | libcore/sing-box/adapter/experimental.go:104-158 | Input that is accepted is accepted with the same result when more follows |
| SavedBinary.TruncationIsDetected | libcore/sing-box/adapter/experimental.go:104-158 | No proper prefix of a marshalled value is accepted |
| SavedBinary.LoadedFieldsAreInput | libcore/sing-box/adapter/experimental.go:104-158 | For any accepted input each decoded field is a stretch of it, in order, so none is longer than what was left |
| SavedBinary.Binary.MarshalBinary | libcore/sing-box/adapter/experimental.go:67-102 | Writes the version-2 image of the fields |
| SavedBinary.Binary.UnmarshalBinary | libcore/sing-box/adapter/experimental.go:104-158 | Assigns fields and returns the error as the specification says, fields read before an error included |
| FakeIpMetadata.RoundTripIffFits | libcore/sing-box/adapter/fakeip_metadata.go:20-50 | For element codecs that read back what they wrote, and from no proper prefix of it, metadata reads back if and only if every element is shorter than 65536 bytes |
| FakeIpMetadata.NetipRoundTrip | libcore/sing-box/adapter/fakeip_metadata.go:20-50 | With the codecs of net/netip, metadata reads back if and only if both current addresses have zones of fewer than 65520 bytes |
| FakeIpMetadata.LongZoneIsLost | libcore/sing-box/adapter/fakeip_metadata.go:27-43 | An address with a zone of 65520 bytes marshals without error and does not read back |
| FakeIpMetadata.LoadImageFrom | libcore/sing-box/adapter/fakeip_metadata.go:34-50 | For codecs that only read back what they wrote, elements that fit read back, over any earlier contents |
| FakeIpMetadata.Metadata.MarshalBinary | libcore/sing-box/adapter/fakeip_metadata.go:20-32 | Frames the four elements in order, with the length cut to 16 bits; an element error is returned |
| FakeIpMetadata.Metadata.UnmarshalBinary | libcore/sing-box/adapter/fakeip_metadata.go:34-50 | Reads the four elements in order; a length that cannot be read is a panic, a short or refused element an error, elements read before stay assigned |
| CounterNames.NameIsInjective | libcore/sing-box/boxapi/v2ray_stats_service.go:70-79 | Distinct triples of kind, tag and direction have distinct counter names, whatever text the tags are |
| CounterNames.NameText | libcore/box.go:237 | The names under which an instance queries its outbound counters |
| TrafficStats.RouteCounts | libcore/sing-box/boxapi/v2ray_stats_service.go:59-88 | Routing a connection adds a tracker for exactly its inbound, outbound and user that are not empty and are configured for their own kind |
| TrafficStats.ConnectionCountsFor | libcore/sing-box/boxapi/v2ray_stats_service.go:59-88 | What a routed connection moves counts for exactly those, each in the direction its side asks for |
| TrafficStats.QueryAnswers | libcore/sing-box/boxapi/v2ray_stats_service.go:176-190 | A resetting query returns what its own counter held and leaves it at zero; another query and one for an unknown name change nothing |
| TrafficStats.TrafficIsConserved | libcore/sing-box/boxapi/v2ray_stats_service.go:59-190 | In every interleaving the traffic moved for a name is what resetting queries returned, plus the counter, plus what running loops still owe, modulo 2^64 and exactly when in range |
| TrafficStats.TrafficCountsFor | libcore/sing-box/boxapi/v2ray_stats_service.go:59-88 | Traffic counts for exactly the tags of its connection, as uplink when a direct connection reads or another one writes, as downlink otherwise |
| TrafficStats.NamesAreNeverRebound | libcore/sing-box/boxapi/v2ray_stats_service.go:197-205 | A name keeps its counter from first use on, and no two names share one |
| TrafficStats.InvStep | libcore/sing-box/boxapi/v2ray_stats_service.go:59-205 | Every registration, addition, lookup and swap keeps the balance of every counter |
| TrafficStats.InvRoute | libcore/sing-box/boxapi/v2ray_stats_service.go:68-87 | A counted connection gets the counters of its own names, each once, in the direction its side asks for |
| TrafficStats.InvAnswer | libcore/sing-box/boxapi/v2ray_stats_service.go:176-190 | A query that swaps after losing the lock still keeps the balance |
| IndentPrinter.ChunksAgree | libcore/gomobile/bind/printer.go:28-51 | Two writes give the buffer and state of one write of both |
| IndentPrinter.AnySplitAgrees | libcore/gomobile/bind/printer.go:28-51 | So does any split of the input |
| IndentPrinter.RenderedIsInsertion | libcore/gomobile/bind/printer.go:19-51 | The output is the input with the indent in front of the first byte of each line, and none for a line still empty |
| IndentPrinter.Printer.Write | libcore/gomobile/bind/printer.go:28-51 | The line-by-line loop appends that text, counts the input bytes only and leaves the right indent pending |
| IndentPrinter.Printer.WriteIndent | libcore/gomobile/bind/printer.go:19-26 | A pending indent is written once |
| IndentPrinter.Printer.Indent | libcore/gomobile/bind/printer.go:59-61 | The indent text is whole copies of the unit, one more |
| IndentPrinter.Printer.Outdent | libcore/gomobile/bind/printer.go:63-67 | One copy fewer, never part of one, and nothing at depth zero |

## Left out

- Sockets, TLS, QUIC, ECH, DNS and the HTTP client calls: their results are nondeterministic.
- Time: deadlines are steps that may happen; `send`'s retransmission intervals are not modelled.
- A panic of a racing goroutine after it has obtained a response; a panic inside the request itself is one of its results.
- CRC-32, random transaction IDs, host resolution and the text form of addresses: parameters.
- The address getters of STUN packets (`xorAddr`, `rawAddr` and the searches for them): the exchange model hands over the addresses they would read.
- `GetContent`, redirects and request building in `http.go`.
- `box.New`, registries and option parsing: wiring of libraries outside the repository.
- A panic of a component in `BoxLifecycle`; in `BoxInstance` a panic of Box.Start, and one in the close that a failed Box.Start makes, are among its results.
- Two `Box.Close` calls at the same moment: the check of `done` and its closing are one step.
- A panic while the main lock is held in `BoxInstance.Close`: closing the listener is taken not to panic.
- `SetV2rayStats`, `QueryStats`, `SelectOutbound`, `Sleep` and `Wake` of an instance: they take at most the instance's lock and change nothing modelled here.
- BoxInstance.InvStep: goroutines are a step relation over values, so the objects' heap layout is not modelled.
- TrafficStats.InvStep: the map and the atomic counters are values of a step relation, not objects; the counting connection wrappers are only loops that add to each counter in their list.
- AssetExtraction.InvStep: files are values; renames are atomic, removals, extraction and version writing can stop half-way or fail, a complete directory may hold older files beside its own where a removal failed, the version file can be read whenever it exists, and an import is the user placing a file marked Custom.
- NatDiscovery.Discover: one exchange is one step; loss and duplicate replies are not modelled.
- HttpRaceProof.RunsAreFinite: repeated closes of the winning body by the caller are not counted.
- SavedBinary.LoadImage: lengths are those a Go slice can have, below 2^63.
- EventPump.Pump.Run: ends at a queue of a quarter of the word range, where the buffer could not be doubled.
- IndentPrinter.Printer.Outdent: the unit is fixed when the printer is made.
- The errors of writing to a bytes.Buffer: it never returns one.
- Key-code tables, OpenGL, EGL and cgo code, binding generators, generated protobuf code, the gRPC daemon, logging and locale code: tables, foreign calls and wrappers without a hard property.
