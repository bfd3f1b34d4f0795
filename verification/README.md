# Verification of signal2sip

A Dafny model of the parts of signal2sip that are algorithms and protocols of its own, and proofs of
what they promise. `dafny verify dfyconfig.toml` checks everything.

| file | models |
|---|---|
| RingBuffer.dfy | the lock-free sample ring between PJSIP and RingRTC, as interleaved single accesses and as a class |
| Archive.dfy, SymbolIsolation.dfy | the static-archive rewriter: the `ar` reader and writer, and what renaming does to links |
| Crc32.dfy, Zlib.dfy, Png.dfy | the dependency-free PNG writer against readers written from the RFCs |
| Base64.dfy, LinkUrl.dfy, Padding.dfy | codecs |
| AuthSocket.dfy | connecting, timing out, late completion, interruption and close of the chat connection |
| DispatchQueue.dfy | the ordered queue of incoming envelopes and its shutdown |
| CallBridge.dfy | the state machine that joins one Signal call and one SIP leg |
| ConfigReload.dfy | account rows, their version counter and the reload that compares it with what runs |
| Contacts.dfy, ContactResolver.dfy, DeviceListCache.dfy | the two-key contact table and the two caches with a lifetime |
| Bytes.dfy | bytes, characters and result types |

A protocol is a module with a state, its steps and a predicate that says when a step is possible; a
theorem about it is about every run. Beside it stands a module with the class of the program, whose
methods are shown to do exactly what the steps say. Loops of the program are loops here, proved against
a function that the lemmas then speak about. What is real in the environment but not part of the model
enters as a parameter.

## Assumptions about the environment

- Each atomic load, store and slot access of the ring is one step, and so is each critical section.
- One thread at a time calls connect, reconnect, close and the destructor of a socket, as the daemon's
  main loop does; libsignal calls a completion once, with an error or a handle but not both, and hands
  out a handle at most once; a listener is accepted only for a handle that is not null; nothing calls
  back after the destructor.
- RingRTC raises INCOMING_AUDIO only while no Signal call is live on the account, RINGING at most once
  for a call, and nothing for a call that is over. The call that setupAccount places starts only while
  none is live; an INVITE may start one at any time. Handlers of one account do not overlap.
- The clock never goes back, and the lifetime of cached contacts does not change within a run.
- `nm` prints one letter for each symbol, an address if it is defined, and `llvm-objcopy` renames every
  symbol of the map; what nm's report must cover is part of the statements.
- accountConfigFromRecord is the pure function written out here, and isalnum is that of the C locale.
- Account names are compared and ordered only, so they are numbers here.

## Properties that do not hold

Each is shown by a lemma with a witness, and the exact condition under which the code does what one would
expect is proved beside it.

- An interruption in the window between init_listener and `connected = true` is lost, and a revocation of
  the device before `deauthorized = false` too (ConnectProtocol.InterruptionForgotten, ListenedReachable);
  exactly when the flags are right: ConnectedIffAnnounced, DeauthorizedIffRevoked, RevocationSurvivesIff.
- A weak reference without a definition keeps its old name and loses its link
  (SymbolIsolation.WeakReferenceLosesItsDefinition); exactly when links are kept: AllLinksKeptIff,
  LinkKeptIff.
- An INVITE whose Signal call cannot be started clears isCallee, so a call that was to be bridged is not
  dialled at RINGING (CallMachine.FailedInviteDisarms, CalleeIffArmed,
  RingingDialsIff). The leg of a placed call can be taken
  away by another call's CONCLUDED (PlacedLegLostToAnotherCall, PlacedLegSafeIff).
- The version counter says nothing across a deleted and re-created row or a saved identity
  (ConfigHistory.ResaveReachesStale, RecreationReachesStale); exactly which steps can lead there: HonestIff.
- The ring's count expression is wrong for capacities above 2^63 (RingIndex.CountsExactIffCapacityFits).
- The rewriter replaces pad bytes by newlines (ArchiveLaws.NothingReplacedIffNewlinePads).

## Model

| member | source | states |
|---|---|---|
| `RingIndex.CountsExact` | voip/ring_buffer.h:27 | for every capacity up to 2^63 the modulo-2^64 expressions are the exact used and free counts of a ring with w written and r read samples |
| `RingIndex.CountsExactIffCapacityFits` | voip/ring_buffer.h:27-43 | the used count is right for all index pairs if and only if the capacity is at most 2^63 |
| `RingIndex.SlotExact` | voip/ring_buffer.h:32 | the slot expression addresses the home slot of the stream position, wrap-around included |
| `RingIndex.HomesDiffer` | voip/ring_buffer.h:31-33 | stream positions less than one lap apart never share a slot |
| `RingProtocol.RunKeepsInv` | voip/ring_buffer.h:23-53 | every interleaving of the micro-steps of one push and one pop thread, with stale copies of the other side's index, keeps indices, slots and histories consistent |
| `RingProtocol.DeliveredInOrder` | voip/ring_buffer.h:23-53 | in every reachable state the delivered samples are a prefix of the accepted ones and the slots from tail to head hold exactly the rest, in order |
| `RingProtocol.CopiesNeverOverlap` | voip/ring_buffer.h:31-48 | no slot that the producer is writing is in the range that the consumer is copying |
| `RingProtocol.TruncatesOnlyWhenFull` | voip/ring_buffer.h:27-29 | a push decides to keep exactly as many first samples as a queue of capacity - 1 has room for at the moment it reads the tail |
| `RingProtocol.PopHandsOutOldestThenSilence` | voip/ring_buffer.h:39-53 | a finished pop hands over exactly the oldest min(wanted, queue length when it loaded the head) samples, then zeros |
| `SampleRing.RingBuffer.Push` | voip/ring_buffer.h:23-35 | a sequential push is a run of the micro-steps and refines a bounded queue of capacity - 1: the first samples that fit are appended, the rest dropped |
| `SampleRing.RingBuffer.Pop` | voip/ring_buffer.h:39-53 | a sequential pop is a run of the micro-steps, takes the oldest samples and pads with zeros |
| `Decimal.FieldRoundTrip` | tools/isolate_webrtc_boringssl_symbols.py:153-264 | a printed and left-justified size field reads back as the number, whatever its length |
| `Decimal.DigitCount` | tools/isolate_webrtc_boringssl_symbols.py:264 | a number has at most k digits if and only if it is below 10^k |
| `Archive.ParseMembers` | tools/isolate_webrtc_boringssl_symbols.py:143-170 | the loop returns what the specification of the format's reader returns, errors included |
| `Archive.ReadEntry` | tools/isolate_webrtc_boringssl_symbols.py:151-169 | one turn of the loop: the long-name table, the index, a long name looked up in the table, a short name |
| `Archive.Reassemble` | tools/isolate_webrtc_boringssl_symbols.py:253-274 | the loop emits the magic and one piece for each header, patched where there is a replacement |
| `Archive.EmitEntry` | tools/isolate_webrtc_boringssl_symbols.py:259-273 | the bytes of one turn: header, content and padding of the old or the new size |
| `ArchiveLaws.ParseReadsItems` | tools/isolate_webrtc_boringssl_symbols.py:143-170 | parsing an archive laid out as a list of entries finds its members: names (through the // table too), order and contents |
| `ArchiveLaws.TableEntry` | tools/isolate_webrtc_boringssl_symbols.py:155-158 | on the bytes: an entry named // yields no member, and its content is the table of long names from there on |
| `ArchiveLaws.IndexEntry` | tools/isolate_webrtc_boringssl_symbols.py:159-161 | an entry named / yields no member and leaves the table as it is |
| `ArchiveLaws.ShortEntry` | tools/isolate_webrtc_boringssl_symbols.py:152-168 | an entry whose name field is n and / with spaces, or n with spaces, is a member named n with that content |
| `ArchiveLaws.LongEntry` | tools/isolate_webrtc_boringssl_symbols.py:162-168 | an entry whose name field is / and a number is a member with the name that starts at that place of the table and ends before the next slash and newline |
| `ArchiveLaws.RewriteLaysOut` | tools/isolate_webrtc_boringssl_symbols.py:253-274 | reassembly gives the layout of the entries with the replacements put in |
| `ArchiveLaws.ResizedFitsIffBelowLimit` | tools/isolate_webrtc_boringssl_symbols.py:264 | the patched header keeps its 60 bytes if and only if the new size is below 10^10 |
| `ArchiveLaws.ItemsOfReplaced` | tools/isolate_webrtc_boringssl_symbols.py:253-274 | replacing entries exchanges exactly the contents named by the replacement map and keeps all names, also those in the // table |
| `ArchiveLaws.ReassembledFileReadsBack` | tools/isolate_webrtc_boringssl_symbols.py:143-276 | for every well-formed archive and every replacement map over its members with lengths below 10^10, parsing the reassembled bytes gives the same names in the same order with contents replaced or original |
| `ArchiveLaws.NothingReplacedIffNewlinePads` | tools/isolate_webrtc_boringssl_symbols.py:267-273 | with nothing to replace, the output equals the input if and only if every pad byte of the input is a newline |
| `SymbolIsolation.IsolateMembers` | tools/isolate_webrtc_boringssl_symbols.py:197-251 | the two passes compute the target set and rename exactly the touched members |
| `SymbolIsolation.TouchedOnlyEqualsAllIffReported` | tools/isolate_webrtc_boringssl_symbols.py:228-251 | renaming only the touched members equals renaming every member if and only if nm reports a target in every member that mentions one |
| `SymbolIsolation.RenameInjectiveIffFresh` | tools/isolate_webrtc_boringssl_symbols.py:225-226 | renaming keeps distinct symbols distinct if and only if no symbol already carries a prefixed target name |
| `SymbolIsolation.LinkKeptIff` | tools/isolate_webrtc_boringssl_symbols.py:197-251 | with a fresh prefix, a reference keeps its defining members if and only if they move along with it: those of a renamed member are renamed too, those of another are not |
| `SymbolIsolation.AllLinksKeptIff` | tools/isolate_webrtc_boringssl_symbols.py:197-251 | if no symbol carries a prefixed target name, all references of the archive keep their defining members if and only if every member that defines or references a referenced target is touched |
| `SymbolIsolation.LinksPreserved` | tools/isolate_webrtc_boringssl_symbols.py:197-251 | so if nm reports a target in every member that mentions one, every reference has the same defining members before and after, and one that the archive does not define keeps its name |
| `SymbolIsolation.CollisionGoneIff` | tools/isolate_webrtc_boringssl_symbols.py:197-251 | no plain-C symbol defined in the output is exported by system OpenSSL if and only if every colliding definition was reported in a touched member and the system exports no prefixed target |
| `SymbolIsolation.WeakReferenceLosesItsDefinition` | tools/isolate_webrtc_boringssl_symbols.py:173-182 | an unresolved weak reference, which the script reads as neither definition nor reference, loses its definition: an archive in which not all links are kept |
| `SymbolIsolation.ReadableIsReported` | tools/isolate_webrtc_boringssl_symbols.py:173-182 | if every symbol with an address stands under one of the ten letters and every other under U, nm's report misses no mention of any target |
| `SymbolIsolation.MemberIsIsolated` | tools/isolate_webrtc_boringssl_symbols.py:197-251 | then every member comes out with exactly its colliding symbols, plain C, defined in the archive and exported by the system, under webrtcvendored_ |
| `SymbolIsolation.NothingCollides` | tools/isolate_webrtc_boringssl_symbols.py:197-251 | no symbol that is then defined is both plain C and exported by the system |
| `SymbolIsolation.LinkIsIsolated` | tools/isolate_webrtc_boringssl_symbols.py:197-251 | and every reference is defined by the members that defined it before |
| `Crc32.PolynomialOfTheStandard` | gendb/ProvisioningClient.cpp:123 | the constant is the reflected generator polynomial of section 3.4 of RFC 2083 |
| `Crc32.ShiftsAreSerial` | gendb/ProvisioningClient.cpp:121-123 | folding a byte in at once and shifting eight times equals feeding its bits one by one to the register of section 3.4 of RFC 2083 |
| `Crc32.TableStep` | gendb/ProvisioningClient.cpp:129 | eight shifts of any register are one table entry and a move down by a byte |
| `Crc32.ByteStep` | gendb/ProvisioningClient.cpp:129 | the table-driven update equals the bit-by-bit reference for every register and byte |
| `Crc32.Crc32Computer.FillTable` | gendb/ProvisioningClient.cpp:120-127 | the table holds eight shifts of every index |
| `Crc32.Crc32Computer.Crc32Of` | gendb/ProvisioningClient.cpp:117-131 | for every byte sequence the result is the bit-serial reflected CRC-32, with the table filled on the first call or before |
| `Zlib.BE32RoundTrip` | gendb/ProvisioningClient.cpp:133-138 | four big-endian bytes read back as the value modulo 2^32 |
| `Zlib.ZlibStoreUncompressed` | gendb/ProvisioningClient.cpp:153-177 | the do-while loop and the checksum loop end and emit the specified stream |
| `Zlib.Adler` | gendb/ProvisioningClient.cpp:170-175 | the running sums modulo 65521 give the Adler-32 of section 8.2 of RFC 1950, defined by whole sums |
| `Zlib.BlocksReadBack` | gendb/ProvisioningClient.cpp:156-168 | reading the stored blocks (section 3.2.4 of RFC 1951) up to the first final one returns the data and leaves what follows the last block |
| `Zlib.StreamReadsBack` | gendb/ProvisioningClient.cpp:153-177 | for every byte sequence, empty and multiples of 65535 included, the stream is a valid zlib stream (section 2.2 of RFC 1950) of that sequence |
| `Zlib.StreamLength` | gendb/ProvisioningClient.cpp:153-177 | the length of the stream: one 5-byte header for each started 65535 bytes, at least one |
| `Png.WritePngChunk` | gendb/ProvisioningClient.cpp:140-146 | appends length, type, data and CRC over type and data |
| `Png.ChunkReadsBackIff` | gendb/ProvisioningClient.cpp:140-146 | a chunk reads back if and only if its length is below 2^32 |
| `Png.PackRow` | gendb/ProvisioningClient.cpp:194-202 | bit x of a packed row is set unless pixel (x, y) lies in a dark module; the filling bits are set |
| `Png.FileReadsBack` | gendb/ProvisioningClient.cpp:205-216 | signature, chunks, zlib stream and filter-0 rows read back as the packed rows |
| `Png.WriteQrPng` | gendb/ProvisioningClient.cpp:184-221 | for every QR matrix and scale whose sizes fit, decoding the file gives a square in which pixel (x, y) is black exactly when module (x/scale - 4, y/scale - 4) exists and is dark |
| `Base64.Encode` | util/Base64.cpp:7-36 | equals section 4 of RFC 4648: the big-endian number of the data, filled up with zero bits, in base-64 digits, and the padding |
| `Base64.AlphabetText` | util/Base64.cpp:8 | the alphabet, spelt out |
| `Base64.EncodeGroups` | util/Base64.cpp:11-20 | the loop over whole groups emits the digits of the number read so far |
| `Base64.FillTable` | util/Base64.cpp:39-45 | the table inverts the alphabet and is -1 elsewhere |
| `Base64.Decode` | util/Base64.cpp:38-63 | for every string the result is the whole bytes of the unbounded number its digits form, although the 32-bit accumulator drops high bits |
| `Base64.DigitRead` | util/Base64.cpp:55-60 | one digit more: the accumulator is the number modulo 2^32 and the byte taken from it is the next byte of the number |
| `Base64.DecodeOfEncode` | util/Base64.cpp:7-63 | decode(encode(x)) = x, and the same with the padding missing or with any text behind the first '=' |
| `Base64.EncodedLength` | util/Base64.cpp:10-34 | four characters for each started group of three bytes |
| `Base64.DecodeSkips` | util/Base64.cpp:54 | a character outside the alphabet, '=' apart, can be left out anywhere without changing the result |
| `Base64.DecodeStops` | util/Base64.cpp:52 | nothing after the first '=' is read |
| `LinkUrl.Base64NoPadding` | gendb/ProvisioningClient.cpp:42-46 | the pop_back loop leaves exactly the digits |
| `LinkUrl.UrlEncode` | gendb/ProvisioningClient.cpp:48-61 | the loop emits the percent-encoding of every byte |
| `LinkUrl.EscapeExact` | gendb/ProvisioningClient.cpp:48-61 | exactly the letters, the digits and - _ . ~ stay as they are; all other bytes become % and two upper-case digits |
| `LinkUrl.UnescapeEscaped` | gendb/ProvisioningClient.cpp:48-61 | percent-decoding (section 2.1 of RFC 3986) gives back every byte string |
| `LinkUrl.EscapedIsPlain` | gendb/ProvisioningClient.cpp:48-61 | an encoded value holds unreserved characters and '%' only, so no '&', '=', '+' or '#' |
| `LinkUrl.LinkUrlOf` | gendb/ProvisioningClient.cpp:329-331 | the printed URL |
| `LinkUrl.UrlReadsBack` | gendb/ProvisioningClient.cpp:329-331 | for every address and key, splitting the URL at its parameters, percent-decoding and Base64-decoding gives back both |
| `ConnectProtocol.StepKeepsInv` | signal/AuthSocket.cpp:240-349 | every step of any thread keeps who owns each attempt's state and where each handle is |
| `ConnectProtocol.RunKeepsInv` | signal/AuthSocket.cpp:240-349 | so does every run of any number of attempts, completions before, at or after the timeout, interruptions, close and destructor |
| `ConnectProtocol.DeletedExactlyOnce` | signal/AuthSocket.cpp:284-332 | an attempt's state is deleted at most once, and once both sides are past it exactly once: by the completion if the caller gave up first, by the caller otherwise |
| `ConnectProtocol.LiveWhenUsed` | signal/AuthSocket.cpp:273-332 | no locked use, read of the runtime or deletion of a state comes after its deletion |
| `ConnectProtocol.RecordedAsCompleted` | signal/AuthSocket.cpp:268-335 | in every run an attempt records, and the caller reads, the error and the handle that its completion was called with; it was abandoned if and only if waiting for it timed out |
| `ConnectProtocol.ChatIsLastHandle` | signal/AuthSocket.cpp:330-340 | chat holds nothing but the handle that the completion of the last attempt was called with |
| `ConnectProtocol.HandlesConserved` | signal/AuthSocket.cpp:82-349 | a handle that an attempt brought is in exactly one place: installed, on its way to the caller or to the late clean-up, or disconnected and destroyed, each once |
| `ConnectProtocol.NoHandleLeft` | signal/AuthSocket.cpp:82-349 | between calls every handle but the installed one of completed attempts has been disconnected and destroyed exactly once, after the destructor all have |
| `ConnectProtocol.ConnectedHasHandle` | signal/AuthSocket.cpp:340-515 | connected promises an installed handle, except in close() between tearing it down and clearing the flag |
| `ConnectProtocol.ConnectedIffAnnounced` | signal/AuthSocket.cpp:217-348 | connected holds if and only if a connection was announced after the last connect, interruption and close |
| `ConnectProtocol.DeauthorizedIffRevoked` | signal/AuthSocket.cpp:217-344 | deauthorized holds if and only if, since it was last cleared, a reported revocation was taken in or the caller came to a completion with the error 171 |
| `ConnectProtocol.RevocationSurvivesIff` | signal/AuthSocket.cpp:230-348 | a revocation taken in during an attempt survives that attempt's success if and only if it comes after deauthorized was cleared |
| `ConnectProtocol.RevocationStays` | signal/AuthSocket.cpp:230-348 | one taken in between attempts or after the clearing stays until the next connect or reconnect |
| `ConnectProtocol.InterruptionForgotten` | signal/AuthSocket.cpp:217-348 | an interruption that arrives right after the listener was registered is forgotten, and so is its deauthorization |
| `ConnectProtocol.InterruptionOverwritten` | signal/AuthSocket.cpp:344-348 | one that arrives just before the flag is set is overwritten too |
| `ConnectProtocol.InterruptionHeard` | signal/AuthSocket.cpp:217-233 | an interruption outside doConnect leaves the socket unconnected until the next connect or reconnect |
| `ConnectProtocol.ListenedReachable` | signal/AuthSocket.cpp:240-342 | a run that reaches the moment at which an interruption would be forgotten |
| `AuthSocket.ConnectState.Complete` | signal/AuthSocket.cpp:268-305 | the critical section of the completion lambda does its protocol step and tells who cleans up |
| `AuthSocket.ConnectState.WaitFor` | signal/AuthSocket.cpp:317-322 | waiting and giving up in one critical section do the steps Wake or TimeOut |
| `AuthSocket.Impl.StartConnect` | signal/AuthSocket.cpp:240-252 | clears the flag and takes the old handle away for tearing down |
| `AuthSocket.Impl.FinishConnect` | signal/AuthSocket.cpp:330-348 | error, deregistration, installed handle, failing listener and success, each as the protocol has it |
| `AuthSocket.Impl.OnConnectionInterrupted` | signal/AuthSocket.cpp:217-234 | clears the flag, and marks a revoked device |
| `AuthSocket.Impl.Close` | signal/AuthSocket.cpp:506-516 | the second call does nothing; the first tears the handle down and clears the flag |
| `DispatchProtocol.RunKeepsInv` | daemon/main.cpp:201-292 | every interleaving of pushes, notifications, takes, completions, spurious wake-ups and stop keeps the accounting and the promise to wake |
| `DispatchProtocol.StateFollowsSteps` | daemon/main.cpp:201-292 | the history is that of the steps: the pushed items are those of the Push steps in order, one item is executed for each completion, and stopping is set if and only if there was a stop |
| `DispatchProtocol.ExecutedInOrder` | daemon/main.cpp:201-292 | executed, in-flight and queued items are together the items of the Push steps, in order |
| `DispatchProtocol.ReturnsOnlyWhenDrained` | daemon/main.cpp:276-280 | the worker returns only with stopping set and the queue empty, everything pushed so far executed |
| `DispatchProtocol.LeftOverIsLate` | daemon/main.cpp:201-280 | after the return, whatever follows, exactly the items pushed before it are executed and exactly those pushed after it are left |
| `DispatchProtocol.JoinedMeansExecuted` | daemon/main.cpp:240-261 | a join that succeeds in time means that everything pushed before the return was executed |
| `DispatchProtocol.SomethingToDo` | daemon/main.cpp:271-292 | after stop the worker is never stuck: no wake-up is lost |
| `DispatchProtocol.DrainsAndReturns` | daemon/main.cpp:240-292 | after stop and without further pushes every sequence of steps is bounded, and once none is possible the worker has returned with everything executed |
| `DispatchQueue.EnvelopeDispatchQueue.Push` | daemon/main.cpp:201-205 | the critical section of push |
| `DispatchQueue.EnvelopeDispatchQueue.Stop` | daemon/main.cpp:240-244 | the critical section of stopAndJoin |
| `DispatchQueue.EnvelopeDispatchQueue.Next` | daemon/main.cpp:275-283 | the wait predicate and the critical section of the worker: sleep, return or take the front item |
| `CallMachine.RunKeepsInv` | daemon/main.cpp:563-1635 | every sequence of handlers keeps the invariant of legs, bridge, calls and accepts |
| `CallMachine.OneLegOnTheCurrentBridge` | daemon/main.cpp:843-1635 | at most one SIP leg; an incoming leg implies not callee; every leg runs on the current bridge, and there is a bridge only with a leg; after ENDED or CONCLUDED there is neither, and no callee |
| `CallMachine.StandingIs` | daemon/main.cpp:843-1635 | which leg stands, answered or hung up, and whether the account is the callee, are functions of the events so far alone |
| `CallMachine.CommandsOfAStep` | daemon/main.cpp:563-1635 | every command to RingRTC and PJSIP, if and only if: answering a placed leg at each CONNECTED while it stands, proceeding at OUTGOING_AUDIO and at a bridgeable INCOMING_AUDIO, dialling, ringing, refusing, hanging up on either side, accepting |
| `CallMachine.LegsConserved` | daemon/main.cpp:843-1635 | over every run the legs dialled and rung are those hung up and the one that stands |
| `CallMachine.DialledLegHasItsCall` | daemon/main.cpp:843-1064 | a dialled leg belongs to the only live Signal call, which is the active one and has rung |
| `CallMachine.DialledLegStays` | daemon/main.cpp:843-1101 | a dialled leg is never replaced and goes only when its own call has ended |
| `CallMachine.AcceptedAtMostOnce` | daemon/main.cpp:572-587 | a Signal call is accepted at most once, and not before it has rung |
| `CallMachine.AcceptedOnlyWhenAnswered` | daemon/main.cpp:572-587 | a call has been accepted if and only if the PBX answered a leg dialled for it |
| `CallMachine.PbxHangUpEndsAcceptedCall` | daemon/main.cpp:588-606 | a PBX hang-up ends the Signal call if and only if that call had been accepted |
| `CallMachine.CalleeIffArmed` | daemon/main.cpp:1022-1629 | in every run the account is the callee if and only if a call that can be bridged has come in and since then no call has ended and no INVITE, with no leg standing, got as far as placing a call |
| `CallMachine.RingingDialsIff` | daemon/main.cpp:1044-1064 | RINGING dials if and only if the account is armed in that sense and can reach the PBX; no leg exists before |
| `CallMachine.FailedInviteDisarms` | daemon/main.cpp:1510-1635 | an INVITE for which no call can be started makes the next RINGING of a waiting call go undialled |
| `CallMachine.DisarmReachable` | daemon/main.cpp:1022-1043 | a run in which that can happen |
| `CallMachine.PlacedLegStays` | daemon/main.cpp:911-1101 | while its call is the only live one, the leg of a placed call goes only with that call, and the call stays the only live one |
| `CallMachine.PlacedLegSafeIff` | daemon/main.cpp:911-1101 | in no continuation, of any length, does anything but the end of its own call take the leg of a placed call away, if and only if no other call is live |
| `CallMachine.PlacedLegLostToAnotherCall` | daemon/main.cpp:1097-1101 | with a second call not yet concluded, that call's event takes the leg away and nothing hangs the placed call up |
| `CallBridge.AccountState.OnCallState` | daemon/main.cpp:1007-1103 | the handler does to the fields, and asks of RingRTC and PJSIP, what the machine says |
| `CallBridge.AccountState.StartSipDial` | daemon/main.cpp:843-909 | a new leg on a new bridge, or nothing while the registration is down |
| `CallBridge.AccountState.StopSipBridge` | daemon/main.cpp:911-937 | hangs up and removes the dialled leg, and the bridge |
| `CallBridge.AccountState.StopIncomingSipCall` | daemon/main.cpp:944-970 | hangs up and removes the incoming leg, and the bridge |
| `CallBridge.AccountState.OnSipState` | daemon/main.cpp:572-607 | CONFIRMED and DISCONNECTED of a dialled leg |
| `CallBridge.AccountState.OnIncomingSipDisconnected` | daemon/main.cpp:633-649 | DISCONNECTED of an incoming leg hangs the Signal call up once |
| `CallBridge.AccountState.OnIncomingCall` | daemon/main.cpp:1543-1635 | busy, no number, unresolved, refused and started INVITEs |
| `AccountConfigs.ConfigFromRecordIff` | daemon/Config.cpp:71-123 | exactly which rows are accepted; what comes out has the defaults, port 5061 for a TLS host without a port, and everything else unchanged |
| `AccountConfigs.StaleIff` | daemon/main.cpp:1974-1986 | after a reload a running account has the wanted configuration, except if and only if one of equal version and other content was running |
| `ConfigHistory.RunKeepsVersions` | storage/Storage.cpp:334-397 | in every honest history of writes, deletions and reloads a running version is not ahead of its row, and equal versions mean equal configurations |
| `ConfigHistory.EqualVersionsEqualConfigs` | storage/Storage.cpp:334-363 | equal version numbers imply equal deployment configuration |
| `ConfigHistory.ReloadMakesCurrent` | daemon/main.cpp:1945-1987 | a reload leaves up-to-date accounts the very instances they were, removes exactly the unwanted, and leaves every other wanted account on its row's configuration or absent because its set-up failed |
| `ConfigHistory.SaveTakesEffect` | storage/Storage.cpp:334-363 | after the next reload an account runs if and only if it was saved as enabled, the row is valid and its set-up succeeds, and then with what was saved |
| `ConfigHistory.IdentityResaveUnseen` | storage/Storage.cpp:365-397 | saving another number for a running, current account is not seen by a reload: stale if and only if the number differs |
| `ConfigHistory.HonestIff` | storage/Storage.cpp:334-397 | a step keeps the versions honest if and only if no honest continuation ends in a reload that leaves an account stale |
| `ConfigHistory.DishonestHistory` | storage/Storage.cpp:334-397 | every honest history followed by a dishonest step has a continuation that ends with a stale account |
| `ConfigHistory.ResaveReachesStale` | storage/Storage.cpp:365-397 | a run from the start with a saved number that ends with a stale account |
| `ConfigHistory.RecreationReachesStale` | storage/schema.sql:80 | a run from the start with a deleted and re-created row that ends with a stale account |
| `ConfigHistory.RecreatedRowUnseen` | storage/schema.sql:80 | a row deleted and created again restarts the counter; after as many saves as the running version a reload keeps the old account, stale if and only if the new row says anything else |
| `ConfigReload.AccountTable.SaveAccountConfig` | storage/Storage.cpp:334-363 | updates the deployment and bumps the version in the row, or fails without a row |
| `ConfigReload.AccountTable.SaveAccount` | storage/Storage.cpp:365-397 | inserts with version 0 or updates the identity without touching the version |
| `ConfigReload.Daemon.SetupAccount` | daemon/main.cpp:1643-1868 | the entry exists afterwards if and only if the set-up succeeded |
| `ConfigReload.Daemon.TeardownAccount` | daemon/main.cpp:1875-1930 | exactly the entry of that name goes |
| `ConfigReload.Daemon.RemoveUnwanted` | daemon/main.cpp:1963-1972 | the erase-while-iterating loop ends and keeps exactly the wanted entries |
| `ConfigReload.Daemon.SetUpWanted` | daemon/main.cpp:1974-1986 | the second loop carries out the reload specification |
| `ConfigReload.Daemon.ReloadConfig` | daemon/main.cpp:1945-1987 | a configuration error changes nothing; otherwise the reload specification holds between the accounts before and after |
| `ContactTable.SavedKeepsValid` | storage/Storage.cpp:559-612 | non-empty e164 and non-empty aci stay unique in each account |
| `ContactTable.SaveFailsIff` | storage/Storage.cpp:559-612 | a save fails if and only if its two keys name two different rows |
| `ContactTable.SavedIsFound` | storage/Storage.cpp:559-644 | after a successful save each non-empty key finds the saved contact |
| `ContactTable.SavedChangesOneRow` | storage/Storage.cpp:582-611 | a save writes one row, the matched one of the same account or a new one |
| `ContactTable.UnmatchedUnchanged` | storage/Storage.cpp:559-612 | a row that shares no key with the contact is unchanged |
| `ContactTable.SyncedValid` | daemon/main.cpp:405-425 | a batch keeps the table valid |
| `ContactTable.KeylessSkipped` | daemon/main.cpp:405-411 | a contact without any key changes nothing, wherever it stands in a batch |
| `ContactTable.BatchLeavesOthers` | daemon/main.cpp:405-425 | a row sharing no key with the batch, such as any of another account, survives it unchanged |
| `ContactTable.BatchFinds` | daemon/main.cpp:405-425 | a contact saved in a batch is found by both keys afterwards unless a later contact shares a key, whatever fails in between |
| `Contacts.Database.SaveSyncedContact` | storage/Storage.cpp:559-612 | the method is the specified save, and leaves the table unchanged when it fails |
| `Contacts.Database.LoadSyncedContact` | storage/Storage.cpp:628-635 | the contact of the row with that e164, if there is one |
| `Contacts.Database.LoadSyncedContactByAci` | storage/Storage.cpp:637-644 | the contact of the row with that aci, if there is one |
| `Contacts.Database.SyncStorageContacts` | daemon/main.cpp:398-432 | the loop is the fold of the saves that skips contacts without a key and failing saves |
| `ResolverHistory.RunKeepsInv` | daemon/ContactResolver.cpp:13-76 | in every sequential run a cached row is the last lookup of its number |
| `ResolverHistory.LookupsSpaced` | daemon/ContactResolver.cpp:28-57 | two lookups that brought a result for one target are at least the TTL apart |
| `ResolverHistory.HitAnswersLikeTheLookup` | daemon/ContactResolver.cpp:28-38 | a call makes no lookup if and only if the last one is younger than the TTL, and then answers or fails as that lookup did |
| `ResolverHistory.HitRepeatsTheAnswer` | daemon/ContactResolver.cpp:28-34 | a call answered from the cache answers as the call that made the lookup, which saved its result less than the TTL before |
| `ResolverHistory.Answers` | daemon/ContactResolver.cpp:15-75 | a text that is no number comes back as it is, a synced ACI goes first, a lookup gives the ACI or else the prefixed PNI or the error |
| `ContactResolver.Storage.ResolveOutgoingTarget` | daemon/ContactResolver.cpp:13-76 | target or error and the cache afterwards, branch by branch |
| `ContactResolver.Storage.SaveResolvedContact` | storage/Storage.cpp:532-545 | the upsert of one row |
| `DeviceLists.RunKeepsInv` | daemon/CallSignaling.cpp:202-345 | in every sequential run the cache is what the history of fetches and erasures says |
| `DeviceLists.FetchesSpaced` | daemon/CallSignaling.cpp:202-345 | a request for the devices of a peer, successful or not, comes at least 1800 s after a list for it was stored, unless a send to it in between ended in 409 or 410 |
| `DeviceLists.EventsOfACall` | daemon/CallSignaling.cpp:202-345 | a call asks for a list if and only if the last stored one is not younger than 1800 s, so a failed request is repeated at once, and erases the entry if and only if its last status was 409 or 410 |
| `DeviceLists.PutsOfACall` | daemon/CallSignaling.cpp:254-329 | in every run the first PUT addresses exactly the last list fetched while that is younger than 1800 s and otherwise the one just fetched; a second one follows exactly after a 409 with extra devices that leaves some |
| `DeviceLists.AtMostTwoPuts` | daemon/CallSignaling.cpp:292-329 | a send makes at most two PUTs; the second only after a 409 and never empty |
| `DeviceLists.WithoutIsExact` | daemon/CallSignaling.cpp:311-318 | the retry addresses exactly the devices that are not extra, each as often as before |
| `DeviceLists.WithoutKeepsOrder` | daemon/CallSignaling.cpp:311-318 | and in the same order |
| `DeviceListCache.CallMessageSender.ResolveDeviceList` | daemon/CallSignaling.cpp:202-252 | cached list, fetched list or exception, and the cache afterwards |
| `DeviceListCache.CallMessageSender.SendContent` | daemon/CallSignaling.cpp:254-345 | the PUTs of a send and the erasure of the entry |
| `DeviceListCache.CallMessageSender.RetryDevices` | daemon/CallSignaling.cpp:311-318 | the loop that leaves out the extra devices |
| `Padding.PadMessageBody` | signal/Padding.cpp:22-30 | message, terminator and zeros, written in place |
| `Padding.StripPaddingMessageBody` | signal/Padding.cpp:32-42 | for every input: cut at the terminator that only zeros follow, unchanged if there is none |
| `Padding.PaddedEndsOnce` | signal/Padding.cpp:22-42 | a padded message has exactly one such terminator, at the end of the message, whatever bytes that ends in |
| `Padding.RoundTrip` | signal/Padding.cpp:22-42 | strip(pad(m)) = m for every message |
| `Padding.PaddedLengthIsLeast` | signal/Padding.cpp:11-26 | the padded length is the least number of the form 80k - 1 with room for the terminator |

## Left out

- Hardware memory ordering; libsignal, RingRTC, PJSIP, SQLCipher, OpenSSL, curl, protobuf, objcopy and nm themselves.
- Archive.ParseMembers: a negative size field is an error here; the script goes on with it, backwards and perhaps for ever.
- Archive.ReadEntry: the same negative size fields.
- Archive.Reassemble: the same negative size fields.
- ConfigReload.AccountTable.SaveAccount: of the identity columns only the number is modelled, the one a configuration contains.
- Archives that end in the middle of a header or a member: parsing and reassembly follow the loops there, but the read-back law is about whole entries.
- The symbol index of the archive, which `ar s` rebuilds afterwards, and all file input and output.
- Memory lifetime outside critical sections: the notification after unlocking in the completion lambda of doConnect, and work still running after stopAndJoin gave up waiting.
- The wording of errors; doRequest, keep-alive and the pushed messages of the socket.
- Use of the dispatch queue before start(), and a second stopAndJoin's missing join.
- Interleavings inside one call handler, such as the resolution of a number within an INVITE; teardownAccount in the middle of a call; DTMF, media wiring and the choice of the account by port.
- Everything setupAccount does besides creating or erasing the account's entry; the watchdogs of main().
- The INI file and the list of accounts beyond enabled rows with a valid configuration.
- Database migration and encryption; I/O errors of SQLite, so that a failing save is always a violated index.
- Concurrent calls of one sender or resolver: the cache theorems are about calls one after the other.
- The terminal rendering of QR codes, the tui and the libsrtp variant of the archive script, whose archive code is the same.
- Wrap-around of size_t in buffer sizes other than the ring's indices, and of SQLite's 64-bit counters.
- Png.WriteQrPng: asks for an image side below 2^31 and an IDAT length below 2^32, since the side is an int and the length field has 32 bits.
- Ring capacities above 2^63 are covered only by the statement that the count is then wrong.
