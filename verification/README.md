# Verified model of the AX.25 applications and tools

This project models the stateful codecs, protocol engines and caches of the AX.25 user-space
programs and proves what they promise. The model follows the C code branch by branch. What the C
code changes in place (buffers, linked lists, static states) is changed in place here too: those
methods are proved against functions on sequences and values, and the theorems about all inputs,
all runs and all cuttings of a stream are proved about those functions.

## What is modelled

* **YAPP file transfer** (`Yapp.dfy`, `YappSafety.dfy`, `YappOutcome.dfy`, `YappProgress.dfy`,
  `YappExact.dfy`, `YappCut.dfy`, `YappHeader.dfy`, `YappChecksum.dfy`, `YappSession.dfy`,
  `YappProcess.dfy`). Uploader and downloader as two processes connected by byte channels, with
  re-framing, partial writes and the negotiated checksum. For every run, with every cutting of the
  streams and every cancellation that does not fall into a block: the receiver holds a prefix of
  the file behind what it had before, all of it when the end of file is acknowledged, and no
  protocol error occurs. A run that can go no further has ended on both sides, except a downloader
  whose resume request the uploader takes for a refusal; one that nobody cancels can always be
  completed, and ends in the one outcome the situation decides. All of this holds if and only if
  the transfer is not a YAPP C transfer of an empty file into a new or empty one: for that one a
  run is constructed that breaks the promises, and one that nobody cancels in which the two sides
  wait for each other. Every run of every transfer is bounded. A cancellation with a block half
  sent can put its own octets on disk: as many as there were octets of the block unsent, and
  exactly when it does can be read off the output buffer. Even so, in every run of every transfer
  a receiver that finishes has the whole file, and receives into the file that the first field of
  the header names.
* **Static Huffman codec** (`HuffmanTables.dfy`, `Huffman.dfy`). The literal tables are proved to
  agree, code by code, and the bit-packing loops to round-trip for every message of 1 to 255
  octets, whatever octet follows the encoded form.
* **Route caches of ax25rtd** (`LinkedRoutes.dfy`, `Subnet.dfy`, `RouteCache.dfy`,
  `RouteLaws.dfy`). The doubly linked lists, relinked in place, refine sequences. After any run of
  updates a cache holds exactly the most recently heard keys, up to its limit, with their latest
  values. Over every run of updates, deletions, invalidations and expiries keys stay unique and
  lengths within the limits. Which entry each operation takes, and which bits it asks the kernel
  tables for, is stated on the entries. Expiry cascades to exactly the IP routes that carry an
  expired callsign. A permanent entry can be evicted, and when is stated exactly for both caches.
* **MD5** (`Md5.dfy`, `Md5Stream.dfy`, `Md5Laws.dfy`, `Md5Vector.dfy`). The unrolled
  transformation equals the reference definition of RFC 1321, section 3.4, and a context fed in
  any pieces gives the digest of the concatenation, with the two-word bit counter wrapping as it
  does. What code and reference share is stated bit by bit, and the first vector of the test suite
  of the RFC worked out.
* **Frame check sequence** (`Fcs.dfy`, `FcsPairs.dfy`). The table-driven checksum equals
  bit-at-a-time division; which frames pass and which corruptions are caught. Two flipped bits go
  unnoticed exactly when they are a multiple of 32767 bits apart.
* **6pack** (`SixPack.dfy`, `SixPackIface.dfy`). Round trip of the six-bit code, delivery from any
  receiver state, self-synchronisation, interleaved commands. The corruption of one data octet is
  caught from exactly those states in which the frame is taken for its own port.
* **KISS** (`KissBytes.dfy`; `KissRing.dfy` for net2kiss; `Kiss.dfy`, `KissIface.dfy` and
  `KissChecks.dfy` for mkiss). The transactional ring buffer and its decoder; frames in three
  checksum modes from any receiver state. Exactly which frames arrive as they were sent, and which
  octets are accepted at all. One wrong byte is always caught, but for a G8BPQ command byte that
  becomes one of a frame without a checksum; in FlexNet mode three endings besides the checksum
  itself are accepted, because a step of the checksum loses part of the running value.
* **NRS gateway** (`Octets.dfy`, `Nrs.dfy`, `NrsGateway.dfy`). Two gateways back to back reproduce
  the KISS stream; after noise each side is in step again after a stated number of frames. A frame
  with a wrong sum is never delivered. A frame that follows a command frame is taken out of step:
  exactly the data frames arrive if and only if no command frame is followed by another frame.
* **ax25ipd** (`Callsigns.dfy`, `CallTree.dfy`, `Routing.dfy`, `Digipeat.dfy`, `Gateway.dfy`,
  `GatewayLaws.dfy`). The callsign tree, whose comparison is the lexicographic order on callsigns
  of letters, digits and spaces, but no order on seven octets in general (a circle needs octets
  outside that alphabet), and whose lookup is right for all of them; routing; the walks over the
  address field; where a frame goes, stated on its octets, and the frame through the tunnel and
  back.
* **DOS dates** (`DosTime.dfy`, `DosCalendar.dfy`). The conversions of the YAPP header invert each
  other and agree with a calendar that counts days from 1 January 1970; they leave the Gregorian
  calendar on 1 March 2100.

`WireExamples.dfy` holds frames of these protocols octet by octet, with numbers in place of the
names that senders and receivers share.

Where a comment of the source and its code differ, the code is followed: `process.c` says that in
digi mode the station before ours is found (`ax25apps/ax25ipd/process.c:390`); it is found only by
the last digipeater, and what the others find is stated exactly (`Digipeat.DigiFrom`). `yapp.c`
lists a resume request among the replies to a header (`ax25apps/call/yapp.c:578-594`); the test at
line 539 returns before it is looked at (`YappOutcome.OutcomeIsDecided`).

## Model

| member | source | states |
|---|---|---|
| YappSafety.SafeExactlyWhenFits | ax25apps/call/yapp.c:286-796 | over all runs with any chunking, partial writes and cancellations by either side (the uploader's between blocks; inside a block see YappCut), disk is a prefix of the file behind the old contents, complete once EOF is acknowledged and when the receiver has finished, no unknown-code or checksum error, both sides agree on the checksum mode, if and only if it is not a YAPP C transfer of an empty file into a new or empty file |
| YappSafety.RunInv | ax25apps/call/yapp.c:437-796 | for transfers other than YAPP C of an empty file into a new or empty one, every reachable state satisfies the joint invariant: which message sequences can be in flight in each pair of protocol states (exactly those transfers: YappExact.InvariantExactly) |
| YappSafety.NextInv | ax25apps/call/yapp.c:437-796 | for the same transfers, every event (write, either read, either cancellation) keeps the joint invariant (exactly those: YappExact.InductiveExactly) |
| YappSafety.FrontMessage | ax25apps/call/yapp.c:493-528 | the re-framing loop finds exactly the boundaries of the messages sent, wherever the stream was cut |
| YappSafety.HeaderHasFields | ax25apps/call/yapp.c:195-240 | a header sent, file name clamped or not, is parsed as three fields if it has a time stamp and as two otherwise (what they hold: YappHeader.HeaderSays) |
| YappHeader.HeaderSays | ax25apps/call/yapp.c:195-240 | the octets behind code and length are, for every valid job, the fields in their order: the longest front of the file name with which the header fits 255 octets, all of it if it fits; the size; the time stamp if there is one; and no more |
| YappHeader.OpensFirstField | ax25apps/call/yapp.c:346-355 | in every run of every transfer, cancelled or not, a receiver receiving into a file it had to open has opened the one of the first field |
| YappHeader.ResumeSays | ax25apps/call/yapp.c:149-167 | the resume request has the fields R, the size of what is there, and C |
| YappHeader.UploaderSays | ax25apps/call/yapp.c:534-650 | an uploader that gives up sends nothing if it was cancelled or refused, and "Unknown code" if it was sent anything else it does not expect |
| YappHeader.DownloaderSays | ax25apps/call/yapp.c:286-435 | which of the four reasons a downloader gives, and in which message, octet by octet |
| YappHeader.HeaderSkipped | ax25apps/call/yapp.c:553-571 | a receiver that asks for data at once gets the first block without a header, and without a checksum |
| YappHeader.BetweenFiles | ax25apps/call/yapp.c:376-387 | a repeated invitation is ignored before a header, and the end of the transfer acknowledged |
| YappChecksum.BlockWithOneOctetChanged | ax25apps/call/yapp.c:391-418 | in a YAPP C block any one octet of data or checksum that has become another is noticed, the transfer is cancelled and nothing is written |
| YappSession.PlainSession | ax25apps/call/yapp.c:83-796 | a whole transfer with both ends after each event, every message octet by octet |
| YappSession.CheckedSession | ax25apps/call/yapp.c:83-796 | the same with a time stamp and the checksum of YAPP C |
| YappSafety.BrokenRun | ax25apps/call/yapp.c:604-614 | the stray checksum octet of an empty file: a run in which the receiver misreads the end of file and the promises fail |
| YappOutcome.NoDeadlock | ax25apps/call/yapp.c:437-796 | for transfers other than YAPP C of an empty file into a new or empty one, in any run that can only be given up the uploader has ended, and so has the downloader unless its resume request was refused |
| YappOutcome.OutcomeIsDecided | ax25apps/call/yapp.c:309-374 | for the same transfers, a run without cancellation that can go no further has ended as refused, as resume taken for a refusal with nothing added, or as complete with the whole file, as the file and its openability decide |
| YappProgress.RunsAreBounded | ax25apps/call/yapp.c:673-795 | the number of events of any run is bounded by the length of the file alone |
| YappProgress.Completes | ax25apps/call/yapp.c:437-796 | for the same transfers, every run without cancellation can be completed to the decided outcome: where nothing stands in the way both sides finish with the whole file on disk |
| YappExact.WaitingRun | ax25apps/call/yapp.c:604-614 | the transfer left out above does deadlock: a run nobody cancels in which the uploader waits for the acknowledgement of the end of file and the downloader, which took the stray checksum for the start of a message, for the rest of it |
| YappExact.NoDeadlockExactly | ax25apps/call/yapp.c:437-796 | every run that can go no further, cancelled or not, has ended on both sides (but for the refused resume request) if and only if the transfer is not YAPP C of an empty file into a new or empty one |
| YappExact.OutcomeExactly | ax25apps/call/yapp.c:309-374 | every run without cancellation that can go no further has the decided outcome if and only if the transfer is not that one |
| YappExact.CompletesExactly | ax25apps/call/yapp.c:437-796 | every run without cancellation can be completed to the decided outcome if and only if the transfer is not that one |
| YappExact.InvariantExactly | ax25apps/call/yapp.c:437-796 | the joint invariant holds in every run if and only if the transfer is not that one |
| YappExact.InductiveExactly | ax25apps/call/yapp.c:437-796 | every event keeps the joint invariant if and only if the transfer is not that one |
| YappCut.OneBlockIsSpoiled | ax25apps/call/yapp.c:694-712 | in every run of every transfer, with the uploader cancelled anywhere, inside a block too: disk is the old contents, a prefix of the file, and the first m octets of the cancellation message of some cut in the run, where m is zero or the number of octets of the cut block left in the output buffer; and disk is the whole file if the receiver has finished |
| YappCut.CutSpoilsExactly | ax25apps/call/yapp.c:391-418 | when a block is cut in any reachable state and the receiver then reads everything, in any pieces, disk is more than a prefix of the file if and only if the cancellation message is at least as long as the output buffer, differs from the data in it, and (YAPP C) the octet in the place of the checksum goes with them |
| YappCut.CutSpoils | ax25apps/call/yapp.c:694-712 | in every plain transfer of a file that is not empty a cut block can put the cancellation code on disk |
| YappCut.LastBlockSplit | ax25apps/call/yapp.c:714-749 | when a block is cut, what was sent is whole blocks and the announcement and front of the last, and the output buffer is its rest |
| YappCut.ReadsAreOne | ax25apps/call/yapp.c:485-530 | it makes no difference to the disk how the stream to the receiver is cut into reads |
| YappProcess.DrainedIsShort | ax25apps/call/yapp.c:485-529 | after the loop has consumed every complete message there is room in the 1024-byte buffer for another read |
| YappProcess.Receiver.Message | ax25apps/call/yapp.c:493-526 | the switch of the receive loops finds the length of the complete message at the front, or none |
| YappProcess.Receiver.Shift | ax25apps/call/yapp.c:519-522 | moving the rest of the buffer to the front in place drops exactly the message consumed |
| YappProcess.Downloader.ParseHeader | ax25apps/call/yapp.c:322-330 | the bounded scan counts exactly the terminated fields within the announced length |
| YappProcess.Downloader.Data | ax25apps/call/yapp.c:286-435 | a message handled in place gives the state, disk, answer and outcome of the value model |
| YappProcess.Downloader.Readable | ax25apps/call/yapp.c:485-530 | one read and the loop over its messages is one step of the system, and the buffer never overflows |
| YappProcess.Uploader.Data | ax25apps/call/yapp.c:534-650 | a message handled in place gives the state, block and answer of the value model |
| YappProcess.Uploader.Writable | ax25apps/call/yapp.c:714-749 | a partial write, the next block or the end of file is one step of the system |
| YappProcess.Uploader.Readable | ax25apps/call/yapp.c:751-794 | one read and the loop over its messages is one step of the system, and the buffer never overflows |
| HuffmanTables.TablesAgree | ax25tools/ax25/axspawn.c:218-416 | following the code of any octet through the decoding table passes inner nodes only and ends at the leaf of that octet |
| HuffmanTables.TableIsClosed | ax25tools/ax25/axspawn.c:286-416 | the children of every inner node are nodes of the table and every leaf holds an octet |
| Huffman.EncStatHuf | ax25tools/ax25/axspawn.c:497-556 | writes the packed codes behind the length marker, padded with zero bits, or the marked copy when packing does not pay; at most one octet longer than the input |
| Huffman.DecStatHuf | ax25tools/ax25/axspawn.c:564-637 | terminates on arbitrary input, reads at most one octet behind the buffer, decides success as the walk of the table does, writes nothing behind min(marker + 1, destsize) outside copy mode |
| Huffman.RoundTrip | ax25tools/ax25/axspawn.c:497-637 | for every message of 1 to 255 octets, every following octet and every destination size, decoding the encoded form gives the message back, cut to the destination |
| Huffman.FollowCode | ax25tools/ax25/axspawn.c:602-634 | reading the bits of a code from a node above its leaf emits that octet and returns to the root, consuming exactly the code |
| WireExamples.TwoBlanks | ax25tools/ax25/axspawn.c:497-556 | two blanks are encoded as 01 d8 and in no other way: the bits go from the top of an octet down |
| WireExamples.OneZero | ax25tools/ax25/axspawn.c:497-556 | an octet of zero is copied behind the marker ff |
| LinkedRoutes.List.MoveToFront | ax25apps/ax25rtd/cache_ctl.c:70-80 | relinking a node to the front permutes the list and keeps next and prev inverse |
| LinkedRoutes.List.DropLast | ax25apps/ax25rtd/cache_ctl.c:97-102 | dropping the tail, which may be the head, removes exactly the last entry |
| LinkedRoutes.List.Unlink | ax25apps/ax25rtd/cache_ctl.c:230-247 | unlinking removes exactly that entry, keeps the rest in order with a correct count, and returns its successor |
| LinkedRoutes.List.RemoveWhere | ax25apps/ax25rtd/cache_ctl.c:328-338 | the removing traversal keeps exactly the entries that are not gone, in order |
| RouteCache.Caches.UpdateIpRoute | ax25apps/ax25rtd/cache_ctl.c:35-131 | the pointer code refines the update of a most-recently-used sequence, with its return value |
| RouteCache.Caches.UpdateAxRoute | ax25apps/ax25rtd/cache_ctl.c:133-228 | likewise for AX.25 routes, with whether the kernel has to be told |
| RouteCache.Caches.RemoveAxRoute | ax25apps/ax25rtd/cache_ctl.c:249-271 | removes the route and exactly the IP routes with its callsign, and returns the successor |
| RouteCache.Caches.DelIpRoute | ax25apps/ax25rtd/cache_ctl.c:273-287 | removes exactly the route with the address, or reports that there is none |
| RouteCache.Caches.InvalidateIpRoute | ax25apps/ax25rtd/cache_ctl.c:289-300 | marks exactly the route with the address |
| RouteCache.Caches.DelAxRoute | ax25apps/ax25rtd/cache_ctl.c:302-314 | removes the first route with callsign and interface, and the IP routes with the callsign |
| RouteCache.Caches.ExpireAxRoute | ax25apps/ax25rtd/cache_ctl.c:316-326 | with the removal nested in the traversal: keeps exactly the entries not expired, in order, and removes exactly the IP routes of the expired ones |
| RouteCache.Caches.ExpireIpRoute | ax25apps/ax25rtd/cache_ctl.c:328-338 | keeps exactly the IP routes that are permanent or whose time plus the limit is still to come, in order |
| Subnet.SubnetIs | ax25apps/ax25rtd/cache_ctl.c:43-44 | an address is on the subnet if and only if it has the network part of the interface |
| RouteLaws.RunIsMostRecent | ax25apps/ax25rtd/cache_ctl.c:35-228 | after any run of updates the cache is exactly the most recently heard keys up to the limit, latest first, each with its latest value; keys unique, length within the limit |
| RouteLaws.AxRunIsMostRecent | ax25apps/ax25rtd/cache_ctl.c:133-228 | the same for the AX.25 cache over arbitrary runs, with the updates a permanent entry refuses taken out |
| RouteLaws.IpRunIsMostRecent | ax25apps/ax25rtd/cache_ctl.c:35-131 | the same for the IP cache, with those off the subnet or refused taken out and the invalid mark inherited |
| RouteLaws.UpdateIsFront | ax25apps/ax25rtd/cache_ctl.c:48-130 | one update puts the entry in front of the others, in their order, and cuts the list at the limit |
| RouteLaws.IpUpdateKeepsSound | ax25apps/ax25rtd/cache_ctl.c:35-131 | keys stay unique and the length within the limit |
| RouteLaws.AxUpdateKeepsSound | ax25apps/ax25rtd/cache_ctl.c:133-228 | keys stay unique and the length within the limit |
| RouteLaws.PermanentStays | ax25apps/ax25rtd/cache_ctl.c:187-199 | a permanent entry outlives an ordinary update if and only if it is not the last of a full cache that a new callsign enters |
| RouteLaws.IpPermanentStays | ax25apps/ax25rtd/cache_ctl.c:48-104 | a permanent IP entry outlives an ordinary update if and only if it is not the last of a full cache that a new address of the subnet enters |
| RouteLaws.KeepIsExact | ax25apps/ax25rtd/cache_ctl.c:316-338 | removal keeps every entry that is not gone as often as it was there and none that is, as a subsequence |
| RouteLaws.KeepKeepsSound | ax25apps/ax25rtd/cache_ctl.c:249-338 | removal by expiry or cascade keeps keys unique and invents no entry |
| RouteLaws.RunsStaySound | ax25apps/ax25rtd/cache_ctl.c:35-338 | over every run of updates, deletions, invalidations, expiries and cascades of both caches, no address and no callsign is in its cache twice and no cache is longer than its limit |
| RouteLaws.ExpiryCascades | ax25apps/ax25rtd/cache_ctl.c:262-264 | an IP route survives AX.25 expiry if and only if no expired entry has its callsign |
| RouteLaws.IpExpiryIsExact | ax25apps/ax25rtd/cache_ctl.c:328-338 | expiry keeps an IP route, as often as it was there and in the old order, if and only if it is permanent or its time plus the limit is still to come |
| RouteLaws.AxExpiryIsExact | ax25apps/ax25rtd/cache_ctl.c:316-326 | the same for the AX.25 cache |
| RouteLaws.IpDeleteIs | ax25apps/ax25rtd/cache_ctl.c:273-287 | a deletion takes the entry of the address and no other; address zero names none |
| RouteLaws.IpInvalidateIs | ax25apps/ax25rtd/cache_ctl.c:289-300 | an invalidation marks the entry of the address where it is, and changes no other |
| RouteLaws.AxDeleteIs | ax25apps/ax25rtd/cache_ctl.c:249-314 | the deletion of an AX.25 route takes that entry, and then exactly the IP routes of the callsign; without such an entry nothing goes |
| RouteLaws.IpUpdateTakes | ax25apps/ax25rtd/cache_ctl.c:35-131 | an update changes nothing if and only if it is off the subnet, an ordinary one for a permanent entry, or finds no room at all; otherwise it is in front, with the invalid mark the address had, and each of the three action bits says that the cache did not hold that callsign, interface or mode for the address |
| RouteLaws.AxUpdateTakes | ax25apps/ax25rtd/cache_ctl.c:133-228 | the same for the AX.25 cache; the route is handed on if and only if the cache did not hold it with that interface and those digipeaters |
| Md5.Transform | ax25tools/ax25/md5.c:188-284 | the 64 unrolled steps equal the reference compression with its index, shift and constant rules |
| Md5.Row1 | ax25tools/ax25/md5.c:193-212 | the literal words, shifts and decimal constants of round 1 are those of the reference |
| Md5.Row2 | ax25tools/ax25/md5.c:215-234 | those of round 2 |
| Md5.Row3 | ax25tools/ax25/md5.c:237-256 | those of round 3 |
| Md5.Row4 | ax25tools/ax25/md5.c:259-278 | those of round 4 |
| Md5Laws.FSelects | ax25tools/ax25/md5.c:63 | behind every mask of bits: if x then y else z |
| Md5Laws.GSelects | ax25tools/ax25/md5.c:64 | if z then x else y |
| Md5Laws.HIsParity | ax25tools/ax25/md5.c:65 | the parity of the three |
| Md5Laws.ITable | ax25tools/ax25/md5.c:66 | y where x is zero and z is one, its complement elsewhere |
| Md5Stream.Context.constructor | ax25tools/ax25/md5.c:97-107 | a new context stands for the empty message |
| Md5Stream.Context.Update | ax25tools/ax25/md5.c:113-143 | whatever the piece, the context then stands for the message with the piece appended |
| Md5Stream.Context.Final | ax25tools/ax25/md5.c:148-184 | stores the RFC 1321 digest of everything received, however it was cut |
| Md5Stream.CountBits | ax25tools/ax25/md5.c:122-126 | the two-word counter with its carry and truncations is the bit count modulo 2^64 |
| Md5Stream.BytesOfBits | ax25tools/ax25/md5.c:119-120 | the wrapped counter still gives the place in the block |
| Md5Stream.LastBlock | ax25tools/ax25/md5.c:166-172 | the last block assembled from buffer and counter completes the padded message |
| Md5Laws.StartBytes | ax25tools/ax25/md5.c:97-107 | the registers start as the bytes 01 23 45 67 89 ab cd ef fe dc ba 98 76 54 32 10 |
| Md5Laws.PaddedIs | ax25tools/ax25/md5.c:148-184 | the padded message is whole blocks: the message, 0x80, fewer than 64 zeros, and the bit length modulo 2^64 as two words, low-order first |
| Md5Vector.EmptyMessage | ax25tools/ax25/md5.c:97-284 | the digest of the empty message is that of the test suite in RFC 1321, appendix A.5, operation by operation |
| Fcs.Pppfcs | ax25apps/ax25ipd/crc.c:73-81 | for every buffer and start value the table loop computes the remainder of bit-at-a-time division by 0x8408 |
| Fcs.TableStep | ax25apps/ax25ipd/crc.c:32-81 | one table step is eight division steps, for every running value and octet |
| Fcs.OkCrc | ax25apps/ax25ipd/crc.c:105-112 | accepts exactly the frames with residue 0xf0b8 |
| Fcs.AddCrc | ax25apps/ax25ipd/process.c:403-410 | appends two octets, changes nothing else, and the frame then passes |
| Fcs.CrcTailIsUnique | ax25apps/ax25ipd/process.c:403-410 | among all two-octet endings exactly that one makes the frame pass |
| Fcs.ErrorsAreDetected | ax25apps/ax25ipd/crc.c:105-112 | a frame that passes fails after any odd number of bit flips and after any corruption within sixteen bits |
| Fcs.TwoOctetsAreDetected | ax25apps/ax25ipd/crc.c:105-112 | a frame that passes fails when one octet or two adjacent ones are changed |
| WireExamples.CheckValue | ax25apps/ax25ipd/crc.c:73-103 | the checksum of the nine digits is 0x906e, low octet first |
| FcsPairs.PairsAreDetected | ax25apps/ax25ipd/crc.c:105-112 | a frame that passes still passes with two bits flipped if and only if they are a multiple of 32767 bits apart |
| FcsPairs.PairsInFramesAreDetected | ax25apps/ax25ipd/crc.c:105-112 | so any two flipped bits in a frame of fewer than 4096 octets are caught |
| FcsPairs.ReturnsExactly | ax25apps/ax25ipd/crc.c:32-81 | the powers of x modulo the polynomial come back to one exactly at the multiples of 32767 |
| SixPack.DecodeEncode | ax25tools/6pack/m6pack.c:157-338 | the decoder undoes the six-bit code for every byte sequence, whatever its length modulo three |
| SixPack.FrameFromAnyState | ax25tools/6pack/m6pack.c:227-281 | from any receiver state a frame with any payload is delivered intact exactly when it has two bytes or more and its leading SEOF is accepted or the stale address is its own; either way the receiver starts afresh |
| SixPack.SecondFrameDelivered | ax25tools/6pack/m6pack.c:227-342 | whatever the state and the first frame, the second of two frames is delivered intact with its address if it has two bytes or more |
| SixPack.CommandsDoNotDisturb | ax25tools/6pack/m6pack.c:180-223 | commands anywhere in any octet stream leave state and delivered data as without them, and are all delivered in order |
| SixPack.SumSeesOneOctet | ax25tools/6pack/m6pack.c:237-250 | replacing one data octet changes the checksum exactly when it changes the decoded bytes, although it can reach into two |
| SixPack.OneOctetChanged | ax25tools/6pack/m6pack.c:157-254 | from any receiver state, a frame with any payload and one data octet replaced is delivered to the port it is taken for (its own, or the stale one if its leading SEOF is not accepted) if its bytes pass that port's checksum; if that is its own port, it is delivered unchanged or rejected |
| SixPack.CaughtExactly | ax25tools/6pack/m6pack.c:157-281 | no frame with one data octet replaced is ever delivered with other bytes or to another port if and only if the receiver accepts the leading SEOF or its stale address is the frame's |
| SixPack.SlipsThrough | ax25tools/6pack/m6pack.c:227-254 | otherwise the payload 8, 0 with its first octet changed by the difference of the ports is delivered changed to the stale port |
| SixPackIface.Iface.SixpackRx | ax25tools/6pack/m6pack.c:150-281 | the receiver over databuf is the receiver function: state, length, address, data, errors, address queue |
| SixPackIface.Iface.StoreOctet | ax25tools/6pack/m6pack.c:157-178 | the four cases put the bits of an octet into the byte begun and begin the next |
| SixPackIface.SixpackTx | ax25tools/6pack/m6pack.c:283-343 | writes exactly the frame, or the one command octet |
| SixPackIface.AddrFifo.Dequeue | ax25tools/6pack/m6pack.c:190-206 | the answer to an address command goes to the latest request for the slot that is due, in the order of the requests while at most eight wait |
| SixPackIface.LatestIs | ax25tools/6pack/m6pack.c:190-206 | that is the request due if and only if at most eight wait, and a later one when more do |
| WireExamples.Kinds | ax25tools/6pack/m6pack.c:119-127 | octets below 0x40 are data, 0x40 to 0x47 SEOF with a port, all others commands |
| WireExamples.SixBits | ax25tools/6pack/m6pack.c:283-343 | three bytes as four numbers below 64, in arithmetic |
| WireExamples.SixPackOctets | ax25tools/6pack/m6pack.c:283-343 | a frame for port 2 octet by octet, checksum included |
| KissRing.Ring.Encode | ax25tools/kiss/net2kiss.c:359-369 | a packet is committed whole if and only if it fits behind the undrained bytes; otherwise the contents stay |
| KissRing.Ring.Drain | ax25tools/kiss/net2kiss.c:382-391 | a partial write across the wrap takes a prefix of the contents |
| KissRing.Decoder.Read | ax25tools/kiss/net2kiss.c:399-447 | the loop over a read of any length is the decoder function |
| KissRing.DecodeFrame | ax25tools/kiss/net2kiss.c:399-447 | from any decoder state one encoded packet is delivered exactly when it has 2 to 2048 bytes and no escape was pending; the decoder ends ready |
| KissRing.BrokenEscape | ax25tools/kiss/net2kiss.c:399-447 | an escape in front of anything but its companions costs the packet it is in, whatever follows until the next delimiter |
| WireExamples.PacketOctets | ax25tools/kiss/net2kiss.c:359-369 | a packet octet by octet, with the octets that need an escape |
| KissRing.StreamIsFrames | ax25tools/kiss/net2kiss.c:345-475 | in every run what went out and what the ring holds are the accepted frames, whole and in order |
| KissRing.DeliversAccepted | ax25tools/kiss/net2kiss.c:345-475 | in every interleaving the far decoder has delivered a prefix of the deliverable accepted packets, and all of them once the ring is drained |
| Kiss.InitCrc | ax25tools/kiss/mkiss.c:120-140 | fills the table with the CRC remainders of all one-octet messages |
| Kiss.EntryIsRemainder | ax25tools/kiss/mkiss.c:120-140 | a table entry is the remainder of bit-at-a-time division of its index |
| Kiss.FlexResidue | ax25tools/kiss/mkiss.c:232-237 | every message followed by its FlexNet checksum leaves the residue 0x7070, from any start value |
| Kiss.G8Residue | ax25tools/kiss/mkiss.c:228-231 | every message followed by its exclusive-or byte leaves a low half of zero |
| Kiss.Delivery | ax25tools/kiss/mkiss.c:187-347 | from any receiver state the octets of a frame deliver, at the closing FEND, exactly what each mode makes of it, ACKREQ, polls and short FlexNet frames included |
| Kiss.DeliveredUnchanged | ax25tools/kiss/mkiss.c:187-347 | exactly which frames arrive as sent: all in plain mode, all but ACKREQ and POLL under G8BPQ, in FlexNet mode those of 13 bytes or more whose command byte is zero |
| KissIface.KissTx | ax25tools/kiss/mkiss.c:187-242 | writes exactly the escaped frame with its checksum |
| KissIface.Iface.KissRx | ax25tools/kiss/mkiss.c:245-347 | the receiver over obuf and the table is the receiver function, whose answer to any octets is stated by the rows of KissChecks |
| KissChecks.PlainReceived | ax25tools/kiss/mkiss.c:245-347 | for any octets between two FENDs and any receiver state: plain mode delivers the bytes they stand for, unless they end inside an escape |
| KissChecks.G8Received | ax25tools/kiss/mkiss.c:260-282 | G8BPQ mode: a data frame is delivered without its last byte if and only if the exclusive-or of all its bytes is zero; a poll never; others as they are |
| KissChecks.G8OneByte | ax25tools/kiss/mkiss.c:260-282 | one byte of an accepted data frame replaced by another delivers nothing, if and only if the command byte has not become that of a frame without a checksum other than a poll |
| KissChecks.FlexReceived | ax25tools/kiss/mkiss.c:283-291 | FlexNet mode: a frame is delivered without its last two octets if and only if it has more than 14 bytes and those pass |
| KissChecks.FlexOneByte | ax25tools/kiss/mkiss.c:283-291 | any one byte of an accepted frame replaced by another delivers nothing |
| KissChecks.FourEndings | ax25tools/kiss/mkiss.c:283-291 | of the two-octet endings of a frame exactly four are accepted: its checksum, and the exclusive-or of that with 0x50c3, 0x9185 and 0xc146 |
| WireExamples.MkissOctets | ax25tools/kiss/mkiss.c:187-242 | a data frame for port 1 in the three modes, octet by octet |
| WireExamples.G8bpqCommands | ax25tools/kiss/mkiss.c:195-231 | an ACKREQ frame has a check byte, and other commands have none |
| Nrs.GatewaysCompose | ax25tools/netrom/nrsdrv.c:128-302 | for every sequence of frames that fit the buffers, KISS to NRS and back gives the same KISS frames in order, less those under three bytes |
| Nrs.NrsFrameDelivered | ax25tools/netrom/nrsdrv.c:192-244 | between frames or in the middle of one, a NET/ROM frame is delivered as sent |
| Nrs.NrsFrameChecked | ax25tools/netrom/nrsdrv.c:192-244 | from the same states a frame of any length with any check byte: what fits the buffer is delivered if and only if the check byte is the sum of it modulo 256, and nothing otherwise |
| Nrs.NrsOneByteReplaced | ax25tools/netrom/nrsdrv.c:235-237 | a frame in which one byte of the payload has become another is never delivered |
| WireExamples.NrsOctets | ax25tools/netrom/nrsdrv.c:128-160 | a NET/ROM frame octet by octet, with the octets that need a DLE |
| Nrs.AnyOctets | ax25tools/netrom/nrsdrv.c:246-302 | for any octets between the FENDs of a data frame: the bytes they stand for are delivered as far as the buffer goes, if there are more than two and the last FEND does not end an escape |
| WireExamples.GatewayOctets | ax25tools/netrom/nrsdrv.c:162-190 | a KISS frame octet by octet |
| Nrs.WholeFrame | ax25tools/netrom/nrsdrv.c:246-302 | between frames a KISS data frame is taken as it is, if it has more than two bytes |
| Nrs.FrameAfterCommand | ax25tools/netrom/nrsdrv.c:259-267 | the data frame that follows a command frame passes with its command byte in front of the payload |
| Nrs.FramesInStep | ax25tools/netrom/nrsdrv.c:246-302 | over every stream of KISS frames, data and commands, the gateway takes out exactly the payloads of the data frames if and only if no command frame is followed by another frame |
| Nrs.GatewaysInStep | ax25tools/netrom/nrsdrv.c:128-302 | and two gateways put exactly the data frames on the far KISS line if and only if the same holds |
| Nrs.NrsSecondDelivered | ax25tools/netrom/nrsdrv.c:192-244 | from any state, behind a DLE or an ETX too, the second of two NET/ROM frames is delivered as sent |
| Nrs.KissInStepAfter | ax25tools/netrom/nrsdrv.c:246-302 | from any state the KISS side is between frames again after exactly so many frames: none between frames, one behind an opening FEND or an FESC, two inside a frame; what follows is taken as from the start |
| NrsGateway.NrsEsc | ax25tools/netrom/nrsdrv.c:128-158 | writes exactly the stuffed frame with its eight-bit sum |
| NrsGateway.KissEsc | ax25tools/netrom/nrsdrv.c:162-189 | writes exactly the escaped KISS data frame |
| NrsGateway.KissSide.KissUnesc | ax25tools/netrom/nrsdrv.c:246-302 | for every chunk puts on the other line the frames found in it, state carried over |
| NrsGateway.NrsSide.NrsUnesc | ax25tools/netrom/nrsdrv.c:192-244 | likewise in the other direction |
| Callsigns.CompareDecides | ax25apps/ax25ipd/process.c:328-347 | on callsigns without flag bits the comparison is zero exactly for equal ones |
| Callsigns.CompareIsNoOrder | ax25apps/ax25ipd/process.c:328-347 | on seven arbitrary octets without flag bits the comparison can go round in a circle, and be less both ways |
| Callsigns.CompareIsLexicographic | ax25apps/ax25ipd/process.c:328-347 | it agrees with the lexicographic order of the octets if and only if the first octets that differ are less than 128 apart, or 128 with the smaller one first |
| Callsigns.CompareOfCallsigns | ax25apps/ax25ipd/process.c:328-347 | on callsigns of letters, digits and spaces it is the lexicographic order |
| Callsigns.LexicographicIsOrder | ax25apps/ax25ipd/process.c:328-347 | which tells equal from different, is antisymmetric and transitive |
| Callsigns.NormalisedIsSame | ax25apps/ax25ipd/routing.c:107-110 | two callsigns are kept as the same if and only if they agree in the upper seven bits of six octets and the four bits of the SSID |
| Callsigns.MatchIs | ax25apps/ax25ipd/process.c:299-322 | a callsign matches an entry if and only if the letters are the same and the SSID is, or the entry has none |
| CallTree.Tree.UpdateReturnPath | ax25apps/ax25ipd/routing.c:156-192 | records exactly that callsign with that route and keeps the tree well formed |
| CallTree.Tree.Lookup | ax25apps/ax25ipd/routing.c:347-367 | finds an entry if and only if the callsign was recorded, and then the route last recorded |
| CallTree.Tree.WayToPlace | ax25apps/ax25ipd/routing.c:156-192 | a search for a callsign in the tree follows the path of its insertion, with no order assumed |
| CallTree.Tree.InsideIsUnique | ax25apps/ax25ipd/routing.c:156-192 | a callsign is in the tree at most once |
| Routing.Router.CallToIp | ax25apps/ax25ipd/routing.c:320-382 | configured routes first, then the tree, then the default |
| Routing.Router.RouteProcess | ax25apps/ax25ipd/routing.c:217-259 | learns the address of configured routes that may, and remembers other callsigns behind the first route of the address |
| Routing.HeardIsFound | ax25apps/ax25ipd/routing.c:217-382 | a callsign not configured, heard from the address of a route, is then found there; otherwise its way stays |
| Routing.ConfiguredIsFound | ax25apps/ax25ipd/routing.c:232-242 | a configured callsign is found at its first route, which follows the sender if it may learn |
| Routing.OthersUndisturbed | ax25apps/ax25ipd/routing.c:217-382 | hearing a callsign that is not configured changes no other callsign's way |
| Routing.LastHeardCounts | ax25apps/ax25ipd/routing.c:217-382 | over every later run in which others are heard the callsign is still found behind its route |
| Routing.RunIsClean | ax25apps/ax25ipd/routing.c:244-257 | no configured and no broadcast callsign is ever remembered |
| Routing.UnheardGoesToDefault | ax25apps/ax25ipd/routing.c:369-381 | over every run: a callsign that is not configured and was never heard from the address of a route, or that is a broadcast callsign, goes to the default route, or nowhere if there is none |
| Routing.RoutesFollow | ax25apps/ax25ipd/routing.c:141-152 | over every run: a route that may learn has the address it was last heard from, and every other route is as it was configured |
| Digipeat.AddrFieldOk | ax25apps/ax25ipd/process.c:59-70 | accepts exactly the frames with 2 to 10 addresses, the last flagged, inside the frame with a control octet |
| WireExamples.AddressFieldIs | ax25apps/ax25ipd/process.c:59-70 | those are the frames whose seventh octets are even up to an odd one, the destination excepted, among the first ten |
| Digipeat.NextAddr | ax25apps/ax25ipd/process.c:352-371 | stays inside the frame and names the first digipeater that has not repeated it, or the destination |
| Digipeat.VisitsArePending | ax25apps/ax25ipd/process.c:128-137 | setting the bit where next_addr points, again and again, visits each digipeater that has not repeated the frame once, in order |
| Digipeat.AfterAllRepeated | ax25apps/ax25ipd/process.c:128-137 | then the destination is next, and exactly the repeated bits of the digipeaters have changed |
| Digipeat.FromAddr | ax25apps/ax25ipd/process.c:376-396 | stays inside the frame and names the end of the run of repeated digipeaters, or one less in digi mode |
| Digipeat.TncFrom | ax25apps/ax25ipd/process.c:376-396 | in TNC mode that is the last station that repeated the frame, or the source, if and only if the repeated ones form a prefix |
| Digipeat.DigiFrom | ax25apps/ax25ipd/process.c:390-392 | in digi mode it is the station before ours if and only if we are the last digipeater; otherwise it is the end of the run of digipeaters behind us that have repeated the frame, the last digipeater not counted, and our own slot if and only if that run is empty |
| Gateway.FrameFromKiss | ax25apps/ax25ipd/process.c:95-165 | every way out of from_kiss: dropped and why, or sent with our bit set, the checksum appended, to the address of the next station; which that is, is stated on the octets by the rows of GatewayLaws |
| Gateway.FrameFromIp | ax25apps/ax25ipd/process.c:183-247 | every way out of from_ip: refused and why, or passed on without checksum, with the route tables updated for the previous station |
| GatewayLaws.TncSendsTo | ax25apps/ax25ipd/process.c:131-164 | in TNC mode a frame goes to the address of the first digipeater that has not repeated it (bit 0x80), or of the destination when all have: sent, broadcast to the list, or dropped, exactly as the routing of that callsign says |
| GatewayLaws.DigiSendsTo | ax25apps/ax25ipd/process.c:115-164 | in digi mode it is dropped unless that station is one of our four callsigns and a digipeater; with our bit set it then goes to the one after, in the same three ways |
| GatewayLaws.NotSent | ax25apps/ax25ipd/process.c:100-110 | frames of fewer than 15 octets and those without an address field are dropped |
| GatewayLaws.BadChecksum | ax25apps/ax25ipd/process.c:189-194 | a frame from IP is refused for its checksum if and only if its last two octets are not those that from_kiss would have appended |
| GatewayLaws.PassedOn | ax25apps/ax25ipd/process.c:196-247 | one that has them is passed on as it is, or with our bit set when it is our turn; for the second port exactly when there are two and the callsign is the second or its alias |
| GatewayLaws.NoFrame | ax25apps/ax25ipd/process.c:189-200 | fewer than 17 octets are never passed on |
| Gateway.TunnelIsTransparent | ax25apps/ax25ipd/process.c:95-247 | what one gateway sends any other accepts, and takes off the line as it was but for the digipeater's bit |
| Gateway.TncToTnc | ax25apps/ax25ipd/process.c:95-247 | between TNCs the frame arrives unchanged and is put down to the station it came from |
| Gateway.DigipeatsOnce | ax25apps/ax25ipd/process.c:115-129 | after a digipeater has set its bit the next station is a later one or the destination |
| DosTime.DateUnix2Dos | ax25apps/call/dostime.c:46-68 | for every time of 1980 to 2107 a valid date with the right day number, 29 February included, and the time to two seconds; the day number is tied to 1 January 1970 by DosCalendar.DosOfIs |
| DosTime.YearFound | ax25apps/call/dostime.c:54-57 | one step back is always enough to find the year |
| DosTime.Dos2UnixCounts | ax25apps/call/dostime.c:28-42 | on a valid date the expression is the day number and 3652 days, in seconds, and the clock; DosCalendar.Dos2UnixIs counts the days from 1 January 1970 |
| DosCalendar.DosOfIs | ax25apps/call/dostime.c:44-68 | from 1980 on, what DateUnix2Dos finds is the day that a calendar counted one day at a time from 1 January 1970 comes to after t / 86400 days, and the clock in steps of two seconds |
| DosCalendar.Dos2UnixIs | ax25apps/call/dostime.c:26-42 | date_dos2unix on a valid date is 86400 times the days counted from 1 January 1970 to it, and the seconds of the clock |
| DosTime.UnixToDosAndBack | ax25apps/call/dostime.c:28-68 | there and back gives the time rounded down to an even second, within 31 bits when the time was |
| DosTime.DosToUnixAndBack | ax25apps/call/dostime.c:28-68 | back and there gives the same sixteen bits each: the conversion is one to one on the valid dates |
| DosTime.OneDate | ax25apps/call/dostime.c:46-68 | a day has one valid date |
| DosTime.DosIsGregorian | ax25apps/call/dostime.c:53-62 | the date is that of the calendar if and only if the day is before 1 March 2100 |
| DosCalendar.DosIsCivil | ax25apps/call/dostime.c:53-62 | the same counted from 1970: the date is that of the Gregorian calendar if and only if t is before 4107542400 |
| DosTime.MonthStart | ax25apps/call/dostime.c:22-24 | the table of month starts is the sum of the month lengths |
| DosTime.Unix2Yapp | ax25apps/call/dostime.c:72-95 | eight hex digits, date before time, that yapp2unix turns back into the time rounded down to an even second |
| DosTime.DigitIs | ax25apps/call/dostime.c:78-83 | hex digits of both cases are read for what they are, and capitals written |
| DosTime.HexIs | ax25apps/call/dostime.c:78-80 | and these are the only ones |
| DosCalendar.EndOf1999 | ax25apps/call/dostime.c:46-95 | two seconds before the end of 1999 travel as 279FBF7D |

## Left out

- Sockets, ttys, select, signals, locks, DNS threads, logging and the statistics counters that nothing reads; what a read returns and how much a write takes are parameters.
- The rest of the programs: `listen`, the user interface of `call`, `menu`, the write queue and line-end conversion of `axspawn`, `kissnetd`, NET/ROM and RIP98 packet building, `mheard`, the cache files and configuration parsers.
- Allocation failure and NULL arguments; the size of an argument that the C code relies on is a precondition (room in `databuf`, `obuf`, `buffer`).
- Yapp.Enabled: a cancellation of the uploader inside a block is no event of these runs; YappCut adds it, and states what then remains instead of the promises of YappSafety. Short messages and headers are written whole.
- YappCut.Inert: the cancellation texts inside a block contain no octet, and have no length, equal to STX or ETX; the two texts of the source are proved to be such.
- Yapp.Job.Valid: a packet length that gives a read size of at least one; Send_HD gives up silently when a size does not fit, which no size does.
- Yapp.DownData: the time stamp of a header received, which is only displayed.
- YappProcess.Receiver.Shift: `memcpy` between overlapping parts of one buffer is modelled as the move it is meant to be.
- YappOutcome.OutcomeIsDecided: the resume branch of the uploader is not modelled, because a NAK never reaches it.
- Huffman.EncStatHuf: octets are unsigned; the C code indexes its table with `char`. The empty message, for which the C code reads one octet too many, is outside.
- RouteCache.Caches.RemoveAxRoute: the successor in the IP list is read before an entry is unlinked; `ax25apps/ax25rtd/cache_ctl.c:262-264` reads it after it has been freed. The calls into the kernel tables are left out.
- RouteLaws.RunIsMostRecent: the limits do not change during a run.
- Md5.Transform: the sines behind the constants are not computed; the constants are those printed in RFC 1321.
- SixPackIface.Iface.SixpackRx: the packet and byte counts are kept but nothing is stated about them.
- KissIface.Iface.KissRx: error, packet and byte counts are left out.
- Nrs.GatewaysCompose: frames of at most 512 bytes, the size of the buffers; longer ones are cut.
- Nrs.GatewaysInStep: command bytes other than FEND and FESC, which cannot be told from the framing; payloads of 3 to 511 bytes, so that none is dropped as too short or cut.
- Callsigns.Compare: only the sign of the difference, which is all that is used.
- CallTree.Tree.UpdateReturnPath: callsigns without flag bits, as the callers pass them.
- Routing.Router.RouteProcess: the DNS check that a changed address triggers, and host names.
- Gateway.FrameFromKiss: the optional filter for frames to ourselves, compiled out by default; broadcasting goes to an address list that is not part of this model.
- DosTime.DateUnix2Dos: times before 1980 have no DOS date and are outside; so are those after 2107.
- DosTime.Dos2Unix: a month of zero, for which the C code reads in front of its table, is outside; the sum is not cut to 32 bits, but proved to fit where the time did.
