# Mini Wireshark in Dafny

Mini Wireshark captures packets on a worker thread, shows them as rows of a sortable list, keeps their bytes
for saving, and opens one packet as a detail tree and a hex view. This project models that behaviour and proves
what the program relies on but does not check.

The modules follow the program:

- `Bytes`, `Numerals`, `Wrappers`: bytes in network order, number texts as Qt prints them, and readers for them.
- `Decoder`, `InfoLine`: the frame decoder with reads that fail past the captured bytes, the info column and a reader
  for it.
- `HeaderReads`, `Agreement`: the detail tree's own reading of the same bytes, which of the two readings stay inside,
  and that both show the same values.
- `FrameLayout`, `FrameDetail`: frames laid out by the standards as an independent reference for both readings.
- `Checksum`: the header checksum loop against the one's complement sum of RFC 1071.
- `HexDump`, `MacAddress`: the hex view and Ethernet addresses, with readers that recover the bytes from their text.
- `Address`, `Rows`, `Capture`: address texts, the column comparators, an in-place sort, and the list with its toggles.
- `TreeShape`, `Tree`, `PacketTree`, `TreeTexts`: trees as values, the heap of tree items with the Qt index adapter,
  the lookup and tree of one packet, and what its item texts say.
- `Records`, `Session`: captured records, stored packets, the slots of the main object and the worker's posts.
- `Protocol`, `Invariant`, `Guarantees`: the session as a concurrent state machine, its invariant, and what the
  invariant means to a user.
- `Replay`, `Arrival`, `Commands`, `DetailView`: live capture against saving and file reading, the order of the rows,
  what the user's commands have done by any point of a run, and the tree opened from a row.

libpcap is a source of records; Qt's queued calls are a FIFO, and the blocking call releases its sender when it is
delivered. A step of the state machine is one post, one delivery or one command, so a worker can be interrupted
between the two posts it makes for a packet. Lists and vectors that the program mutates are fields of type `seq`.

Every read through a header pointer, and the copy of `len` bytes that is stored, is an operation that fails past the
captured bytes; nothing else decides what "reading past the end" means. The handlers take any record of which `caplen`
bytes may be read, as libpcap promises, and report whether every read stayed inside.

What the code expects of its callers without checking it is a guard of the state machine or a precondition:

- `Records.Safe`: a record is rejected, or its headers lie inside and its two lengths are equal. `HeaderReads` says
  exactly which frames break the first half, `Records.ReadableIff` what the second half adds.
- `Tree.TreeModel`: the invalid index is asked for rows or children only once a packet tree has been set; the program
  dereferences the root, which starts as null.
- `Protocol.Enabled`: a worker is started only when the previous one has posted everything it will post, and a file is
  read only then and into empty lists. `Replay.ReadKeepsNumbersDistinctIff` says exactly what the last part is for.

Five observations about the program:

- The row whose bytes are missing is not always followed by its bytes in the queue: they may not be posted yet
  (`Replay.BytesMayBeUnposted`), exactly when the queue is empty (`Guarantees.HalfDeliveredIsNext`).
- A file read into a list that is not empty shows two rows with the same number (`Replay.ReadingTwiceClashes`).
- UDP and ICMP headers are read without a length check: a cut off frame is read past its end
  (`HeaderReads.ShortUdpOverreads`), exactly under the condition of `HeaderReads.ListStaysInsideIff`.
- The tree builder reads the code byte of ICMP messages for which the list does not, so an accepted message of one byte
  is read past its end (`HeaderReads.OneByteIcmpOverreads`, `HeaderReads.TreeStaysInsideIff`).
- The summary line of the Ethernet layer names the destination as source (`PacketTree.EthernetLineIsRightIff`).

## Model

| member | source | states |
|---|---|---|
| Invariant.RunKeepsInv | Pcap.cpp:223-463 | In every state of every interleaving of posts, deliveries and commands, the queue is the undelivered rest of what the worker posted and both stores are what the delivered part makes |
| Invariant.NextKeepsInv | Pcap.cpp:259-457 | Each single step, one post of the worker or one delivery or command of the main thread, keeps the session invariant |
| Guarantees.RunsStayConsistent | Pcap.cpp:432-457 | In every reachable state row numbers are distinct, each row is what the stored packet of its number decodes to, and every stored packet has its row; at most one row waits for its bytes |
| Guarantees.RowsMatchDumps | Pcap.cpp:750-753 | There are exactly as many rows as stored packets, plus one while a packet is half delivered |
| Guarantees.HalfDeliveredIsNext | Pcap.cpp:228-249 | A missing packet's bytes are the very next call in the queue, or the queue is empty and the worker is between the two posts |
| Replay.BytesMayBeUnposted | Pcap.cpp:228-249 | The second case is reached: a run ends with an empty queue, one row, nothing stored and the worker inside its handler |
| Guarantees.ResetNeverSeparates | Pcap.cpp:444-457 | While wk_life is off no packet is half delivered, and each queued packet call lies behind a queued call turning wk_life on |
| Invariant.OffMeansNothingDelivered | Pcap.cpp:281-296 | A live worker whose wk_life is off has no packet in the stores yet |
| Invariant.DeliverClear | Pcap.cpp:332-336 | When the blocking call is delivered it is the only call left and its worker is waiting for it; the delivery releases the worker, nulls wk_pp, drains the queue and leaves in the stores all the worker accepted |
| Invariant.ReleasedHoldsLog | Pcap.cpp:332-342 | Past its blocking call, every packet the worker posted is delivered, wk_pp is null and the queue is empty |
| Guarantees.DrainedIsIdle | Pcap.cpp:425-463 | When a finished worker's queue has drained the session is idle, with rows and stored packets in bijection |
| Guarantees.HeadersWork | Capture.cpp:124-210 | Every row of every reachable state has printed addresses, so no comparator indexes outside the split parts |
| Replay.SaveThenReload | Pcap.cpp:495-532 | Saving in any reachable state and reading into an empty session rebuilds the same stored packets with the same numbers, and their rows in arrival order |
| Replay.ReloadRenumbers | Pcap.cpp:465-493 | Every saved record is accepted again and rebuilds its packet up to its number, whatever numbers were saved |
| Replay.LiveRefinesFile | Pcap.cpp:21-257 | When the worker passes its blocking call, the stores equal those of reading the same frames from a file up to sorting; one ascending press of the number header makes the lists identical |
| Arrival.RunKeepsOrder | Pcap.cpp:432-437 | In any run, from an empty list on and until a column header is pressed, the rows stand in the order in which their packets arrived |
| Arrival.CaptureShowsArrival | Pcap.cpp:366-402 | The same from the start of a capture |
| Arrival.UndisturbedRunIsFile | Pcap.cpp:21-346 | When a worker whose list was not sorted passes its blocking call, rows and stored packets equal, in order, those of reading its frames from a file |
| Replay.LiveRunFillsLikeFile | Pcap.cpp:21-346 | All calls of one run, delivered in order, fill both stores exactly as the direct calls do |
| Replay.HandlePackets | Pcap.cpp:432-437 | Two queued calls per packet have the effect of the direct pair of appends |
| Replay.HexViewShowsRow | Pcap.cpp:777-851 | The hex text for a row's number reads back as bytes that decode to that row; the half delivered row shows a dash |
| Replay.HexViewReadable | Pcap.cpp:791-850 | The hex view of a stored packet with data stays inside if and only if caplen bytes are stored, and then reads back as these bytes |
| Replay.FindNumbered | Pcap.cpp:791-800 | On packets numbered from 0 the search finds exactly the packet at that position |
| Replay.ReadKeepsNumbersDistinctIff | Pcap.cpp:480-491 | Reading a file keeps row numbers distinct if and only if nothing was stored or nothing is accepted |
| Replay.ReadingTwiceClashes | Pcap.cpp:483-491 | One accepted packet read twice gives two rows with one number |
| Records.LogIsNumbered | Pcap.cpp:736-742 | Accepted frames get consecutive numbers; rejected frames consume none |
| Records.LogFollowsFrames | Pcap.cpp:736-747 | What is logged is the subsequence of accepted frames, each with its own header and all its bytes |
| Session.Pcap.CreateTh | Pcap.cpp:366-402 | Without an interface nothing changes; otherwise stop_flag is off, wk_flag on and both stores are empty, and nothing else changes |
| Session.Pcap.StopTh | Pcap.cpp:404-423 | With a handle stored stop_flag goes on and wk_flag off; without one nothing changes |
| Commands.StopFlagLaw | Pcap.cpp:366-423 | In every run stop_flag is on exactly when the last start or effective stop was a stop |
| Commands.SaveAfterStop | Pcap.cpp:495-532 | In every run a save writes exactly the stored packets when there are any and the last start or effective stop was a stop, and nothing otherwise |
| Commands.WkFlagLaw | Pcap.cpp:264-279 | In every run wk_flag is on exactly from a start to the next effective stop or delivered report of a failed open |
| Commands.FailedOpenEnds | Pcap.cpp:264-279 | Once the calls of a failed open are delivered, wk_flag and wk_life are off |
| Session.Pcap.ResetMd | Pcap.cpp:444-457 | With wk_life off both stores are empty, with wk_life on they stay, and nothing else changes |
| Commands.ResetClears | Pcap.cpp:444-457 | The same of the step of the state machine: rows and stored packets go, toggles, flags, queue and worker stay |
| Commands.ResetEnablesRead | Pcap.cpp:444-493 | With no worker about, a reset makes it possible to read a file |
| Commands.ReadFills | Pcap.cpp:465-493 | Reading a file leaves both stores with its accepted frames in order and touches nothing else |
| Session.Pcap.Dispatch | Pcap.cpp:425-463 | Each queued call changes the one field it names |
| Session.Pcap.PacketFunc | Pcap.cpp:534-748 | Reports whether every read stayed inside; if so, an accepted record gives a row and a stored copy under the next number, any other changes nothing |
| Session.Pcap.PcapFileRead | Pcap.cpp:465-493 | Handles the records of a file one after the other and zeroes the counter; an unreadable file changes nothing |
| Session.SafeFileRead | Pcap.cpp:465-493 | A file of safe records is read inside its bytes, and the stores grow by the log of its accepted records |
| Records.ReadableIff | Pcap.cpp:239-243 | A record is handled without a read past its end exactly when it is safe, or accepted and shorter on the wire than captured |
| Session.Pcap.SaveMd | Pcap.cpp:495-532 | Nothing is written when nothing is stored or capture was not stopped; otherwise one record per stored packet, in order, unless one has fewer than caplen bytes stored, which is reported as a read past them |
| Session.Pcap.Lookup | Pcap.cpp:791-800 | The search returns what the specification finds |
| Session.FindIsLast | Pcap.cpp:791-800 | Of several stored packets with the number asked for, that is the last |
| Session.Pcap.StartHax | Pcap.cpp:777-851 | The hex text of the packet found, a dash, or a read past the stored bytes |
| Session.Worker.MyPacketHandler | Pcap.cpp:21-257 | Reports whether every read stayed inside; if so, an accepted frame takes one number and posts its row and then its copy, a rejected one posts nothing |
| Session.Worker.PcapLoop | Pcap.cpp:300-330 | The posts of a loop are the calls of its frames, in order |
| Session.SafeAllCalls | Pcap.cpp:223-249 | On safe frames these are the row and byte calls of the numbered accepted packets |
| Session.Worker.CaptureUntilBlocked | Pcap.cpp:281-336 | Up to its blocking call a run posts handle, life, the packet calls and the blocking call, in this order |
| Session.Worker.ReportFailure | Pcap.cpp:264-279 | A device that does not open posts two flag calls and nothing else |
| Session.Worker.FinishCapture | Pcap.cpp:338-345 | After the blocking call exactly one call is posted: wk_life off |
| Decoder.ReadList | Pcap.cpp:29-221 | The early returns and reads of the handler, each read failing past the captured bytes, compute the decoder's reading of the frame |
| Decoder.TcpInfo | Pcap.cpp:600-660 | The pieces appended while reading are the TCP info line, or a read failed |
| FrameLayout.TcpFrameDecodes | Struct_in.h:27-89 | A frame laid out by RFC 791 and RFC 9293 with any field values and options is accepted and its row shows those values |
| FrameLayout.UdpFrameDecodes | Struct_in.h:92-99 | A laid out UDP frame is accepted and shows its ports, and its length field less 8 |
| FrameLayout.EchoFrameDecodes | Struct_in.h:101-121 | A laid out ICMP echo shows identifier, sequence number and TTL |
| FrameLayout.MessageFrameDecodes | Pcap.cpp:686-712 | Any other laid out ICMP message shows the names of its type and code |
| InfoLine.TcpLineReadable | Pcap.cpp:605-660 | A reader recovers ports, six flags, sequence and acknowledgment numbers, window and signed length from the TCP line |
| InfoLine.EqualLinesEqualFields | Pcap.cpp:605-660 | Two accepted TCP frames show the same info text if and only if all shown fields are equal |
| InfoLine.UdpLineReadable | Pcap.cpp:668-683 | A reader recovers ports and signed length from the UDP line |
| InfoLine.EchoLineReadable | Pcap.cpp:708-722 | A reader recovers message type, identifier, sequence number and TTL from the line of an ICMP echo |
| HeaderReads.DroppedIff | Pcap.cpp:550-598 | Exactly which frames the list drops, by their bytes |
| HeaderReads.TcpNeverOverreads | Pcap.cpp:580-598 | The length checks cover every read of a TCP frame, and it is accepted exactly when they hold |
| HeaderReads.ListStaysInsideIff | Pcap.cpp:662-728 | No read of the list fails if and only if the captured bytes reach as far as the frame's protocol and message type want |
| HeaderReads.ShortUdpOverreads | Pcap.cpp:662-675 | A UDP frame cut off after its ports is read past its end |
| HeaderReads.FullHeaderSuffices | Pcap.cpp:662-728 | With a full 8-byte transport header neither the list's nor the tree's reads fail |
| HeaderReads.TreeStaysInsideIff | Pcap.cpp:889-1422 | For an accepted frame a read of the tree fails if and only if it is an ICMP message of one byte |
| HeaderReads.OneByteIcmpOverreads | Pcap.cpp:1388-1421 | An accepted 35-byte redirect exists that the tree reads past its end |
| HeaderReads.TcpLayerInside | Pcap.cpp:1197-1349 | The list's checks cover every read the tree makes of a TCP header, and both find the same values |
| HeaderReads.ReadTree | Pcap.cpp:889-1422 | The reads of the tree builder in its order, header checksum included |
| Agreement.ListAndTreeAgree | Pcap.cpp:1199-1422 | Whatever both can read they show alike: addresses, length, TTL, transport layer, and the values that a reader recovers from the info text, ICMP type and code included |
| DetailView.TreeShowsRow | Pcap.cpp:858-1426 | In every reachable state, opening the tree of a shown row reads past the stored bytes exactly for the half delivered row and one-byte ICMP messages; otherwise the tree shows what the row shows |
| DetailView.TreeSaysRow | Pcap.cpp:1181-1421 | The item texts of that tree carry the row's addresses and the ports, numbers and lengths that a reader recovers from its info text |
| TreeTexts.FrameTexts | Pcap.cpp:889-1190 | The Ethernet and IPv4 item texts of a laid out frame are literal labels with its own header values |
| TreeTexts.TcpFrameTexts | Pcap.cpp:1195-1352 | So are the TCP item texts: ports, numbers, segment length, header length and window |
| TreeTexts.UdpFrameTexts | Pcap.cpp:1355-1384 | ... the UDP ones: ports and length |
| TreeTexts.IcmpFrameTexts | Pcap.cpp:1386-1422 | ... and the ICMP ones: the name of the type, and the code |
| FrameDetail.TreeShowsHeaders | Struct_in.h:27-56 | The tree shows every Ethernet and IPv4 field of a laid out frame in its place |
| FrameDetail.TcpTreeShows | Struct_in.h:58-89 | The tree shows every TCP field a frame was built from, flag byte and reserved bits included |
| FrameDetail.UdpTreeShows | Struct_in.h:92-99 | The tree shows a datagram's ports and length field |
| FrameDetail.EchoTreeShows | Struct_in.h:101-121 | The tree shows an echo's type and code |
| FrameDetail.HeaderStatus | Pcap.cpp:1156-1168 | A laid out frame shows as Good exactly when its check field is congruent to the proper checksum |
| HeaderReads.PayloadLengthsAgree | Pcap.cpp:1199-1204 | The list's unsigned wrap-around length equals the tree's int length, also when negative |
| HeaderReads.TreeFlagsAreTheByte | Pcap.cpp:1262-1270 | Reassembling the eight bit fields gives back the header's flag byte |
| Checksum.ComputeIpChecksum | Pcap.cpp:1440-1457 | The result is the Internet checksum of RFC 1071 for every length up to 131074 bytes, with the 32-bit wrap explicit beyond |
| Checksum.SumFoldsToOnesSum | Pcap.cpp:1446-1454 | Summing first and folding at the end is the one's complement sum |
| Checksum.FoldKeepsResidue | Pcap.cpp:1453-1454 | A folding round keeps the value modulo 65535 and its being non-zero, and strictly decreases |
| Checksum.TwoRoundsSuffice | Pcap.cpp:1453-1454 | Two rounds always finish |
| Checksum.NoOverflow | Pcap.cpp:1446-1450 | Up to 65537 words the 32-bit sum does not wrap |
| Checksum.ComputedIsChecksumIff | Pcap.cpp:1440-1457 | For words of any number, exactly when the wrapped sum still gives the checksum |
| Checksum.ChecksumIgnoresOrder | Pcap.cpp:1446-1450 | Any reordering of the words gives the same checksum |
| Checksum.ChecksumOfSwapped | Pcap.cpp:1448-1456 | Swapping the bytes of every word swaps the bytes of the checksum |
| Checksum.StoredChecksumIsGood | Pcap.cpp:1156-1168 | Storing the value computed with the field zeroed makes the header Good |
| Checksum.GoodIff | Pcap.cpp:1156-1168 | A header is Good if and only if its stored field is congruent modulo 65535 to that value |
| HeaderReads.VerifyHeader | Pcap.cpp:1156-1168 | The checksum loop decides the status word |
| PacketTree.StatusGoodIff | Pcap.cpp:1156-1168 | The status shown of any framed packet is Good exactly under that congruence |
| HexDump.FormatDump | Pcap.cpp:802-850 | The nested loops, each byte a failing read, produce the dump text or read past the stored bytes |
| HexDump.DumpReadable | Pcap.cpp:802-850 | A reader of the line format (four offset digits, gap, cells, gap, characters) recovers all bytes; lines are ceil(n/16) and carry the offsets 0, 16, 32, ... |
| HexDump.Columns | Pcap.cpp:816-847 | Full and padded lines have the same length and the same columns after the offset |
| Address.DottedRoundTrip | Pcap.cpp:734-735 | Printing an address, splitting at dots and toInt give back the four octets |
| Address.BeforeIsStrictWeakOrder | Capture.cpp:129-156 | The address comparator is a strict weak order on any texts of four parts |
| Address.BeforeIsNumeric | Capture.cpp:135-155 | On printed addresses it is the order of the 32-bit addresses, reversed when the flag is off |
| Rows.LessIsStrictWeakOrder | Capture.cpp:88-98 | Every column's comparator is a strict weak order, as std::sort demands |
| Rows.SortInPlace | Capture.cpp:128-156 | The rows are permuted so that no later row is less than an earlier one |
| Capture.Capture.UpdateMd | Capture.cpp:67-76 | The row is appended |
| Capture.Capture.Reset | Capture.cpp:78-84 | The rows go, the toggles stay |
| Capture.Capture.SortNum | Capture.cpp:86-112 | A sorted permutation in the direction of the old toggle, which then flips; no other toggle changes |
| Capture.Capture.ParseAndSort | Capture.cpp:124-210 | The same for the two address columns: the toggle of the column pressed flips, the other stays |
| Capture.Capture.SortProto | Capture.cpp:212-231 | The rotation advances first and then leads the sort |
| Capture.Capture.SortLen | Capture.cpp:250-274 | The toggle flips first and then directs the sort |
| Capture.TwoNumPressesReverse | Capture.cpp:86-112 | Two presses of the number header in a row give exact reverses |
| Capture.NumOrderAfterAnyHistory | Capture.cpp:86-112 | After any histories of presses, lists of the same rows with the same toggle show the same order |
| Capture.HistoryKeepsRows | Capture.cpp:86-274 | Any history of presses permutes the rows, turns the rotation and flips each of the four toggles exactly once per press of its own header |
| Commands.TogglesLaw | Capture.h:65-71 | In every run each toggle is on after an odd number of presses of its own header and the rotation is their number modulo 3, whatever else was done |
| Capture.AddressPressSorts | Capture.cpp:124-210 | After an address press any two rows stand in numeric address order in the flag's direction |
| Capture.AddressPressesOppose | Capture.cpp:124-210 | Two presses of one address header in a row give opposite numeric orders |
| Capture.TwoAddressPressesReverse | Capture.cpp:124-210 | When the addresses of the column all differ, the second list is the exact reverse of the first |
| Capture.ProtoPressBlocks | Capture.cpp:212-248 | Three contiguous blocks in the rotated order of the protocol numbers, each of its old size, for any texts |
| Capture.ProtoPressLineup | Capture.cpp:212-248 | The blocks are TCP, UDP, ICMP for rotation 0, UDP, ICMP, TCP for 1 and ICMP, TCP, UDP for 2, each with as many rows as carried its text |
| Commands.ProtoHeaderLinesUp | Capture.cpp:212-248 | So it is for a press in every reachable state, whose rows all name one of the three |
| Capture.ThreeProtoPresses | Capture.cpp:212-214 | Over three presses each protocol number present leads exactly once |
| Capture.LenPressSorts | Capture.cpp:250-269 | Rows stand in the order of their lengths in the new flag's direction |
| TreeShape.AttachKeepsTree | TreeItem.cpp:17-21 | Adding any separate tree below any node gives a tree, whatever parent the new child named before |
| TreeShape.ListsDisjoint | TreeItem.cpp:17-21 | No node stands in two child lists |
| TreeShape.ChainReachesRoot | TreeItem.cpp:31-36 | Every parent chain reaches the root, after exactly as many steps as the node is deep |
| TreeShape.DeletesEachNodeOnce | TreeItem.cpp:8-14 | The destructor's order lists every node of the tree exactly once, and none before its children |
| Tree.TreeItem.AddChild | TreeItem.cpp:17-21 | The child is appended and names this item as its parent |
| Tree.TreeItem.Delete | TreeItem.cpp:8-14 | Deleting terminates and visits the nodes in that order |
| Tree.GraftedIsTree | TreeItem.cpp:17-21 | The two pointer updates of addChild turn two trees of the heap into one |
| Tree.Build | Pcap.cpp:860-1423 | Any sequence of addChild calls on fresh items builds a tree with exactly the child lists it names, in order |
| Tree.TreeModel.SetPacketTree | TreeModel.cpp:108-117 | The root is replaced and every item of the old tree is deleted exactly once |
| Tree.TreeModel.Clear | TreeModel.cpp:119-129 | The root is gone and every item is deleted exactly once |
| Tree.ParentOfIndex | TreeModel.cpp:13-54 | index yields a valid index exactly for rows in range, and parent of it is the index one came from |
| Tree.Reindex | TreeModel.cpp:38-54 | Re-indexing a node by its row under its parent gives the node back |
| Tree.DescendObtainable | TreeModel.cpp:13-35 | Descending along any rows gives well-formed indexes only |
| Tree.DescendReaches | TreeModel.cpp:13-35 | Every well-formed index is reached by descending along some rows |
| Tree.ClimbReachesRoot | TreeModel.cpp:38-54 | Climbing from any index ends after as many steps as the node is deep, and not before |
| PacketTree.LayersBelowRoot | Pcap.cpp:894-1422 | Where every item hangs; the ICMP code item hangs below ICMP though it was constructed with the root |
| MacAddress.MacReadable | Pcap.cpp:1428-1438 | The printed Ethernet address reads back as its bytes |
| PacketTree.EthernetLineIsRightIff | Pcap.cpp:889-895 | The summary line names the source as source if and only if both addresses are equal |
| PacketTree.StartTreeMd | Pcap.cpp:858-1426 | The old tree is deleted node by node; the packet is looked up by number and read, and the new tree has the shape and texts of what was read, or is a bare root after a failed read |

## Left out

- Overlapping workers: the guard of `Protocol.Enabled` excludes starting a worker while the old one still posts; the user interface does not.
- Closing of the capture handle: the worker closes it before wk_pp is cleared, so nothing is said about the handle behind a non-null wk_pp.
- Liveness: a stopped loop may end at any frame; that it ends is libpcap's business.
- Integer width of packet numbers and of the dump's loop counter: both are unbounded here, 32-bit signed in the program.
- QString::toInt on signed or blank-padded text: address texts are always printed by inet_ntoa.
- PacketTree.StartTreeMd: the texts that are tables of fixed labels (DSCP, ECN, IPv4 and TCP flag rows) or are put together from them are arbitrary, and the items the program adds before a failing read are not in the bare root left here.
- The NUL that QByteArray keeps behind its data: a read of it counts as a read past the stored bytes.
- The unused fragment offset.
- libpcap itself: opening, filters, file encoding and the snapshot length of a saved file.
- vec_dump_file: nothing ever fills it, so lookups go to the stored packets.
- The order in which std::sort leaves equal rows: any sorted permutation is allowed.
- Interface lists, recent files, QML views, role tables and model-reset signals.
