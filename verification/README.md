# Proofs about the transport, codecs, ciphers and edge state machines of n2n

This project models the most intricate parts of the repository in Dafny and proves what they are for. `dafny verify dfyconfig.toml` checks all of it. Code that updates state in place is modelled as classes, arrays and loops with the source's fields and branches, and each method is proved against a function of the old state; the laws are then proved about those functions, for every input, every run or every reachable state.

**LZO1X (`Bits`, `LzoFormat`, `LzoDecompress`, `LzoCompress`, `LzoRoundTrip`).** `LzoFormat` is a grammar of compressed streams: an opening run, items made of a back reference and the literals after it, an end marker; with their bytes and their text. The compressor, with its two hash probes into a dictionary of arbitrary content, is proved to write such a stream for exactly its input and to stay within n + n/16 + 67 bytes; the probe is proved to find whatever the slots hold that is a match, and n equal bytes to take at most 13 + n/255. The decoder, with its labels as states, is proved to reproduce the text of any such stream. `LzoRoundTrip.RoundTrip` joins the two.

**Adler-32 (`Adler`).** The blockwise checksum with 32-bit sums against the definition that reduces after every byte.

**KCP (`KcpNum`, `KcpState`, `KcpInvariant`, `KcpMessages`, `KcpProtocol`, `KcpLive`, `KcpResend`, `KcpArrival`, `KcpLosses`, `KcpWrap`, `KcpLate`, `KcpCongestion`, `KcpCheck`, `KcpWire`, `KcpWireFlush`, `Kcp`, `KcpBytes`, `Iqueue`).** `KcpState` states every operation of the control block as a function, with a switch between serial numbers that never wrap and the 32-bit ones compared by `_itimediff`. Without wrapping, `KcpProtocol` runs two endpoints on a network that keeps every segment ever sent and may deliver any of them, any number of times and in any grouping, and proves an inductive invariant over senders, receivers and wire; delivery in order, whole and once is its consequence. `KcpLive` proves the other half: from every reachable state, even if all that is on the wire is lost, the endpoints can go on to deliver everything accepted. `KcpResend`, `KcpLosses`, `KcpArrival` and `KcpMessages` say exactly, on the fields alone, what a flush sends and makes of losses, what an arriving segment changes and what the user is handed. `KcpWrap` proves that the 32-bit operations refine these up to 2^31 numbers of lateness, and `KcpLate` says exactly where each of the code's ordering tests leaves them. `KcpCongestion` bounds timers and windows in every reachable state. `KcpWire` covers bytes and datagrams. The class `Kcp` has the fields of the control block, and every method, from `Send` to `Check`, is proved to make exactly the step of its function, to keep the four counters equal to their queues, and to hand out exactly the specified bytes. `KcpBytes` puts all of it together: two hosts of the 32-bit code that exchange the bytes of their datagrams, each of whose steps the class performs, deliver a prefix of what was sent. `Iqueue` proves the circular lists of ikcp.h on their own; the class keeps its queues as sequences, and nothing here connects the two.

**AES (`AesField`, `AesSpec`, `AesChaining`, `AesTables`, `AesContext`).** The cipher of FIPS 197 over GF(2^8) without tables; the T-table lines as its columns; key schedules, blocks and chaining in place; and the equivalent inverse cipher with its transformed keys.

**ChaCha20 (`ChaChaSpec`, `ChaChaRows`, `ChaCha`).** Sections 2.1 to 2.4 of RFC 8439, with the first word of the 16-byte vector as the counter. Both the vector version, on rows of four lanes, and the plain version are proved to write these bytes, so they agree.

**The edge (`EdgePeers`, `EdgeEffects`, `EdgeLists`, `EdgePunch`, `EdgeSchedule`, `EdgeKeepalive`, `EdgeSupernode`, `EdgeFailover`, `EdgeNat`).** Every message, send and tick on the two peer lists, on values and on linked nodes, with the fields that each of them writes; hole punching of one peer, with its bounds and its exact schedule; when a silent peer is given up; when a supernode is left, and where for; the NAT refresh.

**Known answers (`KnownAnswers`).** The worked examples of RFC 8439 and FIPS 197, a checksum, and codes of the compressed format, computed from the definitions that everything else is proved against.

## Where the code differs from its comments, and where a promise has a condition

- The 32-bit numbers of KCP are compared by their signed difference, so a segment that arrives late enough is misread. The earliest case is a cumulative acknowledgement just over 2^31 numbers late: the code then discards data that nobody acknowledged (`KcpLate.LateAckLosesData`). A data segment 2^32 numbers late is taken for new data (`KcpLate.StaleSegmentIsTaken`). `KcpLate.ParseUnaExactly`, `InFlightExactly`, `ParseAckExactly`, `ParseFastackExactly` and `TakesExactly` say for each test exactly when the code decides like the protocol, and `KcpWrap.CodeFollowsProtocol` that it does throughout any run in which nothing is later than 2^31 less the windows.
- Handoffs with the same address do not re-arm a hole punch (edge.c:5443), except for a peer found stopped between two attempts, which happens when a retry came while the peer had no usable address. Then all fifteen rounds are there again: `EdgePunch.StepSpends` has the exact condition, `EdgePunch.UnusableRetryRefills` a run from the start with twenty rounds.
- Asking the backup supernode is commented as three failed rounds of 30 seconds, 90 in all (edge.c:2899-2900). The budget reaches zero only in the fourth round, and each is noticed after 31 seconds: it takes 124 (`EdgeSupernode.AskingTakesFourRounds`).
- After all supernodes failed, a retry every five minutes is announced (edge.c:2861-2868). While ticks come every second the normal cycle renews the request time first, so that branch is never entered (`EdgeSupernode.CooldownNeverComes`).
- A silent peer is said to be given up after 14 seconds (edge.c:1798). With one pass in every second it takes 16, since each probe after the first is sent a second after the failure before it (`EdgeKeepalive.GivenUpNoLater`). It takes only 10 when the last that came was a probe of the peer: a frame or an answer clears the count of failures, a probe does not (`EdgeKeepalive.SilenceLasts`, `EdgeKeepalive.ProbeKeepsFailures`). A relayed frame is said not to count as a reply (edge.c:1907), but one addressed to this edge suspends the check for eight seconds (`EdgeKeepalive.StepSound`).
- The cap of the NAT refresh is commented as counted from `fc_arm_time` (edge.c:2569); the code counts from `nat_refresh_start`, and the model follows it.
- A rebuilt NAT refresh starts a second cap, so one refresh takes up to 198 seconds, not 90 (`EdgeNat.RefreshSettles`, `EdgeNat.BoundIsTight`).

## Model

| member | source | states |
|---|---|---|
| LzoRoundTrip.RoundTrip | src/minilzo.c:2822-4088 | The law of the codec: for every input, every content of the work memory and both decoder variants, decompressing what was compressed gives back exactly the input; the checking variant refuses if and only if the text exceeds the capacity, and what it wrote by then is a prefix of the text |
| LzoCompress.Compress | src/minilzo.c:3059-3107 | Whatever the dictionary holds, the output is a well-formed LZO1X stream (with its end marker) whose text is the input, and is never longer than n + n/16 + 67 bytes; n equal bytes, more than 18, take at most 13 + n/255, and inputs of one to thirteen bytes four more than they have |
| LzoCompress.DoCompress | src/minilzo.c:2822-3057 | Up to the literals left to the caller, everything read is written as a well-formed stream for that part of the input and is at most one byte in sixteen longer than it; equal bytes are one run and one match, with nothing left |
| LzoCompress.Probe | src/minilzo.c:2846-2888 | With arbitrary dictionary contents, a match is reported if and only if the position in the deciding slot is one: at a usable distance, repeating three bytes, and four when it is too far for M2 |
| LzoCompress.NothingMissed | src/minilzo.c:2846-2888 | A repeated stretch that starts at the position in the first slot is found, and one in the second if the first holds a position too far to be taken with three bytes that differs in the fourth |
| LzoCompress.Visit | src/minilzo.c:2846-2921 | After the probe its slot holds the present place, whether or not a match was found, and no other slot has changed |
| LzoCompress.MatchLength | src/minilzo.c:2951-3002 | The match is extended as far as it goes: up to the end of the input or to the first byte that differs |
| LzoCompress.DIndex1 | src/minilzo.c:2541-2541 | Every value of the first hash is a valid place in the dictionary |
| LzoCompress.DIndex2 | src/minilzo.c:2542-2542 | Every value of the second hash is a valid place in the dictionary |
| LzoCompress.PutStep | src/minilzo.c:2921-3050 | One literal run and one match carry the state between matches on: the stream so far stands for the input so far, and the saving of the match has paid for the header of the run |
| LzoCompress.PutLiterals | src/minilzo.c:2923-2948 | Literals after a match, whether counted in op[-2] or by a header of their own, extend the text of the stream by exactly these bytes |
| LzoCompress.PutMatch | src/minilzo.c:2964-3044 | What is written for a distance and a length is the grammar's encoding of exactly this copy, in all of M2, M3 and M4 and with extended lengths |
| LzoCompress.PutLast | src/minilzo.c:3075-3099 | The literals after the last match complete the stream for the whole input, also when the stream consists of literals only, within n + n/16 + 64 bytes |
| LzoCompress.PutExtended | src/minilzo.c:2938-2945 | The zero bytes and the rest spell an extended count as the grammar defines it |
| LzoCompress.PutRunHeader | src/minilzo.c:2932-2946 | The header of a run of four or more literals is the grammar's |
| LzoCompress.MatchSaves | src/minilzo.c:2964-3044 | Every match that may be chosen is encoded in fewer bytes than it copies |
| LzoCompress.RunHeaderLen | src/minilzo.c:2932-2946 | The header of a long literal run is one byte, or is paid for by the run |
| LzoCompress.CopyBackInput | src/minilzo.c:2864-2872 | Copying what the input repeats, overlapping or not, reproduces the input |
| LzoCompress.ItemsAmend | src/minilzo.c:2927-2931 | Setting the literal count of the last match afterwards keeps the stream valid and adds just the literals to its text |
| LzoCompress.WroteAmend | src/minilzo.c:2923-2948 | The same on bytes: op[-2] or= t, or a header, followed by the literals |
| LzoCompress.WroteMatch | src/minilzo.c:2964-3044 | Appending a match keeps the stream valid and extends its text by the copy |
| LzoDecompress.Decompress | src/minilzo.c:3718-4100 | On every well-formed stream the decoder stops with LZO_E_OK at the last byte having produced its text, or with LZO_E_OUTPUT_OVERRUN if and only if the checking variant has too little room; the input and look-behind tests are asserted never to fire |
| LzoDecompress.Start | src/minilzo.c:3765-3773 | The opening run written as one count byte, and the jump into match_next for fewer than four bytes, meet the state of the label reached |
| LzoDecompress.StepOuter | src/minilzo.c:3775-3823 | From the outer loop: a literal run is copied whole, or the next match is reached; otherwise the text does not fit |
| LzoDecompress.StepFirstLiteralRun | src/minilzo.c:3824-3851 | From first_literal_run: the three-byte copy beyond the reach of M2, or the next match |
| LzoDecompress.StepMatch | src/minilzo.c:3854-4056 | From match: the copy asked for by the next item is made, or the end marker is recognised exactly when no item is left, with all input consumed |
| LzoDecompress.StepMatchNext | src/minilzo.c:4066-4075 | From match_next: the one to three literals counted by the match before are copied |
| LzoDecompress.MatchDoneNext | src/minilzo.c:4058-4065 | From match_done: the two low bits of ip[-2] are the number of literals of the item just read, whichever encoding it had |
| LzoDecompress.ReadMatch | src/minilzo.c:3854-4021 | The five match branches recover the distance and length that were encoded, or the end marker |
| LzoDecompress.ReadM3 | src/minilzo.c:3908-3945 | The M3 branch recovers distance and length, extended or not |
| LzoDecompress.ReadM4 | src/minilzo.c:3946-3995 | The M4 branch recovers distance and length, and finds the end marker if and only if the items are exhausted |
| LzoDecompress.ReadCount | src/minilzo.c:3780-3790 | The zero-run loop undoes an extended count |
| LzoDecompress.ReadLength | src/minilzo.c:3908-3921 | A length that is either in the first byte or extended is read back |
| LzoDecompress.CopyRun | src/minilzo.c:3791-3822 | The literal copy by fours and its tail copies exactly the run |
| LzoDecompress.CopyMatch | src/minilzo.c:4030-4054 | The copy by fours, used only at distance four or more, equals the overlapping copy byte by byte |
| LzoDecompress.CopyFour | src/minilzo.c:4040-4044 | One COPY4 of a copy that overlaps itself is four of its bytes |
| LzoDecompress.CopyRef | src/minilzo.c:4017-4054 | Each of the copy loops produces the copy its item asks for |
| Adler.Adler32 | src/minilzo.c:2288-2316 | The checksum equals the definition of section 8.2 of RFC 1950, which reduces after every byte, for every buffer and start value; a null buffer gives 1; no 32-bit sum overflows on the way |
| Adler.ReduceOnce | src/minilzo.c:2299-2314 | Reducing once at the end of a block equals reducing after every byte |
| Adler.NoOverflow | src/minilzo.c:2279-2279 | 5552 bytes from any packed sums stay below 2^32 |
| Adler.RawBound | src/minilzo.c:2281-2285 | How large the unreduced sums get in n bytes |
| Adler.PerByteJoin | src/minilzo.c:2299-2314 | The definition works block by block |
| Adler.SumBlock | src/minilzo.c:2299-2314 | One block, sixteen bytes at a time and then singly, leaves the sums of the definition |
| Adler.Do16 | src/minilzo.c:2281-2285 | LZO_DO16 is sixteen bytes of the unreduced sums, with every intermediate value in 32 bits |
| Adler.OrIsSum | src/minilzo.c:2315-2315 | Joining the two halves by an or adds them |
| KcpProtocol.DeliveredIsPrefix | src/ikcp.c:364-550 | In every state of every run of two endpoints on a network that drops, repeats, reorders and regroups, the messages received are a prefix of the messages accepted for sending, each whole and once; in stream mode the same for bytes |
| KcpProtocol.NothingLost | src/ikcp.c:576-763 | Every number below snd_nxt is, with its own contents, still in snd_buf or in the peer's rcv_buf, or below the peer's rcv_nxt |
| KcpProtocol.AcksAreTrue | src/ikcp.c:862-881 | Every acknowledgement on the wire, selective or cumulative, and everything below snd_una, names only segments the receiver holds |
| KcpProtocol.ProgressKept | src/ikcp.c:576-638 | Over any run neither snd_una nor rcv_nxt of either endpoint goes back, and nothing held, accepted or delivered in either direction is taken back |
| KcpProtocol.StepInv | src/ikcp.c:364-1263 | Every call of send, recv, input, update or flush keeps the invariant of both directions |
| KcpProtocol.RunInv | src/ikcp.c:364-1263 | So it holds in every state of every run: both buffers sorted and inside their windows, the queue contiguous, contents as sent |
| KcpProtocol.SendInv | src/ikcp.c:475-550 | ikcp_send keeps the invariant |
| KcpProtocol.RecvInv | src/ikcp.c:364-441 | ikcp_recv keeps the invariant |
| KcpProtocol.InputInv | src/ikcp.c:780-943 | ikcp_input keeps it for any sequence of segments ever sent by the peer, perhaps cut short |
| KcpProtocol.EmitInv | src/ikcp.c:974-1230 | ikcp_flush keeps it, with the new segments on the wire and in the history |
| KcpProtocol.FlushOk | src/ikcp.c:974-1230 | What a flush sends carries the contents of its number, acknowledges only what is held, and gives new numbers to a prefix of snd_queue in order |
| KcpProtocol.InputPktOk | src/ikcp.c:796-904 | One arriving segment keeps both halves of the endpoint in order and takes nothing back |
| KcpInvariant.ParseUnaOk | src/ikcp.c:619-638 | A cumulative acknowledgement keeps snd_buf sorted below snd_nxt, snd_una its first number and never decreasing, and drops only what is acknowledged |
| KcpInvariant.ParseAckOk | src/ikcp.c:587-617 | The same for a selective acknowledgement |
| KcpInvariant.ParseFastackOk | src/ikcp.c:640-662 | Counting overtaken segments changes nothing else |
| KcpInvariant.AdmitOk | src/ikcp.c:1076-1098 | Moving segments into snd_buf keeps snd_nxt - snd_una within snd_wnd and extends the history by what was moved, in order |
| KcpInvariant.FlushBufOk | src/ikcp.c:1117-1189 | A pass over snd_buf touches only timers, and sends only what is in the buffer |
| KcpInvariant.InsertOk | src/ikcp.c:726-744 | The search from the back keeps rcv_buf sorted and free of repetitions, and afterwards holds the number |
| KcpInvariant.PromoteOk | src/ikcp.c:751-763 | Moving segments to rcv_queue keeps it contiguous, ending at rcv_nxt - 1 with at most rcv_wnd entries, and loses nothing |
| KcpInvariant.ParseDataOk | src/ikcp.c:714-776 | After ikcp_parse_data every number inside the window is held, and rcv_buf lies in [rcv_nxt, rcv_nxt + rcv_wnd) |
| KcpInvariant.RecvOk | src/ikcp.c:364-441 | Reading consumes a prefix of the queue, lets held segments move up, and returns the length of what it hands out, whatever the fragment numbers |
| KcpMessages.FragmentsWhole | src/ikcp.c:526-547 | The fragments of a message together are the message |
| KcpMessages.FragmentsFit | src/ikcp.c:511-541 | Every fragment fits a segment, and its number fits the byte on the wire |
| KcpMessages.FragmentsCountDown | src/ikcp.c:526-541 | Outside stream mode the fragment numbers count down to zero |
| KcpMessages.SendOk | src/ikcp.c:475-550 | ikcp_send queues exactly the bytes it reports: a message whole or not at all, in stream mode also part of it |
| KcpMessages.RecvMessage | src/ikcp.c:364-441 | At a message boundary ikcp_recv hands out the next message, whole, as soon as all its fragments are queued and there is room, -2 and -3 otherwise; exactly its fragments leave, none when peeking |
| KcpMessages.RecvExactly | src/ikcp.c:364-441 | What ikcp_recv answers and leaves, in all cases: -1, -2, -3 or the data up to the first fragment numbered zero, what moves up behind it, and when the window is announced again |
| KcpMessages.MergeCountIs | src/ikcp.c:389-417 | What is merged ends with the first fragment numbered zero, or with the queue |
| KcpMessages.PeekExactly | src/ikcp.c:445-471 | ikcp_peeksize is the length of the next message, or -1 as long as part of it is missing |
| KcpMessages.PromoteMoves | src/ikcp.c:419-432 | What moves up is the front of rcv_buf, in order, until a number is missing or the queue is full |
| KcpMessages.FewestFragments | src/ikcp.c:514-515 | A message takes the fewest fragments that hold it, and at least one |
| KcpMessages.FragmentsFull | src/ikcp.c:525-545 | Only the last fragment may be shorter than a segment holds |
| KcpMessages.SendExactly | src/ikcp.c:475-547 | ikcp_send takes everything if and only if what does not fit the last segment fits into 127 more; otherwise what fits the last segment, or -2 |
| KcpMessages.MergeData | src/ikcp.c:389-417 | What is merged is the data up to the first fragment numbered zero, whatever the numbers are |
| KcpLive.NeverStuck | src/ikcp.c:364-1263 | From every state of every run, in both directions, even if all that is on the wire is lost, the endpoints can go on so that everything accepted is delivered, message for message or byte for byte |
| KcpLive.Round | src/ikcp.c:364-1263 | One round of reading, probing, sending and acknowledging always leaves less to do |
| KcpLive.Exchange | src/ikcp.c:796-904 | Data that arrives inside the window is acknowledged by the next flush, and the acknowledgement takes it out of snd_buf |
| KcpLive.OpenWindow | src/ikcp.c:1026-1069 | A closed window is asked about when the probe timer is over, and the answer opens it |
| KcpLive.SendFirst | src/ikcp.c:1077-1189 | The first segment in flight is sent again when its time has come, or the next one for the first time |
| KcpLive.NextMessageIsHandedOut | src/ikcp.c:364-441 | In every reachable state ikcp_recv hands out the next message not yet delivered as soon as all of it is there |
| KcpLive.AllDelivered | src/ikcp.c:364-1263 | In every reachable state with nothing queued, in flight or unread, everything accepted has been delivered |
| KcpLive.Readable | src/ikcp.c:445-471 | A queue that is full, or holds all there is, can always be read |
| KcpResend.FlushExactly | src/ikcp.c:974-1195 | The packets of a flush, one by one: each waiting acknowledgement once and in order, the probe and the announcement that are due, then of snd_buf just the segments never sent, timed out or overtaken; what each of them becomes, and that no other changes |
| KcpResend.SentIffDue | src/ikcp.c:1076-1189 | A number in flight is sent again if and only if its segment is due, and as many new numbers are given, and sent, as are queued and the window has room for |
| KcpResend.OneSegment | src/ikcp.c:1117-1160 | A segment is sent if and only if it was never sent, its time has come or enough later ones were acknowledged; then it has one transmission more and is due again exactly when its timeout, backed off after a loss, is over |
| KcpResend.PassExactly | src/ikcp.c:1117-1189 | A pass over snd_buf sends just the segments that are due, in order |
| KcpResend.PassCounts | src/ikcp.c:1120-1189 | The pass counts the timed-out and the overtaken segments, and finds the link dead if and only if one was sent too often |
| KcpResend.AdmitExactly | src/ikcp.c:1076-1098 | Fragments get numbers in order until the queue is empty or the window full |
| KcpResend.NumbersGiven | src/ikcp.c:1066-1098 | How many numbers one flush gives, from the two windows and the congestion window |
| KcpLosses.FlushReacts | src/ikcp.c:1117-1229 | What a flush counts as lost, and the threshold and window it leaves, from the segments in flight |
| KcpArrival.ArrivalExactly | src/ikcp.c:796-904 | One arriving segment, field by field: what leaves snd_buf, what is to be acknowledged, the windows, and when the round trip is measured |
| KcpArrival.FastackExactly | src/ikcp.c:640-662 | Each segment in flight below an acknowledged one and not sent after it was overtaken once more, and no other |
| KcpArrival.DatagramExactly | src/ikcp.c:905-938 | After a datagram of one segment the overtaken ones are counted, and the window grows if and only if snd_una moved |
| KcpArrival.NewestExactly | src/ikcp.c:831-849 | Which acknowledgement of a datagram counts as the newest |
| KcpArrival.RoundTripExactly | src/ikcp.c:556-574 | Smoothed time, deviation and timeout after a measurement, as long as the sums fit |
| KcpArrival.TickExactly | src/ikcp.c:1236-1263 | A flush is due at the first update, from ts_flush on, and after a jump back of more than ten seconds |
| KcpArrival.CheckIsTight | src/ikcp.c:1266-1311 | The time that ikcp_check names is a whole interval away, or a flush or a segment is due then |
| KcpWrap.CodeFollowsProtocol | src/ikcp.c:136-1263 | Over any run in which nothing arrives later than 2^31 numbers less the windows, however often the numbers wrap, the 32-bit endpoints are the truncation of the unbounded ones, and every call sends and returns the same |
| KcpWrap.DiffExact | src/ikcp.c:136-139 | _itimediff of two truncated numbers is their true difference if and only if that fits 31 bits and a sign |
| KcpWrap.ApplyT | src/ikcp.c:364-1263 | In every reachable state, any call on the truncated endpoint is the truncation of the call |
| KcpWrap.InputT | src/ikcp.c:780-943 | ikcp_input commutes with truncation on every datagram at most 2^31 numbers late, less the windows |
| KcpWrap.FlushT | src/ikcp.c:974-1230 | ikcp_flush commutes with truncation |
| KcpWrap.RecvT | src/ikcp.c:364-441 | ikcp_recv commutes with truncation |
| KcpWrap.SendT | src/ikcp.c:475-550 | ikcp_send gives no numbers, so truncation does not matter to it |
| KcpWrap.ParseUnaT | src/ikcp.c:619-638 | The acknowledgement of anything numbered, up to 2^31 numbers late, drops the same segments across wrap-around |
| KcpWrap.ParseAckT | src/ikcp.c:587-617 | So does a selective acknowledgement |
| KcpWrap.ParseFastackT | src/ikcp.c:640-662 | And the same segments count as overtaken |
| KcpWrap.ParseDataT | src/ikcp.c:714-776 | Data from 2^31 numbers behind the end of the window to 2^31 ahead of rcv_nxt is taken or refused, and ordered, the same across wrap-around |
| KcpWrap.AdmitT | src/ikcp.c:1077-1098 | The send window test agrees across wrap-around |
| KcpLate.PassesExactly | src/ikcp.c:627-631 | One comparison of una with a number agrees with the unbounded one if and only if the truncated difference lies on the right side of 2^31; for every pair of numbers |
| KcpLate.ParseUnaExactly | src/ikcp.c:619-638 | For every acknowledgement of what was numbered, however late: the code drops what the protocol drops if and only if nothing is in flight, or it is newer than snd_una, or it is at most 2^31 behind modulo 2^32 |
| KcpLate.LateAckLosesData | src/ikcp.c:619-638 | A concrete case where it does not: an acknowledgement 2^31 + 1 numbers late makes the code discard a segment that was never acknowledged |
| KcpLate.InFlightExactly | src/ikcp.c:590-591 | The in-flight test agrees for a number if and only if it is in flight, or the number its truncation is taken for is not |
| KcpLate.ParseAckExactly | src/ikcp.c:587-617 | A selective acknowledgement acts on the code as on the protocol if and only if no other segment in snd_buf has the same number modulo 2^32 |
| KcpLate.ParseFastackExactly | src/ikcp.c:640-662 | Counting overtaken segments acts the same if and only if the number is in flight, is taken for none in flight, or nothing before the one it is taken for was sent early enough to count |
| KcpLate.TakesExactly | src/ikcp.c:720-724 | The code takes a data segment if and only if (sn - rcv_nxt) mod 2^32 < rcv_wnd, so it decides like the protocol if and only if no other number of the same truncation lies in the window |
| KcpLate.StaleSegmentIsTaken | src/ikcp.c:720-763 | A concrete case where it does not: a copy of segment 0 arriving when rcv_nxt is 2^32 is taken for new data |
| KcpCongestion.CodeControl | src/ikcp.c:364-1263 | In every state of every run of two 32-bit endpoints, whatever arrives and however late: the retransmission timeout lies between min(rx_minrto, 200, 60000) and 60000, the probe wait is 0 or between 5 and 120 seconds, the threshold is at least 2 |
| KcpCongestion.CallControl | src/ikcp.c:364-1263 | Every call keeps these bounds |
| KcpCongestion.RtoBounded | src/ikcp.c:573-573 | Whatever is measured, the timeout stays between min(rx_minrto, RTO_MAX) and RTO_MAX |
| KcpCongestion.SmoothedBetween | src/ikcp.c:559-571 | While the sums fit, the smoothed round-trip time stays between the old one and the new measurement |
| KcpCongestion.GrowBounded | src/ikcp.c:918-938 | The window never grows past the peer's, and is left alone once it is there |
| KcpCongestion.GrowExactly | src/ikcp.c:918-938 | By how much window and increment grow, below and above the threshold |
| KcpCongestion.GrowAdvances | src/ikcp.c:918-938 | Below the threshold the window grows by one segment; above it it does not shrink |
| KcpCongestion.ProbeBacksOff | src/ikcp.c:1026-1046 | The probe timer runs exactly while the peer's window is closed, asks exactly when its wait is over, and then waits half as long again up to the limit |
| KcpCongestion.AskedWhenClosed | src/ikcp.c:1026-1057 | A flush sends a window probe if and only if the peer's window is closed and the wait is over |
| KcpCongestion.BackoffBounded | src/ikcp.c:1197-1229 | After a flush the window is at least one segment; losses set the threshold to half the flight or half the window, never below two; a fast retransmit opens the window that far and the resend limit more, and a timeout closes it to one |
| KcpCheck.CheckIsSoundForAll | src/ikcp.c:1266-1311 | If ikcp_check names a later time, any number of ikcp_update calls before it send nothing and change nothing but the clock |
| KcpCheck.CheckIsSound | src/ikcp.c:1266-1311 | For each such call: no flush, and no queued segment is due for resending |
| KcpCheck.CheckDistance | src/ikcp.c:1296-1310 | The time named is at most one interval away, and not after the next flush or any resend time |
| KcpCheck.NextFlush | src/ikcp.c:1249-1261 | After a flush ts_flush lies in (current, current + interval] |
| KcpWire.ParseEncode | src/ikcp.c:796-817 | The reading loop of ikcp_input gives back exactly the segments that ikcp_encode_seg wrote, in order, and ends without error |
| KcpWire.ParseFirst | src/ikcp.c:802-817 | One encoded segment in front of any bytes is read first, and the rest as if it stood alone |
| KcpWire.HeaderFields | src/ikcp.c:949-960 | Every header field is read back as it was written |
| KcpWire.DatagramsRoundTrip | src/ikcp.c:1012-1195 | The datagrams of one flush are each non-empty and at most mtu bytes, and parsed one after another give back the flushed list |
| KcpWire.FillOk | src/ikcp.c:1012-1195 | At every moment what went out and what is in the scratch buffer is what was put, in order, and the buffer holds at most one mtu |
| KcpWireFlush.FlushRoundTrip | src/ikcp.c:974-1195 | In every state of every run the bytes that one ikcp_flush of either 32-bit endpoint hands to output are such datagrams, and they carry exactly the segments of the protocol's flush |
| KcpWireFlush.RunMachine | src/ikcp.c:364-1263 | Over any run whose calls have arguments of their C types, clocks, queued acknowledgements, segments on the wire and accepted data stay in theirs |
| KcpWireFlush.StepMachine | src/ikcp.c:364-1263 | Every call keeps them there |
| KcpWireFlush.FragFits | src/ikcp.c:511-541 | Every queued or numbered fragment fits a datagram and is made of bytes |
| KcpBytes.UsersReceiveWhatWasSent | src/ikcp.c:364-1263 | End to end, on bytes: two hosts of the 32-bit code exchange the datagrams their flushes write, over a network that drops, repeats, reorders and delays them by less than 2^31 numbers; what one user receives is a prefix of what the other sent, message for message or byte for byte |
| KcpBytes.LinkRunInv | src/ikcp.c:364-1263 | In every state of such a run each control block is the truncation of its protocol endpoint, and each datagram on the wire the encoding of segments that were sent |
| KcpBytes.EveryDatagramIsRead | src/ikcp.c:780-817 | Every datagram on the wire is read by ikcp_input without error as the segments it was written from |
| KcpBytes.CallsAgree | src/ikcp.c:780-817 | What ikcp_input reads from the bytes of a datagram is the truncation of what it stands for |
| KcpBytes.GroupsWritten | src/ikcp.c:1012-1195 | Each datagram of a flush is the encoding of its group of the flushed segments |
| KcpBytes.Perform | src/ikcp.c:364-1263 | An object of the class makes exactly the step of a host: same control block, same bytes sent, same value and message |
| KcpControlBlock.Kcp.constructor | src/ikcp.c:234-298 | A new control block is a fresh endpoint of the protocol, with the documented defaults |
| KcpControlBlock.Kcp.SetMtu | src/ikcp.c:1315-1328 | The mtu is refused below 50, and otherwise leaves room for a header in every datagram |
| KcpControlBlock.Kcp.NoDelay | src/ikcp.c:1338-1361 | A negative argument leaves its setting alone; the interval stays within 10 and 5000 ms |
| KcpControlBlock.Kcp.WndSize | src/ikcp.c:1364-1375 | The receive window never falls below the largest message |
| KcpControlBlock.Kcp.Send | src/ikcp.c:475-550 | A negative length gives -1; otherwise, in place and with its counters, this is the ikcp_send of the protocol, so KcpMessages.SendOk holds of it |
| KcpControlBlock.Kcp.Extend | src/ikcp.c:484-508 | Stream mode: the last queued segment takes what fits |
| KcpControlBlock.Kcp.Fragment | src/ikcp.c:526-547 | The loop queues the fragments of the whole message |
| KcpControlBlock.Kcp.UpdateAck | src/ikcp.c:556-574 | In place this is the measurement of KcpArrival.RoundTripExactly, with the timeout between min(rx_minrto, RTO_MAX) and RTO_MAX |
| KcpControlBlock.Kcp.ShrinkBuf | src/ikcp.c:576-585 | snd_una becomes the first number in snd_buf, or snd_nxt |
| KcpControlBlock.Kcp.ParseAck | src/ikcp.c:587-617 | The search along snd_buf removes what the specification of KcpInvariant.ParseAckOk removes, and keeps nsnd_buf its length |
| KcpControlBlock.Kcp.ParseUna | src/ikcp.c:619-638 | Dropping from the front removes what the specification of KcpInvariant.ParseUnaOk removes |
| KcpControlBlock.Kcp.ParseFastack | src/ikcp.c:640-662 | The loop counts exactly the overtaken segments |
| KcpControlBlock.Kcp.FindPlace | src/ikcp.c:726-737 | The backward search finds the place of a number in rcv_buf, or that it is repeated |
| KcpControlBlock.Kcp.ParseData | src/ikcp.c:714-776 | In place this is the step of KcpInvariant.ParseDataOk |
| KcpControlBlock.Kcp.Promote | src/ikcp.c:751-763 | In place this is the step of KcpInvariant.PromoteOk, and both counters stay the lengths of their queues |
| KcpControlBlock.Kcp.PeekSize | src/ikcp.c:447-469 | The value is the length of what ikcp_recv would hand out, for any fragment numbers, or -1 |
| KcpControlBlock.Kcp.MergeFragments | src/ikcp.c:389-417 | The loop merges up to the first fragment numbered zero, and removes what it merged unless it only looks |
| KcpControlBlock.Kcp.Recv | src/ikcp.c:364-441 | In place this is the ikcp_recv of KcpMessages.RecvExactly and RecvMessage: data, return code, queue, window announcement |
| KcpControlBlock.Kcp.InputOne | src/ikcp.c:823-903 | One segment of a datagram: in place the step of KcpProtocol.InputPktOk |
| KcpControlBlock.Kcp.InputLoop | src/ikcp.c:796-904 | The loop acts on exactly the segments that KcpWire.Parse finds, and returns its reason to stop |
| KcpControlBlock.Kcp.GrowWindow | src/ikcp.c:918-938 | The window and its increment become those of the specification; it never passes the peer's and stays as it is once there |
| KcpControlBlock.Kcp.Input | src/ikcp.c:780-943 | ikcp_input: too short a datagram changes nothing; otherwise the state is the protocol's after the segments parsed, and only a well-formed datagram reaches the last part |
| KcpControlBlock.Kcp.FlushAcks | src/ikcp.c:1012-1024 | The acknowledgements are put into the scratch buffer in order |
| KcpControlBlock.Kcp.ProbeTimer | src/ikcp.c:1026-1046 | The probe timer becomes that of the specification; the wait is 0 exactly while the peer's window is open, and otherwise between 5 and 120 seconds |
| KcpControlBlock.Kcp.FlushProbes | src/ikcp.c:1048-1070 | Window probes follow the acknowledgements, each in its own segment |
| KcpControlBlock.Kcp.AdmitNew | src/ikcp.c:1076-1098 | In place this is the step of KcpInvariant.AdmitOk |
| KcpControlBlock.Kcp.Renew | src/ikcp.c:1118-1158 | In place this is the decision, and the segment after it, of KcpResend.OneSegment: sent for the first reason that applies |
| KcpControlBlock.Kcp.SendOne | src/ikcp.c:1117-1189 | One turn: the segment in the buffer and on the wire, the counters and the dead link flag |
| KcpControlBlock.Kcp.FlushData | src/ikcp.c:1116-1189 | The loop over snd_buf sends what the pass of KcpInvariant.FlushBufOk sends |
| KcpControlBlock.Kcp.AfterLosses | src/ikcp.c:1197-1229 | The congestion state after a flush with losses is that of the specification; the window is at least one segment and losses leave a threshold of two or more |
| KcpControlBlock.Kcp.Flush | src/ikcp.c:974-1230 | ikcp_flush hands out exactly the datagrams of the specified list of segments, and leaves the specified state, so KcpWireFlush.FlushRoundTrip holds of it |
| KcpControlBlock.Kcp.Advance | src/ikcp.c:1242-1260 | The clock part of ikcp_update: whether a flush is due, across wrap-around |
| KcpControlBlock.Kcp.Update | src/ikcp.c:1238-1263 | ikcp_update is the protocol's |
| KcpControlBlock.Kcp.Check | src/ikcp.c:1275-1311 | The loop finds the time that KcpCheck.CheckIsSound speaks of |
| KcpControlBlock.Kcp.WaitSnd | src/ikcp.c:1377-1380 | The counters give the real backlog |
| Iqueue.Init | src/ikcp.h:144-145 | A node alone is an empty ring |
| Iqueue.Add | src/ikcp.h:154-156 | A node is put in just behind the given one; the ring stays linked both ways |
| Iqueue.AddTail | src/ikcp.h:157-159 | A node is put in at the end of the queue |
| Iqueue.Del | src/ikcp.h:161-164 | The node is taken out, the others keep their order, and its own links are cleared |
| Iqueue.DelInit | src/ikcp.h:165-166 | The node is taken out and is an empty ring of its own |
| Iqueue.IsEmpty | src/ikcp.h:167-167 | True if and only if the ring holds its head alone |
| Iqueue.Walk | src/ikcp.h:183-184 | The traversal meets every entry once, in order, and ends |
| Iqueue.Splice | src/ikcp.h:186-192 | The entries of one queue come to the front of another; the emptied head keeps its stale links |
| Aes.RoundTrip | src/aes.c:637-706 | For every 128, 192 or 256-bit key, initial vector and length, a second context decrypts what the first encrypted to exactly the same bytes, whichever of the three buffers coincide; any other key is refused |
| AesChaining.CbcRoundTrip | src/aes.c:637-676 | Chained decryption inverts chained encryption for any schedule, vector and number of blocks (section 6.2 of NIST SP 800-38A) |
| AesSpec.InvCipherOk | src/aes.c:522-610 | The inverse cipher of section 5.3 of FIPS 197 inverts the cipher, whatever the round keys |
| AesSpec.EqInvCipherOk | src/aes.c:487-610 | The equivalent inverse cipher with the reversed and transformed schedule is the inverse cipher (section 5.3.5) |
| AesSpec.InvRoundsUndo | src/aes.c:522-610 | Each inverse round undoes the round it mirrors |
| AesSpec.InvMixColOk | src/aes.c:482-482 | InvMixColumns inverts MixColumns |
| AesSpec.InvMixAdd | src/aes.c:502-509 | InvMixColumns distributes over adding a round key, which is why the keys may be transformed instead |
| AesField.SIsInverse | src/aes.c:166-200 | The bytes of Te4 are the S-box: the affine image of the inverse in GF(2^8) |
| AesField.SiS | src/aes.c:341-375 | Td4 undoes Te4 |
| AesField.SSi | src/aes.c:341-375 | Te4 undoes Td4 |
| AesField.XTimeIs | src/aes.c:26-60 | Doubling in the tables is a shift and, after a carry, an addition of 0x1b |
| AesField.Products | src/aes.c:26-340 | The products in the tables are multiplications in GF(2^8) |
| AesTables.EncWordOk | src/aes.c:515-519 | One line of a table round is SubBytes, ShiftRows, MixColumns and the round key on one column |
| AesTables.DecWordOk | src/aes.c:564-568 | One line of an inverse table round is its inverse counterpart on one column |
| AesTables.EncLastOk | src/aes.c:552-560 | The last round has no MixColumns |
| AesTables.DecLastOk | src/aes.c:601-609 | Nor has the last inverse round |
| AesTables.InvMixWordOk | src/aes.c:482-482 | INVMIXCOLRK, through Te4 and the Td tables, is InvMixColumns on a word |
| AesTables.TurnWordOk | src/aes.c:410-416 | The first word of each step of the schedule: rotation, substitution and round constant |
| AesTables.MiddleWordOk | src/aes.c:465-470 | The substitution in the middle of a 256-bit step |
| AesTables.RconIs | src/aes.c:377-380 | The round constants are the powers of x |
| Aes.KeySetupEnc | src/aes.c:399-479 | The three loops fill the array with the key schedule of section 5.2, and the number of rounds is 10, 12, 14 or none |
| Aes.Expand128 | src/aes.c:408-425 | The 128-bit loop |
| Aes.Expand192 | src/aes.c:428-447 | The 192-bit loop, whose last step stops after four words |
| Aes.Expand256 | src/aes.c:450-476 | The 256-bit loop, with its middle word |
| Aes.ReverseKeys | src/aes.c:494-500 | Swapping from both ends reverses the round keys, each kept whole |
| Aes.TransformKeys | src/aes.c:502-509 | Exactly the middle round keys are transformed |
| Aes.KeySetupDec | src/aes.c:487-512 | The result is the schedule of the equivalent inverse cipher |
| Aes.EncRound | src/aes.c:515-519 | AES_ENC_ROUND takes the state after one round to the state after the next |
| Aes.DecRound | src/aes.c:564-568 | AES_DEC_ROUND likewise |
| Aes.LoadBlock | src/aes.c:526-530 | The block is read into columns and the first round key added |
| Aes.EncFinal | src/aes.c:551-560 | The last round completes the cipher |
| Aes.DecFinal | src/aes.c:600-609 | The last inverse round completes the equivalent inverse cipher |
| Aes.Encrypt | src/aes.c:522-561 | The table code is the cipher of FIPS 197 on the block, in place or not, and writes nothing else |
| Aes.Decrypt | src/aes.c:571-610 | The table code is the equivalent inverse cipher on the block, in place or not, and writes nothing else |
| Aes.XorBlock | src/aes.c:633-634 | fix_xor adds one block to another |
| Aes.AesContext.Init | src/aes.c:679-706 | Both schedules belong to the key; any size but 16, 24 and 32 bytes is refused |
| Aes.AesContext.CbcEncrypt | src/aes.c:637-654 | All whole blocks are chained encryptions of the input as it was before the call, and the rest of the output is untouched |
| Aes.AesContext.CbcDecrypt | src/aes.c:657-676 | All whole blocks are chained decryptions of the input as it was before the call, although it may be overwritten on the way |
| ChaCha.VectorContext.Crypt | src/cc20.c:160-258 | The vector version, in chunks of 128, 64 and the tail, writes exactly the encryption of section 2.4 of RFC 8439 over the input as it was, in place or not, for every length and with counter wrap |
| ChaCha.PlainContext.Crypt | src/cc20.c:521-566 | The plain version writes the same bytes |
| ChaChaSpec.CryptTwice | src/cc20.c:160-258 | Applied twice with one key and vector it is the identity |
| ChaCha.VectorContext.constructor | src/cc20.c:572-590 | The context keeps the key |
| ChaCha.VectorContext.Tail | src/cc20.c:227-255 | The last partial block, worked from its end, is mixed with the key stream |
| ChaCha.VectorContext.MixBlock | src/cc20.c:193-222 | A block stored brings the output one block further |
| ChaCha.OneBlock | src/cc20.c:202-217 | Ten vector double rounds and the addition are the block function of section 2.3 |
| ChaCha.TwoBlocks | src/cc20.c:174-191 | Two blocks side by side are this block and the one with the next counter, although the counter is added in twice |
| ChaCha.StepFacts | src/cc20.c:176-197 | Adding the counter step to lane 0 before or after the rounds makes no difference, wrapping included |
| ChaCha.NextRows | src/cc20.c:196-222 | Adding one to lane 0 gives the rows of the next block |
| ChaCha.StoreRows | src/cc20.c:154-157 | STOREXOR of four registers mixes 64 bytes |
| ChaChaRows.OddRound | src/cc20.c:138-143 | Four lanes at once, with byte shuffles or shifts, are the four column quarter rounds |
| ChaChaRows.DoubleRound | src/cc20.c:145-152 | One vector double round is one double round on the sixteen words |
| ChaChaRows.TurnedColumns | src/cc20.c:128-148 | Between the two row permutations the columns are the diagonals |
| ChaChaRows.DoubleRowsFlat | src/cc20.c:145-152 | Double rounds on rows are double rounds on words |
| ChaChaRows.RotatedOk | src/cc20.c:107-123 | The shift form and the shuffle form of every rotation agree |
| ChaChaRows.RolWithBytes | src/cc20.c:115-118 | The byte shuffles rotate by 8 and 16 |
| ChaCha.PlainContext.InitBlock | src/cc20.c:429-436 | The initial state is constants, key, counter and nonce |
| ChaCha.PlainContext.BlockNext | src/cc20.c:460-512 | One block of key stream, and the counter one higher |
| ChaCha.PlainContext.XorBlock | src/cc20.c:539-551 | Sixteen words of data are mixed with the key stream |
| ChaCha.PlainContext.Tail | src/cc20.c:557-563 | The last partial block byte by byte |
| ChaCha.QuarterRound | src/cc20.c:441-445 | The macro is the quarter round of section 2.1 |
| ChaCha.DoubleRoundInPlace | src/cc20.c:447-457 | The macro is a column round and a diagonal round |
| EdgePeers.NoMacTwice | src/edge.c:2099-5947 | After any sequence of messages, sends and ticks no MAC occurs twice in known_peers and pending_peers taken together |
| EdgePeers.NextOnlyAbout | src/edge.c:2099-5947 | An event about one peer changes nothing about any other, and leaves this peer in one list at most |
| EdgePeers.NextSound | src/edge.c:2099-8040 | Every event and every tick keeps both lists free of repetitions and disjoint |
| EdgePeers.NoDupParts | src/n2n.c:408-420 | No MAC twice in the two lists together means: none twice in either, and none in both |
| EdgePeers.DemotionConserves | src/edge.c:5297-5307 | A move to pending_peers neither loses nor copies an entry |
| EdgePeers.PromotionConserves | src/edge.c:2284-2306 | A move to known_peers neither loses nor copies an entry; only the one that moved is rewritten |
| EdgePeers.PurgedOk | src/n2n.c:483-512 | The purge keeps exactly the entries seen in time |
| EdgePeers.PunchPassOk | src/edge.c:1688-1792 | A pass of check_punch_timeouts treats each pending peer by itself, also around entries it removes |
| EdgePeers.PassIsTickPunch | src/edge.c:1694-1789 | On one peer the pass is the punch machine of EdgePunch |
| EdgePeers.PunchedIsHandoff | src/edge.c:5437-5454 | A PUNCH request with the addresses we have is the handoff of EdgePunch |
| EdgePeers.ReregisteredIsRegister | src/edge.c:2142-2161 | try_send_register with the address we have is the registration of EdgePunch |
| EdgeLists.Find | src/n2n.c:408-420 | The search returns the first entry with the address, or null if there is none |
| EdgeLists.Push | src/n2n.c:467-473 | The node becomes the head of the list, the rest unchanged |
| EdgeLists.Unlink | src/edge.c:2273-2290 | The first entry with the address is unlinked; the list stays acyclic and keeps all others in order |
| EdgeLists.Splice | src/edge.c:5301-5304 | Unlinking at the head or behind a trailing reference |
| EdgeLists.PurgeList | src/n2n.c:483-512 | The loop unlinks exactly what was not seen in time, and counts it |
| EdgeLists.ClearList | src/n2n.c:515-538 | The list is emptied, and its nodes are counted |
| EdgeLists.CheckPunchOne | src/edge.c:1693-1791 | One turn of the pass, including the removal of a stuck peer, brings it nearer its end |
| EdgeLists.DropStuck | src/edge.c:1754-1761 | A stuck peer is unlinked in the middle of the pass, which goes on behind it |
| EdgeLists.CheckPunchList | src/edge.c:1688-1792 | The pass over the linked list is the pass of EdgePeers.PunchPassOk |
| EdgeLists.UnlinkIp | src/edge.c:7975-7989 | The first entry with a virtual address is removed |
| EdgeLists.UnlinkIps | src/edge.c:7974-8011 | And so for all addresses that were not confirmed |
| EdgeLists.Edge.Handle | src/edge.c:2099-8040 | Whatever event comes, the two linked lists stay acyclic, apart, and free of repeated MACs, and become the lists the specification says |
| EdgeLists.Edge.SetPeerOperational | src/edge.c:2260-2381 | On the linked lists this is the step of EdgeEffects.RegisterAckEffect: the node itself moves to the head of known_peers, or a late acknowledgement amends it there |
| EdgeLists.Edge.Promote | src/edge.c:2284-2308 | The node itself changes lists |
| EdgeLists.Edge.Demote | src/edge.c:5297-5307 | The node of a known peer goes to the head of pending_peers |
| EdgeLists.Edge.AddNew | src/edge.c:2106-2129 | A new node at the head of pending_peers, none of the old ones touched |
| EdgeLists.Edge.AddKnown | src/edge.c:2292-2306 | The node becomes the head of known_peers with its new fields, pending_peers untouched |
| EdgeLists.Edge.TryRegister | src/edge.c:2099-2163 | A new pending peer is added and punched; a changed address forgets the old punch; the same address starts one only if none has |
| EdgeLists.Edge.TryRegisterLan | src/edge.c:2167-2252 | The LAN phase begins with both addresses |
| EdgeLists.Edge.HandleRegister | src/edge.c:4987-5062 | REGISTER |
| EdgeLists.Edge.HandleRegisterAck | src/edge.c:5066-5109 | REGISTER_ACK: one through the supernode proves no direct path, so the peer stays pending |
| EdgeLists.Edge.HandleProbe | src/edge.c:5110-5141 | PROBE |
| EdgeLists.Edge.HandleProbeAck | src/edge.c:5142-5170 | PROBE_ACK |
| EdgeLists.Edge.HandlePeerInfo | src/edge.c:5237-5381 | PEER_INFO: a known peer whose address changed goes back to pending, an unknown one is added backdated |
| EdgeLists.Edge.HandlePunch | src/edge.c:5383-5456 | PEER_INFO with a punch request: skipped for a live direct peer, otherwise the peer is pending and punched anew only if its address changed or nothing is under way |
| EdgeLists.Edge.HandleDeregister | src/edge.c:5911-5949 | DEREGISTER: in place this is the step of EdgeEffects.DeregisterEffect |
| EdgeLists.Edge.HandlePacket | src/edge.c:3824-3906 | PACKET: only a frame straight from the peer counts as direct contact |
| EdgeLists.Edge.HandleSend | src/edge.c:3335-3361 | Sending through the supernode adds an unknown peer, and asks for a known one at most every five seconds |
| EdgeLists.Edge.HandleSilence | src/edge.c:1921-1941 | A silent known peer stays known and is punched anew |
| EdgeLists.Edge.CheckPunchTimeouts | src/edge.c:1688-1792 | The pass over pending_peers |
| EdgeLists.Edge.PurgeLists | src/edge.c:8035-8040 | Both purges, with the number of entries removed |
| EdgeLists.Edge.EndSync | src/edge.c:7967-8020 | The end of a sync removes unconfirmed pending and relay-only known peers |
| EdgeLists.Edge.Clear | src/edge.c:772-773 | Both lists are emptied, and every entry is counted |
| EdgeEffects.WhoIsWhere | src/edge.c:2099-5947 | A peer becomes known exactly by an acknowledgement straight from it while pending; stops being known exactly by a new address, a punch request while not in touch, or leaving; is forgotten exactly by leaving; and by what a new one is entered |
| EdgeEffects.ContactIsDirect | src/edge.c:2304-5155 | Exactly which events count as direct contact, and that only giving up forgets it |
| EdgeEffects.RegisterAckEffect | src/edge.c:2260-2381 | After a straight acknowledgement a pending peer is known by the address that answered, in the slot of its family, the other empty, in contact now and with no punch; a known one only moves from IPv6 to IPv4 |
| EdgeEffects.RegisterEffect | src/edge.c:4987-5062 | What a REGISTER makes of an unknown, a pending and a known peer |
| EdgeEffects.ProbeEffect | src/edge.c:5110-5141 | What a PROBE makes of an unknown, a pending and a known peer |
| EdgeEffects.ProbeAckEffect | src/edge.c:5142-5170 | A PROBE_ACK is a contact with a known peer, and nothing else |
| EdgeEffects.PeerInfoEffect | src/edge.c:5237-5381 | What a PEER_INFO makes of an unknown, a pending and a known peer |
| EdgeEffects.PunchRequestEffect | src/edge.c:5383-5456 | What a punch request makes of a peer, in touch or not |
| EdgeEffects.RestartArms | src/edge.c:4611-4646 | A restarted punch runs from now on, or its LAN phase does, whenever there is somewhere to punch |
| EdgeEffects.PacketEffect | src/edge.c:3824-3906 | What a frame makes of its sender: contact, a new address in the same family, its virtual address |
| EdgeEffects.SendEffect | src/edge.c:3335-3361 | A peer without a direct path is asked for every five seconds at most |
| EdgeEffects.SilenceEffect | src/edge.c:1921-1941 | A known peer given up loses its contact and is punched anew |
| EdgeEffects.DeregisterEffect | src/edge.c:5911-5949 | A peer that leaves is in neither list |
| EdgeEffects.TickEffect | src/edge.c:1688-1792 | What a second makes of a pending peer: LAN phase, rounds, retries, removal |
| EdgeEffects.PurgeEffect | src/n2n.c:483-512 | Who is purged, and that the others stay as they are |
| EdgeEffects.SyncEffect | src/edge.c:7967-8020 | Who is removed at the end of a sync, and who never is |
| EdgePunch.FifteenRounds | src/edge.c:1660-1789 | A pending peer whose address does not change and that no LAN phase restarts gets at most 15 rounds if it has a usable address all the time, and none if it never has one |
| EdgeSchedule.PunchedOnTime | src/edge.c:1660-1789 | With a tick in every second a reachable peer that registers once is punched at just these times: five rounds two seconds apart, three times over, 51 seconds apart |
| EdgePunch.RoundsAreBounded | src/edge.c:1660-1789 | However its addresses come and go, without a refill no more rounds come than were left |
| EdgePunch.StepSpends | src/edge.c:1688-1789 | An event takes its round from what is left and adds nothing, if and only if it is not a handoff to a peer stopped between two attempts; that one refills all fifteen |
| EdgePunch.NeverStopped | src/edge.c:1762-1788 | A peer that can be punched all the time is never found stopped between two attempts |
| EdgePunch.UnusableRetryRefills | src/edge.c:5443-5454 | A concrete run from a new pending peer in which twenty rounds are made, because one retry found no usable address and the next handoff refilled |
| EdgePunch.HandoffArms | src/edge.c:5443-5454 | A same-address handoff arms a punch or its LAN phase if and only if none has started, no LAN phase has, the peer is not directly alive and there is somewhere to punch; a running punch is left as it is |
| EdgePunch.RoundsAreSpaced | src/edge.c:1724-1748 | Under a clock that does not go back two rounds are never less than two seconds apart |
| EdgePunch.StepSpaces | src/edge.c:1724-1748 | Each event keeps that distance |
| EdgeKeepalive.GivenUpNoLater | src/edge.c:1809-1945 | With a pass at least every second and a usable address, a silent peer has been given up by the named time, and with one pass in every second exactly then |
| EdgeKeepalive.GivenUpNoSooner | src/edge.c:1809-1945 | Over any run in which nothing comes straight from the peer, relayed frames or not, it is given up once at most and not before the named time |
| EdgeKeepalive.SilenceLasts | src/edge.c:3857-3859 | Those times, counted from any direct contact: at least 14 seconds less two for each failure still counted, at most 17, and 16 less three for each failure when no probe is out |
| EdgeKeepalive.StepSound | src/edge.c:1823-1941 | Whatever came before, a peer is only given up after ten seconds without anything straight from it and eight without anything at all |
| EdgeKeepalive.StepNoSooner | src/edge.c:1904-1937 | No pass and no relayed frame brings the time of giving up nearer |
| EdgeKeepalive.StepNoLater | src/edge.c:1904-1937 | No pass over a silent peer puts it off |
| EdgeKeepalive.RunSound | src/edge.c:1809-1945 | Over any run the failures stay below three, and a probe is only out after eight seconds of silence |
| EdgeKeepalive.ProbeKeepsFailures | src/edge.c:5137-5138 | A concrete run in which the peer is given up ten seconds after a probe of its own was received |
| EdgeKeepalive.KnownPeer.CheckKeepalive | src/edge.c:1818-1945 | In place, one turn of the loop is the pass that all of these speak of |
| EdgeSupernode.TickKeeps | src/edge.c:2864-3104 | Every tick keeps sn_idx below sn_num and sup_attempts within its budget, and changes sn_idx only to the next in the circle |
| EdgeSupernode.IndexIsLeft | src/edge.c:2864-3104 | With a tick at least every second, no supernode keeps a silent edge longer than 31 s, four retries and four rounds of asking |
| EdgeSupernode.FirstLeft | src/edge.c:3035-3095 | When the present one is left first, and that the next in the circle follows |
| EdgeSupernode.EverySupernodeTried | src/edge.c:2864-3104 | The supernode d places ahead is reached within d such periods |
| EdgeSupernode.TickApproaches | src/edge.c:2864-3104 | A tick either leaves the supernode or takes the time that passed off what remains |
| EdgeSupernode.RemainingBounds | src/edge.c:2864-3104 | What remains is positive and at most the longest stay |
| EdgeSupernode.AskingTakesFourRounds | src/edge.c:2899-2927 | From the first question the switch comes after exactly four rounds of 31 seconds, 124 seconds in all |
| EdgeSupernode.CooldownNeverComes | src/edge.c:2868-2897 | While ticks come every second the guard of the five-minute cooldown is never true |
| EdgeSupernode.SupernodeEdge.SwitchSupernode | src/edge.c:2532-2552 | The index is set and the retry budget is fresh |
| EdgeSupernode.SupernodeEdge.UpdateSupernodeReg | src/edge.c:2864-3104 | In place this is the tick of EdgeFailover.LeftExactly, LeftTo and StayedExactly |
| EdgeFailover.FirstLeftLate | src/edge.c:2899-3055 | Over any run, when a first supernode that is a name and was up before is left, it was asked for 124 seconds before at least |
| EdgeFailover.AskedFirst | src/edge.c:3035-3055 | It is only left after asking, and a silent tick with the retries spent starts asking |
| EdgeFailover.LeftExactly | src/edge.c:2864-3104 | When a tick leaves the supernode, if and only if |
| EdgeFailover.LeftTo | src/edge.c:2532-3095 | Where it goes then, and when all are taken for failed |
| EdgeFailover.StayedExactly | src/edge.c:2864-3104 | What any other tick does to tries, timer and asking |
| EdgeFailover.NotLeftSoon | src/edge.c:2864-3104 | Over any run a supernode with all tries is not left before four retries are over |
| EdgeNat.RefreshSettles | src/edge.c:7509-7593 | Without another command every refresh is over at the first turn 198 seconds or more after it began, whatever acknowledgements, probes and mapping changes came between |
| EdgeNat.BoundIsTight | src/edge.c:7509-7593 | A run that is still open one second earlier |
| EdgeNat.RunBounded | src/edge.c:7509-7593 | During a run there is at most one rebuild, within the cap of the first window, and the timer stays within one extension of the cap |
| EdgeNat.StaysSettled | src/edge.c:7512-7512 | A settled refresh does not start again by itself |
| EdgeNat.NatEdge.Rebuild | src/edge.c:2576-2615 | The classification is reset and a window of 15 seconds armed, or everything disarmed if the sockets cannot be set up |
| EdgeNat.NatEdge.Command | src/edge.c:4143-4158 | The command grants one rebuild and starts over |
| EdgeNat.NatEdge.MainLoopTurn | src/edge.c:7509-7593 | One turn extends, rebuilds, defers or freezes as specified, and ends a refresh only with a final verdict or a failed rebuild |
| EdgeNat.NatEdge.Turns | src/edge.c:7509-7593 | Turn after turn of the main loop is the run that these speak of, whatever the network reports in between |
| EdgeNat.NatEdge.RefreshAndSettle | src/edge.c:4143-7593 | After the command and turns that reach 198 seconds, the edge is settled |
| EdgeNat.TurnExactly | src/edge.c:7512-7593 | When a turn ends, extends or rebuilds the refresh, if and only if |
| EdgeNat.NotOverSoon | src/edge.c:7512-7593 | Over any run a refresh lasts fifteen seconds, and as long as evidence may come within ninety |
| EdgeKeepalive.HeardExactly | src/edge.c:3857-5157 | What each sign of a peer does to the times the check goes by |
| EdgeKeepalive.RelayedExactly | src/edge.c:1830-1858 | A peer without direct contact is never given up; in gaming mode it is kept fresh every ten seconds |
| AesChaining.ChainedAt | src/aes.c:637-655 | Each block is encrypted together with the one encrypted before it |
| KnownAnswers.QuarterExample | src/cc20.c:441-445 | The example of section 2.1.1 of RFC 8439 |
| KnownAnswers.BlockExample | src/cc20.c:460-512 | The example of section 2.3.2 of RFC 8439: the whole block function |
| KnownAnswers.SerializedExample | src/cc20.c:460-512 | The block of section 2.3.2 as bytes |
| KnownAnswers.ScheduleExamples | src/aes.c:399-479 | The first schedule words of appendices A.1 to A.3 of FIPS 197 |
| KnownAnswers.MiddleExample | src/aes.c:465-470 | The middle word of a 256-bit step, appendix A.3 |
| KnownAnswers.NoMiddleExample | src/aes.c:430-446 | The same word of a 192-bit step, appendix A.2, is not substituted |
| KnownAnswers.RoundKeyExample | src/aes.c:377-380 | The last round constant, and the words of a round key |
| KnownAnswers.ShiftSubExample | src/aes.c:552-560 | SubBytes and ShiftRows of appendix B |
| KnownAnswers.MixExample | src/aes.c:515-519 | MixColumns of appendix B |
| KnownAnswers.AddExample | src/aes.c:515-519 | AddRoundKey of appendix B |
| KnownAnswers.AdlerExample | src/minilzo.c:2288-2316 | The checksum of abc |
| KnownAnswers.NearExamples | src/minilzo.c:2964-3044 | Codes of near matches at both ends of their ranges, and the end marker |
| KnownAnswers.FarExamples | src/minilzo.c:2990-3016 | Codes of far matches at both ends of their ranges |
| KnownAnswers.FartherExamples | src/minilzo.c:3018-3044 | Codes of the farthest matches at both ends and around the middle of their range |
| KnownAnswers.LongExample | src/minilzo.c:3006-3044 | An extended M3 length |
| KnownAnswers.LongFarExample | src/minilzo.c:3006-3044 | An extended M4 length |
| KnownAnswers.LiteralExamples | src/minilzo.c:2923-2948 | Where literals after a match are counted |
| KnownAnswers.RunExamples | src/minilzo.c:2932-2946 | Headers of literal runs, short and extended |

## Left out

- LzoDecompress.Decompress: streams that no compressor makes (arbitrary or truncated ones) are not covered; on well-formed ones the input and look-behind tests are proved never to fire, so their error returns do not appear.
- LzoRoundTrip.RoundTrip: the output buffer is a growing sequence and the input a value, so writing past a buffer and compressing a buffer onto itself are not modelled; the LZO1Y, LZO1Z and COPY_DICT variants and the platform macros are left out, and reads of unaligned words are reads of their bytes.
- LzoCompress.Probe: speaks of the slots that the two hashes name, whatever these are; that the hashes spread the positions well, and so how small other inputs become, is not stated.
- Adler.Adler32: the buffer is an array, and a null one gives 1 as in the code.
- KcpWrap.CodeFollowsProtocol: asks for windows of at most 2^30 and for acknowledgements at most 2^31, data at most 2^31 less two receive windows late. Beyond 2^31 it is false (KcpLate.LateAckLosesData); the windows leave room for how far an endpoint moves within one datagram, and the header carries only 16 bits of window anyway.
- KcpWireFlush.FlushRoundTrip: asks for a receive window of at most 65535, since the header carries 16 bits of it, for the mtu and mss that ikcp_setmtu leaves, and for calls whose arguments are of their types in C.
- KcpBytes.UsersReceiveWhatWasSent: the network delivers datagrams whole or not at all, as UDP does with its checksum; the settings of FlushRoundTrip and the lateness of CodeFollowsProtocol are asked for.
- KcpProtocol.DeliveredIsPrefix: settings do not change while a connection runs (no mtu or window lowered mid-run, no change between stream and message mode); ccops is NULL, as the bypass channel runs it.
- KcpLive.NeverStuck: says that the endpoints can always go on, by calls and deliveries that it names, not that a network or its users will; the receive window is at least the 128 that ikcp_wndsize leaves, and the send window at least one.
- KcpArrival.RoundTripExactly: asks for smoothed times whose sums fit 32 bits, as measured times below 2^27 do.
- KcpControlBlock.Kcp.Recv: the caller's buffer is not null and is at least as long as promised; the message is returned as a value.
- KcpControlBlock.Kcp.Send: allocation does not fail, and the buffer is not null.
- KcpControlBlock.Kcp.Flush: the scratch buffer is a growing sequence, proved never to hold more than one mtu; what output returns is ignored, as in the code.
- KcpControlBlock.Kcp: the four queues are sequence fields; the linked lists of ikcp.h are proved on their own in Iqueue, and nothing connects the two. The acknowledgement list grows without its doubling array. Signed settings beyond 2^31, logging, ikcp_setcc, allocator hooks and ikcp_release are left out.
- Iqueue.Walk: collects the entries, where the macro leaves to its user what to do with each.
- AesTables.EncWordOk: the tables Te0 to Te3 and Td0 to Td3 are given by the formulas in their comments; Te4 and Td4 by their 256 values.
- Aes.AesContext.Init: allocation does not fail; the single-block functions and n2n_aes_deinit are left out.
- ChaCha.VectorContext.Crypt: a machine that keeps words lowest byte first, as the vector version needs; the OpenSSL and NEON variants are left out.
- EdgeLists.Edge.Handle: what the handlers do besides the two lists is left out: packets sent, logging, relay lists, cached destinations, versions and names, bypass and ARP; allocation does not fail; several readings of the clock in one handler are one time. Events carry the decoded fields, since the wire codecs are not part of this model.
- EdgeLists.Edge.HandleSilence: gives a peer up at any time; when check_keepalive does so is the subject of EdgeKeepalive, on the fields of one peer that the lists leave out.
- EdgePunch.FifteenRounds: the clock starts after the epoch, since a time of zero means never.
- EdgeSupernode.IndexIsLeft: no acknowledgement arrives, the edge does not use WebSocket mode, the failover target is the configured second supernode; address look-ups and the probes of the NAT check are left out, as they change none of these fields.
- EdgeNat.RefreshSettles: evidence may change in any way between turns; whether the verdict of nat_classify is right depends on the network and is not modelled. The command is taken with a supernode connected.
- Not modelled at all: bypass.c, the packet transforms around the ciphers, the packet codecs, the supernode, TAP, UDP, TCP and WebSocket input and output, UPnP, DNS and HTTP look-ups, option parsing, the management output and the Windows code.
