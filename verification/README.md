# A verified model of the slirp stack and the virtio devices

This project models, in Dafny, the parts of an instruction-set simulator's
device library that carry other people's bytes: the user-space TCP/IP stack
under `src/slirp` (TCP, IP fragmentation, the output scheduler, ring buffers,
the checksum) and the virtio queues of `src/virtio.cc` with the block and 9P
devices on them. `dafny verify dfyconfig.toml` checks everything.

| file | what it models |
|---|---|
| `Seq32.dfy` | 32-bit sequence numbers and their signed comparisons |
| `Pieces.dfy` | sorted queues of overlapping pieces, shared by TCP and IP |
| `TcpQueue.dfy`, `TcpTrim.dfy`, `TcpRecv.dfy` | the receiver: window trimming, `tcp_reass`, delivery, the advertised window |
| `TcpSend.dfy`, `TcpOutput.dfy` | the sender: `tcp_output`, acknowledgements, persist state |
| `Tcp.dfy` | one connection as a class; segments, timers, socket calls; whole runs |
| `IpReass.dfy`, `IpOutput.dfy` | IP reassembly and fragmentation |
| `IfQueue.dfy` | the two-level output scheduler |
| `Sbuf.dfy` | the socket ring buffer |
| `Cksum.dfy` | the Internet checksum |
| `Virtio.dfy`, `VirtioRing.dfy` | descriptor chains, copies over them, available and used rings |
| `VirtioBlk.dfy`, `P9.dfy` | the block device and the 9P device |

Objects that the program updates in place are classes with the program's
fields; the peer's byte stream, the host's byte stream and the history of the
rings are ghost. In `Tcp.dfy` the two rings of a connection are byte sequences;
`Sbuf.dfy` proves that the ring behaves as one. Guest RAM is an array of bytes,
and descriptors are decoded from it each time, as in the program.

## Main results

- **A connection over every run** (`Tcp.Run`). For any sequence of segments,
  ticks and socket calls, across 2^32 wrap-around: the bytes handed to the
  socket are exactly the peer's stream up to rcv_nxt; the out-of-order queue
  holds exactly the other accepted bytes, sorted and disjoint; the FIN advances
  rcv_nxt once and only after all data; snd_una <= snd_nxt <= snd_max, the send
  ring is exactly the host's stream from snd_una on, and every data segment
  ever sent, resent or probed carries the bytes its number stands for; the FIN
  is counted in snd_max exactly while it is outstanding; TIME_WAIT means both
  FINs are settled, and its timer is running; the state is exactly what the two
  ends have come to (which has ended, in which order, whether our FIN is acked),
  and a FIN of ours is on the wire only after the host's side has ended
  (`Tcp.StateExact`, `Tcp.EndIsFirst`, `Tcp.FinAfterEnd`); the last segment of
  every event acknowledges all there is and shows the receive window, as far open
  as it can be; the advertised edge stays covered by free space and the
  edge rcv_nxt + free space never moves left; retransmit and persist timers
  never run together. The run comes with its history: every event in it has
  exactly the effect stated for its kind (`Tcp.Does`).
- **Every segment in every state** (`Tcp.Effect`): the ACK side, the text and FIN
  taken, and the state that follows, in the closing states too; the send window
  follows the segment that comes last by its place in the peer's stream, the place
  of its ACK in ours, and its window, in this order (`Tcp.WindowMeans`).
- **A losing connection is dropped** (`Tcp.LosingStreakEnds`). With nothing
  acknowledged and no persist state, whatever else happens, the retransmit
  timer expires at most `ExpiriesLeft` times and the last expiry closes; the
  timeout doubles from one expiry to the next up to its bound
  (`Tcp.TimeoutsDouble`).
- **TIME_WAIT ends** (`Tcp.TimeWaitEnds`). Whatever else happens, a connection in
  TIME_WAIT leaves it only by closing, within 20 slow ticks.
- **Fast paths refine the general path** (`Tcp.Tcpcb.Input`,
  `Tcp.EffectDetermines`, `TcpRecv.Reass`).
- **IP reassembly is sound and complete**: over any interleaving of fragments of
  any number of datagrams, overlapping and repeated, with identifiers used again,
  memory failing and time passing, what comes out and when is what the reference says; and it
  undoes fragmentation (`IpReass.Run`, `IpReass.ReassembleRun`,
  `IpOutput.RoundTrip`).
- **The scheduler** keeps per-session order over every interleaving, loses and
  repeats nothing, serves batch sessions round-robin, and moves a session down
  exactly when it has queued six packets since it last had none waiting and three
  of them have left (`IfQueue.Run`, `IfQueue.RoundRobin`, `IfQueue.HogsMeans`).
- **The ring is a FIFO**, move for move, over any sequence of uses
  (`Sbuf.Drive`, `Sbuf.StepsKeep`), and **the checksum is the plain ones'
  complement sum** wherever the data starts (`Cksum.Checksum`).
- **The block device over every run** (`VirtioBlk.Run`). For any sequence of
  driver stores into RAM, published chains and notifications: each published
  head is handed over once and in order over 16-bit index wrap, each request is
  decoded from RAM as it is at its hand-over and gets the one right answer, a
  read the last data written to each of its sectors (`VirtioBlk.LastWriteRead`);
  the guest finds exactly that in its buffers, and the used ring lists exactly
  the answers. Which requests are answered is stated from their bytes
  (`VirtioBlk.AnsweredExact`).
- **Virtio and 9P**: copies touch exactly the named slice of a chain; 9P requests
  get exactly one reply and the fid table stays a map that owns each file object
  once; from the bytes of the messages, over any run of them, a fid stands for the
  object of the last attach or walk that bound it, until a clunk
  (`Virtio.CopyToQueue`, `P9.Device.Recv`, `P9.FidTable.Set`, `P9.ServeMeans`,
  `P9.LastTouch`).

## Where the code does less than one would expect

Each of these is modelled as the code has it, with a failing case and the exact
condition under which the expected property holds.

- A segment whose data is cut at the right window edge loses its FIN only in
  the local flags (src/slirp/tcp_input.c:804); `TCP_REASS` and `tcp_reass` read
  the header, which still has it, so a FIN is taken one or more bytes early.
  `TcpTrim.TrimMeans` and `TcpTrim.CutsFinExact` show that this happens exactly
  when the edge lies strictly inside the new part of a segment with a FIN
  (`FinCut`), `TcpTrim.CutFinWitness` gives an instance,
  `TcpTrim.WindowRespected` shows that a peer that stays inside the window is
  safe. The run theorem leaves such segments out. `TcpQueue.InsertFins` gives
  the matching condition on the queue.
- `soread` may still add bytes after our FIN has been sent (when a failed
  `sowrite` closed the connection first). `TcpSend.HostGives` shows that this
  breaks FIN accounting exactly when a FIN has been sent and bytes arrive;
  `TcpSend.FinRace` shows what then goes wrong: the ACK of the FIN removes a
  byte that was never sent. The run theorem leaves such reads out.
- The window field is computed from the unsigned difference rcv_adv - rcv_nxt
  (src/slirp/tcp_output.c:365-366) and cut to 16 bits. `TcpRecv.WindowFieldHonest`
  shows that the window before the cut is at most the free space exactly when
  the peer has not passed the advertised edge, and the field that is sent exactly
  then or when the lower 16 bits of the difference happen to be at most the free
  space; `TcpRecv.FinAtClosedWindow` shows the smallest overrun, a FIN at a
  closed window, after which the field reads 65535.
- For the same reason the edge stays where it is once passed, so a peer that
  goes on gets further and further beyond it. `TcpRecv.WindowIsSpace` shows that
  the window segments are trimmed to (src/slirp/tcp_input.c:516-521) is the free
  space exactly until the peer is more than 2^31 past the edge (or has come
  round to just behind it); `TcpRecv.WindowTooLarge` gives the first failing
  case. The run theorem leaves out the segments that would go that far.
- Header prediction does not record where it took segments
  (src/slirp/tcp_input.c:436-507), so the numbers that window updates are compared
  with (lines 1100-1102) fall behind. `Seq32.OrderExact` gives the exact condition
  under which a comparison of numbers is that of the places they stand for;
  `Tcp.WindowMeans` says what the window then is; `Tcp.StaleWindow` shows that
  2^31 + 1 bytes on, no window is taken.
- The comments in src/slirp/tcp_input.c:1083-1089 and 1227-1231 say that a FIN
  sent again restarts the TIME_WAIT timer. It never does: line 1172 has cleared
  the FIN by then, and in TIME_WAIT every new ACK lies beyond snd_max (line 979).
  `Tcp.TimeWaitEnds` has the consequence, that TIME_WAIT cannot be prolonged.
- The range test of a snapshot write adds in 64 bits (src/virtio.cc:203);
  `VirtioBlk.PastEndExact` gives the exact condition under which it is right,
  `VirtioBlk.PastEndWraps` an input for which it is not.
- The count of a 9P write becomes a signed int (src/virtio.cc:2040), so from 2^31
  on nothing is copied and the data seems to be there. `P9.DataThereExact` shows
  that the test is right exactly for smaller counts or when the message ends
  before the data.
- Strings marshalled for 9P end at their first NUL; `P9.SeenAsIs` shows that the
  round trip is the identity exactly without NULs.

## Assumptions on the peer and the driver

A segment carries a slice of one stream at its sequence number, lies less than
2^31 from rcv_nxt, and what the window keeps of it does not take the receiver
2^31 past the advertised edge; rings are smaller than 2^30 bytes. Runs start
when the handshake is complete and our SYN is acknowledged. These are
`Tcp.Arrivable`, `Tcp.Admits` and the constructor's preconditions.

A driver stores anywhere in RAM but in the two rings and in descriptors of chains
published and not yet handed over, publishes at most a ring's worth of chains
that end and lie in RAM, and places writable buffers outside the rings and the
table. These are the conditions of `VirtioBlk.Admits`.

## Model

| member | source | states |
|---|---|---|
| Seq32.DiffOfWrap | src/slirp/tcp.h:146-149 | the comparison macros order stream positions less than 2^31 apart correctly, wherever 2^32 falls |
| Seq32.NearOrder | src/slirp/tcp.h:146-149 | numbers of places at most 2^31 apart compare as the places do, and are equal only if these are |
| Seq32.OrderExact | src/slirp/tcp.h:146-149 | the comparison is that of the places if and only if a later one is at most 2^31 ahead and no other is, up to multiples of 2^32 |
| Seq32.DiffAdd | src/slirp/tcp.h:146-149 | moving by the signed difference lands on the other number; it is zero only for equal numbers |
| Pieces.InsertFacts | src/slirp/ip_input.c:285-333 | inserting a piece keeps the queue sorted and disjoint, and it then covers exactly the old bytes and the new ones |
| Pieces.InsertCovers | src/slirp/ip_input.c:296-326 | byte by byte: covered after insertion if and only if covered before or in the new piece |
| Pieces.InsertSlices | src/slirp/ip_input.c:304-322 | pieces that are slices of one sequence stay slices of it after trimming and insertion |
| Pieces.InsertBetween | src/slirp/tcp_input.c:122-179 | insertion stays inside the bounds of the pieces |
| TcpQueue.Enqueue | src/slirp/tcp_input.c:119-179 | the list surgery on wrapped sequence numbers refines insertion on stream positions |
| TcpQueue.Find | src/slirp/tcp_input.c:122-125 | the search finds the first segment that begins later |
| TcpQueue.TrimAfter | src/slirp/tcp_input.c:160-174 | following segments are trimmed or dequeued exactly where the new one overlaps them |
| TcpQueue.DrainData | src/slirp/tcp_input.c:193-207 | what the delivery loop presents is the stream from rcv_nxt on, without gap or repeat |
| TcpQueue.DrainCovers | src/slirp/tcp_input.c:193-207 | every queued byte is either presented or still queued, none is both |
| TcpQueue.DrainFin | src/slirp/tcp_input.c:195-208 | a FIN is reported only when the last byte of the stream has been presented |
| TcpQueue.InsertFins | src/slirp/tcp_input.c:132-179 | FIN flags stay at the end of the stream after an insertion if and only if the new segment's does |
| TcpQueue.InlineAgrees | src/slirp/tcp_input.c:84-93 | the inline case of the macro presents what queueing and draining would |
| TcpQueue.ReassFacts | src/slirp/tcp_input.c:119-208 | one segment: the queue stays well-formed inside the window, presented bytes continue the stream, nothing accepted is lost, a FIN means the end |
| TcpTrim.LeftMeans | src/slirp/tcp_input.c:719-758 | the left trim on sequence numbers removes exactly the bytes before the next expected position, and the FIN only of a wholly old segment |
| TcpTrim.RightMeans | src/slirp/tcp_input.c:773-805 | the right trim keeps exactly the part inside the window, or asks for an ACK |
| TcpTrim.CutsFinExact | src/slirp/tcp_input.c:773-805 | the local and the header's FIN differ if and only if the window's edge lies strictly inside the new data of a segment with a FIN |
| TcpTrim.TrimMeans | src/slirp/tcp_input.c:719-805 | what is kept is the slice of the stream shared with the window; the FIN that will be queued stands at its end if and only if the edge does not cut it |
| TcpTrim.TrimKeeps | src/slirp/tcp_input.c:719-805 | no byte inside the window is dropped |
| TcpTrim.WindowRespected | src/slirp/tcp_input.c:773-805 | a segment inside the window never loses its FIN |
| TcpTrim.CutFinWitness | src/slirp/tcp_input.c:802-804 | an instance of a FIN taken before the last byte |
| TcpRecv.SbAppend | src/slirp/sbuf.c:63-117 | whatever the host takes at once, the bytes handed to the socket grow by exactly the data; room is the caller's duty |
| TcpRecv.PresentOne | src/slirp/tcp_input.c:194-206 | one turn of the delivery loop: one segment leaves the queue and fits the ring |
| TcpRecv.Present | src/slirp/tcp_input.c:181-208 | the loop on sequence numbers refines draining on positions, every append fits the ring, the FIN bit is that of the last segment presented |
| TcpRecv.TcpReass | src/slirp/tcp_input.c:104-209 | keeps the receiver's invariant; the FIN bit comes only with the end of the stream and an empty queue |
| TcpRecv.AppendInOrder | src/slirp/tcp_input.c:486-496 | data in order with an empty queue: straight to the socket leaves what queueing and draining would |
| TcpRecv.Reass | src/slirp/tcp_input.c:83-98 | both forms of the macro leave the same state, presented bytes and FIN bit |
| TcpRecv.TakeFin | src/slirp/tcp_input.c:1192 | the FIN moves rcv_nxt by one, once, after all data |
| TcpRecv.HostTakes | src/slirp/socket.c:411-415 | the host taking bytes changes nothing about what was given to the socket |
| TcpRecv.AdvertiseFacts | src/slirp/tcp_output.c:361-367 | the advertised edge goes exactly as far as the free space, at most 65535, if that is a segment or a quarter of the ring, and stays if not; it never moves left and never passes the free space |
| TcpRecv.WindowFieldHonest | src/slirp/tcp_output.c:361-367 | the window computed is at most the free space if and only if the peer has not passed the edge; the 16-bit field sent, if and only if that or the lower 16 bits of edge minus rcv_nxt are at most the free space |
| TcpRecv.FinAtClosedWindow | src/slirp/tcp_output.c:365-367 | after a FIN at a closed window the field reads 65535 |
| TcpRecv.WindowIsSpace | src/slirp/tcp_input.c:516-521 | the window is the free space if and only if the peer is at most 2^31 past the advertised edge (or has come round to it) |
| TcpRecv.WindowTooLarge | src/slirp/tcp_input.c:516-521 | one byte further it is 2^31 - 1 |
| TcpRecv.Advertise | src/slirp/tcp_output.c:358-367 | a segment opens the edge as far as that, its window field shows it, and the receiver's invariant is kept |
| TcpSend.Step | src/slirp/tcp_output.c:150-151 | arithmetic and comparisons of send numbers agree with offsets from snd_una |
| TcpSend.Amount | src/slirp/tcp_output.c:84-151 | how much may go and whether with a FIN; never beyond the ring, a FIN only at its end; exactly the window's part when not forced, one byte into a closed window when forced |
| TcpSend.Decide | src/slirp/tcp_output.c:84-250 | an owed ACK and a due window update are always sent, outstanding data is always resent, new data is sent if and, unless something else is due, only if it is a full segment, the rest of the ring or half the largest window; nothing without a reason; unsent data leaves a timer running; persist and retransmit timers exclude each other |
| TcpSend.Compose | src/slirp/tcp_output.c:292-350 | the data copied out is the host's stream at the position the number stands for; a FIN keeps its number when resent |
| TcpSend.Advance | src/slirp/tcp_output.c:394-439 | snd_nxt and snd_max move over exactly what is sent, the FIN is recorded once, a probe moves only snd_max |
| TcpSend.DropAckedFacts | src/slirp/tcp_input.c:1012-1031 | an ACK drops exactly the acknowledged bytes; `acked > sb_cc` holds if and only if the recorded FIN is acknowledged |
| TcpSend.AckMoves | src/slirp/tcp_input.c:1029-1031 | snd_nxt and snd_max keep their place in the stream when snd_una moves |
| TcpSend.EstimatorBounded | src/slirp/tcp_input.c:1371-1440 | while round trips take at most r ticks the estimator stays in range and the timeout within its bounds; backoff is reset |
| TcpSend.EstimatorTracks | src/slirp/tcp_input.c:1371-1440 | estimate and deviation move towards every sample and never past it; the first sample sets both |
| TcpSend.BackoffDoubles | src/slirp/tcp_timer.c:115-116 | the backoff doubles up to 64 |
| TcpSend.PersistDoubles | src/slirp/tcp_output.c:480-492 | the persist timer doubles each time it is set again, up to its bound |
| TcpSend.CwndGrows | src/slirp/tcp_input.c:1012-1018 | below the threshold an ACK opens the congestion window by exactly a segment, above it by the part of one that makes a segment per window; never past the largest window |
| TcpSend.HostGives | src/slirp/socket.c:196-200 | appending host data keeps the sender's invariant if and only if no FIN has been sent or there is no data |
| TcpSend.FinRace | src/slirp/tcp_input.c:1020-1028 | otherwise the ACK of the FIN removes the first new byte and is not recognised |
| TcpOutput.WireGrows | src/slirp/tcp_output.c:292-302 | later host data changes nothing about segments already sent |
| TcpOutput.WindowUpdateMeans | src/slirp/tcp_output.c:186-199 | a window update is due if and only if the free space a window can show goes two segments or half the ring beyond the edge the peer knows |
| TcpOutput.Reopens | src/slirp/tcp_output.c:186-367 | after an output with memory the edge is less than two segments and half the ring short of that |
| TcpOutput.ToldMore | src/slirp/tcp_output.c:358-472 | every segment of an output shows the same edge |
| TcpOutput.Emit | src/slirp/tcp_output.c:252-472 | one segment: right bytes, right FIN number, right ACK, and both invariants kept |
| TcpOutput.Pass | src/slirp/tcp_output.c:84-475 | one pass from the again label |
| TcpOutput.Output | src/slirp/tcp_output.c:55-475 | keeps all invariants, sends an owed ACK or window update, starts with the next bytes whenever they are worth a segment, sends the whole ring and the FIN through an open window, resends from snd_nxt, probes a closed window; a FIN only if the state has one; each segment shows the receive window |
| TcpOutput.Passes | src/slirp/tcp_output.c:78-475 | the again loop terminates and does all of that over its passes |
| Tcp.Tcpcb.constructor | src/slirp/tcp.h:156-160 | the invariant holds when the handshake is complete |
| Tcp.Tcpcb.TcpOutput | src/slirp/tcp_output.c:55-475 | output on the connection: only send numbers, timers and the advertised edge change; the log of sent segments grows by right ones |
| Tcp.OutputDone | src/slirp/tcp_output.c:55-475 | its effect on the connection: the last segment acknowledges all there is and shows the window; no FIN before the host's side has ended; with memory the window is reopened |
| Tcp.Tcpcb.FastRetransmit | src/slirp/tcp_input.c:939-960 | the third duplicate ACK resends the oldest unacknowledged bytes and leaves snd_nxt no further back than before |
| Tcp.Tcpcb.OldAck | src/slirp/tcp_input.c:903-969 | an ACK of nothing new leaves ring and streams alone; it stops processing exactly from the third duplicate on, and the third makes us resend the oldest unacknowledged bytes |
| Tcp.Tcpcb.NewAck | src/slirp/tcp_input.c:975-1091 | an ACK beyond snd_max changes nothing; any other drops exactly what it covers, takes the round-trip sample, stops or restarts the retransmit timer, and the closing states move exactly when our FIN is covered |
| Tcp.RecoveryEnds | src/slirp/tcp_input.c:975-1018 | the ACK that ends fast recovery brings the congestion window back to the threshold and opens it by a segment |
| Tcp.Tcpcb.DataArrives | src/slirp/tcp_input.c:1166-1173 | the trimmed text is accepted and everything contiguous presented |
| Tcp.Tcpcb.FinArrives | src/slirp/tcp_input.c:1178-1225 | the peer's FIN is consumed after all its data, and the state is then that of the two ends |
| Tcp.Tcpcb.TextArrives | src/slirp/tcp_input.c:1156-1234 | both together |
| Tcp.Tcpcb.UpdateWindow | src/slirp/tcp_input.c:1097-1115 | the send window is taken from newer segments only, and where it was taken from is recorded |
| Tcp.WindowOnce | src/slirp/tcp_input.c:1097-1102 | a segment's window counts once, and an older segment's not at all |
| Tcp.NewerMeans | src/slirp/tcp_input.c:1099-1102 | a segment is newer if and only if its place, the place of its ACK and its window are, in this order, above the last ones taken |
| Tcp.WindowMeans | src/slirp/tcp_input.c:1094-1109 | after any segment that is processed: its window if it is above, or predicted; if not, what its ACK leaves |
| Tcp.StaleWindow | src/slirp/tcp_input.c:1099-1102 | 2^31 + 1 bytes beyond the last segment recorded no window is taken |
| Tcp.Tcpcb.WindowAndText | src/slirp/tcp_input.c:1094-1234 | window, text and FIN, before the closing output |
| Tcp.Tcpcb.Step6 | src/slirp/tcp_input.c:1094-1254 | window, text, FIN and closing output on a trimmed segment: the peer's window is taken if the segment is newer and only then |
| Tcp.Tcpcb.AckField | src/slirp/tcp_input.c:852-1091 | the ACK field, in any state: what it drops, where it takes the state, and exactly when processing stops |
| Tcp.AckThenText | src/slirp/tcp_input.c:852-1254 | ACK and text steps together have the effect |
| Tcp.Tcpcb.AckAndText | src/slirp/tcp_input.c:852-1266 | a trimmed segment with an ACK has the effect `EffectOf` in every state, or none if it acknowledges what was never sent |
| Tcp.Tcpcb.InWindow | src/slirp/tcp_input.c:807-1266 | a segment of which the window keeps something: reset, no ACK, or the effect |
| Tcp.Tcpcb.GeneralInput | src/slirp/tcp_input.c:510-1266 | full processing, in every state, keeps the invariant and has the effect `Effect`: ACK, text, FIN and the state that follows |
| Tcp.Tcpcb.TakeAck | src/slirp/tcp_input.c:449-468 | the acknowledged bytes leave the ring, the sample is taken, and the retransmit timer follows |
| Tcp.Tcpcb.PredictedAck | src/slirp/tcp_input.c:436-481 | the first fast path has the same effect |
| Tcp.Tcpcb.PredictedData | src/slirp/tcp_input.c:482-507 | the second fast path has the same effect |
| Tcp.Tcpcb.Input | src/slirp/tcp_input.c:396-1266 | every arrivable segment in every state keeps the invariant and has the effect `Effect`; the send window follows `WindowFollows`; the third duplicate ACK resends; no byte leaves the send ring unless acknowledged; the window edge does not move left; accepted data is acknowledged at once or marked for the fast timer |
| Tcp.FastAckFacts | src/slirp/tcp_input.c:442-453 | dropping acknowledged bytes without the general path's bookkeeping keeps the sender's invariant |
| Tcp.CandidateKept | src/slirp/tcp_input.c:436-485 | the fast paths' guard means that both trims would have kept the segment whole |
| Tcp.EffectDetermines | src/slirp/tcp_input.c:436-509 | two outcomes with the effect agree on rcv_nxt, presented bytes, queue, snd_una, send ring, state and FIN status, in every state |
| Tcp.WndIsSpace | src/slirp/tcp_input.c:516-521 | the receive window is the free space: what is advertised never exceeds it |
| Tcp.KeptAcceptable | src/slirp/tcp_input.c:719-805 | what trimming keeps may be queued, and nothing is kept after the FIN |
| Tcp.DueFits | src/slirp/sbuf.c:119-122 | whatever becomes presentable fits the ring |
| Tcp.AckInRange | src/slirp/tcp_input.c:979-981 | the modular test recognises exactly the ACKs beyond snd_max |
| Tcp.Tcpcb.RexmtExpires | src/slirp/tcp_timer.c:149-243 | an expiry backs off, resends the oldest unacknowledged bytes with one segment of congestion window, or drops the connection exactly when it gives up |
| Tcp.Tcpcb.PersistExpires | src/slirp/tcp_timer.c:249-254 | while the window is closed the persist timer is rearmed, within its bounds, and the window probed with the next byte |
| Tcp.Tcpcb.RexmtTick | src/slirp/tcp_timer.c:86-90 | the retransmit timer's part of a tick |
| Tcp.Tcpcb.PersistTick | src/slirp/tcp_timer.c:86-90 | the persist timer's part |
| Tcp.Tcpcb.SlowTimo | src/slirp/tcp_timer.c:86-94 | one tick moves neither stream; timers run down, expiries resend or probe, backoff and segment size change only by an expiry, and the connection closes exactly when it gives up or its time is over |
| Tcp.Tcpcb.LateTimers | src/slirp/tcp_timer.c:136-142 | the 2MSL timer closes in TIME_WAIT or after a long idle time, and only then |
| Tcp.Tcpcb.FastTimo | src/slirp/tcp_timer.c:40-57 | a delayed ACK is sent and the window reopened |
| Tcp.ExpiriesClosedForm | src/slirp/tcp_timer.c:156-188 | the number of expiries to a drop: what is left of the round and seven for each halving that leaves 32 |
| Tcp.EthernetExpiries | src/slirp/tcp_timer.c:156-188 | 48 from a segment size of 1460 |
| Tcp.TimeoutDoubles | src/slirp/tcp_timer.c:189-192 | the timeout at the next backoff is twice as long, up to its bound |
| Tcp.TimeoutsDouble | src/slirp/tcp_timer.c:149-209 | in every losing streak, from one expiry to the next |
| Tcp.LosingStreakEnds | src/slirp/tcp_timer.c:149-188 | in every run, a streak without ACK and persist state has at most that many expiries, and the last one closes |
| Tcp.TimeWaitEnds | src/slirp/tcp_timer.c:136-142 | in every run, TIME_WAIT is left only by closing; its timer loses one with every slow tick, so that it is over after at most 20 |
| Tcp.Tcpcb.SockClosed | src/slirp/tcp_subr.c:281-308 | closing moves ESTABLISHED and CLOSE_WAIT on and sends our FIN through an open window |
| Tcp.Tcpcb.HostGivesData | src/slirp/socket.c:143-202 | host data extends the host stream and the ring |
| Tcp.Tcpcb.HostEnds | src/slirp/socket.c:165-174 | the end of host data closes our direction, is recorded, and sends the FIN through an open window |
| Tcp.Tcpcb.HostFails | src/slirp/socket.c:392-398 | a failed write does the same and shuts the other direction |
| Tcp.ShutBoth | src/slirp/socket.c:673-706 | shut in both directions, in either order, a socket is gone |
| Tcp.Tcpcb.HostTakesData | src/slirp/socket.c:411-424 | the host takes the oldest bytes; a draining socket is shut down when empty |
| Tcp.Tcpcb.HandleHost | src/slirp/slirp.c:399-460 | every socket call has its effect |
| Tcp.Tcpcb.Handle | src/slirp/slirp.c:399-460 | every event keeps the invariant, has its effect, and never moves the receiver or its window edge back |
| Tcp.FollowNumbers | src/slirp/tcp.h:146-149 | unsigned differences of rcv_nxt and rcv_adv tell how far the positions moved |
| Tcp.StateExact | src/slirp/tcp.h:122-135 | each state if and only if: which side has ended, which first, whether the peer's FIN is taken and ours acknowledged |
| Tcp.EndIsFirst | src/slirp/tcp_subr.c:281-308 | in every run, the record of the host's end is that of the first end of data or failed write, and says whether the peer's FIN had been taken by then |
| Tcp.FinAfterEnd | src/slirp/tcp_output.c:55-475 | in every run, a FIN is on the wire only after the end of the host's data or a failed write |
| Tcp.Run | src/slirp/tcp_input.c:396-1266 | any run of events: the invariant at every moment, the effect of every event, presented bytes, sent segments, TIME_WAIT, and a trace of backoff states |
| IpReass.CompleteIffCovered | src/slirp/ip_input.c:334-355 | the completion test succeeds if and only if every byte is there, and then the concatenation is the datagram |
| IpReass.StepFacts | src/slirp/ip_input.c:285-333 | one fragment adds exactly its bytes to its queue |
| IpReass.AgedFacts | src/slirp/ip_input.c:443-463 | ageing takes one tick off every queue and drops exactly the expired ones |
| IpReass.AgedValid | src/slirp/ip_input.c:443-463 | and keeps keys distinct and queues well-formed |
| IpReass.FragTable.Find | src/slirp/ip_input.c:171-180 | finds the key's queue if there is one |
| IpReass.FragTable.Enqueue | src/slirp/ip_input.c:285-333 | the list surgery is the insertion |
| IpReass.FragTable.FindPlace | src/slirp/ip_input.c:288-291 | the first fragment that begins later |
| IpReass.FragTable.TrimRest | src/slirp/ip_input.c:314-326 | following fragments are trimmed or dequeued exactly where the new one overlaps them |
| IpReass.FragTable.TestComplete | src/slirp/ip_input.c:334-342 | the scan finds a hole or a missing end if there is one |
| IpReass.FragTable.Concatenate | src/slirp/ip_input.c:347-355 | the fragments' data in order |
| IpReass.FragTable.Open | src/slirp/ip_input.c:267-283 | a first fragment opens the queue of its key, all or nothing |
| IpReass.FragTable.Extend | src/slirp/ip_input.c:285-387 | a later one extends it, or completes it and removes it |
| IpReass.FragTable.Reass | src/slirp/ip_input.c:243-392 | a packet comes out if and only if the datagram is now covered, and is the datagram; other keys are not touched |
| IpReass.FragTable.Input | src/slirp/ip_input.c:164-211 | the same from the header's offset field, with whole datagrams passed on |
| IpReass.QueueAged | src/slirp/ip_input.c:443-463 | each key's queue loses one tick, or goes with its last |
| IpReass.FragTable.SlowTimo | src/slirp/ip_input.c:443-463 | the loop is one ageing pass |
| IpReass.Arrive | src/slirp/ip_input.c:243-463 | one fragment or tick does to all queues what the reference does to the collections |
| IpReass.Run | src/slirp/ip_input.c:243-463 | over any run of fragments of many datagrams, with keys used again for other datagrams once their queue is gone, memory failures and ticks, exactly the datagrams whose fragments first cover them since their queue opened come out, when they do |
| IpReass.ReassembleRun | src/slirp/ip_input.c:243-392 | the fragments of one datagram alone: it comes out at the first arrival that completes it |
| IpOutput.Output | src/slirp/ip_output.c:54-170 | all fragments or none; they tile the datagram; DF and memory are the only failures |
| IpOutput.Rest | src/slirp/ip_output.c:113-144 | the fragment loop |
| IpOutput.TileDecodes | src/slirp/ip_output.c:92-150 | every fragment fits the link, starts on 8 bytes, and decodes to its slice, MF on all but the last |
| IpOutput.RoundTrip | src/slirp/ip_output.c:92-164 | fragmenting and reassembling is the identity in any order with repetition |
| IfQueue.FirstRound | src/slirp/if.c:172-193 | every waiting session sends once before any sends again |
| IfQueue.RoundRobin | src/slirp/if.c:163-208 | between two packets of a session every other waiting session sends exactly one |
| IfQueue.BatchRotates | src/slirp/if.c:175-193 | serving through the pointer is one turn of the rotation and leaves it on a session head or the sentinel |
| IfQueue.LedgerSend | src/slirp/if.c:184-203 | a packet sent moves from waiting to sent, in every session's order |
| IfQueue.LedgerPut | src/slirp/if.c:108-114 | a packet queued goes to the end of its session's order |
| IfQueue.MoveDown | src/slirp/if.c:125-130 | a downgrade keeps every session's order |
| IfQueue.MoveFront | src/slirp/if.c:125-130 | also when the session was on the batch queue already |
| IfQueue.Scheduler.constructor | src/slirp/if.c:28-34 | empty queues satisfy the invariant |
| IfQueue.Scheduler.Unlink | src/slirp/if.c:168-193 | the packet chosen is the first of the fast queue or of the rotation, and only it leaves |
| IfQueue.Scheduler.SendOne | src/slirp/if.c:163-205 | counters follow the queues, nothing else is sent |
| IfQueue.Scheduler.IfStart | src/slirp/if.c:153-209 | sends exactly as many as there is room for, in the specified order |
| IfQueue.Scheduler.Place | src/slirp/if.c:77-106 | the packet joins its session's list, on the batch queue if the session is there |
| IfQueue.Scheduler.Downgrade | src/slirp/if.c:125-130 | the session's list moves to the front of the batch queue |
| IfQueue.QueuedIs | src/slirp/if.c:77-130 | both queues after a packet, in terms of where it was put |
| IfQueue.HogsMeans | src/slirp/if.c:115-123 | the test on the counters holds if and only if the session has queued six packets since it last had none waiting, three of which have been sent |
| IfQueue.CountsPut | src/slirp/if.c:111-114 | the counters stay those of the packets waiting and of those queued since none was |
| IfQueue.CountsSend | src/slirp/if.c:195-200 | also when one is sent and when it was the last |
| IfQueue.Scheduler.Enqueue | src/slirp/if.c:49-131 | invariant and counters; both queues exactly, with a downgrade at the thresholds and only there |
| IfQueue.Scheduler.IfOutput | src/slirp/if.c:49-139 | queueing followed by sending: exactly which packets leave, in which order |
| IfQueue.Run | src/slirp/if.c:49-209 | over every interleaving, each session's packets leave in the order queued, none lost or repeated, and as many as there was room for |
| Sbuf.Offer | src/slirp/socket.c:79-136 | all free space or, above one mss, the largest multiple of it |
| Sbuf.Ring.constructor | src/slirp/sbuf.c:35-55 | a fresh ring is empty |
| Sbuf.Ring.Append | src/slirp/sbuf.c:123-153 | what fits goes to the end, over the wrap; a full ring must not be appended to |
| Sbuf.Ring.StoreFree | src/slirp/sbuf.c:128-147 | the copies put what fits into the free slots in order and touch no occupied slot |
| Sbuf.Ring.Drop | src/slirp/sbuf.c:18-32 | the oldest bytes go, at most what is there |
| Sbuf.Ring.Copy | src/slirp/sbuf.c:160-181 | the bytes at an offset, over the wrap |
| Sbuf.Ring.CopyFrom | src/slirp/sbuf.c:171-180 | in one part or two, the bytes from a slot on |
| Sbuf.Taken | src/slirp/socket.c:157-194 | how many bytes two partial transfers move: the second happens exactly if the first fills its part, and a host that takes all it is given is given all |
| Sbuf.Ring.Prepare | src/slirp/socket.c:79-136 | offers exactly the first free slots, in total what `Offer` says |
| Sbuf.Ring.Fill | src/slirp/socket.c:196-200 | bytes received into those slots are appended |
| Sbuf.Ring.Read | src/slirp/socket.c:143-202 | with any partial receives, exactly what the calls return is taken from the host and appended |
| Sbuf.Ring.ReadBuf | src/slirp/socket.c:204-244 | all of a buffer, or none if the offer is smaller |
| Sbuf.Ring.Occupied | src/slirp/socket.c:360-380 | the parts offered to the host are exactly the occupied slots in order |
| Sbuf.Ring.Write | src/slirp/socket.c:360-415 | with any partial sends, exactly what the calls return leaves, oldest first |
| Sbuf.Ring.Sent | src/slirp/socket.c:387-409 | how much the two calls send |
| Sbuf.Ring.FromParts | src/slirp/socket.c:384-410 | what the calls are given of the two parts are the bytes from the first slot on |
| Sbuf.StepKeeps | src/slirp/sbuf.c:18-181 | one use of the reference queue puts at the end, takes from the front, or copies |
| Sbuf.StepsKeep | src/slirp/sbuf.c:18-181 | over any uses, bytes out then bytes held are the bytes held at first then the bytes in |
| Sbuf.Use | src/slirp/sbuf.c:18-181 | one use of the ring is one use of the queue |
| Sbuf.UseHost | src/slirp/socket.c:143-415 | the same for transfers from and to the host |
| Sbuf.Drive | src/slirp/sbuf.c:18-181 | any sequence of uses of the ring is that sequence of uses of the queue, move for move |
| Cksum.Reduce | src/slirp/cksum.c:44-46 | adding the halves and the carry gives the ones' complement value |
| Cksum.AddFour | src/slirp/cksum.c:91-99 | the unrolled additions, within an int |
| Cksum.Unrolled | src/slirp/cksum.c:90-102 | the unrolled loops sum the words without overflow |
| Cksum.LastWords | src/slirp/cksum.c:105-108 | the last words, after a reduction |
| Cksum.FromOdd | src/slirp/cksum.c:78-121 | from an odd address: summing shifted by one byte and shifting back gives the same ones' complement value |
| Cksum.FromEven | src/slirp/cksum.c:90-136 | from an even address |
| Cksum.RotatedSpan | src/slirp/cksum.c:110-121 | the two sums differ by a multiple of 65535 |
| Cksum.PlainIsCanon | src/slirp/cksum.c:44-139 | the plain sum with end-around carries is the value of the carry-free sum |
| Cksum.Checksum | src/slirp/cksum.c:48-139 | the complement of the plain sum, for any start parity and length |
| Cksum.StoredVerifies | src/slirp/ip_output.c:81-82 | storing it in a zeroed field at an even offset makes the sum all ones |
| Cksum.StoreThenVerify | src/slirp/ip_input.c:100 | a second checksum is zero, whatever the alignments |
| Virtio.OrderedCovers | src/virtio.cc:579-614 | readable then writable part are all of an accepted chain |
| Virtio.ScatterFacts | src/virtio.cc:518-521 | storing touches nothing else and reads back |
| Virtio.LoadBytes | src/virtio.cc:328-365 | byte by byte inside a page |
| Virtio.StoreBytes | src/virtio.cc:367-406 | the same for stores; nothing else changes |
| Virtio.FromRam | src/virtio.cc:408-430 | page by page, exactly the bytes asked for |
| Virtio.ToRam | src/virtio.cc:432-446 | the same for stores |
| Virtio.GetDescRwSize | src/virtio.cc:579-614 | the two sizes, or an error exactly if a readable descriptor follows a writable one |
| Virtio.Locate | src/virtio.cc:494-510 | the descriptor and place of an offset, past empty descriptors |
| Virtio.CopyFromQueue | src/virtio.cc:457-544 | exactly the slice of the readable bytes, or -1 if it reaches beyond |
| Virtio.SkipReadable | src/virtio.cc:479-489 | the first writable descriptor |
| Virtio.StoreInQueue | src/virtio.cc:494-544 | exactly the slice of the writable bytes |
| Virtio.CopyToQueue | src/virtio.cc:457-544 | and -1 if it does not fit, with the part that fits stored |
| Virtio.ChainStays | src/virtio.cc:457-544 | a store off a chain's own descriptors leaves the chain as it is, even inside the table |
| Virtio.WalkFinds | src/virtio.cc:494-510 | following the descriptors finds a chain of at most so many if and only if there is one |
| VirtioRing.SizeGuard | src/virtio.cc:854-858 | the guard on queue sizes admits exactly the powers of two |
| VirtioRing.MaskIsMod | src/virtio.cc:572 | masking is the remainder |
| VirtioRing.SlotOfIndex | src/virtio.cc:632-633 | a 16-bit index finds the slot of its position |
| VirtioRing.ConsumeDesc | src/virtio.cc:563-577 | one more used entry in ring order, nothing else written |
| VirtioRing.WriteAvail | src/virtio.cc:626-633 | the driver's side: one more head in ring order, nothing else written |
| VirtioRing.NextHead | src/virtio.cc:631-633 | the loop ends exactly when all published heads are taken, and the next head is the next published |
| VirtioRing.PassBack | src/virtio.cc:1432-1440 | the reply in the chain's writable part and one used entry |
| VirtioRing.StoreReply | src/virtio.cc:1432-1440 | its first half: only writable bytes change, and they read back |
| VirtioBlk.PastEndExact | src/virtio.cc:203-204 | when the 64-bit range test is right |
| VirtioBlk.PastEndWraps | src/virtio.cc:203-204 | an input for which it is not |
| VirtioBlk.Disk.constructor | src/virtio.cc:223-263 | a fresh disk |
| VirtioBlk.Disk.ReadAsync | src/virtio.cc:147-182 | the sectors asked for that the disk has, copies before image; a file that ends earlier gives less |
| VirtioBlk.Disk.ReadSectors | src/virtio.cc:164-175 | a snapshot's loop: every sector its copy, or the image's if there is none |
| VirtioBlk.Disk.WriteAsync | src/virtio.cc:184-221 | exactly the sectors written change; a snapshot's image never does; refused exactly when read-only or past a snapshot's end; a read-write disk also takes writes past its end |
| VirtioBlk.Disk.CopySectors | src/virtio.cc:205-212 | the copy-on-write loop |
| VirtioBlk.Overwritten | src/virtio.cc:195-199 | a write to the file, also across or past its end, changes exactly the sectors written |
| VirtioBlk.BufferIsLatest | src/virtio.cc:147-182 | a buffer read sector by sector is the latest data |
| VirtioBlk.Device.constructor | src/virtio.cc:268-286 | the invariant holds after a reset |
| VirtioBlk.Device.Reply | src/virtio.cc:971-990 | the reply and one used entry |
| VirtioBlk.Device.ReadRequest | src/virtio.cc:1043-1055 | a read returns the latest data of the whole sectors the disk has and a zero status at the end of the reply, and writes nothing else |
| VirtioBlk.Device.WriteRequest | src/virtio.cc:1056-1070 | a write takes whole sectors; it succeeds if and only if the disk is writable and, for a snapshot, it ends inside; the status says which |
| VirtioBlk.Device.Recv | src/virtio.cc:1010-1079 | the one right answer to the request decoded from the chain: what the guest finds, the disk, the used entry; a read or write of sectors the disk has, with a byte for the status, always gets its data, its status and one used entry |
| VirtioBlk.Device.Respond | src/virtio.cc:1010-1079 | the code of it, up to these consequences |
| VirtioBlk.AnsweredExact | src/virtio.cc:1029-1072 | which chains are passed over, which have no defined answer and which are answered, if and only if, from descriptors, header bytes and disk |
| VirtioBlk.InsideRead | src/virtio.cc:1043-1055 | a read inside the disk: the sectors as they are, status zero, one used entry |
| VirtioBlk.InsideWrite | src/virtio.cc:1056-1070 | a write inside a writable disk: exactly these sectors are now the data, status zero, one used entry |
| VirtioBlk.Device.Notify | src/virtio.cc:617-647 | every published head is handed over once and in order; each hand-over gets the right answer from RAM as it was to RAM as it is then; used entries are exactly the answers in order |
| VirtioBlk.Device.Next | src/virtio.cc:631-646 | one turn of the loop takes the next head |
| VirtioBlk.Device.One | src/virtio.cc:631-646 | and records its hand-over and its answer |
| VirtioBlk.Device.Publish | src/virtio.cc:626-633 | a driver that publishes within the ring keeps the invariant, over index wrap, and writes only the available ring |
| VirtioBlk.Device.Store | src/virtio.cc:617-647 | driver stores off the rings and off the descriptors of chains not yet handed over keep the invariant |
| VirtioBlk.Handle | src/virtio.cc:617-647 | one event of a run has its effect and keeps the invariant |
| VirtioBlk.Run | src/virtio.cc:617-1079 | over any run of stores, publications and notifications: every event has its effect, every request handed over has had the one right answer from RAM as it was then, the used ring lists exactly the answers |
| VirtioBlk.LastWriteRead | src/virtio.cc:147-221 | the latest data of a sector is that of the last write to it, whatever came after and elsewhere |
| VirtioBlk.WriteKeeps | src/virtio.cc:184-221 | disk and history stay in step |
| P9.Marshall | src/virtio.cc:1212-1308 | the encoding of the fields |
| P9.RoundTrip | src/virtio.cc:1212-1416 | fields survive the round trip, strings up to the first NUL, whatever surrounds them |
| P9.SeenAsIs | src/virtio.cc:1273-1290 | unchanged if and only if no string holds a NUL |
| P9.Unmarshall | src/virtio.cc:1316-1416 | the fields of the chain's readable bytes, wherever descriptors break them |
| P9.Transfer | src/virtio.cc:1212-1416 | fields marshalled and stored over any chain are the fields unmarshalled |
| P9.Field | src/virtio.cc:1326-1408 | one field |
| P9.FidTable.Find | src/virtio.cc:1114-1125 | the fid's entry if there is one |
| P9.FidTable.Delete | src/virtio.cc:1137-1147 | the fid goes and its object is given back once |
| P9.FidTable.Set | src/virtio.cc:1149-1163 | the fid owns the new object; an old one is given back once; every object is owned once or given back once |
| P9.ServeFacts | src/virtio.cc:1493-2078 | one reply with the request's tag, or 0, of type id + 1 or 7; at most one fid changes |
| P9.ServeMeans | src/virtio.cc:1926-2078 | from the bytes of a message: what attach, walk and clunk bind or remove, with the reply or error to each; no other message touches the fids |
| P9.OtherReplies | src/virtio.cc:1532-2078 | the replies to all others: their own only if the fid they name is bound and the file system did not refuse, and then with the right body |
| P9.TouchStep | src/virtio.cc:1926-2078 | one message of a run binds or removes one fid and leaves all others |
| P9.LastTouch | src/virtio.cc:1926-2078 | over any run a fid is bound to the object of the last message that touched it, unless that was a clunk |
| P9.Device.Process | src/virtio.cc:1493-2078 | request handling over chain and list refines `Serve` over message and map |
| P9.Device.ReadRest | src/virtio.cc:1972-1977 | the names of a walk and the data of a write are read or the request fails; a count of 2^31 or more passes as the code lets it |
| P9.DataThereExact | src/virtio.cc:2039-2044 | the test whether a write's data is there is right if and only if the count is below 2^31 or the data would begin at the end |
| P9.Device.Finish | src/virtio.cc:1925-1997 | attach, walk and clunk act on the fids |
| P9.Device.Recv | src/virtio.cc:1493-2078 | exactly one used entry and the reply as bytes; the fids are those of the whole run of messages; nothing else but the rest of the writable part and of the used ring may change in RAM |
| P9.Device.Store | src/virtio.cc:617-647 | driver stores outside the used ring keep all of that |

## Left out

- The handshake, SYN-bearing segments, `tcp_dooptions`, `tcp_mss`: runs start after them.
- URG, `tcp_emu`, `tcp_ctl`, out-of-band data: they bypass the ring discipline.
- RST segments sent by `tcp_drop` and `dropwithreset`, `tcp_respond`: only the state change is modelled.
- Keep-alive probes: the option is off in the code; the timer is only rearmed.
- The end of the delivery loop at src/slirp/tcp_input.c:207, which compares with the control block itself: the model ends it at the end of the queue, as lines 122, 160 and 189 test it.
- Tcp.Run: leaves out segments cut by the window that carry a FIN, segments that take the receiver 2^31 past the advertised edge, and host data after our FIN. The property is false there, with the exact conditions given above, except for cut FINs whose data was already supplied and for segments without a FIN that end exactly 2^31 past the edge, which are left out with them.
- Tcp.Tcpcb.HostGivesData: requires that no FIN has been sent, which the program does not check; `TcpSend.HostGives` gives both directions.
- Fixed width of the round-trip fields (`EstimatorBounded` bounds them), of `t_dupacks` and `t_idle`: unbounded here.
- Linked lists, mbufs and their free lists: sequences; update order inside one list operation and aliasing are not captured.
- IP header fields other than length, offset and key; the TTL of forwarded packets; ICMP.
- IfQueue: fairness is claimed only while no packets arrive, as a downgrade reorders the batch queue.
- Sbuf: resizing a ring in use (`sbreserve` clears it); appending to a full ring, which overwrites it and which its callers must not do.
- Virtio.CopyToQueue: leaves out chains whose writable buffers overlap the descriptor table, which would change under the walk.
- Virtio.StoreInQueue: the same.
- VirtioBlk.Disk.ReadAsync: leaves out snapshot reads past the end, which read beyond the sector table.
- VirtioBlk.Disk.WriteAsync: leaves out snapshot writes whose end wraps round 2^64 to inside the disk (see `PastEndExact`), which write beyond the table.
- VirtioBlk.Device.Recv: those two, requests without a byte for the status and file offsets from 2^63 on are recorded as `Outside` and left unanswered.
- VirtioBlk.Device.ReadRequest: between the sectors read and the status the code sends what its buffer held; nothing is promised about those bytes.
- P9: asynchronous opens, the contents of file-system answers, message sizes beyond the reply buffer, the argument lists of statfs and getlock.
- Virtio network, console and input devices, MMIO registers, interrupts.
- UDP, ARP, bootp, DNS rewriting, host forwarding, `slirp_select_*`: input and output or plumbing.
- `src/iceblk.cc`, `src/sifive_uart.cc`, device-tree code: no property of this depth.
