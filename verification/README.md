# Verification of the small TCP/IP stacks

This Dafny project models the hard parts of two small network stacks and proves what they
are for. `tcplean` is a stack for PCs with its own reliable protocol (SCRATCHP), TCP, IP,
SLIP and frame queues; `ChipWeb/P16Web` is a stack for a PIC microcontroller with an
Ethernet controller or a PPP serial line. All paths below are relative to the repository.

Run `dafny verify dfyconfig.toml` in this directory.

## How it is built

State that the program updates in place is a class with the program's fields, and each of
its methods is proved equal to a function on values; whole-run results are proved about
those functions. Words of 8, 16 and 32 bits wrap explicitly (`Words`); the cyclic
redundancy check uses bit-vectors.

- `Words`: wrap-around arithmetic and circular comparison. `CircBuff`, `RingBuff`,
  `BuffRuns`: the circular buffer with a trial pointer as a bounded sequence with a tried
  index, the buffer itself, and any run of operations. Everything else that buffers uses it.
- `Scratchp`, `ScratchpNet`: the SCRATCHP node, and two of them with a network between.
  `ScratchpOpen`: how a connection opens, from the START packet on. `ScratchpAnswers`: what
  a node answers, by the numbers in the packets alone, and how losses are made good.
- `Tcp`, `TcpLink`, `TcpStates`, `TcpNet`: the TCP socket, what links two of them, that
  every state keeps the links, and whole runs. `TcpAnswers`: what each state answers, by
  the numbers in the segments alone. `TcpOpen` shows that such runs exist;
  `TcpFin` follows the FIN; `TcpPoll` shows that a socket whose peer is silent closes.
- `Checksum`, `PicSum`: the two implementations of the Internet checksum (RFC 1071,
  sections 1 and 2; RFC 1624, section 3) and the messages sealed with them.
- `Fcs16`, `Ppp`: the frame check sequence and framing of PPP (RFC 1662, section 4.2 and
  appendix C). `Slip`: SLIP framing (RFC 1055).
- `PktQueue`, `FileXfer`: frames, and file blocks, in byte buffers. `FileOverNet`: files
  over the network of `ScratchpNet`.
- `IpFrag`, `IpDefrag`: splitting a payload in two, and putting it together (RFC 791,
  section 3.2).
- `EthRx`: the window on a packet in the Ethernet controller's ring.
- `Lcp`, `LcpMeaning`: the link control automaton (RFC 1661, section 4.1), and what its
  states mean.
- `Wrappers`: values that may be absent.

The networks of `ScratchpNet` and `TcpNet` are sets of all packets ever sent: delivering
one does not remove it, any one may be delivered at any time, and any may be lost. Packets
carry their unwrapped stream positions, which the nodes do not see. A packet may arrive as
long as its positions are less than 2^31 from the receiver's. Runs of `ScratchpNet` start
connected with matching pointers; those of `ScratchpOpen` with a START, which a node
answers as a new request only once; those of `TcpNet` with two sockets that have never been
open, and a socket is not opened a second time.

## What was found

Each of these is a lemma; the code is modelled as it is.

- The PPP receiver cuts a frame whose payload is longer than 122 bytes and delivers the
  rest as a good frame, because the check value is computed over bytes that no longer fit
  the buffer (`Ppp.RoundTrip`, `Ppp.DeliveredWhole`).
- The modem escape of three plus signs is noted with a length of two
  (`Ppp.PlusPlusPlus`), but is answered only from a length of three (p16_ppp.c:471).
- A SCRATCHP node that opens a connection takes the number of the first packet it gets for
  the start of its peer's stream. If the answer to its START was lost and its peer has
  already sent data, what was sent before that packet is acknowledged and lost without an
  error (`ScratchpOpen.OpeningCanLoseData`). The opening is sound exactly if that packet
  stands at the start of the peer's stream, which the answer to a START that comes again
  does only if nothing is on trial (`ScratchpOpen.OpensMatched`,
  `ScratchpOpen.AnsweredAgain`); otherwise exactly what stands before it never arrives
  (`ScratchpOpen.OpenedStream`).
- A SCRATCHP connection does not survive the loss of a packet that another one follows:
  data from ahead of the receive position closes it (`ScratchpAnswers.LossCloses`), and so
  does an acknowledgement of more than has been sent again since a timeout
  (`ScratchpAnswers.LateAckCloses`). Exactly when it goes on is `ScratchpAnswers.GoesOn`.
  The error that the peer should be told of is not sent if there is data to send
  (`ScratchpAnswers.ErrorTold`). A node that is closing does not give up
  (`ScratchpAnswers.ClosesOnlyWhenAnswered`).
- A half-open TCP socket does not recognise the end of the handshake in a segment with data
  (`TcpAnswers.DataDoesNotOpen`; exactly what opens it is `TcpAnswers.SynRcvdAnswers`).
- A file whose length is a multiple of 255 ends with two null lengths. If the second is
  taken together with the first, and only then, the receiver counts a write error
  (`FileXfer.SecondNull`, `FileXfer.ErrorExactly`); the code then also closes a file handle
  that is null (SCRATCHP.C:706-709), of which the model keeps only the error. If it comes
  later it is left in the buffer (`FileXfer.SecondNullLate`).
- An LCP packet that is not an event, such as an echo request, has the last actions done
  again. Signals to the layer above are repeated exactly as `Lcp.Repeats` says, in a flagged
  state (`Lcp.UpAndDown`, `Lcp.UpCanBeRepeated`). A configure request is resent without
  being counted (`Lcp.Resends`, `Lcp.RequestsCanBeResent`): at most fifteen are counted
  between rests in any run, and the limit is kept in a whole run exactly if no input has one
  more sent at the limit (`Lcp.RequestsAreLimited`, `Lcp.Passes`).
- An open LCP link whose peer asks again and is refused goes to Ack-Sent, where RFC 1661 has
  Req-Sent, and so opens again although the peer's request has not been acknowledged
  (`LcpMeaning.OpensThoughRefused`; nothing else makes the states lie,
  `LcpMeaning.StatesMeanTheirHistory`). After an open link is left, requests are not sent
  again at timeouts (`LcpMeaning.NoTimerAfterOpen`).
- An IP header whose length nibble has been changed may still be accepted
  (`Checksum.LengthUndetected`); any other changed byte is detected.
- The FIN that answers a peer's FIN after a timeout may stand before bytes that had already
  been sent: the peer then accepts it without them (`TcpFin.FinCanFallShort`). It covers
  everything exactly if the trial pointer is at the furthest it has been
  (`TcpFin.AnswerCovers`, `TcpNet.FinSafety`).
- A half of a datagram is forgotten once eight other fragments have looked at it
  (`IpDefrag.Reassembles`).
- Reassembly bounds the sum of the two lengths, not where the parts lie: the last two
  fragments of a datagram of three are put together past the end of the data area
  (`IpDefrag.GuardIsNotEnough`; the exact condition is `IpDefrag.InsideExactly`).
- A UDP echo request without checksum is answered with wrong data: its data is copied from
  a window with unread bytes after the transmit buffer has been set up, so that the window
  is filled from the read position over again. The reply is right exactly if there are at
  most 14 bytes of data, or they repeat themselves (`EthRx.EchoWithoutChecksum`; for any
  window, `EthRx.RxWindow.CopyRxTx` and `EthRx.RxWindow.LoadRxBuff`).
- Pushing back a byte other than the one last read puts it into the window
  (`EthRx.RxWindow.UngetByte`), and truncating to a length whose sum with the position
  overflows 16 bits leaves the end of the data behind the position
  (`EthRx.RxWindow.TruncateRxOut`).
- SLIP frames beginning with `A` or `+` go to the modem handler, and frames longer than
  1006 bytes are cut (`Slip.RoundTrip`).
- `in_limits` is interval membership only for intervals shorter than 2^31
  (`Words.InLimitsExact`).

## Model

| member | source | states |
|---|---|---|
| Words.InLimitsExact | tcplean/source/NETUTIL.C:386-393 | for given limits, the signed-difference test agrees with circular-interval membership for every 32-bit value if and only if the interval is shorter than 2^31 |
| Words.InLimitsShortArc | tcplean/source/NETUTIL.C:386-393 | on an interval shorter than 2^31 the test accepts a value exactly when it lies on the arc |
| Words.InLimitsPositions | tcplean/source/NETUTIL.C:386-393 | on unwrapped positions less than 2^31 apart, an acknowledgement is accepted exactly when it lies between the two limits |
| Words.AndMask | tcplean/source/NETUTIL.C:398 | masking with a power of two less one is the remainder |
| BuffRuns.RunIsStream | tcplean/source/NETUTIL.C:417-534 | for any interleaving of operations from an empty buffer anywhere in the 32-bit range: bytes come out once and in order, the buffer holds exactly those accepted and not yet removed (at most its length less one), and all three pointers are the stream positions wrapped to 32 bits |
| RingBuff.CBuff.constructor | tcplean/source/NETUTIL.H:46-53 | a new buffer is empty and holds one byte less than its array |
| RingBuff.CBuff.Dlen | tcplean/source/NETUTIL.C:396-399 | the masked pointer difference is the number of bytes held |
| RingBuff.CBuff.UntriedLen | tcplean/source/NETUTIL.C:401-404 | the masked pointer difference is the number of bytes not yet tried |
| RingBuff.CBuff.TryLen | tcplean/source/NETUTIL.C:406-409 | the masked pointer difference is the number of bytes tried and not removed |
| RingBuff.CBuff.FreeLen | tcplean/source/NETUTIL.C:411-414 | the room left, the array being one byte larger than the capacity |
| RingBuff.CBuff.SetAll | tcplean/source/NETUTIL.C:417-420 | the buffer becomes empty at the given position |
| RingBuff.CBuff.Retry | tcplean/source/NETUTIL.C:423-428 | the tried index goes back by at most what has been tried, and says how far |
| RingBuff.CBuff.In | tcplean/source/NETUTIL.C:456-470 | the two-segment copy appends as much of the data as fits and nothing else changes; the count is what fitted |
| RingBuff.CBuff.Try | tcplean/source/NETUTIL.C:500-514 | hands out the next untried bytes, which stay in the buffer, across the end of the array and across 2^32 |
| RingBuff.CBuff.Out | tcplean/source/NETUTIL.C:518-534 | removes and hands out the oldest bytes; the trial pointer is lifted to the output pointer exactly when it has been passed |
| RingBuff.CBuff.TrialBehind | tcplean/source/NETUTIL.C:531-532 | comparing untried length with data length detects exactly a trial pointer left behind |
| RingBuff.CBuff.Release | tcplean/source/TCP.C:422-424 | moving the output pointer to an acknowledged position removes that many tried bytes |
| RingBuff.CBuff.RetryAll | tcplean/source/TCP.C:663 | moving the trial pointer to the output pointer is a retry of everything |
| RingBuff.CBuff.ChrLen | tcplean/source/NETUTIL.C:541-557 | the first position of a byte among the bytes held, found in two segments; 0 if there is none |
| RingBuff.CBuff.Masked | tcplean/source/NETUTIL.C:460 | truncating a pointer to 16 bits and masking it finds its place in the array |
| RingBuff.CBuff.FindIn | tcplean/source/NETUTIL.C:546-556 | the two searches find the first position in both pieces together |
| RingBuff.CBuff.CopyIn | tcplean/source/NETUTIL.C:462-467 | the two copies leave the array with the data written from the index on, going round |
| RingBuff.CBuff.CopyOut | tcplean/source/NETUTIL.C:507-511 | the two copies read the bytes from the index on, going round |
| RingBuff.PutRepresents | tcplean/source/NETUTIL.C:461-468 | array and pointers after an input represent the appended contents |
| RingBuff.TryRepresents | tcplean/source/NETUTIL.C:505-512 | the bytes at the trial pointer are the untried bytes, and advancing it is trying them |
| RingBuff.OutRepresents | tcplean/source/NETUTIL.C:522-532 | the bytes at the output pointer are the oldest, and advancing it removes them |
| CircBuff.TruncatedPlace | tcplean/source/NETUTIL.C:460 | truncating a pointer to 16 bits before masking it does not change its place |
| CircBuff.PlaceAdvance | tcplean/source/NETUTIL.C:460 | advancing a pointer, also past 2^32, advances its place in the array |
| CircBuff.PointerGap | tcplean/source/NETUTIL.C:396-409 | the masked, wrapped difference of two pointers into one buffer is the true difference |
| Scratchp.ScratchpNode.DoScratchp | tcplean/source/SCRATCHP.C:331-570 | one call of the connection state machine in the Idle, Open, Connected and Close states, for the signals that belong to a connection: node and packet out are those of the step function |
| Scratchp.ScratchpNode.DoConnected | tcplean/source/SCRATCHP.C:473-554 | the connected state, signal by signal |
| Scratchp.ScratchpNode.CheckReceived | tcplean/source/SCRATCHP.C:493-519 | received data and acknowledgement: what is stored, released, forced or refused |
| Scratchp.ScratchpNode.CheckTransmit | tcplean/source/SCRATCHP.C:521-529 | what is sent under the window, and when an empty packet is forced; this replaces a packet already made |
| Scratchp.ScratchpNode.DoTransfer | tcplean/source/SCRATCHP.C:486-532 | timeout, reception and transmission together |
| Scratchp.ScratchpNode.Reply | tcplean/source/SCRATCHP.C:534-551 | a packet without data, and a change of state |
| Scratchp.ScratchpNode.MakeScratchp | tcplean/source/SCRATCHP.C:812-842 | sequence and acknowledgement are the trial and input pointers |
| ScratchpNet.StreamSafety | tcplean/source/SCRATCHP.C:486-532 | in every state of every run of two connected nodes over a network that loses, duplicates and reorders, in both directions at once, what a node has accepted is a prefix of what its peer put in, and what its application has read is a prefix of that |
| ScratchpNet.RetentionAndWindow | tcplean/source/SCRATCHP.C:505-528 | out <= peer in <= highest trial <= in; the buffer holds everything from out on; the tried amount never exceeds the window, so the 16-bit window left never underflows |
| ScratchpNet.RunKeeps | tcplean/source/SCRATCHP.C:331-570 | the two-node invariant holds along every run |
| ScratchpNet.ActKeeps | tcplean/source/SCRATCHP.C:331-570 | every action of a node keeps the invariant, whatever packet arrives in whatever state |
| ScratchpNet.StepEffect | tcplean/source/SCRATCHP.C:331-570 | all a call can do to the two buffers and to the packet it makes |
| ScratchpNet.AckPosition | tcplean/source/SCRATCHP.C:505-507 | an acknowledgement removes exactly the bytes up to its unwrapped position |
| ScratchpNet.DataPosition | tcplean/source/SCRATCHP.C:497-499 | data is accepted only at the receiver's own unwrapped position |
| ScratchpNet.StampCarries | tcplean/source/SCRATCHP.C:526-527 | a packet made from bytes on trial carries a piece of the stream at its stamped position |
| ScratchpNet.ConnectionWorks | tcplean/source/SCRATCHP.C:486-532 | from any connection there is a run that delivers any given bytes that fit a packet |
| ScratchpNet.ConnectionGood | tcplean/source/SCRATCHP.C:401-409 | two matched connected nodes satisfy the invariant |
| ScratchpOpen.OpensMatched | tcplean/source/SCRATCHP.C:331-532 | whatever the answerer has sent since its answer, repeated STARTs answered included: of all packets it has made, one that opens the opener's side leaves both streams as they should be if and only if it stands at the start of the answerer's stream |
| ScratchpOpen.OpenedStream | tcplean/source/SCRATCHP.C:331-532 | whichever packet it is, and in every run from then on: what the opener accepts is the answerer's stream from that packet's position, what is before it never arrives, and nothing is missing if the position is 0; the other direction is unharmed |
| ScratchpOpen.SkippingIsGood | tcplean/source/SCRATCHP.C:401-457 | counting what was skipped as received, both streams satisfy the invariant of connected nodes |
| ScratchpOpen.SkippedRemoved | tcplean/source/SCRATCHP.C:503-519 | the acknowledgement sent on opening has what was skipped removed, if the answerer's trial pointer is not before it; otherwise it closes the connection with an error |
| ScratchpOpen.AgainKeeps | tcplean/source/SCRATCHP.C:482-484 | a START that comes again, before or after the opening, keeps the invariant |
| ScratchpOpen.AnswerOpens | tcplean/source/SCRATCHP.C:401-457 | when the answer to a START packet is the first thing the opener gets, every run from then on keeps both streams |
| ScratchpOpen.AnsweredAgain | tcplean/source/SCRATCHP.C:482-484 | a START that comes again is answered at the trial pointer, which opens the opener's side soundly if and only if nothing is on trial by then |
| ScratchpOpen.OpeningCanLoseData | tcplean/source/SCRATCHP.C:331-532 | with two packets lost, 994 bytes of the answerer's stream are acknowledged and removed and never arrive, without an error on either side |
| ScratchpOpen.RequestAnswered | tcplean/source/SCRATCHP.C:401-409 | an idle node answers a START: both its streams start at the two distinctive numbers |
| ScratchpOpen.Opened | tcplean/source/SCRATCHP.C:452-457 | the opener starts its receive side at the number of the packet that opens it, whatever that is |
| ScratchpAnswers.GoesOn | tcplean/source/SCRATCHP.C:486-519 | a connection goes on if and only if the packet begins at most 3000 bytes behind the receive position and acknowledges no more than is on trial |
| ScratchpAnswers.DataTaken | tcplean/source/SCRATCHP.C:497-499 | data at the receive position is taken as far as it fits, and nothing else is |
| ScratchpAnswers.AcknowledgedRemoved | tcplean/source/SCRATCHP.C:505-509 | an acknowledgement of bytes on trial removes exactly those; any other nothing |
| ScratchpAnswers.RepeatAnswered | tcplean/source/SCRATCHP.C:500-501 | a repeat is answered with the acknowledgement that its sender has missed |
| ScratchpAnswers.HalfWindowAnswered | tcplean/source/SCRATCHP.C:510-512 | half a window of unacknowledged bytes is answered |
| ScratchpAnswers.ErrorTold | tcplean/source/SCRATCHP.C:513-529 | a packet that does not fit is answered with an error if and only if there is nothing else to send at the time |
| ScratchpAnswers.SendsWhatMayGo | tcplean/source/SCRATCHP.C:521-529 | without being forced exactly what has not been tried goes out, up to a packetful and to what the window leaves, from the trial position |
| ScratchpAnswers.TimeoutRepeats | tcplean/source/SCRATCHP.C:486-529 | a timeout sends the oldest bytes again, or an empty packet |
| ScratchpAnswers.LostAckMadeGood | tcplean/source/SCRATCHP.C:486-529 | from any state of a connection in which an acknowledgement is missing: timeout, answer to the repeat, and its arrival leave nothing unacknowledged |
| ScratchpAnswers.AheadCloses | tcplean/source/SCRATCHP.C:497-519 | data from ahead of the receive position closes the connection |
| ScratchpAnswers.LossCloses | tcplean/source/SCRATCHP.C:486-529 | of two packets sent one after the other, losing the first closes the connection when the second arrives |
| ScratchpAnswers.LateAckCloses | tcplean/source/SCRATCHP.C:486-519 | so does an acknowledgement of more than has been sent again since a timeout |
| ScratchpAnswers.StopAnswered | tcplean/source/SCRATCHP.C:411-561 | a STOP ends a connection in any state, and is answered exactly once |
| ScratchpAnswers.ErrorObeyed | tcplean/source/SCRATCHP.C:464-561 | an error ends it without an answer |
| ScratchpAnswers.BothClose | tcplean/source/SCRATCHP.C:534-563 | one STOP and its answer close both sides |
| ScratchpAnswers.HalfOpenEnds | tcplean/source/SCRATCHP.C:411-415 | a node whose peer has lost the connection finds out when it next sends |
| ScratchpAnswers.ClosesOnlyWhenAnswered | tcplean/source/SCRATCHP.C:555-568 | a node that is closing leaves that state for a STOP or an error, and for nothing else: it does not give up |
| ScratchpAnswers.AsksAgain | tcplean/source/SCRATCHP.C:468-566 | what a node that is opening or closing asks for again at a timeout |
| ScratchpAnswers.GivesUp | tcplean/source/SCRATCHP.C:472-551 | giving up ends a connection or an opening, and tells the peer of a connection |
| ScratchpAnswers.UserCloses | tcplean/source/SCRATCHP.C:534-537 | the user closes a connection, and only that |
| ScratchpAnswers.OpensOnly | tcplean/source/SCRATCHP.C:452-457 | what opens a node that has asked for a connection |
| Tcp.TSock.TsockRx | tcplean/source/TCP.C:404-598 | one call with or without a segment: socket and segment out are those of the step function, in every state |
| Tcp.TSock.ReadHeader | tcplean/source/TCP.C:414-425 | header values are noted; a reset changes the state; an acknowledgement within limits releases its bytes |
| Tcp.TSock.RxClosed | tcplean/source/TCP.C:429-447 | passive open, refusal by the application, or a reset |
| Tcp.TSock.RxSynRcvd | tcplean/source/TCP.C:449-460 | the handshake completes, or the SYN is answered again |
| Tcp.TSock.RxEst | tcplean/source/TCP.C:463-492 | data, the peer's FIN, and the application's wish to close |
| Tcp.TSock.RxCloseWait | tcplean/source/TCP.C:495-503 | after the peer's FIN |
| Tcp.TSock.RxActClose | tcplean/source/TCP.C:551-562 | an active close sends its FIN once the buffer is empty |
| Tcp.TSock.RxFinWait1 | tcplean/source/TCP.C:564-576 | FIN, acknowledgement of the FIN, or both |
| Tcp.TSock.TsockEstabRx | tcplean/source/TCP.C:601-633 | only the new part of a segment is stored, as much as fits |
| Tcp.TSock.TsockEstabTx | tcplean/source/TCP.C:637-652 | when a segment is sent and how much it carries |
| Tcp.TSock.MakeSockTcp | tcplean/source/TCP.C:115-137 | sequence and acknowledgement are the buffer pointers, stepped over SYN and FIN |
| Tcp.TSock.SeqAndAck | tcplean/source/TCP.C:125-132 | the two values, state by state |
| Tcp.TSock.EnterState | tcplean/source/TCP.C:388-399 | timer and retries start again |
| Tcp.TSock.RemakeTsock | tcplean/source/TCP.C:655-669 | the last transmission is made again; data from the oldest unacknowledged byte |
| Tcp.TSock.OnTimeout | tcplean/source/TCP.C:366-378 | retry, or close and send a reset |
| Tcp.TSock.TcpPoll | tcplean/source/TCP.C:353-384 | one socket polled |
| Tcp.TSock.MsTimeout | tcplean/source/NETUTIL.C:625-640 | whatever the true times, of which 32 bits are kept: it fires exactly if the interval has passed (or is none), up to 2^31 ms apart, and then stores the time |
| Tcp.ElapsedExactly | tcplean/source/NETUTIL.C:631-633 | the signed 32-bit difference is the time that has passed if and only if that is less than 2^31 ms |
| Tcp.TSock.DoUpcall | tcplean/source/TCP.C:453-457 | the application takes and puts bytes, and may ask for the push flag |
| Tcp.TSock.OpenTransmit | tcplean/source/TCP.C:527-529 | the transmit side starts at the clock's number |
| Tcp.TSock.OpenReceive | tcplean/source/TCP.C:432-432 | the receive side starts after the peer's SYN |
| Tcp.TSock.OpenTcp | tcplean/source/TCP.C:54-66 | a closed socket starts to open |
| Tcp.TSock.CloseTcp | tcplean/source/TCP.C:69-74 | an open socket starts to close |
| Tcp.TSock.ResetTcp | tcplean/source/TCP.C:77-81 | an open socket sends a reset |
| Tcp.TSock.ArpReceive | tcplean/source/TCP.C:293-311 | for one socket: an ARP reply from its peer, while it waits for one, gives it the peer's Ethernet address and sends its SYN; any other changes nothing |
| TcpLink.NewPartIsNext | tcplean/source/TCP.C:612-628 | the part of a segment taken for new is the next piece of the peer's stream |
| TcpLink.AckPosition | tcplean/source/TCP.C:422-424 | an acknowledgement accepted is one of bytes on trial that the peer has stored |
| TcpLink.MakeMade | tcplean/source/TCP.C:115-137 | every segment made is a piece of the stream at its stamped position and acknowledges no more than has been stored |
| TcpLink.FinPosition | tcplean/source/TCP.C:466-466 | a FIN is accepted only when everything before it has been |
| TcpStates.SockRxKeeps | tcplean/source/TCP.C:404-598 | in every state, whatever arrives, the links between the two sockets are kept |
| TcpStates.HeaderKeeps | tcplean/source/TCP.C:414-425 | reading a header keeps the links |
| TcpStates.EstKeeps | tcplean/source/TCP.C:463-492 | the established state keeps the links |
| TcpStates.ClosedKeeps | tcplean/source/TCP.C:429-447 | a closed socket that gets a segment keeps the links |
| TcpStates.SynSentKeeps | tcplean/source/TCP.C:537-548 | the end of an active open keeps the links: the peer's initial number is taken over |
| TcpStates.FinWait1Keeps | tcplean/source/TCP.C:564-576 | half-closed states keep the links |
| TcpNet.StreamSafety | tcplean/source/TCP.C:404-669 | over the whole life of one connection, in every state of every run with loss, duplication, reordering, timeouts, closes and resets, in both directions, what is accepted is a prefix of what the peer put in and what is read a prefix of that |
| TcpNet.OpenAgreement | tcplean/source/TCP.C:429-460 | a socket whose receive side is open starts it exactly where its peer's transmit side starts, in particular when both are established |
| TcpNet.SynTakesOneNumber | tcplean/source/TCP.C:125-126 | every SYN in flight carries the number just before its sender's first byte |
| TcpNet.Retention | tcplean/source/TCP.C:422-424 | out <= peer in <= highest trial <= in, and the buffer holds everything from out on: no byte is dropped before the peer has stored it |
| TcpNet.FinSafety | tcplean/source/TCP.C:462-597 | a FIN is accepted only after it was sent, and with exactly the bytes before the place it stands at, the sender's trial position; in the states of an active close that is all that was sent |
| TcpFin.FinStaysInRun | tcplean/source/TCP.C:404-669 | from when a socket has sent its FIN, the FIN stays at its place and no more is sent, for the rest of any run |
| TcpFin.FinStays | tcplean/source/TCP.C:404-669 | the same for one action |
| TcpFin.AnswerCovers | tcplean/source/TCP.C:466-501 | the FIN that answers the peer's stands at the trial position, so that it does not cover what was sent beyond it |
| TcpFin.FinCanFallShort | tcplean/source/TCP.C:655-669 | a run from any two unused sockets in which it does not: 1461 bytes have been sent, and the peer accepts the FIN after 1460 |
| TcpNet.RunKeeps | tcplean/source/TCP.C:353-669 | the two-socket invariant holds along every run |
| TcpNet.ActKeeps | tcplean/source/TCP.C:353-669 | every action of a socket keeps its half of the invariant |
| TcpNet.PollKeeps | tcplean/source/TCP.C:353-384 | polling keeps it, with or without a timeout |
| TcpNet.RemakeKeeps | tcplean/source/TCP.C:655-669 | retransmission keeps it |
| TcpOpen.ConnectionWorks | tcplean/source/TCP.C:429-548 | from any two unused sockets there is a run that opens the connection and delivers any given bytes that fit a segment, and has them acknowledged |
| TcpAnswers.DataAnswered | tcplean/source/TCP.C:463-492 | an established socket answers every segment with data, new, repeated, from ahead, or too much; the answer acknowledges exactly what has been stored |
| TcpAnswers.ReplyAsked | tcplean/source/TCP.C:629-631 | taking data asks for a reply exactly if it is pushed, begins behind the receive position, or leaves more than half a window unread |
| TcpAnswers.RefusalAnswered | tcplean/source/TCP.C:481-489 | one that the application refuses is answered too, and the socket begins to close |
| TcpAnswers.AcknowledgedRemoved | tcplean/source/TCP.C:422-424 | an acknowledgement removes exactly the bytes on trial that it covers |
| TcpAnswers.FinAnswered | tcplean/source/TCP.C:463-478 | the peer's FIN in sequence is answered with ours or acknowledged, as the application wishes, after all data |
| TcpAnswers.ResetCloses | tcplean/source/TCP.C:420-421 | a reset closes from any state and is not answered |
| TcpAnswers.ClosedAnswers | tcplean/source/TCP.C:429-447 | a closed socket opens for a SYN, at the number after its own, or refuses with the numbers that its sender accepts |
| TcpAnswers.SynRcvdAnswers | tcplean/source/TCP.C:449-460 | exactly which segment opens a half-open socket, and that a repeated SYN is answered again |
| TcpAnswers.DataDoesNotOpen | tcplean/source/TCP.C:449-460 | the end of the handshake is not recognised in a segment with new data: the socket stores it and stays half open, silent |
| TcpAnswers.Calls | tcplean/source/TCP.C:526-535 | the SYN of an active open has the number before the first byte's |
| TcpAnswers.SynSentAnswers | tcplean/source/TCP.C:537-548 | exactly which answer opens the socket; anything else is refused |
| TcpAnswers.CloseWaitAnswers | tcplean/source/TCP.C:495-503 | after the peer's FIN data is no longer taken, and ours goes out when the application agrees |
| TcpAnswers.LastAckAnswers | tcplean/source/TCP.C:505-508 | only a bare acknowledgement from after the peer's FIN closes |
| TcpAnswers.ActCloseAnswers | tcplean/source/TCP.C:551-562 | our FIN goes out exactly when all data has been acknowledged |
| TcpAnswers.FinWait1Answers | tcplean/source/TCP.C:564-576 | the peer's FIN with or without its acknowledgement of ours, or that alone: four outcomes |
| TcpAnswers.FinWait2Answers | tcplean/source/TCP.C:578-585 | half closed, data is taken and the peer's FIN acknowledged |
| TcpAnswers.PassesOn | tcplean/source/TCP.C:510-597 | what the remaining states do when nothing arrives |
| TcpAnswers.SendsWhatMayGo | tcplean/source/TCP.C:637-652 | exactly when an established socket sends, how much, and from where |
| TcpAnswers.TimeoutRepeats | tcplean/source/TCP.C:366-378 | a timeout sends the oldest data again, doubles the interval and uses a retry |
| TcpAnswers.TimeoutRemakes | tcplean/source/TCP.C:655-669 | in the other states it makes the last segment again with the same numbers |
| TcpAnswers.TimeoutCloses | tcplean/source/TCP.C:373-377 | with no retries left the socket closes and says so |
| TcpAnswers.NotYet | tcplean/source/TCP.C:363-383 | before its interval has passed, on true times up to 2^31 ms apart, a socket only sends what it may |
| TcpAnswers.UserCloses | tcplean/source/TCP.C:69-74 | a connection, or a half-open one, begins to close; anything else stays as it is |
| TcpAnswers.UserResets | tcplean/source/TCP.C:77-81 | a reset is sent from anything but a closed socket |
| TcpPoll.SilentPeer | tcplean/source/TCP.C:353-384 | a socket in any state, polled at bounded intervals and receiving nothing, is closed after 62000 ms (and five polling gaps) for each state still to come |
| TcpPoll.TimeoutsBounded | tcplean/source/TCP.C:366-378 | every run of polls has at most five timeouts for each state, whatever the clock: each is paid for by a retry or a step to a lower state |
| TcpPoll.QuietPoll | tcplean/source/TCP.C:404-598 | a poll without timeout leaves the timer alone or moves to a lower state |
| TcpPoll.TimeoutPoll | tcplean/source/TCP.C:366-378 | a timeout uses a retry and doubles the interval, or closes |
| TcpPoll.AlwaysTimed | tcplean/source/TCP.C:388-399 | in every run of two sockets both timers are as the termination result asks |
| Checksum.Csum | tcplean/source/NETUTIL.C:560-574 | the word sum with an odd byte, folded, is the canonical residue of the sum, and the 32-bit accumulator never overflows for any 16-bit count |
| Checksum.CanonIsResidue | tcplean/source/NETUTIL.C:560-574 | the checksum is the residue modulo 65535, zero only for data that is all zero |
| Checksum.ByteOrderAgreement | tcplean/source/NETUTIL.C:560-599 | summing in the two byte orders gives the same checksum byte-swapped, for odd and even lengths |
| Checksum.SealVerifies | tcplean/source/IP.C:188-189 | whatever is sealed with the complement of its checksum verifies, together with anything else that is summed |
| Checksum.ByteChangeDetected | tcplean/source/IP.C:130-132 | data that verifies no longer does after any one byte is changed |
| Checksum.SealIp | tcplean/source/IP.C:176-189 | the header that is made verifies |
| Checksum.CheckIp | tcplean/source/IP.C:129-132 | a header is accepted exactly for version, length and checksum |
| Checksum.HeaderByteDetected | tcplean/source/IP.C:129-132 | an accepted header without options is refused with any one byte changed, except for its length nibble |
| Checksum.LengthUndetected | tcplean/source/IP.C:129-132 | with that changed it may be accepted: whatever the header, if certain bytes follow it |
| Checksum.ShortRefused | tcplean/source/IP.C:129-132 | a packet shorter than a header, or than its header says, is refused |
| Checksum.IpHeaderAccepted | tcplean/source/IP.C:129-189 | every header made is accepted, with its fields as they were |
| Checksum.SealIcmp | tcplean/source/IP.C:348-364 | the message that is made verifies |
| Checksum.CheckIcmp | tcplean/source/IP.C:330-346 | which messages are accepted, and their data length |
| Checksum.CheckTcp | tcplean/source/TCP.C:190-203 | two checksums and one fold give the canonical residue of segment and pseudo-header |
| Checksum.OneFold | tcplean/source/TCP.C:202 | the sum of two checksums needs only one fold |
| Checksum.PseudoHeaderSum | tcplean/source/TCP.C:190-203 | what is summed with a segment is the two addresses, the protocol and the length |
| Checksum.PseudoByteDetected | tcplean/source/TCP.C:190-203 | a segment that verifies does not with any one byte of these, or of itself, changed |
| Checksum.SealTcp | tcplean/source/TCP.C:144-169 | the segment that is made verifies with its pseudo-header |
| PicSum.TwoImplementationsAgree | ChipWeb/P16Web/p16_drv.c:195-216 | the byte-serial sum and the word sum of the same bytes are byte-swaps of each other, and verify together |
| PicSum.Summer.CheckByte | ChipWeb/P16Web/p16_drv.c:195-216 | one byte with end-around carry is addition modulo 65535 at the byte's weight |
| PicSum.Summer.CheckData | ChipWeb/P16Web/p16_drv.c:234-238 | any bytes, starting in either half of a word |
| PicSum.Summer.PutIp | ChipWeb/P16Web/p16_ip.c:219-242 | the bytes sent are the header with the complement of the sum of everything else, although putting its first byte alters the running sum |
| PicSum.EmittedAccepted | ChipWeb/P16Web/p16_ip.c:163-242 | every header sent sums to 0xffff, and is accepted where it is addressed to exactly if it announces data |
| PicSum.EmittedSays | ChipWeb/P16Web/p16_ip.c:219-242 | the header's bytes are its fields, by their places in the standard |
| PicSum.AcceptedOnlyThere | ChipWeb/P16Web/p16_ip.c:163-182 | a header is accepted by the node that it is addressed to, by all if it is a broadcast, and by no other |
| PicSum.PingAnswered | ChipWeb/P16Web/p16_ip.c:186-216 | exactly which messages are answered, and that the reply differs in type and checksum only |
| PicSum.Summer.IpRecv | ChipWeb/P16Web/p16_ip.c:163-182 | which headers are accepted, and what follows them cut to the length they announce |
| PicSum.Summer.IcmpRecv | ChipWeb/P16Web/p16_ip.c:186-216 | which requests are answered, and with what |
| PicSum.AdjustedVerifies | ChipWeb/P16Web/p16_ip.c:204-208 | the incremental update leaves the message's sum the same |
| PicSum.ReplyVerifies | ChipWeb/P16Web/p16_ip.c:198-209 | every reply verifies |
| Fcs16.PppCrc16 | ChipWeb/P16Web/p16_ppp.c:963-976 | the bit loop runs the check register over the byte's bits, lowest first |
| Fcs16.BurstDetected | ChipWeb/P16Web/p16_ppp.c:963-976 | any burst error of at most 16 bits, in a frame of any length, changes the check value |
| Fcs16.TwoBytesDetected | ChipWeb/P16Web/p16_ppp.c:912 | changing one byte or two adjacent bytes always changes the check value |
| Fcs16.Window | ChipWeb/P16Web/p16_ppp.c:963-976 | from any register value, up to 16 bits are told apart |
| Fcs16.StepKeeps | ChipWeb/P16Web/p16_ppp.c:963-976 | a step is injective in the register |
| Fcs16.SealedResidue | ChipWeb/P16Web/p16_ppp.c:872-875 | the complement of the check value, low byte first, always leaves the residue 0xf0b8 |
| Ppp.RoundTrip | ChipWeb/P16Web/p16_ppp.c:831-959 | any list of packets sent one after the other is delivered in order, each once, cut to what the receive buffer holds |
| Ppp.DeliveredWhole | ChipWeb/P16Web/p16_ppp.c:953-957 | a packet arrives whole if and only if its payload is at most 122 bytes |
| Ppp.StuffedSafe | ChipWeb/P16Web/p16_ppp.c:831-844 | no control character and no framing byte goes out inside a frame |
| Ppp.StuffedOnlyUnsafe | ChipWeb/P16Web/p16_ppp.c:831-844 | a frame goes out as it is if and only if it has no such byte and no escape; each of them makes it one byte longer |
| Ppp.FramedAtTheEnds | ChipWeb/P16Web/p16_ppp.c:847-877 | the framing byte stands at the two ends of a frame on the line and nowhere else |
| Ppp.FrameSays | ChipWeb/P16Web/p16_ppp.c:847-877 | a frame begins with address, control and protocol, high byte first |
| Ppp.MessageEnds | ChipWeb/P16Web/p16_ppp.c:928-932 | between frames, text up to a return or a new line is a modem message, whose length is noted |
| Ppp.CallEnds | ChipWeb/P16Web/p16_ppp.c:933-937 | so is the connection message of a host without a modem |
| Ppp.PlusPlusPlus | ChipWeb/P16Web/p16_ppp.c:938-950 | three plus signs one after the other are a message, whose length does not count the third; fewer are not |
| Ppp.LineIn | ChipWeb/P16Web/p16_ppp.c:889-959 | any bytes framed behind the start byte are delivered exactly if their check value is right |
| Ppp.DamagedNotDelivered | ChipWeb/P16Web/p16_ppp.c:908-919 | a frame with a burst error of at most 16 bits after its start byte is not delivered |
| Ppp.ChangedNotDelivered | ChipWeb/P16Web/p16_ppp.c:908-919 | nor is one with one or two adjacent bytes changed |
| Ppp.BodyIn | ChipWeb/P16Web/p16_ppp.c:898-907 | the receiver undoes the stuffing and keeps the check value |
| Ppp.Transmitter.Transmit | ChipWeb/P16Web/p16_ppp.c:847-877 | the bytes put on the line for a packet |
| Ppp.Transmitter.SendPppByte | ChipWeb/P16Web/p16_ppp.c:831-844 | one byte, escaped if need be |
| Ppp.Receiver.PollNet | ChipWeb/P16Web/p16_ppp.c:889-959 | one serial byte: flags, escapes, modem messages, saving, delivery |
| Slip.RoundTrip | tcplean/source/NET.C:454-520 | of any list of frames, those not empty and not beginning like a modem command come out in order, each up to the buffer's length |
| Slip.SoundFramesArrive | tcplean/source/NET.C:454-520 | frames of 1 to 1006 bytes that begin with neither A nor + come out exactly as sent |
| Slip.PassedWhole | tcplean/source/NET.C:484-489 | a frame comes out as it went in if and only if it is such a frame |
| Slip.PutSlip | tcplean/source/NET.C:495-520 | the bytes put on the line for a frame |
| Slip.Receiver.ReceiveSlip | tcplean/source/NET.C:454-492 | receiving what is waiting, in whatever portions it comes, is running the decoder over it |
| Slip.LineIn | tcplean/source/NET.C:454-492 | one framed frame, into an idle receiver |
| PktQueue.QueueIsFifo | tcplean/source/NET.C:226-395 | whatever arrives and however it is fetched: the buffer is never found corrupt, every header is read at a frame boundary, and frames come out in the order they were accepted |
| PktQueue.Places | tcplean/source/NET.C:226-282 | frames delivered are frames accepted, at increasing places |
| PktQueue.AllDelivered | tcplean/source/NET.C:243-271 | if any driver type is taken, everything removed is delivered |
| PktQueue.TransmitIsFifo | tcplean/source/NET.C:288-395 | on the transmit side, whatever is put and whichever drivers ask: frames are taken in the order they were accepted, each once, by a driver of their type, cut to its length, and the buffer holds those not yet taken |
| PktQueue.HeadBlocks | tcplean/source/NET.C:372-395 | as long as no driver asks for the first frame's type, nothing behind it is taken |
| PktQueue.GetNetMeans | tcplean/source/NET.C:226-282 | the first frame is removed, and delivered if its type matches; the buffer is not found corrupt |
| PktQueue.TransmitUpcallMeans | tcplean/source/NET.C:372-395 | the first frame is removed, cut to the driver's length, or on a mismatch the buffer is left exactly as it was |
| PktQueue.ReceiveUpcallMeans | tcplean/source/NET.C:351-370 | a frame is appended whole or not at all |
| PktQueue.PutNetMeans | tcplean/source/NET.C:302-320 | any frame, cut to 1514 bytes, is appended whole or not at all |
| PktQueue.Queues.GetFrame | tcplean/source/NET.C:226-282 | the bytes taken off the receive buffer, and the header fields the caller gets |
| PktQueue.Queues.RxUpcall | tcplean/source/NET.C:351-370 | the bytes put on it |
| PktQueue.Queues.TxPut | tcplean/source/NET.C:302-320 | the bytes put on the transmit buffer, for a frame of any length |
| PktQueue.Queues.TxUpcall | tcplean/source/NET.C:372-395 | the bytes tried, removed or pushed back, from any buffer |
| FileXfer.FileArrives | tcplean/source/SCRATCHP.C:690-720 | whatever pieces a file's blocks arrive in, what has been written is a prefix of the file, all of it once it is closed, and it is closed when all blocks are in |
| FileXfer.EndToEnd | tcplean/source/SCRATCHP.C:690-736 | over any prefix-preserving stream, from the sender's file to the receiver's |
| FileXfer.SenderPutsFile | tcplean/source/SCRATCHP.C:720-736 | however the buffer empties, the sender puts in exactly the file's blocks |
| FileXfer.SendBlockWhole | tcplean/source/SCRATCHP.C:722-733 | no block is cut short for want of room |
| FileXfer.SendFills | tcplean/source/SCRATCHP.C:720-736 | the sender stops only at the end of the file or for want of room for a whole block |
| FileXfer.ReceiveConsumes | tcplean/source/SCRATCHP.C:692-719 | the loop takes all complete blocks and always leaves the trial pointer at the output pointer |
| FileXfer.ConsumeInPieces | tcplean/source/SCRATCHP.C:692-719 | taking blocks in two goes is taking them at once |
| FileXfer.SecondNull | tcplean/source/SCRATCHP.C:703-712 | whatever part of a file's blocks is in: a write error is counted exactly if the file's length is a multiple of 255 and all its blocks are in, so that the second null is taken |
| FileXfer.ErrorExactly | tcplean/source/SCRATCHP.C:690-720 | in any run of the receiver it has counted a write error exactly if the file is such a file and it has taken all its blocks |
| FileXfer.SecondNullLate | tcplean/source/SCRATCHP.C:690-720 | when only the second null is missing, the file is closed without an error and the second null is not taken when it comes |
| FileOverNet.FileOverStream | tcplean/source/SCRATCHP.C:486-736 | over the network that loses, duplicates and reorders: what b can make of the bytes that have reached it, behind any others such as a command, is a prefix of a's file, the whole file once it is closed, and it is closed when everything has arrived |
| FileOverNet.FileTransferred | tcplean/source/SCRATCHP.C:486-736 | with the sender's and the receiver's loops on the buffers of the two nodes, in every run from any state of a connection: the receiver's file is a prefix of the sender's, whole once closed, and closed by the next call when everything has arrived |
| FileOverNet.SendGood | tcplean/source/SCRATCHP.C:720-736 | the sender's loop keeps the invariant of the two connected nodes |
| FileOverNet.ReceiveIsOut | tcplean/source/SCRATCHP.C:692-719 | the receiver's loop takes bytes off its node's buffer as one output of so many would |
| FileXfer.Applications.SendFile | tcplean/source/SCRATCHP.C:720-736 | the sender's loop |
| FileXfer.Applications.ReceiveFile | tcplean/source/SCRATCHP.C:690-719 | the receiver's loop |
| IpFrag.IpMaker.MakeIp | tcplean/source/IP.C:152-194 | the frame buffer holds the whole datagram, or the two fragments in frame and sub-frame, with the same ident |
| IpFrag.IpMaker.MakeSub | tcplean/source/IP.C:166-174 | the rest of the payload is moved and made into the sub-frame; the first part stays |
| IpFrag.IpMaker.Finish | tcplean/source/IP.C:175-193 | header and checksum |
| IpFrag.IpMaker.PutFrame | tcplean/source/NET.C:107-127 | frame and sub-frame are sent separately |
| IpFrag.LinksFit | tcplean/source/IP.C:165-169 | on Ethernet, SNAP and SLIP links two whole fragments fit the frame buffer, each fits a frame |
| IpFrag.OnTheWire | tcplean/source/IP.C:176-189 | the twenty header bytes of the datagram or of both fragments say version, length, identification, flags, offset, protocol, source and destination as they should, and the data follows |
| IpFrag.FramesCarry | tcplean/source/NET.C:107-127 | the two frames sent carry the two fragments |
| IpFrag.SendIp | tcplean/source/ROUTER.C:214-215 | make_ip and put_frame together: the frames sent carry the payload that was in the buffer, in one datagram or two |
| IpDefrag.PayloadReturns | tcplean/source/IP.C:119-264 | from payload to payload: the frames made and sent come in as a whole datagram if it fits one frame; else as two halves which, in either order and with anything in between, give the payload back exactly when the first to come has tries left |
| IpDefrag.Reassembles | tcplean/source/IP.C:218-264 | either half first, with a free slot, other datagrams' fragments and duplicates of that half in between: the payload comes back whole if and only if the waiting half has tries left; it has if fewer than eight have looked at it, and without duplicates only then |
| IpDefrag.InsideExactly | tcplean/source/IP.C:239-250 | parts that follow one another are put together inside the data area if and only if the first of them leaves room for both |
| IpDefrag.GuardIsNotEnough | tcplean/source/IP.C:239-250 | the code's guard lets parts through that reach past its end |
| IpDefrag.FramesAreHalves | tcplean/source/IP.C:152-264 | the two frames of a fragmented payload are received as its two halves |
| IpDefrag.DefragOutcome | tcplean/source/IP.C:236-264 | the length of the whole, at most 3040, exactly if the fragment meets a half of the same datagram; otherwise 0, with the data area left alone |
| IpDefrag.InvalidRefused | tcplean/source/IP.C:129-142 | packets that do not verify are not passed on |
| IpDefrag.ReceivedIs | tcplean/source/IP.C:119-147 | a datagram is received as what it is, whole or a fragment at its offset |
| IpDefrag.SecondCompletes | tcplean/source/IP.C:239-245 | the second half completes the first, in either order of offsets |
| IpDefrag.OthersPass | tcplean/source/IP.C:225-235 | each other fragment that looks at a waiting half costs it a try; duplicates cost nothing, and are stored anew when it is lost |
| IpDefrag.LeftCounts | tcplean/source/IP.C:225-235 | without duplicates, the tries left are those it had less the examinations; with them at least as many |
| IpDefrag.Reassembler.DefragIp | tcplean/source/IP.C:218-264 | the search, the merge in place, and the table, whenever nothing is written past the end of the data area |
| EthRx.RxWindow.GetByte | ChipWeb/P16Web/p16_eth.c:274-291 | returns the packet's byte at the read position and adds it to the running checksum; fails exactly at the end of the data |
| EthRx.RxWindow.UngetByte | ChipWeb/P16Web/p16_eth.c:294-303 | pushes any byte back; the window still agrees with the packet if and only if it is the byte that stands there |
| EthRx.RxWindow.SetPosRxOut | ChipWeb/P16Web/p16_eth.c:188-196 | moves anywhere up to the end of the data |
| EthRx.RxWindow.TruncateRxOut | ChipWeb/P16Web/p16_eth.c:199-207 | shortens what is left, for every length: if and only if the 16-bit sum does not overflow; if it does, the end of the data is left behind the read position |
| EthRx.RxWindow.LoadRxBuff | ChipWeb/P16Web/p16_eth.c:234-257 | from any window: how much is moved down and loaded, and what; and exactly when a window that agreed with the packet still does |
| EthRx.RxWindow.CopyRxTx | ChipWeb/P16Web/p16_eth.c:320-343 | from any window: hands on exactly the packet's next bytes, as many as are wanted, left and have room, if and only if its first turn is sound; and what the first turn puts out in any case |
| EthRx.RxWindow.CopyTurn | ChipWeb/P16Web/p16_eth.c:326-340 | one turn from any window: how many bytes are put out, and which; when the window agrees with the packet afterwards |
| EthRx.RxWindow.SoundIs | ChipWeb/P16Web/p16_eth.c:320-343 | the first turn is sound if and only if it puts out no more than is left, and only the packet's next bytes |
| EthRx.RxWindow.FillingIs | ChipWeb/P16Web/p16_eth.c:234-257 | what is in the filled buffer is the packet's next part exactly if nothing was loaded over again, or the packet repeats itself there |
| EthRx.EchoWithoutChecksum | ChipWeb/P16Web/p16_udp.c:64-80 | an echo whose sender left out the checksum: the reply has the right data if and only if that is at most 14 bytes or repeats itself 14 bytes on; from 15 to 42 bytes it is the first 14 and then the data from the beginning |
| EthRx.RxWindow.GetData | ChipWeb/P16Web/p16_drv.c:88-101 | as many of the next bytes as there are |
| EthRx.RxWindow.GetNicRxBuff | ChipWeb/P16Web/p16_eth.c:551-567 | bytes read round the ring, in one piece or two |
| EthRx.RxWindow.SetNicRx | ChipWeb/P16Web/p16_eth.c:539-548 | the address of a place in the packet, round the ring, for places in the ring |
| EthRx.RxWindow.PacketPart | ChipWeb/P16Web/p16_eth.c:539-567 | reading at that address reads that part of the packet |
| EthRx.RxWindow.InitTxBuff | ChipWeb/P16Web/p16_eth.c:175-185 | an empty transmit buffer, the window as it was |
| EthRx.RxWindow.SetPosTxIn | ChipWeb/P16Web/p16_eth.c:215-224 | the place of the next byte to be put, the window as it was |
| EthRx.RxWindow.Replay | ChipWeb/P16Web/p16_eth.c:188-343 | whole runs: under any mix of reading, pushing back the last byte, positioning, truncating, copying out and transmit-side transfers, the replies are those of a plain sequence with an index, up to the first copy for which the buffer cannot be filled |
| EthRx.NicWrapInverse | ChipWeb/P16Web/p16_eth.c:597-604 | next and previous page round the ring undo each other and agree with addresses |
| Lcp.UpAndDown | ChipWeb/P16Web/p16_ppp.c:198-245 | Up and Down strictly alternate if and only if no input repeats the actions of a flagged state; and then one more Up than Down exactly when Opened |
| Lcp.LayerSignals | ChipWeb/P16Web/p16_ppp.c:556-625 | the same from any state of a run |
| Lcp.StepSignals | ChipWeb/P16Web/p16_ppp.c:556-625 | a step signals exactly entering or leaving Opened, if and only if it does not repeat |
| Lcp.RequestsAreLimited | ChipWeb/P16Web/p16_ppp.c:565-591 | for every sequence of inputs: at most fifteen configure requests since the last rest have been counted, all others were resent; and never more than fifteen in all in the whole run if and only if no input has one more sent at the limit |
| Lcp.LimitExactly | ChipWeb/P16Web/p16_ppp.c:532-591 | from any state of a run, the limit is kept in all that follows if and only if no input passes it |
| Lcp.StepPasses | ChipWeb/P16Web/p16_ppp.c:532-591 | exactly which input takes the requests past fifteen |
| Lcp.PassesByResending | ChipWeb/P16Web/p16_ppp.c:565-591 | if nothing has been resent, only a packet that is no event can |
| Lcp.RequestsCanBeResent | ChipWeb/P16Web/p16_ppp.c:532-551 | each packet that is no event, after a request, has it sent again: the limit then fails |
| Lcp.UpCanBeRepeated | ChipWeb/P16Web/p16_ppp.c:532-551 | such a packet after the opening event signals Up again |
| Lcp.TableSound | ChipWeb/P16Web/p16_ppp.c:198-245 | every table entry is flagged up exactly if it enters Opened, down exactly if it leaves it |
| LcpMeaning.StatesMeanTheirHistory | ChipWeb/P16Web/p16_ppp.c:198-245 | for every sequence of inputs: the state says throughout whether our request and the peer's have been acknowledged, and whether the link is terminating, if and only if the peer's request is never refused while the link is open |
| LcpMeaning.UpWhenBothHold | ChipWeb/P16Web/p16_ppp.c:198-245 | Up is signalled at exactly the step at which the second acknowledgement comes to hold, in either order |
| LcpMeaning.UpAndWanted | ChipWeb/P16Web/p16_ppp.c:198-245 | for every sequence of inputs: whether the layer below is up and the link is wanted is what the last event about it said |
| LcpMeaning.OpensThoughRefused | ChipWeb/P16Web/p16_ppp.c:198-245 | a run in which the link opens although the peer's request has been refused |
| LcpMeaning.StatesFollow | ChipWeb/P16Web/p16_ppp.c:198-222 | every entry of the state table follows the rules about acknowledgements and phases, but for one |
| LcpMeaning.ActionsFollow | ChipWeb/P16Web/p16_ppp.c:223-245 | every entry of the action table has exactly the actions that are due |
| LcpMeaning.FlagsFollow | ChipWeb/P16Web/p16_ppp.c:198-222 | the started and finished flags are set exactly where they are due |
| LcpMeaning.HandleFollows | ChipWeb/P16Web/p16_ppp.c:556-591 | the handler gives the state and the actions that the rules give, one request too many counting as the final timeout, and counts requests |
| LcpMeaning.GivesUp | ChipWeb/P16Web/p16_ppp.c:375-407 | a peer that says nothing is sent fifteen requests, one at each of fourteen timeouts; then the automaton stops |
| LcpMeaning.NoTimerAfterOpen | ChipWeb/P16Web/p16_ppp.c:395-407 | after an open link is left, its timer does nothing, however often it runs out |
| LcpMeaning.ClosesInTime | ChipWeb/P16Web/p16_ppp.c:395-407 | a link closed while it negotiates is closed after two timeouts |
| LcpMeaning.TimerRuns | ChipWeb/P16Web/p16_ppp.c:395-407 | in every state that waits for an answer and is not flagged a timeout uses a retry and does what is due, or with none left comes to rest |
| LcpMeaning.RestartCounter | ChipWeb/P16Web/p16_ppp.c:594-625 | the restart counter is set when a round of requests begins, zeroed when the peer ends an open link, and left alone otherwise |
| Lcp.Automaton.LcpEventHandler | ChipWeb/P16Web/p16_ppp.c:556-591 | the event handler |
| Lcp.Automaton.DoLcpActions | ChipWeb/P16Web/p16_ppp.c:594-625 | the actions |
| Lcp.Automaton.Take | ChipWeb/P16Web/p16_ppp.c:395-407 | event, timer or other packet |

## Left out

- Scratchp.ScratchpNode.DoScratchp: does not model the IDENT state, nor in the Idle state the user's open and ident requests and the ident command and response; runs of `ScratchpNet` start connected, as `ScratchpOpen` has them begin. Command strings and the echo and directory applications are left out with them.
- Timers of SCRATCHP: a timeout is a signal that may come at any time.
- Sequence numbers of an earlier incarnation of a TCP connection, and reopening a socket that has been open.
- TCP window: no bound on what is sent is claimed when the peer's window is below the tried length and a send is forced; the cast of a negative allowance is modelled as it is.
- TCP close: LAST-ACK and CLOSING do not check the acknowledgement number, and an established socket can go to LAST-ACK with data unsent; what is claimed is `TcpNet.FinSafety` and `TcpFin.AnswerCovers`.
- Matching segments to sockets by address and port, TCP options, and ARP requests themselves; ARP replies are an action.
- The contents of the maximum-segment-size option; segments carry what follows the options.
- The array of sockets: each method of `Tcp.TSock` is for one of them.
- Checksum.CheckIp: the caller is is_ip for headers of any length, but nothing more is said of headers with options, whose length the code subtracts twice.
- IpFrag.IpMaker.MakeIp: payloads of more than two fragments are outside what the code handles; link headers are not written.
- IpDefrag.Reassembler.DefragIp: what is overwritten when the parts do not lie inside the data area is not modelled.
- PktQueue.Queues.TxPut: SNAP headers, whose length is stored before they are added, are not modelled; nor is the log file or the frame-drop options.
- PktQueue.Queues.GetFrame: the conversion of received SNAP frames is not modelled.
- EthRx.RxWindow.CopyRxTx: what is put out after a first turn that was not sound is not given, only that the copy does not come right.
- EthRx.RxWindow.PutByte: the transmit side is modelled only as far as it disturbs reading; what is written to the controller is not.
- Ppp.Receiver.PollNet: modem emulation beyond recognising a message, and the transmission that polls in between, which shares no state with reception.
- Slip.Receiver.ReceiveSlip: what the modem handler does with its characters; more than one channel.
- Lcp.Automaton.DoLcpActions: the packets sent and the authentication flags; the layer above is seen only by its signals.
- LCP against RFC 1661: the tables are compared with rules about acknowledgements and phases, not with the standard's text.
- Liveness: nothing says that data is eventually delivered; `TcpOpen.ConnectionWorks` only shows that it can be.
- Hardware registers, serial ports, drivers, consoles, configuration and the higher applications (HTTP, DHCP, SMTP, POP3).
