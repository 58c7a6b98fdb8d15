# Verified model of pyBulletin's packet radio stack

pyBulletin is a bulletin board for packet radio. This project models the layers below its sessions
and proves what they promise.

**AX.25 link layer** (`ax25/connection.py`, `ax25/frame.py`). `Link` gives the connection as a machine on values
and `Connection.AX25Connection` is the class with its loops, proved to do exactly that. `Unbounded` is the same go-back-N
exchange with numbers that never wrap and carries the two-node window invariant; `Modulo` proves that the connection, whose
numbers are taken modulo 8, is that node step for step; `Network` joins two connections by lossy FIFO channels and reads
off in-order delivery; `Recovery` proves progress after a T1 expiry, `Stall` when and why a queue is left behind, `Timers`
which timers run in which state and when a link is given up, `SlowLink` that steady progress does not prevent it, and `Lifecycle` how links begin and
end, what a busy or vanished peer does, and what reaches the session. `Frame` is the frame codec, `FrameRead` what any octets
decode to. Runs of `Network` stay inside one epoch: both ends connected with zero counters and empty channels, no SABM.

**HDLC layer** (`ax25/hdlc.py`). `Bits` and `BitLoops` hold packing, stuffing and NRZI, `Crc` the check sequence as a
sixteen-stage shift register with its detection theorem, `CrcLoop` its computation on numbers (`Numbers`), `Hdlc` the
octet-level frame, `HdlcStream` streaming for any way of decoding a stretch between flags, `HdlcFrames` the real extractor,
`HdlcLimit` what its remainder limit costs, and `HdlcSound` what any bits can make it deliver.

**Modem** (`transport/afsk.py`). `SymbolClock` is the symbol clock in exact arithmetic, `Modem` modulator and
demodulator around an oracle for the tones, `Transmission` the path from payload to payload.

**Byte framings and identifiers**. `Kiss`, `Pactor` and `Yapp` are the framings of the serial TNC, the HOST mode modem and file
transfer, `KissReads` the first of them read in any pieces, `KissSound` and `YappSound` what any octets are made of; `Bid` is the allocation of bulletin identifiers.

Where a promise is false of the code, the exact condition is proved:

- timer safety breaks exactly on a received stray N(R), which the code believes unchecked (`Timers.ReceiveSafe`);
- a connected link is left with no timer at all exactly by a REJ with N(R) == V(S) met with T3 off (`Timers.RunWatched`);
- a REJ that opens the window strands the queue, since `_handle_rej` does not pump (`Stall.OnlyRejStrands`); without a
  new write or a release only the peer's keep-alive brings it out (`Stall.StalledRun`, `Recovery.KeepAliveDelivers`);
- a call that is given up does not wake its reader, a release gets only the retries its link has left (`Lifecycle.Attempts`), and a link
  whose other end is gone is not noticed without data (`Lifecycle.HalfOpenIdle`);
- UA and DM never carry the F bit, although their factories offer it and default to it (`FrameRead.UnnumberedFrames`);
- frames behind two flags that share a zero, and the second of two KISS frames that share a FEND, are lost
  (`HdlcSound.SharedZeroHides`, `KissSound.SharedFendHides`);
- the octet-level HDLC round trip needs the stuffed zeros to fill whole octets (`Hdlc.FrameRoundTrip`), as those of 0xFF do not
  (`Hdlc.OnesDoNotReturn`), and so does a transmission (`Transmission.WholeTransmission`);
- the retry counter is never cleared by progress: a link is dropped at its eleventh T1 expiry with something outstanding, even if
  every frame was acknowledged in between (`Timers.DroppedByCount`, `SlowLink.SteadyLinkDropped`);
- the remainder limit of 8192 bits makes a transmission safe in every division into chunks exactly if each stuffed frame has at most
  8177 bits; a longer one can be lost, and it alone (`HdlcLimit.LimitIsExact`, `HdlcLimit.OneLost`);
- the demodulator's clock moves on a call that completes no symbol unless the baud rate divides the sample rate
  (`SymbolClock.IdleClock`);
- KISS frames come back exactly if port and command are below 16 and not port 12 with command 0, which the exit command 0xFF is not
  (`Kiss.RoundTripExactly`), and of a stream read in pieces exactly the frames in which no read ends (`KissReads.AnyReads`), although the
  documentation of `decode_stream` says that incomplete frames are left intact;
- the search for an identifier ends exactly if one of a hundred candidates is free (`Bid.SearchEnds`), which is what
  `Bid.Store.GenerateBid` requires.

## Model

| member | source | states |
|---|---|---|
| `Network.InOrderDelivery` | src/pybulletin/ax25/connection.py:277-448 | In every run of two connected ends over lossy FIFO channels (writes, reads, deliveries, losses of any frame, T1 and T3 expiries, releases at either side), the octets delivered at each side are a prefix of those written at the other, in whole pieces, every written piece is acknowledged, outstanding or queued in that order, and both ends stay timer safe |
| `Network.BufferAgrees` | src/pybulletin/ax25/connection.py:355-397 | At every point of every such run `_unacked` has exactly the keys V(A) .. V(S)-1 modulo 8, at most seven, and under each key the frame of that number with the piece written at that place behind the acknowledged ones, at both ends |
| `Network.RunCoupled` | src/pybulletin/ax25/connection.py:277-448 | Every run of the modulo-8 system is, step for step, a run of the one with unbounded numbers, whose window invariant holds throughout: V(A) <= every N(R) in flight (never decreasing along the channel) <= peer V(R) <= V(S) <= V(A)+7, and peer V(R)-7 <= n < V(S) for every I frame n in flight |
| `Network.StepCoupled` | src/pybulletin/ax25/connection.py:156-448 | One step of either side keeps that correspondence, and no counter of either side goes back |
| `Network.PairConserved` | src/pybulletin/ax25/connection.py:156-165 | From the correspondence: the list of pieces written = acknowledged ++ outstanding ++ queued, empty pieces included, and what the peer has been given are its first r pieces, all acknowledged ones and none of the queue |
| `Network.OutstandingIs` | src/pybulletin/ax25/connection.py:378-389 | The walk V(A) .. V(S)-1 through the buffer finds the unacknowledged pieces, each once, in the order they were sent |
| `Network.NotStray` | src/pybulletin/ax25/connection.py:391-397 | A frame at the head of a channel never carries an N(R) outside the window, although `_update_va` does not check it |
| `Network.ConnectedIsNumbered` | src/pybulletin/ax25/connection.py:132-259 | In every such run an end that is still connected has only I, RR and REJ frames on its way out: U frames come with the end of the epoch |
| `Network.RunFlip` | src/pybulletin/ax25/connection.py:61-103 | The two sides are interchangeable: running the mirrored actions from the mirrored system gives the mirrored result, so what is proved of one side holds of the other |
| `Network.HandshakeOpensEpoch` | src/pybulletin/ax25/connection.py:132-142 | SABM one way and UA back take two connections as constructed to the state in which the runs above start |
| `Recovery.Recovers` | src/pybulletin/ax25/connection.py:412-448 | From any reachable connected state with frames outstanding and a retry left, T1 is running, and its expiry followed by loss-free delivery one way and then back leaves unacknowledged exactly what was in the queue: everything outstanding at the expiry is acknowledged |
| `Recovery.DeliversAll` | src/pybulletin/ax25/connection.py:412-466 | After that expiry, at most |queue|+1 loss-free rounds (the peer's keep-alive included) deliver everything ever written, acknowledge it and leave nothing queued |
| `Recovery.KeepAliveDelivers` | src/pybulletin/ax25/connection.py:450-466 | From any reachable connected state with nothing outstanding and the peer's T3 armed, at most |queue|+2 loss-free rounds deliver everything ever written, acknowledge it and leave nothing queued, although T1 is off |
| `Recovery.RoundFlows` | src/pybulletin/ax25/connection.py:303-389 | One such round acknowledges all that was outstanding and then either empties the queue or fills the window again |
| `Recovery.HandleReacts` | src/pybulletin/ax25/connection.py:277-349 | One delivery at a connected end moves its V(R) exactly as the frame says and is answered with the new V(R), whatever it then sends of its own |
| `Stall.OnlyRejStrands` | src/pybulletin/ax25/connection.py:341-349 | Of the frames carrying N(R), only a REJ can leave queued data behind an open window, and it does exactly if there is a queue, the peer is not busy and the REJ opens the window: `_handle_rej` never pumps |
| `Stall.StallReached` | src/pybulletin/ax25/connection.py:341-349 | Such a stall is reachable from the start of an epoch by losing frames alone; the peer's T3 is armed there, and within three loss-free rounds everything is delivered |
| `Stall.StalledRun` | src/pybulletin/ax25/connection.py:322-349 | Once stalled, no run without a new write, a release or the peer's keep-alive ever sends the queue |
| `Stall.KeepAliveHelps` | src/pybulletin/ax25/connection.py:450-466 | The peer's T3 poll, delivered, makes the stalled station send again with T1 armed |
| `Timers.RunSafe` | src/pybulletin/ax25/connection.py:403-474 | Timer safety of the whole machine, connect and release included: it holds at every point of a run exactly if no stray frame is received in it |
| `Timers.ReceiveSafe` | src/pybulletin/ax25/connection.py:181-349 | A received frame keeps timer safety if and only if it is not an I or RR frame with N(R) other than V(S) met with T1 off and nothing to send at once |
| `Timers.RunWatched` | src/pybulletin/ax25/connection.py:341-349 | That a connected station has T1 or T3 running holds at every point of a run exactly if no REJ with N(R) == V(S) is received in it with T3 off |
| `Timers.EventWatched` | src/pybulletin/ax25/connection.py:132-466 | One event keeps it exactly if it is no such REJ |
| `Timers.SilencedExample` | src/pybulletin/ax25/connection.py:341-349 | Such a REJ behind the T3 expiry of an idle link leaves it connected with no timer |
| `Timers.NeverNoticed` | src/pybulletin/ax25/connection.py:403-474 | Then no timer ever runs out again and a dead peer is never noticed |
| `Timers.StrayExample` | src/pybulletin/ax25/connection.py:322-331 | Such a frame breaks it: a fresh connection that gets RR 3 has V(A) != V(S) and T1 off |
| `Timers.EventSafe` | src/pybulletin/ax25/connection.py:132-466 | Every event keeps timer safety, received stray frames excepted |
| `Timers.DroppedByCount` | src/pybulletin/ax25/connection.py:412-448 | In any run without connect and without a received SABM, UA, DISC or DM (acknowledgements, data, writes, reads and releases anywhere), the retry count grows by exactly the number of T1 expiries met while waiting, and the station is DISCONNECTED if and only if it has passed ten |
| `SlowLink.SteadyLinkDropped` | src/pybulletin/ax25/connection.py:412-448 | So a link on which each of ten octets is acknowledged after a single timeout is dropped at the eleventh timeout |
| `Timers.GivesUp` | src/pybulletin/ax25/connection.py:412-448 | With no frame received, whatever the session writes, reads or releases and however T3 expiries fall between, a station waiting for UA or an acknowledgement reaches DISCONNECTED at its (11 - retry count)th T1 expiry and not before, and waits until then |
| `Timers.IdlePollsUncounted` | src/pybulletin/ax25/connection.py:443-448 | T1 expiries of an idle link never count against it: only timer flags change |
| `Modulo.HandleSame` | src/pybulletin/ax25/connection.py:181-349 | Within the windows of the invariant, the modulo-8 connection handles every frame as the unbounded node does, with the same frames sent |
| `Modulo.NsReadRight` | src/pybulletin/ax25/connection.py:288-291 | With N(S) within seven of V(R), `ns == _vr` holds only for the true next frame |
| `Modulo.DropAckedWindow` | src/pybulletin/ax25/connection.py:391-397 | For an N(R) in the window the walk of `_update_va` makes exactly N(R)-V(A) steps and drops exactly the newly acknowledged frames |
| `Modulo.PumpSame` | src/pybulletin/ax25/connection.py:355-376 | `_pump_tx` sends the next pieces of the queue under their true numbers until the window is full |
| `Modulo.RetransmitSame` | src/pybulletin/ax25/connection.py:378-389 | `_retransmit_from` resends exactly the pieces from N(R) on, in order, each with its own number and the current V(R) |
| `Unbounded.PairHandle` | src/pybulletin/ax25/connection.py:277-349 | Delivering the head of a channel keeps the two-node window invariant |
| `Unbounded.PairPump` | src/pybulletin/ax25/connection.py:355-376 | Filling the window keeps it |
| `Unbounded.PairResend` | src/pybulletin/ax25/connection.py:378-389 | So does sending outstanding frames again |
| `Unbounded.PairLose` | src/pybulletin/ax25/connection.py:181-206 | So does losing any frame of a channel |
| `Link.Chunks` | src/pybulletin/ax25/connection.py:156-165 | The pieces of written data join to the data again; there is at least one, and none is above PACLEN octets |
| `Link.ChunkSizes` | src/pybulletin/ax25/connection.py:156-165 | Every piece before the last has exactly PACLEN octets and the last is not empty; empty data gives a single empty piece |
| `Lifecycle.ConnectHandshake` | src/pybulletin/ax25/connection.py:132-244 | SABM and UA open a new epoch at both ends, whatever the called station was doing: counters, retry count, buffer and busy flag are cleared, both queues of the called station are kept, and the caller sends what it had queued as far as the window of 7 allows |
| `Lifecycle.ReleaseHandshake` | src/pybulletin/ax25/connection.py:144-259 | DISC and its answer end the link at both ends, whatever the other was doing: both are DISCONNECTED with no timer, one UA is sent and nothing after it, both readers find an end marker, and both queues are kept |
| `Lifecycle.ReleaseEnds` | src/pybulletin/ax25/connection.py:228-271 | A releasing station is done with UA, DM or DISC, without timer and with its reader woken, and no other frame but SABM moves it |
| `Lifecycle.RefusedConnect` | src/pybulletin/ax25/connection.py:265-271 | DM ends a call, without timer and with the reader woken |
| `Lifecycle.Attempts` | src/pybulletin/ax25/connection.py:412-432 | A call or release that is never answered sends one more SABM or DISC at every T1 expiry until ten retries are used up, those from before the release included, and is then over; only the end of a release wakes the reader |
| `Lifecycle.CallGivesUp` | src/pybulletin/ax25/connection.py:132-424 | A call that is never answered sends eleven SABMs in all and is over at the eleventh expiry |
| `Lifecycle.AnswersDown` | src/pybulletin/ax25/connection.py:181-316 | A disconnected or releasing station answers SABM and DISC by UA, I frames by DM, and nothing else |
| `Lifecycle.HalfOpenData` | src/pybulletin/ax25/connection.py:156-280 | Data on a link whose other end is gone ends it: one DM for each of the first seven frames, and one end marker for each DM |
| `Lifecycle.HalfOpenIdle` | src/pybulletin/ax25/connection.py:322-466 | Without data it is never noticed: the gone end answers no poll, and the idle end stays connected |
| `Lifecycle.BusyHolds` | src/pybulletin/ax25/connection.py:333-376 | From a received RNR to the next RR no new frame is sent, whatever else happens and is written, and T1 is started |
| `Lifecycle.BusyAcknowledges` | src/pybulletin/ax25/connection.py:333-339 | The N(R) of an RNR acknowledges exactly the frames before it |
| `Lifecycle.PauseUndone` | src/pybulletin/ax25/connection.py:322-339 | RNR followed by RR with the same N(R) is RR alone, if T1 was running or everything is acknowledged |
| `Lifecycle.SessionSees` | src/pybulletin/ax25/connection.py:167-474 | What one event queues for the reader: an end marker, the non-empty information of a UI frame in any state or of the expected I frame while connected, or nothing |
| `Lifecycle.ReadInOrder` | src/pybulletin/ax25/connection.py:167-175 | In every run reads give exactly what was queued, in the order it came, and the rest is still there |
| `Lifecycle.Begins` | src/pybulletin/ax25/connection.py:212-235 | A link begins by SABM, or by UA when it is awaited, and in no other way |
| `Lifecycle.IsOver` | src/pybulletin/ax25/connection.py:228-474 | It is over exactly at an event that queues an end marker, or at the expiry that gives up a call |
| `Lifecycle.FramesOutOfPlace` | src/pybulletin/ax25/connection.py:181-349 | Nor do acknowledgements on no link, a UA nobody waits for, and frames of unknown type |
| `Lifecycle.OutOfPlace` | src/pybulletin/ax25/connection.py:132-175 | Calls out of place change nothing and send nothing |
| `Connection.AX25Connection.constructor` | src/pybulletin/ax25/connection.py:64-103 | A new connection is DISCONNECTED with zero counters, no timers and empty queues |
| `Connection.AX25Connection.HandleFrame` | src/pybulletin/ax25/connection.py:181-206 | Dispatch on the frame type of the control octet: the connection and the frames sent become what the machine of module Link says for the frame as the peer meant it |
| `Connection.ViewIs` | src/pybulletin/ax25/connection.py:181-206 | Of all 256 control octets 0x2F and 0x3F are read as SABM, 0x63 and 0x73 as UA, 0x43 and 0x53 as DISC, 0x0F and 0x1F as DM, 0x03 and 0x13 as UI with its information |
| `Connection.NumberedViewIs` | src/pybulletin/ax25/connection.py:181-206 | And the even ones as I, those ending in 1, 5 and 9 as RR, RNR and REJ, with N(R), P/F, N(S) and the command bit from their places |
| `Connection.AX25Connection.HandleSabm` | src/pybulletin/ax25/connection.py:212-222 | SABM: UA, counters reset in any state, queue kept, T3 running |
| `Connection.AX25Connection.HandleUa` | src/pybulletin/ax25/connection.py:228-244 | UA: completes a connect (and pumps) or a release, ignored otherwise |
| `Connection.AX25Connection.HandleDisc` | src/pybulletin/ax25/connection.py:250-259 | DISC: UA, timers off, DISCONNECTED, reader woken |
| `Connection.AX25Connection.HandleDm` | src/pybulletin/ax25/connection.py:265-271 | DM: timers off, DISCONNECTED, reader woken |
| `Connection.AX25Connection.HandleI` | src/pybulletin/ax25/connection.py:277-316 | I frame: acknowledgement taken, data accepted if next in sequence, RR or REJ with V(R) sent, T1 stopped if nothing is outstanding, window pumped; DM when not connected |
| `Connection.AX25Connection.HandleRr` | src/pybulletin/ax25/connection.py:322-331 | RR: acknowledgement taken, peer no longer busy, T1 and T3 as the machine says, window pumped |
| `Connection.AX25Connection.HandleRnr` | src/pybulletin/ax25/connection.py:333-339 | RNR: peer busy, acknowledgement taken, T1 restarted |
| `Connection.AX25Connection.HandleRej` | src/pybulletin/ax25/connection.py:341-349 | REJ: acknowledgement taken, everything from N(R) on sent again, T1 running exactly if something is outstanding |
| `Connection.AX25Connection.PumpTx` | src/pybulletin/ax25/connection.py:355-376 | The window loop: the new state and the frames sent are those of the specification |
| `Connection.AX25Connection.RetransmitFrom` | src/pybulletin/ax25/connection.py:378-389 | The retransmission loop, rewriting N(R) in the stored frames |
| `Connection.AX25Connection.UpdateVa` | src/pybulletin/ax25/connection.py:391-397 | The acknowledgement loop over the buffer |
| `Connection.AX25Connection.Connect` | src/pybulletin/ax25/connection.py:132-142 | Only from DISCONNECTED: SABM sent, retry count zero, T1 running |
| `Connection.AX25Connection.Disconnect` | src/pybulletin/ax25/connection.py:144-154 | From CONNECTED or AWAITING_CONNECT: DISC sent, T1 running, T3 off |
| `Connection.AX25Connection.Write` | src/pybulletin/ax25/connection.py:156-165 | Pieces queued in order, then the window pumped; nothing when not connected |
| `Connection.AX25Connection.Enqueue` | src/pybulletin/ax25/connection.py:160-163 | The chunking loop queues exactly the pieces of the specification |
| `Connection.AX25Connection.ReadNowait` | src/pybulletin/ax25/connection.py:171-175 | Takes the oldest received piece, if any |
| `Connection.AX25Connection.T1Expire` | src/pybulletin/ax25/connection.py:412-448 | T1 expiry in each state: retry, give up after ten, or poll |
| `Connection.AX25Connection.T3Expire` | src/pybulletin/ax25/connection.py:459-466 | T3 expiry while connected: RR poll and T1 |
| `Connection.AX25Connection.LinkFailure` | src/pybulletin/ax25/connection.py:468-474 | Timers off, DISCONNECTED, reader woken |
| `Connection.AX25Connection.ResetCounters` | src/pybulletin/ax25/connection.py:480-484 | Counters, retry count, buffer and busy flag cleared, queue untouched |
| `Connection.AX25Connection.SentSurvives` | src/pybulletin/ax25/frame.py:178-342 | Between stations with canonical addresses every frame the connection has ever sent, first or again, survives the frame codec, and what the peer decodes are, in order, the frames of the machine; `Proper`, kept by every method, says that all frames sent and stored are the connection's own |
| `Connection.AX25Connection.SentAddressed` | src/pybulletin/ax25/connection.py:486-490 | Every frame ever sent has the call sign and SSID of the other station as destination and its own as source, and no repeaters |
| `Connection.OutgoingSurvives` | src/pybulletin/ax25/frame.py:178-342 | The same for one frame from one station to the other whose PID and information are where its type carries them |
| `Connection.RenumberedFrame` | src/pybulletin/ax25/connection.py:383-386 | Replacing N(R) in a stored frame keeps its type, N(S), P/F and data |
| `FrameRead.PollBitIgnored` | src/pybulletin/ax25/frame.py:146-157 | Setting or clearing P/F never changes the type of a U frame |
| `FrameRead.UTypes` | src/pybulletin/ax25/frame.py:146-157 | The type of every control octet that has one among SABM, UA, DISC, DM, UI and FRMR, P/F set or not |
| `FrameRead.NumberedTypes` | src/pybulletin/ax25/frame.py:137-145 | The same for I, RR, RNR and REJ |
| `FrameRead.FieldsOf` | src/pybulletin/ax25/frame.py:159-172 | N(R), N(S) and P/F are read from the places of the standard in every octet |
| `FrameRead.FrameOf` | src/pybulletin/ax25/frame.py:178-224 | Decoding any octets at all: how many addresses they hold, when each of the three errors is given, and otherwise every address, control, PID and information from its place |
| `FrameRead.AddressOctets` | src/pybulletin/ax25/frame.py:98-107 | The seven octets of a canonical address: characters doubled and filled up with spaces, then C bit, two ones, SSID and end bit |
| `FrameRead.FrameOctets` | src/pybulletin/ax25/frame.py:226-240 | The octets of a frame without repeaters: destination, source with the end bit, control, PID if there is one, information |
| `FrameRead.UnnumberedFrames` | src/pybulletin/ax25/frame.py:262-292 | SABM and DISC are commands, UA and DM responses; P/F is never set |
| `FrameRead.InformationFrames` | src/pybulletin/ax25/frame.py:327-342 | I frames are commands with PID 0xF0 and their numbers in place |
| `FrameRead.SupervisoryFrames` | src/pybulletin/ax25/frame.py:294-325 | RR and REJ are commands or responses as asked, with N(R) and P/F in place |
| `Frame.FrameRoundTrip` | src/pybulletin/ax25/frame.py:178-240 | `decode(encode(f))` is f with the end bit on the last address only, if and only if every address is canonical and PID and information are where the type carries them; any number of repeaters |
| `Frame.AddressRoundTrip` | src/pybulletin/ax25/frame.py:85-107 | An address survives encode and decode if and only if its callsign has at most six upper-case ASCII characters, the last not white space, and its SSID is below 16 |
| `Frame.AddressesRoundTrip` | src/pybulletin/ax25/frame.py:184-235 | A list of addresses with the end bit on the last one only is decoded address by address, and decoding stops there |
| `Frame.ReplaceNrKeeps` | src/pybulletin/ax25/connection.py:385-386 | The control-octet arithmetic of retransmission changes N(R) and nothing else |
| `Frame.ICtrlFields` | src/pybulletin/ax25/frame.py:327-342 | The I control octet carries type, N(S), N(R) and P/F where `frame_type`, `ns`, `nr` and `pf` read them |
| `Frame.SCtrlFields` | src/pybulletin/ax25/frame.py:294-325 | The same for RR, RNR and REJ |
| `Frame.AX25Frame.MarkLast` | src/pybulletin/ax25/frame.py:228-231 | Encoding sets the end bit in place on the address objects, exactly on those identical to the last one |
| `Frame.AX25Frame.Encode` | src/pybulletin/ax25/frame.py:226-240 | The octets of the frame; on distinct address objects they are those of the value-level codec |
| `Frame.DecodeAddressField` | src/pybulletin/ax25/frame.py:184-191 | The address loop yields the addresses and the position of the control octet |
| `Frame.Decode` | src/pybulletin/ax25/frame.py:178-224 | The whole decoder with its three errors and its optional PID and information fields |
| `Bits.BitAt` | src/pybulletin/ax25/hdlc.py:56-62 | Bit 8i+k of the stream is bit k of octet i, the lowest first |
| `Bits.PackRoundTrip` | src/pybulletin/ax25/hdlc.py:56-80 | Unpacking octets and packing the bits returns the octets; up to seven extra zero bits add one zero octet |
| `Bits.UnstuffStuffTail` | src/pybulletin/ax25/hdlc.py:83-123 | Unstuffing stuffed bits returns them whatever follows, in the state the following bits need |
| `Bits.UnstuffOnlyStuffed` | src/pybulletin/ax25/hdlc.py:83-123 | And nothing else unstuffs: what unstuffs to x is x stuffed |
| `Bits.StuffedRunsOk` | src/pybulletin/ax25/hdlc.py:83-96 | Stuffed bits never hold six 1s in a row |
| `Bits.NrziAt` | src/pybulletin/ax25/hdlc.py:126-138 | A data 0 changes the level and a 1 keeps it |
| `Bits.NrziRoundTrip` | src/pybulletin/ax25/hdlc.py:126-149 | NRZI encoding and decoding from the same level are inverse in both orders |
| `BitLoops.BytesToBitsLsb` | src/pybulletin/ax25/hdlc.py:56-62 | The two nested loops compute the unpacking function |
| `BitLoops.BitsToBytesLsb` | src/pybulletin/ax25/hdlc.py:65-80 | The packing loop with its partial last octet computes the packing function |
| `BitLoops.BitStuff` | src/pybulletin/ax25/hdlc.py:83-96 | The stuffing loop computes the stuffing function |
| `BitLoops.BitUnstuff` | src/pybulletin/ax25/hdlc.py:99-123 | The unstuffing loop computes the unstuffing function, both failures included |
| `BitLoops.NrziEncodeBits` | src/pybulletin/ax25/hdlc.py:126-138 | The encoding loop computes the NRZI function |
| `BitLoops.NrziDecodeLevels` | src/pybulletin/ax25/hdlc.py:141-149 | The decoding loop computes its inverse |
| `Crc.VerifyIsResidue` | src/pybulletin/ax25/hdlc.py:28-53 | A frame of three octets or more verifies if and only if the uninverted register run over all of it, check sequence included, ends at 0xF0B8 (Appendix C.2 of RFC 1662) |
| `Crc.ResidueValue` | src/pybulletin/ax25/hdlc.py:17-19 | Sixteen zeros take the all-ones register to 0xF0B8 |
| `Crc.TwoOctetsDetected` | src/pybulletin/ax25/hdlc.py:28-53 | Two different frames of equal length that differ only inside two neighbouring octets, the boundary to the check sequence included, never both verify |
| `Crc.BurstDetected` | src/pybulletin/ax25/hdlc.py:28-53 | Nor do two that differ in one burst of at most sixteen bits |
| `Crc.AppendedVerifies` | src/pybulletin/ax25/hdlc.py:41-53 | What `append_fcs` appends to a non-empty payload verifies |
| `Crc.AppendFcsBits` | src/pybulletin/ax25/hdlc.py:41-44 | On the air the octets of the check sequence are the register complemented, lowest stage first |
| `Crc.RunIsXorThenShift` | src/pybulletin/ax25/hdlc.py:31-37 | Feeding up to sixteen bits one by one is exclusive-oring them in first and then shifting |
| `Crc.RunInjective` | src/pybulletin/ax25/hdlc.py:31-37 | Equal data never brings two different registers together |
| `CrcLoop.CrcX25` | src/pybulletin/ax25/hdlc.py:28-38 | The octet-wise loops on a 16-bit number compute the bit-serial register, complemented |
| `CrcLoop.EightShifts` | src/pybulletin/ax25/hdlc.py:33-37 | The inner loop is eight clock pulses |
| `CrcLoop.ShiftedIsStep` | src/pybulletin/ax25/hdlc.py:34-37 | Shift and conditional exclusive or with 0x8408 are one clock pulse of the shift register |
| `CrcLoop.AppendFcsOctets` | src/pybulletin/ax25/hdlc.py:41-44 | The check sequence is appended low octet first |
| `CrcLoop.VerifyFcsOctets` | src/pybulletin/ax25/hdlc.py:47-53 | The comparison of numbers decides verification; fewer than three octets never verify |
| `Hdlc.FrameRoundTrip` | src/pybulletin/ax25/hdlc.py:152-170 | For every payload, `decode_hdlc_frame(encode_hdlc_frame(p))` returns p if and only if p is not empty and the number of stuffed zeros is a multiple of 8, and is a "Bad AX.25 FCS" error otherwise |
| `Hdlc.OnesDoNotReturn` | src/pybulletin/ax25/hdlc.py:152-170 | The payload 0xFF has two stuffed zeros and ends in that error |
| `Hdlc.PackedBits` | src/pybulletin/ax25/hdlc.py:65-80 | Packing fills up with zeros to whole octets and changes nothing else |
| `Hdlc.PaddedIsBad` | src/pybulletin/ax25/hdlc.py:47-53 | A good frame with a zero octet behind it does not verify |
| `HdlcStream.StreamingPayloads` | src/pybulletin/ax25/hdlc.py:173-216 | Fed in any chunks with the remainder carried over, the extractor finds the payloads of one call on the whole stream, in order, as long as no call gives up a stale flag; trimming noise changes nothing |
| `HdlcStream.StreamingAll` | src/pybulletin/ax25/hdlc.py:173-216 | If no call trims at all, the remainder at the end is the same, too |
| `HdlcStream.SplitMore` | src/pybulletin/ax25/hdlc.py:183-188 | Bits behind a stream change nothing of what its flags cut off, and only add to what follows the last flag |
| `HdlcStream.SeekTail` | src/pybulletin/ax25/hdlc.py:190-195 | Before the first flag all but the last seven bits are irrelevant |
| `HdlcFrames.AnyChunks` | src/pybulletin/ax25/hdlc.py:173-216 | A transmission of frames and extra flags, received in any chunks, yields exactly the non-empty payloads in order and leaves one flag, if every stuffed frame fits the remainder limit |
| `HdlcFrames.AllFound` | src/pybulletin/ax25/hdlc.py:173-216 | One call on such a transmission does so without any limit on lengths |
| `HdlcFrames.SeekBody` | src/pybulletin/ax25/hdlc.py:183-188 | Stuffed bits hold no flag and none straddles their end |
| `HdlcFrames.ShortFramesFit` | src/pybulletin/ax25/hdlc.py:21-25 | Payloads of up to 849 octets fit the limit |
| `HdlcLimit.LimitIsExact` | src/pybulletin/ax25/hdlc.py:173-216 | A transmission of frames and extra flags yields all its payloads in every division into chunks if and only if every stuffed frame in it has at most 8192 - 15 = 8177 bits |
| `HdlcLimit.OneLost` | src/pybulletin/ax25/hdlc.py:197-203 | A longer frame, cut before it and before the last bit of its closing flag, is lost, and it alone: the frames around it come out in order |
| `HdlcLimit.LongPayloadUnsafe` | src/pybulletin/ax25/hdlc.py:197-203 | No payload of 1021 octets or more, sent alone, is safe in every division into chunks |
| `HdlcFrames.ExtractHdlcFrames` | src/pybulletin/ax25/hdlc.py:173-216 | The two loops of the extractor, with both trims, compute the extraction function |
| `HdlcFrames.FlagPositions` | src/pybulletin/ax25/hdlc.py:180-188 | The scanning loop finds the flags that cut the stream, without overlap |
| `HdlcSound.GoodExactly` | src/pybulletin/ax25/hdlc.py:205-214 | A stretch between flags is delivered exactly if it is the stuffing of bits whose octets pass the check sequence |
| `HdlcSound.ExtractCarved` | src/pybulletin/ax25/hdlc.py:173-216 | From any bits at all: the payloads delivered are such frames, each cut out between two flags, in the order they came and without overlap, and what is left is the end of the bits |
| `HdlcSound.FeedCarved` | src/pybulletin/ax25/hdlc.py:173-216 | The same for any bits in any chunks, trimming included |
| `HdlcSound.NothingElse` | src/pybulletin/ax25/hdlc.py:173-216 | So nothing that breaks the stuffing rule or fails the check sequence is ever delivered |
| `HdlcSound.FoundInSync` | src/pybulletin/ax25/hdlc.py:180-214 | Whatever comes before and after, a good frame is delivered if the scan has just passed its opening flag |
| `HdlcSound.SharedZeroHides` | src/pybulletin/ax25/hdlc.py:180-188 | Behind two flags that share a zero every frame is lost |
| `HdlcSound.MemoryBounded` | src/pybulletin/ax25/hdlc.py:192-203 | Whatever comes in, the bits kept for the next call are never more than 8192, or than the longest chunk and seven bits |
| `HdlcSound.DecodesExactly` | src/pybulletin/ax25/hdlc.py:159-170 | Any octets decode to a payload exactly if there is a flag at either end and a good frame between |
| `HdlcSound.DecodeErrors` | src/pybulletin/ax25/hdlc.py:159-170 | Otherwise the error is that of the first condition that fails |
| `SymbolClock.SymbolsKeepTime` | src/pybulletin/transport/afsk.py:687-699 | With at least one sample per symbol the first k symbols take exactly floor(k * rate / baud) samples |
| `SymbolClock.SlowClock` | src/pybulletin/transport/afsk.py:696-698 | With less, every symbol takes one sample: the clock runs away |
| `SymbolClock.CutClocked` | src/pybulletin/transport/afsk.py:70-82 | A stream made with the clock is cut into the windows it was made of |
| `SymbolClock.CutTwice` | src/pybulletin/transport/afsk.py:73-82 | With whole symbols a buffer may be handed over in two parts |
| `SymbolClock.IdleClock` | src/pybulletin/transport/afsk.py:73-76 | With at least one sample per symbol, whatever the clock and the buffer, a call that completes no symbol leaves the clock alone if and only if the baud rate divides the sample rate |
| `Modem.LevelsToPcm` | src/pybulletin/transport/afsk.py:678-705 | The counting loops emit, symbol by symbol, as many samples as the clock says |
| `Modem.ModulateAx25Frame` | src/pybulletin/transport/afsk.py:147-169 | Preamble, frame and postamble (at least one flag each) through NRZI into samples |
| `Modem.EncodeHdlcFrame` | src/pybulletin/ax25/hdlc.py:152-156 | Flag, stuffed frame padded to octets, flag |
| `Modem.Bell202Demodulator.constructor` | src/pybulletin/transport/afsk.py:51-68 | A demodulator starts with no samples, no bits, the clock at zero and the level at mark |
| `Modem.Bell202Demodulator.NextSymbolLen` | src/pybulletin/transport/afsk.py:93-99 | The next symbol length and the fraction left |
| `Modem.Bell202Demodulator.CutSymbols` | src/pybulletin/transport/afsk.py:72-79 | The window loop cuts what the clock says, and advances the clock once more for the window it could not fill |
| `Modem.Bell202Demodulator.DecodeLevels` | src/pybulletin/transport/afsk.py:84-91 | NRZI decoding onto the raw bits, then extraction with the remainder kept |
| `Modem.Bell202Demodulator.FeedSamples` | src/pybulletin/transport/afsk.py:70-91 | One call, as a function of the state and the samples |
| `Transmission.WholeTransmission` | src/pybulletin/transport/afsk.py:70-169 | At any rates, a demodulator that recognises the tones returns, from the whole output of the modulator, exactly the payload if it is not empty and its stuffed zeros fill whole octets, and nothing otherwise |
| `Transmission.ChunkedTransmission` | src/pybulletin/transport/afsk.py:70-169 | When the baud rate divides the sample rate and the padded stuffed frame has at most 8177 bits, the same in any chunks of samples |
| `Transmission.NothingElseHeard` | src/pybulletin/transport/afsk.py:70-91 | At any rates and in any chunks of samples, whatever is heard stands between two flags of the demodulated bits, stuffed and with its check sequence |
| `Transmission.AirBits` | src/pybulletin/transport/afsk.py:151-160 | The bits of a transmission are flags with one padded stuffed frame among them |
| `Transmission.AirExtracted` | src/pybulletin/transport/afsk.py:151-160 | The extractor finds in them the payload or nothing, by the same condition, and leaves one flag |
| `Transmission.HearIsFeed` | src/pybulletin/transport/afsk.py:84-91 | The demodulator is the extractor fed with the bits of each call |
| `Transmission.BitChunksWhole` | src/pybulletin/transport/afsk.py:70-91 | Those bits join to the bits of all samples at once |
| `Kiss.StreamDecoded` | src/pybulletin/transport/kiss.py:45-107 | One buffer with any list of frames whose type octet is not 0xC0, any extra FENDs between them, yields exactly that list in order and is empty afterwards |
| `Kiss.SplitAtFrames` | src/pybulletin/transport/kiss.py:62-107 | The same when the stream is read in parts that end where frames end |
| `Kiss.RoundTripExactly` | src/pybulletin/transport/kiss.py:42-59 | For any port and command octet, the exit command 0xFF included, a single frame comes back if and only if both are below 16 and it is not port 12 with command 0 |
| `KissReads.AnyReads` | src/pybulletin/transport/kiss.py:62-107 | For any frames whose type octet is not 0xC0, with any extra FENDs before, between and behind them, in any reads: exactly the frames in which no read ends come out, in order, and the buffer is empty at the end |
| `KissReads.AllComeOut` | src/pybulletin/transport/kiss.py:88-94 | So all frames come out if and only if no read ends inside one |
| `KissReads.ReadsAreIndependent` | src/pybulletin/transport/kiss.py:62-107 | For any octets in any reads, the frames found are those of each read decoded alone: what a call leaves in the buffer never helps the next |
| `KissSound.EncodeIs` | src/pybulletin/transport/kiss.py:45-59 | The octets of a frame: 0xC0, port and command in one octet, the escaped data, 0xC0 |
| `KissSound.EscapeIs` | src/pybulletin/transport/kiss.py:50-57 | Data are escaped octet by octet: 0xC0 as 0xDB 0xDC, 0xDB as 0xDB 0xDD, any other as it is |
| `KissSound.ReadExactly` | src/pybulletin/transport/kiss.py:94-107 | A stretch between FENDs is delivered as a frame exactly if it is that frame encoded, with the nibbles of its first octet as port and command |
| `KissSound.NothingElse` | src/pybulletin/transport/kiss.py:62-107 | For any octets in any reads, a frame delivered stands whole, correctly escaped, between two FENDs of one read |
| `KissSound.BadOnesSkipped` | src/pybulletin/transport/kiss.py:103-107 | Stretches that are no frames are left out and harm no others |
| `KissSound.SharedFendHides` | src/pybulletin/transport/kiss.py:88-97 | Of two frames with a single FEND between them the second is lost |
| `Kiss.UnescapeEscape` | src/pybulletin/transport/kiss.py:50-57 | Escaping is undone by unescaping and leaves no FEND |
| `Kiss.EscapeUnescape` | src/pybulletin/transport/kiss.py:110-131 | Only escaped data can be unescaped |
| `Kiss.EncodeFrame` | src/pybulletin/transport/kiss.py:45-59 | The escaping loop and the frame around it |
| `Kiss.UnescapeData` | src/pybulletin/transport/kiss.py:110-131 | The unescaping loop with its three failures |
| `Kiss.Buffer.DecodeStream` | src/pybulletin/transport/kiss.py:62-107 | The decoder consumes the buffer in place: frames and octets left are those of the specification |
| `Yapp.TransferComplete` | src/pybulletin/transport/yapp.py:112-242 | For any data and block size 1..255, send and receive loops in lockstep end with the receiver holding exactly the data, one ACK per frame, ceil(n / size) + 1 in all, and every octet read |
| `Yapp.CorruptionAborts` | src/pybulletin/transport/yapp.py:227-236 | Changing any one data or checksum octet of any data frame makes the receiver abort at that frame without a file, and the sender fail |
| `Yapp.ReceiveComplete` | src/pybulletin/transport/yapp.py:182-242 | Given all frames at once the receiver finds the same file |
| `YappSound.FileExactly` | src/pybulletin/transport/yapp.py:173-242 | From any octets there is a file exactly if they are frames of non-empty blocks of up to 65535 octets, each with its length and checksum, and then an end frame with or without its last octet; it is the blocks joined |
| `YappSound.CutShort` | src/pybulletin/transport/yapp.py:184-200 | Good frames followed by nothing, by an abort or by any octet but 0x01 give no file and no further reply |
| `YappSound.ThenBad` | src/pybulletin/transport/yapp.py:227-236 | Good frames followed by one whose checksum does not fit give no file, and 0x18 is sent |
| `YappSound.TurnExactly` | src/pybulletin/transport/yapp.py:184-240 | For any octets, which turns of the receiver abort, silently or with 0x18 |
| `YappSound.EofExactly` | src/pybulletin/transport/yapp.py:212-222 | And which end the file: 0x01 and a zero length |
| `YappSound.SendExactly` | src/pybulletin/transport/yapp.py:154-170 | For any replies, the sender stops at the first that is missing or 0x18, with that frame written, and succeeds exactly if there is none among the first ones |
| `YappSound.SentIsSend` | src/pybulletin/transport/yapp.py:121-170 | In lockstep the verdict of the sender is the one it reaches by itself on the replies that passed |
| `YappSound.FrameOctets` | src/pybulletin/transport/yapp.py:86-94 | The octets of a frame: 0x01, the length with its low octet first, the data, the checksum of length and data |
| `YappSound.EndOctets` | src/pybulletin/transport/yapp.py:97-99 | The end frame is 0x01 and three zeros |
| `YappSound.ChecksumJoins` | src/pybulletin/transport/yapp.py:78-83 | The checksum of two strings together is the exclusive or of theirs |
| `Yapp.ChecksumDiffers` | src/pybulletin/transport/yapp.py:78-83 | Changing one octet changes the checksum |
| `Yapp.BlocksJoin` | src/pybulletin/transport/yapp.py:112-119 | Cutting a file into blocks loses nothing |
| `Yapp.BlockCount` | src/pybulletin/transport/yapp.py:112-119 | There is one block for every begun block size |
| `Yapp.SendAll` | src/pybulletin/transport/yapp.py:154-170 | A sender that is acknowledged writes every frame once and succeeds |
| `Yapp.ChecksumOf` | src/pybulletin/transport/yapp.py:78-83 | The exclusive-or loop |
| `Yapp.FrameOf` | src/pybulletin/transport/yapp.py:86-94 | One frame of at most 255 octets |
| `Yapp.EncodeFile` | src/pybulletin/transport/yapp.py:112-119 | The blocking loop and the end frame |
| `Yapp.ReceiveTurn` | src/pybulletin/transport/yapp.py:184-240 | One turn of the receive loop: abort, timeout, end, checksum error or data |
| `Yapp.ReceiveFile` | src/pybulletin/transport/yapp.py:173-242 | The receive loop: file and replies of the specification |
| `Yapp.SendFrames` | src/pybulletin/transport/yapp.py:154-170 | The send loop: stops at a missing or aborting reply |
| `Pactor.AnyChunks` | src/pybulletin/transport/pactor.py:95-120 | For any octets, noise included, in any chunks, frames and octets left over are those of one read of all of them |
| `Pactor.StreamDecoded` | src/pybulletin/transport/pactor.py:79-120 | Encoded frames, with any noise free of marks between them, decode to exactly those frames with nothing left over |
| `Pactor.EncodedDecoded` | src/pybulletin/transport/pactor.py:79-120 | Whatever passes the three checks comes back, in any chunks |
| `Pactor.DecodeMore` | src/pybulletin/transport/pactor.py:95-120 | Later octets are decoded behind what the earlier ones left over |
| `Pactor.ParsedExactly` | src/pybulletin/transport/pactor.py:95-120 | Any buffer reads in one way: the frames delivered, each behind octets free of 0xAA, then such octets, and then what stays, nothing or a frame begun |
| `Pactor.EncodesExactly` | src/pybulletin/transport/pactor.py:79-92 | Which frames can be sent and what their octets are, and the error for the first argument that does not fit |
| `Pactor.Buffer.DecodeHostStream` | src/pybulletin/transport/pactor.py:95-120 | The loop consumes the buffer in place: frames and octets left are those of the specification |
| `Bid.Store.GenerateBid` | src/pybulletin/store/store.py:361-370 | Returns a 12-character identifier that is not stored, the first free one in the order tried, which begins with the call sign in capitals and the time stamp |
| `Bid.CandidateSays` | src/pybulletin/store/store.py:361-370 | The identifier tried with a suffix: call sign in capitals up to its first hyphen and time stamp, cut to ten characters, and then the next two or the suffix in two digits |
| `Bid.SameStation` | src/pybulletin/store/store.py:361-370 | Calls that differ only in letter case or SSID are tried with the same identifiers |
| `Bid.SearchEnds` | src/pybulletin/store/store.py:367-369 | Some suffix is free if and only if one of the first hundred candidates is: from 100 on they only repeat |
| `Bid.Pigeonhole` | src/pybulletin/store/store.py:361-370 | With fewer than 99 stored identifiers sharing the first ten characters one of them is free |

## Left out

- asyncio: every handler and timer expiry is one atomic step; timers are armed or not and may run out whenever armed; the events behind
  `wait_connected` are not part of this model, so `Connect` ends when the SABM is sent.
- Send callback: a frame handed to it counts as encoded at once. The retransmission buffer holds frames as values, so a queued
  frame object whose control octet is rewritten before it is encoded is not modelled.
- Between epochs: `_handle_sabm` keeps `_tx_queue` and discards `_unacked`, so nothing is promised end to end across a reconnect; SABM, UA
  and the waiting states are covered by `Timers` and `Connection`, not by `Network`.
- RNR and UI in the two-node theorems: this code never sends RNR, and UI is delivered without sequence. Both are in
  `Link`, `Timers` and `Connection`.
- Callsigns: `upper()` is modelled on ASCII letters, `rstrip()` on ASCII white space, `encode("ascii", "replace")` as '?' beyond ASCII.
- Frames: UI and FRMR factories, `matches` and text formatting are not part of this model.
- Tones: Goertzel detection, sine generation, DC removal and PCM scaling are replaced by a waveform and a classifier; the clock runs
  in real arithmetic, not floating point.
- Modem.Bell202Demodulator.FeedSamples: chunked feeding is related to the whole stream only when the baud rate divides the sample rate, because otherwise
  the clock moves at every call (`SymbolClock.IdleClock`).
- Kiss.Buffer.DecodeStream: the generator is taken as run to its end; `encode_cmd` is not modelled.
- Yapp.TransferComplete: the announcement line and the answer "(ok)" before the frames are not modelled; a timeout is octets that never come.
- Pactor: `PactorLink` with its serial port and chunking of writes is not part of this model.
- Bid.Store.GenerateBid: time is a parameter of twelve digits, and the message table is the set of its identifiers.
- Forwarding, sessions, routers, telnet, conference, web, configuration and storage beyond identifiers: dispatch and I/O around these layers.
