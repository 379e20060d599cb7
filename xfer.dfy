/**
  The stop-and-wait (alternating-bit) transfer engine of dccnet-xfer.py (class `DCCNETXfer`).

  The socket becomes `outbox`, the frames handed to `send_frame`, `send_ack` and
  `send_rst` in order; the output file becomes `output`, the bytes appended to it;
  the input file becomes `inputLines`. One iteration of the receive loop of `run`
  is `OnFrame` (a decoded frame) or `Receive` (raw bytes); one iteration of the
  loop of `send_data` is `SendTick`. The locals `num_retransmissions` and `last_id`
  of `send_data` live on as the fields `numRetransmissions` and `lastId`, starting
  at 0 and at the initial `frame_id`.

  Assumptions made where the Python cannot run as written:
  - `bitwise_and(a, b)`, imported from utils.py but not defined there, is
    `(a & b) != 0` on bytes (`HasFlag`);
  - the flag constants, `bytes` objects in the source, are the byte values
    0x80 (ACK), 0x40 (END) and 0x20 (RST);
  - the frame handed to the receive loop is the five-field record
    `(chksum, length, frame_id, flags, payload)` that the unpacking in `run`
    expects, built from what `decode_frame` returns;
  - writing a payload appends its bytes to the output.
*/
module Xfer {
  import opened Wrappers
  import opened Bytes
  import opened Frame
  import opened Resend

  /** `bitwise_and(a, b)`: some bit is set in both bytes. */
  predicate HasFlag(flags: byte, flag: byte)
  {
    (flags as bv8) & (flag as bv8) != 0
  }

  /** Each flag is one bit of the flags byte: ACK the highest, then END, then RST. */
  lemma FlagBits(flags: byte)
    ensures HasFlag(flags, AckFlag) <==> flags >= 0x80
    ensures HasFlag(flags, EndFlag) <==> (flags / 0x40) % 2 == 1
    ensures HasFlag(flags, RstFlag) <==> (flags / 0x20) % 2 == 1
  {
  }

  /** A frame id that `decode_frame` lets through. */
  type DecodedId = x: int | 0 <= x <= 1

  const RstFrameId: int := 65535
  const MaxRetransmissions: nat := 17
  const MaxDuplicateAcks: nat := 16

  /** The frame `send_rst` builds around the encoded error message. */
  function RstFrame(message: seq<byte>): DccnetFrame
  {
    DccnetFrame(message, RstFrameId, RstFlag)
  }

  /** The ASCII bytes of "Max num of retransmissions reached". */
  const RetriesExhausted: seq<byte> := [77, 97, 120, 32, 110, 117, 109, 32, 111, 102, 32, 114, 101, 116, 114, 97, 110, 115, 109, 105, 115, 115, 105, 111, 110, 115, 32, 114, 101, 97, 99, 104, 101, 100]
  /** The ASCII bytes of "Too many retransmissions". */
  const TooManyDuplicates: seq<byte> := [84, 111, 111, 32, 109, 97, 110, 121, 32, 114, 101, 116, 114, 97, 110, 115, 109, 105, 115, 115, 105, 111, 110, 115]

  /** The state of one `DCCNETXfer` object, as a value. */
  datatype Conn = Conn(
    lastReceivedId: Option<int>,
    lastReceivedChecksum: Option<int>,
    frameId: int,
    retransmissionCounterAck: nat,
    retransmissionCounterData: nat,
    currentLine: seq<byte>,
    lineIndex: nat,
    currentFlags: byte,
    endSent: bool,
    endReceived: bool,
    numRetransmissions: nat,
    lastId: int,
    outbox: seq<DccnetFrame>,
    output: seq<byte>,
    closed: bool,
    senderStopped: bool)

  /** The state right after `__init__`, with the sender thread about to start. */
  function Init(lines: seq<seq<byte>>): Conn
    requires |lines| > 0
  {
    Conn(None, None, 0, 0, 0, lines[0], 0, 0, false, false, 0, 0, [], [], false, false)
  }

  /** What every reachable state satisfies. */
  ghost predicate Invariant(c: Conn, lines: seq<seq<byte>>)
  {
    && |lines| > 0
    && (c.frameId == 0 || c.frameId == 1)
    && (c.lastId == 0 || c.lastId == 1)
    && c.currentLine == lines[if c.lineIndex < |lines| then c.lineIndex else |lines| - 1]
    && c.currentFlags == (if |lines| >= 2 && c.lineIndex >= |lines| - 1 then EndFlag else 0)
    && (c.endSent ==> c.currentFlags == EndFlag)
    && (!c.senderStopped ==> c.numRetransmissions <= MaxRetransmissions)
  }

  /** The received frame repeats the last delivered one (same id and checksum). */
  predicate IsDuplicate(c: Conn, id: DecodedId, chksum: int)
  {
    c.lastReceivedId == Some(id) && c.lastReceivedChecksum == Some(chksum)
  }

  /** The check at the bottom of the receive loop: both END frames seen, close. */
  function EndCheck(c: Conn): Conn
  {
    if c.endReceived && c.endSent then c.(closed := true) else c
  }

  /** The body of the receive loop of `run` for a frame without the RST bit:
      duplicate, new data, or ACK. */
  function Dispatched(c: Conn, lines: seq<seq<byte>>, chksum: int, id: DecodedId,
                      flags: byte, payload: seq<byte>): Conn
  {
    if IsDuplicate(c, id, chksum) then DuplicateAnswered(c, id)
    else if !HasFlag(flags, AckFlag) then Delivered(c, id, flags, payload)
    else if c.frameId == id then Advanced(c, lines)
    else c
  }

  /** A duplicate: ACK it again, or send RST once 17 have been re-acknowledged. */
  function DuplicateAnswered(c: Conn, id: DecodedId): Conn
  {
    if c.retransmissionCounterAck > MaxDuplicateAcks then
      // `send_rst` closes the socket, so the `send_ack` after it raises and `run` ends
      c.(outbox := c.outbox + [RstFrame(TooManyDuplicates)], closed := true)
    else
      c.(outbox := c.outbox + [AckFrame(id)],
         retransmissionCounterAck := c.retransmissionCounterAck + 1)
  }

  /** A new data frame: written and acknowledged unless the peer's END came first. */
  function Delivered(c: Conn, id: DecodedId, flags: byte, payload: seq<byte>): Conn
  {
    if !c.endReceived then
      var end := HasFlag(flags, EndFlag);
      c.(retransmissionCounterAck := 0,
         output := c.output + payload + (if end then [Newline] else []),
         endReceived := end,
         outbox := c.outbox + [AckFrame(id)])
    else
      c
  }

  /** A matching ACK: next line, END on the last line, `frame_id` flipped. */
  function Advanced(c: Conn, lines: seq<seq<byte>>): Conn
  {
    var i := c.lineIndex + 1;
    c.(lineIndex := i,
       currentLine := if i < |lines| then lines[i] else c.currentLine,
       currentFlags := if i < |lines| && i == |lines| - 1 then EndFlag else c.currentFlags,
       frameId := 1 - c.frameId)
  }

  /** One iteration of the receive loop of `run` on a decoded frame. */
  function Received(c: Conn, lines: seq<seq<byte>>, chksum: int, length: int, id: DecodedId,
                    flags: byte, payload: seq<byte>): Conn
  {
    if HasFlag(flags, RstFlag) then c.(closed := true)
    else EndCheck(Dispatched(c, lines, chksum, id, flags, payload))
  }

  /** One iteration of the receive loop on the raw bytes of one `recv`: a frame
      `decode_frame` rejects only reaches the end-of-transfer check. */
  function ReceivedRaw(c: Conn, lines: seq<seq<byte>>, raw: seq<byte>): Conn
  {
    match DecodeFrame(raw)
    case Ok(d) => Received(c, lines, d.checksum, |d.payload|, d.frameId, d.flags, d.payload)
    case Err(_) => EndCheck(c)
  }

  /** One iteration of the loop of `send_data`. Once the socket is closed the
      next send raises and the sender thread ends without sending. */
  function Tick(c: Conn): Conn
  {
    if c.closed then
      c.(senderStopped := true)
    else if c.lastId == c.frameId && c.numRetransmissions + 1 > MaxRetransmissions then
      Counted(c).(outbox := c.outbox + [RstFrame(RetriesExhausted)], closed := true, senderStopped := true)
    else
      Sent(Counted(c))
  }

  /** The frame `send_data` builds from the current line, id and flags. */
  function CurrentFrame(c: Conn): DccnetFrame
  {
    DccnetFrame(c.currentLine, c.frameId, c.currentFlags)
  }

  /** The send of `send_data`: `build_frame` raises on a frame it cannot pack (a
      line of 2^16 bytes or more), which ends the sender thread with nothing sent. */
  function Sent(c: Conn): Conn
  {
    if !Packable(CurrentFrame(c)) then c.(senderStopped := true) else Transmitted(c)
  }

  /** The retransmission count at the top of an iteration: one more while the id
      is the one last sent, 0 once it changed. */
  function Counted(c: Conn): Conn
  {
    c.(numRetransmissions := if c.lastId == c.frameId then c.numRetransmissions + 1 else 0)
  }

  /** The current line goes out with the current id and flags; END on it marks
      END as sent. */
  function Transmitted(c: Conn): Conn
  {
    c.(outbox := c.outbox + [CurrentFrame(c)],
       lastId := c.frameId,
       endSent := c.endSent || HasFlag(c.currentFlags, EndFlag))
  }

  /** `k` iterations of the sender loop with no frame received in between. */
  function Ticks(c: Conn, k: nat): Conn
    decreases k
  {
    if k == 0 then c else Ticks(Tick(c), k - 1)
  }

  class DccnetXfer {
    const inputLines: seq<seq<byte>>
    var lastReceivedId: Option<int>
    var lastReceivedChecksum: Option<int>
    var frameId: int
    var retransmissionCounterAck: nat
    var retransmissionCounterData: nat
    var currentLine: seq<byte>
    var lineIndex: nat
    var currentFlags: byte
    var endSent: bool
    var endReceived: bool
    var numRetransmissions: nat
    var lastId: int
    var outbox: seq<DccnetFrame>
    var output: seq<byte>
    var closed: bool
    var senderStopped: bool

    ghost function State(): Conn
      reads this
    {
      Conn(lastReceivedId, lastReceivedChecksum, frameId, retransmissionCounterAck,
           retransmissionCounterData, currentLine, lineIndex, currentFlags, endSent,
           endReceived, numRetransmissions, lastId, outbox, output, closed, senderStopped)
    }

    ghost predicate Valid()
      reads this
    {
      Invariant(State(), inputLines)
    }

    /** `__init__`, after the input file has been read into `lines` (an empty file
        makes `input_lines[0]` raise). */
    constructor (lines: seq<seq<byte>>)
      requires |lines| > 0
      ensures Valid() && inputLines == lines && State() == Init(lines)
    {
      inputLines := lines;
      lastReceivedId, lastReceivedChecksum := None, None;
      frameId := 0;
      retransmissionCounterAck, retransmissionCounterData := 0, 0;
      currentLine := lines[0];
      lineIndex := 0;
      currentFlags := 0;
      endSent, endReceived := false, false;
      numRetransmissions, lastId := 0, 0;
      outbox, output := [], [];
      closed, senderStopped := false, false;
    }

    method SendAck(id: DecodedId)
      modifies this`outbox
      ensures outbox == old(outbox) + [AckFrame(id)]
    {
      outbox := outbox + [AckFrame(id)];
    }

    /** `send_rst`: send the RST frame, then close the socket. */
    method SendRst(message: seq<byte>)
      modifies this`outbox, this`closed
      ensures outbox == old(outbox) + [RstFrame(message)] && closed
    {
      outbox := outbox + [RstFrame(message)];
      closed := true;
    }

    /** One iteration of the receive loop of `run`, for a frame that decoded. */
    method OnFrame(chksum: int, length: int, id: DecodedId, flags: byte, payload: seq<byte>)
      requires Valid() && !closed
      modifies this
      ensures Valid()
      ensures State() == Received(old(State()), inputLines, chksum, length, id, flags, payload)
    {
      ReceivedKeepsInvariant(State(), inputLines, chksum, length, id, flags, payload);
      if HasFlag(flags, RstFlag) {
        closed := true;
        return;
      }
      Dispatch(chksum, id, flags, payload);
      if endReceived && endSent {
        closed := true;
      }
    }

    /** The duplicate / data / ACK classification inside the receive loop. */
    method Dispatch(chksum: int, id: DecodedId, flags: byte, payload: seq<byte>)
      requires |inputLines| > 0
      modifies this`outbox, this`closed, this`retransmissionCounterAck, this`output, this`endReceived,
               this`lineIndex, this`currentLine, this`currentFlags, this`frameId
      ensures State() == Dispatched(old(State()), inputLines, chksum, id, flags, payload)
    {
      if lastReceivedId == Some(id) && lastReceivedChecksum == Some(chksum) {
        AnswerDuplicate(id);
      } else if !HasFlag(flags, AckFlag) {
        Deliver(id, flags, payload);
      } else if frameId == id {
        AdvanceLine();
      }
    }

    /** The duplicate branch: RST after too many duplicates, otherwise ACK again. */
    method AnswerDuplicate(id: DecodedId)
      modifies this`outbox, this`closed, this`retransmissionCounterAck
      ensures State() == DuplicateAnswered(old(State()), id)
    {
      if retransmissionCounterAck > MaxDuplicateAcks {
        SendRst(TooManyDuplicates);
        return;
      }
      SendAck(id);
      retransmissionCounterAck := retransmissionCounterAck + 1;
    }

    /** The data branch: append the payload (and a newline on END), then ACK. */
    method Deliver(id: DecodedId, flags: byte, payload: seq<byte>)
      modifies this`retransmissionCounterAck, this`output, this`endReceived, this`outbox
      ensures State() == Delivered(old(State()), id, flags, payload)
    {
      if !endReceived {
        retransmissionCounterAck := 0;
        output := output + payload;
        if HasFlag(flags, EndFlag) {
          endReceived := true;
          output := output + [Newline];
        }
        SendAck(id);
      }
    }

    /** A matching ACK, under the lock: next line, END on the last one, flip the id. */
    method AdvanceLine()
      requires |inputLines| > 0
      modifies this`lineIndex, this`currentLine, this`currentFlags, this`frameId
      ensures State() == Advanced(old(State()), inputLines)
    {
      lineIndex := lineIndex + 1;
      if lineIndex < |inputLines| {
        currentLine := inputLines[lineIndex];
        if lineIndex == |inputLines| - 1 {
          currentFlags := EndFlag;
        }
      }
      frameId := 1 - frameId;
    }

    /** One iteration of the receive loop of `run` on the bytes of one `recv`. */
    method Receive(raw: seq<byte>)
      requires Valid() && !closed
      modifies this
      ensures Valid()
      ensures State() == ReceivedRaw(old(State()), inputLines, raw)
    {
      var decoded := DecodeFrame(raw);
      match decoded
      case Ok(d) =>
        OnFrame(d.checksum, |d.payload|, d.frameId, d.flags, d.payload);
      case Err(_) =>
        if endReceived && endSent {
          closed := true;
        }
    }

    /** One iteration of the loop of `send_data`. */
    method SendTick()
      requires Valid() && !senderStopped
      modifies this`numRetransmissions, this`outbox, this`closed, this`senderStopped,
               this`lastId, this`endSent
      ensures Valid()
      ensures State() == Tick(old(State()))
    {
      ghost var before := State();
      if closed {
        senderStopped := true;
        TickKeepsInvariant(before, inputLines);
        return;
      }
      if lastId == frameId {
        numRetransmissions := numRetransmissions + 1;
        if numRetransmissions > MaxRetransmissions {
          SendRst(RetriesExhausted);
          senderStopped := true;
          TickKeepsInvariant(before, inputLines);
          return;
        }
      } else {
        numRetransmissions := 0;
      }
      assert State() == Counted(before);
      Transmit();
      TickKeepsInvariant(before, inputLines);
    }

    /** The send of `send_data`; a frame `build_frame` rejects stops the sender. */
    method Transmit()
      modifies this`outbox, this`lastId, this`endSent, this`senderStopped
      ensures State() == Sent(old(State()))
    {
      var frame := DccnetFrame(currentLine, frameId, currentFlags);
      var wire := BuildFrame(frame);
      if wire.Err? {
        senderStopped := true;
        return;
      }
      outbox := outbox + [frame];
      lastId := frameId;
      if HasFlag(currentFlags, EndFlag) {
        endSent := true;
      }
    }
  }

  // ---------------------------------------------------------------------------
  // Properties of the engine, stated on the value-level steps.

  lemma InitEstablishesInvariant(lines: seq<seq<byte>>)
    requires |lines| > 0
    ensures Invariant(Init(lines), lines)
  {
  }

  /** The invariant is kept by every received frame; in particular `frame_id`
      stays 0 or 1. */
  lemma ReceivedKeepsInvariant(c: Conn, lines: seq<seq<byte>>, chksum: int, length: int, id: DecodedId,
                               flags: byte, payload: seq<byte>)
    requires Invariant(c, lines)
    ensures Invariant(Received(c, lines, chksum, length, id, flags, payload), lines)
  {
    if !HasFlag(flags, RstFlag) {
      DispatchedKeepsInvariant(c, lines, chksum, id, flags, payload);
      EndCheckKeepsInvariant(Dispatched(c, lines, chksum, id, flags, payload), lines);
    }
  }

  lemma DispatchedKeepsInvariant(c: Conn, lines: seq<seq<byte>>, chksum: int, id: DecodedId,
                                 flags: byte, payload: seq<byte>)
    requires Invariant(c, lines)
    ensures Invariant(Dispatched(c, lines, chksum, id, flags, payload), lines)
  {
    if IsDuplicate(c, id, chksum) {
      DuplicateAnsweredKeepsInvariant(c, lines, id);
    } else if !HasFlag(flags, AckFlag) {
      DeliveredKeepsInvariant(c, lines, id, flags, payload);
    } else if c.frameId == id {
      AdvancedKeepsInvariant(c, lines);
    }
  }

  /** Answering a duplicate touches only the outbox, the ACK counter and `closed`. */
  lemma DuplicateAnsweredKeepsInvariant(c: Conn, lines: seq<seq<byte>>, id: DecodedId)
    requires Invariant(c, lines)
    ensures Invariant(DuplicateAnswered(c, id), lines)
  {
  }

  /** Delivering data touches only the output, the outbox, the ACK counter and
      `end_received`. */
  lemma DeliveredKeepsInvariant(c: Conn, lines: seq<seq<byte>>, id: DecodedId, flags: byte, payload: seq<byte>)
    requires Invariant(c, lines)
    ensures Invariant(Delivered(c, id, flags, payload), lines)
  {
  }

  /** The line bookkeeping of a matching ACK keeps the invariant. */
  lemma AdvancedKeepsInvariant(c: Conn, lines: seq<seq<byte>>)
    requires Invariant(c, lines)
    ensures Invariant(Advanced(c, lines), lines)
  {
  }

  lemma EndCheckKeepsInvariant(c: Conn, lines: seq<seq<byte>>)
    requires Invariant(c, lines)
    ensures Invariant(EndCheck(c), lines)
  {
  }

  lemma TickKeepsInvariant(c: Conn, lines: seq<seq<byte>>)
    requires Invariant(c, lines)
    ensures Invariant(Tick(c), lines)
  {
  }

  /** A frame with the RST bit closes the connection; nothing is written and no
      ACK is sent. */
  lemma RstClosesSilently(c: Conn, lines: seq<seq<byte>>, chksum: int, length: int, id: DecodedId,
                          flags: byte, payload: seq<byte>)
    requires HasFlag(flags, RstFlag)
    ensures var r := Received(c, lines, chksum, length, id, flags, payload);
            r.closed && r.output == c.output && r.outbox == c.outbox
            && r.frameId == c.frameId && r.lineIndex == c.lineIndex
  {
  }

  /** The last received id and checksum are never recorded, so the duplicate
      branch never fires in a state reached from `Init`. */
  lemma DuplicateBranchNeverFires(c: Conn, lines: seq<seq<byte>>, chksum: int, length: int, id: DecodedId,
                                  flags: byte, payload: seq<byte>)
    requires c.lastReceivedId == None
    ensures !IsDuplicate(c, id, chksum)
    ensures Received(c, lines, chksum, length, id, flags, payload).lastReceivedId == None
    ensures Tick(c).lastReceivedId == None
  {
  }

  /** An ACK for an id other than the current `frame_id` changes nothing (beyond
      the end-of-transfer check every iteration makes). */
  lemma StaleAckIgnored(c: Conn, lines: seq<seq<byte>>, chksum: int, length: int, id: DecodedId,
                        flags: byte, payload: seq<byte>)
    requires !HasFlag(flags, RstFlag) && HasFlag(flags, AckFlag)
    requires !IsDuplicate(c, id, chksum) && id != c.frameId
    ensures Received(c, lines, chksum, length, id, flags, payload) == EndCheck(c)
  {
  }

  /** A matching ACK advances to the next line and flips `frame_id`; the current
      line changes only while lines remain, and the flags become END exactly when
      the new index is the last line's. */
  lemma MatchingAckAdvances(c: Conn, lines: seq<seq<byte>>, chksum: int, length: int,
                            flags: byte, payload: seq<byte>)
    requires Invariant(c, lines)
    requires !HasFlag(flags, RstFlag) && HasFlag(flags, AckFlag) && !IsDuplicate(c, c.frameId, chksum)
    ensures var r := Received(c, lines, chksum, length, c.frameId, flags, payload);
            && r.lineIndex == c.lineIndex + 1
            && r.frameId == 1 - c.frameId
            && r.currentLine == (if c.lineIndex + 1 < |lines| then lines[c.lineIndex + 1] else c.currentLine)
            && (c.lineIndex + 1 == |lines| - 1 ==> r.currentFlags == EndFlag)
            && (c.lineIndex + 1 < |lines| - 1 ==> r.currentFlags == 0)
            && r.output == c.output && r.outbox == c.outbox
  {
  }

  /** A new data frame before the peer's END: its payload is appended (with a
      newline when END is set), the ACK counter resets, an ACK with the same id
      is sent, and `end_received` becomes the frame's END bit. */
  lemma DataFrameDelivered(c: Conn, lines: seq<seq<byte>>, chksum: int, length: int, id: DecodedId,
                           flags: byte, payload: seq<byte>)
    requires !HasFlag(flags, RstFlag) && !HasFlag(flags, AckFlag)
    requires !IsDuplicate(c, id, chksum) && !c.endReceived
    ensures var r := Received(c, lines, chksum, length, id, flags, payload);
            && r.output == c.output + payload + (if HasFlag(flags, EndFlag) then [Newline] else [])
            && r.outbox == c.outbox + [AckFrame(id)]
            && r.retransmissionCounterAck == 0
            && r.endReceived == HasFlag(flags, EndFlag)
            && r.frameId == c.frameId && r.lineIndex == c.lineIndex
  {
  }

  /** After the peer's END, data frames are neither written nor acknowledged. */
  lemma DataAfterEndIgnored(c: Conn, lines: seq<seq<byte>>, chksum: int, length: int, id: DecodedId,
                            flags: byte, payload: seq<byte>)
    requires !HasFlag(flags, AckFlag) && !IsDuplicate(c, id, chksum) && c.endReceived
    ensures var r := Received(c, lines, chksum, length, id, flags, payload);
            r.output == c.output && r.outbox == c.outbox
  {
  }

  /** `end_received` and `end_sent` never revert. */
  lemma EndFlagsStay(c: Conn, lines: seq<seq<byte>>, chksum: int, length: int, id: DecodedId,
                     flags: byte, payload: seq<byte>)
    ensures var r := Received(c, lines, chksum, length, id, flags, payload);
            (c.endReceived ==> r.endReceived) && (c.endSent ==> r.endSent)
    ensures c.endReceived ==> Tick(c).endReceived
    ensures c.endSent ==> Tick(c).endSent
  {
  }

  /** Outside RST, the receive loop closes the connection exactly when both END
      frames have been seen. */
  lemma GracefulCloseNeedsBothEnds(c: Conn, lines: seq<seq<byte>>, chksum: int, length: int, id: DecodedId,
                                   flags: byte, payload: seq<byte>)
    requires !c.closed && c.lastReceivedId == None && !HasFlag(flags, RstFlag)
    ensures var r := Received(c, lines, chksum, length, id, flags, payload);
            r.closed <==> r.endSent && r.endReceived
  {
  }

  /** The sender counter: it grows by one on a tick whose `frame_id` is the one
      last sent, and restarts at 0 when `frame_id` changed. */
  lemma TickCounter(c: Conn)
    requires !c.closed
    ensures Tick(c).numRetransmissions == if c.lastId == c.frameId then c.numRetransmissions + 1 else 0
  {
  }

  /** A tick below the retransmission limit sends the current line once, with
      the current id and flags, records that id as the last sent, sets `end_sent`
      at once when the flags carry END (before any ACK), and changes nothing else
      the receiver reads. */
  lemma TickTransmits(c: Conn)
    requires !c.closed && (c.lastId != c.frameId || c.numRetransmissions < MaxRetransmissions)
    requires Packable(CurrentFrame(c))
    ensures var t := Tick(c);
            && t.outbox == c.outbox + [CurrentFrame(c)]
            && t.lastId == c.frameId && !t.closed && t.senderStopped == c.senderStopped
            && t.endSent == (c.endSent || HasFlag(c.currentFlags, EndFlag))
            && t.currentLine == c.currentLine && t.frameId == c.frameId && t.currentFlags == c.currentFlags
            && t.numRetransmissions == (if c.lastId == c.frameId then c.numRetransmissions + 1 else 0)
  {
  }

  /** A tick below the retransmission limit whose frame `build_frame` cannot pack
      sends nothing and stops the sender; the socket stays open. */
  lemma UnpackableLineStopsSender(c: Conn)
    requires !c.closed && (c.lastId != c.frameId || c.numRetransmissions < MaxRetransmissions)
    requires !Packable(CurrentFrame(c))
    ensures var t := Tick(c);
            && t.outbox == c.outbox && t.senderStopped && !t.closed
            && t.lastId == c.lastId && t.endSent == c.endSent
  {
  }

  /** A first line of 2^16 bytes or more is never sent: the first tick stops the
      sender with an empty outbox. */
  lemma LongFirstLineNeverSent(lines: seq<seq<byte>>)
    requires |lines| > 0 && |lines[0]| >= U16Limit
    ensures Tick(Init(lines)).outbox == [] && Tick(Init(lines)).senderStopped
  {
    UnpackableLineStopsSender(Init(lines));
  }

  /** With nobody acknowledging, a frame already sent `n` times is sent `17 - n`
      more times, then the RST frame goes out and the sender stops. */
  lemma {:induction false} SilentPeerGetsReset(c: Conn)
    requires !c.closed && c.lastId == c.frameId && c.numRetransmissions <= MaxRetransmissions
    requires Packable(CurrentFrame(c))
    ensures var r := Ticks(c, MaxRetransmissions + 1 - c.numRetransmissions);
            && r.closed && r.senderStopped
            && r.outbox == c.outbox
                           + Copies(DccnetFrame(c.currentLine, c.frameId, c.currentFlags),
                                    MaxRetransmissions - c.numRetransmissions)
                           + [RstFrame(RetriesExhausted)]
    decreases MaxRetransmissions - c.numRetransmissions
  {
    var f := CurrentFrame(c);
    var k := MaxRetransmissions - c.numRetransmissions;
    TicksUnfold(c, k);
    if k == 0 {
      assert Ticks(Tick(c), 0) == Tick(c);
    } else {
      var c' := Tick(c);
      TickTransmits(c);
      SilentPeerGetsReset(c');
      var copies := Copies(f, k - 1);
      assert [f] + copies == Copies(f, k);
      assert c.outbox + [f] + copies == c.outbox + ([f] + copies);
    }
  }

  /** A frame whose id has just changed is sent 18 times before the RST. */
  lemma NewIdSentEighteenTimes(c: Conn)
    requires !c.closed && c.lastId != c.frameId && Packable(CurrentFrame(c))
    ensures var r := Ticks(c, MaxRetransmissions + 2);
            && r.closed && r.senderStopped
            && r.outbox == c.outbox
                           + Copies(DccnetFrame(c.currentLine, c.frameId, c.currentFlags),
                                    MaxRetransmissions + 1)
                           + [RstFrame(RetriesExhausted)]
  {
    var f := CurrentFrame(c);
    var c' := Tick(c);
    TickTransmits(c);
    SilentPeerGetsReset(c');
    TicksUnfold(c, MaxRetransmissions + 1);
    var copies := Copies(f, MaxRetransmissions);
    assert [f] + copies == Copies(f, MaxRetransmissions + 1);
    assert c.outbox + [f] + copies == c.outbox + ([f] + copies);
  }

  lemma TicksUnfold(c: Conn, k: nat)
    ensures Ticks(c, k + 1) == Ticks(Tick(c), k)
  {
  }

  /** The first line, whose id equals the initial `last_id`, is sent only 17 times. */
  lemma FirstLineSentSeventeenTimes(lines: seq<seq<byte>>)
    requires |lines| > 0 && |lines[0]| < U16Limit
    ensures Ticks(Init(lines), MaxRetransmissions + 1).outbox
            == Copies(DccnetFrame(lines[0], 0, 0), MaxRetransmissions) + [RstFrame(RetriesExhausted)]
  {
    SilentPeerGetsReset(Init(lines));
  }

  /** A one-line input never sends END: the flags become END only after an ACK
      moves the index onto the last line, which needs a second line. */
  lemma SingleLineNeverSendsEnd(c: Conn, lines: seq<seq<byte>>)
    requires Invariant(c, lines) && |lines| == 1
    ensures c.currentFlags == 0 && !c.endSent
  {
  }

  /** Every frame other than an RST frame is one `build_frame` accepts. */
  predicate Buildable(frames: seq<DccnetFrame>)
  {
    forall k :: 0 <= k < |frames| ==> frames[k].flags == RstFlag || BuildFrame(frames[k]).Ok?
  }

  lemma BuildableSnoc(frames: seq<DccnetFrame>, f: DccnetFrame)
    requires Buildable(frames) && (f.flags == RstFlag || BuildFrame(f).Ok?)
    ensures Buildable(frames + [f])
  {
    forall k | 0 <= k < |frames + [f]|
      ensures (frames + [f])[k].flags == RstFlag || BuildFrame((frames + [f])[k]).Ok?
    {
      if k < |frames| {
        assert (frames + [f])[k] == frames[k];
      }
    }
  }

  /** The receive loop hands `build_frame` only frames it accepts, apart from RST
      frames: its ACKs carry an id of 0 or 1 and no payload. */
  lemma ReceivedKeepsBuildable(c: Conn, lines: seq<seq<byte>>, chksum: int, length: int, id: DecodedId,
                               flags: byte, payload: seq<byte>)
    requires Buildable(c.outbox)
    ensures Buildable(Received(c, lines, chksum, length, id, flags, payload).outbox)
  {
    if !HasFlag(flags, RstFlag) {
      DispatchedKeepsBuildable(c, lines, chksum, id, flags, payload);
    }
  }

  lemma DispatchedKeepsBuildable(c: Conn, lines: seq<seq<byte>>, chksum: int, id: DecodedId,
                                 flags: byte, payload: seq<byte>)
    requires Buildable(c.outbox)
    ensures Buildable(Dispatched(c, lines, chksum, id, flags, payload).outbox)
  {
    if IsDuplicate(c, id, chksum) {
      BuildableSnoc(c.outbox, RstFrame(TooManyDuplicates));
      BuildableSnoc(c.outbox, AckFrame(id));
    } else if !HasFlag(flags, AckFlag) {
      BuildableSnoc(c.outbox, AckFrame(id));
    }
  }

  /** The sender hands `build_frame` only frames it accepts, apart from RST frames:
      a frame that does not pack is never sent. */
  lemma TickKeepsBuildable(c: Conn)
    requires Buildable(c.outbox)
    ensures Buildable(Tick(c).outbox)
  {
    var t := Tick(c);
    if t.outbox != c.outbox {
      assert t.outbox == c.outbox + [t.outbox[|t.outbox| - 1]];
      BuildableSnoc(c.outbox, t.outbox[|t.outbox| - 1]);
    }
  }
}
