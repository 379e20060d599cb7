/**
  The client of dccnet-md5.py (class `DCCNETTransmitter` and `main`).

  The socket's incoming side is one byte sequence: each `recvfrom(n)` takes the
  next `n` bytes, or all that remain when fewer are left. The outgoing side is
  the sequence of frames handed to `send_frame` / `send_ack`. An exception that
  leaves `receive_frame` or `receive_ack` ends the program; it is the `Err` side
  of a `Result` here.

  The header these readers expect is 15 bytes, unlike utils.py's 14: two sync
  words, then `!HHHB` (checksum, length, a 2-byte id, flags). The sync word is the
  4-byte pattern dc c0 23 c2 (`DCCNETFrame.SYNC_BYTES`, which the code compares
  against, does not exist in utils.py; the pattern is the one dccnet-xfer.py uses).
*/
module Md5Client {
  import opened Wrappers
  import opened Bytes
  import opened Frame
  import opened Resend

  const SyncWordSize: nat := 4
  const WireHeaderSize: nat := 15
  const GasAttempts: nat := 16

  /** How `receive_frame` and `receive_ack` fail. */
  datatype RxError = BadSyncPattern | ShortHeader | BadLength | BadChecksum

  /** The tuple `receive_frame` returns: `(chksum, length, frame_id, flags, payload)`. */
  datatype RxFrame = RxFrame(checksum: nat, length: nat, frameId: nat, flags: byte, payload: seq<byte>)

  /** A value read from the stream, with the bytes left after it. */
  datatype Rx<T> = Rx(value: T, rest: seq<byte>)

  /** The bytes one `recvfrom(n)` returns. */
  function Take(inp: seq<byte>, n: nat): (r: seq<byte>)
    ensures |r| == if n <= |inp| then n else |inp|
    ensures r == inp[..|r|]
  {
    if n <= |inp| then inp[..n] else inp
  }

  /** A `recvfrom(4)` at offset `at` returns the sync pattern: the four bytes are
      there and equal to it. */
  predicate SyncAt(inp: seq<byte>, at: nat)
  {
    && at + SyncWordSize <= |inp|
    && inp[at] == 0xdc && inp[at + 1] == 0xc0 && inp[at + 2] == 0x23 && inp[at + 3] == 0xc2
  }

  /** `SyncAt` is a comparison with the sync pattern of utils.py. */
  lemma SyncAtIsPattern(inp: seq<byte>, at: nat)
    ensures SyncAt(inp, at) <==> at + SyncWordSize <= |inp| && inp[at..at + SyncWordSize] == SyncPattern
  {
    if at + SyncWordSize <= |inp| && inp[at..at + SyncWordSize] == SyncPattern {
      assert inp[at..at + SyncWordSize][3] == inp[at + 3];
    }
  }

  /** The bytes left after a `recvfrom(n)`: none when fewer than `n` remained. */
  function Drop(inp: seq<byte>, n: nat): (r: seq<byte>)
    ensures |r| == if n <= |inp| then |inp| - n else 0
  {
    if n <= |inp| then inp[n..] else []
  }

  /** `data.decode('ascii', errors='ignore')`: every byte from 0x80 up is dropped. */
  function AsciiDecode(data: seq<byte>): (r: seq<byte>)
    ensures |r| <= |data|
    ensures forall i :: 0 <= i < |r| ==> r[i] < 0x80
  {
    if data == [] then []
    else if data[0] < 0x80 then [data[0]] + AsciiDecode(data[1..])
    else AsciiDecode(data[1..])
  }

  predicate IsAscii(data: seq<byte>)
  {
    forall i :: 0 <= i < |data| ==> data[i] < 0x80
  }

  /** Decoding loses no byte exactly when every byte is ASCII, and then it is the identity. */
  lemma {:induction false} AsciiDecodeKeepsLength(data: seq<byte>)
    ensures |AsciiDecode(data)| == |data| <==> IsAscii(data)
    ensures IsAscii(data) ==> AsciiDecode(data) == data
  {
    if data != [] {
      AsciiDecodeKeepsLength(data[1..]);
      if data[0] < 0x80 {
        assert IsAscii(data) <==> IsAscii(data[1..]);
      } else {
        assert !IsAscii(data);
      }
    }
  }

  /** The `struct.pack("!4s4sHHHB{length}s", ...)` of `receive_frame`, here with
      any value in the checksum field. */
  function PackFrame(chksum: nat, id: nat, flags: byte, payload: seq<byte>): (r: seq<byte>)
    requires chksum < U16Limit && |payload| < U16Limit && id < U16Limit
    ensures |r| == WireHeaderSize + |payload|
  {
    SyncPattern + SyncPattern + Be16(chksum) + Be16(|payload|) + Be16(id) + [flags] + payload
  }

  /** Reading a packed frame back, field by field, gives the values packed into it. */
  lemma PackFrameFields(chksum: nat, id: nat, flags: byte, payload: seq<byte>, rest: seq<byte>)
    requires chksum < U16Limit && |payload| < U16Limit && id < U16Limit
    ensures var inp := PackFrame(chksum, id, flags, payload) + rest;
            && inp[..4] == SyncPattern && inp[4..8] == SyncPattern
            && ParseBe16(inp[8..10]) == chksum && ParseBe16(inp[10..12]) == |payload|
            && ParseBe16(inp[12..14]) == id && inp[14] == flags
            && inp[WireHeaderSize..WireHeaderSize + |payload|] == payload
            && inp[WireHeaderSize + |payload|..] == rest
  {
    var inp := PackFrame(chksum, id, flags, payload) + rest;
    assert inp[8..10] == Be16(chksum);
    assert inp[10..12] == Be16(|payload|);
    assert inp[12..14] == Be16(id);
    ParseBe16OfBe16(chksum);
    ParseBe16OfBe16(|payload|);
    ParseBe16OfBe16(id);
  }

  /** The checksum `receive_frame` accepts: the utils.py byte sum of the re-packed
      frame with the checksum field zeroed. */
  function WireChecksum(id: nat, flags: byte, payload: seq<byte>): (r: nat)
    requires |payload| < U16Limit && id < U16Limit
    ensures r < U16Limit
  {
    ComputeChecksum(PackFrame(0, id, flags, payload))
  }

  /** Zeroing the checksum field drops it from the byte sum: the accepted checksum
      is the sum of every other byte of the frame. */
  lemma WireChecksumSkipsField(chksum: nat, id: nat, flags: byte, payload: seq<byte>)
    requires chksum < U16Limit && |payload| < U16Limit && id < U16Limit
    ensures var w := PackFrame(chksum, id, flags, payload);
            WireChecksum(id, flags, payload) == ComputeChecksum(w[..8] + w[10..])
  {
    var w := PackFrame(chksum, id, flags, payload);
    var z := PackFrame(0, id, flags, payload);
    assert z == w[..8] + [0, 0] + w[10..];
    SumConcat(w[..8] + [0, 0], w[10..]);
    SumConcat(w[..8], [0, 0]);
    SumConcat(w[..8], w[10..]);
  }

  /** `receive_frame`: first sync word, second sync word, the 7 header bytes, then
      `length` payload bytes decoded as ASCII; then the length and checksum tests. */
  function ReceiveFrame(inp: seq<byte>): (r: Result<Rx<RxFrame>, RxError>)
    ensures r.Ok? ==> |r.value.rest| + WireHeaderSize <= |inp|
  {
    if !SyncAt(inp, 0) then Err(BadSyncPattern)
    else if !SyncAt(inp, 4) then Err(BadSyncPattern)
    else if |inp| < WireHeaderSize then Err(ShortHeader)
    else
      var chksum := ParseBe16(inp[8..10]);
      var length := ParseBe16(inp[10..12]);
      var id := ParseBe16(inp[12..14]);
      var flags := inp[14];
      var data := Take(inp[WireHeaderSize..], length);
      var payload := AsciiDecode(data);
      if length != |payload| then Err(BadLength)
      else if chksum != WireChecksum(id, flags, payload) then Err(BadChecksum)
      else Ok(Rx(RxFrame(chksum, length, id, flags, payload), inp[WireHeaderSize + length..]))
  }

  /** What `receive_frame` accepts: exactly a frame re-packed from its own fields,
      with an ASCII payload of the declared length and the checksum computed over
      it, followed by the rest of the stream. */
  lemma ReceivedFrameIsPacked(inp: seq<byte>)
    requires ReceiveFrame(inp).Ok?
    ensures var f := ReceiveFrame(inp).value.value;
            && f.length == |f.payload| && f.length < U16Limit && IsAscii(f.payload)
            && f.checksum < U16Limit && f.frameId < U16Limit
            && inp == PackFrame(f.checksum, f.frameId, f.flags, f.payload) + ReceiveFrame(inp).value.rest
            && f.checksum == WireChecksum(f.frameId, f.flags, f.payload)
  {
    var length := ParseBe16(inp[10..12]);
    ReceivedFrameFields(inp);
    AcceptedStartsWithSync(inp);
    PackedHeader(inp, length);
  }

  /** An accepted frame's fields are the header bytes as read, and its payload is
      the `length` bytes after the header, all of them ASCII. */
  lemma ReceivedFrameFields(inp: seq<byte>)
    requires ReceiveFrame(inp).Ok?
    ensures var length := ParseBe16(inp[10..12]);
            && |inp| >= WireHeaderSize + length
            && IsAscii(inp[WireHeaderSize..WireHeaderSize + length])
            && ReceiveFrame(inp).value
               == Rx(RxFrame(ParseBe16(inp[8..10]), length, ParseBe16(inp[12..14]), inp[14],
                             inp[WireHeaderSize..WireHeaderSize + length]),
                     inp[WireHeaderSize + length..])
  {
    var length := ParseBe16(inp[10..12]);
    var data := Take(inp[WireHeaderSize..], length);
    AsciiDecodeKeepsLength(data);
    assert |AsciiDecode(data)| == length;
    assert |data| == length;
    assert data == inp[WireHeaderSize..WireHeaderSize + length];
  }

  /** Both readers accept only a stream that starts with the two sync words. */
  lemma AcceptedStartsWithSync(inp: seq<byte>)
    requires ReceiveFrame(inp).Ok? || ReceiveAck(inp).Ok?
    ensures |inp| >= WireHeaderSize && inp[..4] == SyncPattern && inp[4..8] == SyncPattern
  {
    SyncAtIsPattern(inp, 0);
    SyncAtIsPattern(inp, 4);
  }

  /** A stream holding the two sync words and `length` payload bytes is its header
      fields re-packed, its payload and what follows. */
  lemma PackedHeader(inp: seq<byte>, length: nat)
    requires |inp| >= WireHeaderSize + length && inp[..4] == SyncPattern && inp[4..8] == SyncPattern
    requires ParseBe16(inp[10..12]) == length
    ensures inp == PackFrame(ParseBe16(inp[8..10]), ParseBe16(inp[12..14]), inp[14],
                             inp[WireHeaderSize..WireHeaderSize + length])
                   + inp[WireHeaderSize + length..]
  {
    Be16OfParseBe16(inp[8..10]);
    Be16OfParseBe16(inp[10..12]);
    Be16OfParseBe16(inp[12..14]);
    assert inp[..8] == SyncPattern + SyncPattern;
    assert inp == inp[..8] + inp[8..10] + inp[10..12] + inp[12..14] + [inp[14]]
                  + inp[WireHeaderSize..WireHeaderSize + length] + inp[WireHeaderSize + length..];
  }

  /** The accepted checksum is the byte sum, mod 2^16, of every byte of the frame
      except the checksum field itself. */
  lemma AcceptedChecksumCoversAllButItself(inp: seq<byte>)
    requires ReceiveFrame(inp).Ok?
    ensures var f := ReceiveFrame(inp).value.value;
            f.checksum == ComputeChecksum(inp[..8] + inp[10..WireHeaderSize + f.length])
  {
    var f := ReceiveFrame(inp).value.value;
    ReceivedFrameIsPacked(inp);
    var w := PackFrame(f.checksum, f.frameId, f.flags, f.payload);
    WireChecksumSkipsField(f.checksum, f.frameId, f.flags, f.payload);
    assert w == inp[..WireHeaderSize + f.length];
    assert w[..8] == inp[..8] && w[10..] == inp[10..WireHeaderSize + f.length];
  }

  /** Round trip: a frame packed with the checksum `receive_frame` computes, and an
      ASCII payload, is read back field for field, leaving what follows it. */
  lemma ReceiveFrameRoundTrip(id: nat, flags: byte, payload: seq<byte>, rest: seq<byte>)
    requires |payload| < U16Limit && id < U16Limit && IsAscii(payload)
    ensures var c := WireChecksum(id, flags, payload);
            ReceiveFrame(PackFrame(c, id, flags, payload) + rest)
            == Ok(Rx(RxFrame(c, |payload|, id, flags, payload), rest))
  {
    var c := WireChecksum(id, flags, payload);
    PackFrameFields(c, id, flags, payload, rest);
    var inp := PackFrame(c, id, flags, payload) + rest;
    assert inp[WireHeaderSize..][..|payload|] == payload;
    AsciiDecodeKeepsLength(payload);
  }

  /** The first sync word is tested before the second is read: a stream that does
      not start with it fails, whatever follows. */
  lemma FirstSyncWordCheckedFirst(inp: seq<byte>)
    requires |inp| < SyncWordSize || inp[..4] != SyncPattern
    ensures ReceiveFrame(inp) == Err(BadSyncPattern) && ReceiveAck(inp) == Err(BadSyncPattern)
  {
  }

  /** With both sync words and a full header, a payload holding a byte from 0x80
      up, or cut short by the end of the stream, fails the length test. */
  lemma NonAsciiOrShortPayloadBadLength(inp: seq<byte>)
    requires |inp| >= WireHeaderSize && inp[..4] == SyncPattern && inp[4..8] == SyncPattern
    requires var length := ParseBe16(inp[10..12]);
             |inp| < WireHeaderSize + length || !IsAscii(inp[WireHeaderSize..WireHeaderSize + length])
    ensures ReceiveFrame(inp) == Err(BadLength)
  {
    var length := ParseBe16(inp[10..12]);
    var data := Take(inp[WireHeaderSize..], length);
    AsciiDecodeKeepsLength(data);
    if |inp| >= WireHeaderSize + length {
      assert data == inp[WireHeaderSize..WireHeaderSize + length];
    }
  }

  /** `receive_ack`: the same reads as `receive_frame`, but no length or checksum
      test; true exactly when the flags byte is 0x80. */
  function ReceiveAck(inp: seq<byte>): (r: Result<Rx<bool>, RxError>)
    ensures r.Ok? ==> |r.value.rest| + WireHeaderSize <= |inp|
  {
    if !SyncAt(inp, 0) then Err(BadSyncPattern)
    else if !SyncAt(inp, 4) then Err(BadSyncPattern)
    else if |inp| < WireHeaderSize then Err(ShortHeader)
    else
      var length := ParseBe16(inp[10..12]);
      var flags := inp[14];
      Ok(Rx(flags == AckFlag, Drop(inp, WireHeaderSize + length)))
  }

  /** `receive_ack` succeeds exactly on a stream holding both sync words and a
      full header, and answers yes exactly when the flags byte is 0x80. */
  lemma ReceiveAckAccepts(inp: seq<byte>)
    ensures ReceiveAck(inp).Ok? <==> |inp| >= WireHeaderSize && inp[..4] == SyncPattern && inp[4..8] == SyncPattern
    ensures ReceiveAck(inp).Ok? ==> (ReceiveAck(inp).value.value <==> inp[14] == AckFlag)
  {
    SyncAtIsPattern(inp, 0);
    SyncAtIsPattern(inp, 4);
  }

  /** A frame in the 15-byte layout, whatever its checksum, is read whole by
      `receive_ack`, which answers whether its flags are exactly the ACK flag. */
  lemma ReceiveAckOfPacked(chksum: nat, id: nat, flags: byte, payload: seq<byte>, rest: seq<byte>)
    requires chksum < U16Limit && |payload| < U16Limit && id < U16Limit
    ensures ReceiveAck(PackFrame(chksum, id, flags, payload) + rest) == Ok(Rx(flags == AckFlag, rest))
  {
    PackFrameFields(chksum, id, flags, payload, rest);
    var inp := PackFrame(chksum, id, flags, payload) + rest;
    SyncAtIsPattern(inp, 0);
    SyncAtIsPattern(inp, 4);
  }

  // ---------------------------------------------------------------------------
  // `main`: the GAS exchange and the data loop.

  /** The frame carrying the GAS credential: `gas + '\n'`, id 0, flags 0. */
  function GasFrame(gas: seq<byte>): DccnetFrame
  {
    DccnetFrame(gas + [Newline], 0, 0)
  }

  /** `hexdigest()` of an MD5 hash: 32 hexadecimal digits, as ASCII bytes. */
  type HexDigest = s: seq<byte> | |s| == 32 witness seq(32, _ => 0x30)

  /** The frame answering one line: its digest and a newline, flags 0. */
  function DigestFrame(digest: seq<byte> -> HexDigest, line: seq<byte>, id: int): DccnetFrame
  {
    DccnetFrame(digest(line) + [Newline], id, 0)
  }

  /** What the GAS loop did: how many `receive_ack` calls said "no" (one resend
      each), how many calls were made, the bytes left, and the failure if one
      ended the program. */
  datatype GasOutcome = GasOutcome(nacks: nat, attempts: nat, rest: seq<byte>, failure: Option<RxError>)

  /** `for _ in range(budget)`: call `receive_ack`, resend on "no", stop on "yes";
      `nacks` counts the refusals before this point. */
  function GasLoop(inp: seq<byte>, budget: nat, nacks: nat): (g: GasOutcome)
    ensures nacks <= g.nacks && g.attempts <= nacks + budget
    decreases budget
  {
    if budget == 0 then GasOutcome(nacks, nacks, inp, None)
    else
      match ReceiveAck(inp)
      case Err(e) => GasOutcome(nacks, nacks + 1, inp, Some(e))
      case Ok(Rx(true, rest)) => GasOutcome(nacks, nacks + 1, rest, None)
      case Ok(Rx(false, rest)) => GasLoop(rest, budget - 1, nacks + 1)
  }

  /** At most `budget` further calls, at least one when the budget allows; every
      refusal is followed by another call, so a loop that ends without failure on
      a refusal has used up its whole budget. */
  lemma {:induction false} GasLoopBounds(inp: seq<byte>, budget: nat, nacks: nat)
    ensures var g := GasLoop(inp, budget, nacks);
            && g.nacks <= g.attempts <= nacks + budget
            && (budget > 0 ==> g.attempts > nacks)
            && (g.failure.None? && g.nacks == g.attempts ==> g.attempts == nacks + budget)
    decreases budget
  {
    if budget > 0 {
      var r := ReceiveAck(inp);
      if r.Ok? && !r.value.value {
        GasLoopBounds(r.value.rest, budget - 1, nacks + 1);
      }
    }
  }

  /** Lines 140-150 of `main`: send the GAS frame, then retry while `receive_ack`
      says no, at most `budget` calls, and go on whatever the outcome. */
  method GasExchange(gas: seq<byte>, inp: seq<byte>, budget: nat)
    returns (sent: seq<DccnetFrame>, rest: seq<byte>, failure: Option<RxError>)
    ensures var g := GasLoop(inp, budget, 0);
            sent == Copies(GasFrame(gas), 1 + g.nacks) && rest == g.rest && failure == g.failure
  {
    var frame := GasFrame(gas);
    sent, rest, failure := [frame], inp, None;
    var nacks, left := 0, budget;
    ghost var g := GasLoop(inp, budget, 0);
    while left > 0
      invariant sent == Copies(frame, 1 + nacks)
      invariant g == GasLoop(rest, left, nacks)
    {
      var r := ReceiveAck(rest);
      if r.Err? {
        failure := Some(r.error);
        break;
      }
      if r.value.value {
        rest := r.value.rest;
        break;
      }
      CopiesSnoc(frame, 1 + nacks);
      sent := sent + [frame];
      nacks, left, rest := nacks + 1, left - 1, r.value.rest;
    }
  }

  /** What the `while not receive_ack()` resend loop did. */
  datatype AckWaitOutcome = AckWaitOutcome(nacks: nat, rest: seq<byte>, failure: Option<RxError>)

  /** `while not receive_ack(): resend`: unbounded, it ends with a "yes" or a failure. */
  function AckWait(inp: seq<byte>): (w: AckWaitOutcome)
    ensures |w.rest| <= |inp|
    decreases |inp|
  {
    var r := ReceiveAck(inp);
    if r.Err? then AckWaitOutcome(0, inp, Some(r.error))
    else if r.value.value then AckWaitOutcome(0, r.value.rest, None)
    else
      var w := AckWait(r.value.rest);
      w.(nacks := w.nacks + 1)
  }

  /** Lines 174-177 of `main`: resend `f` until `receive_ack` says yes. */
  method AwaitAck(f: DccnetFrame, inp: seq<byte>)
    returns (resent: seq<DccnetFrame>, rest: seq<byte>, failure: Option<RxError>)
    ensures var w := AckWait(inp);
            resent == Copies(f, w.nacks) && rest == w.rest && failure == w.failure
  {
    resent, rest, failure := [], inp, None;
    var nacks := 0;
    ghost var w := AckWait(inp);
    while true
      invariant resent == Copies(f, nacks)
      invariant w == AckWait(rest).(nacks := AckWait(rest).nacks + nacks)
      decreases |rest|
    {
      var r := ReceiveAck(rest);
      if r.Err? {
        failure := Some(r.error);
        assert w == AckWaitOutcome(nacks, rest, failure);
        break;
      }
      if r.value.value {
        rest := r.value.rest;
        assert w == AckWaitOutcome(nacks, rest, failure);
        break;
      }
      CopiesSnoc(f, nacks);
      resent := resent + [f];
      nacks := nacks + 1;
      rest := r.value.rest;
    }
  }

  /** What answering one line, or the lines of one data frame, did. */
  datatype AnswerOutcome = AnswerOutcome(sent: seq<DccnetFrame>, nextId: int, rest: seq<byte>,
                                         failure: Option<RxError>)

  /** One pass of the `for line in data_lines` body: an empty line is skipped; any
      other gets its digest frame, resent until acknowledged, and then `frame_id`
      flips. */
  function AnswerLine(line: seq<byte>, id: int, digest: seq<byte> -> HexDigest, inp: seq<byte>)
    : (a: AnswerOutcome)
    ensures |a.rest| <= |inp|
  {
    if line == [] then AnswerOutcome([], id, inp, None)
    else
      var f := DigestFrame(digest, line, id);
      var w := AckWait(inp);
      AnswerOutcome([f] + Copies(f, w.nacks), if w.failure.Some? then id else 1 - id, w.rest, w.failure)
  }

  /** The whole `for line in data_lines` loop; a failure ends it. */
  function Answers(lines: seq<seq<byte>>, id: int, digest: seq<byte> -> HexDigest, inp: seq<byte>)
    : (a: AnswerOutcome)
    ensures |a.rest| <= |inp|
    decreases |lines|
  {
    if lines == [] then AnswerOutcome([], id, inp, None)
    else
      var a := AnswerLine(lines[0], id, digest, inp);
      if a.failure.Some? then a
      else AfterSending(a.sent, Answers(lines[1..], a.nextId, digest, a.rest))
  }

  /** The outcome `a` of answering further lines, after `sent` went out. */
  function AfterSending(sent: seq<DccnetFrame>, a: AnswerOutcome): AnswerOutcome
  {
    a.(sent := sent + a.sent)
  }

  /** Lines 171-178 of `main`: the body of the loop over the lines. */
  method AnswerOne(line: seq<byte>, frameId: int, digest: seq<byte> -> HexDigest, inp: seq<byte>)
    returns (sent: seq<DccnetFrame>, nextId: int, rest: seq<byte>, failure: Option<RxError>)
    ensures AnswerLine(line, frameId, digest, inp) == AnswerOutcome(sent, nextId, rest, failure)
  {
    sent, nextId, rest, failure := [], frameId, inp, None;
    if line != [] {
      var md5 := digest(line);
      var f := DccnetFrame(md5 + [Newline], frameId, 0);
      var resent;
      resent, rest, failure := AwaitAck(f, inp);
      sent := [f] + resent;
      if failure.None? {
        nextId := 1 - frameId;
      }
    }
  }

  /** Lines 169-178 of `main` after the split. */
  method AnswerLines(lines: seq<seq<byte>>, frameId: int, digest: seq<byte> -> HexDigest, inp: seq<byte>)
    returns (sent: seq<DccnetFrame>, nextId: int, rest: seq<byte>, failure: Option<RxError>)
    ensures Answers(lines, frameId, digest, inp) == AnswerOutcome(sent, nextId, rest, failure)
  {
    sent, nextId, rest, failure := [], frameId, inp, None;
    ghost var a := Answers(lines, frameId, digest, inp);
    for i := 0 to |lines|
      invariant a == AfterSending(sent, Answers(lines[i..], nextId, digest, rest))
    {
      assert lines[i..][0] == lines[i] && lines[i..][1..] == lines[i + 1..];
      var more, id', rest', failure' := AnswerOne(lines[i], nextId, digest, rest);
      sent := sent + more;
      if failure'.Some? {
        rest, failure := rest', failure';
        return;
      }
      nextId, rest := id', rest';
    }
    assert lines[|lines|..] == [];
  }

  /** The `frame_id` after answering `lines`: flipped once per non-empty line. */
  function IdAfter(lines: seq<seq<byte>>, id: int): int
  {
    if lines == [] then id
    else IdAfter(lines[1..], if lines[0] != [] then 1 - id else id)
  }

  function NonEmptyCount(lines: seq<seq<byte>>): nat
  {
    if lines == [] then 0 else (if lines[0] != [] then 1 else 0) + NonEmptyCount(lines[1..])
  }

  /** Alternation: after `n` non-empty lines the id has flipped `n` times. */
  lemma {:induction false} IdAfterAlternates(lines: seq<seq<byte>>, id: int)
    requires id == 0 || id == 1
    ensures IdAfter(lines, id) == (id + NonEmptyCount(lines)) % 2
  {
    if lines != [] {
      var id' := if lines[0] != [] then 1 - id else id;
      IdAfterAlternates(lines[1..], id');
    }
  }

  /** Every frame is a data frame `build_frame` accepts, with flags 0 and an id of 0 or 1. */
  predicate DataFrames(frames: seq<DccnetFrame>)
  {
    forall k :: 0 <= k < |frames| ==>
      Packable(frames[k]) && frames[k].flags == 0 && (frames[k].frameId == 0 || frames[k].frameId == 1)
  }

  /** Every frame sent is one `build_frame` accepts: an ACK, or a frame with flags 0
      and an id of 0 or 1. */
  predicate Sequenced(frames: seq<DccnetFrame>)
  {
    forall k :: 0 <= k < |frames| ==>
      && Packable(frames[k])
      && (frames[k].flags == AckFlag || (frames[k].flags == 0 && (frames[k].frameId == 0 || frames[k].frameId == 1)))
  }

  /** Answering lines from an id of 0 or 1 sends only data frames with ids 0 and 1,
      keeps the id in {0, 1}, and, when no read fails, ends on the id that one flip
      per non-empty line gives. */
  lemma {:induction false} AnswersKeepIds(lines: seq<seq<byte>>, id: int, digest: seq<byte> -> HexDigest, inp: seq<byte>)
    requires id == 0 || id == 1
    ensures var a := Answers(lines, id, digest, inp);
            && DataFrames(a.sent) && (a.nextId == 0 || a.nextId == 1)
            && (a.failure.None? ==> a.nextId == IdAfter(lines, id))
    decreases |lines|
  {
    if lines != [] {
      var a := AnswerLine(lines[0], id, digest, inp);
      if lines[0] != [] {
        var f := DigestFrame(digest, lines[0], id);
        CopiesAreCopies(f, AckWait(inp).nacks);
        assert DataFrames([f]);
        DataFramesConcat([f], Copies(f, AckWait(inp).nacks));
      }
      if a.failure.None? {
        AnswersKeepIds(lines[1..], a.nextId, digest, a.rest);
        DataFramesConcat(a.sent, Answers(lines[1..], a.nextId, digest, a.rest).sent);
      }
    }
  }

  lemma DataFramesConcat(a: seq<DccnetFrame>, b: seq<DccnetFrame>)
    requires DataFrames(a) && DataFrames(b)
    ensures DataFrames(a + b)
  {
    forall k | 0 <= k < |a + b|
      ensures Packable((a + b)[k]) && (a + b)[k].flags == 0 && ((a + b)[k].frameId == 0 || (a + b)[k].frameId == 1)
    {
      if k < |a| {
        assert (a + b)[k] == a[k];
      } else {
        assert (a + b)[k] == b[k - |a|];
      }
    }
  }

  /** `str.split('\n')`: the pieces between newlines, an empty one where two
      newlines meet or at either end. */
  function Split(s: seq<byte>): (r: seq<seq<byte>>)
    ensures |r| >= 1
  {
    if s == [] then [[]]
    else if s[0] == Newline then [[]] + Split(s[1..])
    else
      var t := Split(s[1..]);
      [[s[0]] + t[0]] + t[1..]
  }

  /** `'\n'.join(parts)`. */
  function Join(parts: seq<seq<byte>>): seq<byte>
    requires |parts| >= 1
  {
    if |parts| == 1 then parts[0] else parts[0] + [Newline] + Join(parts[1..])
  }

  /** Splitting loses nothing: the pieces hold no newline and joining them gives
      the payload back. */
  lemma {:induction false} SplitJoin(s: seq<byte>)
    ensures Join(Split(s)) == s
    ensures forall k, j :: 0 <= k < |Split(s)| && 0 <= j < |Split(s)[k]| ==> Split(s)[k][j] != Newline
  {
    if s != [] {
      SplitJoin(s[1..]);
      var t := Split(s[1..]);
      if s[0] == Newline {
        assert Split(s) == [[]] + t && Split(s)[1..] == t;
      } else {
        var r := Split(s);
        assert r[0] == [s[0]] + t[0] && r[1..] == t[1..];
        if |t| > 1 {
          assert Join(r) == r[0] + [Newline] + Join(t[1..]);
          assert Join(t) == t[0] + [Newline] + Join(t[1..]);
        }
        forall k, j | 0 <= k < |r| && 0 <= j < |r[k]| ensures r[k][j] != Newline {
          if k == 0 && j > 0 {
            assert r[0][j] == t[0][j - 1];
          } else if k > 0 {
            assert r[k] == t[k];
          }
        }
      }
    }
  }

  /** How the data loop ended: the server's END frame, an exception from a read,
      or the `struct.error` of a frame `build_frame` cannot pack. */
  datatype LoopEnd = EndOfTransmission | Failed(error: RxError) | SendFailed(packError: PackError)

  datatype ServeOutcome = ServeOutcome(sent: seq<DccnetFrame>, end: LoopEnd)

  /** What one pass of the `while True` body did: it left the loop, or goes round
      again on the rest of the stream with the current `frame_id`. */
  datatype Step = Finished(sent: seq<DccnetFrame>, end: LoopEnd)
                | Next(sent: seq<DccnetFrame>, rest: seq<byte>, id: int)

  /** One pass of the `while True` body: receive a frame and acknowledge it, then
      go round again on flags 0, stop on END, or answer the lines of its payload.
      An id that does not fit the ACK's one-byte id field makes `send_ack` raise. */
  function ServeStep(inp: seq<byte>, id: int, digest: seq<byte> -> HexDigest): (st: Step)
    ensures st.Next? ==> |st.rest| < |inp|
  {
    var r := ReceiveFrame(inp);
    if r.Err? then Finished([], Failed(r.error))
    else
      var f := r.value.value;
      var ack := AckFrame(f.frameId);
      if BuildFrame(ack).Err? then Finished([], SendFailed(BuildFrame(ack).error))
      else if f.flags == 0 then Next([ack], r.value.rest, id)
      else if f.flags == EndFlag then Finished([ack], EndOfTransmission)
      else
        var a := Answers(Split(f.payload), id, digest, r.value.rest);
        if a.failure.Some? then Finished([ack] + a.sent, Failed(a.failure.value))
        else Next([ack] + a.sent, a.rest, a.nextId)
  }

  /** The `while True` loop of `main`, pass after pass. */
  function Served(inp: seq<byte>, id: int, digest: seq<byte> -> HexDigest): ServeOutcome
    decreases |inp|
  {
    match ServeStep(inp, id, digest)
    case Finished(sent, end) => ServeOutcome(sent, end)
    case Next(sent, rest, id') =>
      var s := Served(rest, id', digest);
      s.(sent := sent + s.sent)
  }

  /** Lines 156-178 of `main`: the body of the data loop. */
  method ServeOnce(inp: seq<byte>, frameId: int, digest: seq<byte> -> HexDigest) returns (st: Step)
    ensures st == ServeStep(inp, frameId, digest)
  {
    var r := ReceiveFrame(inp);
    if r.Err? {
      return Finished([], Failed(r.error));
    }
    var f := r.value.value;
    var ack := AckFrame(f.frameId);
    var wire := BuildFrame(ack);
    if wire.Err? {
      return Finished([], SendFailed(wire.error));
    }
    var sent := [ack];
    if f.flags == 0 {
      return Next(sent, r.value.rest, frameId);
    }
    if f.flags == EndFlag {
      return Finished(sent, EndOfTransmission);
    }
    var answers, nextId, rest, failure := AnswerLines(Split(f.payload), frameId, digest, r.value.rest);
    if failure.Some? {
      return Finished(sent + answers, Failed(failure.value));
    }
    return Next(sent + answers, rest, nextId);
  }

  /** Lines 155-178 of `main`. */
  method Serve(inp: seq<byte>, frameId: int, digest: seq<byte> -> HexDigest)
    returns (sent: seq<DccnetFrame>, end: LoopEnd)
    ensures Served(inp, frameId, digest) == ServeOutcome(sent, end)
  {
    sent := [];
    var rest, id := inp, frameId;
    ghost var s := Served(inp, frameId, digest);
    while true
      invariant s == Served(rest, id, digest).(sent := sent + Served(rest, id, digest).sent)
      decreases |rest|
    {
      var st := ServeOnce(rest, id, digest);
      if st.Finished? {
        sent, end := sent + st.sent, st.end;
        return;
      }
      ghost var tail := Served(st.rest, st.id, digest);
      assert s == tail.(sent := sent + st.sent + tail.sent);
      sent := sent + st.sent;
      rest, id := st.rest, st.id;
    }
  }

  lemma SequencedConcat(a: seq<DccnetFrame>, b: seq<DccnetFrame>)
    requires Sequenced(a) && Sequenced(b)
    ensures Sequenced(a + b)
  {
    forall k | 0 <= k < |a + b|
      ensures && Packable((a + b)[k])
              && ((a + b)[k].flags == AckFlag || ((a + b)[k].flags == 0 && ((a + b)[k].frameId == 0 || (a + b)[k].frameId == 1)))
    {
      if k < |a| {
        assert (a + b)[k] == a[k];
      } else {
        assert (a + b)[k] == b[k - |a|];
      }
    }
  }

  /** The data loop, started with an id of 0 or 1, sends only ACKs and data frames
      with ids 0 and 1. */
  lemma {:induction false} ServedSequenced(inp: seq<byte>, id: int, digest: seq<byte> -> HexDigest)
    requires id == 0 || id == 1
    ensures Sequenced(Served(inp, id, digest).sent)
    decreases |inp|
  {
    var r := ReceiveFrame(inp);
    var st := ServeStep(inp, id, digest);
    if r.Ok? && BuildFrame(AckFrame(r.value.value.frameId)).Ok? {
      var f := r.value.value;
      var ack := AckFrame(f.frameId);
      assert Sequenced([ack]);
      if f.flags != 0 && f.flags != EndFlag {
        var a := Answers(Split(f.payload), id, digest, r.value.rest);
        AnswersKeepIds(Split(f.payload), id, digest, r.value.rest);
        assert Sequenced(a.sent);
        SequencedConcat([ack], a.sent);
      }
      assert Sequenced(st.sent) && (st.Next? ==> st.id == 0 || st.id == 1);
      if st.Next? {
        ServedSequenced(st.rest, st.id, digest);
        SequencedConcat(st.sent, Served(st.rest, st.id, digest).sent);
      }
    }
  }

  /** Every frame received intact is acknowledged first, with its own id, before
      anything else is sent; an id from 256 up, which `receive_frame` accepts but
      the ACK cannot carry, ends the program with nothing sent. */
  lemma ReceivedFrameAckedFirst(inp: seq<byte>, id: int, digest: seq<byte> -> HexDigest)
    requires ReceiveFrame(inp).Ok?
    ensures var s := Served(inp, id, digest);
            var frameId := ReceiveFrame(inp).value.value.frameId;
            && (frameId < 256 ==> |s.sent| >= 1 && s.sent[0] == AckFrame(frameId))
            && (frameId >= 256 ==> s == ServeOutcome([], SendFailed(FieldOutOfRange)))
  {
  }

  /** The whole client after the connection is made: the GAS exchange with
      `frame_id` 0 and at most `attempts` reads of an answer (16 in `main`), one
      flip, then the data loop. A GAS credential too long for the length field
      makes the first `send_frame` raise. */
  function Client(gas: seq<byte>, inp: seq<byte>, digest: seq<byte> -> HexDigest, attempts: nat): (s: ServeOutcome)
  {
    if BuildFrame(GasFrame(gas)).Err? then ServeOutcome([], SendFailed(BuildFrame(GasFrame(gas)).error))
    else
      var g := GasLoop(inp, attempts, 0);
      var gasFrames := Copies(GasFrame(gas), 1 + g.nacks);
      if g.failure.Some? then ServeOutcome(gasFrames, Failed(g.failure.value))
      else
        var s := Served(g.rest, 1, digest);
        s.(sent := gasFrames + s.sent)
  }

  /** A GAS credential too long to pack ends the client with nothing sent.
      Otherwise the client starts with the GAS frame, sends it at most
      `attempts + 1` times (once, then once per refusal), and sends nothing after
      it but ACKs and data frames with ids 0 and 1, all of which `build_frame`
      accepts. */
  lemma ClientShape(gas: seq<byte>, inp: seq<byte>, digest: seq<byte> -> HexDigest, attempts: nat)
    ensures var s := Client(gas, inp, digest, attempts);
            BuildFrame(GasFrame(gas)).Err? ==> s == ServeOutcome([], SendFailed(FieldOutOfRange))
    ensures var s := Client(gas, inp, digest, attempts);
            var n := GasLoop(inp, attempts, 0).nacks;
            BuildFrame(GasFrame(gas)).Ok? ==>
              && |s.sent| >= 1 + n && s.sent[..1 + n] == Copies(GasFrame(gas), 1 + n)
              && Sequenced(s.sent[1 + n..])
              && 1 + n <= attempts + 1
  {
    if BuildFrame(GasFrame(gas)).Ok? {
      var g := GasLoop(inp, attempts, 0);
      GasLoopBounds(inp, attempts, 0);
      var gasFrames := Copies(GasFrame(gas), 1 + g.nacks);
      var s := Client(gas, inp, digest, attempts);
      if g.failure.None? {
        ServedSequenced(g.rest, 1, digest);
        assert s.sent == gasFrames + Served(g.rest, 1, digest).sent;
        assert s.sent[..1 + g.nacks] == gasFrames;
        assert s.sent[1 + g.nacks..] == Served(g.rest, 1, digest).sent;
      } else {
        assert s.sent[1 + g.nacks..] == [];
      }
    }
  }

  /** Every frame the client sends is one `build_frame` accepts. */
  lemma ClientSendsBuildableFrames(gas: seq<byte>, inp: seq<byte>, digest: seq<byte> -> HexDigest, attempts: nat)
    ensures var s := Client(gas, inp, digest, attempts);
            forall k :: 0 <= k < |s.sent| ==> BuildFrame(s.sent[k]).Ok?
  {
    ClientShape(gas, inp, digest, attempts);
    if BuildFrame(GasFrame(gas)).Ok? {
      PackableAfterCopies(Client(gas, inp, digest, attempts).sent, GasFrame(gas), 1 + GasLoop(inp, attempts, 0).nacks);
    }
  }

  /** Copies of a packable frame followed by sequenced frames are all packable. */
  lemma PackableAfterCopies(sent: seq<DccnetFrame>, f: DccnetFrame, m: nat)
    requires Packable(f) && |sent| >= m && sent[..m] == Copies(f, m) && Sequenced(sent[m..])
    ensures forall k :: 0 <= k < |sent| ==> BuildFrame(sent[k]).Ok?
  {
    CopiesAreCopies(f, m);
    forall k | 0 <= k < |sent|
      ensures BuildFrame(sent[k]).Ok?
    {
      if k < m {
        assert sent[k] == sent[..m][k];
      } else {
        assert sent[k] == sent[m..][k - m];
      }
    }
  }

  /** With the 16 tries of `main`, the GAS frame goes out between 1 and 17 times. */
  lemma MainGasTransmissions(inp: seq<byte>)
    ensures 1 <= 1 + GasLoop(inp, GasAttempts, 0).nacks <= 17
  {
    GasLoopBounds(inp, GasAttempts, 0);
  }

  /** `main` from line 139 on, with `attempts` for the 16 of `range(16)`. */
  method RunClient(gas: seq<byte>, inp: seq<byte>, digest: seq<byte> -> HexDigest, attempts: nat)
    returns (sent: seq<DccnetFrame>, end: LoopEnd)
    ensures Client(gas, inp, digest, attempts) == ServeOutcome(sent, end)
  {
    var frameId := 0;
    var wire := BuildFrame(GasFrame(gas));
    if wire.Err? {
      return [], SendFailed(wire.error);
    }
    var gasFrames, rest, failure := GasExchange(gas, inp, attempts);
    ghost var g := GasLoop(inp, attempts, 0);
    assert gasFrames == Copies(GasFrame(gas), 1 + g.nacks) && failure == g.failure && rest == g.rest;
    if failure.Some? {
      assert Client(gas, inp, digest, attempts) == ServeOutcome(gasFrames, Failed(failure.value));
      return gasFrames, Failed(failure.value);
    }
    frameId := 1 - frameId;
    assert frameId == 1;
    var more;
    more, end := Serve(rest, frameId, digest);
    sent := gasFrames + more;
    assert Client(gas, inp, digest, attempts) == ServeOutcome(gasFrames + more, end);
  }
}
