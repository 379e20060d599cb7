/**
  The DCCNET frame codec of utils.py (class `DCCNETFrame`).

  Wire layout written by `build_frame` and read by `decode_frame`, big-endian,
  a 14-byte header followed by the payload:

    offset 0..4   sync pattern dc c0 23 c2
    offset 4..8   sync pattern again
    offset 8..10  checksum (16 bits): byte sum of the payload, mod 2^16
    offset 10..12 payload length (16 bits)
    offset 12     frame id (8 bits)
    offset 13     flags (8 bits)
    offset 14..   payload

  The Python exceptions (`struct.error` from `struct.pack`, `ValueError` from
  `decode_frame`) are the `Err` side of a `Result`.
*/
module Frame {
  import opened Wrappers
  import opened Bytes

  const SyncPattern: seq<byte> := [0xdc, 0xc0, 0x23, 0xc2]
  const HeaderSize: nat := 14
  const AckFlag: byte := 0x80
  const EndFlag: byte := 0x40
  const RstFlag: byte := 0x20

  /** The arguments of `DCCNETFrame(data, frame_id, flags)`. */
  datatype DccnetFrame = DccnetFrame(data: seq<byte>, frameId: int, flags: int)

  /** The frame `send_ack(frame_id)` hands to `build_frame`: empty payload, ACK flag. */
  function AckFrame(id: int): DccnetFrame
  {
    DccnetFrame([], id, AckFlag)
  }

  /** Raised by `struct.pack` when a field does not fit its format code. */
  datatype PackError = FieldOutOfRange

  /** The `ValueError` messages of `decode_frame`, in the order they are checked. */
  datatype DecodeError = EmptyData | InvalidSyncPattern | InvalidLength | InvalidFrameId | ChecksumFailed

  /** The tuple `decode_frame` returns: `(frame_id, flags, chksum, payload)`. */
  datatype Decoded = Decoded(frameId: byte, flags: byte, checksum: nat, payload: seq<byte>)

  /** `compute_checksum`: `sum(data) & 0xFFFF`, a plain byte sum (not the Internet checksum). */
  function ComputeChecksum(data: seq<byte>): (r: nat)
    ensures r < U16Limit
    ensures Sum(data) < U16Limit ==> r == Sum(data)
  {
    Sum(data) % U16Limit
  }

  /** The `H` (16-bit) and `B` (8-bit) codes of `struct.pack` accept exactly these values. */
  predicate Packable(f: DccnetFrame)
  {
    |f.data| < U16Limit && 0 <= f.frameId < 256 && 0 <= f.flags < 256
  }

  /** `build_frame`: header `!4s4sHHBB` followed by the payload. */
  function BuildFrame(f: DccnetFrame): (r: Result<seq<byte>, PackError>)
    ensures r.Ok? <==> Packable(f)
    ensures r.Ok? ==> |r.value| == HeaderSize + |f.data|
    ensures r.Ok? ==> r.value[..4] == SyncPattern && r.value[4..8] == SyncPattern
    ensures r.Ok? ==> r.value[HeaderSize..] == f.data
  {
    if !Packable(f) then Err(FieldOutOfRange)
    else
      var header := SyncPattern + SyncPattern + Be16(ComputeChecksum(f.data)) + Be16(|f.data|)
                    + [f.frameId as byte, f.flags as byte];
      Ok(header + f.data)
  }

  /** `decode_frame`. A frame is accepted exactly when it is what `build_frame`
      produces for its own payload, id and flags, with an id of 0 or 1. */
  function DecodeFrame(data: seq<byte>): (r: Result<Decoded, DecodeError>)
    ensures r.Ok? ==> |data| >= HeaderSize && r.value.frameId <= 1 && r.value.payload == data[HeaderSize..]
    ensures r.Ok? ==> BuildFrame(DccnetFrame(r.value.payload, r.value.frameId, r.value.flags)) == Ok(data)
    ensures r.Ok? ==> r.value.checksum == ComputeChecksum(r.value.payload)
  {
    if |data| < HeaderSize then Err(EmptyData)
    else
      var chksum := ParseBe16(data[8..10]);
      var length := ParseBe16(data[10..12]);
      var frameId := data[12];
      var flags := data[13];
      var payload := data[HeaderSize..];
      if data[..8] != SyncPattern + SyncPattern then Err(InvalidSyncPattern)
      else if length != |payload| then Err(InvalidLength)
      else if frameId > 1 then Err(InvalidFrameId)
      else if chksum != ComputeChecksum(payload) then Err(ChecksumFailed)
      else
        HeaderOfFields(data);
        Ok(Decoded(frameId, flags, chksum, payload))
  }

  /** A 14-byte-or-longer input is its header fields, re-packed, followed by its payload. */
  lemma HeaderOfFields(data: seq<byte>)
    requires |data| >= HeaderSize
    ensures data == data[..8] + Be16(ParseBe16(data[8..10])) + Be16(ParseBe16(data[10..12]))
                    + [data[12], data[13]] + data[HeaderSize..]
  {
    Be16OfParseBe16(data[8..10]);
    Be16OfParseBe16(data[10..12]);
  }

  /** The checksum of a concatenation is the sum of the parts' checksums, mod 2^16. */
  lemma ChecksumConcat(a: seq<byte>, b: seq<byte>)
    ensures ComputeChecksum(a + b) == (ComputeChecksum(a) + ComputeChecksum(b)) % U16Limit
  {
    SumConcat(a, b);
    ModAdd(Sum(a), Sum(b), U16Limit);
  }

  /** Changing a single payload byte always changes the checksum. */
  lemma ChecksumDetectsByteChange(data: seq<byte>, i: nat, b: byte)
    requires i < |data| && b != data[i]
    ensures ComputeChecksum(data[i := b]) != ComputeChecksum(data)
  {
    SumUpdate(data, i, b);
    ModDistinct(Sum(data[i := b]), Sum(data), U16Limit);
  }

  /** Round trip: a packable frame with id 0 or 1 decodes to its own fields. */
  lemma RoundTrip(f: DccnetFrame)
    requires Packable(f) && 0 <= f.frameId <= 1
    ensures DecodeFrame(BuildFrame(f).value)
            == Ok(Decoded(f.frameId as byte, f.flags as byte, ComputeChecksum(f.data), f.data))
  {
    var w := BuildFrame(f).value;
    assert w[8..10] == Be16(ComputeChecksum(f.data));
    assert w[10..12] == Be16(|f.data|);
    assert w[..8] == SyncPattern + SyncPattern;
    assert w[12] == f.frameId && w[13] == f.flags;
  }

  /** An input shorter than the header fails with "Empty data", before any other check. */
  lemma ShortInputRejectedFirst(data: seq<byte>)
    requires |data| < HeaderSize
    ensures DecodeFrame(data) == Err(EmptyData)
  {
  }

  /** A full-size input whose first 8 bytes are not the doubled sync pattern fails
      with "Invalid sync pattern", whatever its length, id and checksum fields hold. */
  lemma SyncCheckedBeforeFields(data: seq<byte>)
    requires |data| >= HeaderSize && data[..8] != SyncPattern + SyncPattern
    ensures DecodeFrame(data) == Err(InvalidSyncPattern)
  {
  }

  /** With a good sync pattern, a declared length other than the number of bytes
      after the header fails with "Invalid length". */
  lemma LengthMismatchRejected(data: seq<byte>)
    requires |data| >= HeaderSize && data[..8] == SyncPattern + SyncPattern
    requires ParseBe16(data[10..12]) != |data| - HeaderSize
    ensures DecodeFrame(data) == Err(InvalidLength)
  {
  }

  /** A frame built with an id of 2..255 is rejected for its id, although its
      checksum matches. */
  lemma IdRejectedBeforeChecksum(f: DccnetFrame)
    requires Packable(f) && f.frameId > 1
    ensures DecodeFrame(BuildFrame(f).value) == Err(InvalidFrameId)
  {
    var w := BuildFrame(f).value;
    assert w[..8] == SyncPattern + SyncPattern;
    assert w[10..12] == Be16(|f.data|);
    assert w[12] == f.frameId;
  }

  /** The checksum covers the payload only: rewriting the flags byte of an accepted
      frame gives a frame that is still accepted, with the new flags. */
  lemma FlagsNotCovered(data: seq<byte>, flags: byte)
    requires DecodeFrame(data).Ok?
    ensures DecodeFrame(data[13 := flags]) == Ok(DecodeFrame(data).value.(flags := flags))
  {
    var d := data[13 := flags];
    assert d[..8] == data[..8] && d[8..10] == data[8..10] && d[10..12] == data[10..12];
    assert d[12] == data[12] && d[HeaderSize..] == data[HeaderSize..];
  }

  /** Corrupting one payload byte of an accepted frame makes it fail the checksum test. */
  lemma PayloadCorruptionDetected(data: seq<byte>, i: nat, b: byte)
    requires DecodeFrame(data).Ok? && HeaderSize <= i < |data| && b != data[i]
    ensures DecodeFrame(data[i := b]) == Err(ChecksumFailed)
  {
    var d := data[i := b];
    assert d[..8] == data[..8] && d[8..10] == data[8..10] && d[10..12] == data[10..12];
    assert d[12] == data[12];
    assert d[HeaderSize..] == data[HeaderSize..][i - HeaderSize := b];
    ChecksumDetectsByteChange(data[HeaderSize..], i - HeaderSize, b);
  }

  /** `send_rst` builds its frame with `frame_id=65535`, which the one-byte id field
      of this header cannot hold: `build_frame` raises instead of returning a frame. */
  lemma RstIdNotPackable(message: seq<byte>)
    ensures BuildFrame(DccnetFrame(message, 65535, RstFlag)).Err?
  {
  }
}
