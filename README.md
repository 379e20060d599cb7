# DCCNET in Dafny

A model of the DCCNET link layer used by this repository: the frame codec of
`utils.py` (`DCCNETFrame`), the stop-and-wait file transfer engine of
`dccnet-xfer.py` (`DCCNETXfer`) and the MD5 client of `dccnet-md5.py`
(`DCCNETTransmitter` and `main`).

A DCCNET frame is two copies of the sync word `dc c0 23 c2`, a 16-bit checksum,
a 16-bit payload length, the frame id, a flags byte (ACK `0x80`, END `0x40`,
RST `0x20`) and the payload. Data frames alternate between the ids 0 and 1.

The two programs resend differently:

- `dccnet-xfer.py` resends the current line on every tick until an ACK with
  its id arrives. After at most 18 sends it sends RST and stops.
- `dccnet-md5.py` resends a frame until any frame with flags `0x80` arrives,
  whatever its id. It retries the GAS frame at most 16 times.

Modules:

- `Bytes` (`bytes.dfy`): bytes as integers 0..255, the big-endian 16-bit
  encoding of `struct.pack("!H")`, and byte sums.
- `Resend` (`resend.dfy`): `k` copies of one frame, the wire trace of `k`
  retransmissions, shared by both programs.
- `Frame` (`frame.dfy`): `build_frame`, `decode_frame` and `compute_checksum`.
  Both exceptions (`struct.error` and `ValueError`) become the `Err` side of a
  `Result`.
- `Xfer` (`xfer.dfy`): the transfer engine.
  - The class `DccnetXfer` holds the object's fields.
  - The sender thread's locals `num_retransmissions` and `last_id` become two
    more fields.
  - The socket is `outbox`, the frames sent, in order. The output file is
    `output`, the bytes appended to it.
  - Each method is proved against a pure step function on a `Conn` value. The
    transfer's properties are proved as lemmas about those step functions:
    the state invariant, retransmission counting and the close conditions.
- `Md5Client` (`md5client.dfy`): the client.
  - `receive_frame` and `receive_ack` are decoders over the incoming byte
    stream.
  - The GAS retry loop, the acknowledgement wait and the data loop of `main`
    are imperative methods, each proved equal to a recursive specification
    function.
  - `Client` is the whole run, from the GAS frame to the end of the data loop.

## Model

| member | source | states |
|---|---|---|
| Bytes.Be16 | utils.py:19-27 | `struct.pack("!H", n)` gives two bytes, high byte first, that recombine to `n` |
| Bytes.ParseBe16 | utils.py:39-41 | `struct.unpack("!H")` yields a value below 2^16 |
| Bytes.ParseBe16OfBe16 | utils.py:19-27 | unpacking a packed 16-bit field returns the value packed |
| Bytes.Be16OfParseBe16 | utils.py:39-41 | repacking an unpacked 16-bit field returns the original two bytes |
| Bytes.Sum | utils.py:61 | `sum(data)` is at most 255 per byte and is 0 on a payload of zero bytes |
| Bytes.SumConcat | utils.py:59-62 | `sum` over a concatenation is the sum of the parts' sums |
| Bytes.SumUpdate | utils.py:59-62 | replacing one byte moves `sum` by exactly the difference of the two bytes |
| Bytes.ModDistinct | utils.py:61 | two different sums less than 2^16 apart keep different residues after `& 0xFFFF` |
| Resend.Copies | dccnet-xfer.py:117-131 | `k` retransmissions put exactly `k` frames on the wire |
| Resend.CopiesAreCopies | dccnet-xfer.py:117-131 | every retransmitted frame is the same frame |
| Resend.CopiesSnoc | dccnet-md5.py:144-150 | one more resend appends one more copy |
| Frame.BuildFrame | utils.py:16-32 | packing succeeds exactly when the length fits 16 bits and the id and flags fit a byte; the result is 14 + length bytes long, starts with the sync pattern twice and ends with the payload |
| Frame.DecodeFrame | utils.py:34-57 | an accepted input is at least 14 bytes long and has id 0 or 1. Its payload is everything after the header, and its checksum is the payload's. Re-packing the decoded fields gives back exactly the input |
| Frame.HeaderOfFields | utils.py:39-43 | a 14-byte-or-longer input is its unpacked header fields, repacked, followed by its payload |
| Frame.ComputeChecksum | utils.py:59-62 | `sum(data) & 0xFFFF` fits 16 bits and is the plain sum whenever that sum does |
| Frame.ChecksumConcat | utils.py:59-62 | the checksum of a concatenation is the sum of the parts' checksums mod 2^16 |
| Frame.ChecksumDetectsByteChange | utils.py:59-62 | changing any single payload byte changes the checksum |
| Frame.RoundTrip | utils.py:16-57 | decoding a built frame with id 0 or 1 gives back its id, flags, checksum and payload |
| Frame.ShortInputRejectedFirst | utils.py:36-37 | fewer than 14 bytes fail with "Empty data" |
| Frame.SyncCheckedBeforeFields | utils.py:45-46 | a wrong doubled sync pattern fails before length, id and checksum are looked at |
| Frame.LengthMismatchRejected | utils.py:48-49 | with a good sync pattern, a declared length that differs from the payload's fails with "Invalid length" |
| Frame.IdRejectedBeforeChecksum | utils.py:51-55 | a well-formed frame with an id above 1 fails for its id even though its checksum is right |
| Frame.FlagsNotCovered | utils.py:54-57 | the checksum does not cover the flags byte: rewriting it leaves an accepted frame accepted, with the new flags |
| Frame.PayloadCorruptionDetected | utils.py:54-55 | corrupting one payload byte of an accepted frame makes it fail the checksum test |
| Frame.RstIdNotPackable | dccnet-xfer.py:99-109 | the RST frame's id 65535 does not fit the one-byte id field, so `build_frame` raises |
| Xfer.FlagBits | dccnet-xfer.py:159-179 | testing a flag tests one bit of the flags byte: ACK the top bit, END bit 6, RST bit 5 |
| Xfer.DccnetXfer.constructor | dccnet-xfer.py:43-57 | the initial fields: no frame received, id 0, first line current, flags 0, no END either way. The invariant holds |
| Xfer.DccnetXfer.SendAck | dccnet-xfer.py:88-97 | exactly one ACK frame with the given id is sent |
| Xfer.DccnetXfer.SendRst | dccnet-xfer.py:99-109 | exactly one RST frame carrying the message is sent, then the socket is closed |
| Xfer.DccnetXfer.OnFrame | dccnet-xfer.py:157-200 | one pass of the receive loop on a frame `decode_frame` accepted (id 0 or 1) moves the state by `Received` and keeps the invariant |
| Xfer.DccnetXfer.Receive | dccnet-xfer.py:155-200 | one pass of the receive loop on raw bytes moves the state by `ReceivedRaw`: a rejected frame reaches only the end-of-transfer check. The invariant is kept |
| Xfer.DccnetXfer.Dispatch | dccnet-xfer.py:166-191 | the duplicate, data and ACK branches, in that order, as `Dispatched` |
| Xfer.DccnetXfer.AnswerDuplicate | dccnet-xfer.py:166-171 | a duplicate gets RST and a close once the ACK counter exceeds 16, otherwise an ACK and a counter increment |
| Xfer.DccnetXfer.Deliver | dccnet-xfer.py:173-182 | before the peer's END: the counter is reset, the payload is appended (plus a newline on END) and an ACK is sent. Afterwards nothing changes |
| Xfer.DccnetXfer.AdvanceLine | dccnet-xfer.py:184-191 | a matching ACK moves to the next line, sets END on the last line and flips the id |
| Xfer.DccnetXfer.SendTick | dccnet-xfer.py:117-134 | one sender iteration moves the state by `Tick`: count or reset the retransmissions, send RST and stop past 17, otherwise send the current line. A line `build_frame` cannot pack stops the sender with nothing sent. The invariant is kept |
| Xfer.DccnetXfer.Transmit | dccnet-xfer.py:130-134 | if `build_frame` raises (a line of 2^16 bytes or more) the sender stops and nothing else changes. Otherwise the current line goes out with the current id and flags, `last_id` records the id, and END in the flags sets `end_sent` |
| Xfer.InitEstablishesInvariant | dccnet-xfer.py:43-57 | the state after `__init__` satisfies the invariant: ids in {0, 1}, current line and flags consistent with the line index, END sent only with the END flag |
| Xfer.ReceivedKeepsInvariant | dccnet-xfer.py:157-200 | every received frame keeps the invariant, so `frame_id` stays 0 or 1 |
| Xfer.DispatchedKeepsInvariant | dccnet-xfer.py:166-191 | each of the three branches keeps the invariant |
| Xfer.DuplicateAnsweredKeepsInvariant | dccnet-xfer.py:166-171 | the duplicate branch keeps the invariant |
| Xfer.DeliveredKeepsInvariant | dccnet-xfer.py:173-182 | the data branch keeps the invariant |
| Xfer.AdvancedKeepsInvariant | dccnet-xfer.py:184-191 | the line bookkeeping of a matching ACK keeps the invariant |
| Xfer.EndCheckKeepsInvariant | dccnet-xfer.py:196-200 | the end-of-transfer check keeps the invariant |
| Xfer.TickKeepsInvariant | dccnet-xfer.py:117-134 | a sender iteration keeps the invariant, including the bound of 17 on the retransmission count while the sender runs |
| Xfer.RstClosesSilently | dccnet-xfer.py:159-164 | an RST frame closes the connection without writing, acknowledging or advancing |
| Xfer.DuplicateBranchNeverFires | dccnet-xfer.py:166-171 | `last_received_id` is never assigned, so from `None` no frame is a duplicate and the field stays `None` |
| Xfer.StaleAckIgnored | dccnet-xfer.py:183-184 | an ACK whose id is not the current `frame_id` changes nothing beyond the end check |
| Xfer.MatchingAckAdvances | dccnet-xfer.py:184-191 | a matching ACK advances the index and flips the id. The line changes only while lines remain, and the flags become END exactly on the last line. No output and no frame |
| Xfer.DataFrameDelivered | dccnet-xfer.py:173-182 | a new data frame before END appends the payload (and a newline on END) and sends one ACK with its id. It resets the counter and sets `end_received` to the END bit |
| Xfer.DataAfterEndIgnored | dccnet-xfer.py:174 | after the peer's END, data frames are neither written nor acknowledged |
| Xfer.EndFlagsStay | dccnet-xfer.py:133-134 | `end_received` and `end_sent` never revert, on receive or on send |
| Xfer.GracefulCloseNeedsBothEnds | dccnet-xfer.py:196-200 | outside RST, the receive loop closes exactly when both END frames have been seen |
| Xfer.TickCounter | dccnet-xfer.py:120-128 | the retransmission count grows by one while the id is unchanged and restarts at 0 when it changed |
| Xfer.TickTransmits | dccnet-xfer.py:130-134 | below the limit, with a line that packs, a tick sends the current line once and records its id. END in the flags sets `end_sent` at once, before any ACK. Line, id and flags stay as they were |
| Xfer.SilentPeerGetsReset | dccnet-xfer.py:117-128 | with no ACK arriving and a line that packs, a frame already sent `n` times is sent `17 - n` more times. Then exactly one RST frame follows and the sender stops |
| Xfer.NewIdSentEighteenTimes | dccnet-xfer.py:115-131 | a line that packs, whose id just changed, is sent 18 times before the RST |
| Xfer.FirstLineSentSeventeenTimes | dccnet-xfer.py:115-124 | the first line, shorter than 2^16 bytes, whose id equals the initial `last_id`, is sent only 17 times before the RST |
| Xfer.UnpackableLineStopsSender | dccnet-xfer.py:130-131 | below the limit, a line `build_frame` rejects stops the sender: no frame is sent, the socket stays open and `last_id` and `end_sent` keep their values |
| Xfer.LongFirstLineNeverSent | dccnet-xfer.py:51-131 | a first line of 2^16 bytes or more is never sent: the first tick stops the sender with an empty wire |
| Xfer.BuildableSnoc | dccnet-xfer.py:64-75 | appending a frame that packs (or an RST frame) to a wire of such frames keeps it so |
| Xfer.ReceivedKeepsBuildable | dccnet-xfer.py:157-200 | the receiver only ever sends frames `build_frame` packs, apart from RST frames |
| Xfer.DispatchedKeepsBuildable | dccnet-xfer.py:166-191 | the duplicate and data branches send only ACKs that pack, or an RST |
| Xfer.TickKeepsBuildable | dccnet-xfer.py:117-134 | the sender only ever sends frames `build_frame` packs, apart from RST frames |
| Xfer.SingleLineNeverSendsEnd | dccnet-xfer.py:54 | with a one-line input the flags never carry END and END is never sent |
| Md5Client.Take | dccnet-md5.py:62 | `recvfrom(n)` returns the next `n` bytes, or all that remain |
| Md5Client.Drop | dccnet-md5.py:62 | after `recvfrom(n)`, the stream has `n` bytes fewer, or is empty |
| Md5Client.SyncAtIsPattern | dccnet-md5.py:79-87 | the sync test compares four received bytes with the sync pattern |
| Md5Client.AsciiDecode | dccnet-md5.py:95 | ASCII decoding with errors ignored keeps only bytes below 0x80 and never grows the data |
| Md5Client.AsciiDecodeKeepsLength | dccnet-md5.py:95-98 | decoding keeps the length exactly when every byte is ASCII, and is then the identity |
| Md5Client.PackFrame | dccnet-md5.py:100-109 | the 15-byte-header layout is 15 + length bytes long |
| Md5Client.PackFrameFields | dccnet-md5.py:79-93 | reading a packed frame field by field gives back the packed values and the bytes after it |
| Md5Client.WireChecksumSkipsField | dccnet-md5.py:100-111 | zeroing the checksum field means the accepted checksum is the byte sum of every other byte of the frame |
| Md5Client.WireChecksum | dccnet-md5.py:100-111 | the checksum `receive_frame` computes over the frame with a zeroed checksum field fits 16 bits |
| Md5Client.ReceiveFrame | dccnet-md5.py:77-116 | an accepted frame consumes at least its 15 header bytes |
| Md5Client.ReceivedFrameIsPacked | dccnet-md5.py:77-116 | an accepted frame has an ASCII payload of the declared length and the checksum computed over it. The stream is exactly that frame repacked, followed by the rest |
| Md5Client.ReceivedFrameFields | dccnet-md5.py:77-116 | an accepted frame's fields are the big-endian header fields read at their offsets, its payload the next `length` bytes, all ASCII, and the rest follows |
| Md5Client.AcceptedStartsWithSync | dccnet-md5.py:46-87 | an input either reader accepts starts with the sync word twice and holds a full header |
| Md5Client.AcceptedChecksumCoversAllButItself | dccnet-md5.py:100-112 | the accepted checksum is the byte sum mod 2^16 of the whole frame except the checksum field |
| Md5Client.ReceiveFrameRoundTrip | dccnet-md5.py:77-116 | a frame packed with the checksum `receive_frame` computes, and an ASCII payload, is read back field for field, leaving what follows |
| Md5Client.FirstSyncWordCheckedFirst | dccnet-md5.py:48-51 | a stream not starting with the sync word fails in both readers, whatever follows |
| Md5Client.NonAsciiOrShortPayloadBadLength | dccnet-md5.py:93-98 | a payload cut short by the stream's end, or holding a byte from 0x80 up, fails the length test |
| Md5Client.ReceiveAck | dccnet-md5.py:46-71 | a successful read consumes at least the 15 header bytes |
| Md5Client.ReceiveAckAccepts | dccnet-md5.py:46-71 | `receive_ack` succeeds exactly on two sync words and a full header, and answers yes exactly when the flags byte is 0x80 |
| Md5Client.ReceiveAckOfPacked | dccnet-md5.py:46-71 | a packed frame with any checksum is consumed whole by `receive_ack`, which answers whether its flags are exactly the ACK flag |
| Md5Client.GasLoop | dccnet-md5.py:144-150 | the loop makes at most `budget` further reads and never forgets a counted refusal |
| Md5Client.GasLoopBounds | dccnet-md5.py:144-150 | refusals are at most the reads, which are at most the budget and at least one when the budget allows. A run that ends on a refusal has spent the whole budget |
| Md5Client.GasExchange | dccnet-md5.py:140-150 | the GAS frame is sent once plus once per refusal, and the loop ends where `GasLoop` says, with the same failure |
| Md5Client.MainGasTransmissions | dccnet-md5.py:141-147 | with `range(16)`, the GAS frame goes out between 1 and 17 times |
| Md5Client.AckWait | dccnet-md5.py:174-177 | the resend loop never reads past the stream |
| Md5Client.AwaitAck | dccnet-md5.py:174-177 | the frame is resent once per refusal, and the loop ends on a yes or on a read failure, as `AckWait` says |
| Md5Client.AnswerLine | dccnet-md5.py:171-178 | answering one line never reads past the stream |
| Md5Client.Answers | dccnet-md5.py:170-178 | answering all lines never reads past the stream |
| Md5Client.AnswerOne | dccnet-md5.py:171-178 | an empty line is skipped. Any other is sent as its digest and a newline, resent until acknowledged, and then the id flips |
| Md5Client.AnswerLines | dccnet-md5.py:170-178 | the loop over the lines does what `Answers` says, stopping at the first read failure |
| Md5Client.IdAfterAlternates | dccnet-md5.py:178 | after `n` non-empty lines the id has flipped `n` times: it is the start id plus `n`, mod 2 |
| Md5Client.AnswersKeepIds | dccnet-md5.py:170-178 | answering sends only data frames that pack, with flags 0 and ids 0 or 1, and keeps the id in {0, 1}. Without a failure it ends on the id that one flip per non-empty line gives |
| Md5Client.Split | dccnet-md5.py:169 | splitting on newlines yields at least one piece |
| Md5Client.SplitJoin | dccnet-md5.py:169 | the pieces hold no newline, and joining them with newlines gives the payload back |
| Md5Client.ServeStep | dccnet-md5.py:156-178 | a pass that goes round again has consumed input. An id of 256 or more makes `send_ack` fail and ends the loop with nothing sent |
| Md5Client.ServeOnce | dccnet-md5.py:156-178 | one pass of the data loop: ACK the frame (ending on a send failure if its id does not fit a byte), then continue on flags 0, stop on END, or answer the payload's lines, as `ServeStep` says |
| Md5Client.Serve | dccnet-md5.py:155-178 | the data loop sends what `Served` says and ends as it says, on END, a read failure or a send failure |
| Md5Client.ServedSequenced | dccnet-md5.py:155-178 | the data loop sends only frames `build_frame` packs: ACKs, and data frames with flags 0 and ids 0 or 1 |
| Md5Client.ReceivedFrameAckedFirst | dccnet-md5.py:156-159 | a frame received intact with an id below 256 is acknowledged with its own id before anything else is sent. With an id of 256 or more `send_ack` fails: nothing is sent and the loop ends |
| Md5Client.ClientShape | dccnet-md5.py:140-178 | a GAS payload `build_frame` rejects ends the run with nothing sent. Otherwise the client first sends the GAS frame, at most `attempts + 1` times. After it come only ACKs and data frames with ids 0 and 1 |
| Md5Client.ClientSendsBuildableFrames | dccnet-md5.py:140-178 | every frame the client sends is one `build_frame` packs |
| Md5Client.PackableAfterCopies | dccnet-md5.py:140-178 | copies of a frame that packs, followed by a sequenced tail, all pack |
| Md5Client.RunClient | dccnet-md5.py:139-178 | `main` after the connection: a send failure if the GAS frame does not pack, otherwise the GAS exchange, one flip, then the data loop, exactly as `Client` says |

## Left out

- Sockets, connection set-up, `accept`, `bind` and `listen` are not modelled; the wire is a sequence of frames out and a sequence of bytes in.
- The threads, the lock and `time.sleep` are not modelled. The sender and receiver of `dccnet-xfer.py` are separate steps (`SendTick`, `OnFrame`) that the caller interleaves. Each step is atomic, which the lock ensures for the lines it covers.
- Socket timeouts are not modelled: a `receive_ack` or `receive_frame` that times out (returning `None` or a three-element tuple) never happens here.
- Short TCP reads are not modelled: `recvfrom(n)` returns `n` bytes whenever that many remain in the stream.
- MD5 is the parameter `digest` (a function from line bytes to the hex digest's bytes); `hashlib` is not part of this model.
- Printing, `usage`, the command-line parsing and the unused `send_end` methods are not modelled; `set_frame_id` is the id flip inside `AdvanceLine`. `client.py` and `server.py` are not part of this model.
- `bitwise_and`, which `dccnet-xfer.py` imports, is not defined in `utils.py`. It is modelled as "some bit set in both bytes".
- Xfer flags: the flag constants are `bytes` objects that `struct.pack("B")` would reject. They are modelled as the byte values 0x80, 0x40 and 0x20.
- Xfer.DccnetXfer.OnFrame: line 157 of `dccnet-xfer.py` unpacks five values from the four that `decode_frame` returns. Python would raise `ValueError` there, and line 193 would catch it. The model follows the evident intent instead: the record `(checksum, length, id, flags, payload)` built from `decode_frame`'s result.
- Xfer.DccnetXfer.Deliver: the output file is opened in text mode but given bytes. The model appends the payload's bytes.
- Xfer.RetriesExhausted and Xfer.TooManyDuplicates: the RST messages are the ASCII bytes of their Python strings.
- Xfer.DccnetXfer.SendRst: `build_frame` raises on the RST frame's id 65535 (`Frame.RstIdNotPackable`), so as written no RST goes out and `sock.close()` is not reached. The model sends the RST frame as a value in `outbox` and closes, as the protocol intends; every other frame in `outbox` is one `build_frame` packs (`Xfer.TickKeepsBuildable`, `Xfer.ReceivedKeepsBuildable`).
- Xfer.DccnetXfer.constructor: an empty input file makes `input_lines[0]` raise `IndexError`; the model requires at least one line.
- Xfer.DccnetXfer.OnFrame: it takes the id as 0 or 1, the only ids `decode_frame` lets through; `Receive` covers raw bytes, where other ids are rejected by the decoder.
- Md5Client.ReceiveFrame: `DCCNETFrame.SYNC_BYTES` does not exist in `utils.py`. The model compares against the sync pattern `dc c0 23 c2` that `dccnet-xfer.py` packs as `SYNC_BYTES`.
- Md5Client.ServeStep: line 169 calls `.decode()` on a payload that is already a `str`. The model splits the payload's bytes on newlines, as intended.
- Md5Client.RunClient: the GAS loop's bound of 16 (`range(16)`) is the parameter `attempts`; `Md5Client.MainGasTransmissions` states the bound for 16.
- Md5Client.GasExchange: it does not return the number of reads made. That count is only in `GasLoop`'s result.
- Md5Client.AnswerLine: every caller passes the id 0 or 1 (`Md5Client.AnswersKeepIds`), with which the digest frame always packs, so the build failure for other ids is not modelled there.
- Md5Client.HexDigest: only the length of `hexdigest()`, 32 bytes, is modelled; that the bytes are hexadecimal digits is not.
- Frames on the wire are values: `outbox` and `sent` hold the frames whose `build_frame` result would be sent, not the bytes.
