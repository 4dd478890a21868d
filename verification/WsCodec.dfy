/**
 The binary WebSocket frame codec: headers, flag bits, compression and chunked encoding.
 */
module WsCodec {
  import opened Results

  type Byte = x: int | 0 <= x < 256
  type Bytes = seq<Byte>
  type Pos = n: nat | n > 0 witness 1

  datatype Error =
    | TooShort
    | UnknownOpCode(code: int)
    | UnknownOp(op: string)
    | MissingAlgorithm
    | UnknownAlgorithm(algorithm: int)
    | CorruptPayload
    | ChunkTooShort
    | ChunkGaps
    | FieldRange

  // ---- Flags and constants ----------------------------------------------------

  const FLAG_RESPONSE: nat := 1
  const FLAG_ERROR: nat := 2
  const FLAG_PUSH: nat := 4
  const FLAG_COMPRESSED: nat := 8
  const FLAG_CHUNKED: nat := 16

  const COMP_ZLIB: int := 0
  const COMP_LZMA: int := 1
  const COMPRESS_THRESHOLD: nat := 1024

  const HEADER_SIZE: nat := 4
  const CHUNK_HEADER_SIZE: nat := 4

  /** `flags & FLAG_COMPRESSED` */
  predicate IsCompressed(flags: nat) { flags / 8 % 2 == 1 }

  /** `flags & FLAG_CHUNKED` */
  predicate IsChunked(flags: nat) { flags / 16 % 2 == 1 }

  /** `flags | FLAG_COMPRESSED` */
  function WithCompressed(flags: nat): nat {
    if IsCompressed(flags) then flags else flags + FLAG_COMPRESSED
  }

  /** `flags | FLAG_CHUNKED` */
  function WithChunked(flags: nat): nat {
    if IsChunked(flags) then flags else flags + FLAG_CHUNKED
  }

  /** Raising the compressed bit leaves the chunked bit alone and keeps the byte range. */
  lemma CompressedBit(flags: nat)
    ensures IsCompressed(WithCompressed(flags))
    ensures IsChunked(WithCompressed(flags)) == IsChunked(flags)
    ensures WithCompressed(flags) < 256 <==> flags < 256
  {
    var q, r := flags / 8, flags % 8;
    assert flags == 8 * q + r && (flags + 8) / 8 == q + 1;
    assert flags / 16 == q / 2 && (flags + 8) / 16 == (q + 1) / 2;
  }

  /** Raising the chunked bit leaves the compressed bit alone and keeps the byte range. */
  lemma ChunkedBit(flags: nat)
    ensures IsChunked(WithChunked(flags))
    ensures IsCompressed(WithChunked(flags)) == IsCompressed(flags)
    ensures WithChunked(flags) < 256 <==> flags < 256
  {
    var q, r := flags / 16, flags % 16;
    assert flags == 16 * q + r && (flags + 16) / 16 == q + 1;
    assert flags / 8 == 2 * q + r / 8 && (flags + 16) / 8 == 2 * q + 2 + r / 8;
  }

  // ---- Op codes ---------------------------------------------------------------

  const OP_CODES: map<string, nat> := map[
    "about" := 1, "ops" := 2, "formats" := 3, "close" := 4,
    "read" := 10, "nav" := 11, "hisRead" := 12, "hisWrite" := 13, "pointWrite" := 14,
    "watchSub" := 15, "watchUnsub" := 16, "watchPoll" := 17, "invokeAction" := 18]

  function CodeOp(code: nat): Option<string> {
    match code
    case 1 => Some("about")
    case 2 => Some("ops")
    case 3 => Some("formats")
    case 4 => Some("close")
    case 10 => Some("read")
    case 11 => Some("nav")
    case 12 => Some("hisRead")
    case 13 => Some("hisWrite")
    case 14 => Some("pointWrite")
    case 15 => Some("watchSub")
    case 16 => Some("watchUnsub")
    case 17 => Some("watchPoll")
    case 18 => Some("invokeAction")
    case _ => None
  }

  function RequireOpcode(op: string): Result<nat, Error> {
    if op in OP_CODES then Ok(OP_CODES[op]) else Err(UnknownOp(op))
  }

  /** The op table and its reverse table are inverse to each other, and codes fit in a byte. */
  lemma OpCodesInvert(op: string, code: nat)
    ensures CodeOp(code) == Some(op) <==> RequireOpcode(op) == Ok(code)
    ensures RequireOpcode(op) == Ok(code) ==> code < 256
  {
    if CodeOp(code) == Some(op) {
      assert op in OP_CODES && OP_CODES[op] == code;
    }
    if RequireOpcode(op) == Ok(code) {
      assert op in OP_CODES && OP_CODES[op] == code;
      assert CodeOp(code) == Some(op);
    }
  }

  /** The ops in the order of their codes, which are 1 to 4 and 10 to 18. */
  const OPS: seq<string> := ["about", "ops", "formats", "close", "read", "nav", "hisRead", "hisWrite", "pointWrite",
                             "watchSub", "watchUnsub", "watchPoll", "invokeAction"]

  lemma CodesOnTheWire(i: nat)
    requires i < |OPS|
    ensures RequireOpcode(OPS[i]) == Ok(if i < 4 then i + 1 else i + 6)
  {
    assert OPS[i] in OP_CODES;
  }

  // ---- Big-endian packing -----------------------------------------------------

  /** The two bytes of `!H`. */
  function U16(n: nat): Bytes
    requires n < 65536
  {
    [n / 256, n % 256]
  }

  function ReadU16(data: Bytes, pos: nat): nat
    requires pos + 2 <= |data|
  {
    (data[pos] as int) * 256 + data[pos + 1] as int
  }

  /** `struct.Struct("!BHB").pack`, with its range errors. */
  function PackHeader(flags: nat, reqId: nat, opcode: nat): Result<Bytes, Error> {
    if flags < 256 && reqId < 65536 && opcode < 256
    then Ok([flags] + U16(reqId) + [opcode])
    else Err(FieldRange)
  }

  /** `struct.Struct("!HH").pack`, with its range errors. */
  function PackChunkHeader(idx: nat, total: nat): Result<Bytes, Error> {
    if idx < 65536 && total < 65536 then Ok(U16(idx) + U16(total)) else Err(FieldRange)
  }

  // ---- Compression ------------------------------------------------------------

  /** One compression algorithm, as the pair of library calls the codec makes. */
  datatype Algorithm = Algorithm(deflate: Bytes -> Bytes, inflate: Bytes -> Result<Bytes, Error>)

  datatype Compression = Compression(zlib: Algorithm, lzma: Algorithm)

  ghost predicate Lossless(c: Compression) {
    && (forall x: Bytes :: c.zlib.inflate(c.zlib.deflate(x)) == Ok(x))
    && (forall x: Bytes :: c.lzma.inflate(c.lzma.deflate(x)) == Ok(x))
  }

  function CompressPayload(c: Compression, data: Bytes, algorithm: int, threshold: nat)
    : Result<(Bytes, Option<Byte>), Error>
  {
    if |data| < threshold then Ok((data, None))
    else if algorithm == COMP_ZLIB then Ok((c.zlib.deflate(data), Some(0)))
    else if algorithm == COMP_LZMA then Ok((c.lzma.deflate(data), Some(1)))
    else Err(UnknownAlgorithm(algorithm))
  }

  function DecompressPayload(c: Compression, data: Bytes, algorithm: int): Result<Bytes, Error> {
    if algorithm == COMP_ZLIB then c.zlib.inflate(data)
    else if algorithm == COMP_LZMA then c.lzma.inflate(data)
    else Err(UnknownAlgorithm(algorithm))
  }

  // ---- Single frames ----------------------------------------------------------

  function EncodePayload(c: Compression, flags: nat, reqId: nat, opcode: nat, payload: Bytes,
                         compression: Option<int>, threshold: nat): Result<Bytes, Error>
  {
    if compression.Some? && |payload| >= threshold then
      var packed :- CompressPayload(c, payload, compression.value, threshold);
      match packed.1
      case Some(algo) =>
        var header :- PackHeader(WithCompressed(flags), reqId, opcode);
        Ok(header + [algo] + packed.0)
      case None =>
        var header :- PackHeader(flags, reqId, opcode);
        Ok(header + payload)
    else
      var header :- PackHeader(flags, reqId, opcode);
      Ok(header + payload)
  }

  datatype Frame = Frame(flags: nat, reqId: nat, op: string, body: Bytes)

  function DecodeBinaryFrame(c: Compression, data: Bytes): Result<Frame, Error> {
    if |data| < HEADER_SIZE then Err(TooShort)
    else
      var flags, reqId := data[0], ReadU16(data, 1);
      match CodeOp(data[3])
      case None => Err(UnknownOpCode(data[3]))
      case Some(op) =>
        var rest := data[HEADER_SIZE..];
        if IsChunked(flags) then Ok(Frame(flags, reqId, op, rest))
        else if IsCompressed(flags) then
          if |rest| == 0 then Err(MissingAlgorithm)
          else
            var payload :- DecompressPayload(c, rest[1..], rest[0]);
            Ok(Frame(flags, reqId, op, payload))
        else Ok(Frame(flags, reqId, op, rest))
  }

  /** The header of any frame starting with a packed header is read back field by field. */
  lemma HeaderReadsBack(c: Compression, flags: nat, reqId: nat, op: string, opcode: nat, tail: Bytes)
    requires RequireOpcode(op) == Ok(opcode)
    requires flags < 256 && reqId < 65536
    ensures PackHeader(flags, reqId, opcode).Ok?
    ensures var data := PackHeader(flags, reqId, opcode).value + tail;
            |data| >= HEADER_SIZE && data[0] == flags && ReadU16(data, 1) == reqId &&
            CodeOp(data[3]) == Some(op) && data[HEADER_SIZE..] == tail
  {
    OpCodesInvert(op, opcode);
    var header := PackHeader(flags, reqId, opcode).value;
    assert (header + tail)[HEADER_SIZE..] == tail;
  }

  /**
   Decoding an encoded single frame gives back every field and the original payload; the
   compressed bit is raised exactly when the payload was compressed.
   */
  lemma SingleFrameRoundTrip(c: Compression, flags: nat, reqId: nat, op: string, opcode: nat, payload: Bytes,
                             compression: Option<int>, threshold: nat)
    requires Lossless(c)
    requires !IsChunked(flags) && !IsCompressed(flags)
    requires RequireOpcode(op) == Ok(opcode)
    ensures var r := EncodePayload(c, flags, reqId, opcode, payload, compression, threshold);
            var packed := compression.Some? && |payload| >= threshold;
            && (r.Ok? <==> flags < 256 && reqId < 65536 && (packed ==> compression.value in {COMP_ZLIB, COMP_LZMA}))
            && (r.Ok? ==> DecodeBinaryFrame(c, r.value)
                          == Ok(Frame(if packed then WithCompressed(flags) else flags, reqId, op, payload)))
  {
    OpCodesInvert(op, opcode);
    CompressedBit(flags);
    if flags < 256 && reqId < 65536 {
      if compression.Some? && |payload| >= threshold {
        var packed := CompressPayload(c, payload, compression.value, threshold);
        if packed.Ok? {
          var tail := [packed.value.1.value] + packed.value.0;
          HeaderReadsBack(c, WithCompressed(flags), reqId, op, opcode, tail);
          var header := PackHeader(WithCompressed(flags), reqId, opcode).value;
          assert header + [packed.value.1.value] + packed.value.0 == header + tail;
          assert tail[1..] == packed.value.0;
        }
      } else {
        HeaderReadsBack(c, flags, reqId, op, opcode, payload);
      }
    }
  }

  // ---- Chunked frames ---------------------------------------------------------

  /** Number of chunks: a ceiling division, at least one. */
  function ChunkCount(length: nat, chunkSize: Pos): nat
  {
    var total := (length + chunkSize - 1) / chunkSize;
    if total == 0 then 1 else total
  }

  /** `payload[i * size : i * size + size]`, with Python's clipping of slice bounds. */
  function ChunkSlice(payload: Bytes, chunkSize: Pos, i: nat): Bytes {
    var start := i * chunkSize;
    var stop := start + chunkSize;
    if start >= |payload| then [] else if stop >= |payload| then payload[start..] else payload[start..stop]
  }

  /** The frame carrying chunk `i` of `total`. */
  function ChunkFrame(c: Compression, flags: nat, reqId: nat, opcode: nat, chunk: Bytes,
                      i: nat, total: nat, compression: Option<int>): Result<Bytes, Error>
  {
    match compression
    case Some(algorithm) =>
      var packed :- CompressPayload(c, chunk, algorithm, 0);
      var header :- PackHeader(WithCompressed(WithChunked(flags)), reqId, opcode);
      var chunkHeader :- PackChunkHeader(i, total);
      Ok(header + [packed.1.value] + chunkHeader + packed.0)
    case None =>
      var header :- PackHeader(WithChunked(flags), reqId, opcode);
      var chunkHeader :- PackChunkHeader(i, total);
      Ok(header + chunkHeader + chunk)
  }

  /** The first `n` frames of a chunked payload, or the first error met while building them. */
  function FramesUpTo(c: Compression, flags: nat, reqId: nat, opcode: nat, payload: Bytes,
                      compression: Option<int>, chunkSize: Pos, n: nat): Result<seq<Bytes>, Error>
  {
    if n == 0 then Ok([])
    else
      var front :- FramesUpTo(c, flags, reqId, opcode, payload, compression, chunkSize, n - 1);
      var last :- ChunkFrame(c, flags, reqId, opcode, ChunkSlice(payload, chunkSize, n - 1), n - 1,
                             ChunkCount(|payload|, chunkSize), compression);
      Ok(front + [last])
  }

  function ChunkedFrames(c: Compression, flags: nat, reqId: nat, op: string, payload: Bytes,
                         compression: Option<int>, chunkSize: Pos): Result<seq<Bytes>, Error>
  {
    var opcode :- RequireOpcode(op);
    FramesUpTo(c, flags, reqId, opcode, payload, compression, chunkSize, ChunkCount(|payload|, chunkSize))
  }

  method EncodeChunkedFrames(c: Compression, flags: nat, reqId: nat, op: string, payload: Bytes,
                             compression: Option<int>, chunkSize: Pos)
    returns (r: Result<seq<Bytes>, Error>)
    ensures r == ChunkedFrames(c, flags, reqId, op, payload, compression, chunkSize)
  {
    var opcode :- RequireOpcode(op);
    var chunks: seq<Bytes> := [];
    var total := (|payload| + chunkSize - 1) / chunkSize;
    if total == 0 {
      total := 1;
    }
    for i := 0 to total
      invariant FramesUpTo(c, flags, reqId, opcode, payload, compression, chunkSize, i) == Ok(chunks)
    {
      var chunkData := ChunkSlice(payload, chunkSize, i);
      var frame := ChunkFrame(c, flags, reqId, opcode, chunkData, i, total, compression);
      if frame.Err? {
        FramesErrSticks(c, flags, reqId, opcode, payload, compression, chunkSize, i + 1, total);
        return Err(frame.error);
      }
      chunks := chunks + [frame.value];
    }
    return Ok(chunks);
  }

  lemma {:induction false} FramesErrSticks(c: Compression, flags: nat, reqId: nat, opcode: nat, payload: Bytes,
                        compression: Option<int>, chunkSize: Pos, m: nat, n: nat)
    requires m <= n
    requires FramesUpTo(c, flags, reqId, opcode, payload, compression, chunkSize, m).Err?
    ensures FramesUpTo(c, flags, reqId, opcode, payload, compression, chunkSize, n)
         == FramesUpTo(c, flags, reqId, opcode, payload, compression, chunkSize, m)
  {
    if m < n {
      FramesErrSticks(c, flags, reqId, opcode, payload, compression, chunkSize, m, n - 1);
    }
  }

  lemma {:induction false} FramesAt(c: Compression, flags: nat, reqId: nat, opcode: nat, payload: Bytes,
                 compression: Option<int>, chunkSize: Pos, n: nat, i: nat)
    requires i < n
    requires FramesUpTo(c, flags, reqId, opcode, payload, compression, chunkSize, n).Ok?
    ensures var fs := FramesUpTo(c, flags, reqId, opcode, payload, compression, chunkSize, n).value;
            |fs| == n &&
            Ok(fs[i]) == ChunkFrame(c, flags, reqId, opcode, ChunkSlice(payload, chunkSize, i), i,
                                    ChunkCount(|payload|, chunkSize), compression)
  {
    if n == 1 {
      assert FramesUpTo(c, flags, reqId, opcode, payload, compression, chunkSize, 0) == Ok([]);
    } else if i == n - 1 {
      FramesAt(c, flags, reqId, opcode, payload, compression, chunkSize, n - 1, 0);
    } else {
      FramesAt(c, flags, reqId, opcode, payload, compression, chunkSize, n - 1, i);
    }
  }

  /** What a receiver extracts from the body of a chunked frame: algorithm byte, chunk header, payload. */
  datatype Chunk = Chunk(idx: nat, total: nat, payload: Bytes)

  function DecodeChunkHeader(data: Bytes): Result<Chunk, Error> {
    if |data| < CHUNK_HEADER_SIZE then Err(ChunkTooShort)
    else Ok(Chunk(ReadU16(data, 0), ReadU16(data, 2), data[CHUNK_HEADER_SIZE..]))
  }

  function ParseChunk(c: Compression, flags: nat, body: Bytes): Result<Chunk, Error> {
    if IsCompressed(flags) then
      if |body| == 0 then Err(MissingAlgorithm)
      else
        var chunk :- DecodeChunkHeader(body[1..]);
        var payload :- DecompressPayload(c, chunk.payload, body[0]);
        Ok(chunk.(payload := payload))
    else DecodeChunkHeader(body)
  }

  lemma ChunkHeaderReadsBack(i: nat, total: nat, tail: Bytes)
    requires i < 65536 && total < 65536
    ensures DecodeChunkHeader(PackChunkHeader(i, total).value + tail) == Ok(Chunk(i, total, tail))
  {
    var data := U16(i) + U16(total) + tail;
    assert data[CHUNK_HEADER_SIZE..] == tail;
    assert data[0] == i / 256 && data[1] == i % 256 && data[2] == total / 256 && data[3] == total % 256;
  }

  /** A chunk frame decodes to its own key, and its body parses to its own index, total and slice. */
  lemma ChunkFrameReadsBack(c: Compression, flags: nat, reqId: nat, op: string, opcode: nat, chunk: Bytes,
                            i: nat, total: nat, compression: Option<int>)
    requires Lossless(c) && RequireOpcode(op) == Ok(opcode)
    requires IsCompressed(flags) ==> compression.Some?
    requires ChunkFrame(c, flags, reqId, opcode, chunk, i, total, compression).Ok?
    ensures var data := ChunkFrame(c, flags, reqId, opcode, chunk, i, total, compression).value;
            var r := DecodeBinaryFrame(c, data);
            && r.Ok? && r.value.reqId == reqId && r.value.op == op && IsChunked(r.value.flags)
            && ParseChunk(c, r.value.flags, r.value.body) == Ok(Chunk(i, total, chunk))
  {
    ChunkedBit(flags);
    CompressedBit(WithChunked(flags));
    var data := ChunkFrame(c, flags, reqId, opcode, chunk, i, total, compression).value;
    var chunkHeader := PackChunkHeader(i, total).value;
    match compression {
      case None =>
        HeaderReadsBack(c, WithChunked(flags), reqId, op, opcode, chunkHeader + chunk);
        assert data == PackHeader(WithChunked(flags), reqId, opcode).value + (chunkHeader + chunk);
        ChunkHeaderReadsBack(i, total, chunk);
      case Some(algorithm) =>
        var packed := CompressPayload(c, chunk, algorithm, 0).value;
        var header := PackHeader(WithCompressed(WithChunked(flags)), reqId, opcode).value;
        var tail := [packed.1.value] + (chunkHeader + packed.0);
        HeaderReadsBack(c, WithCompressed(WithChunked(flags)), reqId, op, opcode, tail);
        assert data == header + tail;
        assert tail[1..] == chunkHeader + packed.0;
        ChunkHeaderReadsBack(i, total, packed.0);
    }
  }

  // ---- Joining the chunks back ------------------------------------------------

  function Join(parts: seq<Bytes>): Bytes {
    if parts == [] then [] else parts[0] + Join(parts[1..])
  }

  function Slices(payload: Bytes, chunkSize: Pos, n: nat): (r: seq<Bytes>)
    ensures |r| == n && forall i :: 0 <= i < n ==> r[i] == ChunkSlice(payload, chunkSize, i)
  {
    seq(n, (i: int) requires 0 <= i => ChunkSlice(payload, chunkSize, i))
  }

  /** What is left of the payload from chunk `k` on. */
  function From(payload: Bytes, start: nat): Bytes {
    if start >= |payload| then [] else payload[start..]
  }

  lemma SliceStep(payload: Bytes, chunkSize: Pos, k: nat)
    ensures From(payload, k * chunkSize) == ChunkSlice(payload, chunkSize, k) + From(payload, (k + 1) * chunkSize)
  {
    var start := k * chunkSize;
    assert (k + 1) * chunkSize == start + chunkSize;
  }

  lemma {:induction false} JoinSlicesFrom(payload: Bytes, chunkSize: Pos, n: nat, k: nat)
    requires k <= n && |payload| <= n * chunkSize
    ensures Join(Slices(payload, chunkSize, n)[k..]) == From(payload, k * chunkSize)
    decreases n - k
  {
    var parts := Slices(payload, chunkSize, n)[k..];
    if k < n {
      assert parts[1..] == Slices(payload, chunkSize, n)[k + 1..];
      JoinSlicesFrom(payload, chunkSize, n, k + 1);
      SliceStep(payload, chunkSize, k);
    }
  }

  lemma ChunksCoverPayload(length: nat, chunkSize: Pos)
    ensures length <= ChunkCount(length, chunkSize) * chunkSize
  {
    var m := length + chunkSize - 1;
    assert m == m / chunkSize * chunkSize + m % chunkSize;
  }

  /** Concatenating the slices in index order restores the payload. */
  lemma JoinSlices(payload: Bytes, chunkSize: Pos)
    ensures Join(Slices(payload, chunkSize, ChunkCount(|payload|, chunkSize))) == payload
  {
    var n := ChunkCount(|payload|, chunkSize);
    ChunksCoverPayload(|payload|, chunkSize);
    JoinSlicesFrom(payload, chunkSize, n, 0);
    assert Slices(payload, chunkSize, n)[0..] == Slices(payload, chunkSize, n);
    assert payload[0..] == payload;
  }

  /** Chunked encoding succeeds exactly when every header field fits and the algorithm is known. */
  lemma ChunkedFramesSucceed(c: Compression, flags: nat, reqId: nat, op: string, payload: Bytes,
                             compression: Option<int>, chunkSize: Pos)
    ensures ChunkedFrames(c, flags, reqId, op, payload, compression, chunkSize).Ok? <==>
            && op in OP_CODES && flags < 256 && reqId < 65536
            && ChunkCount(|payload|, chunkSize) < 65536
            && (compression.Some? ==> compression.value in {COMP_ZLIB, COMP_LZMA})
  {
    var n := ChunkCount(|payload|, chunkSize);
    ChunkedBit(flags);
    CompressedBit(WithChunked(flags));
    if op in OP_CODES {
      var opcode := OP_CODES[op];
      OpCodesInvert(op, opcode);
      var fits := && flags < 256 && reqId < 65536 && n < 65536
                  && (compression.Some? ==> compression.value in {COMP_ZLIB, COMP_LZMA});
      if fits {
        FramesAllOk(c, flags, reqId, opcode, payload, compression, chunkSize, n);
      } else if ChunkedFrames(c, flags, reqId, op, payload, compression, chunkSize).Ok? {
        FramesAt(c, flags, reqId, opcode, payload, compression, chunkSize, n, 0);
        assert false;
      }
    }
  }

  lemma {:induction false} FramesAllOk(c: Compression, flags: nat, reqId: nat, opcode: nat, payload: Bytes,
                                       compression: Option<int>, chunkSize: Pos, n: nat)
    requires n <= ChunkCount(|payload|, chunkSize) < 65536
    requires flags < 256 && reqId < 65536 && opcode < 256
    requires compression.Some? ==> compression.value in {COMP_ZLIB, COMP_LZMA}
    ensures FramesUpTo(c, flags, reqId, opcode, payload, compression, chunkSize, n).Ok?
  {
    ChunkedBit(flags);
    CompressedBit(WithChunked(flags));
    if n > 0 {
      FramesAllOk(c, flags, reqId, opcode, payload, compression, chunkSize, n - 1);
    }
  }

  // ---- What the decoder refuses ----------------------------------------------------------------------

  /** Packed bytes after an algorithm byte that names no algorithm or whose library refuses them. */
  predicate Corrupt(c: Compression, algorithm: int, packed: Bytes) {
    if algorithm == 0 then c.zlib.inflate(packed).Err? else if algorithm == 1 then c.lzma.inflate(packed).Err? else true
  }

  /** A frame is refused exactly for a short header, an unknown op, or, if it is packed and no chunk, a payload that lacks
      its algorithm byte or does not unpack. */
  lemma FrameRefusedExactly(c: Compression, data: Bytes)
    ensures DecodeBinaryFrame(c, data).Err? <==>
              || |data| < 4
              || (forall op :: RequireOpcode(op) != Ok(data[3] as int))
              || (!IsChunked(data[0]) && IsCompressed(data[0]) && (|data| == 4 || Corrupt(c, data[4], data[5..])))
    ensures |data| >= 4 && CodeOp(data[3]).Some? && IsChunked(data[0]) ==>
              DecodeBinaryFrame(c, data) == Ok(Frame(data[0], ReadU16(data, 1), CodeOp(data[3]).value, data[4..]))
  {
    if |data| >= 4 {
      var code: nat := data[3];
      forall op
        ensures RequireOpcode(op) == Ok(code) <==> CodeOp(code) == Some(op)
      {
        OpCodesInvert(op, code);
      }
      assert |data| > 4 ==> data[4..][1..] == data[5..];
      if CodeOp(code).Some? {
        assert RequireOpcode(CodeOp(code).value) == Ok(code);
      }
    }
  }

  /** A chunk is refused exactly for a short chunk header or, if it is packed, for the same two reasons. */
  lemma ChunkRefusedExactly(c: Compression, flags: nat, body: Bytes)
    ensures ParseChunk(c, flags, body).Err? <==>
              if IsCompressed(flags) then |body| < 5 || Corrupt(c, body[0], body[5..]) else |body| < 4
  {
    if |body| >= 5 {
      assert body[1..][4..] == body[5..];
    }
  }
}
