/**
  The stream format as a writer produces it (length-prefixed frames ended by a zero-length
  frame or by the end of the input), and what the reader makes of it: the batches the
  iterator yields, the framing rules, and the header-type dispatch.
*/
module StreamFormat {
  import opened Wrappers
  import opened ArrowIpc
  import opened StreamReader

  // ---------------------------------------------------------------------------------------
  // Little-endian length prefixes
  // ---------------------------------------------------------------------------------------

  /** `i32::to_le_bytes`. */
  function ToLeBytes(n: int): (b: seq<byte>)
    requires -0x8000_0000 <= n < 0x8000_0000
    ensures |b| == 4
  {
    var u := if n >= 0 then n else n + 0x1_0000_0000;
    var u1 := u / 0x100;
    var u2 := u1 / 0x100;
    assert u2 < 0x1_0000;
    [u % 0x100, u1 % 0x100, u2 % 0x100, u2 / 0x100]
  }

  lemma LeBytesRoundTrip(n: int)
    requires -0x8000_0000 <= n < 0x8000_0000
    ensures FromLeBytes(ToLeBytes(n)) == n
  {
    var u := if n >= 0 then n else n + 0x1_0000_0000;
    var u1 := u / 0x100;
    var u2 := u1 / 0x100;
    var b := ToLeBytes(n);
    var b0: int, b1: int, b2: int, b3: int := b[0], b[1], b[2], b[3];
    assert u == b0 + 0x100 * u1;
    assert u1 == b1 + 0x100 * u2;
    assert u2 == b2 + 0x100 * b3;
  }

  /** The other direction: every 4 bytes are the little-endian bytes of the i32 they read
      as, so `ToLeBytes` and `FromLeBytes` are inverse bijections. */
  lemma LeBytesInverse(b: seq<byte>)
    requires |b| == 4
    ensures ToLeBytes(FromLeBytes(b)) == b
  {
    var b0: int, b1: int, b2: int, b3: int := b[0], b[1], b[2], b[3];
    var q2 := b2 + 0x100 * b3;
    var q1 := b1 + 0x100 * q2;
    var u := b0 + 0x100 * q1;
    SplitByte(b0, q1);
    SplitByte(b1, q2);
    SplitByte(b2, b3);
    var n := FromLeBytes(b);
    assert (if n >= 0 then n else n + 0x1_0000_0000) == u;
    var e := ToLeBytes(n);
    assert e == [b[0], b[1], b[2], b[3]] == b;
  }

  lemma SplitByte(r: int, q: int)
    requires 0 <= r < 0x100
    ensures (r + 0x100 * q) / 0x100 == q && (r + 0x100 * q) % 0x100 == r
  {
  }

  /** A length prefix, preceded by the continuation marker when `marker` holds. */
  function LengthPrefix(marker: bool, n: int): (p: seq<byte>)
    requires -0x8000_0000 <= n < 0x8000_0000
    ensures |p| == if marker then 8 else 4
  {
    (if marker then CONTINUATION_MARKER else []) + ToLeBytes(n)
  }

  /** The reader gives back every length a writer puts in a prefix, with or without the
      marker, except -1, which is the marker itself. */
  lemma ReadLengthPrefix(marker: bool, n: int, rest: seq<byte>)
    requires -0x8000_0000 <= n < 0x8000_0000 && n != -1
    ensures ReadPrefix(LengthPrefix(marker, n) + rest) == PrefixLength(n, rest)
  {
    var b := ToLeBytes(n);
    LeBytesRoundTrip(n);
    MarkerIsMinusOne(b);
    var input := LengthPrefix(marker, n) + rest;
    if marker {
      assert input == CONTINUATION_MARKER + b + rest;
      assert input[..4] == CONTINUATION_MARKER;
      assert input[4..8] == b;
      assert input[8..] == rest;
    } else {
      assert input == b + rest;
      assert input[..4] == b;
      assert input[4..] == rest;
    }
  }

  /** Continuation marker: a marker before a 4-byte prefix other than the marker changes
      neither the length read nor what follows it, so an advance gives the same. */
  lemma {:induction false} ContinuationMarkerIsNoOp(lib: Ipc, schema: Schema, dicts: Dictionaries,
                                                    prefix: seq<byte>, rest: seq<byte>)
    requires |prefix| == 4 && prefix != CONTINUATION_MARKER
    ensures ReadPrefix(CONTINUATION_MARKER + prefix + rest) == ReadPrefix(prefix + rest)
    ensures Advance(lib, schema, dicts, CONTINUATION_MARKER + prefix + rest, false) ==
            Advance(lib, schema, dicts, prefix + rest, false)
  {
    var marked := CONTINUATION_MARKER + prefix + rest;
    assert marked[..4] == CONTINUATION_MARKER;
    assert marked[4..8] == prefix == (prefix + rest)[..4];
    assert marked[8..] == rest == (prefix + rest)[4..];
  }

  /** Only one marker is skipped: a second one is read as the length -1, which cannot be
      allocated. */
  lemma OnlyOneMarkerSkipped(lib: Ipc, schema: Schema, dicts: Dictionaries, rest: seq<byte>)
    ensures Advance(lib, schema, dicts, CONTINUATION_MARKER + CONTINUATION_MARKER + rest, false) ==
            Advanced(Err(CapacityOverflow), false, dicts, Some(rest))
  {
    var input := CONTINUATION_MARKER + CONTINUATION_MARKER + rest;
    assert input[..4] == CONTINUATION_MARKER;
    assert input[4..8] == CONTINUATION_MARKER;
    assert input[8..] == rest;
    MarkerIsMinusOne(CONTINUATION_MARKER);
  }

  /** A marker followed by fewer than 4 bytes is an error, not a clean end. */
  lemma ShortPrefixAfterMarker(lib: Ipc, schema: Schema, dicts: Dictionaries, tail: seq<byte>)
    requires |tail| < 4
    ensures Advance(lib, schema, dicts, CONTINUATION_MARKER + tail, false) ==
            Advanced(Err(IoError(UnexpectedEof)), false, dicts, None)
  {
    assert (CONTINUATION_MARKER + tail)[..4] == CONTINUATION_MARKER;
  }

  // ---------------------------------------------------------------------------------------
  // Frames and streams as a writer produces them
  // ---------------------------------------------------------------------------------------

  /** One encapsulated message: metadata bytes and body bytes. */
  datatype Frame = Frame(marker: bool, meta: seq<byte>, body: seq<byte>)

  predicate ValidFrame(f: Frame) {
    0 < |f.meta| < 0x8000_0000
  }

  function EncodeFrame(f: Frame): (e: seq<byte>)
    requires ValidFrame(f)
    ensures |e| == (if f.marker then 8 else 4) + |f.meta| + |f.body|
  {
    LengthPrefix(f.marker, |f.meta|) + f.meta + f.body
  }

  /** How a stream ends: at the end of the input (possibly with fewer than 4 stray bytes),
      or with a zero-length frame after which anything may follow. */
  datatype Terminator = EndOfInput(stray: seq<byte>) | ZeroLength(marker: bool, trailing: seq<byte>)

  predicate ValidTerminator(t: Terminator) {
    t.EndOfInput? ==> |t.stray| < 4
  }

  function EncodeTerminator(t: Terminator): (e: seq<byte>)
    ensures t.EndOfInput? ==> e == t.stray
    ensures t.ZeroLength? ==> 4 <= |e| && ReadPrefix(e) == PrefixLength(0, t.trailing)
  {
    match t
    case EndOfInput(stray) => stray
    case ZeroLength(marker, trailing) =>
      ReadLengthPrefix(marker, 0, trailing);
      LengthPrefix(marker, 0) + trailing
  }

  function EncodeStream(frames: seq<Frame>, t: Terminator): (e: seq<byte>)
    requires ValidFrames(frames)
    decreases |frames|
  {
    if frames == [] then EncodeTerminator(t)
    else EncodeFrame(frames[0]) + EncodeStream(frames[1..], t)
  }

  /** A record batch or dictionary batch frame whose envelope parses, has its header table
      and declares exactly the body that follows it. */
  predicate ValidFrames(frames: seq<Frame>) {
    forall i :: 0 <= i < |frames| ==> ValidFrame(frames[i])
  }

  predicate DataFrame(lib: Ipc, f: Frame) {
    ValidFrame(f) && lib.rootAsMessage(f.meta).Some? &&
    var m := lib.rootAsMessage(f.meta).value;
    m.header.Some? && m.bodyLength == |f.body| &&
    (m.headerType == HEADER_RECORD_BATCH || m.headerType == HEADER_DICTIONARY_BATCH)
  }

  /** Every frame is a data frame. */
  predicate DataFrames(lib: Ipc, frames: seq<Frame>) {
    ValidFrames(frames) && forall i :: 0 <= i < |frames| ==> DataFrame(lib, frames[i])
  }

  lemma DataFramesTail(lib: Ipc, frames: seq<Frame>)
    requires DataFrames(lib, frames) && frames != []
    ensures DataFrame(lib, frames[0]) && DataFrames(lib, frames[1..])
  {
    assert DataFrame(lib, frames[0]);
    forall i | 0 <= i < |frames[1..]|
      ensures ValidFrame(frames[1..][i]) && DataFrame(lib, frames[1..][i])
    {
      assert frames[1..][i] == frames[i + 1];
      assert DataFrame(lib, frames[i + 1]);
    }
  }

  // ---------------------------------------------------------------------------------------
  // One advance over an encoded frame
  // ---------------------------------------------------------------------------------------

  /** The prefix and metadata of a frame are read back as written. */
  lemma ReadFrameMetadata(marker: bool, meta: seq<byte>, rest: seq<byte>)
    requires 0 < |meta| < 0x8000_0000
    ensures ReadPrefix(LengthPrefix(marker, |meta|) + meta + rest) == PrefixLength(|meta|, meta + rest)
    ensures ReadBuffer(|meta|, meta + rest) == SizedBytes(meta, rest)
  {
    assert LengthPrefix(marker, |meta|) + meta + rest == LengthPrefix(marker, |meta|) + (meta + rest);
    ReadLengthPrefix(marker, |meta|, meta + rest);
    assert (meta + rest)[..|meta|] == meta;
    assert (meta + rest)[|meta|..] == rest;
  }

  /** The message of a data frame: its metadata and exactly its body are read, and the
      body goes to the decoder its header type names. */
  lemma DispatchDataFrame(lib: Ipc, schema: Schema, dicts: Dictionaries, f: Frame, rest: seq<byte>)
    requires DataFrame(lib, f)
    ensures var m := lib.rootAsMessage(f.meta).value;
            var h := m.header.value;
            var d := Dispatch(lib, schema, dicts, |f.meta|, f.meta + (f.body + rest));
            if m.headerType == HEADER_RECORD_BATCH then
              d == match lib.readRecordBatch(f.body, h, schema, dicts)
                   case Ok(b) => Batch(b, rest)
                   case Err(e) => Failed(e, Some(rest))
            else
              d == match lib.readDictionary(f.body, h, schema, dicts)
                   case Ok(u) => Dictionary(u, rest)
                   case Err(e) => Failed(e, Some(rest))
  {
    ReadFrameMetadata(f.marker, f.meta, f.body + rest);
    assert ReadBuffer(|f.body|, f.body + rest) == SizedBytes(f.body, rest) by {
      assert (f.body + rest)[..|f.body|] == f.body;
      assert (f.body + rest)[|f.body|..] == rest;
    }
  }

  /** Exact consumption: an advance over a record batch frame yields the decoded batch (or
      the decoder's error) and leaves exactly what follows the frame; a dictionary batch
      frame goes into the table and the advance goes on with what follows. */
  lemma AdvanceOverDataFrame(lib: Ipc, schema: Schema, dicts: Dictionaries, f: Frame, rest: seq<byte>)
    requires DataFrame(lib, f)
    ensures var m := lib.rootAsMessage(f.meta).value;
            var h := m.header.value;
            Advance(lib, schema, dicts, EncodeFrame(f) + rest, false) ==
              if m.headerType == HEADER_RECORD_BATCH then
                match lib.readRecordBatch(f.body, h, schema, dicts)
                case Ok(b) => Advanced(Ok(Some(b)), false, dicts, Some(rest))
                case Err(e) => Advanced(Err(e), false, dicts, Some(rest))
              else
                match lib.readDictionary(f.body, h, schema, dicts)
                case Ok(u) => Advance(lib, schema, dicts[u.id := u.values], rest, false)
                case Err(e) => Advanced(Err(e), false, dicts, Some(rest))
  {
    var input := EncodeFrame(f) + rest;
    assert input == LengthPrefix(f.marker, |f.meta|) + f.meta + (f.body + rest);
    ReadFrameMetadata(f.marker, f.meta, f.body + rest);
    assert ReadPrefix(input) == PrefixLength(|f.meta|, f.meta + (f.body + rest));
    DispatchDataFrame(lib, schema, dicts, f, rest);
  }

  /** Header dispatch for a frame whose envelope parses: a Schema is a protocol error, no
      header ends this advance without finishing, an unknown tag is rejected, and a batch
      without its header table is a protocol error; none of them touches the dictionaries. */
  lemma HeaderDispatch(lib: Ipc, schema: Schema, dicts: Dictionaries, marker: bool, meta: seq<byte>, rest: seq<byte>)
    requires 0 < |meta| < 0x8000_0000 && lib.rootAsMessage(meta).Some?
    ensures var m := lib.rootAsMessage(meta).value;
            var a := Advance(lib, schema, dicts, LengthPrefix(marker, |meta|) + meta + rest, false);
            (m.headerType == HEADER_SCHEMA ==>
               a == Advanced(Err(IpcError(UnexpectedSchema)), false, dicts, Some(rest))) &&
            (m.headerType == HEADER_NONE ==>
               a == Advanced(Ok(None), false, dicts, Some(rest))) &&
            (m.headerType > HEADER_RECORD_BATCH ==>
               a == Advanced(Err(InvalidArgumentError(m.headerType)), false, dicts, Some(rest))) &&
            (m.headerType == HEADER_RECORD_BATCH && m.header.None? ==>
               a == Advanced(Err(IpcError(NotARecordBatch)), false, dicts, Some(rest))) &&
            (m.headerType == HEADER_DICTIONARY_BATCH && m.header.None? ==>
               a == Advanced(Err(IpcError(NotADictionaryBatch)), false, dicts, Some(rest)))
  {
    ReadFrameMetadata(marker, meta, rest);
  }

  /** Metadata that is not a message envelope fails this advance with a parse error; the
      reader is not finished, the dictionaries are kept and reading stops after the metadata. */
  lemma MalformedEnvelope(lib: Ipc, schema: Schema, dicts: Dictionaries, marker: bool, meta: seq<byte>, rest: seq<byte>)
    requires 0 < |meta| < 0x8000_0000 && lib.rootAsMessage(meta).None?
    ensures Advance(lib, schema, dicts, LengthPrefix(marker, |meta|) + meta + rest, false) ==
              Advanced(Err(ParseError(NotAMessage)), false, dicts, Some(rest))
  {
    ReadFrameMetadata(marker, meta, rest);
  }

  /** Fewer bytes after a nonzero prefix than it declares: the metadata read fails with
      `UnexpectedEof`, and the reader is not finished. */
  lemma ShortMetadata(lib: Ipc, schema: Schema, dicts: Dictionaries, marker: bool, n: int, tail: seq<byte>)
    requires 0 < n < 0x8000_0000 && |tail| < n
    ensures Advance(lib, schema, dicts, LengthPrefix(marker, n) + tail, false) ==
              Advanced(Err(IoError(UnexpectedEof)), false, dicts, None)
  {
    ReadLengthPrefix(marker, n, tail);
  }

  /** Short or negative bodies: when fewer bytes follow the metadata of a batch than it
      declares, the advance fails with `UnexpectedEof` and yields no batch; a negative body
      length cannot be allocated. */
  lemma ShortBody(lib: Ipc, schema: Schema, dicts: Dictionaries, marker: bool, meta: seq<byte>, tail: seq<byte>)
    requires 0 < |meta| < 0x8000_0000 && lib.rootAsMessage(meta).Some?
    requires var m := lib.rootAsMessage(meta).value;
             m.header.Some? && (m.headerType == HEADER_RECORD_BATCH || m.headerType == HEADER_DICTIONARY_BATCH)
    ensures var m := lib.rootAsMessage(meta).value;
            var a := Advance(lib, schema, dicts, LengthPrefix(marker, |meta|) + meta + tail, false);
            (0 <= m.bodyLength && |tail| < m.bodyLength ==>
               a == Advanced(Err(IoError(UnexpectedEof)), false, dicts, None)) &&
            (m.bodyLength < 0 ==>
               a == Advanced(Err(CapacityOverflow), false, dicts, Some(tail)))
  {
    ReadFrameMetadata(marker, meta, tail);
  }

  // ---------------------------------------------------------------------------------------
  // The end of a stream
  // ---------------------------------------------------------------------------------------

  /** Running out of input before a 4-byte prefix is a clean end, even with 1 to 3 stray
      bytes left. */
  lemma EndOfInputEndsStream(lib: Ipc, schema: Schema, dicts: Dictionaries, input: seq<byte>)
    requires |input| < 4
    ensures Advance(lib, schema, dicts, input, false) == Advanced(Ok(None), true, dicts, None)
  {
  }

  /** A zero length ends the stream, reading only the prefix. */
  lemma ZeroLengthEndsStream(lib: Ipc, schema: Schema, dicts: Dictionaries, marker: bool, rest: seq<byte>)
    ensures Advance(lib, schema, dicts, LengthPrefix(marker, 0) + rest, false) ==
            Advanced(Ok(None), true, dicts, Some(rest))
  {
    ReadLengthPrefix(marker, 0, rest);
  }

  /** Once finished, an advance reads nothing and changes nothing; and a source with no bytes
      left ends the stream. Together: when `need_update_reader` holds, the next advance
      yields no batch and leaves the reader finished, so the source is safe to replace. */
  lemma ExhaustedSourceEndsStream(lib: Ipc, schema: Schema, dicts: Dictionaries, input: seq<byte>, finished: bool)
    requires finished || input == []
    ensures var a := Advance(lib, schema, dicts, input, finished);
            a.result == Ok(None) && a.finished && a.dictionaries == dicts
    ensures finished ==> Advance(lib, schema, dicts, input, finished) == Advanced(Ok(None), true, dicts, Some(input))
  {
  }

  lemma AdvanceOverTerminator(lib: Ipc, schema: Schema, dicts: Dictionaries, t: Terminator)
    requires ValidTerminator(t)
    ensures var a := Advance(lib, schema, dicts, EncodeTerminator(t), false);
            a.result == Ok(None) && a.finished && a.dictionaries == dicts
  {
    match t
    case EndOfInput(stray) => EndOfInputEndsStream(lib, schema, dicts, stray);
    case ZeroLength(marker, trailing) => ZeroLengthEndsStream(lib, schema, dicts, marker, trailing);
  }

  // ---------------------------------------------------------------------------------------
  // What the iterator yields
  // ---------------------------------------------------------------------------------------

  /** The outcome of calling `next()` until it gives `None` or an error. */
  datatype Drained = Drained(batches: seq<RecordBatch>, error: Option<ArrowError>, finished: bool)

  function Drain(lib: Ipc, schema: Schema, dicts: Dictionaries, input: seq<byte>, finished: bool): (d: Drained)
    decreases |input|
    ensures d.error.Some? ==> !d.finished
  {
    var a := Advance(lib, schema, dicts, input, finished);
    match a.result
    case Err(e) => Drained([], Some(e), a.finished)
    case Ok(None) => Drained([], None, a.finished)
    case Ok(Some(b)) =>
      var d := Drain(lib, schema, a.dictionaries, a.rest.value, a.finished);
      Drained([b] + d.batches, d.error, d.finished)
  }

  /** The reference meaning of a sequence of data frames, without any bytes: each record
      batch is decoded against the dictionaries of the batches before it; dictionary batches
      only extend the table. */
  function Expected(lib: Ipc, schema: Schema, dicts: Dictionaries, frames: seq<Frame>): (d: Drained)
    requires DataFrames(lib, frames)
    decreases |frames|
    ensures d.error.None? <==> d.finished
  {
    if frames == [] then Drained([], None, true)
    else
      DataFramesTail(lib, frames);
      var m := lib.rootAsMessage(frames[0].meta).value;
      var h := m.header.value;
      if m.headerType == HEADER_RECORD_BATCH then
        match lib.readRecordBatch(frames[0].body, h, schema, dicts)
        case Ok(b) =>
          var d := Expected(lib, schema, dicts, frames[1..]);
          Drained([b] + d.batches, d.error, d.finished)
        case Err(e) => Drained([], Some(e), false)
      else
        match lib.readDictionary(frames[0].body, h, schema, dicts)
        case Ok(u) => Expected(lib, schema, dicts[u.id := u.values], frames[1..])
        case Err(e) => Drained([], Some(e), false)
  }

  /** The number of record batch frames. */
  function RecordBatchFrames(lib: Ipc, frames: seq<Frame>): (n: nat)
    requires DataFrames(lib, frames)
    decreases |frames|
  {
    if frames == [] then 0
    else
      DataFramesTail(lib, frames);
      (if lib.rootAsMessage(frames[0].meta).value.headerType == HEADER_RECORD_BATCH then 1 else 0) +
      RecordBatchFrames(lib, frames[1..])
  }

  /** Reading an encoded stream to its end yields exactly the reference meaning of its
      frames: one batch per record batch frame, in order, never a dictionary, and the reader
      is finished afterwards unless a decoder failed. */
  lemma {:induction false} DrainEncodedStream(lib: Ipc, schema: Schema, dicts: Dictionaries,
                                              frames: seq<Frame>, t: Terminator)
    requires DataFrames(lib, frames)
    requires ValidTerminator(t)
    ensures Drain(lib, schema, dicts, EncodeStream(frames, t), false) == Expected(lib, schema, dicts, frames)
    decreases |frames|
  {
    if frames == [] {
      AdvanceOverTerminator(lib, schema, dicts, t);
    } else {
      var f := frames[0];
      var rest := EncodeStream(frames[1..], t);
      DataFramesTail(lib, frames);
      AdvanceOverDataFrame(lib, schema, dicts, f, rest);
      var m := lib.rootAsMessage(f.meta).value;
      if m.headerType == HEADER_RECORD_BATCH {
        DrainEncodedStream(lib, schema, dicts, frames[1..], t);
      } else {
        match lib.readDictionary(f.body, m.header.value, schema, dicts)
        case Ok(u) =>
          DrainEncodedStream(lib, schema, dicts[u.id := u.values], frames[1..], t);
        case Err(_) =>
      }
    }
  }

  /** Every record batch frame yields one batch when no decoder fails. */
  lemma {:induction false} ExpectedCountsRecordBatches(lib: Ipc, schema: Schema, dicts: Dictionaries, frames: seq<Frame>)
    requires DataFrames(lib, frames)
    ensures Expected(lib, schema, dicts, frames).error.None? ==>
              |Expected(lib, schema, dicts, frames).batches| == RecordBatchFrames(lib, frames)
    decreases |frames|
  {
    if frames != [] {
      DataFramesTail(lib, frames);
      var m := lib.rootAsMessage(frames[0].meta).value;
      if m.headerType == HEADER_RECORD_BATCH {
        ExpectedCountsRecordBatches(lib, schema, dicts, frames[1..]);
      } else {
        match lib.readDictionary(frames[0].body, m.header.value, schema, dicts)
        case Ok(u) =>
          ExpectedCountsRecordBatches(lib, schema, dicts[u.id := u.values], frames[1..]);
        case Err(_) =>
      }
    }
  }

  /** The number of batches a consumer gets from an encoded stream equals the number of its
      record batch frames, and the reader ends finished, whenever no decoder fails. */
  lemma BatchCountIsRecordBatchCount(lib: Ipc, schema: Schema, dicts: Dictionaries,
                                     frames: seq<Frame>, t: Terminator)
    requires DataFrames(lib, frames)
    requires ValidTerminator(t)
    ensures var d := Drain(lib, schema, dicts, EncodeStream(frames, t), false);
            d.error.None? ==> d.finished && |d.batches| == RecordBatchFrames(lib, frames)
  {
    DrainEncodedStream(lib, schema, dicts, frames, t);
    ExpectedCountsRecordBatches(lib, schema, dicts, frames);
  }

  /** A zero-length terminator and the end of the input are observably the same. */
  lemma TerminatorsAgree(lib: Ipc, schema: Schema, dicts: Dictionaries,
                         frames: seq<Frame>, t1: Terminator, t2: Terminator)
    requires DataFrames(lib, frames)
    requires ValidTerminator(t1) && ValidTerminator(t2)
    ensures Drain(lib, schema, dicts, EncodeStream(frames, t1), false) ==
            Drain(lib, schema, dicts, EncodeStream(frames, t2), false)
  {
    DrainEncodedStream(lib, schema, dicts, frames, t1);
    DrainEncodedStream(lib, schema, dicts, frames, t2);
  }

  // ---------------------------------------------------------------------------------------
  // Construction
  // ---------------------------------------------------------------------------------------

  /** The first frame of a stream: its Schema header gives the schema and reading stops
      right after the metadata; any other header is a parse error. */
  lemma OpenFirstFrame(lib: Ipc, f: Frame, rest: seq<byte>)
    requires ValidFrame(f) && lib.rootAsMessage(f.meta).Some?
    ensures var m := lib.rootAsMessage(f.meta).value;
            Open(lib, EncodeFrame(f) + rest) ==
              if m.headerType == HEADER_SCHEMA && m.header.Some? then
                Opened(Ok(lib.fbToSchema(m.header.value)), Some(f.body + rest))
              else
                Opened(Err(ParseError(NotASchema)), Some(f.body + rest))
  {
    assert EncodeFrame(f) + rest == LengthPrefix(f.marker, |f.meta|) + f.meta + (f.body + rest);
    ReadFrameMetadata(f.marker, f.meta, f.body + rest);
  }

  /** A zero length before the first message is not an end of stream: the empty metadata
      buffer goes to `root_as_message`, whose failure is a parse error. */
  lemma OpenZeroLength(lib: Ipc, marker: bool, rest: seq<byte>)
    requires lib.rootAsMessage([]) == None
    ensures Open(lib, LengthPrefix(marker, 0) + rest) == Opened(Err(ParseError(NotAMessage)), Some(rest))
  {
    ReadLengthPrefix(marker, 0, rest);
    assert ReadBuffer(0, rest) == SizedBytes([], rest);
  }

  /** Construction over metadata that is not a message envelope fails with a parse error,
      whatever its length (zero included), and reading stops after the metadata. */
  lemma OpenMalformedEnvelope(lib: Ipc, marker: bool, meta: seq<byte>, rest: seq<byte>)
    requires |meta| < 0x8000_0000 && lib.rootAsMessage(meta).None?
    ensures Open(lib, LengthPrefix(marker, |meta|) + meta + rest) == Opened(Err(ParseError(NotAMessage)), Some(rest))
  {
    assert LengthPrefix(marker, |meta|) + meta + rest == LengthPrefix(marker, |meta|) + (meta + rest);
    ReadLengthPrefix(marker, |meta|, meta + rest);
    assert (meta + rest)[..|meta|] == meta;
    assert (meta + rest)[|meta|..] == rest;
  }

  /** Construction on input that ends before a whole prefix, with or without a marker in
      front, fails with `UnexpectedEof` and loses the position. */
  lemma OpenShortPrefix(lib: Ipc, stray: seq<byte>)
    requires |stray| < 4
    ensures Open(lib, stray) == Opened(Err(IoError(UnexpectedEof)), None)
    ensures Open(lib, CONTINUATION_MARKER + stray) == Opened(Err(IoError(UnexpectedEof)), None)
  {
    assert (CONTINUATION_MARKER + stray)[..4] == CONTINUATION_MARKER;
  }

  /** Construction on input that ends inside the metadata of the first message fails with
      `UnexpectedEof` and loses the position. */
  lemma OpenShortMetadata(lib: Ipc, marker: bool, n: int, tail: seq<byte>)
    requires 0 < n < 0x8000_0000 && |tail| < n
    ensures Open(lib, LengthPrefix(marker, n) + tail) == Opened(Err(IoError(UnexpectedEof)), None)
  {
    ReadLengthPrefix(marker, n, tail);
  }

  /** A whole stream: construction over a Schema frame without body yields its schema and
      stops at the first data frame; reading on from there with an empty dictionary table
      yields the reference meaning of the data frames. */
  lemma ReadWholeStream(lib: Ipc, first: Frame, frames: seq<Frame>, t: Terminator)
    requires ValidFrame(first) && first.body == [] && lib.rootAsMessage(first.meta).Some?
    requires var m := lib.rootAsMessage(first.meta).value; m.headerType == HEADER_SCHEMA && m.header.Some?
    requires DataFrames(lib, frames) && ValidTerminator(t)
    ensures var o := Open(lib, EncodeFrame(first) + EncodeStream(frames, t));
            o.result == Ok(lib.fbToSchema(lib.rootAsMessage(first.meta).value.header.value)) &&
            o.rest == Some(EncodeStream(frames, t)) &&
            Drain(lib, o.result.value, map[], o.rest.value, false) ==
              Expected(lib, o.result.value, map[], frames)
  {
    OpenFirstFrame(lib, first, EncodeStream(frames, t));
    assert first.body + EncodeStream(frames, t) == EncodeStream(frames, t);
    var schema := lib.fbToSchema(lib.rootAsMessage(first.meta).value.header.value);
    DrainEncodedStream(lib, schema, map[], frames, t);
  }
}
