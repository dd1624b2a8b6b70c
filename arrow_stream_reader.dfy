/**
  The Arrow IPC stream reader with a replaceable byte source.

  The specification functions work on the unread part of the source, `input`; each returns
  the unread part after the step as `rest`, `None` where a `read_exact` failed (the cursor's
  position after a failed read is not specified). The classes `CursorReader` and
  `ArrowStreamReader` are proved against these functions.
*/
module StreamReader {
  import opened Wrappers
  import opened ArrowIpc

  /** The 4-byte continuation marker that may precede a length prefix. */
  const CONTINUATION_MARKER: seq<byte> := [0xFF, 0xFF, 0xFF, 0xFF]

  /** `i32::from_le_bytes`: four bytes, least significant first, as a two's-complement i32. */
  function FromLeBytes(b: seq<byte>): (n: int)
    requires |b| == 4
    ensures -0x8000_0000 <= n < 0x8000_0000
  {
    var b0: int, b1: int, b2: int, b3: int := b[0], b[1], b[2], b[3];
    var u := b0 + 0x100 * b1 + 0x1_0000 * b2 + 0x100_0000 * b3;
    if u < 0x8000_0000 then u else u - 0x1_0000_0000
  }

  /** The marker is the only 4-byte prefix that reads as -1. */
  lemma MarkerIsMinusOne(b: seq<byte>)
    requires |b| == 4
    ensures FromLeBytes(b) == -1 <==> b == CONTINUATION_MARKER
  {
    if FromLeBytes(b) == -1 {
      assert b[0] == 0xFF && b[1] == 0xFF && b[2] == 0xFF && b[3] == 0xFF;
      assert b == [b[0], b[1], b[2], b[3]];
    }
  }

  // ---------------------------------------------------------------------------------------
  // Framing: the length prefix and length-sized reads
  // ---------------------------------------------------------------------------------------

  /** How reading a metadata length ends. */
  datatype Prefix =
    | PrefixEof                                  // the first 4-byte read failed
    | PrefixShort                                // the 4-byte read after a marker failed
    | PrefixLength(metaLen: int, rest: seq<byte>)

  /** Read a 4-byte prefix; when it is the continuation marker, read the next 4 bytes
      instead (one marker only). The length is the prefix as a little-endian i32. */
  function ReadPrefix(input: seq<byte>): (p: Prefix)
    ensures p.PrefixEof? <==> |input| < 4
    ensures p.PrefixShort? <==> 4 <= |input| < 8 && input[..4] == CONTINUATION_MARKER
    ensures p.PrefixLength? ==> IsSuffix(p.rest, input)
    ensures p.PrefixLength? && input[..4] != CONTINUATION_MARKER ==>
              p.metaLen == FromLeBytes(input[..4]) && p.rest == input[4..]
    ensures p.PrefixLength? && input[..4] == CONTINUATION_MARKER ==>
              p.metaLen == FromLeBytes(input[4..8]) && p.rest == input[8..]
  {
    if |input| < 4 then PrefixEof
    else if input[..4] == CONTINUATION_MARKER then
      if |input| < 8 then PrefixShort else PrefixLength(FromLeBytes(input[4..8]), input[8..])
    else PrefixLength(FromLeBytes(input[..4]), input[4..])
  }

  /** How allocating a buffer of a signed length and filling it with `read_exact` ends. */
  datatype Sized =
    | SizeOverflow                               // the length is negative
    | SizeShort                                  // fewer bytes remain than the length
    | SizedBytes(data: seq<byte>, rest: seq<byte>)

  function ReadBuffer(len: int, input: seq<byte>): (s: Sized)
    ensures s.SizeOverflow? <==> len < 0
    ensures s.SizeShort? <==> 0 <= len && |input| < len
    ensures s.SizedBytes? ==> |s.data| == len && s.data + s.rest == input
  {
    if len < 0 then SizeOverflow
    else if |input| < len then SizeShort
    else SizedBytes(input[..len], input[len..])
  }

  // ---------------------------------------------------------------------------------------
  // Construction (`try_new`)
  // ---------------------------------------------------------------------------------------

  datatype Opened = Opened(result: Result<Schema, ArrowError>, rest: Option<seq<byte>>)

  /** `try_new`: the framing of the first message, which must hold a Schema header. A zero
      length is not special here: an empty buffer goes to `root_as_message`. The body of the
      schema message, if it declares one, is not read. */
  function Open(lib: Ipc, input: seq<byte>): (o: Opened)
    ensures o.rest.Some? ==> IsSuffix(o.rest.value, input) && |o.rest.value| <= |input| - 4
    ensures o.result.Ok? ==> o.rest.Some?
    ensures o.rest.None? ==> o.result == Err(IoError(UnexpectedEof))
  {
    match ReadPrefix(input)
    case PrefixEof => Opened(Err(IoError(UnexpectedEof)), None)
    case PrefixShort => Opened(Err(IoError(UnexpectedEof)), None)
    case PrefixLength(metaLen, afterPrefix) =>
      match ReadBuffer(metaLen, afterPrefix)
      case SizeOverflow => Opened(Err(CapacityOverflow), Some(afterPrefix))
      case SizeShort => Opened(Err(IoError(UnexpectedEof)), None)
      case SizedBytes(meta, rest) =>
        match lib.rootAsMessage(meta)
        case None => Opened(Err(ParseError(NotAMessage)), Some(rest))
        case Some(m) =>
          match HeaderAs(m, HEADER_SCHEMA)
          case None => Opened(Err(ParseError(NotASchema)), Some(rest))
          case Some(h) => Opened(Ok(lib.fbToSchema(h)), Some(rest))
  }

  // ---------------------------------------------------------------------------------------
  // Advancing (`maybe_next`)
  // ---------------------------------------------------------------------------------------

  /** `s` is what remains of `t` after some bytes were read from its front. */
  predicate IsSuffix(s: seq<byte>, t: seq<byte>) {
    |s| <= |t| && t[|t| - |s|..] == s
  }

  lemma SuffixTransitive(r: seq<byte>, s: seq<byte>, t: seq<byte>)
    requires IsSuffix(r, s) && IsSuffix(s, t)
    ensures IsSuffix(r, t)
  {
    assert t[|t| - |r|..] == t[|t| - |s|..][|s| - |r|..];
  }

  /** What one message, after its length prefix, amounts to. */
  datatype Dispatched =
    | Failed(error: ArrowError, after: Option<seq<byte>>)
    | Batch(batch: RecordBatch, rest: seq<byte>)
    | Dictionary(update: DictionaryUpdate, rest: seq<byte>)
    | NoHeader(rest: seq<byte>)

  /** Read `metaLen` bytes of metadata, parse the envelope and act on its header type:
      a record batch or dictionary batch also reads `bodyLength` body bytes and decodes them. */
  function Dispatch(lib: Ipc, schema: Schema, dicts: Dictionaries, metaLen: int, input: seq<byte>): (d: Dispatched)
    ensures !d.Failed? ==> 0 <= metaLen && |d.rest| + metaLen <= |input| && IsSuffix(d.rest, input)
    ensures d.Failed? && d.after.Some? ==> IsSuffix(d.after.value, input)
    ensures d.Failed? && d.after.None? ==> d.error == IoError(UnexpectedEof)
  {
    match ReadBuffer(metaLen, input)
    case SizeOverflow => Failed(CapacityOverflow, Some(input))
    case SizeShort => Failed(IoError(UnexpectedEof), None)
    case SizedBytes(meta, afterMeta) =>
      match lib.rootAsMessage(meta)
      case None => Failed(ParseError(NotAMessage), Some(afterMeta))
      case Some(m) =>
        if m.headerType == HEADER_SCHEMA then
          Failed(IpcError(UnexpectedSchema), Some(afterMeta))
        else if m.headerType == HEADER_RECORD_BATCH then
          match HeaderAs(m, HEADER_RECORD_BATCH)
          case None => Failed(IpcError(NotARecordBatch), Some(afterMeta))
          case Some(h) =>
            match ReadBuffer(m.bodyLength, afterMeta)
            case SizeOverflow => Failed(CapacityOverflow, Some(afterMeta))
            case SizeShort => Failed(IoError(UnexpectedEof), None)
            case SizedBytes(body, rest) =>
              match lib.readRecordBatch(body, h, schema, dicts)
              case Ok(b) => Batch(b, rest)
              case Err(e) => Failed(e, Some(rest))
        else if m.headerType == HEADER_DICTIONARY_BATCH then
          match HeaderAs(m, HEADER_DICTIONARY_BATCH)
          case None => Failed(IpcError(NotADictionaryBatch), Some(afterMeta))
          case Some(h) =>
            match ReadBuffer(m.bodyLength, afterMeta)
            case SizeOverflow => Failed(CapacityOverflow, Some(afterMeta))
            case SizeShort => Failed(IoError(UnexpectedEof), None)
            case SizedBytes(body, rest) =>
              match lib.readDictionary(body, h, schema, dicts)
              case Ok(u) => Dictionary(u, rest)
              case Err(e) => Failed(e, Some(rest))
        else if m.headerType == HEADER_NONE then
          NoHeader(afterMeta)
        else
          Failed(InvalidArgumentError(m.headerType), Some(afterMeta))
  }

  /** The result of one advance and the decoder state after it. */
  datatype Advanced = Advanced(
    result: Result<Option<RecordBatch>, ArrowError>,
    finished: bool,
    dictionaries: Dictionaries,
    rest: Option<seq<byte>>)

  /** `maybe_next`, with its self-call after a dictionary batch unfolded: dictionary batches
      are absorbed into the table and never come out as a result. */
  function Advance(lib: Ipc, schema: Schema, dicts: Dictionaries, input: seq<byte>, finished: bool): (a: Advanced)
    decreases |input|
    ensures a.finished ==> a.result == Ok(None)
    ensures a.result.Err? ==> !finished && !a.finished
    ensures a.result.Ok? && a.result.value.Some? ==>
              !a.finished && a.rest.Some? && |a.rest.value| < |input|
    ensures a.rest.Some? ==> IsSuffix(a.rest.value, input)
    ensures a.rest.None? ==> a.result == Err(IoError(UnexpectedEof)) || (a.result == Ok(None) && a.finished)
    ensures dicts.Keys <= a.dictionaries.Keys
  {
    if finished then Advanced(Ok(None), true, dicts, Some(input))
    else
      match ReadPrefix(input)
      case PrefixEof => Advanced(Ok(None), true, dicts, None)
      case PrefixShort => Advanced(Err(IoError(UnexpectedEof)), false, dicts, None)
      case PrefixLength(metaLen, afterPrefix) =>
        if metaLen == 0 then Advanced(Ok(None), true, dicts, Some(afterPrefix))
        else
          match Dispatch(lib, schema, dicts, metaLen, afterPrefix)
          case Failed(e, after) => Advanced(Err(e), false, dicts, after)
          case Batch(b, rest) => Advanced(Ok(Some(b)), false, dicts, Some(rest))
          case NoHeader(rest) => Advanced(Ok(None), false, dicts, Some(rest))
          case Dictionary(u, rest) =>
            var a := Advance(lib, schema, dicts[u.id := u.values], rest, false);
            SuffixTransitive(rest, afterPrefix, input);
            if a.rest.Some? then SuffixTransitive(a.rest.value, rest, input); a else a
  }

  /** One unfolding of `Advance` after a nonzero prefix: what the dispatched message gives,
      and for a dictionary batch the advance that goes on after it with the updated table. */
  lemma AdvanceAfterPrefix(lib: Ipc, schema: Schema, dicts: Dictionaries, input: seq<byte>, d: Dispatched)
    requires ReadPrefix(input).PrefixLength? && ReadPrefix(input).metaLen != 0
    requires d == Dispatch(lib, schema, dicts, ReadPrefix(input).metaLen, ReadPrefix(input).rest)
    ensures var a := Advance(lib, schema, dicts, input, false);
            (d.Failed? ==> a == Advanced(Err(d.error), false, dicts, d.after)) &&
            (d.Batch? ==> a == Advanced(Ok(Some(d.batch)), false, dicts, Some(d.rest))) &&
            (d.NoHeader? ==> a == Advanced(Ok(None), false, dicts, Some(d.rest))) &&
            (d.Dictionary? ==> a == Advance(lib, schema, dicts[d.update.id := d.update.values], d.rest, false))
  {
  }

  // ---------------------------------------------------------------------------------------
  // The byte source
  // ---------------------------------------------------------------------------------------

  /** `CursorReader`: a byte buffer and a read position over it. */
  class CursorReader {
    const buf: seq<byte>
    var pos: nat

    ghost predicate Valid()
      reads this
    {
      pos <= |buf|
    }

    constructor (inner: seq<byte>)
      ensures Valid() && buf == inner && pos == 0
    {
      buf := inner;
      pos := 0;
    }

    /** The bytes not read yet. */
    function Remaining(): (s: seq<byte>)
      reads this
      requires Valid()
      ensures IsSuffix(s, buf) && |s| == |buf| - pos
    {
      buf[pos..]
    }

    /** `is_valid`: the position is before the end of the buffer. */
    function IsValid(): (b: bool)
      reads this
      ensures Valid() ==> (b <==> Remaining() != [])
    {
      pos < |buf|
    }

    /** `read_exact`: exactly `n` bytes, or `UnexpectedEof` when fewer remain. */
    method ReadExact(n: nat) returns (r: Result<seq<byte>, IoErrorKind>)
      requires Valid()
      modifies this
      ensures Valid()
      ensures n <= |old(Remaining())| ==>
                r == Ok(old(Remaining())[..n]) && Remaining() == old(Remaining())[n..]
      ensures |old(Remaining())| < n ==> r == Err(UnexpectedEof)
    {
      if n <= |buf| - pos {
        r := Ok(buf[pos..pos + n]);
        assert buf[pos..pos + n] == buf[pos..][..n];
        assert buf[pos + n..] == buf[pos..][n..];
        pos := pos + n;
      } else {
        // where a failed read leaves the cursor is not part of the contract
        r := Err(UnexpectedEof);
        pos := |buf|;
      }
    }
  }

  /** Read a length prefix, skipping one continuation marker. */
  method ReadMetaLength(reader: CursorReader) returns (p: Prefix)
    requires reader.Valid()
    modifies reader
    ensures reader.Valid()
    ensures p == ReadPrefix(old(reader.Remaining()))
    ensures p.PrefixLength? ==> reader.Remaining() == p.rest
  {
    var size := reader.ReadExact(4);
    if size.Err? {
      return PrefixEof;
    }
    var sizeBytes := size.value;
    if sizeBytes == CONTINUATION_MARKER {
      size := reader.ReadExact(4);
      if size.Err? {
        return PrefixShort;
      }
      sizeBytes := size.value;
    }
    p := PrefixLength(FromLeBytes(sizeBytes), reader.Remaining());
  }

  /** Allocate `len` zeroed bytes (`len as usize`) and fill them with `read_exact`. */
  method ReadSized(reader: CursorReader, len: int) returns (s: Sized)
    requires reader.Valid()
    modifies reader
    ensures reader.Valid()
    ensures s == ReadBuffer(len, old(reader.Remaining()))
    ensures s.SizeOverflow? ==> reader.Remaining() == old(reader.Remaining())
    ensures s.SizedBytes? ==> reader.Remaining() == s.rest
  {
    if len < 0 {
      return SizeOverflow;
    }
    var data := reader.ReadExact(len);
    if data.Err? {
      return SizeShort;
    }
    s := SizedBytes(data.value, reader.Remaining());
  }

  // ---------------------------------------------------------------------------------------
  // The decoder
  // ---------------------------------------------------------------------------------------

  /** `ArrowStreamReader`: the byte source, the schema read from the first message, the
      dictionary table of the current source and the end-of-stream flag. */
  class ArrowStreamReader {
    var reader: CursorReader
    const schema: Schema
    var dictionariesById: Dictionaries
    var finished: bool

    ghost predicate Valid()
      reads this, reader
    {
      reader.Valid()
    }

    constructor (reader: CursorReader, schema: Schema)
      requires reader.Valid()
      ensures Valid() && this.reader == reader && this.schema == schema
      ensures dictionariesById == map[] && !finished
    {
      this.reader := reader;
      this.schema := schema;
      this.dictionariesById := map[];
      this.finished := false;
    }

    /** `try_new`: read the first message, which must be a Schema; start with an empty
        dictionary table and not finished. */
    static method TryNew(lib: Ipc, reader: CursorReader) returns (r: Result<ArrowStreamReader, ArrowError>)
      requires reader.Valid()
      modifies reader
      ensures reader.Valid()
      ensures var o := Open(lib, old(reader.Remaining()));
              match r
              case Ok(d) =>
                o.result == Ok(d.schema) && fresh(d) && d.Valid() && d.reader == reader &&
                d.dictionariesById == map[] && !d.finished && o.rest == Some(reader.Remaining())
              case Err(e) =>
                o.result == Err(e) && (o.rest.Some? ==> o.rest == Some(reader.Remaining()))
    {
      var p := ReadMetaLength(reader);
      if !p.PrefixLength? {
        return Err(IoError(UnexpectedEof));
      }
      var meta := ReadSized(reader, p.metaLen);
      match meta
      case SizeOverflow =>
        return Err(CapacityOverflow);
      case SizeShort =>
        return Err(IoError(UnexpectedEof));
      case SizedBytes(metaBuffer, _) =>
        var message := lib.rootAsMessage(metaBuffer);
        if message.None? {
          return Err(ParseError(NotAMessage));
        }
        var ipcSchema := HeaderAs(message.value, HEADER_SCHEMA);
        if ipcSchema.None? {
          return Err(ParseError(NotASchema));
        }
        var d := new ArrowStreamReader(reader, lib.fbToSchema(ipcSchema.value));
        r := Ok(d);
    }

    /** `schema`: the schema read from the first message; a constant field, so neither
        `MaybeNext` nor `UpdateReader` can change it. */
    function SchemaRef(): (s: Schema)
      ensures s == schema
    {
      schema
    }

    /** `is_finished`: whether the stream has ended cleanly since construction or the last
        `UpdateReader`. */
    function IsFinished(): (b: bool)
      reads this
      ensures b <==> finished
    {
      finished
    }

    /** `is_valid_reader`: the current source still has unread bytes. */
    function IsValidReader(): (b: bool)
      reads this, reader
      requires Valid()
      ensures b <==> reader.Remaining() != []
    {
      reader.IsValid()
    }

    /** `need_update_reader`: the current source is used up or the stream has ended. */
    function NeedUpdateReader(): (b: bool)
      reads this, reader
      requires Valid()
      ensures b <==> finished || reader.Remaining() == []
    {
      !reader.IsValid() || finished
    }

    /** `update_reader`: attach a new source; the stream is no longer finished and the
        dictionaries of the old source are dropped; the schema stays. */
    method UpdateReader(newReader: CursorReader)
      requires newReader.Valid()
      modifies this
      ensures Valid() && reader == newReader
      ensures !finished && dictionariesById == map[]
    {
      finished := false;
      reader := newReader;
      dictionariesById := map[];
    }

    /** The message after a nonzero length prefix: its metadata, its body for a batch, and
        what decoding it gives. */
    method ReadMessage(lib: Ipc, metaLen: int) returns (d: Dispatched)
      requires Valid()
      modifies reader
      ensures Valid()
      ensures d == Dispatch(lib, schema, dictionariesById, metaLen, old(reader.Remaining()))
      ensures !d.Failed? ==> reader.Remaining() == d.rest
      ensures d.Failed? && d.after.Some? ==> reader.Remaining() == d.after.value
    {
      var meta := ReadSized(reader, metaLen);
      if meta.SizeOverflow? {
        return Failed(CapacityOverflow, Some(reader.Remaining()));
      } else if meta.SizeShort? {
        return Failed(IoError(UnexpectedEof), None);
      }
      var message := lib.rootAsMessage(meta.data);
      if message.None? {
        return Failed(ParseError(NotAMessage), Some(reader.Remaining()));
      }
      var m := message.value;
      if m.headerType == HEADER_SCHEMA {
        d := Failed(IpcError(UnexpectedSchema), Some(reader.Remaining()));
      } else if m.headerType == HEADER_RECORD_BATCH {
        var batch := HeaderAs(m, HEADER_RECORD_BATCH);
        if batch.None? {
          return Failed(IpcError(NotARecordBatch), Some(reader.Remaining()));
        }
        var body := ReadSized(reader, m.bodyLength);
        match body
        case SizeOverflow =>
          d := Failed(CapacityOverflow, Some(reader.Remaining()));
        case SizeShort =>
          d := Failed(IoError(UnexpectedEof), None);
        case SizedBytes(buf, rest) =>
          var decoded := lib.readRecordBatch(buf, batch.value, schema, dictionariesById);
          d := if decoded.Ok? then Batch(decoded.value, rest) else Failed(decoded.error, Some(rest));
      } else if m.headerType == HEADER_DICTIONARY_BATCH {
        var batch := HeaderAs(m, HEADER_DICTIONARY_BATCH);
        if batch.None? {
          return Failed(IpcError(NotADictionaryBatch), Some(reader.Remaining()));
        }
        var body := ReadSized(reader, m.bodyLength);
        match body
        case SizeOverflow =>
          d := Failed(CapacityOverflow, Some(reader.Remaining()));
        case SizeShort =>
          d := Failed(IoError(UnexpectedEof), None);
        case SizedBytes(buf, rest) =>
          var decoded := lib.readDictionary(buf, batch.value, schema, dictionariesById);
          d := if decoded.Ok? then Dictionary(decoded.value, rest) else Failed(decoded.error, Some(rest));
      } else if m.headerType == HEADER_NONE {
        d := NoHeader(reader.Remaining());
      } else {
        d := Failed(InvalidArgumentError(m.headerType), Some(reader.Remaining()));
      }
    }

    /** One pass of `maybe_next` on an unfinished reader, up to its self-call after a
        dictionary batch: either the pass ends the call (`done`), with what `Advance` gives,
        or a dictionary batch was absorbed and the advance still to be made is unchanged. */
    method Step(lib: Ipc) returns (done: bool, r: Result<Option<RecordBatch>, ArrowError>)
      requires Valid() && !finished
      modifies this, reader
      ensures Valid() && reader == old(reader)
      ensures var a := Advance(lib, schema, old(dictionariesById), old(reader.Remaining()), false);
              if done then
                r == a.result && finished == a.finished && dictionariesById == a.dictionaries &&
                (a.rest.Some? ==> reader.Remaining() == a.rest.value)
              else
                !finished && |reader.Remaining()| < |old(reader.Remaining())| &&
                Advance(lib, schema, dictionariesById, reader.Remaining(), false) == a
    {
      ghost var input := reader.Remaining();
      var p := ReadMetaLength(reader);
      match p
      case PrefixEof =>
        // end of input without a zero-length frame is a clean end
        finished := true;
        return true, Ok(None);
      case PrefixShort =>
        return true, Err(IoError(UnexpectedEof));
      case PrefixLength(metaLen, _) =>
        if metaLen == 0 {
          finished := true;
          return true, Ok(None);
        }
        var d := ReadMessage(lib, metaLen);
        AdvanceAfterPrefix(lib, schema, dictionariesById, input, d);
        match d
        case Failed(e, _) =>
          return true, Err(e);
        case Batch(b, _) =>
          return true, Ok(Some(b));
        case NoHeader(_) =>
          return true, Ok(None);
        case Dictionary(u, _) =>
          dictionariesById := dictionariesById[u.id := u.values];
          return false, Ok(None);
    }

    /** `maybe_next`: the next record batch, `None` at the end of the stream or on a message
        without header, or an error. Dictionary batches are absorbed into the table and
        reading goes on with the next message. Once finished, nothing is read or changed. */
    method MaybeNext(lib: Ipc) returns (r: Result<Option<RecordBatch>, ArrowError>)
      requires Valid()
      modifies this, reader
      ensures Valid() && reader == old(reader)
      ensures var a := Advance(lib, schema, old(dictionariesById), old(reader.Remaining()), old(finished));
              r == a.result && finished == a.finished && dictionariesById == a.dictionaries &&
              (a.rest.Some? ==> reader.Remaining() == a.rest.value)
      ensures old(finished) ==> r == Ok(None) && finished && dictionariesById == old(dictionariesById) &&
                                reader.pos == old(reader.pos)
    {
      if finished {
        return Ok(None);
      }
      ghost var goal := Advance(lib, schema, dictionariesById, reader.Remaining(), false);
      while true
        invariant Valid() && reader == old(reader) && !finished
        invariant Advance(lib, schema, dictionariesById, reader.Remaining(), false) == goal
        decreases |reader.Remaining()|
      {
        var done, step := Step(lib);
        if done {
          return step;
        }
      }
    }

    /** `Iterator::next`: `maybe_next` transposed, so the end of the stream is `None`. */
    method Next(lib: Ipc) returns (item: Option<Result<RecordBatch, ArrowError>>)
      requires Valid()
      modifies this, reader
      ensures Valid() && reader == old(reader)
      ensures var a := Advance(lib, schema, old(dictionariesById), old(reader.Remaining()), old(finished));
              item == Transpose(a.result) && finished == a.finished && dictionariesById == a.dictionaries &&
              (a.rest.Some? ==> reader.Remaining() == a.rest.value)
    {
      var r := MaybeNext(lib);
      item := Transpose(r);
    }
  }
}
