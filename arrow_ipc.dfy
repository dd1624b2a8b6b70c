/**
  The parts of the arrow crate (and of its flatbuffers message envelope) that the stream
  reader calls. Their internals are not part of this model: the four library operations are
  the fields of one record of functions, `Ipc`, that every operation of the reader takes as a
  parameter, so whatever is proved about the reader holds for every behaviour of the library.
*/
module ArrowIpc {
  import opened Wrappers

  type byte = x: int | 0 <= x < 256

  /** Tag of the flatbuffers union `MessageHeader` of the Arrow message schema (a u8). */
  type HeaderTag = x: int | 0 <= x < 256

  const HEADER_NONE: HeaderTag := 0
  const HEADER_SCHEMA: HeaderTag := 1
  const HEADER_DICTIONARY_BATCH: HeaderTag := 2
  const HEADER_RECORD_BATCH: HeaderTag := 3

  /** The typed header table a message points to, kept as the bytes the library interprets. */
  type HeaderTable = seq<byte>

  /** A parsed message envelope: `header_type()`, the header table (absent when the union
      value is missing) and `bodyLength()`, a signed 64-bit count of body bytes. */
  datatype Message = Message(headerType: HeaderTag, header: Option<HeaderTable>, bodyLength: int)

  /** `header_as_schema()`, `header_as_record_batch()`, `header_as_dictionary_batch()`:
      the header table, provided the union holds the requested member. */
  function HeaderAs(m: Message, tag: HeaderTag): (h: Option<HeaderTable>)
    ensures h.Some? <==> m.headerType == tag && m.header.Some?
    ensures h.Some? ==> h == m.header
  {
    if m.headerType == tag then m.header else None
  }

  datatype Field = Field(name: string, dataType: string, nullable: bool)

  /** The column schema that `fb_to_schema` builds from the first message. */
  datatype Schema = Schema(fields: seq<Field>)

  datatype ArrayRef = ArrayRef(dataType: string, length: nat, buffers: seq<seq<byte>>)

  datatype RecordBatch = RecordBatch(schema: Schema, numRows: nat, columns: seq<ArrayRef>)

  /** `dictionaries_by_id`: dictionary id (an i64) to the decoded dictionary values. */
  type Dictionaries = map<int, ArrayRef>

  /** What `read_dictionary` inserts into the dictionary table: the values (already merged
      with the previous ones when the batch is a delta) under the batch's id. */
  datatype DictionaryUpdate = DictionaryUpdate(id: int, values: ArrayRef)

  /** The only kind of `std::io::Error` a cursor over a byte buffer produces. */
  datatype IoErrorKind = UnexpectedEof

  datatype ParseFailure =
    | NotAMessage   // "Unable to get root as message"
    | NotASchema    // "Unable to read IPC message as schema"

  datatype IpcFailure =
    | UnexpectedSchema      // "Not expecting a schema when messages are read"
    | NotARecordBatch       // "Unable to read IPC message as record batch"
    | NotADictionaryBatch   // "Unable to read IPC message as dictionary batch"

  datatype ArrowError =
    | IoError(kind: IoErrorKind)
    | ParseError(parse: ParseFailure)
    | IpcError(ipc: IpcFailure)
      /** "Reading types other than record batches not yet supported", naming the tag */
    | InvalidArgumentError(headerType: HeaderTag)
      /** a negative length cast to `usize` before a buffer is allocated */
    | CapacityOverflow
      /** any other error the array decoders report, such as an unknown dictionary id */
    | OtherError(detail: string)

  /** The library operations the reader relies on. */
  datatype Ipc = Ipc(
    /** `arrow::ipc::root_as_message`: `None` when the bytes are not a valid envelope */
    rootAsMessage: seq<byte> -> Option<Message>,
    /** `arrow::ipc::convert::fb_to_schema` */
    fbToSchema: HeaderTable -> Schema,
    /** `read_record_batch(body, header, schema, dictionaries, ...)` */
    readRecordBatch: (seq<byte>, HeaderTable, Schema, Dictionaries) -> Result<RecordBatch, ArrowError>,
    /** `read_dictionary(body, header, schema, dictionaries, ...)` */
    readDictionary: (seq<byte>, HeaderTable, Schema, Dictionaries) -> Result<DictionaryUpdate, ArrowError>
  )
}
