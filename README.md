# Arrow IPC stream reader with a replaceable source — a Dafny model

This project models `ArrowStreamReader` from `src/utils/arrow_stream_reader.rs`. It reads the
streaming format of the Apache Arrow columnar specification. That format is described in the
subsections "Encapsulated message format" and "IPC Streaming Format" of the section
"Serialization and Interprocess Communication (IPC)". A stream is a sequence of frames. Each
frame has:
- an optional continuation marker `FF FF FF FF`;
- a 4-byte little-endian signed metadata length;
- the flatbuffers message envelope;
- the message body, whose size is the envelope's `bodyLength`.

The first message must be a Schema. Dictionary batches go into a dictionary table and are
never yielded. Record batches are decoded against the schema and the table. The stream ends
at a zero-length frame or when fewer than four bytes remain for a length prefix. The caller
can then attach a new byte source. This clears the end flag and the dictionary table, and it
keeps the schema.

Files and modules:

- `wrappers.dfy`, module `Wrappers`: `Option`, `Result` and Rust's `Result::transpose`.
- `arrow_ipc.dfy`, module `ArrowIpc`: the types of the arrow crate that the reader uses:
  - the envelope `Message` and the header tags of the flatbuffers union `MessageHeader`
    (NONE 0, Schema 1, DictionaryBatch 2, RecordBatch 3);
  - `Schema`, `RecordBatch` and the dictionary table;
  - `ArrowError`;
  - `HeaderAs`, the generated `header_as_schema`, `header_as_record_batch` and
    `header_as_dictionary_batch` accessors: the header table when the union holds the
    requested member, otherwise `None`;
  - `Ipc`, a record of four function values that stand for `root_as_message`, `fb_to_schema`,
    `read_record_batch` and `read_dictionary`.

  Every reader operation takes an `Ipc` as a parameter. So each result below holds for every
  behaviour of those library functions.
- `arrow_stream_reader.dfy`, module `StreamReader`:
  - the specification functions, which work on the unread bytes of the source:
    - `ReadPrefix`: the length prefix, with the marker rule;
    - `ReadBuffer`: the sized reads;
    - `Open`: `try_new`;
    - `Dispatch`: one message after its prefix;
    - `Advance`: `maybe_next`. Its self-call after a dictionary batch is a recursion on the
      length of the unread input.
  - the class `CursorReader`: a constant buffer and a position.
  - the class `ArrowStreamReader`: `reader`, a constant `schema`, `dictionariesById` and
    `finished`. Each of its methods is proved against the matching specification function.
    `MaybeNext` turns the self-call into a `while` loop that decreases the number of unread
    bytes. Each iteration is one `Step`: a pass of `maybe_next` up to the self-call. The loop
    invariant is that `Advance` of the current state is the same as `Advance` of the state at
    entry.
- `stream_format.dfy`, module `StreamFormat`: a writer's view of the format and what the
  reader makes of it:
  - `ToLeBytes` (the inverse of `i32::from_le_bytes`), `EncodeFrame` and `EncodeStream`;
  - `Drain`: what the iterator yields when `next()` is called until it returns `None` or an
    error;
  - `Expected`: a reference definition over frames, with no bytes. Each record batch is decoded
    against the dictionaries that come before it.
  - the theorem `DrainEncodedStream`, which says that the two agree, and lemmas for the framing
    rules and the header dispatch.

The functions `SchemaRef` (`schema()`) and `IsFinished` (`is_finished()`) only read a field.
The contracts of `TryNew`, `MaybeNext` and `UpdateReader` say what those fields hold.

Lengths and byte counts are unbounded integers. The i32 width of the length prefix is written
out in `FromLeBytes` and `ToLeBytes`.

The code passes a negative metadata length or body length to `as usize` and then allocates a
buffer of that size. Rust panics when it fails to allocate that buffer. The model returns `Err(CapacityOverflow)`
instead, without reading anything.

A message whose header is NONE gives `Ok(None)` but does not set `finished` (lines 249 and
192-196). The model follows the code (`HeaderDispatch`).
So after such a message `next()` yields `None`, but `need_update_reader()` can still be false.

## Model

| member | source | states |
|---|---|---|
| `StreamReader.FromLeBytes` | src/utils/arrow_stream_reader.rs:108 | `i32::from_le_bytes` of the prefix is a value in the signed 32-bit range |
| `StreamReader.MarkerIsMinusOne` | src/utils/arrow_stream_reader.rs:16 | the continuation marker is exactly the 4-byte prefix that reads as -1, in both directions |
| `StreamFormat.LeBytesRoundTrip` | src/utils/arrow_stream_reader.rs:108 | reading back the little-endian bytes of any i32 gives that i32 |
| `StreamFormat.LeBytesInverse` | src/utils/arrow_stream_reader.rs:108 | every 4 bytes are the little-endian bytes of the i32 they read as; with `LeBytesRoundTrip`, the prefix codec is a bijection between 4-byte sequences and i32 values |
| `ArrowIpc.HeaderAs` | src/utils/arrow_stream_reader.rs:118 | the header table exactly when the union holds the requested member, and `None` otherwise (also the calls at lines 211 and 229) |
| `StreamReader.ReadPrefix` | src/utils/arrow_stream_reader.rs:166-190 | end of input before 4 bytes is a clean end, and only then; a marker followed by fewer than 4 bytes is a short read, and only then; otherwise the length is the first 4 bytes, or the next 4 after one marker, and reading goes on right after them |
| `StreamFormat.ReadLengthPrefix` | src/utils/arrow_stream_reader.rs:99-109 | any length other than -1 that a writer puts in a prefix, with or without a marker, is read back exactly, and the rest of the input follows |
| `StreamFormat.ContinuationMarkerIsNoOp` | src/utils/arrow_stream_reader.rs:183-190 | a marker before a prefix that is not itself the marker changes neither the length nor the rest, so a whole advance is unchanged |
| `StreamFormat.OnlyOneMarkerSkipped` | src/utils/arrow_stream_reader.rs:186-198 | only one marker is skipped: a second marker is read as the length -1 and the advance fails without finishing |
| `StreamFormat.ShortPrefixAfterMarker` | src/utils/arrow_stream_reader.rs:186-188 | a marker followed by fewer than 4 bytes is a propagated `UnexpectedEof`, not a clean end, and `finished` stays false |
| `StreamReader.ReadBuffer` | src/utils/arrow_stream_reader.rs:198-199 | a sized read fails on a negative length and on too few bytes, and only then; otherwise it returns exactly `len` bytes, and those bytes followed by the rest are the input |
| `StreamReader.Open` | src/utils/arrow_stream_reader.rs:98-121 | construction reads at least a prefix and only forwards; a failed read is the only way to lose the position, and it is an `UnexpectedEof` error; success always has a defined position |
| `StreamFormat.OpenFirstFrame` | src/utils/arrow_stream_reader.rs:111-121 | for a first frame whose envelope parses: a Schema header gives `fb_to_schema` of its table and stops right after the metadata; any other header is a `ParseError` |
| `StreamFormat.OpenMalformedEnvelope` | src/utils/arrow_stream_reader.rs:111-116 | metadata of any length that `root_as_message` rejects makes construction fail with `ParseError`, and reading stops right after the metadata |
| `StreamFormat.OpenShortPrefix` | src/utils/arrow_stream_reader.rs:99-106 | input that ends before a whole prefix, or after a marker without its prefix, makes construction fail with `UnexpectedEof` |
| `StreamFormat.OpenShortMetadata` | src/utils/arrow_stream_reader.rs:111-112 | input that ends inside the declared metadata of the first message makes construction fail with `UnexpectedEof` |
| `StreamFormat.OpenZeroLength` | src/utils/arrow_stream_reader.rs:111-116 | a zero length before the first message is not an end of stream: when `root_as_message` rejects the empty buffer, construction fails with `ParseError` |
| `StreamReader.Dispatch` | src/utils/arrow_stream_reader.rs:198-253 | one message after a nonzero prefix: a success consumes at least the metadata and only forwards; a lost position only follows a short read |
| `StreamReader.Advance` | src/utils/arrow_stream_reader.rs:161-254 | `finished` implies `Ok(None)`; an error never sets `finished`; a batch leaves the reader unfinished and strictly consumes input; reading only moves forward; a lost position only follows a short read or a clean end at the prefix; dictionary ids are never removed |
| `StreamFormat.DispatchDataFrame` | src/utils/arrow_stream_reader.rs:210-244 | for a record or dictionary batch frame, exactly its metadata and declared body are read, and the body goes to `read_record_batch` or `read_dictionary` as the header type says |
| `StreamFormat.AdvanceOverDataFrame` | src/utils/arrow_stream_reader.rs:198-248 | exact consumption: a record batch frame yields its decoded batch (or the decoder's error) and leaves exactly what follows the frame; a dictionary batch frame updates the table at its id and the advance goes on with the next frame |
| `StreamFormat.HeaderDispatch` | src/utils/arrow_stream_reader.rs:206-252 | after construction a Schema message is an `IpcError`; a NONE header gives `Ok(None)` without finishing; a tag above RecordBatch gives `InvalidArgumentError` naming it; a batch header without its table is an `IpcError`; in every case `finished` and the dictionaries are unchanged |
| `StreamFormat.MalformedEnvelope` | src/utils/arrow_stream_reader.rs:198-204 | metadata that `root_as_message` rejects makes the advance fail with `ParseError`, without finishing, with the dictionaries kept and reading stopped right after the metadata |
| `StreamFormat.ShortMetadata` | src/utils/arrow_stream_reader.rs:198-199 | input that ends inside the declared metadata of a message makes the advance fail with `UnexpectedEof`, without finishing and with the dictionaries kept |
| `StreamFormat.ShortBody` | src/utils/arrow_stream_reader.rs:215-216 | when fewer bytes remain than the declared body of a record or dictionary batch, the advance fails with `UnexpectedEof` and yields no batch; a negative body length is `CapacityOverflow` |
| `StreamFormat.EndOfInputEndsStream` | src/utils/arrow_stream_reader.rs:168-180 | fewer than 4 bytes (0 to 3 stray bytes) at a prefix give `Ok(None)` and set `finished`, with no error |
| `StreamFormat.ZeroLengthEndsStream` | src/utils/arrow_stream_reader.rs:192-196 | a zero length, with or without a marker, gives `Ok(None)`, sets `finished` and consumes only the prefix |
| `StreamFormat.ExhaustedSourceEndsStream` | src/utils/arrow_stream_reader.rs:145-147 | when the reader is finished or its source has no bytes left (what `need_update_reader` tests), the next advance yields no batch and leaves the reader finished with the same dictionaries; when finished, it reads and changes nothing |
| `StreamFormat.AdvanceOverTerminator` | src/utils/arrow_stream_reader.rs:168-196 | both ways of ending a stream give `Ok(None)`, set `finished` and keep the dictionaries |
| `StreamFormat.Drain` | src/utils/arrow_stream_reader.rs:271-276 | calling `next()` until `None` or an error: after an error the reader is never finished |
| `StreamFormat.DrainEncodedStream` | src/utils/arrow_stream_reader.rs:206-248 | reading an encoded stream of record and dictionary batch frames to its end yields exactly the reference meaning of its frames: one decoded batch per record batch frame, in order, each against the dictionaries of the frames before it; no dictionary is ever yielded; afterwards the reader is finished unless a decoder failed |
| `StreamFormat.ExpectedCountsRecordBatches` | src/utils/arrow_stream_reader.rs:210-248 | when no decoder fails, the reference meaning has one batch per record batch frame |
| `StreamFormat.BatchCountIsRecordBatchCount` | src/utils/arrow_stream_reader.rs:210-248 | when no decoder fails, the number of batches yielded equals the number of record batch frames before the terminator, and the reader ends finished |
| `StreamFormat.TerminatorsAgree` | src/utils/arrow_stream_reader.rs:168-196 | a zero-length terminator and the end of the input (with up to 3 stray bytes) are observably the same for a consumer |
| `StreamFormat.ReadWholeStream` | src/utils/arrow_stream_reader.rs:98-248 | for a Schema frame without body followed by data frames: construction yields that frame's schema and stops at the first data frame, and reading on from an empty dictionary table yields exactly the reference meaning of the data frames |
| `StreamReader.CursorReader.constructor` | src/utils/arrow_stream_reader.rs:30-32 | a new cursor is at position 0 of the buffer it wraps |
| `StreamReader.CursorReader.IsValid` | src/utils/arrow_stream_reader.rs:52-54 | `is_valid` holds exactly when unread bytes remain |
| `StreamReader.CursorReader.ReadExact` | src/utils/arrow_stream_reader.rs:43-45 | exactly `n` bytes are returned and consumed when that many remain; otherwise `UnexpectedEof` |
| `StreamReader.ReadMetaLength` | src/utils/arrow_stream_reader.rs:99-109 | the reads of a length prefix, marker included, give what `ReadPrefix` specifies and leave the cursor after the prefix |
| `StreamReader.ReadSized` | src/utils/arrow_stream_reader.rs:198-199 | allocating and filling a buffer gives what `ReadBuffer` specifies; the cursor does not move on a negative length |
| `StreamReader.ArrowStreamReader.constructor` | src/utils/arrow_stream_reader.rs:126-131 | a new reader holds the given source and schema, an empty dictionary table, and is not finished |
| `StreamReader.ArrowStreamReader.TryNew` | src/utils/arrow_stream_reader.rs:98-132 | on success: a fresh reader over the given source, the schema from the first message, no dictionaries, not finished, and the cursor right after the first message's metadata; on failure, the error `Open` specifies |
| `StreamReader.ArrowStreamReader.SchemaRef` | src/utils/arrow_stream_reader.rs:135-137 | returns the reader's schema, a constant field: the one `TryNew` read from the first message, kept by `MaybeNext` and `UpdateReader` |
| `StreamReader.ArrowStreamReader.IsFinished` | src/utils/arrow_stream_reader.rs:140-142 | holds exactly when `finished` is set, which `TryNew` and `UpdateReader` clear and only a clean end of stream sets (`Advance`) |
| `StreamReader.ArrowStreamReader.IsValidReader` | src/utils/arrow_stream_reader.rs:150-152 | holds exactly when the current source has unread bytes |
| `StreamReader.ArrowStreamReader.NeedUpdateReader` | src/utils/arrow_stream_reader.rs:145-147 | holds exactly when the reader is finished or its source has no unread bytes |
| `StreamReader.ArrowStreamReader.UpdateReader` | src/utils/arrow_stream_reader.rs:155-159 | the new source replaces the old one, `finished` is false and the dictionary table is empty; the schema is a constant, so it is kept |
| `StreamReader.ArrowStreamReader.ReadMessage` | src/utils/arrow_stream_reader.rs:198-253 | reading and dispatching one message gives what `Dispatch` specifies and leaves the cursor where it says |
| `StreamReader.ArrowStreamReader.Step` | src/utils/arrow_stream_reader.rs:164-248 | one pass of `maybe_next` on an unfinished reader: either it ends the call with the result, `finished`, dictionary table and cursor of `Advance`, or it absorbed a dictionary batch, consumed input and left the advance still to be made unchanged |
| `StreamReader.ArrowStreamReader.MaybeNext` | src/utils/arrow_stream_reader.rs:161-254 | the result, `finished`, the dictionary table and the cursor are those of `Advance` on the state at entry; once finished, it returns `Ok(None)` and changes nothing |
| `StreamReader.ArrowStreamReader.Next` | src/utils/arrow_stream_reader.rs:274-276 | `maybe_next` transposed: end of the stream is `None`, a batch is `Some(Ok)`, an error is `Some(Err)`, with the same new state |

## Left out

- Flatbuffers envelope parsing and Arrow array decoding (`root_as_message`, `fb_to_schema`,
  `read_record_batch`, `read_dictionary`) belong to the arrow crate. Only these four are
  uninterpreted: they are the function values of `Ipc`, and nothing is assumed about their
  results. The `header_as_*` accessors are not uninterpreted: `HeaderAs` models them as the
  generated tag check. The body buffer (`MutableBuffer`) is the byte sequence that `ReadSized`
  fills. The one exception is that `OpenZeroLength` assumes `root_as_message` rejects an
  empty buffer.
- `read_dictionary` takes the dictionary table by `&mut` (line 242). The model gives it the
  table by value and has it return a single `DictionaryUpdate(id, values)`, which the reader
  inserts on success. So the model assumes that `read_dictionary` writes at most one entry,
  and only when it succeeds, as it does in arrow-rs. `Advance`'s "dictionary ids are never
  removed" rests on that shape.
  The `message.version()` argument is folded into the opaque header table.
- The model fixes the reader type to `CursorReader`. The source is generic over `R: Read +
  BufferValid`. A cursor's `read_exact` only ever fails with `UnexpectedEof`. So the branch
  that returns any other I/O error from the first prefix read (lines 177-178) cannot happen in
  the model and is not modelled.
- The position of the cursor after a failed `read_exact` differs between Rust versions. No
  contract states it: the specification functions give `None` as the rest in that case.
- Negative `meta_len` or `bodyLength` do not panic as they would in Rust. The model
  returns `Err(CapacityOverflow)` instead (see above). Lengths that are not negative but are too
  large to allocate are not modelled; they fail as ordinary short reads.
- The i64 widths of dictionary ids and of `bodyLength` are not modelled: both are unbounded
  integers supplied by the library.
- Reference counting of the schema (`Arc`) is not modelled. The schema is a constant field,
  which gives the "set once" behaviour.
- `fmt::Debug`, `get_ref`, `get_mut` and the `RecordBatchReader` impl (lines 83-92, 259-268,
  279-283) are formatting and plain accessors. `RecordBatchReader::schema` is the same as
  `SchemaRef`.
- `src/channel.rs`, the ClickHouse clients, the parquet reader, the timing and benchmark code,
  `build.rs` and `src/lib.rs` are not part of this model. They are network, file I/O,
  concurrency or measurement code around the reader.
