# Native format adapters: a verified model

This project models the two adapters of the engine's "Native" format, both in
`src/Processors/Formats/Impl/NativeFormat.cpp`:

- the input adapter `NativeInputFormatFromNativeBlockInputStream`, here the
  class `NativeInput.NativeInputFormat`. The pipeline pulls chunks from it
  with `generate`. It reads the stream prefix once per pass. It pulls blocks
  from the Native block codec, checks each against the port header and turns
  it into a chunk. At end of data it reads the stream suffix once and returns
  the empty chunk. `resetParser` starts a new pass.
- the output adapter `NativeOutputFormatFromNativeBlockOutputStream`, here the
  class `NativeOutput.NativeOutputFormat`. The pipeline pushes chunks into it
  on the main, totals and extremes ports. It writes the stream prefix before
  anything else and rebuilds every chunk into a block from that port's header.
  `finalize` ensures prefix and suffix. With the statistics trailer compiled in
  (`FL_PATCH`, here the constructor flag `trailerEnabled`), progress reports are
  summed, and every `finalize` ends with a block of those statistics. Without
  it, progress reports are forwarded to the codec.

The codec itself (`NativeBlockInputStream`, `NativeBlockOutputStream`) is not
part of this model. Each adapter records every call it makes on the codec in
an event log `trace`. The blocks the input codec's `read` returns are a
queue `supply`. As in the source, a block without columns is the end of data.
Once the queue runs out, every read returns such a block. All properties are
stated over these logs.

Modules:
- `Wrappers`: `Result`.
- `Blocks`: blocks, headers, chunks and the conversions between them.
- `Traces`: counting events in a log and finding the first one.
- `NativeInput`: the input adapter, its log and its framing invariant.
- `NativeOutput`: the output adapter, its log, progress accumulation and the trailer.

Framing is stated two ways. First, as "every call was allowed by the calls
before it" (`NativeInput.WellFramed`, `NativeOutput.Framed`). Each class's
`Valid()` keeps a small summary of its log (`NativeInput.Run`,
`NativeOutput.Run`), computed one call at a time, together with the adapter's
flags. The lemmas `NativeInput.RunIsFramed` and `NativeOutput.RunIsFramed`
prove each summary exact. Second, as the properties that follow from framing:
the lemmas `EveryPassFramed`, `PrefixesSeparatedByReset`, `FramedMeans` and
`FramedComplete`.

Three behaviours of the code that one might not expect; the model follows the code:
- Every `finalize` with the trailer on writes the trailer again, because no
  flag guards `writeLastSuffix`. It is not written at most once.
- The output side does no structural check of a chunk against its port
  header. `Block::setColumns` puts the chunk's columns into a copy of the header
  by position.
- With the trailer off, progress is forwarded. With it on, progress is only
  accumulated. The two are exclusive in the code as well.

## Model

| member | source | states |
|---|---|---|
| Blocks.BlockToChunk | src/Processors/Formats/Impl/NativeFormat.cpp:58-62 | A block becomes a chunk iff it has the port header's structure and uniform row counts. A structure mismatch is reported as such, and it is checked first. A returned chunk has exactly the block's columns, in order. Its row count is the block's, and every column has that many rows. |
| Blocks.WithColumns | src/Processors/Formats/Impl/NativeFormat.cpp:110-111 | The block written for a chunk has the header's structure. Its i-th column is the chunk's i-th column. |
| Blocks.ChunkRoundTrip | src/Processors/Formats/Impl/NativeFormat.cpp:59-62 | A well-formed chunk placed under a header of its width converts back to the same chunk. Without columns, only a zero row count survives. |
| Blocks.BlockRoundTrip | src/Processors/Formats/Impl/NativeFormat.cpp:58-62 | A block the input adapter accepts is the port header carrying the returned chunk's columns. |
| NativeInput.Passes | src/Processors/Formats/Impl/NativeFormat.cpp:27-33 | Cutting the log at resets gives one pass more than there are resets. The last pass is the open one. |
| NativeInput.EveryPassFramed | src/Processors/Formats/Impl/NativeFormat.cpp:40-56 | In every pass, `readPrefix` is the first call and occurs once. `readSuffix` occurs at most once, and only right after a read that found end of data. |
| NativeInput.PrefixesSeparatedByReset | src/Processors/Formats/Impl/NativeFormat.cpp:27-44 | Between any two `readPrefix` calls there is a reset, so the prefix is read at most once between resets. |
| NativeInput.PassesHaveNoReset | src/Processors/Formats/Impl/NativeFormat.cpp:27-33 | No pass contains a reset: the log is cut at every reset. |
| NativeInput.PassesJoin | src/Processors/Formats/Impl/NativeFormat.cpp:27-33 | Joining the passes with a reset between neighbours gives back the whole log, so the passes cover every call. |
| NativeInput.RunIsFramed | src/Processors/Formats/Impl/NativeFormat.cpp:27-56 | The adapter's summary of its log accepts exactly the framed logs. For a framed log, its flags hold exactly when: the open pass has begun (`read_prefix`); the pass holds its `readSuffix` (`read_suffix`); the pass's last call is a read that found end of data. |
| NativeInput.NativeInputFormat.constructor | src/Processors/Formats/Impl/NativeFormat.cpp:18-22 | A new adapter has read neither prefix nor suffix and has made no codec call. |
| NativeInput.NativeInputFormat.ResetParser | src/Processors/Formats/Impl/NativeFormat.cpp:27-33 | Forwards the reset to the codec and clears both flags. Nothing else changes. |
| NativeInput.NativeInputFormat.Generate | src/Processors/Formats/Impl/NativeFormat.cpp:36-63 | The log grows by `readPrefix` (only if not yet read in this pass), then one `read`, then `readSuffix` (only if the block has no columns, and only the first time). A block without columns returns the empty chunk. Any other block returns its chunk, or the structural error. |
| NativeInput.EndOfDataAndReset | src/Processors/Formats/Impl/NativeFormat.cpp:27-56 | A block without columns, and then an exhausted queue, both return the empty chunk, and only the first reads the suffix. After a reset, the next read opens a new pass with exactly one new `readPrefix`. |
| NativeInput.MismatchThenBlock | src/Processors/Formats/Impl/NativeFormat.cpp:46-62 | A block with the wrong structure is an error, not a chunk. A matching block read after it becomes a chunk. The prefix is read once for both. |
| NativeOutput.Add64 | src/Processors/Formats/Impl/NativeFormat.cpp:91 | Counter addition is modulo 2^64. Without overflow, it does not decrease the counter. |
| NativeOutput.AccumulatedIsTotal | src/Processors/Formats/Impl/NativeFormat.cpp:88-95 | The accumulated rows and bytes are the true sums of all progress reports, modulo 2^64. |
| NativeOutput.AccumulatedNonDecreasing | src/Processors/Formats/Impl/NativeFormat.cpp:88-95 | While the true sums stay below 2^64, later reports never decrease the accumulated counters. |
| NativeOutput.StatisticsTrailer | src/Processors/Formats/Impl/NativeFormat.cpp:169-177 | The trailer is one row. Its columns, in order, are `fl.statistics` (UInt8, value 1), `rows_read` and `bytes_read` (UInt64, the given counters) and `elapsed` (Float64). |
| NativeOutput.RunIsFramed | src/Processors/Formats/Impl/NativeFormat.cpp:88-166 | The adapter's summary of its stream accepts exactly the framed streams. Its flags say exactly whether a prefix and a suffix are in the stream (`prefix_written`, `suffix_written`). It holds exactly the progress forwarded to the codec, in order. |
| NativeOutput.FramedMeans | src/Processors/Formats/Impl/NativeFormat.cpp:152-166 | A framed output log has at most one `writePrefix` and at most one `writeSuffix`. Every write, totals, extremes and suffix call comes after a `writePrefix`. |
| NativeOutput.FramedComplete | src/Processors/Formats/Impl/NativeFormat.cpp:134-141 | Once a framed log has both a prefix and a suffix, it has exactly one of each, the prefix first. This is what `finalize` guarantees, even when nothing was consumed. |
| NativeOutput.NativeOutputFormat.constructor | src/Processors/Formats/Impl/NativeFormat.cpp:75-79 | A new adapter has written neither prefix nor suffix. Its progress is zero, and it has made no codec call. |
| NativeOutput.NativeOutputFormat.OnProgress | src/Processors/Formats/Impl/NativeFormat.cpp:88-95 | With the trailer on, the report is added to the counters and nothing is forwarded. With it off, the report is forwarded unchanged and the counters stay as they are. |
| NativeOutput.NativeOutputFormat.WritePrefixIfNot | src/Processors/Formats/Impl/NativeFormat.cpp:152-158 | Writes the prefix only if it is not yet written. Afterwards the flag is set. |
| NativeOutput.NativeOutputFormat.WriteSuffixIfNot | src/Processors/Formats/Impl/NativeFormat.cpp:160-166 | Writes the suffix only if it is not yet written. Afterwards the flag is set. |
| NativeOutput.NativeOutputFormat.WriteLastSuffix | src/Processors/Formats/Impl/NativeFormat.cpp:168-177 | Writes one trailer block holding the sums of all progress reports so far. |
| NativeOutput.NativeOutputFormat.Consume | src/Processors/Formats/Impl/NativeFormat.cpp:103-114 | Ensures the prefix. An empty chunk adds no write. A non-empty chunk adds exactly one `write` of the main header carrying the chunk's columns. |
| NativeOutput.NativeOutputFormat.ConsumeTotals | src/Processors/Formats/Impl/NativeFormat.cpp:116-123 | Ensures the prefix, then forwards the chunk to `setTotals` as a block of the totals header, with no emptiness check. |
| NativeOutput.NativeOutputFormat.ConsumeExtremes | src/Processors/Formats/Impl/NativeFormat.cpp:125-132 | Ensures the prefix, then forwards the chunk to `setExtremes` as a block of the extremes header, with no emptiness check. |
| NativeOutput.NativeOutputFormat.Finalize | src/Processors/Formats/Impl/NativeFormat.cpp:134-141 | The log grows by the prefix and the suffix, each only if not yet written. With the trailer on, a trailer with the accumulated sums follows on every call. Afterwards both flags are set and the log is framed. |
| NativeOutput.EmptyResultFinalizedTwice | src/Processors/Formats/Impl/NativeFormat.cpp:134-177 | With nothing consumed, `finalize` writes exactly prefix then suffix, plus a zero-count trailer when the trailer is on. A second `finalize` adds no prefix or suffix, but adds another trailer. |
| NativeOutput.ProgressSummedIntoTrailer | src/Processors/Formats/Impl/NativeFormat.cpp:88-95 | With the trailer on, two progress reports reach the trailer as the sums of their rows and bytes. Nothing is forwarded. |
| NativeOutput.ProgressForwarded | src/Processors/Formats/Impl/NativeFormat.cpp:88-95 | With the trailer off, progress reports are forwarded in order, even before the prefix. No trailer is written. |
| NativeOutput.ChannelsAfterPrefix | src/Processors/Formats/Impl/NativeFormat.cpp:103-132 | Whichever port is used first, the prefix comes first. An empty main chunk writes nothing. Totals and extremes go to their own codec calls, never to `write`. |

## Left out

- The codec's byte-level encode and decode (`NativeBlockInputStream`, `NativeBlockOutputStream`). The model has only the calls made on the codec and the queue of read results. For that reason the writer-to-reader round trip is not stated.
- `assertBlocksHaveEqualStructure` also compares the column representations. The model compares column count, names and types. The function is not part of this model.
- `Block::rows`, `Block::checkNumberOfRows` and the truth tests of `Block` and `Chunk` are not part of this model. They are taken as: the size of the first column (0 without columns); all columns of equal size; "has columns"; and "has rows or has columns".
- `Block::setColumns` is not part of this model. The consume methods therefore require at least one chunk column per header column; extra columns are not used. Only a main chunk that is empty needs none.
- `NativeOutputFormat.WriteSuffixIfNot` and `NativeOutputFormat.WriteLastSuffix` require the prefix to be written already. Both are private, and `finalize` calls them only after `writePrefixIfNot`.
- NativeOutput.NativeOutputFormat.OnProgress: the counters never decrease only while the true sums stay below 2^64. The source's counters are `size_t`, which wrap modulo 2^64, and the model keeps that wrap-around.
- `Progress` is modelled by its read rows and read bytes only. These are the only fields the trailer uses; the structure's other counters are not part of this model.
- Progress increments arrive concurrently in the source (`incrementPiecewiseAtomically`). They are modelled as sequential additions.
- The `elapsed` column comes from a `Stopwatch`. `Finalize` takes it as a parameter and keeps it as an uninterpreted 64-bit float bit pattern.
- The three port headers are constructor parameters. The wiring of ports in the base classes `IInputFormat` and `IOutputFormat`, and `IInputFormat::resetParser`, are not part of this model.
- `getName`, `getContentType` and `setRowsBeforeLimit` are left out. They are single pass-through calls with no logic.
- Factory registration (`registerInputFormatProcessorNative`, `registerOutputFormatProcessorNative`) is plumbing and is left out.
- Codec I/O failures are not modelled: every codec call succeeds. The adapter's flags before such a failure match the state the model reaches up to that call.
- The input adapter's structural error is a `Result` rather than an exception. The block it rejected has already been read, and the flags stay as they were set.
