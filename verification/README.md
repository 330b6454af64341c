# Verified model of io-handles

The model covers the three stateful parts of the crate.

- **The buffered duplex stream** (`src/buffered/`). `BufReaderWriterBackend` batches writes and
  reads around one inner stream, `BufReaderLineWriterShim` adds line buffering, and the public
  `BufReaderWriter` and `BufReaderLineWriter` flush before they read. The inner stream is an
  adversary: each call may move any prefix, be interrupted, fail, or panic after moving a prefix.
- **The piped-thread writer** (`WriteHandle` in `src/posish.rs`), nested to any depth, as a
  transition system of a client, bounded pipes and copier threads.
- **The stdin and stdout lockers** (`src/lockers.rs`), and the acquisition of both by
  `ReadWriteHandle::stdin_stdout`, as a transition system with any number of clients.

| file | contents |
|---|---|
| `Streams.dfy` | the inner stream, its scripts and its log, and the retry loop of `write_all` |
| `Lines.dfy` | newlines, the buffer shape, the window |
| `Duplex.dfy` | what each operation of the buffered stream does to its state, as functions |
| `Writing.dfy`, `LineBuffering.dfy`, `Reading.dfy` | the promises of single operations |
| `Answers.dfy` | what each operation answers and where it puts the bytes, against every stream |
| `Runs.dfy` | the promises over whole runs, with panics and the destructor |
| `Calls.dfy` | the same answers at the level of the public calls |
| `Backend.dfy`, `LineWriter.dfy`, `Wrappers.dfy` | the classes, each method proved to do what its function says |
| `PipedWriters.dfy` | piped-thread writers |
| `Lockers.dfy` | lockers |

The classes follow the code: fields change in place, loops have invariants and decreasing measures,
early returns and unwinding are explicit. The functions in `Duplex.dfy` are simpler than the code
(one window for three branches, one append for a chain of fragments, recursion for loops), and the
lemmas are about those functions. Each method of a wrapper is one operation of `Runs.Apply`, which
carries the theorems over runs to every sequence of calls.

Conventions of the model: an unwinding call is the outcome `Panic`; a write or a read never reports
more bytes than it was offered; the capacity of a vector is what was asked for; lengths are
unbounded; the inner stream's `write_all` and the `read_until` of a buffered reader are the default
loops of the Rust standard library; `canVector` stands for the build flag `can_vector`.

Where the code and its documentation differ, the model follows the code:

- `write_vectored` promises to flush buffered newlines also when nothing new arrives. It does not when
  it falls back to scalar writes and all slices are empty
  (`LineBuffering.LineWriteVectoredCompletesExactly`, `Runs.EmptyVectoredWriteSkipsALine`).
- A locker's `new` is documented to fail if an instance exists. It also fails forever after a failed
  thread spawn, which leaves the flag set (`Lockers.ClaimFailsExactly`, `Lockers.LeakIsForever`).
- `write_all` and `write` of a line writer leave different buffers when the partial line fills the
  capacity (`LineBuffering.WriteAllAgreesExactly`, `LineBuffering.WriteAllDiffers`).

## Model

| member | source | states |
|---|---|---|
| `Streams.SendAllSends` | src/buffered/buf_reader_writer.rs:383-402 | However often the stream takes part of the data, is interrupted, fails or panics, what it has received is exactly the confirmed prefix, plus at most the next bytes of a call that panicked |
| `Lines.LinesLen` | src/buffered/buf_reader_line_writer_shim.rs:67-75 | The position after the last newline, or 0 when there is none: no newline follows it |
| `Duplex.LineSlices` | src/buffered/buf_reader_line_writer_shim.rs:179-186 | The number of slices up to and including the last one with a newline |
| `Duplex.FirstNonEmpty` | src/buffered/buf_reader_line_writer_shim.rs:173-176 | The first slice that is not empty, all before it being empty, or nothing if there is none |
| `Lines.WindowShape` | src/buffered/buf_reader_line_writer_shim.rs:105-129 | What is kept of an unsent tail ends in the last newline that fits, or has none and is as long as the capacity allows |
| `Writing.FlushBufDrains` | src/buffered/buf_reader_writer.rs:338-403 | The drained prefix is what the stream gained; what is left is exactly the unsent suffix; Ok if and only if nothing is left; an interruption is never reported |
| `Writing.WriteAccepts` | src/buffered/buf_reader_writer.rs:487-501 | Ok(n) accepts exactly the first n bytes and an error none, with stream and buffer together conserved; after a panic nothing is left for the destructor to send again; data as large as the capacity passes only an empty buffer |
| `Writing.WriteBatchesExactly` | src/buffered/buf_reader_writer.rs:487-501 | No call reaches the inner stream if and only if the data fits and is smaller than the capacity, and then it is in the buffer |
| `Writing.WriteAllAccepts` | src/buffered/buf_reader_writer.rs:503-521 | Ok accepts everything, an error some prefix, in order and once |
| `Writing.FlushAccepts` | src/buffered/buf_reader_writer.rs:548-550 | A flush moves the buffered bytes to the stream and accepts nothing new |
| `Writing.LineWriteAccepts` | src/buffered/buf_reader_line_writer_shim.rs:66-133 | The same acceptance promise through the line-buffering layer, for every stream and capacity |
| `Writing.LineWriteVectoredAccepts` | src/buffered/buf_reader_line_writer_shim.rs:168-235 | Ok(n) accepts exactly the first n bytes of the concatenated slices, also when only the first non-empty slice is written |
| `Writing.LineWriteAllAccepts` | src/buffered/buf_reader_line_writer_shim.rs:251-279 | Ok accepts everything, an error some prefix, whether the lines go through the buffer or past it |
| `LineBuffering.FlushIfCompletedLineShape` | src/buffered/buf_reader_line_writer_shim.rs:41-49 | After it succeeds, the buffer holds at most a partial line |
| `LineBuffering.LineWriteShape` | src/buffered/buf_reader_line_writer_shim.rs:66-133 | Whole lines and a trailing partial line are never in the buffer together, after success, error or panic |
| `LineBuffering.LineWriteVectoredShape` | src/buffered/buf_reader_line_writer_shim.rs:168-235 | The same for the vectored write |
| `LineBuffering.LineWriteAllShape` | src/buffered/buf_reader_line_writer_shim.rs:251-279 | The same for write_all, which when it succeeds leaves no complete line behind against any stream |
| `LineBuffering.LineWriteCompletes` | src/buffered/buf_reader_line_writer_shim.rs:52-133 | Against a stream that takes a slice whole or fails, a successful write leaves no complete line in the buffer |
| `LineBuffering.LineLeftBehindExactly` | src/buffered/buf_reader_line_writer_shim.rs:105-132 | Against any stream, a successful write leaves a complete line behind if and only if its one attempt was cut short and a newline is among the next bytes that fit |
| `LineBuffering.VectoredCompletes` | src/buffered/buf_reader_line_writer_shim.rs:179-235 | When it does not fall back, a successful vectored write leaves no complete line in the buffer, against any stream |
| `LineBuffering.LineWriteVectoredCompletesExactly` | src/buffered/buf_reader_line_writer_shim.rs:150-177 | Against every stream, a successful vectored write has sent a completed line that was waiting if and only if it does not both fall back to scalar writes and find all slices empty |
| `LineBuffering.VectoredLeavesBehindExactly` | src/buffered/buf_reader_line_writer_shim.rs:168-235 | Against every stream, it leaves a complete line behind if and only if it fell back and either nothing was new and one was there, or its one attempt was cut short before a newline that fits |
| `LineBuffering.CompleteLinesSent` | src/buffered/buf_reader_line_writer_shim.rs:52-55 | A buffer without a newline means that the stream holds everything written up to the last newline |
| `LineBuffering.LineWriteBatchesExactly` | src/buffered/buf_reader_line_writer_shim.rs:66-75 | A line write makes no call if and only if it brings no newline, no completed line is waiting, and the data fits below the capacity |
| `Writing.WriteAttemptsOnce` | src/buffered/buf_reader_writer.rs:487-501 | A block write makes at most one attempt to send new data, after whatever calls make room |
| `LineBuffering.LineWriteAttemptsOnce` | src/buffered/buf_reader_line_writer_shim.rs:57-60 | The same for every line write: first only bytes already buffered go out, then there is at most one more call |
| `LineBuffering.VectoredAttemptsOnce` | src/buffered/buf_reader_line_writer_shim.rs:147-149 | The same for every vectored line write |
| `LineBuffering.LineWriteAllKeepsPartial` | src/buffered/buf_reader_line_writer_shim.rs:260-278 | When write_all succeeds, a partial line shorter than the capacity is what the buffer holds, and all before it is in the stream |
| `LineBuffering.WriteAllAgreesExactly` | src/buffered/buf_reader_line_writer_shim.rs:251-279 | Against a stream that takes all, write and write_all leave the same bytes in the same places if and only if there is no newline, or nothing after the last one, or what follows it is shorter than the capacity |
| `LineBuffering.WriteAllDiffers` | src/buffered/buf_reader_line_writer_shim.rs:251-279 | A concrete input for which they do not |
| `Reading.FillBufDelivers` | src/buffered/buf_reader_writer.rs:654-665 | Filling the reader buffer moves input without losing any, also on an error |
| `Reading.ConsumeDelivers` | src/buffered/buf_reader_writer.rs:667-669 | Consuming passes over the pending bytes in order, never more than there are |
| `Reading.ReadDelivers` | src/buffered/buf_reader_writer.rs:585-596 | What a read returns is no longer than the room given and comes off the front of the input; nothing is lost on an error, with or without the bypass |
| `Reading.ReadCallsExactly` | src/buffered/buf_reader_writer.rs:585-596 | A read makes one call to the inner stream if nothing is pending and otherwise none; pending bytes are served first |
| `Reading.SmallReadsAreServed` | src/buffered/buf_reader_writer.rs:585-596 | What one inner read brought in serves any sequence of smaller reads in full, in order and without another call |
| `Reading.ReadUntilDelivers` | src/buffered/buf_reader_writer.rs:636-641 | A delimiter read loses nothing, also when it fails part way |
| `Reading.ReadUntilExact` | src/buffered/buf_reader_writer.rs:653-670 | For every positive reader capacity and pattern of short reads and interruptions, a successful delimiter read returns the shortest prefix of the input that ends in the delimiter, or all of it; it does succeed if the stream does nothing worse |
| `Reading.ChunkingDoesNotMatter` | src/buffered/buf_reader_writer.rs:653-670 | Two readers with the same input ahead get the same bytes and the same rest, however the input is buffered and arrives |
| `Reading.FlushSendsAll` | src/buffered/buf_reader_writer.rs:548-550 | A successful flush has sent everything buffered and ends with the flush of the inner stream |
| `Reading.ReadsComeAfterFlush` | src/buffered/buf_reader_writer.rs:555-568 | A public read reaches the inner stream only behind a successful flush that the same call made, with only reads in between and everything accepted sent; not at all if the flush fails |
| `Reading.ReadUntilsComeAfterFlush` | src/buffered/buf_reader_writer.rs:636-649 | The same for delimiter reads |
| `Answers.FlushBufRetries` | src/buffered/buf_reader_writer.rs:383-402 | Against every stream a flush of the buffer goes on through short writes and interruptions; it fails only because of the last reply it used, which took nothing, failed otherwise or unwound, and says so |
| `Answers.WriteAllRetries` | src/buffered/buf_reader_writer.rs:503-521 | The same for write_all, over its flush and its own writes together |
| `Answers.LineWriteAllRetries` | src/buffered/buf_reader_line_writer_shim.rs:251-279 | The same for the line write_all |
| `Answers.RetryingSucceeds` | src/buffered/buf_reader_writer.rs:503-521 | Against a stream that at worst is slow, flush_buf, into_inner and both forms of write_all succeed; none of them ever reports an interruption |
| `Answers.FlushBufFlags` | src/buffered/buf_reader_writer.rs:383-402 | The panic flag is up after a flush with something to send if and only if a write in it unwound |
| `Answers.IntoInnerAnswers` | src/buffered/buf_reader_writer.rs:443-448 | The inner stream is handed out if and only if the buffer could be flushed; otherwise the failure is that of the flush and the wrapper keeps the stream |
| `Answers.FlushAnswers` | src/buffered/buf_reader_writer.rs:548-550 | A flush that cannot send the buffer makes no flush call below; otherwise it makes one, last, and answers what that says |
| `Answers.DropAnswers` | src/buffered/buf_reader_writer.rs:700-707 | The destructor does what a flush of the buffer does, and against a patient stream delivers everything; once the stream is gone or a write has panicked it does nothing |
| `Answers.WriteAllPlaces` | src/buffered/buf_reader_writer.rs:503-521 | Where the bytes are after a successful write_all: all behind what was buffered, alone in the buffer, or all in the stream, decided by capacity and lengths |
| `Answers.WriteAllBatchesExactly` | src/buffered/buf_reader_writer.rs:503-521 | write_all makes no call if and only if the data fits and is smaller than the capacity, or there is none |
| `Answers.WriteAnswers` | src/buffered/buf_reader_writer.rs:487-501 | Against every stream, a block write reports why it could not make room, or takes all of the data into the buffer, or passes on what the stream says to one offer of it |
| `Answers.LineWriteAnswers` | src/buffered/buf_reader_line_writer_shim.rs:66-87 | A line write flushes first if it brings a newline or finds a completed line, and passes a failure of that on; without a newline it goes on as a block write |
| `Answers.SendLinesAnswers` | src/buffered/buf_reader_line_writer_shim.rs:89-132 | One offer of exactly the lines; a failure or a count of 0 is passed on with nothing buffered, and otherwise what is buffered is what should be kept of the rest, and the count is the sum |
| `Answers.KeptOfIsUnique` | src/buffered/buf_reader_line_writer_shim.rs:105-132 | The description of what should be kept of the rest fits one sequence only |
| `Answers.LineWriteKeeps` | src/buffered/buf_reader_line_writer_shim.rs:66-133 | After any successful line write with a newline, against every stream: nothing sent means Ok(0) and an empty buffer; otherwise the buffer is the unsent front that fits, out to its last newline if it has one, and the answer counts both |
| `Answers.LineWriteAllPlaces` | src/buffered/buf_reader_line_writer_shim.rs:260-278 | A successful line write_all leaves what follows the lines in the buffer if that is smaller than the capacity, and otherwise sends it too |
| `Answers.PartialWriteAllAnswers` | src/buffered/buf_reader_line_writer_shim.rs:253-259 | Without a newline, a line write_all flushes a completed line that waits and goes on as a block write_all, or passes the failure on |
| `Answers.LinesGoTogether` | src/buffered/buf_reader_line_writer_shim.rs:260-275 | Lines that fit behind what is buffered go out together with it, in one call if the stream takes that whole, and stay buffered after an error; with an empty buffer nothing of them is buffered |
| `Answers.SlicesAnswer` | src/buffered/buf_reader_line_writer_shim.rs:179-235 | Without a fallback: the flush first, then a block write of everything if there is no newline, or else one offer of the lines and, if they were taken whole, as much of the rest in the buffer as fits, with the count of both |
| `Answers.VectoredBatchesExactly` | src/buffered/buf_reader_line_writer_shim.rs:179-198 | Without a fallback a vectored write makes no call if and only if no slice has a newline, no completed line waits and all fits below the capacity, and then all of it is in the buffer and counted |
| `Answers.VectoredTakesAll` | src/buffered/buf_reader_line_writer_shim.rs:179-235 | Against a stream that takes all: everything is taken if there is no newline; otherwise the slices up to the last newline are sent, the buffer is as much of the others as fits, and the count is the sum |
| `Answers.FillBufAnswers` | src/buffered/buf_reader_writer.rs:654-665 | The reader buffer is refilled if and only if it is used up, with one request for its whole capacity whose failure is passed on |
| `Answers.ReadAnswers` | src/buffered/buf_reader_writer.rs:585-596 | Pending bytes are served without a call; else a read with at least the capacity asks the stream for all its room, and a smaller one asks for the capacity and keeps what there is no room for |
| `Answers.EmptyReadMeansEnd` | src/buffered/buf_reader_writer.rs:585-596 | With room for something, a read of an honest stream returns nothing only at the end of the input |
| `Answers.ReadUntilFailsForCause` | src/buffered/buf_reader_writer.rs:636-641 | Against every stream a delimiter read goes on through interruptions and fails only because of the last reply it used |
| `Answers.ReadUntilStops` | src/buffered/buf_reader_writer.rs:636-641 | Against every stream and for every capacity, one that succeeds ends with the first delimiter, or after the stream returned nothing |
| `Answers.ReadUntilServesPending` | src/buffered/buf_reader_writer.rs:636-641 | When the delimiter is pending it is served up to there and the stream is left alone |
| `Runs.ApplyIsSafe` | src/buffered/buf_reader_line_writer.rs:246-419 | Each operation of either wrapper keeps the invariants and conserves both directions, or has panicked in a state from which the destructor sends no byte twice |
| `Runs.RunConserves` | src/buffered/buf_reader_writer.rs:486-670 | Over every run of any operations against every stream: capacity, buffer shape, stream and buffer equal to what was accepted, delivered and pending equal to the input |
| `Runs.NothingIsSentTwice` | src/buffered/buf_reader_writer.rs:700-707 | However a run ends, after the destructor the stream holds a prefix of what was written; after a panic in a call that flushes or writes the destructor makes no call |
| `Writing.ReuseAfterPanic` | src/buffered/buf_reader_writer.rs:383-402 | If a panic in a flush is caught and the next flush succeeds, exactly the bytes that the panicking call had moved are in the stream twice |
| `Runs.CleanEndDeliversAll` | src/buffered/buf_reader_writer.rs:700-707 | A destructor that can flush delivers everything accepted |
| `Runs.IntoInnerHandsOverAll` | src/buffered/buf_reader_writer.rs:443-448 | After any number of failed attempts with anything in between, the into_inner that succeeds hands out a stream with every accepted byte once, and the destructor adds nothing |
| `Runs.CompleteLinesGetThrough` | src/buffered/buf_reader_line_writer_shim.rs:52-133 | At the end of any run the stream holds everything accepted up to the last newline: after a successful write_all, or a vectored write that does not fall back, against any stream; after a successful write, or a fallback with something to write, against a whole-or-fail stream |
| `Runs.EmptyVectoredWriteSkipsALine` | src/buffered/buf_reader_line_writer_shim.rs:171-177 | A concrete run after which a successful vectored write of an empty slice leaves a completed line in the buffer |
| `Runs.PublicReadsFollowFlush` | src/buffered/buf_reader_line_writer.rs:324-406 | After any run at all and whatever the stream did before it was wrapped, each inner read of a public read call comes after a successful flush by that call with no write in between, and with everything accepted since the start sent |
| `Runs.RunReadsFollowFlush` | src/buffered/buf_reader_line_writer.rs:324-406 | Over the whole log of any run, unwinding or not, every inner read was made by a bare fill_buf or comes after a successful flush in that run with no write in between |
| `Calls.PublicReadAnswers` | src/buffered/buf_reader_line_writer.rs:325-339 | A public read of either wrapper passes on a failure of its flush and reads nothing; otherwise it serves what is pending without a call, or makes one request, for all its room or for the reader capacity |
| `Calls.PublicReadIsHonest` | src/buffered/buf_reader_line_writer.rs:325-339 | With room for something, an Ok with nothing means the end of the input; from a stream with only short reads and interruptions, a successful flush is followed by Ok or an interruption |
| `Calls.PublicReadUntilAnswers` | src/buffered/buf_reader_line_writer.rs:390-396 | A delimiter read of either wrapper whose flush fails reads nothing; otherwise a success returns the input up to the first delimiter or all of it, and a failure has its cause in the stream |
| `Calls.BufferCallsAnswer` | src/buffered/buf_reader_line_writer.rs:380-388 | fill_buf and consume of either wrapper: one request exactly when nothing is pending, the front handed over in order, and nothing that waits to be written touched |
| `Calls.LineVectoredCallAnswers` | src/buffered/buf_reader_line_writer.rs:257-260 | A line writer without vectored support below writes the first slice that is not empty and nothing else; otherwise it batches exactly as one scalar write of all the slices would |
| `Calls.BlockBatchesExactly` | src/buffered/buf_reader_writer.rs:459-472 | The writes of a block writer make no call if and only if the data fits below the capacity, newlines or not |
| `Calls.PatientStreamsSuffice` | src/buffered/buf_reader_line_writer.rs:210-271 | Through either wrapper and against a patient stream, write_all and into_inner succeed and flush fails only when the flush below does, with everything sent |
| `Backend.BufReaderWriterBackend.WithCapacities` | src/buffered/buf_reader_writer.rs:316-336 | A new wrapper has empty buffers of the given capacities around the given stream |
| `Backend.BufReaderWriterBackend.WriteOut` | src/buffered/buf_reader_writer.rs:383-402 | The retry loop ends, confirms exactly what repeated offers would, and has the panic flag up exactly when a write unwound |
| `Backend.BufReaderWriterBackend.FlushBuf` | src/buffered/buf_reader_writer.rs:345-403 | Loop and guard together drain exactly the confirmed prefix at every exit, unwinding included |
| `Backend.BufReaderWriterBackend.ExtendFromSlice` | src/buffered/buf_reader_writer.rs:411-411 | Appending never grows the vector: every call site fits |
| `Backend.BufReaderWriterBackend.WriteToBuf` | src/buffered/buf_reader_writer.rs:408-413 | Appends as much as fits and returns how much that was |
| `Backend.BufReaderWriterBackend.Write` | src/buffered/buf_reader_writer.rs:487-501 | Does what the specification of a block write says, on every path |
| `Backend.BufReaderWriterBackend.WriteAll` | src/buffered/buf_reader_writer.rs:503-521 | The same for write_all |
| `Backend.BufReaderWriterBackend.WriteVectored` | src/buffered/buf_reader_writer.rs:523-539 | Has the effect of one write of the concatenated slices |
| `Backend.BufReaderWriterBackend.Flush` | src/buffered/buf_reader_writer.rs:548-550 | Drains the buffer and then flushes the inner stream, or stops at the first failure |
| `Backend.BufReaderWriterBackend.IntoInner` | src/buffered/buf_reader_writer.rs:443-448 | Moves the stream out after a successful flush; otherwise the wrapper stays as the failed flush left it |
| `Backend.BufReaderWriterBackend.Drop` | src/buffered/buf_reader_writer.rs:700-707 | Flushes unless the stream is gone or a write has panicked |
| `Backend.BufReaderWriterBackend.FillBuf` | src/buffered/buf_reader_writer.rs:654-665 | Refills the reader buffer in place when it is used up |
| `Backend.BufReaderWriterBackend.Consume` | src/buffered/buf_reader_writer.rs:667-669 | Advances the position, clamped to the end of the buffered data |
| `Backend.BufReaderWriterBackend.Read` | src/buffered/buf_reader_writer.rs:585-596 | Reads into the caller's buffer, past the reader buffer when that is empty and no larger |
| `Backend.BufReaderWriterBackend.ReadVectored` | src/buffered/buf_reader_writer.rs:598-610 | The same for several buffers filled in turn |
| `Backend.BufReaderWriterBackend.ReadUntil` | src/buffered/buf_reader_writer.rs:636-641 | The turn-by-turn loop returns what the recursive specification returns, and ends |
| `LineWriter.TailIsWindow` | src/buffered/buf_reader_line_writer_shim.rs:118-131 | Whichever of the three branches selects the tail, what gets buffered of it is the one window; all slices are in bounds for every capacity, 0 included |
| `LineWriter.KeepTwice` | src/buffered/buf_reader_line_writer_shim.rs:227-232 | Buffering two pieces in turn keeps what buffering their concatenation would |
| `LineWriter.BufReaderLineWriterShim.FlushIfCompletedLine` | src/buffered/buf_reader_line_writer_shim.rs:44-49 | Flushes if and only if the last buffered byte is a newline |
| `LineWriter.BufReaderLineWriterShim.Write` | src/buffered/buf_reader_line_writer_shim.rs:66-133 | Refines the specification of a line write: flush, one attempt, window |
| `LineWriter.BufReaderLineWriterShim.SendLines` | src/buffered/buf_reader_line_writer_shim.rs:89-132 | One attempt to send new data, then exactly the window of the rest in the buffer |
| `LineWriter.BufReaderLineWriterShim.WriteVectored` | src/buffered/buf_reader_line_writer_shim.rs:168-235 | Refines the specification of the vectored line write, with and without vectored support below |
| `LineWriter.BufReaderLineWriterShim.BufferTail` | src/buffered/buf_reader_line_writer_shim.rs:227-234 | Buffering the slices one by one until one finds no room leaves the buffer and count of one append of them all |
| `LineWriter.BufReaderLineWriterShim.WriteAll` | src/buffered/buf_reader_line_writer_shim.rs:251-279 | Refines the specification of the line write_all |
| `Wrappers.BufReaderWriter.Write` | src/buffered/buf_reader_writer.rs:459-462 | Performs one operation of a block-buffered run, so that the theorems about runs apply to calls of it |
| `Wrappers.BufReaderWriter.WriteAll` | src/buffered/buf_reader_writer.rs:464-467 | Performs one operation of a block-buffered run, so that the theorems about runs apply to calls of it |
| `Wrappers.BufReaderWriter.WriteVectored` | src/buffered/buf_reader_writer.rs:469-472 | Performs one operation of a block-buffered run, so that the theorems about runs apply to calls of it |
| `Wrappers.BufReaderWriter.Flush` | src/buffered/buf_reader_writer.rs:480-483 | Performs one operation of a block-buffered run, so that the theorems about runs apply to calls of it |
| `Wrappers.BufReaderWriter.Read` | src/buffered/buf_reader_writer.rs:554-560 | Performs one operation of a block-buffered run: flushes, then reads, so that the theorems about runs apply to calls of it |
| `Wrappers.BufReaderWriter.ReadVectored` | src/buffered/buf_reader_writer.rs:562-568 | Performs one operation of a block-buffered run: flushes, then reads into several buffers, so that the theorems about runs apply to calls of it |
| `Wrappers.BufReaderWriter.ReadUntil` | src/buffered/buf_reader_writer.rs:635-641 | Performs one operation of a block-buffered run: flushes, then reads up to a delimiter, so that the theorems about runs apply to calls of it |
| `Wrappers.BufReaderWriter.FillBuf` | src/buffered/buf_reader_writer.rs:625-628 | Performs one operation of a block-buffered run: fills the reader buffer without a flush, so that the theorems about runs apply to calls of it |
| `Wrappers.BufReaderWriter.Consume` | src/buffered/buf_reader_writer.rs:630-633 | Performs one operation of a block-buffered run, so that the theorems about runs apply to calls of it |
| `Wrappers.BufReaderWriter.IntoInner` | src/buffered/buf_reader_writer.rs:304-308 | Performs one operation of a block-buffered run, so that the theorems about runs apply to calls of it |
| `Wrappers.BufReaderLineWriter.Write` | src/buffered/buf_reader_line_writer.rs:247-250 | Performs one operation of a line-buffered run, so that the theorems about runs apply to calls of it |
| `Wrappers.BufReaderLineWriter.WriteAll` | src/buffered/buf_reader_line_writer.rs:268-271 | Performs one operation of a line-buffered run, so that the theorems about runs apply to calls of it |
| `Wrappers.BufReaderLineWriter.WriteVectored` | src/buffered/buf_reader_line_writer.rs:257-260 | Performs one operation of a line-buffered run, so that the theorems about runs apply to calls of it |
| `Wrappers.BufReaderLineWriter.Flush` | src/buffered/buf_reader_line_writer.rs:252-255 | Performs one operation of a line-buffered run, so that the theorems about runs apply to calls of it |
| `Wrappers.BufReaderLineWriter.Read` | src/buffered/buf_reader_line_writer.rs:325-331 | Performs one operation of a line-buffered run: flushes, then reads, so that the theorems about runs apply to calls of it |
| `Wrappers.BufReaderLineWriter.ReadVectored` | src/buffered/buf_reader_line_writer.rs:333-339 | Performs one operation of a line-buffered run: flushes, then reads into several buffers, so that the theorems about runs apply to calls of it |
| `Wrappers.BufReaderLineWriter.ReadUntil` | src/buffered/buf_reader_line_writer.rs:390-396 | Performs one operation of a line-buffered run: flushes, then reads up to a delimiter, so that the theorems about runs apply to calls of it |
| `Wrappers.BufReaderLineWriter.FillBuf` | src/buffered/buf_reader_line_writer.rs:380-383 | Performs one operation of a line-buffered run: fills the reader buffer without a flush, so that the theorems about runs apply to calls of it |
| `Wrappers.BufReaderLineWriter.Consume` | src/buffered/buf_reader_line_writer.rs:385-388 | Performs one operation of a line-buffered run, so that the theorems about runs apply to calls of it |
| `Wrappers.BufReaderLineWriter.IntoInner` | src/buffered/buf_reader_line_writer.rs:210-214 | Performs one operation of a line-buffered run, so that the theorems about runs apply to calls of it |
| `PipedWriters.MoveKeeps` | src/posish.rs:367-376 | Any move of a copier conserves order and content, never writes to a closed pipe, and brings the end nearer |
| `PipedWriters.FireKeeps` | src/posish.rs:367-376 | The same at any depth of nesting, while every other level is unaffected |
| `PipedWriters.NextKeeps` | src/posish.rs:587-616 | Every step of client or copier keeps: accepted bytes equal the innermost writer's, followed by held and piped bytes in order; one thread per handle; a new copier only after the old one was joined |
| `PipedWriters.RunKeeps` | src/posish.rs:587-616 | The same over every run, with any number of flushes in it |
| `PipedWriters.NextKeepsLayout` | src/posish.rs:597-612 | A write or a flush leaves the handles as they were, as many inside one another and with pipes of the same sizes, and a flush that has returned leaves an open pipe; only dropping takes handles off |
| `PipedWriters.FlushDelivers` | src/posish.rs:597-612 | For every depth and interleaving, when the outermost flush returns the innermost writer, which may itself buffer, has passed on everything written, in order and once, and all pipes and copiers are empty |
| `PipedWriters.DropDelivers` | src/posish.rs:803-815 | When the destructor has gone through the chain, the innermost writer has passed on everything written and no pipe or thread is left |
| `PipedWriters.DropEnds` | src/posish.rs:803-815 | Once the destructor has begun, only a computable number of steps can follow, in whatever order, and until nothing is left another one can be taken |
| `PipedWriters.DropCanEnd` | src/posish.rs:803-815 | From any point in the destructor there is a schedule that takes it to the end |
| `PipedWriters.SomethingMoves` | src/posish.rs:367-376 | Bytes on the way, or a closed pipe whose copier has not returned, always mean that some copier can move |
| `PipedWriters.WaitEnds` | src/posish.rs:606-610 | While the client waits to join, at most a computable number of moves can happen, in whatever order, and when none can the join is due |
| `PipedWriters.WaitCanEnd` | src/posish.rs:606-610 | From any wait there is a schedule of copier moves alone that ends it |
| `PipedWriters.RoomAppears` | src/posish.rs:589-594 | A write that finds the pipe full waits at most a computable number of moves, during which some copier can move |
| `Lockers.NextKeeps` | src/lockers.rs:47-70 | Every step of every client and thread keeps the locker invariant |
| `Lockers.Exclusion` | src/lockers.rs:47-70 | For any number of clients and every interleaving there is at most one locker, and when the flag is clear no locker thread is running or holds the lock |
| `Lockers.LiveUntilUnparked` | src/lockers.rs:57-60 | A live locker stays live until it is unparked, and once its thread has taken the lock no step of anybody else takes it away: other code cannot get it |
| `Lockers.NewLockerTakesTheLock` | src/lockers.rs:48-62 | From the claim on: the new thread can take the lock as soon as nobody has it, and afterwards nobody gets it until the locker is dropped |
| `Lockers.LockLeftOnlyByExit` | src/lockers.rs:57-60 | The lock leaves a locker only in the step in which its unparked thread returns |
| `Lockers.ExitOnlyAfterUnpark` | src/lockers.rs:105-112 | In every run from a live locker, its thread returns only after it has been unparked |
| `Lockers.DropReleases` | src/lockers.rs:105-112 | A drop that other code does not hold up ends after a number of steps that can be told beforehand, with the thread gone, the flag clear, the lock free and a new claim possible |
| `Lockers.ClaimFailsExactly` | src/lockers.rs:46-69 | Creating a locker fails if and only if somebody has one or a spawn has failed before |
| `Lockers.LeakIsForever` | src/lockers.rs:48-61 | After a failed spawn there is never a locker again |
| `Lockers.SpawnFailureLeaks` | src/lockers.rs:48-61 | A concrete run in which a failed spawn leaves the flag set with no locker |
| `Lockers.DropWaitsOnlyForOthers` | src/lockers.rs:105-112 | The join in drop can be held up only by code outside the lockers that has the lock, and goes on once that gives it back |
| `Lockers.DuoNextKeeps` | src/posish.rs:443-453 | Every step keeps each client's lockers in line with how far its stdin_stdout call is |
| `Lockers.PairIsAllOrNothing` | src/posish.rs:443-453 | stdin_stdout ends with a live locker on both streams and nobody else with any, or with none on either |
| `Lockers.PairNeverDeadlocks` | src/posish.rs:443-453 | In the middle of such a call the client or the thread it joins can always take a step unless other code holds the lock |
| `Lockers.PairSucceeds` | src/posish.rs:443-453 | If neither stream is claimed, the four steps of the call can be taken and give both lockers |
| `Lockers.PairGoesOn` | src/posish.rs:443-453 | An attempt on a claimed stream or a failed spawn, and nothing else, makes a call give up: at once before it has stdin, and by backing out after |
| `Lockers.PairIsReleased` | src/posish.rs:443-453 | Backing out and dropping a pair come to their end, with no locker left, in a number of steps bounded beforehand, unless other code holds a lock |

## Left out

- PipedWriters: `flush` and the copiers are steps on values rather than methods on objects, because they interleave; the model does not show which fields of the handle are taken and overwritten.
- Lockers: the atomic flag, the threads and the drop sequence are steps on values for the same reason; a live locker does not mean that its thread already has the lock.
- Copier threads whose writer fails, and respawns that fail: the code unwraps those results and panics.
- The read side of piped threads: its error path takes the join handle that the destructor unwraps again.
- Backend.BufReaderWriterBackend.ReadUntil: `read_line` is this loop with a UTF-8 check, which is not part of the model.
- Runs.NothingIsSentTwice: a run ends at the first panic; of continuing after catching one, only the flush that follows a flush that panicked is covered (`Writing.ReuseAfterPanic`).
- Runs.RunReadsFollowFlush: exempts the reads that a bare `fill_buf` makes, because the code does not flush there.
- Input that an inner read has taken when it panics is lost; reader conservation covers runs without a panic.
- Writes made directly through `get_mut`, which bypass the buffer by design.
- Arithmetic overflow of lengths: `usize` sums are modelled without a bound.
- Constructors over files, sockets and child processes, raw descriptors, `Debug`, the plain forwarding of reads and writes in `src/posish.rs`.
- `src/winx.rs` and `src/descriptor.rs`: Windows counterparts and a two-way dispatch.
- `read_initializer`, `write_fmt`, `write_all_vectored`.
