# node-browser-repl core, modelled in Dafny

node-browser-repl serves a Node.js REPL to a browser page. The page sends
keystrokes as length-prefixed frames over a byte stream. The server decodes
the frames, parses each one as a `{method, args}` command and feeds `'c'`
commands to a REPL instance. That instance is respawned whenever it exits
while the connection is live. Its output goes back to the page as raw
bytes. All of this lives in `index.js`.

The model has six modules:

- `Wrappers`: the `Option` type.
- `FrameCodec`: the frame decoder `_makeBufferCat` (index.js:18-61).
  - `class FrameDecoder` holds the closure state: the chunk list `bs` and the counter `bsBytes`.
  - `Feed` is proved against the pure specification `Drain`, which is one extraction pass (`Extract`) repeated.
  - `Drain` is related to `Parse`, a flat reference decoder, and to `Encode`, the framing a peer applies.
  - The prefix merge is modelled as written. It pops chunks off the back (`Merge.AsWritten`). A corrected merge that takes chunks in stream order (`Merge.InOrder`) is modelled beside it.
- `Evaluation`: the classifier `isRecoverableError` (index.js:11-16), the default `localEval` (index.js:158-170) and the `eval` hook (index.js:97-120).
  - These are pure functions over a small model of JavaScript values.
  - The hook's two `await`s become the result datatype `Awaited`.
- `Transport`: the `stream.Transform` socket built by `createConnection` (index.js:189-199).
  - Its inbound side feeds a `FrameDecoder`.
  - Its `send` pushes raw bytes.
- `Session`: the state `_makeRepl` keeps (index.js:73-181).
  - The state is `live`, the number of REPL instances started, the instance held by the newest exit handler's `r`, the `close()` calls and the input chunks.
  - It is modelled as a pure step function `Step` over events, with `Replay` applying a run of events.
  - `class ReplSession` has one method per handler, each proved to take exactly that step.
- `Connection`: `createConnection` (index.js:185-206).
  - Decoded messages are parsed and dispatched to the session in order.

Where the code and the system's specification disagree, the model follows
the code:

- **Split prefixes.** The specification promises a round trip for every chunking, including splits inside the length prefix. The code's merge reverses the order of the chunks that hold a split prefix (see Findings).
- **A stray `)`.** The specification classifies `")"` as fatal. The code treats every `SyntaxError` whose message starts with "Unexpected token" as recoverable, and that includes the error for a stray `)` (`StrayParenIsRecoverable`).
- **Outbound framing.** The specification says outbound `send` is framed like inbound traffic. The code pushes raw bytes (`Socket.Send`, `SendIsNotFramed`).
- **Which instance is closed.** The specification says close stops the current instance. The code always closes the instance created at index.js:133, because the exit handler's parameter `r` shadows the outer `r` (`CloseTargetsFirstInstance`, `CloseAfterRespawnMissesCurrent`).

## Model

| member | source | states |
|---|---|---|
| FrameCodec.Uint32LE | index.js:38 | the length `L` read from bytes 0..3 (little-endian) is below 2^32 |
| FrameCodec.Uint32LEBytes | index.js:38 | the four prefix bytes a peer writes for `n` read back as `n` under `Uint32LE` |
| FrameCodec.Frame | index.js:38-45 | a frame is four bytes longer than its payload, its prefix reads the payload length, and its bytes from 4 on are the payload |
| FrameCodec.Encode | index.js:38-45 | the encoding a peer writes carries each payload behind its 4-byte prefix: its length is the payload bytes plus 4 per payload |
| FrameCodec.Parse | index.js:38-58 | the flat reference decoder always stops at an incomplete remainder, never longer than its input |
| FrameCodec.ParseFrame | index.js:40-45 | decoding a frame followed by any bytes yields its payload first, then what decoding the rest yields |
| FrameCodec.ParseEncode | index.js:40-58 | decoding the encoding of payloads `ps`, followed by any bytes, yields `ps` and then what the rest yields |
| FrameCodec.ParseRoundTrip | index.js:40-58 | decoding the encoding of `ps` yields exactly `ps` and no leftover bytes |
| FrameCodec.ParseAppend | index.js:21-59 | appending bytes never changes frames already complete; decoding resumes from the old remainder |
| FrameCodec.PopBack | index.js:28-34 | the inner loop pops chunks off the back and stops at the first chunk that brings the popped bytes to 4 (nothing is popped when they already hold 4); what stays followed by the popped chunks reversed is the old list |
| FrameCodec.MergeBack | index.js:27-36 | the merged list is a prefix of the old list behind one chunk of at least 4 bytes, which holds the rest of the list in reversed chunk order; the byte total is kept; the chunks merged after the first one popped hold fewer than 4 bytes, so no more chunks are merged than the prefix needs |
| FrameCodec.MergeBackKeepsBytes | index.js:27-36 | the source's merge keeps every buffered byte (same multiset) and only reorders |
| FrameCodec.TakeFront | index.js:28-34 | corrected inner loop: takes leading chunks in stream order and stops at the first chunk that brings the taken bytes to 4 (takes nothing more when they already hold 4) |
| FrameCodec.MergeInOrder | index.js:27-36 | corrected merge: chunk 0 holds at least 4 bytes and the byte stream is unchanged |
| FrameCodec.Normalize | index.js:27-36 | after the merge loop chunk 0 holds at least 4 bytes; total and multiset of bytes are kept; the stream is unchanged with `InOrder`; nothing changes when chunk 0 already holds the prefix |
| FrameCodec.Leftover | index.js:49-52 | the kept tail is one nonempty chunk with the tail's bytes, or nothing when the tail is empty |
| FrameCodec.Extract | index.js:26-58 | one pass stops unchanged below 4 bytes, and stops on the merged list below 4 + `L` bytes; otherwise it emits bytes [4, 4+`L`) of the merged buffer, keeps [4+`L`, end) as at most one nonempty chunk, and removes exactly 4 + `L` bytes |
| FrameCodec.Drain | index.js:25-59 | the `for (;;)` loop on a chunk list, which returns the payloads emitted and the list left behind; it has no contract of its own: `DrainKeepsBytes`, `DrainIncomplete`, `DrainMatchesParse`, `InOrderDrainMatchesParse`, `DrainLeavesNoFrame` and `DrainLeavesOneChunk` state its properties, and `FrameDecoder.Feed` is proved equal to it |
| FrameCodec.DrainKeepsBytes | index.js:25-59 | the `for (;;)` loop (`Drain`) run on a chunk list accounts for every byte: each emitted payload plus its 4 prefix bytes, and the list left behind, add up to the bytes buffered before |
| FrameCodec.Run | index.js:21-59 | successive `feed` calls account for every byte: the payloads emitted, their prefixes and the final list add up to the old buffer plus all chunks fed |
| FrameCodec.DrainIncomplete | index.js:26-58 | below 4 bytes, or below 4 + `L`, a feed emits nothing and keeps every buffered byte |
| FrameCodec.DrainMatchesParse | index.js:25-59 | when chunk 0 holds the prefix, a feed emits what the flat decoder finds in the buffered bytes and keeps the same remainder |
| FrameCodec.DrainNormalizes | index.js:27-38 | draining a list is draining its merged form |
| FrameCodec.InOrderDrainMatchesParse | index.js:25-59 | with the corrected merge, every chunk list drains like its flat bytes |
| FrameCodec.StopIsStable | index.js:53-58 | the list a pass stops on makes the next pass stop on the same list |
| FrameCodec.ExtractEmits | index.js:40-52 | with at least 4 + `L` bytes the pass emits [4, 4+`L`) of the merged buffer and keeps the tail |
| FrameCodec.ExtractIncomplete | index.js:40-55 | with fewer than 4 + `L` bytes the pass stops on the merged list |
| FrameCodec.ExtractStep | index.js:47-52 | an emitting pass puts its payload in front of what draining its leftover emits |
| FrameCodec.ExtractStop | index.js:53-58 | a stopping pass ends the feed, which leaves exactly the list it stopped on |
| FrameCodec.FeedStep | index.js:25-59 | one emitting pass keeps the loop's account of the messages still to emit |
| FrameCodec.DrainLeavesNoFrame | index.js:25-59 | after a feed, draining again emits nothing and changes nothing: one feed emits every complete frame |
| FrameCodec.DrainLeavesOneChunk | index.js:42-52 | after a feed that emitted anything, the buffer is at most one chunk and never an empty one |
| FrameCodec.RunMatchesParse | index.js:21-59 | a run of feeds decodes the concatenated stream like the flat decoder, with the corrected merge or whenever the prefix is never split when read |
| FrameCodec.UnsplitChunkingRoundTrip | index.js:21-59 | as written, any chunking of an encoding that never splits a prefix being read yields the payloads in order and leaves no bytes |
| FrameCodec.OneChunkRoundTrip | index.js:21-59 | the whole encoding fed as one chunk yields the payloads in order and leaves no bytes |
| FrameCodec.InOrderAnyChunkingRoundTrip | index.js:21-59 | with the corrected merge, every chunking of an encoding yields the payloads in order and leaves no bytes |
| FrameCodec.SplitPrefixMerge | index.js:27-36 | the chunks [1],[0],[0],[0] are merged into [0,0,0,1] |
| FrameCodec.SplitPrefixFirstFeeds | index.js:21-59 | feeding [1],[0],[0],[0] one by one emits nothing and leaves [[0,0,0,1]] |
| FrameCodec.RunSnoc | index.js:21-24 | a run over one more chunk is the run followed by one more feed |
| FrameCodec.RunSnocStop | index.js:21-59 | a feed that stops adds nothing to a run's messages |
| FrameCodec.SplitPrefixFrame | index.js:38-45 | the frame of payload [7] is [1,0,0,0,7], and the flat decoder recovers [7] |
| FrameCodec.SplitPrefixLastFeed | index.js:21-59 | after the fifth byte the merged chunk announces 16777216 bytes, so nothing is emitted |
| FrameCodec.SplitPrefixOneByteAtATime | index.js:27-45 | the frame [1,0,0,0,7] fed one byte at a time is never emitted; the buffer ends as [[0,0,0,1],[7]] |
| FrameCodec.PopChunks | index.js:28-34 | the `bs.pop()` loop returns exactly what `PopBack` describes |
| FrameCodec.TakeChunks | index.js:28-34 | the corrected loop returns exactly what `TakeFront` describes |
| FrameCodec.FrameDecoder.constructor | index.js:19-20 | a new decoder is empty and its counter agrees |
| FrameCodec.FrameDecoder.MergePrefix | index.js:27-36 | the merge loop leaves the list `Normalize` describes and keeps `bsBytes` equal to the byte total |
| FrameCodec.FrameDecoder.Pass | index.js:26-58 | one pass of the loop body takes exactly `Extract`'s step on the old list: it emits a payload and keeps the leftover, or breaks on the list it leaves; `bsBytes` stays equal to the byte total |
| FrameCodec.FrameDecoder.Feed | index.js:21-60 | a feed emits exactly the messages `Drain` gives for the old list plus the chunk, in order, leaves its leftover, and keeps `bsBytes` equal to the byte total |
| Evaluation.StartsWith | index.js:13 | the character-by-character anchored match holds iff the string starts with the pattern |
| Evaluation.IsRecoverableError | index.js:11-16 | throws (`None`) exactly for null/undefined; true iff the name is "SyntaxError" and the message starts with "Unexpected end of input" or "Unexpected token" |
| Evaluation.TruncationIsRecoverable | index.js:11-16 | a SyntaxError "Unexpected end of input" is recoverable |
| Evaluation.StrayParenIsRecoverable | index.js:11-16 | a SyntaxError "Unexpected token ')'" is recoverable too |
| Evaluation.NotRecoverableExamples | index.js:11-16 | another syntax message, a lower-case message, another error name and a falsy value are not recoverable; undefined makes the classifier throw |
| Evaluation.LocalEval | index.js:158-170 | the callback always runs; a truthy thrown value is the error, with value undefined; otherwise the error is null and the value is `evalFn`'s result, undefined when it threw a falsy value |
| Evaluation.Complete | index.js:158-177 | the default `localEval` always calls back, with an error exactly when a truthy value was thrown; a function installed by `setEval` decides the completion itself |
| Evaluation.RewrittenSource | index.js:99 | the text run is the rewrite exactly when it is truthy, and `s` otherwise |
| Evaluation.IsAsync | index.js:99-100 | `isAsync` holds iff the rewrite returned a non-empty text different from `s` |
| Evaluation.Await | index.js:104-110 | awaiting never yields a promise, and a non-promise awaits to itself |
| Evaluation.AwaitIdempotent | index.js:110 | awaiting an awaited value again changes nothing |
| Evaluation.Classify | index.js:112-118 | the catch block replies Recoverable iff `isRecoverableError` is true, Fatal iff it is false, and not at all if it throws; the error passed on is the thrown value |
| Evaluation.Failure | index.js:103-111 | the try block throws exactly the evaluator's throw, its truthy `err`, or, with a rewrite, the reason the awaited promise rejects with, and nothing in any other case; without a rewrite only the first two; a callback that never runs throws nothing |
| Evaluation.Stalls | index.js:103-111 | the try block waits forever whenever the callback never runs, and, with a rewrite, whenever an error-free callback's promise never settles; without a rewrite only the first; a stall is never a failure |
| Evaluation.Hook | index.js:97-120 | Ok iff the evaluation neither stalls nor fails; then the value is the evaluator's, awaited once more only when `isAsync`; a failure is classified; a stall is no reply |
| Evaluation.HookFailureIsClassified | index.js:103-118 | when the try block throws `e`, the reply is Recoverable iff `isRecoverableError(e)` and Fatal iff not, and never Ok |
| Evaluation.SyncValueIsNotAwaited | index.js:104-111 | without a rewrite the evaluator's value is reported as is, a promise included |
| Evaluation.FalsyThrowIsSuccess | index.js:158-170 | with the default evaluator, throwing a falsy value is reported as success with undefined |
| Evaluation.RejectedWithUndefinedGetsNoReply | index.js:110-118 | a rewritten line whose promise rejects with undefined gets no reply |
| Evaluation.AsyncValueIsAwaited | index.js:104-111 | a rewritten line reports the value its promise fulfils with |
| Transport.Socket.constructor | index.js:189-192 | a new socket has an empty decoder with the given merge and has pushed nothing |
| Transport.Socket.Send | index.js:197-199 | `send` appends the chunk as is, unframed, to what the page reads |
| Transport.Socket.Transform | index.js:193-196 | an inbound chunk is fed to the decoder, and the messages emitted are `Drain`'s |
| Transport.SendIsNotFramed | index.js:197-199 | no chunk sent raw is its own frame, and a framed reader never decodes a pushed chunk as that chunk |
| Session.OnExit | index.js:126-131 | an exit while live starts one instance and the handler's `r` holds it; an exit after close changes nothing |
| Session.OnClose | index.js:153-156 | close clears `live` and calls `close()` on the first instance; nothing else changes |
| Session.Dispatch | index.js:136-152 | `'c'` appends its args to the input; every other method leaves the input alone; nothing else changes |
| Session.Step | index.js:125-156 | one handler call: only a close clears `live` and adds one `close()` call, only an exit while live starts an instance, and every event keeps the state well formed |
| Session.Replay | index.js:125-156 | after a run of handler calls, `live` can only have been cleared, instances are never lost, and there is one `close()` call per close event |
| Session.BeforeClose | index.js:153-155 | the events before the first close are a close-free prefix, followed by a close if any remain |
| Session.ReplaySnoc | index.js:125-156 | one more event is one more step |
| Session.ReplayWellFormed | index.js:125-134 | the handler's `r` is always the newest instance, and only the first instance is ever closed |
| Session.LiveUntilClose | index.js:77-155 | `live` starts true, holds exactly until the first close and never comes back |
| Session.RespawnsBeforeClose | index.js:125-131 | the instance count grows by exactly the number of exits before the first close: N exits while live give N respawns |
| Session.NoRespawnAfterClose | index.js:126-131 | after close, `live` stays false and no exit starts an instance |
| Session.CloseTargetsFirstInstance | index.js:133-156 | each close adds one `close()` call, always on the instance from index.js:133, and earlier calls stay |
| Session.InputIsTyped | index.js:136-143 | the input is exactly the args of the `'c'` messages, in arrival order |
| Session.CloseAfterRespawnMissesCurrent | index.js:125-156 | after one respawn and a close, instance 1 runs while `close()` went to instance 0 |
| Session.BannerChunks | index.js:74-75 | the banner is sent at most once, iff its text is truthy, as `bannerText + "\n"` |
| Session.ReplSession.constructor | index.js:73-158 | `_makeRepl` sends exactly the banner chunks and starts live, with one instance, no input and the default evaluator |
| Session.ReplSession.Exit | index.js:126-131 | the exit handler takes the `InstanceExit` step |
| Session.ReplSession.Close | index.js:153-156 | the close handler takes the `ChannelClose` step |
| Session.ReplSession.OnMessage | index.js:136-152 | the message handler takes the dispatch step for the envelope |
| Session.ReplSession.SetEval | index.js:175-177 | later lines go to the new evaluator; the session state is unchanged |
| Session.ReplSession.Write | index.js:82-89 | REPL output goes to the socket as one raw chunk |
| Session.RunEvents | index.js:125-156 | running the handlers for a sequence of events yields `Replay`'s state |
| Session.EvalAfterSetEval | index.js:97-177 | after `setEval(f)` and any exits, closes and messages, the next line's outcome is the hook's with `f` in force, and the session state is `Replay`'s |
| Connection.AsEvents | index.js:190-192 | each decoded payload becomes exactly one `'message'` event, in order |
| Connection.Envelopes | index.js:136-138 | the envelopes dispatched are those parsed before the first parse failure |
| Connection.Connection.constructor | index.js:185-201 | the socket is fresh with an empty decoder, the banner is its only output, the session starts in its initial state, and the connection is not wedged |
| Connection.Connection.Receive | index.js:136-196 | the decoder takes its `Drain` step, and the session takes one message step per envelope parsed, in order; `delivered` is false iff a parse failed, which wedges the connection; a wedged connection leaves the decoder and the session unchanged |
| Connection.FramedCommandIsTyped | index.js:136-196 | a `'c'` command framed and written as one chunk is decoded and its args reach the input |
| Connection.CommandIsTyped | index.js:140-143 | a `'c'` message appends exactly its args to the REPL's input |

## Left out

- HTTP server, static files, WebSocket upgrade and listen callbacks (index.js:208-254): network I/O.
- The promisify wrapper, option defaults and CLI entry (index.js:63-71, 255-264): plumbing.
- `repl.start` internals (prompt, terminal, colours, line editing, when `'exit'` fires): a foreign library. An instance is a number, and an exit is an event from outside.
- `Session.OnExit`: which instance exits is not modelled, because the handler never looks at it.
- `processTopLevelAwait` and `eval`: foreign code. Their results are parameters (`rewritten`, `evalFn`). A rewrite that throws is not modelled.
- Promise scheduling: each line is one sequential step, and its two awaits are the datatype `Awaited`.
  - Thenables other than promises are not modelled.
  - An evaluator that calls its callback more than once is not modelled.
  - A line still in flight when the session closes is not modelled.
- `context` and `filename`, the other arguments of the hook and of `localEval`: `global: true` makes them irrelevant to what is modelled.
- Node streams and backpressure (index.js:79-92, 189-199): reduced to sequences of chunks. `Session.ReplSession.Write` takes bytes; the `Buffer.from(chunk, encoding)` conversion is left out.
- `console.log` and `console.warn` (index.js:91, 101, 149): logging.
- `JSON.parse`, URL parsing and UTF-8 (index.js:137, 186-187, 191):
  - the parsed envelope is the function `parse`, whose `None` means the parse throws;
  - `id` is a parameter;
  - the banner's encoding is the function `encode`;
  - messages stay bytes.
- `Session.Envelope`: `args` is a string. An `args` of another type (a number, object, array or boolean), which makes `input.push` at index.js:141 throw a `TypeError`, is not modelled, and neither is a parsed value that is not an object with `method`/`args`.
- `Session.Dispatch`: a `'c'` message with `args: null` is not modelled. `input.push(null)` does not throw: it signals end of stream on the REPL's input, which ends the instance's input for good.
- `Connection.Connection.Receive`: after a failed parse, the model's decoder still completes the feed of that chunk. In the source the exception leaves the feed between index.js:42 and index.js:49: `bs` is emptied, `bsBytes` keeps the dropped bytes and the tail is lost. The exception also skips `cb()` at index.js:195, so the `Transform` never feeds this decoder again. The model keeps what this means outside the decoder: no later message of that chunk is dispatched, the connection is wedged, and later chunks are neither decoded nor dispatched. The queueing of those later writes inside the stream is not modelled.
- Typed-array details at index.js:38: the `Uint32Array` view needs a 4-aligned `byteOffset` and reads in native byte order. The model reads bytes 0..3 little-endian. In practice the alignment matters: `b.slice(4 + L)` at index.js:45 leaves the tail at `byteOffset + 4 + L`. When `L % 4 != 0` and the tail holds at least 4 bytes, the `Uint32Array` view at index.js:38 throws a `RangeError`. So in the source, `Encode([[7], [8]])` fed as one chunk emits `[7]` and then throws. `OneChunkRoundTrip`, `UnsplitChunkingRoundTrip` and the other round trips hold for the model, and in the source only for payload lengths that keep every prefix 4-aligned.
- `Evaluation.Value`: a value is modelled only as null/undefined, other falsy, truthy with the strings its `name` and `message` convert to, or a promise. A non-string `name` whose string form is "SyntaxError" is treated as equal to it, though `===` would not be.
- `Session.BannerChunks`: a banner function that throws, and a truthy banner whose string form is empty, are not modelled. The banner's contents (pid, host, version) are left out.
- The published `'repl'` event (index.js:203) is left out.
- The handle's `close()` (index.js:178-180) calls `socket.close`, which the `Transform` socket does not define. This is foreign behaviour and is left out.

## Findings

| source | as written | input that shows it | evidently intended | confidence | as-written member | corrected member |
|---|---|---|---|---|---|---|
| index.js:27-36 | the merge takes chunks with `bs.pop()` from the back of the list, concatenates them in pop order and puts the result in front, so a length prefix split over several chunks is reassembled in reversed chunk order | the one-byte payload [7], framed as [1,0,0,0,7] and fed one byte per chunk, merges its prefix to [0,0,0,1], reads length 16777216 and is never emitted | the leading chunks are joined in stream order, so every chunking of a framed stream yields its payloads | not executed | FrameCodec.SplitPrefixOneByteAtATime | FrameCodec.InOrderAnyChunkingRoundTrip |
