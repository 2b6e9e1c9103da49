# observer: span-tracing engine, modelled in Dafny

`observer` records what a request does as a tree of timed spans. Each
execution context holds a stack of open spans. The stack starts with a root
span named `main`. Starting a span pushes it. Fields, log lines and results
go into the span on top. Ending a span closes it and attaches it as the last
item of the span below it. The logger backend renders the finished tree as
indented text. The generic `observe` wrapper brackets one fallible
computation in a frame.

The model has these modules:

- `Spans` (`spans.dfy`): the span record and the span operations the
  context calls.
- `SpanStack` (`span_stack.dfy`): one function per context operation saying
  what the stack becomes, plus lemmas about depth, locality and start/end
  matching.
- `Contexts` (`context.dfy`): the `Context` class. Its methods change
  `spanStack` in place by the same pop, change, push steps as the Rust code.
  Each method's `ensures` ties the new stack to the `SpanStack` function.
- `Elapsed` (`elapsed.dfy`): the duration text of the logger backend.
- `LoggerBackend` (`logger.dfy`): the builder flags, header decoration,
  `print_span`, `print_context` and `context_ended`. The output buffer is a
  sequence of `Piece`s, one per `push_str`. `PieceText` gives a piece's
  characters.
- `Observe` (`observe.dfy`): the `observe` wrapper over an abstract frame API
  that records its calls in a ghost trace.
- `Text` (`text.dfy`) and `Wrappers` (`wrappers.dfy`): decimal digits,
  padding, JSON string escaping, and `Option`.
- `Scenario` (`scenario.dfy`): a client that runs one nested request through
  the context and checks the resulting tree and its rendering.

Clock readings are natural numbers of nanoseconds supplied by the caller.
The same goes for the context's random key and the RFC 3339 text of its
creation time.

## Model

| member | source | states |
|---|---|---|
| `SpanStack.Initial` | observer/src/context.rs:24-31 | a new context's stack is exactly one span with id "main", no items, no result, error or success, not ended |
| `Contexts.Context.constructor` | observer/src/context.rs:24-31 | the context keeps the given id and key; its stack is `Initial` |
| `SpanStack.StartSpanOn` | observer/src/context.rs:37-39 | depth grows by one; every span below is unchanged; the new top has the given id and nothing recorded |
| `Contexts.Context.StartSpan` | observer/src/context.rs:37-39 | the stack becomes `StartSpanOn` of the old stack |
| `SpanStack.RenameTop` | observer/src/context.rs:42-48 | same depth; only the top span's id changes; an empty stack stays empty |
| `Contexts.Context.ObserveSpanId` | observer/src/context.rs:42-48 | pop, rename, push gives `RenameTop` of the old stack |
| `SpanStack.RecordFieldOnTop` | observer/src/context.rs:50-56 | same depth; spans below untouched; the top gains exactly one field item at the end, offset from the top's start; nothing else in the top changes; an empty stack stays empty |
| `Contexts.Context.ObserveSpanField` | observer/src/context.rs:50-56 | pop, add field, push gives `RecordFieldOnTop` of the old stack |
| `SpanStack.SetResultOnTop` | observer/src/context.rs:58-64 | same depth; only the top's result changes, to the given text; an empty stack stays empty |
| `Contexts.Context.ObserveSpanResult` | observer/src/context.rs:58-64 | pop, set result, push gives `SetResultOnTop` of the old stack |
| `SpanStack.LogOnTop` | observer/src/context.rs:66-72 | same depth; spans below untouched; the top gains exactly one log item at the end; an empty stack stays empty |
| `Contexts.Context.SpanLog` | observer/src/context.rs:66-72 | pop, add log, push gives `LogOnTop` of the old stack |
| `Spans.Close` | observer/src/context.rs:78 | the closed span has success exactly when there is no error, carries that error, is ended, and keeps its id, items and result |
| `SpanStack.EndSpanOn` | observer/src/context.rs:74-86 | depth at least 2: depth drops by one, spans below the parent are untouched, and the parent gains exactly one last item, the closed child, offset by the child's start; depth 1: the root is closed in place; empty: nothing happens |
| `Contexts.Context.EndSpan` | observer/src/context.rs:74-86 | two pops, close, push gives `EndSpanOn(old stack, err, now)`; `isCritical` does not occur in the result |
| `SpanStack.EndTop` | observer/src/context.rs:88-94 | same depth; only the top span is ended; an empty stack stays empty |
| `Contexts.Context.EndCtxFrame` | observer/src/context.rs:88-94 | pop, end, push gives `EndTop` of the old stack |
| `Contexts.Context.Finalise` | observer/src/context.rs:96-98 | the same effect as `end_ctx_frame` |
| `Spans.EndIdempotent` | observer/src/context.rs:78 | ending a span that is already ended changes nothing |
| `SpanStack.EndTopIdempotent` | observer/src/context.rs:88-98 | finalising twice leaves the stack that finalising once leaves |
| `SpanStack.StartThenEnd` | observer/src/context.rs:37-86 | a start followed by an end restores the depth, leaves the spans below the parent untouched, and gives the parent the closed new span as its last item |
| `SpanStack.ChildOffsetWithinParent` | observer/src/context.rs:75-85 | after an end, the closed child's offset in its parent is at most the parent's duration when the parent ends no earlier than the child started |
| `SpanStack.ChildOffsetBeyondParent` | observer/src/context.rs:75-85 | with clock readings out of order, a child's offset (100) exceeds its parent's duration (50) |
| `SpanStack.RunWithin` | observer/src/context.rs:37-86 | after a run of calls whose ends close only spans it opened, or spans still open from before, depth is the old depth plus starts minus ends, and the spans under those open ones are untouched |
| `SpanStack.MatchedKeepsDepth` | observer/src/context.rs:37-86 | a bracket-matched run of starts and ends, with any fields, logs, results or renames between them, leaves depth and every span below the top unchanged |
| `SpanStack.RunNonEmpty` | observer/src/context.rs:74-86 | no sequence of calls empties a non-empty stack, so the root is never lost |
| `SpanStack.LocalTouchesTopOnly` | observer/src/context.rs:42-72 | field, log, result and rename calls change only the top span |
| `SpanStack.RunAbove` | observer/src/context.rs:37-86 | calls whose ends never close a span below the part `x` of the stack leave everything under `x` untouched and act on `x` as if it were the whole stack |
| `SpanStack.WritesLandInChild` | observer/src/context.rs:37-86 | between a start and its matching end, with any nested spans, fields, logs, results or renames, everything recorded lands in the child exactly as if the child were alone on the stack; the parent then gains one item, the closed child, and the spans below the parent are untouched |
| `SpanStack.LocalChildAlone` | observer/src/context.rs:42-72 | with only field, log, result and rename calls in between, that child is the new span with those writes applied |
| `Elapsed.Fraction` | observer/src/backends/logger.rs:168-172 | the sub-second text is at least 5 characters and ends in `ns` below 1000 ns, `µs` below 1 ms, `ms` otherwise |
| `Elapsed.Render` | observer/src/backends/logger.rs:166-182 | the bucket table, parameterised by the microsecond padding width: every text ends in `s`, except from 1 h to under a day, where it ends in `m` |
| `Elapsed.Elapsed` | observer/src/backends/logger.rs:166-182 | `elapsed` as written (3-digit microsecond padding); the same last-character property; its buckets are stated by the lemmas below |
| `Elapsed.ElapsedOf` | observer/src/backends/logger.rs:111-115 | `elapsed` of a duration in nanoseconds, split into whole seconds and the sub-second rest; ends in `m` exactly for durations from 1 h to under a day |
| `Elapsed.ElapsedCorrected` | observer/src/backends/logger.rs:176 | `elapsed` with 6-digit microsecond padding (see Findings); the same last-character property |
| `Elapsed.CorrectionScope` | observer/src/backends/logger.rs:176 | the corrected text equals the text as written exactly outside the 1 to 4 s bucket, or when the microsecond count has 6 digits |
| `Elapsed.RoundHalfEven` | observer/src/backends/logger.rs:170-171 | the shown count is within half a unit of the true quotient |
| `Elapsed.SubSecondBuckets` | observer/src/backends/logger.rs:167-175 | with zero whole seconds the text is a count right-aligned to width 3 and then a unit: below 1000 ns the nanoseconds exactly with ns; below 1 ms a count of µs within half a microsecond of the duration; otherwise a count of ms within half a millisecond |
| `Elapsed.CorrectedShortSecondsReadBack` | observer/src/backends/logger.rs:176 | corrected, from 1 to 4 s the text reads back as a decimal number of seconds equal to the duration cut to whole microseconds (see Findings) |
| `Elapsed.SecondsShape` | observer/src/backends/logger.rs:177 | from 5 to 59 s the text is the whole seconds, a point, the milliseconds zero-padded to three digits, and "s" |
| `Elapsed.SecondsReadBack` | observer/src/backends/logger.rs:177 | from 5 to 59 s the text reads back as the duration cut to whole milliseconds |
| `Elapsed.MinutesBucket` | observer/src/backends/logger.rs:178 | from 1 min to just under 1 h: `<m>m <s>s` with s < 60 and 60m + s equal to the whole seconds |
| `Elapsed.HoursBucket` | observer/src/backends/logger.rs:179 | from 1 h to just under a day: `<h>h <m>m` with m < 60 and the seconds in [3600h + 60m, 3600h + 60m + 60) |
| `Elapsed.DaysBucket` | observer/src/backends/logger.rs:180 | a day or more: the whole seconds followed by `s` |
| `Elapsed.AsWrittenShortSecondsText` | observer/src/backends/logger.rs:176 | as written, 3 s and 123 µs prints as "3.123s" |
| `Elapsed.AsWrittenShortRead` | observer/src/backends/logger.rs:176 | as written, from 1 to 4 s, the text reads back as the whole seconds plus what the 3-digit-padded microsecond count reads as after a decimal point |
| `Elapsed.AsWrittenShortSecondsReadBack` | observer/src/backends/logger.rs:176 | as written, from 1 to 4 s, the text reads back as the whole seconds plus 1000 times a microsecond count below 1000, 100 times a 4-digit count, 10 times a 5-digit count, and a 6-digit count as it is |
| `Elapsed.AsWrittenShortSecondsWrong` | observer/src/backends/logger.rs:176 | from 1 to 4 s the text as written reads back as the duration cut to whole microseconds exactly when that count is 0 or has 6 digits; the corrected text always does |
| `Elapsed.CorrectedShortSecondsText` | observer/src/backends/logger.rs:176 | corrected, the same duration prints as "3.000123s" |
| `Elapsed.BoundaryNanos` | observer/src/backends/logger.rs:169 | 999 ns prints as "999ns" |
| `Elapsed.BoundaryMicros` | observer/src/backends/logger.rs:170 | 999 999 ns prints as "1000µs" |
| `Elapsed.BoundaryMillis` | observer/src/backends/logger.rs:171 | 1 000 000 ns prints as "  1ms", padded to width 3 |
| `Elapsed.BoundarySeconds` | observer/src/backends/logger.rs:176 | 3 s prints as "3.000s" as written and "3.000000s" corrected |
| `Elapsed.BoundaryMinutes` | observer/src/backends/logger.rs:178 | 90 s prints as "1m 30s" |
| `Elapsed.BoundaryHours` | observer/src/backends/logger.rs:179 | 7200 s prints as "2h 0m" |
| `Elapsed.BoundaryDays` | observer/src/backends/logger.rs:180 | 90 000 s prints as "90000s" |
| `Text.ZeroPaddedDec` | observer/src/backends/logger.rs:176-177 | zero padding (`{:0w}`) of a number below 10^w has exactly w digits and keeps its value |
| `Text.PadLeft` | observer/src/backends/logger.rs:169-171 | right alignment has the larger of the width and the text's length |
| `Text.PadLeftShape` | observer/src/backends/logger.rs:169-171 | right alignment ends with the text, and every position before it holds the fill character |
| `Text.DecDigits` | observer/src/backends/logger.rs:176-180 | a number's decimal text is all digits and starts with 0 only for the number 0 |
| `Text.DecRoundTrip` | observer/src/backends/logger.rs:176-180 | the decimal digits of a number read back as that number |
| `LoggerBackend.Builder` | observer/src/backends/logger.rs:12-18 | no path, stdout off, stderr off |
| `LoggerBackend.WithStdout` | observer/src/backends/logger.rs:20-23 | stdout on, the other two fields unchanged |
| `LoggerBackend.WithStderr` | observer/src/backends/logger.rs:25-28 | stderr on, the other two fields unchanged |
| `LoggerBackend.WithPath` | observer/src/backends/logger.rs:30-33 | path set to the given one, the flags unchanged |
| `LoggerBackend.PieceText` | observer/src/backends/logger.rs:82-161 | the text of each `push_str`; it ends a line exactly for every piece except the context line and a sub-span's lead, after which the header follows on the same line |
| `LoggerBackend.PieceTextIndent` | observer/src/backends/logger.rs:114-161 | a piece's text starts with its `Indent` in spaces, and past them only a header can start with a space |
| `LoggerBackend.HeaderStyle` | observer/src/backends/logger.rs:96-109 | slow exactly when the duration exceeds 1 ms; underline exactly when success is Some(false); bold exactly when it is None; plain exactly when it is Some(true) |
| `LoggerBackend.FieldTextVersusJson` | observer/src/backends/logger.rs:132-136 | a field prints as its JSON text exactly when it is not a string; a string prints as its raw characters |
| `LoggerBackend.PrintSpan` | observer/src/backends/logger.rs:92-164 | appends exactly `SpanPieces(span, space)` to the buffer: the header, then each item in recorded order, nested frames one level (+4) deeper, then result and error lines |
| `LoggerBackend.SpanLayout` | observer/src/backends/logger.rs:147-163 | the header comes first; an error line is last and a result line comes just before it, both at indentation space + 2; a span with nothing recorded prints only its header |
| `LoggerBackend.SpanPiecesShift` | observer/src/backends/logger.rs:118-162 | rendering at space + k is the rendering at space with every indented piece moved k columns, so each nesting level adds exactly 4 |
| `LoggerBackend.ItemsPiecesShift` | observer/src/backends/logger.rs:114-145 | the same for the item lines of a span |
| `LoggerBackend.IndentAtLeast` | observer/src/backends/logger.rs:118-162 | every line of a span rendered at `space` after its header is indented at least `space`; the number of pieces does not depend on `space` |
| `LoggerBackend.HeadersArePreorder` | observer/src/backends/logger.rs:114-145 | the headers printed for a span are the ids of its tree, each span before its children, children in recorded order |
| `LoggerBackend.ItemsHeadersArePreorder` | observer/src/backends/logger.rs:114-145 | the headers printed for a span's items are the trees of its child frames, in item order |
| `LoggerBackend.PrintContext` | observer/src/backends/logger.rs:79-90 | the buffer is the context line with id and creation time, then every stack span in stack order at indentation 0 |
| `LoggerBackend.StackHeaders` | observer/src/backends/logger.rs:86-88 | the headers of a printed stack are the stack's trees in order |
| `LoggerBackend.ContextEnded` | observer/src/backends/logger.rs:58-76 | the log is empty exactly when neither stdout nor a path is set, and otherwise the rendered context; the file gets it exactly when a path is set, stdout exactly when stdout is on; stderr plays no part |
| `Scenario.FailedSpanShown` | observer/src/backends/logger.rs:96-163 | in the nested request, the failed outer span is shown slow and underlined with its error line last, and the nested span is shown plain with only its result line |
| `Observe.Report` | src/observe.rs:12-24 | success is true exactly when the closure returned Ok; the result text is the value's result string on Ok and the error's debug text on Err |
| `Observe.FrameContext.StartFrameCall` | src/observe.rs:9 | records one start-frame call and returns the next handle number, different from every handle started before; keeps the handles in increasing order and below the counter (`Valid`) |
| `Observe.FrameContext.EndFrameCall` | src/observe.rs:16 | records one end-frame call with its arguments; the handle counter and `Valid` are kept |
| `Observe.Observe` | src/observe.rs:4-26 | returns the closure's outcome unchanged; the context sees exactly one start for the table name, then exactly one end for that same frame, with `critical` passed unchanged and the result and success of `Report`; the handle counter advances by one and `Valid` is kept |
| `Observe.ObserveTwice` | src/observe.rs:9 | two observes in a row open two frames with different handles |

## Findings

| source | as written | input that shows it | evidently intended | confidence | as-written member | corrected member |
|---|---|---|---|---|---|---|
| observer/src/backends/logger.rs:176 | for 1 to 4 whole seconds the microsecond count is printed after the decimal point, zero-padded to only 3 digits, although it has up to 6 | 3 s and 123 µs (secs 3, nanos 123000) prints "3.123s", which reads as 3.123 s; the duration is 3.000123 s | a fraction that reads back as the duration: the microsecond count padded to 6 digits ("3.000123s"), or else milliseconds padded to 3 as from 5 s on ("3.000s") | medium, not executed | `Elapsed.AsWrittenShortSecondsWrong` | `Elapsed.CorrectedShortSecondsReadBack` |

The misreading covers every count from 1 to 99 999 µs: 1234 µs after 3 s
prints as "3.1234s" (`Elapsed.AsWrittenShortSecondsReadBack`). A count of 0
or of 6 digits prints right. `Elapsed` is `elapsed` as written, and the
logger model renders every duration and offset with it, so the rendered
text is the program's. `ElapsedCorrected` pads to 6 digits; it is proved to
read back right, and `Elapsed.CorrectionScope` states exactly where it
differs from `Elapsed`. No proof covers the millisecond alternative.

Behaviour of the code worth noting:

- One millisecond prints as `"  1ms"`: the count is right-aligned to width
  3 (`Elapsed.BoundaryMillis`).
- 3 s prints as `"3.000s"` (`Elapsed.BoundarySeconds`).
- `src/observe.rs` calls `start_frame` and `end_frame` on the context, and
  `observer/src/context.rs` does not define them. The model treats them as
  an abstract frame API.

## Left out

- `Spans.SetSuccess`, `Spans.SetErr`: modelled as plain assignments, so on
  a span that is already ended a later `end_span` still overwrites its
  success and error (as on the root after `finalise`). Only the duration is
  write-once in the model.
- `Span`'s own code is not part of this model. It is modelled from how the
  context and the backend use it. `end()` fixes the duration once, and a
  second `end()` changes nothing. Before `end()` the duration reads as 0.
- Clock readings and offsets are natural nanoseconds. An instant before the
  span's start counts as offset 0. The real conversion of a negative
  `chrono` difference is not modelled.
- Clock order: the readings the caller passes are not required to be
  non-decreasing. So a child's offset can exceed its parent's duration
  (`SpanStack.ChildOffsetBeyondParent`). The bound "offset at most the
  parent's duration" is proved only for one end, given a parent end no
  earlier than the child's start (`SpanStack.ChildOffsetWithinParent`). It
  is not proved over whole runs of calls.
- `RoundHalfEven`: the digits of the µs and ms buckets are the quotient
  rounded to nearest, with ties to even. This is what printing the exact
  `f64` quotient with no decimals gives in current Rust. Other `f64`
  formatting behaviour is not modelled.
- Terminal colours: the `colored` styling is the abstract `Style` tag on a
  header piece. `PieceText` shows the id without styling.
- JSON: serialisation of results (`set_result`) and of floating-point,
  array and object field values is done by serde. The model takes the
  resulting text as given (`JOther`). Integers, booleans and null are
  rendered by the model.
- `Logger::build` (log4rs file-appender setup and its panics) and the
  writes inside `handle_log` are I/O. `ContextEnded` returns the text and
  which outputs would receive it.
- The `thread_local!` `CONTEXT`, `RefCell` borrow failures and concurrency
  are not modelled.
- `Context::id()` and `get_key()` are the constant fields `id` and `key`.
  `datetime_to_millis` and `to_rfc3339` are serialisation done elsewhere;
  the RFC 3339 text is a parameter.
- The uuid key and `Utc::now()` are parameters. `Context::new` reads the
  clock twice, once for the context's `created_on` and once inside
  `Span::new("main")`; the constructor takes one instant for both.
- Backend registration and dispatch are not part of this model.
- `Observe.Observe`: the closure is modelled by the outcome it returns.
  Calls the closure itself makes on the context while it runs are not
  modelled. What `start_frame` and `end_frame` do inside the context is not
  modelled either, except the handle `start_frame` returns. That handle,
  an unseen `Frame` value in the source, is a counter here. Its freshness
  (`StartFrameCall`, `ObserveTwice`) is a property assumed of the frame
  API, not one taken from code this model covers.
- `observer/src/pg.rs` (the Postgres wrapper) and
  `examples/observe_usage/src/policy.rs` (a usage example) are not part of
  this model.
