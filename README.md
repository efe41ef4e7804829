# assistant-ui core helpers, modelled in Dafny

This project models three small pieces of the assistant-ui repository and
proves what each one promises.

- **The assistant encoder stream** (`AssistantEncoder`, `StreamChunk`,
  `StreamPart`). A per-part transform turns provider stream parts into
  canonical assistant-stream chunks. It keeps one piece of state: the set of
  tool-call ids that already have a `ToolCallBegin` chunk.
  - The first delta of a tool call is preceded by a begin chunk.
  - Empty text deltas are dropped.
  - `tool-call` and `response-metadata` parts emit nothing.
  - Every other known part is forwarded as exactly one chunk that carries its
    payload unchanged.
  - A part of an unknown type throws `Unhandled chunk type: <type>`.

  `Encoder` is the stream's state object and `Encoder.Transform` is its
  per-part method. `Step` is the same projection written as a function.
  `RunFrom`/`EncodeAll` fold `Step` over a whole stream, where a throw errors
  the stream for good. The lemmas about the fold state the stream-wide
  announcement discipline: every tool-call id gets exactly one begin, and that
  begin comes right before the first delta for the id.
- **Slicing a message history** (`SliceMessages`). `SliceMessagesUntil`
  keeps the messages up to the first one carrying the anchor id, plus the run
  of assistant messages right after it. No anchor gives the empty history. An
  anchor that no message carries is an error.
- **The codemod runner's pure helpers** (`CodemodTransform`).
  - `BuildCommand` builds the `npx jscodeshift` argument list from the
    options.
  - `ParseErrors` scrapes jscodeshift's output with two global regular
    expressions, `/ERR (.+) Transformation error/g` and
    `/SyntaxError: .+/g`. Each `lastIndex` cursor is modelled as JavaScript
    defines it (section 22.2.7.2 of ECMA-262): it moves to the end of a match
    and is reset to 0 when a match fails.
  - The two patterns are modelled concretely, as matchers anchored at a
    position. A JavaScript `.` here excludes `\n`, `\r`, U+2028 and U+2029.
    The greedy `(.+)` takes the longest capture on the line that is still
    followed by the suffix.
  - The generic layer (`Leftmost`, `RunExec`, `Markers`, `Pairing`, `Scan`)
    works over any anchored matcher.

Strings are `seq<char>`, and a `char` is one Unicode scalar value. Positions
(`Match.start`, `Match.end`, `lastIndex`) therefore count scalar values, not
JavaScript's UTF-16 code units. Payloads that the encoder never inspects are values of a type
parameter. These are source objects, annotation values, data, tool results,
errors, and step and finish metadata.

## Model

| member | source | states |
|---|---|---|
| AssistantEncoder.Step | packages/react/src/runtimes/edge/streams/assistantEncoderStream.ts:14-124 | Only an unknown part type is unhandled, and it reports that type. A known part emits at most two chunks. Only a tool-call delta can grow the announced set. A non-empty text delta becomes one TextDelta, and an empty one emits nothing. A delta with a new id emits a begin and then the delta, and adds the id. A delta with a known id emits only the delta. Tool-call and response-metadata parts emit nothing. Each other part is forwarded as one chunk of the matching type with its payload unchanged. |
| AssistantEncoder.Encoder.constructor | packages/react/src/runtimes/edge/streams/assistantEncoderStream.ts:9 | A new encoder has announced no tool call. |
| AssistantEncoder.Encoder.Transform | packages/react/src/runtimes/edge/streams/assistantEncoderStream.ts:14-124 | Transforming one part enqueues exactly the chunks `Step` gives and moves the announced set to its new set. An unknown part type fails with "Unhandled chunk type: " followed by the type, and leaves the set unchanged. |
| AssistantEncoder.Feed | packages/react/src/runtimes/edge/streams/assistantEncoderStream.ts:14-124 | Once the stream has errored, a further part changes nothing. Emitted chunks are only extended, by at most two per part. The announced set never shrinks. |
| AssistantEncoder.RunFrom | packages/react/src/runtimes/edge/streams/assistantEncoderStream.ts:9-124 | Over a sequence of parts, output is never retracted. The stream ends in error exactly when some part has an unknown type. Otherwise the announced set gains exactly the ids of the tool-call delta parts. |
| AssistantEncoder.RunFromAppend | packages/react/src/runtimes/edge/streams/assistantEncoderStream.ts:9-124 | The transform is incremental: feeding `a` and then `b` is the same as feeding `a + b`. |
| AssistantEncoder.EncodeAll | packages/react/src/runtimes/edge/streams/assistantEncoderStream.ts:9-124 | The stream started from a fresh encoder, whose announced set is empty. It ends in error exactly when some part has an unknown type. Otherwise its announced set is exactly the ids of the tool-call delta parts. `StreamAnnounced` and `OneBeginPerDeltaId` state the announcement discipline of this run. |
| AssistantEncoder.UnknownStopsStream | packages/react/src/runtimes/edge/streams/assistantEncoderStream.ts:119-122 | The first part of an unknown type leaves the stream with exactly the chunks and announced set it had before that part. The stream's error is "Unhandled chunk type: " followed by that part's type. |
| AssistantEncoder.UnhandledMessage | packages/react/src/runtimes/edge/streams/assistantEncoderStream.ts:121 | The error text for an unhandled type is exactly "Unhandled chunk type: " followed by the type. `Step` and `Encoder.Transform` use it for every unknown part. |
| AssistantEncoder.ChunkIdsAppend | packages/react/src/runtimes/edge/streams/assistantEncoderStream.ts:40-60 | The begin ids, delta ids and begin counts of a concatenation combine those of its two parts. |
| AssistantEncoder.BeginPairIds | packages/react/src/runtimes/edge/streams/assistantEncoderStream.ts:41-58 | The begin-and-delta pair for a new id holds one begin and one delta, both for that id. |
| AssistantEncoder.PrecedeAppendBegin | packages/react/src/runtimes/edge/streams/assistantEncoderStream.ts:41-58 | Appending a begin and its delta, for an id with no delta yet, keeps the order discipline. A begin stays immediately followed by its delta and ahead of every delta for its id, and every delta keeps an earlier begin. |
| AssistantEncoder.AnnouncedAppendBegin | packages/react/src/runtimes/edge/streams/assistantEncoderStream.ts:41-58 | The first delta for an id, emitted with its begin, keeps the announcement discipline and adds the id to the announced set. |
| AssistantEncoder.AnnouncedAppendDelta | packages/react/src/runtimes/edge/streams/assistantEncoderStream.ts:52-58 | A later delta for an announced id keeps the announcement discipline, with no new begin. |
| AssistantEncoder.AnnouncedAppendOther | packages/react/src/runtimes/edge/streams/assistantEncoderStream.ts:17-39 | Chunks that neither begin nor continue a tool call keep the announcement discipline. |
| AssistantEncoder.NoToolChunks | packages/react/src/runtimes/edge/streams/assistantEncoderStream.ts:62-118 | A run of chunks without any tool-call begin or delta contributes no begin ids, delta ids or begin counts. |
| AssistantEncoder.FeedAnnounced | packages/react/src/runtimes/edge/streams/assistantEncoderStream.ts:14-124 | Delivering any part keeps the announcement discipline between the emitted chunks and the announced set. |
| AssistantEncoder.StreamAnnounced | packages/react/src/runtimes/edge/streams/assistantEncoderStream.ts:9-124 | Over any stream, the ids with a begin and the ids with a delta are both exactly the announced set. Each announced id has exactly one begin, and no other id has one. A begin is immediately followed by a delta for its id and precedes every delta for that id. Every delta has its begin earlier. |
| AssistantEncoder.OneBeginPerDeltaId | packages/react/src/runtimes/edge/streams/assistantEncoderStream.ts:40-60 | In a stream of known parts, each id that occurs in a tool-call delta part gets exactly one ToolCallBegin chunk. No other id gets one. The announced set is exactly those ids. |
| SliceMessages.FindIndex | packages/react-ai-sdk/src/ui/utils/sliceMessagesUntil.tsx:9 | The result is -1 exactly when no message has the id. Otherwise it is the first index whose message has the id. |
| SliceMessages.SliceMessagesUntil | packages/react-ai-sdk/src/ui/utils/sliceMessagesUntil.tsx:3-20 | With no anchor id the result is empty. The call fails with the "Message not found" text exactly when no message carries the anchor id. Otherwise it returns a prefix of the messages that extends past the first anchor message. Every message after the anchor in that prefix is an assistant message, and the message right after the prefix, if any, is not one. |
| SliceMessages.NotFound | packages/react-ai-sdk/src/ui/utils/sliceMessagesUntil.tsx:12 | The error text thrown when no message carries the anchor id. `SliceMessagesUntil` fails with exactly this text in exactly that case. |
| CodemodTransform.SelectedIsFilter | packages/cli/src/lib/transform.ts:34-48 | The conditional pushes filter the flags. There are no more arguments than flags. Every argument comes from a flag that is on, every flag that is on contributes its argument, and no flag on means no argument. |
| CodemodTransform.SelectedFour | packages/cli/src/lib/transform.ts:34-48 | The four conditional pushes append the on arguments in the order dry, print, verbose, jscodeshift. |
| CodemodTransform.BaseCommand | packages/cli/src/lib/transform.ts:18-32 | The fixed part of the command has 13 elements: "npx", "jscodeshift", "-t", the codemod path, the target path, "--parser", "tsx", and six `--ignore-pattern=` globs. `BuildCommand` and `CommandShape` state that every command starts with it. |
| CodemodTransform.Flags | packages/cli/src/lib/transform.ts:34-48 | The four conditional pushes as (on, argument) pairs: "--dry", "--print" and "--verbose" are on with their options, and the jscodeshift string is on exactly when it is non-empty. Every argument that is on is non-empty. `SelectedIsFilter` and `SelectedFour` tie it to the command. |
| CodemodTransform.BuildCommand | packages/cli/src/lib/transform.ts:13-51 | The command is the fixed 13-element jscodeshift invocation, followed by the arguments of the options that are on, in source order. |
| CodemodTransform.CommandShape | packages/cli/src/lib/transform.ts:18-48 | The command has 13 elements plus one per truthy option, and starts with the fixed part. `--dry` comes right after the fixed part when dry is set, and `--print` comes there when only print is set. The jscodeshift string is last when it is non-empty. With no option set, the command is exactly the fixed part. |
| CodemodTransform.LineEnd | packages/cli/src/lib/transform.ts:61-62 | The end of the line is at or after the start and within the input, and it is at a line terminator or at the end of input. |
| CodemodTransform.LineEndIsFirst | packages/cli/src/lib/transform.ts:61-62 | No line terminator lies between the start and the end of the line. |
| CodemodTransform.LastSuffix | packages/cli/src/lib/transform.ts:61 | A found suffix position lies in the range the capture allows. |
| CodemodTransform.LastSuffixIsLast | packages/cli/src/lib/transform.ts:61 | The position found holds " Transformation error", and no later position on the line does. When none is found, no position in the range holds it. |
| CodemodTransform.MarkerAt | packages/cli/src/lib/transform.ts:61 | A marker match anchored at a position starts there and has room for "ERR ", a non-empty capture and the suffix, within the input. |
| CodemodTransform.MarkerAtSpec | packages/cli/src/lib/transform.ts:61 | A match is "ERR " followed by a capture and then " Transformation error", with no line terminator in between. The capture is the longest one the line allows, so no later suffix occurs on the line. If "ERR " occurs but no suffix follows it on its line, there is no match. |
| CodemodTransform.SyntaxErrorAt | packages/cli/src/lib/transform.ts:62 | A syntax-error match anchored at a position starts there and extends past "SyntaxError: " within the input. |
| CodemodTransform.SyntaxErrorAtSpec | packages/cli/src/lib/transform.ts:62 | A match exists exactly when "SyntaxError: " is followed by a non-terminator. The match text is the whole match, running to the next line terminator or to the end of input, with no terminator inside. |
| CodemodTransform.MarkerCaptureAt | packages/cli/src/lib/transform.ts:61-66 | The filename captured by a marker match is non-empty and lies on one line. |
| CodemodTransform.SyntaxCaptureAt | packages/cli/src/lib/transform.ts:62-69 | A syntax-error match text starts with "SyntaxError: ", has more after it, and lies on one line. |
| CodemodTransform.MarkerCaptureShape | packages/cli/src/lib/transform.ts:61-66 | Any filename read from some marker match in the output is non-empty and lies on one line. |
| CodemodTransform.SyntaxCaptureShape | packages/cli/src/lib/transform.ts:62-69 | Any summary read from some syntax-error match in the output starts with "SyntaxError: ", has more after it, and lies on one line. |
| CodemodTransform.MatchAt | packages/cli/src/lib/transform.ts:61-62 | Each pattern's match at a position starts there, ends after it within the input, and does not exist past the end. |
| CodemodTransform.Anchor | packages/cli/src/lib/transform.ts:61-62 | A pattern over an input is an anchored matcher for that input. |
| CodemodTransform.Leftmost | packages/cli/src/lib/transform.ts:65-67 | The match found for a starting position starts at or after it, and is the pattern's match at its own start. |
| CodemodTransform.LeftmostIsFirst | packages/cli/src/lib/transform.ts:65-67 | Nothing matches between the starting position and the match found. When nothing is found, nothing matches anywhere from the starting position to the end. |
| CodemodTransform.RunExec | packages/cli/src/lib/transform.ts:65-67 | `exec` on a global pattern moves `lastIndex` strictly forward, to the end of the match. A failed `exec` resets it to 0. |
| CodemodTransform.GlobalRegExp.constructor | packages/cli/src/lib/transform.ts:61-62 | A new regular expression object has its pattern and a `lastIndex` of 0. |
| CodemodTransform.GlobalRegExp.Exec | packages/cli/src/lib/transform.ts:65-67 | `exec` returns the leftmost match at or after the old `lastIndex`, and its new `lastIndex` is what `RunExec` gives. |
| CodemodTransform.Markers | packages/cli/src/lib/transform.ts:65 | The loop visits marker matches that start after the initial cursor, in increasing order and without overlap. |
| CodemodTransform.MarkersAreMatches | packages/cli/src/lib/transform.ts:65 | Each marker visited is the marker pattern's match at its start. |
| CodemodTransform.MarkersEmpty | packages/cli/src/lib/transform.ts:65 | No marker is visited exactly when the marker pattern matches nowhere from the cursor on. |
| CodemodTransform.InMarkerOrderFilenames | packages/cli/src/lib/transform.ts:66-70 | Entries in marker order take every filename from some marker's capture. |
| CodemodTransform.Pairing | packages/cli/src/lib/transform.ts:65-72 | There is at most one entry per marker. Every entry names the transform and takes its summary from a syntax-error match. The filenames follow the markers' captures in order. |
| CodemodTransform.ScanIsPairing | packages/cli/src/lib/transform.ts:65-72 | The loop with its two cursors produces exactly the pairing of the visited markers with the successive syntax-error scan. |
| CodemodTransform.PairingSources | packages/cli/src/lib/transform.ts:66-70 | Every entry's filename is captured by some marker match, and its summary is some syntax-error match. |
| CodemodTransform.ScrapedEntriesShape | packages/cli/src/lib/transform.ts:59-75 | Every scraped entry names the transform. Its filename is a non-empty piece of one line. Its summary is one line that starts with "SyntaxError: " and has text after it. |
| CodemodTransform.ScanOnce | packages/cli/src/lib/transform.ts:65-71 | One pass of the loop body is what `Scan` unfolds to once. It either ends the loop, when the remaining scan is empty, or advances the marker cursor and appends at most that pass's entry. |
| CodemodTransform.Scan | packages/cli/src/lib/transform.ts:65-72 | The loop with both cursors as a function. Every entry names the transform, and there are no more entries than markers left from the marker cursor. `ScanIsPairing` and `ScanOnce` tie it to `Pairing` and to one pass of the loop body. |
| CodemodTransform.ParseErrors | packages/cli/src/lib/transform.ts:59-75 | The errors returned pair the marker matches of the output, in order, with the successive syntax-error scan. A marker whose syntax-error scan fails yields no entry. |
| CodemodTransform.LineEndAt | packages/cli/src/lib/transform.ts:61-62 | A position that is a line terminator or the end of input, with no terminator before it from the start, is the end of the line. |
| CodemodTransform.NotOccursAt | packages/cli/src/lib/transform.ts:61-62 | A text of two or more characters does not occur where its first two characters are not. |
| CodemodTransform.MarkerLineAt | packages/cli/src/lib/transform.ts:61 | A line "ERR " + filename + " Transformation error", with a non-empty one-line filename, is a marker match whose capture is the filename. |
| CodemodTransform.LeftmostAt | packages/cli/src/lib/transform.ts:65-67 | When the first match from a position is at `k`, `exec` from that position finds the match at `k`. |
| CodemodTransform.MarkersFromNext | packages/cli/src/lib/transform.ts:65 | The marker loop from a cursor is the first match after it followed by the loop from the end of that match. |
| CodemodTransform.ThreeMarkers | packages/cli/src/lib/transform.ts:65 | The marker loop over an output of 96 characters with exactly three matches, at 0, 42 and 69, visits those three in order. |
| CodemodTransform.ExampleMarkers | packages/cli/src/lib/transform.ts:61-65 | In the example output `ExampleOutput` (markers for a, b and c, and a SyntaxError line between the first two), the marker loop visits the lines for a, b and c. |
| CodemodTransform.ExampleSyntaxAt | packages/cli/src/lib/transform.ts:62 | The example's second line "SyntaxError: x" is a syntax-error match. |
| CodemodTransform.ExampleNoSyntaxStart | packages/cli/src/lib/transform.ts:62 | No other position of the example starts a syntax-error match. |
| CodemodTransform.SummaryReused | packages/cli/src/lib/transform.ts:65-72 | Three markers against a syntax-error scan with a single match give two entries, for the first and third markers, both with that one summary. The second marker's scan fails and resets the cursor to 0, so the third marker rescans the same line. |
| CodemodTransform.ExampleSummaryReused | packages/cli/src/lib/transform.ts:59-75 | On the example output, `parseErrors` yields (a, "SyntaxError: x") and (c, "SyntaxError: x"). File c is paired with a summary that belongs to file a, and file b has no entry. |

## Left out

- The TransformStream and controller plumbing are not modelled. The stream is a left fold over the parts, and a throw makes the stream's state sticky as an error.
- The types of the payloads that are passed through are opaque. The `...rest` spread of step-finish and finish is one opaque value: every field but `type`.
- AssistantEncoder.OneBeginPerDeltaId: the toolName a begin carries is that of the first delta for its id. The model does not relate it to the names on later deltas, which the source ignores.
- TypeScript's `never` exhaustiveness check is not modelled. An unknown tag at run time is the `Unknown` part.
- The options field `printFiles` is the source's `print` option. It is renamed because `print` is a Dafny keyword.
- `transform` and its `execFileSync` subprocess in packages/cli/src/lib/transform.ts:77-103 are external I/O. So are its path resolution and debug logging.
- The model has no general regular-expression engine. Only the two patterns the scraper uses are modelled.
- CodemodTransform.ParseErrors: the syntax-error cursor is reset to 0 after a failed match. A later marker can then take an earlier SyntaxError line again, so filenames and summaries can drift apart. The model keeps this as written. `Pairing` states it, `ExampleSummaryReused` proves it on a concrete output, and no property claims that an entry's summary belongs to its file.
- Lone UTF-16 surrogates are not representable, because a Dafny `char` is a Unicode scalar value. Neither pattern tells a surrogate half from any other non-terminator. `.` matches both, and the tests for equality and emptiness do not depend on it. So captures, summaries and results are the same, and only the internal positions differ.
- SliceMessages.Message: a UI message is its id, its role, and an opaque body. The `ai` package's message type is not part of this model.
- SliceMessages.SliceMessagesUntil: JavaScript's `null` and `undefined` for the anchor are both `None`.
