# ChatFleet web client: the chat push-stream and its helpers, in Dafny

This project models the logic of the ChatFleet web client that can be
stated without a browser. It covers:

- **The chat push-stream** (`lib/chat/stream.ts`):
  - `parseSSE` cuts the response text into blocks at every `"\n\n"`, using a carry-over buffer across chunks;
  - `decodeEvent` reads the `event:` and `data:` fields of one block;
  - `streamChat` dispatches each decoded block on its name into the closed `ChatStreamEvent` union.
- **The assistant page's chat adapter** (`app/assistant.tsx`):
  - `formatWithCitations` builds the answer text;
  - `run` performs the pre-flight checks, maps the thread into a chat request, then folds the stream's events into the answers it yields.
- **The Zod schemas** (`schemas/index.ts`) as predicates and decoders, with round-trip lemmas.
- **The translation hook** (`hooks/use-translation.ts`): `{{key}}` substitution, and the lookup chain locale → English → key.
- **The error classes** (`lib/errors.ts`).
- **The JSON request helper** (`lib/http.ts`):
  - the URL it builds;
  - the request init it sends;
  - the ordered chain of checks that turns a response into a value or an error.

Modules, one file each:

| file | module | contents |
|---|---|---|
| `wrappers.dfy` | `Wrappers` | `Option` |
| `text.dfy` | `Text` | the JavaScript string operations the client relies on: `trim`, `indexOf`, `includes`, `startsWith`, clamped `slice`, `split`/`join` on a string, `split(/\r?\n/)`, `replaceAll` with its `$` patterns, UTF-16 `length`, decimal number text |
| `json.dfy` | `Json` | parsed JSON values, property access, truthiness, `String(v)`, and `Host`: the primitives taken as given (`JSON.parse`, Zod's `uuid()` and `email()`, number-to-text) |
| `schemas.dfy` | `Schemas` | the schemas |
| `errors.dfy` | `Errors` | `class ApiError`; `AuthError` is its second constructor |
| `http.dfy` | `Http` | `buildUrl`, `parseError`, `request` |
| `translation.dfy` | `Translation` | `formatMessage`, the lookup chain |
| `sse_framing.dfy` | `SseFraming` | `parseSSE` |
| `sse_fields.dfy` | `SseFields` | `decodeEvent` |
| `stream.dfy` | `ChatStream` | the event union, the payload schemas, the dispatch, `streamChat` |
| `assistant.dfy` | `Assistant` | `formatWithCitations`, the payload mapping, the accumulator, `run` |

How the model is shaped:

- **Loops are methods.** The loops of the source are Dafny methods with loop invariants, each proved against a specification function:
  - `ParseSse` and `CutBuffer` against `SseBlocks`;
  - `DecodeEvent` and `ReadLine` against `DecodeBlockAsWritten`, the source's line step as it stands;
  - `StreamChat` against `Events`;
  - `Answer` and `Run` against `ConsumeAll`.
- **Properties are lemmas** about those specification functions.
- **`fetch` is an input.** It is replaced by the response it resolves to.
- **The stream is a sequence of text chunks.** Each chunk is what `TextDecoder` would give.

## Model

| member | source | states |
|---|---|---|
| SseFraming.ParseSse | lib/chat/stream.ts:61-88 | The blocks yielded for a body delivered as any sequence of chunks are `SseBlocks` of the chunks' concatenated text. So where the chunk boundaries fall does not matter. |
| SseFraming.CutBuffer | lib/chat/stream.ts:76-83 | The inner read loop yields the trimmed non-blank pieces before every `"\n\n"` of the buffer, in order. It leaves in the buffer exactly the text after the last `"\n\n"`. |
| SseFraming.CutAppend | lib/chat/stream.ts:64-83 | Cutting a buffer extended by a chunk is the same as cutting the buffer, then cutting its leftover extended by the chunk. This is chunk-boundary independence. |
| SseFraming.CutShape | lib/chat/stream.ts:76-83 | No cut piece and no leftover buffer contains `"\n\n"`. |
| SseFraming.NoBreakIsAbsence | lib/chat/stream.ts:77 | A text has no `'\n'` directly followed by another `'\n'` exactly when `indexOf("\n\n")` is -1. |
| SseFraming.BlocksShape | lib/chat/stream.ts:78-82 | Every block yielded inside the read loop is non-empty, trimmed and free of `"\n\n"`. |
| SseFraming.BlocksAppend | lib/chat/stream.ts:77-83 | Blocks come out in the order of their pieces. |
| SseFraming.SseBlocksShape | lib/chat/stream.ts:68-83 | Every block holds non-blank text and no `"\n\n"`. All blocks but the last are trimmed. Only the end-of-stream leftover, yielded once and untrimmed, may carry outer white space. |
| SseFields.DecodeEvent | lib/chat/stream.ts:23-59 | The method's loop over the lines computes `DecodeBlockAsWritten(raw)`: the fold of the as-written line step over `split(/\r?\n/)`, then `Finish`. |
| SseFields.ReadLine | lib/chat/stream.ts:29-52 | One turn of the line loop is `LineStepAsWritten`. An empty line is skipped. Then the three branches are tried in the source's order, and the second takes every line holding both fields, with no test of their order. |
| SseFields.LineStepAsWritten | lib/chat/stream.ts:29-52 | One line changes the name only when it mentions `event:`. It appends at most one data line, only when it mentions `data:`, and leaves the earlier data lines as they are. |
| SseFields.ReadLeadingEventLine | lib/chat/stream.ts:31-36 | On a line opening with `event:` that holds `data:`, the name and the data are read from the first two parts of `split("data:")`. |
| SseFields.ReadCombinedLine | lib/chat/stream.ts:38-46 | On a line holding both fields, the name is the trimmed slice between the two `indexOf` results. The data is the trimmed text after `data:`. |
| SseFields.Finish | lib/chat/stream.ts:55-58 | The data is present exactly when some data line was read, and is then the data lines joined by `"\n"`. The name is the last one set. |
| SseFields.OrdinaryLineFields | lib/chat/stream.ts:48-52 | On a line not holding both fields, `event:` sets the trimmed name. `data:` appends the trimmed remainder and leaves the name. Any other line changes nothing. |
| SseFields.OrdinaryData | lib/chat/stream.ts:24-53 | For a block of such lines, the data lines are the trimmed remainders of the `data:` lines, in order. Empty lines and other lines add nothing. |
| SseFields.OrdinaryEvent | lib/chat/stream.ts:48-49 | The name is that of the last `event:` line: a later one overrides an earlier one. There is no name exactly when there is no `event:` line. |
| SseFields.OrdinaryBlock | lib/chat/stream.ts:24-58 | The data of such a block is its data values joined by `"\n"`. It is absent when there are none. |
| SseFields.LeadingEventFields | lib/chat/stream.ts:31-35 | A line opening with `event:` that holds `data:` gets these fields: the name is the trimmed text before the first `data:` (which lies after the prefix), and the data is the trimmed text between the first and second `data:`, or up to the end. |
| SseFields.DataLineKeepsEvent | lib/chat/stream.ts:38-52 | In the corrected reading, a line opening with `data:` appends its trimmed remainder and keeps the event name, whatever text it mentions. |
| SseFields.AsWrittenBlanksEvent | lib/chat/stream.ts:38-46 | As written, a line opening with `data:` whose text mentions `event:` sets the name to `""`. |
| SseFields.AsWrittenAgrees | lib/chat/stream.ts:31-52 | The as-written and corrected line steps agree on every line except those where `data:` comes before `event:`. |
| SseFields.FoldsAgree | lib/chat/stream.ts:24-53 | Over lines none of which has `data:` before `event:`, the as-written and corrected folds give the same fields. |
| SseFields.DecodeAgrees | lib/chat/stream.ts:23-59 | On such a block, `decodeEvent` as written and as meant return the same name and data. |
| SseFields.DataMentioningEvent | lib/chat/stream.ts:38-46 | Consider an `event:` line followed by a `data:` line mentioning `event:`. As written, the name becomes `""`. As meant, the name survives. |
| ChatStream.Payload | lib/chat/stream.ts:7-11 | The payload schemas accept only an event of the name asked for. Each accepted event satisfies its schema, and its encoding covers the payload, which may have extra keys. An error event keeps the whole payload. |
| ChatStream.PayloadRoundTrip | lib/chat/stream.ts:7-11 | Every valid event other than `ping` is decoded back from its own encoding. |
| ChatStream.Dispatch | lib/chat/stream.ts:121-167 | A missing, empty or unknown name is skipped. `ping` is emitted whatever its data. Other names are skipped without data. Data that is not JSON fails, and this happens exactly for a known non-ping name with non-empty data. For such a name with data that parses, the event its schema reads is emitted, and a payload its schema refuses is skipped. An emitted event has the block's name and satisfies its schema. |
| ChatStream.ShapeFailureSkips | lib/chat/stream.ts:128-129 | A payload that parses as JSON but fails its schema is skipped, and the stream goes on. |
| ChatStream.Events | lib/chat/stream.ts:121-167 | Each block yields at most one event, and every event yielded satisfies its schema. |
| ChatStream.EventsAppend | lib/chat/stream.ts:121-167 | Events come out in block order. The events of `a + b` are those of `a` followed by those of `b`, unless `a` ended the stream. |
| ChatStream.EventsOfOne | lib/chat/stream.ts:121-167 | A single block yields at most its own dispatch. |
| ChatStream.EventsStopAtFailure | lib/chat/stream.ts:128 | After a block whose data is not JSON, later blocks yield nothing. |
| ChatStream.StreamChat | lib/chat/stream.ts:106-168 | A failed or bodiless response throws an `ApiError` with the status. Its message is the body text, or "Chat stream failed with status N" when the body is empty. Otherwise the events are `Events` of the parsed blocks, with a SyntaxError thrown after them when a payload was not JSON. |
| ChatStream.DispatchAll | lib/chat/stream.ts:121-167 | The loop over the blocks yields exactly the events of `Events`, in block order, and reports whether a payload that was not JSON stopped it. |
| Assistant.Entries | app/assistant.tsx:68-76 | There are exactly as many entries as citations. |
| Assistant.EntryText | app/assistant.tsx:68-76 | With a template of the shape `{{position}}. {{filename}} · pages {{pages}}`, entry i reads: i + 1, a full stop, the file name, " · pages ", then the pages joined by ", ". This holds for any file name without a brace or `$`. |
| Assistant.EntryExample | app/assistant.tsx:68-76 | A citation of `a.pdf`, pages 1 and 2, listed first, reads "1. a.pdf · pages 1, 2". |
| Assistant.FormatWithCitations | app/assistant.tsx:57-81 | Every answer is trimmed. It is `""` exactly when the trimmed body is empty and there are no citations. |
| Assistant.FormattedWithoutCitations | app/assistant.tsx:64-66 | Without citations, the answer is the trimmed body. |
| Assistant.FormattedWithSources | app/assistant.tsx:68-78 | With citations and a non-blank body, the answer is the trimmed body, a blank line, the label with its colon, then the entries joined by `"\n"`. Only trailing white space is lost. |
| Assistant.BuildPayload | app/assistant.tsx:93-103 | The request names the selected RAG. It carries one message per thread message, in order, each with the same role. Each content is the message's text parts, in order, joined by a single space, then trimmed. |
| Assistant.PayloadValidIff | schemas/index.ts:237-241 | The request passes the ChatRequest schema (`ValidChatRequest`) exactly when the selection is a RAG slug, the thread has at least one message, and every role is system, user or assistant. The content may be any string. |
| Assistant.SingleTextMessage | app/assistant.tsx:95-101 | In the payload, a message with a single text part carries that text trimmed. A message without text parts carries "". |
| Assistant.PartsJoinedBySpace | app/assistant.tsx:97-100 | In the payload, two text parts with another part between them are sent as the first, a space, and the second, trimmed. |
| Assistant.TextsAppend | app/assistant.tsx:97-99 | The text parts are taken in order, and other parts leave no trace. |
| Assistant.QuietAccumulates | app/assistant.tsx:111-119 | Until a `done` or `error` event, the text is all deltas so far in order. The pending citations are those of the last `citations` event. Nothing is yielded. |
| Assistant.NoDoneNoAnswer | app/assistant.tsx:105-143 | A stream without a `done` event yields nothing. |
| Assistant.ConsumeAll | app/assistant.tsx:105-143 | Every answer yielded is non-empty and trimmed, and there is at most one per `done` event. |
| Assistant.DoneYields | app/assistant.tsx:120-131 | A `done` event yields one answer exactly when the text or the citations hold something. |
| Assistant.ResetAfterDone | app/assistant.tsx:132-133 | After a `done` event, the text and the citations are empty again. |
| Assistant.ErrorEventMessage | app/assistant.tsx:137-139 | A string `error.message` in the envelope is the text thrown. Any other non-null message is thrown as its `String` form. A missing or non-object `error`, or a missing or null `message`, throws "Chat stream error". |
| Assistant.Consume | app/assistant.tsx:111-142 | A chunk appends its delta. A citations event replaces the pending list. A done event empties both and yields at most one answer after the earlier ones. An error event stops the turn with `ErrorEventMessage`. Nothing else changes any field. |
| Assistant.ErrorEventThrown | app/assistant.tsx:136-139 | The first `error` event throws its envelope's message. The turn is the one before it, stopped with that message, whatever events follow. |
| Assistant.ErrorStops | app/assistant.tsx:136-139 | After an `error` event, later events change nothing. |
| Assistant.Answer | app/assistant.tsx:105-143 | The loop over the events yields `ConsumeAll(events).yielded` and stops with the error event's message, if any. |
| Assistant.Run | app/assistant.tsx:85-143 | A falsy token throws "Not authenticated". Otherwise an empty selection throws "No RAG selected". Both happen before any request. Otherwise the payload is `BuildPayload`. A failed or bodiless response throws the stream's `ApiError` unchanged: its name is "ApiError", its status is the response's, and its message is the body text, or "Chat stream failed with status N" when the body is empty. Otherwise the answers are those of the stream's events. An error event's message is thrown first, then the stream's own failure. |
| Schemas.ObjectIdCharacterization | schemas/index.ts:5-7 | An ObjectId is exactly 24 hexadecimal characters of either case. |
| Schemas.HexRunWhole | schemas/index.ts:7 | The hexadecimal run covers the whole string exactly when every character is hexadecimal. |
| Schemas.SlugPatternIsHyphenatedWords | schemas/index.ts:19 | The slug pattern accepts exactly lower-case letters and digits in non-empty groups joined by single hyphens. |
| Schemas.RagSlugCharacterization | schemas/index.ts:15-19 | A RAG slug has 1 to 80 characters, has no leading, trailing or doubled hyphen, and otherwise uses only `[a-z0-9]`. |
| Schemas.IsoDateSplits | schemas/index.ts:9-13 | Every accepted timestamp is a date-time, then a fraction of 1 to 6 digits or none, then a zone. |
| Schemas.IsoDateComposes | schemas/index.ts:9-13 | Every date-time followed by a fraction and a zone is accepted. |
| Schemas.DecodePages | schemas/index.ts:247 | The accepted pages are at least one, each an integer of at least 1. |
| Schemas.DecodeCitation | schemas/index.ts:244-250 | An accepted citation is valid: a UUID id, at least one page, pages of 1 or more, and a snippet of at most 1000 UTF-16 units. Its encoding covers the input. |
| Schemas.CitationRoundTrip | schemas/index.ts:244-250 | A valid citation decodes back from its encoding. |
| Schemas.DecodeCitations | lib/chat/stream.ts:9 | Every element of an accepted citation list is a valid citation, covered by its input element. |
| Schemas.IntAtLeast | schemas/index.ts:253 | An accepted number is an integer at or above the bound. |
| Schemas.DecodeUsage | schemas/index.ts:252-255 | Accepted token counts are integers of at least 0. |
| Schemas.UsageRoundTrip | schemas/index.ts:252-255 | A valid usage decodes back from its encoding. |
| Schemas.ValidRagCreateRequest | schemas/index.ts:99-103 | A valid request has a name of 1 to 120 and a description of 1 to 500 characters. |
| Schemas.UpsertNamesExactlyOne | schemas/index.ts:194-210 | A valid upsert names exactly one user: by id, or by a non-empty e-mail with no id. |
| Schemas.JobTypeOf | schemas/index.ts:267 | It accepts exactly the four job type names, and gives back the name it read. |
| Schemas.JobStateOf | schemas/index.ts:268 | It accepts exactly queued, running, done and error. |
| Schemas.JobPhaseOf | schemas/index.ts:269 | It accepts exactly the five phase names. |
| Schemas.DecodeTotals | schemas/index.ts:271-276 | Accepted totals are four integer counts of at least 0. |
| Schemas.TotalsRoundTrip | schemas/index.ts:271-276 | Valid totals decode back from their encoding. |
| Schemas.JobStatusShape | schemas/index.ts:284-296 | An accepted job status has one of the four states and a progress in [0, 1]. A given phase is one of the five phases, and given totals hold four non-negative integer counts. |
| Schemas.DecodeJobStatus | schemas/index.ts:284-296 | Every accepted job status is valid: UUID ids, a progress in [0, 1], ISO timestamps when given, and non-negative totals when given. |
| Schemas.JobStatusDecodeSound | schemas/index.ts:284-296 | A decoded job status is valid, and its encoding covers the input, which may have extra keys. |
| Schemas.JobStatusRoundTrip | schemas/index.ts:284-296 | A valid job status decodes back from its encoding. |
| Translation.FormatMessage | hooks/use-translation.ts:10-16 | Without vars, the message is unchanged. |
| Translation.ApplyVarsSnoc | hooks/use-translation.ts:12-15 | The keys are substituted one after another, each into the previous result. |
| Translation.ApplyVarsUntouched | hooks/use-translation.ts:12-15 | A message holding none of the supplied placeholders comes back unchanged. |
| Translation.FormatOneVar | hooks/use-translation.ts:12-15 | A value without `$` replaces every `{{key}}`. The result is the message split at the placeholder, then joined with the value. |
| Translation.ReplaceHole | hooks/use-translation.ts:13-14 | Take a template of plain pieces, meaning text without braces or `$`, and placeholders of plain keys. Substituting one plain key fills exactly that key's placeholders. Text and other keys' placeholders are left as they are. |
| Translation.FormatFills | hooks/use-translation.ts:10-16 | For such a template and plain values, `formatMessage` gives the template with the supplied keys' placeholders filled. |
| Translation.FillAllKeeps | hooks/use-translation.ts:12-15 | The text of the template and the placeholders of keys not supplied come through the substitutions unchanged. |
| Translation.Lookup | hooks/use-translation.ts:21-25 | The result is the current locale's message, else the English one, else the key. |
| Translation.UnknownLocaleIsEnglish | hooks/use-translation.ts:22 | An unknown locale reads exactly as English. |
| Translation.LookupSource | hooks/use-translation.ts:24 | The message comes from one of the two tables, or is the key. |
| Translation.Translate | hooks/use-translation.ts:21-26 | Without vars, `t(key)` is the looked-up message. |
| Errors.ApiError.constructor | lib/errors.ts:9-21 | The name is "ApiError", the message is kept, and the status defaults to 500. A truthy envelope copies `error.code`, `corr_id` and itself. Otherwise all three stay undefined. |
| Errors.ApiError.Auth | lib/errors.ts:24-29 | The name is "AuthError", with defaults "Authentication required" and 401, and never an envelope. |
| Http.BuildUrl | lib/http.ts:25-30 | The URL is the base, then the path with a `/` put in front only when it has none. It is one character longer than base and path exactly when that `/` is added. |
| Http.BuildUrlLeadingSlash | lib/http.ts:25-30 | `x` and `/x` give the same URL exactly when `x` has no leading `/`. |
| Http.ParseError | lib/http.ts:32-39 | It returns an envelope exactly when the body is JSON with a truthy `error`. A body that is not JSON gives none, without throwing. |
| Http.FailureMessage | lib/http.ts:72-76 | For a carried envelope, a string `error.message` is the message, and any other non-null one is its `String` form. No envelope, no `message`, or a null one gives "Request failed with status N". |
| Http.BuildInit | lib/http.ts:47-63 | `Content-Type` and `Accept` default to `application/json`, and the caller's headers override them. `Authorization` is set only for a truthy token and wins. A FormData body has no `Content-Type`. No other header appears. |
| Http.Request | lib/http.ts:41-107 | The checks run in this order: status 401 throws AuthError; another failure throws an ApiError with the envelope's message or "Request failed with status N"; 204 or `Content-Length: 0` returns undefined; a non-JSON content type throws; a body that is not JSON throws a SyntaxError; a schema failure throws "Response validation failed"; otherwise the value is returned. |

## Left out

- `fetch`, `AbortSignal` cancellation, `reader.releaseLock()` and `TextDecoder`'s byte-level UTF-8 decoding are I/O. The response is an input record, and the body is a sequence of already decoded text chunks.
- The trailing `setTimeout` wait of `streamChat` and its retry-header read are left out. They are timing only, and the header read does nothing.
- Generator laziness is not modelled: the events of the stream are computed, then consumed by `run`. A consumer that stops early is not modelled.
- A `fetch` that rejects (network error) is not modelled.
- `JSON.stringify` of the request body and the sending of the request are not modelled. The model states the init record passed to `fetch`.
- `JSON.parse`, Zod's `uuid()` and `email()`, and JavaScript's number-to-text are primitives of the `Host` parameter, not defined here. Numbers are exact rationals, so floating-point rounding is not modelled.
- IntToString writes decimal digits. JavaScript's exponent form for magnitudes of 10^21 or more is not modelled.
- The translation tables of `lib/i18n` are not part of this model. They are a parameter, and the chat adapter takes the translated "sources" label and entry template as inputs.
- Fractional number vars: `VarValue` is a string or an integer. The source also allows a fractional number, whose `String` form is not modelled. The callers in the core pass only integers (`index + 1`).
- `Object.keys` puts integer-like keys first. The model takes the vars in the order given.
- Translation.FormatMessage: placeholders of keys not supplied are proved to survive only when the template's text, keys and values hold no brace and no `$` (`FormatFills`). A value with braces can itself create or split a placeholder, and a `$` pattern expands.
- `Headers.get` is case-insensitive. Header names are given in lower case in the response record.
- The job poller's timer loop is not among the source files. Only the job-status record it reads is modelled.
- Zod object schemas strip unknown keys. This is stated with `Covers`: the input is the encoding with possibly extra keys. The decoders return the stripped value.
- The UI components, the providers, the proxy route and the configuration are not part of this model.

## Findings

| source | as written | input that shows it | evidently intended | confidence | as-written member | corrected member |
|---|---|---|---|---|---|---|
| lib/chat/stream.ts:38-46 | The second branch of `decodeEvent` takes every line holding both `event:` and `data:`, whatever their order. Its `eventIndex !== -1` check always passes there. For a `data:` line whose text mentions `event:`, the name becomes `slice(eventIndex + 6, dataIndex)` with `dataIndex < eventIndex`, which is `""`. `streamChat` then drops the block. | the block `"event: chunk\ndata: {\"delta\":\"event: x\"}"` | The branch handles a name followed by its payload on one line, in left-to-right order. A `data:` line is read as data and keeps the name. | not executed | SseFields.AsWrittenBlanksEvent | SseFields.DataLineKeepsEvent |

The as-written line step is `SseFields.LineStepAsWritten`, and `SseFields.DataMentioningEvent` shows the two-line block above losing its name. The corrected step is `SseFields.LineStep`: it takes the second branch only when `indexOf("event:") < indexOf("data:")`. `SseFields.AsWrittenAgrees` proves that the two steps differ on no other line. The operational members (`ReadLine`, `DecodeEvent`, `Events`, `StreamChat`, `Run`) follow the source as written, through `DecodeBlockAsWritten`. The corrected reading is `DecodeBlock`. `SseFields.FoldsAgree` and `SseFields.DecodeAgrees` prove that the two decode every block alike unless one of its lines has `data:` before `event:`.
