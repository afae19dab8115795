# excuseGen relay and session model

A Dafny model of the two pieces of logic in the excuse generator.

- **The excuse route** (`app/api/getExcuse/route.ts`).
  - The `POST` handler builds a two-message prompt and calls a hosted inference service with streaming on.
  - It relays that service's newline-delimited event stream to the browser as plain text.
  - Its `start(controller)` keeps a `buffer` across reads, splits it on `'\n'` and handles each complete line:
    - lines that do not start with `data:` are skipped;
    - `data: [DONE]` ends the relay;
    - a payload whose JSON has a truthy `response` sends that value;
    - a payload on which `JSON.parse`, the `response` read or the conversion of a truthy `response` to text throws (a syntax error, `null`, a value with no usable `toString`) is sent raw.
  - At the end, what is left in the buffer is sent verbatim.
  - Any thrown error sends one fallback text, and the stream is closed in `finally`.
- **The page's session state** (`app/page.tsx`).
  - `generateExcuse` reads the route's reply chunk by chunk, showing the running concatenation. It puts the finished excuse in front of a five-entry history, or shows a failure text.
  - `playTTS` keeps a one-slot cache of synthesized audio keyed by the text it was made for.

The model is organised as follows.

- `streams.dfy`: a fetched response, as a rejected request or a status with an optional body. The body is the decoded text of each successful read, plus whether the read after the last one throws.
- `line_split.dfy`: JavaScript's `split('\n')` and the two halves the relay takes from it:
  - `Lines`, the complete lines;
  - `Unfinished`, the buffer left over.

  It proves that `Split` is the only decomposition into newline-free pieces, and that splitting is compatible with appending text.
- `excuse_route.dfy`:
  - the prompt;
  - the treatment of one line (`LineAction`);
  - the whole relay as a function of the upstream reply (`Respond`);
  - the imperative relay (`Start` and the methods under it) over a `Controller` class whose `Enqueue` and `Close` require it to be open. `Start` is proved to send exactly `Respond` of the reply and to close the controller exactly once.
- `excuse_page.dfy`:
  - the history update;
  - the running display;
  - the audio-cache decision;
  - a `Page` class whose `GenerateExcuse` and `PlayTts` methods update its fields. Two ghost logs record every text shown and every audio clip that started playing.

`JSON.parse`, the `response` property read and the conversion of a truthy `response` to text are modelled as a parameter `parse: string -> Parsed`. The result is a throw (from `JSON.parse` or from the conversion), `null`, or an object whose `response` is absent or a value with its JavaScript truthiness and printed text. The inference service is a parameter `service: InferenceRequest -> Reply`. Audio playback success is given as booleans.

Two facts about the code are easy to get wrong:
- The route reads only `context` from the request body. There is no advanced mode and there are no optional prompt fields.
- A speech request is served from the cache exactly when the slot holds audio for the displayed text and its playback succeeds (`PlayOutcome`). After a request that played audio, the slot holds that audio (`SecondRequestFromCache`).

## Model

| member | source | states |
|---|---|---|
| ExcuseRoute.EffectiveContext | app/api/getExcuse/route.ts:26 | the context is used when present and non-empty, `general situation` otherwise; the result is never empty |
| ExcuseRoute.BuildRequest | app/api/getExcuse/route.ts:18-30 | streaming is on; exactly two messages: the fixed system prompt, then a user message that is the fixed lead followed by the effective context |
| ExcuseRoute.SamePromptIffSameContext | app/api/getExcuse/route.ts:18-30 | two request bodies give the same prompt if and only if their effective contexts are equal |
| ExcuseRoute.Value.Truthy | app/api/getExcuse/route.ts:56 | JavaScript truthiness of the `response` value: a string is truthy iff it is non-empty; any other value carries its own truthiness |
| ExcuseRoute.Value.Text | app/api/getExcuse/route.ts:57 | the text enqueued for a `response` value: a string itself, any other value its printed form |
| ExcuseRoute.IsDataLine | app/api/getExcuse/route.ts:52 | a line is an event line iff it is at least five characters long and starts with `data:` |
| ExcuseRoute.LineAction | app/api/getExcuse/route.ts:52-63 | reference definition of one iteration of the `for` loop: skip, stop at `data: [DONE]`, send the truthy `response`, or send the raw payload when `JSON.parse`, the property read or the conversion to text throws; its meaning is proved in `LineActionMeaning` |
| ExcuseRoute.LineActionMeaning | app/api/getExcuse/route.ts:51-63 | non-`data:` lines do nothing; a line stops the relay iff it is exactly `data: [DONE]`; otherwise a truthy `response` is sent, a missing or falsy one sends nothing, and a throw from `JSON.parse`, from the `response` read on `null` or from converting the `response` to text sends the raw payload |
| ExcuseRoute.ScanLines | app/api/getExcuse/route.ts:51-65 | reference definition of the `for` loop over complete lines, stopping at the sentinel; each line sends at most one fragment |
| ExcuseRoute.ScanAppend | app/api/getExcuse/route.ts:51-65 | lines are handled once each, in order: scanning two runs of lines is scanning their concatenation, and nothing after the sentinel contributes |
| ExcuseRoute.DataOnly | app/api/getExcuse/route.ts:52 | a line is kept iff it is one of the input lines and starts with `data:`; every kept line starts with `data:` |
| ExcuseRoute.DataOnlyAppend | app/api/getExcuse/route.ts:51-52 | the filter keeps the order of lines: filtering two runs of lines is filtering each, one after the other |
| ExcuseRoute.OtherLinesIgnored | app/api/getExcuse/route.ts:51-52 | removing every line that does not start with `data:` leaves the fragments and the stop unchanged |
| ExcuseRoute.ReadAll | app/api/getExcuse/route.ts:42-71 | reference definition of the read loop and final flush over the whole streamed text; it throws only when a read fails, and sends at most one fragment per complete line plus the tail |
| ExcuseRoute.TryBlock | app/api/getExcuse/route.ts:11-71 | reference definition of the `try` block; it completes or sends anything only for an OK status with a readable body |
| ExcuseRoute.Respond | app/api/getExcuse/route.ts:10-77 | reference definition of everything the caller receives: the `try` block's fragments, then the fallback text when it threw |
| ExcuseRoute.ErrorPaths | app/api/getExcuse/route.ts:33-40 | a rejected fetch, a non-OK status or a missing body gives exactly the fallback text; a failing read before the sentinel gives the fragments so far and then the fallback, without the buffer |
| ExcuseRoute.ChunkingIrrelevant | app/api/getExcuse/route.ts:42-71 | the same text in any chunking gives the same fragments, sentinel and flush behaviour |
| ExcuseRoute.SentinelCutsOff | app/api/getExcuse/route.ts:54 | after complete lines `pre` and a complete `data: [DONE]` line, the caller receives exactly the fragments of `pre`; later lines, later reads (failing or not) and the buffer add nothing |
| ExcuseRoute.TailFlushedVerbatim | app/api/getExcuse/route.ts:68-71 | a stream without sentinel that ends cleanly relays its complete lines and then its non-empty unfinished tail verbatim, even if that tail looks like an event line |
| ExcuseRoute.EventLines | app/api/getExcuse/route.ts:52 | one `data:` line per payload, in order |
| ExcuseRoute.TokensRelayedInOrder | app/api/getExcuse/route.ts:51-58 | event lines whose payloads carry non-empty `response` strings yield exactly those strings, in order |
| ExcuseRoute.TokenStreamRelayed | app/api/getExcuse/route.ts:42-66 | a stream of token events followed by the sentinel, in any chunking, reaches the caller as exactly the tokens |
| ExcuseRoute.ThreeEventsFramed | app/api/getExcuse/route.ts:48 | three event lines and the sentinel line, each newline-terminated, are the expected text |
| ExcuseRoute.ThreeTokenExample | app/api/getExcuse/route.ts:42-66 | the events `My `, `alarm`, ` broke.` and the sentinel reach the caller as exactly those three tokens |
| ExcuseRoute.Controller.Enqueue | app/api/getExcuse/route.ts:57 | appends one fragment to what the caller receives; only on an open controller |
| ExcuseRoute.Controller.Close | app/api/getExcuse/route.ts:76 | closes an open controller, sends nothing, and counts one more call of `close()` |
| ExcuseRoute.ScanSnoc | app/api/getExcuse/route.ts:51-63 | one more line that is not the sentinel adds exactly its fragment, if any |
| ExcuseRoute.StopsHere | app/api/getExcuse/route.ts:54 | at the sentinel the fragments are those of the lines before it, whatever follows |
| ExcuseRoute.RelayLines | app/api/getExcuse/route.ts:51-65 | the `for` loop sends exactly the fragments of the lines and reports whether it met the sentinel |
| ExcuseRoute.ReadStep | app/api/getExcuse/route.ts:47-49 | one read extends the complete lines by those of the old buffer plus the chunk, whose tail is the new buffer |
| ExcuseRoute.LinesOfSplitRead | app/api/getExcuse/route.ts:43-49 | the complete lines of the whole text are those read so far, then those of the buffer followed by the remaining chunks |
| ExcuseRoute.StoppedEarly | app/api/getExcuse/route.ts:54 | once the lines read so far hold the sentinel, later chunks change nothing |
| ExcuseRoute.ReadOnce | app/api/getExcuse/route.ts:47-65 | sends the fragments of the complete lines of buffer plus chunk and keeps their unfinished tail as the new buffer |
| ExcuseRoute.ReadLoop | app/api/getExcuse/route.ts:42-66 | after the loop the caller has received the fragments of all complete lines of the streamed text, and the buffer is its unfinished tail |
| ExcuseRoute.ReadBody | app/api/getExcuse/route.ts:42-71 | the read loop plus the final flush: sends exactly `ReadAll` of the body and throws exactly when `ReadAll` does |
| ExcuseRoute.Pump | app/api/getExcuse/route.ts:11-71 | the `try` block: sends exactly `TryBlock` of the reply and throws exactly when it does |
| ExcuseRoute.Start | app/api/getExcuse/route.ts:10-77 | the caller receives exactly `Respond` of the service's reply to the built request; the controller ends closed and `close()` was called exactly once (the methods under `Start` never call it) |
| LineSplit.Lines | app/api/getExcuse/route.ts:48-49 | the complete lines of a text: all pieces of the split but the last, none holding a newline |
| LineSplit.Unfinished | app/api/getExcuse/route.ts:48-49 | the new `buffer`: the last piece of the split, which holds no newline |
| LineSplit.Split | app/api/getExcuse/route.ts:48 | `split('\n')` gives at least one piece and no piece holds a newline |
| LineSplit.SplitJoin | app/api/getExcuse/route.ts:48 | joining the pieces with newlines gives the text back |
| LineSplit.SplitUnique | app/api/getExcuse/route.ts:48 | any decomposition into newline-free pieces joined by newlines is the split |
| LineSplit.LinesFramed | app/api/getExcuse/route.ts:48-49 | newline-terminated lines in front of a text come out as complete lines in front of the text's own, and leave its tail |
| LineSplit.FramedRoundTrip | app/api/getExcuse/route.ts:48-49 | newline-terminated lines split back into exactly those lines, with an empty buffer |
| LineSplit.SplitAppend | app/api/getExcuse/route.ts:47-49 | splitting `a + b` keeps the complete lines of `a` and splits its tail with `b` appended |
| LineSplit.StreamStep | app/api/getExcuse/route.ts:47-49 | the same as `SplitAppend`, in terms of complete lines and buffer |
| LineSplit.TailAfterLastNewline | app/api/getExcuse/route.ts:49 | the buffer is exactly the text after the last newline: a newline-free suffix, preceded by a newline unless it is the whole text |
| Streams.IsOk | app/api/getExcuse/route.ts:33 | `response.ok`: the status is in 200 to 299, the same test the page makes at `app/page.tsx:43` |
| Streams.Concat | app/page.tsx:53-60 | reference definition of the text accumulated by appending each read's chunk in order, as `accumulatedExcuse += chunk` does here and `buffer +=` does in the route |
| Streams.ConcatAppend | app/page.tsx:53-61 | reading two runs of chunks gives their texts one after the other |
| ExcusePage.PushHistory | app/page.tsx:64 | the new excuse comes first, followed by a prefix of the old history; the length is one more, capped at five |
| ExcusePage.Replay | app/page.tsx:64 | the history after a run of successes: the newest excuse comes first, and a history of at most five stays at most five |
| ExcusePage.ReplayNewestFirst | app/page.tsx:64 | after any run of successes the history is the excuses newest first in front of the old history, cut to five |
| ExcusePage.SixGenerations | app/page.tsx:64 | six successes E1..E6 from an empty history leave `[E6, E5, E4, E3, E2]` |
| ExcusePage.RunningTotals | app/page.tsx:53-61 | the k-th display is the concatenation of the first k+1 chunks |
| ExcusePage.Received | app/page.tsx:43-64 | reference definition of the excuse the page keeps: the concatenation of all chunks, or nothing when the request, the status, the body or a read failed |
| ExcusePage.ReadChunks | app/page.tsx:43-61 | reference definition of the chunks the page reads and shows: none when it throws before reading, otherwise every successful read |
| ExcusePage.Displays | app/page.tsx:33-67 | reference definition of every text given to `setExcuse` during one generation: `''`, the running totals, then the failure text on failure |
| ExcusePage.DisplaysGrow | app/page.tsx:31-68 | a generation first shows `''`; each display extends the previous one by the next chunk; the last is the received excuse or the failure text |
| ExcusePage.ServedByRoute | app/page.tsx:42-64 | served by the route, the page ends with the relayed text whatever the chunking; a failed inference call reaches it as the route's fallback, not the page's own failure text |
| ExcusePage.WhileLoadingFrames | app/page.tsx:31-69 | every recorded frame of a generation shows its text with the loading flag on |
| ExcusePage.GenerationFrames | app/page.tsx:31-69 | the frames recorded during a generation are those of its displays |
| ExcusePage.CacheHit | app/page.tsx:84 | the cache test `audioData.text === excuse`: the slot was filled for the displayed text |
| ExcusePage.PlayOutcome | app/page.tsx:82-122 | no fetch iff the cache matches the excuse and its playback succeeds; the cache is replaced by `{excuse, v_data}` only after an OK reply with truthy `status` whose audio played, and is unchanged otherwise |
| ExcusePage.CacheKeyedByExcuse | app/page.tsx:84-116 | after `playTTS` the slot is unchanged or keyed by the displayed excuse; a slot keyed by another text always fetches |
| ExcusePage.SecondRequestFromCache | app/page.tsx:84-89 | after a request that played audio, a second request for the same excuse is served from the cache when its playback succeeds |
| ExcusePage.Page.constructor | app/page.tsx:10-16 | the initial state: empty excuse and history, not loading, not playing, and the audio slot `{text:'', data:''}`, so an empty excuse is a cache hit at first |
| ExcusePage.Page.SetExcuse | app/page.tsx:33-67 | shows a text and records it with the current loading flag; nothing else changes |
| ExcusePage.Page.ShowStream | app/page.tsx:53-61 | the displayed excuse is the concatenation of the chunks, and each running total was shown while loading |
| ExcusePage.Page.GenerateExcuse | app/page.tsx:30-70 | on success: excuse is the received text and it is pushed onto the history; on failure: the failure text, history unchanged; loading ends off; the shown frames are the reset, the running totals and the failure text if any; audio state untouched |
| ExcusePage.Page.PlayTts | app/page.tsx:82-122 | the new cache slot, whether the speech service was called and what started playing are those of `PlayOutcome`; playing ends off; excuse, history and loading untouched |

## Left out

- Byte decoding (`TextDecoder`, with and without `stream: true`): chunks are already-decoded text, so a multi-byte character split across reads is not modelled.
- The network: `fetch`, `ReadableStream`, `reader.read()` and `NextResponse` are replaced by the `Reply`/`Body` values given to the model. The route's HTTP headers and its endpoint URL and credentials are not modelled.
- The JSON grammar: `JSON.parse` is a parameter; only the shape of its result and the truthiness of `response` are modelled.
- A request body that is not JSON (`req.json()` throwing before the stream exists) gives an HTTP 500 outside the relay and is not modelled; nor is any `context` value other than a string or absent.
- Logging with `console.error`.
- `app/api/getTTS/route.ts` and `app/layout.tsx` are not part of this model.
- In `app/page.tsx`:
  - dark mode and its `localStorage` persistence;
  - copying to the clipboard and the `setTimeout` reset;
  - the `Audio` element's `onended` wiring;
  - all rendering.

  The audio element itself is reduced to whether `play()` succeeds.
- React state updates are modelled as immediate assignments to the page's fields; batching and re-rendering are not modelled.
- Concurrent calls of `generateExcuse` or `playTTS` (a second click before the first finishes) are not modelled; each call runs to completion.
- ExcusePage.ServedByRoute: the route's response is taken as status 200 with reads that all succeed, since the relay catches every error inside the stream. A connection dropped between route and browser is not modelled.
