# Reading assistant core, modelled in Dafny

The reading assistant is a single-page app. A user loads a PDF, the app
extracts its text, and a chat-completion service is asked for 40 exam
questions about the text. A chat panel then answers questions about the
document, and the user can refer to the generated questions by number. This
project models the app's core logic in `app.js` and proves properties of it:

- **Text extraction** (`extraction.dfy`). `extractAllText` reads the text
  items of the first 40 pages. Each page becomes one line (its items joined by
  spaces, then a newline). The result is trimmed and cut to 28,000
  characters. `ExtractAllText` is the loop, proved against the specification
  function `ExtractedText`.
- **Question generation** (`questions.dfy`):
  - the generation prompt, sent as a single user message with an
    8,192-token budget;
  - the cleaning of the reply: code fences are stripped, then the text is
    trimmed;
  - the bracket-span fallback `/\[[\s\S]*\]/`;
  - the cap of 40 items.

  The same module builds the numbered list `Q<n>: <question>` that chat
  requests quote back to the model.
- **Chat** (`chat.dfy`):
  - the system message: the answering rules, then the document between
    triple quotes, then the question block;
  - the request: the system message, then the history, then the user's
    message, with a 1,024-token budget;
  - the history: each exchange appends a user entry and an assistant entry,
    and only the 20 most recent entries are kept.
- **Viewer helpers** (`viewer.dfy`): `escapeHtml`, previous/next page
  clamping, and shortening of long file names.
- **Session** (`session.dfy`): `class Session` holds the three pieces of
  state the page keeps: `extractedText`, `questionsData` and `chatHistory`.
  Its methods are the three operations that change this state:
  - `LoadDocument`;
  - `GenerateQuestions`;
  - `SendChatMessage`, which records a successful exchange through
    `RecordExchange`.
- **Shared helpers** (`strings.dfy`, `completion.dfy`): JavaScript `trim`,
  `join` and `slice(0, n)`, decimal rendering of numbers, and the
  completion request and reply types.

The completion service, the PDF reader and `JSON.parse` are not modelled.
Each one is an input to the operations that use it:

- a completion reply is `Success(content)` or `Failure(error)`;
- a document is a sequence of pages, each a sequence of text-item strings;
- the parser is a total function from text to `Option<JsonValue>`. `None`
  means the text is not JSON, and `JsonValue` is either `ItemArray(items)` or
  `OtherValue`.

Two behaviours of the code that the model keeps as they are:

- Loading a document does not clear the question set. `app.js:228-236`
  replaces the text and clears only the chat history, and a failed
  generation keeps the old questions. `Reader.Session.LoadDocument`
  therefore keeps `questionsData` unchanged, and until a generation for the
  new document succeeds, chat requests list the previous document's
  questions.
- Every load ends by starting a question generation (`app.js:236`). The
  model does not chain the two: `LoadDocument` only loads, and the caller
  follows it with a separate `GenerateQuestions` carrying that
  generation's reply.
- `generateQuestions` returns without doing anything while no text is
  extracted (`app.js:365`). It also returns when the extracted text is empty
  because the document has no text. In that case nothing is sent and the
  questions are kept.

## Model

| member | source | states |
|---|---|---|
| Extraction.ReadPages | app.js:314 | the pages read are the first min(numPages, 40) pages, in order |
| Extraction.ExtractedText | app.js:312-320 | the extracted text is at most 28,000 characters and a prefix of the trimmed page text; it is all of that text when it fits and exactly 28,000 characters when it does not |
| Extraction.ExtractAllText | app.js:312-320 | the page loop (page i from 1 while i <= min(numPages, 40), appending each page's items joined by spaces plus a newline), then trim and slice, computes exactly `ExtractedText(pages)` |
| Extraction.PageText | app.js:317 | one page's line: its items joined by single spaces, then a newline; `PageInOrder` places it in the document text |
| Extraction.RawText | app.js:315-317 | the untrimmed text of a run of pages, one line per page in page order; `RawTextAppend` and `PageInOrder` state how it splits |
| Extraction.RawTextAppend | app.js:317 | the text of two runs of pages is the text of the first followed by the text of the second |
| Extraction.PageInOrder | app.js:315-317 | page k's line stands right after the lines of the earlier pages and right before the lines of the later ones |
| Extraction.LaterPagesIgnored | app.js:314 | pages after the 40th never affect the extracted text |
| Extraction.ShortDocumentReadWhole | app.js:314 | a document of at most 40 pages is read in full |
| Extraction.TextlessDocumentIsEmpty | app.js:317-319 | a document whose text items are all empty extracts to "" (the newlines are trimmed away) |
| Strings.TrimStart | app.js:319 | the result is a suffix of the input that does not start with ECMAScript whitespace |
| Strings.TrimStartDropsSpaces | app.js:319 | every character dropped at the start is whitespace |
| Strings.TrimEnd | app.js:319 | the result is a prefix of the input that does not end with whitespace |
| Strings.TrimEndDropsSpaces | app.js:319 | every character dropped at the end is whitespace |
| Strings.Trim | app.js:319 | JavaScript `trim`: `TrimIsSlice`, `TrimmedEnds`, `TrimIdempotent` and `TrimEmptyIffBlank` state what it keeps and what it cuts |
| Strings.TrimIsSlice | app.js:319 | `trim` keeps one contiguous slice of its input, and everything cut away on either side is whitespace |
| Strings.TrimmedEnds | app.js:319 | a trimmed string neither starts nor ends with whitespace |
| Strings.TrimIdempotent | app.js:481 | trimming twice is trimming once |
| Strings.TrimEmptyIffBlank | app.js:481-482 | the trimmed input is empty exactly when every character of the input is whitespace, in both directions |
| Strings.TrimUnpadded | app.js:411 | a string without whitespace at its ends is left unchanged by trimming |
| Strings.TrimPadded | app.js:411 | surrounding whitespace is exactly what trimming removes |
| Strings.Join | app.js:317 | `Array.prototype.join`: "" for no elements, the element itself for one, separators between elements otherwise; `JoinAt` locates every element |
| Strings.JoinAt | app.js:317 | in `xs.join(sep)`, element i stands between the join of the elements before it and the join of those after it, with one separator on each side |
| Strings.JoinLineAt | app.js:503 | in a newline-joined list, element i starts at a computed offset, just after a newline or at the start, and is followed by a newline or the end |
| Strings.JoinedLineAfterPrefix | app.js:504 | behind a prefix that ends in a newline, element i of a newline-joined list is still on a line of its own |
| Strings.Prefix | app.js:319 | `slice(0, n)` keeps the first min(n, length) elements, in order |
| Strings.NatToString | app.js:502 | the decimal rendering is non-empty, made only of digits, and has no leading zero except for 0 itself |
| Strings.NatToStringRoundTrip | app.js:502 | reading the rendered digits back as a decimal number gives the original number |
| Questions.GenerationRequest | app.js:405 | generation sends exactly one message, a user message whose content is `GenerationPrompt(text)`, with an 8,192-token budget |
| Questions.GenerationPrompt | app.js:375-403 | the generation prompt template with the text inserted; `GenerationPromptCarriesText` states that the text stands whole between the fixed head and tail |
| Questions.GenerationPromptCarriesText | app.js:375-403 | the prompt carries the extracted text whole and unaltered between the fixed instructions and the fixed closing request |
| Questions.StripFences | app.js:411 | the fence replacement, removing every "```json" in any letter case, else every "```", left to right; `StripFencesNoFence`, `StripFencesIdentity`, `StripFencesIdempotent` and `StripJsonFence` state its effect |
| Questions.Cleaned | app.js:411 | fences stripped, then trimmed; `FencedPayloadCleaned` states that a fenced payload comes back exactly |
| Questions.StripFencesNoFence | app.js:411 | after the fence replacement (every "```json" in any letter case, else every "```", removed left to right) no three backticks are left together |
| Questions.StripFencesIdentity | app.js:411 | text without three backticks in a row is left unchanged |
| Questions.StripFencesIdempotent | app.js:411 | stripping fences twice is stripping them once |
| Questions.StripFencesPlain | app.js:411 | text without backticks passes through the replacement unchanged |
| Questions.StripJsonFence | app.js:411 | an opening "```json" fence and a closing "```" fence around backtick-free text are both removed |
| Questions.FencedPayloadCleaned | app.js:411 | a payload in a "```json" fence on lines of its own is cleaned back to exactly the payload |
| Questions.FirstIndexOf | app.js:415 | the index found holds the character and no earlier index does; no index means the character is absent |
| Questions.LastIndexOf | app.js:415 | the index found holds the character and no later index does; no index means the character is absent |
| Questions.BracketSpan | app.js:415 | the greedy bracket match; `BracketSpanIsLongestMatch` states when it matches and which span it returns |
| Questions.ParseResponse | app.js:408-418 | parse the cleaned text, and only when that is not JSON parse the bracket span of the raw reply; `CleanedParseDecides` states that a JSON cleaned text decides the outcome |
| Questions.BracketSpanIsLongestMatch | app.js:415 | `/\[[\s\S]*\]/` matches exactly when some `[` precedes some `]`, and the match runs from the first `[` to the last `]` |
| Questions.CapQuestions | app.js:420 | `parsed.slice(0, 40)` yields questions exactly when the parsed value is an array; they are the first min(40, n) items, in order |
| Questions.AcceptQuestions | app.js:408-420 | parse then cap; `CleanedParseDecides`, `FencedResponseAccepted` and `WrappedArrayAccepted` state which replies yield which questions |
| Questions.CleanedParseDecides | app.js:409-420 | when the cleaned text is JSON, the fallback is never tried; if that JSON is not an array, the generation fails |
| Questions.FencedResponseAccepted | app.js:409-420 | a reply that is a fenced JSON array yields that array, capped at 40 items |
| Questions.WrappedArrayAccepted | app.js:413-420 | a reply whose array is surrounded by commentary without brackets, and whose cleaned text is not JSON, yields the array through the fallback |
| Questions.QuestionLines | app.js:501-502 | line i of the list is `Q<i+1>: <question i>`, one line per question |
| Questions.QuestionLine | app.js:502 | one list line, `Q<i+1>: <question>`; `QuestionLineNumbered` states that the number is i+1 in decimal |
| Questions.QuestionList | app.js:501-503 | the lines joined by newlines; `QuestionListedAt` states that each question stands on a line of its own |
| Questions.QuestionLineNumbered | app.js:502 | each line names its question by the 1-based number written in decimal digits |
| Questions.QuestionListedAt | app.js:501-503 | question i's line stands in the joined list on a line of its own |
| Questions.QuestionsContext | app.js:499-505 | the question block is empty exactly when there are no questions |
| Questions.PreambleEndsLine | app.js:504 | the instructions before the list end with a newline |
| Chat.ChatRequest | app.js:518-524 | the request is the system message, then the history before the turn, unchanged, then the user message; its budget is 1,024 tokens |
| Chat.SystemContent | app.js:499-516 | the system message; `SystemContentCarriesDocument`, `SystemContentEndsWithList` and `ListedBehind` state where the document and the questions stand in it |
| Chat.SystemContentCarriesDocument | app.js:508-516 | the system message quotes the extracted text whole, right after the answering rules; with no questions, nothing follows the closing quotes |
| Chat.SystemContentEndsWithList | app.js:499-516 | with questions, the system message is a text ending in a newline followed by the numbered question list |
| Chat.ListedBehind | app.js:501-504 | behind such a text, question i appears as `Q<i+1>: <question>` on a line of its own, so it can be found by number |
| Chat.RecordTurn | app.js:527-531 | after an exchange the history has min(n+2, 20) entries: the user entry, then the assistant entry, at the end, preceded by the most recent earlier entries in order |
| Chat.RecordTurnKeepsWellFormed | app.js:527-531 | recording an exchange keeps the history at most 20 entries of whole user/assistant pairs, alternating and starting with a user entry |
| Chat.Replay | app.js:527-531 | the history after a run of successful exchanges; `ReplayWellFormed` and `ReplayKeepsLatest` state that it stays well formed and is the last 20 entries of all exchanges |
| Chat.ReplayWellFormed | app.js:527-531 | any run of successful exchanges keeps the history well formed |
| Chat.ReplayKeepsLatest | app.js:530-531 | starting from an empty history, the history is exactly the last 20 entries of all exchanges, in order ("last 10 exchanges") |
| Chat.Exchanges | app.js:527-528 | each exchange contributes two entries: exchange i gives entry 2i, the user's text, and entry 2i+1, the response |
| Chat.Latest | app.js:531 | `slice(-20)` keeps min(20, n) entries, and they are the last entries of the history, in order |
| Viewer.EscapeHtml | app.js:591-597 | the four global replacements in source order; `EscapeHtmlIsEscapeEach`, `EscapeHtmlSafe` and `EscapeHtmlRoundTrip` state what it produces |
| Viewer.EscapeHtmlIsEscapeEach | app.js:591-597 | because `&` is replaced first, the four global replacements escape each character of the input exactly once |
| Viewer.EscapeHtmlSafe | app.js:591-597 | escaped text contains no `<`, `>` or `"` |
| Viewer.EscapeHtmlRoundTrip | app.js:591-597 | decoding the four character references gives back the original text |
| Viewer.EscapeHtmlAppend | app.js:591-597 | escaping distributes over concatenation |
| Viewer.PrevPage | app.js:288 | previous page is max(1, current - 1): one back, never before page 1 |
| Viewer.NextPage | app.js:289 | next page is min(numPages, current + 1): one on, never past the last page |
| Viewer.NavigationStaysInDocument | app.js:288-289 | from any page of the document both buttons lead to a page of the document, at most one page away |
| Viewer.NavigationRoundTrip | app.js:288-289 | next then previous returns to the start except on the last page; previous then next likewise except on the first |
| Viewer.DisplayFileName | app.js:217 | names of at most 30 characters are shown as they are; longer names become their first 28 characters plus an ellipsis (29 characters) |
| Viewer.DisplayFileNameStable | app.js:217 | a displayed name is displayed unchanged |
| Reader.Session.constructor | app.js:65-66 | the page starts with no text, no history and (line 354) no questions |
| Reader.Session.LoadDocument | app.js:228-232 | loading replaces the text with `ExtractedText(pages)`, empties the history and keeps the questions |
| Reader.Session.GenerateQuestions | app.js:364-422 | with no text, nothing is sent. Otherwise the generation request is sent, and the questions are replaced exactly when the reply succeeds and yields an array; on a failed call or an unusable reply they are kept. The outcome is `CompletionFailed`, carrying the call's error, exactly when text is loaded and the call fails |
| Reader.Session.RecordExchange | app.js:527-531 | the two pushes and the cut to the last 20 entries give `RecordTurn` of the old history and keep the session valid |
| Reader.Session.SendChatMessage | app.js:480-541 | blank input and input with no text loaded are refused without a request. Otherwise the request is `ChatRequest` of the text, the questions, the history before the turn and the trimmed input. On success the exchange is recorded; on failure the history is unchanged |

## Left out

- Rendering and UI state are not modelled because they are presentation only. This covers the page canvases, zoom, the scroll-driven page indicator (`updatePageInfo`), loading spinners, disabled buttons, flash notices, chat bubbles, `formatMarkdown` and the "PDF loaded" greeting.
- The profile, avatar and API-key storage (`localStorage`) are outside the core.
- Reading the PDF (PDF.js `getDocument`, `getPage`, `getTextContent`) is not modelled. A document is given as its pages' text items, and an extraction error is not modelled.
- The HTTP exchange of `callGrok` is not modelled. This covers the endpoint, the headers, the model name, `temperature`, and the chain that builds the error message. A reply is an input, and its content is taken as already trimmed.
- The grammar of `JSON.parse` is not modelled; the parser is a parameter.
- Reader.Session.GenerateQuestions: a reply that parses to a JSON string is treated like any other non-array value, as a failure that keeps the questions. In the source, `slice` also works on a string, so `questionsData` becomes that string before rendering throws. When the string is non-empty, every later chat turn then throws at `questionsData.map` (app.js:501-502), inside the turn's `try`: each turn shows an error, sends nothing and leaves the history unchanged, until a generation succeeds and replaces `questionsData` with an array.
- Reader.Session.GenerateQuestions: the elements of a parsed array are taken to be question/answer items. The source does not check their shape, and neither does the model.
- Asynchronous interleaving is not modelled; each operation runs to completion. For example, a chat turn sent while a generation is pending uses the questions as they are at that moment.
- Lengths are counted in Unicode characters, while JavaScript counts UTF-16 code units. The 28,000-character cut and the 30/28-character file-name cut therefore differ for text outside the Basic Multilingual Plane, where the source can split a surrogate pair.
- Viewer.NextPage: the case where no document is loaded is not modelled. In the source, `pdfDoc` is then `null` and the handler throws.
- Viewer.EscapeHtml: the `String(str)` coercion of non-string arguments is not modelled; the model escapes strings only.
