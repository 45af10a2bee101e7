# Kisan Sahayak chatbot core, modelled in Dafny

Kisan Sahayak is a browser chat assistant for farmers. The farmer describes
a crop problem in a text box. The page wraps the text in an agronomy prompt
and sends it to the Perplexity chat-completions service. The answer is shown
in a chat bubble after a small Markdown-like rewrite. A separate helper
sends a crop photo to Google's Gemini vision model. It pulls a JSON diagnosis
out of the model's reply, and it returns a fixed "Analysis Error" result when
anything fails. Two small forms collect the API keys.

This project models those parts and proves their properties:

- `JsText` (`js_text.dfy`): the JavaScript string operations the code relies on.
  - `trim` uses the ECMAScript WhiteSpace and LineTerminator sets: tab,
    VT, FF, space, NBSP, BOM, the Unicode space separators U+1680,
    U+2000–U+200A, U+202F, U+205F and U+3000, plus LF, CR, U+2028 and U+2029.
  - It also models `split`. `includes(',')` is Dafny's `',' in image`.
  - `IndexOf` is the leftmost search for a three-backtick fence that the
    regular expression of `analyzeImageWithGemini` performs. The code itself
    never calls `indexOf`.
- `AnalysisResults` and `AnalysisJson`: the diagnosis record, its fallback
  value, its JSON text in both directions, and the fact that serialising
  never creates a code fence.
- `GeminiApi` (`analyzeImageWithGemini`):
  - the data-URL strip;
  - the request;
  - the first ```` ``` ```` block regular expression with its lazy capture;
  - the truthiness test before `trim`;
  - the parse;
  - the fallback.
- `ChatFormat` (`formatMessage`): each global `replace` is a left-to-right
  scan, the way the regular-expression engine performs it.
- `ChatPage` (the main page): the conversation state is a class. Sending is
  split at the network await into `BeginSend` and `Settle`, and
  `HandleSendMessage` composes the two. The class also has the key-down
  handler and the key save.
- `ApiKeyForm` and `GeminiApiKeyForm`: each form is a class holding its field.
  Each also has the pure rule deciding which key, if any, goes to `onSave`.

Three calls are parameters of the model: the HTTP exchange, local storage and
the built-in Gemini default key. They are described under "Left out".

## Model

| member | source | states |
|---|---|---|
| JsText.Trim | src/components/ApiKeyForm.tsx:19-20 | `String.prototype.trim`: the result has no whitespace at either end, is a contiguous part of the input with only whitespace around it, and is empty exactly when the input is all whitespace |
| JsText.TrimIdempotent | src/components/ApiKeyForm.tsx:20 | trimming a trimmed string changes nothing |
| JsText.TrimOfPadded | src/pages/Index.tsx:26-37 | whitespace around a trimmed, non-empty text is removed and the text itself is kept |
| JsText.Split | src/utils/geminiApi.ts:25 | `split(',')` returns at least one piece; it returns exactly one when there is no comma; no piece holds a comma; joining the pieces with commas rebuilds the input |
| JsText.SplitJoin | src/utils/geminiApi.ts:25 | splitting comma-free pieces joined with commas gives the pieces back |
| JsText.SplitFree | src/utils/geminiApi.ts:25 | a text without a comma splits into itself alone |
| JsText.IndexOf | src/utils/geminiApi.ts:62 | the leftmost search for a fence that the regular expression performs, from a given position: a position at or after `from` where the pattern occurs, and no occurrence from `from` on comes earlier; None exactly when there is none from `from` on |
| AnalysisResults.Fallback | src/utils/geminiApi.ts:74-80 | the failure result: disease "Analysis Error", no confidence, and every required field filled (two preventive measures, two precautions) |
| AnalysisJson.Decode | src/utils/geminiApi.ts:68 | `JSON.parse` of the five-field object; a parsed result never carries a confidence |
| AnalysisJson.Serialize | src/utils/geminiApi.ts:37 | `JSON.stringify` of a result without a confidence, the five keys in the order the instruction asks for; `DecodeSerialize` is its inverse and `SerializeSealed` its fence guarantee |
| AnalysisJson.SerializeBraced | src/utils/geminiApi.ts:37 | the JSON text of a result in the requested structure opens with `{` and closes with `}` |
| AnalysisJson.DecodeSerialize | src/utils/geminiApi.ts:3-10 | parsing the JSON text of any result without a confidence gives that result back |
| AnalysisJson.SerializeSealed | src/utils/geminiApi.ts:62-68 | the JSON text of a result opens with `{` and closes with `}`; it contains three backticks only if one of the result's strings does |
| GeminiApi.StripDataUrlPrefix | src/utils/geminiApi.ts:24-26 | the image payload never holds a comma; an input without a comma is kept whole |
| GeminiApi.StripDataUrlRoundTrip | src/utils/geminiApi.ts:24-26 | `header,payload` (optionally followed by `,more`) yields exactly `payload` |
| GeminiApi.FenceInterior | src/utils/geminiApi.ts:62 | the regular expression fails exactly when the text has no two fences at least three characters apart; otherwise the capture starts after the first fence and its optional `json` tag and stops at the nearest fence after that |
| GeminiApi.CaptureUpTo | src/utils/geminiApi.ts:62 | the lazy `[\s\S]*?` capture taken from a start position ends at the nearest fence from there |
| GeminiApi.SerializeTrimmed | src/utils/geminiApi.ts:62-64 | the JSON text of any result has no whitespace at either end, so `trim` leaves it as it is |
| GeminiApi.JsonText | src/utils/geminiApi.ts:59-65 | a reply with no fenced block is parsed as it stands; when the pattern matches, a non-empty capture is handed over trimmed and an empty capture leaves the whole reply; any text other than the reply is a fence-free part of it, shorter than it |
| GeminiApi.JsonTextOfBare | src/utils/geminiApi.ts:59-65 | a fence-free reply is parsed unchanged |
| GeminiApi.JsonTextOfFenced | src/utils/geminiApi.ts:57-65 | a reply made of prose without a fence, then a fence, an optional `json` tag, a block and a closing fence, then anything, yields the trimmed block |
| GeminiApi.BuildImageRequest | src/utils/geminiApi.ts:28-47 | the key is appended to the endpoint URL unescaped; the instruction and the JPEG label are fixed; the image travels without its data-URL header |
| GeminiApi.Attempted | src/utils/geminiApi.ts:22-70 | a result is decoded exactly when the exchange answered with a 2xx status, carried a candidate text, and that text's JSON part parses; an HTTP failure always carries a non-2xx status |
| GeminiApi.AnalyzeReply | src/utils/geminiApi.ts:22-81 | the call never fails: it returns the fallback on any failure and otherwise the parsed reply; the result has no confidence |
| GeminiApi.AnalyzeImageWithGemini | src/utils/geminiApi.ts:18-82 | over any exchange of the request built from the image and key: the fallback when the attempt failed, the decoded result when it succeeded; never a confidence |
| GeminiApi.AnalyzeBareReply | src/utils/geminiApi.ts:54-70 | a 2xx reply whose text is the JSON of a result yields that result |
| GeminiApi.AnalyzeFencedReply | src/utils/geminiApi.ts:54-70 | a 2xx reply that wraps that JSON in a ```` ```json ```` block on lines of its own, with fence-free prose before it and any text after it, also yields that result |
| GeminiApi.EmptyReplyAccepted | src/utils/geminiApi.ts:68-70 | parsed replies are not validated: a result whose every field is empty is returned; it is neither complete nor the fallback |
| ChatFormat.ReplaceNewlines | src/components/ChatMessage.tsx:36 | the result holds no newline; text without one is unchanged |
| ChatFormat.ReplaceNewlinesConcat | src/components/ChatMessage.tsx:36 | the newline rewrite distributes over concatenation |
| ChatFormat.LineEnd | src/components/ChatMessage.tsx:39 | the lazy run of a line rule stops at the first newline or at the end of the text; it fails when a CR, U+2028 or U+2029 comes first |
| ChatFormat.LineRule | src/components/ChatMessage.tsx:39-46 | one global line-rule replace: text without the marker is unchanged; what a match produces is stated by `LineRuleOneLine` and `LineRuleToEnd` |
| ChatFormat.Heading3 | src/components/ChatMessage.tsx:39 | the `## ` rule; text without `## ` is unchanged |
| ChatFormat.Heading2 | src/components/ChatMessage.tsx:40 | the `# ` rule; text without `# ` is unchanged |
| ChatFormat.ListItems | src/components/ChatMessage.tsx:46 | the `- ` rule; text without `- ` is unchanged |
| ChatFormat.BoldClose | src/components/ChatMessage.tsx:43 | the lazy run after an opening `**` stops at the nearest `**`, with no line terminator before it; no `*` means no match; `BoldCloseAfter` states that it finds the `**` |
| ChatFormat.BoldCloseAfter | src/components/ChatMessage.tsx:43 | a one-line run with no `**` inside and no `*` at its end, followed by `**`, is closed exactly at that `**` |
| ChatFormat.Bold | src/components/ChatMessage.tsx:43 | the bold rule; text without `**` is unchanged |
| ChatFormat.LineRuleOneLine | src/components/ChatMessage.tsx:39-46 | a marker, a run and a newline: the run is wrapped, the newline is dropped, and the scan resumes after it |
| ChatFormat.BoldPair | src/components/ChatMessage.tsx:43 | `**t**` becomes `<strong>t</strong>` for a one-line `t` with no `**` inside and no `*` at its end, and the scan resumes after the closing marker |
| ChatFormat.FormatMessage | src/components/ChatMessage.tsx:34-49 | the formatted text holds no newline; text with no newline and none of the markers `# `, `**`, `- ` is unchanged |
| ChatFormat.NoMarksUntouched | src/components/ChatMessage.tsx:39-46 | text without `#`, `*` or `-` passes through every rule unchanged |
| ChatFormat.PlainIsPlainLine | src/components/ChatMessage.tsx:39-46 | one line without `#`, `*` or `-` holds none of the rules' patterns, so the one-line lemmas below apply to it |
| ChatFormat.FormatsHeading3 | src/components/ChatMessage.tsx:34-49 | `## t` alone becomes `<h3>t</h3>`, for any one-line `t` without `# `, `**` or `- ` (other `#`, `*`, `-` are allowed) |
| ChatFormat.FormatsHeading2 | src/components/ChatMessage.tsx:34-49 | `# t` alone becomes `<h2>t</h2>`, for any one-line `t` without `# `, `**` or `- ` |
| ChatFormat.FormatsBold | src/components/ChatMessage.tsx:34-49 | `**t**` alone becomes `<strong>t</strong>`, for any one-line `t` without `# `, `**` or `- ` that does not end in `*` (a trailing `*` would pair with the closing marker) |
| ChatFormat.FormatsListItem | src/components/ChatMessage.tsx:34-49 | `- t` alone becomes the bullet, then `t`, then `<br>`, for any one-line `t` without `# `, `**` or `- ` |
| ChatFormat.HeadingSwallowsFollowingLines | src/components/ChatMessage.tsx:36-39 | as written, a heading followed by a second line puts both lines inside the `<h3>` |
| ChatFormat.ListKeepsOnlyFirstBullet | src/components/ChatMessage.tsx:36-46 | as written, two list lines become a single item; the second `- ` stays literal |
| ChatFormat.FormatMessageIntended | src/components/ChatMessage.tsx:34-49 | the same rules with the newline rewrite run last: the output still holds no newline, and marker-free text is unchanged |
| ChatFormat.HeadingEndsAtLine | src/components/ChatMessage.tsx:39 | with the newline rewrite run last, a heading ends at its own line |
| ChatFormat.EveryItemBulleted | src/components/ChatMessage.tsx:46 | with the newline rewrite run last, every list line gets its own bullet |
| ChatPage.Prompt | src/pages/Index.tsx:48-56 | the prompt is the fixed head, the farmer's text verbatim, then the fixed tail |
| ChatPage.QueryOfPromptRoundTrip | src/pages/Index.tsx:48-56 | the farmer's text can be read back out of its prompt unchanged |
| ChatPage.PromptInjective | src/pages/Index.tsx:48-56 | different texts give different prompts |
| ChatPage.BuildChatRequest | src/pages/Index.tsx:73-102 | a bearer header with the key; a system turn with the fixed instruction, then one user turn with the prompt; fixed model, sampling and search settings |
| ChatPage.RequestCarriesQuery | src/pages/Index.tsx:58 | with the same key, two requests are equal exactly when the farmer's texts are |
| ChatPage.ErrorMessage | src/pages/Index.tsx:104-106 | the provider's non-empty message, else "Failed to fetch response"; never empty |
| ChatPage.FetchResult | src/pages/Index.tsx:73-111 | an answer exactly when the service answered with its content; a rejection carries the error message above |
| ChatPage.StartOf | src/pages/Index.tsx:25-44 | blank input is ignored; a missing or empty key asks for one; otherwise the trimmed input is appended as a user message, and the request carries its prompt and the key |
| ChatPage.StartKeepsHistoryWellFormed | src/pages/Index.tsx:37-42 | every user message in the history is non-empty and trimmed, and an accepted send keeps that so |
| ChatPage.ChatState.constructor | src/pages/Index.tsx:20-23 | no messages, empty input, not loading, the stored key |
| ChatPage.ChatState.SetInput | src/pages/Index.tsx:193 | only the input changes |
| ChatPage.ChatState.SaveApiKey | src/pages/Index.tsx:120-127 | only the key changes, to the given value |
| ChatPage.ChatState.BeginSend | src/pages/Index.tsx:25-44 | returns the decision of `StartOf` on the old state; a refused send changes nothing; an accepted one appends the user message, clears the input and sets the loading flag |
| ChatPage.ChatState.Settle | src/pages/Index.tsx:58-70 | an answer is appended to the history captured when the send began; a failure leaves the messages and raises the fixed failure notice; loading is cleared either way |
| ChatPage.ChatState.HandleSendMessage | src/pages/Index.tsx:25-71 | a whole send over any exchange: the old history, then the user message, then the assistant's answer if one came; the send ends not loading |
| ChatPage.ChatState.HandleKeyDown | src/pages/Index.tsx:113-118 | Enter without Shift starts a send even while loading; any other key changes nothing |
| ChatPage.KeyFormBlocksSend | src/pages/Index.tsx:28-35 | without a usable key, no send is started |
| ChatPage.ChatState.ShowsKeyForm | src/pages/Index.tsx:146 | the key form replaces the conversation exactly when no usable key is stored, and then no send can start |
| ChatPage.ChatState.SendDisabled | src/pages/Index.tsx:201 | the button is disabled while loading; otherwise it is disabled exactly when a click would be ignored |
| ApiKeyForm.KeyToSave | src/components/ApiKeyForm.tsx:17-22 | nothing is saved exactly when the field is all whitespace; a saved key is non-empty, trimmed, stable under another trim, and part of what was typed |
| ApiKeyForm.KeyToSaveOfPadded | src/components/ApiKeyForm.tsx:19-20 | spaces typed around a key are dropped, and the key is saved as typed |
| ApiKeyForm.SaveDisabledExactlyWhenNothingSaved | src/components/ApiKeyForm.tsx:49 | the button is disabled exactly when a submit would save nothing |
| ApiKeyForm.KeyForm.constructor | src/components/ApiKeyForm.tsx:14-15 | the field starts as the initial value |
| ApiKeyForm.KeyForm.Change | src/components/ApiKeyForm.tsx:41 | the field takes the typed value |
| ApiKeyForm.KeyForm.Submit | src/components/ApiKeyForm.tsx:17-22 | hands over the key the submit rule picks, and nothing when the field is blank |
| GeminiApiKeyForm.InitialKey | src/components/GeminiApiKeyForm.tsx:16 | the initial value if non-empty, else the default; empty only when both are |
| GeminiApiKeyForm.AfterReset | src/components/GeminiApiKeyForm.tsx:18-23 | the field is set to the default exactly when there is no initial value and the default is non-empty; otherwise it keeps its value |
| GeminiApiKeyForm.MountResetKeepsInitialKey | src/components/GeminiApiKeyForm.tsx:16-23 | the effect's first run leaves the first value unchanged |
| GeminiApiKeyForm.KeyToSave | src/components/GeminiApiKeyForm.tsx:25-31 | the trimmed field if it is not blank, else the untrimmed default; nothing is saved exactly when the field is blank and the default is empty; a saved key is never empty |
| GeminiApiKeyForm.KeyToSaveOfPadded | src/components/GeminiApiKeyForm.tsx:27 | whitespace typed around a key is dropped and the key is saved as typed, whatever the default |
| GeminiApiKeyForm.DefaultMakesEverySubmitSave | src/components/GeminiApiKeyForm.tsx:27-30 | with a non-empty default, every submit saves a key |
| GeminiApiKeyForm.DefaultNotTrimmed | src/components/GeminiApiKeyForm.tsx:27 | a padded default is saved with its padding, while the same text typed into the field loses it |
| GeminiApiKeyForm.ShowsDefaultNotice | src/components/GeminiApiKeyForm.tsx:38 | the default notice shows when the field equals the default exactly; a submit then saves the default, trimmed unless it is all whitespace |
| GeminiApiKeyForm.MountShowsDefaultNotice | src/components/GeminiApiKeyForm.tsx:16-38 | a form mounted without an initial value shows the default notice |
| GeminiApiKeyForm.KeyForm.constructor | src/components/GeminiApiKeyForm.tsx:15-23 | after mounting, the field holds the initial key |
| GeminiApiKeyForm.KeyForm.ReceiveInitialValue | src/components/GeminiApiKeyForm.tsx:18-23 | the effect runs only when `initialValue` changes; a non-empty new value never replaces the field |
| GeminiApiKeyForm.KeyForm.Change | src/components/GeminiApiKeyForm.tsx:53 | the field takes the typed value |
| GeminiApiKeyForm.KeyForm.ShowsDefault | src/components/GeminiApiKeyForm.tsx:38 | the form shows the default notice for the field it holds; a submit then saves the trimmed default, unless the default is all whitespace, which is saved as it is |
| GeminiApiKeyForm.KeyForm.Submit | src/components/GeminiApiKeyForm.tsx:25-31 | hands over the key the submit rule picks |

## Left out

- HTTP transport (`fetch`, headers, status and body handling) is a function parameter. `GeminiOutcome` and `PerplexityOutcome` keep only the parts the code reads: the status, `ok`, the candidate or answer text, and the provider's `message`.
- A non-string `content` in the Perplexity answer is not modelled. The source would append it to the conversation as it is.
- A truthy `errorData.message` that is not a string is not modelled.
- Local storage, toasts, `console.error`, the JSX rendering, the settings dialog and the WhatsApp component are outside the model. The failure toast's text is kept as `ChatPage.FailureNotice`.
- Sends that overlap are modelled. Enter starts a send even while one is loading, and `BeginSend` and `Settle` are separate calls, so two sends can interleave. Each `Settle` sets the messages to the history its own send captured plus its answer, as the source's captured `newMessages` does. A later answer therefore drops an earlier one. React's batching of state updates and the order of renders are not modelled.
- `AnalysisJson.Decode` stands for `JSON.parse` only on the five-key object in the order `Serialize` writes it. Other shapes are treated as a parse failure:
  - other key orders;
  - escaped keys;
  - a `confidence` field or other extra fields;
  - numbers;
  - `\u` escapes that form surrogate pairs.
  
  The source accepts them and casts the result unchecked.
- AnalyzeReply: states `confidence == None` because of the restricted decoder above. The source passes any `confidence` through.
- `DEFAULT_GEMINI_API_KEY` is imported from `src/utils/geminiApi.ts`, which as it stands does not define it. Its value is a parameter that may be `""`.
- The key is pasted into the Gemini URL without URL-encoding, as in the source. The URL's syntax is not modelled further.
- The list bullet is the three characters U+00E2 U+20AC U+00A2. They are what the component's source file contains, the UTF-8 bytes of "•" read as Windows-1252. The model follows the file, not the intended "•".
- The page has no intent classifier, no placeholder assistant message while loading (loading is only the `isLoading` flag), and no key-format validation, so none is modelled.

## Findings

| source | as written | input that shows it | evidently intended | confidence | as-written member | corrected member |
|---|---|---|---|---|---|---|
| src/components/ChatMessage.tsx:36-39 | newlines become `<br>` before the heading rules run, so the rule's newline-or-end test never sees a newline and a heading runs to the end of the message | `"## Title\nbody"` gives `<h3>Title<br>body</h3>` | the heading ends at its own line: `<h3>Title</h3>body` | not executed | ChatFormat.HeadingSwallowsFollowingLines | ChatFormat.HeadingEndsAtLine |
| src/components/ChatMessage.tsx:36-46 | for the same reason the list rule matches once and runs to the end; later items keep their literal `- ` | `"- a\n- b"` gives one bullet, then `a<br>- b<br>` | every line starting with `- ` becomes its own bulleted item | not executed | ChatFormat.ListKeepsOnlyFirstBullet | ChatFormat.EveryItemBulleted |
