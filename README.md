# Code Analyzer relay server — a Dafny model

The Code Analyzer server accepts a POST to `/api/get-data` whose JSON body holds
`code`, `type`, `level` and `language`. It rejects a request that lacks `code` or
`type`, or whose `type` is none of `analyze`, `optimize` and `explain`, with HTTP 400.
Otherwise it fills the matching prompt template and sends the prompt to a chat
completion endpoint. It answers 200 with the first choice's content, trimmed, and
answers with a fixed apology when that call fails in any way.

This project models the handler as pure functions and proves facts about it:

- `wrappers.dfy`: `Option`, used for body fields that may be absent and for reply
  fields that may be missing.
- `strings.dfy`: the two JavaScript string operations the handler uses. `Trim`
  (`String.prototype.trim`) uses the full ECMAScript whitespace set. `Lower`
  (`String.prototype.toLowerCase`) lower-cases ASCII letters only. The file also
  holds prefix, suffix and infix predicates with small lemmas about them.
- `server.dfy`: the whole handler.
  - `Handle` covers validation and template choice. The template text is
    character-for-character the source's, split into constants.
  - `BuildPrompt` assembles a prompt from the template.
  - `Extract` reads the completion reply, standing in for `askGroq`'s return and
    catch.
  - `Serve` covers the whole request: the prompt it sends upstream, if any, and the
    HTTP response. The outbound call is a parameter `upstream: string -> Reply`.

The body field `type` is called `action` in the model, because `type` is a Dafny
keyword. A body field is `Option<string>`: `None` stands for undefined or null.
JavaScript falsiness of such a field is `Falsy`: absent or the empty string.

Each template fragment `X` has a lemma `XHasNoBacktick`. Together these state that
the only Markdown fence in any template is the optimize prompt's code block.

## Model

| member | source | states |
|---|---|---|
| Server.ParseAction | server/server.js:61-70 | a `type` selects an action exactly when it equals one of the three lower-case names (strict equality, case-sensitive), and the action selected has that name |
| Server.ActionNameParses | server/server.js:61-69 | each of the three names selects its own template |
| Server.Falsy | server/server.js:56 | the `!code` / `!type` test: a string field is falsy exactly when it is absent or the empty string |
| Server.Handle | server/server.js:56-72 | 400 "Code and type are required." exactly when `code` or `type` is falsy; otherwise 400 "Invalid analysis type." exactly when `type` is no known name; otherwise the prompt of that template |
| Server.BuildPrompt | server/server.js:62-68 | the three template literals, with the language verbatim in the opening sentence, the lower-cased language in the optimize fence, the lower-cased level and the code interpolated |
| Server.PromptEndsWithCode | server/server.js:62-68 | every template ends with "\n\nCode:\n\n" followed by the submitted code, verbatim |
| Server.PromptOpensWithLanguage | server/server.js:62-68 | analyze and optimize prompts start "I have the following <language> code."; explain prompts start "Please provide a clear and detailed explanation of the following <language> code."; in both, the language is not lower-cased |
| Server.PromptNamesLevel | server/server.js:62-68 | every prompt contains "a <level lower-cased> level developer" |
| Server.BeforeInPrompt | server/server.js:62-68 | any text in a template's requests before the audience phrase appears in the prompt |
| Server.OptimizePromptAsksForRewrite | server/server.js:65 | the optimize prompt asks whether the code is already optimized, asks for an optimized version of the code, and opens a fence of three backticks, the lower-cased language and a line break |
| Server.OnlyOptimizeHasFence | server/server.js:62-68 | analyze and explain prompts contain a backtick only when the code, level or language does |
| Server.OptimizeFenceIsTheOnlyOne | server/server.js:65 | when the code, level and language hold no backtick, the optimize prompt is some text, the fence opening, "code\n```", then more text, and neither text part holds a backtick: the fence is the only one |
| Server.Extract | server/server.js:42-45 | a reply with a first choice whose content is a string yields that content trimmed; a failed call, a missing `choices`, an empty array or a missing content yields "❌ Failed to process the request."; the result never starts or ends with whitespace |
| Server.ExtractConflatesFailure | server/server.js:42-45 | a model answer that is the apology padded with whitespace on either side cannot be told apart from a failed call |
| Server.Serve | server/server.js:53-77 | a request answers 400 exactly when `Handle` rejects it, and then no prompt is sent and the error is `Handle`'s; otherwise the one prompt sent is `Handle`'s, and the 200 body's `data` is `Extract` of the upstream reply to it |
| Server.RejectionOrder | server/server.js:56-72 | the missing-field check comes before the type check, and neither makes an outbound call |
| Server.AcceptedRequest | server/server.js:56-76 | non-empty code (whitespace-only included) with a known type sends exactly the template prompt and answers 200 with already-trimmed data |
| Server.UpstreamFailureIsSwallowed | server/server.js:42-76 | an upstream failure is still a 200, whose data is the apology |
| Server.FirstChoiceIsTrimmed | server/server.js:42-76 | with a usable first choice, the 200 data is its content trimmed, whatever the other choices hold |
| Server.ExampleOptimizePython | server/server.js:65 | language "Python" opens the fence as "```python\n" |
| Server.ExampleRejections | server/server.js:56-72 | empty code with `analyze` gives the required-fields error; `bogus` gives the invalid-type error |
| Server.ExampleTrim | server/server.js:42 | one space, "O(n)" and a line break trim to "O(n)" |
| Server.ExampleTrimmedReply | server/server.js:42 | a reply " O(n)" followed by a line break is returned as "O(n)" |
| Strings.TrimStart | server/server.js:42 | removes exactly a whitespace-only prefix, leaving a suffix that does not start with whitespace |
| Strings.TrimEnd | server/server.js:42 | removes exactly a whitespace-only suffix, leaving a prefix that does not end with whitespace |
| Strings.Trim | server/server.js:42 | the result is no longer than the input and has no whitespace at either end |
| Strings.TrimIsInfix | server/server.js:42 | the trim is a contiguous slice of the input, and all it cut off is whitespace |
| Strings.TrimUnique | server/server.js:42 | whitespace + t + whitespace trims to t whenever t has no edge whitespace |
| Strings.TrimIdempotent | server/server.js:42 | trimming is idempotent, and a string is its own trim exactly when it has no edge whitespace |
| Strings.TrimEmpty | server/server.js:42 | a string trims to "" exactly when it is all whitespace |
| Strings.LowerChar | server/server.js:62 | an upper-case ASCII letter maps to its lower-case letter; every other character maps to itself |
| Strings.Lower | server/server.js:62-68 | same length; lower-cased character by character |
| Strings.LowerFixedPoints | server/server.js:62-68 | the result has no upper-case letter, a string is left unchanged exactly when it has none, and lower-casing is idempotent |
| Strings.LowerKeepsAbsent | server/server.js:65 | lower-casing neither adds nor removes a non-letter such as a backtick |

## Left out

- The Express app, JSON body parsing, CORS set-up, `dotenv`, the `GET /` route and `listen` (lines 1-23, 49-51, 79-83): framework plumbing, not logic.
- The HTTP POST to the completion endpoint (lines 27-40), with its URL, key, model name and temperature. It is the parameter `upstream`, so the model assumes nothing about what the language model answers. It does assume that the call settles: `upstream` is a total function, and a call that never completes (no timeout is set) is not modelled.
- The `console.error` logging in the catch (line 44): output only.
- Body fields that are not strings (numbers, objects, arrays). A field is either a string or absent. A truthy non-string `type` would get the invalid-type 400, and that path is not modelled.
- Server.Handle: takes `level` and `language` as strings. When `level` is undefined, or when `language` is undefined in the optimize template, `.toLowerCase()` throws a `TypeError` inside the async handler. The source does not say what Express and Node then do: no response, a process crash or a 500. None of this is modelled. When `language` alone is undefined in the analyze or explain template, nothing throws and it is interpolated as "undefined"; that case is not modelled either.
- Strings.Lower: lower-cases ASCII letters only. Beyond ASCII, JavaScript applies the full Unicode case mapping, which is not modelled.
- Strings.Trim: strings are sequences of Unicode scalar values, so a lone UTF-16 surrogate cannot be represented.
- The React client under client/ is not part of this model.
