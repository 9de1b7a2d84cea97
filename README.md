# Chat orchestration of the generative-AI avatar demo, modelled in Dafny

The demo answers questions with a retrieval-augmented language-model chain behind
two serverless handlers. The chains, the retriever, the model, the chat-memory
store and the S3 signer are all external services. This project models the
deterministic code around them:

- **Text-generation handler** (`GenerateText`, in `generate_text.dfy`). This is the
  JavaScript Lambda. `formatChatHistory` appends one `Human:/Assistant:` turn to the
  history string that the browser holds and sends back on each request. `handler`
  runs the chain on the question and the incoming history, updates the history and returns status 200 with two
  wildcard CORS headers and the JSON body `{answer, chatHistory}`. The chain is a
  parameter of the handler. `Replay` models a conversation in which the client
  sends the returned history back with every question.
- **JSON text** (`Json`, in `json.dfy`). This is how `JSON.stringify` writes an
  object whose values are all strings. `ParseObject` is a decoder for that text:
  decoding what is written gives it back, so the body is proved to carry the answer and the new
  history, in that order.
- **Presigned URL helper** (`PresignedUrl`, in `presigned_url.dfy`). It splits an
  S3 object URL into bucket and key, exactly as Python's `str.split` and indexing
  do. The `IndexError` for short URLs is an explicit error. The `get_object`
  request is a fixed record, and the client's answer passes through unchanged.
- **Source-document projection** (`LangchainMemory`, in `langchain_memory.dfy`). This
  is the tail of the Python conversational Lambda. A loop turns each returned
  document into a `{title, source}` record, in order. The result is wrapped as the
  body of a 200/CORS response. Metadata keys that are missing raise an explicit
  `KeyError`.
- Shared modules: `Wrappers` (`Option`, `Result`), `Strings` (Python `split`,
  `join`, and lemmas about them) and `Http` (the response record and the
  status-200/CORS predicate).

Behaviour of the code worth knowing:

- Neither handler catches anything. A chain failure, or a `KeyError` in the
  document loop, makes the invocation fail. The handler does not map it to a 5xx
  response. The model returns `Failure` and produces no response.
- A missing `userPrompt` appears in the history as the text `undefined`, because
  that is what a JavaScript template literal writes for it.
- The Python handler's body is the `completion` record itself, not a JSON text.
- `formatChatHistory` also treats an empty-string history as absent (JavaScript
  falsiness). So an empty history starts a new one instead of getting a leading
  blank line.

## Model

| member | source | states |
|---|---|---|
| `GenerateText.FormatChatHistory` | amplify/backend/function/BedrockCharacterDemoGenerateText/src/index.js:37-47 | The result is never empty and always ends with the new `\n\nHuman: h.\n\nAssistant:a` fragment. With a falsy previous history (undefined or empty) it is exactly that fragment. Otherwise the previous history plus `\n\n` is a prefix, and the length is that prefix's length plus the fragment's, so the result is longer than the previous history and keeps it unaltered. |
| `GenerateText.FirstTurn` | amplify/backend/function/BedrockCharacterDemoGenerateText/src/index.js:42-45 | A falsy previous history gives exactly `"\n\nHuman: " + h + ".\n\nAssistant:" + a`, with no leading separator. |
| `GenerateText.LaterTurn` | amplify/backend/function/BedrockCharacterDemoGenerateText/src/index.js:46 | A non-empty previous history `p` gives exactly `p + "\n\n" + fragment`. |
| `GenerateText.TwoTurns` | amplify/backend/function/BedrockCharacterDemoGenerateText/src/index.js:42-46 | After two successive turns, the second history has the whole first history followed by `\n\n` as a prefix. |
| `GenerateText.NewInteraction` | amplify/backend/function/BedrockCharacterDemoGenerateText/src/index.js:42 | A turn's fragment always starts with `\n\nHuman: ` and ends with the assistant's answer. |
| `GenerateText.Replay` | src/helloWorldDemo.js:72-80 | The browser sends its stored history with each question and overwrites it with the history in the response (index.js:93 computes that value). Before any turn there is no history: the page starts from `''` (src/helloWorldDemo.js:14), which `formatChatHistory` treats like an absent history, so starting from `None` gives the same histories (`FirstTurn` covers both). After one or more turns the history is non-empty and ends with the last turn's fragment. |
| `GenerateText.ReplayIsJoin` | amplify/backend/function/BedrockCharacterDemoGenerateText/src/index.js:88-93 | After any non-empty sequence of turns, each fed the previous response's history, the history equals the turns' fragments in order joined by `\n\n`. No turn is rewritten, dropped or reordered. |
| `GenerateText.ReplayGrows` | amplify/backend/function/BedrockCharacterDemoGenerateText/src/index.js:93 | The history after the first `i` turns is a prefix of the history after all of them (append-only). |
| `GenerateText.Handler` | amplify/backend/function/BedrockCharacterDemoGenerateText/src/index.js:88-109 | Null query parameters give a `TypeError`. Otherwise the result is the chain's value on the incoming `chatHistory` and `userPrompt`: if that value is a failure, it propagates and there is no response; if it is an answer, the response is status 200 with exactly the two `*` CORS headers. Its body is the JSON object `{answer, chatHistory}`, where `answer` is the chain's answer and `chatHistory` is `FormatChatHistory` of the question (`undefined` when absent), that answer and the incoming history. The body is also proved to decode back to exactly that pair, in that order. |
| `Json.EscapeChar` | amplify/backend/function/BedrockCharacterDemoGenerateText/src/index.js:102-105 | ECMAScript's QuoteJSONString escape table, as `JSON.stringify` applies it to each character of `answer` and `chatHistory`. A character is written as itself exactly when it is not `"`, not `\` and not a control character below U+0020. Every other character becomes an escape that starts with `\`. The escape is 2 long exactly for `"`, `\`, U+0008, U+0009, U+000A, U+000C and U+000D. Otherwise it is 6 long: `\u00` followed by two lower-case hexadecimal digits whose value is the character's code. No output contains a raw control character. |
| `Json.Quote` | amplify/backend/function/BedrockCharacterDemoGenerateText/src/index.js:102-105 | `JSON.stringify` of a string opens and closes with a double quote. |
| `Json.QuoteWellFormed` | amplify/backend/function/BedrockCharacterDemoGenerateText/src/index.js:102-105 | A quoted string holds no raw control character, and every `"` between its two delimiters directly follows a backslash (which may itself be escaped). That the literal ends exactly at its closing quote is `Json.ParseQuote`. |
| `Json.StringifyObject` | amplify/backend/function/BedrockCharacterDemoGenerateText/src/index.js:102-105 | The compact text of an object with string values is braced, and it is `{}` exactly when there are no fields. Fields are written in the order given, which is JavaScript's order for distinct keys that are not array indices, such as `answer` and `chatHistory`. |
| `Json.ParseQuote` | amplify/backend/function/BedrockCharacterDemoGenerateText/src/index.js:102-105 | A string written as a JSON literal, followed by anything, decodes to the same string and leaves exactly what followed, so the literal cannot end early. |
| `Json.ObjectRoundTrip` | amplify/backend/function/BedrockCharacterDemoGenerateText/src/index.js:102-105 | Decoding the compact JSON text of an object with string values gives back the same fields in the same order. |
| `GenerateText.AnswerBody` | amplify/backend/function/BedrockCharacterDemoGenerateText/src/index.js:102-105 | The body `JSON.stringify({answer, chatHistory})` decodes to exactly the two fields `answer` and `chatHistory`, in that order, with the given values. |
| `Strings.Split` | amplify/backend/function/KendraBackedChatBotGenerationFunction/src/helpers/presigned_url.py:53-54 | Python `split` with one separator character never returns an empty list: even `"".split("/")` is one (empty) piece. |
| `Strings.SplitPieces` | amplify/backend/function/KendraBackedChatBotGenerationFunction/src/helpers/presigned_url.py:53-54 | There is one more piece than there are separators, and no piece contains the separator. |
| `Strings.JoinSplit` | amplify/backend/function/KendraBackedChatBotGenerationFunction/src/helpers/presigned_url.py:53-54 | Joining the pieces with the separator gives back the original string, so splitting loses nothing. |
| `PresignedUrl.BucketAndKey` | amplify/backend/function/KendraBackedChatBotGenerationFunction/src/helpers/presigned_url.py:53-54 | `IndexError` exactly when the URL has fewer than three `/`-pieces. Otherwise the bucket is a prefix of the third piece that is either all of it or ends where its first `.` is, and contains neither `/` nor `.`. The key contains no `/` and is the suffix of the URL after the last `/`. |
| `PresignedUrl.VirtualHostedUrl` | amplify/backend/function/KendraBackedChatBotGenerationFunction/src/helpers/presigned_url.py:53-54 | Take `https://b.host/k`, where `b` has no `.` or `/` and `k` has no `/`; `host` is arbitrary. It yields bucket `b` and key `k`. When `host` itself contains `/`, everything after its first `/` is a folder, and the proof reduces to `FolderDropped`. |
| `PresignedUrl.FolderDropped` | amplify/backend/function/KendraBackedChatBotGenerationFunction/src/helpers/presigned_url.py:54 | Take `https://b.host/folder/k`. It yields bucket `b` and key `k`: the folder part of the key is dropped. |
| `PresignedUrl.PresignRequestFor` | amplify/backend/function/KendraBackedChatBotGenerationFunction/src/helpers/presigned_url.py:59-61 | The request to sign is always `get_object`, with params of exactly the keys `Bucket` and `Key` bound to the split's bucket and key, and an expiry of 1000 seconds. It fails with `IndexError` exactly when the split does. |
| `PresignedUrl.GeneratePresignedUrl` | amplify/backend/function/KendraBackedChatBotGenerationFunction/src/helpers/presigned_url.py:32-43 | It succeeds exactly when the client does. It then returns the client's URL unchanged. Otherwise it re-raises the client's error as a `ClientError` with the same message. |
| `PresignedUrl.Generate` | amplify/backend/function/KendraBackedChatBotGenerationFunction/src/helpers/presigned_url.py:46-62 | `IndexError` exactly for URLs with fewer than three `/`-pieces. Otherwise it is the client's answer to the fixed `get_object` request, passed through. |
| `LangchainMemory.ProjectDocument` | src/langchain/langchain-memory.py:100-111 | A document projects to `{title: metadata.title, source: metadata.source}` whenever the four keys it reads are present, whatever the truthiness of `s3_document_id`. Otherwise it gives the `KeyError` of the first missing key, in lookup order: `title`, `document_attributes`, `s3_document_id`, `source`. |
| `LangchainMemory.CollectSourceDocuments` | src/langchain/langchain-memory.py:97-111 | Without `source_documents` it returns the empty list. Otherwise it succeeds exactly when every document projects. It then returns one record per document, in order, each that document's projection. A failure is the `KeyError` of the first document that does not project. |
| `LangchainMemory.LambdaHandler` | src/langchain/langchain-memory.py:97-126 | On success the response is status 200 with exactly the two `*` CORS headers. Its body is the completion record itself: `answer` is the chain's answer, and `sourceDocuments` is the projected list, empty when the key is absent. A projection failure propagates and there is no response. |

## Left out

- Chain execution: retriever, prompt templates and their rendering, the language
  model, output parsing, and the conversational retrieval chain. These are
  foreign library and network calls. In JavaScript the chain is a function
  parameter. In Python its result is an input record.
- DynamoDB chat memory and the conversation buffer. This is external persistence.
- The boto3 S3 client and URL signing (credentials, cryptography). The client is
  a function parameter. Only its request and the pass-through or re-raise of its
  answer are modelled.
- `PresignedUrl.GeneratePresignedUrl`: every failure of the client is labelled
  `ClientError`. In the code only botocore's `ClientError` is caught and logged
  before the re-raise. Other botocore exceptions (such as `ParamValidationError`)
  propagate under their own class without the log line. Either way the exception
  propagates, so only the label differs, and logging is not modelled.
- Environment reads at module load (src/langchain/langchain-memory.py:11-14). The
  model assumes these reads succeed, as `os.environ.get` would. As written, the code
  calls `os.get`, which does not exist, so loading the module raises
  `AttributeError` and `lambda_handler` is never reached.
- `json.loads` of the Python query string, client construction, region and model
  constants, logging and printing. These are I/O and library parsing whose results
  the model takes as inputs.
- The browser page (`src/helloWorldDemo.js`): 3D scene, speech, buttons and
  credentials. Its one piece of logic, overwriting the stored history with the
  server's value, is what `GenerateText.Replay` assumes.
- `index copy.js`, the type declarations and the Python `__main__` block: a
  variant handler, declarations only, and a manual test harness.
- Errors in Python other than a missing metadata key, such as a metadata value of
  the wrong type or a `source_documents` value that is not a list. The model's
  types rule them out.
- JavaScript strings are UTF-16, and `JSON.stringify` escapes lone surrogates.
  A Dafny `char` is a Unicode scalar value, so lone surrogates cannot occur here,
  and the decoder refuses `\u` escapes of surrogates.
- `Json.ParseObject` decodes only compact objects whose values are strings, with
  no whitespace, because that is all `JSON.stringify` writes for this body. It is
  not a full JSON parser.
- Concurrency and the asynchronous suspension at each external call. Each
  handler invocation depends only on its inputs, so the model treats it as one
  sequential step.
