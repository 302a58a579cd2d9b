# YouTube thumbnail generator: a Dafny model of its client logic

The application is a browser form. The user enters a video title and picks a
headshot image. The form reads the image as a data URL and splits it into payload
and MIME type. It sends both, with a prompt that quotes the title, to a hosted
image-generation service. It then interprets the service's structured response as
an image or as an error message, and a preview pane shows one of five views.

The model has five modules:

- `Js` (`js.dfy`): the JavaScript semantics the code relies on.
  - `null`/`undefined` as `Option`.
  - String truthiness: a string is truthy when present and non-empty.
  - `String.prototype.split` with a one-character separator, and `join`, which undoes the split.
  - Indexing past the end of an array gives `undefined`.
  - `Array.prototype.find`.
  - `${x}` interpolation of a possibly-undefined string.
- `FileUtils` (`file_utils.dfy`): `fileToBase64`. It parses the `data:<mime>;base64,<payload>`
  string that `readAsDataURL` produces (the syntax of section 3 of RFC 2397).
- `GeminiService` (`gemini_service.dfy`): `generateThumbnail`.
  - The API-key guard.
  - The request: model name, image part then prompt part, and the response modalities.
  - The response: the first inline-data part of the first candidate wins. If there is none,
    a `'SAFETY'` finish reason gives a fixed message. Otherwise the message is the no-image
    sentence followed by the first non-empty text.
  - Every error inside the `try` is re-wrapped as `"Failed to generate thumbnail. " + message`.
- `ThumbnailPreview` (`thumbnail_preview.dfy`): the priority choice among spinner, error,
  generated image, headshot preview and placeholder, and the download link.
- `ThumbnailGenerator` (`thumbnail_generator.dfy`): the form's six state fields.
  - Each handler has a pure transition on a `FormState` value.
  - The class `Form` holds the fields as mutable state. Its methods run the handlers'
    setter sequences, including the `try`/`catch`/`finally` of `handleSubmit`.
  - Each method is proved to produce exactly the transition's new state.
  - The properties are lemmas about the transitions.

Inputs replace the effects that cannot be modelled:
- The outcome of each FileReader read: a loaded string, or the error event that `onerror` passes.
- The `API_KEY` environment variable, as `Option<string>`.
- The service's reply: a structured response or a thrown value.

`GenerateThumbnail` returns the request it would send, or `None` when it sends
none. This is how "no request before the key check" is stated.

Three behaviours of the code matter here:
- An inline-data part whose `data` is missing is still taken as the image
  (services/geminiService.ts:46-48). Its `data` is returned as `undefined`, and the
  thumbnail then reads `...;base64,undefined`.
- A failed read rejects with the FileReader's event, which is not an `Error`
  (utils/fileUtils.ts:14). So the form shows `'An unknown error occurred.'`, not the
  underlying cause.
- Neither the parser nor the service checks the MIME type. The three accepted types come
  only from the file input's `accept` attribute, which is not modelled.

## Model

| member | source | states |
|---|---|---|
| `Js.Split` | utils/fileUtils.ts:10-11 | `split` with a one-character separator: at least one field; no field contains the separator; two or more fields exactly when the separator occurs; every character of a field occurs in the input |
| `Js.JoinSplit` | utils/fileUtils.ts:10-11 | Joining the fields of a split with the separator gives back the input, so no character is lost |
| `Js.SplitAtFirst` | utils/fileUtils.ts:10-11 | A separator-free prefix followed by the separator is the first field, and the remainder is split on its own |
| `Js.SecondFieldIs` | utils/fileUtils.ts:10-11 | `split(sep)[1]` is exactly the text between the first separator and the next one, or the end |
| `Js.FirstFieldIsPrefix` | utils/fileUtils.ts:11 | `split(sep)[0]` is a prefix of the input that is either the whole input or followed by the separator |
| `Js.Find` | services/geminiService.ts:44 | `find` returns `undefined` exactly when no element satisfies the predicate; otherwise it returns an element that satisfies it, with no earlier element satisfying it |
| `Js.FindIndex` | services/geminiService.ts:52 | The index `find` stops at: in range, satisfying the predicate, with every earlier element failing it; `None` exactly when none satisfies it |
| `FileUtils.ParseDataUrl` | utils/fileUtils.ts:10-11 | The payload is present exactly when the reader result contains a comma, and it never contains a comma. The MIME type never contains `;` or `:` |
| `FileUtils.FileToBase64` | utils/fileUtils.ts:6-14 | Rejects exactly when the read fails, with the reader's event, and never resolves then; on load it resolves with the parsed result |
| `FileUtils.DataIsSecondCommaField` | utils/fileUtils.ts:10 | For any `pre , d rest` with no comma in `pre` or `d` and `rest` empty or starting with a comma, the payload is exactly `d` |
| `FileUtils.MimeTypeIsSecondColonField` | utils/fileUtils.ts:11 | The MIME type is exactly the text between the first colon and the next colon (or the end) of the part before the first semicolon |
| `FileUtils.MimeTypeNeedsColonBeforeSemicolon` | utils/fileUtils.ts:11 | The MIME type is present exactly when a colon comes before the first `;`, or anywhere when there is no `;`. Otherwise, as in `"data;x:y"`, it is `undefined` |
| `FileUtils.DataHasNoBase64Marker` | utils/fileUtils.ts:8-10 | No slice of the payload equals `;base64,` |
| `ThumbnailGenerator.DataUrlRoundTrip` | components/ThumbnailGenerator.tsx:48 | Parsing `"data:" + m + ";base64," + d` gives exactly `(d, m)` when `m` has no `,`, `;` or `:` and `d` has no `,` |
| `GeminiService.Prompt` | services/geminiService.ts:14-20 | The prompt is the fixed introduction, a double quote, the title, a double quote and the fixed closing text: the text before and after the quoted title is the same whatever the title |
| `GeminiService.PromptInjective` | services/geminiService.ts:16 | Equal prompts come from equal titles: the title can be read back from the prompt |
| `GeminiService.BuildRequest` | services/geminiService.ts:24-42 | The request names the model and has two parts: the inline image (data and MIME type passed through) first, then the prompt text. It asks for image and text back |
| `GeminiService.FirstCandidate` | services/geminiService.ts:44 | `candidates?.[0]` is present exactly when the list is present and non-empty, and is its first element |
| `GeminiService.Interpret` | services/geminiService.ts:44-66 | The interpretation succeeds exactly when some part of the first candidate carries inline data; a failure is the safety message or starts with the no-image sentence. `SuccessIsFirstInlinePart`, `InlinePartWins`, `LaterCandidatesIgnored`, `MissingShapeMeansNoImage`, `SafetyMessageFixed` and `NoImageMessageCarriesFirstText` state which image and which message |
| `GeminiService.NoImageReason` | services/geminiService.ts:52-66 | The message is the safety text exactly when the first candidate's finish reason is `'SAFETY'`; otherwise it starts with the no-image sentence |
| `GeminiService.MessageOf` | services/geminiService.ts:70 | No contract of its own: `error.message` for an `Error`, `''` otherwise. `FailuresAreWrapped` states how it enters the wrapped message |
| `GeminiService.GenerateThumbnail` | services/geminiService.ts:7-71 | No request is sent exactly when the API key is falsy; that failure is the unwrapped configuration message. Otherwise the request is `BuildRequest` of the inputs, and every failure is an `Error` whose message starts with the generic prefix |
| `GeminiService.SuccessIsFirstInlinePart` | services/geminiService.ts:44-50 | A success returns, verbatim, the inline data of the first part of the first candidate that has inline data; every earlier part has none |
| `GeminiService.InlinePartWins` | services/geminiService.ts:44-46 | Any part with inline data makes the interpretation succeed, whatever the finish reason (even `'SAFETY'`) and the text parts |
| `GeminiService.LaterCandidatesIgnored` | services/geminiService.ts:44-53 | Candidates after the first never change the interpretation |
| `GeminiService.MissingShapeMeansNoImage` | services/geminiService.ts:44-53 | Missing candidates, content or parts fail with the safety or the bare no-image message, without crashing |
| `GeminiService.SafetyMessageFixed` | services/geminiService.ts:62-64 | With no image part and finish reason `'SAFETY'`, the message is the fixed safety text, whatever the text parts say |
| `GeminiService.NoImageMessageCarriesFirstText` | services/geminiService.ts:52-66 | Otherwise the message starts with the no-image sentence. It is followed by the text of the first part with non-empty text, or by nothing if there is none |
| `GeminiService.FailuresAreWrapped` | services/geminiService.ts:68-71 | Failures inside the `try` end as `Error("Failed to generate thumbnail. " + message)`. For a thrown call the message is the `Error`'s own message, or `''` when the thrown value is not an `Error`. A successful interpretation is returned unchanged |
| `GeminiService.InlineImageRoundTrip` | services/geminiService.ts:44-50 | A reply whose first part carries an inline image yields exactly that data and MIME type |
| `ThumbnailPreview.SelectView` | components/ThumbnailPreview.tsx:33-43 | Each of the five views, stated as an iff over the inputs. Loading gives the spinner. The error shows only when it is truthy and no thumbnail is truthy. A thumbnail wins over the headshot preview. The placeholder appears only when all four inputs are falsy. Each view shows the value it was chosen for |
| `ThumbnailPreview.Download` | components/ThumbnailPreview.tsx:45-48 | The link exists exactly when the thumbnail is truthy, whatever the loading flag and the error. It points at the thumbnail and is always named `youtube_thumbnail.png` |
| `ThumbnailPreview.ThumbnailHidesErrorAndPreview` | components/ThumbnailPreview.tsx:33-38 | With a non-empty thumbnail the generated image shows whatever the error and preview, unless loading, which shows the spinner |
| `ThumbnailPreview.EmptyIsAbsent` | components/ThumbnailPreview.tsx:35-45 | An empty string in any input selects the same view and link as an absent one |
| `ThumbnailGenerator.SelectedFile` | components/ThumbnailGenerator.tsx:18 | `files?.[0]`: present exactly when the list is present and non-empty, and is its first file |
| `ThumbnailGenerator.FileChanged` | components/ThumbnailGenerator.tsx:17-32 | No contract of its own. `FileChangeRules` states each case and `FileLimitInvariant` that it keeps the 4 MiB limit; `Form.HandleFileChange` is proved equal to it |
| `ThumbnailGenerator.PreviewLoaded` | components/ThumbnailGenerator.tsx:27-29 | No contract of its own. `FileLimitInvariant` states that it keeps the limit; `Form.OnPreviewLoadEnd` is proved equal to it |
| `ThumbnailGenerator.FileChangeRules` | components/ThumbnailGenerator.tsx:17-32 | No file: no change. Over 4·1024·1024 bytes: the too-large error, with file and preview kept. Otherwise, including exactly 4 MiB: the error is cleared, the file is set and the preview is not touched. Loading, title and thumbnail are never changed |
| `ThumbnailGenerator.FileLimitInvariant` | components/ThumbnailGenerator.tsx:10-55 | A recorded headshot is never over 4 MiB: the invariant holds initially and every handler preserves it |
| `ThumbnailGenerator.InvalidSubmitOnlySetsError` | components/ThumbnailGenerator.tsx:35-38 | An empty title or no file sets the validation error and changes nothing else; no request is made |
| `ThumbnailGenerator.SubmitStarted` | components/ThumbnailGenerator.tsx:40-42 | No contract of its own. `ValidSubmitSettles` states that it turns loading on, clears the error and the thumbnail, and shows the spinner |
| `ThumbnailGenerator.ErrorText` | components/ThumbnailGenerator.tsx:50 | No contract of its own. `ReadFailureIsUnknownError` states the non-`Error` case, `MissingApiKeyNotWrapped` the `Error` case, and `Pipeline` that every failure's text is non-empty |
| `ThumbnailGenerator.DataUrl` | components/ThumbnailGenerator.tsx:48 | No contract of its own. `DataUrlRoundTrip` states that parsing it gives back the payload and MIME type |
| `ThumbnailGenerator.ThumbnailOf` | components/ThumbnailGenerator.tsx:48 | No contract of its own. `SuccessfulSubmit` states that the thumbnail is the data URL of exactly the returned image |
| `ThumbnailGenerator.SubmitSettled` | components/ThumbnailGenerator.tsx:48-54 | No contract of its own. `ValidSubmitSettles` states that loading ends and exactly one of thumbnail and error is truthy |
| `ThumbnailGenerator.Submitted` | components/ThumbnailGenerator.tsx:34-55 | No contract of its own. `InvalidSubmitOnlySetsError`, `ValidSubmitSettles`, `ReadFailureIsUnknownError`, `MissingApiKeyNotWrapped` and `SuccessfulSubmit` state its cases; `Form.HandleSubmit` is proved equal to it |
| `ThumbnailGenerator.ValidSubmitSettles` | components/ThumbnailGenerator.tsx:40-54 | Before any call: loading is on, error and thumbnail are cleared, and the spinner shows. After: loading is off, and exactly one of thumbnail and error is truthy. On success the thumbnail is the data URL of the result, the preview shows it and the download appears. On failure the error is the message, the thumbnail stays cleared and the error view shows |
| `ThumbnailGenerator.Pipeline` | components/ThumbnailGenerator.tsx:44-47 | A failed read stops before any request and rejects with the reader's event. A loaded read passes the parsed payload and MIME type to `generateThumbnail`. Every failure has a non-empty message for the form |
| `ThumbnailGenerator.ReadFailureIsUnknownError` | components/ThumbnailGenerator.tsx:45-50 | A failed headshot read sends no request and shows `'An unknown error occurred.'` |
| `ThumbnailGenerator.MissingApiKeyNotWrapped` | services/geminiService.ts:8-10 | Without an API key, the form shows the configuration message without the generic prefix, and no request is made |
| `ThumbnailGenerator.SuccessfulSubmit` | components/ThumbnailGenerator.tsx:44-48 | End to end: the request carries exactly the headshot's payload and type, and the thumbnail is the data URL of exactly the returned image |
| `ThumbnailGenerator.EnabledButtonSubmits` | components/ThumbnailGenerator.tsx:101 | An enabled button means that nothing is loading and that a submit passes validation |
| `ThumbnailGenerator.SubmitDisabled` | components/ThumbnailGenerator.tsx:101 | No contract of its own. `EnabledButtonSubmits` states that an enabled button means nothing is loading and validation passes |
| `ThumbnailGenerator.Form.SubmitButtonDisabled` | components/ThumbnailGenerator.tsx:101 | Disabled exactly when loading, or when the title is empty or no file is set |
| `ThumbnailGenerator.Form.constructor` | components/ThumbnailGenerator.tsx:10-15 | The six fields start empty, absent, or false |
| `ThumbnailGenerator.Form.SetTitle` | components/ThumbnailGenerator.tsx:68 | Only the title changes |
| `ThumbnailGenerator.Form.HandleFileChange` | components/ThumbnailGenerator.tsx:17-32 | The new state is `FileChanged` of the old one |
| `ThumbnailGenerator.Form.OnPreviewLoadEnd` | components/ThumbnailGenerator.tsx:27-29 | Only the preview changes, to the reader's result (`null` if the read failed) |
| `ThumbnailGenerator.Form.BeginSubmit` | components/ThumbnailGenerator.tsx:35-42 | Proceeds exactly when the submission is valid. The new state is then the started state; otherwise only the validation error is set |
| `ThumbnailGenerator.Form.FinishSubmit` | components/ThumbnailGenerator.tsx:44-54 | Sends the request that `Pipeline` sends. The new state is the settled state for the pipeline's result |
| `ThumbnailGenerator.Form.HandleSubmit` | components/ThumbnailGenerator.tsx:34-55 | The new state is `Submitted` of the old one, and the request sent is `SubmitRequest` of it |
| `ThumbnailGenerator.ScenarioGeneratesPng` | components/ThumbnailGenerator.tsx:34-55 | Driving a new form through its handlers: title "My Craziest Adventure Yet!", a 2 MB JPEG, a configured key and a PNG reply. The request carries the JPEG's payload and type, the thumbnail is the PNG's data URL, loading is off and there is no error |
| `ThumbnailGenerator.ScenarioMissingApiKey` | services/geminiService.ts:8-10 | The same submit without a key sends no request, whatever the service would answer. It leaves no thumbnail, and the error is the configuration message |

## Left out

- The SDK and the network call (services/geminiService.ts:2-5, 24-42). They are a foreign
  library: the reply is an input and the request is a value.
- The FileReader and the base64 encoding the browser does (utils/fileUtils.ts:3-5,
  components/ThumbnailGenerator.tsx:26-30). The read's end is an input. A successful read
  is assumed to produce whatever string it is given.
- The asynchronous timing. A preview read may end before or after later events; the model
  exposes `OnPreviewLoadEnd` as a separate step that can be called at any point. A submit
  runs to completion in one `HandleSubmit`, and `BeginSubmit` and `FinishSubmit` show its
  state at the `await`. React's re-rendering and `useCallback` capture are not modelled
  beyond passing the title captured at submit time.
- `console.error` logging and `safetyRatings`, which are only logged
  (services/geminiService.ts:54-60, 69; components/ThumbnailGenerator.tsx:51).
- components/Header.tsx, App.tsx, the JSX markup, CSS classes, icons and spinner texts:
  presentation only.
- The file input's `accept` filter for PNG, JPEG and WEBP. It is an attribute of the
  markup and no modelled code checks it.
- `Js.Split`: defined only for a one-character separator, the only kind the code uses.
