# Submission server: a Dafny model

This project models the core of a small build-and-deploy server. The server
accepts a task submission on `POST /api/submit`:

1. It validates the request and checks a shared secret.
2. It acknowledges the submission at once.
3. In the background it does the rest:
   - saves the attached files, which arrive as data URLs;
   - asks a language model (or a built-in template) for a static web app;
   - writes the app into a project directory named after the task, adding a default `LICENSE` and `README.md` where missing;
   - publishes the project to GitHub;
   - posts a callback to the evaluator's URL, retrying with exponential backoff.

Modules, one file each:

| module | file | what it holds |
|---|---|---|
| `Wrappers` | wrappers.dfy | `Option`, and one sequence fact used by the loops |
| `JsValues` | js_values.dfy | JavaScript values of a JSON body, truthiness (`Truthy`), `String(v)` as template literals use it (`Display`) |
| `Encoding` | encoding.dfy | UTF-8, padded base64 (section 4 of RFC 4648), and what the model needs of a base64 encoder |
| `Intake` | intake.dfy | required-field validation, the secret check and the acknowledgement |
| `Attachments` | attachments.dfy | reading `{name, url}` items, cutting the data-URL prefix |
| `RepoName` | repo_name.dfy | `task.replace(/[^a-z0-9-]/gi, "-").toLowerCase()` |
| `Generator` | generator.dfy | `generateApp`: base64 normalisation loop, result selection; `fallbackGenerate` |
| `Project` | project.dfy | the submission's temporary directory (`class Workspace`), ordered writes, default files, the assembled project |
| `Notifier` | notifier.dfy | `postWithRetries`: the bounded retry loop and its backoff log |
| `Server` | server.dfy | the handler: the response, then the background pipeline; the callback record |

## How the model is built

- **The request body** is a map from property name to a JavaScript value. An
  absent property reads as `undefined`.
- **The immediate response** is a function, `Intake.ImmediateResponse`.
- **The background pipeline** is written twice:
  - as specification functions, `Server.Background` and its stages
    `LaterEvents`, `LaterTree` and `Publication`;
  - as imperative methods that follow the handler statement by statement
    (`SaveAttachments`, `WriteProject`, `PublishAndNotify`,
    `BuildAndPublish`, `RunInBackground`, `HandleSubmit`).

  Each method's postcondition says it computes what the function describes.
  Both loops of the handler (attachments, generated files) are `while` loops
  that write into a `Workspace` object in place.
- **The temporary directory** is a `map<string, seq<uint8>>` from a path
  relative to it to the file's bytes. `existsSync` is true for a file or for
  a directory, that is, when some file lies below the path.
- **Everything outside the handler's code** is a parameter (`Server.World`):
  - the language-model client, as `Generator.Backend`: no API key, a call
    that failed, or a parsed reply whose `files` is or is not an array;
  - Node's base64 encoder and decoder;
  - the current year;
  - the publisher's outcome: a commit sha, or an exception;
  - the evaluator's answer to each POST: a status code, or an exception.
- **Sleeping** is replaced by a ghost log of delays.
- **A thrown exception** ends the background pipeline. The handler's `catch`
  logs it and nothing more, so the model records a final `Aborted` event.
- **Generation**: `Generator.Generated` is the case split of `generateApp`,
  `None` when it throws.
  `Generator.NormaliseReply` is its in-place loop over the reply's files.
- **Base64 encoding and decoding** are parameters `encode` and `decode`.
  The properties about normalisation assume only
  `Encoding.IsBase64TextEncoder(encode)`: the empty text encodes to the
  empty text, and any other text to a non-empty run of base64 characters.
  `Encoding.Base64OfText` writes one encoder out and meets that requirement.
  The two properties about the bytes that land on disk,
  `Server.TemplatesLand` and `Server.FallbackProjectHoldsTemplates`, also
  assume that `decode` inverts `encode`: `decode(encode(s))` is the UTF-8 of
  `s`.

Three behaviours of the code worth knowing, which the model keeps:

- **Repository names.** `task.replace(/[^a-z0-9-]/gi, "-")` (server.js:87)
  replaces every character outside `[a-z0-9-]` with `-` rather than
  removing it. The name therefore keeps the task id's length, one `-` per
  UTF-16 code unit, and a character outside the Basic Multilingual Plane
  becomes `--`.
- **Attachment names.** `path.join(tmp, a.name)` (server.js:71) is used as
  it is: an attachment name that points outside the temporary directory is
  not rejected, and the model adds no such check.
- **Where the pipeline can throw.** Besides an unreadable attachment, a
  task that is not text and a failed publish, the pipeline stops in two
  earlier places:
  - `${payload.task}` in the directory name (server.js:65) throws for an
    object with its own `toString` property;
  - `generateApp` builds its prompt before anything else and outside its
    `try` (generator.js:14-25). It throws for a brief that does not
    convert, and for `attachments` that are truthy but not an array
    (generator.js:19).

  A task that does not convert, and attachments that are truthy but not an
  array, end the run with nothing saved, generated, written or posted. A
  brief that does not convert ends it after the attachments have been
  saved, with nothing generated, written or posted.

## Model

| member | source | states |
|---|---|---|
| JsValues.Truthy | server/server.js:53 | `!!v`: `undefined`, `null`, `false`, `0` and `""` are falsy, every other value (arrays and objects included) truthy |
| JsValues.Displayable | server/server.js:65 | `String(v)` returns instead of throwing: false for an object with its own `toString` property, or an array holding such a value at any depth |
| JsValues.Display | server/server.js:65 | `String(v)`: `undefined`, `null`, booleans and integers as JavaScript prints them, strings as they are, arrays joined with `,` (empty for `null`/`undefined`), objects `[object Object]` |
| Intake.FirstFalsy | server/server.js:52-53 | the index of the first falsy key, with every key before it truthy; none exactly when all keys are truthy |
| Intake.ImmediateResponse | server/server.js:52-59 | 400 exactly when a required field is falsy, with body `"<first falsy field> missing"`; 403 "invalid secret" exactly when all are present and `secret` is not strictly equal to the shared secret; 200 `{status:"accepted", task, round}` exactly otherwise |
| Intake.RoundZeroIsMissing | server/server.js:53 | `round: 0` after present `email`, `secret`, `task` yields 400 "round missing" whatever the secret |
| Intake.EmptyEmailIsMissing | server/server.js:53 | an empty-string `email` yields 400 "email missing" before anything else is looked at |
| Attachments.ParseAttachment | server/server.js:70-72 | an item is usable exactly when it is an object whose `name` and `url` are strings, and then yields those strings |
| Attachments.ParsedPrefix | server/server.js:70-75 | the attachments the loop gets through: each reads as the corresponding item, and the item after them, if any, cannot be read |
| Attachments.ParsedPrefixStep | server/server.js:70-75 | at each step the next item either reads as the next attachment of the prefix or is the one the loop stops at |
| Attachments.IndexOf | server/server.js:72 | `indexOf`: none exactly when the character is absent, else its first position |
| Attachments.StripDataPrefix | server/server.js:72-73 | the payload text is a suffix of the url, and the whole url when it holds no comma |
| Attachments.StripDataPrefixRoundTrip | server/server.js:72-73 | for a prefix without a comma, `prefix + "," + data` strips to exactly `data` |
| RepoName.Sanitise | server/server.js:87 | the name holds only `[a-z0-9-]` and has as many characters as the task id has UTF-16 code units |
| RepoName.SanitiseCharwise | server/server.js:87 | inside the Basic Multilingual Plane, position by position: ASCII letters lowered, digits and `-` kept, every other character replaced by `-` |
| RepoName.AstralCharBecomesTwoDashes | server/server.js:87 | a character outside the Basic Multilingual Plane becomes `--` |
| RepoName.SanitiseKeepsRepoNames | server/server.js:87 | a name already made of `[a-z0-9-]` is unchanged |
| RepoName.SanitiseIdempotent | server/server.js:87 | sanitising twice is sanitising once |
| Encoding.Utf8Char | server/llm/generator.js:9 | a character takes 1 to 4 bytes, and 1 exactly when it is ASCII |
| Encoding.Utf8Encode | server/llm/generator.js:9 | the encoding has between 1 and 4 bytes per character |
| Encoding.Sextet | server/llm/generator.js:9 | every 6-bit value maps to a base64 digit other than `=` |
| Encoding.Base64Encode | server/llm/generator.js:9 | `4 * ceil(n / 3)` characters, all in `[A-Za-z0-9+/=]` |
| Encoding.Base64OfText | server/llm/generator.js:9 | `base64(s)` is made of base64 characters and is empty exactly when `s` is |
| Encoding.Base64OfTextIsEncoder | server/llm/generator.js:9 | the written-out encoder meets the requirement the rest of the model places on `encode` |
| Generator.Base64RunLength | server/llm/generator.js:42 | the longest prefix of `[A-Za-z0-9+/=]` characters |
| Generator.LooksLikeBase64IffMatches | server/llm/generator.js:42 | the greedy test agrees, on every string, with `/^[A-Za-z0-9+/=]+\s*$/`: a non-empty base64 run followed only by whitespace |
| Generator.AllBase64CharsLooksLikeBase64 | server/llm/generator.js:42 | non-empty text made only of base64 characters passes the test |
| Generator.NormalisedContentIdempotent | server/llm/generator.js:41-45 | a normalised content is empty or passes the test, so normalising it again changes nothing |
| Generator.PlainWordIsKept | server/llm/generator.js:42-43 | plain text of letters only, such as `Hello`, passes the test and is kept rather than encoded |
| Generator.NormaliseFiles | server/llm/generator.js:41-45 | the pass keeps the number of files |
| Generator.NormaliseFilesAt | server/llm/generator.js:41-45 | file i keeps its path and position; its content is kept if it passes the test and is replaced by its base64 otherwise |
| Generator.NormaliseFilesIdempotent | server/llm/generator.js:41-45 | normalising the files twice is normalising them once |
| Generator.NormaliseReply | server/llm/generator.js:41-45 | the in-place loop over the reply's file array yields exactly the normalised files |
| Generator.PromptBuilds | server/llm/generator.js:14-25 | building the prompt does not throw: the brief converts, and `attachments || []` is an array none of whose items is `null` or `undefined` |
| Generator.Generated | server/llm/generator.js:26-50 | what `generateApp` resolves to: nothing when the prompt throws; the normalised files when the client returned an array of them; the fallback otherwise |
| Generator.GenerateApp | server/llm/generator.js:12-50 | throws when the prompt cannot be built; otherwise the reply's files normalised when the client returned an array of files, and the fallback (which can itself throw) without an API key, after a failed call or parse, or when `files` is not an array |
| Generator.NonArrayAttachmentsThrow | server/llm/generator.js:19 | attachments that are truthy but not an array make `generateApp` throw whatever the client would answer |
| Generator.GenerateAppThrowsIff | server/llm/generator.js:12-50 | `generateApp` throws exactly when the prompt cannot be built, or when it falls back and the image name does not convert |
| Generator.NamedAttachmentsGenerate | server/llm/generator.js:12-50 | a convertible brief with absent attachments or an array of objects with string names always yields files |
| Generator.GeneratedIsNormalised | server/llm/generator.js:26-50 | whenever `generateApp` returns, its files are already normalised |
| Generator.ImageName | server/llm/generator.js:59 | without a truthy first attachment the image is `sample.png` |
| Generator.ImageSource | server/llm/generator.js:59 | without a truthy first attachment the inserted source is `sample.png` |
| Generator.ImageSourceIsFirstName | server/llm/generator.js:59 | with an array whose first item has a string `name`, that name converts and is the image |
| Generator.FallbackIndexHtml | server/llm/generator.js:56-75 | the fallback page: the seed in `<title>` and `<h1>`, the image in `<img src>`, and the in-browser OCR script, as in the template literal |
| Generator.FallbackReadme | server/llm/generator.js:77 | `# <seed>`, a blank line, then `Auto-generated fallback app` |
| Generator.FallbackPageShowsSeedAndImage | server/llm/generator.js:56-59 | the page contains `<title>seed</title>`, `<h1>seed</h1>` and `src="<image>"` |
| Generator.FallbackPageNotEmpty | server/llm/generator.js:56-75 | the fallback page is never empty |
| Generator.FallbackFiles | server/llm/generator.js:76-77 | exactly two files, `index.html` then `README.md` |
| Generator.FallbackGenerate | server/llm/generator.js:54-77 | throws exactly when the image name does not convert, and otherwise returns the two fallback files |
| Generator.FallbackDependsOnSeedAndImage | server/llm/generator.js:54-77 | requests that agree on seed and image give the same files; the brief plays no part |
| Generator.FallbackIsNormalised | server/llm/generator.js:76-77 | both fallback contents pass the base64 test, so normalisation leaves the fallback unchanged |
| Project.PathExists | server/server.js:98-102 | `existsSync`: a file at the path, or a directory there, that is, some file below it |
| Project.ApplyWrites | server/server.js:71-95 | a sequence of `writeFileSync` calls performed in order, each creating or replacing its path |
| Project.Assembled | server/server.js:91-105 | the generated files written under the repository directory, then `LICENSE` and `README.md` each added only where nothing exists |
| Project.Join | server/server.js:88-92 | `repoDir + "/" + name`, from which both parts can be read back |
| Project.ApplyWritesSnoc | server/server.js:91-95 | one more write updates exactly its path |
| Project.LastWrite | server/server.js:91-95 | none exactly when no write goes to the path; otherwise the data of some write to it |
| Project.LastWriteIsLatest | server/server.js:91-95 | a write followed by no other to the same path is the last write there |
| Project.ApplyWritesLastWins | server/server.js:91-95 | a written path holds its last write's data, and an unwritten path keeps what it had |
| Project.ApplyWritesKeys | server/server.js:91-95 | afterwards the paths are the old ones plus the written ones |
| Project.ApplyWritesTwice | server/server.js:91-95 | performing the same writes again changes nothing |
| Project.GeneratedWrites | server/server.js:91-95 | generated file i goes to `repoDir/<path>` with its content base64-decoded |
| Project.GeneratedWritesSnoc | server/server.js:91-95 | one more generated file adds one write at the end |
| Project.AddDefault | server/server.js:98-105 | a default is written only when neither a file nor a directory exists at its path |
| Project.AddDefaultKeeps | server/server.js:98-105 | afterwards the path exists, and nothing already there is removed or changed |
| Project.AssembledContents | server/server.js:91-105 | `LICENSE` and `README.md` both exist afterwards; every generated file is left as written; any other file is a default at its own path |
| Project.GeneratedFileLands | server/server.js:91-105 | a generated file with no later duplicate path ends up holding its decoded content |
| Project.AssembledIdempotent | server/server.js:91-105 | assembling the same project again leaves the tree unchanged |
| Project.Workspace.constructor | server/server.js:64-66 | the temporary directory starts empty |
| Project.Workspace.WriteFile | server/server.js:74 | `writeFileSync` sets the one path's bytes and changes nothing else |
| Notifier.Pow2 | server/server.js:43 | powers of two are positive |
| Notifier.Backoff | server/server.js:41-43 | one logged wait per failed attempt |
| Notifier.BackoffDoubles | server/server.js:28-43 | the i-th wait is 1000·2^i ms, twice the one before |
| Notifier.BackoffTotal | server/server.js:28-43 | the waits after n failures add up to 1000·(2^n − 1) ms |
| Notifier.AllFailuresWait255Seconds | server/server.js:26-46 | eight failures wait 255000 ms in all |
| Notifier.FirstSuccess | server/server.js:29-36 | the first attempt within the eight allowed that got status 200, with every earlier one failing; none when all eight fail |
| Notifier.PostWithRetries | server/server.js:26-46 | true exactly when one of the eight attempts got status 200, returning at the first; false after exactly eight attempts; a wait after every failed attempt, the last one included, 255000 ms in all when nothing succeeds |
| Server.ComposeCallback | server/server.js:114-122 | the callback echoes `email`, `task`, `round`, `nonce`, carries the publisher's commit sha, and has `repo_url` `https://github.com/<user>/<name>` and `pages_url` `https://<user>.github.io/<name>/` |
| Server.LastSegment | server/server.js:119 | the text after the last `/`, which holds no `/` |
| Server.LastSegmentAfterSlash | server/server.js:119 | the last segment of `x + "/" + y` is `y` when `y` holds no `/` |
| Server.CallbackNamesRepository | server/server.js:119-121 | `repo_url` starts with `https://github.com/` and its last segment is the repository name; `pages_url` ends in the name and `/` |
| Server.LicenseText | server/server.js:99 | the default MIT licence naming the year and `String(email)` |
| Server.ReadmeText | server/server.js:103 | the default README: the repository name, `String(brief)` and the usage line |
| Server.Background | server/server.js:61-128 | the whole background run: stops at once if the task does not convert, else continues from the attachments |
| Server.FromAttachments | server/server.js:69-128 | the save loop over the readable prefix; an unreadable item ends the run there, else the later steps follow |
| Server.LaterEvents | server/server.js:78-125 | generation (ending the run when it throws), then for a text task the publication, else `TaskNotText` |
| Server.LaterTree | server/server.js:86-105 | when generation succeeds and the task is text, the project assembled under the sanitised name; otherwise the directory unchanged |
| Server.Publication | server/server.js:111-124 | `PublishError` when publishing throws; otherwise `Published` then the callback POST with its delivery result |
| Server.AttachmentWrites | server/server.js:70-75 | attachment i is written at its `name` with its stripped payload base64-decoded |
| Server.AttachmentWritesSnoc | server/server.js:70-75 | one more attachment adds one write and one saved event at the end |
| Server.SavedEvents | server/server.js:70-75 | one saved event per attachment, in order |
| Server.SaveAttachments | server/server.js:69-76 | the loop writes exactly the readable prefix of the items, in order, and reports the index of the first unreadable one |
| Server.WriteProject | server/server.js:86-105 | the loop and the two guarded writes leave exactly the assembled project |
| Server.PublishAndNotify | server/server.js:111-125 | a failed publish ends with `PublishError`; a successful one is followed by the callback POST and its delivery result |
| Server.BuildAndPublish | server/server.js:78-125 | generation, which ends the run when it throws; then, for a text task, the project and its publication, as the pipeline specification states |
| Server.RunInBackground | server/server.js:61-128 | the background steps and the directory they leave are exactly those of the pipeline specification: a task that does not convert stops it at once, then the attachments, generation, the project and publication |
| Server.HandleSubmit | server/server.js:48-129 | the response comes first; a rejection runs nothing and leaves the directory empty; an acceptance runs exactly the background pipeline |
| Server.NotifiesAfterSaves | server/server.js:69-76 | saved-attachment events never count as a notification |
| Server.GenerationSucceedsIff | server/server.js:79-84 | once every attachment is saved, generation succeeds exactly when the attachments are absent or an array and the brief converts |
| Server.NonArrayAttachmentsAbort | server/server.js:69-84 | attachments that are truthy but not an array are not saved, and the run ends at generation with the directory unchanged |
| Server.LaterEventsNotify | server/server.js:79-124 | after the attachments, the evaluator is notified exactly when generation succeeds, the task is text and publishing succeeds, as the last step right after `Published` |
| Server.NotifiesIffRunsToTheEnd | server/server.js:61-128 | the evaluator is notified exactly when the task is text, the attachments are absent or an array whose every item reads, the brief converts and publishing succeeds; the notification is then the last event, right after `Published` |
| Server.FromAttachmentsNotifies | server/server.js:69-128 | the same, from the save loop on |
| Server.AllSavedNotifies | server/server.js:78-128 | once every attachment is saved, notification is decided by the later steps alone |
| Server.PublishFailureSkipsNotify | server/server.js:111-128 | a failed publish never notifies, and when every earlier step succeeds it ends the run |
| Server.BadAttachmentStopsTheRun | server/server.js:65-76 | after the directory is named, an unreadable attachment ends the run after the ones before it are saved: nothing generated, written or posted |
| Server.ProjectIsAssembled | server/server.js:79-105 | when every step before publishing succeeds, generation yields files, the project directory has `LICENSE` and `README.md`, and each generated path holds its last content decoded |
| Server.DeliveryIffSomeAttemptSucceeds | server/server.js:26-46 | the reported delivery is true exactly when one of the eight attempts got 200; false means eight attempts |
| Server.NotificationCarriesTheCallback | server/server.js:111-124 | the last event posts to `evaluation_url` the callback for the sanitised name and the published sha, right after `Published` |
| Server.TemplatesLand | server/server.js:91-105 | with a decoder that inverts the encoder, the fallback's two files land as the UTF-8 of their text |
| Server.FallbackTree | server/server.js:79-105 | without a usable reply, when every step before publishing succeeds, the project is assembled from the fallback's files |
| Server.FallbackProjectHoldsTemplates | server/server.js:79-105 | without a usable reply, when every step before publishing succeeds, the project holds the fallback page and the fallback README as text; the default README is not written |

## Left out

- The express, body-parser and dotenv bootstrap, the environment check and `app.listen` are not modelled. They are process set-up, not handler logic.
- Logging (`console.log`, `console.warn`, `console.error`) is not modelled. It has no effect on results.
- Real HTTP and real timers are not modelled. The evaluator's answers are the parameter `respond`, and waits are only logged.
- The publisher (`createRepoAndDeploy`: git, the GitHub CLI, Pages polling) is not modelled. It is reduced to its outcome, a commit sha or an exception.
- The language-model client, the text of its prompt (including `checks`) and `JSON.parse` are not modelled. A configured client contributes only its reply. Whether building the prompt throws is modelled (`Generator.PromptBuilds`).
- Node's base64 decoder is not modelled: it is lenient in ways the model does not reproduce, so it is the parameter `decode`.
- Node's base64 encoder is the parameter `encode`, constrained by `IsBase64TextEncoder`. `Base64OfText` is one encoder that meets the constraint.
- The `/tmp/<task>-<Date.now()>` name is not modelled. The model works relative to a fresh, empty directory.
- The LICENSE year is a parameter.
- Path semantics are not modelled: `path.join` normalisation of `.`, `..` and repeated `/`, and `mkdirSync` creating parent directories.
- The errors that follow from those path semantics are not modelled:
  - a file name that is empty or names an existing directory (`EISDIR`);
  - a file written where a directory is needed, or a directory where a file exists (`ENOTDIR`, `EEXIST`);
  - an attachment whose name has a directory part that does not exist yet (`ENOENT`).
- Attachment items: only an object whose `name` and `url` are strings is saved; anything else ends the run. One exception is not modelled: a `url` that is an array, which also has `indexOf` and `slice`.
- Generated files: their `path` and `content` are modelled as strings. A reply whose entries carry other JSON values is outside the model.
- JSON numbers are modelled as integers. Fractional numbers and their `String` forms are outside the model.
- Display: conversion failures are modelled at server.js:65 (the task) and generator.js:17 (the brief). They are not modelled at server.js:99, where `${payload.email}` throws for an email object with its own `toString` property when `LICENSE` is missing; the model writes the default licence and goes on to publish. This failure depends on the directory, while the model's event sequence does not.
- Display: integers of 21 or more digits print as `1e+21` and the like, and integers beyond 2^53 are not exact JavaScript numbers. The model prints every integer in full decimal.
- A character is a Unicode scalar value. Lone surrogates in JavaScript strings are not represented.
- Concurrent submissions are not modelled; they share no state in the handler.
- Generator.FallbackFiles: the README and page contents are `encode` applied to the template text. The bytes Node would produce are covered only through `Encoding.Base64OfText` and `Server.TemplatesLand`, which assumes the decoder inverts the encoder.
