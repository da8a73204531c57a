# Assignment upload: page submission and webhook file discovery

This project is a Dafny model of the two halves of the assignment-upload flow
of the aplusassignments site.

The browser half is the upload page (`app/upload/page.tsx`). It keeps the
chosen files, the form fields, the picked deadline, the upload status, the
shown reference id and the error message as hook state. `validateForm` checks
them in a fixed order. `generateReferenceId` makes a `REQ-` id from the clock
and a random number. `handleSubmit` builds a multipart body of four entries per
file plus eight scalar fields, posts it, reads the webhook's many possible
response shapes, retries once, and in development falls back to a synthetic
success.

The server half is the n8n webhook script (`n8n.js`). It looks for uploaded
files in five places: the binary map, a `file` body field, `file_<N>_name`
metadata fields, keys ending in `file<N>`, and `data.files`. It then echoes
the form with defaults, picks a reference id, computes diagnostics and returns
an acknowledgement.

Modules:

- `JsText` (`js_text.dfy`): the JavaScript primitives both halves rely on.
  These are `toString(radix)`, `parseInt(s, 10)`, ASCII `toUpperCase` and
  `toLowerCase`, `substring`, `\s` and `join`.
- `UploadForm` (`upload_form.dfy`): the ordered validator, the file-extension
  rule, the email pattern, reference-id generation and the posted body.
- `ResponseHandling` (`response_handling.dfy`): the first attempt with its
  nested `try`/`catch` blocks, the single retry, and the final decision.
- `UploadPage` (`upload_page.dfy`): class `Page` with the hook state. Its
  methods are the handlers that update it, ending in `HandleSubmit`.
- `WebhookDiscovery` (`webhook_discovery.dfy`): the five passes as functions.
  It also has the script's push loops as methods proved against those
  functions, and the regular expressions stated as patterns.
- `DetectionScenarios` (`webhook_discovery.dfy`): what the passes make of the
  two field layouts a client may send.
- `WebhookAck` (`webhook_ack.dfy`): the form echo, the reference id, the
  diagnostics and the acknowledgement.
- `SubmissionReceipt` (`submission_receipt.dfy`): the page's request as the
  script receives it, end to end.

Some of this behaviour is easy to misread, and the model follows the code as written:

- `handleSubmit` retries at most once, although `maxRetries` is 2. `retryCount`
  starts at 0, is compared with `maxRetries` once, and is never compared again
  (`app/upload/page.tsx:411-444`).
- On the first attempt, any 2xx response whose text could be read ends in
  success. This holds for a JSON record with `success: false` and for text that
  is not JSON. The inner `catch` re-tests the status, and that status is
  already known to be 2xx.
- Only the metadata pass (pass 3) skips names already collected. The other
  passes do not de-duplicate, so the same upload can be reported twice.
- The page names its metadata fields `file<i>_name`, `file<i>_type` and
  `file<i>_size`. The script looks for `file_<N>_name` and for keys ending in
  `file<N>`. So the page's own text fields are found by neither pass, and its
  files are detected only through the binary map
  (`SubmissionReceipt.SubmissionDetectedOnlyThroughBinary`).
- The random part of the reference id has at most four characters. It has
  fewer when `Math.random().toString(36)` has fewer than four fraction digits.

## Model

| member | source | states |
|---|---|---|
| JsText.Radix | app/upload/page.tsx:211 | `n.toString(radix)` is non-empty and every character is a lower-case digit whose value is below the radix; it is "0" for 0 and otherwise has no leading zero |
| JsText.RadixRoundTrip | app/upload/page.tsx:211 | reading the digits of `n.toString(radix)` back gives `n` |
| JsText.RadixInjective | n8n.js:145 | two numbers with the same base-36 rendering are equal |
| JsText.Upper | app/upload/page.tsx:211 | `toUpperCase` keeps the length and upper-cases each ASCII letter in place |
| JsText.Lower | app/upload/page.tsx:133 | `toLowerCase` keeps the length and lower-cases each ASCII letter in place |
| JsText.UpperDigitsAreUpperBase36 | app/upload/page.tsx:211 | an upper-cased base-36 rendering contains only 0-9 and A-Z |
| JsText.UpperKeepsValue | app/upload/page.tsx:211 | upper-casing a digit string keeps every digit below the radix and keeps the number it denotes |
| JsText.UpperRadixInjective | n8n.js:145 | equal upper-cased renderings come from equal numbers, so upper-casing loses nothing |
| JsText.Substring | app/upload/page.tsx:214 | `substring` returns the slice when the indices are in order and in range, the empty string past the end, and never more than the input |
| JsText.TrimStart | n8n.js:148 | the leading-whitespace skip of `parseInt` returns a suffix that starts with no whitespace, every dropped character is whitespace, and the input itself comes back when it starts with none |
| JsText.DigitPrefix | n8n.js:148 | the digits `parseInt` reads are the longest all-digit prefix |
| JsText.ParseInt | n8n.js:148 | `parseInt(s, 10)` is NaN exactly when no digit follows the optional whitespace and sign |
| JsText.AllDigitsPrefix | n8n.js:148 | a string made only of digits is its own longest digit prefix |
| JsText.ParseIntOfDecimal | n8n.js:148 | `parseInt(String(n), 10)` gives back `n`, so a count the page renders is read back unchanged |
| UploadForm.AfterLastDotIsLast | app/upload/page.tsx:133 | no '.' follows the split position, and the character just before it is a '.' |
| UploadForm.ExtensionIsLastSegment | app/upload/page.tsx:133 | `name.split('.').pop()` is a dot-free suffix of the name, preceded by a '.' when the name has one, and the whole name otherwise |
| UploadForm.FileError | app/upload/page.tsx:126-143 | a file passes exactly when it has 1 byte to 10 MiB and a pdf, doc or docx extension in any case; a complaint is a per-file reason that names the file |
| UploadForm.FileCheckOrder | app/upload/page.tsx:126-143 | the checks run in order: a file over 10 MiB is too large whatever its extension; otherwise a wrong extension is reported; otherwise an empty file is reported |
| UploadForm.FirstFileError | app/upload/page.tsx:123-144 | the file loop finds no complaint exactly when every file passes; what it finds is a per-file reason |
| UploadForm.FirstFileErrorIsFirst | app/upload/page.tsx:123-144 | the complaint is that of some file whose predecessors all pass |
| UploadForm.FirstFileErrorAt | app/upload/page.tsx:123-144 | once a prefix is clean, the first failing file decides the complaint |
| UploadForm.IndexOf | app/upload/page.tsx:175 | finds the first occurrence of a character, or reports that there is none |
| UploadForm.EmailCheckMatchesPattern | app/upload/page.tsx:175-176 | the email check accepts exactly the strings that match `^[^\s@]+@[^\s@]+\.[^\s@]+$`, stated by positions |
| UploadForm.FieldError | app/upload/page.tsx:152-179 | the field checks pass exactly when subject, level, date and email are present and the email passes the check; every reason is a field reason; each reason comes exactly when its check fails and every earlier check passes, in the order subject, level, deadline, email present, email valid |
| UploadForm.Validation | app/upload/page.tsx:112-182 | the checks run in order: no files gives `NoFiles`; otherwise a failing file gives the file loop's reason; otherwise a total over 50 MiB gives `TotalSizeExceeded` with that total; otherwise the field checks decide; success means all checks pass |
| UploadForm.ValidationAccepts | app/upload/page.tsx:112-182 | `validateForm` returns true exactly when there is a file, every file passes, the total is at most 50 MiB, the required fields are set and the email matches the pattern |
| UploadForm.FileErrorNamesFirstOffender | app/upload/page.tsx:123-144 | a per-file reason names the first file, in attachment order, that fails a check |
| UploadForm.FirstValidationError | app/upload/page.tsx:112-182 | the loop with its running `totalSize` and early returns decides what `Validation` decides |
| UploadForm.RandomPart | app/upload/page.tsx:214 | `substring(2, 6)` of the random number's base-36 text is its first four fraction digits, or all of them when there are fewer |
| UploadForm.GenerateReferenceId | app/upload/page.tsx:209-218 | the id is `REQ-` followed by upper-case base-36 characters only, its length is 4 + the clock digits + up to 4 random digits |
| UploadForm.UpperDigitInjective | app/upload/page.tsx:214 | two base-36 digits that upper-case to the same character are equal |
| UploadForm.ReferenceIdParts | app/upload/page.tsx:217 | after `REQ-`, the id is the upper-cased clock followed by the four upper-cased random digits |
| UploadForm.ReferenceIdDeterminesInputs | app/upload/page.tsx:209-218 | equal ids come from the same millisecond and the same four random digits |
| UploadForm.BuildSubmissionBody | app/upload/page.tsx:241-270 | the posted body has four entries per file in file order (the file, then its name, type and size), then the eight scalar fields ending in `fileCount` and `referenceId` |
| ResponseHandling.InterpretJson | app/upload/page.tsx:340-386 | a shown id other than the generated one comes from a parsed record with truthy `success` and that non-empty `referenceId` |
| ResponseHandling.FirstAttempt | app/upload/page.tsx:276-406 | the first POST succeeds exactly when it is a 2xx response with a readable body; a server id is shown only from a successful record, and a successful record's non-empty id is always shown; an abort fails with the timeout message, another rejection with `Network error: ` and its reason or the connection message, a non-2xx status with the server-error message, and an unreadable 2xx body with the could-not-process message |
| ResponseHandling.RetryAttempt | app/upload/page.tsx:420-443 | the retry succeeds exactly when it is a 2xx response whose body parses to something other than `null`; a record with a non-empty `referenceId` shows that id, and every other success shows the generated id |
| ResponseHandling.Decide | app/upload/page.tsx:407-465 | a submission fails exactly when the first attempt fails, the retry fails and the build is not development, and then with the first attempt's message; a first success is final; after a failed first attempt a successful retry shows the retry's id, and otherwise the development fallback shows the generated id |
| ResponseHandling.ShownIdOrigin | app/upload/page.tsx:374-453 | a shown id other than the generated one is non-empty and was supplied by the server, in the first response or in the retried one |
| ResponseHandling.ArrayResponseShowsGeneratedId | app/upload/page.tsx:349-360 | a 2xx JSON array shows the generated id, whatever the status text and the array's length |
| ResponseHandling.RejectedRecordStillSucceeds | app/upload/page.tsx:384-398 | a 2xx record with `success: false` still ends in success with the generated id |
| ResponseHandling.ServerErrorReported | app/upload/page.tsx:322-326 | a status outside 2xx, with no retry success and no fallback, is reported as `Server error (<status>): ` followed by the body text, or by the status text when the body is empty |
| UploadPage.WithField | app/upload/page.tsx:84-97 | a field change replaces that one member of `formData`, for each of the five fields, and keeps the others |
| UploadPage.Spliced | app/upload/page.tsx:78-82 | `splice` at a start position past the end leaves the list as it was |
| UploadPage.RemovingAtValidIndex | app/upload/page.tsx:78-82 | removing at an index in range drops exactly that file and keeps the others in order |
| UploadPage.Page.constructor | app/upload/page.tsx:37-50 | the initial hook values: no files, empty fields, no date, idle, no id, no message |
| UploadPage.Page.AddFiles | app/upload/page.tsx:61-76 | dropped or chosen files are appended after the current ones |
| UploadPage.Page.RemoveFile | app/upload/page.tsx:78-82 | the file list becomes the spliced copy |
| UploadPage.Page.ChangeField | app/upload/page.tsx:84-97 | `formData` gets the one field changed |
| UploadPage.Page.SelectDate | app/upload/page.tsx:665-671 | the picked day goes into `date` and into `formData.deadline` |
| UploadPage.Page.ResetForm | app/upload/page.tsx:99-110 | fields, date and message are cleared |
| UploadPage.Page.ValidateForm | app/upload/page.tsx:112-182 | returns true exactly when `Validation` finds nothing; otherwise the message is that reason's text |
| UploadPage.Page.ShowSuccess | app/upload/page.tsx:377-383 | success status, the shown id, no files and a reset form |
| UploadPage.Page.HandleSubmit | app/upload/page.tsx:220-466 | offline or invalid: nothing is posted, a message is set and the rest of the state is kept. Otherwise the same well-formed body with the generated id is posted once, or twice when the first attempt fails, and the page ends showing `Decide`'s outcome: on success the shown id and a cleared form, on failure the error and the kept files, fields and date |
| UploadPage.Page.Upload | app/upload/page.tsx:241-465 | the post, the single retry with the same body, the fallback and the error, with the same result as `HandleSubmit` after validation |
| UploadPage.Page.SubmitAnother | app/upload/page.tsx:768-771 | the status returns to idle and the shown id is cleared |
| WebhookDiscovery.LookupFindsFirst | n8n.js:75 | `body[key]` is undefined exactly when no field has that key, and otherwise is the value of the first field with it |
| WebhookDiscovery.BinaryPass | n8n.js:25-40 | pass 1 gives one entry per binary key in key order, named by `fileName` or the key, typed by `mimeType` or `unknown`, sized by the data length or 0 |
| WebhookDiscovery.FileFieldPass | n8n.js:43-62 | pass 2 gives nothing for a falsy `file`, `file-0`...`file-(k-1)` for an array of k, and one `file` entry for a string |
| WebhookDiscovery.MatchAtMeansPattern | n8n.js:65 | the match attempt at a position succeeds with group `d` exactly when `file_<d>_name` with `d` all digits starts there |
| WebhookDiscovery.NoMatchFrom | n8n.js:65 | a key with no `f` four places before a `_` has no match |
| WebhookDiscovery.MatchFromIsLeftmost | n8n.js:72 | the scan from a position finds nothing exactly when the pattern occurs at no later position, and otherwise finds the group of the leftmost occurrence |
| WebhookDiscovery.MetadataIndexIsLeftmostMatch | n8n.js:72 | `field.match(metadataPattern)[1]` is the group of the leftmost match, absent exactly when the pattern does not occur |
| WebhookDiscovery.MetadataFields | n8n.js:66 | the filter keeps only keys the pattern matches and never grows the list |
| WebhookDiscovery.MetadataFieldsExactly | n8n.js:66 | a key is kept exactly when it is a body key the pattern matches |
| WebhookDiscovery.NoMetadataFields | n8n.js:66-68 | with no matching key the filter is empty, so pass 3 is skipped |
| WebhookDiscovery.MetadataPass | n8n.js:71-91 | pass 3 adds at most one entry per field, each tagged `metadata` and with a truthy name |
| WebhookDiscovery.MetadataPassAddsFreshNames | n8n.js:81 | pass 3 adds no string name already collected and no string name twice |
| WebhookDiscovery.MetadataPassSources | n8n.js:71-91 | each pass-3 entry comes from a matching field holding that name, and is typed and sized by the sibling fields of that field's index |
| WebhookDiscovery.TrailingDigits | n8n.js:95 | counts the digit run at the end of the key, which is preceded by a non-digit or by nothing |
| WebhookDiscovery.TrailingDigitsExact | n8n.js:95 | any digit run at the end, preceded by a non-digit or by nothing, is that trailing run |
| WebhookDiscovery.EndsWithFileNumberMeansPattern | n8n.js:95-96 | the test accepts a key exactly when `file` followed by one or more digits ends it |
| WebhookDiscovery.PossibleFiles | n8n.js:96 | the filter keeps only keys ending in `file<N>` and never grows the list |
| WebhookDiscovery.PossibleFilesExactly | n8n.js:96 | a key is kept exactly when it is a body key ending in `file<N>` |
| WebhookDiscovery.NoPossibleFiles | n8n.js:96-98 | with no key ending in `file<N>` the filter is empty, so pass 4 is skipped |
| WebhookDiscovery.LegacyPass | n8n.js:101-110 | pass 4 adds at most one entry per key |
| WebhookDiscovery.LegacyPassEntries | n8n.js:101-110 | each pass-4 entry is tagged `body.fileN`, named by one of the keys, and that key's value is truthy |
| WebhookDiscovery.DataFilesPass | n8n.js:115-126 | pass 5 gives one entry per object of an array `data.files`, named or `unnamed file`, and nothing otherwise |
| WebhookDiscovery.DiscoverFiles | n8n.js:18-126 | the script's five passes leave `fileDetails` equal to the passes' entries in pass order, `fileNames` in step with it, and `binaryData` equal to the binary map |
| WebhookDiscovery.PushBinaryFiles | n8n.js:25-40 | the loop appends pass 1's entries and their names |
| WebhookDiscovery.PushFileField | n8n.js:43-62 | the branch appends pass 2's entries and their names |
| WebhookDiscovery.MetadataPassStep | n8n.js:71-91 | one more field adds its entry exactly when it matches, its value is truthy and the name is new |
| WebhookDiscovery.PushMetadataFiles | n8n.js:64-92 | the loop, checking `fileNames.includes` as it goes, appends pass 3's entries and their names |
| WebhookDiscovery.LegacyPassStep | n8n.js:101-110 | one more key adds its entry exactly when its value is truthy |
| WebhookDiscovery.PushLegacyFiles | n8n.js:94-111 | the loop appends pass 4's entries and their names |
| WebhookDiscovery.FilterMetadataFields | n8n.js:66 | the filter loop keeps the keys the metadata pattern matches, in key order |
| WebhookDiscovery.FilterPossibleFiles | n8n.js:96 | the filter loop keeps the keys ending in `file<N>`, in key order |
| DetectionScenarios.NameKeyMatched | n8n.js:65-66 | `file_<n>_name` is matched with group `n` |
| DetectionScenarios.SiblingKeyNotMatched | n8n.js:65-96 | `file_<n>_type` and `file_<n>_size` match neither the metadata pattern nor the legacy pattern |
| DetectionScenarios.LegacyKeyShape | n8n.js:95-96 | `file<n>` ends in `file<N>` and has no metadata match |
| DetectionScenarios.MetadataBodyLookups | n8n.js:75-77 | in a body of one upload's three metadata fields, each sibling lookup finds its field and there is no `file` field |
| DetectionScenarios.SingleMetadataField | n8n.js:71-91 | one matching field with a new truthy name gives one metadata entry |
| DetectionScenarios.BodyFieldsOnly | n8n.js:18-126 | with no binary map, no `file` field and no `data.files`, only passes 3 and 4 contribute |
| DetectionScenarios.MetadataBodyPasses | n8n.js:64-111 | on one upload's metadata fields, pass 3 gives one entry and pass 4 gives none |
| DetectionScenarios.MetadataOnlyRequest | n8n.js:64-92 | metadata fields alone give exactly one file, named by `_name`, typed by `_type`, sized by `_size`, tagged `metadata` |
| DetectionScenarios.MixedBodyLookups | n8n.js:102 | in a body with a legacy `file<n>` field and a `file_<n>_name` field, each lookup finds its own field |
| DetectionScenarios.MixedBodyFilters | n8n.js:64-96 | that body has one metadata field and one legacy key |
| DetectionScenarios.LegacyAndMetadataBothDetected | n8n.js:81-110 | the same upload sent both ways is detected twice, once as `metadata` and once as `body.fileN` |
| WebhookAck.OrDefault | n8n.js:134-140 | `body?.key \|\| fallback` is the value when truthy and the fallback otherwise |
| WebhookAck.FallbackReferenceId | n8n.js:145 | the fallback id is `REF-` followed by upper-case base-36 characters only |
| WebhookAck.FallbackReferenceIdInjective | n8n.js:145 | two fallback ids are equal only when made at the same millisecond |
| WebhookAck.FileKeys | n8n.js:149 | the filter keeps only keys that start with `file` and never grows the list |
| WebhookAck.FileKeysExactly | n8n.js:149 | a key is kept exactly when it is a body key that starts with `file` |
| WebhookAck.EchoForm | n8n.js:133-142 | each of the seven scalar echoes is the body's value when truthy and its own default (`Not specified`, `None`, `Not provided` or `0`) otherwise; `uploadedFiles` is never empty, and is the detected names when there are any |
| WebhookAck.HandleWebhook | n8n.js:133-180 | the acknowledgement always reports success; its count and names are the detected files; `formData` is the echo of the body with those names; the echo lists those names or `No files detected`; the binary map passes through; the expected count is `parseInt` of `fileCount` or `0`; the id is the body's when truthy, else `REF-` and the time; the diagnostics list the body keys, and the `file`-prefixed keys in body order as `FileKeys` gives them |
| WebhookAck.MissingFileCountIsZero | n8n.js:148 | an absent or empty `fileCount` is read as 0 expected files |
| SubmissionReceipt.ReceivedBody | app/upload/page.tsx:241-270 | the body fields received never outnumber the posted entries |
| SubmissionReceipt.ReceivedFileMetadataKeys | app/upload/page.tsx:253-255 | when every text part has a file-metadata name, so does every field received |
| SubmissionReceipt.FileFieldKeyInert | app/upload/page.tsx:253-255 | `file<i>_name`, `file<i>_type` and `file<i>_size` match neither detection pattern and are not `file` |
| SubmissionReceipt.ScalarsReceived | app/upload/page.tsx:263-270 | the eight scalar entries arrive as the eight scalar fields, in order |
| SubmissionReceipt.ScalarKeysInert | app/upload/page.tsx:263-270 | no scalar field name is picked up by a body-field pass |
| SubmissionReceipt.ScalarLookups | app/upload/page.tsx:269-270 | `fileCount` and `referenceId` are found among the scalar fields with the page's values |
| SubmissionReceipt.FileEntryAt | app/upload/page.tsx:247-259 | entry `m` of the file section is entry `m mod 4` of file `m div 4` |
| SubmissionReceipt.FileTextKeys | app/upload/page.tsx:249-255 | every text entry of the file section has a file-metadata name |
| SubmissionReceipt.SubmissionReceived | app/upload/page.tsx:241-270 | the received fields are those of the file section, all with file-metadata names, then the scalar fields |
| SubmissionReceipt.InertBodyDetectsNothing | n8n.js:43-111 | a body whose keys no body-field pass picks up gives passes 2 to 4 nothing |
| SubmissionReceipt.InertRequestDetectsOnlyBinary | n8n.js:18-126 | such a request, with no `data.files`, is detected only through its binary map |
| SubmissionReceipt.SubmissionKeysInert | app/upload/page.tsx:247-270 | no key of the page's received body is picked up by a body-field pass |
| SubmissionReceipt.SubmissionDetectedOnlyThroughBinary | n8n.js:64-111 | the page's request is detected only through the binary map, because its metadata field names do not fit the script's patterns |
| SubmissionReceipt.SubmissionScalarsReceived | app/upload/page.tsx:269-270 | the page's `fileCount` and `referenceId` reach the script unchanged |
| SubmissionReceipt.SubmissionRead | n8n.js:145-148 | on the page's request the script detects only binary files, reads back the number of files as the expected count, and finds the page's reference id |
| SubmissionReceipt.ReceiveSubmission | n8n.js:133-180 | end to end, the script acknowledges one file per binary entry, expects as many files as the page sent, and echoes the page's reference id |

## Left out

- The page's markup, styling, drag highlighting (`isDragging`), the FAQ list and the calendar's rendering are presentation only.
- `fetch`, the 30-second abort timer, the 2-second pause before the retry, and the fallback's 1-second delay are not modelled. What each POST meets is a parameter (`Attempt`), and so is whether the abort fired.
- `navigator.onLine`, `Date.now()`, `Math.random()` and `process.env.NODE_ENV` become parameters of `HandleSubmit`. The random number is given by its base-36 fraction digits.
- `JSON.parse` and `response.json()` are reduced to what the page looks at: array or not, its length, a record's `success` truthiness and `referenceId`, `null`, or a parse failure.
- `console.log` and `console.error` calls, and the totals and names they print, are not modelled.
- `fileMetadataCount` (`n8n.js:150`) is computed and then never used, neither in a log nor in the acknowledgement.
- `new Date().toISOString()` in the script is the `timestamp` parameter.
- The binary map's data is known only by its length, and `data.files` only by its `name` fields. A `data.files` entry with a non-string name is not modelled.
- `WebhookDiscovery.DataFilesPass` never fails. In the script, a `null` or `undefined` element of `data.files` makes `f.name` throw (`n8n.js:118-119`), and the whole script fails. A number, string or boolean element has no `name`, so it yields `unnamed file`, as a nameless entry does in the model.
- `JsText.ParseInt` is exact on unbounded integers. JavaScript's `parseInt` returns a double, which loses precision for digit strings above 2^53. This affects the `_size` and `fileCount` readings only for such inputs.
- The n8n multipart parsing is not part of the source. `SubmissionReceipt` assumes that n8n puts file parts in the binary map and text parts, in order, in the body. Repeated keys are not merged there, since the page never repeats one.
- Case mapping is ASCII only. No non-ASCII character lower-cases to a letter of `pdf`, `doc` or `docx`, so the extension check decides the same.
- The body is in `Object.keys` order, which lists integer-like keys first. `SubmissionReceipt` treats that order as the order the fields arrive in, because no key the page sends looks like an integer.
- `WebhookDiscovery.Request` allows a body with repeated keys, which `Object.keys` never yields. For such a body, the lookups read the first field with the key, and the filters list the key once per field.
- `UploadForm.MiBOneDecimal` renders `toFixed(1)` of the total in MiB with integer arithmetic. The message text is modelled but not proved equal to the floating-point rendering.
