# Observation record service — a Dafny model

This project models the core of a small teacher-facing service. A teacher chooses a subject,
a class and a student, types an observation about the student, and submits it. The server
then does three things:

- validates the submission;
- normalizes it into a record with a random identifier and a timestamp;
- stores the record in exactly one backend: a configured webhook, or otherwise a local JSON file.

A second endpoint lists the 20 newest local records, newest first.

The model covers both halves of the record path:

- **Server** (`server.js`):
  - the validator `validateRecord`;
  - the record literal of the POST handler, with its tag pipeline and hexadecimal identifier;
  - the local store `appendToLocalFile` and the recent-records view;
  - the POST routing between validation, the webhook and the local file.
- **Browser client** (`public/app.js`):
  - the subject → class → student cascade of `<select>` elements, filled by `fillOptions`;
  - the `selected*` lookups;
  - the students sorted by number;
  - the comma-separated tag field;
  - the guard and body of `submitRecord`.

A last module, `EndToEnd`, connects the two halves. It states when a body the client sends
passes the server's validation, and what record the server then builds from it.

Modules, one per file:

- `Wrappers`: `Option`.
- `Text`: JavaScript string operations.
  - `String.prototype.trim`, using the exact ECMAScript WhiteSpace and LineTerminator set;
  - `length` in UTF-16 code units;
  - `split` / `join` on one character;
  - `filter(Boolean)` on strings, and `slice(0, n)`.
- `Json`: the values `JSON.parse` produces, with their truthiness, `String(v)` and `(v || '').length`.
- `Validator`: `validateRecord`, as a specification function `Check` and a loop method `ValidateRecord` proved equal to it.
- `Records`: the record, its identifier and tags, and the normalization `Normalize`.
- `Store`: the local records file, a class whose `records` sequence is extended in place, and the recent view.
- `Server`: the backend choice, `POST /api/records` and `GET /api/records/local`.
- `Client`: the browser form.
  - `Select` is a class standing for a DOM `<select>`, with its options and value;
  - `Form` holds `state` and the three selects.
- `EndToEnd`: properties that relate a client body to the server's treatment of it.

## Model

| member | source | states |
|---|---|---|
| Text.Trim | server.js:43 | the trim is no longer than its input and has no whitespace at either end |
| Text.TrimIsTrimOf | server.js:127 | the input is all-whitespace, then the trim, then all-whitespace |
| Text.TrimOfIsUnique | server.js:127 | any such decomposition of the input with a trimmed middle gives exactly `Trim` (with `TrimIsTrimOf`, trimming is characterised completely) |
| Text.TrimIsEmptyIff | server.js:43 | `!s.trim()` holds exactly when every character of `s` is whitespace |
| Text.TrimOfTrimmed | public/app.js:156 | a string without whitespace at its ends is its own trim, so the server's second trim keeps what the client trimmed |
| Text.TrimIdempotent | server.js:127 | trimming twice is trimming once |
| Text.TrimKeepsCharacters | server.js:127 | every character of the trim occurs in the input |
| Text.Utf16Length | server.js:48 | `length` counts UTF-16 code units: between one and two per character |
| Text.BmpLength | server.js:48 | for text inside the Basic Multilingual Plane `length` is the character count |
| Text.Split | public/app.js:158 | `split(',')` gives at least one piece and no piece contains the separator |
| Text.JoinSplit | public/app.js:158 | joining the pieces of a split with the separator gives back the input |
| Text.SplitJoin | public/app.js:158 | splitting a join of separator-free pieces gives back the pieces |
| Text.DropEmpty | public/app.js:160 | `filter(Boolean)` keeps the non-empty strings in order, each as often as it occurs, and drops only empty ones |
| Text.TrimmedNonEmptyPieces | server.js:137 | trimming then filtering gives non-empty trimmed strings, in input order |
| Json.ToJsString | server.js:137 | `String(v)` throws exactly when `v` is an object with its own `toString` key or an array holding such a value at any depth; a string converts to itself |
| Json.OrEmptyLength | server.js:49 | `(v \|\| '').length` is 0 for every falsy value and the UTF-16 length for a string |
| Validator.FirstMissing | server.js:42-46 | the index found is the first required field, in declaration order, that is not a string with a non-whitespace character; none is found exactly when all have text |
| Validator.Message | server.js:42-51 | there is a message exactly when the verdict is not acceptance; the three message texts are the source's |
| Validator.EmptyBodyRejected | server.js:42-44 | a body with no keys (an empty request, or a non-object body other than `null`, whose keys all read as `undefined`) is rejected with `teacherId 값이 필요합니다.` |
| Validator.ValidateRecord | server.js:36-52 | the loop over the required fields followed by the two length checks returns exactly the message of `Check` |
| Validator.CheckAcceptsIff | server.js:36-52 | a body is accepted exactly when all nine required fields have text, the raw observation is at most 500 code units, and `lessonTopic` (a falsy value counting as `''`) is at most 80 |
| Validator.CheckReportsFirstMissing | server.js:42-46 | the error names field `i` exactly when that field lacks text and every earlier field has it |
| Validator.RequiredFieldsHaveText | server.js:37-46 | no field is reported missing exactly when each of the nine named fields has text |
| Validator.AcceptedFieldsHaveText | server.js:37-46 | in an accepted body each of the nine required fields has text |
| Validator.RequiredFieldsDistinct | server.js:37-40 | the nine required field names are pairwise distinct |
| Validator.ObservationLengthIsRaw | server.js:48 | with the required fields present, a raw observation over 500 code units is rejected as too long |
| Validator.LongObservationRejected | server.js:42-48 | a string observation over 500 code units is rejected whatever the other fields hold: as too long when they have text, for a missing field otherwise |
| Validator.PaddedObservationRejected | server.js:48 | a 499-character observation padded with one space on each side trims to within the limit and is still rejected, since the raw length is measured |
| Validator.LessonTopicDefaultsToEmpty | server.js:49 | an absent `lessonTopic` passes; a string one is rejected exactly when it is over 80 code units |
| Validator.PaddedTrim | server.js:139 | one space on each side of a trimmed non-empty string is removed by `trim()` |
| Validator.PaddedHasText | server.js:43 | a trimmed non-empty string padded with spaces still has a non-whitespace character |
| Validator.PaddedLength | server.js:48 | padding adds two code units to a string of the Basic Multilingual Plane |
| Records.Hex | server.js:125 | `toString('hex')` gives two lower-case hexadecimal digits per byte |
| Records.DigitValue | server.js:125 | the digit read back is below 16 and renders as the same digit |
| Records.ByteDigits | server.js:125 | the two digits of a byte, read back, give the byte |
| Records.UnhexHex | server.js:125 | the hexadecimal text determines the bytes: reading it back gives them again |
| Records.UnhexStep | server.js:125 | reading two digits in front of more digits gives their byte followed by the rest |
| Records.RecordIdFormat | server.js:125 | an identifier is `R-` and eight hexadecimal digits, from which the four random bytes are recovered (different bytes give different identifiers) |
| Records.TagStrings | server.js:137 | `map((tag) => String(tag))` throws exactly when one element's `String` throws, and otherwise gives each element's string in order |
| Records.StringTagStrings | server.js:137 | `String` of an array of strings gives those strings |
| Records.NormalizeTagsSpec | server.js:136-138 | a non-array gives no tags; an array throws exactly when one element's `String` throws; otherwise at most six tags, each non-empty and trimmed, the first ones of the trimmed non-empty elements in their order, and all of them (with multiplicity) when fewer than six survive |
| Records.PrefixOfSubsequence | server.js:137 | a prefix of a subsequence is a subsequence, so `slice(0, 6)` keeps input order |
| Records.ExampleTags | server.js:136-138 | the tag list `["a", " b ", "", ""]` normalizes to `["a", "b"]` |
| Records.ObjectTagThrows | server.js:136-137 | an otherwise acceptable body whose tags are `[{"toString": 0}]` fails on `achievementTags` instead of being built |
| Records.ExampleDropEmpty | server.js:137 | `filter(Boolean)` on `["a", "b", "", ""]` gives `["a", "b"]` |
| Records.OptionalText | server.js:135 | `(v \|\| '').trim()` fails (a TypeError) exactly when `v` is truthy and not a string |
| Records.Normalize | server.js:124-142 | building the record of an accepted body fails exactly when one of the three optional fields is truthy and not a string, or a tag's `String` throws; the failure names the first such field in the literal's order |
| Records.RequiredTextIsTrimmedFrom | server.js:127 | a required field's text is its body string with the surrounding whitespace removed, and is non-empty |
| Records.OptionalTextIsOptionalFrom | server.js:140 | an optional field's text is `''` for a falsy value and otherwise the trimmed body string |
| Records.NormalizedRequiredFields | server.js:127-139 | every required text field of a built record is its body value trimmed, and non-empty |
| Records.NormalizedOptionalFields | server.js:125-141 | optional fields of a built record are `''` when absent or falsy and otherwise trimmed; the identifier, the timestamp and the tags are the given bytes' identifier, the given time and the normalized tags |
| Records.NormalizedRecordIsClean | server.js:124-142 | no text field of a built record has whitespace at either end, and it holds at most six tags, none empty or padded |
| Store.ReverseAt | server.js:114 | `reverse()` keeps the length and puts element `k` at the mirrored position |
| Store.ReverseLength | server.js:114 | `reverse()` keeps the length |
| Store.RecentView | server.js:114 | `slice(-20).reverse()` is the last 20 records (all when fewer), newest first |
| Store.AppendThenRecent | server.js:54-58 | appending a record puts it first in the view and shifts the rest of the window by one |
| Store.LocalRecordFile.Recent | server.js:114 | the view of the current contents has the window's length and starts with the newest record |
| Store.LocalRecordFile.Append | server.js:54-58 | a readable file whose write succeeds gains exactly the record at its end; an unreadable file or a failed write reports failure and the list stays as it was |
| Store.LocalRecordFile.ReadRecent | server.js:113-114 | a readable file yields its recent view, an unreadable one nothing, and the file is unchanged |
| Store.AppendThenReadRecent | server.js:54-58 | after a successful write the store holds one record more and that record heads the recent view; after a failed write the store is as it was |
| Server.BackendFrom | server.js:144 | the webhook is used exactly when the setting is present and non-empty, with that address |
| Server.Persist | server.js:144-155 | the record goes to exactly one backend: the webhook (file untouched, 201 only on a success status) or the local file (extended by the record when it is readable and the write succeeds, 201 with the warning, else 500); a TypeError while building answers 500 and stores nothing |
| Server.PersistedNeverBadRequest | server.js:144-155 | persisting answers 201 or 500, never 400 |
| Server.HandlePost | server.js:117-155 | the answer is 400 exactly when validation fails, with the validator's message and no backend touched; otherwise the built record is persisted as `Persist` states |
| Server.HandleGetLocalRecords | server.js:112-115 | a readable file answers mode `local` and its newest 20 records, newest first; otherwise the generic error |
| Client.FindIndex | public/app.js:58-68 | the position found holds the id and no earlier item does; none is found exactly when no item has the id |
| Client.Find | public/app.js:58-68 | `find` gives an item exactly when some item has the id, and then the first such item |
| Client.Form.SelectedSubject | public/app.js:58-60 | `selectedSubject()` finds a subject exactly when one has the subject select's value as its id, and then it is a listed subject with that id (the first, by `Client.Find`) |
| Client.Form.SelectedClass | public/app.js:62-64 | `selectedClass()` finds a class exactly when one has the class select's value as its id, and then it is a listed class with that id |
| Client.Form.SelectedStudent | public/app.js:66-68 | `selectedStudent()` finds a student exactly when one has the student select's value as its id, and then it is a listed student with that id |
| Client.ClassesOf | public/app.js:71 | the classes listed are exactly those of the subject, in their original order, each as often as it occurs |
| Client.StudentsOf | public/app.js:78 | the students listed are exactly those of the class, in their original order, each as often as it occurs |
| Client.InsertByNumber | public/app.js:79 | inserting into a list sorted by number keeps it sorted and adds exactly that student |
| Client.SortByNumber | public/app.js:79 | `sort((a, b) => a.number - b.number)` gives a list sorted by number that is a permutation of its input |
| Client.StudentOptionsSpec | public/app.js:77-79 | the student list is sorted by number and holds exactly the class's students, each as often as in the data |
| Client.ParseTagsSpec | public/app.js:157-160 | parsed tags are non-empty, trimmed and comma-free, in the order of the comma-separated pieces |
| Client.ParseJoinedTags | public/app.js:157-160 | tags that are non-empty, trimmed and comma-free, typed joined by commas, parse back to themselves |
| Client.EmptyTagField | public/app.js:157-160 | an empty tag field parses to no tags, although `split(',')` gives one empty piece |
| Client.DropEmptyKeepsNonEmpty | public/app.js:160 | `filter(Boolean)` keeps a list of non-empty strings as it is |
| Client.DecimalString | public/app.js:80 | `${n}` of an integer is non-empty decimal digits without a leading zero, with a minus sign exactly when `n` is negative |
| Client.DecimalRoundTrip | public/app.js:80 | the digits written for a non-negative number read back as that number |
| Client.StudentLabel | public/app.js:80 | a student's label is the number in decimal, then `번 `, then the name |
| Client.OptionsOf | public/app.js:48-55 | one option per item |
| Client.Select.Fill | public/app.js:48-55 | the list is replaced by one option per item, in item order, valued by the item's id and labelled by `labeler`; the first option, if any, becomes selected |
| Client.Form.constructor | public/app.js:41-46 | the page starts with no teacher, no reference data and three distinct selects |
| Client.Form.RefreshStudentSelect | public/app.js:76-81 | the student select lists the selected class's students sorted by number, and the first of them is selected |
| Client.Form.RefreshClassSelect | public/app.js:70-74 | the class select lists the selected subject's classes and selects the first; then the student select lists that class's students by number and selects the first |
| Client.Form.LoadBootstrap | public/app.js:100-106 | the state holds the loaded data, the subject select lists the subjects with the first selected, and the class and student selects cascade from it, each listing the items of the selection above it with the first selected |
| Client.Form.SubmitRecord | public/app.js:129-164 | nothing is sent exactly when the subject, the class or the student is unresolved, or the observation trims to empty (or no teacher is loaded); otherwise the body holds the chosen items' strings, the typed texts trimmed and the parsed tags |
| Client.BodyReferenceFields | public/app.js:147-155 | the body carries the eight reference strings under their keys |
| Client.BodyTextFields | public/app.js:156-163 | the body carries the four free texts under their keys |
| Client.BodyTags | public/app.js:157-160 | the body carries the tags as an array of strings, in order |
| EndToEnd.StringBodyAccepted | server.js:36-52 | a body of strings with a non-blank observation passes validation exactly when the other eight required strings have text and the observation and lesson topic are within their limits |
| EndToEnd.PayloadAccepted | public/app.js:139-164 | a body the client sends passes the server's validation exactly when the reference strings have text and the trimmed observation and lesson topic are within 500 and 80 code units; it is never rejected for a blank observation |
| EndToEnd.TagArrayKept | server.js:136-138 | an array of non-empty trimmed tag strings is kept as its first six tags |
| EndToEnd.PayloadTags | public/app.js:157-160 | the server keeps the first six of the tags the client parsed |
| EndToEnd.TrimmedOptionalText | server.js:135 | an optional field holding a trimmed string reads back unchanged |
| EndToEnd.StringBodyRecord | server.js:124-142 | an accepted body of strings with trimmed free texts, whose tags normalize, is built (no TypeError) with its reference strings trimmed, its texts unchanged and those tags |
| EndToEnd.PayloadRecord | public/app.js:147-164 | an accepted client body is stored as typed, trimmed: reference strings and texts trimmed, the tags cut to the first six |

## Left out

- HTTP plumbing is not modelled: the request router, `sendJson`, CORS and `OPTIONS`, `serveStatic` with its 403 for paths outside `public/` and its `index.html` fallback, and the port setting. None of them affects what a record holds.
- `parseBody` and `JSON.parse` are not modelled. The POST handler is given the parsed body as a map from keys to JSON values.
  - A body that is not valid JSON throws in `JSON.parse` (server.js:78) and is answered with the generic 500. It is not modelled.
  - A `null` body throws on `input[key]` (server.js:43) and is answered with the generic 500. It is not modelled.
  - An array, number, boolean or string body reads every key as `undefined`, like the empty object. It is answered with 400 and `teacherId 값이 필요합니다.`, which `Validator.EmptyBodyRejected` states for the empty object.
- File I/O is abstracted. `LocalRecordFile.readable` stands for the file existing and holding a JSON list, and `records` for its contents. JSON encoding and the file's formatting are not modelled.
- Store.LocalRecordFile.Append: a failed write is modelled as leaving the list unchanged. `fs.writeFile` may already have truncated or partly written the file when it fails, and the model does not say what the file then holds.
- Concurrency is not modelled. Two simultaneous appends in the source can each read the old list and so lose a record; the model treats each request as atomic.
- The webhook call `appendViaWebhook` is abstracted. Its outcome is an input (`Delivered`, `Refused` or `Unreachable`), and `forwarded` records what would be posted. The request itself and its JSON encoding are not modelled.
- `crypto.randomBytes(4)` and `new Date().toISOString()` are inputs, so the model does not say what time or randomness they produce.
- Server.HandlePost: the server's logged error and the exact text of an error the webhook raises are not modelled. Every failure after validation answers the generic 500 message, as the source's `catch` does.
- `GET /api/bootstrap` and the school reference file are not modelled. `Form.LoadBootstrap` takes the loaded data as a parameter. For the same reason, the choice between the fetched data and the built-in offline data is not modelled, and neither are the offline data's literal values.
- `loadRecentLocalRecords` is not modelled. It renders the recent list and the storage badge into the DOM, and it formats dates with the browser's locale.
- The user interface after a submission is not modelled: the alerts, the disabled button and its text, the response message chosen by storage, and the clearing of the three text inputs.
- The DOM is reduced to what the cascade uses. A `<select>` is its option list and its value, and the user's own choice of an option (the `change` events) is not modelled. The form's methods take whatever value each select holds.
- Client.SortByNumber: the contract states sortedness and permutation but not stability. Students of equal number keep their data order in the source's (stable) sort, and in the model's insertion, but no lemma states it.
- Client.Student: `number` is an integer. A missing or non-numeric number, where the comparator yields `NaN` and the order depends on the engine, is not modelled.
- Client.DecimalString: it writes every integer in plain decimal. JavaScript writes a number of magnitude 10^21 or more in exponent form (`1e+21`), and such numbers are not modelled.
- Json.Value: a number is kept as the text `String(n)` gives. Number formatting and floating point are not modelled.
- Json.OrEmptyLength: a plain object in `lessonTopic` is taken to have no `length` (so `undefined`, which passes). An object with its own `length` key is not modelled.
- Text.Utf16Length: a lone surrogate cannot appear in a Dafny string, so a string holding one is not modelled.

## Notes on the source

- The optional fields `lessonTopic`, `growthNote` and `nextGuide` default to `''` only for a falsy value (`(v || '').trim()`, server.js:135 and 140-141).
  - A truthy non-string value, such as a number or `true`, passes validation.
  - It then throws a TypeError while the record is built, so the request is answered with the generic 500.
  - The model follows the code: `Records.OptionalText` returns `None`, `Records.Normalize` returns `NotText`, and `Server.Persist` answers `ServerError`.
- A tag that is an object with its own `toString` key makes `String(tag)` throw (server.js:137), so such a body is also answered with the generic 500 and nothing is stored (`Records.ObjectTagThrows`).
- The observation limit is checked on the raw value, while the stored observation is trimmed. `Validator.PaddedObservationRejected` shows a body that is rejected although its stored form would be within the limit.
- The client never sends more than it parsed. Only the server cuts the tags to six (`EndToEnd.PayloadTags`).
