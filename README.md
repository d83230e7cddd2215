# Notes and bookmarks manager — a Dafny model

The application keeps personal notes and bookmarks. It has two layers.

- **Backend.** An Express and Mongoose service with a `Note` and a `Bookmark` schema and two controllers. Each list, get, create, update and delete is scoped to the calling user.
- **Frontend.** A Next.js client with these parts:
  - a notes page and a bookmarks page, each with search, tag and favourite filters;
  - a favourites page and a dashboard with counters;
  - a create modal and a detail/edit modal for each kind of record;
  - a signup page and a login page.

This project models that core in Dafny.

- **Backend.**
  - Each schema is a datatype: `NoteSchema.Note` and `BookmarkSchema.Bookmark`.
  - The schema's setters (trim, lower-cased tags), defaults and validators are functions, each with its own messages.
  - Each controller is a class over an in-memory map from id to record: `NoteController.NoteStore` and `BookmarkController.BookmarkStore`.
  - Its methods return the JSON answer as a `Responses.Response`. The answers are 200 or 201 with the record, 400 with the validation messages, 400 for a duplicate url, or 404.
- **Frontend.**
  - Every page and modal is a class whose fields are the component's React state.
  - Each event handler is a method.
  - A handler that sends a request returns that request (a url, a payload) instead of sending it. A handler's `...Done` / `Complete` / `...Loaded` method takes what the request ended in: an answer, or a thrown error. It then updates the state as the handler's continuation does.
- **JavaScript operations.** The operations the code relies on are modelled in their own modules:
  - `trim` follows ECMA-262 exactly;
  - `toLowerCase` covers ASCII letters only;
  - `split` / `join`;
  - `URLSearchParams` serialisation, together with the form-urlencoded parser as its reference;
  - the title regex;
  - the e-mail regex;
  - the `Array.sort()` order of the tag lists.

Dafny keeps some inputs abstract because it cannot compute them.

- The WHATWG URL parser (`new URL`) is a parameter `parses: string -> bool`.
- MongoDB's `$text` search is a parameter `textMatches`. It is applied to exactly the fields of the text index.
- Clocks (`now`), the fetched page of a url (`page`) and tokens from browser storage (`token`, where `None` is a missing item) are parameters as well.

The bookmarks page is the notes page with another endpoint, at source lines shifted by one (`frontend/src/app/bookmarks/page.tsx`). Both are modelled by one class, `ListPage.ItemListPage`, whose `base` is the endpoint. The table below cites the notes page.

`BookmarkController.BlankTitleRejected` records one place where the code and the design disagree, and the model follows the code.

- **Design:** a bookmark whose title cannot be found is saved as 'Untitled Bookmark'.
- **Code:** that only happens for an absent or empty title. A whitespace-only title that the fetch cannot replace reaches the schema unchanged, and `required` rejects it with 400.

## Model

| member | source | states |
|---|---|---|
| Text.Trim | backend/models/Note.js:7 | the trim setter's result has no whitespace at either end and is no longer than its input |
| Text.TrimIsInfix | backend/models/Note.js:7 | Trim(s) occurs in s with only whitespace code points before and after it |
| Text.TrimOfTrimmed | backend/models/Note.js:7 | trimming an already trimmed string changes nothing (trim is idempotent) |
| Text.TrimWhitespacePrefix | frontend/src/components/CreateNoteModal.tsx:98 | whitespace put in front of a trimmed string is exactly what trim removes again |
| Text.BlankIffAllWhitespace | frontend/src/components/CreateNoteModal.tsx:54 | `!s.trim()` holds exactly when every code point of s is whitespace |
| Text.TrimKeepsCodePoints | backend/models/Note.js:7 | trim never introduces a code point that was not in its input |
| Text.ToLowerFacts | backend/models/Note.js:18 | lower-casing keeps the length, yields lower case, leaves lower-case strings unchanged, keeps trimmedness, and adds only ASCII lower-case letters |
| Text.Normalise | backend/models/Note.js:17-18 | a normalised tag is trimmed and lower case |
| Text.NormaliseKeepsCodePoints | backend/models/Note.js:17-18 | normalising adds no code point except ASCII lower-case letters |
| Text.NormaliseAll | backend/controllers/noteController.js:18 | mapping the normalisation keeps the number of tags |
| Text.NormaliseAllNormalised | backend/controllers/noteController.js:18 | every element of the mapped list is already normalised |
| Text.NormaliseNormalised | backend/models/Note.js:17-18 | normalising a normalised tag, with any whitespace in front of it, gives that tag back |
| Text.Split | backend/controllers/noteController.js:18 | split on ',' gives at least one piece and no piece contains the separator |
| Text.JoinSplit | backend/controllers/noteController.js:18 | joining the pieces of a split with the separator restores the string |
| Text.SplitJoin | frontend/src/app/notes/page.tsx:50 | splitting a join of separator-free pieces gives exactly the pieces back |
| Text.JoinCons | frontend/src/components/NoteDetailModal.tsx:68 | a join with one more element in front is that element, the separator and the rest's join |
| Text.SpacePrefixed | frontend/src/components/NoteDetailModal.tsx:68 | every element gets a space in front, none is lost or reordered |
| Text.JoinCommaSpace | frontend/src/components/NoteDetailModal.tsx:68 | a ", " join is a "," join of the first element and the space-prefixed others |
| TagInput.NonEmpty | frontend/src/components/CreateNoteModal.tsx:89 | the filter keeps exactly the non-empty elements, and only those |
| TagInput.ParseTags | frontend/src/components/CreateNoteModal.tsx:86-89 | every parsed tag is non-empty, trimmed, lower case and contains no comma |
| TagInput.ParseTagsMembership | frontend/src/components/CreateNoteModal.tsx:86-89 | a tag is in the parse exactly when it is the non-empty normalisation of one comma-separated piece |
| TagInput.NormaliseCanonicalTags | backend/models/Note.js:15-19 | tags the form produced pass the schema's trim and lower-case setter unchanged |
| TagInput.ParseJoinRoundTrip | frontend/src/components/NoteDetailModal.tsx:68 | parsing the edit form's `tags.join(', ')` gives back the stored canonical tags |
| TagInput.ParseCommaJoinRoundTrip | frontend/src/app/notes/page.tsx:50 | parsing a plain ',' join of canonical tags gives them back |
| TagInput.ParseTagsIdempotent | frontend/src/components/NoteDetailModal.tsx:133-136 | re-parsing the join of a parse, with ',' or with ', ', changes nothing |
| StringOrder.BelowIrreflexive | frontend/src/app/notes/page.tsx:72 | no string sorts before itself |
| StringOrder.BelowTransitive | frontend/src/app/notes/page.tsx:72 | the sort order is transitive |
| StringOrder.BelowTotal | frontend/src/app/notes/page.tsx:72 | of two different strings one sorts before the other |
| StringOrder.BelowAsymmetric | frontend/src/app/notes/page.tsx:72 | two strings never sort before each other |
| StringOrder.InsertAscending | frontend/src/app/notes/page.tsx:69-72 | adding a tag to the set and sorting keeps the list strictly ascending, and it holds exactly the old tags and the new one |
| StringOrder.AscendingUnique | frontend/src/app/notes/page.tsx:72 | two strictly ascending lists with the same elements are equal, so the sorted tag list is determined by the set |
| ClientItems.ToggleRequest | frontend/src/app/notes/page.tsx:182-185 | the toggle body is the record with its favourite flag negated and nothing else changed |
| ClientItems.ToggleRequestTwice | frontend/src/app/notes/page.tsx:182-185 | toggling twice gives back the record |
| ClientItems.FlipFavorite | frontend/src/app/notes/page.tsx:191-193 | the list keeps its length, and a record's flag changes exactly when it has the id, with its other fields kept |
| ClientItems.FlipFavoriteTwice | frontend/src/app/notes/page.tsx:191-193 | flipping the same id twice restores the list |
| ClientItems.RemoveById | frontend/src/app/notes/page.tsx:149 | the result holds exactly the records whose id differs, and is no longer than the input |
| ClientItems.RemoveByIdAppend | frontend/src/app/notes/page.tsx:149 | removal works piecewise over a concatenation, so the survivors keep their order |
| ClientItems.RemoveAbsentId | frontend/src/app/notes/page.tsx:149 | removing an id no record has leaves the list unchanged |
| ClientItems.Occurrences | frontend/src/app/notes/page.tsx:149 | the count of records with the id is at most the length, and 0 exactly when none has it |
| ClientItems.RemoveByIdLength | frontend/src/app/notes/page.tsx:149 | removal shortens the list by exactly the number of records with that id |
| ClientItems.ReplaceById | frontend/src/app/notes/page.tsx:481-486 | the list keeps its length and ids; the records with the updated id become the update, the others stay |
| ClientItems.ReplaceByIdIdempotent | frontend/src/app/notes/page.tsx:481-486 | applying the same update twice is applying it once |
| ClientItems.FindById | frontend/src/app/dashboard/page.tsx:103 | `find` returns nothing exactly when no record has the id, and otherwise the first record that has it |
| ClientItems.CountFavorites | frontend/src/app/dashboard/page.tsx:67-68 | the favourite count is at most the length, 0 exactly when there is no favourite, and the length exactly when all are favourites |
| ClientItems.CountFavoritesAppend | frontend/src/app/dashboard/page.tsx:67-68 | the favourite count of a concatenation is the sum of the counts |
| ClientItems.CountFavoritesRemoveUnique | frontend/src/app/dashboard/page.tsx:101-112 | removing a record that occurs once takes exactly its own flag off the favourite count |
| ClientItems.Omit | frontend/src/app/notes/page.tsx:90-91 | deselecting keeps exactly the other tags |
| ClientItems.OmitAbsent | frontend/src/app/notes/page.tsx:90-91 | omitting an absent tag changes nothing |
| ClientItems.OmitKeepsNoDuplicates | frontend/src/app/notes/page.tsx:90-91 | omitting keeps the selection free of duplicates |
| ClientItems.ToggleTag | frontend/src/app/notes/page.tsx:88-96 | a tag is selected afterwards exactly when it was selected before or is the toggled tag, but not both |
| ClientItems.ToggleTagKeepsNoDuplicates | frontend/src/app/notes/page.tsx:88-96 | toggling keeps the selection free of duplicates |
| ClientItems.ToggleTagTwiceAbsent | frontend/src/app/notes/page.tsx:88-96 | selecting a new tag and deselecting it restores the exact selection |
| ClientItems.ToggleTagTwicePresent | frontend/src/app/notes/page.tsx:88-96 | deselecting a selected tag and selecting it again moves it to the end |
| ClientItems.CollectTags | frontend/src/app/notes/page.tsx:67-72 | `allTags` is strictly ascending and holds exactly the tags that occur in the fetched records |
| ClientReply.FromResponse | backend/controllers/noteController.js:90-104 | the JSON body has success exactly for 2xx, the answer's message, an errors array exactly for a validation failure, and the record on success |
| ClientReply.MessageOr | frontend/src/components/CreateBookmarkModal.tsx:164 | an absent or empty message gives the fallback, any other message is shown as it is |
| ClientReply.ErrorsOr | frontend/src/components/CreateNoteModal.tsx:122 | any errors array, even an empty one, is kept; only a missing one gives the fallback |
| ClientReply.RefusalErrors | frontend/src/components/CreateNoteModal.tsx:122 | the refusal list has at least one message unless the server sent an empty errors array |
| ClientReply.RefusalShowsServerMessages | backend/controllers/noteController.js:97-104 | a refused request shows exactly the controller's per-field messages for a validation failure, and its single message otherwise |
| NoteSchema.CreateErrors | backend/models/Note.js:4-14 | a new note is accepted exactly when its title trims to 1..200 code points and its content is not blank; each message appears exactly under its condition, the content message last |
| NoteSchema.NewNote | backend/controllers/noteController.js:80-86 | the saved note is well formed, owned by the caller, stamped `now`, a favourite only when the body says true, and has no tags when none were sent |
| NoteSchema.UpdateErrors | backend/controllers/noteController.js:119-123 | an update is accepted exactly when every field it sets passes its validator; fields it does not set are not checked |
| NoteSchema.ApplyUpdate | backend/controllers/noteController.js:119-123 | the fields the update sets are overwritten after the setters, the others keep their stored values, `updatedAt` becomes `now`, and an accepted update keeps the note well formed |
| BookmarkSchema.PathViolations | backend/models/Bookmark.js:4-32 | the reported violations are exactly those of the failing paths, at most three |
| BookmarkSchema.CreateErrors | backend/models/Bookmark.js:4-32 | a new bookmark is accepted exactly when its url is non-blank and parses once trimmed, its title is non-blank and at most 300 code points, and its description at most 1000; each message appears exactly under its condition |
| BookmarkSchema.NewBookmark | backend/controllers/bookmarkController.js:104-112 | the saved bookmark is well formed, owned by the caller, stamped `now`, with an empty favicon and the given flags |
| BookmarkSchema.UpdateErrors | backend/controllers/bookmarkController.js:152-156 | an update is accepted exactly when every field it sets passes its validator |
| BookmarkSchema.ApplyUpdate | backend/controllers/bookmarkController.js:152-156 | the fields the update sets are overwritten after the setters; the others, favicon and autoFetched included, keep their stored values; `updatedAt` becomes `now` |
| BookmarkSchema.UpdateKeepsWellFormed | backend/models/Bookmark.js:4-37 | an accepted update keeps a bookmark well formed |
| TitleExtraction.CloseFrom | backend/controllers/bookmarkController.js:9 | the lazy group stops at the first closing tag on the same line, or fails when none follows on that line |
| TitleExtraction.FirstMatch | backend/controllers/bookmarkController.js:9 | the search finds the leftmost opening tag that has a closing tag on its line, paired with the first such closing tag, or reports that no match exists |
| TitleExtraction.ExtractTitle | backend/controllers/bookmarkController.js:9-10 | the extracted title is trimmed |
| TitleExtraction.FetchUrlTitle | backend/controllers/bookmarkController.js:4-15 | the result is trimmed, and a failed request gives '' |
| TitleExtraction.ExtractTitleSpec | backend/controllers/bookmarkController.js:9-10 | with no match the title is ''; otherwise it is the trimmed text of the leftmost match, ending at its first closing tag |
| TitleExtraction.ExtractTitleSingleLine | backend/controllers/bookmarkController.js:9 | the extracted title contains no line terminator |
| ListFilter.BuildQuery | backend/controllers/noteController.js:9-25 | the query has `$text` exactly for a non-empty `q`, `$in` exactly for a non-empty `tags` (one entry per piece), and `isFavorite` exactly for `favorite=true`; a record matches the query exactly when it is selected by the parameters |
| ListFilter.InSomeNormalised | backend/controllers/noteController.js:18-19 | a record tag is among the normalised pieces exactly when some piece normalises to a record tag |
| ListFilter.InsertDesc | backend/controllers/noteController.js:27-28 | inserting an id into a newest-first list keeps it newest first and adds exactly that id |
| ListFilter.InsertKeepsDistinct | backend/controllers/noteController.js:27-28 | inserting a new id keeps the ids distinct |
| ListFilter.FindSorted | backend/controllers/noteController.js:27-29 | the ids of exactly the records the query keeps, each once, newest `updatedAt` first |
| ListFilter.ListedRecords | backend/controllers/noteController.js:27-35 | the listed records are all selected, every selected record is listed, and their stamps descend |
| NoteController.NoteStore.constructor | backend/models/Note.js:3-31 | an empty, valid collection |
| NoteController.NoteStore.GetNotes | backend/controllers/noteController.js:4-44 | the answer holds exactly the caller's stored notes the parameters select, each once, newest first, and `count` is their number |
| NoteController.NoteStore.GetNoteById | backend/controllers/noteController.js:47-73 | the caller's own note with 200, or 'Note not found' whether the note is missing or another user's |
| NoteController.NoteStore.CreateNote | backend/controllers/noteController.js:76-112 | failing paths give 400 with their messages and store nothing; otherwise 201 with the new note stored under a fresh id and nothing else changed |
| NoteController.NoteStore.UpdateNote | backend/controllers/noteController.js:115-154 | validation comes first (400), then ownership (404); an accepted update of the caller's note answers 200 with the updated note and changes only that note |
| NoteController.NoteStore.DeleteNote | backend/controllers/noteController.js:157-183 | the caller's note is removed with 200 and nothing else changes; any other id gives 404 and changes nothing |
| BookmarkController.ResolveTitle | backend/controllers/bookmarkController.js:95-106 | the page is fetched exactly for an absent or blank title; a non-empty fetched title wins; an absent or empty title otherwise becomes 'Untitled Bookmark', and any other title is kept |
| BookmarkController.GivenTitleWins | backend/controllers/bookmarkController.js:96 | a non-blank title is kept as sent and nothing is fetched |
| BookmarkController.MissingTitleIsReplaced | backend/controllers/bookmarkController.js:96-106 | an absent or empty title never reaches the schema blank |
| BookmarkController.BlankTitleRejected | backend/controllers/bookmarkController.js:96-106 | a whitespace-only title the page cannot replace is passed on unchanged, and the schema reports 'title required' |
| BookmarkController.BookmarkStore.constructor | backend/models/Bookmark.js:3-58 | an empty, valid collection |
| BookmarkController.BookmarkStore.GetBookmarks | backend/controllers/bookmarkController.js:18-58 | the answer holds exactly the caller's stored bookmarks the parameters select, each once, newest first, and `count` is their number |
| BookmarkController.BookmarkStore.GetBookmarkById | backend/controllers/bookmarkController.js:61-87 | the caller's own bookmark with 200, otherwise 'Bookmark not found' |
| BookmarkController.BookmarkStore.CreateBookmark | backend/controllers/bookmarkController.js:90-145 | validation failures give 400 with their messages; a url the caller already has gives the duplicate answer; otherwise 201 and the new bookmark is stored under a fresh id; failures change nothing; urls stay unique per owner |
| BookmarkController.BookmarkStore.UpdateBookmark | backend/controllers/bookmarkController.js:148-194 | validation (400), then ownership (404), then a url another of the caller's bookmarks has (duplicate); otherwise 200 and only that bookmark changes |
| BookmarkController.BookmarkStore.DeleteBookmark | backend/controllers/bookmarkController.js:197-223 | the caller's bookmark is removed with 200; any other id gives 404 and changes nothing |
| QueryString.Utf8 | frontend/src/app/notes/page.tsx:53-54 | one code point is 1 to 4 bytes, and a single byte, equal to the code point, exactly when it is ASCII |
| QueryString.Encode | frontend/src/app/notes/page.tsx:53-54 | an encoded name or value contains neither '&' nor '=' |
| QueryString.Serialize | frontend/src/app/notes/page.tsx:53-54 | the serialisation is empty exactly when there are no pairs |
| QueryString.DecodeEncodeByte | frontend/src/app/notes/page.tsx:53-54 | decoding undoes the encoding of one byte |
| QueryString.DecodeEncodeBytes | frontend/src/app/notes/page.tsx:53-54 | decoding undoes the encoding of a byte sequence |
| QueryString.DecodeEncode | frontend/src/app/notes/page.tsx:53-54 | decoding an encoded string gives back its UTF-8 bytes |
| QueryString.ParseQuery | frontend/src/app/notes/page.tsx:53-54 | the form-urlencoded parser, the reference definition `ParseSerialize` checks the serialisation against: empty '&'-sequences are skipped, so a string of separators alone holds no pair |
| QueryString.ParseSerialize | frontend/src/app/notes/page.tsx:47-55 | parsing the serialised parameters gives back every pair, in order, as the UTF-8 bytes of its name and value |
| QueryString.RequestParams | frontend/src/app/notes/page.tsx:49-51 | `q` is present exactly for a non-empty search, `tags` exactly for a non-empty selection, `favorite=true` exactly for favourites only, and nothing else |
| QueryString.RequestUrl | frontend/src/app/notes/page.tsx:46-55 | the plain endpoint when no filter is set, otherwise the endpoint, '?' and the serialised parameters |
| QueryString.SelectedTagsRecovered | backend/controllers/noteController.js:17-18 | the server splits the `tags` parameter back into exactly the selected tags when none contains a ',' |
| QueryString.EncodeUnreserved | frontend/src/app/notes/page.tsx:53-54 | a name or value of unreserved ASCII is written as it is |
| QueryString.SerializeSingle | frontend/src/app/notes/page.tsx:53-54 | one pair is serialised as its encoded name, '=' and its encoded value |
| QueryString.SerializeUnreservedPair | frontend/src/app/favorites/page.tsx:53 | the favourites query's single unreserved pair is sent as `favorite=true` |
| EmailRule.EmailShape | frontend/src/app/login/page.tsx:37 | a matching address starts and ends with a word character, has exactly one '@', and otherwise only word characters, '.' and '-' |
| EmailRule.EmailNotBlank | frontend/src/app/login/page.tsx:35-39 | a matching address is never blank, so the two e-mail messages exclude each other |
| EmailRule.BlankIsNotEmail | frontend/src/app/login/page.tsx:35-39 | a blank e-mail never matches |
| EmailRule.AcceptsPlainAddress | frontend/src/app/login/page.tsx:37 | `jo@mail.com` matches |
| EmailRule.RejectsDotlessDomain | frontend/src/app/login/page.tsx:37 | a domain without a dot does not match |
| EmailRule.RejectsShortTopLevelLabel | frontend/src/app/login/page.tsx:37 | a one-character last label does not match |
| EmailRule.CheckEmail | frontend/src/app/login/page.tsx:35-39 | 'required' exactly for a blank e-mail, 'invalid' exactly for a non-blank one that does not match, none exactly for a match |
| LoginForm.ProblemsSpec | frontend/src/app/login/page.tsx:32-46 | each message appears exactly when its check fails, the list is empty exactly for a matching e-mail and a non-empty password, and the e-mail message comes first |
| LoginForm.LoginPage.constructor | frontend/src/app/login/page.tsx:9-16 | empty fields, no errors, not loading |
| LoginForm.LoginPage.SetText | frontend/src/app/login/page.tsx:20-30 | only the edited field changes, and the errors are cleared |
| LoginForm.LoginPage.ValidateForm | frontend/src/app/login/page.tsx:32-46 | the problems are those of the check function |
| LoginForm.LoginPage.Submit | frontend/src/app/login/page.tsx:48-70 | the request is sent exactly when both checks pass, with the e-mail and password as typed; otherwise the messages are shown and nothing is pending |
| LoginForm.LoginPage.Complete | frontend/src/app/login/page.tsx:71-94 | a refusal shows one message, a thrown error shows the network text followed by the error's text, and loading stops |
| SignupForm.UsernameRule | frontend/src/app/signup/page.tsx:38-42 | 'required' exactly for a blank username, 'too short' exactly for a non-blank one under 3 code points, none otherwise |
| SignupForm.PasswordRule | frontend/src/app/signup/page.tsx:50-54 | 'required' exactly for the empty password, 'too short' exactly for one under 6 code points |
| SignupForm.EmailRuleProblem | frontend/src/app/signup/page.tsx:44-48 | the e-mail rule of the login page, as a signup problem |
| SignupForm.ProblemsFieldMessages | frontend/src/app/signup/page.tsx:35-61 | each username, password and confirmation message appears exactly when its rule fails |
| SignupForm.ProblemsEmailMessages | frontend/src/app/signup/page.tsx:44-48 | each e-mail message appears exactly when its rule fails |
| SignupForm.ProblemsOrder | frontend/src/app/signup/page.tsx:35-61 | the list is empty exactly when all four rules pass; it has at most one problem per field, in the form's order |
| SignupForm.SignupPage.constructor | frontend/src/app/signup/page.tsx:9-19 | empty fields, no errors, no success text, not loading |
| SignupForm.SignupPage.SetField | frontend/src/app/signup/page.tsx:23-33 | only the edited field changes, and the errors are cleared |
| SignupForm.SignupPage.ValidateForm | frontend/src/app/signup/page.tsx:35-61 | the problems are those of the check function |
| SignupForm.SignupPage.Submit | frontend/src/app/signup/page.tsx:63-86 | the registration is sent exactly when every rule passes, without the confirmation; otherwise the messages are shown and nothing is pending |
| SignupForm.SignupPage.Complete | frontend/src/app/signup/page.tsx:87-109 | success shows the success text; a refusal shows the server's errors or its message; a thrown error shows the network text; the fields are kept and loading stops |
| CreateNoteForm.ProblemsSpec | frontend/src/components/CreateNoteModal.tsx:51-63 | each message appears exactly when its field is blank, the title first; the list is empty exactly when neither is blank |
| CreateNoteForm.Payload | frontend/src/components/CreateNoteModal.tsx:86-102 | title and content are trimmed, the tags canonical, the flag as checked |
| CreateNoteForm.PayloadMeetsSchema | frontend/src/components/CreateNoteModal.tsx:97-102 | a payload that passed the form's checks is accepted by the server exactly when its title fits 200 code points, and the stored note then has the payload's title, content, tags and flag |
| CreateNoteForm.CreateNoteModal.constructor | frontend/src/components/CreateNoteModal.tsx:23-30 | a reset form, no errors, not loading |
| CreateNoteForm.CreateNoteModal.SetText | frontend/src/components/CreateNoteModal.tsx:32-42 | only the edited field changes, and the errors are cleared |
| CreateNoteForm.CreateNoteModal.SetFavorite | frontend/src/components/CreateNoteModal.tsx:44-49 | only the flag changes; the errors stay |
| CreateNoteForm.CreateNoteModal.ValidateForm | frontend/src/components/CreateNoteModal.tsx:51-63 | the problems are those of the check function |
| CreateNoteForm.CreateNoteModal.Submit | frontend/src/components/CreateNoteModal.tsx:65-105 | the payload is sent exactly when the checks pass and there is a token; a failed check shows its messages, a missing token the authentication text |
| CreateNoteForm.CreateNoteModal.Complete | frontend/src/components/CreateNoteModal.tsx:106-129 | success hands the created note to the page and resets the form; a refusal shows the server's errors or message; a thrown error shows the network text; loading stops |
| CreateNoteForm.CreateNoteModal.Close | frontend/src/components/CreateNoteModal.tsx:131-142 | closing is refused while a request is pending; otherwise the form and errors are cleared |
| CreateBookmarkForm.ProblemsSpec | frontend/src/components/CreateBookmarkModal.tsx:90-108 | 'URL required' exactly for a blank url, 'invalid' exactly for a non-blank one that does not parse, never both; 'title required' exactly for a blank title, and last |
| CreateBookmarkForm.Payload | frontend/src/components/CreateBookmarkModal.tsx:130-147 | url, title and description are trimmed, the tags canonical, the flag as checked |
| CreateBookmarkForm.PayloadKeepsTitle | frontend/src/components/CreateBookmarkModal.tsx:143 | a checked payload's title is non-empty, so the server keeps it and fetches nothing |
| CreateBookmarkForm.PayloadMeetsSchema | frontend/src/components/CreateBookmarkModal.tsx:141-147 | a checked payload passes the schema exactly when the trimmed url parses and both length limits hold |
| CreateBookmarkForm.RefusalHidesFieldMessages | frontend/src/components/CreateBookmarkModal.tsx:164 | a server validation failure reaches this form only as 'Validation error' |
| CreateBookmarkForm.CreateBookmarkModal.constructor | frontend/src/components/CreateBookmarkModal.tsx:24-33 | a reset form, no errors, nothing pending |
| CreateBookmarkForm.CreateBookmarkModal.SetText | frontend/src/components/CreateBookmarkModal.tsx:35-44 | only the edited field changes, and the errors are cleared |
| CreateBookmarkForm.CreateBookmarkModal.SetFavorite | frontend/src/components/CreateBookmarkModal.tsx:46-51 | only the flag changes |
| CreateBookmarkForm.CreateBookmarkModal.UrlBlur | frontend/src/components/CreateBookmarkModal.tsx:54-72 | the title request goes out exactly for a non-empty url that parses, an empty title and a token; the fields are not touched |
| CreateBookmarkForm.CreateBookmarkModal.AutoFetchDone | frontend/src/components/CreateBookmarkModal.tsx:74-86 | only a successful answer with a non-empty title replaces the title; the auto-fetch spinner stops |
| CreateBookmarkForm.CreateBookmarkModal.ValidateForm | frontend/src/components/CreateBookmarkModal.tsx:90-108 | the problems are those of the check function |
| CreateBookmarkForm.CreateBookmarkModal.Submit | frontend/src/components/CreateBookmarkModal.tsx:110-148 | the payload, with a non-empty title, is sent exactly when the checks pass and there is a token; a failed check shows its messages, a missing token the authentication text |
| CreateBookmarkForm.CreateBookmarkModal.Complete | frontend/src/components/CreateBookmarkModal.tsx:150-172 | success hands the bookmark to the page and resets the form; a refusal shows only the server's message; a thrown error its own text; loading stops |
| CreateBookmarkForm.CreateBookmarkModal.Close | frontend/src/components/CreateBookmarkModal.tsx:174-187 | the form, the errors and both pending flags are cleared |
| NoteDetail.SaveStoresForm | frontend/src/components/NoteDetailModal.tsx:133-149 | a save is accepted exactly when the title trims to 1..200 code points and the content is not blank; the note then holds the trimmed texts and exactly the parsed tags |
| NoteDetail.UneditedSaveKeepsNote | frontend/src/components/NoteDetailModal.tsx:65-70 | for a note whose stored tags are canonical (as the schema setter leaves them), saving the form as loaded is accepted and changes nothing but the timestamp |
| NoteDetail.ToggleFlipsOnlyFavorite | frontend/src/components/NoteDetailModal.tsx:102-105 | the modal's toggle body is accepted and flips only the stored flag |
| NoteDetail.NoteDetailModal.constructor | frontend/src/components/NoteDetailModal.tsx:31-40 | no note, no error, not editing, an empty form |
| NoteDetail.NoteDetailModal.Shown | frontend/src/components/NoteDetailModal.tsx:271-391 | the edit panel is only shown while editing, and it shows the form |
| NoteDetail.NoteDetailModal.Fetch | frontend/src/components/NoteDetailModal.tsx:43-62 | the note is requested exactly for a non-empty id and a token; without a token the load fails with its text |
| NoteDetail.NoteDetailModal.FetchDone | frontend/src/components/NoteDetailModal.tsx:64-80 | a loaded note refills the form; a refusal shows the server's message or the fallback; a thrown error the load text; loading stops |
| NoteDetail.NoteDetailModal.ToggleFavorite | frontend/src/components/NoteDetailModal.tsx:89-106 | the request goes to the note's id with its flag negated, exactly when a note is shown and there is a token |
| NoteDetail.NoteDetailModal.ToggleDone | frontend/src/components/NoteDetailModal.tsx:108-119 | success shows the returned note, the form takes only its flag, and the note goes to the page; failures change nothing |
| NoteDetail.NoteDetailModal.StartEditing | frontend/src/components/NoteDetailModal.tsx:242 | edit mode starts, nothing else changes |
| NoteDetail.NoteDetailModal.CancelEditing | frontend/src/components/NoteDetailModal.tsx:335 | edit mode ends with the form kept as typed |
| NoteDetail.NoteDetailModal.EditText | frontend/src/components/NoteDetailModal.tsx:292-314 | only the edited form field changes |
| NoteDetail.NoteDetailModal.EditFavorite | frontend/src/components/NoteDetailModal.tsx:325 | only the form's flag changes |
| NoteDetail.NoteDetailModal.Save | frontend/src/components/NoteDetailModal.tsx:122-150 | the form goes to the note's id, as the controller reads it, exactly when a note is shown and there is a token; a missing token fails with the update text |
| NoteDetail.NoteDetailModal.SaveDone | frontend/src/components/NoteDetailModal.tsx:152-169 | success shows the saved note and leaves edit mode; a failure shows the error panel and keeps the edits |
| NoteDetail.NoteDetailModal.Delete | frontend/src/components/NoteDetailModal.tsx:172-190 | the delete is sent exactly when a note is shown, the user confirms and there is a token |
| NoteDetail.NoteDetailModal.DeleteDone | frontend/src/components/NoteDetailModal.tsx:192-210 | success hands the id to the page and closes; anything else shows the server's message or the fallback |
| NoteDetail.NoteDetailModal.Close | frontend/src/components/NoteDetailModal.tsx:258-261 | edit mode ends; note, error and form stay |
| BookmarkDetail.SaveStoresForm | frontend/src/components/BookmarkDetailModal.tsx:137-155 | a save passes the validators exactly when the trimmed url parses, the title trims to 1..300 and the description to at most 1000 code points; the bookmark then holds the trimmed texts and the parsed tags |
| BookmarkDetail.UneditedSaveKeepsBookmark | frontend/src/components/BookmarkDetailModal.tsx:68-74 | for a bookmark whose stored tags are canonical (as the schema setter leaves them), saving the form as loaded passes the validators and changes nothing but the timestamp |
| BookmarkDetail.ToggleFlipsOnlyFavorite | frontend/src/components/BookmarkDetailModal.tsx:106-109 | the modal's toggle body passes the validators and flips only the stored flag |
| BookmarkDetail.OwnUrlNotTaken | backend/controllers/bookmarkController.js:181-186 | a save that keeps a stored bookmark's url never meets the duplicate answer |
| BookmarkDetail.BookmarkDetailModal.constructor | frontend/src/components/BookmarkDetailModal.tsx:33-44 | no bookmark, no error, not editing, an empty form |
| BookmarkDetail.BookmarkDetailModal.Shown | frontend/src/components/BookmarkDetailModal.tsx:285-374 | the edit panel is only shown while editing, and it shows the form |
| BookmarkDetail.BookmarkDetailModal.Fetch | frontend/src/components/BookmarkDetailModal.tsx:46-62 | the bookmark is requested exactly for a non-empty id and a token; without a token the load fails |
| BookmarkDetail.BookmarkDetailModal.FetchDone | frontend/src/components/BookmarkDetailModal.tsx:64-84 | a loaded bookmark refills the form; a refusal shows the server's message or the fallback; a thrown error the load text |
| BookmarkDetail.BookmarkDetailModal.ToggleFavorite | frontend/src/components/BookmarkDetailModal.tsx:93-110 | the request goes to the bookmark's id with its flag negated, exactly when one is shown and there is a token |
| BookmarkDetail.BookmarkDetailModal.ToggleDone | frontend/src/components/BookmarkDetailModal.tsx:112-124 | success shows the returned bookmark, the form takes only its flag, and the page is told; failures change nothing |
| BookmarkDetail.BookmarkDetailModal.StartEditing | frontend/src/components/BookmarkDetailModal.tsx:256 | edit mode starts, nothing else changes |
| BookmarkDetail.BookmarkDetailModal.CancelEditing | frontend/src/components/BookmarkDetailModal.tsx:360 | edit mode ends with the form kept as typed |
| BookmarkDetail.BookmarkDetailModal.EditText | frontend/src/components/BookmarkDetailModal.tsx:306-339 | only the edited form field changes |
| BookmarkDetail.BookmarkDetailModal.EditFavorite | frontend/src/components/BookmarkDetailModal.tsx:350 | only the form's flag changes |
| BookmarkDetail.BookmarkDetailModal.Save | frontend/src/components/BookmarkDetailModal.tsx:126-155 | the form goes to the bookmark's id, untrimmed, exactly when one is shown and there is a token |
| BookmarkDetail.BookmarkDetailModal.SaveDone | frontend/src/components/BookmarkDetailModal.tsx:157-175 | success shows the saved bookmark and leaves edit mode; a failure shows the error panel and keeps the edits |
| BookmarkDetail.BookmarkDetailModal.Delete | frontend/src/components/BookmarkDetailModal.tsx:177-197 | the delete is sent exactly when a bookmark is shown, the user confirms and there is a token |
| BookmarkDetail.BookmarkDetailModal.DeleteDone | frontend/src/components/BookmarkDetailModal.tsx:199-215 | success hands the id to the page and closes; anything else shows the server's message or the fallback |
| BookmarkDetail.BookmarkDetailModal.Close | frontend/src/components/BookmarkDetailModal.tsx:272-274 | edit mode ends; bookmark, error and form stay |
| ListPage.ItemUrl | frontend/src/app/notes/page.tsx:139 | a record's url is the endpoint, then '/', then the id |
| ListPage.ItemListPage.constructor | frontend/src/app/notes/page.tsx:22-34 | the spinner is on, the lists are empty and no filter is set |
| ListPage.ItemListPage.Fetch | frontend/src/app/notes/page.tsx:38-62 | with a token the request url for the given filters; without one, no request and the spinner stops |
| ListPage.ItemListPage.FetchDone | frontend/src/app/notes/page.tsx:63-79 | a successful answer replaces the list and `allTags` becomes exactly the tags that occur in it; otherwise the list stays; the spinner stops |
| ListPage.ItemListPage.SetSearchTerm | frontend/src/app/notes/page.tsx:23 | only the search term changes |
| ListPage.ItemListPage.Search | frontend/src/app/notes/page.tsx:82-85 | the list is requested again with the three current filters |
| ListPage.ItemListPage.ToggleTagFilter | frontend/src/app/notes/page.tsx:88-96 | the tag leaves or joins the selection, no tag is repeated, and the list is requested with the new selection |
| ListPage.ItemListPage.ToggleFavoritesOnly | frontend/src/app/notes/page.tsx:99-104 | the favourites filter flips and the list is requested with the new filter |
| ListPage.ItemListPage.ClearFilters | frontend/src/app/notes/page.tsx:201-207 | all filters are cleared, the row of active filters disappears, and the plain endpoint is requested |
| ListPage.ItemListPage.Created | frontend/src/app/notes/page.tsx:113-118 | the new record goes in front, then the list is requested with the current filters |
| ListPage.ItemListPage.AskDelete | frontend/src/app/notes/page.tsx:121-125 | the confirmation opens for that record |
| ListPage.ItemListPage.CancelDelete | frontend/src/app/notes/page.tsx:163-166 | the confirmation closes and forgets the record |
| ListPage.ItemListPage.ConfirmDelete | frontend/src/app/notes/page.tsx:127-140 | the delete goes to the record's own url exactly when a record is waiting and there is a token; a missing token raises the alert |
| ListPage.ItemListPage.DeleteDone | frontend/src/app/notes/page.tsx:141-161 | success removes exactly the records with that id, keeping the rest in order, and closes the confirmation; anything else raises the alert |
| ListPage.ItemListPage.ToggleFavorite | frontend/src/app/notes/page.tsx:169-186 | the request goes to the record's url with its flag negated, exactly when there is a token |
| ListPage.ItemListPage.ToggleDone | frontend/src/app/notes/page.tsx:188-198 | success negates the local flag of exactly the matching records |
| ListPage.ItemListPage.DetailUpdated | frontend/src/app/notes/page.tsx:481-486 | the matching records become the updated one |
| ListPage.ItemListPage.DetailDeleted | frontend/src/app/notes/page.tsx:487-490 | the records with that id leave the list |
| FavoritesPage.FavoritesView.Counts | frontend/src/app/favorites/page.tsx:260-279 | the two header counters are the list lengths, and both are zero exactly when the empty state is shown |
| FavoritesPage.FavoritesView.constructor | frontend/src/app/favorites/page.tsx:33-38 | empty lists, the spinner on, no delete pending |
| FavoritesPage.FavoritesView.Start | frontend/src/app/favorites/page.tsx:197-211 | with a token both favourite lists are requested; without one nothing is requested |
| FavoritesPage.FavoritesView.Loaded | frontend/src/app/favorites/page.tsx:45-90 | a successful answer replaces the list of its kind and no other |
| FavoritesPage.FavoritesView.AllLoaded | frontend/src/app/favorites/page.tsx:204-206 | the spinner stops once both requests have ended |
| FavoritesPage.FavoritesView.AskDelete | frontend/src/app/favorites/page.tsx:100-104 | the confirmation opens for that record and kind |
| FavoritesPage.FavoritesView.CancelDelete | frontend/src/app/favorites/page.tsx:150-153 | the confirmation closes and forgets the record |
| FavoritesPage.FavoritesView.ConfirmDelete | frontend/src/app/favorites/page.tsx:106-128 | the delete goes to the endpoint of the record's kind exactly when a record is waiting and there is a token; a missing token raises the alert for that kind |
| FavoritesPage.FavoritesView.DeleteDone | frontend/src/app/favorites/page.tsx:129-148 | success removes the id from the list of its kind only and closes the confirmation; anything else raises that kind's alert |
| FavoritesPage.FavoritesView.ToggleFavorite | frontend/src/app/favorites/page.tsx:156-175 | the request goes to the record's url for its kind with the flag negated, exactly when there is a token |
| FavoritesPage.FavoritesView.ToggleDone | frontend/src/app/favorites/page.tsx:176-195 | a favourite that was un-favourited leaves its own list; all else stays |
| FavoritesPage.FavoritesView.DetailUpdated | frontend/src/app/favorites/page.tsx:450-454 | the matching records of the modal's kind become the updated one |
| FavoritesPage.FavoritesView.DetailDeleted | frontend/src/app/favorites/page.tsx:455-458 | the id leaves the list of the modal's kind only |
| FavoritesPage.UnfavoriteShortensByOne | frontend/src/app/favorites/page.tsx:178-190 | un-favouriting a record shown once shortens its list by exactly one |
| DashboardPage.Dashboard.TotalFavorites | frontend/src/app/dashboard/page.tsx:300 | with the counters in step, the figure is the favourite notes shown plus the favourite bookmarks |
| DashboardPage.Dashboard.constructor | frontend/src/app/dashboard/page.tsx:34-43 | no notes and all counters zero, in step |
| DashboardPage.Dashboard.NotesLoaded | frontend/src/app/dashboard/page.tsx:52-74 | a successful answer replaces the notes and puts both note counters in step with them |
| DashboardPage.Dashboard.BookmarksLoaded | frontend/src/app/dashboard/page.tsx:77-98 | a successful answer sets the bookmark total and favourite count from the list |
| DashboardPage.Dashboard.NoteCreated | frontend/src/app/dashboard/page.tsx:115-123 | the note goes in front, the total grows by one, the favourites by the note's flag, the counters stay in step, and the bookmark stats are requested |
| DashboardPage.Dashboard.NoteDeleted | frontend/src/app/dashboard/page.tsx:101-112 | the id leaves the list and the total drops by one; the counters stay in step when the id was shown once, and the total falls one below the list when it was not shown |
| DashboardPage.Dashboard.NoteUpdated | frontend/src/app/dashboard/page.tsx:126-132 | the matching notes become the updated one, the counters are unchanged, and the note list is requested |
| DashboardPage.DeleteCounters | frontend/src/app/dashboard/page.tsx:101-112 | removing an id shown once shortens the list by one and the favourites by that note's flag; an absent id changes nothing |

## Left out

- Status 500 answers. The model does not cover store, network or serialisation failures in the controllers, nor `CastError` for a malformed ObjectId. Ids are natural numbers drawn from a counter.
- The authentication middleware, the routes, the auth controller and the user model are not part of this model. The caller's `userId` is a parameter.
- The title fetch route `POST /api/bookmarks/fetch-title` is not part of this model. The create modal's `UrlBlur` returns its request, and `AutoFetchDone` takes its answer.
- `fetch`, `localStorage`/`sessionStorage`, router navigation, `alert`, `confirm`, `setTimeout` redirects and the login page's remember-me storage are not modelled. Each is a returned request, a returned alert flag, or a parameter.
- The asynchronous interleaving of requests and React's batching of state updates are not modelled. Each answer is applied at once. The id a delete was sent for is passed back explicitly rather than read from a stale closure.
- JavaScript string length counts UTF-16 code units; the model counts code points. The two differ only above U+FFFF, both in the length limits and in `Array.sort()`.
- Text.ToLowerFacts: `toLowerCase` is modelled on ASCII letters only, not the full Unicode case mapping.
- `$text` search is a parameter. Its tokenising, stemming and score are not modelled.
- The WHATWG URL parser is a parameter `parses`.
- JSON `null` payloads and bodies of the wrong shape are not modelled.
  - An answer with `success` but without data leaves the page lists unchanged.
  - In the detail modals, a record of the other kind reads its missing text fields as ''.
- Express's array form of a repeated query parameter is not modelled. Each parameter is one string.
- The form-urlencoded parser decodes to UTF-8 bytes, not back to text.
- NoteSchema.ApplyUpdate, BookmarkSchema.ApplyUpdate: these assume Mongoose 7 or later, where an update key whose value is `undefined` (a field the request body omits) is dropped and the stored value kept. Under Mongoose 6, where `omitUndefined` is off by default, such a key is set to null, and `required` on title, content or url then refuses the update. The source fixes no Mongoose version.
- The dashboard's parsing of the stored user, its window focus listener and its token checks are not modelled. Its fetches are the requests that `NotesLoaded` and `BookmarksLoaded` answer.
- Rendering, the show/hide password toggles, hover effects and the mobile menu are not modelled.
- The referenced user model's compound indexes, other than the unique `(userId, url)` index, affect only performance and are not modelled.

