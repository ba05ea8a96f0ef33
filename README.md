# Blog site core: contact validation, post catalog, image URLs

A Dafny model of the logic inside a small Next.js blog. Most of the site is
React markup. The logic that remains falls into three groups:

- **Contact messages.**
  - `validateForm` checks three fields: an anchored email pattern, then the
    trimmed name, then the trimmed message. It reports only the first
    failure.
  - The `/api/contact` route answers 405 for other methods and 422 for bad
    input. Otherwise it stores `{email, name, message, date}` and answers
    201, or 500 when the database fails.
  - The client `ContactForm` component has its own unanchored email test.
    Its `sendMessageHandler` updates six pieces of component state.
- **Posts.**
  - `getPostData` derives the slug by removing one trailing `.md`. It builds
    the record `{slug, ...data, content}` from the parsed front matter.
  - `getAllPosts` builds one record per file and sorts them with the
    comparator `a.date > b.date ? -1 : 1`.
- **Images.**
  - `imagePath` builds `/images/posts/<slug>/<image>`.
  - `imagePathMarkdown` passes through a source that already starts with
    `/images`.
  - The markdown `img` renderer first keeps only the file name, through
    `src.replace(/.*\/([^/]+)$/, "$1")`.

The JavaScript semantics these rely on are written out in `JsText`:

- The whitespace set shared by `\s` and `trim` (ECMAScript WhiteSpace plus
  LineTerminator).
- `trim`, `startsWith` and `endsWith`.
- Lexicographic `<` on strings.
- Last-index search.

`JsObject` models an object literal with properties and spreads, where a
later key overwrites an earlier one. Both the post record and the 201 reply
body, which has `message` twice, are built with it.

The two email patterns and the markdown file-name pattern are each defined
as a ghost predicate that states the match in terms of string positions. The
executable code is proved against that predicate. The slug's `/\.md$/`
needs no such predicate: it is an `endsWith` test.

Modules, one per file: `Wrappers`, `JsText`, `JsObject`, `ValidateForm`,
`ContactApi`, `ContactForm`, `ContactChecks` (how the three contact checks
relate), `PostData`, `AllPosts`, `Image` and `MarkdownRenderers`.

State that the source changes in place is modelled with classes:

- `ContactForm.ContactForm` holds the six `useState` fields.
- `ContactApi.ApiResponse` is the `res` object.
- `ContactApi.DocumentStore` is the message collection.
- `AllPosts.SortByDate` sorts an `array` in place.

## Model

| member | source | states |
|---|---|---|
| JsText.Trim | helpers/contact/validate-form.js:22 | `trim()` gives the empty string exactly when every character is whitespace; otherwise the result starts and ends with a non-whitespace character |
| JsText.LessIrreflexive | helpers/all-posts.js:13 | no date string is greater than itself |
| JsText.LessTransitive | helpers/all-posts.js:13 | string `<` is transitive |
| JsText.LessTotal | helpers/all-posts.js:13 | any two distinct strings are ordered one way or the other |
| JsText.LessAsymmetric | helpers/all-posts.js:13 | `a < b` excludes `b < a` |
| JsText.LessCommonPrefix | helpers/all-posts.js:13 | a shared prefix does not change the comparison |
| JsText.LessIsLexicographic | helpers/all-posts.js:13 | string `<` holds exactly when the first string is a proper prefix of the second, or at the first position where they differ its character is smaller |
| JsText.FirstDifferenceDecides | helpers/all-posts.js:13 | strings that differ in their first character are ordered by that character alone |
| JsText.DropSharedHead | helpers/all-posts.js:13 | a shared first character does not change the lexicographic order |
| JsText.StartsWithConcat | utils/image.js:4 | `startsWith(p)` holds exactly of the strings that are `p` followed by something |
| JsText.EndsWithConcat | utils/post-data.js:13 | `endsWith(p)` holds exactly of the strings that are something followed by `p` |
| JsObject.Literal | utils/post-data.js:15-19 | an object literal has exactly the keys its properties and spreads mention |
| JsObject.LiteralLastWins | utils/post-data.js:15-19 | a key's value comes from the last member that writes it |
| ValidateForm.EmailRegexShape | helpers/contact/validate-form.js:6-8 | the anchored pattern matches exactly when there is one `@`; the part before it is non-empty and has no whitespace; the part after it has no whitespace or `@`; and that part holds a `.` that is neither its first nor its last character |
| ValidateForm.EmailRegexTest | helpers/contact/validate-form.js:6-8 | the executable test is true exactly when the pattern matches the whole string |
| ValidateForm.SecondEmailCheckRedundant | helpers/contact/validate-form.js:15-20 | an email the pattern accepted always contains `@` and `.`, so the second check never rejects |
| ValidateForm.ValidateForm | helpers/contact/validate-form.js:1-39 | valid exactly when there is no message; every failure carries a non-empty message; valid exactly when the email matches and neither name nor message is blank; an email failure wins over a name failure, which wins over a message failure, each with its own text |
| ValidateForm.ValidateFormAcceptsExample | helpers/contact/validate-form.js:36-38 | `("a@b.co", "X", "hi")` is accepted with no message |
| ValidateForm.ValidateFormRejectsExamples | helpers/contact/validate-form.js:8-13 | `"bad"` is rejected with the email message, whatever the name and message, blank ones included |
| ContactApi.Field | pages/api/contact.js:8 | destructuring gives `undefined` exactly for a field the body does not have, and the body's value for one it has |
| ValidateForm.WellShapedExample | helpers/contact/validate-form.js:6 | `a@b.co` has the accepted shape |
| ContactApi.InputRejected | pages/api/contact.js:10-18 | rejected exactly when a field is missing or blank (empty included), or the email has no `@` |
| ContactApi.MessageReply | pages/api/contact.js:19 | a `{message: text}` body and nothing stored |
| ContactApi.StoredPayload | pages/api/contact.js:46-49 | the duplicate `message` key leaves only the stored document in the 201 body |
| ContactApi.Respond | pages/api/contact.js:6-60 | a method other than POST gets 405 "Method not allowed" with nothing stored; bad input gets 422 "Invalid input" with nothing stored; a document is stored, with 201, exactly when the input passes and both connect and insert succeed; the stored document holds the three body fields, the server's date and the insert's id; 500 comes exactly when connect or insert fails, carrying that helper's error text |
| ContactApi.OtherBodyFieldsIgnored | pages/api/contact.js:8-29 | two bodies that agree on `email`, `name` and `message` get the same reply and store the same document |
| ContactApi.StoredDateIsServerTime | pages/api/contact.js:24-44 | a stored document's date is the server clock and its `_id` is the insert's `insertedId` |
| ContactApi.DocumentStore.constructor | helpers/contact/insert-form-document.js:1-16 | an empty store |
| ContactApi.DocumentStore.InsertFormDocument | helpers/contact/insert-form-document.js:1-16 | on success, the document with its new id is appended to that one collection and the id is returned; on failure, nothing changes and no id is returned |
| ContactApi.ApiResponse.constructor | pages/api/contact.js:6 | a response that has not been sent yet |
| ContactApi.ApiResponse.Send | pages/api/contact.js:19 | sets exactly the status code and the body |
| ContactApi.Handler | pages/api/contact.js:6-60 | the response status and body are `Respond`'s; the store gains the stored document in `Contact-Form`/`messages` exactly when one is stored, and is unchanged otherwise |
| ContactForm.EmailIsValid | components/contact/contact-form/contact-form.js:13 | true exactly when some substring is a non-whitespace run, `@`, a run, `.`, a run |
| ContactForm.LooseEmailShortest | components/contact/contact-form/contact-form.js:13 | an unanchored match exists exactly when there is an `@` with a non-whitespace character before it, then a `.` after a non-empty whitespace-free run, then a non-whitespace character |
| ContactForm.ShortestIsMatch | components/contact/contact-form/contact-form.js:13 | that shortest window is itself a match |
| ContactForm.ClientCheck | components/contact/contact-form/contact-form.js:21-29 | passes exactly when the email test passes and neither name nor message is blank; the email error takes precedence over "Please fill in all fields." |
| ContactForm.OrElse | components/contact/contact-form/contact-form.js:51 | `value \|\| fallback`: the value when it is a non-empty string, otherwise the fallback |
| ContactForm.FailureOf | components/contact/contact-form/contact-form.js:48-59 | no error exactly on an ok response; a non-ok response yields the server's message or "Something went wrong!"; a throw yields its message or "Failed to send the message."; an error is never empty |
| ContactForm.ContactForm.constructor | components/contact/contact-form/contact-form.js:6-11 | the initial state: empty inputs, not loading, no error, no success |
| ContactForm.ContactForm.ChangeEmail | components/contact/contact-form/contact-form.js:78 | sets the email input and nothing else |
| ContactForm.ContactForm.ChangeFullName | components/contact/contact-form/contact-form.js:89 | sets the name input and nothing else |
| ContactForm.ContactForm.ChangeMessage | components/contact/contact-form/contact-form.js:102 | sets the message input and nothing else |
| ContactForm.ContactForm.SendMessage | components/contact/contact-form/contact-form.js:15-63 | if the local check fails: no request, `error` is the check's message, `success` is false, the inputs are kept; otherwise the three inputs are sent and `error` is the request's failure; `success` holds exactly when a request went out and no error was set; success clears the inputs and failure keeps them; exactly one of `success` and `error` is set; `isLoading` is false afterwards |
| ContactForm.ContactForm.Deliver | components/contact/contact-form/contact-form.js:31-62 | after the request `isLoading` is false; `error` is the outcome's failure and `success` is its absence; the inputs are cleared exactly on success |
| ContactChecks.LooseEmailHasAt | components/contact/contact-form/contact-form.js:13 | an email the client test accepts contains `@` and is not blank |
| ContactChecks.AnchoredEmailIsLooseEmail | helpers/contact/validate-form.js:6 | what the anchored pattern accepts, the client's unanchored pattern accepts |
| ContactChecks.LooseEmailAdmitsSpaces | components/contact/contact-form/contact-form.js:13 | the converse fails: `"a b@c.d"` passes the client test but not `validateForm`'s pattern |
| ContactChecks.LooseAcceptsSpacedExample | components/contact/contact-form/contact-form.js:13 | the witness window inside `"a b@c.d"` |
| ContactChecks.AnchoredRejectsSpacedExample | helpers/contact/validate-form.js:6 | the anchored pattern rejects `"a b@c.d"` |
| ContactChecks.ValidateFormAcceptedPassesClientCheck | helpers/contact/validate-form.js:6-34 | what `validateForm` accepts passes the form's own checks |
| ContactChecks.ClientCheckedPassesServerCheck | components/contact/contact-form/contact-form.js:21-29 | what passes the form's checks is never rejected by the server's input check |
| ContactChecks.ValidatedPassesServerCheck | helpers/contact/validate-form.js:6-34 | what `validateForm` accepts is never rejected by the server's input check |
| ContactChecks.PostedBody | components/contact/contact-form/contact-form.js:33-42 | the server reads back exactly the three fields the form sent |
| ContactChecks.SentMessageIsAccepted | components/contact/contact-form/contact-form.js:21-46 | a message the form sends is answered 201 or 500, never 422, and anything stored holds the form's three fields |
| PostData.SlugOf | utils/post-data.js:13 | a name ending in `.md` loses exactly that suffix; any other name is unchanged |
| PostData.SlugStripsOneExtension | utils/post-data.js:13 | appending `.md` and deriving the slug gives the name back |
| PostData.SlugExamples | utils/post-data.js:13 | `a.md.md` gives `a.md`, `.md` gives the empty slug, `notes.txt` stays |
| PostData.PostMerge | utils/post-data.js:15-19 | the record's keys are the front-matter keys plus `slug` and `content`; `content` is the body; a front-matter `slug` overrides the derived one; every other front-matter value is copied |
| PostData.GetPostData | utils/post-data.js:6-22 | the same four facts about the record `getPostData` returns |
| AllPosts.BuildPosts | helpers/all-posts.js:8-10 | one record per file, in the listing's order, the record at each index being `getPostData` of the file at that index |
| AllPosts.Compare | helpers/all-posts.js:12-13 | answers -1 or 1, and -1 exactly when both records have a date and the first one's is strictly later; a record without a date answers 1 against any record, in either order |
| AllPosts.ComparatorTiesInconsistent | helpers/all-posts.js:12-13 | equal dates, or two missing ones, answer 1 in both orders, so the comparator is not consistent |
| AllPosts.LaterAsymmetric | helpers/all-posts.js:13 | `a.date > b.date` excludes `b.date > a.date` |
| AllPosts.LaterTransitive | helpers/all-posts.js:13 | `a.date > b.date` and `b.date > c.date` give `a.date > c.date`, which is what sortedness chains on |
| AllPosts.UndatedHidesOrder | helpers/all-posts.js:12-14 | in `[January, undated, February]` each record compares as not before its predecessor, yet the list is not sorted newest first |
| AllPosts.SortByDate | helpers/all-posts.js:12-14 | the array ends with no record later than one before it, and is a permutation of what it held |
| AllPosts.InsertLast | helpers/all-posts.js:12-14 | one insertion step leaves `a[..i + 1]` sorted and a permutation of what it held, and `a[i + 1..]` unchanged |
| AllPosts.SwapDown | helpers/all-posts.js:12-14 | one swap the comparator asks for exchanges `a[j - 1]` and `a[j]`, leaves every other cell unchanged, and keeps the insertion invariant |
| AllPosts.SwapStep | helpers/all-posts.js:12-14 | a swap the comparator asks for keeps the insertion invariant and the multiset |
| AllPosts.InsertDone | helpers/all-posts.js:12-14 | when the comparator stops the swaps, the prefix is sorted |
| AllPosts.GetAllPosts | helpers/all-posts.js:5-17 | one record per file, the records a permutation of those built from the files, no record later than one before it |
| AllPosts.SortedNeighbours | helpers/all-posts.js:12-14 | neighbouring records that both have a date have non-increasing dates |
| AllPosts.Map | helpers/all-posts.js:8-10 | `map` keeps the length and applies the function at every index |
| AllPosts.MapPermutation | helpers/all-posts.js:8-14 | mapping two permutations of one list gives two permutations of one image |
| AllPosts.CatalogSlugs | helpers/all-posts.js:8-10 | without front-matter `slug` keys, the catalog's slugs are the file names with `.md` removed, one per file |
| AllPosts.NewestFirstExample | helpers/all-posts.js:12-14 | posts dated 2024-01-01 and 2024-02-01 come out February first |
| Image.ImagePath | utils/image.js:1 | the path starts with `/images/posts/`, ends with the image name, and its length is the sum of its parts |
| Image.ImagePathRecoversImage | utils/image.js:1 | the image name is the tail after the prefix, the slug and `/` |
| Image.ImagePathInjective | utils/image.js:1 | for one slug, different image names give different paths |
| Image.ImagePathNotJointlyInjective | utils/image.js:1 | slug and name together do not determine the path's parts: `("a/b", "c")` and `("a", "b/c")` collide |
| Image.ImagePathMarkdown | utils/image.js:3-4 | a source starting with `/images` is returned unchanged; any other gets the post path; the result always starts with `/images` |
| Image.ImagePathMarkdownIdempotent | utils/image.js:3-4 | a second pass, with any slug, changes nothing |
| Image.ImagesPrefixNotSegment | utils/image.js:4 | the test is a plain prefix: `/imagesX.png` passes through and `images/x.png` does not |
| MarkdownRenderers.FileNameOnly | utils/markdown-renderers.js:15 | the result is the source with its leftmost match replaced by the text after the last `/`; with no match the source is unchanged |
| MarkdownRenderers.FirstMatch | utils/markdown-renderers.js:15 | the match starts right after the last line terminator before the last `/`, and no other match is leftmost |
| MarkdownRenderers.CutMatches | utils/markdown-renderers.js:15 | that start and the last `/` form a match |
| MarkdownRenderers.NoEarlierMatch | utils/markdown-renderers.js:15 | no match starts earlier |
| MarkdownRenderers.LastSlashUnique | utils/markdown-renderers.js:15 | a `/` with no `/` after it is the last one |
| MarkdownRenderers.FileNameAfterLastSlash | utils/markdown-renderers.js:15 | on one line, with a `/` that is not the last character, the result is the non-empty text after the last `/` and holds no `/` |
| MarkdownRenderers.FileNameUnchanged | utils/markdown-renderers.js:15 | with no `/`, or with `/` as the last character, the source is unchanged |
| MarkdownRenderers.FileNameIsSuffix | utils/markdown-renderers.js:15 | on one line, the kept name is a suffix of the source |
| MarkdownRenderers.FileNameIdempotent | utils/markdown-renderers.js:15 | on one line, extracting twice is extracting once |
| MarkdownRenderers.LineTerminatorKeepsPrefix | utils/markdown-renderers.js:15 | across a newline, the text before the match survives and the extraction is not idempotent |
| MarkdownRenderers.ImageUrl | utils/markdown-renderers.js:15 | the URL starts with `/images` and is `imagePathMarkdown` of the extracted name |
| MarkdownRenderers.ImageUrlIsPostPath | utils/markdown-renderers.js:15 | on one line and not ending in `/`, the extracted name never starts with `/images`, so the URL is always the post path |
| MarkdownRenderers.LineTerminatorReachesPassThrough | utils/markdown-renderers.js:15 | with a newline the pass-through is reachable: `"/images\nx/y"` yields `"/images\ny"` unchanged |
| MarkdownRenderers.OutsideImages | utils/image.js:4 | a name with no `/` never passes the `/images` prefix test |

## Left out

- Database I/O. The MongoDB client in helpers/contact/connect-database.js and
  helpers/contact/insert-form-document.js is replaced by given outcomes:
  - connect either succeeds or fails with the fixed text "Failed to connect to the database.";
  - insert either returns an id or fails with "Failed to insert form document.".
  The environment variable holding the connection URL is not modelled.
  Neither is the driver's own addition of `_id` to the inserted object.
- Connection release at pages/api/contact.js:53-55. Line 36 declares a new
  `client`, which shadows the one declared at line 33. So the outer variable
  is never assigned and `close()` never runs. The model has no connection
  to release.
- `console.log` and `console.error` output.
- `fetch`, `response.json()` and `event.preventDefault()`. The request's
  result is a given `FetchOutcome`: an answer with its `ok` flag and
  optional `message`, or a thrown error with its message.
- File reads. `fs.readdirSync`, `fs.readFileSync`, `path.join` and the
  gray-matter front-matter parser are replaced by a given file list and a
  function from file name to parsed `(data, content)`.
  - Front-matter values are taken as strings.
  - `getPostData` is a function of those inputs, so it is deterministic.
- `new Date()` is a given `Timestamp`. The `formattedDate` helper, which
  formats the current clock with locale rules, is not part of this model.
- Dates in the sort are compared as strings. JavaScript `Date` coercion is
  not modelled. A record without `date` compares as `undefined`, which
  converts to NaN, so every comparison with it is false.
  String `<` is modelled on code points. JavaScript compares UTF-16 code
  units, which can differ for characters outside the Basic Multilingual
  Plane.
- AllPosts.SortByDate: the engine's own sort algorithm is not modelled. An
  insertion sort stands for it. Because ties answer 1 both ways, the
  comparator is inconsistent, and ECMA-262 (section 23.1.3.30, 2023 edition)
  then leaves the order implementation-defined. The contract states what
  the insertion sort yields: a permutation with no record later than one
  before it. The order among equal dates is left open.
- AllPosts.GetAllPosts: when every record has a date, sortedness is what a
  comparison sort yields with this comparator. A record without a date ties
  with every record, so the engine's output need not be sorted: a sort that
  takes `[January, undated, February]` as one ordered run returns it
  unchanged (see `UndatedHidesOrder`). The sortedness promised here belongs
  to the model's insertion sort, not to every engine.
- Request bodies hold string values only. A non-string value, on which
  `.trim()` would throw, is not modelled.
- ContactForm.ContactForm.SendMessage: requires `isLoading` to be false when
  a submit starts. The submit button is not rendered while loading
  (components/contact/contact-form/contact-form.js:108). The source never
  resets `isLoading` on the early returns at lines 21-29.
- Concurrency. `async`/`await` and React's batched state updates are not
  modelled. Each handler runs to completion in one step, and each state
  update takes effect immediately.
- All JSX rendering and `next/image`. The other presentational components,
  pages and static data (hero, notification, post lists, navigation,
  layout, dummy data) are not part of this model.
