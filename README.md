# Personal notes and bookmark manager, modelled in Dafny

The system is a small web application for notes and bookmarks. An Express server
keeps them in MongoDB through Mongoose; a React client lists, edits and deletes them,
schedules browser reminders for notes, and shows a recycle bin of soft-deleted items.
This project models the rules that sit between the database and the screen:

- **Bookmark records** (`BookmarkSchema`): the Mongoose schema's fields, trim setters,
  defaults and the `required` check on `url`.
- **Bookmark routes** (`BookmarkRoutes`): the listing filter (deleted split, case-insensitive
  text match, any-of tag match, newest first), the URL pattern (`UrlPattern`,
  `UrlPatternProofs`), create with its title default, the partial update, soft delete,
  restore, permanent delete and the 404 lookup. The collection is a class `BookmarkStore`
  holding a map from id to record.
- **Note routes** (`NoteRoutes`): the same CRUD shape with a hard delete, no deleted
  filter, and a create and update that carry only title, content, tags and isFavorite.
- **Accounts** (`AuthRoutes`): signup checks in their fixed order and the insert into a
  `UserStore` class that keeps emails and usernames unique; login with one failure for
  every bad credential; `/me` with the token taken from the Authorization header.
  bcrypt and JSON Web Tokens are function parameters.
- **Reminders** (`Notifications`): the module-level timer map as a class `Scheduler`,
  `scheduleNotification`, the timer callback, `scheduleAllNotifications`, the 24-hour
  window and the truncated notification body.
- **Client pages** (`ClientLists`, `ListPage`, `NotesPage`, `BookmarksPage`,
  `RecycleBinPage`): the comma-separated tag field and its round trip, the list updates
  after a server call (filter, map and prepend by `_id`), the modal reset, the recycle-bin
  endpoints, count and header text.
- Shared pieces: `Text` (JavaScript `trim`, `split`, `join`, ASCII case folding, decimal
  numerals), `Queries` (the parts of the MongoDB query both listings build), `Listing`
  (the newest-first selection), `Wrappers` and `Http`.

Requests are handled one at a time. Clocks, date parsing, hashing, token signing,
`window.confirm` and request outcomes are parameters.

## Model

| member | source | states |
|---|---|---|
| Text.Trim | backend/models/Bookmark.js:7 | The trimmed string has no whitespace at either end; together with TrimIsSlice this pins the result down. |
| Text.TrimIsSlice | backend/models/Bookmark.js:7 | The trimmed string is a contiguous piece of the original, and every character removed before and after it is whitespace. |
| Text.TrimKeepsOut | frontend/src/pages/NotesPage.jsx:76 | Trimming never introduces a character the input did not have. |
| Text.TrimIdentity | frontend/src/pages/NotesPage.jsx:76 | Trimming leaves a string unchanged exactly when it has no whitespace at either end. |
| Text.TrimLeadingSpace | frontend/src/pages/NotesPage.jsx:76 | A leading space does not change the trimmed result. |
| Text.Split | frontend/src/pages/NotesPage.jsx:76 | `split` yields at least one piece, and no piece contains the separator. |
| Text.SplitWithoutSeparator | frontend/src/pages/NotesPage.jsx:76 | A string without the separator splits into itself alone. |
| Text.SplitAfterPiece | frontend/src/pages/NotesPage.jsx:76 | Splitting a separator-free piece, the separator and a rest gives that piece followed by the split of the rest. |
| Text.SplitCountsSeparator | backend/routes/auth.js:102 | Splitting gives two or more pieces exactly when the separator occurs. |
| Text.Join | frontend/src/pages/NotesPage.jsx:55 | `join` of no pieces is empty; otherwise the text starts with the first piece, and every character comes from a piece or from the separator. |
| Text.SplitJoin | frontend/src/pages/NotesPage.jsx:55 | Splitting a join on the same one-character separator gives back the pieces when none contains the separator. |
| Text.TrimAll | frontend/src/pages/NotesPage.jsx:76 | `map(tag => tag.trim())` keeps the length and trims each piece in place. |
| Text.TrimAllPointwise | frontend/src/pages/NotesPage.jsx:76 | Lists whose pieces trim alike have the same trimmed lists. |
| Text.DecimalString | frontend/src/pages/RecycleBinPage.jsx:135 | The numeral is non-empty, all digits, and has no leading zero except for 0. |
| Text.DecimalRoundTrip | frontend/src/pages/RecycleBinPage.jsx:135 | Reading the printed numeral back gives the number. |
| Queries.TagList | backend/routes/bookmarks.js:29-32 | The `tags` parameter becomes one entry per comma-separated piece, entry i being the i-th piece trimmed; empties are kept. |
| Queries.TagListOfOne | backend/routes/notes.js:18-21 | A parameter without a comma is the single trimmed tag. |
| Listing.InsertNewestFirst | backend/routes/bookmarks.js:34 | Inserting into a newest-first list keeps it newest first and adds exactly that element. |
| Listing.Select | backend/routes/notes.js:23 | The selection holds each accepted record exactly once and nothing else, ordered by `createdAt` descending. |
| UrlPattern.Parse | backend/routes/bookmarks.js:49-54 | A string the validator accepts is the rendering of well-formed URL parts. |
| UrlPattern.Cut | backend/routes/bookmarks.js:49-54 | The parser's cut of a string into URL parts and a remainder loses nothing. |
| UrlPattern.IsValidUrl | backend/routes/bookmarks.js:56 | A string `urlPattern.test` accepts is the rendering of well-formed URL parts. |
| UrlPatternProofs.ParseRender | backend/routes/bookmarks.js:49-54 | Every well-formed combination of scheme, host, port, path, query and fragment is accepted and parsed back into itself. |
| UrlPatternProofs.UrlPatternMeaning | backend/routes/bookmarks.js:49-54 | A string is accepted exactly when it is the rendering of well-formed parts: optional `http://`/`https://` in any case, a dotted domain with a TLD of at least two letters or a dotted quad of 1-3 digit groups, then optional port, path, query and fragment. |
| UrlPatternProofs.ValidUrlHasDot | backend/routes/bookmarks.js:50-51 | Every accepted URL contains a dot. |
| UrlPatternProofs.NoDotIsRejected | backend/routes/bookmarks.js:50-51 | A string without a dot is rejected. |
| UrlPatternProofs.UndefinedIsRejected | backend/routes/bookmarks.js:56 | The text "undefined", which a missing `url` is tested as, is rejected. |
| UrlPatternProofs.ValidUrlChars | backend/routes/bookmarks.js:49-54 | Every character of an accepted URL is from the pattern's character sets. |
| UrlPatternProofs.ValidUrlIsTrimmed | backend/routes/bookmarks.js:49-54 | An accepted URL is non-empty and the `trim` setter leaves it unchanged. |
| BookmarkSchema.Assign | backend/models/Bookmark.js:3-20 | Supplied fields are stored trimmed (each tag too); unsupplied fields, id, createdAt and the deleted state keep their values. |
| BookmarkSchema.Create | backend/models/Bookmark.js:3-29 | A new document saves exactly when its trimmed `url` is non-empty; then it conforms, holds the trimmed fields, defaults tags to none, isFavorite to false and createdAt to now, and is not deleted. |
| BookmarkSchema.AssignConforms | backend/models/Bookmark.js:3-29 | Assigning to a conforming record that still has a url keeps it conforming. |
| BookmarkRoutes.BuildFilter | backend/routes/bookmarks.js:11-32 | `deleted=true` selects the deleted split; `q` and `tags` add a filter exactly when they are non-empty. |
| BookmarkRoutes.Matches | backend/routes/bookmarks.js:14-32 | A listed bookmark is on the side of the deleted split the query asks for, and a tag filter never lists a bookmark without tags. |
| BookmarkRoutes.DeletedSplit | backend/routes/bookmarks.js:14-19 | The default listing never holds a soft-deleted bookmark; `deleted=true` holds only soft-deleted ones, and all of them without other parameters. |
| BookmarkRoutes.SoftDeleted | backend/routes/bookmarks.js:105-106 | Soft delete sets isDeleted and deletedAt to now and changes nothing else. |
| BookmarkRoutes.Restored | backend/routes/bookmarks.js:117-118 | Restore clears isDeleted and deletedAt, whatever the state, and changes nothing else. |
| BookmarkRoutes.RestoreUndoesSoftDelete | backend/routes/bookmarks.js:103-124 | Restoring a soft-deleted active record gives back the record it was. |
| BookmarkRoutes.TransitionsConform | backend/routes/bookmarks.js:103-124 | Soft delete and restore keep a record conforming to the schema. |
| BookmarkRoutes.UrlTestOfBody | backend/routes/bookmarks.js:56-58 | Testing the body's `url` accepts exactly a present URL that matches the pattern; an accepted URL is non-empty and already trimmed. |
| BookmarkRoutes.DefaultTitle | backend/routes/bookmarks.js:62 | The title is the given one, or the URL when the title is missing or empty. |
| BookmarkRoutes.CreateFields | backend/routes/bookmarks.js:60-66 | The constructor gets the body with only the title defaulted. |
| BookmarkRoutes.AcceptedBodySaves | backend/routes/bookmarks.js:56-73 | A body whose URL passes the check always saves, with the URL stored as sent. |
| BookmarkRoutes.BookmarkStore.Lookup | backend/routes/bookmarks.js:137-150 | An id present gives its record; an absent id gives 404 "Cannot find bookmark". |
| BookmarkRoutes.BookmarkStore.List | backend/routes/bookmarks.js:9-39 | The listing holds each stored bookmark the filter accepts exactly once and nothing else, newest first. |
| BookmarkRoutes.BookmarkStore.Insert | backend/routes/bookmarks.js:68-73 | Saving adds the record under a fresh id and keeps every other record. |
| BookmarkRoutes.BookmarkStore.Create | backend/routes/bookmarks.js:45-75 | A URL failing the check gives 400 "Invalid URL" and stores nothing; otherwise 201 with the stored record: URL as sent, title defaulted and trimmed, fields trimmed, defaults applied, under a fresh id. |
| BookmarkRoutes.BookmarkStore.Update | backend/routes/bookmarks.js:77-99 | Absent id: 404, unchanged. Otherwise the supplied fields overwrite the stored ones without a URL check; a url trimmed to empty is rejected with 400, unchanged; else only that record changes. |
| BookmarkRoutes.BookmarkStore.SoftDelete | backend/routes/bookmarks.js:103-112 | Absent id: 404, unchanged; otherwise the record stays, marked deleted at now, and nothing else changes. |
| BookmarkRoutes.BookmarkStore.Restore | backend/routes/bookmarks.js:115-124 | Absent id: 404, unchanged; otherwise the record is made active with no deletedAt, with no precondition on its state. |
| BookmarkRoutes.BookmarkStore.PermanentDelete | backend/routes/bookmarks.js:127-134 | Absent id: 404, unchanged; otherwise exactly that record is erased, deleted or not. |
| BookmarkRoutes.PermanentDeleteIsFinal | backend/routes/bookmarks.js:127-134 | After a permanent delete the id answers 404 and no listing, with any parameters, holds a record with it. |
| NoteRoutes.BuildFilter | backend/routes/notes.js:8-21 | `q` and `tags` add a filter exactly when they are non-empty; nothing else does. |
| NoteRoutes.Matches | backend/routes/notes.js:11-21 | A text filter never lists a note with neither title nor content, and a tag filter never lists a note without tags. |
| NoteRoutes.ListingIgnoresDeleted | backend/routes/notes.js:8-23 | A `deleted` parameter changes nothing, and without `q` and `tags` every note is listed, deleted or not. |
| NoteRoutes.Construct | backend/routes/notes.js:37-42 | A new note takes only title, content, tags and isFavorite from the body; it has no reminder and is not deleted. |
| NoteRoutes.Assign | backend/routes/notes.js:54-65 | Exactly the four fields supplied non-null are overwritten; every other field is unchanged. |
| NoteRoutes.AssignNothing | backend/routes/notes.js:54-65 | An update supplying none of the four fields leaves the note as it was. |
| NoteRoutes.NoteStore.Lookup | backend/routes/notes.js:86-99 | An id present gives its record; an absent id gives 404 "Cannot find note". |
| NoteRoutes.NoteStore.List | backend/routes/notes.js:6-28 | The listing holds each stored note the filter accepts exactly once and nothing else, newest first. |
| NoteRoutes.NoteStore.Create | backend/routes/notes.js:36-50 | A rejected save gives 400 and stores nothing; otherwise 201 with the constructed note under a fresh id. |
| NoteRoutes.NoteStore.Update | backend/routes/notes.js:53-73 | Absent id: 404, unchanged; rejected save: 400, unchanged; otherwise only that note is replaced by its assigned version. |
| NoteRoutes.NoteStore.Delete | backend/routes/notes.js:76-83 | Absent id: 404, unchanged; otherwise the note is erased outright. |
| NoteRoutes.CreateDropsReminder | backend/routes/notes.js:37-42 | A created note looked up by its id has no reminder, and no stored note ever has one or is marked deleted. |
| NoteRoutes.DeleteIsFinal | backend/routes/notes.js:76-83 | After a delete the id answers 404 and no listing holds a note with it. |
| AuthRoutes.Public | backend/routes/auth.js:44-52 | The reply carries id, username and email of the user. |
| AuthRoutes.AppendKeepsUnique | backend/routes/auth.js:24-39 | Adding a user whose email and username are both free keeps emails and usernames unique. |
| AuthRoutes.FindByEmail | backend/routes/auth.js:70 | The lookup finds the first user with the email, or reports that none has it. |
| AuthRoutes.FoundIsOnly | backend/routes/auth.js:70 | With unique emails, the lookup finds the one user with that email. |
| AuthRoutes.ExtractToken | backend/routes/auth.js:102 | A token is present exactly when the header is present and contains a space. |
| AuthRoutes.TokenAfterAnyScheme | backend/routes/auth.js:102 | The word after the first space is the token, for "Bearer" and for any other scheme word. |
| AuthRoutes.UserStore.Signup | backend/routes/auth.js:10-57 | Missing field: 400 first; then a password under 6 characters: 400; then a taken email or username: 400; each leaves the users unchanged. Otherwise exactly one user is added with the hashed password, and 201 carries the token and the user without the password. Emails and usernames stay unique. |
| AuthRoutes.UserStore.Login | backend/routes/auth.js:60-97 | Missing email or password: 400. Success exactly when the user found by email has a matching password, answered with that user's token. Unknown email and wrong password give the same 401. The store is only read. |
| AuthRoutes.UserStore.Me | backend/routes/auth.js:100-118 | No token: 401 "No token provided"; failed verification: 401 "Invalid token"; unknown user: 404; otherwise the user without the password. |
| AuthRoutes.SignupThenLogin | backend/routes/auth.js:30-92 | After a successful signup, logging in with the same email and password succeeds and returns the same user. |
| Notifications.Body | frontend/src/utils/notifications.js:79 | The body is the content when at most 100 characters; otherwise its first 100 characters followed by "...", so never longer than 103. |
| Notifications.Tag | frontend/src/utils/notifications.js:80 | The tag is "note-" followed by the note id. |
| Notifications.TagsDistinguishNotes | frontend/src/utils/notifications.js:80 | Two notes share a tag exactly when they share an id. |
| Notifications.Title | frontend/src/utils/notifications.js:78 | The title is the bell, a space and "Reminder: ", followed by the note's title. |
| Notifications.AlertFor | frontend/src/utils/notifications.js:77-81 | The notification shows the note's title after the prefix, a body of at most 103 characters taken from the start of the content, and the tag ending in the note id. |
| Notifications.Schedule | frontend/src/utils/notifications.js:59-87 | The early return leaves the state as it was; only the scheduled note can gain a timer, and at most one timer number is used. |
| Notifications.ScheduleAll | frontend/src/utils/notifications.js:89-91 | After scheduling a list, only notes already holding a timer or in the list hold one, and at most one timer number per note is used. |
| Notifications.ScheduleKeepsConsistent | frontend/src/utils/notifications.js:59-87 | Scheduling keeps at most one timer per note, matched one to one with the pending callbacks. |
| Notifications.ScheduleOwnEntry | frontend/src/utils/notifications.js:59-87 | The early return changes nothing; otherwise any old timer for the note is cancelled, and the note ends with a new timer exactly when 0 < delay < 86,400,000 ms. |
| Notifications.ScheduleOtherEntries | frontend/src/utils/notifications.js:63-66 | Scheduling one note leaves every other note's timer as it was. |
| Notifications.ScheduleAllKeepsConsistent | frontend/src/utils/notifications.js:89-91 | Scheduling a list keeps at most one timer per note. |
| Notifications.ScheduleAllOtherEntries | frontend/src/utils/notifications.js:89-91 | A note not in the list keeps its timer. |
| Notifications.Scheduler.constructor | frontend/src/utils/notifications.js:4 | The map starts empty, with no pending callbacks and nothing shown. |
| Notifications.Scheduler.ScheduleNote | frontend/src/utils/notifications.js:59-87 | The new state is the scheduling of the note on the old one, and at most one timer per note is kept. |
| Notifications.Scheduler.ClearTimer | frontend/src/utils/notifications.js:63-66 | The note's timer, if any, is cancelled and its entry removed. |
| Notifications.Scheduler.ScheduleNotes | frontend/src/utils/notifications.js:89-91 | The new state is the scheduling of each note in list order, and at most one timer per note is kept. |
| Notifications.Scheduler.Fire | frontend/src/utils/notifications.js:76-83 | A firing timer shows its notification and removes the note's entry and the callback. |
| ClientLists.NonEmpty | frontend/src/pages/NotesPage.jsx:76 | `filter(t => t)` drops every empty string and keeps every other one as often as it occurs. |
| ClientLists.NonEmptyConcat | frontend/src/pages/NotesPage.jsx:76 | The filter works piecewise along the list, so it keeps the order. |
| ClientLists.ParseTags | frontend/src/pages/NotesPage.jsx:76 | Every parsed tag is non-empty, trimmed and comma-free. |
| ClientLists.FormatTags | frontend/src/pages/NotesPage.jsx:55 | The text of no tags is empty; otherwise it starts with the first tag, and every character is from a tag, a comma or a space. |
| ClientLists.ParseAfterSpace | frontend/src/pages/NotesPage.jsx:76 | A leading space in the tag field changes no parsed tag. |
| ClientLists.TagRoundTrip | frontend/src/pages/NotesPage.jsx:55 | Parsing tags joined by ", " gives back the same tags whenever each is non-empty, trimmed and comma-free. |
| ClientLists.RemoveById | frontend/src/pages/NotesPage.jsx:65 | No item with the id remains, and the list does not grow. |
| ClientLists.RemoveByIdKeeps | frontend/src/pages/NotesPage.jsx:65 | Every item with another id is kept as often as it occurred. |
| ClientLists.RemoveByIdConcat | frontend/src/pages/NotesPage.jsx:65 | The removal works piecewise along the list, so the original order is kept. |
| ClientLists.ReplaceById | frontend/src/pages/NotesPage.jsx:83 | Length and order are unchanged; each item with the id is replaced and every other item kept. |
| ClientLists.RemoveAfterReplace | frontend/src/pages/NotesPage.jsx:83 | Replacing by an item with the same id touches nothing that a removal of the id would keep. |
| ListPage.CloseModal | frontend/src/pages/NotesPage.jsx:99-103 | The modal closes, nothing is being edited, the form is emptied and the list kept. |
| ListPage.OpenEditor | frontend/src/pages/NotesPage.jsx:50-59 | The item is being edited, the form shows it and the modal opens. |
| ListPage.AfterSubmit | frontend/src/pages/NotesPage.jsx:81-96 | A failure changes nothing; an edit replaces by id, a create prepends the reply; either closes and empties the modal. |
| ListPage.AfterDelete | frontend/src/pages/NotesPage.jsx:61-70 | Only a confirmed, successful request removes the item by id. |
| ListPage.EditKeepsOthers | frontend/src/pages/NotesPage.jsx:83 | An edit keeps the length and every item with another id in place. |
| ListPage.DeleteKeepsOthers | frontend/src/pages/NotesPage.jsx:65 | After a delete the list holds exactly the items with another id, as often as before and in their order. |
| NotesPage.EditForm | frontend/src/pages/NotesPage.jsx:52-57 | The form shows title and content, the tags joined by ", " or "", and the reminder as input text or "". |
| NotesPage.HandleEdit | frontend/src/pages/NotesPage.jsx:50-59 | The page opens the editor on the note with its form. |
| NotesPage.SubmitData | frontend/src/pages/NotesPage.jsx:76-77 | The data sent is the form with the tag text parsed into a list. |
| NotesPage.EditThenSubmit | frontend/src/pages/NotesPage.jsx:50-77 | Submitting an unchanged edit form sends back the note's title, content and tags. |
| NotesPage.CloseNotesModal | frontend/src/pages/NotesPage.jsx:99-103 | All four fields are reset to "" and no note is being edited. |
| NotesPage.AfterNoteSubmit | frontend/src/pages/NotesPage.jsx:81-96 | An edit replaces the note with the edited id; a create prepends the reply; a failure changes nothing. |
| NotesPage.AfterNoteDelete | frontend/src/pages/NotesPage.jsx:61-70 | A confirmed, successful delete removes the notes with the id and nothing else; otherwise nothing changes. |
| BookmarksPage.OrEmpty | frontend/src/pages/BookmarksPage.jsx:42-43 | An absent or empty string shows as "", any other as itself. |
| BookmarksPage.EditForm | frontend/src/pages/BookmarksPage.jsx:40-45 | The form shows the URL, title and description or "", and the tags joined by ", " or "". |
| BookmarksPage.HandleEdit | frontend/src/pages/BookmarksPage.jsx:38-47 | The page opens the editor on the bookmark with its form. |
| BookmarksPage.SubmitData | frontend/src/pages/BookmarksPage.jsx:62-63 | The data sent is the form with the tag text parsed into a list. |
| BookmarksPage.EditThenSubmit | frontend/src/pages/BookmarksPage.jsx:38-63 | Submitting an unchanged edit form sends back the URL, the title and description or "", and the tags. |
| BookmarksPage.CloseBookmarksModal | frontend/src/pages/BookmarksPage.jsx:80-84 | All four fields are reset to "" and no bookmark is being edited. |
| BookmarksPage.AfterBookmarkSubmit | frontend/src/pages/BookmarksPage.jsx:65-77 | An edit replaces the bookmark with the edited id; a create prepends the reply; a failure keeps the list and the open modal. |
| BookmarksPage.AfterBookmarkDelete | frontend/src/pages/BookmarksPage.jsx:49-58 | A confirmed, successful delete removes the bookmarks with the id and nothing else; otherwise nothing changes. |
| RecycleBinPage.Endpoint | frontend/src/pages/RecycleBinPage.jsx:35 | Type "note" targets `/notes/{id}/{action}`, any other type `/bookmarks/{id}/{action}`. |
| RecycleBinPage.Removed | frontend/src/pages/RecycleBinPage.jsx:39-43 | The item is removed by id from the list of its type; the other list is untouched. |
| RecycleBinPage.Restore | frontend/src/pages/RecycleBinPage.jsx:33-50 | The PATCH goes to the restore endpoint; success removes the item from its list, failure leaves both lists. |
| RecycleBinPage.PermanentDelete | frontend/src/pages/RecycleBinPage.jsx:52-73 | A declined confirmation sends nothing and changes nothing; otherwise the DELETE goes to the permanent endpoint, and only success removes the item. |
| RecycleBinPage.RemovedCount | frontend/src/pages/RecycleBinPage.jsx:120 | The total never rises after a removal and is unchanged when no item of that type has the id. |
| RecycleBinPage.AbsentIdKeepsAll | frontend/src/pages/RecycleBinPage.jsx:40 | Removing an id no item has returns the list unchanged. |
| RecycleBinPage.TotalDeleted | frontend/src/pages/RecycleBinPage.jsx:120 | The total is zero exactly when both lists are empty, and is at least each list's length. |
| RecycleBinPage.HeaderText | frontend/src/pages/RecycleBinPage.jsx:133-135 | A non-empty bin's header ends with " in recycle bin". |
| RecycleBinPage.HeaderEmptyExactlyWhenZero | frontend/src/pages/RecycleBinPage.jsx:133-135 | The header reads "Your recycle bin is empty" exactly when the total is 0. |
| RecycleBinPage.HeaderCount | frontend/src/pages/RecycleBinPage.jsx:133-135 | Otherwise the header is exactly the total in decimal, " item", an "s" exactly when the total is not 1, and " in recycle bin". |

## Left out

- Bookmark records: backend/models/Bookmark.js declares no `isDeleted` or `deletedAt`. Whether Mongoose's strict mode keeps the values the routes assign to them is not visible in these files. The model assumes it does and keeps both as fields of the record.
- backend/models/Note.js and backend/models/User.js are not part of this model. A note is assumed to default tags to none, isFavorite to false and createdAt to now. Whether its `save()` accepts a document is the parameter `saves`. A user is assumed to store the fields it is given.
- The text search: `q` is a MongoDB `$regex` with the `i` option. It is modelled as a literal substring match that folds ASCII letters only, so regular-expression syntax in `q` and Unicode case folding are left out.
- The URL pattern's `i` flag is modelled as ASCII case folding, which is the only folding its character classes need.
- The database's `sort` is taken as a postcondition (newest first), not as an algorithm. Records with equal `createdAt` may come in any order.
- bcrypt, JSON Web Tokens, the token secret and the 7-day expiry are function parameters. A `verify` that succeeds is taken to yield a user id.
- AuthRoutes.UserStore.Me: an id that verifies but is not a valid ObjectId makes the source's `findById` throw, which the handler answers with 401 "Invalid token". The model treats every verified id as a lookup and answers 404 when no user has it.
- Users are held in insertion order, and a user's id is its position. The signup check-then-insert race is not modelled, because requests run one at a time.
- Database failures and the 500 replies of every route are left out. Validation error texts from `save()` are stand-in constants (`UrlRequired`, `SaveRejected`).
- Request bodies are taken as already typed (strings, booleans, lists of strings). Mongoose's casting of other JSON types is not modelled.
- String lengths count characters, whereas JavaScript counts UTF-16 code units. This affects the password length check and the 100-character body limit for text outside the Basic Multilingual Plane.
- Date parsing and formatting (`new Date(...)`, `toISOString().slice(0, 16)`) are parameters (`parseTime`, `localInput`). `Date.now()` is the parameter `now`, in integer milliseconds.
- `setTimeout` timing: a timer firing is the explicit method `Fire`. Notification permission, the secure-context check, the service worker and `showNotification` itself are left out. What is shown is recorded as a list of alerts.
- Notifications.Title: the bell character at the start of the title is modelled as U+1F514. The source text shows it as mis-decoded bytes.
- NotesPage.EditForm: a note's `title` and `content` are taken to be present, as the model of the client note has them as plain strings. The form of a note lacking them (where React would show an uncontrolled field) is not modelled.
- `window.confirm`, `alert` and the outcome of each HTTP request are boolean or optional inputs. The `isSubmitting` flag, console logging and error messages shown to the user are left out.
- The page effects that fetch lists (`fetchNotes`, `fetchBookmarks`, the search effect) are left out. So is the recycle bin's fetch of notes with `deleted=true`, which the notes route ignores.
- JSX rendering, LoginPage, AuthContext, ProtectedRoute, Navbar, NoteCard, BookmarkCard, api.js, App.jsx, the Tailwind configuration and the Express/Mongoose setup in server.js are not part of this model.
