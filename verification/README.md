# Contact-message service — a Dafny model

This project models the contact-message service of an internship-offer
platform. It has three parts:

- **The Express routes** of `backend/routes/contact.js`. A visitor posts a
  message through the public form. An administrator lists, opens, updates,
  answers and deletes messages.
- **The session gate** of `backend/middleware/auth.js`. `requireAuth` and
  `requireRole`/`requireAdmin` decide between 401, 403 and passing on.
- **The pure rules of the admin inbox page**
  `frontend/src/pages/AdminContactMessages.jsx`. These are the badge, status
  and subject labels, which buttons a message offers, the client-side reply
  guard and the local state updates.

The MySQL table `contact_messages` is a `Store`: a map from id to `Message`
plus the next value of the auto-increment counter. Each route handler is a
pure function. It takes the store, the session, the request fields and the
outcomes of its external calls, and returns an `Outcome`. An `Outcome` holds
the HTTP response (code, `ok`, message text, payload), the new store and the
list of notifications the handler attempted. Recording the attempted calls
lets the model state that nothing is sent before the input is validated.

Modules, one per file:

| file | module | contents |
|---|---|---|
| common.dfy | Common | `Option`, JavaScript truthiness, `String.prototype.trim`, substring search |
| auth.dfy | Auth | sessions, `requireAuth`, `requireRole`, `requireAdmin`, the chained gate |
| html.dfy | Html | global character replacement, the two HTML escapers, an entity decoder, the 200-character excerpt |
| messages.dfy | Messages | statuses, the message record, the store, id enumeration, per-status counts |
| listing.dfy | Listing | the listing query: status filter, search, newest-first order, LIMIT/OFFSET |
| contact.dfy | Contact | the six route handlers |
| lifecycle.dfy | Lifecycle | properties relating several requests: counts, idempotence, gate order |
| admin_view.dfy | AdminView | the admin page's mappings, action rules, reply guard, local state, list request |

The model follows the code where it differs from the intended behaviour:

- The listing does not validate `status`; the value goes straight into the
  WHERE clause. The model compares it character by character, so a value
  that names no status exactly selects nothing
  (`Listing.UnknownStatusSelectsNothing`). The database may compare more
  loosely; see "Left out".
- The submit length check counts the untrimmed message. The reply check
  counts the trimmed reply.
- The notes appended by a reply contain the reply as received, untrimmed.
- `replied_at`/`replied_by` are set whenever a PATCH stores `replied`. No
  later status change clears them.
- An empty `status` in a PATCH counts as absent. `admin_notes: null` counts
  as present and clears the notes.
- A PATCH of an id that does not exist still answers 200. The UPDATE simply
  matches no row.
- The reply mail escapes only `<` and `>`. The admin notification escapes
  `&` first, then `<` and `>`.

The pairing of `replied_at` with `replied_by` is the invariant
`Messages.StampsPaired`; every handler keeps it (the `...KeepsStampsPaired`
lemmas of `Lifecycle`).

The status invariant ("every stored status is one of the four") holds by
construction: `Status` is a datatype with exactly four constructors, and
every handler stores one of them.

## Model

| member | source | states |
|---|---|---|
| Common.Trim | backend/routes/contact.js:163 | trimming never lengthens a string |
| Common.LeadingSpacesSpec | backend/routes/contact.js:163 | the counted prefix is all JavaScript whitespace and the character after it is not |
| Common.TrailingSpacesSpec | backend/routes/contact.js:163 | the counted suffix is all JavaScript whitespace and the character before it is not |
| Common.TrimSpec | backend/routes/contact.js:163 | the trimmed text is a contiguous piece of the input with only JavaScript whitespace cut off at both ends; it neither starts nor ends with whitespace; it is empty exactly when the input is all whitespace |
| Common.Contains | backend/routes/contact.js:33-36 | the substring test answers true exactly when the needle occurs at some position of the haystack |
| Auth.RequireAuth | backend/middleware/auth.js:7-12 | rejects with 401 exactly when the session has no user, otherwise passes on |
| Auth.AllowedRoles | backend/middleware/auth.js:21 | the list holds exactly the given role, or exactly the listed roles (membership is all that `includes` observes) |
| Auth.RequireRole | backend/middleware/auth.js:18-27 | passes exactly when the session role is truthy and in the allowed list; every rejection is a 403 |
| Auth.RequireAdmin | backend/middleware/auth.js:34 | passes exactly when the session user's role is `admin` |
| Auth.AdminGate | backend/middleware/auth.js:7-27 | `requireAuth` then `requireAdmin`: no user gives 401, never 403; a user who is not admin gives 403; only admins reach the handler |
| Auth.SingleRoleIsOneElementList | backend/middleware/auth.js:21 | a single allowed role decides exactly like the one-element list holding it |
| Auth.RoleListIsUnion | backend/middleware/auth.js:21-23 | a list of roles admits a session exactly when one of its roles admits it on its own |
| Html.ReplaceAll | backend/routes/contact.js:193 | a global replacement: no change when the character is absent; the character disappears when the replacement does not contain it; every remaining character comes from the input or the replacement; a one-character text becomes the replacement exactly when it is that character (with `ReplaceAllAppend` this fixes the result of every text) |
| Html.ReplaceAllAppend | backend/routes/contact.js:193 | a global replacement of a concatenation is the concatenation of the replacements |
| Html.EscapeAngles | backend/routes/contact.js:193 | the escaped reply holds no raw `<` and no raw `>`; a text without them is unchanged |
| Html.EscapeHtml | backend/routes/contact.js:360 | the escaped message holds no raw `<` and no raw `>`; a text without `&`, `<` and `>` is unchanged |
| Html.EscapeHtmlPerChar | backend/routes/contact.js:360 | the notification escape writes `&`, `<` and `>` as `&amp;`, `&lt;` and `&gt;`, each character on its own, and keeps every other character |
| Html.EscapeHtmlRoundTrip | backend/routes/contact.js:360 | decoding `&amp;`, `&lt;`, `&gt;` recovers exactly the original message: the notification escape loses nothing |
| Html.EscapeAnglesPerChar | backend/routes/contact.js:193 | the reply escape writes each `<` as `&lt;` and each `>` as `&gt;` and keeps every other character, including `&`, as it is |
| Html.EscapeAnglesWithoutAmp | backend/routes/contact.js:193 | for a reply without `&` the reply escape agrees with the full escape and decodes back to the reply |
| Html.EscapeAnglesConflates | backend/routes/contact.js:193 | because `&` is not escaped, the replies `<` and `&lt;` produce the same HTML |
| Html.Excerpt | backend/routes/contact.js:199 | a message of at most 200 characters is quoted whole; a longer one is quoted as its first 200 characters followed by `...` |
| Messages.ParseStatus | backend/routes/contact.js:116-117 | the text names a status exactly when it is one of the four status names, and parsing inverts `StatusName` |
| Messages.StampsPaired | backend/routes/contact.js:128-132 | every row has both `replied_at` and `replied_by`, or neither |
| Messages.IdsBelow | backend/routes/contact.js:18-25 | every id the enumeration lists is stored and below the bound |
| Messages.IdsBelowComplete | backend/routes/contact.js:18-25 | the enumeration misses no stored id below the bound |
| Messages.IdsBelowDescending | backend/routes/contact.js:18-25 | the enumeration is strictly largest first, so it lists no id twice |
| Messages.IdsCoverStore | backend/routes/contact.js:45-53 | on a valid store the enumeration lists every row exactly once |
| Messages.CountsPartition | backend/routes/contact.js:45-53 | each row has exactly one of the four statuses, so the four counts add up to the number of rows counted |
| Messages.CountWithDistinct | backend/routes/contact.js:45-53 | over a list of ids without repetitions, the count of a status is the number of listed ids stored with that status |
| Messages.CountWithIsStatusRows | backend/routes/contact.js:45-53 | on a valid store, counting a status over the enumeration gives the number of rows of the table with that status |
| Messages.CountsOf | backend/routes/contact.js:45-65 | on a valid store, total is the number of rows of the table and each of unread, read, replied and archived is the number of rows with that status; the four add up to total |
| Listing.RepliedByName | backend/routes/contact.js:21-23 | the LEFT JOIN gives a name exactly when `replied_by` is set and names a known user |
| Listing.AllRows | backend/routes/contact.js:18-25 | every row returned is exactly a stored row joined with its replier's name, every stored row is returned, and no two rows share an id |
| Listing.StatusMatches | backend/routes/contact.js:28-31 | the status clause selects every row when the filter is absent, empty or `all`, and otherwise only the rows whose status name equals the filter |
| Listing.SearchMatches | backend/routes/contact.js:33-37 | the search clause selects every row when the search text is absent or empty, and otherwise the rows whose name, email, subject or message contains it |
| Listing.Filter | backend/routes/contact.js:24-37 | a row is kept exactly when it is an input row and the status and search clauses select it; an input without repeated ids gives an output without repeated ids |
| Listing.PermutationKeepsDistinct | backend/routes/contact.js:39 | reordering rows whose ids are all different keeps them all different |
| Listing.SortNewestFirst | backend/routes/contact.js:39 | the result is ordered by creation time, newest first, and is a permutation of its input |
| Listing.Page | backend/routes/contact.js:39-40 | LIMIT/OFFSET: at most `limit` rows, none past the end, and row `i` of the page is row `offset + i` of the input |
| Listing.Matches | backend/routes/contact.js:16-42 | the rows before paging are newest first, all stored and selected, each message at most once, and on a valid store every selected row is among them |
| Listing.PageOfSorted | backend/routes/contact.js:39-40 | a page of a newest-first list is newest first, contains only rows of that list, and repeats no id the list does not repeat |
| Listing.ListPage | backend/routes/contact.js:16-42 | the page is exactly the LIMIT/OFFSET window of the matching rows newest first, with `limit` defaulting to 50 and `offset` to 0; so it has at most `limit` rows, is newest first, shows no message twice and holds only stored rows the query selects |
| Listing.FirstPageComplete | backend/routes/contact.js:16-42 | when the offset is 0 and all matches fit within the limit, every stored row the query selects is on the page |
| Listing.NoFilterSelectsAll | backend/routes/contact.js:28-37 | with no truthy status and no truthy search, every row of the table matches |
| Listing.UnknownStatusSelectsNothing | backend/routes/contact.js:28-31 | a truthy status filter that is not `all` and is not exactly one of the four status names is not rejected; it selects nothing |
| Contact.Acceptable | backend/routes/contact.js:266-278 | a submission is accepted when name, email, subject and message are all non-empty and the untrimmed message has at least 10 characters |
| Contact.NewMessage | backend/routes/contact.js:282-285 | the inserted row has the submitted fields, status `unread`, no notes and no reply, and `created_at` now; phone is kept only when truthy |
| Contact.Notifications | backend/routes/contact.js:301-482 | three notifications in order: admin email (subject `📧 Nouveau message de contact - ` plus the subject, message escaped), admin SMS carrying name, email, subject and message, confirmation to the sender with its fixed subject; admin address and phone fall back to their defaults |
| Contact.Submit | backend/routes/contact.js:266-491 | a missing field or a short message gives 400, no change and no notification; a failed insert gives 500 and no flags; otherwise `ok` whatever the notification results, exactly one new row under a fresh id, equal to the submitted fields with status `unread`, every other row unchanged, exactly the three notifications of `Notifications` attempted and their flags reported |
| Contact.List | backend/routes/contact.js:14-66 | the gate first; the store is never changed; the page is exactly `ListPage` of the query, so it obeys the limit and offset, is newest first and holds only selected stored rows; the counts are those of the whole table, whatever the filter, search and page |
| Contact.Detail | backend/routes/contact.js:77-100 | 404 for an absent id; an `unread` row is stored as `read` and returned as `read`; any other status is left alone; no other row changes |
| Contact.ApplyPatch | backend/routes/contact.js:121-138 | the visitor's fields are kept; a supplied status replaces the old one; `replied` also sets `replied_at` to now and `replied_by` to the actor; otherwise these two are kept, never cleared; notes are replaced verbatim, cleared by `null`, kept when omitted |
| Contact.Patch | backend/routes/contact.js:111-147 | an invalid status or an empty patch gives 400 and no change; the answer is `ok` exactly when the session is an admin, a truthy status names one of the four, and a status or notes were supplied, and then it is 200 and only the addressed row changes, as `ApplyPatch` describes |
| Contact.ServerAcceptsReply | backend/routes/contact.js:163 | the server accepts a reply when it is present, non-empty and has at least 10 characters after trimming |
| Contact.ReplyLogEntry | backend/routes/contact.js:230 | the note entry is the log header, then the timestamp text of `NOW()` and the closing marker, then the reply |
| Contact.AppendReplyLog | backend/routes/contact.js:230 | the new notes are the old notes (or nothing) followed by the timestamped entry, so they keep the old text in front and end with the reply: an append, not a replace |
| Contact.CloseWithReply | backend/routes/contact.js:228-232 | the replied-to row gets status `replied`, `replied_at` now, `replied_by` the actor, and notes equal to the old notes with the timestamped entry appended; the visitor's fields are kept |
| Contact.ReplyMail | backend/routes/contact.js:174-221 | the answer goes to the original sender under `Re: ` and the original subject; the text part greets the sender by name, then carries the reply, then ends with the team's signature; the HTML part carries the reply with `<` and `>` escaped, holds no raw `<` or `>` there, and decodes back to the reply when it has no `&` (the quoted original is not escaped); it quotes the original whole up to 200 characters, else its first 200 and `...` |
| Contact.SendReply | backend/routes/contact.js:216-234 | exactly one mail is attempted; a failed send gives 500 and no change; a successful one closes the row |
| Contact.Reply | backend/routes/contact.js:158-234 | a reply under 10 trimmed characters gives 400, an absent id 404, a failed send 500, each with the store unchanged; `ok` exactly when all guards pass and the send succeeds, and then only the addressed row changes |
| Contact.Delete | backend/routes/contact.js:245-250 | `ok` whether or not the id exists; only that id is removed; every other row is unchanged |
| Lifecycle.CountWithUpdate | backend/routes/contact.js:45-53 | replacing one row moves it from the count of its old status to the count of its new one |
| Lifecycle.CountsAfterRowUpdate | backend/routes/contact.js:45-65 | an update of one row keeps the total and shifts one unit from the count of its old status to the count of its new one |
| Lifecycle.SubmitKeepsStampsPaired | backend/routes/contact.js:282-285 | a submission keeps every row's two reply stamps paired: the new row has neither |
| Lifecycle.DetailKeepsStampsPaired | backend/routes/contact.js:95-98 | opening a message keeps the stamps paired: only the status is written |
| Lifecycle.PatchKeepsStampsPaired | backend/routes/contact.js:124-138 | a PATCH keeps the stamps paired: storing `replied` writes both, nothing else writes either |
| Lifecycle.ReplyKeepsStampsPaired | backend/routes/contact.js:228-232 | a reply keeps the stamps paired: the UPDATE writes both |
| Lifecycle.DeleteKeepsStampsPaired | backend/routes/contact.js:245-250 | a delete keeps the stamps paired on the rows that remain |
| Lifecycle.IdsAfterInsert | backend/routes/contact.js:282-285 | a row stored under the next id is enumerated first, ahead of all earlier rows |
| Lifecycle.CountsAfterInsert | backend/routes/contact.js:45-65 | inserting a row under the next id adds one to the total and one to the count of its status |
| Lifecycle.SubmitCounts | backend/routes/contact.js:282-285 | a stored submission adds one to the total and to `unread` and leaves the other counts alone |
| Lifecycle.DetailCounts | backend/routes/contact.js:95-98 | opening an unread message moves one unit from `unread` to `read` |
| Lifecycle.DetailIdempotent | backend/routes/contact.js:90-100 | opening a message a second time changes nothing and gives the same answer, `read` for one that was `unread` |
| Lifecycle.DeleteIdempotent | backend/routes/contact.js:245-250 | deleting twice is deleting once, and both answer `ok` |
| Lifecycle.SubmitThenOpen | backend/routes/contact.js:90-100 | a stored submission can be opened under its new id and shows the visitor's text with status `read` |
| Lifecycle.NoUserMeans401 | backend/middleware/auth.js:7-27 | without a session user every admin route answers 401, never 403, and writes nothing |
| AdminView.BadgeClass | frontend/src/pages/AdminContactMessages.jsx:4-17 | danger exactly for `unread`, warning exactly for `read`, success exactly for `replied`, and the secondary badge for `archived` and every unknown value |
| AdminView.StatusLabel | frontend/src/pages/AdminContactMessages.jsx:19-31 | `Non lu`, `Lu`, `Répondu` and `Archivé` for the four statuses; any other value is shown unchanged, and only those |
| AdminView.SubjectLabel | frontend/src/pages/AdminContactMessages.jsx:34-51 | each of the six subject codes gets its own label, as the page lists them; any other value is shown unchanged, and only those |
| AdminView.StatusesLookDifferent | frontend/src/pages/AdminContactMessages.jsx:4-31 | two different statuses never share a badge or a label |
| AdminView.TargetStatus | frontend/src/pages/AdminContactMessages.jsx:585-608 | "mark as replied" asks for `replied`, "archive" for `archived`, "restore" for `unread` |
| AdminView.OfferedActions | frontend/src/pages/AdminContactMessages.jsx:585-608 | "mark as replied" is offered exactly when the status is not `replied`; restore exactly when it is `archived`; exactly one of archive and restore; every offered button moves to a different status |
| AdminView.ReplyFormShown | frontend/src/pages/AdminContactMessages.jsx:632 | the reply form is shown exactly when the status is neither `replied` nor `archived` |
| AdminView.ReplyFormComesWithActions | frontend/src/pages/AdminContactMessages.jsx:585-632 | where the reply form shows, the buttons are exactly "mark as replied" and "archive" |
| AdminView.ClientAcceptsReply | frontend/src/pages/AdminContactMessages.jsx:150 | the client sends a reply unless it is empty after trimming or shorter than 10 characters before trimming |
| AdminView.SendEnabled | frontend/src/pages/AdminContactMessages.jsx:649 | the send button is enabled when nothing is being sent and the untrimmed text has at least 10 characters |
| AdminView.ServerGuardImpliesClientGuard | frontend/src/pages/AdminContactMessages.jsx:150 | every reply the server accepts passes the client guard of `sendReply` and leaves the send button (line 649) enabled |
| AdminView.ClientGuardIsWeaker | frontend/src/pages/AdminContactMessages.jsx:150 | nine spaces and a letter pass the client guard and are refused by the server |
| AdminView.UpdateSelected | frontend/src/pages/AdminContactMessages.jsx:138-142 | after a successful status update only the status of the selected message changes, and only if its id matches |
| AdminView.AfterReply | frontend/src/pages/AdminContactMessages.jsx:164-167 | after a successful reply the selected message shows `replied`, and nothing else changes |
| AdminView.StatusButtonMatchesServer | frontend/src/pages/AdminContactMessages.jsx:130-142 | a status button's PATCH answers 200, and the modal then shows the status the server stored, which differs from the old one |
| AdminView.ReplyMatchesServer | frontend/src/pages/AdminContactMessages.jsx:157-167 | after a successful reply the modal shows the status the server stored |
| AdminView.ListParams | frontend/src/pages/AdminContactMessages.jsx:69-71 | `status` is omitted exactly when the filter is `all`, `search` exactly when it is empty; no paging is sent |
| AdminView.ListParamsSelectSame | frontend/src/pages/AdminContactMessages.jsx:69-71 | leaving the parameters out selects the same rows as sending the filter and search text as they are |

## Left out

- Database I/O (`backend/db.js`: pool, timing, logging). The table is a map, and each query is replaced by its effect on it.
- Database failures other than the submit INSERT. A failing SELECT, UPDATE or DELETE would give the 500 of the handlers' outer `catch`, and no such failure is modelled.
- The mail and SMS gateways (`sendEmail`, `notifyAdminNewContactMessage`). Each is a boolean parameter. For the three notifications of a submission a thrown exception counts as `false`, since each has its own `catch`.
- Contact.Reply / Contact.SendReply: a `sendEmail` that throws (backend/routes/contact.js:216) reaches the outer `catch` (lines 235-237), which answers 500 with the text 'Erreur serveur'. The model has one `false` outcome and always gives the text of a failed send. The code 500 and the unchanged store are the same; only the message text differs.
- The full email templates. Only the escaper, the excerpt, the recipients, the subjects and the attempted-call order are kept.
- The unescaped interpolation into the HTML: name, email, subject and phone in the admin notification (backend/routes/contact.js:343-369, the phone at lines 348 and 369), and the original sender's name, the original subject and the quoted original message in the reply mail (lines 187, 189 and 199). The model makes no claim that any of these is sanitised.
- `NOW()` and `new Date()`. An abstract `Instant` (an ordering tick plus its text rendering) is passed in. A new row's `created_at` is taken to be that instant.
- Listing.StatusMatches / Listing.UnknownStatusSelectsNothing: `cm.status = ?` compares under the column's collation, and MySQL's default collation ignores case, so `UNREAD` most likely selects the unread rows. The table's schema is not part of this model; the model compares exactly, so a status name in another case selects nothing.
- Listing.SearchMatches: SQL `LIKE` is modelled as plain, case-sensitive substring search. Collation, case folding and `%`/`_` in the search text acting as wildcards are not modelled.
- Listing.SortNewestFirst: SQL leaves the order of rows with equal `created_at` open. The model keeps them in descending id order.
- `parseInt` of a malformed or negative `limit`/`offset` (NaN, negative values). Both are natural numbers or absent.
- The conversion of the `:id` path segment to a number. Ids are natural numbers.
- Non-string JSON values in request bodies. Every field is a string or absent.
- String lengths: JavaScript counts UTF-16 code units, while the model counts Dafny characters.
- Concurrency: the read-then-write races in the detail and reply routes under concurrent administrators.
- `backend/server.js`, `frontend/src/context/AuthContext.jsx`, `frontend/src/pages/AdminOffers.jsx`, `frontend/src/pages/Contact.jsx` and the test scripts are not part of this model.
- Markup, CSS, date formatting, alerts and confirm dialogs of the admin page.
- AdminView.AfterReply: like the page, it updates only the status. The page does not refresh `replied_at`, `replied_by` or the notes, so the modal shows the old values of those fields until the next load.
