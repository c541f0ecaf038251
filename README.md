# bandcamp-timeline in Dafny

This project models the logic of bandcamp-timeline. The application shows a
user's Bandcamp release notifications as a monthly timeline behind an
email/password login. It has three parts:

- **Mail parser** (`mailparser.dfy`, with `text.dfy` and `dynamo.dfy`). A
  function runs when a notification mail lands in a storage bucket. It checks
  that the sender is `noreply@bandcamp.com`. It then scans the text nodes of
  the mail's first `div` for the label, title and artist. It strips the query
  string from the release link and writes a seven-attribute record to the
  `bandcamp_release` table.
- **Web API** (`releases.dfy`, `auth.dfy`). The release list endpoint decodes
  the stored records into `Release` values and sorts them latest first. The
  login, check-session and logout endpoints decide a status code and update an
  optional session user.
- **Index page** (`indexpage.dfy`). It groups the fetched releases by month
  ("YYYY.MM" term) into a dictionary that keeps key insertion order. It keeps
  `isLogin`, `user` and `accountMenuOpen` as the endpoints answer.

`pipeline.dfy` states properties that cross components. One example: a
record written by the mail parser always decodes in the list endpoint. Another:
after a logout, the session fails `checkSession`.

Foreign services are parameters:
- the store query is a function from partition key to the query's `Items`;
- the mail parser's download and MIME/HTML parsing is a function from bucket
  and key to a `Mail` (what those libraries would extract);
- password verification is an uninterpreted `verify(hash, password, salt)`;
- `dayjs(date)` as a sort key is an abstract `stamp`;
- `dayjs(date).format('YYYY.MM')` is an abstract `term`.

A TypeError thrown out of a handler is a `Crashed` outcome. A failed
`unwrap`/`assert!`/`panic!` in the mail parser is an `Err(Panic)` result.

The release list handler, as written, queries a fixed owner address and reads
no session (frontend/pages/api/release/list.ts:17-27). The model follows that
code: it has no session-gated list and no 401 for anonymous list requests.

## Model

| member | source | states |
|---|---|---|
| `Text.ReplaceAllKeepsChars` | mailparser/src/main.rs:145 | every character left after `str::replace` comes from the input or the replacement; this is why removing ", " cannot bring back a line break |
| `Text.RemoveCharGone` | mailparser/src/main.rs:140 | after `.replace("\n", "")` the text holds no line break |
| `Text.ReplaceAllAbsent` | mailparser/src/main.rs:140 | a text in which the pattern does not occur is returned unchanged |
| `Text.IndexOfChar` | mailparser/src/main.rs:152-155 | the result is the first position at or after the start that holds the character, or the length when there is none |
| `Text.StripQueryWithoutQuery` | mailparser/src/main.rs:152-155 | a link with no `?` is unchanged by the `\?.*` replacement |
| `Text.StripQueryTruncates` | mailparser/src/main.rs:152-155 | for a link without a line break, the result is the prefix before its first `?`: it holds no `?`, and it is the whole link or is followed in it by a `?` |
| `Text.StripQueryIdempotent` | mailparser/src/main.rs:152-155 | for a link without a line break, stripping twice gives the same as stripping once |
| `Text.StripQueryStopsAtLineBreak` | mailparser/src/main.rs:152-155 | on every link holding a `?`, the removed part runs from the first `?` up to the next line break (kept) or the end, and the rest after that line break is kept unchanged, since `.` does not match a line break |
| `MailParser.CleanLabelOneLine` | mailparser/src/main.rs:140 | the cleaned label holds no line break |
| `MailParser.CleanArtistOneLine` | mailparser/src/main.rs:145 | the cleaned artist holds no line break |
| `MailParser.FindFrom` | mailparser/src/main.rs:139-147 | `Iterator::find` from a cursor returns the first matching node at or after the cursor; when it returns none, no node from the cursor on matches |
| `MailParser.Scanned` | mailparser/src/main.rs:138-147 | the scan panics with "released clause not found" exactly when no text node matches "released" |
| `MailParser.ScannedFields` | mailparser/src/main.rs:139-147 | for the first node matching "released": no next node means a panic; otherwise the label is that node cleaned, the title is the next node, and the artist is the cleaned first node after the title that matches "by", or none when no later node matches; the label and title nodes are never taken as the artist |
| `MailParser.ScannedOneLine` | mailparser/src/main.rs:140-145 | a scanned label and a scanned artist never hold a line break |
| `MailParser.Scan` | mailparser/src/main.rs:138-147 | the single-cursor loop over the text nodes computes exactly the scan's result, errors included |
| `MailParser.Parsed` | mailparser/src/main.rs:117-170 | the parse succeeds exactly when the mail has a To address, a date, the From address `noreply@bandcamp.com`, the text nodes, a successful scan, a link and a cover; otherwise the first missing part in the order To, date, From, sender check, text nodes, scan (whose own panic is passed on), link, cover names the panic; a successful parse takes `to`, `date` and `cover_link` from the mail, the label, title and artist from the scan, and the link from the stripped href |
| `MailParser.ParsedClean` | mailparser/src/main.rs:139-155 | a parsed label and artist are one line; for a one-line href, the parsed link holds no `?` and is the href cut before its first `?` |
| `MailParser.Parse` | mailparser/src/main.rs:117-170 | `parse` computes exactly the specified result, panics included, in the source's order of checks |
| `MailParser.ToItem` | mailparser/src/main.rs:172-188 | the record has exactly the keys to, date, label, title, artist, link and cover_link; `artist` is `Null(true)` when none was found and `S(a)` otherwise; every other attribute is the string of the matching field (`to`, `date`, label, title, link, cover link) |
| `MailParser.HandleEvent` | mailparser/src/main.rs:87-100 | an event with no records panics on `records[0]`; otherwise only the first record's mail is parsed, and its record is written to `bandcamp_release` |
| `Dynamo.SValue` | frontend/pages/api/release/list.ts:35-40 | `.S` is defined exactly on string attributes, and there it is their string |
| `Dynamo.OrNull` | frontend/pages/api/release/list.ts:35-40 | the JavaScript "or null" idiom keeps exactly the present, non-empty strings |
| `Dynamo.Field` | frontend/pages/api/release/list.ts:35-40 | reading `item[key].S` with the "or null" fallback throws exactly when the key is absent; otherwise it is the string value, or null when there is no string or it is empty |
| `ReleaseList.DecodeRelease` | frontend/pages/api/release/list.ts:34-41 | a record decodes exactly when it has all six keys; a failure names a missing key; each field is the `S` value or null, and `coverLink` comes from `cover_link` |
| `ReleaseList.DecodeAll` | frontend/pages/api/release/list.ts:33-41 | the map succeeds exactly when every item decodes, and then it gives one release per item in the same order; otherwise it throws the error of a failing item |
| `ReleaseList.Insert` | frontend/pages/api/release/list.ts:42 | one insertion step of the sort adds exactly the one release and loses none |
| `ReleaseList.InsertSorted` | frontend/pages/api/release/list.ts:42 | inserting into a latest-first list keeps it latest first |
| `ReleaseList.InsertWithStamp` | frontend/pages/api/release/list.ts:42 | an inserted release goes ahead of every release with the same date key, and their relative order is otherwise untouched |
| `ReleaseList.SortByDate` | frontend/pages/api/release/list.ts:42 | the sorted list is latest first and is a permutation of the input |
| `ReleaseList.SortByDateStable` | frontend/pages/api/release/list.ts:42 | releases with equal dates keep their input order (the sort is stable) |
| `ReleaseList.ListHandler` | frontend/pages/api/release/list.ts:17-43 | with no `Items` the answer is 200 with an empty list; the handler throws exactly when some item lacks a key; otherwise the answer has one release per item, is a permutation of the decoded items and is latest first |
| `Auth.Session.constructor` | frontend/lib/utils/session.ts:4-16 | a loaded session holds the user from the cookie, and no cookie has been written yet |
| `Auth.Session.Save` | frontend/pages/api/auth/login.ts:56 | saving writes the current user into the cookie and changes nothing else |
| `Auth.Session.Destroy` | frontend/pages/api/auth/logout.ts:15 | destroying drops the user and clears the cookie |
| `Auth.DecodeUsers` | frontend/pages/api/auth/login.ts:36-41 | the map succeeds exactly when every item has `email` and `password_hash`; it keeps the length, so the `users.length === 0` branch cannot be reached; each record is the pair of `S` values with the "or null" fallback |
| `Auth.LoginDecision` | frontend/pages/api/auth/login.ts:14-60 | a missing or empty email or password gives 400 and grants nothing; an absent or empty query result gives 401; the handler throws exactly when the request is complete, the query result is non-empty and a record lacks `email` or `password_hash`, and then with the decoding error; the status is one of 200, 400, 401 and 500; a session user is granted exactly on 200, and then it is the request email, the body is `{user:{email}}`, and the first record's hash verified the password; 500 happens exactly when the first record's hash is missing or empty |
| `Auth.BadRequestSkipsStore` | frontend/pages/api/auth/login.ts:14-18 | a missing or empty email or password gives 400 whatever the store holds, so the store is not consulted |
| `Auth.LoginVerdict` | frontend/pages/api/auth/login.ts:46-60 | with a complete body and a well-formed, non-empty result, only the first record's hash is consulted: 200 with `{user:{email}}` if `verify(hash, password, salt)` holds, 401 if not |
| `Auth.HandleLogin` | frontend/pages/api/auth/login.ts:14-60 | the chain of early returns gives the specified outcome; on success the session user becomes `{email}` and the session is saved; on every other path the session is not touched |
| `Auth.CheckSession` | frontend/pages/api/auth/checkSession.ts:10-21 | 200 exactly when there is a session user with a non-empty email, and then the body carries that email; otherwise 401 with no body; the function only reads the session |
| `Auth.Logout` | frontend/pages/api/auth/logout.ts:12-22 | with a session user, the session is destroyed and the answer is 200 with no body; without one, the answer is 401 and the session is not touched; no store is involved |
| `IndexPage.GroupByTerm` | frontend/pages/index.tsx:30-39 | the in-place loop builds exactly the grouping of all the releases |
| `IndexPage.GroupedContents` | frontend/pages/index.tsx:30-39 | each key is listed once; the keys are exactly the terms that occur; each group is exactly the releases of its term in input order (appending only), so every release sits in the group of its own term and in no other; no group is empty |
| `IndexPage.GroupedKeys` | frontend/pages/index.tsx:32-37 | each key is listed once, the listed keys are those of the map, and they are exactly the terms that occur among the releases |
| `IndexPage.GroupedGroups` | frontend/pages/index.tsx:31-37 | each group is exactly the releases of its term, in input order |
| `IndexPage.GroupedNonEmpty` | frontend/pages/index.tsx:36-37 | no group is empty |
| `IndexPage.GroupedWellFormed` | frontend/pages/index.tsx:30-39 | every grouping has distinct keys, no empty group, and only releases of its own term in each group |
| `IndexPage.GroupedSizes` | frontend/pages/index.tsx:30-39 | the group sizes add up to the number of releases |
| `IndexPage.GroupedOrder` | frontend/pages/index.tsx:32-37 | the keys are enumerated in the order in which their terms first appear |
| `IndexPage.FirstOfTerm` | frontend/pages/index.tsx:32-37 | the first position whose release has the given term, or the length when none has |
| `IndexPage.Page.constructor` | frontend/pages/index.tsx:17-22 | the page starts with no releases and no user, `isLogin` true and the account menu closed |
| `IndexPage.Page.FetchData` | frontend/pages/index.tsx:26-49 | on success the dictionary becomes the grouping of the fetched releases; a 401 sets `isLogin` false and clears `user`; any other error keeps the state; the dictionary stays well formed |
| `IndexPage.Page.Login` | frontend/pages/index.tsx:51-66 | a successful login sets `isLogin` true and `user` to the returned user, then asks for a refetch; a failed one changes nothing |
| `IndexPage.Page.CheckSession` | frontend/pages/index.tsx:68-78 | success takes over the user, leaves `isLogin` alone and asks for a refetch; failure sets `isLogin` false and leaves `user` as it was |
| `IndexPage.Page.Logout` | frontend/pages/index.tsx:80-94 | a successful logout closes the account menu, sets `isLogin` false and clears `user`; a failed one changes nothing |
| `Pipeline.WrittenReleaseDecodes` | mailparser/src/main.rs:172-188 | a record written by `insert_data` decodes without error; artist none (the null marker) reads back as null; a non-empty artist reads back unchanged |
| `Pipeline.WrittenReleasesList` | frontend/pages/api/release/list.ts:33-43 | when every stored record was written by the mail parser, the list endpoint answers 200 with one release per record |
| `Pipeline.LogoutThenCheckSession` | frontend/pages/api/auth/logout.ts:13-16 | a logout succeeds exactly when there is a session user, and after it `checkSession` on the same session answers 401 |
| `Pipeline.LoginThenCheckSession` | frontend/pages/api/auth/login.ts:52-57 | after a successful login, `checkSession` answers 200 with the email that logged in |

## Left out

- Network and storage I/O: the S3 download, the DynamoDB writes and queries, credential and region set-up, and the Lambda runtime. Query results and fetched mails are given as inputs.
- The `mail_parser`, `scraper` and date-formatting libraries. A `Mail` holds what they would produce: the To, From and Date values, the first div's text nodes, the first link's `href` and its image's `src`.
- MailParser.Parsed: the two panics on a missing To address (the header match at lines 119-123 and the address unwrap at line 162) are merged into one check made first. When several parts are missing at once, the reported reason may differ from the first panic the source would hit. Either way a missing part panics.
- Text.ReplaceAll: only non-empty patterns are modelled. Every pattern the source uses is non-empty. Rust's behaviour for an empty pattern is not modelled.
- Regular expressions: only the patterns the source uses are modelled. These are the literal `released` and `by`, and `\?.*` with `.` not matching a line break. Compiling these constants cannot fail, so those unwraps are left out.
- ReleaseList.SortByDate: dates are compared through an abstract total key `stamp`. For a null or unparsable date, dayjs's `diff` gives NaN, and the JavaScript sort order is then implementation-defined. The model also orders such dates by the key, so it assumes every date parses.
- IndexPage.Grouped: the term is an abstract function of the date. Term strings are assumed never to be array indices or inherited `Object` property names. That holds for "YYYY.MM" and for dayjs's "Invalid Date".
- Argon2 hashing: verification is an uninterpreted parameter. If `verify` throws on a malformed hash, the model does not show it.
- iron-session: cookie encryption, signing, the 24-hour TTL, and "undecryptable cookie means no session" are not modelled. The session is an optional user record plus a note of what was written to the cookie.
- A `Crashed` outcome is an exception thrown out of a handler. That it becomes an HTTP 500 is Next.js behaviour and is not modelled.
- Request bodies and session contents are optional strings. JSON values of other types in those fields are not modelled.
- axios, async/await ordering and React state batching are not modelled. Each endpoint outcome is one event on the page state. A `refetch` result stands for the `fetchData` call that `login` and `checkSession` issue without waiting; its outcome is a later `FetchData` event.
- The user interface is not modelled: JSX, CSS, the `Head` metadata, the login form fields and the click-outside handler. This includes the account button's toggle of `accountMenuOpen` (index.tsx:139), which is UI event handling.
- adduser/src/main.rs is not part of this model. It generates a random password and does one store write.
- frontend/lib/types.ts is not part of this model. `Release` and `User` are modelled from how the handlers build them.
