# Bookiverse search and favorites, modelled in Dafny

Bookiverse is a small book-search site. A backend endpoint `/api/books` forwards a
query to a public book-catalog API and returns the catalog's JSON. A browser page
turns each catalog item into a display `Book`, renders cards, and keeps a
favorites list in local storage. That list is deduplicated by exact title.

This project models the decision logic of both halves:

- `js.dfy` (module `Js`): the JavaScript semantics the code relies on. It covers
  absent properties as `Option` where `||` or `?.` reads them (these treat
  `undefined` and `null` alike), and a three-valued `JsString` for the title, which
  `===` and `!==` compare (these tell `undefined`, `null` and a string apart). It
  also covers string truthiness under `||`, `String.prototype.trim` (with the
  ECMAScript white-space and line-terminator set) and `Array.prototype.join`.
- `books.dfy` (module `Books`): the upstream item shape with every field optional,
  the `Book` display model, and the field-by-field fallbacks of `fetchBooks`.
- `favorites.dfy` (module `Favorites`): the store as a class whose `stored` field is
  the value under the `favorites` key (`None` while the key is absent). `Save` and
  `Remove` are methods. Beside them are the list functions they are specified by,
  and lemmas for uniqueness of titles, order preservation, idempotence and sizes.
- `search_ui.dfy` (module `SearchUi`): `handleSearch`, the outcome of `fetchBooks`
  and the branch choice of `renderBooks`. The backend is a function from query to response.
- `server.dfy` (module `Server`): the `/api/books` handler and the CORS origin callback.
  The catalog call is a function from outbound parameters to an outcome.

Points where the behaviour may surprise a reader:

- `title` has no fallback, so `Book.title` may be `undefined` or `null`, and the favorites compare it as such.
- An Origin header equal to `""` is falsy, so it is allowed like a missing one.
- An upstream status of `0` is falsy, so it maps to 500 like a missing one.
- An upstream item without `volumeInfo` makes `fetchBooks` reject. The page then
  shows the failure message.
- An empty successful result shows the loading spinner rather than a
  "no results" message. This is kept as written.

## Model

| member | source | states |
|---|---|---|
| Js.OrElse | backend/public/app.js:58-61 | `v \|\| fallback` yields the value when it is a non-empty string, the fallback otherwise, and is never empty when the fallback is not |
| Js.TrimStart | backend/server.js:49 | the result is a suffix of the input, all the dropped prefix is white space, and it does not start with white space |
| Js.TrimEnd | backend/server.js:49 | the result is a prefix of the input, all the dropped suffix is white space, and it does not end with white space |
| Js.Trim | backend/server.js:49 | the trimmed string is empty exactly when the input is all white space; otherwise it starts and ends with non-white-space |
| Js.TrimPadded | backend/server.js:49 | trimming white-space padding off a string that neither starts nor ends with white space gives that string back |
| Js.TrimUnpadded | backend/server.js:49 | a string that neither starts nor ends with white space is left unchanged by trim |
| Js.TrimIdempotent | backend/public/app.js:13 | trimming twice is trimming once |
| Js.IsJsSpace | backend/server.js:49 | on ASCII, exactly the space and the five controls tab to carriage return count as white space; nothing above the byte order mark does |
| Js.Join | backend/public/app.js:58 | an empty array joins to ""; the join starts with the first element, followed by the separator when there is a second |
| Js.JoinSnoc | backend/public/app.js:58 | joining an array with one more element appends the separator and that element, so the author line lists the authors in order separated by ", " |
| Js.JoinEmptyIff | backend/public/app.js:58 | a join with a non-empty separator is empty exactly for `[]` and `[""]` |
| Books.AuthorLine | backend/public/app.js:58 | the author is "Unknown Author" when authors are absent, `[]` or `[""]`, otherwise the authors joined with ", "; never empty |
| Books.Thumbnail | backend/public/app.js:59 | `imageLinks?.thumbnail` is absent when `imageLinks` is, and otherwise the thumbnail as given |
| Books.ToBook | backend/public/app.js:56-62 | the title is copied as-is; cover, description and link take the upstream value when it is a non-empty string and their fixed fallback otherwise; no field but the title is ever empty |
| Books.MapItems | backend/public/app.js:56-62 | the mapping succeeds exactly when every item has `volumeInfo`, and then yields one book per item in the same order |
| Books.Normalize | backend/public/app.js:55-62 | a missing `items` gives the empty list; present `items` are mapped item by item |
| Books.NormalizeKeepsItems | backend/public/app.js:55-57 | with `items` present and every item carrying `volumeInfo`, the books match the items one to one, with titles copied as they are |
| Books.SingleAuthorShown | backend/public/app.js:58 | a single non-empty author is shown as that author |
| Favorites.FavoritesStore.constructor | backend/public/app.js:140 | a fresh store has no `favorites` key, so its (empty) list trivially has distinct titles |
| Favorites.FavoritesStore.Load | backend/public/app.js:140 | a missing storage key reads as the empty list, a written one as what was written |
| Favorites.FavoritesStore.Save | backend/public/app.js:139-149 | appends and writes exactly when no stored entry has the book's title; otherwise storage is untouched; the result says which; title uniqueness is kept |
| Favorites.FavoritesStore.Remove | backend/public/app.js:175-181 | writes back the stored list filtered by title, and keeps title uniqueness; with distinct titles, removing a present title shortens the stored list by exactly one |
| Favorites.HasTitle | backend/public/app.js:141 | the `some` test holds exactly when an entry's title is `===` the given one |
| Favorites.Saved | backend/public/app.js:141-142 | the saved list extends the old one by at most one entry, by exactly one, the book, when no entry has its title; afterwards the title is present |
| Favorites.WithoutTitle | backend/public/app.js:177 | the filtered list is no longer than the input |
| Favorites.WithoutTitleMembers | backend/public/app.js:177 | the filtered list keeps every entry whose title is `!==` the given one, and holds nothing else |
| Favorites.FavoritesPanel | backend/public/app.js:154-159 | an empty list shows "No favorites yet.", any other shows its books as cards |
| Favorites.SaveGrowsOrKeeps | backend/public/app.js:141-148 | a new title grows the list by exactly one, with the book last and the earlier entries unchanged; a known title leaves it as it was; afterwards the title is present |
| Favorites.SavePreservesDistinct | backend/public/app.js:141-142 | pairwise distinct titles stay pairwise distinct after a save |
| Favorites.RemovedTitleIsGone | backend/public/app.js:177 | after removing a title, no entry carries it |
| Favorites.WithoutTitleKeepsOrder | backend/public/app.js:177 | the entries kept by a removal are a subsequence of the original list, so their relative order is kept |
| Favorites.RemoveAbsentIsIdentity | backend/public/app.js:177 | removing a title nobody carries leaves the list unchanged |
| Favorites.RemoveIdempotent | backend/public/app.js:177 | removing a title twice is removing it once |
| Favorites.WithoutTitlePreservesDistinct | backend/public/app.js:177 | pairwise distinct titles stay pairwise distinct after a removal |
| Favorites.RemovePresentShrinksByOne | backend/public/app.js:177 | with distinct titles, removing a present title shortens the list by exactly one |
| Favorites.SaveThenRemove | backend/public/app.js:139-181 | saving a book and then removing its title equals removing the title from the list as it was before the save |
| Favorites.WithoutTitleAppend | backend/public/app.js:177 | removal distributes over concatenation: filtering `a + b` is filtering `a` followed by filtering `b` |
| SearchUi.FetchBooks | backend/public/app.js:42-63 | a transport failure or a response that is not ok rejects; an ok, parsed body gives the normalisation of its `items` (the empty list when they are missing); books come only from an ok, parsed body |
| SearchUi.RenderBooks | backend/public/app.js:67-83 | the spinner is shown exactly for an empty list, a grid of the books otherwise, and never a text message |
| SearchUi.HandleSearch | backend/public/app.js:12-28 | a query is sent, equal to the trimmed input, exactly when the input is not all white space; the prompt is shown exactly otherwise; a rejected fetch shows the failure text, a fulfilled one renders the books |
| SearchUi.BlankInputSendsNothing | backend/public/app.js:13-17 | a blank input shows the prompt whatever the backend would answer |
| SearchUi.EmptyResultShowsSpinner | backend/public/app.js:69-71 | an ok reply with no or zero items shows the spinner |
| SearchUi.OneMatchShowsOneCard | backend/public/app.js:55-62 | one item with one non-empty author renders one card with that title and author |
| Server.ValidQuery | backend/server.js:49-54 | an absent or all-white-space `q` is rejected; otherwise the query is the trimmed `q`, non-empty and without outer white space |
| Server.BuildParams | backend/server.js:57-59 | `q` is always the query, `key` is present exactly when the API key is a non-empty string and then equals it, and nothing else is set |
| Server.ErrorStatus | backend/server.js:72 | the status is the upstream status when present and non-zero, else 500 |
| Server.DetailMessage | backend/server.js:74 | `error?.response?.data?.error?.message` is the catalog's message when every link of the chain is present, and absent otherwise |
| Server.ErrorMessage | backend/server.js:73-76 | the message is the catalog's error message, else the transport error's message, else "Failed to fetch books", each taken only when non-empty; never empty |
| Server.HandleBooks | backend/server.js:48-80 | a rejected query gets 400 with the fixed error and makes no outbound call; otherwise one call with the built parameters, whose data is relayed unchanged under 200, or whose error is mapped to status and message; every error reply has a non-zero status and a non-empty message |
| Server.OriginAllowed | backend/server.js:12-18 | an absent or empty Origin is allowed; any other is allowed exactly when it equals `http://127.0.0.1:5500` or `http://localhost:5500` |

## Left out

- DOM building (`createBookCard`, the card loop of `displayFavorites`), `alert`, event listeners and `stopPropagation`: UI side effects with no data behaviour beyond the branches modelled.
- The results heading, which the first non-blank search unhides for good, and the "Searching books..." text, which stays up while the request is pending: the model assumes every request gets an answer (neither the page's `fetch` nor the backend's `axios` call sets a timeout), so a stalled request is not modelled.
- `fetch`, `axios`, Express routing and middleware, `express.static`, `sendFile`, `app.listen` and logging: network and library plumbing. The backend and the catalog are parameters.
- `JSON.parse`, `JSON.stringify` and `localStorage` itself: the store holds the list directly. So the serialization round trip is not modelled, and neither is a stored value that is not a list.
- `encodeURIComponent` and the header and method handling of the `cors` middleware: library internals. Only the origin callback is modelled.
- `undefined` versus `null` for the optional fields other than `title`: only `||`, `?.` and `!` read them, and `.` on `volumeInfo`, which throws on both; these treat both alike, so one `None` stands for both.
- Upstream JSON of another shape than the one typed here: a non-string `title`, `description`, `thumbnail`, `previewLink`, `message` or author entry, a non-array `authors` or `items` (a string `authors` makes `join` throw and the page show the failure text), a non-object `volumeInfo`, and a repeated `q` parameter (an array in Express).
- Overlapping searches and cross-tab last-write-wins on favorites: concurrency that the code does not address.
- The `/whoami` hostname fallback, the `/healthz` text and the `PORT` default: configuration constants with nothing to verify.
- Strings as sequences of UTF-16 code units: a string here is a sequence of Unicode scalar values, so a lone surrogate cannot occur. `trim`, `===` and `join` agree on well-formed text, but the synchronous throw of `encodeURIComponent` (backend/public/app.js:43) on a lone surrogate, which escapes `handleSearch` and leaves "Searching books..." on screen, is not modelled.
