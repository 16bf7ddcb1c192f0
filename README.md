# Guess-The-Anime: the state of a guessing round

Guess-The-Anime is a one-round-at-a-time guessing game. The server keeps the
secret answer as a row of the `game_session` table. It records each guess as a
row of the `guesses` table with the guessed anime id, whether the guess was
right, and a `created_at` stamp. The page lets the player search the title
list, pick a suggestion, submit it and start a new game.

This project models the state of a round on both sides:

- `api.dfy` (module `Api`) holds the HTTP surface: anime ids, the JSON bodies
  the handlers send, and the requests the page issues.
- `tables.dfy` (module `Tables`) gives the two SQL behaviours the controllers
  rely on, as pure functions on sequences of rows:
  - `INSERT ... ON CONFLICT DO NOTHING` (`InsertOrIgnore`) against a unique key.
    The key is a parameter (`clash(existing, new)`), because the table
    definitions are not in the code. The project proves that such an insert
    keeps the unique constraint, that a repeated insert is a no-op, and that a
    key on which every two rows clash allows at most one row.
  - `ORDER BY created_at DESC` (`NewestFirst`). It is proved to be a
    permutation ordered by descending stamp. For rows inserted in clock order
    it is exactly the reverse of insertion order.
- `server.dfy` (module `Server`) has class `RoundStore`. Its fields are the two
  tables (`session`, `guesses`) and their unique keys. Its members are the six
  handlers of `guessController.ts` and `sessionController.ts`:
  - each query's failure is an input;
  - a failure answers status 500 with that handler's fixed text;
  - `getSession` really reports "Error posting game session into database.".
- `search.dfy` (module `Search`) is the page's autocomplete filter as pure
  functions. The project proves:
  - blank input gives no suggestions;
  - there are at most ten;
  - each suggestion matches, ignoring case;
  - the suggestions are exactly the first matches in list order, with none skipped;
  - the letter case of the query does not matter.
- `client.dfy` (module `Client`) has class `App`, with the page's state
  variables as fields and its handlers as methods.
  - Every HTTP outcome is an input of the handler that awaits it. The loads,
    `OnSubmit` and the random-anime reply use an `Option` or a three-way
    reply (none when axios throws). `HandleNewGame` takes each delete's and
    post's success as a boolean.
  - Every handler that sends requests returns them, in order.
    `HandleSearchChange` and `HandleSuggestionClick` send none and return
    nothing.
  - `Valid()` is the invariant that the suggestions shown always match the
    search box.
- `scenarios.dfy` (module `Scenarios`) runs several handlers in a row:
  - the session round trip;
  - a new session does not reuse the old answer;
  - a two-guess list comes back newest first;
  - a repeated guess is stored once;
  - the page's submit and new-game flows, carried out by the server.

Modelling choices:

- `toLowerCase` is ASCII lower-casing.
- `trim()` strips the full ECMAScript set of white-space and line-terminator
  characters. `Blank` (every character is one of them) is proved to hold
  exactly when the trimmed text is empty.
- `!animeGuessId` is true for `null`, `undefined` and the id `0`.
- The database clock is the `now` input of `PostGuess`.
- SQL returns equal stamps in no fixed order. `NewestFirst` lists the
  later-inserted row first among them.
- `SELECT anime_id FROM game_session` has no `ORDER BY`, so SQL does not fix
  which row is `rows[0]`. The model takes `SELECT` order to be insertion
  order: `rows[0]` is the oldest row, the first element of `session`. Both
  handlers that read it see that same order. With a session key that allows
  several rows, two session posts with no delete between them would therefore
  make the older answer the one guesses are compared with. PostgreSQL may
  return either row. The page never does this, because it posts a session
  only after a successful delete.

Behaviour of the code that the model keeps:

- A guess with no session row answers 500 with the post-guess text, because
  reading `anime_id` from the missing row throws inside the `try`.
- `handleNewGame` stores the random anime as the answer as soon as one comes
  back. It sets `gameEnded` to false only after both session requests succeed.
- When the random-anime request answers 200 with an empty body,
  `getRandomAnime` stores that falsy body as the answer. The page then has no
  answer (`None`), and `handleNewGame` stops before touching the session.
- The id `0` is falsy, so a clicked anime with id 0 can never be submitted.

## Model

| member | source | states |
|---|---|---|
| `Tables.Views` | server/src/controllers/guessController.ts:26-37 | The guess list has one entry per row, in the same order, each carrying that row's `animeId` and `correct`. |
| `Tables.InsertOrIgnore` | server/src/controllers/guessController.ts:70 | The table grows by exactly the new row, appended, when no existing row clashes with it. Otherwise it is unchanged. Existing rows are never altered. |
| `Tables.InsertKeepsUnique` | server/src/controllers/sessionController.ts:40 | An insert that does nothing on conflict preserves the table's unique constraint. |
| `Tables.InsertTwiceIsOnce` | server/src/controllers/guessController.ts:70 | Under a key that clashes a row with itself, inserting the same row again leaves the table as after the first insert. |
| `Tables.SingletonKeyHoldsOneRow` | server/src/controllers/sessionController.ts:40 | Under a key on which every two rows clash, the unique constraint holds exactly when the table has at most one row. |
| `Tables.NewestFirst` | server/src/controllers/guessController.ts:24 | `ORDER BY created_at DESC`: the result is a permutation of the rows (same multiset) with non-increasing stamps. |
| `Tables.PlaceKeepsOrder` | server/src/controllers/guessController.ts:24 | Inserting one row into a list ordered newest-first, in front of the first row that is not newer, keeps it ordered newest-first. |
| `Tables.ChronologicalNewestFirst` | server/src/controllers/guessController.ts:24 | Rows whose stamps never decrease in insertion order are listed in exactly the reverse of insertion order. |
| `Tables.InsertKeepsChronological` | server/src/controllers/guessController.ts:70 | Inserting a row stamped no earlier than every stored row keeps the table in clock order. |
| `Server.RoundStore.constructor` | server/src/config/db.ts:6-9 | The store the handlers share. The model starts it with empty tables and the given unique keys, so both unique constraints hold. The real pool connects to a database that may already hold rows, which every handler allows, because each requires only `Valid()`. |
| `Server.RoundStore.GetGuesses` | server/src/controllers/guessController.ts:11-46 | On success: status 200 with one entry per stored guess, carrying its `animeId` and `correct`, in `NewestFirst` order. For a table in clock order this is the reverse of insertion order. A failed query gives 500 with "Error querying all guesses.". |
| `Server.RoundStore.PostGuess` | server/src/controllers/guessController.ts:56-83 | Status 200 exactly when neither query fails and a session row exists. The guess is correct exactly when it equals the first session row's id. On 200 the guess table is the insert-or-ignore of `(animeId, correct, now)`. The reported flag is the computed one, whether or not the row went in. Otherwise it answers 500 "Error posting guess into database." and the guess table is unchanged. The session table is never changed, and both unique constraints and clock order are kept. |
| `Server.RoundStore.DeleteGuesses` | server/src/controllers/guessController.ts:92-104 | On success the guess table is empty, `getGuesses` returns `[]`, and the session is untouched. On failure it answers 500 and nothing changes. |
| `Server.RoundStore.GetSession` | server/src/controllers/sessionController.ts:11-27 | On success it answers 200. The body is `{animeId}` of the first session row, or empty exactly when the table is empty. A failed query gives 500 with the handler's fixed text. |
| `Server.RoundStore.PostSession` | server/src/controllers/sessionController.ts:36-50 | Reports 200 on success whether or not a row was inserted. The session table is the insert-or-ignore of the id, so an empty table becomes `[animeId]`. Guesses are untouched. On failure it answers 500 and nothing changes. |
| `Server.RoundStore.DeleteSession` | server/src/controllers/sessionController.ts:59-71 | On success the session table is empty and `getSession` has no body. Guesses are untouched. On failure it answers 500 and nothing changes. |
| `Server.SingletonSessionKey` | server/src/controllers/sessionController.ts:40 | If the session key makes every two rows clash, `game_session` never holds more than one row. |
| `Search.TrimStart` | client/src/App.tsx:120 | The result is a suffix of the text. Every dropped character is ECMAScript white space or a line terminator, and the result does not start with one. |
| `Search.TrimEnd` | client/src/App.tsx:120 | The result is a prefix of the text. Every dropped character is white space or a line terminator, and the result does not end with one. |
| `Search.TrimmedEmptyIffBlank` | client/src/App.tsx:120 | `s.trim() === ""` holds exactly when every character of `s` is white space or a line terminator (`Blank`). |
| `Search.Lower` | client/src/App.tsx:124 | The result has the same length and no upper-case ASCII letter. Each upper-case letter `A`–`Z` becomes the letter 32 code points above it, `a`–`z`. Every other character is unchanged. |
| `Search.LowerTwice` | client/src/App.tsx:124 | Lower-casing twice gives the same text as lower-casing once. |
| `Search.ContainsIffOccurs` | client/src/App.tsx:124 | `Contains(s, sub)`, the model of `s.includes(sub)`, holds exactly when `sub` occurs in `s` at some index `i` (`s[i..i+|sub|] == sub`). |
| `Search.MatchesIffOccurs` | client/src/App.tsx:124 | A title matches a search text exactly when the lower-cased text occurs at some index of the lower-cased title. Lower-casing the title or the text first does not change the outcome. |
| `Search.Filter` | client/src/App.tsx:124 | The filtered list is never longer than the title list. |
| `Search.Take` | client/src/App.tsx:125 | `slice(0, n)` is a prefix of the list, of length `n`, or the whole list when it is shorter. |
| `Search.FilterMembers` | client/src/App.tsx:124 | A title is kept by the filter exactly when it is in the list and contains the search text, ignoring case. |
| `Search.FilterConcat` | client/src/App.tsx:124 | The filter preserves list order: filtering a concatenation gives the concatenation of the filtered parts. |
| `Search.FilterSameMatches` | client/src/App.tsx:124 | Two queries with the same lower-case form select the same titles. |
| `Search.Suggestions` | client/src/App.tsx:116-127 | A blank search gives no suggestions. There are never more than ten, and each one is a listed title that contains the search text, ignoring case. |
| `Search.FirstMatchesCut` | client/src/App.tsx:124-125 | For every `n`, the first `n` matches are all the matches of some prefix of the list. That prefix is the whole list unless it holds `n` matches. |
| `Search.SuggestionsAreFirstMatches` | client/src/App.tsx:124-125 | The suggestions are exactly the matching titles of a prefix of the list, in order with none skipped. The prefix is the whole list unless ten were found. |
| `Search.FewSuggestionsAreAllMatches` | client/src/App.tsx:124-125 | Fewer than ten suggestions means every matching title is suggested. |
| `Search.SuggestionsIgnoreCase` | client/src/App.tsx:124 | Suggestions for a query equal those for its lower-cased form. |
| `Client.App.constructor` | client/src/App.tsx:34-42 | The initial state: empty search, title list, suggestions and guesses, no answer, no selection, round open. |
| `Client.App.LoadTitles` | client/src/App.tsx:44-52 | It sends the title request. On success the title list is replaced. The suggestions are not recomputed, and the rest is unchanged. |
| `Client.App.LoadGuesses` | client/src/App.tsx:54-62 | It sends the guess-list request. On success the guess list is replaced, and the rest is unchanged. |
| `Client.App.HandleSearchChange` | client/src/App.tsx:116-127 | The box holds the raw value, even a blank one. The suggestions become `Suggestions(titles, value)`, which is empty for a blank value. Nothing else changes. |
| `Client.App.HandleSuggestionClick` | client/src/App.tsx:129-133 | The box takes the clicked title, the suggestions become empty and the clicked id is selected. Nothing else changes. |
| `Client.App.OnSubmit` | client/src/App.tsx:135-154 | With no selection, or the falsy id 0, nothing is sent and no state changes. Otherwise the id is posted, and if the post throws no state changes. On a reply, `gameEnded` equals the reply's `correct` flag and the box, suggestions and selection are reset. A guess-list refresh is then sent. The suggestion invariant is kept throughout. |
| `Client.App.HandleNewGame` | client/src/App.tsx:156-171 | If the guess delete fails, nothing changes. Otherwise the guess list is emptied and `getRandomAnime` runs. If its request throws, the answer is kept and nothing more is sent. If it answers with an empty body, the page has no answer and nothing more is sent. If it returns an anime, that anime becomes the answer and a session delete is sent, followed by a session post when the delete succeeded. `gameEnded` becomes false only when both session requests succeed. The search state is untouched. |
| `Scenarios.SessionRoundTrip` | server/src/controllers/sessionController.ts:11-71 | `deleteSession`, then `postSession(a)`, then `getSession` answers `{animeId: a}`, from any valid state. |
| `Scenarios.ResetRound` | client/src/App.tsx:158-163 | The server side of a new game: clearing the guesses, clearing the session and posting the answer all answer 200, and they leave no guesses and the answer as the only session row, from any valid state. |
| `Scenarios.NoStaleAnswer` | server/src/controllers/guessController.ts:56-83 | After session `a`, guessing `a` is correct. After replacing the session with `b`, guessing `a` is wrong. |
| `Scenarios.TwoGuessesNewestFirst` | server/src/controllers/guessController.ts:11-83 | With the guess key on the anime id, answer 1, then guess 2 and guess 1 at a strictly later time: the replies are false, then true. The list is `[(1, true), (2, false)]`. |
| `Scenarios.LaterGuessListedFirst` | server/src/controllers/guessController.ts:24 | Of two rows with strictly increasing stamps, the later one is listed first. |
| `Scenarios.RepeatedGuessStoredOnce` | server/src/controllers/guessController.ts:70 | With the guess key on the anime id, guessing the same id twice after a clear stores one row. Both replies are identical. |
| `Scenarios.ClickThenSubmit` | client/src/App.tsx:129-141 | Clicking a suggestion and submitting sends the guess exactly when the clicked id is not 0. For the falsy id 0 nothing is sent, although that id stays selected. |
| `Scenarios.SubmitToServer` | client/src/App.tsx:135-154 | The page's submit, answered by the server's `postGuess`, ends the round on the page exactly when the selected id equals the session's answer. |
| `Scenarios.NewGameOnServer` | client/src/App.tsx:156-171 | The page's new-game requests, carried out by the server with the server's own statuses fed back to the page, leave no guesses and the chosen anime as the only session row. `getSession` reports it, the page holds it as the answer and the round is open. |

## Left out

- Search.Lower: only ASCII letters are lower-cased. JavaScript's `toLowerCase` also maps non-ASCII letters (for example `É`), so titles differing only in such letters are not matched case-insensitively by the model.
- Start-up (`getGameSession` and the `Promise.all` in `useEffect`, client/src/App.tsx:76-114) is not modelled, because it runs the title load and the session load concurrently. When a session exists, it fetches that anime's details from the anime endpoint, which is outside this model. It then reloads the guess list, sets `gameEnded` to false and makes that anime the answer. When there is no session, it runs `handleNewGame`. `LoadTitles`, `LoadGuesses` and `HandleNewGame` model the steps it is made of.
- The asynchronous interleaving of handlers is not modelled. Each handler runs to completion. The guess-list refresh that `onSubmit` fires without awaiting is the separate method `LoadGuesses`.
- The delete-then-insert session race between concurrent new games is not modelled, because it is a concurrency concern.
- The anime display fields that `getGuesses` joins in are left out: title, thumbnail, source, season, mean, media type, and the `jsonb_agg` genres and studios. The list carries only `animeId` and `correct`. The join and aggregation are database behaviour.
- The anime controller, including `getRandomAnime` and its `ORDER BY RANDOM()`, is left out. The random-anime reply is an input of `HandleNewGame`: the request throws, it answers with an empty body, or it returns an anime.
- The ingestion scripts, connection-pool configuration, Express wiring and routes are left out. The routes do not match the paths the page calls. For example, only `/` is mounted for sessions and `/random-anime` is never registered. So in the deployed code some of `HandleNewGame`'s inputs would always be failures. The model takes them as inputs instead.
- The page's rendering (JSX, comparison hints), console logging and the request bodies' JSON encoding are left out.
- Malformed request bodies are left out. Anime ids are integers on both sides. A `bigint` column returned by the driver as a string would make `===` always false, and that is not modelled.
- A thrown value that is not an `Error` instance is left out. The handlers would then never answer. Database errors are always `Error`s.
