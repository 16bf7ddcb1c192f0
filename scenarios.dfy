/**
 Properties of whole rounds, obtained by running several handlers in a row
 with no query failing.
 */
module Scenarios {
  import opened Api
  import opened Tables
  import opened Search
  import opened Server
  import opened Client

  /** Clearing the session and posting `a` makes `a` the session the server reports. */
  method SessionRoundTrip(store: RoundStore, a: AnimeId) returns (r: Response)
    requires store.Valid()
    modifies store
    ensures store.Valid()
    ensures r == Response(200, SessionId(a))
  {
    var deleted := store.DeleteSession(false);
    var posted := store.PostSession(a, false);
    r := store.GetSession(false);
  }

  /**
   An answer does not outlive its session: `a` is correct while `a` is the
   answer and wrong once the session has been replaced by `b`.
   */
  method NoStaleAnswer(store: RoundStore, a: AnimeId, b: AnimeId, t1: int, t2: int)
    returns (first: Response, second: Response)
    requires store.Valid()
    requires a != b
    modifies store
    ensures store.Valid()
    ensures first == Response(200, GuessOutcome(GuessPosted, true))
    ensures second == Response(200, GuessOutcome(GuessPosted, false))
  {
    var r := store.DeleteSession(false);
    r := store.PostSession(a, false);
    first := store.PostGuess(a, t1, false, false);
    r := store.DeleteSession(false);
    r := store.PostSession(b, false);
    second := store.PostGuess(a, t2, false, false);
  }

  /** The server side of a new game: no guesses, and `answer` as the only session row. */
  method ResetRound(store: RoundStore, answer: AnimeId)
    returns (cleared: Response, deleted: Response, posted: Response)
    requires store.Valid()
    modifies store
    ensures store.Valid()
    ensures cleared.status == 200 && deleted.status == 200 && posted.status == 200
    ensures store.guesses == [] && store.session == [answer]
  {
    cleared := store.DeleteGuesses(false);
    deleted := store.DeleteSession(false);
    posted := store.PostSession(answer, false);
  }

  /**
   With the guess key on the anime id: answer 1, guess 2 and then 1; the
   list holds both guesses, most recent first.
   */
  method TwoGuessesNewestFirst(store: RoundStore, t1: int, t2: int)
    returns (wrong: Response, right: Response, listed: Response)
    requires store.Valid()
    requires forall g, h :: store.guessClash(g, h) <==> g.animeId == h.animeId
    requires t1 < t2
    modifies store
    ensures store.Valid()
    ensures wrong == Response(200, GuessOutcome(GuessPosted, false))
    ensures right == Response(200, GuessOutcome(GuessPosted, true))
    ensures listed == Response(200, GuessList([GuessView(1, true), GuessView(2, false)]))
  {
    var cleared, deleted, posted := ResetRound(store, 1);
    var g1, g2 := Guess(2, false, t1), Guess(1, true, t2);
    wrong := store.PostGuess(2, t1, false, false);
    assert store.guesses == [g1];
    right := store.PostGuess(1, t2, false, false);
    assert !ClashesWithAny([g1], g2, store.guessClash) by {
      assert !store.guessClash(g1, g2);
    }
    assert store.guesses == [g1, g2];
    LaterGuessListedFirst(g1, g2);
    listed := store.GetGuesses(false);
    assert listed.payload.guesses == Views(NewestFirst([g1, g2]));
  }

  /**
   With the guess key on the anime id, guessing the same anime twice stores
   one row and reports the same flag both times.
   */
  method RepeatedGuessStoredOnce(store: RoundStore, a: AnimeId, t1: int, t2: int)
    returns (first: Response, second: Response)
    requires store.Valid()
    requires forall g, h :: store.guessClash(g, h) <==> g.animeId == h.animeId
    requires store.session != []
    modifies store
    ensures store.Valid()
    ensures first == second && first.status == 200
    ensures |store.guesses| == 1 && store.guesses[0].animeId == a
  {
    var r := store.DeleteGuesses(false);
    first := store.PostGuess(a, t1, false, false);
    second := store.PostGuess(a, t2, false, false);
    assert store.guessClash(Guess(a, a == store.session[0], t1), Guess(a, a == store.session[0], t2));
  }

  /**
   The page submitting its selection to the server: the round ends on the
   page exactly when the server finds the guess equal to the answer.
   */
  method SubmitToServer(app: App, store: RoundStore, now: int) returns (calls: seq<Request>)
    requires app.Valid() && store.Valid()
    requires Selected(app.animeGuessId) && store.session != []
    modifies app, store
    ensures app.Valid() && store.Valid()
    ensures calls == [PostGuess(old(app.animeGuessId).value), GetGuesses]
    ensures store.session == old(store.session)
    ensures app.gameEnded <==> old(app.animeGuessId).value == store.session[0]
  {
    var guessed := app.animeGuessId.value;
    var r := store.PostGuess(guessed, now, false, false);
    calls := app.OnSubmit(Some(r.payload.correct));
  }

  /**
   A new game carried out by the server as the page requests it: the guess
   table is empty, the chosen anime is the only session row, the page holds it
   as the answer and the round is open.
   */
  method NewGameOnServer(app: App, store: RoundStore, random: AnimeDetails) returns (calls: seq<Request>)
    requires app.Valid() && store.Valid()
    modifies app, store
    ensures app.Valid() && store.Valid()
    ensures calls == [DeleteGuesses, GetRandomAnime, DeleteSession, PostSession(random.malId)]
    ensures store.guesses == [] && app.animeGuesses == []
    ensures store.session == [random.malId] && app.randomAnime == Some(random) && !app.gameEnded
    ensures store.GetSession(false) == Response(200, SessionId(random.malId))
  {
    var cleared, deleted, posted := ResetRound(store, random.malId);
    calls := app.HandleNewGame(cleared.status == 200, RandomAnime(random), deleted.status == 200, posted.status == 200);
  }

  /**
   Clicking a suggestion and submitting sends the guess exactly when the
   clicked anime's id is not 0: the id 0 is falsy, so the page reports that
   nothing is selected and sends nothing.
   */
  method ClickThenSubmit(app: App, clicked: AnimeTitle, reply: Option<bool>) returns (calls: seq<Request>)
    requires app.Valid()
    modifies app
    ensures app.Valid()
    ensures clicked.animeId == 0 ==> calls == [] && app.animeGuessId == Some(0)
    ensures clicked.animeId != 0 ==> calls != [] && calls[0] == PostGuess(clicked.animeId)
  {
    app.HandleSuggestionClick(clicked);
    calls := app.OnSubmit(reply);
  }

  /** Of two guesses, the one stamped strictly later is listed first. */
  lemma LaterGuessListedFirst(g1: Guess, g2: Guess)
    requires g1.createdAt < g2.createdAt
    ensures Views(NewestFirst([g1, g2])) == [View(g2), View(g1)]
  {
    var s := [g1, g2];
    assert s[..1] == [g1];
    assert [g1][..0] == [];
    assert NewestFirst([g1]) == [g1];
    assert NewestFirst(s) == Place(g2, [g1]);
    assert NewestFirst(s) == [g2, g1];
  }
}
