/**
 The guess and session controllers of the server, as methods on the two
 tables they share. The database is abstract: each table is a sequence of rows
 in scan order, the unique keys behind `ON CONFLICT DO NOTHING` are parameters
 of the store, and whether a query fails is an input of the handler.
 */
module Server {
  import opened Api
  import opened Tables

  const GuessPosted := "Successfully posted guess."
  const GuessPostFailed := "Error posting guess into database."
  const GuessListFailed := "Error querying all guesses."
  const GuessesDeleted := "Successfully deleted all guesses."
  const GuessDeleteFailed := "Error deleting guesses."
  const SessionPosted := "Successfully posted game session."
  const SessionPostFailed := "Error posting game session into database."
  const SessionDeleted := "Successfully deleted game session."
  const SessionDeleteFailed := "Error deleting game session from database."

  class RoundStore {
    /** `game_session`: the `anime_id` of each row; `SELECT` is taken to return them in insertion order. */
    var session: seq<AnimeId>
    /** `guesses`: one row per stored guess, in insertion order. */
    var guesses: seq<Guess>
    /** The unique key of `game_session`: `sessionClash(existing, new)`. */
    const sessionClash: (AnimeId, AnimeId) -> bool
    /** The unique key of `guesses`: `guessClash(existing, new)`. */
    const guessClash: (Guess, Guess) -> bool

    /** Both tables satisfy their unique constraints. */
    ghost predicate Valid()
      reads this
    {
      Unique(session, sessionClash) && Unique(guesses, guessClash)
    }

    /** Freshly created, empty tables with the given unique keys. */
    constructor (sessionClash: (AnimeId, AnimeId) -> bool, guessClash: (Guess, Guess) -> bool)
      ensures Valid()
      ensures session == [] && guesses == []
      ensures this.sessionClash == sessionClash && this.guessClash == guessClash
    {
      this.sessionClash := sessionClash;
      this.guessClash := guessClash;
      session := [];
      guesses := [];
    }

    // -------------------------------------------------------------------------
    // guessController

    /**
     `getGuesses`: every stored guess with its `animeId` and `correct`, newest
     first; status 500 with the handler's text when the query fails.
     */
    function GetGuesses(queryFails: bool): (r: Response)
      reads this
      ensures queryFails <==> r.status == 500
      ensures queryFails ==> r.payload == Text(GuessListFailed)
      ensures !queryFails ==> r.status == 200 && r.payload.GuessList?
      ensures !queryFails ==> |r.payload.guesses| == |guesses|
      ensures !queryFails ==> r.payload.guesses == Views(NewestFirst(guesses))
      ensures !queryFails && Chronological(guesses) ==> r.payload.guesses == Views(Reverse(guesses))
    {
      if queryFails then ServerError(GuessListFailed)
      else
        var listed := NewestFirst(guesses);
        assert |listed| == |guesses| by {
          assert |multiset(listed)| == |multiset(guesses)|;
        }
        assert Chronological(guesses) ==> listed == Reverse(guesses) by {
          if Chronological(guesses) {
            ChronologicalNewestFirst(guesses);
          }
        }
        Response(200, GuessList(Views(listed)))
    }

    /**
     `postGuess`: a guess is correct exactly when it equals the `anime_id` of
     the first session row. With no session row, reading that row throws and
     the handler answers 500 before inserting anything. The insert does nothing
     on conflict, and the reported flag is the computed one either way. The
     session table is never touched. `now` is the `created_at` the database stamps.
     */
    method PostGuess(animeId: AnimeId, now: int, selectFails: bool, insertFails: bool) returns (r: Response)
      requires Valid()
      modifies this
      ensures Valid()
      ensures session == old(session)
      ensures r.status == 200 <==> !selectFails && old(session) != [] && !insertFails
      ensures r.status != 200 ==> r == ServerError(GuessPostFailed) && guesses == old(guesses)
      ensures r.status == 200 ==>
        r.payload == GuessOutcome(GuessPosted, animeId == session[0]) &&
        guesses == InsertOrIgnore(old(guesses), Guess(animeId, animeId == session[0], now), guessClash)
      ensures old(Chronological(guesses)) && (forall i | 0 <= i < |old(guesses)| :: old(guesses)[i].createdAt <= now)
        ==> Chronological(guesses)
    {
      if selectFails {
        return ServerError(GuessPostFailed);
      }
      if session == [] {
        // `gameSession.rows[0]` is undefined, and reading `anime_id` from it throws.
        return ServerError(GuessPostFailed);
      }
      var answer := session[0];
      var correct := animeId == answer;
      if insertFails {
        return ServerError(GuessPostFailed);
      }
      var row := Guess(animeId, correct, now);
      InsertKeepsUnique(guesses, row, guessClash);
      if Chronological(guesses) && forall i | 0 <= i < |guesses| :: guesses[i].createdAt <= now {
        InsertKeepsChronological(guesses, row, guessClash);
      }
      guesses := InsertOrIgnore(guesses, row, guessClash);
      r := Response(200, GuessOutcome(GuessPosted, correct));
    }

    /** `deleteGuesses`: empties the guess table, after which the guess list is empty. */
    method DeleteGuesses(queryFails: bool) returns (r: Response)
      requires Valid()
      modifies this
      ensures Valid()
      ensures session == old(session)
      ensures queryFails ==> r == ServerError(GuessDeleteFailed) && guesses == old(guesses)
      ensures !queryFails ==> r == Response(200, Message(GuessesDeleted)) && guesses == []
      ensures !queryFails ==> GetGuesses(false) == Response(200, GuessList([]))
    {
      if queryFails {
        return ServerError(GuessDeleteFailed);
      }
      guesses := [];
      r := Response(200, Message(GuessesDeleted));
    }

    // -------------------------------------------------------------------------
    // sessionController

    /**
     `getSession`: `{animeId}` of the first session row, or an empty body when
     there is none. The error text is the one this handler really sends, which
     speaks of posting.
     */
    function GetSession(queryFails: bool): (r: Response)
      reads this
      ensures queryFails <==> r.status == 500
      ensures queryFails ==> r.payload == Text(SessionPostFailed)
      ensures !queryFails ==> r.status == 200 && (r.payload.NoBody? || r.payload.SessionId?)
      ensures !queryFails ==> (r.payload.NoBody? <==> session == [])
      ensures !queryFails && r.payload.SessionId? ==> r.payload.animeId == session[0]
    {
      if queryFails then ServerError(SessionPostFailed)
      else if session == [] then Response(200, NoBody)
      else Response(200, SessionId(session[0]))
    }

    /**
     `postSession`: inserts `animeId` unless it conflicts with an existing row,
     and reports success whether or not a row went in.
     */
    method PostSession(animeId: AnimeId, queryFails: bool) returns (r: Response)
      requires Valid()
      modifies this
      ensures Valid()
      ensures guesses == old(guesses)
      ensures queryFails ==> r == ServerError(SessionPostFailed) && session == old(session)
      ensures !queryFails ==> r == Response(200, Message(SessionPosted))
      ensures !queryFails ==> session == InsertOrIgnore(old(session), animeId, sessionClash)
      ensures !queryFails && old(session) == [] ==> session == [animeId]
    {
      if queryFails {
        return ServerError(SessionPostFailed);
      }
      InsertKeepsUnique(session, animeId, sessionClash);
      session := InsertOrIgnore(session, animeId, sessionClash);
      r := Response(200, Message(SessionPosted));
    }

    /** `deleteSession`: empties the session table, after which `getSession` has no body. */
    method DeleteSession(queryFails: bool) returns (r: Response)
      requires Valid()
      modifies this
      ensures Valid()
      ensures guesses == old(guesses)
      ensures queryFails ==> r == ServerError(SessionDeleteFailed) && session == old(session)
      ensures !queryFails ==> r == Response(200, Message(SessionDeleted)) && session == []
      ensures !queryFails ==> GetSession(false) == Response(200, NoBody)
    {
      if queryFails {
        return ServerError(SessionDeleteFailed);
      }
      session := [];
      r := Response(200, Message(SessionDeleted));
    }
  }

  /** A session key on which every two rows clash keeps `game_session` to at most one row. */
  lemma SingletonSessionKey(store: RoundStore)
    requires store.Valid()
    requires forall a, b :: store.sessionClash(a, b)
    ensures |store.session| <= 1
  {
    var key := store.sessionClash;
    assert forall a, b :: key(a, b);
    SingletonKeyHoldsOneRow(store.session, key);
  }
}
