/**
 The state of the guessing page and its event handlers. Each HTTP call's
 outcome is an input of the handler (`None` when the request throws, which
 axios does on a network error and on any non-2xx status); each handler
 returns the requests it sends, in order.
 */
module Client {
  import opened Api
  import opened Search

  /** The answer as the page keeps it (`randomAnime`); the other fields are only displayed. */
  datatype AnimeDetails = AnimeDetails(malId: AnimeId, title: string)

  /**
   What `getRandomAnime` hands back: the request threw (it then returns
   `undefined` and leaves the answer alone), the server answered 200 with an
   empty body (an empty anime table; the answer is set to that falsy body), or
   an anime.
   */
  datatype RandomReply = RandomFailed | EmptyReply | RandomAnime(details: AnimeDetails)

  /** `!animeGuessId` is false: an id is selected and it is not the falsy 0 (null and undefined are `None`). */
  predicate Selected(id: Option<AnimeId>)
  {
    id.Some? && id.value != 0
  }

  class App {
    var search: string
    var animeTitles: seq<AnimeTitle>
    var animeSearchTitles: seq<AnimeTitle>
    var randomAnime: Option<AnimeDetails>
    var animeGuessId: Option<AnimeId>
    var animeGuesses: seq<GuessView>
    var gameEnded: bool

    /**
     What the search box shows is consistent with its text: at most ten
     suggestions, none for a blank text, and each one matches the text.
     */
    ghost predicate Valid()
      reads this
    {
      |animeSearchTitles| <= MaxSuggestions &&
      (Blank(search) ==> animeSearchTitles == []) &&
      forall i | 0 <= i < |animeSearchTitles| :: Matches(animeSearchTitles[i], search)
    }

    /** The initial `useState` values. */
    constructor ()
      ensures Valid()
      ensures search == "" && animeTitles == [] && animeSearchTitles == []
      ensures randomAnime == None && animeGuessId == None && animeGuesses == [] && !gameEnded
    {
      search := "";
      animeTitles := [];
      animeSearchTitles := [];
      randomAnime := None;
      animeGuessId := None;
      animeGuesses := [];
      gameEnded := false;
    }

    /** `getAnimeTitles`: on success the title list is replaced; the suggestions shown are not recomputed. */
    method LoadTitles(response: Option<seq<AnimeTitle>>) returns (calls: seq<Request>)
      requires Valid()
      modifies this
      ensures Valid()
      ensures calls == [GetAnimeTitles]
      ensures animeTitles == if response.Some? then response.value else old(animeTitles)
      ensures search == old(search) && animeSearchTitles == old(animeSearchTitles)
      ensures randomAnime == old(randomAnime) && animeGuessId == old(animeGuessId)
      ensures animeGuesses == old(animeGuesses) && gameEnded == old(gameEnded)
    {
      calls := [GetAnimeTitles];
      if response.Some? {
        animeTitles := response.value;
      }
    }

    /** `getGuesses`: on success the guess list is replaced by the server's. */
    method LoadGuesses(response: Option<seq<GuessView>>) returns (calls: seq<Request>)
      requires Valid()
      modifies this
      ensures Valid()
      ensures calls == [GetGuesses]
      ensures animeGuesses == if response.Some? then response.value else old(animeGuesses)
      ensures search == old(search) && animeTitles == old(animeTitles)
      ensures animeSearchTitles == old(animeSearchTitles) && randomAnime == old(randomAnime)
      ensures animeGuessId == old(animeGuessId) && gameEnded == old(gameEnded)
    {
      calls := [GetGuesses];
      if response.Some? {
        animeGuesses := response.value;
      }
    }

    /**
     `handleSearchChange`: the box keeps the raw text, and the suggestions
     become the first ten titles that contain it, ignoring case (none for a
     blank text). Nothing else changes.
     */
    method HandleSearchChange(value: string)
      requires Valid()
      modifies this
      ensures Valid()
      ensures search == value
      ensures animeSearchTitles == Suggestions(animeTitles, value)
      ensures Blank(value) ==> animeSearchTitles == []
      ensures animeTitles == old(animeTitles) && randomAnime == old(randomAnime)
      ensures animeGuessId == old(animeGuessId) && animeGuesses == old(animeGuesses)
      ensures gameEnded == old(gameEnded)
    {
      search := value;
      if Blank(value) {
        animeSearchTitles := [];
      } else {
        animeSearchTitles := Suggestions(animeTitles, value);
      }
    }

    /**
     `handleSuggestionClick`: the box takes the clicked title, the suggestions
     close and the clicked anime is selected. Nothing else changes.
     */
    method HandleSuggestionClick(clicked: AnimeTitle)
      requires Valid()
      modifies this
      ensures Valid()
      ensures search == clicked.title && animeSearchTitles == [] && animeGuessId == Some(clicked.animeId)
      ensures animeTitles == old(animeTitles) && randomAnime == old(randomAnime)
      ensures animeGuesses == old(animeGuesses) && gameEnded == old(gameEnded)
    {
      search := clicked.title;
      animeSearchTitles := [];
      animeGuessId := Some(clicked.animeId);
    }

    /**
     `onSubmit`: without a selection (including the id 0) nothing is sent and
     nothing changes. Otherwise the guess is posted; `reply` is the `correct`
     flag of the answer, `None` when the post throws, in which case nothing
     changes. After an answer the round is over exactly when the guess was
     correct, the box, suggestions and selection are reset, and a refresh of
     the guess list is sent (its answer arrives through `LoadGuesses`).
     */
    method OnSubmit(reply: Option<bool>) returns (calls: seq<Request>)
      requires Valid()
      modifies this
      ensures Valid()
      ensures !Selected(old(animeGuessId)) ==> calls == [] && unchanged(this)
      ensures Selected(old(animeGuessId)) && reply.None? ==>
        calls == [PostGuess(old(animeGuessId).value)] && unchanged(this)
      ensures Selected(old(animeGuessId)) && reply.Some? ==>
        calls == [PostGuess(old(animeGuessId).value), GetGuesses] &&
        gameEnded == reply.value && search == "" && animeSearchTitles == [] && animeGuessId == None &&
        animeTitles == old(animeTitles) && randomAnime == old(randomAnime) && animeGuesses == old(animeGuesses)
    {
      if !Selected(animeGuessId) {
        return [];
      }
      calls := [PostGuess(animeGuessId.value)];
      if reply.None? {
        return;
      }
      gameEnded := reply.value;
      search := "";
      animeSearchTitles := [];
      animeGuessId := None;
      calls := calls + [GetGuesses];
    }

    /**
     `handleNewGame`: clears the server's guesses and, once that succeeds, the
     page's guess list. `getRandomAnime` then stores whatever body it received
     as the answer: nothing when the request throws, no answer for an empty
     body, the anime otherwise. Only for an anime does the handler go on to
     write the new session (delete, then post), and only when both of those
     succeed is the round reopened. Any failure stops the handler there.
     The inputs are, in order, whether the guess delete succeeds, the random
     reply, and whether the session delete and post succeed.
     */
    method HandleNewGame(guessesCleared: bool, random: RandomReply, sessionDeleted: bool, sessionPosted: bool)
      returns (calls: seq<Request>)
      requires Valid()
      modifies this
      ensures Valid()
      ensures search == old(search) && animeTitles == old(animeTitles)
      ensures animeSearchTitles == old(animeSearchTitles) && animeGuessId == old(animeGuessId)
      ensures !guessesCleared ==> calls == [DeleteGuesses] && unchanged(this)
      ensures guessesCleared ==> animeGuesses == []
      ensures guessesCleared && random.RandomFailed? ==>
        calls == [DeleteGuesses, GetRandomAnime] && randomAnime == old(randomAnime) && gameEnded == old(gameEnded)
      ensures guessesCleared && random.EmptyReply? ==>
        calls == [DeleteGuesses, GetRandomAnime] && randomAnime == None && gameEnded == old(gameEnded)
      ensures guessesCleared && random.RandomAnime? ==>
        randomAnime == Some(random.details) &&
        calls == [DeleteGuesses, GetRandomAnime, DeleteSession] + (if sessionDeleted then [PostSession(random.details.malId)] else [])
      ensures guessesCleared && random.RandomAnime? ==>
        gameEnded == (if sessionDeleted && sessionPosted then false else old(gameEnded))
    {
      calls := [DeleteGuesses];
      if !guessesCleared {
        return;
      }
      animeGuesses := [];
      calls := calls + [GetRandomAnime];
      match random
      case RandomFailed =>
        return;
      case EmptyReply =>
        // `setRandomAnime(res.data)` stores the empty body, and `if (randomAnime)` fails.
        randomAnime := None;
        return;
      case RandomAnime(details) =>
        randomAnime := Some(details);
      calls := calls + [DeleteSession];
      if !sessionDeleted {
        return;
      }
      calls := calls + [PostSession(details.malId)];
      if !sessionPosted {
        return;
      }
      gameEnded := false;
    }
  }
}
