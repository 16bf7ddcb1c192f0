/**
 The HTTP surface shared by the server handlers and the client page:
 anime ids, the JSON bodies the handlers send back, and the requests
 the page issues.
 */
module Api {

  datatype Option<+T> = None | Some(value: T)

  /** A MyAnimeList id (`mal_id`), as stored in `game_session.anime_id` and `guesses.anime_id`. */
  type AnimeId = int

  /** One element of the guess list as the page receives it: the stored id and correctness flag. */
  datatype GuessView = GuessView(animeId: AnimeId, correct: bool)

  /** What a handler writes into the response. */
  datatype Payload =
    | Message(message: string)                      // `{ message }`
    | GuessOutcome(message: string, correct: bool)  // `{ message, correct }`
    | GuessList(guesses: seq<GuessView>)            // array of guesses
    | SessionId(animeId: AnimeId)                   // `{ animeId }`
    | NoBody                                        // `json(undefined)`: an empty body
    | Text(text: string)                            // `send(text)` on the error path

  datatype Response = Response(status: int, payload: Payload)

  /** The `catch` branch of every handler: status 500 and that handler's fixed text. */
  function ServerError(text: string): Response
  {
    Response(500, Text(text))
  }

  /** The requests the page sends, in the order it sends them. */
  datatype Request =
    | GetAnimeTitles
    | GetGuesses
    | PostGuess(guessed: AnimeId)
    | DeleteGuesses
    | GetRandomAnime
    | DeleteSession
    | PostSession(answer: AnimeId)
}
