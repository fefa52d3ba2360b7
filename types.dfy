/** The values the trivia room server holds and exchanges: the game record with its
    players and questions, the commands clients send and the envelopes the room
    broadcasts. They mirror the record types at party/trivia.ts:3-25 and the message
    unions at src/types.ts:25-37. */
module TriviaTypes {

  datatype Option<T> = None | Some(value: T)

  /** The four phases of a session. */
  datatype GameState = LobbyState | QuestionState | ResultState | LeaderboardState

  /** `hasAnswered` is optional in the source: a player created by `join` has no flag
      at all (None), `start_game` and the question advance set it to false, and an
      accepted answer sets it to true. */
  datatype Player = Player(id: string, name: string, score: nat, hasAnswered: Option<bool>)

  /** A question as the host loads it; `correctAnswer` is trusted and never checked
      against `options`. */
  datatype Question = Question(id: string, text: string, options: seq<string>, correctAnswer: int)

  /** The record every `sync` envelope carries in full. */
  datatype GameData = GameData(
    state: GameState,
    players: seq<Player>,
    currentQuestionIndex: nat,
    questions: seq<Question>,
    timeLeft: nat)

  /** An inbound command, already decoded from its JSON text. `Unrecognized` stands
      for a message whose `type` matches none of the handler's branches. */
  datatype ClientMessage =
    | IdentifyHost
    | Join(name: string)
    | Answer(questionIndex: int, answerIndex: int)
    | StartGame(questions: seq<Question>)
    | NextQuestion
    | ShowResults
    | Restart
    | Unrecognized(kind: string)

  /** An outbound envelope, broadcast to every connection of the room. */
  datatype ServerMessage = Sync(data: GameData) | GameTerminated

  /** JavaScript truthiness of `player.hasAnswered`: only an explicit true counts. */
  predicate HasAnswered(p: Player)
  {
    p.hasAnswered == Some(true)
  }
}
