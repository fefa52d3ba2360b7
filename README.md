# Trivia room server, modelled in Dafny

This project models the authoritative per-room server of a multiplayer trivia game
(class `Server` in `party/trivia.ts`). One server object per room holds the game
record `data` (phase, players, questions, current question index, seconds left), the
id of the host connection and the handle of a one-second interval timer. The server
reacts to four things, one at a time: a connection opening, a connection closing, a
decoded client command, and a firing of the interval. After most changes it
broadcasts the whole record to the room as a `sync` envelope.

The model has four modules:

- `TriviaTypes` (`types.dfy`) holds the record, player, question, command and
  envelope types. `hasAnswered` is an `Option<bool>`, because a player created by
  `join` has no flag at all until a question starts.
- `TriviaSpec` (`spec.dfy`) is a functional model. `ServerState` holds the whole
  object plus the log of broadcast envelopes. Each handler and helper has a function
  giving the state after it runs. `Step`/`Run` apply a queue of events in arrival
  order. `Invariant` is what every reachable state keeps.
- `TriviaServer` (`server.dfy`) holds the class `Server`, written the way the source
  is: fields updated step by step, and `while` loops for the `forEach` resets. Every
  method's postcondition says that the new state is exactly the matching
  `TriviaSpec` function of the old state. Every handler also keeps `Valid()`.
- `TriviaProperties` (`properties.dfy`) holds the lemmas: what each command does,
  duplicate-answer suppression, scoring, the early move to the result, the question
  advance versus the leaderboard, the timer, disconnects, the invariant over every
  run, and a whole two-question game.

The model follows the code as written, including the places where it is more
permissive than a reader of the game would expect:

- No command checks that its sender is the host. `hostId` is read only when a
  connection closes.
- `join`, `start_game` and `show_results` act in every phase.
- `join` appends a player even if that connection already has one. `answer` then
  affects only the first such entry.
- `answer` ignores its `questionIndex` field. It always scores against the current
  question.
- `onConnect` broadcasts to the whole room, not only to the new connection.
- `restart` leaves `timeLeft` and the `hasAnswered` flags as they were.
- A player who leaves during a question and then rejoins under the same connection id gets a fresh entry with no flag. Its `answer` is then accepted and scored again on the same question.
- When a player who had not answered leaves, the room does not re-check whether
  everyone left has answered. It waits for the timer.

## Model

| member | source | states |
|---|---|---|
| `TriviaServer.Server.constructor` | party/trivia.ts:30-38 | a new room is in the lobby with no players, no questions, index 0, `timeLeft` 0, no host, no timer and nothing sent; this state satisfies the invariant |
| `TriviaServer.Server.OnConnect` | party/trivia.ts:40-43 | a connection changes nothing but appends one full `sync` to the log |
| `TriviaServer.Server.OnClose` | party/trivia.ts:45-62 | the new state is exactly `TriviaSpec.OnClose` of the old one: the host leaving clears the host id, sends `game_terminated`, stops the timer and resets the record to the constructor's value; anyone else leaving is filtered out of the players (`TriviaSpec.WithoutId`) and a `sync` follows; the invariant is kept |
| `TriviaServer.Server.OnMessage` | party/trivia.ts:66-116 | the new state is exactly `TriviaSpec.OnMessage` of the old one, the dispatch over the seven command kinds, where an unknown type changes nothing; the invariant is kept |
| `TriviaServer.Server.OnAnswer` | party/trivia.ts:82-100 | the `answer` branch computes exactly `TriviaSpec.OnAnswer`: the first matching player (`TriviaSpec.FindFirst`), the phase and flag guard, +100 when `TriviaSpec.IsCorrect` holds, and the move to the result when `TriviaSpec.AllAnswered` holds |
| `TriviaServer.Server.NextQuestion` | party/trivia.ts:120-131 | the new state is exactly `TriviaSpec.NextQuestion` of the old one, the question advance |
| `TriviaServer.Server.Tick` | party/trivia.ts:136-150 | one firing of the interval body gives exactly `TriviaSpec.Tick` of the old state; the invariant is kept |
| `TriviaServer.Server.StartTimer` | party/trivia.ts:133-135 | the old interval is cleared, `timeLeft` becomes the duration and a new interval is set |
| `TriviaServer.Server.ClearTimer` | party/trivia.ts:153-158 | afterwards no interval is set and nothing else changes |
| `TriviaServer.Server.BroadcastState` | party/trivia.ts:160-162 | exactly one `sync` carrying the current record is appended to the log |
| `TriviaServer.Server.MarkAllUnanswered` | party/trivia.ts:79 | the loop leaves the players equal to `TriviaSpec.ResetAnswered` of the old ones (every `hasAnswered` false, in place) and changes nothing else |
| `TriviaServer.Server.ZeroAllScores` | party/trivia.ts:113 | the loop leaves the players equal to `TriviaSpec.ResetScores` of the old ones (every score 0, in place) and changes nothing else |
| `TriviaSpec.FindFirst` | party/trivia.ts:83 | `find` returns the index of the first player with the id, or none exactly when no player has it |
| `TriviaSpec.WithoutId` | party/trivia.ts:59 | `filter` keeps exactly the players whose id differs; the result is shorter by the number of players with that id, and equal to the input when there are none; order and repeated entries are pinned by `TriviaProperties.WithoutIdAppend` |
| `TriviaProperties.WithoutIdKeepsFirstMatch` | party/trivia.ts:59 | for every other id, `find` succeeds after the filter exactly when it did before and picks the same player |
| `TriviaProperties.WithoutIdOne` | party/trivia.ts:59 | `filter` on a single player keeps it exactly when its id differs |
| `TriviaProperties.WithoutIdAppend` | party/trivia.ts:59 | `filter` of a concatenation is the concatenation of the filters; with `WithoutIdOne` this fixes the result completely, so the survivors keep their order and identical entries survive as often as they occur |
| `TriviaProperties.FindFirstAfterAppend` | party/trivia.ts:73 | `push` never changes which entry `find` picks for an id already present |
| `TriviaProperties.FindFirstSameIds` | party/trivia.ts:83 | rewriting scores and flags never changes which entry `find` picks |
| `TriviaProperties.AnswerIgnoredUnlessAccepted` | party/trivia.ts:83-84 | an answer from an unknown sender, outside the `question` phase, or from a player already marked answered changes nothing, not even the log |
| `TriviaProperties.AnswerEffect` | party/trivia.ts:84-99 | an accepted answer marks only the first matching player answered and adds exactly 100 when the answer index equals the current question's correct answer, 0 otherwise; every other player is unchanged; if all players have now answered the phase is `result` with `timeLeft` 5 and a timer set, otherwise it stays `question` with the timer untouched |
| `TriviaProperties.SecondAnswerIsNoOp` | party/trivia.ts:83-89 | a second answer from the same connection right after the first changes nothing |
| `TriviaProperties.AnsweredStaysAnswered` | party/trivia.ts:40-150 | once the sender's first entry has answered the current question, every event except `start_game` and `next_question`, from any connection, leaves that entry answered, unless the room has left the question or the sender's entries are gone |
| `TriviaProperties.AnsweredStaysAnsweredThroughRun` | party/trivia.ts:83-89 | through any run without `start_game` or `next_question` during which the room stays on the question with the sender present, the sender's entry stays answered and every later `answer` from it changes nothing, so nobody scores twice on one question while the sender stays in the room |
| `TriviaProperties.StartGameEffect` | party/trivia.ts:75-81 | `start_game` from any sender in any phase replaces the questions, sets `question`, index 0, `timeLeft` 30 and a timer, and clears every `hasAnswered`; ids, names and scores are kept |
| `TriviaProperties.StartGameTwiceSameRecord` | party/trivia.ts:76 | a repeated `start_game` with the same list gives the same record: questions are replaced, never appended |
| `TriviaProperties.RestartEffect` | party/trivia.ts:108-114 | `restart` gives the lobby with no questions, index 0 and no timer; every score is 0; the players keep their order, ids, names and flags; `timeLeft` is unchanged |
| `TriviaProperties.HostIdentificationOnly` | party/trivia.ts:69-70 | `identify_host` only records the sender as host and broadcasts nothing; an unknown command type changes nothing |
| `TriviaProperties.ShowResultsEffect` | party/trivia.ts:103-107 | `show_results` in any phase gives `result` with `timeLeft` 5 and a timer, and nothing else changes |
| `TriviaProperties.ConnectOnlyBroadcasts` | party/trivia.ts:40-43 | a connection only appends a `sync` of the current record |
| `TriviaProperties.JoinAppendsWithoutDeduplication` | party/trivia.ts:71-74 | two `join` commands from one connection append two players with that id, each with score 0 and no flag |
| `TriviaProperties.JoinsAppendPlayers` | party/trivia.ts:71-74 | any series of `join` commands appends one fresh player per command, in order, and changes nothing else in the record |
| `TriviaProperties.DistinctJoinsGiveOnePlayerEach` | party/trivia.ts:71-74 | in a fresh room, joins from distinct connections leave exactly one player per connection, with score 0 and no `hasAnswered` flag |
| `TriviaProperties.NextQuestionCases` | party/trivia.ts:120-131 | while a later question exists, the index rises by exactly 1, the phase is `question`, every flag is false and `timeLeft` is 30 with a timer; otherwise the timer stops and the phase is `leaderboard` with the index and everything else unchanged |
| `TriviaProperties.LeaderboardIsFinal` | party/trivia.ts:121-128 | from the leaderboard of a reachable room, `next_question` never re-enters a question |
| `TriviaProperties.TickCases` | party/trivia.ts:136-150 | with time left a tick decrements `timeLeft` by exactly 1 and changes nothing else; at 0 in `question` it gives `result` with 5 seconds; at 0 in `result` it is the question advance; at 0 in the lobby or leaderboard it only clears the timer |
| `TriviaProperties.TimerFiresOnlyWhileTiming` | party/trivia.ts:133-158 | in a reachable room a live interval only fires in `question` or `result`, so the lobby/leaderboard case of a tick never happens |
| `TriviaProperties.CountDown` | party/trivia.ts:137-139 | `n` firings with at least `n` seconds left lower `timeLeft` by exactly `n` and change nothing else in the record |
| `TriviaProperties.HostCloseResets` | party/trivia.ts:46-57 | the host leaving gives exactly the constructor's record, no host, no timer, and one `game_terminated` in the log |
| `TriviaProperties.PlayerCloseRemovesOnlyThatPlayer` | party/trivia.ts:58-60 | anyone else leaving removes exactly the players with that id, leaving `TriviaSpec.WithoutId` of the old list, whose order `TriviaProperties.WithoutIdAppend` pins; for every other id, `find` picks the same player as before; phase, index, questions, `timeLeft`, host and timer are unchanged |
| `TriviaProperties.ScoresNeverDropExceptOnRestart` | party/trivia.ts:66-116 | no command but `restart` lowers a score, removes a player or reorders the players |
| `TriviaProperties.NextQuestionKeepsInvariant` | party/trivia.ts:120-131 | the question advance never moves the index past the last question and only shows the leaderboard when no later question exists |
| `TriviaProperties.OnMessageKeepsInvariant` | party/trivia.ts:66-116 | every command keeps the index within the questions, the leaderboard at the end only, and the timer only in `question` or `result` |
| `TriviaProperties.OnCloseKeepsInvariant` | party/trivia.ts:45-62 | both close paths keep the invariant |
| `TriviaProperties.TickKeepsInvariant` | party/trivia.ts:136-150 | every tick keeps the invariant |
| `TriviaProperties.RunKeepsInvariant` | party/trivia.ts:27-163 | any sequence of connects, closes, commands and timer firings keeps the invariant |
| `TriviaProperties.ReachableRoomsKeepInvariant` | party/trivia.ts:30-38 | every room reached from the constructor's state by any sequence of events satisfies the invariant |
| `TriviaProperties.SetupStartsFirstQuestion` | party/trivia.ts:69-81 | host identification, two joins and `start_game` with two questions give the first question, both players on 0 with flags false, 30 seconds and a timer |
| `TriviaProperties.BothAnswersShowResultAtOnce` | party/trivia.ts:82-99 | a correct answer from A and a wrong one from B give A 100 and B 0, and the result shows at once with 5 seconds |
| `TriviaProperties.SecondQuestionTimesOut` | party/trivia.ts:136-145 | with nobody answering, 31 firings move the second question to its result with 5 seconds |
| `TriviaProperties.LastResultGoesToLeaderboard` | party/trivia.ts:146-148 | 6 more firings after the last question's result give the leaderboard with the scores unchanged and no timer |
| `TriviaProperties.TwoQuestionGame` | party/trivia.ts:66-150 | a whole two-question game, end to end, passes through the result, the second question, its timeout, and the leaderboard with A on 100 and B on 0 |

## Left out

- Transport: `room.broadcast` becomes an append to the `sent` log. Which connections receive an envelope, and delivery failures, are not modelled.
- JSON: `JSON.parse` and `JSON.stringify` (party/trivia.ts:67, 161) are not modelled. Commands arrive already decoded as `ClientMessage`. A message that fails to parse, or that lacks a field, is outside the model.
- Wall-clock time: `setInterval` and its 1000 ms period are not modelled. The interval handle is the flag `timerActive`, and one firing is `Tick`. In `Run`, a firing while no interval is set changes nothing, because a cleared interval never fires. Concurrency between rooms is not modelled.
- JavaScript numbers: scores, indices and `answerIndex` are unbounded integers. Fractional or non-numeric JSON values, and the loss of precision of doubles, are not modelled.
- The leaderboard's sort by score (src/games/trivia/host.tsx:187) is display code in the host page, not server behaviour. The final lemma therefore states the scores in join order.
- The React pages, routing, sign-in gating, the question editor, the game registry and `party/main.ts` are not part of this model.
