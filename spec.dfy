/** A functional model of the room server: the whole state of one `Server` object as a
    value, and one function per handler giving the state after it runs. The broadcasts
    a handler makes are recorded by appending them to `sent`. The imperative class in
    TriviaServer is proved to compute exactly these functions. */
module TriviaSpec {
  import opened TriviaTypes

  /** `data`, `hostId` and the interval handle (`timerActive` says whether it is set)
      of one room, plus every envelope the room has broadcast so far. */
  datatype ServerState = ServerState(
    data: GameData,
    hostId: Option<string>,
    timerActive: bool,
    sent: seq<ServerMessage>)

  const QuestionSeconds: nat := 30
  const ResultSeconds: nat := 5
  const PointsPerCorrectAnswer: nat := 100

  function InitialData(): GameData
  {
    GameData(LobbyState, [], 0, [], 0)
  }

  function Initial(): ServerState
  {
    ServerState(InitialData(), None, false, [])
  }

  // ---------------------------------------------------------------------------
  // Helpers of the class: broadcastState, clearTimer, startTimer

  function BroadcastState(s: ServerState): ServerState
  {
    s.(sent := s.sent + [Sync(s.data)])
  }

  function ClearTimer(s: ServerState): ServerState
  {
    s.(timerActive := false)
  }

  function StartTimer(s: ServerState, duration: nat): ServerState
  {
    var c := ClearTimer(s);
    c.(data := c.data.(timeLeft := duration), timerActive := true)
  }

  // ---------------------------------------------------------------------------
  // The array operations the handlers use

  /** `players.forEach(p => p.hasAnswered = false)` */
  function ResetAnswered(ps: seq<Player>): seq<Player>
  {
    seq(|ps|, k requires 0 <= k < |ps| => ps[k].(hasAnswered := Some(false)))
  }

  /** `players.forEach(p => p.score = 0)` */
  function ResetScores(ps: seq<Player>): seq<Player>
  {
    seq(|ps|, k requires 0 <= k < |ps| => ps[k].(score := 0))
  }

  /** `players.find(p => p.id === id)`, as the index of the first match. */
  function FindFirst(ps: seq<Player>, id: string): (r: Option<nat>)
    ensures r.Some? ==> r.value < |ps| && ps[r.value].id == id
    ensures r.Some? ==> forall j :: 0 <= j < r.value ==> ps[j].id != id
    ensures r.None? ==> forall j :: 0 <= j < |ps| ==> ps[j].id != id
  {
    if ps == [] then None
    else if ps[0].id == id then Some(0)
    else match FindFirst(ps[1..], id)
      case None => None
      case Some(k) => Some(k + 1)
  }

  /** `players.every(p => p.hasAnswered)`; true of an empty list. */
  predicate AllAnswered(ps: seq<Player>)
  {
    forall k :: 0 <= k < |ps| ==> HasAnswered(ps[k])
  }

  /** How many players carry the given id. */
  function CountId(ps: seq<Player>, id: string): nat
  {
    if ps == [] then 0 else (if ps[0].id == id then 1 else 0) + CountId(ps[1..], id)
  }

  /** `players.filter(p => p.id !== id)`: drops exactly the players with that id. */
  function WithoutId(ps: seq<Player>, id: string): (r: seq<Player>)
    ensures forall p :: p in r <==> p in ps && p.id != id
    ensures |r| + CountId(ps, id) == |ps|
    ensures CountId(ps, id) == 0 ==> r == ps
  {
    if ps == [] then []
    else if ps[0].id == id then WithoutId(ps[1..], id)
    else [ps[0]] + WithoutId(ps[1..], id)
  }

  // ---------------------------------------------------------------------------
  // Handlers

  /** `onConnect`: a full sync to the whole room. */
  function OnConnect(s: ServerState): ServerState
  {
    BroadcastState(s)
  }

  /** `onClose`: the host leaving terminates and resets the session; anyone else
      leaving is dropped from the player list. */
  function OnClose(s: ServerState, connId: string): ServerState
  {
    if s.hostId == Some(connId) then
      ClearTimer(s.(hostId := None, sent := s.sent + [GameTerminated])).(data := InitialData())
    else
      BroadcastState(s.(data := s.data.(players := WithoutId(s.data.players, connId))))
  }

  /** Whether `answerIndex` matches the current question; false when there is no
      question at the current index. */
  predicate IsCorrect(d: GameData, answerIndex: int)
  {
    d.currentQuestionIndex < |d.questions|
    && answerIndex == d.questions[d.currentQuestionIndex].correctAnswer
  }

  /** Whether `answer` from `sender` gets past its guard: the sender has a player
      entry, the phase is `question`, and the first such entry has not answered. */
  predicate AnswerAccepted(s: ServerState, sender: string)
  {
    var found := FindFirst(s.data.players, sender);
    found.Some? && s.data.state == QuestionState && !HasAnswered(s.data.players[found.value])
  }

  /** The `answer` branch of `onMessage`. */
  function OnAnswer(s: ServerState, sender: string, answerIndex: int): ServerState
  {
    match FindFirst(s.data.players, sender)
    case None => s
    case Some(k) =>
      if s.data.state != QuestionState || HasAnswered(s.data.players[k]) then s
      else
        var p := s.data.players[k];
        var gain := if IsCorrect(s.data, answerIndex) then PointsPerCorrectAnswer else 0;
        var marked := s.(data := s.data.(players := s.data.players[k := p.(hasAnswered := Some(true), score := p.score + gain)]));
        if AllAnswered(marked.data.players) then
          var c := ClearTimer(marked);
          BroadcastState(StartTimer(c.(data := c.data.(state := ResultState)), ResultSeconds))
        else
          BroadcastState(marked)
  }

  /** `nextQuestion`: advance while a later question exists, else the leaderboard. */
  function NextQuestion(s: ServerState): ServerState
  {
    if s.data.currentQuestionIndex < |s.data.questions| - 1 then
      var d := s.data.(currentQuestionIndex := s.data.currentQuestionIndex + 1,
                       state := QuestionState,
                       players := ResetAnswered(s.data.players));
      BroadcastState(StartTimer(s.(data := d), QuestionSeconds))
    else
      var c := ClearTimer(s);
      BroadcastState(c.(data := c.data.(state := LeaderboardState)))
  }

  /** `onMessage`, dispatching on the command's type. No branch looks at who sent a
      control command or at the current phase, except `answer`. */
  function OnMessage(s: ServerState, sender: string, msg: ClientMessage): ServerState
  {
    match msg
    case IdentifyHost => s.(hostId := Some(sender))
    case Join(name) =>
      BroadcastState(s.(data := s.data.(players := s.data.players + [Player(sender, name, 0, None)])))
    case StartGame(questions) =>
      var d := s.data.(questions := questions,
                       state := QuestionState,
                       currentQuestionIndex := 0,
                       players := ResetAnswered(s.data.players));
      BroadcastState(StartTimer(s.(data := d), QuestionSeconds))
    case Answer(_, answerIndex) => OnAnswer(s, sender, answerIndex)
    case NextQuestion => NextQuestion(s)
    case ShowResults =>
      var c := ClearTimer(s);
      BroadcastState(StartTimer(c.(data := c.data.(state := ResultState)), ResultSeconds))
    case Restart =>
      var c := ClearTimer(s);
      BroadcastState(c.(data := c.data.(state := LobbyState,
                                        currentQuestionIndex := 0,
                                        questions := [],
                                        players := ResetScores(c.data.players))))
    case Unrecognized(_) => s
  }

  /** One firing of the one-second interval set by `startTimer`. */
  function Tick(s: ServerState): ServerState
  {
    if s.data.timeLeft > 0 then
      BroadcastState(s.(data := s.data.(timeLeft := s.data.timeLeft - 1)))
    else
      var c := ClearTimer(s);
      if c.data.state == QuestionState then
        BroadcastState(StartTimer(c.(data := c.data.(state := ResultState)), ResultSeconds))
      else if c.data.state == ResultState then
        NextQuestion(c)
      else
        c
  }

  // ---------------------------------------------------------------------------
  // The room as a sequential event queue

  /** What reaches one room, in arrival order. */
  datatype Event =
    | Connect
    | Close(connId: string)
    | Message(sender: string, msg: ClientMessage)
    | TimerFired

  /** Apply one event. An interval that has been cleared never fires, so a timer
      event while no interval is set changes nothing. */
  function Step(s: ServerState, e: Event): ServerState
  {
    match e
    case Connect => OnConnect(s)
    case Close(connId) => OnClose(s, connId)
    case Message(sender, msg) => OnMessage(s, sender, msg)
    case TimerFired => if s.timerActive then Tick(s) else s
  }

  function Run(s: ServerState, events: seq<Event>): ServerState
    decreases |events|
  {
    if events == [] then s else Run(Step(s, events[0]), events[1..])
  }

  // ---------------------------------------------------------------------------
  // The invariant every reachable state keeps

  /** The index never points past the last question (and is 0 when there are none). */
  ghost predicate IndexInRange(d: GameData)
  {
    if |d.questions| == 0 then d.currentQuestionIndex == 0
    else d.currentQuestionIndex < |d.questions|
  }

  /** An interval is only ever set while a question or its result is on screen. */
  ghost predicate TimerOnlyWhileTiming(s: ServerState)
  {
    s.timerActive ==> s.data.state == QuestionState || s.data.state == ResultState
  }

  /** The leaderboard is only ever shown once no later question exists. */
  ghost predicate LeaderboardOnlyAtEnd(d: GameData)
  {
    d.state == LeaderboardState ==> d.currentQuestionIndex + 1 >= |d.questions|
  }

  ghost predicate Invariant(s: ServerState)
  {
    IndexInRange(s.data) && LeaderboardOnlyAtEnd(s.data) && TimerOnlyWhileTiming(s)
  }
}
