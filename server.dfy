/** The room server as the source writes it: one object whose fields every handler
    updates step by step. Each method is proved to leave the object in exactly the
    state the matching function of TriviaSpec gives, and to keep the invariant. */
module TriviaServer {
  import opened TriviaTypes
  import Spec = TriviaSpec
  import Props = TriviaProperties

  class Server {
    var data: GameData
    var hostId: Option<string>
    /** Whether the interval handle `timer` is set. */
    var timerActive: bool
    /** Every envelope broadcast to the room so far, oldest first. */
    var sent: seq<ServerMessage>

    function State(): Spec.ServerState
      reads this
    {
      Spec.ServerState(data, hostId, timerActive, sent)
    }

    ghost predicate Valid()
      reads this
    {
      Spec.Invariant(State())
    }

    constructor ()
      ensures State() == Spec.Initial()
      ensures Valid()
    {
      data := Spec.InitialData();
      hostId := None;
      timerActive := false;
      sent := [];
    }

    method BroadcastState()
      modifies this
      ensures State() == Spec.BroadcastState(old(State()))
    {
      sent := sent + [Sync(data)];
    }

    method ClearTimer()
      modifies this
      ensures State() == Spec.ClearTimer(old(State()))
    {
      if timerActive {
        timerActive := false;
      }
    }

    method StartTimer(duration: nat)
      modifies this
      ensures State() == Spec.StartTimer(old(State()), duration)
    {
      ClearTimer();
      data := data.(timeLeft := duration);
      timerActive := true;
    }

    /** The `forEach` that clears every player's `hasAnswered`. */
    method MarkAllUnanswered()
      modifies this
      ensures State() == old(State()).(data := old(data).(players := Spec.ResetAnswered(old(data.players))))
    {
      var i := 0;
      while i < |data.players|
        invariant i <= |data.players| == |old(data.players)|
        invariant forall k :: 0 <= k < i ==> data.players[k] == old(data.players)[k].(hasAnswered := Some(false))
        invariant forall k :: i <= k < |data.players| ==> data.players[k] == old(data.players)[k]
        invariant data == old(data).(players := data.players)
        invariant hostId == old(hostId) && timerActive == old(timerActive) && sent == old(sent)
      {
        data := data.(players := data.players[i := data.players[i].(hasAnswered := Some(false))]);
        i := i + 1;
      }
      assert data.players == Spec.ResetAnswered(old(data.players));
    }

    /** The `forEach` that sets every player's score back to 0. */
    method ZeroAllScores()
      modifies this
      ensures State() == old(State()).(data := old(data).(players := Spec.ResetScores(old(data.players))))
    {
      var i := 0;
      while i < |data.players|
        invariant i <= |data.players| == |old(data.players)|
        invariant forall k :: 0 <= k < i ==> data.players[k] == old(data.players)[k].(score := 0)
        invariant forall k :: i <= k < |data.players| ==> data.players[k] == old(data.players)[k]
        invariant data == old(data).(players := data.players)
        invariant hostId == old(hostId) && timerActive == old(timerActive) && sent == old(sent)
      {
        data := data.(players := data.players[i := data.players[i].(score := 0)]);
        i := i + 1;
      }
      assert data.players == Spec.ResetScores(old(data.players));
    }

    method OnConnect()
      modifies this
      ensures State() == Spec.OnConnect(old(State()))
      ensures old(Valid()) ==> Valid()
    {
      BroadcastState();
    }

    method OnClose(connId: string)
      modifies this
      ensures State() == Spec.OnClose(old(State()), connId)
      ensures old(Valid()) ==> Valid()
    {
      ghost var before := State();
      if hostId == Some(connId) {
        hostId := None;
        sent := sent + [GameTerminated];
        ClearTimer();
        data := Spec.InitialData();
      } else {
        data := data.(players := Spec.WithoutId(data.players, connId));
        BroadcastState();
      }
      if Spec.Invariant(before) {
        Props.OnCloseKeepsInvariant(before, connId);
      }
    }

    method NextQuestion()
      modifies this
      ensures State() == Spec.NextQuestion(old(State()))
    {
      if data.currentQuestionIndex < |data.questions| - 1 {
        data := data.(currentQuestionIndex := data.currentQuestionIndex + 1);
        data := data.(state := QuestionState);
        MarkAllUnanswered();
        StartTimer(Spec.QuestionSeconds);
      } else {
        ClearTimer();
        data := data.(state := LeaderboardState);
      }
      BroadcastState();
    }

    /** The `answer` branch of `onMessage`. */
    method OnAnswer(sender: string, answerIndex: int)
      modifies this
      ensures State() == Spec.OnAnswer(old(State()), sender, answerIndex)
    {
      var found := Spec.FindFirst(data.players, sender);
      if found.Some? && data.state == QuestionState && !HasAnswered(data.players[found.value]) {
        var k := found.value;
        ghost var p := data.players[k];
        data := data.(players := data.players[k := data.players[k].(hasAnswered := Some(true))]);
        if Spec.IsCorrect(data, answerIndex) {
          data := data.(players := data.players[k := data.players[k].(score := data.players[k].score + Spec.PointsPerCorrectAnswer)]);
        }
        assert data.players == old(data.players)[k := p.(hasAnswered := Some(true), score := data.players[k].score)];
        if Spec.AllAnswered(data.players) {
          ClearTimer();
          data := data.(state := ResultState);
          StartTimer(Spec.ResultSeconds);
          BroadcastState();
        } else {
          BroadcastState();
        }
      }
    }

    method OnMessage(sender: string, msg: ClientMessage)
      modifies this
      ensures State() == Spec.OnMessage(old(State()), sender, msg)
      ensures old(Valid()) ==> Valid()
    {
      ghost var before := State();
      match msg {
        case IdentifyHost =>
          hostId := Some(sender);
        case Join(name) =>
          data := data.(players := data.players + [Player(sender, name, 0, None)]);
          BroadcastState();
        case StartGame(questions) =>
          data := data.(questions := questions);
          data := data.(state := QuestionState);
          data := data.(currentQuestionIndex := 0);
          MarkAllUnanswered();
          StartTimer(Spec.QuestionSeconds);
          BroadcastState();
        case Answer(_, answerIndex) =>
          OnAnswer(sender, answerIndex);
        case NextQuestion =>
          NextQuestion();
        case ShowResults =>
          ClearTimer();
          data := data.(state := ResultState);
          StartTimer(Spec.ResultSeconds);
          BroadcastState();
        case Restart =>
          ClearTimer();
          data := data.(state := LobbyState);
          data := data.(currentQuestionIndex := 0);
          data := data.(questions := []);
          ZeroAllScores();
          BroadcastState();
        case Unrecognized(_) =>
      }
      if Spec.Invariant(before) {
        Props.OnMessageKeepsInvariant(before, sender, msg);
      }
    }

    /** One firing of the interval body that `startTimer` schedules every second. */
    method Tick()
      modifies this
      ensures State() == Spec.Tick(old(State()))
      ensures old(Valid()) ==> Valid()
    {
      ghost var before := State();
      if data.timeLeft > 0 {
        data := data.(timeLeft := data.timeLeft - 1);
        BroadcastState();
      } else {
        ClearTimer();
        if data.state == QuestionState {
          data := data.(state := ResultState);
          StartTimer(Spec.ResultSeconds);
          BroadcastState();
        } else if data.state == ResultState {
          NextQuestion();
        }
      }
      if Spec.Invariant(before) {
        Props.TickKeepsInvariant(before);
      }
    }
  }
}
