/** What the room server guarantees, stated and proved about the functional model in
    TriviaSpec (and so, through the class's postconditions, about TriviaServer). */
module TriviaProperties {
  import opened TriviaTypes
  import opened TriviaSpec

  // ---------------------------------------------------------------------------
  // Helpers about the player list

  /** `find` depends only on the ids, so rewriting other fields keeps its answer
      (it follows from the contract of FindFirst, which pins the first match). */
  lemma FindFirstSameIds(ps: seq<Player>, qs: seq<Player>, id: string)
    requires |ps| == |qs|
    requires forall k :: 0 <= k < |ps| ==> ps[k].id == qs[k].id
    ensures FindFirst(ps, id) == FindFirst(qs, id)
  {
  }

  /** `filter` keeps the survivors in their order: for any other id, `find` after the
      filter succeeds exactly when it did before, and picks the same player. */
  lemma {:induction false} WithoutIdKeepsFirstMatch(ps: seq<Player>, id: string, other: string)
    requires other != id
    ensures var r := WithoutId(ps, id);
            && FindFirst(r, other).Some? == FindFirst(ps, other).Some?
            && (FindFirst(ps, other).Some? ==>
                  r[FindFirst(r, other).value] == ps[FindFirst(ps, other).value])
    decreases |ps|
  {
    if ps != [] && ps[0].id != other {
      var tail := WithoutId(ps[1..], id);
      WithoutIdKeepsFirstMatch(ps[1..], id, other);
      var before := FindFirst(ps[1..], other);
      var after := FindFirst(tail, other);
      assert FindFirst(ps, other) == if before.None? then None else Some(before.value + 1);
      if ps[0].id == id {
        assert WithoutId(ps, id) == tail;
      } else {
        var r := [ps[0]] + tail;
        assert WithoutId(ps, id) == r;
        assert r[1..] == tail;
        assert FindFirst(r, other) == if after.None? then None else Some(after.value + 1);
      }
    }
  }

  /** `filter` on one player keeps it exactly when its id differs. */
  lemma WithoutIdOne(p: Player, id: string)
    ensures WithoutId([p], id) == if p.id == id then [] else [p]
  {
    assert [p][1..] == [];
  }

  /** `filter` distributes over concatenation. With WithoutIdOne this pins the result
      entirely: the survivors keep their order, and identical entries survive as
      often as they occur. */
  lemma {:induction false} WithoutIdAppend(a: seq<Player>, b: seq<Player>, id: string)
    ensures WithoutId(a + b, id) == WithoutId(a, id) + WithoutId(b, id)
    decreases |a|
  {
    if a == [] {
      assert a + b == b;
    } else {
      assert (a + b)[1..] == a[1..] + b;
      WithoutIdAppend(a[1..], b, id);
    }
  }

  /** Appending players never changes which entry `find` picks for an id already
      present. */
  lemma FindFirstAfterAppend(ps: seq<Player>, qs: seq<Player>, id: string)
    requires FindFirst(ps, id).Some?
    ensures FindFirst(ps + qs, id) == FindFirst(ps, id)
  {
    var k := FindFirst(ps, id).value;
    assert (ps + qs)[k] == ps[k];
  }

  // ---------------------------------------------------------------------------
  // answer

  /** An `answer` that fails its guard (unknown sender, wrong phase, or already
      answered) changes nothing at all, not even the broadcast log. */
  lemma AnswerIgnoredUnlessAccepted(s: ServerState, sender: string, questionIndex: int, answerIndex: int)
    requires !AnswerAccepted(s, sender)
    ensures OnMessage(s, sender, Answer(questionIndex, answerIndex)) == s
  {
  }

  /** An accepted `answer` changes only the sender's first player entry: it is marked
      answered and gains exactly 100 points when the answer is correct, 0 otherwise.
      If everyone has now answered the room moves to `result` with a fresh 5-second
      timer; otherwise it stays in `question` and the running timer is untouched. */
  lemma AnswerEffect(s: ServerState, sender: string, questionIndex: int, answerIndex: int)
    requires AnswerAccepted(s, sender)
    ensures var k := FindFirst(s.data.players, sender).value;
            var p := s.data.players[k];
            var r := OnMessage(s, sender, Answer(questionIndex, answerIndex));
            && |r.data.players| == |s.data.players|
            && r.data.players[k].id == p.id && r.data.players[k].name == p.name
            && HasAnswered(r.data.players[k])
            && (IsCorrect(s.data, answerIndex) ==> r.data.players[k].score == p.score + 100)
            && (!IsCorrect(s.data, answerIndex) ==> r.data.players[k].score == p.score)
            && (forall j :: 0 <= j < |s.data.players| && j != k ==> r.data.players[j] == s.data.players[j])
            && r.data.questions == s.data.questions
            && r.data.currentQuestionIndex == s.data.currentQuestionIndex
            && r.hostId == s.hostId
            && r.sent == s.sent + [Sync(r.data)]
            && (AllAnswered(r.data.players) ==>
                  r.data.state == ResultState && r.data.timeLeft == 5 && r.timerActive)
            && (!AllAnswered(r.data.players) ==>
                  r.data.state == QuestionState && r.data.timeLeft == s.data.timeLeft
                  && r.timerActive == s.timerActive)
  {
  }

  /** A player cannot score twice on one question: a second `answer` from the same
      connection right after the first changes nothing. */
  lemma SecondAnswerIsNoOp(s: ServerState, sender: string, q1: int, a1: int, q2: int, a2: int)
    ensures var once := OnMessage(s, sender, Answer(q1, a1));
            OnMessage(once, sender, Answer(q2, a2)) == once
  {
    var once := OnMessage(s, sender, Answer(q1, a1));
    if AnswerAccepted(s, sender) {
      AnswerEffect(s, sender, q1, a1);
      FindFirstSameIds(s.data.players, once.data.players, sender);
      assert !AnswerAccepted(once, sender);
    }
    AnswerIgnoredUnlessAccepted(once, sender, q2, a2);
  }

  /** The room shows a question and the sender's first player entry has answered it. */
  predicate AlreadyAnswered(s: ServerState, sender: string)
  {
    var found := FindFirst(s.data.players, sender);
    s.data.state == QuestionState && found.Some? && HasAnswered(s.data.players[found.value])
  }

  /** The only events that clear the `hasAnswered` flags: `start_game` and
      `next_question`. */
  predicate ClearsFlags(e: Event)
  {
    e.Message? && (e.msg.StartGame? || e.msg.NextQuestion?)
  }

  /** The room shows a question and the sender still has a player entry. */
  predicate OnQuestionWith(s: ServerState, sender: string)
  {
    s.data.state == QuestionState && FindFirst(s.data.players, sender).Some?
  }

  /** Once the sender's first entry has answered, no event but `start_game` and
      `next_question` clears that flag: after any other event, from any connection,
      the entry has still answered, or the room has left the question, or the
      sender's entries are gone. */
  lemma AnsweredStaysAnswered(s: ServerState, sender: string, e: Event)
    requires AlreadyAnswered(s, sender)
    requires !ClearsFlags(e)
    ensures var r := Step(s, e);
            AlreadyAnswered(r, sender) || !OnQuestionWith(r, sender)
  {
    var ps := s.data.players;
    match e {
      case Connect =>
      case Close(connId) =>
        if s.hostId != Some(connId) && connId != sender {
          WithoutIdKeepsFirstMatch(ps, connId, sender);
        }
      case Message(from, msg) =>
        match msg {
          case Join(name) =>
            FindFirstAfterAppend(ps, [Player(from, name, 0, None)], sender);
          case Answer(q, a) =>
            if AnswerAccepted(s, from) {
              AnswerEffect(s, from, q, a);
              FindFirstSameIds(ps, Step(s, e).data.players, sender);
            } else {
              AnswerIgnoredUnlessAccepted(s, from, q, a);
            }
          case _ =>
        }
      case TimerFired =>
    }
  }

  /** The run-long form: through any events without `start_game` or `next_question`
      during which the room stays on a question with the sender present, the sender's
      first entry stays answered, so every further `answer` from that connection is
      ignored and nobody scores twice on one question. */
  lemma {:induction false} AnsweredStaysAnsweredThroughRun(s: ServerState, sender: string, events: seq<Event>)
    requires AlreadyAnswered(s, sender)
    requires forall i :: 0 <= i < |events| ==> !ClearsFlags(events[i])
    requires forall i :: 0 <= i <= |events| ==> OnQuestionWith(Run(s, events[..i]), sender)
    ensures AlreadyAnswered(Run(s, events), sender)
    ensures forall q, a :: OnMessage(Run(s, events), sender, Answer(q, a)) == Run(s, events)
    decreases |events|
  {
    if events != [] {
      var n := |events| - 1;
      forall i | 0 <= i <= n
        ensures events[..n][..i] == events[..i]
      {
      }
      AnsweredStaysAnsweredThroughRun(s, sender, events[..n]);
      var before := Run(s, events[..n]);
      assert events[..n] + [events[n]] == events;
      RunAppend(s, events[..n], [events[n]]);
      RunOne(before, events[n]);
      AnsweredStaysAnswered(before, sender, events[n]);
      assert events[..|events|] == events;
    } else {
      assert events[..0] == events;
    }
    forall q, a
      ensures OnMessage(Run(s, events), sender, Answer(q, a)) == Run(s, events)
    {
      AnswerIgnoredUnlessAccepted(Run(s, events), sender, q, a);
    }
  }

  // ---------------------------------------------------------------------------
  // start_game, restart, join

  /** `start_game` replaces the questions, restarts at index 0 in `question` with a
      30-second timer and clears every `hasAnswered`; who is playing, under which
      name and with which score is untouched. No guard: this holds in every phase
      and for every sender. */
  lemma StartGameEffect(s: ServerState, sender: string, questions: seq<Question>)
    ensures var r := OnMessage(s, sender, StartGame(questions));
            && r.data.questions == questions
            && r.data.state == QuestionState
            && r.data.currentQuestionIndex == 0
            && r.data.timeLeft == 30 && r.timerActive
            && r.hostId == s.hostId
            && r.sent == s.sent + [Sync(r.data)]
            && |r.data.players| == |s.data.players|
            && forall k :: 0 <= k < |s.data.players| ==>
                 && r.data.players[k].id == s.data.players[k].id
                 && r.data.players[k].name == s.data.players[k].name
                 && r.data.players[k].score == s.data.players[k].score
                 && r.data.players[k].hasAnswered == Some(false)
  {
  }

  /** Sending `start_game` twice with the same list leaves the same game record as
      sending it once: the questions are replaced, never appended. */
  lemma StartGameTwiceSameRecord(s: ServerState, sender1: string, sender2: string, questions: seq<Question>)
    ensures var once := OnMessage(s, sender1, StartGame(questions));
            OnMessage(once, sender2, StartGame(questions)).data == once.data
  {
    var once := OnMessage(s, sender1, StartGame(questions));
    var twice := OnMessage(once, sender2, StartGame(questions));
    assert twice.data.players == once.data.players;
  }

  /** `restart` returns to the lobby with no questions, index 0, no timer and every
      score at 0; the players stay, in the same order with the same ids and names.
      `timeLeft` is left as it was. */
  lemma RestartEffect(s: ServerState, sender: string)
    ensures var r := OnMessage(s, sender, Restart);
            && r.data.state == LobbyState
            && r.data.currentQuestionIndex == 0
            && r.data.questions == []
            && r.data.timeLeft == s.data.timeLeft
            && !r.timerActive
            && r.hostId == s.hostId
            && r.sent == s.sent + [Sync(r.data)]
            && |r.data.players| == |s.data.players|
            && forall k :: 0 <= k < |s.data.players| ==>
                 r.data.players[k] == s.data.players[k].(score := 0)
  {
  }

  /** `identify_host` makes the sender the host (the last one to ask wins) and
      broadcasts nothing; a message of any other unknown type does nothing. */
  lemma HostIdentificationOnly(s: ServerState, sender: string, kind: string)
    ensures OnMessage(s, sender, IdentifyHost) == s.(hostId := Some(sender))
    ensures OnMessage(s, sender, Unrecognized(kind)) == s
  {
  }

  /** `show_results`, in any phase and from anyone, shows the result with a fresh
      5-second timer and touches nothing else in the record. */
  lemma ShowResultsEffect(s: ServerState, sender: string)
    ensures var r := OnMessage(s, sender, ShowResults);
            && r.data == s.data.(state := ResultState, timeLeft := 5)
            && r.timerActive
            && r.hostId == s.hostId
            && r.sent == s.sent + [Sync(r.data)]
  {
  }

  /** A new connection changes no state; the whole room gets a fresh sync. */
  lemma ConnectOnlyBroadcasts(s: ServerState)
    ensures OnConnect(s) == s.(sent := s.sent + [Sync(s.data)])
  {
  }

  /** `join` appends a fresh player even when the connection already has one. */
  lemma JoinAppendsWithoutDeduplication(s: ServerState, sender: string, name1: string, name2: string)
    ensures var r := OnMessage(OnMessage(s, sender, Join(name1)), sender, Join(name2));
            r.data == s.data.(players := s.data.players + [Player(sender, name1, 0, None), Player(sender, name2, 0, None)])
  {
  }

  /** The events for a series of `join` commands, given as (connection id, name). */
  function JoinEvents(joiners: seq<(string, string)>): seq<Event>
  {
    seq(|joiners|, i requires 0 <= i < |joiners| => Message(joiners[i].0, Join(joiners[i].1)))
  }

  /** The players a series of `join` commands creates, in order. */
  function Joined(joiners: seq<(string, string)>): seq<Player>
  {
    seq(|joiners|, i requires 0 <= i < |joiners| => Player(joiners[i].0, joiners[i].1, 0, None))
  }

  /** A series of `join` commands appends one fresh player per command and changes
      nothing else in the game record. */
  lemma {:induction false} JoinsAppendPlayers(s: ServerState, joiners: seq<(string, string)>)
    ensures Run(s, JoinEvents(joiners)).data == s.data.(players := s.data.players + Joined(joiners))
    decreases |joiners|
  {
    if joiners != [] {
      var s1 := OnMessage(s, joiners[0].0, Join(joiners[0].1));
      assert JoinEvents(joiners)[1..] == JoinEvents(joiners[1..]);
      assert Run(s, JoinEvents(joiners)) == Run(s1, JoinEvents(joiners[1..]));
      JoinsAppendPlayers(s1, joiners[1..]);
      assert s.data.players + Joined(joiners) == s1.data.players + Joined(joiners[1..]);
    }
  }

  /** In a fresh room, `join` commands from distinct connections leave exactly one
      player per connection, with score 0 and no `hasAnswered` flag. */
  lemma DistinctJoinsGiveOnePlayerEach(joiners: seq<(string, string)>)
    requires forall i, j :: 0 <= i < j < |joiners| ==> joiners[i].0 != joiners[j].0
    ensures var ps := Run(Initial(), JoinEvents(joiners)).data.players;
            && |ps| == |joiners|
            && (forall i :: 0 <= i < |joiners| ==>
                  ps[i].id == joiners[i].0 && ps[i].name == joiners[i].1
                  && ps[i].score == 0 && ps[i].hasAnswered == None)
            && (forall i, k :: 0 <= i < |joiners| && 0 <= k < |ps| ==>
                  (ps[k].id == joiners[i].0 <==> k == i))
  {
    JoinsAppendPlayers(Initial(), joiners);
  }

  // ---------------------------------------------------------------------------
  // nextQuestion and the timer

  /** `nextQuestion` either moves to the following question (index + 1, `question`,
      every `hasAnswered` false, a 30-second timer) or, when the current question is
      the last one or there are none, stops the timer and shows the leaderboard with
      the index unchanged. */
  lemma NextQuestionCases(s: ServerState)
    ensures var r := TriviaSpec.NextQuestion(s);
            && r.hostId == s.hostId
            && r.data.questions == s.data.questions
            && r.sent == s.sent + [Sync(r.data)]
            && (s.data.currentQuestionIndex + 1 < |s.data.questions| ==>
                  && r.data.currentQuestionIndex == s.data.currentQuestionIndex + 1
                  && r.data.state == QuestionState
                  && r.data.timeLeft == 30 && r.timerActive
                  && |r.data.players| == |s.data.players|
                  && forall k :: 0 <= k < |s.data.players| ==>
                       r.data.players[k] == s.data.players[k].(hasAnswered := Some(false)))
            && (s.data.currentQuestionIndex + 1 >= |s.data.questions| ==>
                  r.data == s.data.(state := LeaderboardState) && !r.timerActive)
  {
  }

  /** Once the leaderboard is shown, `next_question` never re-enters a question. */
  lemma LeaderboardIsFinal(s: ServerState, sender: string)
    requires Invariant(s) && s.data.state == LeaderboardState
    ensures OnMessage(s, sender, NextQuestion).data.state == LeaderboardState
  {
  }

  /** One firing of the interval does exactly one of four things, and `timeLeft`
      never goes below 0. */
  lemma TickCases(s: ServerState)
    ensures var r := Tick(s);
            && (s.data.timeLeft > 0 ==>
                  r.data == s.data.(timeLeft := s.data.timeLeft - 1)
                  && r.timerActive == s.timerActive && r.hostId == s.hostId
                  && r.sent == s.sent + [Sync(r.data)])
            && (s.data.timeLeft == 0 && s.data.state == QuestionState ==>
                  r.data == s.data.(state := ResultState, timeLeft := 5)
                  && r.timerActive && r.hostId == s.hostId
                  && r.sent == s.sent + [Sync(r.data)])
            && (s.data.timeLeft == 0 && s.data.state == ResultState ==>
                  r == TriviaSpec.NextQuestion(s.(timerActive := false)))
            && (s.data.timeLeft == 0 && (s.data.state == LobbyState || s.data.state == LeaderboardState) ==>
                  r == s.(timerActive := false))
  {
  }

  /** In a reachable room the fourth case of TickCases never happens: an interval
      fires only while a question or a result is on screen. */
  lemma TimerFiresOnlyWhileTiming(s: ServerState)
    requires Invariant(s) && s.timerActive
    ensures Step(s, TimerFired) == Tick(s)
    ensures s.data.state == QuestionState || s.data.state == ResultState
  {
  }

  /** Events that consist of `n` timer firings. */
  function Firings(n: nat): seq<Event>
  {
    seq(n, _ => TimerFired)
  }

  /** While time is left, `n` firings count `timeLeft` down by exactly `n` and do
      nothing else to the game record. */
  lemma {:induction false} CountDown(s: ServerState, n: nat)
    requires s.timerActive && n <= s.data.timeLeft
    ensures var r := Run(s, Firings(n));
            r.data == s.data.(timeLeft := s.data.timeLeft - n) && r.timerActive && r.hostId == s.hostId
    decreases n
  {
    if n > 0 {
      assert Firings(n)[1..] == Firings(n - 1);
      CountDown(Tick(s), n - 1);
    }
  }

  lemma {:induction false} RunAppend(s: ServerState, a: seq<Event>, b: seq<Event>)
    ensures Run(s, a + b) == Run(Run(s, a), b)
    decreases |a|
  {
    if a == [] {
      assert a + b == b;
    } else {
      assert (a + b)[1..] == a[1..] + b;
      RunAppend(Step(s, a[0]), a[1..], b);
    }
  }

  lemma RunOne(s: ServerState, e: Event)
    ensures Run(s, [e]) == Step(s, e)
  {
    assert [e][1..] == [];
  }

  // ---------------------------------------------------------------------------
  // A whole game

  function FirstQuestion(): Question
  {
    Question("q1", "2 + 2", ["3", "4", "5", "6"], 1)
  }

  function SecondQuestion(): Question
  {
    Question("q2", "3 + 3", ["6", "7", "8", "9"], 0)
  }

  /** Host H opens the room, players A and B join and H starts a two-question game. */
  function Setup(): seq<Event>
  {
    [ Message("H", IdentifyHost),
      Message("A", Join("Ann")),
      Message("B", Join("Bob")),
      Message("H", StartGame([FirstQuestion(), SecondQuestion()])) ]
  }

  /** A answers the first question correctly, B wrongly. */
  function Answers(): seq<Event>
  {
    [Message("A", Answer(0, 1)), Message("B", Answer(0, 2))]
  }

  function Round(state: GameState, index: nat, timeLeft: nat, scoreA: nat, scoreB: nat, answered: bool): GameData
  {
    GameData(state,
             [Player("A", "Ann", scoreA, Some(answered)), Player("B", "Bob", scoreB, Some(answered))],
             index, [FirstQuestion(), SecondQuestion()], timeLeft)
  }

  lemma {:induction false} SetupStartsFirstQuestion()
    ensures var r := Run(Initial(), Setup());
            r.data == Round(QuestionState, 0, 30, 0, 0, false) && r.timerActive
  {
    var e := Setup();
    var s1 := Step(Initial(), e[0]);
    var s2 := Step(s1, e[1]);
    var s3 := Step(s2, e[2]);
    var s4 := Step(s3, e[3]);
    assert s4.data == Round(QuestionState, 0, 30, 0, 0, false);
    assert e == [e[0]] + ([e[1]] + ([e[2]] + [e[3]]));
    RunAppend(Initial(), [e[0]], [e[1]] + ([e[2]] + [e[3]]));
    RunOne(Initial(), e[0]);
    RunAppend(s1, [e[1]], [e[2]] + [e[3]]);
    RunOne(s1, e[1]);
    RunAppend(s2, [e[2]], [e[3]]);
    RunOne(s2, e[2]);
    RunOne(s3, e[3]);
  }

  lemma {:induction false} BothAnswersShowResultAtOnce(s: ServerState)
    requires s.data == Round(QuestionState, 0, 30, 0, 0, false) && s.timerActive
    ensures var r := Run(s, Answers());
            r.data == Round(ResultState, 0, 5, 100, 0, true) && r.timerActive
  {
    var e := Answers();
    var s1 := Step(s, e[0]);
    assert FindFirst(s.data.players, "A") == Some(0);
    assert IsCorrect(s.data, 1);
    var marked := [Player("A", "Ann", 100, Some(true)), Player("B", "Bob", 0, Some(false))];
    assert !HasAnswered(marked[1]);
    assert s.data.players[0 := Player("A", "Ann", 100, Some(true))] == marked;
    assert s1 == OnAnswer(s, "A", 1);
    assert s1.data == s.data.(players := [Player("A", "Ann", 100, Some(true)), Player("B", "Bob", 0, Some(false))]);
    var s2 := Step(s1, e[1]);
    assert "A" != "B" by { assert "A"[0] != "B"[0]; }
    assert FindFirst(s1.data.players, "B") == Some(1);
    assert !IsCorrect(s1.data, 2);
    assert s2.data == Round(ResultState, 0, 5, 100, 0, true);
    assert e == [e[0]] + [e[1]];
    RunAppend(s, [e[0]], [e[1]]);
    RunOne(s, e[0]);
    RunOne(s1, e[1]);
  }

  lemma {:induction false} SecondQuestionTimesOut(s: ServerState)
    requires s.data == Round(QuestionState, 1, 30, 100, 0, false) && s.timerActive
    ensures var r := Run(s, Firings(31));
            r.data == Round(ResultState, 1, 5, 100, 0, false) && r.timerActive
  {
    CountDown(s, 30);
    var s1 := Run(s, Firings(30));
    assert Firings(31) == Firings(30) + [TimerFired];
    RunAppend(s, Firings(30), [TimerFired]);
    RunOne(s1, TimerFired);
  }

  lemma {:induction false} LastResultGoesToLeaderboard(s: ServerState)
    requires s.data == Round(ResultState, 1, 5, 100, 0, false) && s.timerActive
    ensures var r := Run(s, Firings(6));
            r.data == Round(LeaderboardState, 1, 0, 100, 0, false) && !r.timerActive
  {
    CountDown(s, 5);
    var s1 := Run(s, Firings(5));
    assert Firings(6) == Firings(5) + [TimerFired];
    RunAppend(s, Firings(5), [TimerFired]);
    RunOne(s1, TimerFired);
  }

  /** A whole two-question game: both players answer the first question, so its
      result is shown at once with A on 100 and B on 0; H moves on; nobody answers
      the second question, its 30 seconds run out, its result is shown for 5 seconds
      and, there being no third question, the leaderboard follows with the same
      scores. */
  lemma {:induction false} TwoQuestionGame()
    ensures var r := Run(Initial(), Setup() + Answers());
            r.data == Round(ResultState, 0, 5, 100, 0, true) && r.timerActive
    ensures var r := Run(Initial(), Setup() + Answers() + [Message("H", NextQuestion)]);
            r.data == Round(QuestionState, 1, 30, 100, 0, false) && r.timerActive
    ensures var r := Run(Initial(), Setup() + Answers() + [Message("H", NextQuestion)] + Firings(31));
            r.data == Round(ResultState, 1, 5, 100, 0, false)
    ensures var r := Run(Initial(), Setup() + Answers() + [Message("H", NextQuestion)] + Firings(31) + Firings(6));
            r.data == Round(LeaderboardState, 1, 0, 100, 0, false) && !r.timerActive
  {
    var s1 := Run(Initial(), Setup());
    SetupStartsFirstQuestion();
    BothAnswersShowResultAtOnce(s1);
    RunAppend(Initial(), Setup(), Answers());
    var s2 := Run(s1, Answers());
    var next := [Message("H", NextQuestion)];
    RunOne(s2, next[0]);
    assert Step(s2, next[0]).data == Round(QuestionState, 1, 30, 100, 0, false);
    RunAppend(Initial(), Setup() + Answers(), next);
    var s3 := Run(s2, next);
    SecondQuestionTimesOut(s3);
    RunAppend(Initial(), Setup() + Answers() + next, Firings(31));
    LastResultGoesToLeaderboard(Run(s3, Firings(31)));
    RunAppend(Initial(), Setup() + Answers() + next + Firings(31), Firings(6));
  }

  // ---------------------------------------------------------------------------
  // onClose

  /** The host leaving ends the game for everyone: a `game_terminated` envelope, no
      host, no timer, and the record back to the constructor's initial value. */
  lemma HostCloseResets(s: ServerState, connId: string)
    requires s.hostId == Some(connId)
    ensures var r := OnClose(s, connId);
            && r.data == InitialData()
            && r.hostId == None
            && !r.timerActive
            && r.sent == s.sent + [GameTerminated]
  {
  }

  /** Anyone else leaving removes exactly the players with that connection's id
      (possibly none, possibly several) and changes nothing else but the log. */
  lemma PlayerCloseRemovesOnlyThatPlayer(s: ServerState, connId: string)
    requires s.hostId != Some(connId)
    ensures var r := OnClose(s, connId);
            && r.data == s.data.(players := r.data.players)
            && (forall p :: p in r.data.players <==> p in s.data.players && p.id != connId)
            && |r.data.players| == |s.data.players| - CountId(s.data.players, connId)
            && r.hostId == s.hostId
            && r.timerActive == s.timerActive
            && r.sent == s.sent + [Sync(r.data)]
    ensures var r := OnClose(s, connId);
            forall other :: other != connId ==>
              && FindFirst(r.data.players, other).Some? == FindFirst(s.data.players, other).Some?
              && (FindFirst(s.data.players, other).Some? ==>
                    r.data.players[FindFirst(r.data.players, other).value]
                    == s.data.players[FindFirst(s.data.players, other).value])
  {
    forall other | other != connId
      ensures var r := OnClose(s, connId);
              && FindFirst(r.data.players, other).Some? == FindFirst(s.data.players, other).Some?
              && (FindFirst(s.data.players, other).Some? ==>
                    r.data.players[FindFirst(r.data.players, other).value]
                    == s.data.players[FindFirst(s.data.players, other).value])
    {
      WithoutIdKeepsFirstMatch(s.data.players, connId, other);
    }
  }

  // ---------------------------------------------------------------------------
  // Scores

  /** Short of `restart`, no command lowers a score or reorders the players. */
  lemma ScoresNeverDropExceptOnRestart(s: ServerState, sender: string, msg: ClientMessage)
    requires !msg.Restart?
    ensures var r := OnMessage(s, sender, msg);
            && |s.data.players| <= |r.data.players|
            && forall k :: 0 <= k < |s.data.players| ==>
                 r.data.players[k].id == s.data.players[k].id
                 && r.data.players[k].score >= s.data.players[k].score
  {
    if msg.Answer? && AnswerAccepted(s, sender) {
      AnswerEffect(s, sender, msg.questionIndex, msg.answerIndex);
    }
  }

  // ---------------------------------------------------------------------------
  // The invariant

  lemma InitialKeepsInvariant()
    ensures Invariant(Initial())
  {
  }

  lemma NextQuestionKeepsInvariant(s: ServerState)
    requires Invariant(s)
    ensures Invariant(TriviaSpec.NextQuestion(s))
  {
  }

  lemma OnMessageKeepsInvariant(s: ServerState, sender: string, msg: ClientMessage)
    requires Invariant(s)
    ensures Invariant(OnMessage(s, sender, msg))
  {
    match msg
    case Answer(q, a) =>
      if AnswerAccepted(s, sender) {
        AnswerEffect(s, sender, q, a);
      }
    case NextQuestion =>
      NextQuestionKeepsInvariant(s);
    case _ =>
  }

  lemma OnCloseKeepsInvariant(s: ServerState, connId: string)
    requires Invariant(s)
    ensures Invariant(OnClose(s, connId))
  {
  }

  lemma TickKeepsInvariant(s: ServerState)
    requires Invariant(s)
    ensures Invariant(Tick(s))
  {
    if s.data.timeLeft == 0 && s.data.state == ResultState {
      NextQuestionKeepsInvariant(s.(timerActive := false));
    }
  }

  /** Every room reachable from the constructor's state by any sequence of
      connections, closes, commands and timer firings keeps the invariant. */
  lemma {:induction false} RunKeepsInvariant(s: ServerState, events: seq<Event>)
    requires Invariant(s)
    ensures Invariant(Run(s, events))
    decreases |events|
  {
    if events != [] {
      match events[0] {
        case Connect =>
        case Close(connId) => OnCloseKeepsInvariant(s, connId);
        case Message(sender, msg) => OnMessageKeepsInvariant(s, sender, msg);
        case TimerFired => if s.timerActive { TickKeepsInvariant(s); }
      }
      RunKeepsInvariant(Step(s, events[0]), events[1..]);
    }
  }

  /** Every room reachable from the constructor's state satisfies the invariant. */
  lemma ReachableRoomsKeepInvariant(events: seq<Event>)
    ensures Invariant(Run(Initial(), events))
  {
    InitialKeepsInvariant();
    RunKeepsInvariant(Initial(), events);
  }
}
