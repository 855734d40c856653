/** The game board's state (src/app/game/page.tsx) as one value, and each
    handler as a transition of it. A handler reads the state as it was when
    it was called; React applies its updates together once it returns, the
    functional updaters composed in call order and, for a cell set twice,
    the last value winning. So a handler is a function from the old state to
    the new one. Sounds, confetti and the slot-machine animation are not
    part of it. */
module Handlers {
  import opened Common
  import opened Domain
  import opened TurnState
  import opened Timeline
  import opened Joker
  import opened EngineRules

  /** The lyrics grid: which tiles are turned over, which tiles are red,
      and what a right answer is still worth. */
  datatype LyricsRound = LyricsRound(revealed: seq<bool>, pattern: seq<int>, potential: int)

  /** The timeline round: events still to place, the two placed lists
      around the center year, whose turn it is, and the outcome. */
  datatype TimelineRound = TimelineRound(
    queue: seq<TimelineEvent>,
    left: seq<Placed>,
    right: seq<Placed>,
    centerYear: int,
    teamIndex: int,
    lastCorrectTeamId: Option<string>,
    winnerName: Option<string>,
    winnerId: Option<string>,
    noWinner: bool,
    potential: int)

  datatype McqInfo = McqInfo(teamName: string, points: int)

  /** A multiple-choice question takes one scored pick. */
  datatype McqRound = McqRound(resolved: bool, info: Option<McqInfo>)

  /** Every state cell of the board the handlers read or write. */
  datatype Session = Session(
    teams: seq<Team>,
    questions: seq<Question>,
    order: seq<string>,
    boardIndex: int,
    lyricsIndex: int,
    active: Option<Question>,
    showAnswer: bool,
    selectedTeamId: string,
    lastGuessTeamId: string,
    lyrics: LyricsRound,
    geo: GeoRound,
    jokerRound: Option<JokerRound>,
    jokerProgress: Option<JokerProgress>,
    timeline: TimelineRound,
    mcq: McqRound)

  /** The turn cursors are in range, a joker progress comes with the round
      it belongs to, the timeline cursor is not negative and both placed
      lists are in year order. */
  ghost predicate Inv(s: Session) {
    CursorsInRange(s.order, s.boardIndex, s.lyricsIndex)
    && (s.jokerProgress.Some? ==> s.jokerRound.Some? && WellFormed(s.jokerRound.value, s.jokerProgress.value))
    && s.timeline.teamIndex >= 0
    && SortedBy(s.timeline.left, PlacedKey) && SortedBy(s.timeline.right, PlacedKey)
  }

  /** `activeTurnOrder`. */
  function ActiveIds(s: Session): (r: seq<string>)
    ensures |r| <= |s.order|
    ensures forall id :: id in r <==> id in s.order && HasTeam(s.teams, id)
  {
    ActiveOrder(s.order, s.teams)
  }

  /** `getBoardTeamId`. */
  function BoardTeam(s: Session): (r: string)
    requires Inv(s)
    ensures ActiveIds(s) == [] ==> r == ""
    ensures ActiveIds(s) != [] ==> r in s.order && HasTeam(s.teams, r)
  {
    TurnTeamId(ActiveIds(s), s.boardIndex)
  }

  /** `getLyricsTeamId`. */
  function LyricsTeam(s: Session): (r: string)
    requires Inv(s)
    ensures ActiveIds(s) == [] ==> r == ""
    ensures ActiveIds(s) != [] ==> r in s.order && HasTeam(s.teams, r)
  {
    TurnTeamId(ActiveIds(s), s.lyricsIndex)
  }

  /** `answeringTeamId`. */
  function Answering(s: Session): (r: string)
    requires Inv(s) && s.active.Some?
    ensures s.active.value.kind == Lyrics ==> r == LyricsTeam(s)
    ensures s.active.value.kind != Lyrics ==> r == s.lastGuessTeamId || r == s.selectedTeamId || r == BoardTeam(s)
    ensures s.active.value.kind != Lyrics && s.lastGuessTeamId != "" ==> r == s.lastGuessTeamId
    ensures s.active.value.kind != Lyrics && s.lastGuessTeamId == "" && s.selectedTeamId != "" ==> r == s.selectedTeamId
  {
    AnsweringTeamId(s.active.value.kind, LyricsTeam(s), s.lastGuessTeamId, s.selectedTeamId, BoardTeam(s))
  }

  /** The list the timeline's turns go round. */
  function TimelineIds(s: Session): (r: seq<string>)
    ensures s.order != [] ==> r == ActiveIds(s)
    ensures s.order == [] ==> |r| == |s.teams| && forall i :: 0 <= i < |r| ==> r[i] == s.teams[i].id
  {
    TimelineOrder(s.order, ActiveIds(s), s.teams)
  }

  /** `getActiveTimelineTeamId`. */
  function TimelineTeam(s: Session): (r: string)
    requires Inv(s)
    ensures TimelineIds(s) == [] ==> r == ""
    ensures TimelineIds(s) != [] ==> r in TimelineIds(s)
    ensures s.timeline.teamIndex < |TimelineIds(s)| ==> r == TimelineIds(s)[s.timeline.teamIndex]
  {
    IdAt(TimelineIds(s), s.timeline.teamIndex)
  }

  /** A non-empty active order needs a non-empty turn order. */
  lemma ActiveIdsNeedOrder(s: Session)
    ensures ActiveIds(s) != [] ==> s.order != []
  {
  }

  /** `advanceBoard` when anyone is in the active order. */
  function BoardAfterTurn(s: Session): (b: int)
    requires Inv(s)
    ensures ActiveIds(s) == [] ==> b == s.boardIndex
    ensures ActiveIds(s) != [] ==> 0 <= b < |s.order|
  {
    ActiveIdsNeedOrder(s);
    if ActiveIds(s) != [] then Advanced(s.order, s.boardIndex) else s.boardIndex
  }

  // ---- closing and opening ----

  /** `resetTimelineState`: everything back to its default except the
      winner's id, which only opening a timeline question clears. */
  function Cleared(t: TimelineRound): (r: TimelineRound)
    ensures r.queue == [] && r.left == [] && r.right == [] && r.centerYear == 2000 && r.teamIndex == 0
    ensures r.lastCorrectTeamId.None? && r.winnerName.None? && !r.noWinner && r.potential == 0
    ensures r.winnerId == t.winnerId
  {
    TimelineRound([], [], [], 2000, 0, None, None, t.winnerId, false, 0)
  }

  const LockedGeo: GeoRound := GeoRound(true, None, false, 0, false)

  /** Nothing is open and every round is at its default. */
  predicate Idle(s: Session) {
    s.active.None? && !s.showAnswer && s.selectedTeamId == "" && s.lastGuessTeamId == ""
    && s.lyrics == LyricsRound([], [], 0) && s.geo == LockedGeo
    && s.jokerRound.None? && s.jokerProgress.None?
    && s.timeline == Cleared(s.timeline) && s.mcq == McqRound(false, None)
  }

  /** `closeModal`: clears the question and every round, and keeps the
      scores, the questions, the turn state and the last timeline winner. */
  function CloseModal(s: Session): (r: Session)
    requires Inv(s)
    ensures Inv(r) && Idle(r)
    ensures r.teams == s.teams && r.questions == s.questions
    ensures r.order == s.order && r.boardIndex == s.boardIndex && r.lyricsIndex == s.lyricsIndex
    ensures r.timeline.winnerId == s.timeline.winnerId
  {
    s.(active := None, showAnswer := false, selectedTeamId := "", lastGuessTeamId := "",
       lyrics := LyricsRound([], [], 0), geo := LockedGeo, jokerRound := None, jokerProgress := None,
       timeline := Cleared(s.timeline), mcq := McqRound(false, None))
  }

  /** The question as the modal holds it: a lyrics question carries the
      freshly drawn red pattern, a geoguesser question its timer (10 seconds
      by default), an audio question its stop time (at least one second,
      10 by default). */
  function Normalized(q: Question, pattern: seq<int>): (n: Question)
    ensures n.id == q.id && n.kind == q.kind && n.points == q.points && n.category == q.category
    ensures q.kind == Lyrics ==> n.lyricsRedPattern == pattern
    ensures q.kind == Lyrics ==> n == q.(lyricsRedPattern := n.lyricsRedPattern)
    ensures q.kind == Geoguesser ==> n == q.(geoTimerSeconds := n.geoTimerSeconds)
    ensures q.kind == Geoguesser ==> n.geoTimerSeconds.Some? && (q.geoTimerSeconds.Some? ==> n.geoTimerSeconds == q.geoTimerSeconds)
    ensures q.kind == Geoguesser && q.geoTimerSeconds.None? ==> n.geoTimerSeconds == Some(10)
    ensures q.kind == Audio ==> n == q.(audioStopSeconds := n.audioStopSeconds)
    ensures q.kind == Audio ==> n.audioStopSeconds.Some? && n.audioStopSeconds.value >= 1
    ensures q.kind == Audio && q.audioStopSeconds.None? ==> n.audioStopSeconds == Some(10)
    ensures q.kind == Audio && q.audioStopSeconds.Some? && q.audioStopSeconds.value >= 1 ==> n.audioStopSeconds == q.audioStopSeconds
    ensures q.kind == Audio && q.audioStopSeconds.Some? && q.audioStopSeconds.value < 1 ==> n.audioStopSeconds == Some(1)
    ensures q.kind !in {Lyrics, Geoguesser, Audio} ==> n == q
  {
    match q.kind
    case Lyrics => q.(lyricsRedPattern := pattern)
    case Geoguesser => q.(geoTimerSeconds := Some(q.geoTimerSeconds.GetOr(10)))
    case Audio => q.(audioStopSeconds := Some(Max(1, q.audioStopSeconds.GetOr(10))))
    case _ => q
  }

  /** `openQuestion`: the red pattern, the shuffled timeline events and the
      joker round are the outcomes of its random draws. Every question
      starts at its full points with the board's team selected; a lyrics
      question starts its cursor at the board's, a timeline question deals
      its events, a joker question starts the round at the base score. The
      timeline branch's own selection is overwritten by the final one. */
  function OpenQuestion(s: Session, q: Question, pattern: seq<int>, shuffled: seq<TimelineEvent>, round: JokerRound): (r: Session)
    requires Inv(s)
    requires q.kind == Joker ==> |round.targets| == |round.numbers| && |round.correctDirs| == |round.numbers|
    ensures Inv(r)
    ensures r.teams == s.teams && r.questions == s.questions && r.order == s.order && r.boardIndex == s.boardIndex
    ensures r.active == Some(Normalized(q, pattern)) && !r.showAnswer
    ensures r.selectedTeamId == BoardTeam(s) && r.lastGuessTeamId == s.lastGuessTeamId
    ensures r.geo.mapLocked && !r.geo.timerUsed && r.geo.countdown.None?
    ensures r.mcq == McqRound(false, None)
    ensures q.kind == Lyrics ==>
              LyricsTeam(r) == BoardTeam(s) && r.lyrics.pattern == pattern && r.lyrics.potential == q.points
              && |r.lyrics.revealed| == |q.lyricsSegments| && (forall i :: 0 <= i < |r.lyrics.revealed| ==> !r.lyrics.revealed[i])
    ensures q.kind != Lyrics ==> r.lyricsIndex == s.lyricsIndex && r.lyrics.revealed == [] && r.lyrics.potential == 0
    ensures q.kind == Geoguesser ==> r.geo.potential == q.points && !r.geo.costApplied
    ensures q.kind == Joker ==> r.jokerRound == Some(round) && r.jokerProgress == Some(InitialProgress(|round.numbers|, q.points))
    ensures q.kind != Joker ==> r.jokerRound.None? && r.jokerProgress.None?
    ensures q.kind == QuestionKind.Timeline ==>
              r.timeline == TimelineRound(shuffled, [], [], q.timelineCenterYear.GetOr(2000), 0, None, None, None, false, q.points)
    ensures q.kind != QuestionKind.Timeline ==> r.timeline == Cleared(s.timeline)
  {
    var lyrics :=
      if q.kind == Lyrics then LyricsRound(seq(|q.lyricsSegments|, _ => false), pattern, q.points)
      else LyricsRound([], s.lyrics.pattern, 0);
    var geo :=
      if q.kind == Geoguesser then LockedGeo.(potential := q.points)
      else LockedGeo.(potential := s.geo.potential, costApplied := s.geo.costApplied);
    var timeline :=
      if q.kind == QuestionKind.Timeline
      then TimelineRound(shuffled, [], [], q.timelineCenterYear.GetOr(2000), 0, None, None, None, false, q.points)
      else Cleared(s.timeline);
    s.(lyricsIndex := if q.kind == Lyrics then s.boardIndex else s.lyricsIndex,
       active := Some(Normalized(q, pattern)), showAnswer := false, selectedTeamId := BoardTeam(s),
       lyrics := lyrics, geo := geo,
       jokerRound := if q.kind == Joker then Some(round) else None,
       jokerProgress := if q.kind == Joker then Some(InitialProgress(|round.numbers|, q.points)) else None,
       timeline := timeline, mcq := McqRound(false, None))
  }

  // ---- lyrics ----

  /** `isRedLyric`. */
  predicate IsRed(s: Session, idx: int)
    ensures Inv(s) && IsRed(s, idx) ==> s.active.Some? && Answering(s) == LyricsTeam(s)
  {
    s.active.Some? && s.active.value.kind == Lyrics && idx in s.lyrics.pattern
  }

  /** The decay of the open question's grid. */
  function RedDecay(s: Session): (d: LyricsDecay)
    requires s.active.Some?
    ensures d.perRed >= 1 && d.minPot >= 0
    ensures s.active.value.points >= 0 ==> d.minPot <= s.active.value.points
  {
    Decay(s.active.value.points, |s.lyrics.pattern|, |s.active.value.lyricsSegments|)
  }

  /** Who the guess belongs to when a tile is turned: the lyrics cursor's
      team, or the selected team when nobody is in the turn order. */
  function LyricsGuesser(s: Session): (r: string)
    requires Inv(s)
    ensures ActiveIds(s) != [] ==> r == LyricsTeam(s) && r in s.order && HasTeam(s.teams, r)
    ensures ActiveIds(s) == [] ==> r == s.selectedTeamId
  {
    if ActiveIds(s) != [] then LyricsTeam(s) else s.selectedTeamId
  }

  /** `handleRevealLine`: turns tile `idx` over and hands the guess to the
      lyrics cursor's team; a red tile lowers the potential, never below
      the grid's floor, and passes the turn on. */
  function RevealLine(s: Session, idx: nat): (r: Session)
    requires Inv(s)
    ensures Inv(r)
    ensures r == s.(lyrics := r.lyrics, lyricsIndex := r.lyricsIndex,
                    lastGuessTeamId := r.lastGuessTeamId, selectedTeamId := r.selectedTeamId)
    ensures r.lyrics.revealed == RevealAt(s.lyrics.revealed, idx) && r.lyrics.pattern == s.lyrics.pattern
    ensures LyricsGuesser(s) != "" ==> r.lastGuessTeamId == LyricsGuesser(s) && r.selectedTeamId == LyricsGuesser(s)
    ensures LyricsGuesser(s) == "" ==> r.lastGuessTeamId == s.lastGuessTeamId && r.selectedTeamId == s.selectedTeamId
    ensures IsRed(s, idx) ==>
              r.lyrics.potential >= RedDecay(s).minPot
              && (s.lyrics.potential > RedDecay(s).minPot ==> r.lyrics.potential < s.lyrics.potential)
              && r.lyricsIndex == Advanced(s.order, s.lyricsIndex)
    ensures !IsRed(s, idx) ==> r.lyrics.potential == s.lyrics.potential && r.lyricsIndex == s.lyricsIndex
  {
    var guess := LyricsGuesser(s);
    var revealed := s.lyrics.(revealed := RevealAt(s.lyrics.revealed, idx));
    var guessed :=
      if guess != "" then s.(lyrics := revealed, lastGuessTeamId := guess, selectedTeamId := guess)
      else s.(lyrics := revealed);
    if IsRed(s, idx) then
      guessed.(lyrics := revealed.(potential := AfterRed(RedDecay(s), s.lyrics.potential)),
               lyricsIndex := Advanced(s.order, s.lyricsIndex))
    else guessed
  }

  /** `handleLyricsNextTeam`: passes an open lyrics question on. */
  function LyricsNextTeam(s: Session): (r: Session)
    requires Inv(s)
    ensures Inv(r)
    ensures r == s.(lyricsIndex := r.lyricsIndex)
    ensures s.active.Some? && s.active.value.kind == Lyrics ==> r.lyricsIndex == Advanced(s.order, s.lyricsIndex)
    ensures s.active.Some? && s.active.value.kind == Lyrics && s.order != [] ==> r.lyricsIndex != s.lyricsIndex || |s.order| == 1
    ensures !(s.active.Some? && s.active.value.kind == Lyrics) ==> r == s
  {
    if s.active.None? || s.active.value.kind != Lyrics then s
    else s.(lyricsIndex := Advanced(s.order, s.lyricsIndex))
  }

  /** When every id of the turn order names a team, a red tile hands the
      grid to the next team of the order. */
  lemma RedTilePassesTurn(s: Session, idx: nat)
    requires Inv(s) && IsRed(s, idx) && s.order != [] && ActiveIds(s) == s.order
    ensures LyricsTeam(RevealLine(s, idx)) == s.order[Advanced(s.order, s.lyricsIndex)]
  {
  }

  // ---- geoguesser ----

  /** `toggleGeoLock` on the open geoguesser question; anything else is
      left as it is. */
  function ToggleGeoLock(s: Session): (r: Session)
    requires Inv(s)
    ensures Inv(r)
    ensures r == s.(geo := r.geo)
    ensures s.active.Some? && s.active.value.kind == Geoguesser ==>
              r.geo == GeoToggled(s.geo, s.active.value.geoUnlockCost, s.active.value.geoTimerSeconds)
    ensures !(s.active.Some? && s.active.value.kind == Geoguesser) ==> r == s
  {
    if s.active.None? || s.active.value.kind != Geoguesser then s
    else s.(geo := GeoToggled(s.geo, s.active.value.geoUnlockCost, s.active.value.geoTimerSeconds))
  }

  // ---- scoring ----

  /** The common end of `markAnswered` and `finishJokerQuestion`: books
      `delta` to `team` when there is one, marks the question answered,
      moves the board cursor on when anyone is in the active order, and
      closes the question. */
  function Settle(s: Session, team: string, delta: int, id: string): (r: Session)
    requires Inv(s)
    ensures Inv(r) && Idle(r)
    ensures r.teams == (if team != "" then AddScore(s.teams, team, delta) else s.teams)
    ensures r.questions == MarkAnswered(s.questions, id)
    ensures r.order == s.order && r.lyricsIndex == s.lyricsIndex && r.boardIndex == BoardAfterTurn(s)
    ensures r.timeline.winnerId == s.timeline.winnerId
  {
    var teams := if team != "" then AddScore(s.teams, team, delta) else s.teams;
    CloseModal(s.(teams := teams, questions := MarkAnswered(s.questions, id), boardIndex := BoardAfterTurn(s)))
  }

  /** Settling moves the league total by `delta` once per team with that
      id, and closes exactly the open questions with that id. */
  lemma SettleBooksOnce(s: Session, team: string, delta: int, id: string)
    requires Inv(s) && team != ""
    ensures TotalScore(Settle(s, team, delta, id).teams) == TotalScore(s.teams) + delta * CountId(s.teams, team)
    ensures UnansweredCount(Settle(s, team, delta, id).questions) + OpenWithId(s.questions, id) == UnansweredCount(s.questions)
  {
    AddScoreTotal(s.teams, team, delta);
    MarkAnsweredCloses(s.questions, id);
  }

  /** What `markAnswered` books: the mode's reward for a right answer,
      minus the mode's penalty for a wrong one. */
  function AnswerDelta(q: Question, geo: GeoRound, lyrics: LyricsRound, correct: bool): (d: int)
    ensures correct && q.kind == Geoguesser ==> d == Max(0, geo.potential)
    ensures correct && q.kind == Lyrics ==> d == LyricsReward(lyrics.potential, q.points)
    ensures correct && q.kind !in {Geoguesser, Lyrics} ==> d == q.points
    ensures !correct && q.kind == Geoguesser ==> d == -(q.points + (if geo.costApplied then q.geoUnlockCost.GetOr(0) else 0))
    ensures !correct && q.kind != Geoguesser ==> d == -q.points
  {
    if correct then Reward(q.kind, q.points, geo.potential, lyrics.potential)
    else -Penalty(q.kind, q.points, geo.costApplied, q.geoUnlockCost)
  }

  /** `markAnswered`: settles the open question for the answering team. */
  function MarkAnsweredBy(s: Session, correct: bool): (r: Session)
    requires Inv(s)
    ensures Inv(r)
    ensures s.active.None? ==> r == s
    ensures s.active.Some? ==>
              r == Settle(s, Answering(s), AnswerDelta(s.active.value, s.geo, s.lyrics, correct), s.active.value.id)
  {
    if s.active.None? then s
    else Settle(s, Answering(s), AnswerDelta(s.active.value, s.geo, s.lyrics, correct), s.active.value.id)
  }

  /** After a question is settled with everyone of the turn order still
      present, the board's team is the next one of the order. */
  lemma AnswerPassesBoardOn(s: Session, correct: bool)
    requires Inv(s) && s.active.Some? && s.order != [] && ActiveIds(s) == s.order
    ensures BoardTeam(MarkAnsweredBy(s, correct)) == s.order[Advanced(s.order, s.boardIndex)]
  {
    var r := MarkAnsweredBy(s, correct);
    var team := Answering(s);
    if team != "" {
      AddScoreKeepsIds(s.teams, team, AnswerDelta(s.active.value, s.geo, s.lyrics, correct));
    }
    ActiveOrderSameIds(s.order, r.teams, s.teams);
  }

  // ---- joker ----

  /** The guard of `handleJokerGuess`. */
  predicate JokerPlayable(s: Session)
    ensures JokerPlayable(s) ==> s.jokerProgress.Some? && CanGuess(s.jokerProgress.value, false)
  {
    s.active.Some? && s.active.value.kind == Joker
    && s.jokerRound.Some? && s.jokerProgress.Some? && !s.jokerProgress.value.finished
  }

  /** The team the joker rotation selects: the id after the board cursor
      as it was before the advance, in the active order. */
  function StaleNext(active: seq<string>, boardIndex: int): (id: string)
    requires boardIndex >= 0
    ensures active == [] ==> id == ""
    ensures active != [] ==> id in active
  {
    if active == [] then "" else active[(boardIndex + 1) % |active|]
  }

  /** `handleJokerGuess`: plays one guess on the active cell. A miss with
      rotation (the default) moves the board cursor on and selects the team
      after the board cursor as it was when the guess was made. */
  function JokerGuess(s: Session, position: Direction): (r: Session)
    requires Inv(s)
    ensures Inv(r)
    ensures r == s.(jokerProgress := r.jokerProgress, boardIndex := r.boardIndex, selectedTeamId := r.selectedTeamId)
    ensures !JokerPlayable(s) ==> r == s
    ensures JokerPlayable(s) ==>
              var step := Step(s.jokerRound.value, s.jokerProgress.value, position, s.active.value.points);
              (step.None? ==> r == s)
              && (step.Some? ==> r.jokerProgress == Some(step.value.progress))
              && (step.Some? && step.value.missed && s.active.value.jokerRotateOnMiss.GetOr(true) ==>
                    r.boardIndex == Advanced(s.order, s.boardIndex) && r.selectedTeamId == StaleNext(ActiveIds(s), s.boardIndex))
              && (step.Some? && !(step.value.missed && s.active.value.jokerRotateOnMiss.GetOr(true)) ==>
                    r.boardIndex == s.boardIndex && r.selectedTeamId == s.selectedTeamId)
  {
    if !JokerPlayable(s) then s
    else
      var step := Step(s.jokerRound.value, s.jokerProgress.value, position, s.active.value.points);
      if step.None? then s
      else if step.value.missed && s.active.value.jokerRotateOnMiss.GetOr(true) then
        s.(jokerProgress := Some(step.value.progress), boardIndex := Advanced(s.order, s.boardIndex),
           selectedTeamId := StaleNext(ActiveIds(s), s.boardIndex))
      else s.(jokerProgress := Some(step.value.progress))
  }

  /** When every id of the turn order names a team, the team a rotating
      miss selects is the board's new team. */
  lemma JokerMissSelectsNewBoardTeam(s: Session, position: Direction)
    requires Inv(s) && JokerPlayable(s) && s.order != [] && ActiveIds(s) == s.order
    requires s.active.value.jokerRotateOnMiss.GetOr(true)
    requires var step := Step(s.jokerRound.value, s.jokerProgress.value, position, s.active.value.points);
             step.Some? && step.value.missed
    ensures var r := JokerGuess(s, position); r.selectedTeamId == BoardTeam(r)
  {
    var n := |s.order|;
    var b := s.boardIndex;
    var next := Advanced(s.order, b);
    if b == n - 1 {
      ModUnique(b + 1, n, 1, 0);
    } else {
      ModUnique(b + 1, n, 0, b + 1);
    }
    assert (b + 1) % n == next;
    ModUnique(next, n, 0, next);
  }

  /** With a team removed from the turn order, the two disagree: over the
      order a, b, c with only a and c present and the board cursor at 2, a
      rotating miss selects c while the board moves on to a. */
  lemma StaleJokerSelection(teams: seq<Team>)
    requires |teams| == 2 && teams[0].id == "a" && teams[1].id == "c"
    ensures ActiveOrder(["a", "b", "c"], teams) == ["a", "c"]
    ensures StaleNext(ActiveOrder(["a", "b", "c"], teams), 2) == "c"
    ensures TurnTeamId(ActiveOrder(["a", "b", "c"], teams), Advanced(["a", "b", "c"], 2)) == "a"
  {
    var order := ["a", "b", "c"];
    assert HasTeam(teams, "a") by { assert teams[0] in teams; }
    assert HasTeam(teams, "c") by { assert teams[1] in teams; }
    assert !HasTeam(teams, "b");
    assert order[1..] == ["b", "c"] && order[1..][1..] == ["c"] && order[1..][1..][1..] == [];
    assert ActiveOrder(["c"], teams) == ["c"];
    assert ActiveOrder(["b", "c"], teams) == ["c"];
  }

  /** `finishJokerQuestion`: books the round's score, never below zero. */
  function FinishJoker(s: Session): (r: Session)
    requires Inv(s)
    ensures Inv(r)
    ensures !(s.active.Some? && s.active.value.kind == Joker && s.jokerProgress.Some?) ==> r == s
    ensures s.active.Some? && s.active.value.kind == Joker && s.jokerProgress.Some? ==>
              r == Settle(s, Answering(s), Max(0, s.jokerProgress.value.score), s.active.value.id)
  {
    if s.active.None? || s.active.value.kind != Joker || s.jokerProgress.None? then s
    else Settle(s, Answering(s), Max(0, s.jokerProgress.value.score), s.active.value.id)
  }

  /** A finished joker round never takes points away, and books at most
      twice the question's points when it started from them. */
  lemma FinishJokerBooksNoLoss(s: Session, guesses: seq<Direction>)
    requires Inv(s) && s.active.Some? && s.active.value.kind == Joker && s.active.value.points >= 0
    requires s.jokerRound.Some? && |s.jokerRound.value.targets| == |s.jokerRound.value.numbers|
    requires |s.jokerRound.value.correctDirs| == |s.jokerRound.value.numbers| && s.jokerRound.value.increment >= 0
    requires s.jokerProgress == Some(Play(s.jokerRound.value, InitialProgress(|s.jokerRound.value.numbers|, s.active.value.points), guesses, s.active.value.points))
    ensures 0 <= s.jokerProgress.value.score <= 2 * s.active.value.points
  {
    PlayBounds(s.jokerRound.value, InitialProgress(|s.jokerRound.value.numbers|, s.active.value.points), guesses, s.active.value.points);
  }

  /** Play keeps the score inside [base, 2 * base]. */
  lemma {:induction false} PlayBounds(round: JokerRound, p: JokerProgress, guesses: seq<Direction>, base: int)
    requires WellFormed(round, p) && base >= 0 && base <= p.score <= 2 * base
    ensures base <= Play(round, p, guesses, base).score <= 2 * base
    decreases |guesses|
  {
    if guesses != [] && !p.finished {
      var step := Step(round, p, guesses[0], base);
      if step.Some? {
        PlayBounds(round, step.value.progress, guesses[1..], base);
      }
    }
  }

  // ---- multiple choice ----

  /** The guard of `handleMcqSelect`. */
  predicate McqOpen(s: Session)
    ensures McqOpen(s) ==> !JokerPlayable(s) && !IsRed(s, 0)
  {
    s.active.Some? && s.active.value.kind == Mcq && s.active.value.mcqOptions != [] && !s.mcq.resolved
  }

  /** The team a pick is scored to. */
  function McqTeam(s: Session): (r: string)
    requires Inv(s)
    ensures r == s.lastGuessTeamId || r == s.selectedTeamId || r == BoardTeam(s)
    ensures s.lastGuessTeamId != "" ==> r == s.lastGuessTeamId
    ensures s.lastGuessTeamId == "" && s.selectedTeamId != "" ==> r == s.selectedTeamId
    ensures r == "" <==> s.lastGuessTeamId == "" && s.selectedTeamId == "" && BoardTeam(s) == ""
  {
    OrId(OrId(s.lastGuessTeamId, s.selectedTeamId), BoardTeam(s))
  }

  /** The points a pick moves: the question's points when it is the
      right option, their negation otherwise. */
  function McqDelta(q: Question, idx: int): (d: int)
    ensures Abs(d) == Abs(q.points)
    ensures idx == q.mcqCorrectIndex.GetOr(0) ==> d == q.points
    ensures idx != q.mcqCorrectIndex.GetOr(0) ==> d == -q.points
  {
    if idx == q.mcqCorrectIndex.GetOr(0) then q.points else -q.points
  }

  /** `handleMcqSelect`: one scored pick. A right pick earns the points and
      moves the board on; a wrong pick costs the points and keeps the board
      where it is; either way the question is answered and resolved. */
  function McqSelect(s: Session, idx: int): (r: Session)
    requires Inv(s)
    ensures Inv(r)
    ensures !McqOpen(s) ==> r == s
    ensures McqOpen(s) ==>
              r == s.(teams := r.teams, questions := r.questions, boardIndex := r.boardIndex,
                      lastGuessTeamId := r.lastGuessTeamId, mcq := r.mcq)
              && r.mcq.resolved && r.questions == MarkAnswered(s.questions, s.active.value.id)
    ensures McqOpen(s) && McqTeam(s) != "" ==>
              r.teams == AddScore(s.teams, McqTeam(s), McqDelta(s.active.value, idx)) && r.lastGuessTeamId == McqTeam(s)
              && r.mcq.info.Some? && r.mcq.info.value.points == McqDelta(s.active.value, idx)
              && r.mcq.info.value.teamName
                 == (if FindTeam(s.teams, McqTeam(s)).Some? then FindTeam(s.teams, McqTeam(s)).value.name else "Team")
    ensures McqOpen(s) && McqTeam(s) == "" ==> r.teams == s.teams && r.mcq.info == s.mcq.info
    ensures McqOpen(s) && idx == s.active.value.mcqCorrectIndex.GetOr(0) ==> r.boardIndex == BoardAfterTurn(s)
    ensures McqOpen(s) && idx != s.active.value.mcqCorrectIndex.GetOr(0) ==> r.boardIndex == s.boardIndex
  {
    if !McqOpen(s) then s
    else
      var q := s.active.value;
      var team := McqTeam(s);
      var correct := idx == q.mcqCorrectIndex.GetOr(0);
      var delta := McqDelta(q, idx);
      var name := match FindTeam(s.teams, team) case Some(t) => t.name case None => "Team";
      var scored :=
        if team != "" then s.(lastGuessTeamId := team, teams := AddScore(s.teams, team, delta),
                               mcq := McqRound(true, Some(McqInfo(name, delta))))
        else s.(mcq := s.mcq.(resolved := true));
      scored.(questions := MarkAnswered(s.questions, q.id),
              boardIndex := if correct then BoardAfterTurn(s) else s.boardIndex)
  }

  /** Only the first pick counts: once resolved, picks change nothing. */
  lemma McqPicksOnce(s: Session, first: int, second: int)
    requires Inv(s)
    ensures McqSelect(McqSelect(s, first), second) == McqSelect(s, first)
  {
  }

  // ---- timeline ----

  /** The guard of `handleTimelinePlace`: an open timeline question whose
      next event has a year. */
  predicate TimelineReady(s: Session)
    ensures TimelineReady(s) ==>
              s.timeline.queue != [] && s.timeline.queue[0].year.Some?
              && YearKey(s.timeline.queue[0]) == s.timeline.queue[0].year.value
  {
    s.active.Some? && s.active.value.kind == QuestionKind.Timeline
    && s.timeline.queue != [] && s.timeline.queue[0].year.Some?
  }

  /** The judgement of dropping the next event on `slot`. */
  function PlacedRight(s: Session, slot: Slot): (b: bool)
    requires TimelineReady(s)
    ensures slot.onYear.Some? ==> (b <==> slot.onYear.value == s.timeline.queue[0].year.value)
    ensures b && slot.onYear.None? ==> 0 <= slot.index <= |s.timeline.left| + 1 + |s.timeline.right|
  {
    var t := s.timeline;
    PlacementCorrect(Combined(t.left, t.centerYear, t.right), t.queue[0].year.value, slot)
  }

  /** Files a judged event on its side of the center year, each side kept
      in year order. */
  function File(t: TimelineRound, placed: Placed): (r: TimelineRound)
    ensures YearKey(placed.event) < t.centerYear ==> r == t.(left := SortBy(t.left + [placed], PlacedKey))
    ensures YearKey(placed.event) >= t.centerYear ==> r == t.(right := SortBy(t.right + [placed], PlacedKey))
    ensures |r.left| + |r.right| == |t.left| + |t.right| + 1
    ensures YearKey(placed.event) < t.centerYear ==> placed in r.left
    ensures YearKey(placed.event) >= t.centerYear ==> placed in r.right
  {
    if YearKey(placed.event) < t.centerYear then
      var left := SortBy(t.left + [placed], PlacedKey);
      assert placed in multiset(left);
      t.(left := left)
    else
      var right := SortBy(t.right + [placed], PlacedKey);
      assert placed in multiset(right);
      t.(right := right)
  }

  /** One placement before the round is settled, given its judgement, the
      placer, the timeline order and the potential a miss costs: the next
      event leaves the queue, is marked right iff the drop was right and is
      filed on the left iff its year is before the center year, both lists
      staying in year order with no event lost or duplicated. A right drop
      records the placer; a miss without rotation lowers the potential,
      never below zero; a miss with rotation, while events remain, passes
      the timeline turn on. */
  function Judged(t: TimelineRound, correct: bool, rotate: bool, placer: string, order: seq<string>, decrement: int): (r: TimelineRound)
    requires t.queue != [] && t.teamIndex >= 0
    requires SortedBy(t.left, PlacedKey) && SortedBy(t.right, PlacedKey)
    ensures r.queue == t.queue[1..] && r.centerYear == t.centerYear
    ensures SortedBy(r.left, PlacedKey) && SortedBy(r.right, PlacedKey)
    ensures var placed := Placed(t.queue[0], Some(if correct then PlacedCorrect else PlacedWrong));
            (YearKey(t.queue[0]) < t.centerYear ==> placed in r.left && r.right == t.right)
            && (YearKey(t.queue[0]) >= t.centerYear ==> placed in r.right && r.left == t.left)
    ensures |r.queue| + |r.left| + |r.right| == |t.queue| + |t.left| + |t.right|
    ensures correct ==> r.potential == t.potential && r.lastCorrectTeamId == (if placer != "" then Some(placer) else None)
    ensures !correct ==> r.lastCorrectTeamId == t.lastCorrectTeamId
    ensures !correct && !rotate ==> r.potential == Max(0, t.potential - decrement)
    ensures !correct && rotate ==> r.potential == t.potential
    ensures !correct && rotate && r.queue != [] && order != [] ==> r.teamIndex == (t.teamIndex + 1) % |order|
    ensures correct || !rotate || r.queue == [] ==> r.teamIndex == t.teamIndex
    ensures r.teamIndex >= 0
    ensures r.winnerName == t.winnerName && r.winnerId == t.winnerId && r.noWinner == t.noWinner
  {
    var remaining := t.queue[1..];
    var filed := File(t, Placed(t.queue[0], Some(if correct then PlacedCorrect else PlacedWrong)));
    filed.(queue := remaining,
           potential := if !correct && !rotate then Max(0, t.potential - decrement) else t.potential,
           lastCorrectTeamId := if !correct then t.lastCorrectTeamId else if placer != "" then Some(placer) else None,
           teamIndex := if !correct && remaining != [] && rotate && order != []
                        then (t.teamIndex + 1) % |order| else t.teamIndex)
  }

  /** The placement `handleTimelinePlace` makes on the open question. */
  function Placement(s: Session, slot: Slot): (r: TimelineRound)
    requires Inv(s) && TimelineReady(s)
    ensures r.queue == s.timeline.queue[1..]
    ensures |r.left| + |r.right| == |s.timeline.left| + |s.timeline.right| + 1
    ensures SortedBy(r.left, PlacedKey) && SortedBy(r.right, PlacedKey)
    ensures PlacedRight(s, slot) ==>
              r.potential == s.timeline.potential
              && r.lastCorrectTeamId == (if TimelineTeam(s) != "" then Some(TimelineTeam(s)) else None)
  {
    var q := s.active.value;
    Judged(s.timeline, PlacedRight(s, slot), q.timelineRotateOnMiss.GetOr(true), TimelineTeam(s), TimelineIds(s),
           MissDecrement(q.points, |q.timelineEvents|))
  }

  /** The winner of a round whose last event was just placed. */
  function RoundWinner(s: Session, slot: Slot): (w: string)
    requires Inv(s) && TimelineReady(s)
    ensures PlacedRight(s, slot) || !s.active.value.timelineRotateOnMiss.GetOr(true) ==> w == TimelineTeam(s)
    ensures w == "" || w == TimelineTeam(s) || w in TimelineIds(s)
  {
    TimelineWinner(PlacedRight(s, slot), s.active.value.timelineRotateOnMiss.GetOr(true), TimelineIds(s), TimelineTeam(s))
  }

  /** `handleTimelinePlace`: one placement, and after the last event the
      round is settled: the question is answered, the board moves on, and
      the winner gets the potential as it was when this placement began.
      The question stays open for review. */
  function TimelinePlace(s: Session, slot: Slot): (r: Session)
    requires Inv(s)
    ensures Inv(r)
    ensures !TimelineReady(s) ==> r == s
    ensures TimelineReady(s) ==> r == s.(teams := r.teams, questions := r.questions, boardIndex := r.boardIndex, timeline := r.timeline)
    ensures TimelineReady(s) && |s.timeline.queue| > 1 ==> r == s.(timeline := Placement(s, slot))
  {
    if !TimelineReady(s) then s
    else
      var t := Placement(s, slot);
      if t.queue != [] then s.(timeline := t)
      else
        var winner := RoundWinner(s, slot);
        var found := FindTeam(s.teams, winner);
        var decided :=
          if winner != "" then
            t.(winnerName := if found.Some? then Some(found.value.name) else None,
               winnerId := if found.Some? then Some(found.value.id) else None,
               noWinner := false)
          else t.(winnerName := None, winnerId := None, noWinner := true);
        s.(teams := if winner != "" then AddScore(s.teams, winner, s.timeline.potential) else s.teams,
           questions := MarkAnswered(s.questions, s.active.value.id),
           boardIndex := BoardAfterTurn(s),
           timeline := decided)
  }

  /** After the last event the question is answered, the board moves on,
      and the winner (the placer when the drop was right or misses do not
      rotate, else the next team of the timeline order) gets the potential
      as it stood before this placement; without a winner nobody scores. */
  lemma TimelineLastEventSettles(s: Session, slot: Slot)
    requires Inv(s) && TimelineReady(s) && |s.timeline.queue| == 1
    ensures var r := TimelinePlace(s, slot);
            var winner := RoundWinner(s, slot);
            r.questions == MarkAnswered(s.questions, s.active.value.id)
            && r.boardIndex == BoardAfterTurn(s)
            && r.timeline.queue == [] && r.timeline.potential == Placement(s, slot).potential
            && (winner != "" ==> r.teams == AddScore(s.teams, winner, s.timeline.potential) && !r.timeline.noWinner)
            && (winner != "" && HasTeam(s.teams, winner) ==> r.timeline.winnerId == Some(winner))
            && (winner == "" ==> r.teams == s.teams && r.timeline.noWinner && r.timeline.winnerId.None?)
  {
    var winner := RoundWinner(s, slot);
    if winner != "" && HasTeam(s.teams, winner) {
      var found := FindTeam(s.teams, winner);
      assert found.Some?;
    }
  }

  /** The award reads the potential before the same placement lowered it:
      a one-event question without rotation, missed, still books its full
      points to the team that missed, while the potential shown drops to
      zero. */
  lemma LastMissAwardsStalePotential(s: Session, slot: Slot)
    requires Inv(s) && TimelineReady(s) && |s.timeline.queue| == 1
    requires s.active.value.points > 0 && |s.active.value.timelineEvents| == 1
    requires s.timeline.potential == s.active.value.points
    requires !s.active.value.timelineRotateOnMiss.GetOr(true) && !PlacedRight(s, slot)
    requires TimelineTeam(s) != ""
    ensures TimelinePlace(s, slot).timeline.potential == 0
    ensures TimelinePlace(s, slot).teams == AddScore(s.teams, TimelineTeam(s), s.active.value.points)
  {
    var q := s.active.value;
    assert MissDecrement(q.points, 1) == q.points by {
      assert (MissDecrement(q.points, 1) - 1) * 1 < q.points <= MissDecrement(q.points, 1) * 1;
    }
    TimelineLastEventSettles(s, slot);
  }
}
