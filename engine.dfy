/** The game board's session (src/app/game/page.tsx): one field per state
    cell and the persisted turn store, with each handler a method whose new
    state is its transition in `Handlers` applied to the old one. */
module Engine {
  import opened Common
  import opened Domain
  import opened TurnState
  import opened Timeline
  import opened Joker
  import opened EngineRules
  import opened Handlers

  class GameSession {
    var teams: seq<Team>
    var questions: seq<Question>
    const turn: TurnStore
    var active: Option<Question>
    var showAnswer: bool
    var selectedTeamId: string
    var lastGuessTeamId: string
    var lyrics: LyricsRound
    var geo: GeoRound
    var jokerRound: Option<JokerRound>
    var jokerProgress: Option<JokerProgress>
    var timeline: TimelineRound
    var mcq: McqRound

    /** The session's cells as one value. */
    function View(): Session
      reads this, turn
    {
      Session(teams, questions, turn.order, turn.boardIndex, turn.lyricsIndex, active, showAnswer,
              selectedTeamId, lastGuessTeamId, lyrics, geo, jokerRound, jokerProgress, timeline, mcq)
    }

    ghost predicate Valid()
      reads this, turn
    {
      Inv(View())
    }

    /** The board before any question is opened. */
    constructor (initialTeams: seq<Team>, initialQuestions: seq<Question>)
      ensures Valid() && fresh(turn) && Idle(View())
      ensures teams == initialTeams && questions == initialQuestions
      ensures turn.order == [] && turn.boardIndex == 0 && turn.lyricsIndex == 0
      ensures timeline.winnerId.None?
    {
      teams, questions := initialTeams, initialQuestions;
      turn := new TurnStore();
      active, showAnswer, selectedTeamId, lastGuessTeamId := None, false, "", "";
      lyrics, geo := LyricsRound([], [], 0), LockedGeo;
      jokerRound, jokerProgress := None, None;
      timeline := TimelineRound([], [], [], 2000, 0, None, None, None, false, 0);
      mcq := McqRound(false, None);
    }

    /** Writes every cell of `next` except the turn store, which the
        caller has already brought to `next`'s cursors. */
    method Load(next: Session)
      requires Inv(next)
      requires turn.order == next.order && turn.boardIndex == next.boardIndex && turn.lyricsIndex == next.lyricsIndex
      modifies this
      ensures View() == next
      ensures Valid()
    {
      teams, questions, active, showAnswer, selectedTeamId, lastGuessTeamId,
        lyrics, geo, jokerRound, jokerProgress, timeline, mcq :=
        next.teams, next.questions, next.active, next.showAnswer, next.selectedTeamId, next.lastGuessTeamId,
        next.lyrics, next.geo, next.jokerRound, next.jokerProgress, next.timeline, next.mcq;
    }

    /** `closeModal`. */
    method CloseModal()
      requires Valid()
      modifies this
      ensures Valid() && View() == Handlers.CloseModal(old(View()))
    {
      Load(Handlers.CloseModal(View()));
    }

    /** `openQuestion`. The joker round drawn from `draw` is returned; for
        any other kind no number is drawn and `round` is empty. */
    method OpenQuestion(question: Question, pattern: seq<int>, shuffled: seq<TimelineEvent>, draw: nat -> real)
      returns (round: JokerRound)
      requires Valid() && RandomOracle(draw)
      requires multiset(shuffled) == multiset(question.timelineEvents)
      modifies this, turn
      ensures question.kind == Joker ==>
                var setup := Setup(question.jokerCount, question.jokerMin, question.jokerMax, question.points);
                |round.numbers| == |round.targets| == |round.correctDirs| == setup.count && round.increment == setup.increment
                && 0 <= round.jokerIndex < setup.count
                && forall i :: 0 <= i < setup.count ==>
                     setup.minVal <= round.numbers[i] <= setup.maxVal
                     && setup.minVal <= round.targets[i] <= setup.maxVal && round.targets[i] != round.numbers[i]
                     && (round.correctDirs[i] == Above <==> round.targets[i] > round.numbers[i])
      ensures Valid()
      ensures View() == Handlers.OpenQuestion(old(View()), question, pattern, shuffled, round)
    {
      round := JokerRound([], [], [], 0, Above, 0);
      if question.kind == Joker {
        var setup := Setup(question.jokerCount, question.jokerMin, question.jokerMax, question.points);
        var used;
        round, used := GenerateRound(setup, draw, 0);
      }
      var next := Handlers.OpenQuestion(View(), question, pattern, shuffled, round);
      if question.kind == Lyrics {
        turn.SyncLyricsToBoard();
      }
      Load(next);
    }

    /** `handleRevealLine`. */
    method RevealLine(idx: nat)
      requires Valid()
      modifies this, turn
      ensures Valid() && View() == Handlers.RevealLine(old(View()), idx)
    {
      var guess := LyricsGuesser(View());
      var red := IsRed(View(), idx);
      var decay := if active.Some? then RedDecay(View()) else LyricsDecay(1, 0);
      lyrics := lyrics.(revealed := RevealAt(lyrics.revealed, idx));
      if guess != "" {
        lastGuessTeamId := guess;
        selectedTeamId := guess;
      }
      if red {
        lyrics := lyrics.(potential := AfterRed(decay, lyrics.potential));
        turn.AdvanceLyrics();
      }
    }

    /** `handleLyricsNextTeam`. */
    method LyricsNextTeam()
      requires Valid()
      modifies turn
      ensures Valid() && View() == Handlers.LyricsNextTeam(old(View()))
    {
      if active.None? || active.value.kind != Lyrics {
        return;
      }
      turn.AdvanceLyrics();
    }

    /** `toggleGeoLock`. */
    method ToggleGeoLock()
      requires Valid()
      modifies this
      ensures Valid() && View() == Handlers.ToggleGeoLock(old(View()))
    {
      if active.None? || active.value.kind != Geoguesser {
        return;
      }
      if geo.timerUsed && geo.mapLocked {
        return;
      }
      if geo.mapLocked {
        if !geo.costApplied {
          var cost := active.value.geoUnlockCost.GetOr(0);
          if cost > 0 {
            geo := geo.(potential := Max(0, geo.potential - cost));
          }
          geo := geo.(costApplied := true);
        }
        geo := geo.(timerUsed := true, countdown := Some(active.value.geoTimerSeconds.GetOr(10)), mapLocked := false);
      } else {
        geo := geo.(mapLocked := true, countdown := None);
      }
    }

    /** The common end of `markAnswered` and `finishJokerQuestion`. */
    method Settle(team: string, delta: int, id: string)
      requires Valid()
      modifies this, turn
      ensures Valid() && View() == Handlers.Settle(old(View()), team, delta, id)
    {
      var moves := ActiveIds(View()) != [];
      ActiveIdsNeedOrder(View());
      if team != "" {
        teams := AddScore(teams, team, delta);
      }
      questions := MarkAnswered(questions, id);
      if moves {
        turn.AdvanceBoard();
      }
      lastGuessTeamId := "";
      CloseModal();
    }

    /** `markAnswered`. */
    method MarkAnsweredBy(correct: bool)
      requires Valid()
      modifies this, turn
      ensures Valid() && View() == Handlers.MarkAnsweredBy(old(View()), correct)
    {
      if active.None? {
        return;
      }
      Settle(Answering(View()), AnswerDelta(active.value, geo, lyrics, correct), active.value.id);
    }

    /** `handleJokerGuess`. */
    method JokerGuess(position: Direction)
      requires Valid()
      modifies this, turn
      ensures Valid() && View() == Handlers.JokerGuess(old(View()), position)
    {
      if !JokerPlayable(View()) {
        return;
      }
      var step := Step(jokerRound.value, jokerProgress.value, position, active.value.points);
      if step.None? {
        return;
      }
      var stale := StaleNext(ActiveIds(View()), turn.boardIndex);
      jokerProgress := Some(step.value.progress);
      if step.value.missed && active.value.jokerRotateOnMiss.GetOr(true) {
        turn.AdvanceBoard();
        selectedTeamId := stale;
      }
    }

    /** `finishJokerQuestion`. */
    method FinishJoker()
      requires Valid()
      modifies this, turn
      ensures Valid() && View() == Handlers.FinishJoker(old(View()))
    {
      if active.None? || active.value.kind != Joker || jokerProgress.None? {
        return;
      }
      Settle(Answering(View()), Max(0, jokerProgress.value.score), active.value.id);
    }

    /** `handleMcqSelect`. */
    method McqSelect(idx: int)
      requires Valid()
      modifies this, turn
      ensures Valid() && View() == Handlers.McqSelect(old(View()), idx)
    {
      if !McqOpen(View()) {
        return;
      }
      var next := Handlers.McqSelect(View(), idx);
      if next.boardIndex != turn.boardIndex {
        turn.AdvanceBoard();
      }
      Load(next);
    }

    /** `handleTimelinePlace`. */
    method TimelinePlace(slot: Slot)
      requires Valid()
      modifies this, turn
      ensures Valid() && View() == Handlers.TimelinePlace(old(View()), slot)
    {
      if !TimelineReady(View()) {
        return;
      }
      var next := Handlers.TimelinePlace(View(), slot);
      if next.boardIndex != turn.boardIndex {
        turn.AdvanceBoard();
      }
      Load(next);
    }
  }
}
