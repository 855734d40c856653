/** The pure rules the game page's handlers apply (src/app/game/page.tsx):
    which teams take part in the turn order, whose turn it is, how teams are
    rotated for display, how a score is booked, and the scoring formulas of
    the lyrics, geoguesser and timeline modes. */
module EngineRules {
  import opened Common
  import opened Domain
  import opened Timeline
  import opened TurnState

  /** `activeTurnOrder`: the ids of the turn order that still name a team, in order. */
  function ActiveOrder(order: seq<string>, teams: seq<Team>): (r: seq<string>)
    ensures |r| <= |order|
    ensures forall id :: id in r <==> id in order && HasTeam(teams, id)
  {
    if order == [] then []
    else
      var rest := ActiveOrder(order[1..], teams);
      if HasTeam(teams, order[0]) then [order[0]] + rest else rest
  }

  /** The filter works id by id: the active order of a split turn order is
      the active orders of its parts, one after the other. So the active
      order keeps the turn order's order. */
  lemma {:induction false} ActiveOrderAppend(a: seq<string>, b: seq<string>, teams: seq<Team>)
    ensures ActiveOrder(a + b, teams) == ActiveOrder(a, teams) + ActiveOrder(b, teams)
  {
    if a != [] {
      var ab := a + b;
      assert ab[0] == a[0] && ab[1..] == a[1..] + b;
      ActiveOrderAppend(a[1..], b, teams);
      ActiveOrderCons(ab, teams);
      ActiveOrderCons(a, teams);
      var head := if HasTeam(teams, a[0]) then [a[0]] else [];
      AppendAssoc(head, ActiveOrder(a[1..], teams), ActiveOrder(b, teams));
    } else {
      assert a + b == b;
    }
  }

  /** Each id that names a team is in the active order as often as in the
      turn order; the others not at all. */
  lemma {:induction false} ActiveOrderCount(order: seq<string>, teams: seq<Team>, id: string)
    ensures multiset(ActiveOrder(order, teams))[id] == if HasTeam(teams, id) then multiset(order)[id] else 0
  {
    if order != [] {
      ActiveOrderCount(order[1..], teams, id);
      ActiveOrderCons(order, teams);
      assert order == [order[0]] + order[1..];
      assert multiset(order) == multiset([order[0]]) + multiset(order[1..]);
    }
  }

  lemma ActiveOrderCons(order: seq<string>, teams: seq<Team>)
    requires order != []
    ensures ActiveOrder(order, teams)
            == (if HasTeam(teams, order[0]) then [order[0]] else []) + ActiveOrder(order[1..], teams)
  {
  }

  /** While no team has been removed, the active order is the turn order itself. */
  lemma {:induction false} ActiveOrderKeepsPresentTeams(order: seq<string>, teams: seq<Team>)
    requires forall id :: id in order ==> HasTeam(teams, id)
    ensures ActiveOrder(order, teams) == order
  {
    if order != [] {
      ActiveOrderKeepsPresentTeams(order[1..], teams);
    }
  }

  /** The active order depends only on which ids name a team. */
  lemma {:induction false} ActiveOrderSameIds(order: seq<string>, a: seq<Team>, b: seq<Team>)
    requires forall id :: HasTeam(a, id) <==> HasTeam(b, id)
    ensures ActiveOrder(order, a) == ActiveOrder(order, b)
  {
    if order != [] {
      ActiveOrderSameIds(order[1..], a, b);
    }
  }

  /** The team whose turn a cursor names: `order[cursor % order.length]`, or
      the empty id (no team) when nobody is in the order. */
  function TurnTeamId(active: seq<string>, cursor: int): (r: string)
    requires cursor >= 0
    ensures active == [] ==> r == ""
    ensures active != [] ==> r in active
  {
    IdAt(active, cursor)
  }

  /** JavaScript's `%`: the remainder takes the sign of the dividend. */
  function JsRem(a: int, n: int): (r: int)
    requires n > 0
    ensures a >= 0 ==> 0 <= r < n
    ensures a < 0 ==> -n < r <= 0
  {
    if a >= 0 then a % n else -((-a) % n)
  }

  /** `((i % n) + n) % n`, with JavaScript's `%`, is the mathematical
      (non-negative) remainder. */
  lemma NormalizedRemainder(i: int, n: int)
    requires n > 0
    ensures JsRem(JsRem(i, n) + n, n) == i % n
  {
    if i >= 0 {
      var r := i % n;
      ModUnique(r + n, n, 1, r);
    } else {
      var q, m := (-i) / n, (-i) % n;
      assert -i == q * n + m;
      if m == 0 {
        ModUnique(n, n, 1, 0);
        ModUnique(i, n, -q, 0);
      } else {
        ModUnique(n - m, n, 0, n - m);
        ModUnique(i, n, -q - 1, n - m);
      }
    }
  }

  /** `rotateTeams`: the list turned so that the element at `start` (taken
      modulo the length, also for a negative start) comes first. */
  function RotateTeams<T>(list: seq<T>, start: int): (r: seq<T>)
    ensures |r| == |list| && multiset(r) == multiset(list)
    ensures list != [] ==> r == list[start % |list|..] + list[..start % |list|]
  {
    if list == [] then list
    else
      var n := |list|;
      var idx := JsRem(JsRem(start, n) + n, n);
      NormalizedRemainder(start, n);
      assert list == list[..idx] + list[idx..];
      list[idx..] + list[..idx]
  }

  /** Position `k` of the rotated list holds the element `k` places after `start`. */
  lemma RotateTeamsAt<T>(list: seq<T>, start: int, k: int)
    requires 0 <= k < |list|
    ensures RotateTeams(list, start)[k] == list[(start + k) % |list|]
  {
    var n := |list|;
    var idx := start % n;
    var q := start / n;
    assert start == q * n + idx;
    var r := RotateTeams(list, start);
    assert r == list[idx..] + list[..idx];
    if k < n - idx {
      assert r[k] == list[idx + k];
      ModUnique(start + k, n, q, idx + k);
    } else {
      assert r[k] == list[idx + k - n];
      assert start + k == (q + 1) * n + (idx + k - n);
      ModUnique(start + k, n, q + 1, idx + k - n);
    }
  }

  /** Rotating by a whole number of turns gives the list back. */
  lemma RotateByLength<T>(list: seq<T>)
    ensures RotateTeams(list, |list|) == list
  {
    if list != [] {
      ModUnique(|list|, |list|, 1, 0);
    }
  }

  /** The ids of the team list, in order (`teams.map(t => t.id)`). */
  function TeamIds(teams: seq<Team>): (r: seq<string>)
    ensures |r| == |teams|
    ensures forall i :: 0 <= i < |r| ==> r[i] == teams[i].id
  {
    if teams == [] then [] else [teams[0].id] + TeamIds(teams[1..])
  }

  /** JavaScript's `a || b` on ids: the empty id counts as missing. */
  function OrId(a: string, b: string): string {
    if a != "" then a else b
  }

  /** The team a handler scores: the lyrics cursor's team in a lyrics
      question, otherwise the last guesser, the selected team, or the board
      cursor's team, the first that is set. */
  function AnsweringTeamId(kind: QuestionKind, lyricsTeam: string, lastGuess: string, selected: string, boardTeam: string): (r: string)
    ensures kind == Lyrics ==> r == lyricsTeam
    ensures kind != Lyrics && lastGuess != "" ==> r == lastGuess
    ensures kind != Lyrics && lastGuess == "" && selected != "" ==> r == selected
    ensures kind != Lyrics && lastGuess == "" && selected == "" ==> r == boardTeam
  {
    if kind == Lyrics then lyricsTeam else OrId(OrId(lastGuess, selected), boardTeam)
  }

  /** Adds `delta` to the score of the teams with that id; every other team
      and every other field stays as it was. */
  function AddScore(teams: seq<Team>, id: string, delta: int): (r: seq<Team>)
    ensures |r| == |teams|
    ensures forall i :: 0 <= i < |r| ==> r[i].id == teams[i].id && r[i].name == teams[i].name
    ensures forall i :: 0 <= i < |r| && teams[i].id != id ==> r[i] == teams[i]
    ensures forall i :: 0 <= i < |r| && teams[i].id == id ==> r[i] == teams[i].(score := teams[i].score + delta)
  {
    if teams == [] then []
    else
      var t := teams[0];
      [if t.id == id then t.(score := t.score + delta) else t] + AddScore(teams[1..], id, delta)
  }

  /** Booking a score neither adds nor removes a team id. */
  lemma AddScoreKeepsIds(teams: seq<Team>, id: string, delta: int)
    ensures forall x :: HasTeam(AddScore(teams, id, delta), x) <==> HasTeam(teams, x)
  {
    var r := AddScore(teams, id, delta);
    forall x ensures HasTeam(r, x) <==> HasTeam(teams, x) {
      if HasTeam(r, x) {
        var t :| t in r && t.id == x;
        var i :| 0 <= i < |r| && r[i] == t;
        assert teams[i] in teams && teams[i].id == x;
      }
      if HasTeam(teams, x) {
        var t :| t in teams && t.id == x;
        var i :| 0 <= i < |teams| && teams[i] == t;
        assert r[i] in r && r[i].id == x;
      }
    }
  }

  function TotalScore(teams: seq<Team>): int {
    if teams == [] then 0 else teams[0].score + TotalScore(teams[1..])
  }

  function CountId(teams: seq<Team>, id: string): nat {
    if teams == [] then 0 else (if teams[0].id == id then 1 else 0) + CountId(teams[1..], id)
  }

  /** Booking a score moves the league total by the delta once per team
      with that id: once when ids are unique, not at all for an unknown id. */
  lemma {:induction false} AddScoreTotal(teams: seq<Team>, id: string, delta: int)
    ensures TotalScore(AddScore(teams, id, delta)) == TotalScore(teams) + delta * CountId(teams, id)
  {
    if teams != [] {
      AddScoreTotal(teams[1..], id, delta);
      assert AddScore(teams, id, delta)[1..] == AddScore(teams[1..], id, delta);
    }
  }

  /** Marks the questions with that id answered; nothing else changes. */
  function MarkAnswered(questions: seq<Question>, id: string): (r: seq<Question>)
    ensures |r| == |questions|
    ensures forall i :: 0 <= i < |r| && questions[i].id != id ==> r[i] == questions[i]
    ensures forall i :: 0 <= i < |r| && questions[i].id == id ==> r[i] == questions[i].(answered := true)
  {
    if questions == [] then []
    else
      var q := questions[0];
      [if q.id == id then q.(answered := true) else q] + MarkAnswered(questions[1..], id)
  }

  function UnansweredCount(questions: seq<Question>): nat {
    if questions == [] then 0 else (if questions[0].answered then 0 else 1) + UnansweredCount(questions[1..])
  }

  function OpenWithId(questions: seq<Question>, id: string): nat {
    if questions == [] then 0
    else (if !questions[0].answered && questions[0].id == id then 1 else 0) + OpenWithId(questions[1..], id)
  }

  /** Answering closes exactly the open questions with that id: one when
      ids are unique and the question was open, none otherwise. */
  lemma {:induction false} MarkAnsweredCloses(questions: seq<Question>, id: string)
    ensures UnansweredCount(MarkAnswered(questions, id)) + OpenWithId(questions, id) == UnansweredCount(questions)
  {
    if questions != [] {
      MarkAnsweredCloses(questions[1..], id);
      assert MarkAnswered(questions, id)[1..] == MarkAnswered(questions[1..], id);
    }
  }

  // ---- lyrics ----

  /** The lyrics grid's decay for one question: each red tile costs
      `perRed = max(1, round(loss / reds))` and the potential never drops
      below `minPot = max(0, round(base - loss))`, where the total loss is the
      base's share of red tiles, `base * reds / tiles`. */
  datatype LyricsDecay = LyricsDecay(perRed: int, minPot: int)

  function Decay(base: int, patternLength: int, segmentCount: int): (d: LyricsDecay)
    ensures d.perRed >= 1 && d.minPot >= 0
    ensures base >= 0 ==> d.minPot <= base
  {
    var redCount := Max(1, patternLength);
    var totalTiles := Max(1, segmentCount);
    var totalRedLoss := (base * redCount) as real / totalTiles as real;
    assert base >= 0 ==> totalRedLoss >= 0.0;
    LyricsDecay(Max(1, Round(totalRedLoss / redCount as real)), Max(0, Round(base as real - totalRedLoss)))
  }

  /** The potential after one red tile: `max(minPot, prev - perRed)`. */
  function AfterRed(d: LyricsDecay, prev: int): (r: int)
    requires d.perRed >= 1
    ensures r >= d.minPot
    ensures prev > d.minPot ==> r < prev
    ensures prev >= d.minPot ==> r <= prev
  {
    Max(d.minPot, prev - d.perRed)
  }

  /** The potential after `k` red tiles from `start`. */
  function AfterReds(d: LyricsDecay, start: int, k: nat): int
    requires d.perRed >= 1
  {
    if k == 0 then start else AfterRed(d, AfterReds(d, start, k - 1))
  }

  /** Red tiles only ever lower the potential, never below the floor, and
      each one below the start costs at least one point until the floor. */
  lemma {:induction false} AfterRedsBounds(d: LyricsDecay, start: int, k: nat)
    requires d.perRed >= 1 && start >= d.minPot
    ensures d.minPot <= AfterReds(d, start, k) <= start
    ensures AfterReds(d, start, k) == d.minPot || AfterReds(d, start, k) <= start - k
  {
    if k > 0 {
      AfterRedsBounds(d, start, k - 1);
    }
  }

  /** A 500-point song of five tiles with two red ones: each red tile costs
      100 and two of them leave 300. */
  lemma LyricsExample()
    ensures Decay(500, 2, 5) == LyricsDecay(100, 300)
    ensures AfterReds(LyricsDecay(100, 300), 500, 2) == 300
  {
    var d := Decay(500, 2, 5);
    assert (500 * 2) as real / 5 as real == 200.0;
    assert Round(200.0 / 2 as real) == 100;
    assert Round(500 as real - 200.0) == 300;
  }

  /** The reward for a correct lyrics answer: `max(0, potential || base)`;
      a potential of exactly zero pays the full base. */
  function LyricsReward(potential: int, base: int): (r: int)
    ensures r >= 0
    ensures potential == 0 ==> r == Max(0, base)
    ensures potential > 0 ==> r == potential
  {
    Max(0, if potential != 0 then potential else base)
  }

  /** Reveals tile `idx`: an already revealed tile leaves the array as it
      is; revealing past the end grows the array, the skipped tiles reading
      as not revealed. */
  function RevealAt(prev: seq<bool>, idx: nat): (r: seq<bool>)
    ensures idx < |prev| && prev[idx] ==> r == prev
    ensures |r| == Max(|prev|, idx + 1) && r[idx]
    ensures forall i :: 0 <= i < |prev| && i != idx ==> r[i] == prev[i]
    ensures forall i :: |prev| <= i < idx ==> !r[i]
  {
    if idx < |prev| then (if prev[idx] then prev else prev[idx := true])
    else prev + seq(idx - |prev|, _ => false) + [true]
  }

  function RevealedCount(s: seq<bool>): nat {
    if s == [] then 0 else (if s[0] then 1 else 0) + RevealedCount(s[1..])
  }

  /** Revealing an in-range tile turns at most one more tile over, and
      revealing it a second time changes nothing. */
  lemma {:induction false} RevealCountsOnce(prev: seq<bool>, idx: nat)
    requires idx < |prev|
    ensures RevealedCount(RevealAt(prev, idx)) == RevealedCount(prev) + (if prev[idx] then 0 else 1)
    ensures RevealAt(RevealAt(prev, idx), idx) == RevealAt(prev, idx)
  {
    if !prev[idx] {
      if idx == 0 {
        assert RevealAt(prev, idx)[1..] == prev[1..];
      } else {
        RevealCountsOnce(prev[1..], idx - 1);
        assert RevealAt(prev, idx)[1..] == RevealAt(prev[1..], idx - 1);
      }
    }
  }

  // ---- geoguesser ----

  /** The geoguesser round's state: whether the map is locked, the
      countdown, whether the timer was used, the potential and whether the
      unlock cost has been charged. */
  datatype GeoRound = GeoRound(mapLocked: bool, countdown: Option<int>, timerUsed: bool, potential: int, costApplied: bool)

  /** `toggleGeoLock` on a geoguesser question: a used timer with the map
      locked stays as it is; unlocking charges the unlock cost once per
      question (never below zero) and starts the countdown; locking stops it. */
  function GeoToggled(g: GeoRound, unlockCost: Option<int>, timerSeconds: Option<int>): (r: GeoRound)
    ensures g.timerUsed && g.mapLocked ==> r == g
    ensures g.mapLocked && !g.timerUsed ==>
              !r.mapLocked && r.timerUsed && r.countdown == Some(timerSeconds.GetOr(10)) && r.costApplied
    ensures g.mapLocked && !g.timerUsed && g.costApplied ==> r.potential == g.potential
    ensures g.mapLocked && !g.timerUsed && !g.costApplied ==>
              r.potential == (if unlockCost.GetOr(0) > 0 then Max(0, g.potential - unlockCost.GetOr(0)) else g.potential)
    ensures !g.mapLocked ==> r == g.(mapLocked := true, countdown := None)
  {
    if g.timerUsed && g.mapLocked then g
    else if g.mapLocked then
      var cost := unlockCost.GetOr(0);
      var charged :=
        if g.costApplied then g
        else g.(potential := if cost > 0 then Max(0, g.potential - cost) else g.potential, costApplied := true);
      charged.(timerUsed := true, countdown := Some(timerSeconds.GetOr(10)), mapLocked := false)
    else g.(mapLocked := true, countdown := None)
  }

  function ToggleTimes(g: GeoRound, unlockCost: Option<int>, timerSeconds: Option<int>, k: nat): GeoRound {
    if k == 0 then g else GeoToggled(ToggleTimes(g, unlockCost, timerSeconds, k - 1), unlockCost, timerSeconds)
  }

  /** However often the map is toggled, the unlock cost is charged at most
      once: the potential is either untouched or lowered by the cost, never
      below zero. */
  lemma {:induction false} UnlockCostChargedOnce(g: GeoRound, unlockCost: Option<int>, timerSeconds: Option<int>, k: nat)
    requires g.potential >= 0
    ensures var r := ToggleTimes(g, unlockCost, timerSeconds, k);
            r.potential >= 0
            && (g.costApplied ==> r.potential == g.potential)
            && (r.potential == g.potential
                || (!g.costApplied && r.costApplied && r.potential == Max(0, g.potential - unlockCost.GetOr(0))))
  {
    if k > 0 {
      UnlockCostChargedOnce(g, unlockCost, timerSeconds, k - 1);
    }
  }

  /** The reward for a correct geoguesser answer: the potential, not below zero. */
  function GeoReward(potential: int): (r: int)
    ensures r >= 0 && r >= potential
    ensures potential >= 0 ==> r == potential
  {
    Max(0, potential)
  }

  /** The penalty for a wrong geoguesser answer: the base, plus the unlock
      cost once it has been charged. */
  function GeoPenalty(base: int, costApplied: bool, unlockCost: Option<int>): (r: int)
    ensures !costApplied ==> r == base
    ensures costApplied ==> r == base + unlockCost.GetOr(0)
  {
    base + (if costApplied then unlockCost.GetOr(0) else 0)
  }

  /** The reward and the penalty `markAnswered` books, by mode. */
  function Reward(kind: QuestionKind, base: int, geoPotential: int, lyricsPotential: int): (r: int)
    ensures kind == Geoguesser ==> r == GeoReward(geoPotential)
    ensures kind == Lyrics ==> r == LyricsReward(lyricsPotential, base)
    ensures kind != Geoguesser && kind != Lyrics ==> r == base
  {
    if kind == Geoguesser then GeoReward(geoPotential)
    else if kind == Lyrics then LyricsReward(lyricsPotential, base)
    else base
  }

  function Penalty(kind: QuestionKind, base: int, costApplied: bool, unlockCost: Option<int>): (r: int)
    ensures kind == Geoguesser ==> r == GeoPenalty(base, costApplied, unlockCost)
    ensures kind != Geoguesser ==> r == base
  {
    if kind == Geoguesser then GeoPenalty(base, costApplied, unlockCost) else base
  }

  // ---- timeline ----

  /** The order the timeline's turns go round: the active turn order when a
      turn order has been drawn, otherwise every team in list order. */
  function TimelineOrder(turnOrder: seq<string>, active: seq<string>, teams: seq<Team>): (r: seq<string>)
    ensures turnOrder != [] ==> r == active
    ensures turnOrder == [] ==> r == TeamIds(teams)
  {
    if turnOrder != [] then active else TeamIds(teams)
  }

  /** `findIndex`: the first position of `id`, or -1. */
  function IndexOf(list: seq<string>, id: string): (i: int)
    ensures -1 <= i < |list|
    ensures i >= 0 ==> list[i] == id && forall j :: 0 <= j < i ==> list[j] != id
    ensures i == -1 ==> id !in list
  {
    if list == [] then -1
    else if list[0] == id then 0
    else
      var i := IndexOf(list[1..], id);
      if i == -1 then -1 else i + 1
  }

  /** The timeline winner (the empty id for none): the placer of the last
      event when it was right or when misses do not rotate, otherwise the
      team after the placer in the timeline order (its first team when the
      placer is not in it). */
  function TimelineWinner(correct: bool, rotate: bool, order: seq<string>, placer: string): (w: string)
    ensures correct || !rotate ==> w == placer
    ensures !correct && rotate && order == [] ==> w == ""
    ensures !correct && rotate && order != [] && placer !in order ==> w == order[0]
    ensures !correct && rotate && order != [] && placer in order ==>
              w == order[(IndexOf(order, placer) + 1) % |order|]
  {
    if correct then placer
    else if rotate then
      if order == [] then ""
      else
        var i := IndexOf(order, placer);
        order[if i >= 0 then (i + 1) % |order| else 0]
    else placer
  }

  /** With distinct ids and at least two teams, a last-event miss that
      rotates never rewards the team that missed. */
  lemma RotatedWinnerIsNotPlacer(order: seq<string>, placer: string)
    requires |order| >= 2 && placer in order
    requires forall i, j :: 0 <= i < j < |order| ==> order[i] != order[j]
    ensures TimelineWinner(false, true, order, placer) != placer
  {
    var i := IndexOf(order, placer);
    var j := (i + 1) % |order|;
    if i + 1 < |order| {
      assert j == i + 1;
    } else {
      assert j == 0;
    }
    assert order[j] != order[i];
  }

  /** The potential lost on a miss that does not rotate: `ceil(base / events)`. */
  function MissDecrement(base: int, eventCount: int): (r: int)
    ensures eventCount >= 1 ==> (r - 1) * eventCount < base <= r * eventCount
    ensures base >= 0 ==> r >= 0
  {
    CeilDiv(base, Max(1, eventCount))
  }

  /** The potential after `k` misses: `max(0, prev - decrement)` each time. */
  function AfterMisses(potential: int, decrement: int, k: nat): (r: int)
    ensures r >= 0 || (k == 0 && r == potential)
  {
    if k == 0 then potential else Max(0, AfterMisses(potential, decrement, k - 1) - decrement)
  }

  /** Missing every event without rotation drains the whole base: after as
      many misses as there are events, nothing is left to win. */
  lemma {:induction false} AllMissesDrainPotential(base: int, eventCount: int, k: nat)
    requires base >= 0 && eventCount >= 1 && k <= eventCount
    ensures AfterMisses(base, MissDecrement(base, eventCount), k) == Max(0, base - k * MissDecrement(base, eventCount))
  {
    var d := MissDecrement(base, eventCount);
    if k > 0 {
      AllMissesDrainPotential(base, eventCount, k - 1);
      if base - (k - 1) * d <= 0 {
        assert base - k * d <= 0 by { assert d >= 0; }
      }
    }
  }

  lemma AllEventsMissedLeavesNothing(base: int, eventCount: int)
    requires base >= 0 && eventCount >= 1
    ensures AfterMisses(base, MissDecrement(base, eventCount), eventCount) == 0
  {
    AllMissesDrainPotential(base, eventCount, eventCount);
  }
}
