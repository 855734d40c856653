/** The joker round: its setup from a question's settings and the random
    draws (src/app/game/page.tsx, `openQuestion`), the score step of one
    guess (`handleJokerGuess`), and what the joker modal derives from a
    round and its progress (src/components/game/modals/JokerModal.tsx). */
module Joker {
  import opened Common
  import opened Domain

  /** The numbers a round is set up with. */
  datatype JokerSetup = JokerSetup(count: int, minVal: int, maxVal: int, base: int, increment: int)

  /** The cell count clamped into [3, 9] (5 when unset), the range (1 to 9
      by default, the upper end pushed above the lower one), and the
      per-guess increment `max(0, round((2 * base - base) / count))`. */
  function Setup(jokerCount: Option<int>, jokerMin: Option<int>, jokerMax: Option<int>, points: int): (s: JokerSetup)
    ensures 3 <= s.count <= 9
    ensures jokerCount.None? ==> s.count == 5
    ensures jokerCount.Some? && 3 <= jokerCount.value <= 9 ==> s.count == jokerCount.value
    ensures jokerCount.Some? && jokerCount.value < 3 ==> s.count == 3
    ensures jokerCount.Some? && jokerCount.value > 9 ==> s.count == 9
    ensures s.minVal == jokerMin.GetOr(1) && s.minVal < s.maxVal
    ensures jokerMax.GetOr(9) > s.minVal ==> s.maxVal == jokerMax.GetOr(9)
    ensures jokerMax.GetOr(9) <= s.minVal ==> s.maxVal == s.minVal + 1
    ensures s.base == points && s.increment >= 0
    ensures points >= 0 ==> 2 * (s.increment * s.count - points) <= s.count
                            && 2 * (points - s.increment * s.count) < s.count
  {
    var count := Max(3, Min(9, jokerCount.GetOr(5)));
    var minVal := jokerMin.GetOr(1);
    var maxVal := if minVal >= jokerMax.GetOr(9) then minVal + 1 else jokerMax.GetOr(9);
    var quotient := points as real / count as real;
    var increment := Max(0, Round(quotient));
    RoundedShareBounds(points, count);
    JokerSetup(count, minVal, maxVal, points, increment)
  }

  lemma MulLe(a: real, b: real, c: real)
    requires a <= b && c > 0.0
    ensures a * c <= b * c
  {
    assert b * c - a * c == (b - a) * c;
  }

  lemma MulLt(a: real, b: real, c: real)
    requires a < b && c > 0.0
    ensures a * c < b * c
  {
    assert b * c - a * c == (b - a) * c;
  }

  /** Rounding an even share of `points` over `count` cells misses the exact
      share by at most half a point per cell. */
  lemma RoundedShareBounds(points: int, count: int)
    requires count > 0
    ensures var k := Round(points as real / count as real);
            points >= 0 ==> k >= 0 && 2 * (k * count - points) <= count && 2 * (points - k * count) < count
  {
    var q := points as real / count as real;
    var k := Round(q);
    ScaledRounding(q, k as real, count as real, points as real);
    IntProductAsReal(k, count);
    var m := k * count;
    assert 2 * m <= 2 * points + count by {
      assert (2 * m) as real <= (2 * points + count) as real;
    }
    assert 2 * points - count < 2 * m by {
      assert (2 * points - count) as real < (2 * m) as real;
    }
    if points >= 0 {
      assert q >= 0.0;
    }
  }

  /** A value within half of `q`, scaled by `c`, is within half of `c` of `q * c`. */
  lemma ScaledRounding(q: real, kr: real, c: real, p: real)
    requires c > 0.0 && q == p / c && q - 0.5 < kr <= q + 0.5
    ensures 2.0 * (kr * c) <= 2.0 * p + c && 2.0 * p - c < 2.0 * (kr * c)
  {
    MulLe(kr, q + 0.5, c);
    MulLt(q - 0.5, kr, c);
    assert q * c == p;
    assert (q + 0.5) * c == p + 0.5 * c;
    assert (q - 0.5) * c == p - 0.5 * c;
  }

  lemma IntProductAsReal(a: int, b: int)
    ensures (a * b) as real == a as real * b as real
  {
  }

  /** `correctDirs`: "above" exactly where the target is above the number. */
  function CorrectDirs(numbers: seq<int>, targets: seq<int>): (dirs: seq<Direction>)
    requires |numbers| == |targets|
    ensures |dirs| == |numbers|
    ensures forall i :: 0 <= i < |dirs| ==> (dirs[i] == Above <==> targets[i] > numbers[i])
  {
    if numbers == [] then []
    else [if targets[0] > numbers[0] then Above else Below] + CorrectDirs(numbers[1..], targets[1..])
  }

  /** The target the draws from `pos` on give for one number, when
      `attempts` redraws have been spent: a draw that differs from the
      number is taken; after ten redraws a draw that still equals it is
      moved one step inward (down from the maximum, up otherwise). Returns
      the target and the next unused draw. */
  function TargetFrom(num: int, lo: int, hi: int, draw: nat -> real, pos: nat, attempts: nat): (r: (int, nat))
    requires RandomOracle(draw) && lo < hi && lo <= num <= hi && attempts <= 10
    ensures lo <= r.0 <= hi && r.0 != num
    ensures pos < r.1 <= pos + 11 - attempts
    decreases 10 - attempts
  {
    var t := Rand(draw(pos), lo, hi);
    if t != num then (t, pos + 1)
    else if attempts == 10 then (if num == hi then num - 1 else num + 1, pos + 1)
    else TargetFrom(num, lo, hi, draw, pos + 1, attempts + 1)
  }

  /** The targets the draws from `pos` on give for the numbers, one after
      the other, and the next unused draw. */
  function Targets(numbers: seq<int>, lo: int, hi: int, draw: nat -> real, pos: nat): (r: (seq<int>, nat))
    requires RandomOracle(draw) && lo < hi
    requires forall i :: 0 <= i < |numbers| ==> lo <= numbers[i] <= hi
    ensures |r.0| == |numbers| && pos + |numbers| <= r.1
    ensures forall i :: 0 <= i < |numbers| ==> lo <= r.0[i] <= hi && r.0[i] != numbers[i]
    decreases |numbers|
  {
    if numbers == [] then ([], pos)
    else
      var first := TargetFrom(numbers[0], lo, hi, draw, pos, 0);
      var rest := Targets(numbers[1..], lo, hi, draw, first.1);
      ([first.0] + rest.0, rest.1)
  }

  /** The target drawn for one number: redrawn up to ten times while it
      equals the number, then, if it still does, moved one step inward
      (down from the maximum, up otherwise). Returns the next unused draw. */
  method PickTarget(num: int, lo: int, hi: int, draw: nat -> real, pos: nat) returns (target: int, next: nat)
    requires RandomOracle(draw) && lo < hi && lo <= num <= hi
    ensures (target, next) == TargetFrom(num, lo, hi, draw, pos, 0)
    ensures lo <= target <= hi && target != num
    ensures pos < next <= pos + 11
    ensures forall k :: pos <= k < next - 1 ==> Rand(draw(k), lo, hi) == num
    ensures Rand(draw(next - 1), lo, hi) != num ==> target == Rand(draw(next - 1), lo, hi)
    ensures Rand(draw(next - 1), lo, hi) == num ==>
              next == pos + 11 && target == (if num == hi then num - 1 else num + 1)
  {
    target := Rand(draw(pos), lo, hi);
    next := pos + 1;
    var attempts := 0;
    while target == num && attempts < 10
      invariant 0 <= attempts <= 10 && next == pos + 1 + attempts
      invariant target == Rand(draw(next - 1), lo, hi)
      invariant forall k :: pos <= k < next - 1 ==> Rand(draw(k), lo, hi) == num
      invariant TargetFrom(num, lo, hi, draw, pos, 0) == TargetFrom(num, lo, hi, draw, next - 1, attempts)
    {
      target := Rand(draw(next), lo, hi);
      next := next + 1;
      attempts := attempts + 1;
    }
    if target == num {
      target := if num == hi then num - 1 else num + 1;
    }
  }

  /** The cell numbers: one draw each, in order. */
  method DrawNumbers(count: int, lo: int, hi: int, draw: nat -> real, pos: nat) returns (numbers: seq<int>)
    requires RandomOracle(draw) && count >= 0 && lo < hi
    ensures |numbers| == count
    ensures forall i :: 0 <= i < count ==> numbers[i] == Rand(draw(pos + i), lo, hi)
    ensures forall i :: 0 <= i < count ==> lo <= numbers[i] <= hi
  {
    numbers := [];
    while |numbers| < count
      invariant |numbers| <= count
      invariant forall i :: 0 <= i < |numbers| ==> numbers[i] == Rand(draw(pos + i), lo, hi)
    {
      numbers := numbers + [Rand(draw(pos + |numbers|), lo, hi)];
    }
  }

  /** `numbers.map(...)` picking a target for each number in order. */
  method DrawTargets(numbers: seq<int>, lo: int, hi: int, draw: nat -> real, pos: nat) returns (targets: seq<int>, next: nat)
    requires RandomOracle(draw) && lo < hi
    requires forall i :: 0 <= i < |numbers| ==> lo <= numbers[i] <= hi
    ensures (targets, next) == Targets(numbers, lo, hi, draw, pos)
    ensures |targets| == |numbers| && pos + |numbers| <= next
    ensures forall i :: 0 <= i < |numbers| ==> lo <= targets[i] <= hi && targets[i] != numbers[i]
  {
    targets := [];
    next := pos;
    DrawnNothing(numbers, lo, hi, draw, pos);
    while |targets| < |numbers|
      invariant Drawn(numbers, targets, lo, hi, draw, pos, next)
    {
      var t, after := PickTarget(numbers[|targets|], lo, hi, draw, next);
      DrawnOneMore(numbers, targets, lo, hi, draw, pos, next, t, after);
      targets := targets + [t];
      next := after;
    }
    DrawnAll(numbers, targets, lo, hi, draw, pos, next);
  }

  /** `targets` are the first targets the draws from `pos` give, and the
      rest follow from draw `next` on. */
  predicate Drawn(numbers: seq<int>, targets: seq<int>, lo: int, hi: int, draw: nat -> real, pos: nat, next: nat)
    requires RandomOracle(draw) && lo < hi
    requires forall i :: 0 <= i < |numbers| ==> lo <= numbers[i] <= hi
  {
    |targets| <= |numbers|
    && var rest := Targets(numbers[|targets|..], lo, hi, draw, next);
       Targets(numbers, lo, hi, draw, pos) == (targets + rest.0, rest.1)
  }

  lemma DrawnNothing(numbers: seq<int>, lo: int, hi: int, draw: nat -> real, pos: nat)
    requires RandomOracle(draw) && lo < hi
    requires forall i :: 0 <= i < |numbers| ==> lo <= numbers[i] <= hi
    ensures Drawn(numbers, [], lo, hi, draw, pos, pos)
  {
    assert numbers[0..] == numbers;
    assert [] + Targets(numbers, lo, hi, draw, pos).0 == Targets(numbers, lo, hi, draw, pos).0;
  }

  lemma DrawnOneMore(numbers: seq<int>, targets: seq<int>, lo: int, hi: int, draw: nat -> real, pos: nat, next: nat, t: int, after: nat)
    requires RandomOracle(draw) && lo < hi
    requires forall i :: 0 <= i < |numbers| ==> lo <= numbers[i] <= hi
    requires Drawn(numbers, targets, lo, hi, draw, pos, next) && |targets| < |numbers|
    requires (t, after) == TargetFrom(numbers[|targets|], lo, hi, draw, next, 0)
    ensures Drawn(numbers, targets + [t], lo, hi, draw, pos, after)
  {
    var i := |targets|;
    var first := TargetFrom(numbers[i], lo, hi, draw, next, 0);
    assert first.0 == t && first.1 == after;
    TargetsUnfold(numbers, i, lo, hi, draw, next);
    var here := Targets(numbers[i..], lo, hi, draw, next);
    var rest := Targets(numbers[i + 1..], lo, hi, draw, after);
    assert here == ([t] + rest.0, rest.1);
    AppendAssoc(targets, [t], rest.0);
  }

  lemma TargetsUnfold(numbers: seq<int>, i: nat, lo: int, hi: int, draw: nat -> real, pos: nat)
    requires RandomOracle(draw) && lo < hi && i < |numbers|
    requires forall k :: 0 <= k < |numbers| ==> lo <= numbers[k] <= hi
    ensures var first := TargetFrom(numbers[i], lo, hi, draw, pos, 0);
            var rest := Targets(numbers[i + 1..], lo, hi, draw, first.1);
            Targets(numbers[i..], lo, hi, draw, pos) == ([first.0] + rest.0, rest.1)
  {
    assert numbers[i..][0] == numbers[i] && numbers[i..][1..] == numbers[i + 1..];
  }

  lemma DrawnAll(numbers: seq<int>, targets: seq<int>, lo: int, hi: int, draw: nat -> real, pos: nat, next: nat)
    requires RandomOracle(draw) && lo < hi
    requires forall i :: 0 <= i < |numbers| ==> lo <= numbers[i] <= hi
    requires Drawn(numbers, targets, lo, hi, draw, pos, next) && |targets| >= |numbers|
    ensures (targets, next) == Targets(numbers, lo, hi, draw, pos)
  {
    assert numbers[|targets|..] == [];
    assert targets + [] == targets;
  }

  /** The joker's cell: `Math.floor(r * count)`. */
  function JokerCell(r: real, count: int): (i: int)
    requires 0.0 <= r < 1.0 && count >= 1
    ensures 0 <= i < count
  {
    var n := count as real;
    assert 0.0 <= r * n < n by {
      assert r * n <= n - (1.0 - r) * n;
    }
    (r * n).Floor
  }

  /** Draws a round: one number per cell, then a target per number, then
      the joker's cell and its slot. */
  method GenerateRound(setup: JokerSetup, draw: nat -> real, pos: nat) returns (round: JokerRound, next: nat)
    requires RandomOracle(draw) && setup.count >= 1 && setup.minVal < setup.maxVal
    ensures |round.numbers| == |round.targets| == |round.correctDirs| == setup.count
    ensures forall i :: 0 <= i < setup.count ==> round.numbers[i] == Rand(draw(pos + i), setup.minVal, setup.maxVal)
    ensures forall i :: 0 <= i < setup.count ==>
              setup.minVal <= round.targets[i] <= setup.maxVal && round.targets[i] != round.numbers[i]
    ensures forall i :: 0 <= i < setup.count ==> (round.correctDirs[i] == Above <==> round.targets[i] > round.numbers[i])
    ensures pos + setup.count + 2 <= next
    ensures 0 <= round.jokerIndex < setup.count
    ensures round.jokerIndex == JokerCell(draw(next - 2), setup.count)
    ensures round.jokerPosition == if draw(next - 1) < 0.5 then Above else Below
    ensures round.increment == setup.increment
    ensures forall i :: 0 <= i < setup.count ==> setup.minVal <= round.numbers[i] <= setup.maxVal
    ensures round.targets == Targets(round.numbers, setup.minVal, setup.maxVal, draw, pos + setup.count).0
    ensures next == Targets(round.numbers, setup.minVal, setup.maxVal, draw, pos + setup.count).1 + 2
  {
    var numbers := DrawNumbers(setup.count, setup.minVal, setup.maxVal, draw, pos);
    var targets, after := DrawTargets(numbers, setup.minVal, setup.maxVal, draw, pos + setup.count);
    var dirs := CorrectDirs(numbers, targets);
    var jokerIndex := JokerCell(draw(after), setup.count);
    var jokerPosition := if draw(after + 1) < 0.5 then Above else Below;
    next := after + 2;
    round := JokerRound(numbers, targets, dirs, jokerIndex, jokerPosition, setup.increment);
  }

  /** Every list of the round and of the progress has one entry per cell,
      and play has not gone backwards. */
  ghost predicate WellFormed(round: JokerRound, p: JokerProgress) {
    |round.targets| == |round.numbers| && |round.correctDirs| == |round.numbers|
    && |p.results| == |round.numbers| && |p.chosenPositions| == |round.numbers|
    && p.currentIndex >= 0
  }

  /** The progress a round starts from: nothing guessed, the score at base. */
  function InitialProgress(count: nat, base: int): (p: JokerProgress)
    ensures |p.results| == count && |p.chosenPositions| == count
    ensures forall i :: 0 <= i < count ==> p.results[i] == Pending && p.chosenPositions[i].None?
    ensures p.currentIndex == 0 && p.score == base && !p.finished
  {
    JokerProgress(0, seq(count, _ => Pending), base, false, seq(count, _ => None))
  }

  /** The cell the next guess acts on: play starts from the rightmost cell. */
  function ActiveIndex(round: JokerRound, p: JokerProgress): (idx: int)
    ensures 0 <= p.currentIndex < |round.numbers| ==> 0 <= idx < |round.numbers|
    ensures p.currentIndex == 0 ==> idx == |round.numbers| - 1
  {
    |round.numbers| - 1 - p.currentIndex
  }

  /** What one guess yields: the new progress and whether it was a miss
      (a miss is what may pass the turn on). */
  datatype GuessResult = GuessResult(progress: JokerProgress, missed: bool)

  /** The progress after a guess of `position` on the active cell, or
      `None` when there is no active cell. Hitting the joker's slot ends
      the round at twice the base; any other guess marks the cell and moves
      the score by one increment, kept inside [base, 2 * base]. */
  function Step(round: JokerRound, p: JokerProgress, position: Direction, base: int): (r: Option<GuessResult>)
    requires WellFormed(round, p)
    ensures r.None? <==> p.currentIndex >= |round.numbers|
    ensures r.Some? ==> WellFormed(round, r.value.progress)
    ensures r.Some? ==>
      var idx := ActiveIndex(round, p);
      var q := r.value.progress;
      q.currentIndex == p.currentIndex + 1
      && q.chosenPositions == p.chosenPositions[idx := Some(position)]
      && q.results == p.results[idx := q.results[idx]]
      && (if round.jokerIndex == idx && round.jokerPosition == position then
            q.results[idx] == JokerHit && q.score == 2 * base && q.finished && !r.value.missed
          else
            (q.results[idx] == Correct <==> round.correctDirs[idx] == position)
            && (q.results[idx] == Wrong <==> round.correctDirs[idx] != position)
            && (r.value.missed <==> round.correctDirs[idx] != position)
            && (q.finished <==> p.currentIndex + 1 >= |round.numbers|)
            && (base >= 0 ==> base <= q.score <= 2 * base)
            && (var moved := if r.value.missed then p.score - round.increment else p.score + round.increment;
                (base <= moved <= 2 * base ==> q.score == moved)
                && (base <= 2 * base < moved ==> q.score == 2 * base)
                && (moved < base <= 2 * base ==> q.score == base))
            && (!r.value.missed && round.increment >= 0 && p.score <= 2 * base ==> q.score >= p.score)
            && (r.value.missed && round.increment >= 0 && p.score >= base ==> q.score <= p.score))
  {
    var total := |round.numbers|;
    var idx := total - 1 - p.currentIndex;
    if idx < 0 || idx >= total then None
    else
      var chosen := p.chosenPositions[idx := Some(position)];
      if round.jokerIndex == idx && round.jokerPosition == position then
        Some(GuessResult(JokerProgress(p.currentIndex + 1, p.results[idx := JokerHit], 2 * base, true, chosen), false))
      else
        var correct := round.correctDirs[idx] == position;
        var delta := if correct then round.increment else -round.increment;
        var score := Max(base, Min(2 * base, p.score + delta));
        var nextIndex := p.currentIndex + 1;
        Some(GuessResult(
          JokerProgress(nextIndex, p.results[idx := if correct then Correct else Wrong], score, nextIndex >= total, chosen),
          !correct))
  }

  /** `guessesLeft`. */
  function GuessesLeft(round: JokerRound, p: JokerProgress): (n: int)
    ensures n >= 0
    ensures p.finished ==> n == 0
    ensures p.currentIndex >= 0 ==> n <= |round.numbers|
    ensures n == 0 <==> p.finished || p.currentIndex >= |round.numbers|
  {
    if p.finished then 0 else Max(|round.numbers| - p.currentIndex, 0)
  }

  /** `canGuess`. */
  predicate CanGuess(p: JokerProgress, disabled: bool)
    ensures p.finished || disabled ==> !CanGuess(p, disabled)
  {
    !p.finished && !disabled
  }

  /** `foundJoker`. */
  predicate FoundJoker(p: JokerProgress)
    ensures FoundJoker(p) <==> exists i :: 0 <= i < |p.results| && CellStatus(p, i) == JokerHit
  {
    assert forall i :: 0 <= i < |p.results| ==> CellStatus(p, i) == p.results[i];
    JokerHit in p.results
  }

  /** A guess circle takes clicks only on the active cell while guessing is allowed. */
  predicate CircleActive(round: JokerRound, p: JokerProgress, idx: int, disabled: bool)
    ensures CircleActive(round, p, idx, disabled) ==> CanGuess(p, disabled)
    ensures CircleActive(round, p, idx, disabled) && 0 <= p.currentIndex < |round.numbers| ==> 0 <= idx < |round.numbers|
  {
    idx == ActiveIndex(round, p) && CanGuess(p, disabled)
  }

  /** A cell's result, pending past the end of the list. */
  function CellStatus(p: JokerProgress, idx: int): (r: JokerResult)
    ensures r != Pending ==> 0 <= idx < |p.results| && r in p.results
  {
    if 0 <= idx < |p.results| then p.results[idx] else Pending
  }

  predicate Chosen(p: JokerProgress, idx: int, position: Direction) {
    0 <= idx < |p.chosenPositions| && p.chosenPositions[idx] == Some(position)
  }

  /** The colour a circle shows: its cell's result if it is the slot that
      was chosen, pending otherwise. */
  function DisplayStatus(p: JokerProgress, idx: int, position: Direction): (r: JokerResult)
    ensures r != Pending ==> Chosen(p, idx, position) && r == CellStatus(p, idx)
  {
    if Chosen(p, idx, position) then CellStatus(p, idx) else Pending
  }

  /** A circle shows its target once it was chosen and judged. */
  predicate RevealTarget(p: JokerProgress, idx: int, position: Direction)
    ensures RevealTarget(p, idx, position) <==> DisplayStatus(p, idx, position) != Pending
  {
    Chosen(p, idx, position) && CellStatus(p, idx) != Pending
  }

  /** "Apply score" is enabled once the round is finished. */
  predicate ApplyEnabled(p: JokerProgress, disabled: bool)
    ensures ApplyEnabled(p, disabled) ==> !CanGuess(p, disabled)
    ensures !disabled ==> (ApplyEnabled(p, disabled) <==> !CanGuess(p, disabled))
  {
    p.finished && !disabled
  }

  /** A guess spends exactly one of the guesses left, or all of them when
      it finds the joker. */
  lemma GuessSpendsOne(round: JokerRound, p: JokerProgress, position: Direction, base: int)
    requires WellFormed(round, p) && !p.finished && !FoundJoker(p) && p.currentIndex < |round.numbers|
    ensures Step(round, p, position, base).Some?
    ensures var q := Step(round, p, position, base).value.progress;
            GuessesLeft(round, q) == if FoundJoker(q) then 0 else GuessesLeft(round, p) - 1
  {
    var idx := ActiveIndex(round, p);
    var q := Step(round, p, position, base).value.progress;
    if round.jokerIndex == idx && round.jokerPosition == position {
      assert q.results[idx] == JokerHit;
    } else {
      forall i | 0 <= i < |q.results| ensures q.results[i] != JokerHit {
        if i != idx { assert q.results[i] == p.results[i]; }
      }
    }
  }

  /** A guess turns up the joker exactly when it hits the joker's cell and slot. */
  lemma FoundJokerIffHit(round: JokerRound, p: JokerProgress, position: Direction, base: int)
    requires WellFormed(round, p) && !FoundJoker(p) && p.currentIndex < |round.numbers|
    ensures var idx := ActiveIndex(round, p);
            FoundJoker(Step(round, p, position, base).value.progress) <==>
              (round.jokerIndex == idx && round.jokerPosition == position)
  {
    var idx := ActiveIndex(round, p);
    var q := Step(round, p, position, base).value.progress;
    if round.jokerIndex == idx && round.jokerPosition == position {
      assert q.results[idx] == JokerHit;
    } else {
      forall i | 0 <= i < |q.results| ensures q.results[i] != JokerHit {
        if i != idx { assert q.results[i] == p.results[i]; }
      }
    }
  }

  /** After a guess, the chosen circle of the acted-on cell shows its result
      and its target, and the other circle of that cell stays blank. */
  lemma GuessRevealsChosenCircle(round: JokerRound, p: JokerProgress, position: Direction, other: Direction, base: int)
    requires WellFormed(round, p) && p.currentIndex < |round.numbers| && other != position
    ensures var idx := ActiveIndex(round, p);
            var q := Step(round, p, position, base).value.progress;
            DisplayStatus(q, idx, position) == q.results[idx] != Pending
            && RevealTarget(q, idx, position)
            && DisplayStatus(q, idx, other) == Pending && !RevealTarget(q, idx, other)
  {
  }

  /** At most one cell takes clicks, and none once the round is finished. */
  lemma AtMostOneActiveCell(round: JokerRound, p: JokerProgress, i: int, j: int, disabled: bool)
    requires CircleActive(round, p, i, disabled) && CircleActive(round, p, j, disabled)
    ensures i == j && !p.finished && !disabled
  {
  }

  /** Plays the given guesses in order until the round ends. */
  function Play(round: JokerRound, p: JokerProgress, guesses: seq<Direction>, base: int): (q: JokerProgress)
    requires WellFormed(round, p)
    ensures WellFormed(round, q)
    decreases |guesses|
  {
    if guesses == [] || p.finished then p
    else match Step(round, p, guesses[0], base)
      case None => p
      case Some(g) => Play(round, g.progress, guesses[1..], base)
  }

  /** A fresh round ends after at most one guess per cell. */
  lemma {:induction false} PlayFinishes(round: JokerRound, p: JokerProgress, guesses: seq<Direction>, base: int)
    requires WellFormed(round, p) && p.currentIndex < |round.numbers|
    requires |guesses| >= |round.numbers| - p.currentIndex
    ensures Play(round, p, guesses, base).finished
    decreases |guesses|
  {
    if !p.finished {
      var g := Step(round, p, guesses[0], base).value;
      if !g.progress.finished {
        PlayFinishes(round, g.progress, guesses[1..], base);
      }
    }
  }

  /** A finished round can be applied unless actions are disabled, and
      an unfinished one can never be. */
  lemma ApplyOnlyWhenFinished(round: JokerRound, guesses: seq<Direction>, base: int)
    requires |round.targets| == |round.numbers| && |round.correctDirs| == |round.numbers|
    requires |round.numbers| > 0 && |guesses| >= |round.numbers|
    ensures ApplyEnabled(Play(round, InitialProgress(|round.numbers|, base), guesses, base), false)
    ensures !ApplyEnabled(InitialProgress(|round.numbers|, base), false)
  {
    PlayFinishes(round, InitialProgress(|round.numbers|, base), guesses, base);
  }
}
