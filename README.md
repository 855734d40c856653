# Kimquizak trivia board — a Dafny model of its game core

Kimquizak is a browser trivia game: teams take turns picking a cell of a
category × points board, and each question is played in one of several modes.
The modes are standard, multiple choice, lyrics (a grid of tiles, some red),
geoguesser (a map behind a lock), audio, joker (a row of number cells with an
above/below guess on each) and timeline (events dropped onto a year line).
This project models the rules the board applies and proves properties of them.

- **Turn-order cell** (`TurnState`): the persisted order of team ids with its
  board and lyrics cursors, as a class whose methods update the fields.
- **Game session** (`Engine.GameSession`): one field per state cell of the game
  page, and one method per handler. Each handler is also given as a pure
  function from the session value before to the value after (`Handlers`).
  Every method's postcondition ties its new state to that function. The
  functions reproduce React's behaviour as the page relies on it:
  - a handler reads the values of the render it was called in;
  - functional updaters compose in call order;
  - when a cell is set twice, the last write wins.

  Two stale reads that follow from this are stated as lemmas:
  - `StaleJokerSelection`: the team a joker miss selects can differ from the
    new board team.
  - `LastMissAwardsStalePotential`: the timeline award reads the potential
    from before the same placement lowered it.
- **Pure rules** (`EngineRules`): the active turn order, the list rotation,
  score booking, lyrics decay, the geoguesser lock, the timeline winner and the
  miss decrement.
- **Joker round** (`Joker`): the setup clamping, the random generation (as
  loops over a stream of `Math.random` draws), one guess step, and the
  derivations the joker modal shows.
- **Timeline board** (`Timeline`): the year sort, the grouping of
  equal-year runs (a loop), the drop zones and the judgement of a drop.
- **Question editor** (`QuestionsConfig`): the bulk "YEAR [BC], prompt, text"
  parser, read back against the lines the editor itself writes for stored
  events (so "0 BC" comes back as "0 AC"), and the number-field clamps. It also
  covers the form patch and the category operations on the question list.
- **Backup restore** (`Backup`), **team roster editor** (`Roster`), and the
  **leaderboard fallback look** (`Leaderboard`).
- **Home-page theme helpers** (`Theme`): the `#rgb`/`#rrggbb` colour decoder
  and applying a badge theme to the teams.

JavaScript semantics are written out where the source depends on them:
- `Math.round` rounds halves upward.
- `%` takes the sign of the dividend.
- `x | 0` wraps to a signed 32-bit value.
- `charCodeAt` works on UTF-16 code units.
- `parseInt(s, 16)` skips leading white space and accepts a sign, a `0x`
  prefix and a run of hex digits.
- `replace("#", "")` drops only the first `#`.
- `||` treats `0` and `""` as missing; `??` treats only `undefined` and `null`
  as missing.

## Model

| member | source | states |
|---|---|---|
| TurnState.AdvancesFromStart | src/hooks/useTurnState.ts:24-29 | k board advances from cursor 0 land on index k mod n |
| TurnState.FullCycle | src/hooks/useTurnState.ts:24-29 | advancing from the start visits every index once and is back at 0 after n advances |
| TurnState.AdvancesStayInRange | src/hooks/useTurnState.ts:24-36 | any number of advances keeps an in-range cursor in range |
| TurnState.Advanced | src/hooks/useTurnState.ts:24-36 | an advance over an empty order keeps the cursor; otherwise it lands in range, one step on, wrapping at the end |
| TurnState.IdAt | src/app/game/page.tsx:145-152 | the id a cursor names is a member of the order (the empty id for an empty order), and is `order[cursor]` for an in-range cursor |
| TurnState.TurnStore.constructor | src/hooks/useTurnState.ts:8-15 | the cell starts with an empty order and both cursors at 0 |
| TurnState.TurnStore.SetOrder | src/hooks/useTurnState.ts:17-22 | the new order is stored and both cursors reset to 0 |
| TurnState.TurnStore.AdvanceBoard | src/hooks/useTurnState.ts:24-29 | only the board cursor moves, by one advance; the cursors stay valid |
| TurnState.TurnStore.AdvanceLyrics | src/hooks/useTurnState.ts:31-36 | only the lyrics cursor moves, by one advance; the cursors stay valid |
| TurnState.TurnStore.SyncLyricsToBoard | src/app/game/page.tsx:296 | the lyrics cursor takes the board cursor's value; nothing else changes |
| TurnState.TurnStore.Reset | src/hooks/useTurnState.ts:38-43 | the cell returns to its default |
| EngineRules.ActiveOrder | src/app/game/page.tsx:123-126 | the active order holds exactly the ids of the turn order that name a team |
| EngineRules.ActiveOrderCount | src/app/game/page.tsx:123-126 | each id that names a team is in the active order as often as in the turn order; other ids not at all |
| EngineRules.ActiveOrderAppend | src/app/game/page.tsx:123-126 | the filter works id by id: the active order of a split turn order is the parts' active orders one after the other, so the kept ids stay in turn order |
| EngineRules.ActiveOrderKeepsPresentTeams | src/app/game/page.tsx:123-126 | when every id names a team, the active order is the turn order itself |
| EngineRules.ActiveOrderSameIds | src/app/game/page.tsx:123-126 | the active order depends only on which ids name a team, not on scores or names |
| EngineRules.TurnTeamId | src/app/game/page.tsx:145-152 | the turn's team is an id of the active order, or the empty id when that is empty |
| EngineRules.NormalizedRemainder | src/app/game/page.tsx:136-143 | `((i % n) + n) % n` with JavaScript's `%` equals the mathematical remainder, also for negative i |
| EngineRules.JsRem | src/app/game/page.tsx:139 | JavaScript's remainder: within (-n, 0] for a negative dividend, [0, n) otherwise |
| EngineRules.RotateTeams | src/app/game/page.tsx:136-143 | the rotation is a permutation of the list that starts at the normalised start |
| EngineRules.RotateTeamsAt | src/app/game/page.tsx:136-143 | position k of the rotation holds the element k places after the start, cyclically |
| EngineRules.RotateByLength | src/app/game/page.tsx:136-143 | rotating by the list's length gives the list back |
| EngineRules.AnsweringTeamId | src/app/game/page.tsx:157-160 | a lyrics question is scored to the lyrics team; any other falls back from the last guesser to the selected team to the board team |
| EngineRules.AddScore | src/app/game/page.tsx:554-565 | only the teams with that id change, and only in their score, by delta; ids, names and order stay |
| EngineRules.AddScoreKeepsIds | src/app/game/page.tsx:554-565 | booking a score neither adds nor removes a team id |
| EngineRules.AddScoreTotal | src/app/game/page.tsx:554-565 | the league total moves by delta once per team carrying the id |
| EngineRules.MarkAnswered | src/app/game/page.tsx:566-570 | exactly the questions with that id become answered; nothing else changes |
| EngineRules.MarkAnsweredCloses | src/app/game/page.tsx:566-570 | the open-question count drops by the number of open questions with that id |
| EngineRules.Decay | src/app/game/page.tsx:440-445 | each red tile costs at least 1, and the floor is at least 0 and, for a non-negative base, at most the base |
| EngineRules.AfterRed | src/app/game/page.tsx:446 | a red tile never takes the potential below the floor, lowers a potential above the floor and never raises one at or above it |
| EngineRules.AfterRedsBounds | src/app/game/page.tsx:440-446 | after k red tiles the potential lies between the floor and its start, and is at the floor or at least k below the start |
| EngineRules.LyricsExample | src/app/game/page.tsx:440-446 | a 500-point song of five tiles with two red ones costs 100 per red tile with a floor of 300, and is worth 300 after both |
| EngineRules.LyricsReward | src/app/game/page.tsx:541-546 | the lyrics reward is the potential, or the base when the potential is 0, never below 0 |
| EngineRules.RevealAt | src/app/game/page.tsx:424-429 | an already shown tile leaves the grid as it is; otherwise tile idx shows, no other tile changes, and a grid too short is padded with hidden tiles |
| EngineRules.RevealCountsOnce | src/app/game/page.tsx:424-429 | a reveal shows one more tile unless it already showed, and revealing the same tile twice is revealing it once |
| EngineRules.GeoToggled | src/app/game/page.tsx:512-531 | unlocking a locked, unused map unlocks it, starts the countdown and charges the unlock cost once, not below 0; a used timer keeps the map locked; locking stops the countdown |
| EngineRules.UnlockCostChargedOnce | src/app/game/page.tsx:512-531 | however often the map is toggled, the potential drops by the unlock cost at most once |
| EngineRules.GeoReward | src/app/game/page.tsx:541-546 | a correct geoguesser answer pays the potential, not below 0 |
| EngineRules.GeoPenalty | src/app/game/page.tsx:547-552 | a wrong geoguesser answer costs the base plus the unlock cost when it was charged |
| EngineRules.Reward | src/app/game/page.tsx:541-546 | the reward by mode: the geo potential, the lyrics reward, or the base |
| EngineRules.Penalty | src/app/game/page.tsx:547-552 | the penalty by mode: the geo penalty or the base |
| EngineRules.TimelineOrder | src/app/game/page.tsx:270-282 | the timeline goes round the active order when a turn order is set, otherwise round every team's id |
| EngineRules.IndexOf | src/app/game/page.tsx:815-818 | the first position of the id, or -1 when absent |
| EngineRules.TimelineWinner | src/app/game/page.tsx:807-823 | a right last drop, or a miss without rotation, wins for the placer; a rotating miss wins for the team after the placer in the order (the first one when the placer is not in it, nobody when the order is empty) |
| EngineRules.RotatedWinnerIsNotPlacer | src/app/game/page.tsx:807-823 | with distinct ids and two or more teams, a rotating miss never hands the win to the team that missed |
| EngineRules.MissDecrement | src/app/game/page.tsx:794-799 | a non-rotating miss costs `ceil(base / events)`: the least r with base <= r * events |
| EngineRules.AfterMisses | src/app/game/page.tsx:798 | after at least one miss the potential is not negative |
| EngineRules.AllMissesDrainPotential | src/app/game/page.tsx:794-799 | after k misses out of n events the potential is max(0, base - k * ceil(base / n)) |
| EngineRules.AllEventsMissedLeavesNothing | src/app/game/page.tsx:794-799 | missing all n events without rotation leaves a potential of 0 |
| Handlers.ActiveIdsNeedOrder | src/app/game/page.tsx:123-126 | a non-empty active order needs a non-empty turn order |
| Handlers.ActiveIds | src/app/game/page.tsx:123-126 | the active order is no longer than the turn order and holds exactly the turn order's ids that name a team |
| Handlers.BoardTeam | src/app/game/page.tsx:145-148 | the board team is "" when the active order is empty, otherwise an id of the turn order that names a team |
| Handlers.LyricsTeam | src/app/game/page.tsx:149-152 | the lyrics team is "" when the active order is empty, otherwise an id of the turn order that names a team |
| Handlers.Answering | src/app/game/page.tsx:157-160 | the lyrics team in a lyrics question; otherwise the last guesser if set, else the selected team if set, else the board team |
| Handlers.TimelineIds | src/app/game/page.tsx:270-273 | the active order when a turn order is set, otherwise every team's id in roster order |
| Handlers.TimelineTeam | src/app/game/page.tsx:270-275 | "" for an empty list, otherwise an id of the timeline list, the one at the cursor when the cursor is in range |
| Handlers.BoardAfterTurn | src/app/game/page.tsx:571-573 | the board cursor after a settled question: unchanged when nobody is in the active order, otherwise one advance on and in range |
| Handlers.CloseModal | src/app/game/page.tsx:401-421 | closing leaves nothing open and every round at its default, keeps teams, questions, cursors and the last timeline winner |
| Handlers.Cleared | src/app/game/page.tsx:258-268 | the timeline round is emptied, its center year back to 2000, cursor and potential 0, no last-correct team, no winner name, no "no winner" flag; only the winner's id is kept |
| Handlers.Normalized | src/app/game/page.tsx:291-374 | the modal's copy changes one field at most: a lyrics question carries the drawn red pattern, a geoguesser one its timer or 10 s when unset, an audio one its stop second raised to at least 1, or 10 s when unset; other modes are copied unchanged |
| Handlers.OpenQuestion | src/app/game/page.tsx:284-399 | the board team is selected; the round of the question's mode starts from its defaults; the other rounds are reset except for what the source leaves alone: the lyrics red pattern (not a lyrics question), the geoguesser potential and cost flag (not a geoguesser question) and the timeline winner's id (not a timeline question) carry over |
| Handlers.IsRed | src/app/game/page.tsx:181-182 | a tile is red only in an open lyrics question (its red pattern lists it), where the answering team is the lyrics team |
| Handlers.RedDecay | src/app/game/page.tsx:439-444 | the per-red cost is at least 1, and the floor is between 0 and the question's points |
| Handlers.LyricsGuesser | src/app/game/page.tsx:430-433 | the lyrics team, an id of the turn order naming a team, when the active order is not empty; otherwise the selected team |
| Handlers.RevealLine | src/app/game/page.tsx:423-449 | the tile is turned over and the guess goes to the lyrics team; a red tile lowers the potential and passes the lyrics turn |
| Handlers.RedTilePassesTurn | src/app/game/page.tsx:423-449 | with every id of the order present, a red tile hands the lyrics turn to the next id of the order |
| Handlers.LyricsNextTeam | src/app/game/page.tsx:451-455 | on an open lyrics question the lyrics cursor takes one advance over the turn order (so it moves unless there is only one team); otherwise nothing changes |
| Handlers.ToggleGeoLock | src/app/game/page.tsx:512-531 | on an open geoguesser question the round follows GeoToggled; otherwise nothing changes |
| Handlers.Settle | src/app/game/page.tsx:554-576 | the team's score moves by delta (when there is a team), the question is answered, the board turn passes and the modal closes |
| Handlers.SettleBooksOnce | src/app/game/page.tsx:554-576 | settling moves the league total by delta once per team with that id and closes exactly the open questions with that id |
| Handlers.AnswerDelta | src/app/game/page.tsx:541-560 | a right answer pays the geo potential (not below 0), the lyrics reward or the points; a wrong one costs the points, plus a charged unlock cost in geoguesser |
| Handlers.MarkAnsweredBy | src/app/game/page.tsx:533-576 | with no open question nothing changes; otherwise the answering team is settled with the answer's delta |
| Handlers.AnswerPassesBoardOn | src/app/game/page.tsx:533-576 | with every id of the order present, answering hands the board to the next id of the order |
| Handlers.StaleNext | src/app/game/page.tsx:637-646 | the team a joker miss selects is an id of the active order (the empty id when it is empty) |
| Handlers.JokerPlayable | src/app/game/page.tsx:584-585 | a guess is taken only on an open joker question with a round and an unfinished progress, so a guess is allowed with actions enabled |
| Handlers.JokerGuess | src/app/game/page.tsx:583-647 | a guess on a playable round advances the progress by one step; a rotating miss passes the board turn and selects the next team |
| Handlers.JokerMissSelectsNewBoardTeam | src/app/game/page.tsx:637-646 | with every id of the order present, a rotating miss selects exactly the new board team |
| Handlers.StaleJokerSelection | src/app/game/page.tsx:637-646 | with a team removed from the order, the selected team and the new board team differ (order a,b,c without b, cursor 2) |
| Handlers.FinishJoker | src/app/game/page.tsx:649-672 | the joker progress's score, finished or not, is booked, not below 0, to the answering team and the question settles; only the disabled button (Joker.ApplyOnlyWhenFinished) keeps an unfinished round from being applied |
| Handlers.FinishJokerBooksNoLoss | src/app/game/page.tsx:649-672 | a played joker round books between 0 and twice the question's points |
| Handlers.PlayBounds | src/app/game/page.tsx:583-635 | play keeps the joker score between the base and twice the base |
| Handlers.McqOpen | src/app/game/page.tsx:675-678 | a pick is taken only on an open multiple-choice question with options that is not yet resolved; then no joker guess is taken and no lyrics tile is red |
| Handlers.McqTeam | src/app/game/page.tsx:679 | the last guesser if set, else the selected team if set, else the board team; "" exactly when all three are "" |
| Handlers.McqDelta | src/app/game/page.tsx:684-730 | the right option earns the question's points, any other costs them: the same amount either way |
| Handlers.McqSelect | src/app/game/page.tsx:674-735 | the first pick books the points to the team (plus for the right option, minus otherwise) and records that team's name ("Team" when no team has the id); a right pick passes the board turn |
| Handlers.McqPicksOnce | src/app/game/page.tsx:674-735 | once a pick is resolved, further picks change nothing |
| Handlers.TimelineReady | src/app/game/page.tsx:738-743 | a placement is taken only on an open timeline question whose next event has a year, which is then its sort key |
| Handlers.PlacedRight | src/app/game/page.tsx:749-771 | a drop on a year is right exactly when it is the event's year; a right gap drop is a position of the board |
| Handlers.File | src/app/game/page.tsx:778-786 | a placed event joins the side of the center year it belongs to, and that side is re-sorted |
| Handlers.Judged | src/app/game/page.tsx:765-805 | the event leaves the queue and is filed with its judgement; the sides stay sorted; a miss lowers the potential or rotates the turn, a hit records the placer |
| Handlers.Placement | src/app/game/page.tsx:737-805 | the event leaves the queue and is filed, one more on the board, both sides sorted; a right drop keeps the potential and records the placing team |
| Handlers.RoundWinner | src/app/game/page.tsx:809-825 | a right last drop, or a miss without rotation, is won by the placing team; otherwise the winner is "" or an id of the timeline list |
| Handlers.TimelinePlace | src/app/game/page.tsx:737-848 | a placement before the last event only changes the timeline round; without an open timeline question nothing changes |
| Handlers.TimelineLastEventSettles | src/app/game/page.tsx:807-848 | after the last event the question is answered, the board turn passes and the winner is recorded |
| Handlers.LastMissAwardsStalePotential | src/app/game/page.tsx:825-839 | a missed last event still awards the full potential read before the same placement drained it to 0 |
| Engine.GameSession.constructor | src/app/game/page.tsx:44-101 | the session starts idle with the loaded teams and questions and the turn cell's default (an empty order, both cursors 0); a stored turn order is reached through SetOrder, the advances or Load |
| Engine.GameSession.Load | src/app/game/page.tsx:44-101 | the session takes the given state in every cell |
| Engine.GameSession.CloseModal | src/app/game/page.tsx:401-421 | the new state is Handlers.CloseModal of the old |
| Engine.GameSession.OpenQuestion | src/app/game/page.tsx:284-399 | a joker round is drawn by GenerateRound; the new state is Handlers.OpenQuestion of the old with that round |
| Engine.GameSession.RevealLine | src/app/game/page.tsx:423-449 | the new state is Handlers.RevealLine of the old |
| Engine.GameSession.LyricsNextTeam | src/app/game/page.tsx:451-455 | the new state is Handlers.LyricsNextTeam of the old |
| Engine.GameSession.ToggleGeoLock | src/app/game/page.tsx:512-531 | the new state is Handlers.ToggleGeoLock of the old |
| Engine.GameSession.Settle | src/app/game/page.tsx:554-576 | the new state is Handlers.Settle of the old |
| Engine.GameSession.MarkAnsweredBy | src/app/game/page.tsx:533-576 | the new state is Handlers.MarkAnsweredBy of the old |
| Engine.GameSession.JokerGuess | src/app/game/page.tsx:583-647 | the new state is Handlers.JokerGuess of the old |
| Engine.GameSession.FinishJoker | src/app/game/page.tsx:649-672 | the new state is Handlers.FinishJoker of the old |
| Engine.GameSession.McqSelect | src/app/game/page.tsx:674-735 | the new state is Handlers.McqSelect of the old |
| Engine.GameSession.TimelinePlace | src/app/game/page.tsx:737-848 | the new state is Handlers.TimelinePlace of the old |
| Joker.Setup | src/app/game/page.tsx:305-315 | the cell count is clamped into [3, 9] (5 when unset), the range is ordered, and the increment is the rounded even share of the points |
| Joker.RoundedShareBounds | src/app/game/page.tsx:312-315 | the rounded shares of all cells miss the points by at most half the cell count |
| Joker.CorrectDirs | src/app/game/page.tsx:332-334 | each direction is "above" exactly where the target exceeds the number |
| Joker.TargetFrom | src/app/game/page.tsx:320-331 | the target the draws give is in range and never equals the number, using at most eleven draws |
| Joker.Targets | src/app/game/page.tsx:320-331 | one target per number, each in range and different from its number, drawn in order |
| Joker.PickTarget | src/app/game/page.tsx:320-331 | the loop yields TargetFrom's target: the first of up to eleven draws that differs from the number, or, when all eleven equal it, the number moved one step inward; it is in range and never the number |
| Joker.DrawNumbers | src/app/game/page.tsx:317-318 | one number per cell, each within the range |
| Joker.DrawTargets | src/app/game/page.tsx:320-331 | the loop yields exactly the targets (and the next unused draw) Targets gives for the draws: one per number, each within the range and different from its number |
| Joker.JokerCell | src/app/game/page.tsx:335 | the joker's cell is an index of the row |
| Joker.GenerateRound | src/app/game/page.tsx:304-352 | every list of the round has one entry per cell; the numbers are the first draws and the targets the ones the following draws give; the directions match the targets; the joker's cell and slot are the last two draws |
| Joker.InitialProgress | src/app/game/page.tsx:345-351 | play starts at the rightmost cell, with nothing judged and the score at the base |
| Joker.ActiveIndex | src/components/game/modals/JokerModal.tsx:68 | play starts at the rightmost cell, and the active cell is a cell while guesses remain |
| Joker.Step | src/app/game/page.tsx:583-635 | a guess on a live round judges the active cell: the joker's slot scores twice the base and ends the round; otherwise the cell is right or wrong by its direction, the score moves up by the increment on a right guess and down on a miss, clamped to [base, 2 * base], and the round ends after the last cell |
| Joker.GuessesLeft | src/components/game/modals/JokerModal.tsx:70 | never negative, 0 once finished or every cell was guessed and only then, and at most the cell count |
| Joker.CanGuess | src/components/game/modals/JokerModal.tsx:69 | no guess once the round is finished or while actions are disabled |
| Joker.FoundJoker | src/components/game/modals/JokerModal.tsx:71 | the joker is found exactly when some cell shows the joker hit |
| Joker.CircleActive | src/components/game/modals/JokerModal.tsx:74 | a circle takes clicks only while guessing is allowed, and the active circle is a cell of the row while guesses remain |
| Joker.CellStatus | src/components/game/modals/JokerModal.tsx:75 | a cell shows a result other than pending only when it is a cell of the list, and then one of the recorded results |
| Joker.DisplayStatus | src/components/game/modals/JokerModal.tsx:75-78 | a circle shows a colour only when it is the chosen slot of its cell, and then its cell's result |
| Joker.RevealTarget | src/components/game/modals/JokerModal.tsx:79 | a circle shows its target exactly when it shows a colour |
| Joker.ApplyEnabled | src/components/game/modals/JokerModal.tsx:292 | "Apply score" and guessing are never both enabled, and with actions enabled exactly one of them is |
| Joker.GuessSpendsOne | src/components/game/modals/JokerModal.tsx:67-71 | a guess spends exactly one of the guesses left, or all of them when it ends the round |
| Joker.FoundJokerIffHit | src/components/game/modals/JokerModal.tsx:71 | the joker is found exactly when a guess hits the joker's cell and slot |
| Joker.GuessRevealsChosenCircle | src/components/game/modals/JokerModal.tsx:73-109 | after a guess the chosen circle of the judged cell shows its result and target; the other circle stays pending |
| Joker.AtMostOneActiveCell | src/components/game/modals/JokerModal.tsx:67-88 | at most one cell takes clicks, and none once the round is finished |
| Joker.Play | src/app/game/page.tsx:583-635 | playing guesses in order keeps one result and one choice per cell |
| Joker.PlayFinishes | src/components/game/modals/JokerModal.tsx:67-70 | a fresh round ends after at most one guess per cell |
| Joker.ApplyOnlyWhenFinished | src/components/game/modals/JokerModal.tsx:292 | "Apply score" is enabled exactly when the played round is finished and actions are not disabled |
| Timeline.InsertBy | src/app/game/page.tsx:778-786 | inserting keeps every element and adds x once |
| Timeline.InsertBySplit | src/app/game/page.tsx:778-786 | x goes in after the last element whose key is not larger: the list around it keeps its order, every element after it has a larger key |
| Timeline.InsertBySorted | src/app/game/page.tsx:778-786 | inserting into a sorted list keeps it sorted |
| Timeline.SortBy | src/app/game/page.tsx:778-786 | the stable sort yields a sorted permutation of its input |
| Timeline.SortByStable | src/app/game/page.tsx:778-786 | the sort is stable: the elements of any one year keep their order |
| Timeline.SortBySortedIsIdentity | src/app/game/page.tsx:778-786 | sorting an already sorted list changes nothing |
| Timeline.SortAfterAppend | src/app/game/page.tsx:778-786 | appending an element and sorting, as the game files events, equals inserting it |
| Timeline.FormatYear | src/components/game/modals/TimelineModal.tsx:43-47 | a missing year shows "Unknown", a negative year its absolute value with " BC", any other its numeral |
| Timeline.CenterEvent | src/components/game/modals/TimelineModal.tsx:51 | the pivot carries the center year as its year and sort key |
| Timeline.Tagged | src/components/game/modals/TimelineModal.tsx:50-52 | each placed event, in order, tagged with its side and its status |
| Timeline.Combined | src/components/game/modals/TimelineModal.tsx:49-53 | the board is the left list, the pivot and the right list, sorted by year |
| Timeline.GroupRuns | src/components/game/modals/TimelineModal.tsx:55-70 | the groups partition the board into maximal runs of one year, in order |
| Timeline.GroupsExtend | src/components/game/modals/TimelineModal.tsx:55-70 | an entry of the last group's year extends that group |
| Timeline.GroupsStart | src/components/game/modals/TimelineModal.tsx:55-70 | an entry of another year opens a new group |
| Timeline.GroupSlice | src/components/game/modals/TimelineModal.tsx:55-70 | each group is exactly the slice of the board its start and length name |
| Timeline.PositionInGroup | src/components/game/modals/TimelineModal.tsx:55-70 | every board position lies in some group |
| Timeline.GapsAreGroupBoundaries | src/components/game/modals/TimelineModal.tsx:183-249 | the gap after a group is where the next group starts; the last gap is the board's end |
| Timeline.DropSlot | src/components/game/modals/TimelineModal.tsx:72-78 | a drop on a group names the group's year and start index, a drop on a gap only the gap's index; a disabled board takes no drop |
| Timeline.InsertionIndex | src/app/game/page.tsx:761-763 | the index is the first entry whose year is not before the candidate's, or the board's length |
| Timeline.PlacementCorrect | src/app/game/page.tsx:765-771 | a drop on a year is right exactly when it is the candidate's year; a right gap drop is a position of the board (GapPlacementCorrectIff gives the gap case in full) |
| Timeline.GapPlacementCorrectIff | src/app/game/page.tsx:765-771 | on a sorted dated board, a gap drop is right exactly when its index is the insertion index and no entry on the board has the candidate's year |
| Timeline.OccupiedYearHasGroup | src/components/game/modals/TimelineModal.tsx:55-70 | a year on the board is the year of some group |
| Timeline.YearAtPosition | src/components/game/modals/TimelineModal.tsx:55-70 | every position a group covers carries the group's year |
| Timeline.InsertionIndexEndsAGroup | src/components/game/modals/TimelineModal.tsx:203-249 | a positive insertion index on a sorted board ends some group |
| Timeline.EveryCandidateHasACorrectDrop | src/components/game/modals/TimelineModal.tsx:183-249 | every candidate has a drop zone whose slot the placement handler judges right |
| QuestionsConfig.JsNumber | src/app/config/questions/page.tsx:1273-1280 | the empty token is 0, a signed run of digits its value, anything else not a number |
| QuestionsConfig.Fields | src/app/config/questions/page.tsx:1270-1272 | one field per comma piece of the line, each that piece trimmed |
| QuestionsConfig.ParseLine | src/app/config/questions/page.tsx:1268-1287 | the prompt is the second field (or empty), the year and era flag come from the first field, the timeline text is the later fields joined by ", " or the prompt when that join is empty, and the id is the fresh one |
| QuestionsConfig.SignedYear | src/app/config/questions/page.tsx:1273-1285 | no year exactly when the token is not a finite number; otherwise the number's absolute value, at most 0 in the BC era and at least 0 otherwise |
| QuestionsConfig.YearOfNumber | src/app/config/questions/page.tsx:1276-1281 | a finite number n gives -abs(n) in the BC era and abs(n) otherwise |
| QuestionsConfig.YearOf | src/app/config/questions/page.tsx:1273-1285 | no year exactly when the field's first token is not a finite number; otherwise that number's absolute value, signed by the era token |
| QuestionsConfig.NonBlank | src/app/config/questions/page.tsx:1264-1267 | everything kept is a trimmed non-blank line, and every line that is not blank is kept, trimmed |
| QuestionsConfig.NonBlankAppend | src/app/config/questions/page.tsx:1264-1267 | the filter works line by line: the kept lines of a split text are the parts' kept lines one after the other, so order is kept |
| QuestionsConfig.NonBlankOne | src/app/config/questions/page.tsx:1264-1267 | one line is kept, trimmed, exactly when it is not blank |
| QuestionsConfig.ParseBulkEvents | src/app/config/questions/page.tsx:1263-1289 | one event per non-blank line, in order |
| QuestionsConfig.ParseBulkOfLines | src/app/config/questions/page.tsx:1263-1289 | the bulk parse is the line parse applied to each non-blank line |
| QuestionsConfig.YearFieldRoundTrip | src/app/config/questions/page.tsx:1236-1237 | the year field the editor writes (absolute year, then "BC" for a negative year, else "AC") reads back as the written year with the era of its sign |
| QuestionsConfig.ReloadLine | src/app/config/questions/page.tsx:1233-1243 | a line the editor writes for an event reads back as the event with its year (0 when missing), the era flag of the year's sign and its timeline text (the prompt when missing) |
| QuestionsConfig.ParseLineRoundTrip | src/app/config/questions/page.tsx:1233-1243 | every event the parser can produce (era flag set exactly for a negative year) reads back from the line the editor writes for it |
| QuestionsConfig.ZeroBcReloadsAsAc | src/app/config/questions/page.tsx:1233-1243 | a year typed "0 BC" reads with the era flag set, but is written back as "0 AC" and reloads with the flag cleared |
| QuestionsConfig.BulkRoundTrip | src/app/config/questions/page.tsx:1233-1243 | the text the editor writes for a list of events, one line each, reads back as those events; an empty list writes "" and reads back as no events |
| QuestionsConfig.ClampInt | src/app/config/questions/page.tsx:1101-1102 | the rounded value, pulled into [lo, hi] |
| QuestionsConfig.CountBlur | src/app/config/questions/page.tsx:1107-1111 | the cell count is stored in [3, 9], 5 for an empty field |
| QuestionsConfig.RangeBlur | src/app/config/questions/page.tsx:1113-1125 | the ends are clamped (1 and 9 for empty fields) and kept strictly ordered, by moving the other end one step |
| QuestionsConfig.Apply | src/app/config/questions/page.tsx:233-287 | the form's fields replace the stored ones; identity, cell and answered flag stay |
| QuestionsConfig.ApplyWrites | src/app/config/questions/page.tsx:233-287 | each of the twelve form fields is stored as set when set and keeps its stored value when unset; the fields the form cannot set are kept |
| QuestionsConfig.ApplyIdempotent | src/app/config/questions/page.tsx:233-287 | writing the same form twice stores what writing it once does; an empty form changes nothing |
| QuestionsConfig.CountPatch | src/app/config/questions/page.tsx:1107-1111 | the count blur writes a count in [3, 9] |
| QuestionsConfig.McqPersist | src/app/config/questions/page.tsx:83-98 | the first `count` options trimmed; the correct index kept when in range, otherwise bounded into the kept options; rotate-on-miss kept only when the option count is at least 4 |
| QuestionsConfig.CellIndex | src/app/config/questions/page.tsx:233-287 | the first index of the cell's entry, or -1 when there is none |
| QuestionsConfig.Upsert | src/app/config/questions/page.tsx:233-287 | the cell's entry is patched in place, or a default entry patched and appended |
| QuestionsConfig.UpsertThenRead | src/app/config/questions/page.tsx:233-287 | after an upsert the cell reads back as its old entry (or the default) with the patch applied; other cells read as before |
| QuestionsConfig.CellIndexOfUpdate | src/app/config/questions/page.tsx:233-287 | rewriting an entry within its cell keeps every cell's index |
| QuestionsConfig.CategoryEntries | src/app/config/questions/page.tsx:289-333 | one default entry per point value of the ladder |
| QuestionsConfig.NewCategory | src/app/config/questions/page.tsx:289-333 | a blank name changes nothing; a listed name only clears the field; a new name appends its column and clears the field |
| QuestionsConfig.NewCategoryFillsColumn | src/app/config/questions/page.tsx:289-333 | a new category fills every cell of its column |
| QuestionsConfig.RenameAll | src/app/config/questions/page.tsx:339-357 | exactly the entries of the old category take the new name |
| QuestionsConfig.RenameCategory | src/app/config/questions/page.tsx:339-357 | a blank, unchanged or listed name changes nothing; otherwise only the old category's entries are renamed |
| QuestionsConfig.RenameRoundTrip | src/app/config/questions/page.tsx:339-357 | renaming and renaming back restores the question list |
| QuestionsConfig.ResetAnswered | src/app/config/questions/page.tsx:359-361 | every entry is unanswered and otherwise unchanged |
| QuestionsConfig.ResetForgetsAnswers | src/app/config/questions/page.tsx:359-361 | a reset forgets answers given since; afterwards every question is open |
| QuestionsConfig.DeleteCategory | src/app/config/questions/page.tsx:335-337 | exactly the entries of other categories remain |
| QuestionsConfig.DeleteCategoryCount | src/app/config/questions/page.tsx:335-337 | each entry of another category remains as often as before; entries of the deleted category not at all |
| QuestionsConfig.DeleteAppend | src/app/config/questions/page.tsx:335-337 | deletion works segment by segment, so the remaining entries keep their order |
| QuestionsConfig.DeleteUndoesNewCategory | src/app/config/questions/page.tsx:289-337 | deleting a category just added restores the list |
| Backup.OwnProperties | src/lib/backup.ts:62-68 | spreading an object copies its fields; spreading an array copies only index keys |
| Backup.MergedTurnState | src/lib/backup.ts:62-68 | the stored turn state over the fallback's keys; the fallback when missing or not an object |
| Backup.ParseBackup | src/lib/backup.ts:44-77 | each rejection exactly when its check fails, in order; otherwise version 1, the stamp or now, the teams, the questions and the merged turn state |
| Backup.RestoreIsStable | src/lib/backup.ts:34-77 | a restored payload, saved and restored again, is the same payload |
| Backup.SaveThenRestore | src/lib/backup.ts:34-77 | a stamped payload with a full turn state survives a save and a restore |
| Backup.MissingTurnStateFallsBack | src/lib/backup.ts:16-20 | without a stored turn state the restore starts from the empty order |
| Roster.Swap | src/app/config/teams/page.tsx:72-79 | a swap exchanges two positions and keeps the rest |
| Roster.ShuffleFrom | src/app/config/teams/page.tsx:72-79 | the Fisher-Yates passes from an index down keep the length; ShuffleFromPermutes gives the permutation |
| Roster.Shuffled | src/app/config/teams/page.tsx:72-79 | the shuffle of a whole sequence is a permutation of it |
| Roster.ShuffleFromPermutes | src/app/config/teams/page.tsx:72-79 | the Fisher-Yates passes permute the input |
| Roster.ShuffleArray | src/app/config/teams/page.tsx:72-79 | the copy is shuffled by the drawn swaps, a permutation of the input |
| Roster.Pass | src/app/config/teams/page.tsx:75-76 | one pass in place: the swap of cell i with the drawn cell leaves exactly the remaining passes to do |
| Roster.Flatten | src/app/config/teams/page.tsx:81-95 | all players of all teams, as many as the teams hold |
| Roster.Deal | src/app/config/teams/page.tsx:81-95 | one team per team; DealKeepsTeams and DealFlattens give the sizes and the players |
| Roster.DealKeepsTeams | src/app/config/teams/page.tsx:81-95 | the deal changes only players, and every team keeps its size |
| Roster.DealFlattens | src/app/config/teams/page.tsx:81-95 | the dealt teams, flattened again, give back the pool |
| Roster.DealOut | src/app/config/teams/page.tsx:84-94 | the cursor walk deals each team the next block of the pool |
| Roster.ShufflePlayersAcrossTeams | src/app/config/teams/page.tsx:81-95 | the same teams with the same sizes holding a permutation of all players; an empty roster is returned as it is |
| Roster.NewTeam | src/app/config/teams/page.tsx:179-196 | the new team has the given id, is named after its position, scores 0, has three players with the given ids and takes the next badge in turn |
| Roster.AddTeam | src/app/config/teams/page.tsx:179-196 | one team is appended after the old ones, named after its position, scoring 0, with three players |
| Roster.RemoveTeam | src/app/config/teams/page.tsx:198-200 | exactly the teams with another id remain |
| Roster.RemoveTeamCount | src/app/config/teams/page.tsx:198-200 | each team with another id remains as often as before; teams with the removed id not at all |
| Roster.RemoveTeamSplits | src/app/config/teams/page.tsx:198-200 | removal works segment by segment, so the remaining teams keep their order |
| Roster.RemoveUndoesAdd | src/app/config/teams/page.tsx:179-200 | removing a team just added under a fresh id restores the roster |
| Roster.AddPlayer | src/app/config/teams/page.tsx:150-164 | only the matching team gains one player, appended last |
| Roster.RemovePlayer | src/app/config/teams/page.tsx:166-177 | only the matching team loses its players with that id |
| Roster.RemoveUndoesAddPlayer | src/app/config/teams/page.tsx:150-177 | removing a player just added under a fresh id restores the roster |
| Leaderboard.Wrap32 | src/components/game/Leaderboard.tsx:21-27 | `x | 0` is the signed 32-bit value congruent to x |
| Leaderboard.WrapCongruent | src/components/game/Leaderboard.tsx:21-27 | values differing by a multiple of 2^32 wrap alike |
| Leaderboard.Hash | src/components/game/Leaderboard.tsx:21-27 | the hash stays a signed 32-bit value after every unit |
| Leaderboard.Polynomial | src/components/game/Leaderboard.tsx:21-27 | the unwrapped base-31 value of non-negative units is non-negative; it is the reference HashIsWrappedPolynomial compares the hash with |
| Leaderboard.HashIsWrappedPolynomial | src/components/game/Leaderboard.tsx:21-27 | wrapping after each step equals wrapping the base-31 value once |
| Leaderboard.PickIndexOf | src/components/game/Leaderboard.tsx:21-27 | the picked index is within [0, modulo) |
| Leaderboard.PickIndex | src/components/game/Leaderboard.tsx:21-27 | the hash loop returns the picked index, in range, and 0 for the empty id |
| Leaderboard.Accent | src/components/game/Leaderboard.tsx:52-58 | a team's own accent pair when both are set, otherwise one of the fallback accents |
| Leaderboard.Marker | src/components/game/Leaderboard.tsx:52-58 | a team's own badge when set, otherwise one of the fallback markers |
| Leaderboard.FallbackFollowsId | src/components/game/Leaderboard.tsx:52-58 | two teams without their own look and with one id are drawn alike |
| Theme.DropFirstHash | src/app/page.tsx:33 | a string without `#` is kept; otherwise one character shorter |
| Theme.Doubled | src/app/page.tsx:33-34 | each character is written twice, in order |
| Theme.HexRun | src/app/page.tsx:35 | the longest leading run of hex digits |
| Theme.ParseHex | src/app/page.tsx:35 | a blank string is NaN, and a negative value needs a leading minus sign; ParseHexOfDigits gives the value of a digit run |
| Theme.Channels | src/app/page.tsx:37-39 | the three channels are bytes |
| Theme.ToRgba | src/app/page.tsx:32-41 | an unparsable colour gives the fallback blue; otherwise the channels of the parsed value |
| Theme.Expanded | src/app/page.tsx:33-34 | a three-unit colour is doubled, anything else kept |
| Theme.ChannelsOf | src/app/page.tsx:37-39 | the shifts and masks of a 24-bit value r·65536 + g·256 + b give back r, g and b |
| Theme.HexByteValue | src/app/page.tsx:35 | two hex digits of a byte parse back to the byte |
| Theme.HexValueAppend | src/app/page.tsx:35 | the value of concatenated digits is the positional sum |
| Theme.HexColourValue | src/app/page.tsx:35 | the six digits of a colour are its 24-bit value |
| Theme.ParseHexOfDigits | src/app/page.tsx:35 | a run of hex digits parses to its value |
| Theme.ToRgbaDecodesHexColour | src/app/page.tsx:32-41 | a colour written as `#rrggbb` decodes to its own channels |
| Theme.ShortFormExpands | src/app/page.tsx:33-34 | `#abc` is read as `#aabbcc` |
| Theme.FindEmoji | src/app/page.tsx:56-59 | the first option with that badge, or -1 |
| Theme.Pick | src/app/page.tsx:56-60 | the picked option is an index of the options |
| Theme.ApplyThemeToTeams | src/app/page.tsx:51-68 | with no options the teams are kept; otherwise each team takes the badge and accents of the option matching its badge, or of the option at its position |
| Theme.MatchingBadgeKept | src/app/page.tsx:56-65 | a team whose badge is an option keeps it and takes that option's accents |
| Theme.ApplyThemeIdempotent | src/app/page.tsx:51-68 | with distinct non-empty badges, applying the same theme twice is applying it once |

## Left out

- Timers and animation are not modelled: the geoguesser countdown ticks, the audio stop timer, the slot-machine spin that picks the first team (src/app/game/page.tsx:214-256) and `startTurnOrder`'s delay. Sounds and confetti are left out too. None of them changes a score or a cursor except through the handlers modelled here.
- Manual score edits (`adjustScore`, `setScore`), the final leaderboard overlay and the name-edit handlers of the game page are not part of this model.
- `Math.random` is an endless stream of draws in [0, 1), passed in as a function. Fresh ids (`crypto.randomUUID`, `Date.now`) and the current time are parameters. `generateRedPattern` and the timeline shuffle are parameters too; the shuffle is constrained to be a permutation.
- `JSON.parse` is taken as its result: `None` for text that is not JSON, or the parsed value. Storage reads and writes (`localStorage`) are not modelled.
- Display-only question fields (images, map and video links, location and center labels, the timeline title, the stored joker grid) are not part of the `Question` record. No modelled operation reads them.
- QuestionsConfig.JsNumber: models `Number(token)` only for an optionally signed run of decimal digits. Fractions, exponents, hex literals and `Infinity` count as "not a number" here, while JavaScript gives them a value.
- Theme.ParseHex: works on unbounded integers, so the precision `parseInt` loses beyond 2^53 is not modelled.
- UI-only cells (`mcqEliminated`, hover and drag state, modal animation flags) are left out.
- The turn cursors are assumed to be in range: never negative, and below the order's length while the order is not empty. `setOrder` and `reset` set them to 0 and an advance keeps them in range, so play keeps this. A backup restored with a negative or too large cursor is outside the model.
- QuestionsConfig.Upsert: works on the question list as a value; the copy-and-assign of the list is a sequence update here.
- QuestionsConfig.Apply: the patch carries only the editor fields of the modelled `Question` record: prompt, answer, type, the joker settings, the timeline events and rotation, and the multiple-choice fields.
- QuestionsConfig.RangeBlur: the source clamps each end into [-50, 100], then moves the other end by one to keep them ordered, so the moved end can be 101 or -51. The contract states exactly that range, as the code behaves.
- Leaderboard.PickIndexOf: states only the range of the index. Its exact value comes from `Hash`, which HashIsWrappedPolynomial relates to the base-31 polynomial.
- Theme.Channels: states only that the three channels are bytes. ChannelsOf relates them to a 24-bit value.
- TimelineModal's rendering (card layout, colours, drag previews) is not modelled; only the grouping, the drop zones and the slot a drop yields are.
