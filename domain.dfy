/** The records the game stores: players, teams, questions and timeline
    events (src/lib/types.ts), plus the joker round shapes declared next to
    the joker modal. Only the fields some behaviour reads are kept; images,
    video and map links and display labels are not modelled. */
module Domain {
  import opened Common

  /** The fixed points ladder of the board. */
  const PointValues: seq<int> := [100, 200, 300, 400, 500]

  datatype Player = Player(id: string, name: string)

  /** A badge of a team theme: its emoji, its label (`title`) and the two accent colours. */
  datatype EmojiOption = EmojiOption(emoji: string, title: string, base: string, glow: string)

  datatype Team = Team(
    id: string,
    name: string,
    players: seq<Player>,
    score: int,
    badgeEmoji: Option<string>,
    accentBase: Option<string>,
    accentGlow: Option<string>)

  /** A question's mode. A question without a `type` behaves as `Standard`
      in every handler, so it is stored as `Standard`. */
  datatype QuestionKind = Standard | Lyrics | Geoguesser | Joker | Timeline | Mcq | Audio

  datatype TimelineEvent = TimelineEvent(
    id: string,
    text: string,
    year: Option<int>,
    isBC: Option<bool>,
    timelineText: Option<string>)

  datatype Question = Question(
    id: string,
    category: string,
    points: int,
    prompt: string,
    answer: string,
    answered: bool,
    kind: QuestionKind,
    lyricsSegments: seq<string>,
    lyricsRedPattern: seq<int>,
    geoTimerSeconds: Option<int>,
    geoUnlockCost: Option<int>,
    jokerCount: Option<int>,
    jokerMin: Option<int>,
    jokerMax: Option<int>,
    jokerIncrement: Option<int>,
    jokerRotateOnMiss: Option<bool>,
    timelineCenterYear: Option<int>,
    timelineEvents: seq<TimelineEvent>,
    timelineRotateOnMiss: Option<bool>,
    mcqOptions: seq<string>,
    mcqCorrectIndex: Option<int>,
    mcqRotateOnMiss: Option<bool>,
    audioStopSeconds: Option<int>)

  /** A guess slot of a joker cell. */
  datatype Direction = Above | Below

  datatype JokerResult = Pending | Correct | Wrong | JokerHit

  /** The generated grid of a joker question. */
  datatype JokerRound = JokerRound(
    numbers: seq<int>,
    targets: seq<int>,
    correctDirs: seq<Direction>,
    jokerIndex: int,
    jokerPosition: Direction,
    increment: int)

  /** How far play has come in a joker round. */
  datatype JokerProgress = JokerProgress(
    currentIndex: int,
    results: seq<JokerResult>,
    score: int,
    finished: bool,
    chosenPositions: seq<Option<Direction>>)

  /** The outcome a timeline placement is marked with. */
  datatype PlacementStatus = PlacedCorrect | PlacedWrong

  /** A timeline event as it sits in a placed list (the center pivot has no status). */
  datatype Placed = Placed(event: TimelineEvent, status: Option<PlacementStatus>)

  /** `list.find(t => t.id === id)`. */
  function FindTeam(teams: seq<Team>, id: string): (r: Option<Team>)
    ensures r.Some? ==> r.value in teams && r.value.id == id
    ensures r.None? ==> forall t :: t in teams ==> t.id != id
  {
    if teams == [] then None
    else if teams[0].id == id then Some(teams[0])
    else FindTeam(teams[1..], id)
  }

  /** `teams.some(t => t.id === id)`. */
  predicate HasTeam(teams: seq<Team>, id: string) {
    exists t :: t in teams && t.id == id
  }
}
