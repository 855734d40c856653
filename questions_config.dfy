/** The question editor's normalisers (src/app/config/questions/page.tsx):
    the bulk timeline-event parser, the joker count and range clamps, the
    multiple-choice persist step, and the keyed updates of the question
    list (upsert, new category, rename, reset, delete). */
module QuestionsConfig {
  import opened Common
  import opened Domain
  import opened EngineRules

  // ---- bulk timeline events ----

  /** What `Number(token)` gives for a token without white space. */
  datatype NumberValue = Finite(value: int) | NotFinite

  predicate AllDigits(s: string) {
    forall i :: 0 <= i < |s| ==> IsDigit(s[i])
  }

  /** `Number(token)`: the empty token is 0, an optionally signed run of
      decimal digits is its value, and `Infinity` or anything else is not a
      finite number. */
  function JsNumber(tok: string): (r: NumberValue)
    ensures tok == "" ==> r == Finite(0)
    ensures tok != "" && AllDigits(tok) ==> r == Finite(DecimalValue(tok))
    ensures r.Finite? && tok != "" ==> AllDigits(tok) || (tok[0] in "+-" && |tok| > 1 && AllDigits(tok[1..]))
  {
    if tok == "" then Finite(0)
    else if AllDigits(tok) then Finite(DecimalValue(tok))
    else if |tok| > 1 && tok[0] == '-' && AllDigits(tok[1..]) then Finite(0 - DecimalValue(tok[1..]) as int)
    else if |tok| > 1 && tok[0] == '+' && AllDigits(tok[1..]) then Finite(DecimalValue(tok[1..]))
    else NotFinite
  }

  /** `token.toUpperCase() === "BC"`. */
  predicate IsBcToken(tok: string) {
    |tok| == 2 && (tok[0] == 'b' || tok[0] == 'B') && (tok[1] == 'c' || tok[1] == 'C')
  }

  function TrimAll(parts: seq<string>): (r: seq<string>)
    ensures |r| == |parts| && forall i :: 0 <= i < |r| ==> r[i] == Trim(parts[i])
  {
    if parts == [] then [] else [Trim(parts[0])] + TrimAll(parts[1..])
  }

  /** The comma fields of a line, each trimmed. */
  function Fields(line: string): (f: seq<string>)
    ensures |f| == |Split(line, ',')| >= 1
    ensures forall i :: 0 <= i < |f| ==> f[i] == Trim(Split(line, ',')[i]) && Trimmed(f[i])
  {
    TrimAll(Split(line, ','))
  }

  /** The era token: the second white-space token of the year field, "AC" when absent. */
  function EraToken(yearPart: string): string {
    var tokens := SplitSpaces(yearPart);
    if |tokens| > 1 && tokens[1] != "" then tokens[1] else "AC"
  }

  /** One line "YEAR [BC|AC], prompt, timeline text". The year is the
      absolute value of the first token, negated for a BC era token; the
      timeline text is the later fields joined by ", ", or the prompt when
      that is empty. */
  function ParseLine(line: string, id: string): (e: TimelineEvent)
    ensures var f := Fields(line);
            var joined := if |f| > 2 then Join(f[2..], ", ") else "";
            && e.text == (if |f| > 1 then f[1] else "")
            && e.year == YearOf(f[0])
            && e.isBC == Some(IsBcToken(EraToken(f[0])))
            && e.timelineText == Some(if joined != "" then joined else e.text)
    ensures e.id == id && e.isBC.Some? && e.timelineText.Some?
    ensures e.timelineText.value == "" ==> e.text == ""
    ensures e.year.Some? ==> (e.isBC.value ==> e.year.value <= 0) && (!e.isBC.value ==> e.year.value >= 0)
  {
    EventOfFields(Fields(line), id)
  }

  /** The year field: the absolute value of its first token, negated for
      a BC era token, or nothing when that token is not a finite number. */
  function YearOf(yearPart: string): (y: Option<int>)
    ensures y.None? <==> JsNumber(SplitSpaces(yearPart)[0]).NotFinite?
    ensures y.Some? ==> Abs(y.value) == Abs(JsNumber(SplitSpaces(yearPart)[0]).value)
    ensures y.Some? ==> (IsBcToken(EraToken(yearPart)) ==> y.value <= 0) && (!IsBcToken(EraToken(yearPart)) ==> y.value >= 0)
  {
    SignedYear(SplitSpaces(yearPart)[0], IsBcToken(EraToken(yearPart)))
  }

  /** The year a number token gives in the era `bc` names. */
  function SignedYear(tok: string, bc: bool): (y: Option<int>)
    ensures y.None? <==> JsNumber(tok).NotFinite?
    ensures y.Some? ==> Abs(y.value) == Abs(JsNumber(tok).value)
    ensures y.Some? ==> (bc ==> y.value <= 0) && (!bc ==> y.value >= 0)
  {
    match JsNumber(tok)
    case Finite(n) => Some(if bc then -(Abs(n) as int) else Abs(n) as int)
    case NotFinite => None
  }

  function EventOfFields(f: seq<string>, id: string): (e: TimelineEvent)
    requires |f| >= 1
    ensures e.id == id && e.isBC.Some? && e.timelineText.Some?
    ensures e.timelineText.value == "" ==> e.text == ""
    ensures e.year.Some? ==> (e.isBC.value ==> e.year.value <= 0) && (!e.isBC.value ==> e.year.value >= 0)
  {
    var prompt := if |f| > 1 then f[1] else "";
    var joined := if |f| > 2 then Join(f[2..], ", ") else "";
    TimelineEvent(id, prompt, YearOf(f[0]), Some(IsBcToken(EraToken(f[0]))), Some(if joined == "" then prompt else joined))
  }

  /** The trimmed lines that are not blank, in order. */
  function NonBlank(lines: seq<string>): (r: seq<string>)
    ensures |r| <= |lines|
    ensures forall i :: 0 <= i < |r| ==> r[i] != "" && Trimmed(r[i])
    ensures forall i :: 0 <= i < |lines| && Trim(lines[i]) != "" ==> Trim(lines[i]) in r
  {
    if lines == [] then []
    else
      var t := Trim(lines[0]);
      (if t == "" then [] else [t]) + NonBlank(lines[1..])
  }

  /** Blank-line filtering works line by line, so the kept lines stay in
      their order. */
  lemma {:induction false} NonBlankAppend(a: seq<string>, b: seq<string>)
    ensures NonBlank(a + b) == NonBlank(a) + NonBlank(b)
  {
    if a == [] {
      assert a + b == b;
    } else {
      var head := if Trim(a[0]) == "" then [] else [Trim(a[0])];
      assert (a + b)[0] == a[0] && (a + b)[1..] == a[1..] + b;
      NonBlankAppend(a[1..], b);
      AppendAssoc(head, NonBlank(a[1..]), NonBlank(b));
    }
  }

  /** One line is kept, trimmed, exactly when it is not blank. */
  lemma NonBlankOne(l: string)
    ensures NonBlank([l]) == if Trim(l) == "" then [] else [Trim(l)]
  {
    assert [l][1..] == [];
  }

  /** `parseBulkEvents`: one event per non-blank line; `ids` stands for the
      random identifiers the editor draws. */
  function ParseBulkEvents(raw: string, ids: nat -> string): (events: seq<TimelineEvent>)
    ensures var lines := NonBlank(Split(raw, '\n'));
            |events| == |lines|
            && forall i :: 0 <= i < |events| ==> events[i] == ParseLine(lines[i], ids(i))
  {
    var lines := NonBlank(Split(raw, '\n'));
    seq(|lines|, i requires 0 <= i < |lines| => ParseLine(lines[i], ids(i)))
  }

  // ---- round trip of one event ----

  /** The year the editor writes for an event: `ev.year ?? 0`. */
  function WrittenYear(e: TimelineEvent): int {
    if e.year.Some? then e.year.value else 0
  }

  /** The third field the editor writes: `ev.timelineText ?? ev.text`. */
  function WrittenTimelineText(e: TimelineEvent): string {
    if e.timelineText.Some? then e.timelineText.value else e.text
  }

  /** An event whose prompt and timeline text survive being written on one
      line: no comma or line break, no surrounding white space, and a
      non-empty third field. */
  predicate TypeableText(e: TimelineEvent) {
    ',' !in e.text && '\n' !in e.text && Trimmed(e.text)
    && ',' !in WrittenTimelineText(e) && '\n' !in WrittenTimelineText(e)
    && Trimmed(WrittenTimelineText(e)) && WrittenTimelineText(e) != ""
  }

  /** An event as the parser produces it from a typed line: a year, the era
      flag set exactly for a negative year, and a timeline text. */
  predicate Typeable(e: TimelineEvent) {
    TypeableText(e) && e.year.Some? && e.isBC == Some(e.year.value < 0) && e.timelineText.Some?
  }

  /** The line the editor writes when it loads a question's events into the
      bulk text box: `${|year ?? 0|} ${era}, ${text}, ${timelineText ?? text}`. */
  function FormatLine(e: TimelineEvent): string {
    YearText(e) + [','] + ((" " + e.text) + [','] + (" " + WrittenTimelineText(e)))
  }

  /** The year field the editor writes: the numeral of the absolute year,
      then "BC" for a negative year and "AC" otherwise (a zero or missing
      year is falsy, so it is written "AC"). */
  function YearText(e: TimelineEvent): string {
    NatToString(Abs(WrittenYear(e))) + " " + (if WrittenYear(e) < 0 then "BC" else "AC")
  }

  /** What a written event reads back as: the written year, the era flag of
      its sign, and the written timeline text. */
  function Reloaded(e: TimelineEvent): TimelineEvent {
    TimelineEvent(e.id, e.text, Some(WrittenYear(e)), Some(WrittenYear(e) < 0), Some(WrittenTimelineText(e)))
  }

  lemma NumeralHasNoSpaceOrComma(n: nat)
    ensures var d := NatToString(n);
            ',' !in d && '\n' !in d && Trimmed(d) && forall i :: 0 <= i < |d| ==> !IsSpace(d[i])
  {
    var d := NatToString(n);
    assert forall i :: 0 <= i < |d| ==> IsDigit(d[i]);
  }

  lemma JsNumberOfNumeral(n: nat)
    ensures JsNumber(NatToString(n)) == Finite(n)
  {
    var d := NatToString(n);
    assert AllDigits(d);
    DecimalValueOfNatToString(n);
  }

  /** The year field the editor writes reads back as the written year,
      with the era of its sign. */
  lemma YearFieldRoundTrip(e: TimelineEvent)
    ensures var y := YearText(e);
            ',' !in y && Trimmed(y)
            && IsBcToken(EraToken(y)) == (WrittenYear(e) < 0)
            && YearOf(y) == Some(WrittenYear(e))
  {
    var n := Abs(WrittenYear(e));
    var d := NatToString(n);
    NumeralHasNoSpaceOrComma(n);
    JsNumberOfNumeral(n);
    var y := YearText(e);
    EraYearField(d, if WrittenYear(e) < 0 then "BC" else "AC");
    YearOfNumber(SplitSpaces(y)[0], IsBcToken(EraToken(y)), n);
  }

  /** A finite number token gives its absolute value, negated in the BC era. */
  lemma YearOfNumber(tok: string, bc: bool, n: int)
    requires JsNumber(tok) == Finite(n)
    ensures SignedYear(tok, bc) == Some(if bc then -(Abs(n) as int) else Abs(n))
  {
  }

  lemma EraYearField(d: string, era: string)
    requires d != [] && ',' !in d && forall i :: 0 <= i < |d| ==> !IsSpace(d[i])
    requires era == "BC" || era == "AC"
    ensures var y := d + " " + era;
            ',' !in y && Trimmed(y) && SplitSpaces(y) == [d, era]
            && EraToken(y) == era && (IsBcToken(EraToken(y)) <==> era == "BC")
  {
    var y := d + " " + era;
    assert |era| == 2 && era[1] == 'C' && (era[0] == 'A' || era[0] == 'B');
    assert !IsSpace(era[0]) && !IsSpace(era[1]);
    SplitSpacesOfTwoWords(d, era);
    assert y[|y| - 1] == era[1] && y[0] == d[0];
    assert ',' !in " " + era;
    assert EraToken(y) == era;
  }

  /** Reading back a line the editor wrote gives the event with its written
      year and the era flag of the year's sign. */
  lemma {:induction false} ReloadLine(e: TimelineEvent)
    requires TypeableText(e)
    ensures ParseLine(FormatLine(e), e.id) == Reloaded(e)
  {
    var y, t := YearText(e), WrittenTimelineText(e);
    FieldsOfFormatLine(e);
    EventOfThreeFields(y, e.text, t, e.id);
    YearFieldRoundTrip(e);
  }

  /** Reading back a line the editor wrote gives the event it was written
      from, for every event the parser can produce. */
  lemma ParseLineRoundTrip(e: TimelineEvent)
    requires Typeable(e)
    ensures ParseLine(FormatLine(e), e.id) == e
  {
    ReloadLine(e);
  }

  /** A year typed as "0 BC" reads as year 0 with the era flag set, but the
      editor writes year 0 back as "0 AC", so it reloads with the flag
      cleared. */
  lemma ZeroBcReloadsAsAc(text: string, t: string, id: string)
    requires ',' !in text && '\n' !in text && Trimmed(text)
    requires ',' !in t && '\n' !in t && Trimmed(t) && t != ""
    ensures var e := ParseLine("0 BC" + [','] + (" " + text + [','] + (" " + t)), id);
            e == TimelineEvent(id, text, Some(0), Some(true), Some(t))
            && ParseLine(FormatLine(e), id).isBC == Some(false)
  {
    ParseThreeFields("0 BC", text, t, id);
    ZeroBcYearField();
    ReloadLine(TimelineEvent(id, text, Some(0), Some(true), Some(t)));
  }

  lemma ZeroBcYearField()
    ensures ',' !in "0 BC" && Trimmed("0 BC")
    ensures YearOf("0 BC") == Some(0) && IsBcToken(EraToken("0 BC"))
  {
    EraYearField("0", "BC");
    assert "0" + " " + "BC" == "0 BC";
    assert DecimalValue("0") == 0;
    assert JsNumber("0") == Finite(0);
  }

  /** A line of three comma fields reads as the event of those fields. */
  lemma ParseThreeFields(y: string, text: string, t: string, id: string)
    requires ',' !in y && ',' !in text && ',' !in t
    requires Trimmed(y) && Trimmed(text) && Trimmed(t) && t != ""
    ensures ParseLine(y + [','] + (" " + text + [','] + (" " + t)), id)
            == TimelineEvent(id, text, YearOf(y), Some(IsBcToken(EraToken(y))), Some(t))
  {
    SplitThreeFields(y, " " + text, " " + t);
    TrimThreeFields(y, text, t);
    EventOfThreeFields(y, text, t, id);
  }

  lemma EventOfThreeFields(y: string, text: string, t: string, id: string)
    requires t != ""
    ensures EventOfFields([y, text, t], id) == TimelineEvent(id, text, YearOf(y), Some(IsBcToken(EraToken(y))), Some(t))
  {
    assert [y, text, t][2..] == [t];
  }

  lemma FieldsOfFormatLine(e: TimelineEvent)
    requires TypeableText(e)
    ensures Fields(FormatLine(e)) == [YearText(e), e.text, WrittenTimelineText(e)]
  {
    var y, t := YearText(e), WrittenTimelineText(e);
    YearFieldRoundTrip(e);
    SplitThreeFields(y, " " + e.text, " " + t);
    TrimThreeFields(y, e.text, t);
  }

  lemma SplitThreeFields(a: string, b: string, c: string)
    requires ',' !in a && ',' !in b && ',' !in c
    ensures Split(a + [','] + (b + [','] + c), ',') == [a, b, c]
  {
    SplitAfterField(a, b + [','] + c, ',');
    SplitAfterField(b, c, ',');
    SplitWithoutSeparator(c, ',');
  }

  lemma TrimThreeFields(a: string, b: string, c: string)
    requires Trimmed(a) && Trimmed(b) && Trimmed(c)
    ensures TrimAll([a, " " + b, " " + c]) == [a, b, c]
  {
    var r := TrimAll([a, " " + b, " " + c]);
    TrimKeepsTrimmed(a);
    TrimDropsLeadingSpace(b);
    TrimDropsLeadingSpace(c);
    assert r[0] == a && r[1] == b && r[2] == c;
  }

  /** Every line of a text typed one event per line comes back as its event. */
  lemma {:induction false} NonBlankOfTypedLines(lines: seq<string>)
    requires forall i :: 0 <= i < |lines| ==> lines[i] != "" && Trimmed(lines[i])
    ensures NonBlank(lines) == lines
  {
    if lines != [] {
      TrimKeepsTrimmed(lines[0]);
      NonBlankOfTypedLines(lines[1..]);
      assert [lines[0]] + lines[1..] == lines;
    }
  }

  function FormatLines(events: seq<TimelineEvent>): (lines: seq<string>)
    ensures |lines| == |events| && forall i :: 0 <= i < |lines| ==> lines[i] == FormatLine(events[i])
  {
    if events == [] then [] else [FormatLine(events[0])] + FormatLines(events[1..])
  }

  lemma FormattedLineShape(e: TimelineEvent)
    requires TypeableText(e)
    ensures var line := FormatLine(e); line != "" && '\n' !in line && Trimmed(line)
  {
    NumeralHasNoSpaceOrComma(Abs(WrittenYear(e)));
    var d := NatToString(Abs(WrittenYear(e)));
    var t := WrittenTimelineText(e);
    var line := FormatLine(e);
    assert line[0] == d[0];
    assert line[|line| - 1] == t[|t| - 1];
  }

  /** `parseBulkEvents` reads back every event of the text the editor
      writes (one line per event, joined by line breaks), when the
      identifiers drawn are the events' own. */
  lemma BulkRoundTrip(events: seq<TimelineEvent>, ids: nat -> string)
    requires forall i :: 0 <= i < |events| ==> Typeable(events[i]) && ids(i) == events[i].id
    ensures ParseBulkEvents(Join(FormatLines(events), "\n"), ids) == events
  {
    if events == [] {
      assert Join(FormatLines(events), "\n") == "";
      assert NonBlank(Split("", '\n')) == [];
      return;
    }
    var lines := FormatLines(events);
    var raw := Join(lines, "\n");
    assert NonBlank(Split(raw, '\n')) == lines by {
      forall i | 0 <= i < |lines|
        ensures lines[i] != "" && '\n' !in lines[i] && Trimmed(lines[i])
      {
        FormattedLineShape(events[i]);
      }
      SplitJoin(lines, '\n');
      NonBlankOfTypedLines(lines);
    }
    forall i | 0 <= i < |lines|
      ensures ParseLine(lines[i], ids(i)) == events[i]
    {
      ParseLineRoundTrip(events[i]);
    }
    ParseBulkOfLines(raw, lines, events, ids);
  }

  lemma ParseBulkOfLines(raw: string, lines: seq<string>, events: seq<TimelineEvent>, ids: nat -> string)
    requires NonBlank(Split(raw, '\n')) == lines && |lines| == |events|
    requires forall i :: 0 <= i < |lines| ==> ParseLine(lines[i], ids(i)) == events[i]
    ensures ParseBulkEvents(raw, ids) == events
  {
  }

  // ---- joker settings ----

  /** `clampInt`: the rounded value pulled into [lo, hi]. */
  function ClampInt(value: real, lo: int, hi: int): (r: int)
    ensures lo <= hi ==> lo <= r <= hi
    ensures lo <= Round(value) <= hi ==> r == Round(value)
    ensures Round(value) < lo <= hi ==> r == lo
    ensures lo <= hi < Round(value) ==> r == hi
  {
    Min(hi, Max(lo, Round(value)))
  }

  /** `handleCountBlur`: the stored cell count, 5 for an empty field. */
  function CountBlur(count: real): (r: int)
    ensures 3 <= r <= 9
    ensures count == 0.0 ==> r == 5
    ensures count != 0.0 && 3 <= Round(count) <= 9 ==> r == Round(count)
  {
    ClampInt(if count == 0.0 then 5.0 else count, 3, 9)
  }

  datatype RangeEnd = MinEnd | MaxEnd

  /** `handleRangeBlur`: both ends are clamped into [-50, 100] (1 and 9 for
      an empty field); when they are not in order, the end that was not
      being edited is moved to one past the edited one. The moved end can
      therefore leave [-50, 100] by one. */
  method RangeBlur(minVal: real, maxVal: real, which: RangeEnd) returns (nextMin: int, nextMax: int)
    ensures nextMin < nextMax
    ensures var lo := ClampInt(if minVal == 0.0 then 1.0 else minVal, -50, 100);
            var hi := ClampInt(if maxVal == 0.0 then 9.0 else maxVal, -50, 100);
            (lo < hi ==> nextMin == lo && nextMax == hi)
            && (which == MinEnd ==> nextMin == lo && (lo >= hi ==> nextMax == lo + 1))
            && (which == MaxEnd ==> nextMax == hi && (lo >= hi ==> nextMin == hi - 1))
    ensures which == MinEnd ==> -50 <= nextMin <= 100 && -49 <= nextMax <= 101
    ensures which == MaxEnd ==> -51 <= nextMin <= 99 && -50 <= nextMax <= 100
  {
    var rawMin := if minVal == 0.0 then 1.0 else minVal;
    var rawMax := if maxVal == 0.0 then 9.0 else maxVal;
    nextMin := ClampInt(rawMin, -50, 100);
    nextMax := ClampInt(rawMax, -50, 100);
    if nextMin >= nextMax {
      if which == MinEnd {
        nextMax := nextMin + 1;
      } else {
        nextMin := nextMax - 1;
      }
    }
  }

  // ---- partial updates ----

  /** The fields an editor form writes; `None` leaves a field as it is
      (a `Partial<Question>` spread over the stored question). */
  datatype Patch = Patch(
    prompt: Option<string>,
    answer: Option<string>,
    kind: Option<QuestionKind>,
    jokerCount: Option<int>,
    jokerMin: Option<int>,
    jokerMax: Option<int>,
    jokerRotateOnMiss: Option<bool>,
    timelineEvents: Option<seq<TimelineEvent>>,
    timelineRotateOnMiss: Option<bool>,
    mcqOptions: Option<seq<string>>,
    mcqCorrectIndex: Option<int>,
    mcqRotateOnMiss: Option<bool>)

  const NoChange: Patch := Patch(None, None, None, None, None, None, None, None, None, None, None, None)

  function Over<T>(o: Option<T>, v: T): T {
    if o.Some? then o.value else v
  }

  function Merge<T>(o: Option<T>, v: Option<T>): Option<T> {
    if o.Some? then o else v
  }

  /** `{ ...q, ...updates }`: the form's fields replace the stored ones;
      the cell (id, category, points) and the answered flag stay. */
  function Apply(p: Patch, q: Question): (r: Question)
    ensures r.id == q.id && r.category == q.category && r.points == q.points && r.answered == q.answered
    ensures r.lyricsSegments == q.lyricsSegments && r.geoTimerSeconds == q.geoTimerSeconds
  {
    Question(q.id, q.category, q.points, Over(p.prompt, q.prompt), Over(p.answer, q.answer), q.answered,
             Over(p.kind, q.kind), q.lyricsSegments, q.lyricsRedPattern, q.geoTimerSeconds, q.geoUnlockCost,
             Merge(p.jokerCount, q.jokerCount), Merge(p.jokerMin, q.jokerMin), Merge(p.jokerMax, q.jokerMax),
             q.jokerIncrement, Merge(p.jokerRotateOnMiss, q.jokerRotateOnMiss), q.timelineCenterYear,
             Over(p.timelineEvents, q.timelineEvents), Merge(p.timelineRotateOnMiss, q.timelineRotateOnMiss),
             Over(p.mcqOptions, q.mcqOptions), Merge(p.mcqCorrectIndex, q.mcqCorrectIndex),
             Merge(p.mcqRotateOnMiss, q.mcqRotateOnMiss), q.audioStopSeconds)
  }

  /** Every field the form sets is stored as set; every field it leaves
      unset, and every field it cannot set, keeps its stored value. */
  lemma ApplyWrites(p: Patch, q: Question)
    ensures var r := Apply(p, q);
            (p.prompt.Some? ==> r.prompt == p.prompt.value) && (p.answer.Some? ==> r.answer == p.answer.value)
            && (p.kind.Some? ==> r.kind == p.kind.value)
            && (p.jokerCount.Some? ==> r.jokerCount == p.jokerCount)
            && (p.jokerMin.Some? ==> r.jokerMin == p.jokerMin)
            && (p.jokerMax.Some? ==> r.jokerMax == p.jokerMax)
            && (p.jokerRotateOnMiss.Some? ==> r.jokerRotateOnMiss == p.jokerRotateOnMiss)
            && (p.timelineEvents.Some? ==> r.timelineEvents == p.timelineEvents.value)
            && (p.timelineRotateOnMiss.Some? ==> r.timelineRotateOnMiss == p.timelineRotateOnMiss)
            && (p.mcqOptions.Some? ==> r.mcqOptions == p.mcqOptions.value)
            && (p.mcqCorrectIndex.Some? ==> r.mcqCorrectIndex == p.mcqCorrectIndex)
            && (p.mcqRotateOnMiss.Some? ==> r.mcqRotateOnMiss == p.mcqRotateOnMiss)
    ensures var r := Apply(p, q);
            (p.prompt.None? ==> r.prompt == q.prompt) && (p.answer.None? ==> r.answer == q.answer)
            && (p.kind.None? ==> r.kind == q.kind)
            && (p.jokerCount.None? ==> r.jokerCount == q.jokerCount)
            && (p.jokerMin.None? ==> r.jokerMin == q.jokerMin)
            && (p.jokerMax.None? ==> r.jokerMax == q.jokerMax)
            && (p.jokerRotateOnMiss.None? ==> r.jokerRotateOnMiss == q.jokerRotateOnMiss)
            && (p.timelineEvents.None? ==> r.timelineEvents == q.timelineEvents)
            && (p.timelineRotateOnMiss.None? ==> r.timelineRotateOnMiss == q.timelineRotateOnMiss)
            && (p.mcqOptions.None? ==> r.mcqOptions == q.mcqOptions)
            && (p.mcqCorrectIndex.None? ==> r.mcqCorrectIndex == q.mcqCorrectIndex)
            && (p.mcqRotateOnMiss.None? ==> r.mcqRotateOnMiss == q.mcqRotateOnMiss)
    ensures var r := Apply(p, q);
            r.lyricsRedPattern == q.lyricsRedPattern && r.geoUnlockCost == q.geoUnlockCost
            && r.jokerIncrement == q.jokerIncrement && r.timelineCenterYear == q.timelineCenterYear
            && r.audioStopSeconds == q.audioStopSeconds
  {
  }

  /** Writing the same form twice stores what writing it once does, and an
      empty form stores nothing. */
  lemma ApplyIdempotent(p: Patch, q: Question)
    ensures Apply(p, Apply(p, q)) == Apply(p, q)
    ensures Apply(NoChange, q) == q
  {
  }

  /** The count blur's write. */
  function CountPatch(count: real): (p: Patch)
    ensures p.jokerCount.Some? && 3 <= p.jokerCount.value <= 9
  {
    NoChange.(jokerCount := Some(CountBlur(count)))
  }

  /** McqFields `persist`: the first `count` options trimmed, the correct
      index bounded into them, and rotate-on-miss kept only with four options. */
  function McqPersist(opts: seq<string>, correct: int, count: nat, rotate: bool): (p: Patch)
    ensures p.mcqOptions.Some? && p.mcqCorrectIndex.Some? && p.mcqRotateOnMiss.Some?
    ensures var kept := p.mcqOptions.value;
            |kept| == Min(count, |opts|)
            && (forall i :: 0 <= i < |kept| ==> kept[i] == Trim(opts[i]))
            && (kept != [] ==> 0 <= p.mcqCorrectIndex.value < |kept|)
            && (0 <= correct < |kept| ==> p.mcqCorrectIndex.value == correct)
    ensures p.mcqRotateOnMiss.value <==> count >= 4 && rotate
    ensures p == NoChange.(mcqOptions := p.mcqOptions, mcqCorrectIndex := p.mcqCorrectIndex, mcqRotateOnMiss := p.mcqRotateOnMiss)
  {
    var trimmed := TrimAll(opts[..Min(count, |opts|)]);
    var bounded := Min(|trimmed| - 1, Max(0, correct));
    NoChange.(mcqOptions := Some(trimmed), mcqCorrectIndex := Some(bounded),
              mcqRotateOnMiss := Some(if count >= 4 then rotate else false))
  }

  // ---- the question list ----

  /** The entry a fresh (category, points) cell starts from. */
  function DefaultQuestion(id: string, category: string, points: int): Question {
    Question(id, category, points, "", "", false, Standard, [], [], None, Some(0),
             Some(5), Some(1), Some(9), Some(100), Some(true), Some(2000), [], Some(true),
             [], Some(0), None, None)
  }

  predicate AtCell(q: Question, category: string, points: int) {
    q.category == category && q.points == points
  }

  /** `findIndex` of the cell, -1 when there is none. */
  function CellIndex(qs: seq<Question>, category: string, points: int): (i: int)
    ensures -1 <= i < |qs|
    ensures i >= 0 ==> AtCell(qs[i], category, points) && forall j :: 0 <= j < i ==> !AtCell(qs[j], category, points)
    ensures i == -1 ==> forall j :: 0 <= j < |qs| ==> !AtCell(qs[j], category, points)
  {
    if qs == [] then -1
    else if AtCell(qs[0], category, points) then 0
    else
      var k := CellIndex(qs[1..], category, points);
      if k < 0 then -1 else k + 1
  }

  /** `getQuestion`: the first entry of the cell. */
  function CellQuestion(qs: seq<Question>, category: string, points: int): Option<Question> {
    var i := CellIndex(qs, category, points);
    if i < 0 then None else Some(qs[i])
  }

  /** `upsertQuestion`: merges the patch into the cell's entry, or appends
      a default entry for the cell with the patch applied. */
  function Upsert(qs: seq<Question>, category: string, points: int, p: Patch, freshId: string): (r: seq<Question>)
    ensures var i := CellIndex(qs, category, points);
            (i >= 0 ==> |r| == |qs| && r[i] == Apply(p, qs[i]) && forall j :: 0 <= j < |qs| && j != i ==> r[j] == qs[j])
            && (i < 0 ==> r == qs + [Apply(p, DefaultQuestion(freshId, category, points))])
  {
    var i := CellIndex(qs, category, points);
    if i >= 0 then qs[i := Apply(p, qs[i])]
    else qs + [Apply(p, DefaultQuestion(freshId, category, points))]
  }

  /** After an upsert the cell reads back as its old entry (or the default)
      with the patch applied, and every other cell reads as before. */
  lemma UpsertThenRead(qs: seq<Question>, category: string, points: int, p: Patch, freshId: string, c: string, pts: int)
    ensures var r := Upsert(qs, category, points, p, freshId);
            var before := CellQuestion(qs, category, points);
            CellQuestion(r, category, points) == Some(Apply(p, before.GetOr(DefaultQuestion(freshId, category, points))))
            && (c != category || pts != points ==> CellQuestion(r, c, pts) == CellQuestion(qs, c, pts))
  {
    var r := Upsert(qs, category, points, p, freshId);
    var i := CellIndex(qs, category, points);
    if i >= 0 {
      CellIndexOfUpdate(qs, i, Apply(p, qs[i]), category, points);
      CellIndexOfUpdate(qs, i, Apply(p, qs[i]), c, pts);
    } else {
      CellIndexOfAppend(qs, Apply(p, DefaultQuestion(freshId, category, points)), category, points);
      CellIndexOfAppend(qs, Apply(p, DefaultQuestion(freshId, category, points)), c, pts);
    }
  }

  /** Rewriting one entry without moving it between cells keeps every cell's index. */
  lemma {:induction false} CellIndexOfUpdate(qs: seq<Question>, i: int, x: Question, c: string, pts: int)
    requires 0 <= i < |qs| && x.category == qs[i].category && x.points == qs[i].points
    ensures CellIndex(qs[i := x], c, pts) == CellIndex(qs, c, pts)
  {
    if i > 0 {
      assert qs[i := x][1..] == qs[1..][i - 1 := x];
      CellIndexOfUpdate(qs[1..], i - 1, x, c, pts);
    }
  }

  lemma {:induction false} CellIndexOfAppend(qs: seq<Question>, x: Question, c: string, pts: int)
    ensures CellIndex(qs + [x], c, pts) == if CellIndex(qs, c, pts) >= 0 then CellIndex(qs, c, pts)
                                          else if AtCell(x, c, pts) then |qs| else -1
  {
    if qs != [] {
      assert (qs + [x])[1..] == qs[1..] + [x];
      CellIndexOfAppend(qs[1..], x, c, pts);
    }
  }

  predicate HasCategory(qs: seq<Question>, name: string) {
    exists i :: 0 <= i < |qs| && qs[i].category == name
  }

  /** The board's new category: one default entry per point value. */
  function CategoryEntries(name: string, ids: nat -> string): (add: seq<Question>)
    ensures |add| == |PointValues|
    ensures forall k :: 0 <= k < |add| ==> add[k] == DefaultQuestion(ids(k), name, PointValues[k])
  {
    seq(|PointValues|, k requires 0 <= k < |PointValues| => DefaultQuestion(ids(k), name, PointValues[k]))
  }

  /** `handleNewCategory`: returns the list and the cleared input field. A
      blank name changes nothing; a name already on the board only clears
      the field. */
  function NewCategory(qs: seq<Question>, field: string, ids: nat -> string): (r: (seq<Question>, string))
    ensures Trim(field) == "" ==> r == (qs, field)
    ensures Trim(field) != "" ==> r.1 == ""
    ensures Trim(field) != "" && HasCategory(qs, Trim(field)) ==> r.0 == qs
    ensures Trim(field) != "" && !HasCategory(qs, Trim(field)) ==> r.0 == qs + CategoryEntries(Trim(field), ids)
  {
    var name := Trim(field);
    if name == "" then (qs, field)
    else if HasCategory(qs, name) then (qs, "")
    else (qs + CategoryEntries(name, ids), "")
  }

  /** A new category fills every cell of its column. */
  lemma NewCategoryFillsColumn(qs: seq<Question>, field: string, ids: nat -> string, k: int)
    requires Trim(field) != "" && !HasCategory(qs, Trim(field)) && 0 <= k < |PointValues|
    ensures CellQuestion(NewCategory(qs, field, ids).0, Trim(field), PointValues[k])
            == Some(DefaultQuestion(ids(k), Trim(field), PointValues[k]))
  {
    var name := Trim(field);
    var add := CategoryEntries(name, ids);
    var r := qs + add;
    var i := CellIndex(r, name, PointValues[k]);
    assert r[|qs| + k] == add[k];
    assert AtCell(r[|qs| + k], name, PointValues[k]);
  }

  /** `categories.includes(name)`: a category on the board or the pending new name. */
  predicate CategoryListed(qs: seq<Question>, pending: string, name: string) {
    HasCategory(qs, name) || (pending != "" && pending == name)
  }

  function RenameAll(qs: seq<Question>, oldName: string, newName: string): (r: seq<Question>)
    ensures |r| == |qs|
    ensures forall i :: 0 <= i < |r| ==> r[i] == if qs[i].category == oldName then qs[i].(category := newName) else qs[i]
  {
    seq(|qs|, i requires 0 <= i < |qs| => if qs[i].category == oldName then qs[i].(category := newName) else qs[i])
  }

  /** `renameCategory`: a blank, unchanged or already listed name is
      ignored; otherwise exactly the entries of the old category move to
      the new one. */
  function RenameCategory(qs: seq<Question>, pending: string, oldName: string, raw: string): (r: seq<Question>)
    ensures var newName := Trim(raw);
            newName == "" || newName == oldName || CategoryListed(qs, pending, newName) ==> r == qs
    ensures |r| == |qs|
    ensures forall i :: 0 <= i < |r| ==> r[i].id == qs[i].id && r[i].points == qs[i].points
    ensures forall i :: 0 <= i < |r| && qs[i].category != oldName ==> r[i] == qs[i]
  {
    var newName := Trim(raw);
    if newName == "" || newName == oldName || CategoryListed(qs, pending, newName) then qs
    else RenameAll(qs, oldName, newName)
  }

  /** Renaming and renaming back restores the board. */
  lemma RenameRoundTrip(qs: seq<Question>, pending: string, pendingAfter: string, oldName: string, newName: string)
    requires newName != "" && Trimmed(newName) && newName != oldName && !CategoryListed(qs, pending, newName)
    requires oldName != "" && Trimmed(oldName) && pendingAfter != oldName
    ensures RenameCategory(RenameCategory(qs, pending, oldName, newName), pendingAfter, newName, oldName) == qs
  {
    TrimKeepsTrimmed(newName);
    TrimKeepsTrimmed(oldName);
    var r := RenameAll(qs, oldName, newName);
    assert !HasCategory(r, oldName);
    var back := RenameAll(r, newName, oldName);
    forall i | 0 <= i < |qs|
      ensures back[i] == qs[i]
    {
      assert qs[i].category != newName;
    }
  }

  /** `resetAnsweredFlags`. */
  function ResetAnswered(qs: seq<Question>): (r: seq<Question>)
    ensures |r| == |qs|
    ensures forall i :: 0 <= i < |r| ==> !r[i].answered && r[i] == qs[i].(answered := false)
  {
    seq(|qs|, i requires 0 <= i < |qs| => qs[i].(answered := false))
  }

  /** A reset forgets every question answered on the board since. */
  lemma ResetForgetsAnswers(qs: seq<Question>, id: string)
    ensures ResetAnswered(MarkAnswered(qs, id)) == ResetAnswered(qs)
    ensures UnansweredCount(ResetAnswered(qs)) == |qs|
  {
    var a, b := ResetAnswered(MarkAnswered(qs, id)), ResetAnswered(qs);
    assert forall i :: 0 <= i < |qs| ==> a[i] == b[i];
    AllOpen(ResetAnswered(qs));
  }

  lemma {:induction false} AllOpen(qs: seq<Question>)
    requires forall i :: 0 <= i < |qs| ==> !qs[i].answered
    ensures UnansweredCount(qs) == |qs|
  {
    if qs != [] {
      AllOpen(qs[1..]);
    }
  }

  /** `deleteCategory`. */
  function DeleteCategory(qs: seq<Question>, name: string): (r: seq<Question>)
    ensures |r| <= |qs|
    ensures forall q :: q in r <==> q in qs && q.category != name
  {
    if qs == [] then []
    else (if qs[0].category == name then [] else [qs[0]]) + DeleteCategory(qs[1..], name)
  }

  /** Deleting a category just added leaves the board as it was. */
  lemma {:induction false} DeleteUndoesNewCategory(qs: seq<Question>, field: string, ids: nat -> string)
    requires Trim(field) != "" && !HasCategory(qs, Trim(field))
    ensures DeleteCategory(NewCategory(qs, field, ids).0, Trim(field)) == qs
  {
    var name := Trim(field);
    DeleteAppend(qs, CategoryEntries(name, ids), name);
    DeleteAbsent(qs, name);
    DeleteAbsent(CategoryEntries(name, ids), name);
  }

  /** Each entry of another category is kept as often as it was listed. */
  lemma {:induction false} DeleteCategoryCount(qs: seq<Question>, name: string, q: Question)
    ensures multiset(DeleteCategory(qs, name))[q] == if q.category != name then multiset(qs)[q] else 0
  {
    if qs != [] {
      var head := if qs[0].category == name then [] else [qs[0]];
      DeleteCategoryCount(qs[1..], name, q);
      assert qs == [qs[0]] + qs[1..];
      assert multiset(qs) == multiset([qs[0]]) + multiset(qs[1..]);
      assert multiset(DeleteCategory(qs, name)) == multiset(head) + multiset(DeleteCategory(qs[1..], name));
    }
  }

  lemma {:induction false} DeleteAppend(a: seq<Question>, b: seq<Question>, name: string)
    ensures DeleteCategory(a + b, name) == DeleteCategory(a, name) + DeleteCategory(b, name)
  {
    if a != [] {
      var ab := a + b;
      assert ab != [] && ab[0] == a[0] && ab[1..] == a[1..] + b;
      DeleteAppend(a[1..], b, name);
      var head := if a[0].category == name then [] else [a[0]];
      assert DeleteCategory(ab, name) == head + DeleteCategory(a[1..] + b, name);
      assert DeleteCategory(a, name) == head + DeleteCategory(a[1..], name);
      AppendAssoc(head, DeleteCategory(a[1..], name), DeleteCategory(b, name));
    } else {
      assert a + b == b;
    }
  }

  lemma {:induction false} DeleteAbsent(qs: seq<Question>, name: string)
    ensures (forall i :: 0 <= i < |qs| ==> qs[i].category != name) ==> DeleteCategory(qs, name) == qs
    ensures (forall i :: 0 <= i < |qs| ==> qs[i].category == name) ==> DeleteCategory(qs, name) == []
  {
    if qs != [] {
      DeleteAbsent(qs[1..], name);
      assert [qs[0]] + qs[1..] == qs;
    }
  }
}
