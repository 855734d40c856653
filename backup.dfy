/** Restoring a backup file (src/lib/backup.ts): the shape checks of
    `parseBackupPayload` over an already parsed JSON value, and the merge
    of the stored turn state over the empty one. */
module Backup {
  import opened Common

  /** A JSON value as `JSON.parse` returns it; an object's keys are already
      resolved (a repeated key keeps its last value). */
  datatype Json =
    | JNull
    | JBool(b: bool)
    | JNumber(n: real)
    | JString(s: string)
    | JArray(items: seq<Json>)
    | JObject(fields: map<string, Json>)

  /** The restored payload. Teams, questions and the turn state's values
      are carried as the file has them: only their outer shape is checked. */
  datatype Payload = Payload(
    version: int,
    exportedAt: Json,
    teams: seq<Json>,
    questions: seq<Json>,
    turnState: map<string, Json>)

  /** The message each rejection throws. */
  datatype BackupError = NotJson | InvalidFormat | MissingTeams | MissingQuestions

  /** `fallbackTurnState`. */
  const FallbackTurnState: map<string, Json> :=
    map["order" := JArray([]), "boardIndex" := JNumber(0.0), "lyricsIndex" := JNumber(0.0)]

  /** `typeof v === "object"` for a truthy value: objects and arrays. */
  predicate IsObjectLike(v: Json) {
    v.JObject? || v.JArray?
  }

  /** The own enumerable properties `...v` copies: an object's fields, or
      an array's elements under their index keys. */
  function OwnProperties(v: Json): (m: map<string, Json>)
    requires IsObjectLike(v)
    ensures v.JObject? ==> m == v.fields
    ensures v.JArray? ==> forall k :: k in m ==> |k| >= 1 && IsDigit(k[0])
  {
    if v.JObject? then v.fields
    else IndexKeysDistinct(|v.items|); IndexMap(v.items)
  }

  function IndexMap(items: seq<Json>): (m: map<string, Json>)
    requires forall i, j :: 0 <= i < |items| && 0 <= j < |items| && NatToString(i) == NatToString(j) ==> i == j
    ensures forall k :: k in m ==> |k| >= 1 && IsDigit(k[0])
  {
    map i | 0 <= i < |items| :: NatToString(i) := items[i]
  }

  lemma IndexKeysDistinct(n: nat)
    ensures forall i, j :: 0 <= i < n && 0 <= j < n && NatToString(i) == NatToString(j) ==> i == j
  {
    forall i, j | 0 <= i < n && 0 <= j < n && NatToString(i) == NatToString(j)
      ensures i == j
    {
      NatToStringInjective(i, j);
    }
  }

  /** A property read: `undefined` is `None`. An array has no named fields
      other than its indices. */
  function Get(v: Json, key: string): Option<Json> {
    if v.JObject? && key in v.fields then Some(v.fields[key]) else None
  }

  /** The turn state taken from the file: the fallback with the file's
      fields spread over it, or the fallback alone. */
  function MergedTurnState(stored: Option<Json>): (ts: map<string, Json>)
    ensures FallbackTurnState.Keys <= ts.Keys
    ensures stored.None? || !IsObjectLike(stored.value) ==> ts == FallbackTurnState
    ensures stored.Some? && stored.value.JObject? ==>
              ts.Keys == FallbackTurnState.Keys + stored.value.fields.Keys
              && forall k :: k in ts ==> ts[k] == if k in stored.value.fields then stored.value.fields[k] else FallbackTurnState[k]
  {
    if stored.Some? && IsObjectLike(stored.value) then FallbackTurnState + OwnProperties(stored.value)
    else FallbackTurnState
  }

  /** `parseBackupPayload`. `parsed` is what `JSON.parse` gave for the file
      text (`None` when it threw), and `now` the current ISO timestamp. */
  function ParseBackup(parsed: Option<Json>, now: string): (r: Result<Payload, BackupError>)
    ensures parsed.None? <==> r == Err(NotJson)
    ensures parsed.Some? && !IsObjectLike(parsed.value) <==> r == Err(InvalidFormat)
    ensures parsed.Some? && IsObjectLike(parsed.value) ==>
              var teams, questions := Get(parsed.value, "teams"), Get(parsed.value, "questions");
              (r == Err(MissingTeams) <==> teams.None? || !teams.value.JArray?)
              && (r == Err(MissingQuestions) <==> teams.Some? && teams.value.JArray? && (questions.None? || !questions.value.JArray?))
    ensures r.Ok? ==>
              var v := parsed.value;
              v.JObject? && r.value.version == 1
              && Some(JArray(r.value.teams)) == Get(v, "teams")
              && Some(JArray(r.value.questions)) == Get(v, "questions")
              && r.value.turnState == MergedTurnState(Get(v, "turnState"))
              && r.value.exportedAt == (match Get(v, "exportedAt")
                                        case Some(e) => if e.JNull? then JString(now) else e
                                        case None => JString(now))
  {
    if parsed.None? then Err(NotJson)
    else
      var v := parsed.value;
      if !IsObjectLike(v) then Err(InvalidFormat)
      else
        var teams := Get(v, "teams");
        if teams.None? || !teams.value.JArray? then Err(MissingTeams)
        else
          var questions := Get(v, "questions");
          if questions.None? || !questions.value.JArray? then Err(MissingQuestions)
          else
            var exported := Get(v, "exportedAt");
            Ok(Payload(1, if exported.Some? && !exported.value.JNull? then exported.value else JString(now),
                       teams.value.items, questions.value.items, MergedTurnState(Get(v, "turnState"))))
  }

  /** The payload as `buildBackupPayload` writes it to a file. */
  function ToJson(p: Payload): Json {
    JObject(map["version" := JNumber(p.version as real), "exportedAt" := p.exportedAt,
                "teams" := JArray(p.teams), "questions" := JArray(p.questions),
                "turnState" := JObject(p.turnState)])
  }

  /** A restored payload, written out again, restores to itself: the file
      format is closed under a save after a load. */
  lemma RestoreIsStable(parsed: Option<Json>, now: string, later: string)
    requires ParseBackup(parsed, now).Ok?
    ensures var p := ParseBackup(parsed, now).value;
            ParseBackup(Some(ToJson(p)), later) == Ok(p)
  {
    var p := ParseBackup(parsed, now).value;
    assert !p.exportedAt.JNull?;
    SaveThenRestore(p, later);
  }

  /** A payload with a stamp and a full turn state survives a save and a
      load unchanged. */
  lemma SaveThenRestore(p: Payload, now: string)
    requires p.version == 1 && !p.exportedAt.JNull? && FallbackTurnState.Keys <= p.turnState.Keys
    ensures ParseBackup(Some(ToJson(p)), now) == Ok(p)
  {
    var v := ToJson(p);
    assert Get(v, "turnState") == Some(JObject(p.turnState));
    assert FallbackTurnState + p.turnState == p.turnState;
  }

  /** Without a stored turn state, the restore starts from the empty order. */
  lemma MissingTurnStateFallsBack(fields: map<string, Json>, now: string)
    requires "teams" in fields && fields["teams"].JArray?
    requires "questions" in fields && fields["questions"].JArray?
    requires "turnState" !in fields || !IsObjectLike(fields["turnState"])
    ensures var r := ParseBackup(Some(JObject(fields)), now);
            r.Ok? && r.value.turnState["order"] == JArray([])
            && r.value.turnState["boardIndex"] == JNumber(0.0) && r.value.turnState["lyricsIndex"] == JNumber(0.0)
  {
  }
}
