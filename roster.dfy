/** The team roster editor (src/app/config/teams/page.tsx): the
    Fisher-Yates shuffle, dealing the shuffled players back into teams of
    the same sizes, and adding and removing teams and players. Fresh ids
    and `Math.random()` are parameters. */
module Roster {
  import opened Common
  import opened Domain

  /** The page's badge choices, in order. */
  const EmojiOptions: seq<EmojiOption> := [
    EmojiOption("\U{1F384}", "Tree", "#0b8a3b", "#d1fae5"),
    EmojiOption("\U{2B50}\U{FE0F}", "Star", "#b8860b", "#ffe29f"),
    EmojiOption("\U{1F514}", "Bell", "#b03060", "#ffd6e0"),
    EmojiOption("\U{2744}\U{FE0F}", "Snow", "#0f4c75", "#b0e0ff"),
    EmojiOption("\U{1F381}", "Gift", "#b9001f", "#f7c948")
  ]

  // ---- shuffleArray ----

  function Swap<T>(s: seq<T>, i: int, j: int): (r: seq<T>)
    requires 0 <= i < |s| && 0 <= j < |s|
    ensures |r| == |s|
    ensures r[i] == s[j] && r[j] == s[i]
    ensures forall k :: 0 <= k < |s| && k != i && k != j ==> r[k] == s[k]
  {
    s[i := s[j]][j := s[i]]
  }

  /** The Fisher-Yates passes from index `i` down to 1: the pass at `i`
      swaps it with the index drawn uniformly from [0, i], and takes the
      next draw of the stream. */
  function ShuffleFrom<T>(s: seq<T>, i: int, draw: nat -> real): (r: seq<T>)
    requires RandomOracle(draw) && -1 <= i < |s|
    ensures |r| == |s|
    decreases i + 1
  {
    if i <= 0 then s
    else ShuffleFrom(Swap(s, i, Rand(draw(|s| - 1 - i), 0, i)), i - 1, draw)
  }

  /** A swap moves no element in or out. */
  lemma SwapPermutes<T>(s: seq<T>, i: int, j: int)
    requires 0 <= i < |s| && 0 <= j < |s|
    ensures multiset(Swap(s, i, j)) == multiset(s)
  {
    var t := s[i := s[j]];
    assert multiset(t) == multiset(s) - multiset{s[i]} + multiset{s[j]};
    assert multiset(t[j := s[i]]) == multiset(t) - multiset{t[j]} + multiset{s[i]};
  }

  /** The shuffle is a permutation of its input. */
  lemma {:induction false} ShuffleFromPermutes<T>(s: seq<T>, i: int, draw: nat -> real)
    requires RandomOracle(draw) && -1 <= i < |s|
    ensures multiset(ShuffleFrom(s, i, draw)) == multiset(s)
    decreases i + 1
  {
    if i > 0 {
      var j := Rand(draw(|s| - 1 - i), 0, i);
      SwapPermutes(s, i, j);
      ShuffleFromPermutes(Swap(s, i, j), i - 1, draw);
    }
  }

  /** The shuffle of a whole sequence. */
  function Shuffled<T>(s: seq<T>, draw: nat -> real): (r: seq<T>)
    requires RandomOracle(draw)
    ensures |r| == |s| && multiset(r) == multiset(s)
  {
    ShuffleFromPermutes(s, |s| - 1, draw);
    ShuffleFrom(s, |s| - 1, draw)
  }

  /** One pass of the shuffle: the pass at `i` swaps `i` with its draw. */
  lemma ShuffleStep<T>(before: seq<T>, after: seq<T>, i: int, j: int, draw: nat -> real)
    requires RandomOracle(draw) && 0 < i < |before|
    requires j == Rand(draw(|before| - 1 - i), 0, i) && after == Swap(before, i, j)
    ensures ShuffleFrom(before, i, draw) == ShuffleFrom(after, i - 1, draw)
  {
  }

  /** The pass at `i`, in place: swaps `a[i]` with the cell its draw picks. */
  method Pass<T>(a: array<T>, i: int, draw: nat -> real)
    requires RandomOracle(draw) && 0 < i < a.Length
    modifies a
    ensures ShuffleFrom(old(a[..]), i, draw) == ShuffleFrom(a[..], i - 1, draw)
  {
    var j := Rand(draw(a.Length - 1 - i), 0, i);
    ghost var before := a[..];
    a[i], a[j] := a[j], a[i];
    ShuffleStep(before, a[..], i, j, draw);
  }

  /** `shuffleArray`: copies the input and shuffles the copy in place. */
  method ShuffleArray<T>(arr: seq<T>, draw: nat -> real) returns (r: seq<T>)
    requires RandomOracle(draw)
    ensures r == Shuffled(arr, draw)
    ensures |r| == |arr| && multiset(r) == multiset(arr)
  {
    var copy := new T[|arr|](k requires 0 <= k < |arr| => arr[k]);
    assert copy[..] == arr;
    ghost var target := ShuffleFrom(arr, |arr| - 1, draw);
    var i := |arr| - 1;
    while i > 0
      invariant -1 <= i < copy.Length == |arr|
      invariant ShuffleFrom(copy[..], i, draw) == target
    {
      Pass(copy, i, draw);
      i := i - 1;
    }
    r := copy[..];
    assert r == Shuffled(arr, draw);
  }

  // ---- shufflePlayersAcrossTeams ----

  /** The number of players over all teams. */
  function Total(teams: seq<Team>): nat {
    if teams == [] then 0 else |teams[0].players| + Total(teams[1..])
  }

  /** `prev.flatMap((team) => team.players)`. */
  function Flatten(teams: seq<Team>): (all: seq<Player>)
    ensures |all| == Total(teams)
  {
    if teams == [] then [] else teams[0].players + Flatten(teams[1..])
  }

  /** The deal: each team, in order, takes as many players from the front
      of `pool` as it had before, and keeps everything else. */
  function Deal(teams: seq<Team>, pool: seq<Player>): (r: seq<Team>)
    requires |pool| == Total(teams)
    ensures |r| == |teams|
  {
    if teams == [] then []
    else
      var n := |teams[0].players|;
      [teams[0].(players := pool[..n])] + Deal(teams[1..], pool[n..])
  }

  /** The deal changes only players, and every team keeps its size. */
  lemma DealKeepsTeams(teams: seq<Team>, pool: seq<Player>)
    requires |pool| == Total(teams)
    ensures var r := Deal(teams, pool);
            forall k :: 0 <= k < |r| ==> r[k] == teams[k].(players := r[k].players) && |r[k].players| == |teams[k].players|
  {
    var r := Deal(teams, pool);
    forall k | 0 <= k < |r|
      ensures r[k] == teams[k].(players := r[k].players) && |r[k].players| == |teams[k].players|
    {
      DealAt(teams, pool, k);
    }
  }

  /** Dealt teams, flattened again, give back the pool. */
  lemma {:induction false} DealFlattens(teams: seq<Team>, pool: seq<Player>)
    requires |pool| == Total(teams)
    ensures Flatten(Deal(teams, pool)) == pool
  {
    if teams != [] {
      var n := |teams[0].players|;
      DealFlattens(teams[1..], pool[n..]);
      assert Deal(teams, pool)[1..] == Deal(teams[1..], pool[n..]);
      assert pool[..n] + pool[n..] == pool;
    }
  }

  /** The first team's share, and the deal of the rest. */
  lemma DealStep(teams: seq<Team>, pool: seq<Player>, rest: seq<Team>, tail: seq<Player>)
    requires teams != [] && |pool| == Total(teams)
    requires rest == teams[1..] && tail == pool[|teams[0].players|..]
    ensures |tail| == Total(rest)
    ensures Deal(teams, pool) == [teams[0].(players := pool[..|teams[0].players|])] + Deal(rest, tail)
  {
  }

  /** Team `k` of the deal takes the players after those of the teams
      before it. */
  lemma {:induction false} DealAt(teams: seq<Team>, pool: seq<Player>, k: int)
    requires |pool| == Total(teams) && 0 <= k < |teams|
    ensures var c := |pool| - Total(teams[k..]);
            0 <= c && c + |teams[k].players| <= |pool|
            && Deal(teams, pool)[k] == teams[k].(players := pool[c..c + |teams[k].players|])
  {
    assert teams[k..][1..] == teams[k + 1..];
    var n := |teams[0].players|;
    if k == 0 {
      assert teams[0..] == teams;
    } else {
      DealAt(teams[1..], pool[n..], k - 1);
      assert teams[1..][k - 1..] == teams[k..];
      var c := |pool| - Total(teams[k..]);
      assert pool[n..][c - n..c - n + |teams[k].players|] == pool[c..c + |teams[k].players|];
    }
  }

  /** One step of the cursor walk stays on the deal. */
  lemma DealOutStep(prev: seq<Team>, shuffled: seq<Player>, idx: int, cursor: int, r: seq<Team>)
    requires |shuffled| == Total(prev) && 0 <= idx < |prev|
    requires cursor == |shuffled| - Total(prev[idx..]) && r == Deal(prev, shuffled)[..idx]
    ensures 0 <= cursor && cursor + |prev[idx].players| <= |shuffled|
    ensures cursor + |prev[idx].players| == |shuffled| - Total(prev[idx + 1..])
    ensures r + [prev[idx].(players := shuffled[cursor..cursor + |prev[idx].players|])] == Deal(prev, shuffled)[..idx + 1]
  {
    var dealt := Deal(prev, shuffled);
    DealAt(prev, shuffled, idx);
    assert prev[idx..][1..] == prev[idx + 1..];
    assert dealt[..idx + 1] == dealt[..idx] + [dealt[idx]];
  }

  /** The `prev.map` of `shufflePlayersAcrossTeams`: a cursor walks the
      shuffled players, and each team takes the next `counts[idx]`. */
  method DealOut(prev: seq<Team>, shuffled: seq<Player>) returns (r: seq<Team>)
    requires |shuffled| == Total(prev)
    ensures r == Deal(prev, shuffled)
  {
    var counts := seq(|prev|, k requires 0 <= k < |prev| => |prev[k].players|);
    ghost var dealt := Deal(prev, shuffled);
    var cursor := 0;
    r := [];
    assert prev[0..] == prev;
    for idx := 0 to |prev|
      invariant cursor == |shuffled| - Total(prev[idx..])
      invariant r == dealt[..idx]
    {
      var take := counts[idx];
      DealOutStep(prev, shuffled, idx, cursor, r);
      r := r + [prev[idx].(players := shuffled[cursor..cursor + take])];
      cursor := cursor + take;
    }
    assert dealt[..|prev|] == dealt;
  }

  /** `shufflePlayersAcrossTeams`: every player, shuffled, dealt back so
      each team keeps its size; a roster without players is left as it is. */
  method ShufflePlayersAcrossTeams(prev: seq<Team>, draw: nat -> real) returns (r: seq<Team>)
    requires RandomOracle(draw)
    ensures Flatten(prev) == [] ==> r == prev
    ensures Flatten(prev) != [] ==> r == Deal(prev, Shuffled(Flatten(prev), draw))
    ensures |r| == |prev|
    ensures forall k :: 0 <= k < |r| ==> r[k] == prev[k].(players := r[k].players) && |r[k].players| == |prev[k].players|
    ensures multiset(Flatten(r)) == multiset(Flatten(prev))
  {
    var allPlayers := Flatten(prev);
    if |allPlayers| == 0 {
      return prev;
    }
    var shuffled := ShuffleArray(allPlayers, draw);
    r := DealOut(prev, shuffled);
    DealFlattens(prev, shuffled);
    DealKeepsTeams(prev, shuffled);
  }

  // ---- teams ----

  /** The team `addTeam` appends to a roster of `n` teams. */
  function NewTeam(n: nat, teamId: string, playerIds: seq<string>): (t: Team)
    requires |playerIds| == 3
    ensures t.id == teamId && t.name == "Team " + NatToString(n + 1) && t.score == 0
    ensures |t.players| == 3 && forall i :: 0 <= i < 3 ==> t.players[i].id == playerIds[i]
    ensures t.badgeEmoji == Some(EmojiOptions[n % |EmojiOptions|].emoji)
  {
    var option := EmojiOptions[n % |EmojiOptions|];
    Team(teamId, "Team " + NatToString(n + 1),
         [Player(playerIds[0], "Player 1"), Player(playerIds[1], "Player 2"), Player(playerIds[2], "Player 3")],
         0, Some(option.emoji), Some(option.base), Some(option.glow))
  }

  /** `addTeam`: one more team, named after its position, scoring 0, with
      three players and the next badge in turn. */
  function AddTeam(prev: seq<Team>, teamId: string, playerIds: seq<string>): (r: seq<Team>)
    requires |playerIds| == 3
    ensures |r| == |prev| + 1 && r[..|prev|] == prev
    ensures var t := r[|prev|];
            t.id == teamId && t.score == 0 && t.name == "Team " + NatToString(|prev| + 1) && |t.players| == 3
            && t.badgeEmoji == Some(EmojiOptions[|prev| % 5].emoji)
            && t.accentBase == Some(EmojiOptions[|prev| % 5].base)
            && t.accentGlow == Some(EmojiOptions[|prev| % 5].glow)
  {
    prev + [NewTeam(|prev|, teamId, playerIds)]
  }

  /** `removeTeam`: keeps, in order, the teams with another id. */
  function RemoveTeam(teams: seq<Team>, teamId: string): (r: seq<Team>)
    ensures |r| <= |teams|
    ensures forall t :: t in r <==> t in teams && t.id != teamId
  {
    if teams == [] then []
    else (if teams[0].id == teamId then [] else [teams[0]]) + RemoveTeam(teams[1..], teamId)
  }

  /** Each team with another id is kept as often as it was listed. */
  lemma {:induction false} RemoveTeamCount(teams: seq<Team>, teamId: string, t: Team)
    ensures multiset(RemoveTeam(teams, teamId))[t] == if t.id != teamId then multiset(teams)[t] else 0
  {
    if teams != [] {
      var head := if teams[0].id == teamId then [] else [teams[0]];
      RemoveTeamCount(teams[1..], teamId, t);
      assert teams == [teams[0]] + teams[1..];
      assert multiset(teams) == multiset([teams[0]]) + multiset(teams[1..]);
      assert multiset(RemoveTeam(teams, teamId)) == multiset(head) + multiset(RemoveTeam(teams[1..], teamId));
    }
  }

  /** Removal works segment by segment, so the kept teams keep their order. */
  lemma {:induction false} RemoveTeamSplits(a: seq<Team>, b: seq<Team>, teamId: string)
    ensures RemoveTeam(a + b, teamId) == RemoveTeam(a, teamId) + RemoveTeam(b, teamId)
  {
    if a == [] {
      assert a + b == b;
    } else {
      assert (a + b)[1..] == a[1..] + b;
      RemoveTeamSplits(a[1..], b, teamId);
    }
  }

  lemma {:induction false} RemoveAbsentTeam(teams: seq<Team>, teamId: string)
    requires forall k :: 0 <= k < |teams| ==> teams[k].id != teamId
    ensures RemoveTeam(teams, teamId) == teams
  {
    if teams != [] {
      RemoveAbsentTeam(teams[1..], teamId);
      assert [teams[0]] + teams[1..] == teams;
    }
  }

  /** Removing a team just added, under a fresh id, restores the roster. */
  lemma RemoveUndoesAdd(prev: seq<Team>, teamId: string, playerIds: seq<string>)
    requires |playerIds| == 3 && forall k :: 0 <= k < |prev| ==> prev[k].id != teamId
    ensures RemoveTeam(AddTeam(prev, teamId, playerIds), teamId) == prev
  {
    var t := NewTeam(|prev|, teamId, playerIds);
    RemoveTeamSplits(prev, [t], teamId);
    RemoveAbsentTeam(prev, teamId);
    assert RemoveTeam([t], teamId) == [] by {
      assert [t][1..] == [];
    }
  }

  // ---- players ----

  /** `addPlayer`: the team with that id gets one more player, named
      after its new size; every other team is unchanged. */
  function AddPlayer(teams: seq<Team>, teamId: string, playerId: string): (r: seq<Team>)
    ensures |r| == |teams|
    ensures forall k :: 0 <= k < |r| ==>
              r[k] == if teams[k].id == teamId
                      then teams[k].(players := teams[k].players + [Player(playerId, "Player " + NatToString(|teams[k].players| + 1))])
                      else teams[k]
  {
    seq(|teams|, k requires 0 <= k < |teams| =>
      if teams[k].id == teamId
      then teams[k].(players := teams[k].players + [Player(playerId, "Player " + NatToString(|teams[k].players| + 1))])
      else teams[k])
  }

  function WithoutPlayer(players: seq<Player>, playerId: string): (r: seq<Player>)
    ensures forall p :: p in r <==> p in players && p.id != playerId
  {
    if players == [] then []
    else (if players[0].id == playerId then [] else [players[0]]) + WithoutPlayer(players[1..], playerId)
  }

  /** `removePlayer`: only the matching team loses its players with that id. */
  function RemovePlayer(teams: seq<Team>, teamId: string, playerId: string): (r: seq<Team>)
    ensures |r| == |teams|
    ensures forall k :: 0 <= k < |r| ==>
              r[k] == teams[k].(players := r[k].players)
              && (teams[k].id != teamId ==> r[k] == teams[k])
              && (teams[k].id == teamId ==> forall p :: p in r[k].players <==> p in teams[k].players && p.id != playerId)
  {
    seq(|teams|, k requires 0 <= k < |teams| =>
      if teams[k].id == teamId then teams[k].(players := WithoutPlayer(teams[k].players, playerId)) else teams[k])
  }

  lemma {:induction false} WithoutAppended(players: seq<Player>, p: Player)
    requires forall k :: 0 <= k < |players| ==> players[k].id != p.id
    ensures WithoutPlayer(players + [p], p.id) == players
  {
    if players == [] {
      assert [p][1..] == [];
    } else {
      assert (players + [p])[1..] == players[1..] + [p];
      WithoutAppended(players[1..], p);
      assert [players[0]] + players[1..] == players;
    }
  }

  /** Removing a player just added, under a fresh id, restores the roster. */
  lemma RemoveUndoesAddPlayer(teams: seq<Team>, teamId: string, playerId: string)
    requires forall k, j :: 0 <= k < |teams| && 0 <= j < |teams[k].players| && teams[k].id == teamId ==> teams[k].players[j].id != playerId
    ensures RemovePlayer(AddPlayer(teams, teamId, playerId), teamId, playerId) == teams
  {
    var r := RemovePlayer(AddPlayer(teams, teamId, playerId), teamId, playerId);
    forall k | 0 <= k < |teams|
      ensures r[k] == teams[k]
    {
      if teams[k].id == teamId {
        WithoutAppended(teams[k].players, Player(playerId, "Player " + NatToString(|teams[k].players| + 1)));
      }
    }
  }
}
