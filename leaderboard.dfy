/** The leaderboard's fallback look (src/components/game/Leaderboard.tsx):
    a 32-bit string hash of the team id picks an accent and a marker for
    teams that have none of their own. */
module Leaderboard {
  import opened Common
  import opened Domain

  const TwoTo31: int := 0x8000_0000
  const TwoTo32: int := 0x1_0000_0000

  /** `x | 0`: the signed 32-bit integer congruent to `x`. */
  function Wrap32(x: int): (r: int)
    ensures -TwoTo31 <= r < TwoTo31
    ensures (x - r) % TwoTo32 == 0
  {
    (x + TwoTo31) % TwoTo32 - TwoTo31
  }

  /** Values that differ by a multiple of 2^32 wrap to the same integer. */
  lemma WrapCongruent(x: int, q: int)
    ensures Wrap32(x + q * TwoTo32) == Wrap32(x)
  {
    var a := x + TwoTo31;
    var m, r := a / TwoTo32, a % TwoTo32;
    assert a + q * TwoTo32 == (m + q) * TwoTo32 + r;
    ModUnique(a + q * TwoTo32, TwoTo32, m + q, r);
  }

  /** The hash after every unit: `hash = (hash * 31 + unit) | 0`. */
  function Hash(units: seq<int>): (h: int)
    ensures -TwoTo31 <= h < TwoTo31
  {
    if units == [] then 0 else Wrap32(Hash(units[..|units| - 1]) * 31 + units[|units| - 1])
  }

  /** The same hash without any wrapping: the base-31 value of the units. */
  function Polynomial(units: seq<int>): (v: int)
    ensures (forall i :: 0 <= i < |units| ==> units[i] >= 0) ==> v >= 0
  {
    if units == [] then 0 else Polynomial(units[..|units| - 1]) * 31 + units[|units| - 1]
  }

  /** Wrapping after every step gives what wrapping once at the end does. */
  lemma {:induction false} HashIsWrappedPolynomial(units: seq<int>)
    ensures Hash(units) == Wrap32(Polynomial(units))
  {
    if units != [] {
      var init, last := units[..|units| - 1], units[|units| - 1];
      HashIsWrappedPolynomial(init);
      var p := Polynomial(init);
      var w := Wrap32(p);
      var q := (p - w) / TwoTo32;
      assert p == w + q * TwoTo32;
      assert p * 31 + last == (w * 31 + last) + (q * 31) * TwoTo32;
      WrapCongruent(w * 31 + last, q * 31);
    }
  }

  /** `pickIndex(id, modulo)` as a value. */
  function PickIndexOf(id: string, modulo: int): (r: int)
    requires modulo > 0
    ensures 0 <= r < modulo
  {
    Abs(Hash(CodeUnits(id))) % modulo
  }

  /** `pickIndex`: the hash loop over the id's code units, then
      `Math.abs(hash) % modulo`. The absolute value of -2^31 is 2^31, so
      the result is never negative. */
  method PickIndex(id: string, modulo: int) returns (idx: int)
    requires modulo > 0
    ensures idx == PickIndexOf(id, modulo)
    ensures 0 <= idx < modulo
    ensures id == "" ==> idx == 0
  {
    var units := CodeUnits(id);
    var hash := 0;
    for i := 0 to |units|
      invariant hash == Hash(units[..i])
    {
      assert units[..i + 1][..i] == units[..i];
      hash := Wrap32(hash * 31 + units[i]);
    }
    assert units[..|units|] == units;
    idx := Abs(hash) % modulo;
  }

  /** The fallback accents, in order. */
  const Accents: seq<(string, string)> := [
    ("#b9001f", "#f7c948"),
    ("#0b8a3b", "#d1fae5"),
    ("#b03060", "#ffd6e0"),
    ("#8a3b12", "#f6e05e"),
    ("#0f4c75", "#b0e0ff")
  ]

  /** The fallback markers, in order. */
  const Markers: seq<string> := ["\U{1F384}", "\U{2B50}\U{FE0F}", "\U{1F514}", "\U{2744}\U{FE0F}", "\U{1F381}"]

  /** A present, non-empty string: JavaScript truthiness. */
  predicate Truthy(s: Option<string>) {
    s.Some? && s.value != ""
  }

  /** The accent (base, glow) a team's row is drawn with. */
  function Accent(team: Team): (a: (string, string))
    ensures Truthy(team.accentBase) && Truthy(team.accentGlow) ==> a == (team.accentBase.value, team.accentGlow.value)
    ensures !(Truthy(team.accentBase) && Truthy(team.accentGlow)) ==> a in Accents
  {
    if Truthy(team.accentBase) && Truthy(team.accentGlow) then (team.accentBase.value, team.accentGlow.value)
    else Accents[PickIndexOf(team.id, |Accents|)]
  }

  /** The marker shown before a team's name. */
  function Marker(team: Team): (m: string)
    ensures Truthy(team.badgeEmoji) ==> m == team.badgeEmoji.value
    ensures !Truthy(team.badgeEmoji) ==> m in Markers
  {
    if Truthy(team.badgeEmoji) then team.badgeEmoji.value else Markers[PickIndexOf(team.id, |Markers|)]
  }

  /** The fallback depends on the id alone: a team without its own look
      keeps the same accent and marker whatever else about it changes. */
  lemma FallbackFollowsId(a: Team, b: Team)
    requires a.id == b.id
    requires !(Truthy(a.accentBase) && Truthy(a.accentGlow)) && !(Truthy(b.accentBase) && Truthy(b.accentGlow))
    requires !Truthy(a.badgeEmoji) && !Truthy(b.badgeEmoji)
    ensures Accent(a) == Accent(b) && Marker(a) == Marker(b)
  {
  }
}
