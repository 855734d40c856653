/** The home page's theme helpers (src/app/page.tsx): decoding a hex colour
    into an `rgba(...)` string, and re-theming the stored teams with a
    theme's badge options. */
module Theme {
  import opened Common
  import opened Domain

  // ---- toRgba ----

  /** `s.replace("#", "")`: drops the first `#` only. */
  function DropFirstHash(s: string): (r: string)
    ensures '#' !in s ==> r == s
    ensures |r| == if '#' in s then |s| - 1 else |s|
  {
    if s == [] then []
    else if s[0] == '#' then s[1..]
    else [s[0]] + DropFirstHash(s[1..])
  }

  /** `clean.split("").map((c) => c + c).join("")`. */
  function Doubled(s: string): (r: string)
    ensures |r| == 2 * |s|
    ensures forall i :: 0 <= i < |s| ==> r[2 * i] == s[i] && r[2 * i + 1] == s[i]
  {
    if s == [] then [] else [s[0], s[0]] + Doubled(s[1..])
  }

  predicate IsHexDigit(c: char) {
    '0' <= c <= '9' || 'a' <= c <= 'f' || 'A' <= c <= 'F'
  }

  function HexDigitValue(c: char): (v: int)
    requires IsHexDigit(c)
    ensures 0 <= v < 16
  {
    if '0' <= c <= '9' then c as int - '0' as int
    else if 'a' <= c <= 'f' then c as int - 'a' as int + 10
    else c as int - 'A' as int + 10
  }

  /** The longest run of hex digits at the front of `s`. */
  function HexRun(s: string): (run: string)
    ensures |run| <= |s| && run == s[..|run|]
    ensures forall i :: 0 <= i < |run| ==> IsHexDigit(run[i])
    ensures |run| < |s| ==> !IsHexDigit(s[|run|])
  {
    if s == [] || !IsHexDigit(s[0]) then [] else [s[0]] + HexRun(s[1..])
  }

  /** Value of a run of hex digits. */
  function HexValue(run: string): (v: nat)
    requires forall i :: 0 <= i < |run| ==> IsHexDigit(run[i])
  {
    if run == [] then 0 else 16 * HexValue(run[..|run| - 1]) + HexDigitValue(run[|run| - 1])
  }

  /** `Number.parseInt(s, 16)`: leading white space, a sign, an optional
      `0x`, then the longest run of hex digits; `None` (NaN) when that run
      is empty. */
  function ParseHex(s: string): (r: Option<int>)
    ensures TrimStart(s) == [] ==> r.None?
    ensures r.Some? && r.value < 0 ==> TrimStart(s)[0] == '-'
  {
    var t := TrimStart(s);
    var negative := t != [] && t[0] == '-';
    var unsigned := if t != [] && (t[0] == '-' || t[0] == '+') then t[1..] else t;
    var body := if |unsigned| >= 2 && unsigned[0] == '0' && (unsigned[1] == 'x' || unsigned[1] == 'X') then unsigned[2..] else unsigned;
    var run := HexRun(body);
    if run == [] then None
    else Some(if negative then 0 - HexValue(run) as int else HexValue(run))
  }

  /** Bits 16-23, 8-15 and 0-7 of the number cut to 32 bits, as the
      shifts and masks on a 32-bit integer give them. */
  function Channels(num: int): (c: (int, int, int))
    ensures 0 <= c.0 < 256 && 0 <= c.1 < 256 && 0 <= c.2 < 256
  {
    (num / 0x1_0000 % 256, num / 0x100 % 256, num % 256)
  }

  /** `toRgba(hex, alpha)`; `alpha` is the number as JavaScript prints it. */
  function ToRgba(hex: string, alpha: string): (r: string)
    ensures ParseHex(Expanded(hex)).None? ==> r == "rgba(59,130,246," + alpha + ")"
    ensures ParseHex(Expanded(hex)).Some? ==>
              var c := Channels(ParseHex(Expanded(hex)).value);
              r == "rgba(" + NatToString(c.0) + ", " + NatToString(c.1) + ", " + NatToString(c.2) + ", " + alpha + ")"
  {
    var num := ParseHex(Expanded(hex));
    if num.None? then "rgba(59,130,246," + alpha + ")"
    else
      var c := Channels(num.value);
      "rgba(" + NatToString(c.0) + ", " + NatToString(c.1) + ", " + NatToString(c.2) + ", " + alpha + ")"
  }

  /** The digits `toRgba` parses: `#` dropped, and a three-character
      colour (counted in UTF-16 code units) written out in full. */
  function Expanded(hex: string): (full: string)
    ensures |CodeUnits(DropFirstHash(hex))| == 3 ==> full == Doubled(DropFirstHash(hex))
    ensures |CodeUnits(DropFirstHash(hex))| != 3 ==> full == DropFirstHash(hex)
  {
    var clean := DropFirstHash(hex);
    if |CodeUnits(clean)| == 3 then Doubled(clean) else clean
  }

  predicate AllHex(s: string) {
    forall i :: 0 <= i < |s| ==> IsHexDigit(s[i])
  }

  /** The lower-case digit of a value below 16. */
  function HexChar(d: int): (c: char)
    requires 0 <= d < 16
    ensures IsHexDigit(c) && HexDigitValue(c) == d
  {
    if d < 10 then ('0' as int + d) as char else ('a' as int + d - 10) as char
  }

  /** The two lower-case hex digits of a byte. */
  function HexByte(v: int): (s: string)
    requires 0 <= v < 256
    ensures |s| == 2 && AllHex(s)
  {
    [HexChar(v / 16), HexChar(v % 16)]
  }

  /** `#rrggbb`. */
  function HexColour(r: int, g: int, b: int): string
    requires 0 <= r < 256 && 0 <= g < 256 && 0 <= b < 256
  {
    "#" + HexByte(r) + HexByte(g) + HexByte(b)
  }

  function Pow16(n: nat): nat {
    if n == 0 then 1 else 16 * Pow16(n - 1)
  }

  lemma HexByteValue(v: int)
    requires 0 <= v < 256
    ensures HexValue(HexByte(v)) == v
  {
    var s := HexByte(v);
    assert s[..1] == [s[0]];
    assert [s[0]][..0] == [];
    assert HexValue([s[0]]) == v / 16;
    assert HexValue(s) == 16 * (v / 16) + v % 16;
  }

  lemma AllHexAppend(a: string, b: string)
    requires AllHex(a) && AllHex(b)
    ensures AllHex(a + b)
  {
    assert forall i :: |a| <= i < |a + b| ==> (a + b)[i] == b[i - |a|];
  }

  lemma {:induction false} HexValueAppend(a: string, b: string)
    requires AllHex(a) && AllHex(b) && AllHex(a + b)
    ensures HexValue(a + b) == HexValue(a) * Pow16(|b|) + HexValue(b)
    decreases |b|
  {
    if b == [] {
      assert a + b == a;
    } else {
      var b' := b[..|b| - 1];
      var d := HexDigitValue(b[|b| - 1]);
      assert (a + b)[..|a + b| - 1] == a + b';
      assert AllHex(b') && AllHex(a + b');
      HexValueAppend(a, b');
      var x, p, y := HexValue(a), Pow16(|b'|), HexValue(b');
      assert HexValue(a + b) == 16 * (x * p + y) + d;
      assert HexValue(b) == 16 * y + d;
      assert Pow16(|b|) == 16 * p;
      MulShift(x, p);
    }
  }

  lemma MulShift(x: int, p: int)
    ensures 16 * (x * p) == x * (16 * p)
  {
  }

  /** The six digits of a colour are its 24-bit value. */
  lemma HexColourValue(r: int, g: int, b: int)
    requires 0 <= r < 256 && 0 <= g < 256 && 0 <= b < 256
    ensures AllHex(HexByte(r) + HexByte(g) + HexByte(b))
    ensures HexValue(HexByte(r) + HexByte(g) + HexByte(b)) == r * 0x1_0000 + g * 0x100 + b
  {
    var x, y, z := HexByte(r), HexByte(g), HexByte(b);
    HexByteValue(r);
    HexByteValue(g);
    HexByteValue(b);
    AllHexAppend(x, y);
    AllHexAppend(x + y, z);
    HexValueAppend(x, y);
    HexValueAppend(x + y, z);
    assert Pow16(2) == 0x100;
  }

  lemma {:induction false} HexRunOfDigits(s: string)
    requires AllHex(s)
    ensures HexRun(s) == s
  {
    if s != [] {
      assert AllHex(s[1..]);
      HexRunOfDigits(s[1..]);
      assert [s[0]] + s[1..] == s;
    }
  }

  lemma HexDigitNotSpace(c: char)
    requires IsHexDigit(c)
    ensures !IsSpace(c) && c != '-' && c != '+' && c != 'x' && c != 'X'
  {
  }

  /** A run of hex digits parses to its value. */
  lemma ParseHexOfDigits(s: string)
    requires s != [] && AllHex(s)
    ensures ParseHex(s) == Some(HexValue(s) as int)
  {
    HexDigitNotSpace(s[0]);
    if |s| >= 2 {
      HexDigitNotSpace(s[1]);
    }
    HexRunOfDigits(s);
  }

  /** A `#` and six digits parse as the six digits. */
  lemma ExpandedSixDigits(digits: string)
    requires |digits| == 6 && AllHex(digits)
    ensures Expanded("#" + digits) == digits
  {
    assert DropFirstHash("#" + digits) == digits;
    assert forall i :: 0 <= i < |digits| ==> digits[i] as int < 0x1_0000;
    BasicPlaneUnits(digits);
  }

  /** `#` and six hex digits parse to the digits' value. */
  lemma ParseSixDigits(h: string, digits: string)
    requires |digits| == 6 && AllHex(digits) && h == "#" + digits
    ensures ParseHex(Expanded(h)) == Some(HexValue(digits) as int)
  {
    ExpandedSixDigits(digits);
    ParseHexOfDigits(digits);
  }

  lemma RgbaOfParsed(h: string, n: int, alpha: string)
    requires ParseHex(Expanded(h)) == Some(n)
    ensures var c := Channels(n);
            ToRgba(h, alpha) == "rgba(" + NatToString(c.0) + ", " + NatToString(c.1) + ", " + NatToString(c.2) + ", " + alpha + ")"
  {
  }

  /** A colour written as `#rrggbb` decodes to its own channels. */
  lemma ToRgbaDecodesHexColour(r: int, g: int, b: int, alpha: string)
    requires 0 <= r < 256 && 0 <= g < 256 && 0 <= b < 256
    ensures ToRgba(HexColour(r, g, b), alpha)
            == "rgba(" + NatToString(r) + ", " + NatToString(g) + ", " + NatToString(b) + ", " + alpha + ")"
  {
    var h := HexColour(r, g, b);
    var digits := HexByte(r) + HexByte(g) + HexByte(b);
    var n := HexValue(digits) as int;
    assert ParseHex(Expanded(h)) == Some(n) by {
      HexColourValue(r, g, b);
      ParseSixDigits(h, digits);
    }
    HexColourValue(r, g, b);
    ChannelsOf(n, r, g, b);
    RgbaOfParsed(h, n, alpha);
  }

  lemma ChannelsOf(n: int, r: int, g: int, b: int)
    requires 0 <= r < 256 && 0 <= g < 256 && 0 <= b < 256 && n == r * 0x1_0000 + g * 0x100 + b
    ensures Channels(n) == (r, g, b)
  {
    assert n / 0x1_0000 == r;
    assert n / 0x100 == r * 0x100 + g;
    assert (r * 0x100 + g) % 256 == g;
    assert n % 256 == b;
  }

  /** `#abc` is read as `#aabbcc`. */
  lemma ShortFormExpands(x: char, y: char, z: char, alpha: string)
    requires IsHexDigit(x) && IsHexDigit(y) && IsHexDigit(z)
    ensures ToRgba("#" + [x, y, z], alpha) == ToRgba("#" + [x, x, y, y, z, z], alpha)
  {
    var short, long := [x, y, z], [x, x, y, y, z, z];
    assert DropFirstHash("#" + short) == short;
    BasicPlaneUnits(short);
    assert Doubled(short) == long by {
      var d := Doubled(short);
      assert d[0] == x && d[1] == x && d[2] == y && d[3] == y && d[4] == z && d[5] == z by {
        assert d[2 * 0] == short[0] && d[2 * 0 + 1] == short[0];
        assert d[2 * 1] == short[1] && d[2 * 1 + 1] == short[1];
        assert d[2 * 2] == short[2] && d[2 * 2 + 1] == short[2];
      }
    }
    ExpandedSixDigits(long);
  }

  // ---- applyThemeToTeams ----

  /** `options.find((opt) => opt.emoji === badge)` as an index, -1 when none. */
  function FindEmoji(options: seq<EmojiOption>, badge: string): (i: int)
    ensures -1 <= i < |options|
    ensures i >= 0 ==> options[i].emoji == badge && forall j :: 0 <= j < i ==> options[j].emoji != badge
    ensures i < 0 ==> forall j :: 0 <= j < |options| ==> options[j].emoji != badge
  {
    if options == [] then -1
    else if options[0].emoji == badge then 0
    else
      var k := FindEmoji(options[1..], badge);
      if k < 0 then -1 else k + 1
  }

  /** The option team number `idx` is given: the one matching its badge,
      else the one at `idx` modulo the option count. */
  function Pick(options: seq<EmojiOption>, team: Team, idx: nat): (k: int)
    requires options != []
    ensures 0 <= k < |options|
  {
    var m := if team.badgeEmoji.Some? && team.badgeEmoji.value != "" then FindEmoji(options, team.badgeEmoji.value) else -1;
    if m >= 0 then m else idx % |options|
  }

  /** `applyThemeToTeams`: each team takes its picked option's badge and
      accents; no other field changes. With no options the teams stay. */
  function ApplyThemeToTeams(options: seq<EmojiOption>, teams: seq<Team>): (r: seq<Team>)
    ensures |r| == |teams|
    ensures options == [] ==> r == teams
    ensures options != [] ==> forall i :: 0 <= i < |r| ==>
              var o := options[Pick(options, teams[i], i)];
              r[i] == teams[i].(badgeEmoji := Some(o.emoji), accentBase := Some(o.base), accentGlow := Some(o.glow))
  {
    if teams == [] || options == [] then teams
    else
      seq(|teams|, i requires 0 <= i < |teams| =>
        var o := options[Pick(options, teams[i], i)];
        teams[i].(badgeEmoji := Some(o.emoji), accentBase := Some(o.base), accentGlow := Some(o.glow)))
  }

  /** A team whose badge is one of the options keeps that option. */
  lemma MatchingBadgeKept(options: seq<EmojiOption>, teams: seq<Team>, i: int, k: int)
    requires 0 <= i < |teams| && 0 <= k < |options|
    requires teams[i].badgeEmoji == Some(options[k].emoji) && options[k].emoji != ""
    requires forall j :: 0 <= j < |options| && j != k ==> options[j].emoji != options[k].emoji
    ensures ApplyThemeToTeams(options, teams)[i].badgeEmoji == teams[i].badgeEmoji
    ensures ApplyThemeToTeams(options, teams)[i].accentBase == Some(options[k].base)
  {
  }

  /** With distinct, non-empty badges, re-applying the same theme changes nothing. */
  lemma ApplyThemeIdempotent(options: seq<EmojiOption>, teams: seq<Team>)
    requires forall j :: 0 <= j < |options| ==> options[j].emoji != ""
    requires forall j, k :: 0 <= j < k < |options| ==> options[j].emoji != options[k].emoji
    ensures ApplyThemeToTeams(options, ApplyThemeToTeams(options, teams)) == ApplyThemeToTeams(options, teams)
  {
    var once := ApplyThemeToTeams(options, teams);
    if options != [] {
      forall i | 0 <= i < |once|
        ensures Pick(options, once[i], i) == Pick(options, teams[i], i)
      {
      }
    }
  }
}
