/** The timeline board (src/components/game/modals/TimelineModal.tsx) and
    the placement arithmetic the game page runs on it: the year-sorted
    `combined` list around the center pivot, its runs of equal years with
    their start indexes, the drop zones that become placement slots, and
    the judgement of a slot against the event being placed. */
module Timeline {
  import opened Common
  import opened Domain

  /** The sort key the source uses: `year ?? 0`. */
  function YearKey(e: TimelineEvent): int { e.year.GetOr(0) }

  /** The sort key of a placed event: its year. */
  function PlacedKey(p: Placed): int { YearKey(p.event) }

  ghost predicate SortedBy<T>(s: seq<T>, key: T -> int) {
    forall i, j :: 0 <= i < j < |s| ==> key(s[i]) <= key(s[j])
  }

  /** Inserts `x` after every element whose key is not larger: one step of a stable sort. */
  function InsertBy<T>(s: seq<T>, x: T, key: T -> int): (r: seq<T>)
    ensures multiset(r) == multiset(s) + multiset{x}
    ensures |r| == |s| + 1
  {
    if s == [] then [x]
    else if key(s[|s| - 1]) <= key(x) then s + [x]
    else
      var r := InsertBy(s[..|s| - 1], x, key) + [s[|s| - 1]];
      assert s == s[..|s| - 1] + [s[|s| - 1]];
      r
  }

  /** Inserting into a sorted list keeps it sorted. */
  lemma {:induction false} InsertBySorted<T>(s: seq<T>, x: T, key: T -> int)
    requires SortedBy(s, key)
    ensures SortedBy(InsertBy(s, x, key), key)
  {
    if s != [] && key(s[|s| - 1]) > key(x) {
      var init, last := s[..|s| - 1], s[|s| - 1];
      assert SortedBy(init, key);
      InsertBySorted(init, x, key);
      InsertKeepsBound(init, x, key, key(last));
      AppendSorted(InsertBy(init, x, key), last, key);
    } else if s != [] {
      AppendSorted(s, x, key);
    }
  }

  /** A bound on every key survives inserting an element within it. */
  lemma InsertKeepsBound<T>(s: seq<T>, x: T, key: T -> int, b: int)
    requires forall i :: 0 <= i < |s| ==> key(s[i]) <= b
    requires key(x) <= b
    ensures forall e :: e in InsertBy(s, x, key) ==> key(e) <= b
  {
    var r := InsertBy(s, x, key);
    forall e | e in r ensures key(e) <= b {
      assert e in multiset(r);
      if e != x {
        assert e in multiset(s);
        var i :| 0 <= i < |s| && s[i] == e;
      }
    }
  }

  /** A sorted list followed by an element no smaller than any of it is sorted. */
  lemma AppendSorted<T>(s: seq<T>, x: T, key: T -> int)
    requires SortedBy(s, key)
    requires forall e :: e in s ==> key(e) <= key(x)
    ensures SortedBy(s + [x], key)
  {
    var r := s + [x];
    forall i, j | 0 <= i < j < |r| ensures key(r[i]) <= key(r[j]) {
      assert r[i] == s[i] && s[i] in s;
      if j < |s| {
        assert r[j] == s[j];
      }
    }
  }

  /** `Array.prototype.sort` with a key comparator. JavaScript's sort is
      stable, so its result is the stable insertion sort's. */
  function SortBy<T>(s: seq<T>, key: T -> int): (r: seq<T>)
    ensures SortedBy(r, key)
    ensures multiset(r) == multiset(s) && |r| == |s|
  {
    if s == [] then []
    else
      assert s == s[..|s| - 1] + [s[|s| - 1]];
      InsertBySorted(SortBy(s[..|s| - 1], key), s[|s| - 1], key);
      InsertBy(SortBy(s[..|s| - 1], key), s[|s| - 1], key)
  }

  /** Sorting an already sorted list changes nothing. */
  lemma {:induction false} SortBySortedIsIdentity<T>(s: seq<T>, key: T -> int)
    requires SortedBy(s, key)
    ensures SortBy(s, key) == s
  {
    if s != [] {
      var init := s[..|s| - 1];
      assert SortedBy(init, key);
      SortBySortedIsIdentity(init, key);
      assert s == init + [s[|s| - 1]];
    }
  }

  /** Appending one event to a sorted list and sorting again, as the game
      page does with each placed event, inserts it in year order. */
  lemma SortAfterAppend<T>(s: seq<T>, x: T, key: T -> int)
    requires SortedBy(s, key)
    ensures SortBy(s + [x], key) == InsertBy(s, x, key)
  {
    SortBySortedIsIdentity(s, key);
    assert (s + [x])[..|s|] == s;
  }

  /** Where `InsertBy` puts `x`: after the last element whose key is not larger. */
  function InsertIndex<T>(s: seq<T>, x: T, key: T -> int): (i: nat)
    ensures i <= |s|
  {
    if s == [] || key(s[|s| - 1]) <= key(x) then |s|
    else InsertIndex(s[..|s| - 1], x, key)
  }

  /** Every element of `q` has a key larger than `v`. */
  ghost predicate KeysAbove<T>(q: seq<T>, key: T -> int, v: int) {
    forall e :: e in q ==> key(e) > v
  }

  /** Inserting puts `x` at `InsertIndex`, with the rest of the list in its
      order around it: every element after it has a larger key, and the
      one before it does not. */
  lemma {:induction false} InsertBySplit<T>(s: seq<T>, x: T, key: T -> int)
    ensures var i := InsertIndex(s, x, key);
            InsertBy(s, x, key) == s[..i] + [x] + s[i..]
            && KeysAbove(s[i..], key, key(x))
            && (0 < i ==> key(s[i - 1]) <= key(x))
  {
    if s == [] {
      assert InsertBy(s, x, key) == [x];
    } else if key(s[|s| - 1]) <= key(x) {
      assert InsertIndex(s, x, key) == |s|;
      assert InsertBy(s, x, key) == s + [x];
      assert s[..|s|] == s && s[|s|..] == [];
    } else {
      var init, last := s[..|s| - 1], s[|s| - 1];
      InsertBySplit(init, x, key);
      var i := InsertIndex(init, x, key);
      assert InsertIndex(s, x, key) == i;
      assert InsertBy(s, x, key) == InsertBy(init, x, key) + [last];
      assert s == init + [last];
      SplitBeforeLast(init, last, x, i);
      forall e | e in s[i..] ensures key(e) > key(x) {
        if e != last { assert e in init[i..]; }
      }
      if 0 < i { assert s[i - 1] == init[i - 1]; }
    }
  }

  lemma SplitBeforeLast<T>(init: seq<T>, last: T, x: T, i: nat)
    requires i <= |init|
    ensures (init + [last])[..i] == init[..i] && (init + [last])[i..] == init[i..] + [last]
    ensures init[..i] + [x] + init[i..] + [last] == (init + [last])[..i] + [x] + (init + [last])[i..]
  {
    var s := init + [last];
    assert s[..i] == init[..i];
    assert s[i..] == init[i..] + [last];
    AppendAssoc(init[..i] + [x], init[i..], [last]);
  }

  /** The elements of `s` whose key is `k`, in order. */
  function WithKey<T>(s: seq<T>, key: T -> int, k: int): (r: seq<T>)
    ensures |r| <= |s|
  {
    if s == [] then []
    else WithKey(s[..|s| - 1], key, k) + (if key(s[|s| - 1]) == k then [s[|s| - 1]] else [])
  }

  lemma {:induction false} WithKeyAppend<T>(a: seq<T>, b: seq<T>, key: T -> int, k: int)
    ensures WithKey(a + b, key, k) == WithKey(a, key, k) + WithKey(b, key, k)
    decreases |b|
  {
    if b == [] {
      assert a + b == a;
    } else {
      var init := b[..|b| - 1];
      assert (a + b)[..|a + b| - 1] == a + init;
      WithKeyAppend(a, init, key, k);
    }
  }

  lemma {:induction false} WithKeyNone<T>(s: seq<T>, key: T -> int, k: int)
    requires forall j :: 0 <= j < |s| ==> key(s[j]) != k
    ensures WithKey(s, key, k) == []
  {
    if s != [] {
      WithKeyNone(s[..|s| - 1], key, k);
    }
  }

  /** Inserting `x` adds it after the elements of its own key and leaves
      the order of every key's elements as it was. */
  lemma InsertByStable<T>(s: seq<T>, x: T, key: T -> int, k: int)
    ensures WithKey(InsertBy(s, x, key), key, k) == WithKey(s, key, k) + WithKey([x], key, k)
  {
    InsertBySplit(s, x, key);
    var i := InsertIndex(s, x, key);
    var p, q := s[..i], s[i..];
    assert s == p + q;
    StableSplit(p, x, q, key, k);
  }

  lemma StableSplit<T>(p: seq<T>, x: T, q: seq<T>, key: T -> int, k: int)
    requires KeysAbove(q, key, key(x))
    ensures WithKey(p + [x] + q, key, k) == WithKey(p + q, key, k) + WithKey([x], key, k)
  {
    var wp, wq, wx := WithKey(p, key, k), WithKey(q, key, k), WithKey([x], key, k);
    WithKeyAppend(p, q, key, k);
    WithKeyAppend(p + [x], q, key, k);
    WithKeyAppend(p, [x], key, k);
    WithKeyOne(x, key, k);
    if key(x) == k {
      forall j | 0 <= j < |q| ensures key(q[j]) != k {
        assert q[j] in q;
      }
      WithKeyNone(q, key, k);
      EmptyMiddle(wp, wx, wq);
    } else {
      EmptyMiddle(wp, wq, wx);
    }
  }

  lemma WithKeyOne<T>(x: T, key: T -> int, k: int)
    ensures WithKey([x], key, k) == if key(x) == k then [x] else []
  {
    assert [x][..0] == [];
  }

  lemma EmptyMiddle<T>(a: seq<T>, b: seq<T>, c: seq<T>)
    requires c == []
    ensures a + b + c == a + c + b
  {
    assert a + b + c == a + b;
    assert a + c == a;
  }

  /** The sort is stable: for every key, the elements with that key keep
      their order, as `Array.prototype.sort` promises. */
  lemma {:induction false} SortByStable<T>(s: seq<T>, key: T -> int, k: int)
    ensures WithKey(SortBy(s, key), key, k) == WithKey(s, key, k)
  {
    if s != [] {
      var init, last := s[..|s| - 1], s[|s| - 1];
      var sorted := SortBy(init, key);
      assert SortBy(s, key) == InsertBy(sorted, last, key);
      SortByStable(init, key, k);
      InsertByStable(sorted, last, key, k);
      WithKeyOne(last, key, k);
      assert WithKey(s, key, k) == WithKey(init, key, k) + WithKey([last], key, k);
    }
  }

  /** `formatYear`. */
  function FormatYear(year: Option<int>): (r: string)
    ensures year.None? ==> r == "Unknown"
    ensures year.Some? && year.value < 0 ==> r == NatToString(-year.value) + " BC"
    ensures year.Some? && year.value >= 0 ==> r == NatToString(year.value)
  {
    match year
    case None => "Unknown"
    case Some(y) => if y < 0 then NatToString(-y) + " BC" else NatToString(y)
  }

  datatype Side = LeftSide | CenterSide | RightSide

  /** An element of `combined`: the event, the list it came from and its placement status. */
  datatype Entry = Entry(event: TimelineEvent, side: Side, status: Option<PlacementStatus>)

  function EntryKey(e: Entry): int { YearKey(e.event) }

  /** The pivot the board is built around. */
  function CenterEvent(centerYear: int): (e: TimelineEvent)
    ensures e.year == Some(centerYear) && YearKey(e) == centerYear
  {
    TimelineEvent("__center", "Center", Some(centerYear), None, None)
  }

  function Tagged(placed: seq<Placed>, side: Side): (r: seq<Entry>)
    ensures |r| == |placed|
    ensures forall i :: 0 <= i < |r| ==> r[i] == Entry(placed[i].event, side, placed[i].status)
  {
    if placed == [] then []
    else [Entry(placed[0].event, side, placed[0].status)] + Tagged(placed[1..], side)
  }

  /** `combined`: the left list, the pivot and the right list, sorted by year. */
  function Combined(left: seq<Placed>, centerYear: int, right: seq<Placed>): (r: seq<Entry>)
    ensures SortedBy(r, EntryKey)
    ensures multiset(r) == multiset(Tagged(left, LeftSide) + [Entry(CenterEvent(centerYear), CenterSide, None)] + Tagged(right, RightSide))
    ensures |r| == |left| + 1 + |right|
  {
    SortBy(Tagged(left, LeftSide) + [Entry(CenterEvent(centerYear), CenterSide, None)] + Tagged(right, RightSide), EntryKey)
  }

  /** A run of events that share one year. */
  datatype Group = Group(year: Option<int>, side: Side, events: seq<Entry>, startIndex: int)

  /** What the grouping promises, group by group from the end: the last
      group is the non-empty tail of `combined` starting at its
      `startIndex`, all of one year, its `side` is its first event's, its
      year differs from the group before it, and the groups before it are
      the groups of the rest. */
  ghost predicate GroupsOf(groups: seq<Group>, combined: seq<Entry>)
    decreases |groups|
  {
    if groups == [] then combined == []
    else
      var last := groups[|groups| - 1];
      var n := last.startIndex;
      0 <= n <= |combined| && combined[n..] == last.events && |last.events| > 0
      && last.side == last.events[0].side
      && (forall e :: e in last.events ==> e.event.year == last.year)
      && (|groups| > 1 ==> groups[|groups| - 2].year != last.year)
      && GroupsOf(groups[..|groups| - 1], combined[..n])
  }

  /** The `groups` reduce: walks `combined` once, extending the last group
      while the year repeats and opening a new group otherwise. */
  method GroupRuns(combined: seq<Entry>) returns (groups: seq<Group>)
    ensures GroupsOf(groups, combined)
  {
    groups := [];
    var idx := 0;
    while idx < |combined|
      invariant 0 <= idx <= |combined|
      invariant GroupsOf(groups, combined[..idx])
      invariant idx == 0 <==> groups == []
      invariant idx > 0 ==> groups[|groups| - 1].year == combined[idx - 1].event.year
    {
      var ev := combined[idx];
      assert combined[..idx + 1] == combined[..idx] + [ev];
      if |groups| > 0 && groups[|groups| - 1].year == ev.event.year {
        var last := groups[|groups| - 1];
        GroupsExtend(groups, combined[..idx], ev);
        groups := groups[..|groups| - 1] + [last.(events := last.events + [ev])];
      } else {
        GroupsStart(groups, combined[..idx], ev);
        groups := groups + [Group(ev.event.year, ev.side, [ev], idx)];
      }
      idx := idx + 1;
    }
    assert combined[..idx] == combined;
  }

  /** An entry of the last group's year joins that group. */
  lemma {:induction false} GroupsExtend(groups: seq<Group>, combined: seq<Entry>, ev: Entry)
    requires GroupsOf(groups, combined) && groups != [] && groups[|groups| - 1].year == ev.event.year
    ensures var last := groups[|groups| - 1];
            GroupsOf(groups[..|groups| - 1] + [last.(events := last.events + [ev])], combined + [ev])
  {
    var last := groups[|groups| - 1];
    var grown := last.(events := last.events + [ev]);
    var next := groups[..|groups| - 1] + [grown];
    assert next[..|next| - 1] == groups[..|groups| - 1];
    assert (combined + [ev])[..last.startIndex] == combined[..last.startIndex];
    assert (combined + [ev])[last.startIndex..] == combined[last.startIndex..] + [ev];
  }

  /** An entry of another year opens a group of its own. */
  lemma {:induction false} GroupsStart(groups: seq<Group>, combined: seq<Entry>, ev: Entry)
    requires GroupsOf(groups, combined)
    requires groups != [] ==> groups[|groups| - 1].year != ev.event.year
    ensures GroupsOf(groups + [Group(ev.event.year, ev.side, [ev], |combined|)], combined + [ev])
  {
    var next := groups + [Group(ev.event.year, ev.side, [ev], |combined|)];
    assert next[..|groups|] == groups;
    assert (combined + [ev])[..|combined|] == combined;
    assert (combined + [ev])[|combined|..] == [ev];
  }

  /** Each group is the slice of `combined` its start index and length name. */
  lemma {:induction false} GroupSlice(groups: seq<Group>, combined: seq<Entry>, i: int)
    requires GroupsOf(groups, combined) && 0 <= i < |groups|
    ensures 0 <= groups[i].startIndex
    ensures groups[i].startIndex + |groups[i].events| <= |combined|
    ensures combined[groups[i].startIndex..groups[i].startIndex + |groups[i].events|] == groups[i].events
    ensures forall e :: e in groups[i].events ==> e.event.year == groups[i].year
  {
    var last := groups[|groups| - 1];
    if i < |groups| - 1 {
      var init := groups[..|groups| - 1];
      GroupSlice(init, combined[..last.startIndex], i);
      assert init[i] == groups[i];
    }
  }

  /** Every position of `combined` lies in some group. */
  lemma {:induction false} PositionInGroup(groups: seq<Group>, combined: seq<Entry>, p: int)
    requires GroupsOf(groups, combined) && 0 <= p < |combined|
    ensures exists i :: 0 <= i < |groups| && groups[i].startIndex <= p < groups[i].startIndex + |groups[i].events|
  {
    var last := groups[|groups| - 1];
    if p < last.startIndex {
      var init := groups[..|groups| - 1];
      PositionInGroup(init, combined[..last.startIndex], p);
      var i :| 0 <= i < |init| && init[i].startIndex <= p < init[i].startIndex + |init[i].events|;
      assert init[i] == groups[i];
    } else {
      assert |groups| - 1 < |groups| && last.startIndex <= p < last.startIndex + |last.events|;
    }
  }

  /** The gap after a group is where the next group starts, and the gap after
      the last group is the end of the board. */
  lemma {:induction false} GapsAreGroupBoundaries(groups: seq<Group>, combined: seq<Entry>, i: int)
    requires GroupsOf(groups, combined)
    requires 0 <= i < |groups|
    ensures i + 1 < |groups| ==> groups[i].startIndex + |groups[i].events| == groups[i + 1].startIndex
    ensures i + 1 == |groups| ==> groups[i].startIndex + |groups[i].events| == |combined|
  {
    var last := groups[|groups| - 1];
    var init := groups[..|groups| - 1];
    if i + 1 < |groups| - 1 {
      GapsAreGroupBoundaries(init, combined[..last.startIndex], i);
      assert init[i] == groups[i] && init[i + 1] == groups[i + 1];
    } else if i + 1 == |groups| - 1 {
      GapsAreGroupBoundaries(init, combined[..last.startIndex], i);
      assert init[i] == groups[i];
    }
  }

  /** Where a dragged event can be dropped. */
  datatype DropZone = LeadingGap | OnGroup(group: nat) | AfterGroup(group: nat)

  /** The slot a drop hands to the placement handler. */
  datatype Slot = Slot(index: int, onYear: Option<int>)

  /** A drop on a group names its year; a drop on a gap names only the index
      after the group (0 for the leading gap); with actions disabled,
      nothing is placed. */
  function DropSlot(groups: seq<Group>, zone: DropZone, disabled: bool): (r: Option<Slot>)
    ensures disabled ==> r.None?
    ensures !disabled && zone.OnGroup? && zone.group < |groups| ==>
      r == Some(Slot(groups[zone.group].startIndex, groups[zone.group].year))
    ensures !disabled && zone.AfterGroup? && zone.group < |groups| ==>
      r == Some(Slot(groups[zone.group].startIndex + |groups[zone.group].events|, None))
    ensures !disabled && zone.LeadingGap? && groups != [] ==> r == Some(Slot(0, None))
  {
    if disabled then None
    else match zone
      case LeadingGap => if groups != [] then Some(Slot(0, None)) else None
      case OnGroup(i) => if i < |groups| then Some(Slot(groups[i].startIndex, groups[i].year)) else None
      case AfterGroup(i) =>
        if i < |groups| then Some(Slot(groups[i].startIndex + |groups[i].events|, None)) else None
  }

  /** The actual insertion index: the first entry whose year is not before
      the candidate's, or the end of the list. */
  function InsertionIndex(combined: seq<Entry>, candidate: int): (k: int)
    ensures 0 <= k <= |combined|
    ensures forall i :: 0 <= i < k ==> EntryKey(combined[i]) < candidate
    ensures k < |combined| ==> EntryKey(combined[k]) >= candidate
  {
    if combined == [] then 0
    else if EntryKey(combined[0]) >= candidate then 0
    else 1 + InsertionIndex(combined[1..], candidate)
  }

  /** The judgement of a placement: a drop on a year is right iff it is the
      candidate's year; a drop on a gap is right iff it is the insertion
      index and the entry there does not carry the candidate's year. */
  function PlacementCorrect(combined: seq<Entry>, candidate: int, slot: Slot): (b: bool)
    ensures slot.onYear.Some? ==> (b <==> slot.onYear.value == candidate)
    ensures b && slot.onYear.None? ==> 0 <= slot.index <= |combined|
  {
    match slot.onYear
    case Some(y) => candidate == y
    case None =>
      var k := InsertionIndex(combined, candidate);
      slot.index == k && (k == |combined| || combined[k].event.year != Some(candidate))
  }

  ghost predicate AllDated(combined: seq<Entry>) {
    forall i :: 0 <= i < |combined| ==> combined[i].event.year.Some?
  }

  /** On a sorted board of dated events, a gap drop is right exactly when it
      is the insertion index and no placed event has the candidate's year:
      an occupied year can only be matched by dropping onto it. */
  lemma GapPlacementCorrectIff(combined: seq<Entry>, candidate: int, index: int)
    requires SortedBy(combined, EntryKey) && AllDated(combined)
    ensures PlacementCorrect(combined, candidate, Slot(index, None)) <==>
      (index == InsertionIndex(combined, candidate)
       && forall i :: 0 <= i < |combined| ==> combined[i].event.year != Some(candidate))
  {
    var k := InsertionIndex(combined, candidate);
    if k < |combined| && combined[k].event.year != Some(candidate) {
      assert EntryKey(combined[k]) > candidate;
      forall i | 0 <= i < |combined| ensures combined[i].event.year != Some(candidate) {
        if i >= k {
          assert EntryKey(combined[k]) <= EntryKey(combined[i]);
        }
      }
    }
  }

  /** A year on the board is the year of some group. */
  lemma OccupiedYearHasGroup(groups: seq<Group>, combined: seq<Entry>, p: int)
    requires GroupsOf(groups, combined) && 0 <= p < |combined|
    ensures exists i :: 0 <= i < |groups| && groups[i].year == combined[p].event.year
  {
    PositionInGroup(groups, combined, p);
    var i :| 0 <= i < |groups| && groups[i].startIndex <= p < groups[i].startIndex + |groups[i].events|;
    YearAtPosition(groups, combined, i, p);
  }

  /** Every position a group covers carries the group's year. */
  lemma YearAtPosition(groups: seq<Group>, combined: seq<Entry>, i: int, j: int)
    requires GroupsOf(groups, combined) && 0 <= i < |groups|
    ensures groups[i].startIndex <= j < groups[i].startIndex + |groups[i].events| ==>
              0 <= j < |combined| && combined[j].event.year == groups[i].year
  {
    GroupSlice(groups, combined, i);
    var start := groups[i].startIndex;
    if start <= j < start + |groups[i].events| {
      assert combined[j] == groups[i].events[j - start];
    }
  }

  /** On a sorted board a positive insertion index ends some group, because
      the entries on either side of it carry different years. */
  lemma InsertionIndexEndsAGroup(groups: seq<Group>, combined: seq<Entry>, candidate: int)
    requires GroupsOf(groups, combined) && AllDated(combined)
    requires 0 < InsertionIndex(combined, candidate)
    ensures exists i :: 0 <= i < |groups| && groups[i].startIndex + |groups[i].events| == InsertionIndex(combined, candidate)
  {
    var k := InsertionIndex(combined, candidate);
    PositionInGroup(groups, combined, k - 1);
    var i :| 0 <= i < |groups| && groups[i].startIndex <= k - 1 < groups[i].startIndex + |groups[i].events|;
    YearAtPosition(groups, combined, i, k - 1);
    YearAtPosition(groups, combined, i, k);
    assert EntryKey(combined[k - 1]) < candidate;
  }

  /** Every event that is drawn has some drop zone the placement handler
      judges correct: its own year's group when that year is on the board,
      otherwise the gap at its insertion index. */
  lemma EveryCandidateHasACorrectDrop(groups: seq<Group>, combined: seq<Entry>, candidate: int)
    requires GroupsOf(groups, combined)
    requires AllDated(combined) && combined != []
    ensures exists zone :: DropSlot(groups, zone, false).Some?
                           && PlacementCorrect(combined, candidate, DropSlot(groups, zone, false).value)
  {
    var k := InsertionIndex(combined, candidate);
    assert groups != [];
    if p :| 0 <= p < |combined| && combined[p].event.year == Some(candidate) {
      OccupiedYearHasGroup(groups, combined, p);
      var i :| 0 <= i < |groups| && groups[i].year == Some(candidate);
      assert PlacementCorrect(combined, candidate, DropSlot(groups, OnGroup(i), false).value);
    } else if k == 0 {
      assert PlacementCorrect(combined, candidate, DropSlot(groups, LeadingGap, false).value);
    } else {
      InsertionIndexEndsAGroup(groups, combined, candidate);
      var i :| 0 <= i < |groups| && groups[i].startIndex + |groups[i].events| == k;
      assert PlacementCorrect(combined, candidate, DropSlot(groups, AfterGroup(i), false).value);
    }
  }
}
