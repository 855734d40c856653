/** The persisted turn-order cell (src/hooks/useTurnState.ts): an order of
    team ids and two independent cursors into it, one for the board and
    one for the lyrics grid. */
module TurnState {
  import opened Common

  /** The cursor after one advance over an order of `n` ids: `(i + 1) % n`. */
  function NextCursor(i: int, n: int): (r: int)
    requires i >= 0 && n > 0
    ensures 0 <= r < n
    ensures i < n ==> r == (if i == n - 1 then 0 else i + 1)
  {
    if i == n - 1 then
      ModUnique(i + 1, n, 1, 0);
      (i + 1) % n
    else if i < n then
      ModUnique(i + 1, n, 0, i + 1);
      (i + 1) % n
    else
      (i + 1) % n
  }

  /** The cursor after `k` advances from `i`. */
  function Advances(i: int, n: int, k: nat): (r: int)
    requires i >= 0 && n > 0
    ensures r >= 0
  {
    if k == 0 then i else NextCursor(Advances(i, n, k - 1), n)
  }

  /** `k` advances from the start land on index `k mod n`. */
  lemma {:induction false} AdvancesFromStart(n: int, k: nat)
    requires n > 0
    ensures Advances(0, n, k) == k % n
  {
    if k > 0 {
      AdvancesFromStart(n, k - 1);
      var q, p := (k - 1) / n, (k - 1) % n;
      assert k - 1 == q * n + p;
      if p == n - 1 {
        ModUnique(k, n, q + 1, 0);
      } else {
        ModUnique(k, n, q, p + 1);
      }
    }
  }

  /** Repeated board advances visit every id once and are back at the start
      after exactly `n` steps. */
  lemma FullCycle(n: int)
    requires n > 0
    ensures Advances(0, n, n) == 0
    ensures forall j :: 0 <= j < n ==> Advances(0, n, j) == j
    ensures forall j :: 0 < j < n ==> Advances(0, n, j) != 0
  {
    AdvancesFromStart(n, n);
    ModUnique(n, n, 1, 0);
    forall j | 0 <= j < n ensures Advances(0, n, j) == j {
      AdvancesFromStart(n, j);
      ModUnique(j, n, 0, j);
    }
  }

  /** An advance keeps an in-range cursor in range. */
  lemma {:induction false} AdvancesStayInRange(i: int, n: int, k: nat)
    requires 0 <= i < n
    ensures 0 <= Advances(i, n, k) < n
  {
    if k > 0 { AdvancesStayInRange(i, n, k - 1); }
  }

  /** Both cursors index a non-empty order. */
  predicate CursorsInRange(order: seq<string>, boardIndex: int, lyricsIndex: int) {
    0 <= boardIndex && 0 <= lyricsIndex
    && (|order| > 0 ==> boardIndex < |order| && lyricsIndex < |order|)
  }

  /** A cursor after one advance: unchanged over an empty order. */
  function Advanced(order: seq<string>, cursor: int): (r: int)
    requires cursor >= 0
    ensures order == [] ==> r == cursor
    ensures order != [] ==> 0 <= r < |order|
    ensures order != [] && cursor < |order| ==> r == (if cursor == |order| - 1 then 0 else cursor + 1)
  {
    if order == [] then cursor else NextCursor(cursor, |order|)
  }

  /** `order[cursor % order.length]`, or the empty id when the order is empty. */
  function IdAt(ids: seq<string>, cursor: int): (r: string)
    requires cursor >= 0
    ensures ids == [] ==> r == ""
    ensures ids != [] ==> r in ids
    ensures 0 <= cursor < |ids| ==> r == ids[cursor]
  {
    if ids == [] then "" else ids[cursor % |ids|]
  }

  class TurnStore {
    var order: seq<string>
    var boardIndex: int
    var lyricsIndex: int

    /** Both cursors are indexes into a non-empty order. */
    ghost predicate Valid()
      reads this
    {
      CursorsInRange(order, boardIndex, lyricsIndex)
    }

    /** The cell's default value. */
    constructor ()
      ensures Valid()
      ensures order == [] && boardIndex == 0 && lyricsIndex == 0
    {
      order, boardIndex, lyricsIndex := [], 0, 0;
    }

    method SetOrder(ids: seq<string>)
      modifies this
      ensures Valid()
      ensures order == ids && boardIndex == 0 && lyricsIndex == 0
    {
      order, boardIndex, lyricsIndex := ids, 0, 0;
    }

    method AdvanceBoard()
      requires Valid()
      modifies this
      ensures Valid()
      ensures order == old(order) && lyricsIndex == old(lyricsIndex)
      ensures boardIndex == Advanced(order, old(boardIndex))
    {
      if |order| == 0 {
        return;
      }
      var len := |order|;
      boardIndex := (boardIndex + 1) % len;
    }

    method AdvanceLyrics()
      requires Valid()
      modifies this
      ensures Valid()
      ensures order == old(order) && boardIndex == old(boardIndex)
      ensures lyricsIndex == Advanced(order, old(lyricsIndex))
    {
      if |order| == 0 {
        return;
      }
      var len := |order|;
      lyricsIndex := (lyricsIndex + 1) % len;
    }

    /** Starts the lyrics cursor where the board cursor is. */
    method SyncLyricsToBoard()
      requires Valid()
      modifies this
      ensures Valid()
      ensures order == old(order) && boardIndex == old(boardIndex) && lyricsIndex == old(boardIndex)
    {
      lyricsIndex := boardIndex;
    }

    method Reset()
      modifies this
      ensures Valid()
      ensures order == [] && boardIndex == 0 && lyricsIndex == 0
    {
      order, boardIndex, lyricsIndex := [], 0, 0;
    }
  }
}
