/** The bingo card: what a valid card is, and `generateCard`, which fills each
    column with five distinct values of its range in ascending order and makes
    the centre cell FREE. `MainActivity` and `BingoGame` carry the same
    generator; both use this one. */
module Card {
  import opened Grid

  /** A card as the program holds it: 5x5 integers, 0 standing for FREE. */
  type Card = seq<seq<int>>

  const FREE := 0

  /** The smallest and largest value column c may hold (B 1-15, I 16-30, ...). */
  function ColumnMin(c: int): int { 15 * c + 1 }
  function ColumnMax(c: int): int { ColumnMin(c) + 14 }

  /** Column c lies in its range, strictly increases downwards, and its centre
      cell, if it is column 2, is FREE. */
  ghost predicate ColumnOk(card: Card, c: int)
    requires Is5x5(card) && 0 <= c < 5
  {
    && (c == 2 ==> card[2][2] == FREE)
    && (forall r :: 0 <= r < 5 && !IsCenter(r, c) ==> ColumnMin(c) <= card[r][c] <= ColumnMax(c))
    && (forall r1, r2 :: 0 <= r1 < r2 < 5 && !IsCenter(r1, c) && !IsCenter(r2, c) ==>
          card[r1][c] < card[r2][c])
  }

  ghost predicate ValidCard(card: Card) {
    Is5x5(card) && forall c :: 0 <= c < 5 ==> ColumnOk(card, c)
  }

  /** On a valid card FREE sits at the centre and nowhere else, and no two cells
      hold the same value: the column ranges are disjoint and each column
      strictly increases. */
  lemma ValidCardCells(card: Card)
    requires ValidCard(card)
    ensures forall r, c :: InGrid(r, c) ==> (card[r][c] == FREE <==> IsCenter(r, c))
    ensures forall r1, c1, r2, c2 :: InGrid(r1, c1) && InGrid(r2, c2) && (r1 != r2 || c1 != c2)
              ==> card[r1][c1] != card[r2][c2]
  {
    forall r, c | InGrid(r, c) ensures card[r][c] == FREE <==> IsCenter(r, c) {
      assert ColumnOk(card, c);
    }
    forall r1, c1, r2, c2 | InGrid(r1, c1) && InGrid(r2, c2) && (r1 != r2 || c1 != c2)
      ensures card[r1][c1] != card[r2][c2]
    {
      assert ColumnOk(card, c1) && ColumnOk(card, c2);
      if c1 != c2 && !IsCenter(r1, c1) && !IsCenter(r2, c2) {
        assert ColumnMax(c1) < ColumnMin(c2) || ColumnMax(c2) < ColumnMin(c1);
      }
    }
  }

  /** Column c's validity depends on column c alone. */
  lemma ColumnOkFrame(a: Card, b: Card, c: int)
    requires Is5x5(a) && Is5x5(b) && 0 <= c < 5
    requires forall r :: 0 <= r < 5 ==> a[r][c] == b[r][c]
    requires ColumnOk(a, c)
    ensures ColumnOk(b, c)
  {
  }

  /** The members of s in ascending order, as sorting a copy of the set leaves
      them; lo and hi bound the members. */
  function Ascending(s: set<int>, lo: int, hi: int): (r: seq<int>)
    requires forall x :: x in s ==> lo <= x <= hi
    ensures |r| == |s|
    ensures forall i :: 0 <= i < |r| ==> r[i] in s
    ensures forall x :: x in s ==> x in r
    ensures forall i, j :: 0 <= i < j < |r| ==> r[i] < r[j]
    decreases hi - lo
  {
    if lo > hi then
      assert forall x :: x !in s;
      assert s == {};
      []
    else if lo in s then
      var rest := Ascending(s - {lo}, lo + 1, hi);
      AscendingStep(s, lo, rest);
      [lo] + rest
    else Ascending(s, lo + 1, hi)
  }

  /** The recursive step of `Ascending`: the least member in front of the
      others in ascending order. */
  lemma AscendingStep(s: set<int>, lo: int, rest: seq<int>)
    requires lo in s && forall x :: x in s ==> lo <= x
    requires |rest| == |s - {lo}|
    requires forall i :: 0 <= i < |rest| ==> rest[i] in s - {lo}
    requires forall x :: x in s - {lo} ==> x in rest
    requires forall i, j :: 0 <= i < j < |rest| ==> rest[i] < rest[j]
    ensures |[lo] + rest| == |s|
    ensures forall i :: 0 <= i < |[lo] + rest| ==> ([lo] + rest)[i] in s
    ensures forall x :: x in s ==> x in [lo] + rest
    ensures forall i, j :: 0 <= i < j < |[lo] + rest| ==> ([lo] + rest)[i] < ([lo] + rest)[j]
  {
    var r := [lo] + rest;
    assert |s - {lo}| == |s| - 1;
    assert forall i :: 1 <= i < |r| ==> r[i] == rest[i - 1];
    assert forall x :: x in s && x != lo ==> x in s - {lo};
  }

  /** One column's numbers: five different values drawn from [min, max],
      then sorted. */
  method ColumnNumbers(min: int, max: int) returns (sorted: seq<int>)
    requires max - min + 1 >= 5
    ensures |sorted| == 5
    ensures forall i :: 0 <= i < 5 ==> min <= sorted[i] <= max
    ensures forall i, j :: 0 <= i < j < 5 ==> sorted[i] < sorted[j]
  {
    var columnNumbers: set<int> := {};
    while |columnNumbers| < 5
      invariant |columnNumbers| <= 5
      invariant forall x :: x in columnNumbers ==> min <= x <= max
      decreases 5 - |columnNumbers|
    {
      MissingFromRange(columnNumbers, min, max);
      var num :| min <= num <= max && num !in columnNumbers;
      columnNumbers := columnNumbers + {num};
    }
    sorted := Ascending(columnNumbers, min, max);
  }

  /** `generateCard`: any card it can return is valid. The random draws are a
      nondeterministic choice; a draw the source rejects (a value already in the
      column) leaves the column unchanged, so only the accepted draws are
      modelled. */
  method GenerateCard() returns (card: Card)
    ensures ValidCard(card)
  {
    card := seq(5, r => seq(5, c => 0));
    for col := 0 to 5
      invariant Is5x5(card)
      invariant forall c :: 0 <= c < col ==> ColumnOk(card, c)
    {
      var sorted := ColumnNumbers(col * 15 + 1, col * 15 + 15);
      for row := 0 to 5
        invariant Is5x5(card)
        invariant forall c :: 0 <= c < col ==> ColumnOk(card, c)
        invariant forall r :: 0 <= r < row ==> card[r][col] == if IsCenter(r, col) then FREE else sorted[r]
      {
        var before := card;
        card := Set(card, row, col, if row == 2 && col == 2 then FREE else sorted[row]);
        forall c | 0 <= c < col ensures ColumnOk(card, c) {
          ColumnOkFrame(before, card, c);
        }
      }
      assert ColumnOk(card, col);
    }
  }
}
