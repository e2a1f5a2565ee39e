/** The card as the two classes hold it on screen: one text per cell ("FREE"
    for 0, the decimal value otherwise), the set of card numbers, and the loops
    both classes share: `setupCardUI`, the marking loop of a draw, the
    rejection-sampling draw, and reading the card back from the texts
    (`getCard`, `saveGameState`). */
module Board {
  import opened Grid
  import opened Decimal
  import opened Card

  /** The texts of the 25 cells. */
  type Cells = seq<seq<string>>

  /** The texts a cell can show and the program can read back. */
  predicate CellReadable(t: string) {
    t == "FREE" || IsIntLiteral(t)
  }

  /** Reading a cell back: "FREE" is 0, any other text is parsed. */
  function ReadText(t: string): int
    requires CellReadable(t)
  {
    if t == "FREE" then FREE else Parse(t)
  }

  /** The text `setupCardUI` puts in a cell: reading it back gives the value,
      and it is "FREE" exactly for the FREE value. */
  function CellText(v: int): (t: string)
    ensures t == "FREE" <==> v == FREE
    ensures CellReadable(t) && ReadText(t) == v
  {
    if v == FREE then "FREE"
    else
      ShowIsNotWord(v, "FREE");
      Show(v)
  }

  /** The texts of a whole card. */
  function Texts(card: Card): (cells: Cells)
    requires Is5x5(card)
    ensures Is5x5(cells)
    ensures forall r, c :: InGrid(r, c) ==> cells[r][c] == CellText(card[r][c])
  {
    seq(5, r requires 0 <= r < 5 => seq(5, c requires 0 <= c < 5 => CellText(card[r][c])))
  }

  /** The values of a card other than FREE: what `cardNumbers` collects. */
  function NonFreeValues(card: Card): (s: set<int>)
    requires Is5x5(card)
    ensures forall x :: x in s <==> x != FREE && exists r, c :: InGrid(r, c) && card[r][c] == x
  {
    set r, c | 0 <= r < 5 && 0 <= c < 5 && card[r][c] != FREE :: card[r][c]
  }

  predicate HasFree(card: Card)
    requires Is5x5(card)
  {
    exists r, c :: 0 <= r < 5 && 0 <= c < 5 && card[r][c] == FREE
  }

  /** The marks after `setupCardUI` ran on `card`: a FREE value anywhere on the
      card marks the centre. */
  function FreeMarked(g: Marks, card: Card): (h: Marks)
    requires Is5x5(g) && Is5x5(card)
    ensures Is5x5(h)
    ensures HasFree(card) ==> h[2][2]
    ensures forall r, c :: InGrid(r, c) && !IsCenter(r, c) ==> h[r][c] == g[r][c]
    ensures !HasFree(card) ==> h == g
  {
    if HasFree(card) then Set(g, 2, 2, true) else g
  }

  /** A drawn number's text matches a cell exactly when the cell holds that
      number: FREE never matches, and distinct values have distinct texts. */
  lemma MatchIffValue(v: int, n: int)
    ensures CellText(v) == Show(n) <==> v != FREE && v == n
  {
    ShowIsNotWord(n, "FREE");
    ShowInjective(v, n);
  }

  // ---------------------------------------------------------------------
  // The first matching cell, in the row-major order the marking loop uses.

  predicate Before(r1: int, c1: int, r2: int, c2: int) {
    r1 < r2 || (r1 == r2 && c1 < c2)
  }

  /** The first column from c on whose text is t. */
  function FirstInRow(row: seq<string>, t: string, c: int): (j: Option<int>)
    requires |row| == 5 && 0 <= c <= 5
    ensures j.Some? ==> c <= j.value < 5 && row[j.value] == t
    ensures j.Some? ==> forall k :: c <= k < j.value ==> row[k] != t
    ensures j.None? ==> forall k :: c <= k < 5 ==> row[k] != t
    decreases 5 - c
  {
    if c == 5 then None
    else if row[c] == t then Some(c)
    else FirstInRow(row, t, c + 1)
  }

  /** The first cell from row r on whose text is t. */
  function FirstFrom(cells: Cells, t: string, r: int): (p: Option<(int, int)>)
    requires Is5x5(cells) && 0 <= r <= 5
    ensures p.Some? ==> r <= p.value.0 && InGrid(p.value.0, p.value.1) && cells[p.value.0][p.value.1] == t
    ensures p.Some? ==> forall i, j :: InGrid(i, j) && r <= i && Before(i, j, p.value.0, p.value.1) ==> cells[i][j] != t
    ensures p.None? ==> forall i, j :: InGrid(i, j) && r <= i ==> cells[i][j] != t
    decreases 5 - r
  {
    if r == 5 then None
    else
      match FirstInRow(cells[r], t, 0)
      case Some(c) => Some((r, c))
      case None => FirstFrom(cells, t, r + 1)
  }

  /** The cell the marking loop stops at, if any. */
  function FirstMatch(cells: Cells, t: string): (p: Option<(int, int)>)
    requires Is5x5(cells)
    ensures p.Some? ==> InGrid(p.value.0, p.value.1) && cells[p.value.0][p.value.1] == t
    ensures p.Some? ==> forall i, j :: InGrid(i, j) && Before(i, j, p.value.0, p.value.1) ==> cells[i][j] != t
    ensures p.None? ==> forall i, j :: InGrid(i, j) ==> cells[i][j] != t
  {
    FirstFrom(cells, t, 0)
  }

  /** The first match is the matching cell before which nothing matches. */
  lemma FirstMatchIs(cells: Cells, t: string, r: int, c: int)
    requires Is5x5(cells) && InGrid(r, c) && cells[r][c] == t
    requires forall i, j :: InGrid(i, j) && Before(i, j, r, c) ==> cells[i][j] != t
    ensures FirstMatch(cells, t) == Some((r, c))
  {
    var p := FirstMatch(cells, t);
    assert p.Some?;
  }

  /** g with the cell at p marked, if there is one. */
  function MarkAt(g: Marks, p: Option<(int, int)>): (h: Marks)
    requires Is5x5(g) && (p.Some? ==> InGrid(p.value.0, p.value.1))
    ensures Is5x5(h)
  {
    if p.Some? then Set(g, p.value.0, p.value.1, true) else g
  }

  /** A draw marks at most one cell, never unmarks one, and marks the drawn
      number's cell when the card holds it. */
  lemma MarkAtEffect(g: Marks, card: Card, n: int)
    requires Is5x5(g) && Is5x5(card)
    ensures var h := MarkAt(g, FirstMatch(Texts(card), Show(n)));
      && (forall r, c :: InGrid(r, c) && g[r][c] ==> h[r][c])
      && (forall r, c :: InGrid(r, c) && h[r][c] != g[r][c] ==> card[r][c] == n && n != FREE)
      && (forall r, c :: InGrid(r, c) && card[r][c] == n && n != FREE && !g[r][c] ==>
            (h[r][c] <==> FirstMatch(Texts(card), Show(n)) == Some((r, c))))
  {
    var p := FirstMatch(Texts(card), Show(n));
    if p.Some? {
      MatchIffValue(card[p.value.0][p.value.1], n);
    }
  }

  /** On a valid card the drawn number's cell is unique: the draw marks it,
      and marks nothing when the card does not hold the number. */
  lemma MarkOnValidCard(g: Marks, card: Card, n: int)
    requires Is5x5(g) && ValidCard(card)
    ensures var h := MarkAt(g, FirstMatch(Texts(card), Show(n)));
      forall r, c :: InGrid(r, c) ==> (h[r][c] <==> g[r][c] || (card[r][c] == n && n != FREE))
  {
    ValidCardCells(card);
    var cells := Texts(card);
    forall r, c | InGrid(r, c) && card[r][c] == n && n != FREE
      ensures FirstMatch(cells, Show(n)) == Some((r, c))
    {
      MatchIffValue(card[r][c], n);
      forall i, j | InGrid(i, j) && Before(i, j, r, c) ensures cells[i][j] != Show(n) {
        MatchIffValue(card[i][j], n);
      }
      FirstMatchIs(cells, Show(n), r, c);
    }
    var p := FirstMatch(cells, Show(n));
    if p.Some? {
      MatchIffValue(card[p.value.0][p.value.1], n);
    }
  }

  // ---------------------------------------------------------------------
  // The loops.

  /** The card's values other than FREE in the cells before (row, col). */
  ghost function Prefix(card: Card, row: int, col: int): set<int>
    requires Is5x5(card)
  {
    set r, c | 0 <= r < 5 && 0 <= c < 5 && Before(r, c, row, col) && card[r][c] != FREE :: card[r][c]
  }

  /** Some cell before (row, col) holds FREE. */
  ghost predicate FreeBefore(card: Card, row: int, col: int)
    requires Is5x5(card)
  {
    exists r, c :: 0 <= r < 5 && 0 <= c < 5 && Before(r, c, row, col) && card[r][c] == FREE
  }

  lemma PrefixStep(card: Card, row: int, col: int)
    requires Is5x5(card) && InGrid(row, col)
    ensures var next := if col < 4 then (row, col + 1) else (row + 1, 0);
      && Prefix(card, next.0, next.1) == Prefix(card, row, col) + (if card[row][col] != FREE then {card[row][col]} else {})
      && (FreeBefore(card, next.0, next.1) <==> FreeBefore(card, row, col) || card[row][col] == FREE)
  {
    var next := if col < 4 then (row, col + 1) else (row + 1, 0);
    forall r, c | InGrid(r, c)
      ensures Before(r, c, next.0, next.1) <==> Before(r, c, row, col) || (r == row && c == col)
    {
    }
    var a := Prefix(card, next.0, next.1);
    var b := Prefix(card, row, col) + (if card[row][col] != FREE then {card[row][col]} else {});
    forall x | x in a ensures x in b {
      var r, c :| 0 <= r < 5 && 0 <= c < 5 && Before(r, c, next.0, next.1) && card[r][c] != FREE && card[r][c] == x;
      if !(r == row && c == col) {
        assert x in Prefix(card, row, col);
      }
    }
    forall x | x in b ensures x in a {
      if x in Prefix(card, row, col) {
        var r, c :| 0 <= r < 5 && 0 <= c < 5 && Before(r, c, row, col) && card[r][c] != FREE && card[r][c] == x;
        assert Before(r, c, next.0, next.1);
      }
    }
    if FreeBefore(card, next.0, next.1) {
      var r, c :| 0 <= r < 5 && 0 <= c < 5 && Before(r, c, next.0, next.1) && card[r][c] == FREE;
      if !(r == row && c == col) {
        assert FreeBefore(card, row, col);
      }
    }
    if FreeBefore(card, row, col) {
      var r, c :| 0 <= r < 5 && 0 <= c < 5 && Before(r, c, row, col) && card[r][c] == FREE;
      assert Before(r, c, next.0, next.1);
    }
  }

  lemma PrefixWhole(card: Card)
    requires Is5x5(card)
    ensures Prefix(card, 5, 0) == NonFreeValues(card)
    ensures FreeBefore(card, 5, 0) <==> HasFree(card)
    ensures Prefix(card, 0, 0) == {} && !FreeBefore(card, 0, 0)
  {
    assert forall r, c :: InGrid(r, c) ==> Before(r, c, 5, 0);
  }

  /** `setupCardUI`: one text per cell and the card's values collected, in
      row-major order; a FREE value marks the centre of the given array. */
  method SetupCard(card: Card, marked: array2<bool>, numbers: set<int>) returns (cells: Cells, cardNumbers: set<int>)
    requires Is5x5(card) && marked.Length0 == 5 && marked.Length1 == 5
    modifies marked
    ensures cells == Texts(card)
    ensures cardNumbers == numbers + NonFreeValues(card)
    ensures Snapshot(marked) == FreeMarked(old(Snapshot(marked)), card)
  {
    ghost var g := Snapshot(marked);
    cells := seq(5, r => seq(5, c => ""));
    cardNumbers := numbers;
    PrefixWhole(card);
    for row := 0 to 5
      invariant Is5x5(cells)
      invariant forall r, c :: InGrid(r, c) && r < row ==> cells[r][c] == CellText(card[r][c])
      invariant cardNumbers == numbers + Prefix(card, row, 0)
      invariant forall r, c :: InGrid(r, c) && !IsCenter(r, c) ==> marked[r, c] == g[r][c]
      invariant marked[2, 2] == (g[2][2] || FreeBefore(card, row, 0))
    {
      for col := 0 to 5
        invariant Is5x5(cells)
        invariant forall r, c :: InGrid(r, c) && Before(r, c, row, col) ==> cells[r][c] == CellText(card[r][c])
        invariant cardNumbers == numbers + Prefix(card, if col < 5 then row else row + 1, if col < 5 then col else 0)
        invariant forall r, c :: InGrid(r, c) && !IsCenter(r, c) ==> marked[r, c] == g[r][c]
        invariant marked[2, 2] == (g[2][2] || FreeBefore(card, if col < 5 then row else row + 1, if col < 5 then col else 0))
      {
        PrefixStep(card, row, col);
        var num := card[row][col];
        cells := Set(cells, row, col, CellText(num));
        if num != FREE {
          cardNumbers := cardNumbers + {num};
        } else {
          marked[2, 2] := true;
        }
      }
    }
    SameGridEqual(cells, Texts(card));
    SameGridEqual(Snapshot(marked), FreeMarked(g, card));
  }

  /** `initializeBingoCard` on its inputs: a new valid card set up over the
      marks, whose FREE centre gets marked; the card's numbers join `numbers`. */
  method DealCard(marked: array2<bool>, numbers: set<int>) returns (card: Card, cells: Cells, cardNumbers: set<int>)
    requires marked.Length0 == 5 && marked.Length1 == 5
    modifies marked
    ensures ValidCard(card) && cells == Texts(card)
    ensures cardNumbers == numbers + NonFreeValues(card)
    ensures Snapshot(marked) == Set(old(Snapshot(marked)), 2, 2, true)
  {
    card := GenerateCard();
    assert ColumnOk(card, 2);
    assert HasFree(card) by {
      assert card[2][2] == FREE;
    }
    cells, cardNumbers := SetupCard(card, marked, numbers);
  }

  /** The marking loop of a draw: marks the first cell, in row-major order,
      whose text is the drawn number's, and stops there. */
  method MarkFirstMatch(cells: Cells, marked: array2<bool>, n: int) returns (found: bool)
    requires Is5x5(cells) && marked.Length0 == 5 && marked.Length1 == 5
    modifies marked
    ensures found <==> FirstMatch(cells, Show(n)).Some?
    ensures Snapshot(marked) == MarkAt(old(Snapshot(marked)), FirstMatch(cells, Show(n)))
  {
    ghost var g := Snapshot(marked);
    var text := Show(n);
    for row := 0 to 5
      invariant forall i, j :: InGrid(i, j) && i < row ==> cells[i][j] != text
      invariant Snapshot(marked) == g
    {
      for col := 0 to 5
        invariant forall i, j :: InGrid(i, j) && (i < row || (i == row && j < col)) ==> cells[i][j] != text
        invariant Snapshot(marked) == g
      {
        if cells[row][col] == text {
          marked[row, col] := true;
          FirstMatchIs(cells, text, row, col);
          SameGridEqual(Snapshot(marked), Set(g, row, col, true));
          return true;
        }
      }
    }
    return false;
  }

  /** The rejection-sampling loop of a draw: a number of 1..75 not drawn yet.
      Each rejected candidate leaves nothing changed, so only the accepted
      choice is modelled. */
  method ChooseUndrawn(drawn: seq<int>) returns (n: int)
    requires |drawn| < 75
    ensures 1 <= n <= 75 && n !in drawn
  {
    MissingFromSeq(drawn, 1, 75);
    n :| 1 <= n <= 75 && n !in drawn;
  }

  /** One draw once it goes ahead (`performDraw`, the draw handler): a number
      not drawn yet, and the first cell showing it marked. The drawn list
      with it appended keeps its invariant: no repeats, all within 1..75. */
  method DrawNumber(drawn: seq<int>, cells: Cells, marked: array2<bool>) returns (n: int)
    requires Is5x5(cells) && marked.Length0 == 5 && marked.Length1 == 5
    requires Distinct(drawn) && AllInRange(drawn, 1, 75) && |drawn| < 75
    modifies marked
    ensures 1 <= n <= 75 && n !in drawn
    ensures Distinct(drawn + [n]) && AllInRange(drawn + [n], 1, 75)
    ensures Snapshot(marked) == MarkAt(old(Snapshot(marked)), FirstMatch(cells, Show(n)))
  {
    n := ChooseUndrawn(drawn);
    var next := drawn + [n];
    assert forall i :: 0 <= i < |drawn| ==> next[i] == drawn[i];
    var found := MarkFirstMatch(cells, marked, n);
  }

  /** `deserializeMarked`'s fresh array holding the given marks. */
  method ToArray(g: Marks) returns (a: array2<bool>)
    requires Is5x5(g)
    ensures fresh(a) && a.Length0 == 5 && a.Length1 == 5
    ensures Snapshot(a) == g
  {
    a := new bool[5, 5]((r, c) requires InGrid(r, c) => g[r][c]);
    SameGridEqual(Snapshot(a), g);
  }

  /** Reading the card back from the texts (`getCard`; the same loop opens
      `saveGameState`): "FREE" is 0, any other text is parsed. */
  method ReadCard(cells: Cells) returns (card: Card)
    requires Is5x5(cells)
    requires forall r, c :: InGrid(r, c) ==> CellReadable(cells[r][c])
    ensures Is5x5(card)
    ensures forall r, c :: InGrid(r, c) ==> card[r][c] == ReadText(cells[r][c])
  {
    card := seq(5, r => seq(5, c => 0));
    for row := 0 to 5
      invariant Is5x5(card)
      invariant forall r, c :: InGrid(r, c) && r < row ==> card[r][c] == ReadText(cells[r][c])
    {
      for col := 0 to 5
        invariant Is5x5(card)
        invariant forall r, c :: InGrid(r, c) && (r < row || (r == row && c < col)) ==> card[r][c] == ReadText(cells[r][c])
      {
        var text := cells[row][col];
        card := Set(card, row, col, if text == "FREE" then FREE else Parse(text));
      }
    }
  }

  /** Reading back the texts of a card gives the card. */
  lemma ReadTexts(card: Card, read: Card)
    requires Is5x5(card) && Is5x5(read)
    requires forall r, c :: InGrid(r, c) ==> read[r][c] == ReadText(Texts(card)[r][c])
    ensures read == card
  {
    SameGridEqual(read, card);
  }
}
