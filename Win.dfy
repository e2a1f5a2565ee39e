/** Win detection (`checkForBingo` and `isLineMarked`): a marking grid wins when
    one of its 12 lines (5 rows, 5 columns, 2 diagonals) is fully marked. The
    two classes of the program carry the same code; both use this one. */
module Win {
  import opened Grid

  predicate RowFull(g: Marks, r: int)
    requires Is5x5(g) && 0 <= r < 5
  {
    forall i :: 0 <= i < 5 ==> g[r][i]
  }

  predicate ColumnFull(g: Marks, c: int)
    requires Is5x5(g) && 0 <= c < 5
  {
    forall i :: 0 <= i < 5 ==> g[i][c]
  }

  /** The diagonal (0,0) .. (4,4). */
  predicate MainDiagonalFull(g: Marks)
    requires Is5x5(g)
  {
    forall i :: 0 <= i < 5 ==> g[i][i]
  }

  /** The diagonal (0,4) .. (4,0). */
  predicate AntiDiagonalFull(g: Marks)
    requires Is5x5(g)
  {
    forall i :: 0 <= i < 5 ==> g[i][4 - i]
  }

  predicate HasBingo(g: Marks)
    requires Is5x5(g)
  {
    || (exists r :: 0 <= r < 5 && RowFull(g, r))
    || (exists c :: 0 <= c < 5 && ColumnFull(g, c))
    || MainDiagonalFull(g)
    || AntiDiagonalFull(g)
  }

  // ---------------------------------------------------------------------
  // A second description of the win condition: the list of the 12 lines.

  /** The 12 winning lines as lists of cells: rows 0-4, columns 0-4, then the
      main diagonal and the anti-diagonal. */
  function Lines(): (ls: seq<seq<(int, int)>>)
    ensures |ls| == 12
    ensures forall l :: 0 <= l < 12 ==> |ls[l]| == 5
  {
    seq(5, r => seq(5, i => (r, i)))
    + seq(5, c => seq(5, i => (i, c)))
    + [seq(5, i => (i, i)), seq(5, i => (i, 4 - i))]
  }

  ghost predicate LineMarked(g: Marks, line: seq<(int, int)>)
    requires Is5x5(g)
  {
    forall k :: 0 <= k < |line| ==> InGrid(line[k].0, line[k].1) && g[line[k].0][line[k].1]
  }

  /** The win condition is exactly "one of the 12 lines is fully marked". */
  lemma HasBingoIffSomeLine(g: Marks)
    requires Is5x5(g)
    ensures HasBingo(g) <==> exists l :: 0 <= l < 12 && LineMarked(g, Lines()[l])
  {
    var ls := Lines();
    if HasBingo(g) {
      if r :| 0 <= r < 5 && RowFull(g, r) {
        assert ls[r] == seq(5, i => (r, i));
        assert LineMarked(g, ls[r]);
      } else if c :| 0 <= c < 5 && ColumnFull(g, c) {
        assert ls[5 + c] == seq(5, i => (i, c));
        assert LineMarked(g, ls[5 + c]);
      } else if MainDiagonalFull(g) {
        assert LineMarked(g, ls[10]);
      } else {
        assert LineMarked(g, ls[11]);
      }
    }
    if l :| 0 <= l < 12 && LineMarked(g, ls[l]) {
      if l < 5 {
        forall i | 0 <= i < 5 ensures g[l][i] {
          assert ls[l][i] == (l, i);
        }
        assert RowFull(g, l);
      } else if l < 10 {
        forall i | 0 <= i < 5 ensures g[i][l - 5] {
          assert ls[l][i] == (i, l - 5);
        }
        assert ColumnFull(g, l - 5);
      } else if l == 10 {
        forall i | 0 <= i < 5 ensures g[i][i] {
          assert ls[l][i] == (i, i);
        }
      } else {
        forall i | 0 <= i < 5 ensures g[i][4 - i] {
          assert ls[l][i] == (i, 4 - i);
        }
      }
    }
  }

  /** Marking more cells never loses a win. */
  lemma HasBingoMonotone(g: Marks, h: Marks)
    requires Is5x5(g) && Is5x5(h)
    requires forall r, c :: InGrid(r, c) && g[r][c] ==> h[r][c]
    requires HasBingo(g)
    ensures HasBingo(h)
  {
    if r :| 0 <= r < 5 && RowFull(g, r) {
      assert forall i :: 0 <= i < 5 ==> InGrid(r, i);
      assert RowFull(h, r);
    } else if c :| 0 <= c < 5 && ColumnFull(g, c) {
      assert forall i :: 0 <= i < 5 ==> InGrid(i, c);
      assert ColumnFull(h, c);
    } else if MainDiagonalFull(g) {
      assert forall i :: 0 <= i < 5 ==> InGrid(i, i);
      assert MainDiagonalFull(h);
    } else {
      forall i | 0 <= i < 5 ensures h[i][4 - i] {
        assert InGrid(i, 4 - i);
      }
    }
  }

  /** The grid with exactly the given cells marked. */
  function Only(cells: set<(int, int)>): (g: Marks)
    ensures Is5x5(g)
    ensures forall r, c :: InGrid(r, c) ==> (g[r][c] <==> (r, c) in cells)
  {
    seq(5, r => seq(5, c => (r, c) in cells))
  }

  /** A fully marked grid wins, an unmarked one does not, and neither does the
      grid a new game starts with (only the FREE centre). */
  lemma CenterOnlyNoBingo()
    ensures !HasBingo(CenterOnly())
  {
    BingoExtremes();
  }

  lemma BingoExtremes()
    ensures HasBingo(Only(set r, c | 0 <= r < 5 && 0 <= c < 5 :: (r, c)))
    ensures !HasBingo(AllFalse())
    ensures !HasBingo(CenterOnly())
  {
    var none := AllFalse();
    assert !none[0][0] && !none[0][4];
    forall r | 0 <= r < 5 ensures !RowFull(none, r) {
      assert !none[r][0];
    }
    forall c | 0 <= c < 5 ensures !ColumnFull(none, c) {
      assert !none[0][c];
    }
    var g := CenterOnly();
    assert !g[0][0] && !g[4][4] && !g[0][4];
    forall r | 0 <= r < 5 ensures !RowFull(g, r) {
      assert !g[r][if r == 2 then 0 else 2];
    }
    forall c | 0 <= c < 5 ensures !ColumnFull(g, c) {
      assert !g[if c == 2 then 0 else 2][c];
    }
  }

  /** Exactly row 0 marked wins; exactly the anti-diagonal marked wins. */
  lemma BingoSingleLines()
    ensures HasBingo(Only({(0, 0), (0, 1), (0, 2), (0, 3), (0, 4)}))
    ensures HasBingo(Only({(0, 4), (1, 3), (2, 2), (3, 1), (4, 0)}))
  {
    var row0 := Only({(0, 0), (0, 1), (0, 2), (0, 3), (0, 4)});
    assert forall i :: 0 <= i < 5 ==> row0[0][i];
    assert RowFull(row0, 0);
    var anti := Only({(0, 4), (1, 3), (2, 2), (3, 1), (4, 0)});
    assert anti[0][4] && anti[1][3] && anti[2][2] && anti[3][1] && anti[4][0];
    assert AntiDiagonalFull(anti);
  }

  /** Four marks never win: every line has five cells. */
  lemma NoBingoWithFourMarks(cells: set<(int, int)>)
    requires |cells| <= 4
    ensures !HasBingo(Only(cells))
  {
    var g := Only(cells);
    if HasBingo(g) {
      HasBingoIffSomeLine(g);
      var l :| 0 <= l < 12 && LineMarked(g, Lines()[l]);
      var line := Lines()[l];
      var onLine := set k | 0 <= k < 5 :: line[k];
      assert onLine <= cells by {
        forall p | p in onLine ensures p in cells {
          var k :| 0 <= k < 5 && line[k] == p;
          assert InGrid(line[k].0, line[k].1) && g[line[k].0][line[k].1];
        }
      }
      LinesHaveFiveCells(l);
      SubsetSize(onLine, cells);
      assert false;
    }
  }

  lemma LinesHaveFiveCells(l: int)
    requires 0 <= l < 12
    ensures |set k | 0 <= k < 5 :: Lines()[l][k]| == 5
  {
    var line := Lines()[l];
    var s := set k | 0 <= k < 5 :: line[k];
    assert s == {line[0], line[1], line[2], line[3], line[4]};
    if l < 5 {
      assert forall i :: 0 <= i < 5 ==> line[i] == (l, i);
    } else if l < 10 {
      assert forall i :: 0 <= i < 5 ==> line[i] == (i, l - 5);
    } else if l == 10 {
      assert forall i :: 0 <= i < 5 ==> line[i] == (i, i);
    } else {
      assert forall i :: 0 <= i < 5 ==> line[i] == (i, 4 - i);
    }
  }

  // ---------------------------------------------------------------------
  // The loops of the source, proved against HasBingo.

  /** `isLineMarked`: whether row `row` (isRow) or column `col` (otherwise) is
      fully marked; the unused coordinate is passed as -1 by the callers. */
  method IsLineMarked(marked: array2<bool>, row: int, col: int, isRow: bool) returns (full: bool)
    requires marked.Length0 == 5 && marked.Length1 == 5
    requires isRow ==> 0 <= row < 5
    requires !isRow ==> 0 <= col < 5
    ensures isRow ==> (full <==> RowFull(Snapshot(marked), row))
    ensures !isRow ==> (full <==> ColumnFull(Snapshot(marked), col))
  {
    for i := 0 to 5
      invariant forall k :: 0 <= k < i ==> if isRow then marked[row, k] else marked[k, col]
    {
      if (if isRow then !marked[row, i] else !marked[i, col]) {
        return false;
      }
    }
    return true;
  }

  /** `checkForBingo`: rows first, then columns, then both diagonals. */
  method CheckForBingo(marked: array2<bool>) returns (bingo: bool)
    requires marked.Length0 == 5 && marked.Length1 == 5
    ensures bingo <==> HasBingo(Snapshot(marked))
  {
    ghost var g := Snapshot(marked);
    for row := 0 to 5
      invariant forall r :: 0 <= r < row ==> !RowFull(g, r)
    {
      var full := IsLineMarked(marked, row, -1, true);
      if full {
        return true;
      }
    }
    for col := 0 to 5
      invariant forall c :: 0 <= c < col ==> !ColumnFull(g, c)
    {
      var full := IsLineMarked(marked, -1, col, false);
      if full {
        return true;
      }
    }
    var diag1, diag2 := true, true;
    for i := 0 to 5
      invariant diag1 <==> forall k :: 0 <= k < i ==> marked[k, k]
      invariant diag2 <==> forall k, j :: 0 <= k < i && j == 4 - k ==> marked[k, j]
    {
      if !marked[i, i] {
        diag1 := false;
      }
      if !marked[i, 4 - i] {
        diag2 := false;
      }
    }
    return diag1 || diag2;
  }
}
