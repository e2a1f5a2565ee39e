/** Shapes shared by the whole model: the 5x5 grids of the bingo card and of
    its marks, row-major flattening, a value snapshot of the marking array, and
    the counting facts that make the random choices of the game possible. */
module Grid {

  datatype Option<T> = None | Some(value: T)

  /** The marking grid; true means the cell is marked. */
  type Marks = seq<seq<bool>>

  predicate Is5x5<T>(g: seq<seq<T>>) {
    |g| == 5 && forall r :: 0 <= r < 5 ==> |g[r]| == 5
  }

  predicate InGrid(r: int, c: int) {
    0 <= r < 5 && 0 <= c < 5
  }

  predicate IsCenter(r: int, c: int) {
    r == 2 && c == 2
  }

  /** The 25 cells of a grid in row-major order. */
  function Flatten<T>(g: seq<seq<T>>): (s: seq<T>)
    requires Is5x5(g)
    ensures |s| == 25
    ensures forall r, c :: InGrid(r, c) ==> s[5 * r + c] == g[r][c]
  {
    seq(25, k requires 0 <= k < 25 => g[k / 5][k % 5])
  }

  /** The grid whose row-major order is s. */
  function Unflatten<T>(s: seq<T>): (g: seq<seq<T>>)
    requires |s| == 25
    ensures Is5x5(g)
    ensures forall k :: 0 <= k < 25 ==> g[k / 5][k % 5] == s[k]
  {
    seq(5, r requires 0 <= r < 5 => seq(5, c requires 0 <= c < 5 => s[5 * r + c]))
  }

  /** Same shape and same cells. */
  ghost predicate SameGrid<T>(g: seq<seq<T>>, h: seq<seq<T>>)
    requires Is5x5(g) && Is5x5(h)
  {
    forall r, c :: InGrid(r, c) ==> g[r][c] == h[r][c]
  }

  lemma SameGridEqual<T>(g: seq<seq<T>>, h: seq<seq<T>>)
    requires Is5x5(g) && Is5x5(h) && SameGrid(g, h)
    ensures g == h
  {
    forall r | 0 <= r < 5 ensures g[r] == h[r] {
      assert forall c :: 0 <= c < 5 ==> g[r][c] == h[r][c] by {
        forall c | 0 <= c < 5 ensures g[r][c] == h[r][c] {
          assert InGrid(r, c);
        }
      }
    }
  }

  /** g with cell (r, c) set to v. */
  function Set<T>(g: seq<seq<T>>, r: int, c: int, v: T): (h: seq<seq<T>>)
    requires Is5x5(g) && InGrid(r, c)
    ensures Is5x5(h)
    ensures h[r][c] == v
    ensures forall i, j :: InGrid(i, j) && (i != r || j != c) ==> h[i][j] == g[i][j]
  {
    g[r := g[r][c := v]]
  }

  /** The value of a 5x5 array of marks. */
  function Snapshot(a: array2<bool>): (g: Marks)
    reads a
    requires a.Length0 == 5 && a.Length1 == 5
    ensures Is5x5(g)
    ensures forall r, c :: InGrid(r, c) ==> g[r][c] == a[r, c]
  {
    seq(5, r requires 0 <= r < 5 reads a =>
      seq(5, c requires 0 <= c < 5 reads a => a[r, c]))
  }

  /** What `new boolean[5][5]` holds. */
  function AllFalse(): (g: Marks)
    ensures Is5x5(g)
    ensures forall r, c :: InGrid(r, c) ==> !g[r][c]
  {
    seq(5, r => seq(5, c => false))
  }

  /** A fresh marking grid once the FREE cell has been marked: only the centre is true. */
  function CenterOnly(): (g: Marks)
    ensures Is5x5(g)
    ensures forall r, c :: InGrid(r, c) ==> (g[r][c] <==> IsCenter(r, c))
  {
    Set(AllFalse(), 2, 2, true)
  }

  // ---------------------------------------------------------------------
  // Counting facts behind the rejection-sampling loops.

  predicate Distinct(s: seq<int>) {
    forall i, j :: 0 <= i < j < |s| ==> s[i] != s[j]
  }

  predicate AllInRange(s: seq<int>, lo: int, hi: int) {
    forall i :: 0 <= i < |s| ==> lo <= s[i] <= hi
  }

  /** The integers of [lo, hi], as a set. */
  function Range(lo: int, hi: int): (r: set<int>)
    ensures forall x :: x in r <==> lo <= x <= hi
    ensures lo <= hi + 1 ==> |r| == hi - lo + 1
    decreases hi - lo
  {
    if lo > hi then {} else {lo} + Range(lo + 1, hi)
  }

  lemma SubsetSize<T>(a: set<T>, b: set<T>)
    requires a <= b
    ensures |a| <= |b|
  {
    assert b == a + (b - a);
  }

  /** A set smaller than the range [lo, hi] misses one of its values. */
  lemma MissingFromRange(s: set<int>, lo: int, hi: int)
    requires lo <= hi
    requires |s| < hi - lo + 1
    ensures exists x :: lo <= x <= hi && x !in s
  {
    if forall x :: lo <= x <= hi ==> x in s {
      SubsetSize(Range(lo, hi), s);
      assert false;
    }
  }

  lemma {:induction false} ElementsSize(s: seq<int>)
    ensures |set x | x in s| <= |s|
    ensures Distinct(s) ==> |set x | x in s| == |s|
  {
    if s != [] {
      var t := s[..|s| - 1];
      var last := s[|s| - 1];
      ElementsSize(t);
      assert s == t + [last];
      assert (set x | x in s) == (set x | x in t) + {last};
      if Distinct(s) {
        assert Distinct(t);
        assert last !in t by {
          forall i | 0 <= i < |t| ensures t[i] != last {
            assert s[i] == t[i];
          }
        }
        assert last !in (set x | x in t);
      }
    }
  }

  /** A sequence shorter than the range [lo, hi] misses one of its values. */
  lemma MissingFromSeq(s: seq<int>, lo: int, hi: int)
    requires lo <= hi
    requires |s| < hi - lo + 1
    ensures exists x :: lo <= x <= hi && x !in s
  {
    ElementsSize(s);
    MissingFromRange((set x | x in s), lo, hi);
  }

  /** A duplicate-free sequence of values in [lo, hi] is no longer than the range. */
  lemma DistinctBounded(s: seq<int>, lo: int, hi: int)
    requires lo <= hi + 1
    requires Distinct(s) && AllInRange(s, lo, hi)
    ensures |s| <= hi - lo + 1
  {
    ElementsSize(s);
    SubsetSize((set x | x in s), Range(lo, hi));
  }
}
