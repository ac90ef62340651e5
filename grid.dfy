/** Grid primitives shared by the validator and the generator: positions on the
    9x9 grid, the row, column and 3x3 box a position belongs to, and the
    "no digit twice in a unit" condition a solved grid satisfies. */
module Grid {

  /** A 9x9 grid of plain cell values in row-major order; 0 means empty. */
  type IntGrid = seq<seq<int>>

  predicate InGrid(r: int, c: int) {
    0 <= r < 9 && 0 <= c < 9
  }

  predicate IsGrid(g: IntGrid) {
    |g| == 9 && forall r :: 0 <= r < 9 ==> |g[r]| == 9
  }

  /** First row (or column) of the 3x3 box that holds index i: `(i / 3) * 3`. */
  function BoxStart(i: int): (s: int)
    requires 0 <= i < 9
    ensures s % 3 == 0 && s <= i < s + 3 && 0 <= s <= 6
  {
    (i / 3) * 3
  }

  /** An index lies in the box scanned from BoxStart(i) exactly when it shares i's box. */
  lemma BoxRange(i: int, j: int)
    requires 0 <= i < 9 && 0 <= j < 9
    ensures BoxStart(i) <= j < BoxStart(i) + 3 <==> BoxStart(j) == BoxStart(i)
  {
  }

  /** Two positions lie in one row, one column or one 3x3 box. */
  predicate SameUnit(r1: int, c1: int, r2: int, c2: int)
    requires InGrid(r1, c1) && InGrid(r2, c2)
  {
    r1 == r2 || c1 == c2 || (BoxStart(r1) == BoxStart(r2) && BoxStart(c1) == BoxStart(c2))
  }

  /** (r, c) is one of the 20 peers of (row, col): another position in one of its units. */
  predicate IsPeer(row: int, col: int, r: int, c: int)
    requires InGrid(row, col)
  {
    InGrid(r, c) && (r != row || c != col) && SameUnit(row, col, r, c)
  }

  /** Grid equality from equality of every cell. */
  lemma GridExt(a: IntGrid, b: IntGrid)
    requires IsGrid(a) && IsGrid(b)
    requires forall r, c :: InGrid(r, c) ==> a[r][c] == b[r][c]
    ensures a == b
  {
    forall r | 0 <= r < 9 ensures a[r] == b[r] {
      assert forall c :: 0 <= c < 9 ==> a[r][c] == b[r][c];
    }
  }

  /** The grid with the cell (row, col) set to v. */
  function Place(g: IntGrid, row: int, col: int, v: int): (h: IntGrid)
    requires IsGrid(g) && InGrid(row, col)
    ensures IsGrid(h) && h[row][col] == v
    ensures forall r, c :: InGrid(r, c) && (r != row || c != col) ==> h[r][c] == g[r][c]
  {
    g[row := g[row][col := v]]
  }

  ghost predicate Full(g: IntGrid)
    requires IsGrid(g)
  {
    forall r, c :: InGrid(r, c) ==> g[r][c] != 0
  }

  ghost predicate DigitsOnly(g: IntGrid)
    requires IsGrid(g)
  {
    forall r, c :: InGrid(r, c) ==> 0 <= g[r][c] <= 9
  }

  /** No nonzero value occurs twice in any row, column or box. */
  ghost predicate DuplicateFree(g: IntGrid)
    requires IsGrid(g)
  {
    forall r1, c1, r2, c2 :: InGrid(r1, c1) && IsPeer(r1, c1, r2, c2) && g[r1][c1] != 0 ==> g[r1][c1] != g[r2][c2]
  }

  /** A solved grid: every cell holds a digit 1..9 and no unit repeats one. */
  ghost predicate IsSolution(g: IntGrid) {
    IsGrid(g) && Full(g) && DigitsOnly(g) && DuplicateFree(g)
  }

  /** The all-empty grid. */
  function EmptyGrid(): (g: IntGrid)
    ensures IsGrid(g) && DuplicateFree(g) && DigitsOnly(g)
    ensures forall r, c :: InGrid(r, c) ==> g[r][c] == 0
  {
    seq(9, r => seq(9, c => 0))
  }

  function Column(g: IntGrid, j: int): (s: seq<int>)
    requires IsGrid(g) && 0 <= j < 9
    ensures |s| == 9 && forall r :: 0 <= r < 9 ==> s[r] == g[r][j]
  {
    seq(9, r requires 0 <= r < 9 => g[r][j])
  }

  /** Box b (0..8, row-major over boxes), its nine cells listed row-major. */
  function Box(g: IntGrid, b: int): (s: seq<int>)
    requires IsGrid(g) && 0 <= b < 9
    ensures |s| == 9
    ensures forall k :: 0 <= k < 9 ==> s[k] == g[3 * (b / 3) + k / 3][3 * (b % 3) + k % 3]
  {
    seq(9, k requires 0 <= k < 9 => g[3 * (b / 3) + k / 3][3 * (b % 3) + k % 3])
  }

  /** s holds each digit 1..9 exactly once. */
  ghost predicate IsDigitPermutation(s: seq<int>) {
    && |s| == 9
    && (forall i :: 0 <= i < 9 ==> 1 <= s[i] <= 9)
    && (forall i, j :: 0 <= i < j < 9 ==> s[i] != s[j])
    && (forall d :: 1 <= d <= 9 ==> d in s)
  }

  ghost predicate Distinct<T>(s: seq<T>) {
    forall i, j :: 0 <= i < j < |s| ==> s[i] != s[j]
  }

  ghost function SetOf<T>(s: seq<T>): set<T> {
    set x | x in s
  }

  /** A sequence has at most as many distinct elements as entries, and exactly as many iff no entry repeats. */
  lemma {:induction false} SetOfCard<T>(s: seq<T>)
    ensures |SetOf(s)| <= |s|
    ensures Distinct(s) <==> |SetOf(s)| == |s|
  {
    if s != [] {
      var t := s[1..];
      SetOfCard(t);
      assert SetOf(s) == SetOf(t) + {s[0]} by {
        forall x ensures x in SetOf(s) <==> x in SetOf(t) + {s[0]} {
          if x in s && x != s[0] {
            var i :| 0 <= i < |s| && s[i] == x;
            assert t[i - 1] == x;
          }
        }
      }
      if s[0] in t {
        var j :| 0 <= j < |t| && t[j] == s[0];
        assert s[j + 1] == s[0];
        assert SetOf(s) == SetOf(t);
      } else {
        assert Distinct(s) <==> Distinct(t) by {
          if Distinct(t) {
            forall i, j | 0 <= i < j < |s| ensures s[i] != s[j] {
              if i == 0 {
                assert s[j] == t[j - 1];
              } else {
                assert s[i] == t[i - 1] && s[j] == t[j - 1];
              }
            }
          }
          if Distinct(s) {
            forall i, j | 0 <= i < j < |t| ensures t[i] != t[j] {
              assert t[i] == s[i + 1] && t[j] == s[j + 1];
            }
          }
        }
      }
    }
  }

  lemma SubsetCard<T>(a: set<T>, b: set<T>)
    requires a <= b
    ensures |a| <= |b|
    ensures |a| == |b| ==> a == b
  {
    assert b == a + (b - a);
  }

  /** The integers 1..n. */
  function UpTo(n: nat): (u: set<int>)
    ensures |u| == n && forall x :: x in u <==> 1 <= x <= n
  {
    if n == 0 then {} else UpTo(n - 1) + {n}
  }

  /** Nine distinct digits from 1..9 are all of them (pigeonhole). */
  lemma DistinctDigitsCoverAll(s: seq<int>)
    requires |s| == 9
    requires forall i :: 0 <= i < 9 ==> 1 <= s[i] <= 9
    requires forall i, j :: 0 <= i < j < 9 ==> s[i] != s[j]
    ensures forall d :: 1 <= d <= 9 ==> d in s
  {
    DigitSetIsAll(s);
    forall d | 1 <= d <= 9 ensures d in s {
      assert d in UpTo(9);
      assert d in SetOf(s);
    }
  }

  lemma DigitSetIsAll(s: seq<int>)
    requires |s| == 9 && Distinct(s)
    requires forall i :: 0 <= i < 9 ==> 1 <= s[i] <= 9
    ensures SetOf(s) == UpTo(9)
  {
    SetOfCard(s);
    SubsetCard(SetOf(s), UpTo(9));
  }

  lemma RowIsPermutation(g: IntGrid, i: int)
    requires IsSolution(g) && 0 <= i < 9
    ensures IsDigitPermutation(g[i])
  {
    forall k1, k2 | 0 <= k1 < k2 < 9 ensures g[i][k1] != g[i][k2] {
      assert IsPeer(i, k1, i, k2);
    }
    DistinctDigitsCoverAll(g[i]);
  }

  lemma ColumnIsPermutation(g: IntGrid, j: int)
    requires IsSolution(g) && 0 <= j < 9
    ensures IsDigitPermutation(Column(g, j))
  {
    var s := Column(g, j);
    forall k1, k2 | 0 <= k1 < k2 < 9 ensures s[k1] != s[k2] {
      assert IsPeer(k1, j, k2, j);
    }
    DistinctDigitsCoverAll(s);
  }

  /** The k-th cell of box b and the box start of its coordinates. */
  lemma BoxCell(b: int, k: int)
    requires 0 <= b < 9 && 0 <= k < 9
    ensures InGrid(3 * (b / 3) + k / 3, 3 * (b % 3) + k % 3)
    ensures BoxStart(3 * (b / 3) + k / 3) == 3 * (b / 3)
    ensures BoxStart(3 * (b % 3) + k % 3) == 3 * (b % 3)
  {
  }

  lemma BoxIsPermutation(g: IntGrid, b: int)
    requires IsSolution(g) && 0 <= b < 9
    ensures IsDigitPermutation(Box(g, b))
  {
    var s := Box(g, b);
    forall k1, k2 | 0 <= k1 < k2 < 9 ensures s[k1] != s[k2] {
      BoxCell(b, k1);
      BoxCell(b, k2);
      var r1, c1 := 3 * (b / 3) + k1 / 3, 3 * (b % 3) + k1 % 3;
      var r2, c2 := 3 * (b / 3) + k2 / 3, 3 * (b % 3) + k2 % 3;
      assert k1 == 3 * (k1 / 3) + k1 % 3 && k2 == 3 * (k2 / 3) + k2 % 3;
      assert r1 != r2 || c1 != c2;
      assert IsPeer(r1, c1, r2, c2);
    }
    DistinctDigitsCoverAll(s);
  }

  /** In a solved grid every row, every column and every box is a permutation of 1..9. */
  lemma SolutionUnitsArePermutations(g: IntGrid)
    requires IsSolution(g)
    ensures forall i :: 0 <= i < 9 ==> IsDigitPermutation(g[i])
    ensures forall j :: 0 <= j < 9 ==> IsDigitPermutation(Column(g, j))
    ensures forall b :: 0 <= b < 9 ==> IsDigitPermutation(Box(g, b))
  {
    forall i | 0 <= i < 9 ensures IsDigitPermutation(g[i]) {
      RowIsPermutation(g, i);
    }
    forall j | 0 <= j < 9 ensures IsDigitPermutation(Column(g, j)) {
      ColumnIsPermutation(g, j);
    }
    forall b | 0 <= b < 9 ensures IsDigitPermutation(Box(g, b)) {
      BoxIsPermutation(g, b);
    }
  }
}
