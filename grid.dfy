/**
 * The board as a value: an n-by-n grid of cell codes (0 empty, 1 white 'O', 2 black 'X'),
 * its starting pattern, the piece tallies `checkGame` takes, and the effect of writing one
 * colour over a list of cells, as `checkPut` and `aiPlay` do.
 */
module Grid {

  /** A (row, column) pair. */
  type Pos = (int, int)

  predicate OnBoard(n: int, p: Pos)
  {
    0 <= p.0 < n && 0 <= p.1 < n
  }

  /** n rows of n cells each. */
  ghost predicate WellFormed(g: seq<seq<int>>, n: int)
  {
    |g| == n && forall i :: 0 <= i < n ==> |g[i]| == n
  }

  /** Every cell holds one of the three codes. */
  ghost predicate ValidCells(g: seq<seq<int>>, n: int)
    requires WellFormed(g, n)
  {
    forall i, j :: 0 <= i < n && 0 <= j < n ==> 0 <= g[i][j] <= 2
  }

  /** All positions of an n-by-n board. */
  function AllCells(n: int): (cs: set<Pos>)
    ensures forall p :: p in cs <==> OnBoard(n, p)
  {
    set i, j | 0 <= i < n && 0 <= j < n :: (i, j)
  }

  /** The positions whose cell holds `v`. */
  function CellsWith(g: seq<seq<int>>, n: int, v: int): (cs: set<Pos>)
    requires WellFormed(g, n)
    ensures forall p :: p in cs <==> OnBoard(n, p) && g[p.0][p.1] == v
  {
    set p | p in AllCells(n) && g[p.0][p.1] == v
  }

  /** How many cells hold `v` (the `collections.Counter` entry for `v`). */
  function Tally(g: seq<seq<int>>, n: int, v: int): (k: nat)
    requires WellFormed(g, n)
  {
    |CellsWith(g, n, v)|
  }

  /** `g` with every cell listed in `ps` set to `v`; the order of `ps` is irrelevant. */
  function Painted(g: seq<seq<int>>, ps: seq<Pos>, v: int): (h: seq<seq<int>>)
  {
    seq(|g|, i requires 0 <= i < |g| =>
      seq(|g[i]|, j requires 0 <= j < |g[i]| => if (i, j) in ps then v else g[i][j]))
  }

  /** The starting code of a cell: the two diagonal pairs around the centre, empty elsewhere. */
  function StartCell(n: int, i: int, j: int): (code: int)
  {
    var h := n / 2;
    if (i == h && j == h) || (i == h - 1 && j == h - 1) then 1
    else if (i == h && j == h - 1) || (i == h - 1 && j == h) then 2
    else 0
  }

  function StartGrid(n: nat): (g: seq<seq<int>>)
  {
    seq(n, i requires 0 <= i < n => seq(n, j requires 0 <= j < n => StartCell(n, i, j)))
  }

  /** Two grids of the same shape that agree cell by cell are equal. */
  lemma GridsEqual(g: seq<seq<int>>, h: seq<seq<int>>, n: int)
    requires WellFormed(g, n) && WellFormed(h, n)
    requires forall i, j :: 0 <= i < n && 0 <= j < n ==> g[i][j] == h[i][j]
    ensures g == h
  {
    forall i | 0 <= i < n ensures g[i] == h[i] {
      assert forall j :: 0 <= j < n ==> g[i][j] == h[i][j];
    }
  }

  // ----- counting cells -----

  ghost function RowPrefix(r: int, m: int): set<Pos>
  {
    set j | 0 <= j < m :: (r, j)
  }

  ghost function RowsPrefix(n: int, k: int): set<Pos>
  {
    set i, j | 0 <= i < k && 0 <= j < n :: (i, j)
  }

  lemma {:induction false} RowPrefixCard(r: int, m: nat)
    ensures |RowPrefix(r, m)| == m
  {
    if m > 0 {
      RowPrefixCard(r, m - 1);
      assert RowPrefix(r, m) == RowPrefix(r, m - 1) + {(r, m - 1)};
      assert (r, m - 1) !in RowPrefix(r, m - 1);
    } else {
      assert RowPrefix(r, m) == {};
    }
  }

  lemma {:induction false} RowsPrefixCard(n: nat, k: nat)
    ensures |RowsPrefix(n, k)| == k * n
  {
    if k > 0 {
      RowsPrefixCard(n, k - 1);
      RowPrefixCard(k - 1, n);
      RowsPrefixSplit(n, k);
      MulStep(k, n);
    } else {
      assert RowsPrefix(n, k) == {};
    }
  }

  /** The first k rows are the first k-1 rows and, apart from them, row k-1. */
  lemma RowsPrefixSplit(n: nat, k: nat)
    requires k > 0
    ensures |RowsPrefix(n, k)| == |RowsPrefix(n, k - 1)| + |RowPrefix(k - 1, n)|
  {
    assert RowsPrefix(n, k) == RowsPrefix(n, k - 1) + RowPrefix(k - 1, n);
    assert RowsPrefix(n, k - 1) * RowPrefix(k - 1, n) == {};
  }

  lemma MulStep(k: int, n: int)
    ensures k * n == (k - 1) * n + n
  {
  }

  /** The board has n*n cells. */
  lemma AllCellsCard(n: nat)
    ensures |AllCells(n)| == n * n
  {
    RowsPrefixCard(n, n);
    assert AllCells(n) == RowsPrefix(n, n);
  }

  /**
   * With every cell holding a code, the empty, white and black tallies add up to n*n
   * (the three `Counter` entries `checkGame` reads cover the whole board).
   */
  lemma TallyPartition(g: seq<seq<int>>, n: nat)
    requires WellFormed(g, n) && ValidCells(g, n)
    ensures Tally(g, n, 0) + Tally(g, n, 1) + Tally(g, n, 2) == n * n
  {
    var c0, c1, c2 := CellsWith(g, n, 0), CellsWith(g, n, 1), CellsWith(g, n, 2);
    assert AllCells(n) == c0 + c1 + c2;
    assert c0 * c1 == {} && (c0 + c1) * c2 == {};
    AllCellsCard(n);
  }

  /**
   * The starting grid is n by n; white holds (h,h) and (h-1,h-1), black holds (h,h-1) and
   * (h-1,h) with h = n/2, and the other n*n-4 cells are empty.
   */
  lemma StartTallies(n: nat)
    requires 2 <= n
    ensures var g, h := StartGrid(n), n / 2;
      WellFormed(g, n) && ValidCells(g, n)
      && g[h][h] == 1 && g[h - 1][h - 1] == 1 && g[h][h - 1] == 2 && g[h - 1][h] == 2
      && CellsWith(g, n, 1) == {(h, h), (h - 1, h - 1)}
      && CellsWith(g, n, 2) == {(h, h - 1), (h - 1, h)}
      && Tally(g, n, 1) == 2 && Tally(g, n, 2) == 2 && Tally(g, n, 0) == n * n - 4
  {
    var g, h := StartGrid(n), n / 2;
    assert WellFormed(g, n);
    var whites, blacks := {(h, h), (h - 1, h - 1)}, {(h, h - 1), (h - 1, h)};
    assert CellsWith(g, n, 1) == whites;
    assert CellsWith(g, n, 2) == blacks;
    assert |whites| == 2 && |blacks| == 2;
    TallyPartition(g, n);
  }

  /** Writing a code in 0..2 keeps every cell a code. */
  lemma PaintedKeepsCodes(g: seq<seq<int>>, n: int, ps: seq<Pos>, v: int)
    requires WellFormed(g, n) && ValidCells(g, n) && 0 <= v <= 2
    ensures WellFormed(Painted(g, ps, v), n) && ValidCells(Painted(g, ps, v), n)
  {
  }

  lemma CardRemoveOne(a: set<Pos>, x: Pos)
    requires x in a
    ensures |a - {x}| == |a| - 1
  {
    assert a == (a - {x}) + {x};
  }

  lemma CardDisjointUnion(a: set<Pos>, b: set<Pos>)
    requires a * b == {}
    ensures |a + b| == |a| + |b|
  {
  }

  lemma CardSubset(a: set<Pos>, b: set<Pos>)
    requires b <= a
    ensures |a - b| == |a| - |b|
  {
    assert a == (a - b) + b;
    assert (a - b) * b == {};
  }

  /** Which cells hold which code after writing `v` over `ps` and `t`. */
  lemma PaintMoveCells(g: seq<seq<int>>, n: int, ps: seq<Pos>, t: Pos, v: int)
    requires WellFormed(g, n) && ValidCells(g, n) && (v == 1 || v == 2)
    requires forall p :: p in ps ==> OnBoard(n, p) && g[p.0][p.1] == 3 - v
    requires OnBoard(n, t) && g[t.0][t.1] == 0
    ensures var h, flipped := Painted(g, ps + [t], v), set p | p in ps;
      WellFormed(h, n)
      && CellsWith(h, n, 0) == CellsWith(g, n, 0) - {t}
      && CellsWith(h, n, v) == CellsWith(g, n, v) + flipped + {t}
      && CellsWith(h, n, 3 - v) == CellsWith(g, n, 3 - v) - flipped
  {
    PaintMoveAt(g, n, ps, t, v);
  }

  /** Cell by cell: the flipped cells and the target hold `v`, every other cell is unchanged. */
  lemma PaintMoveAt(g: seq<seq<int>>, n: int, ps: seq<Pos>, t: Pos, v: int)
    requires WellFormed(g, n)
    ensures var h := Painted(g, ps + [t], v);
      WellFormed(h, n)
      && forall q :: OnBoard(n, q) ==> h[q.0][q.1] == if q in ps || q == t then v else g[q.0][q.1]
  {
    var h := Painted(g, ps + [t], v);
    forall q | OnBoard(n, q)
      ensures h[q.0][q.1] == if q in ps || q == t then v else g[q.0][q.1]
    {
      assert (q.0, q.1) == q;
      assert q in ps + [t] <==> q in ps || q == t;
    }
  }

  /**
   * A move that writes colour `v` over opponent cells `ps` and the empty target `t`:
   * the empty count drops by exactly one, colour `v` gains the distinct flipped cells and
   * the target, and the opponent loses the flipped cells.
   */
  lemma PaintMove(g: seq<seq<int>>, n: int, ps: seq<Pos>, t: Pos, v: int)
    requires WellFormed(g, n) && ValidCells(g, n) && (v == 1 || v == 2)
    requires forall p :: p in ps ==> OnBoard(n, p) && g[p.0][p.1] == 3 - v
    requires OnBoard(n, t) && g[t.0][t.1] == 0
    ensures var h, flipped := Painted(g, ps + [t], v), set p | p in ps;
      WellFormed(h, n) && ValidCells(h, n)
      && Tally(h, n, 0) == Tally(g, n, 0) - 1
      && Tally(h, n, v) == Tally(g, n, v) + |flipped| + 1
      && Tally(h, n, 3 - v) == Tally(g, n, 3 - v) - |flipped|
  {
    var h, flipped := Painted(g, ps + [t], v), set p | p in ps;
    PaintedKeepsCodes(g, n, ps + [t], v);
    PaintMoveCells(g, n, ps, t, v);
    var e, mine, theirs := CellsWith(g, n, 0), CellsWith(g, n, v), CellsWith(g, n, 3 - v);
    CardRemoveOne(e, t);
    assert mine * flipped == {};
    CardDisjointUnion(mine, flipped);
    assert t !in mine + flipped;
    CardDisjointUnion(mine + flipped, {t});
    assert flipped <= theirs;
    CardSubset(theirs, flipped);
  }
}
