/**
 * The side-effect-free part of reversi.py: the eight rays, the flip computation
 * (`scoreDirection`, `score`), the greedy choice (`cmp`, `aiPut`) and the two-letter move text.
 * Each function reads the board as a value `g` together with the engine's `n` and `step`.
 */
module Rules {
  import opened Wrappers
  import opened Grid

  /** `Reversi._DIRECTIONS`, in the source's order. */
  const DIRECTIONS: seq<Pos> := [(1, 0), (1, 1), (1, -1), (-1, 0), (-1, 1), (-1, -1), (0, 1), (0, -1)]

  /** A unit step in one of the eight compass directions. */
  predicate IsDirection(d: Pos)
  {
    -1 <= d.0 <= 1 && -1 <= d.1 <= 1 && d != (0, 0)
  }

  lemma DirectionsAreUnitSteps()
    ensures |DIRECTIONS| == 8
    ensures forall d :: d in DIRECTIONS <==> IsDirection(d)
  {
  }

  predicate IsValidPosition(n: int, x: int, y: int)
  {
    OnBoard(n, (x, y))
  }

  function NextPosition(d: Pos, x: int, y: int): (q: Pos)
  {
    (x + d.0, y + d.1)
  }

  /** The colour placed at a given step: `step % 2 + 1`, so step 1 places 2 ('X'). */
  function Color(step: int): (c: int)
    ensures c == 1 || c == 2
  {
    step % 2 + 1
  }

  /** Consecutive steps place opposite colours; steps two apart place the same one. */
  lemma ColorAlternates(step: int)
    ensures Color(step + 1) == 3 - Color(step)
    ensures Color(step - 1) == Color(step + 1)
  {
  }

  /** How many cells a walk from (x, y) along `d` may still visit before it leaves the board. */
  function Dist(n: int, x: int, y: int, d: Pos): int
  {
    if d.0 == 1 then n - x
    else if d.0 == -1 then x + 1
    else if d.1 == 1 then n - y
    else y + 1
  }

  /** Each step of a walk along a direction moves one cell closer to the edge. */
  lemma NextPositionApproachesEdge(n: int, x: int, y: int, d: Pos)
    requires IsDirection(d) && IsValidPosition(n, x, y)
    ensures 0 < Dist(n, x, y, d)
    ensures Dist(n, NextPosition(d, x, y).0, NextPosition(d, x, y).1, d) == Dist(n, x, y, d) - 1
  {
  }

  /**
   * `scoreDirection`: walk from (x, y) along `d`, collecting cells that are neither empty
   * nor `color`; return the collected list when the walk reaches a `color` cell, and `[]`
   * when it leaves the board or reaches an empty cell.
   */
  function ScoreDirection(g: seq<seq<int>>, n: int, x: int, y: int, d: Pos, color: int, turn: seq<Pos>): (run: seq<Pos>)
    requires WellFormed(g, n) && IsDirection(d)
    decreases Dist(n, x, y, d)
  {
    if !IsValidPosition(n, x, y) || g[x][y] == 0 then []
    else if g[x][y] != color then
      var next := NextPosition(d, x, y);
      NextPositionApproachesEdge(n, x, y, d);
      ScoreDirection(g, n, next.0, next.1, d, color, turn + [(x, y)])
    else turn
  }

  /** `score`: the concatenation of the eight rays' results, in direction order. */
  function ScoreRays(g: seq<seq<int>>, n: int, r: int, c: int, color: int, ds: seq<Pos>): (flips: seq<Pos>)
    requires WellFormed(g, n) && forall d :: d in ds ==> IsDirection(d)
  {
    if ds == [] then []
    else ScoreDirection(g, n, r + ds[0].0, c + ds[0].1, ds[0], color, []) + ScoreRays(g, n, r, c, color, ds[1..])
  }

  function Score(g: seq<seq<int>>, n: int, step: int, r: int, c: int): (flips: seq<Pos>)
    requires WellFormed(g, n)
  {
    ScoreRays(g, n, r, c, Color(step), DIRECTIONS)
  }

  // ----- a reference description of the captured cells -----

  /** The cell `i` steps from `s` along `d`. */
  function At(s: Pos, d: Pos, i: int): Pos
  {
    (s.0 + i * d.0, s.1 + i * d.1)
  }

  /** The first `k` cells of the walk from `s` along `d`. */
  function Ray(s: Pos, d: Pos, k: nat): seq<Pos>
  {
    seq(k, i requires 0 <= i < k => At(s, d, i))
  }

  /** A cell on the board that holds a piece other than `color`. */
  ghost predicate Captured(g: seq<seq<int>>, n: int, p: Pos, color: int)
    requires WellFormed(g, n)
  {
    OnBoard(n, p) && g[p.0][p.1] != 0 && g[p.0][p.1] != color
  }

  /** From `s` along `d` lie `k` opponent cells and then a `color` cell. */
  ghost predicate Closes(g: seq<seq<int>>, n: int, s: Pos, d: Pos, color: int, k: nat)
    requires WellFormed(g, n)
  {
    (forall i :: 0 <= i < k ==> Captured(g, n, At(s, d, i), color))
    && OnBoard(n, At(s, d, k)) && g[At(s, d, k).0][At(s, d, k).1] == color
  }

  /** `p` is one of the opponent cells that direction `d` brackets when `color` is placed at (r, c). */
  ghost predicate Flanks(g: seq<seq<int>>, n: int, color: int, r: int, c: int, d: Pos, p: Pos)
    requires WellFormed(g, n)
  {
    exists k: nat :: Closes(g, n, NextPosition(d, r, c), d, color, k) && p in Ray(NextPosition(d, r, c), d, k)
  }

  ghost predicate Flanked(g: seq<seq<int>>, n: int, color: int, r: int, c: int, p: Pos)
    requires WellFormed(g, n)
  {
    exists d :: d in DIRECTIONS && Flanks(g, n, color, r, c, d, p)
  }

  /** A ray is closed by at most one own-colour cell: the first one. */
  lemma ClosesUnique(g: seq<seq<int>>, n: int, s: Pos, d: Pos, color: int, k1: nat, k2: nat)
    requires WellFormed(g, n)
    requires Closes(g, n, s, d, color, k1) && Closes(g, n, s, d, color, k2)
    ensures k1 == k2
  {
  }

  /** Stepping past a captured first cell shortens the closed run by one. */
  lemma ShiftCloses(g: seq<seq<int>>, n: int, s: Pos, d: Pos, color: int, k: nat)
    requires WellFormed(g, n) && Captured(g, n, s, color)
    ensures Closes(g, n, NextPosition(d, s.0, s.1), d, color, k) <==> Closes(g, n, s, d, color, k + 1)
    ensures Ray(s, d, k + 1) == [s] + Ray(NextPosition(d, s.0, s.1), d, k)
  {
    var t := NextPosition(d, s.0, s.1);
    forall i ensures At(s, d, i + 1) == At(t, d, i) {
    }
    assert At(s, d, 0) == s;
    if Closes(g, n, t, d, color, k) {
      forall i | 0 <= i < k + 1 ensures Captured(g, n, At(s, d, i), color) {
        if i > 0 {
          assert At(s, d, i) == At(t, d, i - 1);
        }
      }
    }
    if Closes(g, n, s, d, color, k + 1) {
      forall i | 0 <= i < k ensures Captured(g, n, At(t, d, i), color) {
        assert At(s, d, i + 1) == At(t, d, i);
      }
    }
  }

  /** No run closes from a cell that is off the board or empty. */
  lemma NothingClosesFromVoid(g: seq<seq<int>>, n: int, s: Pos, d: Pos, color: int)
    requires WellFormed(g, n) && (color == 1 || color == 2)
    requires !OnBoard(n, s) || g[s.0][s.1] == 0
    ensures forall k: nat :: !Closes(g, n, s, d, color, k)
  {
    assert At(s, d, 0) == s;
    forall k: nat ensures !Closes(g, n, s, d, color, k) {
      if k > 0 {
        assert !Captured(g, n, At(s, d, 0), color);
      }
    }
  }

  /** What holds of the walk from the next cell, with `s` collected, holds of the walk from a captured `s`. */
  lemma ExtendPastCaptured(g: seq<seq<int>>, n: int, s: Pos, d: Pos, color: int, turn: seq<Pos>, r: seq<Pos>)
    requires WellFormed(g, n) && Captured(g, n, s, color)
    requires var t := NextPosition(d, s.0, s.1);
      (exists k: nat :: Closes(g, n, t, d, color, k) && r == turn + [s] + Ray(t, d, k))
      || (r == [] && forall k: nat :: !Closes(g, n, t, d, color, k))
    ensures (exists k: nat :: Closes(g, n, s, d, color, k) && r == turn + Ray(s, d, k))
      || (r == [] && forall k: nat :: !Closes(g, n, s, d, color, k))
  {
    var t := NextPosition(d, s.0, s.1);
    if k': nat :| Closes(g, n, t, d, color, k') && r == turn + [s] + Ray(t, d, k') {
      ShiftCloses(g, n, s, d, color, k');
      assert r == turn + Ray(s, d, k' + 1);
    } else {
      assert At(s, d, 0) == s;
      forall k: nat ensures !Closes(g, n, s, d, color, k) {
        if k > 0 {
          ShiftCloses(g, n, s, d, color, k - 1);
        }
      }
    }
  }

  /**
   * The exact result of `scoreDirection`: the accumulator followed by the run of opponent
   * cells when an own-colour cell closes the run (an adjacent own-colour cell closes an empty
   * run), and `[]`, discarding the accumulator, when no own-colour cell does.
   */
  lemma {:induction false} ScoreDirectionExact(g: seq<seq<int>>, n: int, x: int, y: int, d: Pos, color: int, turn: seq<Pos>)
    requires WellFormed(g, n) && IsDirection(d) && (color == 1 || color == 2)
    ensures var r := ScoreDirection(g, n, x, y, d, color, turn);
      (exists k: nat :: Closes(g, n, (x, y), d, color, k) && r == turn + Ray((x, y), d, k))
      || (r == [] && forall k: nat :: !Closes(g, n, (x, y), d, color, k))
    decreases Dist(n, x, y, d)
  {
    var s := (x, y);
    if !IsValidPosition(n, x, y) || g[x][y] == 0 {
      NothingClosesFromVoid(g, n, s, d, color);
    } else if g[x][y] != color {
      var next := NextPosition(d, x, y);
      NextPositionApproachesEdge(n, x, y, d);
      ScoreDirectionExact(g, n, next.0, next.1, d, color, turn + [s]);
      assert next == (next.0, next.1);
      ExtendPastCaptured(g, n, s, d, color, turn, ScoreDirection(g, n, x, y, d, color, turn));
    } else {
      assert At(s, d, 0) == s;
      assert Closes(g, n, s, d, color, 0);
      assert turn + Ray(s, d, 0) == turn;
    }
  }

  /** One ray's result holds exactly the cells that direction brackets. */
  lemma RayFlanks(g: seq<seq<int>>, n: int, color: int, r: int, c: int, d: Pos, p: Pos)
    requires WellFormed(g, n) && IsDirection(d) && (color == 1 || color == 2)
    ensures p in ScoreDirection(g, n, r + d.0, c + d.1, d, color, []) <==> Flanks(g, n, color, r, c, d, p)
  {
    var s := NextPosition(d, r, c);
    ScoreDirectionExact(g, n, s.0, s.1, d, color, []);
    assert s == (s.0, s.1);
    var res := ScoreDirection(g, n, s.0, s.1, d, color, []);
    if k: nat :| Closes(g, n, s, d, color, k) && res == [] + Ray(s, d, k) {
      assert res == Ray(s, d, k);
      if Flanks(g, n, color, r, c, d, p) {
        var k2: nat :| Closes(g, n, s, d, color, k2) && p in Ray(s, d, k2);
        ClosesUnique(g, n, s, d, color, k, k2);
      }
    }
  }

  lemma {:induction false} ScoreRaysFlanked(g: seq<seq<int>>, n: int, color: int, r: int, c: int, ds: seq<Pos>, p: Pos)
    requires WellFormed(g, n) && (forall d :: d in ds ==> IsDirection(d)) && (color == 1 || color == 2)
    ensures p in ScoreRays(g, n, r, c, color, ds) <==> exists d :: d in ds && Flanks(g, n, color, r, c, d, p)
  {
    if ds != [] {
      RayFlanks(g, n, color, r, c, ds[0], p);
      ScoreRaysFlanked(g, n, color, r, c, ds[1..], p);
      if d :| d in ds && Flanks(g, n, color, r, c, d, p) {
        if d != ds[0] {
          assert d in ds[1..];
        }
      }
    }
  }

  /** `score(r, c)` lists exactly the opponent cells bracketed by a placement at (r, c). */
  lemma ScoreExact(g: seq<seq<int>>, n: int, step: int, r: int, c: int, p: Pos)
    requires WellFormed(g, n)
    ensures p in Score(g, n, step, r, c) <==> Flanked(g, n, Color(step), r, c, p)
  {
    ScoreRaysFlanked(g, n, Color(step), r, c, DIRECTIONS, p);
  }

  /** Every cell `score` returns is on the board and holds the opponent colour `3 - (step % 2 + 1)`. */
  lemma ScoreOpponents(g: seq<seq<int>>, n: int, step: int, r: int, c: int)
    requires WellFormed(g, n) && ValidCells(g, n)
    ensures forall p :: p in Score(g, n, step, r, c) ==> OnBoard(n, p) && g[p.0][p.1] == 3 - Color(step)
  {
    forall p | p in Score(g, n, step, r, c) ensures OnBoard(n, p) && g[p.0][p.1] == 3 - Color(step) {
      ScoreExact(g, n, step, r, c, p);
      var d :| d in DIRECTIONS && Flanks(g, n, Color(step), r, c, d, p);
      var s := NextPosition(d, r, c);
      var k: nat :| Closes(g, n, s, d, Color(step), k) && p in Ray(s, d, k);
      var i :| 0 <= i < k && Ray(s, d, k)[i] == p;
      assert Captured(g, n, At(s, d, i), Color(step));
    }
  }

  /** No position occurs twice. */
  ghost predicate NoDuplicates(ps: seq<Pos>)
  {
    forall i, j :: 0 <= i < j < |ps| ==> ps[i] != ps[j]
  }

  /** Walking along a unit direction never revisits a cell. */
  lemma AtInjective(s: Pos, d: Pos, i: int, j: int)
    requires IsDirection(d) && At(s, d, i) == At(s, d, j)
    ensures i == j
  {
    if d.0 == 1 {
    } else if d.0 == -1 {
    } else if d.1 == 1 {
    } else {
    }
  }

  lemma RayNoDuplicates(s: Pos, d: Pos, k: nat)
    requires IsDirection(d)
    ensures NoDuplicates(Ray(s, d, k))
  {
    forall i, j | 0 <= i < j < k ensures Ray(s, d, k)[i] != Ray(s, d, k)[j] {
      if At(s, d, i) == At(s, d, j) {
        AtInjective(s, d, i, j);
      }
    }
  }

  /** Two unit directions that reach the same offset in a positive number of steps are the same. */
  lemma SameOffset(d1: Pos, d2: Pos, i: int, j: int)
    requires IsDirection(d1) && IsDirection(d2) && 0 <= i && 0 <= j
    requires d1.0 + i * d1.0 == d2.0 + j * d2.0 && d1.1 + i * d1.1 == d2.1 + j * d2.1
    ensures d1 == d2
  {
    if d1.0 == 0 {
      if d2.0 == 1 {
      } else if d2.0 == -1 {
      }
    } else if d1.0 == 1 {
      if d2.0 == 0 {
      } else if d2.0 == -1 {
      }
    } else {
      if d2.0 == 0 {
      } else if d2.0 == 1 {
      }
    }
  }

  /** A cell bracketed along `d` from (r, c) is a positive number of steps away along `d`. */
  lemma FlanksOffset(g: seq<seq<int>>, n: int, color: int, r: int, c: int, d: Pos, p: Pos)
    requires WellFormed(g, n) && Flanks(g, n, color, r, c, d, p)
    ensures exists i :: 0 <= i && p == At(NextPosition(d, r, c), d, i)
  {
    var s := NextPosition(d, r, c);
    var k: nat :| Closes(g, n, s, d, color, k) && p in Ray(s, d, k);
    var i :| 0 <= i < k && Ray(s, d, k)[i] == p;
  }

  /** A cell bracketed by a placement at (r, c) lies in one direction from it only. */
  lemma FlanksOneDirection(g: seq<seq<int>>, n: int, color: int, r: int, c: int, d1: Pos, d2: Pos, p: Pos)
    requires WellFormed(g, n) && IsDirection(d1) && IsDirection(d2)
    requires Flanks(g, n, color, r, c, d1, p) && Flanks(g, n, color, r, c, d2, p)
    ensures d1 == d2
  {
    FlanksOffset(g, n, color, r, c, d1, p);
    FlanksOffset(g, n, color, r, c, d2, p);
    var i :| 0 <= i && p == At(NextPosition(d1, r, c), d1, i);
    var j :| 0 <= j && p == At(NextPosition(d2, r, c), d2, j);
    SameOffset(d1, d2, i, j);
  }

  lemma ConcatNoDuplicates(a: seq<Pos>, b: seq<Pos>)
    requires NoDuplicates(a) && NoDuplicates(b) && forall p :: p in a ==> p !in b
    ensures NoDuplicates(a + b)
  {
    var ab := a + b;
    forall i, j | 0 <= i < j < |ab| ensures ab[i] != ab[j] {
      if i < |a| && |a| <= j {
        assert ab[i] in a && ab[j] == b[j - |a|];
      } else if |a| <= i {
        assert ab[i] == b[i - |a|] && ab[j] == b[j - |a|];
      }
    }
  }

  /** A ray shares no cell with the rays of other directions from the same placement. */
  lemma RayApart(g: seq<seq<int>>, n: int, r: int, c: int, color: int, d: Pos, rest: seq<Pos>)
    requires WellFormed(g, n) && IsDirection(d) && (forall e :: e in rest ==> IsDirection(e)) && (color == 1 || color == 2)
    requires d !in rest
    ensures forall p :: p in ScoreDirection(g, n, r + d.0, c + d.1, d, color, []) ==> p !in ScoreRays(g, n, r, c, color, rest)
  {
    forall p | p in ScoreDirection(g, n, r + d.0, c + d.1, d, color, []) ensures p !in ScoreRays(g, n, r, c, color, rest) {
      RayFlanks(g, n, color, r, c, d, p);
      ScoreRaysFlanked(g, n, color, r, c, rest, p);
      forall e | e in rest && Flanks(g, n, color, r, c, e, p) ensures false {
        FlanksOneDirection(g, n, color, r, c, d, e, p);
      }
    }
  }

  /** One ray lists each cell once. */
  lemma ScoreDirectionNoDuplicates(g: seq<seq<int>>, n: int, r: int, c: int, color: int, d: Pos)
    requires WellFormed(g, n) && IsDirection(d) && (color == 1 || color == 2)
    ensures NoDuplicates(ScoreDirection(g, n, r + d.0, c + d.1, d, color, []))
  {
    var s := NextPosition(d, r, c);
    var a := ScoreDirection(g, n, s.0, s.1, d, color, []);
    ScoreDirectionExact(g, n, s.0, s.1, d, color, []);
    if k: nat :| Closes(g, n, (s.0, s.1), d, color, k) && a == [] + Ray((s.0, s.1), d, k) {
      RayNoDuplicates((s.0, s.1), d, k);
      assert a == Ray((s.0, s.1), d, k);
    }
  }

  /** Over pairwise different directions, the concatenated rays list every cell once. */
  lemma {:induction false} ScoreRaysNoDuplicates(g: seq<seq<int>>, n: int, r: int, c: int, color: int, ds: seq<Pos>)
    requires WellFormed(g, n) && (forall d :: d in ds ==> IsDirection(d)) && (color == 1 || color == 2)
    requires forall i, j :: 0 <= i < j < |ds| ==> ds[i] != ds[j]
    ensures NoDuplicates(ScoreRays(g, n, r, c, color, ds))
  {
    if ds != [] {
      var d, rest := ds[0], ds[1..];
      forall i, j | 0 <= i < j < |rest| ensures rest[i] != rest[j] {
        assert rest[i] == ds[i + 1] && rest[j] == ds[j + 1];
      }
      assert d !in rest by {
        forall m | 0 <= m < |rest| ensures rest[m] != d {
          assert rest[m] == ds[m + 1];
        }
      }
      ScoreDirectionNoDuplicates(g, n, r, c, color, d);
      ScoreRaysNoDuplicates(g, n, r, c, color, rest);
      RayApart(g, n, r, c, color, d, rest);
      ConcatNoDuplicates(ScoreDirection(g, n, r + d.0, c + d.1, d, color, []), ScoreRays(g, n, r, c, color, rest));
    }
  }

  /** `score` lists each flipped cell once: its length is the number of pieces the move flips. */
  lemma ScoreNoDuplicates(g: seq<seq<int>>, n: int, step: int, r: int, c: int)
    requires WellFormed(g, n)
    ensures NoDuplicates(Score(g, n, step, r, c))
  {
    ScoreRaysNoDuplicates(g, n, r, c, Color(step), DIRECTIONS);
  }

  /** A placement that flips something has a closed run of at least one opponent cell. */
  lemma LegalHasClosedRun(g: seq<seq<int>>, n: int, step: int, r: int, c: int)
    requires WellFormed(g, n) && Score(g, n, step, r, c) != []
    ensures exists d, k: nat :: d in DIRECTIONS && 1 <= k && Closes(g, n, NextPosition(d, r, c), d, Color(step), k)
  {
    var p := Score(g, n, step, r, c)[0];
    ScoreExact(g, n, step, r, c, p);
    var d :| d in DIRECTIONS && Flanks(g, n, Color(step), r, c, d, p);
    var k: nat :| Closes(g, n, NextPosition(d, r, c), d, Color(step), k) && p in Ray(NextPosition(d, r, c), d, k);
  }

  /** A closed run of at least one opponent cell in some direction makes the placement flip something. */
  lemma ClosedRunIsLegal(g: seq<seq<int>>, n: int, step: int, r: int, c: int, d: Pos, k: nat)
    requires WellFormed(g, n) && d in DIRECTIONS && 1 <= k
    requires Closes(g, n, NextPosition(d, r, c), d, Color(step), k)
    ensures Score(g, n, step, r, c) != []
  {
    var s := NextPosition(d, r, c);
    var p := At(s, d, 0);
    assert Ray(s, d, k)[0] == p;
    assert Flanks(g, n, Color(step), r, c, d, p);
    ScoreExact(g, n, step, r, c, p);
  }

  // ----- greedy choice -----

  /** Python's tuple order on positions: by row, then by column. */
  predicate Before(p: Pos, q: Pos)
  {
    p.0 < q.0 || (p.0 == q.0 && p.1 < q.1)
  }

  ghost predicate Sorted(ps: seq<Pos>)
  {
    forall i, j :: 0 <= i < j < |ps| ==> Before(ps[i], ps[j])
  }

  /** `itertools.product(range(n), repeat=2)` from (row, col) onwards, in row-major order. */
  function ProductFrom(n: int, row: int, col: int): seq<Pos>
    requires 0 <= row && 0 <= col
    decreases n - row, n - col
  {
    if row >= n then []
    else if col >= n then ProductFrom(n, row + 1, 0)
    else [(row, col)] + ProductFrom(n, row, col + 1)
  }

  /** The positions from (row, col) onwards are the board cells not before (row, col). */
  lemma {:induction false} ProductFromMembers(n: int, row: int, col: int)
    requires 0 <= row && 0 <= col
    ensures forall p :: p in ProductFrom(n, row, col) <==> OnBoard(n, p) && (row < p.0 || (row == p.0 && col <= p.1))
    decreases n - row, n - col
  {
    if row < n {
      if col >= n {
        ProductFromMembers(n, row + 1, 0);
      } else {
        ProductFromMembers(n, row, col + 1);
      }
    }
  }

  function Product(n: int): (ps: seq<Pos>)
    ensures forall p :: p in ps <==> OnBoard(n, p)
  {
    ProductFromMembers(n, 0, 0);
    ProductFrom(n, 0, 0)
  }

  /** Putting a position before a sorted list of later positions keeps it sorted. */
  lemma ConsSorted(p: Pos, rest: seq<Pos>)
    requires Sorted(rest) && forall q :: q in rest ==> Before(p, q)
    ensures Sorted([p] + rest)
  {
    var ps := [p] + rest;
    forall i, j | 0 <= i < j < |ps| ensures Before(ps[i], ps[j]) {
      assert ps[j] == rest[j - 1];
      if i > 0 {
        assert ps[i] == rest[i - 1];
      }
    }
  }

  lemma ProductFromAfter(n: int, row: int, col: int)
    requires 0 <= row && 0 <= col
    ensures forall q :: q in ProductFrom(n, row, col + 1) ==> Before((row, col), q)
  {
    ProductFromMembers(n, row, col + 1);
  }

  lemma {:induction false} ProductFromSorted(n: int, row: int, col: int)
    requires 0 <= row && 0 <= col
    ensures Sorted(ProductFrom(n, row, col))
    decreases n - row, n - col
  {
    if row >= n {
    } else if col >= n {
      ProductFromSorted(n, row + 1, 0);
    } else {
      ProductFromSorted(n, row, col + 1);
      ProductFromAfter(n, row, col);
      ConsSorted((row, col), ProductFrom(n, row, col + 1));
    }
  }

  /** `filter(lambda pos: board[pos[0]][pos[1]] == 0, ps)`. */
  function EmptyCells(g: seq<seq<int>>, n: int, ps: seq<Pos>): (es: seq<Pos>)
    requires WellFormed(g, n) && forall p :: p in ps ==> OnBoard(n, p)
    ensures forall p :: p in es <==> p in ps && OnBoard(n, p) && g[p.0][p.1] == 0
  {
    if ps == [] then []
    else
      assert ps[0] in ps;
      assert OnBoard(n, ps[0]);
      assert |g| == n && |g[ps[0].0]| == n;
      (if g[ps[0].0][ps[0].1] == 0 then [ps[0]] else []) + EmptyCells(g, n, ps[1..])
  }

  lemma {:induction false} EmptyCellsSorted(g: seq<seq<int>>, n: int, ps: seq<Pos>)
    requires WellFormed(g, n) && (forall p :: p in ps ==> OnBoard(n, p)) && Sorted(ps)
    ensures Sorted(EmptyCells(g, n, ps))
  {
    if ps != [] {
      assert ps[0] in ps;
      EmptyCellsSorted(g, n, ps[1..]);
      var rest := EmptyCells(g, n, ps[1..]);
      if g[ps[0].0][ps[0].1] == 0 {
        forall q | q in rest ensures Before(ps[0], q) {
          var m :| 0 <= m < |ps[1..]| && ps[1..][m] == q;
          assert ps[m + 1] == q;
        }
        ConsSorted(ps[0], rest);
      }
    }
  }

  /** A candidate move `[pos, flips]`; `pos == None` is the initial accumulator's `()`. */
  datatype Candidate = Candidate(pos: Option<Pos>, flips: seq<Pos>)

  /** Python's `a < b` between `()` and position tuples: `()` precedes every position. */
  predicate PosLess(a: Option<Pos>, b: Option<Pos>)
  {
    match (a, b)
    case (None, Some(_)) => true
    case (Some(p), Some(q)) => Before(p, q)
    case _ => false
  }

  /** `cmp`: keep the candidate with more flips; on a tie keep `a` only when its position is smaller. */
  function Cmp(a: Candidate, b: Candidate): (r: Candidate)
    ensures r == a || r == b
    ensures |r.flips| >= |a.flips| && |r.flips| >= |b.flips|
  {
    if |a.flips| > |b.flips| then a
    else if |a.flips| == |b.flips| && PosLess(a.pos, b.pos) then a
    else b
  }

  /** `functools.reduce(cmp, xs, acc)`. */
  function Reduce(acc: Candidate, xs: seq<Candidate>): (best: Candidate)
    decreases |xs|
  {
    if xs == [] then acc else Reduce(Cmp(acc, xs[0]), xs[1..])
  }

  /** `map(lambda pos: [pos, score(pos[0], pos[1])], ps)`. */
  function ScoreAll(g: seq<seq<int>>, n: int, step: int, ps: seq<Pos>): (xs: seq<Candidate>)
    requires WellFormed(g, n)
  {
    seq(|ps|, i requires 0 <= i < |ps| => Candidate(Some(ps[i]), Score(g, n, step, ps[i].0, ps[i].1)))
  }

  /** `aiPut`: fold `cmp` over the empty cells in row-major order, starting from `((), [])`. */
  function AiPut(g: seq<seq<int>>, n: int, step: int): (m: Candidate)
    requires WellFormed(g, n)
  {
    Reduce(Candidate(None, []), EmptyCandidates(g, n, step))
  }

  /** Candidate positions increase along `xs`, and all come after the accumulator's. */
  ghost predicate Increasing(acc: Candidate, xs: seq<Candidate>)
  {
    (forall i, j :: 0 <= i < j < |xs| ==> PosLess(xs[i].pos, xs[j].pos))
    && forall i :: 0 <= i < |xs| ==> PosLess(acc.pos, xs[i].pos)
  }

  /** `r` is the accumulator, and no candidate has more flips. */
  ghost predicate KeepsAcc(acc: Candidate, xs: seq<Candidate>, r: Candidate)
  {
    r == acc && forall i :: 0 <= i < |xs| ==> |xs[i].flips| <= |acc.flips|
  }

  /** `r` is `xs[k]`, the first candidate of maximal length, and longer than the accumulator. */
  ghost predicate FirstLongestAt(acc: Candidate, xs: seq<Candidate>, r: Candidate, k: int)
  {
    0 <= k < |xs| && r == xs[k] && |acc.flips| < |r.flips|
    && (forall i :: 0 <= i < k ==> |xs[i].flips| < |r.flips|)
    && (forall i :: 0 <= i < |xs| ==> |xs[i].flips| <= |r.flips|)
  }

  ghost predicate FoldResult(acc: Candidate, xs: seq<Candidate>, r: Candidate)
  {
    KeepsAcc(acc, xs, r) || exists k :: FirstLongestAt(acc, xs, r, k)
  }

  /** After one `cmp` the survivor still precedes the remaining candidates. */
  lemma IncreasingTail(acc: Candidate, xs: seq<Candidate>)
    requires Increasing(acc, xs) && xs != []
    ensures Increasing(Cmp(acc, xs[0]), xs[1..])
  {
    var a', rest := Cmp(acc, xs[0]), xs[1..];
    forall i | 0 <= i < |rest| ensures PosLess(a'.pos, rest[i].pos) {
      assert rest[i] == xs[i + 1];
    }
    forall i, j | 0 <= i < j < |rest| ensures PosLess(rest[i].pos, rest[j].pos) {
      assert rest[i] == xs[i + 1] && rest[j] == xs[j + 1];
    }
  }

  /** What the fold over the tail gives, from the survivor of the first `cmp`, carries over to the whole list. */
  lemma FoldStep(acc: Candidate, xs: seq<Candidate>, r: Candidate)
    requires xs != [] && PosLess(acc.pos, xs[0].pos)
    requires FoldResult(Cmp(acc, xs[0]), xs[1..], r)
    ensures FoldResult(acc, xs, r)
  {
    var a', rest := Cmp(acc, xs[0]), xs[1..];
    assert a' == if |acc.flips| >= |xs[0].flips| then acc else xs[0];
    if KeepsAcc(a', rest, r) {
      forall i | 0 < i < |xs| ensures |xs[i].flips| <= |a'.flips| {
        assert xs[i] == rest[i - 1];
      }
      if |acc.flips| >= |xs[0].flips| {
        assert KeepsAcc(acc, xs, r);
      } else {
        assert FirstLongestAt(acc, xs, r, 0);
      }
    } else {
      var k' :| FirstLongestAt(a', rest, r, k');
      forall i | 0 < i < |xs| ensures |xs[i].flips| <= |r.flips| && (i < k' + 1 ==> |xs[i].flips| < |r.flips|) {
        assert xs[i] == rest[i - 1];
      }
      assert FirstLongestAt(acc, xs, r, k' + 1);
    }
  }

  /**
   * Over candidates in increasing position order, all after the accumulator, the fold keeps
   * the accumulator when nothing has more flips, and otherwise returns the first candidate
   * of maximal length.
   */
  lemma {:induction false} ReduceKeepsFirstLongest(acc: Candidate, xs: seq<Candidate>)
    requires Increasing(acc, xs)
    ensures FoldResult(acc, xs, Reduce(acc, xs))
    decreases |xs|
  {
    if xs == [] {
      assert KeepsAcc(acc, xs, Reduce(acc, xs));
    } else {
      IncreasingTail(acc, xs);
      ReduceKeepsFirstLongest(Cmp(acc, xs[0]), xs[1..]);
      FoldStep(acc, xs, Reduce(acc, xs));
    }
  }

  /** An empty cell of the board. */
  ghost predicate IsEmptyCell(g: seq<seq<int>>, n: int, q: Pos)
    requires WellFormed(g, n)
  {
    OnBoard(n, q) && g[q.0][q.1] == 0
  }

  /** The empty cells in row-major order, each with its flip list. */
  function EmptyCandidates(g: seq<seq<int>>, n: int, step: int): (xs: seq<Candidate>)
    requires WellFormed(g, n)
  {
    ScoreAll(g, n, step, EmptyCells(g, n, Product(n)))
  }

  /** Each candidate `aiPut` folds over is an empty cell with its flip list; every empty cell occurs; positions increase. */
  lemma EmptyCandidatesFacts(g: seq<seq<int>>, n: int, step: int)
    requires WellFormed(g, n)
    ensures var es, xs := EmptyCells(g, n, Product(n)), EmptyCandidates(g, n, step);
      |xs| == |es|
      && (forall i :: 0 <= i < |xs| ==>
            xs[i].pos == Some(es[i]) && IsEmptyCell(g, n, es[i]) && xs[i].flips == Score(g, n, step, es[i].0, es[i].1))
      && (forall q :: IsEmptyCell(g, n, q) ==> exists i :: 0 <= i < |es| && es[i] == q)
      && Increasing(Candidate(None, []), xs)
  {
    var es := EmptyCells(g, n, Product(n));
    ProductFromSorted(n, 0, 0);
    EmptyCellsSorted(g, n, Product(n));
    forall i | 0 <= i < |es| ensures IsEmptyCell(g, n, es[i]) {
      assert es[i] in es;
    }
    forall q | IsEmptyCell(g, n, q) ensures exists i :: 0 <= i < |es| && es[i] == q {
      assert q in es;
    }
  }

  /** When no candidate has flips, no empty cell has any. */
  lemma NoCandidateNoMove(g: seq<seq<int>>, n: int, step: int)
    requires WellFormed(g, n)
    requires forall i :: 0 <= i < |EmptyCandidates(g, n, step)| ==> |EmptyCandidates(g, n, step)[i].flips| <= 0
    ensures forall q :: IsEmptyCell(g, n, q) ==> Score(g, n, step, q.0, q.1) == []
  {
    EmptyCandidatesFacts(g, n, step);
    var es, xs := EmptyCells(g, n, Product(n)), EmptyCandidates(g, n, step);
    forall q | IsEmptyCell(g, n, q) ensures Score(g, n, step, q.0, q.1) == [] {
      var i :| 0 <= i < |es| && es[i] == q;
      assert |xs[i].flips| <= 0;
    }
  }

  /** The first candidate of maximal length beats every empty cell, strictly so for earlier ones. */
  lemma FirstLongestIsBest(g: seq<seq<int>>, n: int, step: int, k: int, m: Candidate)
    requires WellFormed(g, n)
    requires var xs := EmptyCandidates(g, n, step);
      0 <= k < |xs| && m == xs[k]
      && (forall i :: 0 <= i < k ==> |xs[i].flips| < |m.flips|)
      && (forall i :: 0 <= i < |xs| ==> |xs[i].flips| <= |m.flips|)
    ensures m.pos.Some? && IsEmptyCell(g, n, m.pos.value)
      && m.flips == Score(g, n, step, m.pos.value.0, m.pos.value.1)
      && (forall q :: IsEmptyCell(g, n, q) ==> |Score(g, n, step, q.0, q.1)| <= |m.flips|)
      && (forall q :: IsEmptyCell(g, n, q) && Before(q, m.pos.value) ==> |Score(g, n, step, q.0, q.1)| < |m.flips|)
  {
    EmptyCandidatesFacts(g, n, step);
    var es, xs := EmptyCells(g, n, Product(n)), EmptyCandidates(g, n, step);
    var p := es[k];
    forall q | IsEmptyCell(g, n, q)
      ensures |Score(g, n, step, q.0, q.1)| <= |xs[k].flips|
      ensures Before(q, p) ==> |Score(g, n, step, q.0, q.1)| < |xs[k].flips|
    {
      var i :| 0 <= i < |es| && es[i] == q;
      assert xs[i].flips == Score(g, n, step, q.0, q.1);
      if k < i {
        assert PosLess(xs[k].pos, xs[i].pos);
      }
    }
  }

  /** A cell with flips is a witness against the no-move case. */
  lemma SomeMoveWitness(g: seq<seq<int>>, n: int, step: int, p: Pos)
    requires WellFormed(g, n) && IsEmptyCell(g, n, p) && Score(g, n, step, p.0, p.1) != []
    ensures !(forall q :: IsEmptyCell(g, n, q) ==> Score(g, n, step, q.0, q.1) == [])
  {
  }

  /**
   * What `aiPut` promises of its result `m`: `((), [])` exactly when no empty cell flips
   * anything; otherwise an empty cell with its own flip list, of maximal length among empty
   * cells, and strictly longer than that of every row-major earlier empty cell.
   */
  ghost predicate GreedyChoice(g: seq<seq<int>>, n: int, step: int, m: Candidate)
    requires WellFormed(g, n)
  {
    (m.pos.None? <==> m.flips == [])
    && (m.pos.None? <==> forall q :: IsEmptyCell(g, n, q) ==> Score(g, n, step, q.0, q.1) == [])
    && (m.pos.Some? ==>
          IsEmptyCell(g, n, m.pos.value)
          && m.flips == Score(g, n, step, m.pos.value.0, m.pos.value.1)
          && (forall q :: IsEmptyCell(g, n, q) ==> |Score(g, n, step, q.0, q.1)| <= |m.flips|)
          && (forall q :: IsEmptyCell(g, n, q) && Before(q, m.pos.value) ==> |Score(g, n, step, q.0, q.1)| < |m.flips|))
  }

  /** The fold kept the initial `((), [])` because no candidate has flips. */
  lemma GreedyWhenNoMove(g: seq<seq<int>>, n: int, step: int, m: Candidate)
    requires WellFormed(g, n) && KeepsAcc(Candidate(None, []), EmptyCandidates(g, n, step), m)
    ensures GreedyChoice(g, n, step, m)
  {
    NoCandidateNoMove(g, n, step);
  }

  /** The fold returned the first candidate of maximal, non-zero length. */
  lemma GreedyWhenMove(g: seq<seq<int>>, n: int, step: int, k: int, m: Candidate)
    requires WellFormed(g, n) && FirstLongestAt(Candidate(None, []), EmptyCandidates(g, n, step), m, k)
    ensures GreedyChoice(g, n, step, m)
  {
    FirstLongestIsBest(g, n, step, k, m);
    SomeMoveWitness(g, n, step, m.pos.value);
  }

  /** Whatever the fold over the empty cells returns is the greedy choice. */
  lemma FoldIsGreedy(g: seq<seq<int>>, n: int, step: int, m: Candidate)
    requires WellFormed(g, n) && FoldResult(Candidate(None, []), EmptyCandidates(g, n, step), m)
    ensures GreedyChoice(g, n, step, m)
  {
    if KeepsAcc(Candidate(None, []), EmptyCandidates(g, n, step), m) {
      GreedyWhenNoMove(g, n, step, m);
    } else {
      var k :| FirstLongestAt(Candidate(None, []), EmptyCandidates(g, n, step), m, k);
      GreedyWhenMove(g, n, step, k, m);
    }
  }

  /** `aiPut` makes the greedy choice. */
  lemma AiPutIsGreedy(g: seq<seq<int>>, n: int, step: int)
    requires WellFormed(g, n)
    ensures GreedyChoice(g, n, step, AiPut(g, n, step))
  {
    EmptyCandidatesFacts(g, n, step);
    ReduceKeepsFirstLongest(Candidate(None, []), EmptyCandidates(g, n, step));
    FoldIsGreedy(g, n, step, AiPut(g, n, step));
  }

  /** When `aiPut` finds flips, its position is set and every cell `aiPlay` writes is on the board. */
  lemma AiPutOnBoard(g: seq<seq<int>>, n: int, step: int)
    requires WellFormed(g, n) && ValidCells(g, n)
    ensures AiPut(g, n, step).flips != [] ==>
      AiPut(g, n, step).pos.Some?
      && forall p :: p in AiPut(g, n, step).flips + [AiPut(g, n, step).pos.value] ==> OnBoard(n, p)
  {
    var m := AiPut(g, n, step);
    AiPutIsGreedy(g, n, step);
    if m.flips != [] {
      ScoreOpponents(g, n, step, m.pos.value.0, m.pos.value.1);
    }
  }

  /** A candidate with flips has a position, and every cell it would write is on the board. */
  ghost predicate MoveOnBoard(n: int, m: Candidate)
  {
    m.flips != [] ==> m.pos.Some? && forall p :: p in m.flips + [m.pos.value] ==> OnBoard(n, p)
  }

  /** The active colour has a move: `aiPut` finds a non-empty flip list. */
  function HasMove(g: seq<seq<int>>, n: int, step: int): (b: bool)
    requires WellFormed(g, n)
  {
    AiPut(g, n, step).flips != []
  }

  lemma HasMoveIff(g: seq<seq<int>>, n: int, step: int)
    requires WellFormed(g, n)
    ensures HasMove(g, n, step) <==> exists q :: IsEmptyCell(g, n, q) && Score(g, n, step, q.0, q.1) != []
  {
    AiPutIsGreedy(g, n, step);
  }

  /** The greedy choice depends on `step` only through the colour it places. */
  lemma AiPutDependsOnColour(g: seq<seq<int>>, n: int, s1: int, s2: int)
    requires WellFormed(g, n) && Color(s1) == Color(s2)
    ensures AiPut(g, n, s1) == AiPut(g, n, s2)
  {
    assert EmptyCandidates(g, n, s1) == EmptyCandidates(g, n, s2);
  }

  /** Steps two apart place the same colour and so have the same moves. */
  lemma TwoStepsSameMoves(g: seq<seq<int>>, n: int, a: int, b: int)
    requires WellFormed(g, n) && a == b - 2
    ensures HasMove(g, n, a) == HasMove(g, n, b)
  {
    ColorAlternates(b - 1);
    AiPutDependsOnColour(g, n, a, b);
  }

  // ----- move text -----

  /**
   * The position parsing of `checkPut`: row and column are the first two characters' offsets
   * from 'a'; a text shorter than two characters or a coordinate outside [0, n) fails the
   * source's `assert`.
   */
  function Decode(n: int, pos: string): (r: Result<Pos>)
    ensures r.Ok? ==> OnBoard(n, r.value)
  {
    if |pos| < 2 then Err("move position disable")
    else
      var r, c := pos[0] as int - 97, pos[1] as int - 97;
      if 0 <= r < n && 0 <= c < n then Ok((r, c)) else Err("move position disable")
  }

  /** `chr(pos[0]+97)+chr(pos[1]+97)`, the move text the computer announces. */
  function MoveLabel(p: Pos): (s: string)
    requires 0 <= p.0 < 26 && 0 <= p.1 < 26
    ensures |s| == 2
  {
    [(p.0 + 97) as char, (p.1 + 97) as char]
  }

  /** Decoding fails exactly for short text or an out-of-range coordinate. */
  lemma DecodeFails(n: int, pos: string)
    ensures Decode(n, pos).Err? <==>
      |pos| < 2 || !(0 <= pos[0] as int - 97 < n) || !(0 <= pos[1] as int - 97 < n)
  {
  }

  /** Characters after the second are ignored. */
  lemma DecodeIgnoresTail(n: int, pos: string)
    requires |pos| >= 2
    ensures Decode(n, pos) == Decode(n, pos[..2])
  {
  }

  /** Announced move text decodes back to the announced position. */
  lemma LabelRoundTrip(n: int, p: Pos)
    requires n <= 26 && OnBoard(n, p)
    ensures Decode(n, MoveLabel(p)) == Ok(p)
  {
  }

  /** A text that decodes starts with the label of the decoded position. */
  lemma DecodeThenLabel(n: int, pos: string)
    requires n <= 26 && Decode(n, pos).Ok?
    ensures MoveLabel(Decode(n, pos).value) == pos[..2]
  {
  }
}
