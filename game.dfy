/**
 * The game engine of reversi.py as transitions on values: the state an engine carries,
 * the start of a game, a human move, a computer move, the end-of-round check and one round
 * of the game loop. The class in reversi.dfy is proved to perform exactly these transitions.
 */
module Game {
  import opened Wrappers
  import opened Constant
  import opened Grid
  import opened Rules

  /** What a `Reversi` object holds: board size, cells, move counter, turn counter, status. */
  datatype GameState = GameState(n: int, g: seq<seq<int>>, step: int, turn: int, status: Status)

  ghost predicate Inv(s: GameState)
  {
    WellFormed(s.g, s.n) && ValidCells(s.g, s.n)
  }

  /** Which entry of `plays` moves next: 0 is the computer (`aiPlay`), 1 the human (`pPlay`). */
  function Player(turn: int): (k: int)
    ensures k == 0 || k == 1
  {
    turn % 2
  }

  /** A new engine: start pattern, step 1, waiting; turn 0 when the computer chose 'X' or 'x'. */
  function Initial(n: nat, computer: string): (s: GameState)
  {
    GameState(n, StartGrid(n), 1, if computer == "X" || computer == "x" then 0 else 1, Wait)
  }

  /** `play` sets the game going. */
  function Start(s: GameState): (t: GameState)
    ensures t.status == Ongoing && t == s.(status := t.status)
  {
    s.(status := Ongoing)
  }

  /**
   * `checkPut`: decode the move text, then paint the flipped cells and the target with the
   * active colour when something is flipped. The result says whether the move was made and
   * gives the new cells. The target cell is not required to be empty.
   */
  function CheckPut(s: GameState, pos: string): (r: Result<(bool, seq<seq<int>>)>)
    requires Inv(s)
    ensures r.Err? <==> Decode(s.n, pos).Err?
    ensures r.Ok? ==> WellFormed(r.value.1, s.n) && ValidCells(r.value.1, s.n)
    ensures r.Ok? && !r.value.0 ==> r.value.1 == s.g
  {
    match Decode(s.n, pos)
    case Err(e) => Err(e)
    case Ok(p) =>
      var turnList := Score(s.g, s.n, s.step, p.0, p.1);
      PaintedKeepsCodes(s.g, s.n, turnList + [p], Color(s.step));
      if turnList != [] then Ok((true, Painted(s.g, turnList + [p], Color(s.step))))
      else Ok((false, s.g))
  }

  /** `pPlay` on the text the human entered: a made move advances both counters. */
  function PPlay(s: GameState, pos: string): (r: Result<GameState>)
    requires Inv(s)
  {
    match CheckPut(s, pos)
    case Err(e) => Err(e)
    case Ok(out) =>
      if out.0 then Ok(s.(g := out.1, step := s.step + 1, turn := s.turn + 1)) else Ok(s)
  }

  /** `aiPlay`: make the greedy move, if there is one, and advance both counters. */
  function AiPlay(s: GameState): (t: GameState)
    requires WellFormed(s.g, s.n)
  {
    var m := AiPut(s.g, s.n, s.step);
    AiPutIsGreedy(s.g, s.n, s.step);
    if m.flips != [] then
      s.(g := Painted(s.g, m.flips + [m.pos.value], Color(s.step)), step := s.step + 1, turn := s.turn + 1)
    else s
  }

  /** `(oNum > xNum) - (oNum < xNum)`. */
  function Sign(o: int, x: int): (k: int)
    ensures -1 <= k <= 1
  {
    (if o > x then 1 else 0) - (if o < x then 1 else 0)
  }

  /** Python indexing of a list: a negative index counts from the end. */
  function PyIndex(xs: seq<int>, i: int): (x: int)
    requires -|xs| <= i < |xs|
  {
    if i < 0 then xs[|xs| + i] else xs[i]
  }

  /** The raw value `checkGame` stores: `[DRAW, OWIN, XWIN][sign]`. */
  function WinnerValue(o: int, x: int): (v: int)
  {
    PyIndex([Value(Draw), Value(OWin), Value(XWin)], Sign(o, x))
  }

  /** The status that raw value denotes: equal counts draw, otherwise the larger count wins. */
  function Winner(o: int, x: int): (w: Status)
    ensures w == Draw <==> o == x
    ensures w == OWin <==> o > x
    ensures w == XWin <==> o < x
  {
    FromValue(WinnerValue(o, x)).value
  }

  /** How many cells hold code `v`. */
  function Count(s: GameState, v: int): (k: nat)
    requires WellFormed(s.g, s.n)
  {
    Tally(s.g, s.n, v)
  }

  /** The first probe of `checkGame`: the active colour has a move. */
  function CanMove(s: GameState): (b: bool)
    requires WellFormed(s.g, s.n)
  {
    HasMove(s.g, s.n, s.step)
  }

  /** The second probe: the colour of `step + 1` has a move. */
  function OtherCanMove(s: GameState): (b: bool)
    requires WellFormed(s.g, s.n)
  {
    HasMove(s.g, s.n, s.step + 1)
  }

  /** The round ends: a colour or the empty cells are gone, or neither colour can move. */
  predicate Ends(empty: int, o: int, x: int, hasPut: bool)
  {
    empty == 0 || o == 0 || x == 0 || !hasPut
  }

  predicate Over(s: GameState)
    requires WellFormed(s.g, s.n)
  {
    Ends(Count(s, 0), Count(s, 1), Count(s, 2), CanMove(s) || OtherCanMove(s))
  }

  /**
   * `checkGame`: when the active colour cannot move, `step` is raised to probe the other
   * colour; if that one can move, `step` is lowered twice and `turn` once, otherwise nobody
   * can move. Then a terminal status is set when the round ends.
   */
  function CheckGame(s: GameState): (t: GameState)
    requires WellFormed(s.g, s.n)
  {
    Settle(s, Count(s, 0), Count(s, 1), Count(s, 2), CanMove(s), OtherCanMove(s))
  }

  /** The body of `checkGame` once the tallies and the two probes are known. */
  function Settle(s: GameState, empty: int, oNum: int, xNum: int, canMove: bool, nextCanMove: bool): (t: GameState)
  {
    var probed :=
      if canMove then s
      else if nextCanMove then s.(step := s.step + 1 - 1 - 1, turn := s.turn - 1)
      else s.(step := s.step + 1);
    var hasPut := canMove || nextCanMove;
    if Ends(empty, oNum, xNum, hasPut) then probed.(status := Winner(oNum, xNum)) else probed
  }

  /** One pass of the loop in `play`: the player `turn` names moves, then `checkGame`. */
  function Round(s: GameState, pos: string): (r: Result<GameState>)
    requires Inv(s)
  {
    if Player(s.turn) == 0 then
      AiPlayInv(s);
      Ok(CheckGame(AiPlay(s)))
    else
      match PPlay(s, pos)
      case Err(e) => Err(e)
      case Ok(t) => Ok(CheckGame(t))
  }

  // ----- the transitions as the engine's methods perform them -----

  /** The state after writing the active colour over the candidate's flips and position, if it has flips. */
  function ApplyMove(s: GameState, m: Candidate): (t: GameState)
    requires m.flips != [] ==> m.pos.Some?
    ensures t.n == s.n && t.status == s.status
  {
    if m.flips != [] then Advance(Paint(s, m.flips + [m.pos.value])) else s
  }

  /** `aiPlay` applies the candidate `aiPut` returns, and every cell it writes is on the board. */
  lemma AiPlayResult(s: GameState, m: Candidate)
    requires Inv(s) && m == AiPut(s.g, s.n, s.step)
    ensures MoveOnBoard(s.n, m) && AiPlay(s) == ApplyMove(s, m)
  {
    AiPutOnBoard(s.g, s.n, s.step);
  }

  /** `checkPut`'s write: the active colour over every listed cell. */
  function Paint(s: GameState, ps: seq<Pos>): (t: GameState)
  {
    s.(g := Painted(s.g, ps, Color(s.step)))
  }

  /** `checkPut` as its statements run: decode, score, and write the flips and the target when there are any. */
  lemma CheckPutSteps(s: GameState, pos: string, row: int, col: int)
    requires Inv(s) && |pos| >= 2 && row == pos[0] as int - 97 && col == pos[1] as int - 97
    ensures CheckPut(s, pos).Err? <==> !OnBoard(s.n, (row, col))
    ensures OnBoard(s.n, (row, col)) ==>
      var ps := Score(s.g, s.n, s.step, row, col);
      (forall p :: p in ps + [(row, col)] ==> OnBoard(s.n, p))
      && CheckPut(s, pos).value == (ps != [], if ps != [] then Paint(s, ps + [(row, col)]).g else s.g)
  {
    if OnBoard(s.n, (row, col)) {
      ScoreOpponents(s.g, s.n, s.step, row, col);
    }
  }

  /** `self.step += 1; self.turn += 1`: a move was made. */
  function Advance(s: GameState): (t: GameState)
  {
    s.(step := s.step + 1, turn := s.turn + 1)
  }

  /** `pPlay` as its statements run: `checkPut` writes the grid, then a made move advances. */
  lemma PPlaySteps(s: GameState, pos: string)
    requires Inv(s)
    ensures CheckPut(s, pos).Err? <==> PPlay(s, pos).Err?
    ensures CheckPut(s, pos).Ok? ==>
      var t := s.(g := CheckPut(s, pos).value.1);
      PPlay(s, pos) == Ok(if CheckPut(s, pos).value.0 then Advance(t) else t)
  {
  }

  /** `self.step += 1`: the probe of `checkGame`. */
  function StepUp(s: GameState): (t: GameState)
  {
    s.(step := s.step + 1)
  }

  /** `self.step -= 1; self.step -= 1; self.turn -= 1`: the other colour can move. */
  function StepBack(s: GameState): (t: GameState)
  {
    s.(step := s.step - 1 - 1, turn := s.turn - 1)
  }

  /** The last statement of `checkGame`: the outcome is stored when the round ends. */
  function Decide(s: GameState, empty: int, o: int, x: int, hasPut: bool): (t: GameState)
  {
    if Ends(empty, o, x, hasPut) then s.(status := Winner(o, x)) else s
  }

  /** `checkGame` as its statements run: the probe after `StepUp` asks the other colour. */
  lemma CheckGameSteps(s: GameState)
    requires WellFormed(s.g, s.n)
    ensures CanMove(StepUp(s)) == OtherCanMove(s)
    ensures CheckGame(s) ==
      var e, o, x := Count(s, 0), Count(s, 1), Count(s, 2);
      if CanMove(s) then Decide(s, e, o, x, true)
      else if OtherCanMove(s) then Decide(StepBack(StepUp(s)), e, o, x, true)
      else Decide(StepUp(s), e, o, x, false)
  {
  }

  // ----- properties -----

  /** The stored raw value converts back to the status `Winner` names. */
  lemma WinnerValueRoundTrip(o: int, x: int)
    ensures Value(Winner(o, x)) == WinnerValue(o, x)
    ensures WinnerValue(o, x) in {Value(Draw), Value(OWin), Value(XWin)}
  {
    assert FromValue(WinnerValue(o, x)).Some?;
  }

  /** A new game: the start pattern, black ('X', code 2) moves first, and the computer moves first iff it chose 'X'. */
  lemma InitialFacts(n: nat, computer: string)
    requires 4 <= n <= 26 && n % 2 == 0
    requires computer in ["X", "x", "O", "o"]
    ensures Inv(Initial(n, computer)) && Initial(n, computer).status == Wait
    ensures Color(Initial(n, computer).step) == 2
    ensures Player(Initial(n, computer).turn) == 0 <==> computer == "X" || computer == "x"
    ensures Count(Initial(n, computer), 0) == n * n - 4
    ensures Count(Initial(n, computer), 1) == 2 && Count(Initial(n, computer), 2) == 2
  {
    StartTallies(n);
  }

  lemma AiPlayInv(s: GameState)
    requires Inv(s)
    ensures Inv(AiPlay(s))
  {
    var m := AiPut(s.g, s.n, s.step);
    AiPutIsGreedy(s.g, s.n, s.step);
    if m.flips != [] {
      PaintedKeepsCodes(s.g, s.n, m.flips + [m.pos.value], Color(s.step));
    }
  }

  /** The cell the computer picks, when it has a move. */
  function Choice(s: GameState): (p: Pos)
    requires WellFormed(s.g, s.n) && CanMove(s)
  {
    AiPutIsGreedy(s.g, s.n, s.step);
    AiPut(s.g, s.n, s.step).pos.value
  }

  /** The number of distinct cells in a flip list. */
  function Distinct(ps: seq<Pos>): (k: nat)
  {
    |set q | q in ps|
  }

  /** A list without repetitions has as many distinct cells as entries. */
  lemma {:induction false} DistinctNoDuplicates(ps: seq<Pos>)
    requires NoDuplicates(ps)
    ensures Distinct(ps) == |ps|
  {
    if ps != [] {
      var rest := ps[1..];
      forall i, j | 0 <= i < j < |rest| ensures rest[i] != rest[j] {
        assert rest[i] == ps[i + 1] && rest[j] == ps[j + 1];
      }
      DistinctNoDuplicates(rest);
      assert (set q | q in ps) == {ps[0]} + (set q | q in rest);
      assert ps[0] !in rest;
    }
  }

  /** The length `cmp` compares is the number of pieces the move flips. */
  lemma FlipCount(g: seq<seq<int>>, n: int, step: int, r: int, c: int)
    requires WellFormed(g, n)
    ensures Distinct(Score(g, n, step, r, c)) == |Score(g, n, step, r, c)|
  {
    ScoreNoDuplicates(g, n, step, r, c);
    DistinctNoDuplicates(Score(g, n, step, r, c));
  }

  /** Without a move `aiPlay` changes nothing. */
  lemma AiPlayNoMove(s: GameState)
    requires WellFormed(s.g, s.n) && !CanMove(s)
    ensures AiPlay(s) == s
  {
  }

  /** The move `aiPlay` makes: the greedy cell and its flip list take the active colour. */
  lemma AiPlayMove(s: GameState)
    requires WellFormed(s.g, s.n) && CanMove(s)
    ensures IsEmptyCell(s.g, s.n, Choice(s))
    ensures AiPut(s.g, s.n, s.step).flips == Score(s.g, s.n, s.step, Choice(s).0, Choice(s).1)
    ensures AiPlay(s) == s.(g := Painted(s.g, AiPut(s.g, s.n, s.step).flips + [Choice(s)], Color(s.step)),
                            step := s.step + 1, turn := s.turn + 1)
  {
    AiPutIsGreedy(s.g, s.n, s.step);
  }

  /**
   * A move by the computer fills the chosen empty cell with the active colour and advances
   * both counters by one.
   */
  lemma AiPlayCounters(s: GameState)
    requires Inv(s) && CanMove(s)
    ensures IsEmptyCell(s.g, s.n, Choice(s))
    ensures AiPlay(s).g[Choice(s).0][Choice(s).1] == Color(s.step)
    ensures AiPlay(s).step == s.step + 1 && AiPlay(s).turn == s.turn + 1
    ensures AiPlay(s).n == s.n && AiPlay(s).status == s.status
  {
    AiPlayMove(s);
  }

  /** The computer's move is a legal move onto its choice: the grid `MoveConserves` speaks of. */
  lemma AiPlayAsMove(s: GameState)
    requires Inv(s) && CanMove(s)
    ensures IsEmptyCell(s.g, s.n, Choice(s)) && Score(s.g, s.n, s.step, Choice(s).0, Choice(s).1) != []
      && AiPlay(s).n == s.n
      && AiPlay(s).g == Painted(s.g, Score(s.g, s.n, s.step, Choice(s).0, Choice(s).1) + [Choice(s)], Color(s.step))
  {
    AiPlayMove(s);
  }

  /**
   * A move by the computer conserves pieces: one empty cell fewer, and at least one flipped
   * cell passes from the opponent to the mover.
   */
  lemma AiPlayConserves(s: GameState)
    requires Inv(s) && CanMove(s)
    ensures 1 <= |Score(s.g, s.n, s.step, Choice(s).0, Choice(s).1)|
    ensures Count(AiPlay(s), 0) == Count(s, 0) - 1
    ensures Count(AiPlay(s), Color(s.step)) == Count(s, Color(s.step)) + |Score(s.g, s.n, s.step, Choice(s).0, Choice(s).1)| + 1
    ensures Count(AiPlay(s), 3 - Color(s.step)) == Count(s, 3 - Color(s.step)) - |Score(s.g, s.n, s.step, Choice(s).0, Choice(s).1)|
  {
    AiPlayAsMove(s);
    MoveConserves(s, Choice(s), AiPlay(s));
  }

  /**
   * Painting the flip list of a legal move and its empty target `p` with the active colour, as
   * both move loops do: one empty cell fewer, and at least one cell passes from the opponent
   * to the mover.
   */
  lemma MoveConserves(s: GameState, p: Pos, t: GameState)
    requires Inv(s) && IsEmptyCell(s.g, s.n, p) && Score(s.g, s.n, s.step, p.0, p.1) != []
    requires t.n == s.n && t.g == Painted(s.g, Score(s.g, s.n, s.step, p.0, p.1) + [p], Color(s.step))
    ensures 1 <= |Score(s.g, s.n, s.step, p.0, p.1)|
    ensures Count(t, 0) == Count(s, 0) - 1
    ensures Count(t, Color(s.step)) == Count(s, Color(s.step)) + |Score(s.g, s.n, s.step, p.0, p.1)| + 1
    ensures Count(t, 3 - Color(s.step)) == Count(s, 3 - Color(s.step)) - |Score(s.g, s.n, s.step, p.0, p.1)|
  {
    ScoreOpponents(s.g, s.n, s.step, p.0, p.1);
    PaintMove(s.g, s.n, Score(s.g, s.n, s.step, p.0, p.1), p, Color(s.step));
    FlipCount(s.g, s.n, s.step, p.0, p.1);
  }

  /**
   * `checkPut` on a text that decodes to `p`: the move is made iff some direction has a run of
   * at least one opponent cell closed by an own cell; a made move gives the active colour to
   * the target and to exactly the bracketed cells and leaves every other cell as it was.
   */
  lemma CheckPutEffect(s: GameState, pos: string, p: Pos)
    requires Inv(s) && Decode(s.n, pos) == Ok(p)
    ensures CheckPut(s, pos).Ok?
    ensures CheckPut(s, pos).value.0 <==>
      exists d, k: nat :: d in DIRECTIONS && 1 <= k && Closes(s.g, s.n, NextPosition(d, p.0, p.1), d, Color(s.step), k)
    ensures CheckPut(s, pos).value.0 ==> forall q :: OnBoard(s.n, q) ==>
      CheckPut(s, pos).value.1[q.0][q.1] ==
        if q == p || Flanked(s.g, s.n, Color(s.step), p.0, p.1, q) then Color(s.step) else s.g[q.0][q.1]
    ensures !CheckPut(s, pos).value.0 ==> CheckPut(s, pos).value.1 == s.g
  {
    var v := Color(s.step);
    var h := CheckPut(s, pos).value.1;
    var flips := Score(s.g, s.n, s.step, p.0, p.1);
    if flips != [] {
      LegalHasClosedRun(s.g, s.n, s.step, p.0, p.1);
      forall q | OnBoard(s.n, q)
        ensures h[q.0][q.1] == if q == p || Flanked(s.g, s.n, v, p.0, p.1, q) then v else s.g[q.0][q.1]
      {
        ScoreExact(s.g, s.n, s.step, p.0, p.1, q);
        assert (q.0, q.1) == q;
        assert q in flips + [p] <==> q in flips || q == p;
      }
    } else {
      forall d, k: nat | d in DIRECTIONS && 1 <= k && Closes(s.g, s.n, NextPosition(d, p.0, p.1), d, v, k)
        ensures false
      {
        ClosedRunIsLegal(s.g, s.n, s.step, p.0, p.1, d, k);
      }
    }
  }

  /** `pPlay` fails exactly on text `checkPut` rejects. */
  lemma PPlayFails(s: GameState, pos: string)
    requires Inv(s)
    ensures PPlay(s, pos).Err? <==> Decode(s.n, pos).Err?
  {
  }

  /**
   * `pPlay` at the decoded position `p`: the counters advance iff the move flips something,
   * nothing changes otherwise, and a made move onto an empty target conserves pieces as the
   * computer's move does.
   */
  lemma PPlayEffect(s: GameState, pos: string, p: Pos, t: GameState)
    requires Inv(s) && Decode(s.n, pos) == Ok(p) && PPlay(s, pos) == Ok(t)
    ensures Inv(t) && t.n == s.n && t.status == s.status
    ensures Score(s.g, s.n, s.step, p.0, p.1) != [] <==> t.step == s.step + 1 && t.turn == s.turn + 1
    ensures Score(s.g, s.n, s.step, p.0, p.1) == [] ==> t == s
  {
  }

  /** A made human move is a legal move onto the decoded cell, painted as `MoveConserves` assumes. */
  lemma PPlayAsMove(s: GameState, pos: string, p: Pos, t: GameState)
    requires Inv(s) && Decode(s.n, pos) == Ok(p) && PPlay(s, pos) == Ok(t)
    requires Score(s.g, s.n, s.step, p.0, p.1) != []
    ensures t.n == s.n && t.g == Painted(s.g, Score(s.g, s.n, s.step, p.0, p.1) + [p], Color(s.step))
  {
  }

  /** A made human move onto an empty target conserves pieces as the computer's move does. */
  lemma PPlayConserves(s: GameState, pos: string, p: Pos, t: GameState)
    requires Inv(s) && Decode(s.n, pos) == Ok(p) && PPlay(s, pos) == Ok(t)
    requires Score(s.g, s.n, s.step, p.0, p.1) != [] && s.g[p.0][p.1] == 0
    ensures Count(t, 0) == Count(s, 0) - 1
    ensures Count(t, Color(s.step)) == Count(s, Color(s.step)) + |Score(s.g, s.n, s.step, p.0, p.1)| + 1
    ensures Count(t, 3 - Color(s.step)) == Count(s, 3 - Color(s.step)) - |Score(s.g, s.n, s.step, p.0, p.1)|
  {
    PPlayAsMove(s, pos, p, t);
    MoveConserves(s, p, t);
  }

  /** `checkGame` never touches the cells. */
  lemma CheckGameKeepsCells(s: GameState)
    requires Inv(s)
    ensures CheckGame(s).g == s.g && CheckGame(s).n == s.n && Inv(CheckGame(s))
  {
  }

  /** The active colour can move: the counters stay as they are. */
  lemma CheckGameCanMove(s: GameState)
    requires Inv(s) && CanMove(s)
    ensures CheckGame(s).step == s.step && CheckGame(s).turn == s.turn
  {
  }

  /**
   * The active colour cannot move but the other can: the move passes to the other colour
   * and to the other entry of `plays`.
   */
  lemma CheckGameSkip(s: GameState)
    requires Inv(s) && !CanMove(s) && OtherCanMove(s)
    ensures CheckGame(s).step == s.step - 1 && CheckGame(s).turn == s.turn - 1
    ensures Color(CheckGame(s).step) == 3 - Color(s.step)
    ensures Player(CheckGame(s).turn) != Player(s.turn)
  {
    SettleProbes(s, Count(s, 0), Count(s, 1), Count(s, 2), CanMove(s), OtherCanMove(s));
    ColorAfterPass(CheckGame(s).step, s.step);
    PlayerAfterPass(CheckGame(s).turn, s.turn);
  }

  /** After a pass the colour now active has a move, so the next round is not a pass again. */
  lemma CheckGameSkipMoves(s: GameState)
    requires Inv(s) && !CanMove(s) && OtherCanMove(s)
    ensures CanMove(CheckGame(s))
  {
    SettleProbes(s, Count(s, 0), Count(s, 1), Count(s, 2), CanMove(s), OtherCanMove(s));
    TwoStepsSameMoves(s.g, s.n, CheckGame(s).step, s.step + 1);
  }

  /** How `checkGame` moves the counters, given the tallies and the two probes. */
  lemma SettleProbes(s: GameState, empty: int, o: int, x: int, canMove: bool, nextCanMove: bool)
    ensures Settle(s, empty, o, x, canMove, nextCanMove).g == s.g
    ensures Settle(s, empty, o, x, canMove, nextCanMove).n == s.n
    ensures canMove ==>
      Settle(s, empty, o, x, canMove, nextCanMove).step == s.step
      && Settle(s, empty, o, x, canMove, nextCanMove).turn == s.turn
    ensures !canMove && nextCanMove ==>
      Settle(s, empty, o, x, canMove, nextCanMove).step == s.step - 1
      && Settle(s, empty, o, x, canMove, nextCanMove).turn == s.turn - 1
    ensures !canMove && !nextCanMove ==>
      Settle(s, empty, o, x, canMove, nextCanMove).step == s.step + 1
      && Settle(s, empty, o, x, canMove, nextCanMove).turn == s.turn
  {
  }

  lemma ColorAfterPass(a: int, b: int)
    requires a == b - 1
    ensures Color(a) == 3 - Color(b)
  {
    ColorAlternates(b);
  }

  lemma PlayerAfterPass(a: int, b: int)
    requires a == b - 1
    ensures Player(a) != Player(b)
  {
  }

  /** Neither colour can move: the probe's `step` increment stays and the game is over. */
  lemma CheckGameStalled(s: GameState)
    requires Inv(s) && !CanMove(s) && !OtherCanMove(s)
    ensures CheckGame(s).step == s.step + 1 && CheckGame(s).turn == s.turn
    ensures CheckGame(s).status in {Draw, OWin, XWin}
  {
  }

  /**
   * The outcome `checkGame` records: once the round ends the status is a draw iff the colours
   * are level and otherwise names the colour with more pieces; before that it is kept.
   */
  lemma CheckGameOutcome(s: GameState)
    requires Inv(s)
    ensures Over(s) ==> (CheckGame(s).status == Draw <==> Count(s, 1) == Count(s, 2))
    ensures Over(s) ==> (CheckGame(s).status == OWin <==> Count(s, 1) > Count(s, 2))
    ensures Over(s) ==> (CheckGame(s).status == XWin <==> Count(s, 1) < Count(s, 2))
    ensures !Over(s) ==> CheckGame(s).status == s.status
  {
  }

  /**
   * A round keeps the cells well formed; it fails only on the human's turn with text
   * `checkPut` rejects; and from a running game it leaves the game running or finished.
   */
  lemma RoundEffect(s: GameState, pos: string)
    requires Inv(s)
    ensures Round(s, pos).Err? <==> Player(s.turn) == 1 && Decode(s.n, pos).Err?
    ensures Round(s, pos).Ok? ==> Inv(Round(s, pos).value) && Round(s, pos).value.n == s.n
    ensures Round(s, pos).Ok? && s.status == Ongoing ==> Round(s, pos).value.status in {Ongoing, Draw, OWin, XWin}
  {
    if Player(s.turn) == 0 {
      AiPlayInv(s);
      CheckGameKeepsCells(AiPlay(s));
    } else if PPlay(s, pos).Ok? {
      var t := PPlay(s, pos).value;
      PPlayEffect(s, pos, Decode(s.n, pos).value, t);
      CheckGameKeepsCells(t);
    }
  }
}
