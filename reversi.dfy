/**
 * reversi.py: the `Reversi` engine object. Its counters and status are fields it updates in
 * place and its board is the `Board` buffer; every method is proved to perform the
 * transition of module Game on the value the object denotes.
 */
module Engine {
  import opened Wrappers
  import opened Constant
  import opened Grid
  import opened Rules
  import opened Boards
  import Game

  class Reversi {
    const n: int
    const b: Board
    var turn: int
    var step: int
    var status: Status

    /** The board buffer is valid and of the engine's size; it reads no mutable field of the engine. */
    ghost predicate Valid()
      reads b, b.board
    {
      b.Valid() && b.n == n
    }

    /** The engine as a value. */
    function State(): (s: Game.GameState)
      reads this, b, b.board
      requires Valid()
      ensures Game.Inv(s) && s.n == n && s.step == step && s.turn == turn && s.status == status
    {
      Game.GameState(n, b.Cells(), step, turn, status)
    }

    /** `__init__`: a fresh start board; the computer moves first iff it chose 'X' or 'x'. */
    constructor (n: int, turn: string)
      requires 2 <= n
      ensures Valid() && fresh(b) && fresh(b.board)
      ensures State() == Game.Initial(n, turn)
    {
      this.n := n;
      b := new Board(n);
      this.turn := if turn == "X" || turn == "x" then 0 else 1;
      step := 1;
      status := Wait;
    }

    /**
     * `checkPut`: decode the text, then write the active colour over the flipped cells and
     * the target when something is flipped; the result says whether the move was made.
     * A text that fails to decode leaves the board as it was.
     */
    method CheckPut(pos: string) returns (r: Result<bool>)
      requires Valid()
      modifies b.board
      ensures Valid()
      ensures r.Err? <==> Game.CheckPut(old(State()), pos).Err?
      ensures r.Err? ==> State() == old(State())
      ensures r.Ok? ==> r.value == Game.CheckPut(old(State()), pos).value.0
      ensures r.Ok? ==> State() == old(State()).(g := Game.CheckPut(old(State()), pos).value.1)
    {
      if |pos| < 2 {
        return Err("move position disable");
      }
      var row := pos[0] as int - 97;
      var col := pos[1] as int - 97;
      if !(0 <= row < n && 0 <= col < n) {
        return Err("move position disable");
      }
      var s := State();
      Game.CheckPutSteps(s, pos, row, col);
      var turnList := Score(s.g, n, step, row, col);
      if turnList != [] {
        Paint(turnList + [(row, col)]);
        return Ok(true);
      } else {
        return Ok(false);
      }
    }

    /** The write of `checkPut`: the active colour over every listed cell. */
    method Paint(ps: seq<Pos>)
      requires Valid() && forall p :: p in ps ==> OnBoard(n, p)
      modifies b.board
      ensures Valid()
      ensures State() == Game.Paint(old(State()), ps)
    {
      b.Place(ps, Color(step));
    }

    /** `aiPlay`: make the greedy move, if there is one, and advance both counters. */
    method AiPlay()
      requires Valid()
      modifies this, b.board
      ensures Valid()
      ensures State() == Game.AiPlay(old(State()))
    {
      var s := State();
      var m := AiPut(s.g, s.n, s.step);
      Game.AiPlayResult(s, m);
      Move(m);
    }

    /** The move of `aiPlay`: with flips, write the active colour over them and the position, then advance both counters. */
    method Move(m: Candidate)
      requires Valid() && MoveOnBoard(n, m)
      modifies this, b.board
      ensures Valid()
      ensures State() == Game.ApplyMove(old(State()), m)
    {
      if m.flips != [] {
        Paint(m.flips + [m.pos.value]);
        Advance();
      }
    }

    /**
     * `pPlay` on the text the human entered: a made move advances both counters; a text
     * that fails to decode raises, which ends the game loop, and changes nothing.
     */
    method PPlay(pos: string) returns (r: Result<()>)
      requires Valid()
      modifies this, b.board
      ensures Valid()
      ensures r.Err? <==> Game.PPlay(old(State()), pos).Err?
      ensures r.Err? ==> State() == old(State())
      ensures r.Ok? ==> State() == Game.PPlay(old(State()), pos).value
    {
      Game.PPlaySteps(State(), pos);
      var put := CheckPut(pos);
      match put
      case Err(e) =>
        r := Err(e);
      case Ok(made) =>
        if made {
          Advance();
        }
        r := Ok(());
    }

    /** `self.step += 1; self.turn += 1` after a made move. */
    method Advance()
      requires Valid()
      modifies this
      ensures Valid()
      ensures State() == Game.Advance(old(State()))
    {
      step := step + 1;
      turn := turn + 1;
    }

    /**
     * `checkGame`: count the codes, probe whether the active colour and then the other one
     * can move — raising `step` for the probe and, if the other colour can move, lowering it
     * twice and `turn` once — and store the outcome when the round ends.
     */
    method CheckGame()
      requires Valid()
      modifies this
      ensures Valid()
      ensures State() == Game.CheckGame(old(State()))
    {
      var s := State();
      Game.CheckGameSteps(s);
      var empty, oNum, xNum := Game.Count(s, 0), Game.Count(s, 1), Game.Count(s, 2);
      var hasPut := true;
      if !Game.CanMove(s) {
        RaiseStep();
        hasPut := Game.CanMove(State());
        if hasPut {
          LowerSteps();
        }
      }
      Decide(empty, oNum, xNum, hasPut);
    }

    /** `self.step += 1`, the probe of the other colour in `checkGame`. */
    method RaiseStep()
      requires Valid()
      modifies this
      ensures Valid()
      ensures State() == Game.StepUp(old(State()))
    {
      step := step + 1;
    }

    /** The other colour can move: `step` is lowered twice and `turn` once. */
    method LowerSteps()
      requires Valid()
      modifies this
      ensures Valid()
      ensures State() == Game.StepBack(old(State()))
    {
      step := step - 1;
      step := step - 1;
      turn := turn - 1;
    }

    /** The end of `checkGame`: when the round ends, store `[DRAW, OWIN, XWIN][sign(oNum - xNum)]`. */
    method Decide(empty: int, oNum: int, xNum: int, hasPut: bool)
      requires Valid()
      modifies this
      ensures Valid()
      ensures State() == Game.Decide(old(State()), empty, oNum, xNum, hasPut)
    {
      if Game.Ends(empty, oNum, xNum, hasPut) {
        Game.WinnerValueRoundTrip(oNum, xNum);
        status := FromValue(Game.WinnerValue(oNum, xNum)).value;
      }
    }

    /** The first statement of `play`. */
    method Start()
      requires Valid()
      modifies this
      ensures Valid()
      ensures State() == Game.Start(old(State()))
    {
      status := Ongoing;
    }

    /**
     * One pass of the loop in `play`: `plays[turn % 2]` moves, with `pos` the text the human
     * enters when it is their turn, then `checkGame`. A text that fails to decode ends the
     * loop with the exception, before `checkGame`.
     */
    method Round(pos: string) returns (r: Result<()>)
      requires Valid()
      modifies this, b.board
      ensures Valid()
      ensures r.Err? <==> Game.Round(old(State()), pos).Err?
      ensures r.Err? ==> State() == old(State())
      ensures r.Ok? ==> State() == Game.Round(old(State()), pos).value
    {
      if turn % 2 == 0 {
        AiPlay();
      } else {
        var e := PPlay(pos);
        if e.Err? {
          return Err(e.error);
        }
      }
      CheckGame();
      return Ok(());
    }
  }
}
