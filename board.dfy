/** board.py: the n-by-n cell buffer the engine overwrites in place, and its symbol table. */
module Boards {
  import opened Grid

  /** The `chess` table: the symbol each cell code is shown as. */
  const SYMBOLS: map<int, char> := map[0 := '.', 1 := 'O', 2 := 'X']

  /** Each of the three codes has its own symbol. */
  lemma SymbolTable()
    ensures SYMBOLS.Keys == {0, 1, 2}
    ensures SYMBOLS[0] == '.' && SYMBOLS[1] == 'O' && SYMBOLS[2] == 'X'
    ensures forall u, v :: u in SYMBOLS && v in SYMBOLS && SYMBOLS[u] == SYMBOLS[v] ==> u == v
  {
  }

  class Board {
    const n: int
    const board: array2<int>
    const chess: map<int, char>

    /** The buffer is n by n and holds only cell codes. */
    ghost predicate Valid()
      reads this, board
    {
      2 <= n && board.Length0 == n && board.Length1 == n
      && forall i, j :: 0 <= i < n && 0 <= j < n ==> 0 <= board[i, j] <= 2
    }

    /** The buffer's contents, row by row. */
    function Cells(): (g: seq<seq<int>>)
      reads this, board
      requires board.Length0 == n && board.Length1 == n
      ensures WellFormed(g, n)
      ensures forall i, j :: 0 <= i < n && 0 <= j < n ==> g[i][j] == board[i, j]
    {
      seq(n, i requires 0 <= i < n reads board =>
        seq(n, j requires 0 <= j < n reads board => board[i, j]))
    }

    constructor (n: int)
      requires 2 <= n
      ensures Valid() && this.n == n && fresh(board)
      ensures Cells() == StartGrid(n)
      ensures chess == SYMBOLS
    {
      this.n := n;
      var a := GenerateBoard(n);
      board := a;
      chess := SYMBOLS;
      new;
      StartTallies(n);
      GridsEqual(Cells(), StartGrid(n), n);
    }

    /**
     * `generateBoard`: an n-by-n buffer of empty cells with white on (h,h) and (h-1,h-1)
     * and black on (h,h-1) and (h-1,h), where h = n/2.
     */
    static method GenerateBoard(n: int) returns (board: array2<int>)
      requires 2 <= n
      ensures fresh(board) && board.Length0 == n && board.Length1 == n
      ensures forall i, j :: 0 <= i < n && 0 <= j < n ==> board[i, j] == StartCell(n, i, j)
    {
      var i := n / 2;
      board := new int[n, n]((_, _) => 0);
      board[i, i] := 1;
      board[i - 1, i - 1] := 1;
      board[i, i - 1] := 2;
      board[i - 1, i] := 2;
    }

    /** Write `v` into every listed cell, one at a time, as the move loops of reversi.py do. */
    method Place(ps: seq<Pos>, v: int)
      requires Valid() && (forall p :: p in ps ==> OnBoard(n, p)) && 0 <= v <= 2
      modifies board
      ensures Valid()
      ensures Cells() == Painted(old(Cells()), ps, v)
    {
      var k := 0;
      while k < |ps|
        invariant 0 <= k <= |ps|
        invariant forall i, j :: 0 <= i < n && 0 <= j < n ==>
          board[i, j] == if (i, j) in ps[..k] then v else old(board[i, j])
      {
        assert ps[k] in ps;
        assert ps[..k + 1] == ps[..k] + [ps[k]];
        board[ps[k].0, ps[k].1] := v;
        k := k + 1;
      }
      assert ps[..k] == ps;
      GridsEqual(Cells(), Painted(old(Cells()), ps, v), n);
    }
  }
}
