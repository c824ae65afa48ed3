/** board.py: the older, stand-alone board. The same grid, winner test and turn order as
    the networked board, but with no network: a turn whose player is not local does
    nothing at all, and there is no cat flag. */
module LegacyBoard {
  import opened Outcomes
  import opened Rules

  class Board {
    var grid: seq<seq<char>>
    var winner: Option<char>
    var mode: Mode
    var playerX: Player
    var playerO: Player
    var turn: Player

    predicate Valid()
      reads this, playerX, playerO
    {
      && IsGrid(grid)
      && playerX != playerO
      && (turn == playerX || turn == playerO)
      && playerX.symbol == 'X' && playerO.symbol == 'O'
    }

    /** The player whose turn follows `p`'s on this board. */
    function Other(p: Player): Player
      reads this
    {
      Opponent(playerX, playerO, p)
    }

    /** `Board(mode)`: an empty grid, no winner, X to move. */
    constructor (mode: Mode)
      ensures Valid()
      ensures grid == EmptyGrid() && winner == None && this.mode == mode
      ensures turn == playerX && fresh(playerX) && fresh(playerO)
      ensures playerX.mode == Local && playerO.mode == Local
    {
      grid := EmptyGrid();
      winner := None;
      this.mode := mode;
      var x := new Player('X');
      var o := new Player('O');
      playerX, playerO, turn := x, o, x;
    }

    /** `check_winner()`, with the same tests in the same order as the networked board. */
    method CheckWinner() returns (found: bool)
      requires IsGrid(grid)
      modifies this`winner
      ensures found <==> HasThreeInARow(grid)
      ensures found ==> winner == FirstWinner(grid) && winner.Some? && winner.value != Blank
      ensures !found ==> winner == old(winner)
    {
      var w := FindWinner(grid);
      WinnerIffThreeInARow(grid);
      if w.Some? {
        winner := w;
        return true;
      }
      return false;
    }

    /** `_switch_turn()`. */
    method SwitchTurn()
      requires Valid()
      modifies this`turn
      ensures Valid() && turn == Other(old(turn)) && turn != old(turn)
    {
      if turn == playerX {
        turn := playerO;
      } else {
        turn := playerX;
      }
    }

    /** `_next_turn_local()`: the first typed line naming an empty cell is the move; the
        symbol is written, the winner checked and the turn passed. Nothing is sent. */
    method NextTurnLocal(attempts: seq<string>) returns (end: TurnEnd)
      requires Valid()
      modifies this`grid, this`winner, this`turn
      ensures Valid()
      ensures end == Done || end == Blocked
      ensures var m := FirstValidMove(old(grid), attempts);
        && (end == Done <==> m.Some?)
        && (m.None? ==> grid == old(grid) && winner == old(winner) && turn == old(turn))
        && (m.Some? ==>
              && Cell(old(grid), m.value.0, m.value.1) == Blank
              && grid == Place(old(grid), m.value.0, m.value.1, old(turn.symbol))
              && winner == (if HasThreeInARow(grid) then FirstWinner(grid) else old(winner))
              && turn == Other(old(turn)))
    {
      var m := ChooseCell(grid, attempts);
      if m.None? {
        return Blocked;
      }
      var (row, col) := m.value;
      grid := Place(grid, row, col, turn.symbol);
      var _ := CheckWinner();
      SwitchTurn();
      end := Done;
    }

    /** `next_turn()`: a local player's turn is played here; `_next_turn_lan` is empty, so
        a network player's turn changes nothing. */
    method NextTurn(attempts: seq<string>) returns (end: TurnEnd)
      requires Valid()
      modifies this`grid, this`winner, this`turn
      ensures Valid()
      ensures old(turn.mode) == Lan ==> end == Done && grid == old(grid) && winner == old(winner) && turn == old(turn)
      ensures old(turn.mode) == Local ==>
        var m := FirstValidMove(old(grid), attempts);
        && (end == Done <==> m.Some?)
        && (m.None? ==> end == Blocked && grid == old(grid) && turn == old(turn))
        && (m.Some? ==> grid == Place(old(grid), m.value.0, m.value.1, old(turn.symbol)) && turn == Other(old(turn)))
    {
      if turn.mode == Local {
        end := NextTurnLocal(attempts);
      } else {
        end := Done;
      }
    }
  }
}
