/** game/board.py: the board of the networked game. It holds the grid, the recorded
    winner, the two players and whose turn it is; a turn is either typed here or read
    from the peer, and after each turn the draw ("cat") flag is recomputed. The text sent
    to the peer is the sequence `toPeer`; the text received from it is a parameter. */
module GameBoard {
  import opened Outcomes
  import opened Text
  import opened Rules

  /** What `_next_turn_lan` makes of the peer's text: a cell to write, or the exception
      that escapes before anything is written. */
  datatype PeerMove = Move(r: int, c: int) | Bad(error: PyError)

  /** `split(',')`, `int(parts[0])`, `int(parts[1])`, then `grid[row][col]`: a first piece
      that is not a number is a `ValueError`; a text without a comma is an `IndexError`;
      a second piece that is not a number is a `ValueError`; an index off the grid is an
      `IndexError`. Pieces after the second are ignored. */
  function ReadPeerMove(token: string): (m: PeerMove)
    ensures m.Move? ==> InRange(m.r) && InRange(m.c) && ',' in token
  {
    var parts := Split(token, ',');
    var row := ParseInt(parts[0]);
    if row.None? then Bad(ValueError)
    else if |parts| < 2 then Bad(IndexError)
    else
      match ParseInt(parts[1])
      case None => Bad(ValueError)
      case Some(col) => if InRange(row.value) && InRange(col) then Move(row.value, col) else Bad(IndexError)
  }

  /** The text a local turn sends is read by the peer as the same cell. */
  lemma PeerReadsLocalMove(r: int, c: int)
    requires InRange(r) && InRange(c)
    ensures ReadPeerMove(MoveToken(r, c)) == Move(r, c)
  {
    MoveTokenRoundTrip(r, c);
    ParseIntOfPadded(r, 0);
    ParseIntOfPadded(c, 0);
    assert PadRight(IntToString(r), 0) == IntToString(r);
    assert PadRight(IntToString(c), 0) == IntToString(c);
  }

  /** Every line the local input loop accepts as a move names the same cell when the peer
      reads it; the peer is the more lenient reader (it ignores a third piece). */
  lemma PeerAcceptsLocalInput(s: string)
    requires ParseMove(s).Some? && InRange(ParseMove(s).value.0) && InRange(ParseMove(s).value.1)
    ensures ReadPeerMove(s) == Move(ParseMove(s).value.0, ParseMove(s).value.1)
  {
  }

  /** A peer move needs a number on each side of the first comma, both in range. */
  lemma ReadPeerMoveAccepts(token: string)
    ensures ReadPeerMove(token).Move? <==>
      var parts := Split(token, ',');
      && |parts| >= 2
      && ParseInt(parts[0]).Some? && ParseInt(parts[1]).Some?
      && InRange(ParseInt(parts[0]).value) && InRange(ParseInt(parts[1]).value)
    ensures ReadPeerMove(token).Move? ==>
      ParseInt(Split(token, ',')[0]) == Some(ReadPeerMove(token).r)
      && ParseInt(Split(token, ',')[1]) == Some(ReadPeerMove(token).c)
  {
  }

  class Board {
    var grid: seq<seq<char>>
    var winner: Option<char>
    /** The game's `mode`: whether it is played over the network. */
    var mode: Mode
    var playerX: Player
    var playerO: Player
    var turn: Player
    /** `cat`, which exists only once a turn has been played. */
    var cat: Option<bool>
    /** Everything `send_to_peer` was given, in order. */
    var toPeer: seq<string>

    predicate Valid()
      reads this, playerX, playerO
    {
      && IsGrid(grid)
      && playerX != playerO
      && (turn == playerX || turn == playerO)
      && playerX.symbol == 'X' && playerO.symbol == 'O'
    }

    /** The player whose turn follows `p`'s on this board. */
    function Other(p: Player): Player
      reads this
    {
      Opponent(playerX, playerO, p)
    }

    /** `Board(mode)` without the network setup: an empty grid, no winner, X to move. */
    constructor (mode: Mode)
      ensures Valid()
      ensures grid == EmptyGrid() && winner == None && this.mode == mode
      ensures turn == playerX && fresh(playerX) && fresh(playerO)
      ensures playerX.mode == Local && playerO.mode == Local
      ensures cat == None && toPeer == []
    {
      grid := EmptyGrid();
      winner := None;
      this.mode := mode;
      var x := new Player('X');
      var o := new Player('O');
      playerX, playerO, turn := x, o, x;
      cat := None;
      toPeer := [];
    }

    /** `check_winner()`: true exactly when some line holds three equal symbols; the winner
        recorded is the one of the first such line in the order of the tests. The grid is
        only read. */
    method CheckWinner() returns (found: bool)
      requires IsGrid(grid)
      modifies this`winner
      ensures found <==> HasThreeInARow(grid)
      ensures found ==> winner == FirstWinner(grid) && winner.Some? && winner.value != Blank
      ensures !found ==> winner == old(winner)
    {
      var w := FindWinner(grid);
      WinnerIffThreeInARow(grid);
      if w.Some? {
        winner := w;
        return true;
      }
      return false;
    }

    /** `_switch_turn()`. */
    method SwitchTurn()
      requires Valid()
      modifies this`turn
      ensures Valid() && turn == Other(old(turn)) && turn != old(turn)
    {
      if turn == playerX {
        turn := playerO;
      } else {
        turn := playerX;
      }
    }

    /** `_next_turn_local()`: the first typed line that names an empty cell on the grid is
        the move; the current symbol is written there, the move is sent to the peer in a
        network game, the winner is checked and the turn passes. When no line is valid
        the real loop keeps waiting; here nothing changes. */
    method NextTurnLocal(attempts: seq<string>) returns (end: TurnEnd)
      requires Valid()
      modifies this`grid, this`winner, this`turn, this`toPeer
      ensures Valid()
      ensures end == Done || end == Blocked
      ensures var m := FirstValidMove(old(grid), attempts);
        && (end == Done <==> m.Some?)
        && (m.None? ==> grid == old(grid) && winner == old(winner) && turn == old(turn) && toPeer == old(toPeer))
        && (m.Some? ==>
              && Cell(old(grid), m.value.0, m.value.1) == Blank
              && grid == Place(old(grid), m.value.0, m.value.1, old(turn.symbol))
              && toPeer == old(toPeer) + (if mode == Lan then [MoveToken(m.value.0, m.value.1)] else [])
              && winner == (if HasThreeInARow(grid) then FirstWinner(grid) else old(winner))
              && turn == Other(old(turn)))
    {
      var m := ChooseCell(grid, attempts);
      if m.None? {
        return Blocked;
      }
      var (row, col) := m.value;
      grid := Place(grid, row, col, turn.symbol);
      if mode == Lan {
        toPeer := toPeer + [MoveToken(row, col)];
      }
      var _ := CheckWinner();
      SwitchTurn();
      end := Done;
    }

    /** `_next_turn_lan()`: the peer's text names the cell; the current symbol is written
        there whatever the cell holds, the winner is checked and the turn passes. A text
        that is not a move raises before the grid is touched. */
    method NextTurnLan(token: string) returns (end: TurnEnd)
      requires Valid()
      modifies this`grid, this`winner, this`turn
      ensures Valid()
      ensures var m := ReadPeerMove(token);
        && (m.Bad? ==> end == Failed(m.error) && grid == old(grid) && winner == old(winner) && turn == old(turn))
        && (m.Move? ==>
              && end == Done
              && grid == Place(old(grid), m.r, m.c, old(turn.symbol))
              && winner == (if HasThreeInARow(grid) then FirstWinner(grid) else old(winner))
              && turn == Other(old(turn)))
    {
      var parts := Split(token, ',');
      var row := ParseInt(parts[0]);
      if row.None? {
        return Failed(ValueError);
      }
      if |parts| < 2 {
        return Failed(IndexError);
      }
      var col := ParseInt(parts[1]);
      if col.None? {
        return Failed(ValueError);
      }
      if !InRange(row.value) || !InRange(col.value) {
        return Failed(IndexError);
      }
      grid := Place(grid, row.value, col.value, turn.symbol);
      var _ := CheckWinner();
      SwitchTurn();
      end := Done;
    }

    /** `next_turn()`: a turn by whoever's mode says, then the cat flag: true exactly when
        no cell is empty. The flag is only set when the turn completes. */
    method NextTurn(attempts: seq<string>, token: string) returns (end: TurnEnd)
      requires Valid()
      modifies this`grid, this`winner, this`turn, this`toPeer, this`cat
      ensures Valid()
      ensures end == Done ==>
        && cat == Some(Full(grid))
        && turn == Other(old(turn))
        && winner == (if HasThreeInARow(grid) then FirstWinner(grid) else old(winner))
      ensures end != Done ==>
        grid == old(grid) && winner == old(winner) && turn == old(turn) && toPeer == old(toPeer) && cat == old(cat)
      ensures old(turn.mode) == Local ==>
        var m := FirstValidMove(old(grid), attempts);
        && (end == Done <==> m.Some?) && (m.None? ==> end == Blocked)
        && (m.Some? ==>
              && Cell(old(grid), m.value.0, m.value.1) == Blank
              && grid == Place(old(grid), m.value.0, m.value.1, old(turn.symbol))
              && toPeer == old(toPeer) + (if mode == Lan then [MoveToken(m.value.0, m.value.1)] else []))
      ensures old(turn.mode) == Lan ==>
        var m := ReadPeerMove(token);
        && toPeer == old(toPeer)
        && (m.Bad? ==> end == Failed(m.error))
        && (m.Move? ==> end == Done && grid == Place(old(grid), m.r, m.c, old(turn.symbol)))
    {
      if turn.mode == Local {
        end := NextTurnLocal(attempts);
      } else {
        end := NextTurnLan(token);
      }
      if end == Done {
        var full := NoEmptyCell(grid);
        cat := Some(full);
      }
    }

    /** `_determine_player_roles()` on the host, with the drawn role a parameter: the host
        plays the drawn side here, the other side is played by the peer, and the drawn
        role is sent. */
    method DeterminePlayerRoles(localRole: char)
      requires Valid() && (localRole == 'x' || localRole == 'o')
      modifies playerX`mode, playerO`mode, this`toPeer
      ensures Valid()
      ensures localRole == 'x' ==> playerX.mode == Local && playerO.mode == Lan
      ensures localRole == 'o' ==> playerX.mode == Lan && playerO.mode == Local
      ensures toPeer == old(toPeer) + [[localRole]]
    {
      if localRole == 'x' {
        playerX.SetMode(Local);
        playerO.SetMode(Lan);
      } else {
        playerX.SetMode(Lan);
        playerO.SetMode(Local);
      }
      toPeer := toPeer + [[localRole]];
    }

    /** `_retrieve_role()` on the joiner, with the received text a parameter: `"x"` means
        the host plays X; any other text means the host plays O. */
    method RetrieveRole(role: string)
      requires Valid()
      modifies playerX`mode, playerO`mode
      ensures Valid()
      ensures role == "x" ==> playerX.mode == Lan && playerO.mode == Local
      ensures role != "x" ==> playerX.mode == Local && playerO.mode == Lan
    {
      if role == "x" {
        playerX.SetMode(Lan);
        playerO.SetMode(Local);
      } else {
        playerX.SetMode(Local);
        playerO.SetMode(Lan);
      }
    }
  }

  /** Both ends of the role negotiation: the host draws and sends its role, the joiner
      reads it. Whatever the draw, each player has opposite modes on the two machines and
      each machine plays exactly one side itself. */
  method Negotiate(host: Board, joiner: Board, localRole: char)
    requires host.Valid() && joiner.Valid() && (localRole == 'x' || localRole == 'o')
    requires host.playerX != joiner.playerX && host.playerX != joiner.playerO
    requires host.playerO != joiner.playerX && host.playerO != joiner.playerO
    modifies host`toPeer, host.playerX`mode, host.playerO`mode, joiner.playerX`mode, joiner.playerO`mode
    ensures host.Valid() && joiner.Valid()
    ensures host.toPeer == old(host.toPeer) + [[localRole]]
    ensures host.playerX.mode != joiner.playerX.mode && host.playerO.mode != joiner.playerO.mode
    ensures host.playerX.mode != host.playerO.mode && joiner.playerX.mode != joiner.playerO.mode
  {
    host.DeterminePlayerRoles(localRole);
    var sent := host.toPeer[|host.toPeer| - 1];
    assert sent == [localRole];
    joiner.RetrieveRole(sent);
  }
}
