/** The tic-tac-toe rules shared by game/board.py and its older copy board.py: the 3x3
    grid of characters (`' '` for an empty cell), Python's indexing of it (the indices
    -3..-1 count from the end), the eight lines in the order `check_winner` tests them,
    the `"row,col"` move text, and the players. */
module Rules {
  import opened Outcomes
  import opened Text

  /** `MultiplayerGame.LOCAL` and `MultiplayerGame.LAN`: who makes a player's moves. */
  datatype Mode = Local | Lan

  /** How a turn ends: the move was made; no typed line was a valid move (the real
      program keeps waiting for input); or an exception escaped. */
  datatype TurnEnd = Done | Blocked | Failed(error: PyError)

  const Blank: char := ' '

  /** game/player.py: a symbol and the mode of the player. */
  class Player {
    var symbol: char
    var mode: Mode

    /** `Player()` followed by `set_as_x()` or `set_as_o()`; the mode starts `LOCAL`. */
    constructor (symbol: char)
      ensures this.symbol == symbol && mode == Local
    {
      this.symbol := symbol;
      mode := Local;
    }

    /** `set_mode(mode)`. */
    method SetMode(m: Mode)
      modifies this`mode
      ensures mode == m
    {
      mode := m;
    }
  }

  /** The player whose turn follows `p`'s, between `x` and `o`. */
  function Opponent(x: Player, o: Player, p: Player): Player
  {
    if p == x then o else x
  }

  /** `_switch_turn` alternates: it never stays on a player, and switching twice gives the
      turn back. */
  lemma OpponentInvolution(x: Player, o: Player, p: Player)
    requires x != o && (p == x || p == o)
    ensures Opponent(x, o, p) != p && Opponent(x, o, Opponent(x, o, p)) == p
    ensures Opponent(x, o, p) == x || Opponent(x, o, p) == o
  {
  }

  predicate IsGrid(g: seq<seq<char>>)
  {
    |g| == 3 && forall i :: 0 <= i < 3 ==> |g[i]| == 3
  }

  function EmptyGrid(): (g: seq<seq<char>>)
    ensures IsGrid(g) && forall i, j :: 0 <= i < 3 && 0 <= j < 3 ==> g[i][j] == Blank
  {
    [[Blank, Blank, Blank], [Blank, Blank, Blank], [Blank, Blank, Blank]]
  }

  /** No cell is empty: the draw ("cat") test. */
  predicate Full(g: seq<seq<char>>)
    requires IsGrid(g)
  {
    forall i, j :: 0 <= i < 3 && 0 <= j < 3 ==> g[i][j] != Blank
  }

  // ---------------------------------------------------------------------------
  // Python indexing of the grid.

  /** An index a 3-element Python list accepts. */
  predicate InRange(i: int) { -3 <= i < 3 }

  /** The position a Python index denotes. */
  function Norm(i: int): (k: nat)
    requires InRange(i)
    ensures k < 3 && (k == i || k == i + 3)
  {
    if i < 0 then i + 3 else i
  }

  function Cell(g: seq<seq<char>>, r: int, c: int): char
    requires IsGrid(g) && InRange(r) && InRange(c)
  {
    g[Norm(r)][Norm(c)]
  }

  /** `grid[r][c] = ch`. */
  function Place(g: seq<seq<char>>, r: int, c: int, ch: char): (h: seq<seq<char>>)
    requires IsGrid(g) && InRange(r) && InRange(c)
    ensures IsGrid(h)
  {
    g[Norm(r) := g[Norm(r)][Norm(c) := ch]]
  }

  /** Placing writes the one cell `(r, c)` denotes and no other. */
  lemma PlaceChangesOneCell(g: seq<seq<char>>, r: int, c: int, ch: char)
    requires IsGrid(g) && InRange(r) && InRange(c)
    ensures forall i, j :: 0 <= i < 3 && 0 <= j < 3 ==>
      Place(g, r, c, ch)[i][j] == if i == Norm(r) && j == Norm(c) then ch else g[i][j]
  {
  }

  // ---------------------------------------------------------------------------
  // Moves as text.

  /** `row, col = s.split(',')` then `int(row)`, `int(col)`: exactly two pieces, each a
      number; anything else is the `ValueError` the input loop catches. */
  function ParseMove(s: string): (m: Option<(int, int)>)
    ensures m.Some? ==> multiset(s)[','] == 1
  {
    var parts := Split(s, ',');
    if |parts| != 2 then None
    else
      match (ParseInt(parts[0]), ParseInt(parts[1]))
      case (Some(r), Some(c)) => Some((r, c))
      case _ => None
  }

  /** `f'{row},{col}'`: the text a local move is sent to the peer as. */
  function MoveToken(r: int, c: int): string
  {
    IntToString(r) + "," + IntToString(c)
  }

  /** Every move text is read back as the same pair, negative indices included. */
  lemma MoveTokenRoundTrip(r: int, c: int)
    ensures ParseMove(MoveToken(r, c)) == Some((r, c))
    ensures Split(MoveToken(r, c), ',') == [IntToString(r), IntToString(c)]
  {
    var a, b := IntToString(r), IntToString(c);
    assert ',' !in a && ',' !in b;
    SplitJoined(a, b, ',');
    assert MoveToken(r, c) == a + [','] + b;
    ParseIntOfPadded(r, 0);
    ParseIntOfPadded(c, 0);
    assert PadRight(a, 0) == a && PadRight(b, 0) == b;
  }

  /** A typed line is accepted as a move when it parses, both indices are in range and
      the cell is empty. */
  predicate ValidMove(g: seq<seq<char>>, s: string)
    requires IsGrid(g)
  {
    var m := ParseMove(s);
    m.Some? && InRange(m.value.0) && InRange(m.value.1) && Cell(g, m.value.0, m.value.1) == Blank
  }

  /** The move the input loop of `_next_turn_local` settles on: the first typed line that
      is a valid move; `None` when none of them is. */
  function FirstValidMove(g: seq<seq<char>>, attempts: seq<string>): (m: Option<(int, int)>)
    requires IsGrid(g)
    ensures m.Some? ==> InRange(m.value.0) && InRange(m.value.1) && Cell(g, m.value.0, m.value.1) == Blank
    decreases |attempts|
  {
    if attempts == [] then None
    else if ValidMove(g, attempts[0]) then ParseMove(attempts[0])
    else FirstValidMove(g, attempts[1..])
  }

  /** The input loop of `_next_turn_local`: read lines until one is a valid move; a line
      that does not parse, names a cell off the grid, or names a taken cell is rejected. */
  method ChooseCell(g: seq<seq<char>>, attempts: seq<string>) returns (m: Option<(int, int)>)
    requires IsGrid(g)
    ensures m == FirstValidMove(g, attempts)
  {
    var i := 0;
    while i < |attempts|
      invariant 0 <= i <= |attempts|
      invariant FirstValidMove(g, attempts) == FirstValidMove(g, attempts[i..])
    {
      assert attempts[i..][1..] == attempts[i + 1..];
      var parts := Split(attempts[i], ',');
      if |parts| == 2 {
        var row, col := ParseInt(parts[0]), ParseInt(parts[1]);
        if row.Some? && col.Some? && InRange(row.value) && InRange(col.value) {
          if Cell(g, row.value, col.value) == Blank {
            return Some((row.value, col.value));
          }
        }
      }
      i := i + 1;
    }
    return None;
  }

  /** The move chosen is the first valid line, and every line before it was rejected. */
  lemma {:induction false} FirstValidMoveIsFirst(g: seq<seq<char>>, attempts: seq<string>)
    requires IsGrid(g)
    ensures var m := FirstValidMove(g, attempts);
      && (m.None? <==> forall k :: 0 <= k < |attempts| ==> !ValidMove(g, attempts[k]))
      && (m.Some? ==>
            exists k :: 0 <= k < |attempts| && ValidMove(g, attempts[k]) && ParseMove(attempts[k]) == m
              && forall j :: 0 <= j < k ==> !ValidMove(g, attempts[j]))
    decreases |attempts|
  {
    if attempts != [] {
      FirstValidMoveIsFirst(g, attempts[1..]);
      if !ValidMove(g, attempts[0]) {
        var m := FirstValidMove(g, attempts);
        if m.Some? {
          var k :| 0 <= k < |attempts[1..]| && ValidMove(g, attempts[1..][k]) && ParseMove(attempts[1..][k]) == m
                && forall j :: 0 <= j < k ==> !ValidMove(g, attempts[1..][j]);
          assert attempts[k + 1] == attempts[1..][k];
          forall j | 0 <= j < k + 1 ensures !ValidMove(g, attempts[j]) {
            if j > 0 { assert attempts[j] == attempts[1..][j - 1]; }
          }
        }
        forall k | 1 <= k < |attempts| ensures attempts[k] == attempts[1..][k - 1] {}
      }
    }
  }

  // ---------------------------------------------------------------------------
  // Winning lines.

  type Coord = i: nat | i < 3

  datatype Pos = Pos(r: Coord, c: Coord)

  datatype Line = Line(a: Pos, b: Pos, c: Pos)

  function At(g: seq<seq<char>>, p: Pos): char
    requires IsGrid(g)
  {
    g[p.r][p.c]
  }

  /** Three cells in a line, all holding the same non-blank symbol. */
  predicate Wins(g: seq<seq<char>>, line: Line)
    requires IsGrid(g)
  {
    At(g, line.a) != Blank && At(g, line.a) == At(g, line.b) && At(g, line.b) == At(g, line.c)
  }

  function RowLine(i: Coord): Line { Line(Pos(i, 0), Pos(i, 1), Pos(i, 2)) }
  function ColLine(i: Coord): Line { Line(Pos(0, i), Pos(1, i), Pos(2, i)) }
  const MainDiagonal: Line := Line(Pos(0, 0), Pos(1, 1), Pos(2, 2))
  const AntiDiagonal: Line := Line(Pos(0, 2), Pos(1, 1), Pos(2, 0))

  /** The order of the tests in `check_winner`: row i, then column i, for i = 0..2, then
      the main diagonal, then the other one. */
  function CheckOrder(): (lines: seq<Line>)
    ensures |lines| == 8
  {
    [RowLine(0), ColLine(0), RowLine(1), ColLine(1), RowLine(2), ColLine(2), MainDiagonal, AntiDiagonal]
  }

  /** Three in a row, column or diagonal, stated on its own. */
  predicate HasThreeInARow(g: seq<seq<char>>)
    requires IsGrid(g)
  {
    || (exists i :: 0 <= i < 3 && g[i][0] != Blank && g[i][0] == g[i][1] == g[i][2])
    || (exists j :: 0 <= j < 3 && g[0][j] != Blank && g[0][j] == g[1][j] == g[2][j])
    || (g[0][0] != Blank && g[0][0] == g[1][1] == g[2][2])
    || (g[0][2] != Blank && g[0][2] == g[1][1] == g[2][0])
  }

  /** The symbol of the first winning line among `lines`. */
  function FirstWinning(g: seq<seq<char>>, lines: seq<Line>): Option<char>
    requires IsGrid(g)
    decreases |lines|
  {
    if lines == [] then None
    else if Wins(g, lines[0]) then Some(At(g, lines[0].a))
    else FirstWinning(g, lines[1..])
  }

  /** The winner `check_winner` records. */
  function FirstWinner(g: seq<seq<char>>): Option<char>
    requires IsGrid(g)
  {
    FirstWinning(g, CheckOrder())
  }

  lemma {:induction false} FirstWinningSome(g: seq<seq<char>>, lines: seq<Line>)
    requires IsGrid(g)
    ensures FirstWinning(g, lines).Some? <==> exists n :: 0 <= n < |lines| && Wins(g, lines[n])
    ensures FirstWinning(g, lines).Some? ==>
      exists n :: 0 <= n < |lines| && Wins(g, lines[n]) && FirstWinning(g, lines).value == At(g, lines[n].a)
    decreases |lines|
  {
    if lines != [] {
      FirstWinningSome(g, lines[1..]);
      if !Wins(g, lines[0]) {
        forall n | 1 <= n < |lines| ensures lines[n] == lines[1..][n - 1] {}
        if FirstWinning(g, lines).Some? {
          var n :| 0 <= n < |lines[1..]| && Wins(g, lines[1..][n]) && FirstWinning(g, lines).value == At(g, lines[1..][n].a);
          assert lines[n + 1] == lines[1..][n];
        }
      }
    }
  }

  /** Some line of the check order wins exactly when there are three in a row. */
  lemma LineWinsIffThreeInARow(g: seq<seq<char>>)
    requires IsGrid(g)
    ensures HasThreeInARow(g) <==> exists n :: 0 <= n < 8 && Wins(g, CheckOrder()[n])
  {
    var lines := CheckOrder();
    if HasThreeInARow(g) {
      if exists i :: 0 <= i < 3 && g[i][0] != Blank && g[i][0] == g[i][1] == g[i][2] {
        var i :| 0 <= i < 3 && g[i][0] != Blank && g[i][0] == g[i][1] == g[i][2];
        assert lines[2 * i] == RowLine(i);
        assert Wins(g, lines[2 * i]);
      } else if exists j :: 0 <= j < 3 && g[0][j] != Blank && g[0][j] == g[1][j] == g[2][j] {
        var j :| 0 <= j < 3 && g[0][j] != Blank && g[0][j] == g[1][j] == g[2][j];
        assert lines[2 * j + 1] == ColLine(j);
        assert Wins(g, lines[2 * j + 1]);
      } else if g[0][0] != Blank && g[0][0] == g[1][1] == g[2][2] {
        assert Wins(g, lines[6]);
      } else {
        assert Wins(g, lines[7]);
      }
    }
    if exists n :: 0 <= n < 8 && Wins(g, lines[n]) {
      var n :| 0 <= n < 8 && Wins(g, lines[n]);
      if n < 6 {
        var i: Coord := n / 2;
        if n % 2 == 0 {
          assert lines[n] == RowLine(i);
        } else {
          assert lines[n] == ColLine(i);
        }
      }
    }
  }

  /** `check_winner` finds a winner exactly when some line holds three equal symbols, and
      the winner it names fills a whole winning line. */
  lemma WinnerIffThreeInARow(g: seq<seq<char>>)
    requires IsGrid(g)
    ensures FirstWinner(g).Some? <==> HasThreeInARow(g)
    ensures FirstWinner(g).Some? ==>
      && FirstWinner(g).value != Blank
      && exists n :: 0 <= n < 8 && Wins(g, CheckOrder()[n]) && At(g, CheckOrder()[n].c) == FirstWinner(g).value
  {
    FirstWinningSome(g, CheckOrder());
    LineWinsIffThreeInARow(g);
  }

  /** Looking at line `k` of a list: a win there decides, otherwise the rest does. */
  lemma FirstWinningAt(g: seq<seq<char>>, lines: seq<Line>, k: nat)
    requires IsGrid(g) && k < |lines|
    ensures FirstWinning(g, lines[k..])
      == if Wins(g, lines[k]) then Some(At(g, lines[k].a)) else FirstWinning(g, lines[k + 1..])
  {
    assert lines[k..][1..] == lines[k + 1..];
  }

  /** The tests of `check_winner`, in its order: the first winning line names the winner. */
  method FindWinner(g: seq<seq<char>>) returns (w: Option<char>)
    requires IsGrid(g)
    ensures w == FirstWinner(g)
  {
    var lines := CheckOrder();
    for i := 0 to 3
      invariant FirstWinner(g) == FirstWinning(g, lines[2 * i..])
    {
      FirstWinningAt(g, lines, 2 * i);
      FirstWinningAt(g, lines, 2 * i + 1);
      assert lines[2 * i] == RowLine(i) && lines[2 * i + 1] == ColLine(i);
      if g[i][0] != Blank && g[i][0] == g[i][1] == g[i][2] {
        return Some(g[i][0]);
      }
      if g[0][i] != Blank && g[0][i] == g[1][i] == g[2][i] {
        return Some(g[0][i]);
      }
    }
    FirstWinningAt(g, lines, 6);
    FirstWinningAt(g, lines, 7);
    if g[0][0] != Blank && g[0][0] == g[1][1] == g[2][2] {
      return Some(g[0][0]);
    }
    if g[0][2] != Blank && g[0][2] == g[1][1] == g[2][0] {
      return Some(g[0][2]);
    }
    assert lines[8..] == [];
    return None;
  }

  /** The cat loop of `next_turn`: `True` unless some cell is empty. */
  method NoEmptyCell(g: seq<seq<char>>) returns (cat: bool)
    requires IsGrid(g)
    ensures cat <==> Full(g)
  {
    cat := true;
    for i := 0 to 3
      invariant cat <==> forall a, b :: 0 <= a < i && 0 <= b < 3 ==> g[a][b] != Blank
    {
      for k := 0 to 3
        invariant cat <==> (forall a, b :: 0 <= a < i && 0 <= b < 3 ==> g[a][b] != Blank)
                           && forall b :: 0 <= b < k ==> g[i][b] != Blank
      {
        if g[i][k] == Blank {
          cat := false;
        }
      }
    }
  }
}
