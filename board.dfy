/**
 * The rules of one tic-tac-toe game, as pure functions: the nine cells
 * `c1`..`c9`, the eight winning lines in their fixed order, the scan that
 * reports a win or a draw, and one turn of the game (`ApplyTurn`), which is
 * the specification the `Game.MakeTurn` method is proved against.
 */
module Board {
  import opened Wrappers
  import opened Seqs

  /** The two marks; 'x' always moves first. */
  datatype Mark = X | O

  function Other(m: Mark): Mark {
    if m == X then O else X
  }

  type CellId = string

  /** The board: each of the nine cell ids maps to an empty cell or a mark. */
  type Field = map<CellId, Option<Mark>>

  const CellIds: seq<CellId> := ["c1", "c2", "c3", "c4", "c5", "c6", "c7", "c8", "c9"]

  /** The winning lines, in the order in which they are scanned. */
  const WinSets: seq<seq<CellId>> := [
    ["c1", "c2", "c3"],
    ["c4", "c5", "c6"],
    ["c7", "c8", "c9"],
    ["c1", "c4", "c7"],
    ["c2", "c5", "c8"],
    ["c3", "c6", "c9"],
    ["c1", "c5", "c9"],
    ["c3", "c5", "c7"]
  ]

  /** A field has exactly the nine cells as its keys. */
  predicate WellFormed(f: Field) {
    && (forall id :: id in f ==> id in CellIds)
    && (forall id :: id in CellIds ==> id in f)
  }

  function EmptyField(): Field {
    map["c1" := None, "c2" := None, "c3" := None,
        "c4" := None, "c5" := None, "c6" := None,
        "c7" := None, "c8" := None, "c9" := None]
  }

  /** The three cells of `line` hold the same mark. */
  predicate LineWins(f: Field, line: seq<CellId>) {
    && |line| == 3
    && line[0] in f && line[1] in f && line[2] in f
    && f[line[0]].Some?
    && f[line[0]] == f[line[1]]
    && f[line[0]] == f[line[2]]
  }

  /** No cell of the field is empty. */
  predicate AllFilled(f: Field) {
    forall id :: id in f ==> f[id].Some?
  }

  /** What the scan of a board reports. A draw records neither a winner nor cells. */
  datatype Outcome = NotOver | Win(winner: Mark, cells: seq<CellId>) | Draw {
    predicate GameOver() {
      !NotOver?
    }

    function Winner(): Option<Mark> {
      if Win? then Some(winner) else None
    }

    function WinningCells(): Option<seq<CellId>> {
      if Win? then Some(cells) else None
    }
  }

  /** The position of the first winning line at or after `from`, or -1. */
  function FirstWinningLine(f: Field, from: nat): (k: int)
    requires from <= |WinSets|
    ensures k == -1 || from <= k < |WinSets|
    ensures k == -1 <==> forall j :: from <= j < |WinSets| ==> !LineWins(f, WinSets[j])
    ensures k != -1 ==> LineWins(f, WinSets[k]) && forall j :: from <= j < k ==> !LineWins(f, WinSets[j])
    decreases |WinSets| - from
  {
    if from == |WinSets| then -1
    else if LineWins(f, WinSets[from]) then from
    else FirstWinningLine(f, from + 1)
  }

  /**
   * The scan of `checkWinner`: the first line, in the order of `WinSets`,
   * whose cells hold one mark wins with that mark; otherwise a full board
   * is a draw; otherwise the game goes on. Its meaning is stated by
   * `CheckWinnerSpec`, kept apart so that only the proofs that need it pay
   * for it.
   */
  function CheckWinner(f: Field): Outcome
  {
    var k := FirstWinningLine(f, 0);
    if k >= 0 then Win(f[WinSets[k][0]].value, WinSets[k])
    else if AllFilled(f) then Draw
    else NotOver
  }

  /**
   * The scan reports a win exactly when some line holds one mark, and then
   * the first such line with its mark; a draw exactly when no line wins and
   * every cell is filled; otherwise the game goes on.
   */
  lemma CheckWinnerSpec(f: Field)
    ensures CheckWinner(f).Win? <==> exists k :: 0 <= k < |WinSets| && LineWins(f, WinSets[k])
    ensures CheckWinner(f).Win? ==>
      exists k :: 0 <= k < |WinSets| && CheckWinner(f).cells == WinSets[k] && LineWins(f, WinSets[k]) &&
        f[WinSets[k][0]] == Some(CheckWinner(f).winner) && forall j :: 0 <= j < k ==> !LineWins(f, WinSets[j])
    ensures CheckWinner(f).Draw? <==> (forall k :: 0 <= k < |WinSets| ==> !LineWins(f, WinSets[k])) && AllFilled(f)
  {
  }

  /** The number of cells among `ids` that hold `m`. */
  function CountIn(f: Field, ids: seq<CellId>, m: Mark): nat {
    if ids == [] then 0
    else (if ids[0] in f && f[ids[0]] == Some(m) then 1 else 0) + CountIn(f, ids[1..], m)
  }

  function Count(f: Field, m: Mark): nat {
    CountIn(f, CellIds, m)
  }

  datatype Status = Waiting | Playing | Finished

  /** The rule-relevant state of a game: its field, whose turn it is, its status and its recorded result. */
  datatype GameState = GameState(
    field: Field,
    turn: Mark,
    status: Status,
    winner: Option<Mark>,
    winningCells: Option<seq<CellId>>)

  /** The reasons a turn is rejected, with the exact messages sent back to the mover. */
  datatype TurnError = NotActive | NotYourTurn | InvalidCell | InvalidTurn {
    function Message(): string {
      match this
      case NotActive => "Game is not active"
      case NotYourTurn => "Not your turn"
      case InvalidCell => "Invalid cell"
      case InvalidTurn => "Invalid turn"
    }
  }

  datatype TurnResult = Rejected(error: TurnError) | Accepted(outcome: Outcome)

  /** A new game: nine empty cells, 'x' to move, waiting for players, no result. */
  function NewGame(): GameState {
    GameState(EmptyField(), X, Waiting, None, None)
  }

  /**
   * One call of `makeTurn` by a player holding `symbol` on cell `cell`
   * (None for a missing id): the new state and the result.
   */
  function ApplyTurn(s: GameState, symbol: Option<Mark>, cell: Option<CellId>): (res: (GameState, TurnResult))
    // the checks, in their order, and the exact reason each one reports
    ensures res.1 == Rejected(NotActive) <==> s.status != Playing
    ensures res.1 == Rejected(NotYourTurn) <==> s.status == Playing && symbol != Some(s.turn)
    ensures res.1 == Rejected(InvalidCell) <==>
      s.status == Playing && symbol == Some(s.turn) && (cell.None? || cell.value !in s.field)
    ensures res.1 == Rejected(InvalidTurn) <==>
      s.status == Playing && symbol == Some(s.turn) && cell.Some? && cell.value in s.field && s.field[cell.value].Some?
    // a rejected turn changes nothing
    ensures res.1.Rejected? ==> res.0 == s
    // an accepted turn writes the mover's mark into the target cell and nowhere else
    ensures res.1.Accepted? ==>
      && cell.Some? && cell.value in s.field && s.field[cell.value] == None
      && res.0.field == s.field[cell.value := Some(s.turn)]
      && res.1.outcome == CheckWinner(res.0.field)
    // the turn passes to the other mark only while the game goes on
    ensures res.1 == Accepted(NotOver) ==>
      res.0 == s.(field := res.0.field, turn := Other(s.turn))
    // a win or a draw finishes the game, records the result and keeps the turn
    ensures res.1.Accepted? && res.1.outcome.GameOver() ==>
      && res.0.status == Finished && res.0.turn == s.turn
      && res.0.winner == res.1.outcome.Winner() && res.0.winningCells == res.1.outcome.WinningCells()
  {
    if s.status != Playing then (s, Rejected(NotActive))
    else if symbol != Some(s.turn) then (s, Rejected(NotYourTurn))
    else if cell.None? || cell.value !in s.field then (s, Rejected(InvalidCell))
    else if s.field[cell.value].Some? then (s, Rejected(InvalidTurn))
    else
      var f := s.field[cell.value := symbol];
      var outcome := CheckWinner(f);
      if outcome.GameOver() then
        (GameState(f, s.turn, Finished, outcome.Winner(), outcome.WinningCells()), Accepted(outcome))
      else
        (GameState(f, Other(s.turn), s.status, s.winner, s.winningCells), Accepted(NotOver))
  }

  /**
   * The invariant of every game reachable from a new one by turns and the
   * start of play: the field has
   * the nine cells; an unfinished game has no completed line, no recorded
   * result, and 'x' to move exactly when both marks were placed equally
   * often; a finished game records what the scan of its field reports and
   * its turn still names the mark that moved last.
   */
  predicate Consistent(s: GameState) {
    && WellFormed(s.field)
    && (s.status != Finished ==>
          && CheckWinner(s.field) == NotOver
          && s.winner == None && s.winningCells == None
          && Count(s.field, X) == Count(s.field, O) + (if s.turn == X then 0 else 1))
    && (s.status == Finished ==>
          && CheckWinner(s.field).GameOver()
          && s.winner == CheckWinner(s.field).Winner()
          && s.winningCells == CheckWinner(s.field).WinningCells()
          && Count(s.field, X) == Count(s.field, O) + (if s.turn == X then 1 else 0))
  }

  lemma CellIdsDistinct()
    ensures NoDuplicates(CellIds)
  {
  }

  /** Placing `m` on an empty cell adds one to the count of `m` and leaves the other mark's count alone. */
  lemma {:induction false} CountAfterPlacing(f: Field, ids: seq<CellId>, c: CellId, m: Mark, n: Mark)
    requires NoDuplicates(ids)
    requires c in f && f[c] == None
    ensures CountIn(f[c := Some(m)], ids, n) == CountIn(f, ids, n) + (if c in ids && n == m then 1 else 0)
  {
    if ids != [] {
      assert NoDuplicates(ids[1..]) by {
        forall i, j | 0 <= i < j < |ids[1..]| ensures ids[1..][i] != ids[1..][j] {
          assert ids[1..][i] == ids[i + 1] && ids[1..][j] == ids[j + 1];
        }
      }
      assert c in ids <==> c == ids[0] || c in ids[1..];
      assert ids[0] == c ==> c !in ids[1..];
      CountAfterPlacing(f, ids[1..], c, m, n);
    }
  }

  /** A field with no mark has count zero for either mark. */
  lemma {:induction false} CountEmpty(f: Field, ids: seq<CellId>, m: Mark)
    requires forall id :: id in f ==> f[id] == None
    ensures CountIn(f, ids, m) == 0
  {
    if ids != [] {
      CountEmpty(f, ids[1..], m);
    }
  }

  lemma EmptyFieldWellFormed()
    ensures WellFormed(EmptyField())
    ensures forall id :: id in EmptyField() ==> EmptyField()[id] == None
  {
    assert EmptyField().Keys == {"c1", "c2", "c3", "c4", "c5", "c6", "c7", "c8", "c9"};
  }

  /** A board without marks, 'x' to move and no result is consistent. */
  lemma NoMarksConsistent(f: Field, status: Status)
    requires WellFormed(f) && status != Finished
    requires forall id :: id in f ==> f[id] == None
    ensures Consistent(GameState(f, X, status, None, None))
  {
    assert forall j :: 0 <= j < |WinSets| ==> !LineWins(f, WinSets[j]);
    assert !AllFilled(f) by {
      assert "c1" in CellIds;
    }
    CountEmpty(f, CellIds, X);
    CountEmpty(f, CellIds, O);
  }

  /** The state of a game nobody has played in: the nine cells all empty, 'x' to move, waiting, no result. */
  predicate Untouched(s: GameState) {
    && WellFormed(s.field) && (forall id :: id in s.field ==> s.field[id] == None)
    && s.turn == X && s.status == Waiting && s.winner == None && s.winningCells == None
  }

  /** `Untouched` characterizes the new game exactly. */
  lemma UntouchedIsNewGame(s: GameState)
    ensures Untouched(s) <==> s == NewGame()
  {
    EmptyFieldWellFormed();
    if Untouched(s) {
      assert s.field.Keys == EmptyField().Keys;
    }
  }

  /** A game nobody has played in satisfies the invariant. */
  lemma UntouchedConsistent(s: GameState)
    requires Untouched(s)
    ensures Consistent(s)
  {
    NoMarksConsistent(s.field, s.status);
  }

  /** Starting a waiting game keeps the invariant: the board, the turn and the result stay as they are. */
  lemma StartKeepsConsistent(s: GameState)
    requires Consistent(s) && s.status == Waiting
    ensures Consistent(s.(status := Playing))
  {
  }

  /**
   * Setting a finished game back to playing, as admitting a player into a
   * finished game with one member does, breaks the invariant: its board
   * already holds a completed line or is full.
   */
  lemma ResumeBreaksConsistent(s: GameState)
    requires Consistent(s) && s.status == Finished
    ensures !Consistent(s.(status := Playing))
  {
  }

  /** A line that does not contain the cell just written was already complete before. */
  lemma LineWinsUntouched(f: Field, c: CellId, m: Mark, line: seq<CellId>)
    requires c !in line
    requires LineWins(f[c := Some(m)], line)
    ensures LineWins(f, line)
  {
    assert line[0] != c && line[1] != c && line[2] != c;
  }

  /**
   * In a consistent game, an accepted turn that wins is won by the mover:
   * the game server relies on this when it declares the player who just
   * moved the winner.
   */
  lemma WinnerIsMover(s: GameState, symbol: Option<Mark>, cell: Option<CellId>)
    requires Consistent(s)
    requires ApplyTurn(s, symbol, cell).1.Accepted?
    requires ApplyTurn(s, symbol, cell).1.outcome.Win?
    ensures symbol == Some(s.turn)
    ensures ApplyTurn(s, symbol, cell).1.outcome.winner == s.turn
  {
    var (s', r) := ApplyTurn(s, symbol, cell);
    var c := cell.value;
    CheckWinnerSpec(s'.field);
    var k :| 0 <= k < |WinSets| && r.outcome.cells == WinSets[k] && LineWins(s'.field, WinSets[k]) &&
      s'.field[WinSets[k][0]] == Some(r.outcome.winner);
    if c !in WinSets[k] {
      LineWinsUntouched(s.field, c, s.turn, WinSets[k]);
      assert false;
    }
    assert c == WinSets[k][0] || c == WinSets[k][1] || c == WinSets[k][2];
  }

  /** Every turn, accepted or not, keeps a consistent game consistent. */
  lemma ApplyTurnKeepsConsistent(s: GameState, symbol: Option<Mark>, cell: Option<CellId>)
    requires Consistent(s)
    ensures Consistent(ApplyTurn(s, symbol, cell).0)
  {
    var (s', r) := ApplyTurn(s, symbol, cell);
    if r.Accepted? {
      var c := cell.value;
      CellIdsDistinct();
      CountAfterPlacing(s.field, CellIds, c, s.turn, X);
      CountAfterPlacing(s.field, CellIds, c, s.turn, O);
      assert c in CellIds;
      assert WellFormed(s'.field);
    }
  }

  /** A finished game stays finished: every later turn is rejected as inactive and changes nothing. */
  lemma FinishedIsFinal(s: GameState, symbol: Option<Mark>, cell: Option<CellId>)
    requires s.status == Finished
    ensures ApplyTurn(s, symbol, cell) == (s, Rejected(NotActive))
  {
  }

  /** The field of a new game with the three cells of `line` marked `m`. */
  function FillLine(line: seq<CellId>, m: Mark): Field
    requires |line| == 3
  {
    EmptyField()[line[0] := Some(m)][line[1] := Some(m)][line[2] := Some(m)]
  }

  /** Marking one winning line, and nothing else, wins with that mark and that line. */
  lemma LineAloneWins(k: nat, m: Mark)
    requires k < |WinSets|
    ensures CheckWinner(FillLine(WinSets[k], m)) == Win(m, WinSets[k])
  {
    var f := FillLine(WinSets[k], m);
    assert LineWins(f, WinSets[k]);
    assert forall j :: 0 <= j < k ==> !LineWins(f, WinSets[j]);
  }

  /** 'x' on c1, c2, c3 and 'o' on c4, c5: the top row wins for 'x'. */
  lemma TopRowBoard()
    ensures CheckWinner(map["c1" := Some(X), "c2" := Some(X), "c3" := Some(X),
                            "c4" := Some(O), "c5" := Some(O), "c6" := None,
                            "c7" := None, "c8" := None, "c9" := None])
            == Win(X, ["c1", "c2", "c3"])
  {
    var f: Field := map["c1" := Some(X), "c2" := Some(X), "c3" := Some(X),
                        "c4" := Some(O), "c5" := Some(O), "c6" := None,
                        "c7" := None, "c8" := None, "c9" := None];
    assert LineWins(f, WinSets[0]);
  }

  /**
   * x | o | x
   * x | o | o
   * o | x | x
   * A full board without a completed line is a draw.
   */
  lemma FullBoardDraw()
    ensures CheckWinner(map["c1" := Some(X), "c2" := Some(O), "c3" := Some(X),
                            "c4" := Some(X), "c5" := Some(O), "c6" := Some(O),
                            "c7" := Some(O), "c8" := Some(X), "c9" := Some(X)])
            == Draw
  {
    var f: Field := map["c1" := Some(X), "c2" := Some(O), "c3" := Some(X),
                        "c4" := Some(X), "c5" := Some(O), "c6" := Some(O),
                        "c7" := Some(O), "c8" := Some(X), "c9" := Some(X)];
    assert forall j :: 0 <= j < |WinSets| ==> !LineWins(f, WinSets[j]);
    assert AllFilled(f);
  }

  /**
   * x | x | o
   * x | o | o
   * o | x | x
   * 'x' on c1, c2, c4, c8, c9 and 'o' on c3, c5, c6, c7 fill the board, but
   * the c3-c5-c7 diagonal is complete: a win for 'o', not a draw.
   */
  lemma AntiDiagonalBoard()
    ensures CheckWinner(map["c1" := Some(X), "c2" := Some(X), "c3" := Some(O),
                            "c4" := Some(X), "c5" := Some(O), "c6" := Some(O),
                            "c7" := Some(O), "c8" := Some(X), "c9" := Some(X)])
            == Win(O, ["c3", "c5", "c7"])
  {
    var f: Field := map["c1" := Some(X), "c2" := Some(X), "c3" := Some(O),
                        "c4" := Some(X), "c5" := Some(O), "c6" := Some(O),
                        "c7" := Some(O), "c8" := Some(X), "c9" := Some(X)];
    assert forall j :: 0 <= j < 7 ==> !LineWins(f, WinSets[j]);
    assert FirstWinningLine(f, 0) == 7;
  }
}
