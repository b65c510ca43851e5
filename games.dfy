/**
 * The two server-side records of the game server: a `Player` (one joined
 * connection) and a `Game` (one board shared by at most two players). They
 * refer to each other (`player.game`, `game.players`), so they share one
 * module.
 */
module Games {
  import opened Wrappers
  import opened Seqs
  import opened Board

  type SocketId = string

  /** The role a player is given when admitted: 'm' (master, plays 'x') or 's' (slave, plays 'o'). */
  datatype Mode = Master | Slave

  /**
   * A player record. The uid and the name are fixed at creation; every
   * other field is updated in place by the game and the game manager.
   */
  class Player {
    const uid: nat
    const name: string
    var status: string
    var sockid: Option<SocketId>
    var mode: Option<Mode>
    var opp: Player?
    var game: Game?
    var symbol: Option<Mark>

    /** A fresh player is stored as given, unpaired, outside any game and without a connection. */
    constructor (uid: nat, name: string, status: string)
      ensures this.uid == uid && this.name == name && this.status == status
      ensures sockid == None && mode == None
      ensures opp == null && game == null && symbol == None
    {
      this.uid := uid;
      this.status := status;
      this.sockid := None;
      this.mode := None;
      this.name := name;
      this.opp := null;
      this.game := null;
      this.symbol := None;
    }
  }

  /** The snapshot a game gives of itself for serialization. */
  datatype GameView = GameView(
    code: string,
    field: Field,
    currentTurn: Mark,
    status: Status,
    playerCount: nat,
    winner: Option<Mark>,
    winningCells: Option<seq<CellId>>)

  class Game {
    const code: string
    var field: Field
    var players: seq<Player>
    var currentTurn: Mark
    var status: Status
    var winner: Option<Mark>
    var winningCells: Option<seq<CellId>>

    /** The shape every game keeps: the nine cells and at most two players. */
    ghost predicate Valid()
      reads this
    {
      WellFormed(field) && |players| <= 2
    }

    /** The rule-relevant part of the game, as a value. */
    function State(): GameState
      reads this
    {
      GameState(field, currentTurn, status, winner, winningCells)
    }

    /** A new game under the code the environment supplies: nine empty cells, 'x' to move, waiting, no result, no players. */
    constructor (code: string)
      ensures Valid() && Untouched(State()) && Consistent(State())
      ensures this.code == code && players == []
    {
      this.code := code;
      field := EmptyField();
      players := [];
      currentTurn := X;
      status := Waiting;
      winner := None;
      winningCells := None;
      new;
      UntouchedIsNewGame(State());
      UntouchedConsistent(State());
    }

    predicate IsFull()
      reads this
      ensures IsFull() <==> |players| >= 2
      ensures Valid() ==> (IsFull() <==> |players| == 2)
    {
      |players| >= 2
    }

    predicate IsEmpty()
      reads this
      ensures IsEmpty() <==> players == []
    {
      |players| == 0
    }

    /** The first member that is not `p`, or null. */
    function GetOpponent(p: Player): (r: Player?)
      reads this
      ensures r == null <==> forall q :: q in players ==> q == p
      ensures r != null ==> r in players && r != p
      ensures r != null && Valid() && p in players ==> players == [p, r] || players == [r, p]
    {
      match FirstOther(players, p)
      case Some(q) => q
      case None => null
    }

    /**
     * Admits `p` when fewer than two players are in: the first admitted
     * player gets 'x' and 'm', the second 'o' and 's', and the second one
     * starts the game. A full game refuses and changes nothing.
     */
    method AddPlayer(p: Player) returns (ok: bool)
      requires Valid()
      modifies this`players, this`status, p`game, p`symbol, p`mode
      ensures Valid()
      ensures ok <==> |old(players)| < 2
      ensures !ok ==> players == old(players) && status == old(status) && unchanged(p)
      ensures ok ==> players == old(players) + [p] && p.game == this
      ensures ok ==> p.symbol == Some(if |players| == 1 then X else O)
      ensures ok ==> p.mode == Some(if |players| == 1 then Master else Slave)
      ensures ok ==> status == if |players| == 2 then Playing else old(status)
    {
      if |players| >= 2 {
        return false;
      }
      players := players + [p];
      p.game := this;
      p.symbol := Some(if |players| == 1 then X else O);
      p.mode := Some(if |players| == 1 then Master else Slave);
      if |players| == 2 {
        status := Playing;
      }
      return true;
    }

    /** Deletes `p` from the members and clears its game and symbol; does nothing for a non-member. */
    method RemovePlayer(p: Player)
      requires Valid()
      modifies this`players, p`game, p`symbol
      ensures Valid()
      ensures players == RemoveFirst(old(players), p)
      ensures p in old(players) ==> p.game == null && p.symbol == None
      ensures p !in old(players) ==> p.game == old(p.game) && p.symbol == old(p.symbol)
    {
      var idx := IndexOf(players, p);
      if idx >= 0 {
        players := players[..idx] + players[idx + 1..];
        p.game := null;
        p.symbol := None;
      }
    }

    /**
     * Validates and applies a turn of `p` on `cell`: the new state and the
     * result are exactly those `ApplyTurn` gives.
     */
    method MakeTurn(p: Player, cell: Option<CellId>) returns (r: TurnResult)
      requires Valid()
      modifies this`field, this`currentTurn, this`status, this`winner, this`winningCells
      ensures Valid()
      ensures (State(), r) == ApplyTurn(old(State()), p.symbol, cell)
    {
      ghost var s := State();
      if status != Playing {
        return Rejected(NotActive);
      }
      if p.symbol != Some(currentTurn) {
        return Rejected(NotYourTurn);
      }
      if cell.None? || cell.value !in field {
        return Rejected(InvalidCell);
      }
      if field[cell.value] != None {
        return Rejected(InvalidTurn);
      }
      field := field[cell.value := p.symbol];
      var outcome := CheckWinner(field);
      assert ApplyTurn(s, p.symbol, cell).1 == Accepted(outcome);
      if outcome.GameOver() {
        status := Finished;
        winner := outcome.Winner();
        winningCells := outcome.WinningCells();
        return Accepted(outcome);
      }
      currentTurn := Other(currentTurn);
      return Accepted(NotOver);
    }

    /** The serialized snapshot: the code, the board, the turn, the status, the result and how many players are in. */
    function ToJson(): (v: GameView)
      reads this
      ensures v.code == code && v.playerCount == |players|
      ensures GameState(v.field, v.currentTurn, v.status, v.winner, v.winningCells) == State()
      ensures Valid() ==> WellFormed(v.field) && v.playerCount <= 2
    {
      GameView(code, field, currentTurn, status, |players|, winner, winningCells)
    }
  }
}
