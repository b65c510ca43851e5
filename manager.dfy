/**
 * The session manager of the game server: the registered players, the
 * active games (at most `MaxConcurrentGames` of them), the uid counter and
 * the three connection handlers. Each handler runs to completion before the
 * next one starts, so each is one method call. Every message the server
 * sends to a connection is appended to `outbox` as an `Emit`.
 */
module Manager {
  import opened Wrappers
  import opened Seqs
  import opened Board
  import opened Games

  /** How many games may be active at the same time. */
  const MaxConcurrentGames: nat := 2

  /** The events a connection can receive, with their payloads. */
  datatype Event =
    | ServerFull(message: string)
    | PairPlayers(oppName: string, oppUid: nat, mode: Option<Mode>, symbol: Option<Mark>, gameCode: string)
    | TurnError(error: string)
    | OppTurn(cellId: CellId)
    | GameOver(result: string, message: string, winningCells: Option<seq<CellId>>)
    | OpponentDisconnected(message: string)

  /** One message sent to the connection `to`. */
  datatype Emit = Emit(to: SocketId, event: Event)

  /** The name a joining player gets: the one sent, or "Guest" when it is missing or empty. */
  function PlayerName(name: Option<string>): (n: string)
    ensures name.Some? && name.value != "" ==> n == name.value
    ensures name.None? || name.value == "" ==> n == "Guest"
    ensures n != ""
  {
    if name.Some? && name.value != "" then name.value else "Guest"
  }

  /** A game a joining player can enter: not full and still waiting. */
  predicate Open(g: Game)
    reads g
  {
    !g.IsFull() && g.status == Waiting
  }

  /** The index of the first open game of `gs`, or -1. */
  function FirstOpen(gs: seq<Game>): (k: int)
    reads gs
    ensures -1 <= k < |gs|
    ensures k == -1 <==> forall i :: 0 <= i < |gs| ==> !Open(gs[i])
    ensures 0 <= k ==> Open(gs[k]) && forall i :: 0 <= i < k ==> !Open(gs[i])
  {
    if gs == [] then -1
    else if Open(gs[0]) then 0
    else
      var k := FirstOpen(gs[1..]);
      if k < 0 then -1 else k + 1
  }

  /** The index of the first game of `gs` without players, or -1. */
  function FirstEmpty(gs: seq<Game>): (k: int)
    reads gs
    ensures -1 <= k < |gs|
    ensures k == -1 <==> forall i :: 0 <= i < |gs| ==> !gs[i].IsEmpty()
    ensures 0 <= k ==> gs[k].IsEmpty() && forall i :: 0 <= i < k ==> !gs[i].IsEmpty()
  {
    if gs == [] then -1
    else if gs[0].IsEmpty() then 0
    else
      var k := FirstEmpty(gs[1..]);
      if k < 0 then -1 else k + 1
  }

  /** The first two players of `g`, the ones a full game pairs. */
  function FirstTwo(g: Game): set<Player>
    reads g
  {
    if |g.players| >= 2 then {g.players[0], g.players[1]} else {}
  }

  /**
   * `p` is in its game at the position its mark and role say: the first
   * member is 'x' and master, the second 'o' and slave. The game waits
   * with one member and is played with two.
   */
  predicate Seated(p: Player)
    reads p, GameOfPlayer(p)
  {
    && p.game != null && p in p.game.players
    && p.symbol == Some(if |p.game.players| == 1 then X else O)
    && p.mode == Some(if |p.game.players| == 1 then Master else Slave)
    && p.game.status == (if |p.game.players| == 2 then Playing else Waiting)
  }

  /**
   * What a joining player depends on in the manager before it joins: the
   * active games, the registered players, the messages sent so far, the
   * positions of the first open and the first empty game, whether any game
   * can take a player, and the members of the first open game.
   */
  datatype JoinView = JoinView(
    games: seq<Game>, players: seq<Player>, outbox: seq<Emit>,
    open: int, empty: int, canAdmit: bool, openPlayers: seq<Player>)

  /** The members of the game of `p`, as a set; empty without a game. */
  function Mates(p: Player): set<Player>
    reads p, GameOfPlayer(p)
  {
    if p.game != null then Members(p.game) else {}
  }

  /** The members of `g`, as a set. */
  function Members(g: Game): set<Player>
    reads g
  {
    set q | q in g.players
  }

  /** The opponent of `p`, as a set of at most one player. */
  function OppOf(p: Player): set<Player>
    reads p
  {
    if p.opp != null then {p.opp} else {}
  }

  /** The game of `p`, as a set of at most one game. */
  function GameOfPlayer(p: Player): set<Game>
    reads p
  {
    if p.game != null then {p.game} else {}
  }

  /** The `pair_players` notice for `me`: who the opponent is, and the role, mark and game code of `me`. */
  function PairNotice(me: Player, other: Player, code: string): Event
    reads me
  {
    PairPlayers(other.name, other.uid, me.mode, me.symbol, code)
  }

  /** Whether a turn with result `r` ends the game. */
  predicate EndsGame(r: TurnResult) {
    r.Accepted? && r.outcome.GameOver()
  }

  /**
   * The messages a turn with result `r` sends, `me` being the mover's
   * connection and `opp` the opponent's: a rejection goes to the mover
   * only; an accepted turn is forwarded to the opponent first; a finished
   * game then tells the mover and the opponent, in that order, the result
   * with the same winning cells: the same draw to both, or a win to the
   * mover and a loss to the opponent.
   */
  function TurnNotices(me: SocketId, opp: SocketId, cell: Option<CellId>, r: TurnResult): (es: seq<Emit>)
    requires r.Accepted? ==> cell.Some?
    ensures r.Rejected? ==> es == [Emit(me, TurnError(r.error.Message()))]
    ensures r.Accepted? ==> 1 <= |es| && es[0] == Emit(opp, OppTurn(cell.value))
    ensures r.Accepted? ==> (|es| == 1 <==> !EndsGame(r))
    ensures EndsGame(r) ==>
      && |es| == 3 && es[1].to == me && es[2].to == opp
      && es[1].event.GameOver? && es[2].event.GameOver?
      && es[1].event.winningCells == es[2].event.winningCells == r.outcome.WinningCells()
    ensures r.Accepted? && r.outcome.Draw? ==> es[1].event == es[2].event == GameOver("draw", "Draw", None)
    ensures r.Accepted? && r.outcome.Win? ==>
      es[1].event.result == "win" && es[2].event.result == "lose"
  {
    match r
    case Rejected(e) => [Emit(me, TurnError(e.Message()))]
    case Accepted(o) =>
      [Emit(opp, OppTurn(cell.value))] +
      match o
      case NotOver => []
      case Draw =>
        var over := GameOver("draw", "Draw", None);
        [Emit(me, over), Emit(opp, over)]
      case Win(_, cells) =>
        [Emit(me, GameOver("win", "You're the winner", Some(cells))),
         Emit(opp, GameOver("lose", "You have lost, try again", Some(cells)))]
  }

  /**
   * What holds of every game the manager created: its board invariant, at
   * most two members, no member twice, and every member `known` and
   * pointing back at this game.
   */
  ghost predicate GameInv(g: Game, known: set<Player>)
    reads g, known`game
  {
    && g.Valid() && Consistent(g.State()) && NoDuplicates(g.players)
    && forall q :: q in g.players ==> q in known && q.game == g
  }

  /**
   * What holds of every player the manager created: its uid is below
   * `bound`, it has a connection, its opponent is known, and its game is
   * known and lists it as a member.
   */
  ghost predicate PlayerInv(p: Player, games: set<Game>, known: set<Player>, bound: nat)
    reads p`sockid, p`opp, p`game, games`players
  {
    && p.uid < bound && p.sockid.Some?
    && (p.opp != null ==> p.opp in known)
    && (p.game != null ==> p.game in games && p in p.game.players)
  }

  /**
   * `o` is no longer anybody's partner: it has no opponent, and it is in
   * no game or in one that has started, which therefore admits nobody.
   */
  ghost predicate Released(o: Player, games: set<Game>)
    reads o`opp, o`game, games`status
  {
    o.opp == null && (o.game == null || (o.game in games && o.game.status != Waiting))
  }

  /**
   * The opponent link of `p`: while `p` is in a game, its opponent is a
   * different player of the same, started, game whose opponent is `p`;
   * once `p` has left its game, the player it still points at has been
   * released.
   */
  ghost predicate PairInv(p: Player, known: set<Player>, games: set<Game>)
    reads p`opp, p`game, known`opp, known`game, games`status
  {
    p.opp != null ==>
      && p.opp in known
      && (p.game != null ==>
            && p.game in games && p.game.status != Waiting
            && p.opp != p && p.opp.game == p.game && p.opp.opp == p)
      && (p.game == null ==> Released(p.opp, games))
  }

  /** Every game of `gs` keeps `GameInv`. */
  ghost predicate GamesOk(gs: set<Game>, known: set<Player>)
    reads gs, known`game
  {
    forall g :: g in gs ==> GameInv(g, known)
  }

  /** Every player of `ps` keeps `PlayerInv`. */
  ghost predicate PlayersOk(ps: set<Player>, gs: set<Game>, bound: nat)
    reads ps`sockid, ps`opp, ps`game, gs`players
  {
    forall p :: p in ps ==> PlayerInv(p, gs, ps, bound)
  }

  class GameManager {
    var players: seq<Player>
    var games: seq<Game>
    var nextUid: nat
    /** The player each connection announced itself as. */
    var sockets: map<SocketId, Player>
    var outbox: seq<Emit>
    /** Every player and every game ever created under this manager. */
    ghost var AllPlayers: set<Player>
    ghost var AllGames: set<Game>

    /**
     * The invariant of the manager: the capacity limit holds, neither list
     * repeats an entry, the lists and the connections refer to known games
     * and players, the player bound to a connection carries that
     * connection's id, and each known game and player keeps its own
     * invariant.
     */
    ghost predicate Valid()
      reads this`players, this`games, this`nextUid, this`sockets, this`AllPlayers, this`AllGames
      reads AllPlayers`sockid, AllPlayers`opp, AllPlayers`game, AllGames
    {
      && |games| <= MaxConcurrentGames
      && NoDuplicates(games) && NoDuplicates(players)
      && (forall g :: g in games ==> g in AllGames)
      && (forall p :: p in players ==> p in AllPlayers)
      && (forall sid :: sid in sockets ==> sockets[sid] in AllPlayers && sockets[sid].sockid == Some(sid))
      && GamesOk(AllGames, AllPlayers)
      && PlayersOk(AllPlayers, AllGames, nextUid)
    }

    /** Every known player keeps `PairInv`: opponents come in pairs. */
    ghost predicate Paired()
      reads this`AllPlayers, this`AllGames, AllPlayers`opp, AllPlayers`game, AllGames`status
    {
      forall p :: p in AllPlayers ==> PairInv(p, AllPlayers, AllGames)
    }

    /** Every known player but `x` keeps `PairInv`. */
    ghost predicate PairedExcept(x: Player)
      reads this`AllPlayers, this`AllGames, AllPlayers`opp, AllPlayers`game, AllGames`status
    {
      forall p :: p in AllPlayers && p != x ==> PairInv(p, AllPlayers, AllGames)
    }

    /** A fresh manager: nobody registered, no game, no message sent, uids from 1. */
    constructor ()
      ensures Valid() && Paired()
      ensures players == [] && games == [] && sockets == map[] && outbox == []
      ensures nextUid == 1
    {
      players := [];
      games := [];
      nextUid := 1;
      sockets := map[];
      outbox := [];
      AllPlayers := {};
      AllGames := {};
    }

    /** Sends the messages `es`, in order: appends them to the messages sent so far. */
    method Send(es: seq<Emit>)
      requires Valid()
      modifies this`outbox
      ensures Valid() && outbox == old(outbox) + es
    {
      outbox := outbox + es;
    }

    /** Hands out the counter's value and advances it: the uid is above every uid handed out before. */
    method GenerateUid() returns (uid: nat)
      requires Valid()
      modifies this`nextUid
      ensures Valid()
      ensures uid == old(nextUid) && nextUid == uid + 1
      ensures forall p :: p in AllPlayers ==> p.uid < uid
    {
      uid := nextUid;
      nextUid := nextUid + 1;
    }

    /** Deletes `g` from the active games if it is there. */
    method RemoveGameFromList(g: Game)
      requires Valid()
      modifies this`games
      ensures Valid()
      ensures games == RemoveFirst(old(games), g)
      ensures g !in games && forall h :: h in games <==> h in old(games) && h != g
    {
      RemoveFirstDistinct(games, g);
      games := RemoveFirst(games, g);
    }

    /** Deletes `p` from the registered players if it is there. */
    method RemovePlayerFrom(p: Player)
      requires Valid()
      modifies this`players
      ensures Valid()
      ensures players == RemoveFirst(old(players), p)
      ensures p !in players && forall q :: q in players <==> q in old(players) && q != p
    {
      RemoveFirstDistinct(players, p);
      players := RemoveFirst(players, p);
    }

    /** The first open game, as a set of at most one game: the only active game a joining player changes. */
    function OpenGame(): set<Game>
      reads this`games, games
    {
      if FirstOpen(games) >= 0 then {games[FirstOpen(games)]} else {}
    }

    /** The members of the first open game: the only players a joining player changes besides itself. */
    function OpenMembers(): set<Player>
      reads this`games, games
    {
      if FirstOpen(games) >= 0 then Members(games[FirstOpen(games)]) else {}
    }

    /** Whether a joining player finds a game: an open one, a free slot, or an empty game to replace. */
    predicate CanAdmit()
      reads this`games, games
    {
      FirstOpen(games) >= 0 || |games| < MaxConcurrentGames || FirstEmpty(games) >= 0
    }

    /** The manager as a joining player sees it. */
    function View(): JoinView
      reads this`games, this`players, this`outbox, games
    {
      var k := FirstOpen(games);
      JoinView(games, players, outbox, k, FirstEmpty(games), CanAdmit(), if k >= 0 then games[k].players else [])
    }

    /**
     * `p` has joined a manager that looked like `v` before. When no game
     * could take it, only its connection was told that the server is full
     * and neither list changed. Otherwise it is registered and seated: in
     * the first open game, with the list of games unchanged, or else in a
     * new game with code `code` and a new board, appended to the games
     * (after dropping the first empty game at the limit). A game it filled
     * pairs both members and tells each of the other, first member first;
     * otherwise nothing is sent.
     */
    predicate Joined(p: Player, code: string, v: JoinView)
      reads this`players, this`games, this`outbox, p, GameOfPlayer(p), Mates(p)
    {
      && p.sockid.Some?
      && (!v.canAdmit ==>
            && outbox == v.outbox + [Emit(p.sockid.value, ServerFull("Server Full"))]
            && players == v.players && games == v.games && p.game == null)
      && (v.canAdmit ==>
            && players == v.players + [p] && Seated(p) && p.game in games
            && (|p.game.players| < 2 ==> outbox == v.outbox)
            && (|p.game.players| == 2 ==>
                  var g := p.game;
                  var p1 := g.players[0];
                  && g.players[1] == p && p1.sockid.Some?
                  && p1.opp == p && p.opp == p1
                  && p1.status == "paired" && p.status == "paired"
                  && outbox == v.outbox + [Emit(p1.sockid.value, PairNotice(p1, p, g.code)),
                                           Emit(p.sockid.value, PairNotice(p, p1, g.code))]))
      && (v.open >= 0 ==>
            && v.open < |v.games| && p.game == v.games[v.open]
            && games == v.games && p.game.players == v.openPlayers + [p])
      && (v.open < 0 && v.canAdmit ==>
            && p.game != null && p.game.code == code && p.game.players == [p] && p.game.State() == NewGame())
      && (v.open < 0 && |v.games| < MaxConcurrentGames ==> games == v.games + [p.game])
      && (v.open < 0 && |v.games| >= MaxConcurrentGames && v.empty >= 0 ==>
            v.empty < |v.games| && games == RemoveFirst(v.games, v.games[v.empty]) + [p.game])
    }

    /**
     * The game a joining player enters: the first open game; otherwise a
     * new game with code `code`, made room for at the limit by dropping the
     * first empty game; null when the limit is reached and no game is empty.
     */
    method FindOrCreateGame(code: string) returns (g: Game?)
      requires Valid() && Paired()
      modifies this`games, this`AllGames
      ensures Valid() && Paired()
      ensures |games| <= MaxConcurrentGames
      ensures g == null <==> !old(CanAdmit())
      ensures old(FirstOpen(games)) >= 0 ==>
        g == old(games[FirstOpen(games)]) && games == old(games) && AllGames == old(AllGames)
      ensures old(FirstOpen(games)) < 0 && old(|games|) < MaxConcurrentGames ==>
        g != null && fresh(g) && games == old(games) + [g]
      ensures old(FirstOpen(games)) < 0 && old(|games|) >= MaxConcurrentGames && old(FirstEmpty(games)) >= 0 ==>
        g != null && fresh(g) && games == RemoveFirst(old(games), old(games[FirstEmpty(games)])) + [g]
      ensures g == null ==> games == old(games) && AllGames == old(AllGames)
      ensures g != null ==> g in games && Open(g) && (g in old(games) || fresh(g))
      ensures g != null && fresh(g) ==>
        g.code == code && Untouched(g.State()) && g.players == [] && AllGames == old(AllGames) + {g}
    {
      var k := FirstOpen(games);
      if k >= 0 {
        return games[k];
      }
      if |games| >= MaxConcurrentGames {
        var e := FirstEmpty(games);
        if e >= 0 {
          RemoveGameFromList(games[e]);
        } else {
          return null;
        }
      }
      g := PushNewGame(code);
    }

    /** Creates a game with code `code` and appends it to the active games, below the limit. */
    method PushNewGame(code: string) returns (g: Game)
      requires Valid() && Paired() && |games| < MaxConcurrentGames
      modifies this`games, this`AllGames
      ensures Valid() && Paired()
      ensures fresh(g) && games == old(games) + [g] && AllGames == old(AllGames) + {g}
      ensures g.code == code && Untouched(g.State()) && g.players == []
    {
      g := TrackGame(code);
      forall q | q in AllPlayers
        ensures PairInv(q, AllPlayers, AllGames)
      {
        assert old(PairInv(q, AllPlayers, AllGames));
      }
    }

    /** Creates a game with code `code` and appends it to the active games. */
    method TrackGame(code: string) returns (g: Game)
      requires Valid() && |games| < MaxConcurrentGames
      modifies this`games, this`AllGames
      ensures Valid()
      ensures fresh(g) && games == old(games) + [g] && AllGames == old(AllGames) + {g}
      ensures g.code == code && Untouched(g.State()) && g.players == []
    {
      g := new Game(code);
      AppendDistinct(games, g);
      games := games + [g];
      AllGames := AllGames + {g};
      forall h | h in AllGames
        ensures GameInv(h, AllPlayers)
      {
        if h != g {
          assert old(GameInv(h, AllPlayers));
        }
      }
      forall q | q in AllPlayers
        ensures PlayerInv(q, AllGames, AllPlayers, nextUid)
      {
        assert old(PlayerInv(q, AllGames, AllPlayers, nextUid));
      }
    }

    /** The members of a known game are known players with a connection. */
    lemma MembersConnected(g: Game)
      requires Valid() && g in AllGames
      ensures forall q :: q in g.players ==> q in AllPlayers && q.sockid.Some?
    {
      assert GameInv(g, AllPlayers);
      forall q | q in g.players
        ensures q in AllPlayers && q.sockid.Some?
      {
        assert PlayerInv(q, AllGames, AllPlayers, nextUid);
      }
    }

    /**
     * Pairs the two players of a full game: both become "paired", each is
     * the other's opponent, and each is sent a `pair_players` notice naming
     * the other. A game that is not full is left alone.
     */
    method StartGameIfReady(g: Game)
      requires Valid() && Paired() && g in AllGames && (g.IsFull() ==> g.status != Waiting)
      requires forall q :: q in g.players ==> q.opp == null
      requires forall r :: r in AllPlayers && r.opp != null ==> r.opp !in g.players
      modifies this`outbox, FirstTwo(g)`status, FirstTwo(g)`opp
      ensures Valid() && Paired()
      ensures !g.IsFull() ==> outbox == old(outbox)
      ensures g.IsFull() ==> g.players[0].sockid.Some? && g.players[1].sockid.Some?
      ensures g.IsFull() ==>
        var p1, p2 := g.players[0], g.players[1];
        && p1.status == "paired" && p2.status == "paired"
        && p1.opp == p2 && p2.opp == p1
        && outbox == old(outbox) + [Emit(p1.sockid.value, PairNotice(p1, p2, g.code)),
                                    Emit(p2.sockid.value, PairNotice(p2, p1, g.code))]
    {
      if !g.IsFull() {
        return;
      }
      MembersConnected(g);
      assert GameInv(g, AllPlayers);
      var p1, p2 := g.players[0], g.players[1];
      Pair(p1, p2);
      Send([Emit(p1.sockid.value, PairNotice(p1, p2, g.code)),
            Emit(p2.sockid.value, PairNotice(p2, p1, g.code))]);
    }

    /** Makes `p1` and `p2` each other's opponent, both "paired". */
    method Pair(p1: Player, p2: Player)
      requires Valid() && Paired() && p1 in AllPlayers && p2 in AllPlayers && p1 != p2
      requires p1.game != null && p2.game == p1.game && p1.game.status != Waiting
      requires p1.opp == null && p2.opp == null
      requires forall r :: r in AllPlayers && r.opp != null ==> r.opp != p1 && r.opp != p2
      modifies p1`status, p1`opp, p2`status, p2`opp
      ensures Valid() && Paired()
      ensures p1.status == "paired" && p2.status == "paired" && p1.opp == p2 && p2.opp == p1
    {
      Link(p1, p2);
      Link(p2, p1);
      assert PlayerInv(p1, AllGames, AllPlayers, nextUid);
      forall q | q in AllPlayers && q != p1 && q != p2
        ensures PairInv(q, AllPlayers, AllGames)
      {
        assert old(PairInv(q, AllPlayers, AllGames));
      }
    }

    /** Makes `o` the opponent of `p`, which becomes "paired". */
    method Link(p: Player, o: Player)
      requires Valid() && p in AllPlayers && o in AllPlayers
      modifies p`status, p`opp
      ensures Valid() && p.opp == o && p.status == "paired"
    {
      p.status := "paired";
      p.opp := o;
      forall q | q in AllPlayers
        ensures PlayerInv(q, AllGames, AllPlayers, nextUid)
      {
        assert old(PlayerInv(q, AllGames, AllPlayers, nextUid));
      }
    }

    /**
     * `p` is known and connected but has not joined: it is registered
     * nowhere, has no game and no opponent, is in no game's list of
     * members, and nobody has it as an opponent.
     */
    ghost predicate Newcomer(p: Player)
      reads this`players, this`AllGames, this`AllPlayers, AllGames, AllPlayers, p
    {
      && p in AllPlayers && p !in players && p.game == null && p.opp == null && p.sockid.Some?
      && (forall h :: h in AllGames ==> p !in h.players)
      && (forall q :: q in AllPlayers ==> q.opp != p)
    }

    /**
     * Creates the joining player with the next uid, the sent name (or
     * "Guest") and status "looking", and binds the connection `sid` to it.
     */
    method NewPlayer(sid: SocketId, name: Option<string>) returns (p: Player)
      requires Valid() && Paired()
      modifies this`nextUid, this`sockets, this`AllPlayers
      ensures Valid() && Paired()
      ensures fresh(p) && AllPlayers == old(AllPlayers) + {p} && sockets == old(sockets)[sid := p]
      ensures p.uid == old(nextUid) && nextUid == old(nextUid) + 1
      ensures forall q :: q in old(AllPlayers) ==> q.uid < p.uid
      ensures p.name == PlayerName(name) && p.status == "looking" && p.sockid == Some(sid)
      ensures p.game == null && p.opp == null && p.symbol == None && p.mode == None
      ensures Newcomer(p)
    {
      p := BindPlayer(sid, name);
      forall q | q in AllPlayers
        ensures PairInv(q, AllPlayers, AllGames) && q.opp != p
      {
        if q != p {
          assert old(PairInv(q, AllPlayers, AllGames));
          assert old(PlayerInv(q, AllGames, AllPlayers, nextUid));
        }
      }
    }

    /**
     * Records the player `p`, not yet known and in no game, and binds the
     * connection `sid` to it, keeping the invariant.
     */
    method Adopt(p: Player, sid: SocketId)
      requires Valid() && p !in AllPlayers && p.uid < nextUid && p.sockid == Some(sid)
      requires p.game == null && p.opp == null && forall h :: h in AllGames ==> p !in h.players
      modifies this`sockets, this`AllPlayers
      ensures Valid() && AllPlayers == old(AllPlayers) + {p} && sockets == old(sockets)[sid := p]
    {
      sockets := sockets[sid := p];
      AllPlayers := AllPlayers + {p};
      forall g | g in AllGames
        ensures GameInv(g, AllPlayers)
      {
        assert old(GameInv(g, AllPlayers));
      }
      forall q | q in AllPlayers
        ensures PlayerInv(q, AllGames, AllPlayers, nextUid)
      {
        if q != p {
          assert old(PlayerInv(q, AllGames, AllPlayers, nextUid));
        }
      }
    }

    /** Creates the player for `sid` as `NewPlayer` describes, keeping the invariant. */
    method BindPlayer(sid: SocketId, name: Option<string>) returns (p: Player)
      requires Valid()
      modifies this`nextUid, this`sockets, this`AllPlayers
      ensures Valid()
      ensures fresh(p) && AllPlayers == old(AllPlayers) + {p} && sockets == old(sockets)[sid := p]
      ensures p.uid == old(nextUid) && nextUid == old(nextUid) + 1
      ensures forall q :: q in old(AllPlayers) ==> q.uid < p.uid
      ensures p.name == PlayerName(name) && p.status == "looking" && p.sockid == Some(sid)
      ensures p.game == null && p.opp == null && p.symbol == None && p.mode == None
      ensures p !in players && forall h :: h in AllGames ==> p !in h.players
    {
      var uid := GenerateUid();
      p := new Player(uid, PlayerName(name), "looking");
      p.sockid := Some(sid);
      Adopt(p, sid);
    }

    /** Appends `p` to the registered players. */
    method Register(p: Player)
      requires Valid() && p in AllPlayers && p !in players
      modifies this`players
      ensures Valid() && players == old(players) + [p]
    {
      AppendDistinct(players, p);
      players := players + [p];
    }

    /**
     * Nobody is paired with a member of a waiting game: its members have
     * no opponent, and no known player points at one of them.
     */
    lemma WaitingUnpaired(g: Game)
      requires Valid() && Paired() && g in AllGames && g.status == Waiting
      ensures forall q :: q in g.players ==> q.opp == null
      ensures forall r :: r in AllPlayers && r.opp != null ==> r.opp !in g.players
    {
      assert GameInv(g, AllPlayers);
      forall q | q in g.players
        ensures q.opp == null
      {
        assert PairInv(q, AllPlayers, AllGames);
      }
      forall r | r in AllPlayers && r.opp != null
        ensures r.opp !in g.players
      {
        assert PairInv(r, AllPlayers, AllGames);
      }
    }

    /** Adds `p`, in no game yet, to the open game `g`, with the mark and role its position gives. */
    method AddToGame(p: Player, g: Game)
      requires Valid() && Paired() && p in AllPlayers && g in AllGames && Open(g) && p.game == null
      requires p.opp == null && forall q :: q in AllPlayers ==> q.opp != p
      modifies g`players, g`status, p`game, p`symbol, p`mode
      ensures Valid() && Paired()
      ensures forall q :: q in g.players ==> q.opp == null
      ensures forall r :: r in AllPlayers && r.opp != null ==> r.opp !in g.players
      ensures g.players == old(g.players) + [p] && p.game == g
      ensures p.symbol == Some(if |g.players| == 1 then X else O)
      ensures p.mode == Some(if |g.players| == 1 then Master else Slave)
      ensures g.status == if |g.players| == 2 then Playing else Waiting
    {
      WaitingUnpaired(g);
      Attach(p, g);
      forall q | q in AllPlayers && q != p
        ensures PairInv(q, AllPlayers, AllGames)
      {
        assert old(PairInv(q, AllPlayers, AllGames));
        if q.opp != null {
          assert old(PlayerInv(q.opp, AllGames, AllPlayers, nextUid));
        }
      }
    }

    /** `Game.AddPlayer` on the open game `g` for `p`, which is in no game yet. */
    method Attach(p: Player, g: Game)
      requires Valid() && p in AllPlayers && g in AllGames && Open(g) && p.game == null
      modifies g`players, g`status, p`game, p`symbol, p`mode
      ensures Valid()
      ensures g.players == old(g.players) + [p] && p.game == g
      ensures p.symbol == Some(if |g.players| == 1 then X else O)
      ensures p.mode == Some(if |g.players| == 1 then Master else Slave)
      ensures g.status == if |g.players| == 2 then Playing else Waiting
    {
      ghost var s := g.State();
      assert GameInv(g, AllPlayers);
      assert p !in g.players;
      var _ := g.AddPlayer(p);
      assert GameInv(g, AllPlayers) by {
        AppendDistinct(old(g.players), p);
        StartKeepsConsistent(s);
      }
      forall h | h in AllGames && h != g
        ensures GameInv(h, AllPlayers)
      {
        assert old(GameInv(h, AllPlayers));
        assert p !in h.players;
      }
      forall q | q in AllPlayers
        ensures PlayerInv(q, AllGames, AllPlayers, nextUid)
      {
        assert old(PlayerInv(q, AllGames, AllPlayers, nextUid));
      }
    }

    /** Registers `p` and adds it to the open game `g`. */
    method Admit(p: Player, g: Game)
      requires Valid() && Paired() && p in AllPlayers && p !in players && g in AllGames && p !in g.players && Open(g)
      requires p.game == null && p.opp == null && forall q :: q in AllPlayers ==> q.opp != p
      modifies this`players, g`players, g`status, p`game, p`symbol, p`mode
      ensures Valid() && Paired()
      ensures forall q :: q in g.players ==> q.opp == null
      ensures forall r :: r in AllPlayers && r.opp != null ==> r.opp !in g.players
      ensures players == old(players) + [p] && g.players == old(g.players) + [p] && p.game == g
      ensures p.symbol == Some(if |g.players| == 1 then X else O)
      ensures p.mode == Some(if |g.players| == 1 then Master else Slave)
      ensures g.status == if |g.players| == 2 then Playing else Waiting
    {
      Register(p);
      AddToGame(p, g);
    }

    /** Registers `p`, adds it to the open game `g`, and starts `g` if that made it full. */
    method Enter(p: Player, g: Game)
      requires Valid() && p in AllPlayers && p !in players && g in AllGames && p !in g.players && Open(g)
      requires p.game == null && p.sockid.Some? && Paired()
      requires p.opp == null && forall q :: q in AllPlayers ==> q.opp != p
      modifies this`players, this`outbox, g`players, g`status, p`game, p`symbol, p`mode, p`status, p`opp
      modifies Members(g)`status, Members(g)`opp
      ensures Valid() && Paired()
      ensures players == old(players) + [p] && g.players == old(g.players) + [p] && p.game == g
      ensures p.symbol == Some(if |g.players| == 1 then X else O)
      ensures p.mode == Some(if |g.players| == 1 then Master else Slave)
      ensures g.status == if |g.players| == 2 then Playing else Waiting
      ensures |g.players| < 2 ==> outbox == old(outbox) && p.status == old(p.status)
      ensures |g.players| == 2 ==>
        var p1 := g.players[0];
        && p1.sockid.Some?
        && p1.opp == p && p.opp == p1
        && p1.status == "paired" && p.status == "paired"
        && outbox == old(outbox) + [Emit(p1.sockid.value, PairNotice(p1, p, g.code)),
                                    Emit(p.sockid.value, PairNotice(p, p1, g.code))]
    {
      Admit(p, g);
      assert forall q :: q in FirstTwo(g) ==> q == p || q in old(Members(g));
      StartGameIfReady(g);
    }

    /**
     * Finds a game for the new player `p` and lets it in. When no game can
     * take it, only its connection is told that the server is full and
     * nothing else changes; otherwise `p` is registered, enters the game,
     * and the game starts if that made it full.
     */
    method Join(p: Player, code: string, ghost v: JoinView)
      requires v == View()
      requires Valid() && Paired() && Newcomer(p)
      modifies this`players, this`games, this`AllGames, this`outbox, OpenGame()`players, OpenGame()`status
      modifies p`game, p`symbol, p`mode, p`status, p`opp, OpenMembers()`status, OpenMembers()`opp
      ensures Valid() && Paired() && Joined(p, code, v)
      ensures !v.canAdmit ==> unchanged(p)
      ensures v.canAdmit && |p.game.players| < 2 ==> p.status == old(p.status)
      ensures v.open < 0 && v.canAdmit ==> fresh(p.game)
    {
      var g := FindOrCreateGame(code);
      if g == null {
        Send([Emit(p.sockid.value, ServerFull("Server Full"))]);
        return;
      }
      ghost var found := games;
      if fresh(g) {
        UntouchedIsNewGame(g.State());
      }
      Enter(p, g);
      assert games == found && Seated(p) && p.game == g && players == v.players + [p];
    }

    /**
     * A connection `sid` announces itself as a new player. The player gets
     * a fresh uid, the sent name (or "Guest") and status "looking", the
     * connection is bound to it, and it joins a game as `Join` describes.
     */
    method OnNewPlayer(sid: SocketId, name: Option<string>, code: string) returns (p: Player)
      requires Valid() && Paired()
      modifies this`players, this`games, this`outbox, this`nextUid, this`sockets, this`AllPlayers, this`AllGames
      modifies OpenGame()`players, OpenGame()`status, OpenMembers()`status, OpenMembers()`opp
      ensures Valid() && Paired()
      ensures fresh(p) && p in AllPlayers && sockets == old(sockets)[sid := p] && nextUid == old(nextUid) + 1
      ensures p.uid == old(nextUid) && p.name == PlayerName(name) && p.sockid == Some(sid)
      ensures forall q :: q in old(AllPlayers) ==> q.uid < p.uid
      ensures Joined(p, code, old(View()))
      ensures !old(View()).canAdmit ==> p.status == "looking" && p.opp == null && p.symbol == None && p.mode == None
      ensures old(View()).canAdmit && |p.game.players| < 2 ==> p.status == "looking"
      ensures old(View()).open < 0 && old(View()).canAdmit ==> fresh(p.game)
    {
      ghost var v := View();
      p := NewPlayer(sid, name);
      Join(p, code, v);
    }

    /** Whether the connection `sid` is bound to a player that is in a game and has an opponent. */
    predicate InPlay(sid: SocketId)
      reads this`sockets, sockets.Values
    {
      sid in sockets && sockets[sid].game != null && sockets[sid].opp != null
    }

    /** The player bound to `sid`, as a set of at most one player. */
    function BoundPlayer(sid: SocketId): set<Player>
      reads this`sockets
    {
      if sid in sockets then {sockets[sid]} else {}
    }

    /** The opponent of the player bound to `sid`, as a set of at most one player. */
    function BoundOpp(sid: SocketId): set<Player>
      reads this`sockets, sockets.Values
    {
      if sid in sockets && sockets[sid].opp != null then {sockets[sid].opp} else {}
    }

    /** The game of the player bound to `sid`, as a set of at most one game. */
    function GameOf(sid: SocketId): set<Game>
      reads this`sockets, sockets.Values
    {
      if sid in sockets && sockets[sid].game != null then {sockets[sid].game} else {}
    }

    /** A paired player in a game shares it with exactly its opponent: the game's members are the two of them. */
    lemma OpponentIsOtherMember(p: Player)
      requires Valid() && Paired() && p in AllPlayers && p.game != null && p.opp != null
      ensures p.game.players == [p, p.opp] || p.game.players == [p.opp, p]
    {
      var g := p.game;
      assert PairInv(p, AllPlayers, AllGames) && PlayerInv(p, AllGames, AllPlayers, nextUid);
      assert PlayerInv(p.opp, AllGames, AllPlayers, nextUid);
      assert GameInv(g, AllPlayers);
      TwoDistinct(g.players, p, p.opp);
    }

    /**
     * `TakeTurn`, which also keeps every pairing: a turn never sends a game
     * back to waiting.
     */
    method Move(p: Player, g: Game, cell: Option<CellId>) returns (r: TurnResult)
      requires Valid() && Paired() && g in AllGames
      modifies g`field, g`currentTurn, g`status, g`winner, g`winningCells
      ensures Valid() && Paired()
      ensures g.status == Waiting <==> old(g.status) == Waiting
      ensures (g.State(), r) == ApplyTurn(old(g.State()), p.symbol, cell)
      ensures r.Accepted? && r.outcome.Win? ==> g.winner == p.symbol
    {
      r := TakeTurn(p, g, cell);
      forall q | q in AllPlayers ensures PairInv(q, AllPlayers, AllGames) {
        assert old(PairInv(q, AllPlayers, AllGames));
      }
    }

    /**
     * Applies the turn of `p` on `cell` to its game `g` and keeps the
     * manager's invariant: the game changes exactly as `ApplyTurn` says,
     * and a winning turn is won by `p`.
     */
    method TakeTurn(p: Player, g: Game, cell: Option<CellId>) returns (r: TurnResult)
      requires Valid() && g in AllGames
      modifies g`field, g`currentTurn, g`status, g`winner, g`winningCells
      ensures Valid()
      ensures (g.State(), r) == ApplyTurn(old(g.State()), p.symbol, cell)
      ensures r.Accepted? && r.outcome.Win? ==> g.winner == p.symbol
    {
      ghost var s := g.State();
      assert GameInv(g, AllPlayers);
      r := g.MakeTurn(p, cell);
      ApplyTurnKeepsConsistent(s, p.symbol, cell);
      if r.Accepted? && r.outcome.Win? {
        WinnerIsMover(s, p.symbol, cell);
      }
      forall h | h in AllGames
        ensures GameInv(h, AllPlayers)
      {
        if h != g {
          assert old(GameInv(h, AllPlayers));
        }
      }
      forall q | q in AllPlayers
        ensures PlayerInv(q, AllGames, AllPlayers, nextUid)
      {
        assert old(PlayerInv(q, AllGames, AllPlayers, nextUid));
      }
    }

    /**
     * Sends what the result `r` of a turn of `p` on `cell` calls for: a
     * rejection goes to `p` only; an accepted turn goes to the opponent;
     * a finished game then tells both sides the result and is dropped
     * from the active games.
     */
    method Report(p: Player, cell: Option<CellId>, r: TurnResult)
      requires Valid() && p in AllPlayers && p.game != null && p.opp != null
      requires r.Accepted? ==> cell.Some?
      modifies this`outbox, this`games
      ensures Valid()
      ensures p.sockid.Some? && p.opp.sockid.Some?
      ensures outbox == old(outbox) + TurnNotices(p.sockid.value, p.opp.sockid.value, cell, r)
      ensures games == if EndsGame(r) then RemoveFirst(old(games), p.game) else old(games)
    {
      assert PlayerInv(p, AllGames, AllPlayers, nextUid);
      assert PlayerInv(p.opp, AllGames, AllPlayers, nextUid);
      Send(TurnNotices(p.sockid.value, p.opp.sockid.value, cell, r));
      if EndsGame(r) {
        RemoveGameFromList(p.game);
      }
    }

    /**
     * `p`, in a game and paired, plays `cell`. A rejected turn is reported
     * to `p` only; an accepted one is forwarded to the opponent only; a
     * finished game then tells both sides the result and is dropped from
     * the active games.
     */
    method Play(p: Player, cell: Option<CellId>)
      requires Valid() && Paired() && p in AllPlayers && p.game != null && p.opp != null
      modifies this`outbox, this`games
      modifies p.game`field, p.game`currentTurn, p.game`status, p.game`winner, p.game`winningCells
      ensures Valid() && Paired()
      ensures p.sockid.Some? && p.opp.sockid.Some?
      ensures p.game.players == [p, p.opp] || p.game.players == [p.opp, p]
      ensures p.game.State() == ApplyTurn(old(p.game.State()), p.symbol, cell).0
      ensures
        var r := ApplyTurn(old(p.game.State()), p.symbol, cell).1;
        && outbox == old(outbox) + TurnNotices(p.sockid.value, p.opp.sockid.value, cell, r)
        && games == (if EndsGame(r) then RemoveFirst(old(games), p.game) else old(games))
        && (r.Accepted? && r.outcome.Win? ==> p.game.winner == p.symbol)
    {
      var g := p.game;
      OpponentIsOtherMember(p);
      var r := Move(p, g, cell);
      Report(p, cell, r);
    }

    /**
     * The player bound to `sid` plays `cell`. Without a bound player, a
     * game or an opponent nothing happens and `p` is null; otherwise `p` is
     * that player and the turn goes as `Play` describes.
     */
    method OnTurn(sid: SocketId, cell: Option<CellId>) returns (p: Player?)
      requires Valid() && Paired()
      modifies this`outbox, this`games
      modifies GameOf(sid)`field, GameOf(sid)`currentTurn, GameOf(sid)`status
      modifies GameOf(sid)`winner, GameOf(sid)`winningCells
      ensures Valid() && Paired()
      ensures p == null <==> !old(InPlay(sid))
      ensures p == null ==> outbox == old(outbox) && games == old(games) && forall g :: g in GameOf(sid) ==> unchanged(g)
      ensures p != null ==> p == sockets[sid] && p.game != null && p.opp != null
      ensures p != null ==> p.sockid == Some(sid) && p.opp.sockid.Some?
      ensures p != null ==> p.game.players == [p, p.opp] || p.game.players == [p.opp, p]
      ensures p != null ==> p.game.State() == ApplyTurn(old(p.game.State()), p.symbol, cell).0
      ensures p != null ==>
        var r := ApplyTurn(old(p.game.State()), p.symbol, cell).1;
        && outbox == old(outbox) + TurnNotices(p.sockid.value, p.opp.sockid.value, cell, r)
        && games == (if EndsGame(r) then RemoveFirst(old(games), p.game) else old(games))
        && (r.Accepted? && r.outcome.Win? ==> p.game.winner == p.symbol)
    {
      p := InPlayAt(sid);
      if p != null {
        Play(p, cell);
      }
    }

    /** The player bound to `sid` when it is in a game with an opponent, and null otherwise. */
    method InPlayAt(sid: SocketId) returns (p: Player?)
      requires Valid()
      ensures p == null <==> !InPlay(sid)
      ensures p != null ==> p == sockets[sid] && p in AllPlayers && p.sockid == Some(sid)
    {
      if sid !in sockets {
        return null;
      }
      p := sockets[sid];
      if p.game == null || p.opp == null {
        return null;
      }
      assert PlayerInv(p, AllGames, AllPlayers, nextUid);
    }

    /**
     * Tells the opponent of the leaving player `p`, if any, that `p` left,
     * and sends it back to "looking" without an opponent.
     */
    method NotifyOpponent(p: Player)
      requires Valid() && Paired() && p in AllPlayers
      modifies this`outbox, OppOf(p)`status, OppOf(p)`opp
      ensures Valid() && PairedExcept(p)
      ensures p.opp == old(p.opp) && p.game == old(p.game)
      ensures p.opp != null ==> Released(p.opp, AllGames)
      ensures old(p.opp) == null ==> outbox == old(outbox)
      ensures old(p.opp) != null ==>
        var o := old(p.opp);
        && o.sockid.Some?
        && outbox == old(outbox) + [Emit(o.sockid.value, OpponentDisconnected("Opponent disconnected"))]
        && o.status == "looking" && o.opp == null
    {
      if p.opp == null {
        return;
      }
      var o := p.opp;
      assert PlayerInv(p, AllGames, AllPlayers, nextUid);
      assert PlayerInv(o, AllGames, AllPlayers, nextUid);
      Send([Emit(o.sockid.value, OpponentDisconnected("Opponent disconnected"))]);
      Unlink(p, o);
    }

    /**
     * The opponent `o` of the leaving player `p` goes back to "looking"
     * without an opponent. Afterwards nobody but `p` points at `o` as an
     * opponent, so every pairing except that of `p` still holds, and `o`
     * is released.
     */
    method Unlink(p: Player, o: Player)
      requires Valid() && Paired() && p in AllPlayers && p.opp == o
      modifies o`status, o`opp
      ensures Valid() && PairedExcept(p)
      ensures o != p && Released(o, AllGames)
      ensures o.status == "looking" && o.opp == null
    {
      assert PairInv(p, AllPlayers, AllGames);
      assert o != p;
      // whoever else was paired with `o` would be `p`
      assert forall q :: q in AllPlayers && q.opp == o && q != p ==> o.opp != q by {
        forall q | q in AllPlayers && q.opp == o && q != p
          ensures o.opp != q
        {
          assert PairInv(q, AllPlayers, AllGames);
        }
      }
      o.status := "looking";
      o.opp := null;
      forall q | q in AllPlayers
        ensures PlayerInv(q, AllGames, AllPlayers, nextUid)
      {
        assert old(PlayerInv(q, AllGames, AllPlayers, nextUid));
      }
      forall q | q in AllPlayers && q != p
        ensures PairInv(q, AllPlayers, AllGames)
      {
        assert old(PairInv(q, AllPlayers, AllGames));
      }
    }

    /** Takes `p` out of its game `g`; `p` is left without a game and a mark. */
    method Detach(p: Player, g: Game)
      requires Valid() && p in AllPlayers && p.game == g
      modifies g`players, p`game, p`symbol
      ensures Valid()
      ensures g.players == RemoveFirst(old(g.players), p)
      ensures p.game == null && p.symbol == None
    {
      assert PlayerInv(p, AllGames, AllPlayers, nextUid);
      assert GameInv(g, AllPlayers);
      ghost var s := g.State();
      g.RemovePlayer(p);
      assert GameInv(g, AllPlayers) by {
        assert g.State() == s;
        forall q | q in g.players
          ensures q in AllPlayers
        {
          assert q in old(g.players);
        }
      }
      forall h | h in AllGames
        ensures GameInv(h, AllPlayers)
      {
        if h != g {
          assert old(GameInv(h, AllPlayers));
        }
      }
      forall q | q in AllPlayers
        ensures PlayerInv(q, AllGames, AllPlayers, nextUid)
      {
        assert old(PlayerInv(q, AllGames, AllPlayers, nextUid));
      }
    }

    /**
     * `Detach`, for a leaving player whose opponent is already released:
     * nobody in a game points at `p`, so every pairing holds afterwards.
     */
    method Withdraw(p: Player, g: Game)
      requires Valid() && p in AllPlayers && p.game == g
      requires PairedExcept(p) && (p.opp != null ==> Released(p.opp, AllGames))
      modifies g`players, p`game, p`symbol
      ensures Valid() && Paired()
      ensures g.players == RemoveFirst(old(g.players), p)
      ensures p.game == null && p.symbol == None
    {
      // whoever points at `p` is out of a game, and then `p` has no opponent
      forall q | q in AllPlayers && q != p && q.opp == p
        ensures q.game == null && p.opp == null
      {
        assert PairInv(q, AllPlayers, AllGames);
      }
      Detach(p, g);
      forall q | q in AllPlayers
        ensures PairInv(q, AllPlayers, AllGames)
      {
        if q != p {
          assert old(PairInv(q, AllPlayers, AllGames));
        }
      }
    }

    /** A player outside every game whose opponent, if any, is released keeps the pairing invariant. */
    lemma ReleasedIsPaired(p: Player)
      requires Valid() && p in AllPlayers && p.game == null
      requires PairedExcept(p) && (p.opp != null ==> Released(p.opp, AllGames))
      ensures Paired()
    {
      assert PlayerInv(p, AllGames, AllPlayers, nextUid);
      assert PairInv(p, AllPlayers, AllGames);
    }

    /**
     * The leaving player `p` leaves its game, if any; the game is dropped
     * from the active games only if that left it without players.
     */
    method LeaveGame(p: Player)
      requires Valid() && p in AllPlayers
      requires PairedExcept(p) && (p.opp != null ==> Released(p.opp, AllGames))
      modifies this`games, GameOfPlayer(p)`players, p`game, p`symbol
      ensures Valid() && Paired()
      ensures old(p.game) == null ==> games == old(games) && p.game == null && p.symbol == old(p.symbol)
      ensures old(p.game) != null ==>
        var g := old(p.game);
        && g.players == RemoveFirst(old(g.players), p)
        && p.game == null && p.symbol == None
        && games == (if g.players == [] then RemoveFirst(old(games), g) else old(games))
    {
      var g := p.game;
      if g == null {
        ReleasedIsPaired(p);
        return;
      }
      Withdraw(p, g);
      if g.IsEmpty() {
        RemoveGameFromList(g);
      }
    }

    /**
     * The leaving player `p` leaves its game as `LeaveGame` describes and
     * is unregistered.
     */
    method Leave(p: Player)
      requires Valid() && p in AllPlayers
      requires PairedExcept(p) && (p.opp != null ==> Released(p.opp, AllGames))
      modifies this`players, this`games, GameOfPlayer(p)`players, p`game, p`symbol
      ensures Valid() && Paired()
      ensures old(p.game) == null ==> games == old(games) && p.game == null && p.symbol == old(p.symbol)
      ensures old(p.game) != null ==>
        var g := old(p.game);
        && g.players == RemoveFirst(old(g.players), p)
        && p.game == null && p.symbol == None
        && games == (if g.players == [] then RemoveFirst(old(games), g) else old(games))
      ensures players == RemoveFirst(old(players), p) && p !in players
    {
      LeaveGame(p);
      RemovePlayerFrom(p);
    }

    /**
     * The player `p` goes away: its opponent, if any, is told and goes
     * back to "looking" without an opponent; `p` leaves its game, which is
     * dropped from the active games only if that left it empty; and `p` is
     * unregistered.
     */
    method Depart(p: Player)
      requires Valid() && Paired() && p in AllPlayers
      modifies this`outbox, this`players, this`games, OppOf(p)`status, OppOf(p)`opp
      modifies GameOfPlayer(p)`players, p`game, p`symbol
      ensures Valid() && Paired()
      ensures old(p.opp) == null ==> outbox == old(outbox)
      ensures old(p.opp) != null ==>
        var o := old(p.opp);
        && o.sockid.Some?
        && outbox == old(outbox) + [Emit(o.sockid.value, OpponentDisconnected("Opponent disconnected"))]
        && o.status == "looking" && o.opp == null
      ensures old(p.game) == null ==> games == old(games) && p.game == null && p.symbol == old(p.symbol)
      ensures old(p.game) != null ==>
        var g := old(p.game);
        && g.players == RemoveFirst(old(g.players), p)
        && p.game == null && p.symbol == None
        && games == (if g.players == [] then RemoveFirst(old(games), g) else old(games))
      ensures players == RemoveFirst(old(players), p) && p !in players
    {
      NotifyOpponent(p);
      Leave(p);
    }

    /**
     * The connection `sid` closes. Without a bound player nothing happens
     * and `p` is null; otherwise `p` is that player, it departs as `Depart`
     * describes, and the connection stays bound to it.
     */
    method OnClientDisconnect(sid: SocketId) returns (p: Player?)
      requires Valid() && Paired()
      modifies this`outbox, this`players, this`games, BoundPlayer(sid)`game, BoundPlayer(sid)`symbol
      modifies BoundOpp(sid)`status, BoundOpp(sid)`opp, GameOf(sid)`players
      ensures Valid() && Paired()
      ensures p == null <==> sid !in sockets
      ensures p == null ==> outbox == old(outbox) && players == old(players) && games == old(games)
      ensures p != null ==> p == sockets[sid] && p == old(sockets[sid])
      ensures p != null && old(p.opp) == null ==> outbox == old(outbox)
      ensures p != null && old(p.opp) != null ==>
        var o := old(p.opp);
        && o.sockid.Some?
        && outbox == old(outbox) + [Emit(o.sockid.value, OpponentDisconnected("Opponent disconnected"))]
        && o.status == "looking" && o.opp == null
      ensures p != null && old(p.game) == null ==> games == old(games) && p.game == null && p.symbol == old(p.symbol)
      ensures p != null && old(p.game) != null ==>
        var g := old(p.game);
        && g.players == RemoveFirst(old(g.players), p)
        && p.game == null && p.symbol == None
        && games == (if g.players == [] then RemoveFirst(old(games), g) else old(games))
      ensures p != null ==> players == RemoveFirst(old(players), p) && p !in players
    {
      if sid !in sockets {
        return null;
      }
      p := sockets[sid];
      Depart(p);
    }
  }
}
