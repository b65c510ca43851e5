# X-ttt game server, modelled in Dafny

This project models the server side of a two-player tic-tac-toe game. It also
models the one display rule of the web client that decides the status line.

- **Board** (`board.dfy`) covers the rules of one game as pure functions:
  - the nine cells `c1`..`c9` and the eight winning lines in their fixed order;
  - `checkWinner`, which scans the lines first and then checks for a draw;
  - one call of `makeTurn`, as `ApplyTurn`. Its four checks come in a fixed
    order and carry their exact error messages.

  The invariant `Consistent` holds for a new game, is kept by every turn, and
  is kept when a waiting game starts. The manager only lets players into
  waiting games, so every game it holds keeps `Consistent`.
- **Games** (`games.dfy`) has the two mutable records.
  - A `Player` is a class whose fields the other code reassigns.
  - A `Game` is a class holding the board, the turn, the status, the result
    and at most two players.
  - `addPlayer`, `removePlayer` and `makeTurn` update it in place.
    `MakeTurn` is proved to change the game exactly as `ApplyTurn` says.
- **Manager** (`manager.dfy`) is the session manager, `GameManager`. It holds:
  - the registered players and the active games (at most
    `MaxConcurrentGames` = 2);
  - the uid counter;
  - the player each connection announced itself as;
  - an `outbox` of every message sent.

  Each of the three connection handlers (`OnNewPlayer`, `OnTurn`,
  `OnClientDisconnect`) is one method call, because Node runs them one at a
  time. A message `io.to(id).emit(event, payload)` is an `Emit(id, event)`
  appended to the outbox. That makes "who is told what" a postcondition.
  What joining does is stated once, as the predicate `Joined`, over a
  `JoinView`: a snapshot of the lists, the outbox and the first open game
  taken before the player joins. `Join` and `OnNewPlayer` both ensure it.
  The manager's invariant `Valid` says these things:
  - the capacity limit holds;
  - neither list repeats an entry;
  - every list entry and every connection refers to a known player or game;
  - the player bound to a connection carries that connection's id;
  - every known game keeps `Consistent`;
  - each player is in at most one game: every member of a known game points
    back at that game, and a player that points at a game is among its
    members.

  A second invariant, `Paired`, covers the opponent links. A player with an
  opponent in a game shares that game with the opponent, and the opponent
  points back; the game is no longer waiting. A player with an opponent but
  no game points at a released opponent: one with no opponent whose game,
  if any, has started. Every handler keeps both invariants. In the middle of
  a disconnect only the leaving player may break `Paired`, until it has
  left its game.
- **GameStat** (`game_stat.dfy`) is the client's `getDisplayMessage`.

`wrappers.dfy` holds `Option`. `seqs.dfy` holds the array primitives the
server uses (`indexOf`, `indexOf` + `splice`, `find`) as functions on
sequences.

Where the code's own comments or tests and the code disagree, the model follows the code:
- A draw records `winner` as null, not `'draw'` (WS/Game.js:25 against
  WS/Game.js:153).
- After a disconnect in the middle of a game, the opponent's game stays in
  the active games until it has no players (WS/XtttGame.js:197-200), so it
  keeps using a slot of the capacity limit.
- A missing or empty name becomes `'Guest'` (WS/XtttGame.js:90). The server
  test file's stand-in uses `'Player'` instead.

## Model

| member | source | states |
|---|---|---|
| Seqs.IndexOf | WS/XtttGame.js:12 | the result is -1 exactly when the element is absent, otherwise the position of its first occurrence |
| Seqs.RemoveFirst | WS/XtttGame.js:11-16 | an absent element leaves the sequence alone; otherwise exactly one occurrence, the first, is deleted, and no element is gained or lost besides it |
| Seqs.RemoveFirstDistinct | WS/XtttGame.js:51-57 | on a duplicate-free list, removal keeps it duplicate-free, removes the element altogether and keeps every other one |
| Seqs.RemoveFirstIdempotent | WS/XtttGame.js:11-16 | removing a player or a game twice is the same as removing it once |
| Seqs.FirstOther | WS/Game.js:76 | none is found exactly when every element equals the excluded one; otherwise the first element that differs is returned |
| Board.FirstWinningLine | WS/Game.js:136-148 | the position found holds a winning line and no earlier line wins; -1 exactly when no line at or after the start wins |
| Board.CheckWinnerSpec | WS/Game.js:134-157 | `CheckWinner`, the scan itself, reports a win exactly when some line holds one mark, and then the first such line in the listed order, won by that mark; a draw exactly when no line wins and all cells are filled |
| Board.ApplyTurn | WS/Game.js:85-128 | the four rejections hold exactly under their conditions, in the listed order, and change nothing; an accepted turn writes the mover's mark into exactly the target cell; the turn passes only while the game goes on; a finished game records the scan's winner and cells and keeps the turn |
| Board.UntouchedIsNewGame | WS/Game.js:15-27 | a state with the nine empty cells, 'x' to move, waiting and no result is exactly the new game |
| Board.UntouchedConsistent | WS/Game.js:15-27 | a new game satisfies the game invariant |
| Board.StartKeepsConsistent | WS/Game.js:52-54 | starting a waiting game keeps the invariant |
| Board.ResumeBreaksConsistent | WS/Game.js:41-54 | a finished game set back to playing, as admitting a player into a finished one-player game does, no longer satisfies the game invariant |
| Board.ApplyTurnKeepsConsistent | WS/Game.js:85-128 | every turn, accepted or rejected, keeps the invariant: no completed line before the end, the move counts balanced, a finished game records its scan |
| Board.WinnerIsMover | WS/XtttGame.js:153-165 | in a consistent game, a winning turn is made by the player whose turn it was and is won with that player's mark, so naming the mover the winner is right |
| Board.FinishedIsFinal | WS/Game.js:86-89 | every turn on a finished game is rejected as not active and changes nothing |
| Board.LineAloneWins | WS/Game.js:134-148 | a board whose only marks are the three cells of one line, all the same mark, wins with that mark and that line, for each of the eight lines |
| Board.TopRowBoard | WS/__tests__/Game-test.js:288-302 | 'x' on the top row against two 'o's wins with c1, c2, c3 |
| Board.FullBoardDraw | WS/__tests__/Game-test.js:333-353 | the full board of the draw example is a draw |
| Board.AntiDiagonalBoard | WS/Game.js:134-157 | a full board whose c3-c5-c7 diagonal is complete is a win for 'o', not a draw: lines are scanned before fullness |
| Games.Player.constructor | WS/Player.js:6-16 | uid, name and status are stored as given; the connection and mode start empty; the player is unpaired, in no game and has no mark |
| Games.Game.constructor | WS/Game.js:15-27 | a new game has the nine empty cells, 'x' to move, status waiting, no winner or winning cells and no players, under the given code |
| Games.Game.IsFull | WS/Game.js:67-69 | full exactly when at least two players are in, which in a valid game means exactly two |
| Games.Game.IsEmpty | WS/Game.js:71-73 | empty exactly when no player is in |
| Games.Game.GetOpponent | WS/Game.js:75-77 | null exactly when every member is the given player; otherwise another member, and for a member of a two-player game the other one |
| Games.Game.AddPlayer | WS/Game.js:41-56 | a full game refuses and nothing changes; otherwise the player is appended and points at the game, the first gets 'x'/master and the second 'o'/slave, and the status becomes playing exactly when the count reaches two |
| Games.Game.RemovePlayer | WS/Game.js:58-65 | a member is deleted and loses its game and mark; a non-member leaves everything as it was |
| Games.Game.MakeTurn | WS/Game.js:85-128 | the new game state and the result are exactly those of ApplyTurn on the old state, and the game stays well formed |
| Games.Game.ToJson | WS/Game.js:162-172 | the snapshot carries the code, the board, the turn, the status, the result and the number of players of the game |
| Manager.PlayerName | WS/XtttGame.js:90 | the sent name when it is present and non-empty, "Guest" otherwise; never empty |
| Manager.FirstOpen | WS/XtttGame.js:28 | the first game that is neither full nor started, or -1 exactly when there is none |
| Manager.FirstEmpty | WS/XtttGame.js:36 | the first game without players, or -1 exactly when there is none |
| Manager.TurnNotices | WS/XtttGame.js:127-167 | a rejection is reported to the mover only; an accepted turn goes to the opponent first; a finished game then tells the mover and then the opponent the result with the same winning cells: the same draw to both, or win to the mover and lose to the opponent |
| Manager.GameManager.constructor | WS/XtttGame.js:18-20 | a new manager has no players, no games, no connections and no messages, and hands out uids from 1; both invariants hold |
| Manager.GameManager.Send | WS/XtttGame.js:100 | the messages are appended to those already sent, in order, and the invariant holds |
| Manager.GameManager.GenerateUid | WS/XtttGame.js:7-9 | the uid handed out is the counter's value, the counter moves up by one, and every known player's uid is below it |
| Manager.GameManager.RemoveGameFromList | WS/XtttGame.js:51-57 | the game is removed once if present, no other game is lost, and the invariant holds |
| Manager.GameManager.RemovePlayerFrom | WS/XtttGame.js:11-16 | the player is removed once if present, no other player is lost, and the invariant holds |
| Manager.GameManager.FindOrCreateGame | WS/XtttGame.js:26-49 | the first open game is returned and nothing is created; otherwise a new game is appended, after dropping the first empty game at the limit; null exactly when nothing can admit a player; the limit always holds and the returned game is open |
| Manager.GameManager.PushNewGame | WS/XtttGame.js:44-48 | a fresh new game with the given code is appended to the active games below the limit |
| Manager.GameManager.TrackGame | WS/XtttGame.js:44-48 | a fresh new game with the given code is appended to the active games and becomes known, and the manager's invariant holds |
| Manager.GameManager.StartGameIfReady | WS/XtttGame.js:62-87 | a game that is not full is left alone; a full one makes both players paired and each other's opponent and sends each one pair_players notice naming the other, first player first |
| Manager.GameManager.Pair | WS/XtttGame.js:67-71 | the two members of a started game become paired and each other's opponent, and both invariants hold |
| Manager.GameManager.Link | WS/XtttGame.js:68-71 | one player becomes paired with the given opponent |
| Manager.GameManager.NewPlayer | WS/XtttGame.js:90-93 | the new player has the next uid, above every earlier uid, the sent name or "Guest", status looking and the connection's id, is in no game, and the connection is bound to it, and nobody has it as an opponent; both invariants hold |
| Manager.GameManager.BindPlayer | WS/XtttGame.js:90-93 | the new player gets the next uid, the sent name or "Guest", status looking and the connection's id, is in no game and no list, and the connection is bound to it |
| Manager.GameManager.Adopt | WS/XtttGame.js:92-93 | a player not yet known, in no game and with no opponent is added to the known players and bound to its connection, and the invariant holds; no other list changes |
| Manager.GameManager.Register | WS/XtttGame.js:105 | the player is appended to the registered players |
| Manager.GameManager.WaitingUnpaired | WS/XtttGame.js:28 | nobody is paired with a member of a waiting game, and its members have no opponent |
| Manager.GameManager.Attach | WS/XtttGame.js:106 | the player is appended to the open game and points at it, with the mark and role its position gives, and the game starts exactly when this fills it |
| Manager.GameManager.AddToGame | WS/XtttGame.js:106 | as Attach, keeping the pairing invariant, and the members of the game still have no opponent and nobody points at them |
| Manager.GameManager.Admit | WS/XtttGame.js:105-106 | the player is appended to the registered players and to the game, with the mark and role its position gives, and the game starts when this fills it |
| Manager.GameManager.Enter | WS/XtttGame.js:105-110 | the player is registered and added to the game; with one player nothing is sent; with two both are paired and each gets the notice naming the other; the game waits with one member and plays with two; only the game, its members and the player change |
| Manager.GameManager.Join | WS/XtttGame.js:96-110 | when no game can take the player, only its connection gets server_full, no list changes and the player is unchanged; otherwise it is registered and enters the first open game, with the active games unchanged, or, when there is none, a fresh game with the given code and a new board whose only member it is, appended to the active games (after dropping the first empty game at the limit); the game waits with one member and plays with two; of the other games and players only the first open game and its members can change; both invariants hold |
| Manager.GameManager.OnNewPlayer | WS/XtttGame.js:89-111 | the player gets the next uid, above every earlier one, and the sent name or "Guest", and the connection is bound to it; server_full goes only to the joining connection and the player enters neither list and has no game, opponent, mark or role; otherwise the player is registered and enters the first open game, or else a fresh game with the given code and a new board, appended to the active games (after dropping the first empty game at the limit), at the position its mark says, and the game waits with one member and plays with two; a filled game pairs both players with symmetric links and one notice each; of the earlier games and players only the first open game and its members can change; both invariants hold |
| Manager.GameManager.TakeTurn | WS/XtttGame.js:124 | the game changes exactly as ApplyTurn says, the invariant holds, and a winning turn leaves the mover's mark as the winner |
| Manager.GameManager.Move | WS/XtttGame.js:124 | as TakeTurn, and a game is waiting after the turn exactly when it was before, so the pairing invariant holds |
| Manager.GameManager.OpponentIsOtherMember | WS/XtttGame.js:115-124 | a player with a game and an opponent shares the game with exactly that opponent: the members are the two of them |
| Manager.GameManager.InPlayAt | WS/XtttGame.js:114-118 | null exactly when the connection has no bound player with a game and an opponent; otherwise that player, which is known and carries the connection's id |
| Manager.GameManager.Report | WS/XtttGame.js:127-171 | exactly the turn's notices are sent, and the game is dropped from the active games exactly when the turn ended it |
| Manager.GameManager.Play | WS/XtttGame.js:120-171 | the game changes as ApplyTurn says, the turn's notices go to the mover's and the opponent's connections, a finished game is dropped, a winning mover is the recorded winner, and the game's members are exactly the mover and its opponent |
| Manager.GameManager.OnTurn | WS/XtttGame.js:113-172 | without a bound player, a game or an opponent nothing is sent and nothing changes; otherwise the turn goes as Play states, with the mover's notices going to the connection the turn came from, and the mover's game holds exactly the mover and its opponent; both invariants hold |
| Manager.GameManager.NotifyOpponent | WS/XtttGame.js:182-191 | without an opponent nothing is sent; otherwise only the opponent is told, and it goes back to looking without an opponent, released; the pairing invariant then holds for everybody but the leaving player |
| Manager.GameManager.Unlink | WS/XtttGame.js:189-190 | the opponent goes back to looking without an opponent and is released, and the pairing invariant holds for everybody but the leaving player |
| Manager.GameManager.LeaveGame | WS/XtttGame.js:193-201 | the player is removed from its game and left without a game and a mark, the game leaves the active games exactly when that emptied it, and the pairing invariant holds again |
| Manager.GameManager.ReleasedIsPaired | WS/XtttGame.js:193-194 | a leaving player in no game, whose opponent, if any, is released, already satisfies the pairing invariant, so skipping the game step keeps it |
| Manager.GameManager.Detach | WS/XtttGame.js:195 | the player is removed from its game and left without a game and a mark, and the manager's invariant holds |
| Manager.GameManager.Withdraw | WS/XtttGame.js:195 | as Detach, for a player whose opponent is released, and the pairing invariant holds again |
| Manager.GameManager.Leave | WS/XtttGame.js:193-204 | the player leaves its game as LeaveGame states and is unregistered |
| Manager.GameManager.Depart | WS/XtttGame.js:180-204 | the opponent is told and released, the player leaves its game, an emptied game is dropped, and the player is unregistered |
| Manager.GameManager.OnClientDisconnect | WS/XtttGame.js:174-207 | without a bound player nothing happens; otherwise the player departs as Depart states, and the connection stays bound to it; only the bound player, its opponent and its game can change, and only in the fields the handler writes; both invariants hold |
| GameStat.TurnMessage | react_ws_src/src/views/ttt/GameStat.jsx:5 | "Your turn" exactly when it is this side's turn, "Opponent turn" exactly when it is not |
| GameStat.DisplayMessage | react_ws_src/src/views/ttt/GameStat.jsx:4-20 | the message is always the status text, "Your turn" or "Opponent turn", and when it is not the status text it is the turn message |
| GameStat.ComputerShowsTurn | react_ws_src/src/views/ttt/GameStat.jsx:7-12 | against the computer, the turn message replaces the status exactly for "Start game" and "Play" while a game is played |
| GameStat.ComputerIdleShowsStat | react_ws_src/src/views/ttt/GameStat.jsx:7-12 | against the computer, with no game being played, the status text is shown unchanged |
| GameStat.LiveShowsTurn | react_ws_src/src/views/ttt/GameStat.jsx:13-18 | in a live game, the turn message replaces the status exactly for status texts starting with "Playing with" |
| GameStat.LiveIgnoresGamePlay | react_ws_src/src/views/ttt/GameStat.jsx:13-18 | in a live game, whether a game is being played does not change the message |
| GameStat.ComputerExamples | react_ws_src/src/views/ttt/__tests__/GameStat-test.js:36-66 | the expected messages for the single-player states |
| GameStat.LiveExamples | react_ws_src/src/views/ttt/__tests__/GameStat-test.js:68-102 | the expected messages for the live states |

## Left out

- Game codes: the random four-letter code (WS/Game.js:5-12) uses `Math.random`. `Game` takes its code as a parameter instead.
- Socket.io and Express: handler registration (WS/XtttGame.js:209-222) and the server bootstrap in WS/Xttt.js are I/O. An emit is modelled only as an entry in `outbox`, and a connection only as its id. `Player.socket` (WS/Player.js:10) holds only the socket object, so it is not a field of the model.
- `console.log` calls: logging only.
- Concurrency: Node runs one handler at a time, so each handler is one atomic method.
- Untyped payloads: a `name` or `cell_id` that is not a string has no counterpart. `Option<string>` stands for a present or missing value.
- Null payloads and props: the model has no counterpart for these error paths. The source throws a TypeError in three places:
  - `onNewPlayer` with a `null` payload, at `data.name` (WS/XtttGame.js:90), before any state changes. The model treats the name as missing and creates a "Guest" player.
  - `onTurn` with a `null` payload, at `data.cell_id` (WS/XtttGame.js:121), once the guard has passed. The model treats the cell as missing and sends a `turn_error`.
  - `getDisplayMessage` in a live game with an undefined `gameStat`, at `startsWith` (react_ws_src/src/views/ttt/GameStat.jsx:15). The model's `gameStat` is always a string.
- The uid counter: the source keeps it at module level, shared by every manager. Here it is a field of the one manager.
- Manager.GameManager.GenerateUid: the counter is an unbounded `nat`. The source's counter is a JavaScript number, which stops growing at 2^53, so uids are distinct only below that bound.
- Admitting a player into a finished game with one member (WS/Game.js:41-54) sets it playing again, which breaks `Consistent` (`Board.ResumeBreaksConsistent`). The manager only admits players into waiting games, so this never happens through the handlers; `Game.AddPlayer` states the status change as written.
- Manager.GameManager.FindOrCreateGame: the branch that reuses an empty game's slot is modelled as written. In reachable states every active game has a player, so that branch never runs.
- The React views and app shell (Ttt.jsx, SetName.jsx, MainMenu.jsx, About.jsx, Main.jsx, app.jsx): UI rendering, routing and browser storage.
- The helper modules `find_obj_by_val`, `serialize_params`, `rand_to_fro` and `rand_arr_elem`: their implementations are not part of this model, and two of them are random.
- The retry and back button rules of GameStat-test.js: they exist only in the test file, not in the client code.
