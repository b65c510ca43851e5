/**
 * The status line of the game view: which message the client shows for a
 * game type ("live" for a game against another player over the server,
 * anything else for a game against the computer), the current status text,
 * whether a game is being played, and whether it is this side's turn.
 */
module GameStat {

  /** The prefix of the status text a live game shows while it is being played. */
  const PlayingPrefix: string := "Playing with"

  /** `s` begins with `prefix`. */
  predicate StartsWith(s: string, prefix: string) {
    |prefix| <= |s| && s[..|prefix|] == prefix
  }

  /** Whose turn it is, as the status line says it. */
  function TurnMessage(nextTurnPly: bool): (m: string)
    ensures m == "Your turn" <==> nextTurnPly
    ensures m == "Opponent turn" <==> !nextTurnPly
  {
    if nextTurnPly then "Your turn" else "Opponent turn"
  }

  /**
   * The message shown: against the computer, the turn message replaces the
   * status texts "Start game" and "Play" while a game is being played; in a
   * live game, it replaces every status text that begins with "Playing
   * with". Any other status text is shown as it is.
   */
  function DisplayMessage(gameType: string, gameStat: string, gamePlay: bool, nextTurnPly: bool): (m: string)
    ensures m == gameStat || m == "Your turn" || m == "Opponent turn"
    ensures m != gameStat ==> m == TurnMessage(nextTurnPly)
  {
    var turnMsg := TurnMessage(nextTurnPly);
    if gameType != "live" then
      if gameStat == "Start game" || gameStat == "Play" then
        (if gamePlay then turnMsg else gameStat)
      else gameStat
    else if StartsWith(gameStat, PlayingPrefix) then turnMsg
    else gameStat
  }

  /** Against the computer, the turn message is shown exactly for "Start game" and "Play" while a game is being played. */
  lemma ComputerShowsTurn(gameType: string, gameStat: string, gamePlay: bool, nextTurnPly: bool)
    requires gameType != "live"
    requires gameStat != "Your turn" && gameStat != "Opponent turn"
    ensures DisplayMessage(gameType, gameStat, gamePlay, nextTurnPly) == TurnMessage(nextTurnPly)
            <==> gamePlay && (gameStat == "Start game" || gameStat == "Play")
  {
  }

  /** In a live game, the turn message is shown exactly for the status texts that begin with "Playing with". */
  lemma LiveShowsTurn(gameStat: string, gamePlay: bool, nextTurnPly: bool)
    requires gameStat != "Your turn" && gameStat != "Opponent turn"
    ensures DisplayMessage("live", gameStat, gamePlay, nextTurnPly) == TurnMessage(nextTurnPly)
            <==> StartsWith(gameStat, PlayingPrefix)
  {
  }

  /** In a live game, whether a game is being played does not change the message. */
  lemma LiveIgnoresGamePlay(gameStat: string, nextTurnPly: bool)
    ensures DisplayMessage("live", gameStat, true, nextTurnPly) == DisplayMessage("live", gameStat, false, nextTurnPly)
  {
  }

  /** Against the computer, while no game is being played, the status text is shown as it is. */
  lemma ComputerIdleShowsStat(gameType: string, gameStat: string, nextTurnPly: bool)
    requires gameType != "live"
    ensures DisplayMessage(gameType, gameStat, false, nextTurnPly) == gameStat
  {
  }

  /** The status text "Playing with <name>" begins with the live prefix, whatever the name. */
  lemma PlayingWithStartsWithPrefix(name: string)
    ensures StartsWith(PlayingPrefix + " " + name, PlayingPrefix)
  {
    assert (PlayingPrefix + " " + name)[..|PlayingPrefix|] == PlayingPrefix;
  }

  /** The messages the client expects for typical states of a game against the computer. */
  lemma ComputerExamples()
    ensures DisplayMessage("computer", "Start game", false, true) == "Start game"
    ensures DisplayMessage("computer", "Start game", true, true) == "Your turn"
    ensures DisplayMessage("computer", "Play", true, false) == "Opponent turn"
    ensures DisplayMessage("computer", "Play", true, true) == "Your turn"
    ensures DisplayMessage("computer", "You win", false, true) == "You win"
    ensures DisplayMessage("computer", "Opponent win", false, false) == "Opponent win"
    ensures DisplayMessage("computer", "Draw", false, true) == "Draw"
  {
  }

  /** The messages the client expects for typical states of a live game. */
  lemma LiveExamples()
    ensures DisplayMessage("live", "Connecting", false, true) == "Connecting"
    ensures DisplayMessage("live", "Waiting for the opponent", false, true) == "Waiting for the opponent"
    ensures DisplayMessage("live", "Error", false, true) == "Error"
    ensures DisplayMessage("live", "Playing with John", true, true) == "Your turn"
    ensures DisplayMessage("live", "Playing with John", true, false) == "Opponent turn"
    ensures DisplayMessage("live", "You win", false, true) == "You win"
    ensures DisplayMessage("live", "Opponent win", false, false) == "Opponent win"
    ensures DisplayMessage("live", "Draw", false, true) == "Draw"
  {
    PlayingWithStartsWithPrefix("John");
    assert "Waiting for the opponent"[0] != PlayingPrefix[0];
  }
}
