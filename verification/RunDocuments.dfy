/** The logs a finished run hands over. */
module RunDocuments {
  import opened Logs
  import opened Rules
  import opened Referee

  function Roster(b: Board): (players: seq<PlayerEntry>)
    ensures |players| == |b.roles|
    ensures forall s: Seat :: s < |players| ==> players[s] == PlayerEntry(Player(s), b.roles[s], TeamOf(b.roles[s]))
  {
    seq(|b.roles|, s requires 0 <= s < |b.roles| => PlayerEntry(Player(s), b.roles[s], TeamOf(b.roles[s])))
  }

  function WinningTeam(w: Winner): Team { if w == VillagersWin then VillagerTeam else WerewolfTeam }

  function EndConditionOf(w: Winner): EndCondition {
    if w == VillagersWin then AllWolvesEliminated else WolvesReachParity
  }

  /** The three logs of a run that ended with this winner. */
  function GameLogOf(b: Board, source: string, g: Game, w: Winner): GameLog {
    GameLog(b.gameId, source, Roster(b), g.events,
            GameResult(WinningTeam(w), g.table.round, Names(AliveInSeatOrder(b, g.alive)), EndConditionOf(w)))
  }

  function DecisionLogOf(b: Board, source: string, g: Game): DecisionLog {
    DecisionLog(b.gameId + "_decision_log", b.gameId, source, g.decisions)
  }

  function ConsensusLogOf(b: Board, source: string, g: Game): ConsensusLog {
    ConsensusLog(b.gameId + "_consensus_log", b.gameId, source, g.consensus)
  }
}
