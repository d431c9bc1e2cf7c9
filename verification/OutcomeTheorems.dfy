/** What a finished run hands over, taken together. */
module OutcomeTheorems {
  import opened Logs
  import opened Rules
  import opened Referee
  import opened RunDocuments
  import opened EngineSteps
  import opened RunInvariants
  import opened TeamInvariants
  import opened GameLogCheck
  import opened LogBundle
  import opened ConsensusEntries
  import opened ConsensusLogCheck
  import opened ConsensusTheorems
  import opened RunChecker
  import opened CheckerTheorems
  import opened ReasonTheorems

  /**
    The three logs of a run together: which of them the validators accept, that every team decision links to its entry,
    that the run checker finds nothing, and that whatever the join of decisions and events returns is exact.
  */
  ghost predicate Delivered(b: Board, source: string, g: Game, w: Winner) {
    var game, decisions, consensus := GameLogOf(b, source, g, w), DecisionLogOf(b, source, g), ConsensusLogOf(b, source, g);
    && (AcceptsGameLog(game) <==> b.gameId != "" && source in VALID_SOURCE_LABELS && |b.roles| == 6)
    && (AcceptsDecisionLog(decisions, game) <==> source in VALID_SOURCE_LABELS)
    && (AcceptsConsensusLog(consensus, game) <==>
          source in VALID_SOURCE_LABELS && forall c :: c in consensus.consensuses ==> Settled(c))
    && (forall d :: d in decisions.decisions ==> LinkOk(d, consensus.consensuses))
    && CountTeam(decisions.decisions) == |consensus.consensuses|
    && (forall phases :: |phases| == |g.turns| ==> Clean(ArtifactsOf(b, g, phases)))
    && (forall out :: JoinOf(g, out) ==> ReasonsOnTheirDeeds(g, out))
  }

  /**
    The log of a finished game names the right winner. With no wolf alive it is the villagers; otherwise the wolves are
    at least as many as the others and it is they. The end condition and the last event agree.
  */
  ghost predicate Crowned(b: Board, alive: set<Seat>, log: GameLog) {
    var wolves := set s: Seat | s in alive && s < |b.roles| && b.roles[s] == Werewolf;
    var others := set s: Seat | s in alive && s < |b.roles| && b.roles[s] != Werewolf;
    && log.events != []
    && var last := log.events[|log.events| - 1];
    && last.kind.GameOver? && last.actor.System? && last.phase.GameEnd?
    && if wolves == {} then
         log.result.winner == VillagerTeam && log.result.endCondition.AllWolvesEliminated? && last.target.VillagerSide?
       else
         && |wolves| >= |others|
         && log.result.winner == WerewolfTeam && log.result.endCondition.WolvesReachParity? && last.target.WerewolfSide?
  }

  /** The log's players are the board's, wolves on the wolves' team; its survivors are the living, each once. */
  ghost predicate Listed(b: Board, alive: set<Seat>, log: GameLog) {
    && |log.players| == |b.roles|
    && (forall s: Seat :: s < |b.roles| ==>
          log.players[s] == PlayerEntry(Player(s), b.roles[s], if b.roles[s].Werewolf? then WerewolfTeam else VillagerTeam))
    && |log.result.survivors| == |alive|
    && forall s :: Player(s) in log.result.survivors <==> s in alive
  }

  lemma FinishFacts(b: Board, g: Game, w: Winner)
    requires Legal(b, g, Finish(w))
    ensures WinCheck(b, g.alive) == Some(w)
    ensures Step(b, g, Finish(w)).events ==
            g.events + [NewEvent(b, |g.events|, g.table.round, GameEnd, GameOver, System, Side(w), Everyone)]
  {
    hide WinCheck, NoneToFire, DuskSettled, NightTurnsTaken, EventId;
  }

  /** What finishing writes is right, whoever wins. */
  lemma FinishCrowns(b: Board, source: string, g: Game, w: Winner)
    requires Legal(b, g, Finish(w))
    ensures Crowned(b, g.alive, GameLogOf(b, source, Step(b, g, Finish(w)), w))
  {
    hide Legal, WinCheck, EventId, Step, Roster;
    FinishFacts(b, g, w);
    WinCheckExactly(b, g.alive);
  }

  lemma LivingAreListed(b: Board, source: string, g: Game, w: Winner)
    requires Reachable(b, g)
    ensures Listed(b, g.alive, GameLogOf(b, source, g, w))
  {
    hide Reachable;
    LivingOnBoard(b, g);
    var seats := AliveInSeatOrder(b, g.alive);
    SeatsCounted(|b.roles|, Among(g.alive));
    assert g.alive == set s: Seat | s < |b.roles| && Among(g.alive)(s);
    forall s ensures Player(s) in Names(seats) <==> s in g.alive {
      NamesHold(seats, Player(s));
    }
  }

  lemma FinishedRunDelivers(b: Board, source: string, g: Game, w: Winner)
    requires Reachable(b, g) && g.table.stage.EndStage?
    ensures Delivered(b, source, g, w)
  {
    hide Reachable, AcceptsGameLog, AcceptsDecisionLog, AcceptsConsensusLog, LinkOk, CountTeam, Clean, JoinOf,
      ReasonsOnTheirDeeds, VALID_SOURCE_LABELS, Settled, ArtifactsOf;
    EngineGameLogAccepted(b, source, g, w);
    EngineDecisionLogAccepted(b, source, g, w);
    EngineConsensusLogExactly(b, source, g, w);
    EngineLinksHold(b, g);
    forall phases: seq<Phase> | |phases| == |g.turns| ensures Clean(ArtifactsOf(b, g, phases)) {
      RunsAreClean(b, g, phases);
    }
    forall out | JoinOf(g, out) ensures ReasonsOnTheirDeeds(g, out) {
      EngineReasonsExactly(b, g, out);
    }
  }

  // ---- every finished run has settled a night ------------------------------------------

  /** Once the first night of an undecided game is over, somebody has been killed. */
  predicate FirstKillDone(b: Board, g: Game) {
    && (g.table.round == 1 ==> g.table.dawn == Seats(b))
    && (g.table.victim.Some? || g.table.round > 1 || !g.table.stage.NightStage? ==> g.consensus != [])
    && g.table.round >= 1
  }

  lemma FirstKillStep(b: Board, g: Game, m: Move)
    requires WinCheck(b, Seats(b)).None? && Legal(b, g, m) && FirstKillDone(b, g)
    ensures FirstKillDone(b, Step(b, g, m))
  {
    KillOrDay(b, g, m);
    VictimFrame(g, m);
    ClockFrame(g, m);
    if m.Kill? {
      KillAccounted(b, g, m);
      hide Legal, NewConsensus, NextTable;
    } else {
      assert NewConsensus(b, g, m) == [];
      hide Legal, NextTable;
    }
  }

  /** Night ends only after a kill when the game was undecided at dusk. */
  lemma KillOrDay(b: Board, g: Game, m: Move)
    requires Legal(b, g, m)
    ensures m.Sunrise? || (m.Finish? && g.table.stage.NightStage?) ==> WolvesDone(b, g.table)
    ensures m.Nightfall? || (m.Finish? && !g.table.stage.NightStage?) ==> g.table.stage.DayStage?
  {
    hide WinCheck, ResolveNight, KillAgreed, Leaders, PublicIdsOnly, NoneToFire, WolvesDone, Follows, Abstains, Refused,
      JustAsked, AllDid;
  }

  lemma {:induction false} FirstKillStays(b: Board, moves: seq<Move>)
    requires WinCheck(b, Seats(b)).None? && Play(b, moves).Some?
    ensures FirstKillDone(b, Play(b, moves).value)
  {
    hide WinCheck, Seats, Legal, Step, FirstKillDone;
    if moves == [] {
      NoNightYet(b);
    } else {
      var init := moves[..|moves| - 1];
      FirstKillStays(b, init);
      FirstKillStep(b, Play(b, init).value, moves[|moves| - 1]);
    }
  }

  lemma NoNightYet(b: Board)
    ensures FirstKillDone(b, Opening(b))
  {
    hide Seats;
  }

  /** A game undecided at the start has at least one consensus entry when it ends. */
  lemma SomebodyWasKilled(b: Board, g: Game)
    requires Reachable(b, g) && WinCheck(b, Seats(b)).None? && !g.table.stage.NightStage?
    ensures g.consensus != []
  {
    hide WinCheck, Seats, Play;
    var moves :| Play(b, moves) == Some(g);
    FirstKillStays(b, moves);
  }
}
