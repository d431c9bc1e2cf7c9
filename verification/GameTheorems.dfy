/** What every run of the emergent engine guarantees, for any board, any answers and any draws. */
module GameTheorems {
  import opened Logs
  import opened Rules
  import opened Referee
  import opened RunInvariants
  import opened CallInvariants
  import opened LogViews
  import opened LogInvariants
  import opened AbilityInvariants
  import opened TeamInvariants
  import opened DutyInvariants
  import opened RunTheorems
  import opened EngineSteps
  import opened DaySteps

  // ---- event sourcing ----------------------------------------------------------------

  /**
    The living and the committed dead split the board; each dead seat has exactly one death event and each living seat
    none; and striking out the deaths of the log, in order, leaves exactly the living.
  */
  lemma LogReplaysToTheLiving(b: Board, g: Game)
    requires Reachable(b, g)
    ensures g.alive !! g.committed && g.alive + g.committed == Seats(b)
    ensures forall s: Seat :: DeathsOf(g.events, s) == if s in g.committed then 1 else 0
    ensures Replay(b, g.events) == g.alive
  {
    hide Reachable, ShapeInv, Replay, HunterInv, DayInv, NightInv, DeathsOf;
    PeopleOf(b, g);
    EventsOf(b, g);
  }

  // ---- progress --------------------------------------------------------------------------

  /** After the elimination of a round everybody counted at dawn but the dead is gone: rounds and lives trade off. */
  lemma EveryDayCostsALife(b: Board, g: Game)
    requires Reachable(b, g) && g.table.ousted.Some?
    ensures |g.alive| < |g.table.dawn| && |g.alive| + g.table.round <= |b.roles|
  {
    hide Reachable, PeopleInv, HunterInv, NightInv;
    PeopleOf(b, g);
    StrictlySmallerSet(g.alive, g.table.dawn, g.table.ousted.value);
  }

  // ---- provider calls ----------------------------------------------------------------------

  /** Three calls per living seat and one scribe call a round, plus one shot per death, whatever the providers answer. */
  lemma ChargesAreBounded(b: Board, g: Game)
    requires Reachable(b, g)
    ensures g.used <= Ceiling(|b.roles|, g.table.round) + |g.committed| <= RequestBound(|b.roles|, g.table.round)
  {
    hide Reachable, HunterInv, DayInv, NightInv, BudgetInv, CallInv;
    PeopleOf(b, g);
    CallsOf(b, g);
    ChargesBounded(b, g);
    SmallerSet(g.committed, Seats(b));
  }

  /** Six players and the default three rounds need at most 54 of the default 80 requests. */
  lemma DefaultBudgetSuffices()
    ensures RequestBound(6, 3) == 54
  {
    assert Ceiling(6, 1) == 19;
    assert Ceiling(6, 2) == 35;
  }

  function CountLive(turns: seq<Turn>): nat {
    if turns == [] then 0 else CountLive(turns[..|turns| - 1]) + (if turns[|turns| - 1].live then 1 else 0)
  }

  function CountScaffold(turns: seq<Turn>): nat {
    if turns == [] then 0
    else CountScaffold(turns[..|turns| - 1]) + (if turns[|turns| - 1].key.slot.ScribeSlot? then 1 else 0)
  }

  lemma {:induction false} ChargedSplit(turns: seq<Turn>)
    requires forall i :: 0 <= i < |turns| ==> HonestKind(turns[i])
    ensures CountCharged(turns) == CountLive(turns) + CountScaffold(turns)
  {
    if turns != [] {
      ChargedSplit(turns[..|turns| - 1]);
      assert HonestKind(turns[|turns| - 1]);
    }
  }

  /** Every charge is a recorded live or scaffold turn, only live turns count as live successes, request ids are unique. */
  lemma ChargesAreRecorded(b: Board, g: Game)
    requires Reachable(b, g)
    ensures g.used == CountLive(g.turns) + CountScaffold(g.turns)
    ensures forall i :: 0 <= i < |g.turns| && g.turns[i].kind.LiveSuccess? ==> g.turns[i].live
    ensures forall i, j :: 0 <= i < j < |g.turns| ==>
              RequestText(b.gameId, g.turns[i].key) != RequestText(b.gameId, g.turns[j].key)
  {
    hide Reachable, BudgetInv, Booked, RequestText, CountLive, CountScaffold, CountCharged;
    CallsOf(b, g);
    ChargedSplit(g.turns);
    forall i, j | 0 <= i < j < |g.turns|
      ensures RequestText(b.gameId, g.turns[i].key) != RequestText(b.gameId, g.turns[j].key)
    {
      if RequestText(b.gameId, g.turns[i].key) == RequestText(b.gameId, g.turns[j].key) {
        RequestTextInjective(b.gameId, g.turns[i].key, g.turns[j].key);
      }
    }
  }

  // ---- duties --------------------------------------------------------------------------------

  function NightDuty(r: Role): Option<Deed> {
    match r
    case Guard => Some(Protecting)
    case Seer => Some(Checking)
    case Witch => Some(UsingPotion)
    case _ => None
  }

  /** By day the night's log is complete: one kill, one deed by each holder of a night role, and nobody acted twice. */
  lemma NightsAreComplete(b: Board, g: Game)
    requires Reachable(b, g)
    ensures forall s: Seat, d: Deed :: DeedsBy(g.events, g.table.round, s, d) <= 1
    ensures !g.table.stage.NightStage? && WinCheck(b, g.table.dawn).None? ==>
              && KillsIn(g.events, g.table.round) == 1
              && forall s :: s in g.table.dawn && s < |b.roles| && NightDuty(b.roles[s]).Some? ==>
                   DeedsBy(g.events, g.table.round, s, NightDuty(b.roles[s]).value) == 1
  {
    hide Reachable, HonestInv, DeedsBy, KillsIn, WinCheck, NoneToFire;
    DutiesOf(b, g);
  }

  /** The day hears everybody: whoever could be voted out spoke once and voted once that day. */
  lemma DaysHearEverybody(b: Board, g: Game, s: Seat)
    requires Reachable(b, g) && g.table.ousted.Some? && (s in g.alive || g.table.ousted == Some(s))
    ensures DeedsBy(g.events, g.table.round, s, Speaking) == 1
    ensures DeedsBy(g.events, g.table.round, s, Voting) == 1
  {
    hide Reachable, HonestInv, DeedsBy, KillsIn, NoneToFire, NightTurnsTaken;
    DutiesOf(b, g);
    assert (s, Speaking) in g.table.acted && (s, Voting) in g.table.acted;
  }

  /** A decision rests on its own turn: chosen if the turn succeeded, picked at random only if it did not. */
  lemma DecisionsKeepToTheTurns(b: Board, g: Game, k: nat)
    requires Reachable(b, g) && k < |g.decisions| && !g.decisions[k].action.WerewolfKill?
    ensures g.decisions[k].request.Some?
    ensures exists i :: 0 <= i < |g.turns| && g.turns[i].key == g.decisions[k].request.value
                        && KindFits(g.decisions[k], g.turns[i].kind)
  {
    hide Reachable, DutyInv, StageInv, KindFits;
    DutiesOf(b, g);
    assert Honoured(g.decisions[k], g.turns);
  }

  // ---- one-shot abilities ---------------------------------------------------------------------

  /** One save and one poison per run; a save answers that night's kill and is a self-save only on the first night. */
  lemma PotionsAreOneShot(b: Board, g: Game)
    requires Reachable(b, g)
    ensures |Select(KindView(WitchSave), g.events)| <= 1 && |Select(KindView(WitchPoison), g.events)| <= 1
    ensures forall i :: 0 <= i < |g.events| && g.events[i].kind.WitchSave? ==>
              && (exists j :: 0 <= j < i && g.events[j].kind.WerewolfKill? && g.events[j].round == g.events[i].round
                              && g.events[j].target == g.events[i].target)
              && (g.events[i].actor == g.events[i].target ==> g.events[i].round == 1)
  {
    hide Reachable, GuardInv, ShotInv, BallotInv, Select;
    AbilitiesOf(b, g);
    forall i | 0 <= i < |g.events| && g.events[i].kind.WitchSave?
      ensures exists j :: 0 <= j < i && g.events[j].kind.WerewolfKill? && g.events[j].round == g.events[i].round
                          && g.events[j].target == g.events[i].target
      ensures g.events[i].actor == g.events[i].target ==> g.events[i].round == 1
    {
      assert SaveOk(g.events, i);
    }
  }

  /** A hunter answers at most once, never when poisoned, and a shot is followed at once by its victim's death. */
  lemma HuntersShootOnce(b: Board, g: Game, s: Seat)
    requires Reachable(b, g)
    ensures ShotsBy(g.events, s) <= 1
    ensures ShotsBy(g.events, s) > 0 ==> HasRole(b, s, Hunter) && s in g.committed && s in g.table.causes
                                         && g.table.causes[s] != Poisoned
    ensures g.table.aim.None? ==>
              forall i :: 0 <= i < |g.events| && g.events[i].kind.HunterShoot? ==>
                i + 1 < |g.events| && g.events[i + 1].kind.PlayerDied? && g.events[i + 1].target == g.events[i].target
  {
    hide Reachable, GuardInv, PotionInv, BallotInv, DayInv, NightInv, ShotsBy;
    AbilitiesOf(b, g);
    PeopleOf(b, g);
    if g.table.aim.None? {
      forall i | 0 <= i < |g.events| && g.events[i].kind.HunterShoot?
        ensures i + 1 < |g.events| && g.events[i + 1].kind.PlayerDied? && g.events[i + 1].target == g.events[i].target
      {
        assert ShotOk(g.events, i, g.table.aim);
      }
    }
  }

  /** When the game is over every dead hunter has been heard exactly once, unless poisoned, and nobody else has. */
  lemma DeadHuntersWereHeard(b: Board, g: Game, s: Seat)
    requires Reachable(b, g) && g.table.stage.EndStage?
    ensures s in g.committed ==> s in g.table.causes
    ensures ShotsBy(g.events, s) ==
            if HasRole(b, s, Hunter) && s in g.committed && g.table.causes[s] != Poisoned then 1 else 0
  {
    hide Reachable, GuardInv, PotionInv, BallotInv, DayInv, NightInv, ShotsBy, DutyInv, HonestInv, NightTurnsTaken;
    AbilitiesOf(b, g);
    PeopleOf(b, g);
    DutiesOf(b, g);
    if s in g.committed {
      assert !CanTrigger(b, g, s);
    }
  }

  /** The guard never protects the same seat on consecutive protections. */
  lemma GuardNeverRepeats(b: Board, g: Game)
    requires Reachable(b, g)
    ensures var nights := Select(KindView(GuardProtect), g.events);
            forall i :: 0 <= i < |nights| - 1 ==> nights[i].target != nights[i + 1].target
  {
    hide Reachable, ShotInv, PotionInv, BallotInv, Select;
    AbilitiesOf(b, g);
  }

  /** Whoever the day eliminates had at least one vote that day and nobody had more. */
  lemma EliminationsLedTheVote(b: Board, g: Game, i: nat)
    requires Reachable(b, g) && i < |g.events| && g.events[i].kind.PlayerEliminated?
    ensures g.events[i].target.Player?
    ensures var rnd, out := g.events[i].round, g.events[i].target.seat;
            && VotesFor(g.events, rnd, out) > 0
            && forall s: Seat :: s < |b.roles| ==> VotesFor(g.events, rnd, s) <= VotesFor(g.events, rnd, out)
  {
    hide Reachable, ShotInv, PotionInv, GuardInv, VotesFor;
    AbilitiesOf(b, g);
    assert Led(b, g.events, g.events[i]);
  }

  lemma {:induction false} PrefixPlays(b: Board, moves: seq<Move>, k: nat)
    requires Play(b, moves).Some? && k < |moves|
    ensures Play(b, moves[..k]).Some? && Legal(b, Play(b, moves[..k]).value, moves[k])
  {
    hide Legal, Step;
    var init := moves[..|moves| - 1];
    if k < |init| {
      PrefixPlays(b, init, k);
      assert init[..k] == moves[..k];
    }
  }

  /** Whoever any run's wolves kill is a living villager and, if anybody bid that night, was named by as many as anybody. */
  lemma KillsLedTheBids(b: Board, moves: seq<Move>, k: nat)
    requires Play(b, moves).Some? && k < |moves| && moves[k].Kill?
    ensures Play(b, moves[..k]).Some?
    ensures var g, m := Play(b, moves[..k]).value, moves[k];
            && m.bids == g.table.bids && m.target in g.alive && m.target < |b.roles| && b.roles[m.target] != Werewolf
            && (m.bids != [] ==> MostNamed(m.bids, m.target))
  {
    hide Play, Legal, MostNamed;
    PrefixPlays(b, moves, k);
    KillIsMostNamed(b, Play(b, moves[..k]).value, moves[k]);
  }

  // ---- decisions -------------------------------------------------------------------------------

  /** Decision and event agree pairwise, and no two decisions of a run share round, phase, actor, action and target. */
  lemma DecisionsMatchTheirEvents(b: Board, g: Game)
    requires Reachable(b, g)
    ensures |Select(DeedView, g.events)| == |g.decisions|
    ensures forall k :: 0 <= k < |g.decisions| ==> Matches(g.decisions[k], Select(DeedView, g.events)[k])
    ensures forall j, k :: 0 <= j < k < |g.decisions| ==> !SameKey(g.decisions[j], g.decisions[k])
  {
    hide Reachable, DecisionsOk, Select, Spent, Matches;
    DecisionsOf(b, g);
    forall j, k | 0 <= j < k < |g.decisions| ensures !SameKey(g.decisions[j], g.decisions[k]) {
      assert Apart(g.decisions[j], g.decisions[k]);
    }
  }

  predicate SameKey(c: Decision, d: Decision) {
    c.round == d.round && c.phase == d.phase && c.actor == d.actor && c.action == d.action && c.target == d.target
  }
}
