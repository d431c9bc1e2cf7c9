/** Theorems about every reachable state of every legal run. */
module RunTheorems {
  import opened Logs
  import opened Rules
  import opened Referee
  import opened RunInvariants
  import opened CallInvariants
  import opened LogViews
  import opened LogInvariants
  import opened AbilityInvariants
  import opened TeamInvariants
  import opened DutyInvariants
  import opened CheckInvariants
  import opened RunChecker

  ghost predicate RunInv(b: Board, g: Game) {
    && LifeInv(b, g.alive, g.committed, g.table) && NightInv(g.table)
    && ShapeInv(b, g.events, g.table.round)
    && DeathInv(g.events, g.committed) && Replay(b, g.events) == g.alive
    && PairInv(b, g.events, g.decisions, g.table)
    && CallInv(g.turns, g.used, g.windows, g.table) && BudgetInv(b, g.used, g.table)
    && PotionInv(g.events, g.table) && GuardInv(g.events, g.lastGuarded) && ShotInv(g.events, g.table)
    && BallotInv(b, g.events, g.table)
    && KillInv(b, g.events, g.decisions, g.consensus, g.table) && EntryInv(b, g.events, g.consensus)
    && CountTeam(g.decisions) == |g.consensus|
    && DecisionsOk(b, g.decisions, g.events, g.turns)
    && DutyInv(g.events, g.table) && StageInv(b, g) && HonestInv(g.decisions, g.turns, g.table)
    && CheckInv(b, g)
  }

  ghost predicate CheckInv(b: Board, g: Game) {
    && ActorsLive(g.events) && CauseInv(g.events, g.table) && RoundsAscend(g.events)
    && QuietInv(b, g) && RowInv(g.events, g.alive, g.table)
  }

  function FirstEvent(b: Board): Event {
    NewEvent(b, 0, 0, Setup, RoleAssignment, System, Nobody, Public)
  }

  lemma FirstSelection(b: Board, v: View)
    ensures Select(v, [FirstEvent(b)]) == if Selects(v, FirstEvent(b)) then [FirstEvent(b)] else []
  {
    hide NewEvent;
    SelectOne(v, [], FirstEvent(b));
    assert [] + [FirstEvent(b)] == [FirstEvent(b)];
  }

  lemma ShapeStart(b: Board)
    ensures ShapeInv(b, [FirstEvent(b)], 1)
  {
    hide EventId;
    assert EventOk(b, 1, 0, FirstEvent(b));
  }

  lemma DeathStart(b: Board)
    ensures DeathInv([FirstEvent(b)], {}) && Replay(b, [FirstEvent(b)]) == Seats(b)
  {
    hide EventId, Select, Below;
    forall s: Seat ensures DeathsOf([FirstEvent(b)], s) == 0 {
      FirstSelection(b, DeathView(Player(s)));
    }
    assert [FirstEvent(b)][..0] == [];
  }

  lemma PairStart(b: Board)
    ensures PairInv(b, [FirstEvent(b)], [], OpeningTable(b))
  {
    hide EventId, Select;
    FirstSelection(b, DeedView);
  }

  lemma AbilityStart(b: Board)
    ensures PotionInv([FirstEvent(b)], OpeningTable(b)) && GuardInv([FirstEvent(b)], None)
    ensures KillInv(b, [FirstEvent(b)], [], [], OpeningTable(b))
  {
    hide EventId, Select;
    FirstSelection(b, KindView(WitchSave));
    FirstSelection(b, KindView(WitchPoison));
    FirstSelection(b, KindView(GuardProtect));
    FirstSelection(b, KindView(WerewolfKill));
  }

  lemma ShotStart(b: Board)
    ensures ShotInv([FirstEvent(b)], OpeningTable(b))
  {
    hide EventId, Select;
    forall s: Seat ensures ShotsBy([FirstEvent(b)], s) == 0 {
      FirstSelection(b, ShotView(Player(s)));
    }
  }

  lemma BallotStart(b: Board)
    ensures BallotInv(b, [FirstEvent(b)], OpeningTable(b))
  {
    hide EventId, Select;
    forall s: Seat ensures VotesFor([FirstEvent(b)], 1, s) == 0 {
      FirstSelection(b, VoteView(1, Player(s)));
    }
  }

  lemma DutyStart(b: Board)
    ensures DutyInv([FirstEvent(b)], OpeningTable(b))
  {
    hide EventId, Select;
    forall s: Seat, d: Deed ensures DeedsBy([FirstEvent(b)], 1, s, d) == 0 {
      FirstSelection(b, TurnView(1, Player(s), d));
    }
    FirstSelection(b, NightKillView(1));
  }

  lemma CheckStart(b: Board)
    ensures CheckInv(b, Opening(b))
  {
    hide EventId, Seats, RowOf, RowOk;
    assert [FirstEvent(b)][..0] == [];
    forall r: int ensures RowOf([FirstEvent(b)], r) == EMPTY_ROW {
      FirstRow(b, r);
    }
    EmptyRowOk();
    assert Seats(b) - Seats(b) == {};
  }

  lemma FirstRow(b: Board, r: int)
    ensures RowOf([FirstEvent(b)], r) == EMPTY_ROW
  {
    hide NewEvent;
    assert FirstEvent(b).phase == Setup by { FirstPhase(b); }
    RowSnoc([], FirstEvent(b), r);
    assert [] + [FirstEvent(b)] == [FirstEvent(b)];
  }

  lemma FirstPhase(b: Board)
    ensures FirstEvent(b).phase == Setup
  {
    hide EventId;
  }

  lemma EmptyRowOk()
    ensures RowOk(EMPTY_ROW)
  {
  }

  lemma CheckStep(b: Board, g: Game, m: Move)
    requires RunInv(b, g) && Legal(b, g, m)
    ensures CheckInv(b, Step(b, g, m))
  {
    hide PeopleInv, HunterInv, DayInv, NightInv, ShapeInv, DeathInv, PairInv, CallInv, BudgetInv, PotionInv, GuardInv,
      ShotInv, BallotInv, KillInv, EntryInv, CountTeam, DecisionsOk, DutyInv, StageInv, HonestInv;
    hide Legal, NewEvents, NewDecisions, NextTurns, NewConsensus, NextTable, Departing, Replay;
    hide ActorsLive, CauseInv, RoundsAscend, QuietInv, RowInv;
    ActorsStep(b, g, m);
    CauseStep(b, g, m);
    AscendStep(b, g, m);
    QuietStep(b, g, m) by { DawnIsLarger(b, g); }
    RowStep(b, g, m);
  }

  lemma DawnIsLarger(b: Board, g: Game)
    requires DayInv(b, g.alive, g.table)
    ensures g.alive <= g.table.dawn
  {
  }

  lemma StageStart(b: Board)
    ensures StageInv(b, Opening(b)) && HonestInv([], [], OpeningTable(b))
  {
    hide NightTurnsTaken, NoneToFire, Seats;
  }

  lemma RunInvStart(b: Board)
    ensures RunInv(b, Opening(b))
  {
    LifeStart(b);
    ShapeStart(b);
    DeathStart(b);
    PairStart(b);
    AbilityStart(b);
    ShotStart(b);
    BallotStart(b);
    DutyStart(b);
    CheckStart(b);
    StageStart(b);
    hide CheckInv, DutyInv, StageInv, HonestInv, LifeInv, ShapeInv, DeathInv, PairInv, PotionInv, GuardInv, ShotInv, BallotInv, KillInv, NewEvent, Below;
  }

  lemma RunInvStep(b: Board, g: Game, m: Move)
    requires RunInv(b, g) && Legal(b, g, m)
    ensures RunInv(b, Step(b, g, m))
  {
    hide PeopleInv, HunterInv, DayInv, NightInv, ShapeInv, DeathInv, PairInv, CallInv, BudgetInv, PotionInv, GuardInv,
      ShotInv, BallotInv, KillInv, EntryInv, CountTeam, DecisionsOk, DutyInv, StageInv, HonestInv, CheckInv;
    hide Legal, NewEvents, NewDecisions, NextTurns, NewConsensus, NextTable, Departing, Replay;
    LifeStep(b, g, m);
    NightStep(b, g, m);
    ShapeStep(b, g, m);
    DeathStep(b, g, m);
    PairStep(b, g, m);
    CallStep(b, g, m);
    BudgetStep(b, g, m);
    PotionStep(b, g, m);
    GuardStep(b, g, m);
    ShotStep(b, g, m);
    BallotStep(b, g, m);
    KillStep(b, g, m);
    EntryStep(b, g, m);
    TeamStep(b, g, m);
    DecisionsStep(b, g, m);
    DutiesStep(b, g, m);
    StageStep(b, g, m);
    HonestStep(b, g, m);
    CheckStep(b, g, m);
  }

  lemma {:induction false} PlayKeepsInv(b: Board, moves: seq<Move>)
    requires Play(b, moves).Some?
    ensures RunInv(b, Play(b, moves).value)
  {
    if moves == [] {
      RunInvStart(b);
    } else {
      PlayKeepsInv(b, moves[..|moves| - 1]);
      RunInvStep(b, Play(b, moves[..|moves| - 1]).value, moves[|moves| - 1]);
    }
  }

  lemma ReachableInv(b: Board, g: Game)
    requires Reachable(b, g)
    ensures RunInv(b, g)
  {
    var moves :| Play(b, moves) == Some(g);
    PlayKeepsInv(b, moves);
  }

  // ---- one family at a time --------------------------------------------------------

  lemma PeopleOf(b: Board, g: Game)
    requires Reachable(b, g)
    ensures LifeInv(b, g.alive, g.committed, g.table) && NightInv(g.table)
  {
    hide Reachable, LifeInv, NightInv;
    ReachableInv(b, g);
  }

  lemma EventsOf(b: Board, g: Game)
    requires Reachable(b, g)
    ensures ShapeInv(b, g.events, g.table.round) && DeathInv(g.events, g.committed) && Replay(b, g.events) == g.alive
  {
    hide Reachable, ShapeInv, DeathInv, Replay;
    ReachableInv(b, g);
  }

  lemma DecisionsOf(b: Board, g: Game)
    requires Reachable(b, g)
    ensures PairInv(b, g.events, g.decisions, g.table) && DecisionsOk(b, g.decisions, g.events, g.turns)
  {
    hide Reachable, PairInv, DecisionsOk;
    ReachableInv(b, g);
  }

  lemma CallsOf(b: Board, g: Game)
    requires Reachable(b, g)
    ensures CallInv(g.turns, g.used, g.windows, g.table) && BudgetInv(b, g.used, g.table)
  {
    hide Reachable, CallInv, BudgetInv;
    ReachableInv(b, g);
  }

  lemma AbilitiesOf(b: Board, g: Game)
    requires Reachable(b, g)
    ensures PotionInv(g.events, g.table) && GuardInv(g.events, g.lastGuarded) && ShotInv(g.events, g.table)
    ensures BallotInv(b, g.events, g.table)
  {
    hide Reachable, PotionInv, GuardInv, ShotInv, BallotInv;
    ReachableInv(b, g);
  }

  lemma KillsOf(b: Board, g: Game)
    requires Reachable(b, g)
    ensures KillInv(b, g.events, g.decisions, g.consensus, g.table) && EntryInv(b, g.events, g.consensus)
    ensures CountTeam(g.decisions) == |g.consensus|
  {
    hide Reachable, KillInv, EntryInv, CountTeam;
    ReachableInv(b, g);
  }

  lemma DutiesOf(b: Board, g: Game)
    requires Reachable(b, g)
    ensures DutyInv(g.events, g.table) && StageInv(b, g) && HonestInv(g.decisions, g.turns, g.table)
  {
    hide Reachable, DutyInv, StageInv, HonestInv;
    ReachableInv(b, g);
  }

  lemma ChecksOf(b: Board, g: Game)
    requires Reachable(b, g)
    ensures CheckInv(b, g)
  {
    hide Reachable, CheckInv;
    ReachableInv(b, g);
  }
}
