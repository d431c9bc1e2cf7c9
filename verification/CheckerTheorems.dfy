/** Every finished run of the engine is clean: the run checker finds nothing, for any answers and any draws. */
module CheckerTheorems {
  import opened Logs
  import opened Rules
  import opened Referee
  import opened RunInvariants
  import opened LogViews
  import opened LogInvariants
  import opened AbilityInvariants
  import opened CallInvariants
  import opened CheckInvariants
  import opened RunChecker
  import opened RunTheorems
  import opened RunDocuments

  // ---- selections and places --------------------------------------------------

  /** Two places selected by one view make the selection at least two long. */
  lemma {:induction false} TwoSelected(v: View, events: seq<Event>, i: nat, j: nat)
    requires i < j < |events| && Selects(v, events[i]) && Selects(v, events[j])
    ensures |Select(v, events)| >= 2
  {
    var init := events[..|events| - 1];
    if j < |init| {
      TwoSelected(v, init, i, j);
    } else {
      SelectedAre(v, init, events[i]);
      assert init[i] in init;
    }
  }

  lemma OnePlace(v: View, events: seq<Event>, i: nat, j: nat)
    requires |Select(v, events)| <= 1 && i < j < |events|
    ensures !(Selects(v, events[i]) && Selects(v, events[j]))
  {
    if Selects(v, events[i]) && Selects(v, events[j]) {
      TwoSelected(v, events, i, j);
    }
  }

  lemma {:induction false} DeathTargetFrom(events: seq<Event>, n: Name)
    ensures n in DeathTargets(events) <==> exists i :: 0 <= i < |events| && IsDeath(events[i].kind) && events[i].target == n
  {
    if events != [] {
      var init, e := events[..|events| - 1], events[|events| - 1];
      DeathTargetFrom(init, n);
      if n in DeathTargets(init) {
        var i :| 0 <= i < |init| && IsDeath(init[i].kind) && init[i].target == n;
        assert events[i] == init[i];
      }
      if i :| 0 <= i < |events| && IsDeath(events[i].kind) && events[i].target == n {
        if i < |init| { assert init[i] == events[i]; }
      }
    }
  }

  lemma {:induction false} DeathTargetsDistinct(events: seq<Event>)
    requires forall i, j :: 0 <= i < j < |events| && IsDeath(events[i].kind) && IsDeath(events[j].kind) ==>
               events[i].target != events[j].target
    ensures Distinct(DeathTargets(events))
  {
    if events != [] {
      var init, e := events[..|events| - 1], events[|events| - 1];
      DeathTargetsDistinct(init);
      DeathTargetFrom(init, e.target);
      assert IsDeath(e.kind) ==> e.target !in DeathTargets(init);
    }
  }

  lemma {:induction false} UseFrom(events: seq<Event>, use: (Name, EventKind))
    ensures use in Uses(events) <==>
            exists i :: 0 <= i < |events| && IsConsumed(events[i].kind) && (events[i].actor, events[i].kind) == use
  {
    if events != [] {
      var init, e := events[..|events| - 1], events[|events| - 1];
      UseFrom(init, use);
      if use in Uses(init) {
        var i :| 0 <= i < |init| && IsConsumed(init[i].kind) && (init[i].actor, init[i].kind) == use;
        assert events[i] == init[i];
      }
      if i :| 0 <= i < |events| && IsConsumed(events[i].kind) && (events[i].actor, events[i].kind) == use {
        if i < |init| { assert init[i] == events[i]; }
      }
    }
  }

  lemma {:induction false} UsesDistinct(events: seq<Event>)
    requires forall i, j :: 0 <= i < j < |events| && IsConsumed(events[i].kind) && events[i].kind == events[j].kind ==>
               events[i].actor != events[j].actor
    ensures Distinct(Uses(events))
  {
    if events != [] {
      var init, e := events[..|events| - 1], events[|events| - 1];
      UsesDistinct(init);
      UseFrom(init, (e.actor, e.kind));
      assert IsConsumed(e.kind) ==> (e.actor, e.kind) !in Uses(init);
    }
  }

  // ---- one check at a time --------------------------------------------------------

  lemma NobodyDiesTwice(b: Board, g: Game)
    requires Reachable(b, g)
    ensures Distinct(DeathTargets(g.events))
  {
    hide Reachable, ShapeInv, Replay, Select;
    EventsOf(b, g);
    forall i, j | 0 <= i < j < |g.events| && IsDeath(g.events[i].kind) && IsDeath(g.events[j].kind)
      ensures g.events[i].target != g.events[j].target
    {
      assert DeathsOf(g.events, g.events[i].target.seat) <= 1;
      OnePlace(DeathView(g.events[i].target), g.events, i, j);
    }
    DeathTargetsDistinct(g.events);
  }

  lemma Numbered(b: Board, g: Game, i: nat)
    requires Reachable(b, g) && i < |g.events|
    ensures g.events[i].sequence == i + 1
  {
    hide Reachable, DeathInv, Replay;
    EventsOf(b, g);
    assert EventOk(b, g.table.round, i, g.events[i]);
  }

  lemma TheDeadDoNotAct(b: Board, g: Game, e: Event)
    requires Reachable(b, g) && e in g.events
    ensures !ActsAfterDeath(g.events, e)
  {
    hide Reachable, CauseInv, RoundsAscend, QuietInv, RowInv;
    ChecksOf(b, g);
    var j :| 0 <= j < |g.events| && g.events[j] == e;
    Numbered(b, g, j);
    forall i | 0 <= i < |g.events| && IsDeath(g.events[i].kind) && g.events[i].sequence < e.sequence && IsAction(e.kind)
      ensures g.events[i].target != e.actor
    {
      Numbered(b, g, i);
    }
  }

  lemma ConsumablesAreUsedOnce(b: Board, g: Game)
    requires Reachable(b, g)
    ensures Distinct(Uses(g.events))
  {
    hide Reachable, GuardInv, BallotInv, Select;
    AbilitiesOf(b, g);
    forall i, j | 0 <= i < j < |g.events| && IsConsumed(g.events[i].kind) && g.events[i].kind == g.events[j].kind
      ensures g.events[i].actor != g.events[j].actor
    {
      if g.events[i].kind.HunterShoot? {
        assert ShotsBy(g.events, g.events[i].actor.seat) <= 1;
        OnePlace(ShotView(g.events[i].actor), g.events, i, j);
      } else {
        OnePlace(KindView(g.events[i].kind), g.events, i, j);
      }
    }
    UsesDistinct(g.events);
  }

  lemma DeathsHaveCauses(b: Board, g: Game, e: Event)
    requires Reachable(b, g) && e in g.events && e.kind.PlayerDied?
    ensures HasCause(g.events, e)
  {
    hide Reachable, ActorsLive, RoundsAscend, QuietInv, RowInv;
    ChecksOf(b, g);
    var j :| 0 <= j < |g.events| && g.events[j] == e;
    assert Caused(g.events, j);
    var i :| 0 <= i < j && IsCause(g.events[i].kind) && g.events[i].target == e.target;
    Numbered(b, g, i);
    Numbered(b, g, j);
  }

  lemma OnlyPlayersDie(b: Board, g: Game, e: Event)
    requires Reachable(b, g) && e in g.events && IsDeath(e.kind)
    ensures KnownPlayer(Roster(b), e.target)
  {
    hide Reachable, Replay, DeathInv, Roster;
    EventsOf(b, g);
    var i :| 0 <= i < |g.events| && g.events[i] == e;
    assert EventOk(b, g.table.round, i, e);
    DeadAreCommitted(g.events, g.committed, i);
    assert Roster(b)[e.target.seat].name == e.target;
  }

  /** The nights, told from the guard's events alone, when rounds ascend. */
  lemma {:induction false} NightsInOrder(events: seq<Event>)
    requires RoundsAscend(events)
    ensures var nights, guards := GuardNights(events), Select(KindView(GuardProtect), events);
            && |nights| == |guards|
            && forall i :: 0 <= i < |nights| ==> nights[i] == (guards[i].round, guards[i].target)
  {
    if events != [] {
      var init, e := events[..|events| - 1], events[|events| - 1];
      NightsInOrder(init);
      var guards := Select(KindView(GuardProtect), init);
      if e.kind.GuardProtect? && guards != [] {
        var last := guards[|guards| - 1];
        SelectedAre(KindView(GuardProtect), init, last);
        assert last in init;
        assert last.round <= e.round;
      }
    }
  }

  lemma GuardsAlternate(b: Board, g: Game)
    requires Reachable(b, g)
    ensures GuardsRest(GuardNights(g.events))
  {
    hide Reachable, ActorsLive, CauseInv, QuietInv, RowInv, PotionInv, ShotInv, BallotInv, RoundsAscend, Select;
    ChecksOf(b, g);
    AbilitiesOf(b, g);
    NightsInOrder(g.events);
  }

  /** By day and at the end every night's row is in order; during a night only the current one may be open. */
  lemma NightsAreSettled(b: Board, g: Game)
    requires Reachable(b, g) && !g.table.stage.NightStage?
    ensures forall r :: RowOk(RowOf(g.events, r))
  {
    hide Reachable, ActorsLive, CauseInv, QuietInv, RoundsAscend, RowOf;
    ChecksOf(b, g);
    assert RowOk(EMPTY_ROW);
    hide RowOk;
  }

  // ---- the theorem ---------------------------------------------------------------------

  /** What the checker reads of a run, whatever phase each turn is filed under. */
  function ArtifactsOf(b: Board, g: Game, phases: seq<Phase>): Artifacts
    requires |phases| == |g.turns|
  {
    Artifacts(Roster(b), g.events,
              seq(|g.turns|, i requires 0 <= i < |g.turns| => (RequestText(b.gameId, g.turns[i].key), phases[i])))
  }

  lemma IdentitiesDiffer(b: Board, g: Game, phases: seq<Phase>)
    requires Reachable(b, g) && |phases| == |g.turns|
    ensures Distinct(ArtifactsOf(b, g, phases).identities)
  {
    hide Reachable, BudgetInv, Booked, HonestKind, CountCharged, RequestText;
    CallsOf(b, g);
    var ids := ArtifactsOf(b, g, phases).identities;
    forall i, j | 0 <= i < j < |ids| ensures ids[i] != ids[j] {
      if ids[i].0 == ids[j].0 {
        RequestTextInjective(b.gameId, g.turns[i].key, g.turns[j].key);
      }
    }
  }

  /** The checker has nothing to list on any run that has reached its end, nor on any run that stands at a day. */
  lemma RunsAreClean(b: Board, g: Game, phases: seq<Phase>)
    requires Reachable(b, g) && !g.table.stage.NightStage? && |phases| == |g.turns|
    ensures Clean(ArtifactsOf(b, g, phases))
  {
    hide Reachable, RequestText, Distinct, Roster, ActsAfterDeath, HasCause, KnownPlayer, RowOk, GuardsRest, ShapeInv;
    EventsOf(b, g);
    NobodyDiesTwice(b, g);
    ConsumablesAreUsedOnce(b, g);
    IdentitiesDiffer(b, g, phases);
    NightsAreSettled(b, g);
    GuardsAlternate(b, g);
    forall e | e in g.events ensures !ActsAfterDeath(g.events, e) {
      TheDeadDoNotAct(b, g, e);
    }
    forall e | e in g.events && e.kind.PlayerDied? ensures HasCause(g.events, e) {
      DeathsHaveCauses(b, g, e);
    }
    forall e | e in g.events && IsDeath(e.kind) ensures KnownPlayer(Roster(b), e.target) {
      OnlyPlayersDie(b, g, e);
    }
    LogNotEmpty(b, g);
  }

  lemma LogNotEmpty(b: Board, g: Game)
    requires ShapeInv(b, g.events, g.table.round)
    ensures g.events != []
  {
  }
}
