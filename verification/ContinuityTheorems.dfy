/** A continuity store fed a run's events knows what the run's witch has used. */
module ContinuityTheorems {
  import opened Logs
  import opened Rules
  import opened Referee
  import opened LogViews
  import opened LogInvariants
  import opened AbilityInvariants
  import opened TeamInvariants
  import opened RunTheorems
  import opened GameTheorems
  import opened Continuity

  /** Every potion in the log was used by a seat of the board. */
  lemma PotionsHaveOwners(b: Board, g: Game, e: Event)
    requires Reachable(b, g) && e in g.events && IsPotion(e.kind)
    ensures e.actor.Player? && e.actor.seat < |b.roles|
  {
    hide Reachable, Spent, Apart, Select;
    DecisionsOf(b, g);
    SelectedAre(DeedView, g.events, e);
    var deeds := Select(DeedView, g.events);
    var k :| 0 <= k < |deeds| && deeds[k] == e;
    assert Matches(g.decisions[k], deeds[k]);
    assert DecisionOk(b, g.decisions[k], g.events, g.turns);
  }

  lemma UsedMeansLogged(events: seq<Event>, kind: EventKind)
    ensures |Select(KindView(kind), events)| > 0 <==> exists e :: e in events && e.kind == kind
  {
    var picked := Select(KindView(kind), events);
    forall e ensures e in picked <==> e in events && e.kind == kind { SelectedAre(KindView(kind), events, e); }
    if |picked| > 0 { assert picked[0] in picked; }
  }

  ghost predicate SomebodySaved(b: Board, events: seq<Event>) {
    exists s: Seat :: s < |b.roles| && ReplayFlags(events, Player(s)).Some? && ReplayFlags(events, Player(s)).value.antidoteUsed
  }

  ghost predicate SomebodyPoisoned(b: Board, events: seq<Event>) {
    exists s: Seat :: s < |b.roles| && ReplayFlags(events, Player(s)).Some? && ReplayFlags(events, Player(s)).value.poisonUsed
  }

  /** After any run the replayed flags say a potion is used exactly when the run has used it. */
  lemma StoreKnowsThePotions(b: Board, g: Game)
    requires Reachable(b, g)
    ensures g.table.saveUsed <==> SomebodySaved(b, g.events)
    ensures g.table.poisonUsed <==> SomebodyPoisoned(b, g.events)
  {
    hide Reachable, GuardInv, ShotInv, BallotInv, SaveOk, Select, ReplayFlags;
    AbilitiesOf(b, g);
    UsedMeansLogged(g.events, WitchSave);
    UsedMeansLogged(g.events, WitchPoison);
    forall s: Seat
      ensures ReplayFlags(g.events, Player(s)).Some? && ReplayFlags(g.events, Player(s)).value.antidoteUsed <==>
              exists e :: e in g.events && e.kind.WitchSave? && e.actor == Player(s)
      ensures ReplayFlags(g.events, Player(s)).Some? && ReplayFlags(g.events, Player(s)).value.poisonUsed <==>
              exists e :: e in g.events && e.kind.WitchPoison? && e.actor == Player(s)
    {
      FlagsExactly(g.events, Player(s));
    }
    if e :| e in g.events && e.kind == WitchSave {
      PotionsHaveOwners(b, g, e);
      assert e.actor == Player(e.actor.seat);
    }
    if e :| e in g.events && e.kind == WitchPoison {
      PotionsHaveOwners(b, g, e);
      assert e.actor == Player(e.actor.seat);
    }
  }
}
