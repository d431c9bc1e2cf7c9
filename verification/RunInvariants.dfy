/** Facts every legal run keeps, one family at a time; each family has a lemma for the opening and one for a move. */
module RunInvariants {
  import opened Logs
  import opened Rules
  import opened Referee

  // ---- the living and the dead -------------------------------------------

  ghost predicate PeopleInv(b: Board, alive: set<Seat>, committed: set<Seat>, t: Table) {
    && alive !! committed
    && (forall s: Seat :: s in alive || s in committed <==> s < |b.roles|)
    && t.causes.Keys == committed
  }

  ghost predicate HunterInv(b: Board, alive: set<Seat>, committed: set<Seat>, t: Table) {
    && t.fired <= committed && t.shotAsked <= committed
    && (forall s :: s in t.shotAsked ==> HasRole(b, s, Hunter))
    && (forall s :: s in t.fired ==> HasRole(b, s, Hunter) && s in t.causes && !Suppressed(Hunter, t.causes[s]))
    && (t.aim.Some? ==> t.aim.value in alive)
  }

  ghost predicate DayInv(b: Board, alive: set<Seat>, t: Table) {
    && alive <= t.dawn
    && (forall s :: s in t.dawn ==> s < |b.roles|)
    && (t.victim.Some? ==> t.victim.value in t.dawn && !IsWolf(b, t.victim.value))
    && (t.ousted.Some? ==> t.ousted.value in t.dawn && t.ousted.value !in alive)
    && (t.stage.NightStage? ==> t.ousted.None?)
    && t.round >= 1
    && |t.dawn| + t.round <= |b.roles| + 1
  }

  ghost predicate LifeInv(b: Board, alive: set<Seat>, committed: set<Seat>, t: Table) {
    PeopleInv(b, alive, committed, t) && HunterInv(b, alive, committed, t) && DayInv(b, alive, t)
  }

  lemma SmallerSet<T>(a: set<T>, b: set<T>)
    requires a <= b
    ensures |a| <= |b|
  {
    if a != {} {
      var x :| x in a;
      SmallerSet(a - {x}, b - {x});
    }
  }

  lemma StrictlySmallerSet<T>(a: set<T>, b: set<T>, x: T)
    requires a <= b && x in b && x !in a
    ensures |a| < |b|
  {
    SmallerSet(a, b - {x});
  }

  lemma LifeStart(b: Board)
    ensures LifeInv(b, Seats(b), {}, OpeningTable(b))
  {
  }

  /** Which moves write the notes on deaths. */
  lemma DeathFrame(g: Game, m: Move)
    ensures var t, t' := g.table, NextTable(g, m);
            && (!m.Die? && !m.Oust? ==> t'.causes == t.causes)
            && (!m.Die? && !m.Shoot? ==> t'.aim == t.aim)
  {
  }

  /** Which moves write the notes on shots. */
  lemma ShotFrame(g: Game, m: Move)
    ensures var t, t' := g.table, NextTable(g, m);
            && (!m.Shoot? && !m.HoldFire? ==> t'.fired == t.fired)
            && (!m.Ask? ==> t'.shotAsked == t.shotAsked)
  {
  }

  /** Which moves write the notes on potions. */
  lemma PotionFrame(g: Game, m: Move)
    ensures var t, t' := g.table, NextTable(g, m);
            && (!m.Save? ==> t'.saveUsed == t.saveUsed)
            && (!m.Poison? ==> t'.poisonUsed == t.poisonUsed)
  {
  }

  /** Which moves write the notes on the wolves' victim. */
  lemma VictimFrame(g: Game, m: Move)
    ensures var t, t' := g.table, NextTable(g, m);
            && (!m.Kill? && !m.Nightfall? ==> t'.victim == t.victim)
  {
  }

  /** Which moves write the notes on the vote. */
  lemma VoteFrame(g: Game, m: Move)
    ensures var t, t' := g.table, NextTable(g, m);
            && (!m.Oust? && !m.Nightfall? ==> t'.ousted == t.ousted)
            && (!m.Vote? && !m.Nightfall? ==> t'.ballots == t.ballots)
  {
  }

  /** How the clock moves, and that deeds stay done until nightfall. */
  lemma ClockFrame(g: Game, m: Move)
    ensures var t, t' := g.table, NextTable(g, m);
            && (!m.Nightfall? ==> t'.round == t.round && t'.dawn == t.dawn && t.acted <= t'.acted)
            && (m.Nightfall? ==> t'.round == t.round + 1 && t'.stage.NightStage? && t'.victim.None? && t'.ousted.None?
                                 && t'.ballots == multiset{} && t'.dawn == g.alive)
            && (!m.Sunrise? && !m.Nightfall? && !m.Finish? ==> t'.stage == t.stage)
            && (m.Sunrise? ==> t'.stage.DayStage?) && (m.Finish? ==> t'.stage.EndStage?)
  {
  }

  lemma PeopleStep(b: Board, g: Game, m: Move)
    requires PeopleInv(b, g.alive, g.committed, g.table) && Legal(b, g, m)
    ensures PeopleInv(b, g.alive - Departing(m), g.committed + Departing(m), NextTable(g, m))
  {
    if m.Die? || m.Oust? {
      HunterMoves(b, g, m);
      SomebodyLeaves(g, m);
    } else {
      DeathFrame(g, m);
    }
    hide Legal, NextTable;
  }

  lemma SomebodyLeaves(g: Game, m: Move)
    requires m.Die? || m.Oust?
    ensures NextTable(g, m).causes.Keys == g.table.causes.Keys + {m.seat}
  {
    hide Departing;
    if m.Die? {
      assert NextTable(g, m).causes == g.table.causes[m.seat := m.cause];
    } else {
      assert NextTable(g, m).causes == g.table.causes[m.seat := VotedOut];
    }
  }

  /** Moves that say nothing about hunters, shots or deaths. */
  predicate Peaceful(m: Move) {
    !m.Ask? && !m.Die? && !m.Oust? && !m.Shoot? && !m.HoldFire?
  }

  lemma PeacefulMove(g: Game, m: Move)
    requires Peaceful(m)
    ensures var t, t' := g.table, NextTable(g, m);
            && t'.fired == t.fired && t'.shotAsked == t.shotAsked && t'.causes == t.causes && t'.aim == t.aim
            && Departing(m) == {}
  {
    DeathFrame(g, m);
    ShotFrame(g, m);
    hide NextTable;
  }

  /** What the rule book demands of the other moves. */
  lemma HunterMoves(b: Board, g: Game, m: Move)
    requires Legal(b, g, m)
    ensures m.Die? || m.Oust? ==> m.seat in g.alive && (g.table.aim.Some? ==> m.Die?)
    ensures m.Die? && g.table.aim.Some? ==> g.table.aim == Some(m.seat)
    ensures m.Ask? ==> g.table.aim.None? && (m.slot.ShotSlot? ==> CanTrigger(b, g, m.slot.seat))
    ensures m.Shoot? || m.HoldFire? ==> CanTrigger(b, g, m.seat) && (m.Shoot? ==> m.target in g.alive)
  {
    hide ResolveNight, KillAgreed, Leaders, WinCheck, PublicIdsOnly, NoneToFire, NightTurnsTaken, Refused, Follows,
      Abstains, AllDid, GuardDone, SeerDone, WolvesDone, JustAsked, CanTrigger;
  }

  lemma HunterStep(b: Board, g: Game, m: Move)
    requires PeopleInv(b, g.alive, g.committed, g.table) && HunterInv(b, g.alive, g.committed, g.table)
    requires Legal(b, g, m)
    ensures HunterInv(b, g.alive - Departing(m), g.committed + Departing(m), NextTable(g, m))
  {
    if Peaceful(m) {
      PeacefulMove(g, m);
      hide Legal, NextTable, Departing, PeopleInv;
    } else {
      HunterMoves(b, g, m);
      hide Legal;
    }
  }

  lemma DayMoves(b: Board, g: Game, m: Move)
    requires Legal(b, g, m)
    ensures m.Oust? ==> m.seat in g.alive && g.table.stage.DayStage?
    ensures m.Nightfall? ==> g.table.ousted.Some?
    ensures m.Kill? ==> BidsOk(b, g, m.bids)
                        && VerdictAllows(AdjudicateKill(b, m.bids, LivingNonWolves(b, g.alive)), m.target)
  {
    hide ResolveNight, AdjudicateKill, PrimaryWolf, Leaders, WinCheck, PublicIdsOnly, BidsOk;
  }

  /** Only a kill, an elimination and nightfall touch the round's outcome. */
  lemma QuietMove(g: Game, m: Move)
    requires !m.Kill? && !m.Oust? && !m.Nightfall?
    ensures var t, t' := g.table, NextTable(g, m);
            && t'.dawn == t.dawn && t'.victim == t.victim && t'.ousted == t.ousted && t'.round == t.round
            && (t'.stage.NightStage? ==> t.stage.NightStage?)
  {
    VictimFrame(g, m);
    VoteFrame(g, m);
    ClockFrame(g, m);
    hide NextTable;
  }

  lemma LoudMove(b: Board, g: Game, m: Move)
    requires DayInv(b, g.alive, g.table) && Legal(b, g, m) && (m.Kill? || m.Oust? || m.Nightfall?)
    ensures DayInv(b, g.alive - Departing(m), NextTable(g, m))
  {
    DayMoves(b, g, m);
    ClockFrame(g, m);
    if m.Nightfall? {
      StrictlySmallerSet(g.alive, g.table.dawn, g.table.ousted.value);
    } else {
      LoudTable(g, m);
    }
    if m.Kill? {
      VerdictTargetsALivingVillager(b, g, m.bids, m.target);
    }
    hide Legal, BidsOk, AdjudicateKill, NextTable;
  }

  lemma LoudTable(g: Game, m: Move)
    requires m.Kill? || m.Oust?
    ensures var t, t' := g.table, NextTable(g, m);
            && t'.victim == (if m.Kill? then Some(m.target) else t.victim)
            && t'.ousted == (if m.Oust? then Some(m.seat) else t.ousted)
  {
  }

  lemma DayStep(b: Board, g: Game, m: Move)
    requires DayInv(b, g.alive, g.table) && Legal(b, g, m)
    ensures DayInv(b, g.alive - Departing(m), NextTable(g, m))
  {
    hide Legal, NextTable, Departing;
    if m.Kill? || m.Oust? || m.Nightfall? {
      LoudMove(b, g, m);
    } else {
      QuietMove(g, m);
    }
  }

  lemma LifeStep(b: Board, g: Game, m: Move)
    requires LifeInv(b, g.alive, g.committed, g.table) && Legal(b, g, m)
    ensures LifeInv(b, g.alive - Departing(m), g.committed + Departing(m), NextTable(g, m))
  {
    PeopleStep(b, g, m);
    HunterStep(b, g, m);
    DayStep(b, g, m);
  }

  /** Until sunrise only night requests were made and nobody has spoken or voted. */
  ghost predicate NightInv(t: Table) {
    t.stage.NightStage? ==>
      && (forall slot :: slot in t.asked ==> slot.NightSlot? || slot.WitchSlot?)
      && (forall s, d :: (s, d) in t.acted ==> !d.Speaking? && !d.Voting?)
      && t.ballots == multiset{}
  }

  lemma NightStep(b: Board, g: Game, m: Move)
    requires NightInv(g.table) && Legal(b, g, m)
    ensures NightInv(NextTable(g, m))
  {
    NightMoves(b, g, m);
    hide Legal;
  }

  /** Speeches, votes and the scribe belong to the day, and by night only night slots are asked. */
  lemma NightMoves(b: Board, g: Game, m: Move)
    requires Legal(b, g, m)
    ensures m.AskScribe? || m.Speak? || m.Vote? ==> g.table.stage.DayStage?
    ensures m.Ask? && g.table.stage.NightStage? ==> m.slot.NightSlot? || m.slot.WitchSlot? || m.slot.ShotSlot?
  {
    hide ResolveNight, KillAgreed, Leaders, WinCheck, PublicIdsOnly, NoneToFire, NightTurnsTaken, Refused, Follows,
      Abstains, AllDid, GuardDone, SeerDone, WolvesDone, JustAsked;
  }

  lemma VerdictTargetsALivingVillager(b: Board, g: Game, bids: seq<Bid>, target: Seat)
    requires BidsOk(b, g, bids)
    requires VerdictAllows(AdjudicateKill(b, bids, LivingNonWolves(b, g.alive)), target)
    ensures target in LivingNonWolves(b, g.alive)
    ensures bids != [] ==> exists i :: 0 <= i < |bids| && bids[i].target == target
  {
    if bids != [] {
      LeadersExactly(BidTargets(bids), |b.roles|, target);
      BidsCounted(bids, target);
    }
  }
}
