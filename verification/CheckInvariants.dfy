/** What the run checker looks for, as facts every legal run keeps. */
module CheckInvariants {
  import opened Logs
  import opened Rules
  import opened Referee
  import opened RunInvariants
  import opened LogViews
  import opened LogInvariants
  import opened AbilityInvariants
  import opened RunChecker

  // ---- the dead do not act --------------------------------------------------------

  ghost predicate ActorsLive(events: seq<Event>) {
    forall i, j :: 0 <= i < j < |events| && IsDeath(events[i].kind) && IsAction(events[j].kind) ==>
      events[i].target != events[j].actor
  }

  lemma NewActors(b: Board, g: Game, m: Move)
    requires Legal(b, g, m)
    ensures var es := NewEvents(b, g, m);
            && |es| <= 2
            && (forall e :: e in es && IsAction(e.kind) ==> |es| == 1 && e.actor.Player? && e.actor.seat in g.alive)
  {
    if m.Kill? {
      KillerLives(b, g, m);
    } else {
      OtherActorsLive(b, g, m);
    }
  }

  lemma KillerLives(b: Board, g: Game, m: Move)
    requires Legal(b, g, m) && m.Kill?
    ensures m.primary in g.alive
    ensures NewEvents(b, g, m) == [NewEvents(b, g, m)[0]] && NewEvents(b, g, m)[0].actor == Player(m.primary)
  {
    hide EventId, WinCheck, AdjudicateKill, PublicIdsOnly, BidsOk, PrimaryWolf, GuardDone;
    assert KillAgreed(b, g, m.bids, m.target, m.primary);
    PrimaryIsALivingWolf(b, g, m.bids, m.target, m.primary);
  }

  lemma OtherActorsLive(b: Board, g: Game, m: Move)
    requires Legal(b, g, m) && !m.Kill?
    ensures var es := NewEvents(b, g, m);
            && |es| <= 2
            && (forall e :: e in es && IsAction(e.kind) ==> |es| == 1 && e.actor.Player? && e.actor.seat in g.alive)
  {
    hide EventId, WinCheck, PublicIdsOnly, Follows, Abstains, Refused, NoneToFire, NightTurnsTaken, GuardDone, SeerDone,
      WolvesDone, AllDid, Leaders, ResolveNight, CanTrigger;
  }

  lemma DeadAreCommitted(events: seq<Event>, committed: set<Seat>, i: nat)
    requires DeathInv(events, committed) && i < |events| && IsDeath(events[i].kind)
    ensures events[i].target.Player? && events[i].target.seat in committed
  {
    SelectedAre(DeathView(events[i].target), events, events[i]);
    assert events[i] in Select(DeathView(events[i].target), events);
    assert DeathsOf(events, events[i].target.seat) > 0;
  }

  lemma ActorsStep(b: Board, g: Game, m: Move)
    requires Legal(b, g, m) && PeopleInv(b, g.alive, g.committed, g.table) && DeathInv(g.events, g.committed)
    requires ActorsLive(g.events)
    ensures ActorsLive(g.events + NewEvents(b, g, m))
  {
    hide Legal, NewEvents, DeathInv;
    NewActors(b, g, m);
    var es := NewEvents(b, g, m);
    var all := g.events + es;
    forall i, j | 0 <= i < j < |all| && IsDeath(all[i].kind) && IsAction(all[j].kind)
      ensures all[i].target != all[j].actor
    {
      if j >= |g.events| {
        assert all[j] == es[j - |g.events|] && all[j] in es;
        assert i < |g.events|;
        DeadAreCommitted(g.events, g.committed, i);
      }
    }
  }

  // ---- every death has a cause -------------------------------------------------------

  predicate Caused(events: seq<Event>, j: nat)
    requires j < |events|
  {
    events[j].kind.PlayerDied? ==>
      exists i :: 0 <= i < j && IsCause(events[i].kind) && events[i].target == events[j].target
  }

  predicate PoisonLogged(events: seq<Event>, target: Name) {
    exists i :: 0 <= i < |events| && events[i].kind.WitchPoison? && events[i].target == target
  }

  ghost predicate CauseInv(events: seq<Event>, t: Table) {
    && (forall j :: 0 <= j < |events| ==> Caused(events, j))
    && (t.poison.Some? ==> PoisonLogged(events, Player(t.poison.value)))
  }

  /** Whoever dies now was named by the night's kill or poison, or by the shot just fired. */
  lemma DeathIsCaused(b: Board, g: Game, m: Move)
    requires Legal(b, g, m) && m.Die?
    requires CauseInv(g.events, g.table) && PotionInv(g.events, g.table) && ShotInv(g.events, g.table)
    ensures exists i :: 0 <= i < |g.events| && IsCause(g.events[i].kind) && g.events[i].target == Player(m.seat)
  {
    var t := g.table;
    if t.aim.Some? {
      assert t.aim == Some(m.seat) by { hide ResolveNight, PotionInv, ShotInv, CauseInv; }
      assert g.events[|g.events| - 1].kind.HunterShoot?;
    } else {
      assert m.seat in Settlement(t).causes by { hide ResolveNight, PotionInv, ShotInv, CauseInv; }
      hide Legal, ShotInv;
      NightDeathsExactly(Intents(t), t.dawn, m.seat);
      if t.victim == Some(m.seat) {
        assert KillLogged(g.events, |g.events|, t.round, Player(m.seat));
      } else {
        assert PoisonLogged(g.events, Player(m.seat));
      }
    }
  }

  lemma NewPoison(b: Board, g: Game, m: Move)
    requires Legal(b, g, m)
    ensures var p := NextTable(g, m).poison;
            p.Some? ==> p == g.table.poison
                        || (|NewEvents(b, g, m)| == 1 && NewEvents(b, g, m)[0].kind.WitchPoison?
                            && NewEvents(b, g, m)[0].target == Player(p.value))
    ensures forall e :: e in NewEvents(b, g, m) && e.kind.PlayerDied? ==> m.Die? && e.target == Player(m.seat)
  {
    hide Legal, EventId;
  }

  lemma CauseStep(b: Board, g: Game, m: Move)
    requires Legal(b, g, m)
    requires CauseInv(g.events, g.table) && PotionInv(g.events, g.table) && ShotInv(g.events, g.table)
    ensures CauseInv(g.events + NewEvents(b, g, m), NextTable(g, m))
  {
    NewPoison(b, g, m);
    if m.Die? {
      DeathIsCaused(b, g, m);
    }
    hide Legal, NewEvents, NextTable, PotionInv, ShotInv, IsCause, Caused;
    var es := NewEvents(b, g, m);
    var all := g.events + es;
    forall j | 0 <= j < |all| ensures Caused(all, j) {
      if j < |g.events| {
        CausedStays(g.events, es, j);
      } else {
        assert all[j] == es[j - |g.events|] && all[j] in es;
        CauseFound(g.events, es, j);
      }
    }
    var p := NextTable(g, m).poison;
    if p.Some? {
      if p == g.table.poison {
        PoisonStays(g.events, es, Player(p.value));
      } else {
        assert all[|g.events|] == es[0];
      }
    }
  }

  lemma CausedStays(events: seq<Event>, es: seq<Event>, j: nat)
    requires j < |events| && Caused(events, j)
    ensures Caused(events + es, j)
  {
    assert (events + es)[j] == events[j];
    if events[j].kind.PlayerDied? {
      var i :| 0 <= i < j && IsCause(events[i].kind) && events[i].target == events[j].target;
      assert (events + es)[i] == events[i];
    }
  }

  lemma CauseFound(events: seq<Event>, es: seq<Event>, j: nat)
    requires |events| <= j < |events + es|
    requires (events + es)[j].kind.PlayerDied? ==>
               exists i :: 0 <= i < |events| && IsCause(events[i].kind) && events[i].target == (events + es)[j].target
    ensures Caused(events + es, j)
  {
    if !(events + es)[j].kind.PlayerDied? {
      return;
    }
    var i :| 0 <= i < |events| && IsCause(events[i].kind) && events[i].target == (events + es)[j].target;
    assert (events + es)[i] == events[i];
  }

  lemma PoisonStays(events: seq<Event>, es: seq<Event>, target: Name)
    requires PoisonLogged(events, target)
    ensures PoisonLogged(events + es, target)
  {
    var i :| 0 <= i < |events| && events[i].kind.WitchPoison? && events[i].target == target;
    assert (events + es)[i] == events[i];
  }

  // ---- rounds go up ---------------------------------------------------------------------

  ghost predicate RoundsAscend(events: seq<Event>) {
    forall i, j :: 0 <= i < j < |events| ==> events[i].round <= events[j].round
  }

  lemma AscendStep(b: Board, g: Game, m: Move)
    requires LifeInv(b, g.alive, g.committed, g.table) && Legal(b, g, m)
    requires ShapeInv(b, g.events, g.table.round) && RoundsAscend(g.events)
    ensures RoundsAscend(g.events + NewEvents(b, g, m))
  {
    hide Legal, NewEvents, LifeInv;
    NewEventsOk(b, g, m);
    var es := NewEvents(b, g, m);
    var all := g.events + es;
    forall i, j | 0 <= i < j < |all| ensures all[i].round <= all[j].round {
      if i < |g.events| { assert EventOk(b, g.table.round, i, g.events[i]); }
    }
  }

  // ---- the guard's nights -----------------------------------------------------------------

  function Named(s: Option<Seat>): Option<Name> { if s.Some? then Some(Player(s.value)) else None }

  function NamesOf(seats: set<Seat>): set<Name> { set s | s in seats :: Player(s) }

  /** Tonight's row, read off the referee's table. */
  function TableRow(alive: set<Seat>, t: Table): Row {
    Row(Named(t.victim), Named(t.guarded), if t.saved then Named(t.victim) else None, Named(t.poison),
        NamesOf(t.dawn - alive))
  }

  predicate Blocked(t: Table) { t.victim.Some? && t.guarded == t.victim && !t.saved }

  /** While nobody has died tonight, or the kill was blocked, no hunter has a shot. */
  ghost predicate QuietInv(b: Board, g: Game) {
    g.table.stage.NightStage? && (g.alive == g.table.dawn || Blocked(g.table)) ==> NoneToFire(b, g) && g.table.aim.None?
  }

  ghost predicate RowInv(events: seq<Event>, alive: set<Seat>, t: Table) {
    && (t.saved ==> t.victim.Some?)
    && (forall r: int :: r > t.round ==> RowOf(events, r) == EMPTY_ROW)
    && (forall r: int :: r < t.round ==> RowOk(RowOf(events, r)))
    && RowNow(RowOf(events, t.round), alive, t)
  }

  /** Tonight's row agrees with the table; once the night is over it passes both checks. */
  ghost predicate RowNow(row: Row, alive: set<Seat>, t: Table) {
    if t.stage.NightStage? then row == TableRow(alive, t) && BlockedSurvives(row) else RowOk(row)
  }

  lemma RowExtend(events: seq<Event>, alive: set<Seat>, t: Table, es: seq<Event>, alive': set<Seat>, t': Table)
    requires RowInv(events, alive, t) && |es| <= 2 && forall e :: e in es ==> e.round == t.round
    requires t'.round == t.round && (t'.saved ==> t'.victim.Some?)
    requires RowNow(RowAfter(RowOf(events, t.round), es), alive', t')
    ensures RowInv(events + es, alive', t')
  {
    hide RowNow, RowAfter, RowOf, RowOk;
    RowAppend(events, es, t.round);
  }

  lemma QuietStep(b: Board, g: Game, m: Move)
    requires Legal(b, g, m) && QuietInv(b, g) && g.alive <= g.table.dawn
    ensures QuietInv(b, Step(b, g, m))
  {
    if m.Die? && g.table.stage.NightStage? {
      QuietDeath(b, g, m);
    } else if m.Nightfall? {
      QuietNightfall(b, g, m);
    } else if g.table.stage.NightStage? {
      QuietTurn(b, g, m);
    } else {
      DayStays(b, g, m);
    }
  }

  lemma QuietNightfall(b: Board, g: Game, m: Move)
    requires Legal(b, g, m) && m.Nightfall?
    ensures QuietInv(b, Step(b, g, m))
  {
    hide WinCheck;
  }

  lemma DayStays(b: Board, g: Game, m: Move)
    requires Legal(b, g, m) && !g.table.stage.NightStage? && !m.Nightfall?
    ensures !NextTable(g, m).stage.NightStage?
  {
    hide Legal;
  }

  lemma QuietDeath(b: Board, g: Game, m: Move)
    requires Legal(b, g, m) && m.Die? && QuietInv(b, g) && g.table.stage.NightStage? && g.alive <= g.table.dawn
    ensures QuietInv(b, Step(b, g, m))
  {
    hide NewEvents, NewDecisions, NewConsensus, NextTurns, NightTurnsTaken;
    var t := g.table;
    if Blocked(t) {
      assert t.aim.None? && m.seat in Settlement(t).causes && Settlement(t).causes[m.seat] == m.cause && NoneToFire(b, g) by {
        hide ResolveNight, NoneToFire;
      }
      NightDeathsExactly(Intents(t), t.dawn, m.seat);
      assert m.cause == Poisoned;
    }
    assert m.seat in t.dawn && m.seat !in Step(b, g, m).alive by { hide ResolveNight, NoneToFire; }
  }

  /** A night turn with nobody dead yet leaves nobody to shoot; one after a blocked kill changes nothing either. */
  lemma QuietTurn(b: Board, g: Game, m: Move)
    requires Legal(b, g, m) && !m.Die? && !m.Nightfall? && QuietInv(b, g) && g.table.stage.NightStage?
    ensures QuietInv(b, Step(b, g, m))
  {
    NoDeathHere(b, g, m);
    hide Legal, NewEvents, NewDecisions, NewConsensus, NextTurns, Departing, NextTable;
    var h := Step(b, g, m);
    if h.table.stage.NightStage? && (h.alive == h.table.dawn || Blocked(h.table)) {
      assert NoneToFire(b, g) && g.table.aim.None?;
      assert h.table.aim.None?;
    }
  }

  lemma NoDeathHere(b: Board, g: Game, m: Move)
    requires Legal(b, g, m) && !m.Die? && !m.Nightfall? && g.table.stage.NightStage?
    ensures Departing(m) == {}
    ensures var t, t' := g.table, NextTable(g, m);
            && t'.dawn == t.dawn && t'.causes == t.causes && t.fired <= t'.fired
            && (Blocked(t') ==> Blocked(t) || g.alive == t.dawn)
            && (NoneToFire(b, g) && t.aim.None? ==> t'.aim.None?)
  {
    hide WinCheck, GuardDone, SeerDone, WolvesDone, Follows, Abstains, Refused, KillAgreed, PublicIdsOnly, Leaders, AllDid,
      ResolveNight, LivingWolves, LivingNonWolves, JustAsked;
  }

  // ---- the row of the current night ----------------------------------------------------------

  /** Add a move's night events to a row. */
  function RowAfter(row: Row, es: seq<Event>): Row
    requires |es| <= 2
  {
    var one := if |es| > 0 && es[0].phase.Night? then Recorded(row, es[0]) else row;
    if |es| > 1 && es[1].phase.Night? then Recorded(one, es[1]) else one
  }

  lemma RowAppend(events: seq<Event>, es: seq<Event>, rnd: int)
    requires |es| <= 2 && forall e :: e in es ==> e.round == rnd
    ensures RowOf(events + es, rnd) == RowAfter(RowOf(events, rnd), es)
    ensures forall r :: r != rnd ==> RowOf(events + es, r) == RowOf(events, r)
  {
    hide RowOf, Recorded;
    if |es| == 0 {
      assert events + es == events;
    } else {
      assert es[0] in es;
      forall r ensures RowOf(events + [es[0]], r) ==
                       if es[0].phase.Night? && es[0].round == r then Recorded(RowOf(events, r), es[0]) else RowOf(events, r)
      {
        RowSnoc(events, es[0], r);
      }
      if |es| == 1 {
        assert es == [es[0]];
      } else {
        assert es[1] in es;
        assert events + es == (events + [es[0]]) + [es[1]];
        forall r ensures RowOf(events + es, r) ==
                         if es[1].phase.Night? && es[1].round == r then Recorded(RowOf(events + [es[0]], r), es[1])
                         else RowOf(events + [es[0]], r)
        {
          RowSnoc(events + [es[0]], es[1], r);
        }
      }
    }
  }

  lemma NewRounds(b: Board, g: Game, m: Move)
    ensures |NewEvents(b, g, m)| <= 2 && forall e :: e in NewEvents(b, g, m) ==> e.round == g.table.round
  {
    hide EventId;
  }

  lemma DayEventsDoNotCount(b: Board, g: Game, m: Move, row: Row)
    requires !g.table.stage.NightStage?
    requires Legal(b, g, m)
    ensures |NewEvents(b, g, m)| <= 2 && RowAfter(row, NewEvents(b, g, m)) == row
  {
    hide EventId, WinCheck, NoneToFire, AllDid, Leaders, Follows, Abstains, Refused, PublicIdsOnly, CanTrigger, ResolveNight;
  }

  /** Deeds that write the row: each is a night turn taken before anybody died. */
  lemma RowDeed(b: Board, g: Game, m: Move)
    requires Legal(b, g, m) && (m.Protect? || m.Kill? || m.Save? || m.Poison?)
    requires g.table.saved ==> g.table.victim.Some?
    ensures |NewEvents(b, g, m)| <= 2 && StillNight(g)
    ensures RowAfter(TableRow(g.alive, g.table), NewEvents(b, g, m)) == TableRow(g.alive, NextTable(g, m))
    ensures NextTable(g, m).dawn == g.table.dawn && (NextTable(g, m).saved ==> NextTable(g, m).victim.Some?)
  {
    hide EventId, WinCheck, GuardDone, SeerDone, WolvesDone, Follows, KillAgreed, PublicIdsOnly, LivingWolves, JustAsked,
      NamesOf;
  }

  lemma RowDeath(b: Board, g: Game, m: Move)
    requires Legal(b, g, m) && m.Die? && g.table.stage.NightStage? && g.alive <= g.table.dawn
    ensures |NewEvents(b, g, m)| <= 2
    ensures RowAfter(TableRow(g.alive, g.table), NewEvents(b, g, m)) == TableRow(g.alive - {m.seat}, NextTable(g, m))
  {
    assert m.seat in g.alive by { hide ResolveNight, NoneToFire, NightTurnsTaken; }
    hide Legal, EventId;
    assert g.table.dawn - (g.alive - {m.seat}) == g.table.dawn - g.alive + {m.seat};
    assert NamesOf(g.table.dawn - g.alive + {m.seat}) == NamesOf(g.table.dawn - g.alive) + {Player(m.seat)};
  }

  lemma RowUntouched(b: Board, g: Game, m: Move)
    requires g.table.stage.NightStage? && !m.Protect? && !m.Kill? && !m.Save? && !m.Poison? && !m.Die? && !m.Oust?
    requires !m.Nightfall?
    ensures |NewEvents(b, g, m)| <= 2 && Departing(m) == {}
    ensures RowAfter(TableRow(g.alive, g.table), NewEvents(b, g, m)) == TableRow(g.alive, NextTable(g, m))
    ensures NextTable(g, m).saved == g.table.saved && NextTable(g, m).victim == g.table.victim
  {
    hide EventId, NamesOf;
  }

  lemma NotByNight(b: Board, g: Game, m: Move)
    requires Legal(b, g, m) && g.table.stage.NightStage?
    ensures !m.Oust? && !m.Nightfall?
  {
    hide Leaders, NoneToFire, WinCheck, AllDid;
  }

  /** A blocked kill takes nobody: its target is not condemned, and nobody can shoot it. */
  lemma BlockedDeath(b: Board, g: Game, m: Move)
    requires Legal(b, g, m) && m.Die? && g.table.stage.NightStage? && QuietInv(b, g)
    requires BlockedSurvives(TableRow(g.alive, g.table))
    requires forall s :: s in g.alive ==> s in g.table.dawn
    ensures BlockedSurvives(TableRow(g.alive - {m.seat}, g.table))
  {
    var t := g.table;
    if Blocked(t) && t.poison != t.victim {
      assert t.aim.None? && m.seat in Settlement(t).causes by {
        hide ResolveNight, NoneToFire, NightTurnsTaken, BlockedSurvives;
      }
      hide Legal;
      NightDeathsExactly(Intents(t), t.dawn, m.seat);
      assert t.victim != Some(m.seat);
      assert Player(t.victim.value) !in NamesOf(t.dawn - g.alive);
      assert t.victim.value !in t.dawn - g.alive;
    }
  }

  /** When the night is settled a pierced target is dead. */
  lemma SettledRowOk(b: Board, g: Game)
    requires g.table.stage.NightStage? && DuskSettled(g) && BlockedSurvives(TableRow(g.alive, g.table))
    requires g.table.victim.Some? ==> g.table.victim.value in g.table.dawn
    ensures RowOk(TableRow(g.alive, g.table))
  {
    var t := g.table;
    if t.victim.Some? && t.guarded == t.victim && t.saved {
      NightDeathsExactly(Intents(t), t.dawn, t.victim.value);
      assert t.victim.value in t.dawn - g.alive;
      assert Player(t.victim.value) in NamesOf(t.dawn - g.alive);
    }
    hide ResolveNight;
  }

  lemma NightEndsSettled(b: Board, g: Game, m: Move)
    requires Legal(b, g, m) && g.table.stage.NightStage? && !NextTable(g, m).stage.NightStage?
    ensures DuskSettled(g)
  {
    hide NightTurnsTaken, WinCheck, NoneToFire, KillAgreed, ResolveNight, Refused, DuskSettled;
  }

  lemma NoDeathStays(g: Game, t: Table)
    requires StillNight(g) && t.dawn == g.table.dawn
    ensures BlockedSurvives(TableRow(g.alive, t))
  {
    assert g.table.dawn - g.alive == {};
  }

  /** The row after a move made by night. */
  ghost predicate NightRowKept(b: Board, g: Game, m: Move) {
    && |NewEvents(b, g, m)| <= 2 && (NextTable(g, m).saved ==> NextTable(g, m).victim.Some?)
    && RowNow(RowAfter(TableRow(g.alive, g.table), NewEvents(b, g, m)), g.alive - Departing(m), NextTable(g, m))
  }

  lemma DeathRowKept(b: Board, g: Game, m: Move)
    requires Legal(b, g, m) && m.Die? && g.table.stage.NightStage? && QuietInv(b, g) && DayInv(b, g.alive, g.table)
    requires BlockedSurvives(TableRow(g.alive, g.table)) && (g.table.saved ==> g.table.victim.Some?)
    ensures NightRowKept(b, g, m)
  {
    hide Legal, NewEvents, NextTable, Departing, RowAfter, TableRow, QuietInv, BlockedSurvives;
    RowDeath(b, g, m);
    BlockedDeath(b, g, m);
    DeathRowSame(g, m);
  }

  lemma DeedRowKept(b: Board, g: Game, m: Move)
    requires Legal(b, g, m) && (m.Protect? || m.Kill? || m.Save? || m.Poison?)
    requires g.table.saved ==> g.table.victim.Some?
    ensures NightRowKept(b, g, m)
  {
    hide Legal, NewEvents, NextTable, Departing, RowAfter, TableRow, BlockedSurvives;
    RowDeed(b, g, m);
    NoDeathStays(g, NextTable(g, m));
    NightStays(g, m);
    assert g.alive - {} == g.alive;
  }

  lemma OtherRowKept(b: Board, g: Game, m: Move)
    requires Legal(b, g, m) && g.table.stage.NightStage? && DayInv(b, g.alive, g.table)
    requires !m.Protect? && !m.Kill? && !m.Save? && !m.Poison? && !m.Die?
    requires BlockedSurvives(TableRow(g.alive, g.table)) && (g.table.saved ==> g.table.victim.Some?)
    ensures NightRowKept(b, g, m)
  {
    hide Legal, NewEvents, NextTable, Departing, RowAfter, TableRow, BlockedSurvives, PiercedDies;
    NotByNight(b, g, m);
    RowUntouched(b, g, m);
    SameRow(g, m);
    assert g.alive - {} == g.alive;
    if !NextTable(g, m).stage.NightStage? {
      NightEndsSettled(b, g, m);
      SettledRowOk(b, g);
    }
  }

  lemma NightRowKeeps(b: Board, g: Game, m: Move)
    requires Legal(b, g, m) && QuietInv(b, g) && DayInv(b, g.alive, g.table) && g.table.stage.NightStage?
    requires BlockedSurvives(TableRow(g.alive, g.table)) && (g.table.saved ==> g.table.victim.Some?)
    ensures NightRowKept(b, g, m)
  {
    hide *;
    if m.Die? {
      DeathRowKept(b, g, m);
    } else if m.Protect? || m.Kill? || m.Save? || m.Poison? {
      DeedRowKept(b, g, m);
    } else {
      OtherRowKept(b, g, m);
    }
  }

  lemma NightRowStep(b: Board, g: Game, m: Move)
    requires Legal(b, g, m) && RowInv(g.events, g.alive, g.table) && QuietInv(b, g) && DayInv(b, g.alive, g.table)
    requires g.table.stage.NightStage?
    ensures RowInv(g.events + NewEvents(b, g, m), g.alive - Departing(m), NextTable(g, m))
  {
    hide Legal, NewEvents, NextTable, Departing, RowOf, RowAfter, BlockedSurvives, PiercedDies, TableRow, DayInv, QuietInv;
    NightRowKeeps(b, g, m);
    NotByNight(b, g, m);
    RoundStays(g, m);
    NewRounds(b, g, m);
    RowExtend(g.events, g.alive, g.table, NewEvents(b, g, m), g.alive - Departing(m), NextTable(g, m));
  }

  lemma RoundStays(g: Game, m: Move)
    requires !m.Nightfall?
    ensures NextTable(g, m).round == g.table.round
  {
  }

  lemma NightStays(g: Game, m: Move)
    requires m.Protect? || m.Kill? || m.Save? || m.Poison?
    ensures NextTable(g, m).stage == g.table.stage && Departing(m) == {}
  {
  }

  lemma DeathRowSame(g: Game, m: Move)
    requires m.Die?
    ensures TableRow(g.alive - {m.seat}, NextTable(g, m)) == TableRow(g.alive - {m.seat}, g.table)
    ensures NextTable(g, m).saved == g.table.saved && NextTable(g, m).victim == g.table.victim
    ensures NextTable(g, m).stage == g.table.stage && Departing(m) == {m.seat}
  {
  }

  lemma SameIntents(g: Game, m: Move)
    requires !m.Protect? && !m.Kill? && !m.Save? && !m.Poison? && !m.Nightfall?
    ensures NextTable(g, m).dawn == g.table.dawn && Intents(NextTable(g, m)) == Intents(g.table)
  {
  }

  lemma SameRow(g: Game, m: Move)
    requires !m.Protect? && !m.Kill? && !m.Save? && !m.Poison? && !m.Die? && !m.Oust? && !m.Nightfall?
    ensures TableRow(g.alive, NextTable(g, m)) == TableRow(g.alive, g.table)
  {
    hide NextTable;
    SameIntents(g, m);
  }

  lemma DayRowStep(b: Board, g: Game, m: Move)
    requires Legal(b, g, m) && RowInv(g.events, g.alive, g.table) && !g.table.stage.NightStage? && !m.Nightfall?
    ensures RowInv(g.events + NewEvents(b, g, m), g.alive - Departing(m), NextTable(g, m))
  {
    hide Legal, NewEvents, NextTable, Departing, RowOf, RowAfter, BlockedSurvives, PiercedDies, TableRow;
    NewRounds(b, g, m);
    DayEventsDoNotCount(b, g, m, RowOf(g.events, g.table.round));
    RoundStays(g, m);
    DayStays(b, g, m);
    DayKeepsKill(b, g, m);
    RowExtend(g.events, g.alive, g.table, NewEvents(b, g, m), g.alive - Departing(m), NextTable(g, m));
  }

  lemma NightfallRow(b: Board, g: Game, m: Move)
    requires RowInv(g.events, g.alive, g.table) && !g.table.stage.NightStage? && m.Nightfall?
    ensures RowInv(g.events + NewEvents(b, g, m), g.alive - Departing(m), NextTable(g, m))
  {
    hide RowOf;
    var t' := NextTable(g, m);
    assert g.events + [] == g.events && g.alive - {} == g.alive;
    assert t'.dawn - g.alive == {};
  }

  lemma DayKeepsKill(b: Board, g: Game, m: Move)
    requires Legal(b, g, m) && !g.table.stage.NightStage? && !m.Nightfall?
    requires g.table.saved ==> g.table.victim.Some?
    ensures NextTable(g, m).saved ==> NextTable(g, m).victim.Some?
  {
    hide EventId, WinCheck, NoneToFire, AllDid, Leaders, Follows, Abstains, Refused, PublicIdsOnly, CanTrigger, ResolveNight;
  }

  lemma RowStep(b: Board, g: Game, m: Move)
    requires Legal(b, g, m) && RowInv(g.events, g.alive, g.table) && QuietInv(b, g) && DayInv(b, g.alive, g.table)
    ensures RowInv(g.events + NewEvents(b, g, m), g.alive - Departing(m), NextTable(g, m))
  {
    hide *;
    if g.table.stage.NightStage? {
      NightRowStep(b, g, m);
    } else if m.Nightfall? {
      NightfallRow(b, g, m);
    } else {
      DayRowStep(b, g, m);
    }
  }
}
