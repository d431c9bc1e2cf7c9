/** Dying and what it sets off: burials, final words, the hunter's shot and its cascade, the night's settlement. */
module DeathSteps {
  import opened Logs
  import opened Rules
  import opened Referee
  import opened RunInvariants
  import opened RunTheorems
  import opened EngineSteps

  // ---- the hunter's answer --------------------------------------------------------

  predicate ShotReady(b: Board, g: Game, hunter: Seat) {
    && CanTrigger(b, g, hunter) && hunter !in g.table.shotAsked
    && g.table.aim.None? && !g.table.stage.EndStage?
  }

  /** The hunter was asked and answered: one shot or none, nobody buried yet. */
  predicate ShotTaken(g: Game, h: Game, hunter: Seat, target: Option<Seat>) {
    && h == g.(events := h.events, decisions := h.decisions, turns := h.turns, used := h.used, windows := h.windows,
               table := h.table)
    && g.events <= h.events
    && h.table == g.table.(shotAsked := h.table.shotAsked, heard := None, polled := h.table.polled,
                           fired := g.table.fired + {hunter}, aim := target)
    && g.table.shotAsked <= h.table.shotAsked <= g.table.shotAsked + {hunter}
  }

  lemma ShotMayAsk(b: Board, g: Game, hunter: Seat)
    requires ShotReady(b, g, hunter) && g.table.heard.None?
    ensures MayAsk(b, g, ShotSlot(hunter)) && hunter < |b.roles|
  {
    hide KillAgreed, Leaders, WinCheck, ResolveNight;
  }

  lemma ShotReadyFacts(b: Board, g: Game, hunter: Seat)
    requires ShotReady(b, g, hunter)
    ensures hunter < |b.roles| && hunter in g.committed && g.table.aim.None? && !g.table.stage.EndStage?
  {
  }

  lemma ShotTakenFacts(g: Game, h: Game, hunter: Seat, target: Option<Seat>)
    requires ShotTaken(g, h, hunter, target)
    ensures h.alive == g.alive && h.table.stage == g.table.stage && h.table.round == g.table.round
    ensures h.table.aim == target
  {
  }

  lemma ShotLegal(b: Board, g: Game, h: Game, hunter: Seat, target: Seat)
    requires ShotReady(b, g, hunter) && AfterAsk(g, h, ShotSlot(hunter))
    requires TargetAllowed(RuntimeState(b, g.alive, g.lastGuarded), hunter, HunterShoot, target)
    requires h.table.heard == Some((HunterShoot, Player(target)))
    ensures var m := Shoot(hunter, target);
            && Legal(b, h, m) && target in h.alive
            && DeedIs(b, h, m, hunter, PhaseOf(h.table.stage), HunterShoot, Player(target), Retaliatory, Public)
  {
    hide KillAgreed, Leaders, WinCheck, ResolveNight, EventId, DecisionId;
  }

  lemma HoldLegal(b: Board, g: Game, h: Game, hunter: Seat)
    requires ShotReady(b, g, hunter) && AfterAsk(g, h, ShotSlot(hunter)) && Abstains(h, hunter, HunterPass)
    ensures var m := HoldFire(hunter);
            && Legal(b, h, m)
            && DeedIs(b, h, m, hunter, PhaseOf(h.table.stage), HunterPass, Nobody, Default, Public)
  {
    hide KillAgreed, Leaders, WinCheck, ResolveNight, EventId, DecisionId;
  }

  /** An answer the shot's target rule rejects is one the rule book refuses. */
  lemma ShotRefused(b: Board, g: Game, hunter: Seat, action: (EventKind, Name))
    requires Reachable(b, g) && hunter in g.committed && JustAsked(g, hunter) && g.table.heard == Some(action)
    requires !action.0.HunterPass?
    requires action.0.HunterShoot? && action.1.Player? ==>
               !TargetAllowed(RuntimeState(b, g.alive, g.lastGuarded), hunter, HunterShoot, action.1.seat)
    ensures Refused(b, g)
  {
    hide Reachable, TargetAllowed, LifeInv, NightInv;
    PeopleOf(b, g);
    DeadIsDead(b, g, hunter);
  }

  lemma DeadIsDead(b: Board, g: Game, s: Seat)
    requires LifeInv(b, g.alive, g.committed, g.table) && s in g.committed
    ensures s !in g.alive
  {
    hide HunterInv, DayInv;
  }

  lemma ShotDone(b: Board, g: Game, mid: Game, m: Move, hunter: Seat)
    requires AfterAsk(g, mid, ShotSlot(hunter)) && g.table.aim.None? && Reachable(b, mid) && Legal(b, mid, m)
    requires (m.Shoot? || m.HoldFire?) && m.seat == hunter
    ensures ShotTaken(g, Step(b, mid, m), hunter, if m.Shoot? then Some(m.target) else None)
  {
    hide Legal, Reachable, NewEvents, NewDecisions, Step;
    DeedEffect(b, mid, m);
    var h := Step(b, mid, m);
    var target := if m.Shoot? then Some(m.target) else None;
    assert h.table == g.table.(shotAsked := h.table.shotAsked, heard := None, polled := h.table.polled,
                               fired := g.table.fired + {hunter}, aim := target);
  }

  // ---- shots still to come ----------------------------------------------------------

  /** At most this death may still set something off. */
  predicate OnlyPending(b: Board, g: Game, dead: Seat) {
    forall s :: s in g.committed && CanTrigger(b, g, s) ==> s == dead
  }

  lemma NothingSetOff(b: Board, g: Game, dead: Seat, cause: Cause)
    requires OnlyPending(b, g, dead) && JustDied(b, g, dead, cause)
    requires !HasDeathTrigger(b.roles[dead]) || Suppressed(b.roles[dead], cause)
    ensures NoneToFire(b, g)
  {
  }

  lemma ShotAnswered(b: Board, g: Game, h: Game, hunter: Seat, target: Option<Seat>)
    requires OnlyPending(b, g, hunter) && ShotTaken(g, h, hunter, target)
    ensures NoneToFire(b, h)
  {
  }

  lemma OneMorePending(b: Board, g: Game, h: Game, dead: Seat, cause: Cause)
    requires NoneToFire(b, g) && h.committed == g.committed + {dead}
    requires h.table.fired == g.table.fired && h.table.causes == g.table.causes[dead := cause]
    ensures OnlyPending(b, h, dead)
  {
  }

  lemma TalkRound(g: Game, h: Game)
    requires TalkOnly(g, h)
    ensures h.alive == g.alive && h.table.stage == g.table.stage && h.table.round == g.table.round
  {
  }

  lemma PendingStays(b: Board, g: Game, h: Game, dead: Seat)
    requires OnlyPending(b, g, dead) && TalkOnly(g, h)
    ensures OnlyPending(b, h, dead)
  {
  }

  // ---- burying --------------------------------------------------------------------

  /** A death just recorded, with nothing set off by it yet. */
  predicate JustDied(b: Board, g: Game, dead: Seat, cause: Cause) {
    && dead < |b.roles| && dead in g.committed && dead in g.table.causes && g.table.causes[dead] == cause
    && dead !in g.table.fired && dead !in g.table.shotAsked
    && g.table.aim.None? && g.table.heard.None? && !g.table.stage.EndStage?
  }

  lemma JustDiedFacts(b: Board, g: Game, dead: Seat, cause: Cause)
    requires JustDied(b, g, dead, cause)
    ensures dead < |b.roles| && dead in g.committed && g.table.aim.None? && g.table.heard.None?
    ensures !g.table.stage.EndStage?
  {
  }

  lemma LivingUntouched(b: Board, g: Game, s: Seat)
    requires Reachable(b, g) && s in g.alive
    ensures s < |b.roles| && s !in g.committed && s !in g.table.fired && s !in g.table.shotAsked
  {
    hide Reachable;
    ReachableInv(b, g);
  }

  function DeathRecord(b: Board, g: Game, s: Seat): Event {
    NewEvent(b, |g.events|, g.table.round, PhaseOf(g.table.stage), PlayerDied, System, Player(s), Everyone)
  }

  lemma DieWrites(b: Board, g: Game, s: Seat, cause: Cause)
    requires Legal(b, g, Die(s, cause))
    ensures Step(b, g, Die(s, cause)) ==
            g.(alive := g.alive - {s}, committed := g.committed + {s}, events := g.events + [DeathRecord(b, g, s)],
               table := g.table.(causes := g.table.causes[s := cause], aim := None))
  {
    hide Legal, NewEvent;
  }

  lemma DieLegalFacts(b: Board, g: Game, s: Seat, cause: Cause)
    requires Legal(b, g, Die(s, cause))
    ensures s in g.alive && !g.table.stage.EndStage? && g.table.heard.None?
  {
    hide ResolveNight;
  }

  lemma DieEffect(b: Board, g: Game, s: Seat, cause: Cause)
    requires Reachable(b, g) && Legal(b, g, Die(s, cause))
    ensures var h := Step(b, g, Die(s, cause));
            && Reachable(b, h)
            && h == g.(alive := g.alive - {s}, committed := g.committed + {s},
                       events := g.events + [DeathRecord(b, g, s)],
                       table := g.table.(causes := g.table.causes[s := cause], aim := None))
            && JustDied(b, h, s, cause)
  {
    hide Reachable, Legal, Step, DeathRecord;
    DieLegalFacts(b, g, s, cause);
    LivingUntouched(b, g, s);
    ReachStep(b, g, Die(s, cause));
    DieWrites(b, g, s, cause);
  }

  /** Only deaths, shots and talk happened; nobody is left in a hunter's sights. */
  predicate Aftermath(g: Game, h: Game) {
    && h.alive <= g.alive && g.events <= h.events
    && h.lastGuarded == g.lastGuarded && h.consensus == g.consensus
    && h.table == g.table.(shotAsked := h.table.shotAsked, polled := h.table.polled, fired := h.table.fired,
                           causes := h.table.causes)
  }

  lemma NothingHappened(g: Game)
    ensures Aftermath(g, g)
  {
  }

  lemma AftermathTrans(g: Game, h: Game, k: Game)
    requires Aftermath(g, h) && Aftermath(h, k)
    ensures Aftermath(g, k)
  {
  }

  lemma FewerAlive(g: Game, h: Game)
    requires Aftermath(g, h)
    ensures h.alive <= g.alive
  {
  }

  lemma BurialAftermath(g: Game, h: Game, dead: Seat)
    requires g.table.aim.None? && h.alive == g.alive - {dead} && g.events <= h.events
    requires h.lastGuarded == g.lastGuarded && h.consensus == g.consensus
    requires h.table == g.table.(causes := h.table.causes, aim := None)
    ensures Aftermath(g, h)
  {
  }

  /** Final words add at most one event and one participant window. */
  predicate TalkOnly(g: Game, h: Game) {
    && h == g.(events := h.events, turns := h.turns, windows := h.windows, table := h.table)
    && g.events <= h.events && h.table == g.table.(polled := h.table.polled)
  }

  lemma TalkKeepsDead(b: Board, g: Game, h: Game, dead: Seat, cause: Cause)
    requires TalkOnly(g, h) && JustDied(b, g, dead, cause)
    ensures JustDied(b, h, dead, cause) && Aftermath(g, h)
  {
  }

  lemma LastWordsEffect(b: Board, g: Game, s: Seat)
    requires Reachable(b, g) && s in g.committed && JustAsked(g, s)
    requires g.table.aim.None? && g.table.heard.None? && !g.table.stage.EndStage?
    ensures Legal(b, g, LastWords(s)) && Reachable(b, Step(b, g, LastWords(s)))
    ensures Step(b, g, LastWords(s)) ==
            g.(events := g.events + [NewEvent(b, |g.events|, g.table.round, PhaseOf(g.table.stage), FinalWords,
                                              Player(s), Nobody, Public)])
  {
    hide Play, ResolveNight, KillAgreed, Leaders, WinCheck, EventId;
    ReachStep(b, g, LastWords(s));
  }

  /** A shot target dies next: the referee allows nothing else. */
  lemma ShotBurial(b: Board, g: Game, h: Game, hunter: Seat, target: Seat)
    requires ShotTaken(g, h, hunter, Some(target)) && target in h.alive && !g.table.stage.EndStage?
    ensures Legal(b, h, Die(target, Shot))
  {
  }

  lemma ShotThenDeath(g: Game, h: Game, k: Game, hunter: Seat, target: Seat)
    requires g.table.aim.None? && g.table.heard.None? && ShotTaken(g, h, hunter, Some(target))
    requires k.alive == h.alive - {target} && h.events <= k.events && k.lastGuarded == h.lastGuarded
    requires k.consensus == h.consensus
    requires k.table == h.table.(causes := k.table.causes, aim := None)
    ensures Aftermath(g, k)
  {
  }

  lemma HeldFire(g: Game, h: Game, hunter: Seat)
    requires g.table.aim.None? && g.table.heard.None? && ShotTaken(g, h, hunter, None)
    ensures Aftermath(g, h)
  {
  }

  lemma DeadHunterReady(b: Board, g: Game, dead: Seat, cause: Cause)
    requires JustDied(b, g, dead, cause) && HasDeathTrigger(b.roles[dead]) && !Suppressed(b.roles[dead], cause)
    ensures ShotReady(b, g, dead)
  {
  }

  // ---- settling the night -----------------------------------------------------------

  lemma NightDeathLegal(b: Board, g: Game, s: Seat)
    requires g.table.stage.NightStage? && g.table.aim.None? && g.table.heard.None?
    requires NightTurnsTaken(b, g.table) && NoneToFire(b, g)
    requires s in g.alive && s in Settlement(g.table).deaths
    requires s in Settlement(g.table).causes && Settlement(g.table).causes[s].Poisoned? ==> AttackedBuried(g)
    ensures s in Settlement(g.table).causes && Legal(b, g, Die(s, Settlement(g.table).causes[s]))
  {
    NightDeathsExactly(Intents(g.table), g.table.dawn, s);
    hide ResolveNight, NightTurnsTaken, NoneToFire, AttackedBuried;
  }

  /** The attacked come first in the settlement, so once the earlier ones are dead nobody attacked is left. */
  lemma EarlierAreBuried(g: Game, i: nat)
    requires i < |Settlement(g.table).deaths| && forall j :: 0 <= j < i ==> Settlement(g.table).deaths[j] !in g.alive
    ensures var s := Settlement(g.table).deaths[i];
            s in Settlement(g.table).causes && Settlement(g.table).causes[s].Poisoned? ==> AttackedBuried(g)
  {
    var night := Settlement(g.table);
    var s := night.deaths[i];
    NightDeathsExactly(Intents(g.table), g.table.dawn, s);
    hide ResolveNight;
    if night.causes[s].Poisoned? {
      forall v | v in night.causes && night.causes[v].KilledByWolves? ensures v !in g.alive {
        NightDeathsExactly(Intents(g.table), g.table.dawn, v);
        var j :| 0 <= j < |night.deaths| && night.deaths[j] == v;
      }
    }
  }

  /** Poison comes second: whoever the wolves struck without being saved or shielded is dead by then. */
  lemma AttackedDiesFirst(b: Board, g: Game, s: Seat, v: Seat)
    requires Legal(b, g, Die(s, Poisoned))
    requires g.table.victim == Some(v) && v in g.table.dawn && (g.table.guarded == Some(v) <==> g.table.saved)
    ensures v !in g.alive
  {
    NightDeathsExactly(Intents(g.table), g.table.dawn, v);
    hide ResolveNight, NightTurnsTaken, NoneToFire;
  }

  lemma AftermathKeepsTurns(b: Board, g: Game, h: Game)
    requires Aftermath(g, h) && NightTurnsTaken(b, g.table)
    ensures NightTurnsTaken(b, h.table)
  {
    hide WinCheck;
  }

  lemma AftermathSettles(g: Game, h: Game)
    requires Aftermath(g, h)
    ensures Settlement(h.table) == Settlement(g.table) && h.table.round == g.table.round
    ensures h.table.stage == g.table.stage && h.table.aim == g.table.aim && h.table.heard == g.table.heard
  {
  }
}
