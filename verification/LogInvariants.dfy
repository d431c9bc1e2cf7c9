/** What every legal run writes into its event and decision logs. */
module LogInvariants {
  import opened Logs
  import opened Rules
  import opened Referee
  import opened RunInvariants
  import opened LogViews

  // ---- shape: numbering, known names ----------------------------------------

  predicate KnownActor(b: Board, n: Name) { n.System? || (n.Player? && n.seat < |b.roles|) }

  predicate KnownTarget(b: Board, n: Name) {
    n.Nobody? || n.VillagerSide? || n.WerewolfSide? || (n.Player? && n.seat < |b.roles|)
  }

  /** A night deed is told on the channel of the role that does it, everything else to everybody. */
  predicate OnItsChannel(e: Event) {
    match e.kind
    case GuardProtect => e.visibility == GuardOnly
    case WerewolfKill => e.visibility == WolvesOnly
    case SeerCheck => e.visibility == SeerOnly
    case WitchSave | WitchPoison | WitchPass => e.visibility == WitchOnly
    case _ => e.visibility == Public || e.visibility == Everyone
  }

  predicate EventOk(b: Board, rnd: nat, i: nat, e: Event) {
    && e.sequence == i + 1 && e.id == EventId(b.gameId, i + 1)
    && 0 <= e.round <= rnd
    && !e.phase.OtherPhase?
    && OnItsChannel(e)
    && KnownActor(b, e.actor) && KnownTarget(b, e.target)
    && e.hasSummary && e.refs == []
  }

  ghost predicate ShapeInv(b: Board, events: seq<Event>, rnd: nat) {
    |events| > 0 && forall i :: 0 <= i < |events| ==> EventOk(b, rnd, i, events[i])
  }

  lemma NewEventsOnTheirChannels(b: Board, g: Game, m: Move)
    ensures forall i :: 0 <= i < |NewEvents(b, g, m)| ==> OnItsChannel(NewEvents(b, g, m)[i])
  {
    hide EventId;
  }

  lemma NewEventsOk(b: Board, g: Game, m: Move)
    requires LifeInv(b, g.alive, g.committed, g.table) && Legal(b, g, m)
    ensures var es := NewEvents(b, g, m);
            forall i :: 0 <= i < |es| ==> EventOk(b, g.table.round, |g.events| + i, es[i]) && es[i].round == g.table.round
  {
    hide EventId, ResolveNight, AdjudicateKill, PrimaryWolf, Leaders, WinCheck, OnItsChannel;
    NewEventsOnTheirChannels(b, g, m);
    if m.Kill? {
      VerdictTargetsALivingVillager(b, g, m.bids, m.target);
      PrimaryIsALivingWolf(b, g, m.bids, m.target, m.primary);
    }
  }

  lemma PrimaryIsALivingWolf(b: Board, g: Game, bids: seq<Bid>, target: Seat, primary: Seat)
    requires KillAgreed(b, g, bids, target, primary)
    ensures primary in LivingWolves(b, g.alive)
  {
    var backers := Backers(bids, target);
    if bids != [] && backers != [] {
      BackersExactly(bids, target, backers[0]);
    }
  }

  lemma RoundsGoOn(g: Game, m: Move)
    ensures NextTable(g, m).round >= g.table.round
  {
  }

  lemma ShapeStep(b: Board, g: Game, m: Move)
    requires LifeInv(b, g.alive, g.committed, g.table) && Legal(b, g, m)
    requires ShapeInv(b, g.events, g.table.round)
    ensures ShapeInv(b, g.events + NewEvents(b, g, m), NextTable(g, m).round)
  {
    hide Legal, NewEvents, NextTable;
    NewEventsOk(b, g, m);
    RoundsGoOn(g, m);
    var old', es := g.events, NewEvents(b, g, m);
    forall i | 0 <= i < |old' + es| ensures EventOk(b, NextTable(g, m).round, i, (old' + es)[i]) {
      if i < |old'| {
        assert EventOk(b, g.table.round, i, old'[i]);
      } else {
        assert EventOk(b, g.table.round, |old'| + (i - |old'|), es[i - |old'|]);
      }
    }
  }

  // ---- deaths: the log replays to the living ---------------------------------

  /** Fold a log: start from a full board and strike out each death as it is read. */
  function Replay(b: Board, events: seq<Event>): set<Seat> {
    if events == [] then Seats(b)
    else
      var last := events[|events| - 1];
      var before := Replay(b, events[..|events| - 1]);
      if IsDeath(last.kind) && last.target.Player? then before - {last.target.seat} else before
  }

  function DeathsOf(events: seq<Event>, s: Seat): nat {
    |Select(DeathView(Player(s)), events)|
  }

  ghost predicate DeathInv(events: seq<Event>, committed: set<Seat>) {
    && (forall s: Seat :: DeathsOf(events, s) == if s in committed then 1 else 0)
    && (forall i :: 0 <= i < |events| && IsDeath(events[i].kind) ==> events[i].target.Player?)
  }

  function Buried(e: Event): set<Seat> {
    if IsDeath(e.kind) && e.target.Player? then {e.target.seat} else {}
  }

  lemma ReplayAppend(b: Board, events: seq<Event>, added: seq<Event>)
    requires |added| <= 2
    ensures Replay(b, events + added) ==
            Replay(b, events) - (if |added| > 0 then Buried(added[0]) else {})
                              - (if |added| > 1 then Buried(added[1]) else {})
  {
    if |added| == 0 {
      assert events + added == events;
    } else {
      var once := events + [added[0]];
      assert once[..|events|] == events;
      if |added| == 1 {
        assert events + added == once;
      } else {
        assert events + added == once + [added[1]];
        assert (events + added)[..|once|] == once;
      }
    }
  }

  lemma DeathExtend(events: seq<Event>, committed: set<Seat>, added: seq<Event>, gone: set<Seat>)
    requires DeathInv(events, committed) && |added| <= 2
    requires gone == {} ==> forall e :: e in added ==> !IsDeath(e.kind)
    requires gone != {} ==>
               && |added| > 0 && IsDeath(added[0].kind) && added[0].target.Player? && gone == {added[0].target.seat}
               && added[0].target.seat !in committed
               && (|added| == 2 ==> !IsDeath(added[1].kind))
    ensures DeathInv(events + added, committed + gone)
  {
    if |added| > 0 { assert added[0] in added; }
    if |added| > 1 { assert added[1] in added; }
    forall s: Seat ensures DeathsOf(events + added, s) == if s in committed + gone then 1 else 0 {
      SelectAppend(DeathView(Player(s)), events, added);
      hide Select;
    }
  }

  lemma NewDeaths(b: Board, g: Game, m: Move)
    requires Legal(b, g, m)
    ensures var es, gone := NewEvents(b, g, m), Departing(m);
            && |es| <= 2 && gone <= g.alive
            && (gone == {} ==> forall e :: e in es ==> !IsDeath(e.kind))
            && (gone != {} ==>
                  && |es| > 0 && IsDeath(es[0].kind) && es[0].target.Player? && gone == {es[0].target.seat}
                  && (|es| == 2 ==> !IsDeath(es[1].kind)))
  {
    hide EventId, ResolveNight, KillAgreed, Leaders, WinCheck, PublicIdsOnly;
  }

  lemma DeathStep(b: Board, g: Game, m: Move)
    requires PeopleInv(b, g.alive, g.committed, g.table) && Legal(b, g, m)
    requires DeathInv(g.events, g.committed) && Replay(b, g.events) == g.alive
    ensures DeathInv(g.events + NewEvents(b, g, m), g.committed + Departing(m))
    ensures Replay(b, g.events + NewEvents(b, g, m)) == g.alive - Departing(m)
  {
    hide Legal, NewEvents, NewDecisions, Replay, DeathInv, Departing;
    NewDeaths(b, g, m);
    ReplayAppend(b, g.events, NewEvents(b, g, m));
    DeathExtend(g.events, g.committed, NewEvents(b, g, m), Departing(m));
  }

  // ---- decisions and the events that follow them -----------------------------

  predicate Matches(d: Decision, e: Event) {
    d.round == e.round && d.phase == e.phase && d.actor == e.actor && d.action == e.kind && d.target == e.target
  }

  /** This decision used up its actor's turn. */
  predicate Spent(d: Decision, t: Table) {
    && d.actor.Player? && 0 <= d.round <= t.round
    && IsDeed(d.action)
    && match DeedOf(d.action)
       case Some(deed) => d.round == t.round ==> (d.actor.seat, deed) in t.acted
       case None => d.actor.seat in t.fired
  }

  /** Not the same actor doing the same thing in the same round; a shooter never decides again. */
  predicate Apart(c: Decision, d: Decision) {
    || c.actor != d.actor
    || DeedOf(c.action) != DeedOf(d.action)
    || (c.round != d.round && DeedOf(c.action).Some?)
  }

  ghost predicate PairInv(b: Board, events: seq<Event>, decisions: seq<Decision>, t: Table) {
    var deeds := Select(DeedView, events);
    && |deeds| == |decisions|
    && (forall k :: 0 <= k < |deeds| ==> Matches(decisions[k], deeds[k]))
    && (forall k :: 0 <= k < |decisions| ==> decisions[k].id == DecisionId(b.gameId, k + 1) && Spent(decisions[k], t))
    && (forall j, k :: 0 <= j < k < |decisions| ==> Apart(decisions[j], decisions[k]))
  }

  lemma PairExtend(b: Board, events: seq<Event>, decisions: seq<Decision>, t: Table,
                   es: seq<Event>, ds: seq<Decision>, t': Table)
    requires PairInv(b, events, decisions, t)
    requires |es| <= 2 && |ds| <= 1
    requires forall k :: 0 <= k < |decisions| ==> Spent(decisions[k], t')
    requires ds == [] ==> forall e :: e in es ==> !IsDeed(e.kind)
    requires ds != [] ==>
               && |es| == 1 && IsDeed(es[0].kind) && Matches(ds[0], es[0])
               && ds[0].id == DecisionId(b.gameId, |decisions| + 1) && Spent(ds[0], t')
               && forall k :: 0 <= k < |decisions| ==> Apart(decisions[k], ds[0])
    ensures PairInv(b, events + es, decisions + ds, t')
  {
    hide Select, Spent, Apart, Matches, DecisionId;
    SelectAppend(DeedView, events, es);
    if ds == [] {
      assert decisions + ds == decisions;
    } else {
      assert ds == [ds[0]] && es == [es[0]];
    }
  }

  lemma NewDecisionFollowed(b: Board, g: Game, m: Move)
    requires Legal(b, g, m)
    ensures var es, ds := NewEvents(b, g, m), NewDecisions(b, g, m);
            && |es| <= 2 && |ds| <= 1
            && (ds == [] ==> forall e :: e in es ==> !IsDeed(e.kind))
            && (ds != [] ==>
                  && |es| == 1 && IsDeed(es[0].kind) && Matches(ds[0], es[0])
                  && ds[0].id == DecisionId(b.gameId, |g.decisions| + 1) && ds[0].round == g.table.round)
  {
    hide DecisionId, ConsensusId, ResolveNight, KillAgreed, Leaders, WinCheck, PublicIdsOnly, EventId;
  }

  lemma NewDecisionSpends(b: Board, g: Game, m: Move)
    requires Legal(b, g, m) && NewDecisions(b, g, m) != []
    ensures Spent(NewDecisions(b, g, m)[0], NextTable(g, m))
  {
    hide DecisionId, ConsensusId, ResolveNight, KillAgreed, Leaders, WinCheck, PublicIdsOnly;
  }

  lemma NewDecisionUnspent(b: Board, g: Game, m: Move)
    requires Legal(b, g, m) && NewDecisions(b, g, m) != []
    ensures var d := NewDecisions(b, g, m)[0];
            && d.actor.Player?
            && match DeedOf(d.action)
               case Some(deed) => (d.actor.seat, deed) !in g.table.acted
               case None => d.actor.seat !in g.table.fired
  {
    hide DecisionId, ConsensusId, ResolveNight, KillAgreed, Leaders, WinCheck, PublicIdsOnly;
  }

  lemma SpentStays(b: Board, g: Game, m: Move, d: Decision)
    requires Legal(b, g, m) && Spent(d, g.table)
    ensures Spent(d, NextTable(g, m))
  {
  }

  lemma PairStep(b: Board, g: Game, m: Move)
    requires Legal(b, g, m) && PairInv(b, g.events, g.decisions, g.table)
    ensures PairInv(b, g.events + NewEvents(b, g, m), g.decisions + NewDecisions(b, g, m), NextTable(g, m))
  {
    hide Legal, NewEvents, NewDecisions;
    var es, ds := NewEvents(b, g, m), NewDecisions(b, g, m);
    NewDecisionFollowed(b, g, m);
    forall k | 0 <= k < |g.decisions| ensures Spent(g.decisions[k], NextTable(g, m)) {
      SpentStays(b, g, m, g.decisions[k]);
    }
    if ds != [] {
      NewDecisionSpends(b, g, m);
      NewDecisionUnspent(b, g, m);
      forall k | 0 <= k < |g.decisions| ensures Apart(g.decisions[k], ds[0]) {
        assert Spent(g.decisions[k], g.table);
      }
    }
    PairExtend(b, g.events, g.decisions, g.table, es, ds, NextTable(g, m));
  }
}
