/** Decisions against the rest of the record: the kill's consensus entry, known names, event refs and requests. */
module TeamInvariants {
  import opened Logs
  import opened Rules
  import opened ConsensusEntries
  import opened Referee
  import opened RunInvariants
  import opened LogViews
  import opened LogInvariants

  // ---- kills and consensus entries -------------------------------------------

  /** This entry records this kill. */
  predicate Records(b: Board, c: ConsensusEntry, e: Event) {
    && c.gameId == b.gameId && c.round >= 0 && c.id == ConsensusId(b.gameId, c.round)
    && c.round == e.round && c.phase == e.phase && c.final.target == e.target
  }

  predicate IsTeamDecision(d: Decision) {
    d.scope.TeamScope? || d.actor.WolfPack? || d.action.WerewolfKill? || d.dtype.TeamCoordinated?
  }

  ghost predicate Linked(d: Decision, entries: seq<ConsensusEntry>) {
    IsTeamDecision(d) ==>
      exists k :: 0 <= k < |entries| && d.consensusId == Some(entries[k].id) && d.target == entries[k].final.target
                  && d.phase == entries[k].phase
  }

  /** Kill events and entries match one to one, in order, in different rounds. */
  ghost predicate Matched(b: Board, events: seq<Event>, entries: seq<ConsensusEntry>) {
    AllRecorded(b, Select(KindView(WerewolfKill), events), entries)
  }

  predicate AllRecorded(b: Board, kills: seq<Event>, entries: seq<ConsensusEntry>) {
    && |kills| == |entries|
    && (forall k :: 0 <= k < |kills| ==> Records(b, entries[k], kills[k]))
    && (forall j, k :: 0 <= j < k < |entries| ==> entries[j].round < entries[k].round)
  }

  ghost predicate KillInv(b: Board, events: seq<Event>, decisions: seq<Decision>, entries: seq<ConsensusEntry>, t: Table) {
    && Matched(b, events, entries)
    && (forall k :: 0 <= k < |entries| ==>
          entries[k].round <= t.round && (t.victim.None? ==> entries[k].round < t.round))
    && (forall k :: 0 <= k < |decisions| ==> Linked(decisions[k], entries))
  }

  /** A move either leaves the kills alone or adds one kill with its entry and its decision. */
  predicate KillMove(b: Board, t: Table, es: seq<Event>, ds: seq<Decision>, cs: seq<ConsensusEntry>, t': Table) {
    && |es| <= 2 && |ds| <= 1
    && ( || (cs == [] && (forall e :: e in es ==> !e.kind.WerewolfKill?) && (forall d :: d in ds ==> !IsTeamDecision(d))
             && (t'.round > t.round || (t'.round == t.round && t'.victim == t.victim)))
         || (|cs| == |es| == |ds| == 1 && es[0].kind.WerewolfKill? && Records(b, cs[0], es[0])
             && cs[0].round == t.round == t'.round && t.victim.None? && t'.victim.Some?
             && ds[0].consensusId == Some(cs[0].id) && ds[0].target == cs[0].final.target && ds[0].phase == cs[0].phase))
  }

  lemma NewKills(b: Board, g: Game, m: Move)
    requires Legal(b, g, m)
    ensures KillMove(b, g.table, NewEvents(b, g, m), NewDecisions(b, g, m), NewConsensus(b, g, m), NextTable(g, m))
  {
    if m.Kill? {
      NewKill(b, g, m);
    } else {
      if m.Protect? || m.Check? || m.Vote? {
        ChosenOrPicked(b, g, m);
      }
      NoNewKill(b, g, m);
    }
  }

  /** A seat's own choice is its own or a default, never a team's. */
  lemma ChosenOrPicked(b: Board, g: Game, m: Move)
    requires Legal(b, g, m) && (m.Protect? || m.Check? || m.Vote?)
    ensures !m.dtype.TeamCoordinated?
  {
    hide EventId, DecisionId, ConsensusId, ResolveNight, Leaders, WinCheck, PublicIdsOnly, AdjudicateKill, JustAsked, LastFailed;
  }

  lemma NoNewKill(b: Board, g: Game, m: Move)
    requires !m.Kill? && (m.Protect? || m.Check? || m.Vote? ==> !m.dtype.TeamCoordinated?)
    ensures NewConsensus(b, g, m) == []
    ensures KillMove(b, g.table, NewEvents(b, g, m), NewDecisions(b, g, m), [], NextTable(g, m))
  {
    hide EventId, DecisionId, ConsensusId;
  }

  lemma NewKill(b: Board, g: Game, m: Move)
    requires Legal(b, g, m) && m.Kill?
    ensures KillMove(b, g.table, NewEvents(b, g, m), NewDecisions(b, g, m), NewConsensus(b, g, m), NextTable(g, m))
  {
    hide EventId, DecisionId, ConsensusId, ResolveNight, Leaders, WinCheck, PublicIdsOnly, AdjudicateKill, Backers,
      WolfResponses, Opponents, BidsOk, PrimaryWolf;
  }

  lemma LinkStays(d: Decision, entries: seq<ConsensusEntry>, added: seq<ConsensusEntry>)
    requires Linked(d, entries)
    ensures Linked(d, entries + added)
  {
    if IsTeamDecision(d) {
      var k :| 0 <= k < |entries| && d.consensusId == Some(entries[k].id) && d.target == entries[k].final.target
               && d.phase == entries[k].phase;
      assert (entries + added)[k] == entries[k];
    }
  }

  lemma KillExtend(b: Board, events: seq<Event>, decisions: seq<Decision>, entries: seq<ConsensusEntry>, t: Table,
                   es: seq<Event>, ds: seq<Decision>, cs: seq<ConsensusEntry>, t': Table)
    requires KillInv(b, events, decisions, entries, t) && KillMove(b, t, es, ds, cs, t')
    ensures KillInv(b, events + es, decisions + ds, entries + cs, t')
  {
    MatchedExtend(b, events, entries, t, es, ds, cs, t');
    hide Matched;
    forall k | 0 <= k < |decisions + ds| ensures Linked((decisions + ds)[k], entries + cs) {
      if k < |decisions| {
        LinkStays(decisions[k], entries, cs);
      } else {
        assert (decisions + ds)[k] == ds[0] && ds[0] in ds;
        if cs != [] {
          NewLink(ds[0], entries, cs[0]);
          assert cs == [cs[0]];
        }
      }
    }
  }

  lemma NewLink(d: Decision, entries: seq<ConsensusEntry>, c: ConsensusEntry)
    requires d.consensusId == Some(c.id) && d.target == c.final.target && d.phase == c.phase
    ensures Linked(d, entries + [c])
  {
    assert (entries + [c])[|entries|] == c;
  }

  lemma MatchedExtend(b: Board, events: seq<Event>, entries: seq<ConsensusEntry>, t: Table, es: seq<Event>,
                      ds: seq<Decision>, cs: seq<ConsensusEntry>, t': Table)
    requires Matched(b, events, entries) && KillMove(b, t, es, ds, cs, t')
    requires forall k :: 0 <= k < |entries| ==>
               entries[k].round <= t.round && (t.victim.None? ==> entries[k].round < t.round)
    ensures Matched(b, events + es, entries + cs)
    ensures forall k :: 0 <= k < |entries + cs| ==>
              (entries + cs)[k].round <= t'.round && (t'.victim.None? ==> (entries + cs)[k].round < t'.round)
  {
    hide Records, Select, AllRecorded;
    var kills := Select(KindView(WerewolfKill), events);
    if cs == [] {
      NoKillSelected(events, es);
      assert entries + cs == entries;
    } else {
      assert es == [es[0]] && cs == [cs[0]];
      SelectOne(KindView(WerewolfKill), events, es[0]);
      OneMoreRecorded(b, kills, entries, es[0], cs[0]);
    }
  }

  lemma NoKillSelected(events: seq<Event>, es: seq<Event>)
    requires |es| <= 2 && forall e :: e in es ==> !e.kind.WerewolfKill?
    ensures Select(KindView(WerewolfKill), events + es) == Select(KindView(WerewolfKill), events)
  {
    hide Select;
    SelectAppend(KindView(WerewolfKill), events, es);
    assert |es| > 0 ==> es[0] in es;
    assert |es| > 1 ==> es[1] in es;
  }

  lemma OneMoreRecorded(b: Board, kills: seq<Event>, entries: seq<ConsensusEntry>, e: Event, c: ConsensusEntry)
    requires AllRecorded(b, kills, entries) && Records(b, c, e)
    requires forall k :: 0 <= k < |entries| ==> entries[k].round < c.round
    ensures AllRecorded(b, kills + [e], entries + [c])
  {
    hide Records;
  }

  lemma KillStep(b: Board, g: Game, m: Move)
    requires Legal(b, g, m) && KillInv(b, g.events, g.decisions, g.consensus, g.table)
    ensures KillInv(b, g.events + NewEvents(b, g, m), g.decisions + NewDecisions(b, g, m),
                    g.consensus + NewConsensus(b, g, m), NextTable(g, m))
  {
    NewKills(b, g, m);
    hide Legal, NewEvents, NewDecisions, NewConsensus, NextTable;
    KillExtend(b, g.events, g.decisions, g.consensus, g.table,
               NewEvents(b, g, m), NewDecisions(b, g, m), NewConsensus(b, g, m), NextTable(g, m));
  }

  // ---- the entries themselves ---------------------------------------------------

  predicate BeforeKillOf(events: seq<Event>, i: nat, rnd: int) {
    forall j :: 0 <= j < |events| && events[j].kind.WerewolfKill? && events[j].round == rnd ==> i < j
  }

  /** Every ref names an event all seats see, logged before the kills of this round. */
  ghost predicate RefsPrecede(events: seq<Event>, refs: seq<string>, rnd: int) {
    forall r :: r in refs ==>
      exists i :: 0 <= i < |events| && events[i].id == r && IsPublic(events[i].visibility) && BeforeKillOf(events, i, rnd)
  }

  ghost predicate EntryOk(b: Board, events: seq<Event>, c: ConsensusEntry) {
    EntryShape(b, c) && c.phase.Night? && RefsPrecede(events, c.proposals[0].refs, c.round)
  }

  ghost predicate EntryInv(b: Board, events: seq<Event>, entries: seq<ConsensusEntry>) {
    forall k :: 0 <= k < |entries| ==> EntryOk(b, events, entries[k])
  }

  lemma RefsStayBefore(events: seq<Event>, added: seq<Event>, refs: seq<string>, rnd: int)
    requires RefsPrecede(events, refs, rnd)
    ensures RefsPrecede(events + added, refs, rnd)
  {
    var es := events + added;
    forall r | r in refs
      ensures exists i :: 0 <= i < |es| && es[i].id == r && IsPublic(es[i].visibility) && BeforeKillOf(es, i, rnd)
    {
      var i :| 0 <= i < |events| && events[i].id == r && IsPublic(events[i].visibility) && BeforeKillOf(events, i, rnd);
      assert es[i] == events[i];
      forall j | 0 <= j < |es| && es[j].kind.WerewolfKill? && es[j].round == rnd ensures i < j {
        if j < |events| { assert es[j] == events[j]; }
      }
    }
  }

  lemma BidsAgreeOnKill(b: Board, g: Game, bids: seq<Bid>, target: Seat, primary: Seat)
    requires KillAgreed(b, g, bids, target, primary)
    ensures var wolves := LivingWolves(b, g.alive);
            var status := VerdictStatus(AdjudicateKill(b, bids, LivingNonWolves(b, g.alive)));
            BidsAgree(b, wolves, bids, target, status)
  {
    VerdictTargetsALivingVillager(b, g, bids, target);
    if bids != [] && Unanimous(bids) {
      UnanimousLeader(b, bids, target, LivingNonWolves(b, g.alive));
    }
    hide Leaders, PrimaryWolf, LivingWolves, LivingNonWolves;
  }

  lemma LongListsDiffer(seats: seq<Seat>)
    requires forall i, j :: 0 <= i < j < |seats| ==> seats[i] < seats[j]
    ensures |seats| > 1 ==> exists s, t :: s in seats && t in seats && s != t
  {
    if |seats| > 1 {
      assert seats[0] in seats && seats[1] in seats && seats[0] < seats[1];
    }
  }

  /** When all bids agree their target is the only leader. */
  lemma UnanimousLeader(b: Board, bids: seq<Bid>, target: Seat, candidates: seq<Seat>)
    requires bids != [] && Unanimous(bids) && VerdictAllows(AdjudicateKill(b, bids, candidates), target)
    ensures AdjudicateKill(b, bids, candidates) == Fixed(target, Consensus)
  {
    var count := BidTargets(bids);
    var leaders := Leaders(count, |b.roles|);
    forall s | s in leaders ensures s == bids[0].target {
      LeadersExactly(count, |b.roles|, s);
      BidsCounted(bids, s);
    }
    assert target in leaders;
    LeadersOrdered(count, |b.roles|);
    LongListsDiffer(leaders);
  }

  lemma NewEntryShape(b: Board, g: Game, m: Move)
    requires Legal(b, g, m) && m.Kill?
    ensures EntryShape(b, NewConsensus(b, g, m)[0])
  {
    BidsAgreeOnKill(b, g, m.bids, m.target, m.primary);
    VerdictTargetsALivingVillager(b, g, m.bids, m.target);
    SeatsWhereOrdered(|b.roles|, WolfAmong(b, g.alive));
    var wolves := LivingWolves(b, g.alive);
    assert wolves == SeatsWhere(|b.roles|, WolfAmong(b, g.alive));
    hide AdjudicateKill, PrimaryWolf, Backers, BuildConsensusEntry, EntryShape, BidsAgree, WinCheck, ResolveNight;
    BuiltEntryShape(b, g.table.round, wolves, m.bids, m.target,
                    VerdictStatus(AdjudicateKill(b, m.bids, LivingNonWolves(b, g.alive))), m.refs);
  }

  /** Which kills leave an entry that accounts for every wolf, in terms of the bids heard that night. */
  lemma KillSettledExactly(b: Board, g: Game, m: Move)
    requires Legal(b, g, m) && m.Kill?
    ensures Settled(NewConsensus(b, g, m)[0]) <==>
            m.bids != [] && (Unanimous(m.bids) ==>
              forall w :: w in LivingWolves(b, g.alive) ==> exists i :: 0 <= i < |m.bids| && m.bids[i].wolf == w)
  {
    BidsAgreeOnKill(b, g, m.bids, m.target, m.primary);
    hide AdjudicateKill, PrimaryWolf, Backers, BuildConsensusEntry, Settled, BidsAgree, WinCheck, ResolveNight, Unanimous;
    BuiltEntrySettledExactly(b, g.table.round, LivingWolves(b, g.alive), m.bids, m.target,
                             VerdictStatus(AdjudicateKill(b, m.bids, LivingNonWolves(b, g.alive))), m.refs);
  }

  /** The entry a kill leaves tells the bids it was agreed on by. */
  lemma NewEntryTells(b: Board, g: Game, m: Move)
    requires Legal(b, g, m) && m.Kill?
    ensures LivingWolves(b, g.alive) != [] && |NewConsensus(b, g, m)| == 1
    ensures TellsTheBids(LivingWolves(b, g.alive), m.bids, m.target, m.refs, NewConsensus(b, g, m)[0])
  {
    assert KillAgreed(b, g, m.bids, m.target, m.primary);
    BidsAgreeOnKill(b, g, m.bids, m.target, m.primary);
    SeatsWhereOrdered(|b.roles|, WolfAmong(b, g.alive));
    var wolves := LivingWolves(b, g.alive);
    assert wolves == SeatsWhere(|b.roles|, WolfAmong(b, g.alive));
    hide AdjudicateKill, PrimaryWolf, Backers, BuildConsensusEntry, TellsTheBids, BidsAgree, WinCheck, ResolveNight;
    BuiltEntryTells(b, g.table.round, wolves, m.bids, m.target,
                    VerdictStatus(AdjudicateKill(b, m.bids, LivingNonWolves(b, g.alive))), m.refs);
  }

  /** A kill falls on a living villager; with any bid on the table, on one that was named by as many as anybody. */
  lemma KillIsMostNamed(b: Board, g: Game, m: Move)
    requires Legal(b, g, m) && m.Kill?
    ensures m.bids == g.table.bids && m.target in g.alive && m.target < |b.roles| && b.roles[m.target] != Werewolf
    ensures m.bids != [] ==> MostNamed(m.bids, m.target)
  {
    VerdictTargetsALivingVillager(b, g, m.bids, m.target);
    hide WinCheck, ResolveNight, PublicIdsOnly, AdjudicateKill, PrimaryWolf, MostNamed;
    if m.bids != [] {
      VerdictIsMostNamed(b, m.bids, LivingNonWolves(b, g.alive), m.target);
    }
  }

  lemma NoKillYet(b: Board, g: Game, j: nat)
    requires KillInv(b, g.events, g.decisions, g.consensus, g.table) && g.table.victim.None?
    requires j < |g.events| && g.events[j].kind.WerewolfKill?
    ensures g.events[j].round < g.table.round
  {
    var kills := Select(KindView(WerewolfKill), g.events);
    SelectedAre(KindView(WerewolfKill), g.events, g.events[j]);
    var k :| 0 <= k < |kills| && kills[k] == g.events[j];
    assert Records(b, g.consensus[k], kills[k]);
  }

  lemma NewEntryRefs(b: Board, g: Game, m: Move, added: seq<Event>)
    requires Legal(b, g, m) && m.Kill? && KillInv(b, g.events, g.decisions, g.consensus, g.table)
    ensures RefsPrecede(g.events + added, m.refs, g.table.round)
  {
    assert PublicIdsOnly(g, m.refs) && g.table.victim.None? by {
      hide KillAgreed, WinCheck, ResolveNight, KillInv;
    }
    hide Legal;
    forall j | 0 <= j < |g.events| && g.events[j].kind.WerewolfKill? ensures g.events[j].round < g.table.round {
      NoKillYet(b, g, j);
    }
    forall r | r in m.refs
      ensures exists i :: 0 <= i < |g.events| && g.events[i].id == r && IsPublic(g.events[i].visibility)
                          && BeforeKillOf(g.events, i, g.table.round)
    {
      var i :| 0 <= i < |g.events| && g.events[i].id == r && IsPublic(g.events[i].visibility);
      assert BeforeKillOf(g.events, i, g.table.round);
    }
    RefsStayBefore(g.events, added, m.refs, g.table.round);
  }

  lemma NewEntryOk(b: Board, g: Game, m: Move, added: seq<Event>)
    requires Legal(b, g, m) && m.Kill? && KillInv(b, g.events, g.decisions, g.consensus, g.table)
    ensures |NewConsensus(b, g, m)| == 1 && EntryOk(b, g.events + added, NewConsensus(b, g, m)[0])
  {
    NewEntryShape(b, g, m);
    NewEntryRefs(b, g, m, added);
    hide AdjudicateKill, PrimaryWolf, Backers, EntryShape, WinCheck, ResolveNight, RefsPrecede, KillInv, PublicIdsOnly;
    var c := NewConsensus(b, g, m)[0];
    assert c.phase == Night && c.proposals[0].refs == m.refs && c.round == g.table.round;
  }

  lemma EntryStep(b: Board, g: Game, m: Move)
    requires Legal(b, g, m) && KillInv(b, g.events, g.decisions, g.consensus, g.table) && EntryInv(b, g.events, g.consensus)
    ensures EntryInv(b, g.events + NewEvents(b, g, m), g.consensus + NewConsensus(b, g, m))
  {
    if m.Kill? {
      NewEntryOk(b, g, m, NewEvents(b, g, m));
    } else {
      assert NewConsensus(b, g, m) == [];
    }
    hide Legal, NewEvents, NewConsensus, KillInv, EntryShape, RefsPrecede;
    var entries := g.consensus + NewConsensus(b, g, m);
    forall k | 0 <= k < |entries| ensures EntryOk(b, g.events + NewEvents(b, g, m), entries[k]) {
      if k < |g.consensus| {
        assert EntryOk(b, g.events, g.consensus[k]);
        RefsStayBefore(g.events, NewEvents(b, g, m), g.consensus[k].proposals[0].refs, g.consensus[k].round);
      } else {
        assert entries[k] == NewConsensus(b, g, m)[0];
      }
    }
  }

  // ---- counting team decisions -----------------------------------------------------

  function CountTeam(decisions: seq<Decision>): nat {
    if decisions == [] then 0
    else CountTeam(decisions[..|decisions| - 1]) + (if IsTeamDecision(decisions[|decisions| - 1]) then 1 else 0)
  }

  lemma TeamStep(b: Board, g: Game, m: Move)
    requires Legal(b, g, m) && CountTeam(g.decisions) == |g.consensus|
    ensures CountTeam(g.decisions + NewDecisions(b, g, m)) == |g.consensus + NewConsensus(b, g, m)|
  {
    NewKills(b, g, m);
    NewDecisionIsTeam(b, g, m);
    hide Legal, NewDecisions, NewConsensus, NewEvents, NextTable, IsTeamDecision, Records;
    CountTeamAppend(g.decisions, NewDecisions(b, g, m));
  }

  lemma CountTeamAppend(decisions: seq<Decision>, ds: seq<Decision>)
    requires |ds| <= 1
    ensures CountTeam(decisions + ds) ==
            CountTeam(decisions) + if ds != [] && IsTeamDecision(ds[0]) then 1 else 0
  {
    hide IsTeamDecision;
    if ds == [] {
      assert decisions + ds == decisions;
    } else {
      assert (decisions + ds)[..|decisions|] == decisions;
    }
  }

  lemma NewDecisionIsTeam(b: Board, g: Game, m: Move)
    requires Legal(b, g, m)
    ensures NewConsensus(b, g, m) != [] ==>
              |NewConsensus(b, g, m)| == |NewDecisions(b, g, m)| == 1 && IsTeamDecision(NewDecisions(b, g, m)[0])
  {
    hide Legal, DecisionId, ConsensusId;
  }

  // ---- names, refs and requests ----------------------------------------------

  predicate HasEventId(events: seq<Event>, id: string) {
    exists i :: 0 <= i < |events| && events[i].id == id
  }

  predicate HasTurn(turns: seq<Turn>, key: RequestKey) {
    exists i :: 0 <= i < |turns| && turns[i].key == key
  }

  /** Known names, refs to logged events, and a request made by the same seat in the same round. */
  ghost predicate DecisionOk(b: Board, d: Decision, events: seq<Event>, turns: seq<Turn>) {
    && d.actor.Player? && d.actor.seat < |b.roles| && KnownTarget(b, d.target)
    && !d.scope.OtherScope? && (d.phase.Night? || d.phase.Day?) && !d.dtype.OtherType? && d.round >= 0
    && (forall r :: r in d.refs ==> HasEventId(events, r))
    && (!IsTeamDecision(d) ==>
          && d.request.Some? && d.request.value.round == d.round
          && !d.request.value.slot.ScribeSlot? && d.request.value.slot.seat == d.actor.seat
          && HasTurn(turns, d.request.value))
  }

  ghost predicate DecisionsOk(b: Board, decisions: seq<Decision>, events: seq<Event>, turns: seq<Turn>) {
    forall k :: 0 <= k < |decisions| ==> DecisionOk(b, decisions[k], events, turns)
  }

  predicate KeysKept(turns: seq<Turn>, turns': seq<Turn>) {
    |turns| <= |turns'| && forall i :: 0 <= i < |turns| ==> turns'[i].key == turns[i].key
  }

  lemma NewTurnsKeepKeys(b: Board, g: Game, m: Move)
    requires Legal(b, g, m)
    ensures KeysKept(g.turns, NextTurns(g, m))
  {
    hide EventId, DecisionId, ConsensusId, ResolveNight, KillAgreed, Leaders, WinCheck, PublicIdsOnly;
  }

  lemma NewKillOk(b: Board, g: Game, m: Move)
    requires Legal(b, g, m) && m.Kill?
    ensures DecisionOk(b, NewDecisions(b, g, m)[0], g.events, g.turns)
  {
    VerdictTargetsALivingVillager(b, g, m.bids, m.target);
    PrimaryIsALivingWolf(b, g, m.bids, m.target, m.primary);
    hide DecisionId, ConsensusId, KillAgreed;
  }

  lemma NewOwnDecisionOk(b: Board, g: Game, m: Move)
    requires Legal(b, g, m) && LifeInv(b, g.alive, g.committed, g.table)
    requires NewDecisions(b, g, m) != [] && !m.Kill?
    ensures DecisionOk(b, NewDecisions(b, g, m)[0], g.events, g.turns)
  {
    hide DecisionId, ConsensusId, ResolveNight, KillAgreed, Leaders, WinCheck;
    var d := NewDecisions(b, g, m)[0];
    assert JustAsked(g, m.seat) && d.request == LastRequest(g) && d.actor == Player(m.seat);
    assert HasTurn(g.turns, g.turns[|g.turns| - 1].key);
  }

  lemma NewDecisionOk(b: Board, g: Game, m: Move)
    requires Legal(b, g, m) && LifeInv(b, g.alive, g.committed, g.table)
    ensures |NewDecisions(b, g, m)| <= 1
    ensures NewDecisions(b, g, m) != [] ==> DecisionOk(b, NewDecisions(b, g, m)[0], g.events, g.turns)
  {
    if m.Kill? {
      NewKillOk(b, g, m);
    } else if NewDecisions(b, g, m) != [] {
      NewOwnDecisionOk(b, g, m);
    }
    hide Legal, DecisionOk;
  }

  lemma OkStays(b: Board, d: Decision, events: seq<Event>, added: seq<Event>, turns: seq<Turn>, turns': seq<Turn>)
    requires DecisionOk(b, d, events, turns) && KeysKept(turns, turns')
    ensures DecisionOk(b, d, events + added, turns')
  {
    forall r | r in d.refs ensures HasEventId(events + added, r) {
      var i :| 0 <= i < |events| && events[i].id == r;
      assert (events + added)[i].id == r;
    }
    if !IsTeamDecision(d) {
      var i :| 0 <= i < |turns| && turns[i].key == d.request.value;
      assert turns'[i].key == d.request.value;
    }
  }

  lemma DecisionsStep(b: Board, g: Game, m: Move)
    requires Legal(b, g, m) && LifeInv(b, g.alive, g.committed, g.table)
    requires DecisionsOk(b, g.decisions, g.events, g.turns)
    ensures DecisionsOk(b, g.decisions + NewDecisions(b, g, m), g.events + NewEvents(b, g, m), NextTurns(g, m))
  {
    NewDecisionOk(b, g, m);
    NewTurnsKeepKeys(b, g, m);
    hide Legal, NewDecisions, NewEvents, NextTurns, DecisionOk;
    var ds := NewDecisions(b, g, m);
    forall k | 0 <= k < |g.decisions + ds|
      ensures DecisionOk(b, (g.decisions + ds)[k], g.events + NewEvents(b, g, m), NextTurns(g, m))
    {
      OkStays(b, if k < |g.decisions| then g.decisions[k] else ds[0], g.events, NewEvents(b, g, m), g.turns, NextTurns(g, m));
    }
  }
}
