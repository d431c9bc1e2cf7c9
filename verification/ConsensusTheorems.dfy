/** Which consensus logs are accepted: in general, and for the logs the emergent engine writes. */
module ConsensusTheorems {
  import opened Logs
  import opened Rules
  import opened Referee
  import opened LogViews
  import opened LogInvariants
  import opened TeamInvariants
  import opened RunTheorems
  import opened EngineSteps
  import opened DeathSteps
  import opened DaySteps
  import opened RunDocuments
  import opened ConsensusEntries
  import opened GameLogCheck
  import opened ConsensusLogCheck

  // ---- one entry of the shape both engines build ----------------------------------------

  lemma ShapedParticipants(b: Board, game: GameLog, c: ConsensusEntry)
    requires EntryShape(b, c) && game.players == Roster(b)
    ensures ParticipantsOk(c, game.players)
  {
    hide NoRepeats, ResponseShape, VerdictShape;
    NoRepeatsExactly(c.participants);
    forall n | n in c.participants ensures WerewolfIn(game.players, n) {
      assert WolfName(b, n);
      assert game.players[n.seat] == PlayerEntry(n, Werewolf, WerewolfTeam);
      assert forall j :: n.seat < j < |game.players| ==> game.players[j].name != n;
    }
  }

  lemma ShapedActions(b: Board, c: ConsensusEntry)
    requires EntryShape(b, c)
    ensures ActionsOk(c) && NoRepeats(ProposalIds(c))
  {
    hide VerdictShape, WolfName;
    var keys := ActionKeys(c);
    assert keys[0] == (c.final.primary, 1);
    forall i | 0 <= i < |c.responses| ensures keys[i + 1] == (c.responses[i].responder, 1) && keys[i + 1].0 != keys[0].0 {
      assert ResponseShape(c, c.responses[i]);
    }
    forall i, j | 0 <= i < j < |keys| ensures keys[i] != keys[j] {
      if i > 0 {
        assert c.responses[i - 1].responder != c.responses[j - 1].responder;
      }
    }
    forall key | key in keys ensures 1 <= key.1 <= c.actualRounds {
      var i :| 0 <= i < |keys| && keys[i] == key;
      if i > 0 { assert keys[(i - 1) + 1] == (c.responses[i - 1].responder, 1); }
    }
    NoRepeatsExactly(ProposalIds(c));
  }

  /** Events numbered in order, so that positions and sequences agree and an id finds its own event. */
  ghost predicate Numbered(events: seq<Event>) {
    Distinct(EventIds(events)) && forall i :: 0 <= i < |events| ==> events[i].sequence == i + 1
  }

  lemma PrecedingRefOk(game: GameLog, ref: string, rnd: int)
    requires Numbered(game.events) && RefsPrecede(game.events, [ref], rnd)
    ensures RefOk(ref, game, rnd)
  {
    var events := game.events;
    assert ref in [ref];
    var i :| 0 <= i < |events| && events[i].id == ref && IsPublic(events[i].visibility) && BeforeKillOf(events, i, rnd);
    var first := FirstWithId(events, ref);
    assert first <= i;
    assert EventIds(events)[first] == EventIds(events)[i];
  }

  lemma ShapedProposals(b: Board, game: GameLog, c: ConsensusEntry)
    requires EntryShape(b, c) && game.players == Roster(b)
    requires Numbered(game.events) && RefsPrecede(game.events, c.proposals[0].refs, c.round)
    ensures forall p :: p in c.proposals ==> ProposalOk(c, p, game)
    ensures forall r :: r in c.responses ==> ResponseOk(c, r, game)
  {
    hide WolfName, RefOk, DistinctResponders;
    RosterIds(b, game);
    forall r | r in c.proposals[0].refs ensures RefOk(r, game, c.round) {
      assert RefsPrecede(game.events, [r], c.round);
      PrecedingRefOk(game, r, c.round);
    }
    forall p | p in c.proposals ensures ProposalOk(c, p, game) {
      assert p == c.proposals[0];
      assert p.target == Player(c.final.target.seat) && p.target in PlayerIds(game);
      assert VerdictShape(c.final, c.participants);
    }
    forall r | r in c.responses ensures ResponseOk(c, r, game) {
      var i :| 0 <= i < |c.responses| && c.responses[i] == r;
      assert ResponseShape(c, c.responses[i]);
      assert c.proposals[0].id == r.toProposal;
    }
  }

  lemma ShapedFinal(b: Board, game: GameLog, c: ConsensusEntry)
    requires EntryShape(b, c) && game.players == Roster(b)
    requires exists i :: 0 <= i < |game.events| && IsKillOf(game.events[i], c)
    ensures FinalOk(c, game) <==> Settled(c)
  {
    hide WolfName, DistinctResponders, ResponseShape, IsKillOf;
    RosterIds(b, game);
    assert VerdictShape(c.final, c.participants);
    var f := c.final;
    if SidesOk(f, c.participants) {
      assert f.primary in f.supporters || f.primary in f.dissenters;
    }
    if Settled(c) {
      assert SidesOk(f, c.participants);
    }
  }

  /** A well-shaped entry with its kill logged is accepted exactly when it accounts for every wolf. */
  lemma ShapedEntryAccepted(b: Board, game: GameLog, c: ConsensusEntry)
    requires EntryOk(b, game.events, c) && game.players == Roster(b) && game.gameId == b.gameId
    requires Numbered(game.events) && exists i :: 0 <= i < |game.events| && IsKillOf(game.events[i], c)
    ensures AcceptsEntry(c, game) <==> Settled(c)
  {
    ShapedParticipants(b, game, c);
    ShapedActions(b, c);
    ShapedProposals(b, game, c);
    ShapedFinal(b, game, c);
    hide ParticipantsOk, NoRepeats, ActionsOk, ProposalOk, ResponseOk, FinalOk, Settled, IsKillOf, Numbered, RefsPrecede;
    hide VerdictShape, WolfName, DistinctResponders, ResponseShape;
  }

  // ---- the whole log --------------------------------------------------------------------

  lemma MatchedKeys(b: Board, events: seq<Event>, entries: seq<ConsensusEntry>)
    requires Matched(b, events, entries)
    ensures KillsCovered(entries, events)
  {
    var kills := Select(KindView(WerewolfKill), events);
    var keys := EntryKeys(entries);
    hide ConsensusId, EntryKeys;
    forall i, j | 0 <= i < j < |entries| ensures keys[i] != keys[j] {
      EntryKeyAt(entries, i);
      EntryKeyAt(entries, j);
    }
    forall key | key in KillKeys(events) ensures key in keys {
      var e :| e in events && e.kind.WerewolfKill? && EventKey(e) == key;
      SelectedAre(KindView(WerewolfKill), events, e);
      var k :| 0 <= k < |kills| && kills[k] == e;
      assert Records(b, entries[k], kills[k]);
      EntryKeyAt(entries, k);
    }
    forall key | key in keys ensures key in KillKeys(events) {
      var k :| 0 <= k < |keys| && keys[k] == key;
      EntryKeyAt(entries, k);
      assert Records(b, entries[k], kills[k]);
      SelectedAre(KindView(WerewolfKill), events, kills[k]);
      assert kills[k] in events && kills[k].kind.WerewolfKill?;
    }
  }

  lemma EntryKeyAt(entries: seq<ConsensusEntry>, k: nat)
    requires k < |entries|
    ensures EntryKeys(entries)[k] == EntryKey(entries[k])
  {
  }

  lemma MatchedKill(b: Board, events: seq<Event>, entries: seq<ConsensusEntry>, k: nat)
    requires Matched(b, events, entries) && k < |entries|
    ensures exists i :: 0 <= i < |events| && IsKillOf(events[i], entries[k])
  {
    hide ConsensusId;
    var kill := Select(KindView(WerewolfKill), events)[k];
    assert Records(b, entries[k], kill);
    SelectedAre(KindView(WerewolfKill), events, kill);
    var i :| 0 <= i < |events| && events[i] == kill;
  }

  lemma MatchedIds(b: Board, events: seq<Event>, entries: seq<ConsensusEntry>)
    requires Matched(b, events, entries)
    ensures Distinct(EntryIds(entries))
  {
    hide ConsensusId;
    var kills := Select(KindView(WerewolfKill), events);
    forall i, j | 0 <= i < j < |entries| ensures entries[i].id != entries[j].id {
      assert Records(b, entries[i], kills[i]) && Records(b, entries[j], kills[j]);
      if entries[i].id == entries[j].id {
        ConsensusIdInjective(b.gameId, entries[i].round, entries[j].round);
      }
    }
  }

  /** With kills and entries matched, what decides is whether every entry accounts for every wolf. */
  lemma MatchedLogAccepted(b: Board, log: ConsensusLog, game: GameLog)
    requires Matched(b, game.events, log.consensuses) && EntryInv(b, game.events, log.consensuses)
    requires Numbered(game.events) && game.players == Roster(b) && game.gameId == b.gameId == log.gameId && log.id != ""
    ensures AcceptsConsensusLog(log, game) <==>
            log.sourceLabel in VALID_SOURCE_LABELS && forall c :: c in log.consensuses ==> Settled(c)
  {
    MatchedIds(b, game.events, log.consensuses);
    MatchedKeys(b, game.events, log.consensuses);
    NoRepeatsExactly(EntryIds(log.consensuses));
    hide AcceptsEntry, KillsCovered, NoRepeats, Settled, VALID_SOURCE_LABELS, Numbered, EntryOk;
    forall c | c in log.consensuses ensures AcceptsEntry(c, game) <==> Settled(c) {
      var k :| 0 <= k < |log.consensuses| && log.consensuses[k] == c;
      assert EntryOk(b, game.events, c);
      MatchedKill(b, game.events, log.consensuses, k);
      ShapedEntryAccepted(b, game, c);
    }
  }

  // ---- the emergent engine -----------------------------------------------------------------

  /**
    The consensus log of any run is accepted exactly when the label is valid and every night's entry accounts for
    every wolf; KillSettledExactly says which nights those are.
  */
  lemma EngineConsensusLogExactly(b: Board, source: string, g: Game, w: Winner)
    requires Reachable(b, g)
    ensures AcceptsConsensusLog(ConsensusLogOf(b, source, g), GameLogOf(b, source, g, w)) <==>
            source in VALID_SOURCE_LABELS && forall c :: c in g.consensus ==> Settled(c)
  {
    hide Reachable, Settled, VALID_SOURCE_LABELS, EntryInv, Matched, CountTeam, DeathInv, Replay, EventId;
    KillsOf(b, g);
    EventIdsDistinct(b, g);
    EventsOf(b, g);
    assert Numbered(g.events) by {
      assert forall i :: 0 <= i < |g.events| ==> EventOk(b, g.table.round, i, g.events[i]);
    }
    assert |ConsensusLogOf(b, source, g).id| > 0;
    MatchedLogAccepted(b, ConsensusLogOf(b, source, g), GameLogOf(b, source, g, w));
  }

  // ---- in terms of what was heard ----------------------------------------------------------

  /** Some wolf bid, and where all bids name one target every living wolf bid. */
  predicate AllAccountedFor(b: Board, alive: set<Seat>, bids: seq<Bid>) {
    && bids != []
    && (Unanimous(bids) ==>
          forall w :: w in LivingWolves(b, alive) ==> exists i :: 0 <= i < |bids| && bids[i].wolf == w)
  }

  /** Every kill of the run was agreed on by bids that account for the wolves alive at that moment. */
  ghost predicate EveryKillHeard(b: Board, moves: seq<Move>) {
    forall k :: 0 <= k < |moves| && moves[k].Kill? ==>
      Play(b, moves[..k]).Some? && AllAccountedFor(b, Play(b, moves[..k]).value.alive, moves[k].bids)
  }

  lemma HeardBefore(b: Board, moves: seq<Move>)
    requires moves != []
    ensures var init, m := moves[..|moves| - 1], moves[|moves| - 1];
            EveryKillHeard(b, moves) <==>
            && EveryKillHeard(b, init)
            && (m.Kill? ==> Play(b, init).Some? && AllAccountedFor(b, Play(b, init).value.alive, m.bids))
  {
    hide AllAccountedFor, Play;
    var init := moves[..|moves| - 1];
    assert forall k :: 0 <= k <= |init| ==> moves[..k] == init[..k];
    assert init[..|init|] == init;
    assert forall k :: 0 <= k < |init| ==> init[k] == moves[k];
  }

  lemma {:induction false} EntriesSettledExactly(b: Board, moves: seq<Move>)
    requires Play(b, moves).Some?
    ensures (forall c :: c in Play(b, moves).value.consensus ==> Settled(c)) <==> EveryKillHeard(b, moves)
  {
    hide Settled, AllAccountedFor, Legal, EveryKillHeard, NewEvents, NewDecisions, NextTurns, NextTable, Departing,
      BuildConsensusEntry, Backers, AdjudicateKill, LivingNonWolves, LivingWolves;
    if moves == [] {
      NothingHeardYet(b);
    } else {
      var init, m := moves[..|moves| - 1], moves[|moves| - 1];
      var g := Play(b, init).value;
      EntriesSettledExactly(b, init);
      HeardBefore(b, moves);
      if m.Kill? {
        KillAccounted(b, g, m);
        assert Play(b, moves).value.consensus == g.consensus + NewConsensus(b, g, m);
      } else {
        assert NewConsensus(b, g, m) == [];
      }
    }
  }

  lemma NothingHeardYet(b: Board)
    ensures EveryKillHeard(b, [])
  {
  }

  lemma KillAccounted(b: Board, g: Game, m: Move)
    requires Legal(b, g, m) && m.Kill?
    ensures LivingWolves(b, g.alive) != [] && |NewConsensus(b, g, m)| == 1
    ensures Settled(NewConsensus(b, g, m)[0]) <==> AllAccountedFor(b, g.alive, m.bids)
  {
    assert KillAgreed(b, g, m.bids, m.target, m.primary);
    hide Legal, Settled, Unanimous, LivingWolves;
    KillSettledExactly(b, g, m);
  }

  /**
    Run by run: the consensus log is accepted exactly when the label is valid and every night somebody bid and, where
    the bids agreed, every living wolf had bid.
  */
  lemma ConsensusLogByBids(b: Board, source: string, moves: seq<Move>, w: Winner)
    requires Play(b, moves).Some?
    ensures var g := Play(b, moves).value;
            AcceptsConsensusLog(ConsensusLogOf(b, source, g), GameLogOf(b, source, g, w)) <==>
            source in VALID_SOURCE_LABELS && EveryKillHeard(b, moves)
  {
    hide *;
    ReachedBy(b, moves);
    EngineConsensusLogExactly(b, source, Play(b, moves).value, w);
    EntriesSettledExactly(b, moves);
  }

  lemma ReachedBy(b: Board, moves: seq<Move>)
    requires Play(b, moves).Some?
    ensures Reachable(b, Play(b, moves).value)
  {
  }

  /** One night badly heard and no continuation of the run is ever accepted. */
  lemma NeverAcceptedAgain(b: Board, source: string, moves: seq<Move>, more: seq<Move>, w: Winner)
    requires !EveryKillHeard(b, moves) && Play(b, moves).Some? && Play(b, moves + more).Some?
    ensures var g := Play(b, moves + more).value;
            !AcceptsConsensusLog(ConsensusLogOf(b, source, g), GameLogOf(b, source, g, w))
  {
    hide AllAccountedFor, Play, AcceptsConsensusLog;
    ConsensusLogByBids(b, source, moves + more, w);
    var k :| 0 <= k < |moves| && moves[k].Kill?
             && !(Play(b, moves[..k]).Some? && AllAccountedFor(b, Play(b, moves[..k]).value.alive, moves[k].bids));
    assert (moves + more)[..k] == moves[..k] && (moves + more)[k] == moves[k];
  }

  // ---- a run whose log is refused ------------------------------------------------------------

  /** The first night, with the first i wolves asked in vain. */
  ghost predicate Silenced(b: Board, g: Game, i: nat) {
    var wolves := LivingWolves(b, Seats(b));
    && i <= |wolves| && Reachable(b, g)
    && g == Opening(b).(turns := g.turns, used := g.used, table := g.table)
    && g.table == OpeningTable(b).(asked := g.table.asked, polled := g.table.polled)
    && (forall j :: 0 <= j < i ==> wolves[j] in g.table.polled)
    && (forall slot :: slot in g.table.asked ==> slot.NightSlot? && slot.seat in wolves[..i])
  }

  lemma NextIsAskable(b: Board, g: Game, i: nat)
    requires i < |LivingWolves(b, Seats(b))| && Silenced(b, g, i)
    ensures MayAsk(b, g, NightSlot(LivingWolves(b, Seats(b))[i]))
  {
    hide Play, WinCheck, NewEvent;
    var wolves := LivingWolves(b, Seats(b));
    assert wolves[i] in wolves;
    SeatsWhereOrdered(|b.roles|, WolfAmong(b, Seats(b)));
    assert wolves == SeatsWhere(|b.roles|, WolfAmong(b, Seats(b)));
  }

  lemma AskedInVain(b: Board, g: Game, h: Game, i: nat)
    requires i < |LivingWolves(b, Seats(b))| && Silenced(b, g, i) && Reachable(b, h)
    requires AfterAsk(g, h, NightSlot(LivingWolves(b, Seats(b))[i])) && h.table.heard.None? && h.windows == g.windows
    ensures Silenced(b, h, i + 1)
  {
    hide Reachable, LivingWolves, NewEvent, Seats, JustAsked;
    var wolves := LivingWolves(b, Seats(b));
    assert wolves[..i + 1] == wolves[..i] + [wolves[i]];
  }

  lemma OneMoreSilent(b: Board, g: Game, i: nat)
    requires i < |LivingWolves(b, Seats(b))| && Silenced(b, g, i)
    ensures var m := Ask(NightSlot(LivingWolves(b, Seats(b))[i]), ErrorFallback, None);
            Legal(b, g, m) && Silenced(b, Step(b, g, m), i + 1)
  {
    hide Reachable, LivingWolves, Legal, MayAsk, NextTable, AfterAsk, Seats, Opening, OpeningTable;
    var slot := NightSlot(LivingWolves(b, Seats(b))[i]);
    NextIsAskable(b, g, i);
    AskEffect(b, g, slot, ErrorFallback, None);
    AskedInVain(b, g, Step(b, g, Ask(slot, ErrorFallback, None)), i);
  }

  lemma NobodyAskedYet(b: Board)
    ensures Silenced(b, Opening(b), 0)
  {
    hide Reachable, LivingWolves, NewEvent, Seats;
    ReachStart(b);
  }

  lemma {:induction false} SilentWolves(b: Board, i: nat) returns (g: Game)
    requires i <= |LivingWolves(b, Seats(b))|
    ensures Silenced(b, g, i)
  {
    hide Silenced, LivingWolves, Seats, Opening, Legal, Step;
    if i == 0 {
      NobodyAskedYet(b);
      g := Opening(b);
    } else {
      var h := SilentWolves(b, i - 1);
      OneMoreSilent(b, h, i - 1);
      g := Step(b, h, Ask(NightSlot(LivingWolves(b, Seats(b))[i - 1]), ErrorFallback, None));
    }
  }

  lemma NoGuardToWaitFor(b: Board, t: Table)
    requires LivingWith(b, Seats(b), Guard) == [] && t.dawn == Seats(b)
    ensures GuardDone(b, t)
  {
    hide WinCheck;
    OneHolderActed(b, Seats(b), t, Guard, Protecting);
  }

  lemma EverybodyPolled(b: Board, g: Game)
    requires Silenced(b, g, |LivingWolves(b, Seats(b))|)
    ensures forall w :: w in LivingWolves(b, Seats(b)) ==> w in g.table.polled
    ensures g.alive == Seats(b) && g.table == OpeningTable(b).(asked := g.table.asked, polled := g.table.polled)
  {
    hide Reachable, LivingWolves, NewEvent;
  }

  lemma NobodyBid(b: Board, g: Game, target: Seat)
    requires g.alive == Seats(b) && LivingWolves(b, Seats(b)) != [] && target in LivingNonWolves(b, Seats(b))
    ensures KillAgreed(b, g, [], target, LivingWolves(b, Seats(b))[0])
  {
    hide LivingWolves, LivingNonWolves, Leaders, Seats;
  }

  lemma AgreedKillIsLegal(b: Board, g: Game, target: Seat, primary: Seat)
    requires g.table == OpeningTable(b).(asked := g.table.asked, polled := g.table.polled) && g.alive == Seats(b)
    requires GuardDone(b, g.table) && KillAgreed(b, g, [], target, primary)
    requires forall w :: w in LivingWolves(b, g.alive) ==> w in g.table.polled
    ensures Legal(b, g, Kill([], target, primary, []))
  {
    hide GuardDone, KillAgreed, LivingWolves, Seats;
  }

  /** No wolf got a proposal through, and yet somebody is killed. */
  lemma SilentNight(b: Board, g: Game, target: Seat)
    requires LivingWith(b, Seats(b), Guard) == [] && LivingWolves(b, Seats(b)) != []
    requires target < |b.roles| && !IsWolf(b, target) && Silenced(b, g, |LivingWolves(b, Seats(b))|)
    ensures Legal(b, g, Kill([], target, LivingWolves(b, Seats(b))[0], []))
  {
    assert target in LivingNonWolves(b, Seats(b));
    hide *;
    EverybodyPolled(b, g);
    DawnIsFull(b, g.table);
    NoGuardToWaitFor(b, g.table);
    NobodyBid(b, g, target);
    AgreedKillIsLegal(b, g, target, LivingWolves(b, Seats(b))[0]);
  }

  lemma DawnIsFull(b: Board, t: Table)
    requires t == OpeningTable(b).(asked := t.asked, polled := t.polled)
    ensures t.dawn == Seats(b)
  {
    hide Seats;
  }

  /** The game after the silent night's kill, with an entry that does not account for the wolves. */
  lemma SilentKill(b: Board, target: Seat) returns (g: Game)
    requires LivingWith(b, Seats(b), Guard) == [] && LivingWolves(b, Seats(b)) != []
    requires target < |b.roles| && !IsWolf(b, target)
    ensures Reachable(b, g) && exists c :: c in g.consensus && !Settled(c)
    ensures g.alive == Seats(b) && g.committed == {}
    ensures g.table == OpeningTable(b).(asked := g.table.asked, polled := g.table.polled, acted := g.table.acted,
                                        victim := Some(target))
  {
    hide AcceptsConsensusLog, Legal, Settled, LivingWolves, VALID_SOURCE_LABELS, Reachable, NewEvents, NewDecisions,
      NextTurns, OpeningTable;
    var h := SilentWolves(b, |LivingWolves(b, Seats(b))|);
    var m := Kill([], target, LivingWolves(b, Seats(b))[0], []);
    SilentNight(b, h, target);
    ReachStep(b, h, m);
    KillSettledExactly(b, h, m);
    g := Step(b, h, m);
    assert NewConsensus(b, h, m)[0] in g.consensus;
  }

  /** On every board with both sides and no guard there is a run from which no continuation is ever accepted. */
  lemma SilentWolvesAreRefused(b: Board, source: string, target: Seat, w: Winner)
    requires LivingWith(b, Seats(b), Guard) == [] && LivingWolves(b, Seats(b)) != []
    requires target < |b.roles| && !IsWolf(b, target)
    ensures exists moves :: Play(b, moves).Some? && forall more :: RefusedAfter(b, source, moves, more, w)
  {
    var g := SilentKill(b, target);
    hide Settled, Play, EveryKillHeard, RefusedAfter;
    var moves :| Play(b, moves) == Some(g);
    EntriesSettledExactly(b, moves);
    forall more ensures RefusedAfter(b, source, moves, more, w) {
      StaysRefused(b, source, moves, more, w);
    }
  }

  /** If the run goes on this way, the log it has then is not accepted. */
  ghost predicate RefusedAfter(b: Board, source: string, moves: seq<Move>, more: seq<Move>, w: Winner) {
    Play(b, moves + more).Some? ==>
      var g := Play(b, moves + more).value;
      !AcceptsConsensusLog(ConsensusLogOf(b, source, g), GameLogOf(b, source, g, w))
  }

  lemma StaysRefused(b: Board, source: string, moves: seq<Move>, more: seq<Move>, w: Winner)
    requires !EveryKillHeard(b, moves) && Play(b, moves).Some?
    ensures RefusedAfter(b, source, moves, more, w)
  {
    hide Play, EveryKillHeard, AcceptsConsensusLog;
    if Play(b, moves + more).Some? {
      NeverAcceptedAgain(b, source, moves, more, w);
    }
  }

  // ---- a finished one -------------------------------------------------------------------------

  function Trio(gameId: string): Board { Board(gameId, [Werewolf, Villager, Villager]) }

  /** A list of seats with one member. */
  lemma OnlySeat(n: nat, p: Seat -> bool, s: Seat)
    requires s < n && p(s) && forall t: Seat :: t < n && p(t) ==> t == s
    ensures SeatsWhere(n, p) == [s]
  {
    SeatsWhereOrdered(n, p);
    var seats := SeatsWhere(n, p);
    LongListsDiffer(seats);
    assert s in seats;
    assert |seats| == 1;
    assert seats[0] in seats;
  }

  lemma {:induction false} NoSeat(n: nat, p: Seat -> bool)
    requires forall t: Seat :: t < n ==> !p(t)
    ensures SeatsWhere(n, p) == []
  {
    if n > 0 {
      NoSeat(n - 1, p);
    }
  }

  lemma TrioSides(b: Board)
    requires b.roles == [Werewolf, Villager, Villager]
    ensures LivingWith(b, Seats(b), Guard) == [] && LivingWolves(b, Seats(b)) == [0]
    ensures WinCheck(b, {0, 2}) == Some(WerewolvesWin)
  {
    OnlySeat(3, WolfAmong(b, Seats(b)), 0);
    OnlySeat(3, WolfAmong(b, {0, 2}), 0);
    OnlySeat(3, NonWolfAmong(b, {0, 2}), 2);
    NoSeat(3, RoleAmong(b, Seats(b), Guard));
  }

  lemma TrioNightTaken(b: Board, t: Table)
    requires b.roles == [Werewolf, Villager, Villager] && t.victim.Some?
    ensures NightTurnsTaken(b, t)
  {
    hide WinCheck;
  }

  lemma NobodyShoots(b: Board, g: Game)
    requires b.roles == [Werewolf, Villager, Villager]
    ensures NoneToFire(b, g)
  {
  }

  lemma VictimDies(t: Table, target: Seat)
    requires t.victim == Some(target) && !t.saved && t.guarded.None? && t.poison.None? && target in t.dawn
    ensures Settlement(t).deaths == [target] && Settlement(t).causes == map[target := KilledByWolves]
  {
  }

  /**
    A whole game: the wolf's provider fails, somebody is killed all the same, the wolves win, and the finished run's
    consensus log is refused.
  */
  lemma SilentGame(gameId: string, source: string)
    ensures exists g :: Reachable(Trio(gameId), g) && g.table.stage.EndStage?
                        && WinCheck(Trio(gameId), g.alive) == Some(WerewolvesWin)
                        && !AcceptsConsensusLog(ConsensusLogOf(Trio(gameId), source, g),
                                                GameLogOf(Trio(gameId), source, g, WerewolvesWin))
  {
    var b := Trio(gameId);
    hide Reachable, Legal, Step, Settled, WinCheck, NoneToFire, NightTurnsTaken, ResolveNight, AcceptsConsensusLog,
      VALID_SOURCE_LABELS, DeathRecord, NewEvent, LivingWolves, LivingWith, JustDied;
    TrioSides(b);
    var g := SilentKill(b, 1);
    TrioNightTaken(b, g.table);
    NobodyShoots(b, g);
    VictimDies(g.table, 1);
    NightDeathLegal(b, g, 1);
    DieEffect(b, g, 1, KilledByWolves);
    var h := Step(b, g, Die(1, KilledByWolves));
    assert h.alive == {0, 2};
    NobodyShoots(b, h);
    TrioNightTaken(b, h.table);
    VictimDies(h.table, 1);
    FinishEffect(b, h, 1, WerewolvesWin);
    var k := Step(b, h, Finish(WerewolvesWin));
    assert k.consensus == g.consensus;
    EngineConsensusLogExactly(b, source, k, WerewolvesWin);
  }
}
