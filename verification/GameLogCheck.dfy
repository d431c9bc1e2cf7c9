/** Whether an evaluation accepts a game log and a decision log, and which engine runs it accepts. */
module GameLogCheck {
  import opened Logs
  import opened Rules
  import opened Referee
  import opened LogInvariants
  import opened TeamInvariants
  import opened RunTheorems
  import opened RunDocuments

  const VALID_SOURCE_LABELS: set<string> := {
    "[人工 gold sample]",
    "[AI 生成]",
    "[scripted deterministic output]",
    "[deterministic mock agent output]",
    "[deterministic fake provider output]",
    "[DeepSeek API output]",
    "[OpenAI API output]",
    "[Anthropic API output]",
    "[OpenAI-compatible API output]",
    "[mixed provider output]"
  }

  /** Python's `len(set(items)) == len(items)`. */
  predicate NoRepeats<T(==)>(items: seq<T>) {
    |set x | x in items| == |items|
  }

  lemma {:induction false} NoRepeatsExactly<T>(items: seq<T>)
    ensures |set x | x in items| <= |items|
    ensures NoRepeats(items) <==> Distinct(items)
  {
    if items != [] {
      var init, last := items[..|items| - 1], items[|items| - 1];
      NoRepeatsExactly(init);
      assert items == init + [last];
      assert (set x | x in items) == (set x | x in init) + {last};
      if last in init {
        assert (set x | x in items) == (set x | x in init);
        var i :| 0 <= i < |init| && init[i] == last;
        assert items[i] == items[|items| - 1];
      } else {
        if Distinct(init) {
          forall i, j | 0 <= i < j < |items| ensures items[i] != items[j] {
            if j < |init| { assert init[i] != init[j]; } else { assert init[i] in init; }
          }
        }
        if Distinct(items) {
          forall i, j | 0 <= i < j < |init| ensures init[i] != init[j] {
            assert items[i] != items[j];
          }
        }
      }
    }
  }

  // ---- the acceptors ------------------------------------------------------------

  function PlayerIds(log: GameLog): seq<Name> {
    seq(|log.players|, i requires 0 <= i < |log.players| => log.players[i].name)
  }

  function EventIds(events: seq<Event>): seq<string> {
    seq(|events|, i requires 0 <= i < |events| => events[i].id)
  }

  predicate AcceptsEvent(e: Event, players: seq<Name>, ids: seq<string>) {
    && e.id != ""
    && !e.phase.OtherPhase? && !e.visibility.OtherVisibility?
    && (e.actor in players || e.actor.System? || e.actor.WolfPack?)
    && (e.target in players || e.target.VillagerSide? || e.target.WerewolfSide? || e.target.Nobody?)
    && e.hasSummary
    && forall r :: r in e.refs ==> r in ids
  }

  predicate AcceptsGameLog(log: GameLog) {
    && log.gameId != ""
    && log.sourceLabel in VALID_SOURCE_LABELS
    && |log.players| == 6
    && NoRepeats(PlayerIds(log))
    && log.events != []
    && (forall i :: 0 <= i < |log.events| ==> log.events[i].sequence == i + 1)
    && NoRepeats(EventIds(log.events))
    && (forall e :: e in log.events ==> AcceptsEvent(e, PlayerIds(log), EventIds(log.events)))
    && !log.result.winner.OtherTeam?
    && forall s :: s in log.result.survivors ==> s in PlayerIds(log)
  }

  predicate AcceptsDecision(d: Decision, game: GameLog) {
    && d.id != ""
    && (d.actor in PlayerIds(game) || d.actor.WolfPack?)
    && !d.scope.OtherScope?
    && (d.phase.Night? || d.phase.Day?)
    && d.action != OtherKind("")
    && (d.target in PlayerIds(game) || d.target.Nobody? || d.target.VillagerSide? || d.target.WerewolfSide?)
    && (forall r :: r in d.refs ==> r in EventIds(game.events))
    && !d.dtype.OtherType?
    && d.round >= 0
  }

  function DecisionIds(decisions: seq<Decision>): seq<string> {
    seq(|decisions|, i requires 0 <= i < |decisions| => decisions[i].id)
  }

  predicate AcceptsDecisionLog(log: DecisionLog, game: GameLog) {
    && log.id != ""
    && log.gameId == game.gameId
    && log.sourceLabel in VALID_SOURCE_LABELS
    && NoRepeats(DecisionIds(log.decisions))
    && forall d :: d in log.decisions ==> AcceptsDecision(d, game)
  }

  /** What an accepted game log holds: six players, events numbered from 1, no id twice, and only names that are known. */
  lemma AcceptedGameLogExactly(log: GameLog)
    ensures AcceptsGameLog(log) <==>
            && log.gameId != "" && log.sourceLabel in VALID_SOURCE_LABELS && |log.players| == 6 && log.events != []
            && (forall i, j :: 0 <= i < j < |log.players| ==> log.players[i].name != log.players[j].name)
            && (forall i, j :: 0 <= i < j < |log.events| ==> log.events[i].id != log.events[j].id)
            && (forall i :: 0 <= i < |log.events| ==>
                  && log.events[i].sequence == i + 1 && log.events[i].id != "" && log.events[i].hasSummary
                  && log.events[i].phase in {Setup, Night, Day, GameEnd} && !log.events[i].visibility.OtherVisibility?
                  && (log.events[i].actor in {System, WolfPack} || OnRoster(log.players, log.events[i].actor))
                  && (log.events[i].target in {VillagerSide, WerewolfSide, Nobody} || OnRoster(log.players, log.events[i].target))
                  && forall r :: r in log.events[i].refs ==> exists j :: 0 <= j < |log.events| && log.events[j].id == r)
            && log.result.winner in {WerewolfTeam, VillagerTeam}
            && forall n :: n in log.result.survivors ==> OnRoster(log.players, n)
  {
    hide VALID_SOURCE_LABELS;
    NoRepeatsExactly(PlayerIds(log));
    NoRepeatsExactly(EventIds(log.events));
    hide NoRepeats;
    assert Distinct(PlayerIds(log)) <==>
           forall i, j :: 0 <= i < j < |log.players| ==> log.players[i].name != log.players[j].name by {
      assert forall i :: 0 <= i < |log.players| ==> PlayerIds(log)[i] == log.players[i].name;
    }
    assert Distinct(EventIds(log.events)) <==>
           forall i, j :: 0 <= i < j < |log.events| ==> log.events[i].id != log.events[j].id by {
      assert forall i :: 0 <= i < |log.events| ==> EventIds(log.events)[i] == log.events[i].id;
    }
    forall n ensures n in PlayerIds(log) <==> OnRoster(log.players, n) {
      RosterExactly(log, n);
    }
    forall r ensures r in EventIds(log.events) <==> exists j :: 0 <= j < |log.events| && log.events[j].id == r {
      IdListedExactly(log.events, r);
    }
    hide PlayerIds, EventIds, OnRoster, Distinct;
    assert (forall e :: e in log.events ==> AcceptsEvent(e, PlayerIds(log), EventIds(log.events))) <==>
           forall i :: 0 <= i < |log.events| ==> AcceptsEvent(log.events[i], PlayerIds(log), EventIds(log.events));
  }

  /** One of the listed players has this name. */
  predicate OnRoster(players: seq<PlayerEntry>, n: Name) {
    exists i :: 0 <= i < |players| && players[i].name == n
  }

  lemma RosterExactly(log: GameLog, n: Name)
    ensures n in PlayerIds(log) <==> OnRoster(log.players, n)
  {
    if i :| 0 <= i < |log.players| && log.players[i].name == n { assert PlayerIds(log)[i] == n; }
  }

  lemma IdListedExactly(events: seq<Event>, r: string)
    ensures r in EventIds(events) <==> exists j :: 0 <= j < |events| && events[j].id == r
  {
    if j :| 0 <= j < |events| && events[j].id == r { assert EventIds(events)[j] == r; }
  }

  /** What an accepted decision log holds: ids used once, known names, references to events of the game. */
  lemma AcceptedDecisionLogExactly(log: DecisionLog, game: GameLog)
    ensures AcceptsDecisionLog(log, game) <==>
            && log.id != "" && log.gameId == game.gameId && log.sourceLabel in VALID_SOURCE_LABELS
            && (forall i, j :: 0 <= i < j < |log.decisions| ==> log.decisions[i].id != log.decisions[j].id)
            && forall i :: 0 <= i < |log.decisions| ==>
                 && log.decisions[i].id != "" && log.decisions[i].round >= 0 && log.decisions[i].phase in {Night, Day}
                 && log.decisions[i].scope in {Single, TeamScope} && log.decisions[i].action != OtherKind("")
                 && !log.decisions[i].dtype.OtherType?
                 && (log.decisions[i].actor == WolfPack || OnRoster(game.players, log.decisions[i].actor))
                 && (|| log.decisions[i].target in {VillagerSide, WerewolfSide, Nobody}
                     || OnRoster(game.players, log.decisions[i].target))
                 && forall r :: r in log.decisions[i].refs ==> exists j :: 0 <= j < |game.events| && game.events[j].id == r
  {
    hide VALID_SOURCE_LABELS;
    NoRepeatsExactly(DecisionIds(log.decisions));
    hide NoRepeats;
    assert Distinct(DecisionIds(log.decisions)) <==>
           forall i, j :: 0 <= i < j < |log.decisions| ==> log.decisions[i].id != log.decisions[j].id by {
      assert forall i :: 0 <= i < |log.decisions| ==> DecisionIds(log.decisions)[i] == log.decisions[i].id;
    }
    forall n ensures n in PlayerIds(game) <==> OnRoster(game.players, n) {
      RosterExactly(game, n);
    }
    forall r ensures r in EventIds(game.events) <==> exists j :: 0 <= j < |game.events| && game.events[j].id == r {
      IdListedExactly(game.events, r);
    }
    hide PlayerIds, EventIds, OnRoster, DecisionIds, Distinct;
    assert (forall d :: d in log.decisions ==> AcceptsDecision(d, game)) <==>
           forall i :: 0 <= i < |log.decisions| ==> AcceptsDecision(log.decisions[i], game);
  }

  // ---- looking events up by id ----------------------------------------------------

  /** Where the first event with this id stands, as `event_by_id` finds it; the length when there is none. */
  function FirstWithId(events: seq<Event>, id: string): (i: nat)
    ensures i <= |events|
    ensures i < |events| ==> events[i].id == id
    ensures forall j :: 0 <= j < i ==> events[j].id != id
  {
    if events == [] then 0
    else if events[0].id == id then 0
    else 1 + FirstWithId(events[1..], id)
  }

  /** In an accepted log an id finds its own event and no other. */
  lemma AcceptedIdsFindTheirEvents(log: GameLog, i: nat)
    requires AcceptsGameLog(log) && i < |log.events|
    ensures FirstWithId(log.events, log.events[i].id) == i
  {
    NoRepeatsExactly(EventIds(log.events));
    var first := FirstWithId(log.events, log.events[i].id);
    assert EventIds(log.events)[i] == log.events[i].id;
    if first < |log.events| {
      assert EventIds(log.events)[first] == log.events[first].id;
    }
  }

  // ---- what the engine's logs look like to them --------------------------------------

  lemma EventIdsDistinct(b: Board, g: Game)
    requires Reachable(b, g)
    ensures Distinct(EventIds(g.events))
  {
    hide Reachable, EventId, DeathInv, Replay;
    EventsOf(b, g);
    forall i, j | 0 <= i < j < |g.events| ensures g.events[i].id != g.events[j].id {
      assert EventOk(b, g.table.round, i, g.events[i]) && EventOk(b, g.table.round, j, g.events[j]);
      if g.events[i].id == g.events[j].id {
        EventIdInjective(b.gameId, i + 1, j + 1);
      }
    }
  }

  lemma RosterIds(b: Board, log: GameLog)
    requires log.players == Roster(b)
    ensures |PlayerIds(log)| == |b.roles| && Distinct(PlayerIds(log))
    ensures forall s: Seat :: s < |b.roles| ==> Player(s) in PlayerIds(log)
  {
    forall s: Seat | s < |b.roles| ensures Player(s) in PlayerIds(log) {
      assert PlayerIds(log)[s] == Player(s);
    }
  }

  /**
    Every state a run can end in gives a valid game log: numbered 1 to N, ids unique, names known. What can still be
    refused is only what the caller chose: the game id, the label and the size of the board.
  */
  lemma EngineGameLogAccepted(b: Board, source: string, g: Game, w: Winner)
    requires Reachable(b, g)
    ensures AcceptsGameLog(GameLogOf(b, source, g, w)) <==>
            b.gameId != "" && source in VALID_SOURCE_LABELS && |b.roles| == 6
  {
    var log := GameLogOf(b, source, g, w);
    EventIdsDistinct(b, g);
    NoRepeatsExactly(EventIds(g.events));
    RosterIds(b, log);
    NoRepeatsExactly(PlayerIds(log));
    EventsAccepted(b, source, g, w);
    SurvivorsKnown(b, source, g, w);
    hide Reachable, VALID_SOURCE_LABELS, NoRepeats, AcceptsEvent, PlayerIds, EventIds, Roster, AliveInSeatOrder, Names, Distinct;
  }

  lemma EventsAccepted(b: Board, source: string, g: Game, w: Winner)
    requires Reachable(b, g)
    ensures var log := GameLogOf(b, source, g, w);
            && log.events != [] && (forall i :: 0 <= i < |log.events| ==> log.events[i].sequence == i + 1)
            && forall e :: e in log.events ==> AcceptsEvent(e, PlayerIds(log), EventIds(log.events))
  {
    hide Reachable, DeathInv, Replay;
    var log := GameLogOf(b, source, g, w);
    RosterIds(b, log);
    EventsOf(b, g);
    forall e | e in log.events ensures AcceptsEvent(e, PlayerIds(log), EventIds(log.events)) {
      var i :| 0 <= i < |g.events| && g.events[i] == e;
      assert EventOk(b, g.table.round, i, e);
      assert e.id[|b.gameId|] == '_';
    }
    assert forall i :: 0 <= i < |g.events| ==> EventOk(b, g.table.round, i, g.events[i]);
  }

  lemma SurvivorsKnown(b: Board, source: string, g: Game, w: Winner)
    ensures var log := GameLogOf(b, source, g, w);
            !log.result.winner.OtherTeam? && forall n :: n in log.result.survivors ==> n in PlayerIds(log)
  {
    var log := GameLogOf(b, source, g, w);
    RosterIds(b, log);
    forall n | n in log.result.survivors ensures n in PlayerIds(log) {
      var k :| 0 <= k < |log.result.survivors| && log.result.survivors[k] == n;
      assert AliveInSeatOrder(b, g.alive)[k] in AliveInSeatOrder(b, g.alive);
    }
  }

  /** Every decision of a run names known seats, real events and a valid phase, under ids never used twice. */
  lemma EngineDecisionLogAccepted(b: Board, source: string, g: Game, w: Winner)
    requires Reachable(b, g)
    ensures AcceptsDecisionLog(DecisionLogOf(b, source, g), GameLogOf(b, source, g, w)) <==> source in VALID_SOURCE_LABELS
  {
    hide Reachable, VALID_SOURCE_LABELS, NoRepeats, AcceptsDecision;
    var log, game := DecisionLogOf(b, source, g), GameLogOf(b, source, g, w);
    DecisionIdsDistinct(b, g);
    NoRepeatsExactly(DecisionIds(g.decisions));
    forall d | d in log.decisions ensures AcceptsDecision(d, game) {
      var k :| 0 <= k < |g.decisions| && g.decisions[k] == d;
      DecisionAccepted(b, source, g, w, k);
    }
    assert |log.id| > 0;
  }

  lemma DecisionAccepted(b: Board, source: string, g: Game, w: Winner, k: nat)
    requires Reachable(b, g) && k < |g.decisions|
    ensures AcceptsDecision(g.decisions[k], GameLogOf(b, source, g, w))
  {
    hide Reachable, PairInv;
    var d, game := g.decisions[k], GameLogOf(b, source, g, w);
    DecisionsOf(b, g);
    RosterIds(b, game);
    DecisionFields(b, g, k);
    assert DecisionOk(b, d, g.events, g.turns);
    forall r | r in d.refs ensures r in EventIds(game.events) {
      var i :| 0 <= i < |g.events| && g.events[i].id == r;
      assert EventIds(g.events)[i] == r;
    }
  }

  lemma DecisionIdsDistinct(b: Board, g: Game)
    requires Reachable(b, g)
    ensures Distinct(DecisionIds(g.decisions))
  {
    hide Reachable, DecisionId, DecisionsOk, Spent, Apart;
    DecisionsOf(b, g);
    forall i, j | 0 <= i < j < |g.decisions| ensures g.decisions[i].id != g.decisions[j].id {
      if g.decisions[i].id == g.decisions[j].id {
        DecisionIdInjective(b.gameId, i + 1, j + 1);
      }
    }
  }

  lemma DecisionFields(b: Board, g: Game, k: nat)
    requires Reachable(b, g) && k < |g.decisions|
    ensures g.decisions[k].id != "" && g.decisions[k].action != OtherKind("")
  {
    hide Reachable, DecisionsOk, Apart;
    DecisionsOf(b, g);
    assert Spent(g.decisions[k], g.table);
    assert g.decisions[k].id[|b.gameId|] == '_';
  }
}
