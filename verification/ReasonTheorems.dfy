/** The join recovers the engine's own pairing of decisions and events. */
module ReasonTheorems {
  import opened Logs
  import opened Rules
  import opened Referee
  import opened LogViews
  import opened LogInvariants
  import opened TeamInvariants
  import opened RunTheorems
  import opened GameLogCheck
  import opened GameTheorems
  import R = DecisionReasons

  function RawDecisionOf(d: Decision): R.RawDecision {
    R.RawDecision(d.id, true, R.IntRound(d.round), d.phase, d.actor, d.action, d.target)
  }

  function RawEventOf(e: Event): R.RawEvent {
    R.RawEvent(e.id, R.IntRound(e.round), e.phase, e.actor, e.kind, e.target)
  }

  function RawDecisions(decisions: seq<Decision>): (raw: seq<R.RawDecision>)
    ensures |raw| == |decisions| && forall k :: 0 <= k < |raw| ==> raw[k] == RawDecisionOf(decisions[k])
  {
    seq(|decisions|, k requires 0 <= k < |decisions| => RawDecisionOf(decisions[k]))
  }

  function RawEvents(events: seq<Event>): (raw: seq<R.RawEvent>)
    ensures |raw| == |events| && forall i :: 0 <= i < |raw| ==> raw[i] == RawEventOf(events[i])
  {
    seq(|events|, i requires 0 <= i < |events| => RawEventOf(events[i]))
  }

  /** Where the k-th deed of the log stands. */
  function DeedIndex(events: seq<Event>, k: nat): (i: nat)
    requires k < |Select(DeedView, events)|
    ensures i < |events| && IsDeed(events[i].kind) && events[i] == Select(DeedView, events)[k]
  {
    var last := |events| - 1;
    if IsDeed(events[last].kind) && k == |Select(DeedView, events)| - 1 then last
    else DeedIndex(events[..last], k)
  }

  ghost predicate IsDeedId(events: seq<Event>, id: string) {
    exists k :: 0 <= k < |Select(DeedView, events)| && events[DeedIndex(events, k)].id == id
  }

  lemma EngineLogsAreClean(b: Board, g: Game)
    requires Reachable(b, g)
    ensures R.CleanLogs(RawDecisions(g.decisions), RawEvents(g.events))
  {
    hide Reachable, Select, Matches, DeathInv, Replay, EventId;
    DecisionsMatchTheirEvents(b, g);
    EventIdsDistinct(b, g);
    EventsOf(b, g);
    DecisionRounds(b, g);
    forall i, j | 0 <= i < j < |g.events| ensures g.events[i].id != g.events[j].id {
      assert EventIds(g.events)[i] != EventIds(g.events)[j];
    }
    forall i | 0 <= i < |g.events| ensures g.events[i].round >= 0 {
      assert EventOk(b, g.table.round, i, g.events[i]);
    }
    forall j, k | 0 <= j < k < |g.decisions|
      ensures R.DecisionKey(RawDecisionOf(g.decisions[j])) != R.DecisionKey(RawDecisionOf(g.decisions[k]))
    {
      assert !SameKey(g.decisions[j], g.decisions[k]);
    }
  }

  lemma DecisionRounds(b: Board, g: Game)
    requires Reachable(b, g)
    ensures forall k :: 0 <= k < |g.decisions| ==> g.decisions[k].round >= 0
  {
    hide Reachable, PairInv;
    DecisionsOf(b, g);
    forall k | 0 <= k < |g.decisions| ensures g.decisions[k].round >= 0 {
      assert DecisionOk(b, g.decisions[k], g.events, g.turns);
    }
  }

  /** The k-th decision's key belongs to the k-th deed and to no other event of the log. */
  lemma KeyBelongsToItsDeed(b: Board, g: Game, k: nat, i: nat)
    requires Reachable(b, g) && k < |g.decisions| && i < |g.events|
    ensures |Select(DeedView, g.events)| == |g.decisions|
    ensures Matches(g.decisions[k], g.events[i]) <==> i == DeedIndex(g.events, k)
  {
    hide Reachable, DecisionsOk, Spent, Apart, Select;
    DecisionsMatchTheirEvents(b, g);
    DecisionsOf(b, g);
    var own := DeedIndex(g.events, k);
    assert Matches(g.decisions[k], Select(DeedView, g.events)[k]);
    if Matches(g.decisions[k], g.events[i]) {
      DeedRank(g.events, i);
      var j :| 0 <= j < |g.decisions| && DeedIndex(g.events, j) == i;
      assert Matches(g.decisions[j], Select(DeedView, g.events)[j]);
      assert SameKey(g.decisions[j], g.decisions[k]) && SameKey(g.decisions[k], g.decisions[j]);
    }
  }

  /** Every deed of the log is one of the selected deeds. */
  lemma {:induction false} DeedRank(events: seq<Event>, i: nat)
    requires i < |events| && IsDeed(events[i].kind)
    ensures exists k :: 0 <= k < |Select(DeedView, events)| && DeedIndex(events, k) == i
  {
    var last := |events| - 1;
    if i == last {
      assert DeedIndex(events, |Select(DeedView, events)| - 1) == i;
    } else {
      DeedRank(events[..last], i);
      var k :| 0 <= k < |Select(DeedView, events[..last])| && DeedIndex(events[..last], k) == i;
      assert DeedIndex(events, k) == i;
    }
  }

  /** What the join promises of its result on these two logs. */
  ghost predicate JoinOf(g: Game, out: map<string, R.Attachment>) {
    R.CleanLogs(RawDecisions(g.decisions), RawEvents(g.events)) ==>
      R.ExactJoin(RawDecisions(g.decisions), RawEvents(g.events), |g.events|, out)
  }

  ghost predicate ReasonsOnTheirDeeds(g: Game, out: map<string, R.Attachment>) {
    && |Select(DeedView, g.events)| == |g.decisions|
    && (forall k :: 0 <= k < |g.decisions| ==>
          var e := g.events[DeedIndex(g.events, k)];
          e.id in out && out[e.id] == R.Attachment(k, e.actor, R.Matched))
    && forall id :: id in out ==> IsDeedId(g.events, id)
  }

  /**
    On the logs of any run the join is exact: each decision's reason lands, marked as matched, on the one event that
    was logged right after it, and no other event gets a reason.
  */
  lemma EngineReasonsExactly(b: Board, g: Game, out: map<string, R.Attachment>)
    requires Reachable(b, g) && JoinOf(g, out)
    ensures ReasonsOnTheirDeeds(g, out)
  {
    hide Reachable, Select, R.CleanLogs, R.ExactJoin;
    EngineLogsAreClean(b, g);
    DecisionsMatchTheirEvents(b, g);
    forall k | 0 <= k < |g.decisions|
      ensures var e := g.events[DeedIndex(g.events, k)];
              e.id in out && out[e.id] == R.Attachment(k, e.actor, R.Matched)
    {
      ReasonGiven(b, g, out, k);
    }
    forall id | id in out ensures IsDeedId(g.events, id) {
      ReasonEarned(b, g, out, id);
    }
  }

  lemma ReasonGiven(b: Board, g: Game, out: map<string, R.Attachment>, k: nat)
    requires Reachable(b, g) && k < |g.decisions| && |Select(DeedView, g.events)| == |g.decisions|
    requires R.CleanLogs(RawDecisions(g.decisions), RawEvents(g.events))
    requires R.ExactJoin(RawDecisions(g.decisions), RawEvents(g.events), |g.events|, out)
    ensures var e := g.events[DeedIndex(g.events, k)];
            e.id in out && out[e.id] == R.Attachment(k, e.actor, R.Matched)
  {
    hide Reachable, Select, R.FirstOfKey, R.Explains, R.ReasonsEarned;
    FirstAndOnly(b, g, k);
    var i := DeedIndex(g.events, k);
    assert RawEvents(g.events)[i] == RawEventOf(g.events[i]);
  }

  lemma ReasonEarned(b: Board, g: Game, out: map<string, R.Attachment>, id: string)
    requires Reachable(b, g) && id in out && |Select(DeedView, g.events)| == |g.decisions|
    requires R.CleanLogs(RawDecisions(g.decisions), RawEvents(g.events))
    requires R.ExactJoin(RawDecisions(g.decisions), RawEvents(g.events), |g.events|, out)
    ensures IsDeedId(g.events, id)
  {
    hide Reachable, Select, R.FirstOfKey, R.ReasonsGiven;
    var ds, es := RawDecisions(g.decisions), RawEvents(g.events);
    var i, k :| 0 <= i < |es| && 0 <= k < |ds| && es[i].id == id && R.FirstOfKey(es, i) && R.Explains(ds, k, es[i]);
    assert Matches(g.decisions[k], g.events[i]);
    KeyBelongsToItsDeed(b, g, k, i);
  }

  lemma FirstAndOnly(b: Board, g: Game, k: nat)
    requires Reachable(b, g) && k < |g.decisions| && |Select(DeedView, g.events)| == |g.decisions|
    requires R.CleanLogs(RawDecisions(g.decisions), RawEvents(g.events))
    ensures var i := DeedIndex(g.events, k);
            && R.FirstOfKey(RawEvents(g.events), i)
            && R.Explains(RawDecisions(g.decisions), k, RawEvents(g.events)[i])
  {
    hide Reachable, Select;
    var i := DeedIndex(g.events, k);
    KeyBelongsToItsDeed(b, g, k, i);
    forall j | 0 <= j < i ensures R.EventKey(RawEventOf(g.events[j])) != R.EventKey(RawEventOf(g.events[i])) {
      KeyBelongsToItsDeed(b, g, k, j);
      assert Matches(g.decisions[k], g.events[i]) && !Matches(g.decisions[k], g.events[j]);
    }
    DeedIsJoinable(b, g, k);
  }

  lemma DeedIsJoinable(b: Board, g: Game, k: nat)
    requires Reachable(b, g) && k < |g.decisions| && |Select(DeedView, g.events)| == |g.decisions|
    ensures R.Joinable(RawEventOf(g.events[DeedIndex(g.events, k)]))
  {
    hide Reachable, Select, EventId, DeathInv, Replay;
    DecisionsOf(b, g);
    EventsOf(b, g);
    var i := DeedIndex(g.events, k);
    assert Matches(g.decisions[k], g.events[i]);
    assert Spent(g.decisions[k], g.table);
    assert EventOk(b, g.table.round, i, g.events[i]);
    assert g.events[i].id != "" by { EventIdMark(b.gameId, i + 1); }
  }

  lemma EventIdMark(gameId: string, n: nat)
    ensures EventId(gameId, n) != ""
  {
    assert EventId(gameId, n)[|gameId|] == '_';
  }
}
