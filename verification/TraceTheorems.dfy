/** The trace collected after a run against the turns and charges of that run. */
module TraceTheorems {
  import opened Logs
  import opened Rules
  import opened Referee
  import opened CallInvariants
  import opened RunTheorems
  import opened GameTheorems
  import opened ProviderTrace

  /** The request ids of a run's charged turns: the provider calls, the scribe's among them. */
  function ChargedIds(b: Board, turns: seq<Turn>): (ids: seq<string>)
    ensures |ids| == CountCharged(turns)
  {
    if turns == [] then []
    else
      var last := turns[|turns| - 1];
      ChargedIds(b, turns[..|turns| - 1]) + if Charged(last) then [RequestText(b.gameId, last.key)] else []
  }

  lemma {:induction false} ChargedFrom(b: Board, turns: seq<Turn>, id: string)
    ensures id in ChargedIds(b, turns) <==>
            exists i :: 0 <= i < |turns| && Charged(turns[i]) && RequestText(b.gameId, turns[i].key) == id
  {
    if turns != [] {
      var init, last := turns[..|turns| - 1], turns[|turns| - 1];
      ChargedFrom(b, init, id);
      if i :| 0 <= i < |init| && Charged(init[i]) && RequestText(b.gameId, init[i].key) == id {
        assert turns[i] == init[i];
      }
      if i :| 0 <= i < |turns| && Charged(turns[i]) && RequestText(b.gameId, turns[i].key) == id {
        assert i == |init| || init[i] == turns[i];
      }
    }
  }

  lemma {:induction false} ChargedOnce(b: Board, turns: seq<Turn>)
    requires forall i, j :: 0 <= i < j < |turns| ==>
               RequestText(b.gameId, turns[i].key) != RequestText(b.gameId, turns[j].key)
    ensures Distinct(ChargedIds(b, turns))
  {
    hide RequestText, Charged;
    if turns != [] {
      var init, last := turns[..|turns| - 1], turns[|turns| - 1];
      ChargedOnce(b, init);
      ChargedFrom(b, init, RequestText(b.gameId, last.key));
      assert RequestText(b.gameId, last.key) !in ChargedIds(b, init);
    }
  }

  function CallIds(calls: seq<Call>): (ids: seq<string>)
    ensures |ids| == |calls| && forall i :: 0 <= i < |calls| ==> ids[i] == calls[i].id
  {
    seq(|calls|, i requires 0 <= i < |calls| => calls[i].id)
  }

  lemma CallIdsHold(calls: seq<Call>, id: string)
    ensures id in CallIds(calls) <==> HasId(calls, id)
  {
    if HasId(calls, id) {
      var c :| c in calls && c.id == id;
      var i :| 0 <= i < |calls| && calls[i] == c;
      assert CallIds(calls)[i] == id;
    }
    if id in CallIds(calls) {
      var i :| 0 <= i < |CallIds(calls)| && CallIds(calls)[i] == id;
      assert calls[i] in calls;
    }
  }

  /** The providers recorded the run's charged requests, each somewhere, and nothing else. */
  ghost predicate RecordsTheRun(b: Board, g: Game, agents: seq<Option<Provider>>) {
    forall id :: HasId(Everything(agents, RequestsOf()), id) <==> id in ChargedIds(b, g.turns)
  }

  /**
    The de-duplicated trace of a run holds every charged request exactly once and nothing else, whether the seats share
    providers or not, so it is as long as the number of charges.
  */
  lemma TraceIsTheRunsCalls(b: Board, g: Game, agents: seq<Option<Provider>>)
    requires Reachable(b, g) && RecordsTheRun(b, g, agents)
    ensures var trace := FirstById(Everything(agents, RequestsOf()));
            multiset(CallIds(trace)) == multiset(ChargedIds(b, g.turns)) && |trace| == g.used
  {
    hide Reachable, FirstById, Everything, HasId, BudgetInv, Booked, HonestKind, CountCharged, RequestText, CountLive,
      CountScaffold;
    var calls := Everything(agents, RequestsOf());
    var trace := FirstById(calls);
    FirstByIdExactly(calls);
    ChargesAreRecorded(b, g);
    CallsOf(b, g);
    ChargedOnce(b, g.turns);
    assert Distinct(CallIds(trace));
    forall id ensures id in CallIds(trace) <==> id in ChargedIds(b, g.turns) {
      CallIdsHold(trace, id);
      assert HasId(trace, id) <==> HasId(calls, id);
    }
    SameMembersSameBag(CallIds(trace), ChargedIds(b, g.turns));
  }
}
