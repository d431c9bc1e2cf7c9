/** The cross-log check: every team decision points at the consensus entry that made it. */
module LogBundle {
  import opened Logs
  import opened Rules
  import opened Referee
  import opened LogViews
  import opened TeamInvariants
  import opened LogInvariants
  import opened RunTheorems

  /** The last entry with this id, as a dictionary built in log order keeps it. */
  function LastWithId(entries: seq<ConsensusEntry>, id: string): Option<ConsensusEntry> {
    if entries == [] then None
    else if entries[|entries| - 1].id == id then Some(entries[|entries| - 1])
    else LastWithId(entries[..|entries| - 1], id)
  }

  predicate LinkOk(d: Decision, entries: seq<ConsensusEntry>) {
    IsTeamDecision(d) ==>
      && d.consensusId.Some? && d.consensusId.value != ""
      && LastWithId(entries, d.consensusId.value).Some?
      && var entry := LastWithId(entries, d.consensusId.value).value;
      && d.target == entry.final.target && d.phase == entry.phase
  }

  /** The number of links, or None when some team decision has no entry that agrees with it. */
  method CountLinks(decisions: seq<Decision>, entries: seq<ConsensusEntry>) returns (links: Option<nat>)
    ensures links.Some? <==> forall d :: d in decisions ==> LinkOk(d, entries)
    ensures links.Some? ==> links.value == CountTeam(decisions)
  {
    var byId: map<string, ConsensusEntry> := map[];
    for i := 0 to |entries|
      invariant forall id :: id in byId <==> LastWithId(entries[..i], id).Some?
      invariant forall id :: id in byId ==> byId[id] == LastWithId(entries[..i], id).value
    {
      assert entries[..i + 1][..i] == entries[..i];
      byId := byId[entries[i].id := entries[i]];
    }
    assert entries[..|entries|] == entries;
    var count := 0;
    for i := 0 to |decisions|
      invariant forall j :: 0 <= j < i ==> LinkOk(decisions[j], entries)
      invariant count == CountTeam(decisions[..i])
    {
      var d := decisions[i];
      assert decisions[..i + 1][..i] == decisions[..i];
      assert d in decisions;
      if IsTeamDecision(d) {
        if d.consensusId.None? || d.consensusId.value == "" || d.consensusId.value !in byId {
          return None;
        }
        var entry := byId[d.consensusId.value];
        if d.target != entry.final.target || d.phase != entry.phase {
          return None;
        }
        count := count + 1;
      }
    }
    assert decisions[..|decisions|] == decisions;
    return Some(count);
  }

  lemma {:induction false} OnlyEntryWithId(entries: seq<ConsensusEntry>, k: nat)
    requires k < |entries| && forall i, j :: 0 <= i < j < |entries| ==> entries[i].id != entries[j].id
    ensures LastWithId(entries, entries[k].id) == Some(entries[k])
  {
    if k < |entries| - 1 {
      OnlyEntryWithId(entries[..|entries| - 1], k);
    }
  }

  lemma EntryIdsDistinct(b: Board, g: Game, i: nat, j: nat)
    requires Reachable(b, g) && i < j < |g.consensus|
    ensures g.consensus[i].id != g.consensus[j].id
  {
    hide Reachable, EntryInv, CountTeam, Linked, ConsensusId;
    KillsOf(b, g);
    var kills := Select(KindView(WerewolfKill), g.events);
    assert Records(b, g.consensus[i], kills[i]) && Records(b, g.consensus[j], kills[j]);
    if g.consensus[i].id == g.consensus[j].id {
      ConsensusIdInjective(b.gameId, g.consensus[i].round, g.consensus[j].round);
    }
  }

  /** In every run each team decision has its entry, and there is one link per consensus entry. */
  lemma EngineLinksHold(b: Board, g: Game)
    requires Reachable(b, g)
    ensures forall d :: d in g.decisions ==> LinkOk(d, g.consensus)
    ensures CountTeam(g.decisions) == |g.consensus|
  {
    hide Reachable, EntryInv, CountTeam, Records, ConsensusId, LastWithId, IsTeamDecision;
    KillsOf(b, g);
    forall i, j | 0 <= i < j < |g.consensus| ensures g.consensus[i].id != g.consensus[j].id {
      EntryIdsDistinct(b, g, i, j);
    }
    forall d | d in g.decisions ensures LinkOk(d, g.consensus) {
      if IsTeamDecision(d) {
        assert Linked(d, g.consensus);
        var k :| 0 <= k < |g.consensus| && d.consensusId == Some(g.consensus[k].id)
                 && d.target == g.consensus[k].final.target && d.phase == g.consensus[k].phase;
        OnlyEntryWithId(g.consensus, k);
        EntryHasId(b, g, k);
      }
    }
  }

  lemma EntryHasId(b: Board, g: Game, k: nat)
    requires Reachable(b, g) && k < |g.consensus|
    ensures g.consensus[k].id != ""
  {
    hide Reachable, KillInv, CountTeam, RefsPrecede;
    KillsOf(b, g);
    assert EntryOk(b, g.events, g.consensus[k]);
  }
}
