/** The runtime guard on prompts never fires: whatever a seat's prompt is rendered from, the observer would show that seat. */
module PromptGuard {
  import opened Logs
  import opened Rules
  import opened Referee
  import opened LogInvariants
  import opened RunTheorems
  import opened GameLogCheck
  import opened RoleVisibility
  import opened Rendering
  import opened PromptRendering
  import opened PromptTheorems
  import opened ObserverTrust
  import opened ObserverProjection
  import opened ObserverTheorems

  /** The guard's own index: every seat's real role and team, marked as trusted. */
  function GuardIndex(b: Board): SeatIndex {
    map s | s in Seats(b) ::
      Player(s) := SeatEntry(RoleText(b.roles[s]), RoleProjection, TeamText(TeamOf(b.roles[s])), RoleProjection, true, NoSource,
                             map[])
  }

  lemma GuardIndexTrusts(b: Board, s: Seat)
    requires s < |b.roles|
    ensures TrustedSeat(GuardIndex(b), Player(s), b.roles[s])
  {
    assert s in Seats(b);
  }

  /** The guard lets this source id through: it names a logged event, and the observer would show it to the seat. */
  ghost predicate Entitled(b: Board, events: seq<Event>, s: Seat, id: string) {
    exists i :: 0 <= i < |events| && events[i].id == id
                && EventVisible(events[i].visibility, RoleOf(Player(s)), GuardIndex(b)).0
  }

  /** What the engine puts into an observation for this seat. */
  predicate SeatObservation(b: Board, obs: Observation, s: Seat, log: seq<Told>) {
    && s < |b.roles| && obs.player == Player(s) && obs.role == b.roles[s] && obs.team == TeamOf(b.roles[s])
    && ObservationOf(obs, log)
  }

  lemma RunLogIsWellKept(b: Board, g: Game, log: seq<Told>)
    requires Reachable(b, g) && Events(log) == g.events
    ensures WellKept(log)
  {
    hide Reachable, DeathInv, Replay, EventId;
    EventsOf(b, g);
    EventIdsDistinct(b, g);
    forall i, j | 0 <= i < j < |log|
      ensures log[i].event.sequence < log[j].event.sequence && log[i].event.id != log[j].event.id
    {
      assert EventOk(b, g.table.round, i, Events(log)[i]) && EventOk(b, g.table.round, j, Events(log)[j]);
      assert EventIds(g.events)[i] != EventIds(g.events)[j];
    }
  }

  lemma VisibleIsEntitled(b: Board, g: Game, log: seq<Told>, s: Seat, t: Told)
    requires Reachable(b, g) && Events(log) == g.events && s < |b.roles|
    requires t in Visible(log, b.roles[s], TeamOf(b.roles[s]).WerewolfTeam?)
    ensures Entitled(b, g.events, s, t.event.id)
  {
    hide Reachable, DeathInv, Replay, EventId, GuardIndex, EventVisible;
    EventsOf(b, g);
    var i :| 0 <= i < |log| && log[i] == t;
    assert EventOk(b, g.table.round, i, g.events[i]) && g.events[i] == t.event;
    GuardIndexTrusts(b, s);
    WitnessesAgreeExactly(GuardIndex(b), Player(s), b.roles[s], t.event.visibility);
  }

  lemma {:induction false} NarratedAre(ts: seq<Told>, t: Told)
    ensures t in Narrated(ts) <==> t in ts && t.summary != ""
  {
    if ts != [] {
      assert ts == ts[..|ts| - 1] + [ts[|ts| - 1]];
      NarratedAre(ts[..|ts| - 1], t);
    }
  }

  lemma SourcesAreEntitled(b: Board, g: Game, log: seq<Told>, s: Seat, shown: seq<Told>)
    requires Reachable(b, g) && Events(log) == g.events && s < |b.roles|
    requires forall t :: t in shown ==> t in Visible(log, b.roles[s], TeamOf(b.roles[s]).WerewolfTeam?)
    ensures forall id :: id in Ids(Narrated(shown)) ==> Entitled(b, g.events, s, id)
  {
    hide Reachable, Visible, Entitled, Narrated;
    forall id | id in Ids(Narrated(shown)) ensures Entitled(b, g.events, s, id) {
      var k :| 0 <= k < |Narrated(shown)| && Narrated(shown)[k].event.id == id;
      NarratedAre(shown, Narrated(shown)[k]);
      VisibleIsEntitled(b, g, log, s, Narrated(shown)[k]);
    }
  }

  /** In every state of every run, both renderers' sources pass the guard for the seat they are rendered for. */
  lemma PromptsPassTheGuard(b: Board, g: Game, log: seq<Told>, s: Seat, obs: Observation)
    requires Reachable(b, g) && Events(log) == g.events && SeatObservation(b, obs, s, log)
    ensures forall id :: id in Ids(Narrated(Gathered(obs, ById(log)))) ==> Entitled(b, g.events, s, id)
    ensures forall id :: id in Ids(Narrated(SortBySequence(Gathered(obs, ById(log))))) ==> Entitled(b, g.events, s, id)
  {
    hide Reachable, Visible, Gathered, ById, SortBySequence, Entitled, Narrated, WellKept, ObservationOf;
    RunLogIsWellKept(b, g, log);
    forall t ensures t in Gathered(obs, ById(log)) <==> t in Visible(log, obs.role, obs.team.WerewolfTeam?) {
      GatheredMembers(log, obs, t);
    }
    SourcesAreEntitled(b, g, log, s, Gathered(obs, ById(log)));
    SortIsFilter(log, obs);
    SourcesAreEntitled(b, g, log, s, SortBySequence(Gathered(obs, ById(log))));
  }
}
