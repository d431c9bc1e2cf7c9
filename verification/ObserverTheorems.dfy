/** The observer's filter against the engine's own rule, and what it never lets through. */
module ObserverTheorems {
  import opened Logs
  import opened Rules
  import opened Referee
  import opened LogInvariants
  import opened RunTheorems
  import opened GameLogCheck
  import opened RoleVisibility
  import opened ObserverTrust
  import opened ObserverProjection

  function RoleText(r: Role): string {
    match r
    case Werewolf => "werewolf"
    case Seer => "seer"
    case Witch => "witch"
    case Villager => "villager"
    case Hunter => "hunter"
    case Guard => "guard"
  }

  function TeamText(t: Team): string {
    match t
    case WerewolfTeam => "werewolf"
    case VillagerTeam => "villager"
    case OtherTeam(text) => text
  }

  /** The index holds the seat's real role and team, vouched for by the seat's own snapshot. */
  predicate TrustedSeat(index: SeatIndex, pid: Name, role: Role) {
    && pid in index && index[pid].role == RoleText(role) && index[pid].team == TeamText(TeamOf(role))
    && index[pid].roleSource.RoleProjection? && index[pid].teamSource.RoleProjection?
  }

  predicate EngineShows(v: Visibility, role: Role) {
    IsPublic(v) || PrivatelySees(v, role, TeamOf(role).WerewolfTeam?)
  }

  /**
    The observer's filter for a trusted seat and the engine's rule agree on a visibility exactly when it is not the
    channel of a role for which the observer has none.
  */
  lemma WitnessesAgreeExactly(index: SeatIndex, pid: Name, role: Role, v: Visibility)
    requires TrustedSeat(index, pid, role)
    ensures EventVisible(v, RoleOf(pid), index).0 == EngineShows(v, role) <==> !(v == OwnChannel(role) && !RoleSpecific(v))
  {
  }

  /** The engine puts this event into the seat's public or private references. */
  predicate Referenced(events: seq<Event>, role: Role, e: Event) {
    e.id in PublicRefs(events) || e.id in PrivateRefs(events, role, TeamOf(role).WerewolfTeam?)
  }

  /** When an id names one event, a reference to it means the engine shows that event, and conversely. */
  lemma ReferencedExactly(events: seq<Event>, role: Role, e: Event)
    requires e in events && Distinct(EventIds(events))
    ensures Referenced(events, role, e) <==> EngineShows(e.visibility, role)
  {
    PublicRefsExactly(events, e.id);
    PrivateRefsExactly(events, role, TeamOf(role).WerewolfTeam?, e.id);
    var i :| 0 <= i < |events| && events[i] == e;
    forall j | 0 <= j < |events| && events[j].id == e.id ensures events[j] == e {
      assert EventIds(events)[i] == EventIds(events)[j];
    }
  }

  /** The two never disagree over a log a run wrote: the seat is shown exactly the events in its reference lists. */
  lemma WitnessesAgreeOnRuns(b: Board, g: Game, index: SeatIndex, s: Seat, e: Event)
    requires Reachable(b, g) && s < |b.roles| && TrustedSeat(index, Player(s), b.roles[s])
    ensures e in Shown(g.events, RoleOf(Player(s)), index) <==> e in g.events && EngineShows(e.visibility, b.roles[s])
    ensures e in g.events ==>
              (e in Shown(g.events, RoleOf(Player(s)), index) <==>
                 e.id in PublicRefs(g.events)
                 || e.id in PrivateRefs(g.events, b.roles[s], TeamOf(b.roles[s]).WerewolfTeam?))
  {
    hide Reachable, DeathInv, Replay, EventId, Distinct;
    EventsOf(b, g);
    if e in g.events {
      var i :| 0 <= i < |g.events| && g.events[i] == e;
      assert EventOk(b, g.table.round, i, e);
      WitnessesAgreeExactly(index, Player(s), b.roles[s], e.visibility);
      EventIdsDistinct(b, g);
      ReferencedExactly(g.events, b.roles[s], e);
    }
  }

  /** The role whose night deed an event tells of, if any. */
  function DutyOf(k: EventKind): Option<Role> {
    match k
    case GuardProtect => Some(Guard)
    case WerewolfKill => Some(Werewolf)
    case SeerCheck => Some(Seer)
    case WitchSave | WitchPoison | WitchPass => Some(Witch)
    case _ => None
  }

  /**
    What each perspective sees of any run: god everything, the public all but the night's deeds, the wolves also the kills,
    and a seat that its own snapshot vouches for also the deeds of its own role.
  */
  lemma RunsAreShownExactly(b: Board, g: Game, index: SeatIndex, e: Event)
    requires Reachable(b, g) && e in g.events
    ensures e in Entitled(g.events, God, index)
    ensures e in Entitled(g.events, PublicOnly, index) <==> DutyOf(e.kind) == None
    ensures e in Entitled(g.events, WolfTeam, index) <==> DutyOf(e.kind) == None || DutyOf(e.kind) == Some(Werewolf)
    ensures forall s: Seat :: s < |b.roles| && TrustedSeat(index, Player(s), b.roles[s]) ==>
              (e in Entitled(g.events, RoleOf(Player(s)), index) <==>
                 DutyOf(e.kind) == None || DutyOf(e.kind) == Some(b.roles[s]))
  {
    OnChannel(b, g, e);
    hide Reachable, Entitled, MaySee, OnItsChannel, TrustedSeat;
    DutyShows(index, e);
    EntitledExactly(g.events, God, index);
    EntitledExactly(g.events, PublicOnly, index);
    EntitledExactly(g.events, WolfTeam, index);
    forall s: Seat | s < |b.roles| && TrustedSeat(index, Player(s), b.roles[s])
      ensures e in Entitled(g.events, RoleOf(Player(s)), index) <==>
                DutyOf(e.kind) == None || DutyOf(e.kind) == Some(b.roles[s])
    {
      DutyShowsSeat(index, e, Player(s), b.roles[s]);
      EntitledExactly(g.events, RoleOf(Player(s)), index);
    }
  }

  lemma OnChannel(b: Board, g: Game, e: Event)
    requires Reachable(b, g) && e in g.events
    ensures OnItsChannel(e)
  {
    hide Reachable, DeathInv, Replay, EventId, OnItsChannel;
    EventsOf(b, g);
    var i :| 0 <= i < |g.events| && g.events[i] == e;
    assert EventOk(b, g.table.round, i, e);
  }

  lemma DutyShows(index: SeatIndex, e: Event)
    requires OnItsChannel(e)
    ensures MaySee(e.visibility, God, index)
    ensures MaySee(e.visibility, PublicOnly, index) <==> DutyOf(e.kind) == None
    ensures MaySee(e.visibility, WolfTeam, index) <==> DutyOf(e.kind) == None || DutyOf(e.kind) == Some(Werewolf)
  {
  }

  lemma DutyShowsSeat(index: SeatIndex, e: Event, pid: Name, role: Role)
    requires OnItsChannel(e) && TrustedSeat(index, pid, role)
    ensures MaySee(e.visibility, RoleOf(pid), index) <==> DutyOf(e.kind) == None || DutyOf(e.kind) == Some(role)
  {
  }

  // ---- what god knows stays with god -----------------------------------------------------------

  predicate SameButRoles(p: GodPlayer, q: GodPlayer) { p.id == q.id }

  predicate SameButGodRoles(s: Snapshot, t: Snapshot) {
    if s.GodSnapshot? then
      && t.GodSnapshot? && t.round == s.round && t.phase == s.phase && t.alive == s.alive && |t.players| == |s.players|
      && forall k :: 0 <= k < |s.players| ==> SameButRoles(s.players[k], t.players[k])
    else t == s
  }

  /** The same snapshots, except that god's may say anything about roles and teams. */
  predicate OnlyGodRolesDiffer(a: seq<Snapshot>, b: seq<Snapshot>) {
    |a| == |b| && forall i :: 0 <= i < |a| ==> SameButGodRoles(a[i], b[i])
  }

  lemma {:induction false} OwnUnchanged(a: seq<Snapshot>, b: seq<Snapshot>, pid: Name)
    requires OnlyGodRolesDiffer(a, b)
    ensures LatestOwn(a, pid) == LatestOwn(b, pid)
  {
    if a != [] {
      var a', b' := a[..|a| - 1], b[..|b| - 1];
      assert forall i :: 0 <= i < |a'| ==> a'[i] == a[i] && b'[i] == b[i];
      OwnUnchanged(a', b', pid);
    }
  }

  predicate SameListing(x: Option<Snapshot>, y: Option<Snapshot>) {
    && (x.Some? <==> y.Some?)
    && (x.Some? ==> x.value.GodSnapshot? && y.value.GodSnapshot? && x.value.alive == y.value.alive
                    && x.value.round == y.value.round && x.value.phase == y.value.phase)
  }

  lemma OneMoreGod(ga: seq<Snapshot>, gb: seq<Snapshot>, s: Snapshot, t: Snapshot)
    requires SameListing(LatestGod(ga), LatestGod(gb)) && s.GodSnapshot? && SameButGodRoles(s, t)
    ensures SameListing(LatestGod(ga + [s]), LatestGod(gb + [t]))
  {
    hide LatestGod;
    LatestSnoc(ga, s);
    LatestSnoc(gb, t);
  }

  lemma InitDiffers(a: seq<Snapshot>, b: seq<Snapshot>)
    requires OnlyGodRolesDiffer(a, b) && a != []
    ensures OnlyGodRolesDiffer(a[..|a| - 1], b[..|b| - 1]) && SameButGodRoles(a[|a| - 1], b[|b| - 1])
    ensures a == a[..|a| - 1] + [a[|a| - 1]] && b == b[..|b| - 1] + [b[|b| - 1]]
  {
  }

  lemma {:induction false} LivingUnchanged(a: seq<Snapshot>, b: seq<Snapshot>)
    requires OnlyGodRolesDiffer(a, b)
    ensures SameListing(LatestGod(GodsOf(a)), LatestGod(GodsOf(b)))
  {
    if a == [] {
      assert LatestGod(GodsOf(a)) == None;
    } else {
      InitDiffers(a, b);
      LivingUnchanged(a[..|a| - 1], b[..|b| - 1]);
      LastSnapshot(a[..|a| - 1], b[..|b| - 1], a[|a| - 1], b[|b| - 1]);
    }
  }

  lemma LastSnapshot(a: seq<Snapshot>, b: seq<Snapshot>, s: Snapshot, t: Snapshot)
    requires SameListing(LatestGod(GodsOf(a)), LatestGod(GodsOf(b))) && SameButGodRoles(s, t)
    ensures SameListing(LatestGod(GodsOf(a + [s])), LatestGod(GodsOf(b + [t])))
  {
    hide GodsOf, LatestGod, SameListing;
    GodsSnoc(a, s);
    GodsSnoc(b, t);
    if s.GodSnapshot? {
      OneMoreGod(GodsOf(a), GodsOf(b), s, t);
    }
  }

  lemma LatestSnoc(gods: seq<Snapshot>, s: Snapshot)
    requires s.GodSnapshot?
    ensures LatestGod(gods + [s]) ==
            if s.alive.AliveList? && (LatestGod(gods).None? || NotBefore(s, LatestGod(gods).value)) then Some(s)
            else LatestGod(gods)
  {
    assert (gods + [s])[..|gods|] == gods;
  }

  lemma MentionsUnchanged(a: seq<Snapshot>, b: seq<Snapshot>, pid: Name)
    requires OnlyGodRolesDiffer(a, b)
    ensures Mentioned(a, pid) <==> Mentioned(b, pid)
  {
    if i :| 0 <= i < |a| && Mentions(a[i], pid) { SameMentions(a[i], b[i], pid); }
    if i :| 0 <= i < |b| && Mentions(b[i], pid) { SameMentions(a[i], b[i], pid); }
  }

  lemma SameMentions(s: Snapshot, t: Snapshot, pid: Name)
    requires SameButGodRoles(s, t)
    ensures Mentions(s, pid) <==> Mentions(t, pid)
  {
    if s.GodSnapshot? {
      if i :| 0 <= i < |s.players| && s.players[i].id == pid { assert t.players[i].id == pid; }
      if i :| 0 <= i < |t.players| && t.players[i].id == pid { assert s.players[i].id == pid; }
    }
  }

  /** Two entries that agree on everything a seat's own snapshot vouches for, and on who lives. */
  predicate SameTrusted(x: SeatEntry, y: SeatEntry) {
    && x.alive == y.alive && x.known == y.known
    && (x.roleSource.RoleProjection? <==> y.roleSource.RoleProjection?)
    && (x.teamSource.RoleProjection? <==> y.teamSource.RoleProjection?)
    && (x.roleSource.RoleProjection? ==> x.role == y.role)
    && (x.teamSource.RoleProjection? ==> x.team == y.team)
  }

  lemma EntriesSameTrusted(a: seq<Snapshot>, b: seq<Snapshot>, pid: Name)
    requires OnlyGodRolesDiffer(a, b)
    ensures SameTrusted(EntryFor(a, pid), EntryFor(b, pid))
  {
    hide LatestOwn, LatestGod, GodsOf, EntryOf, OnlyGodRolesDiffer;
    OwnUnchanged(a, b, pid);
    LivingUnchanged(a, b);
    EntryOfSame(LatestOwn(a, pid), GodsOf(a), GodsOf(b), LatestGod(GodsOf(a)), LatestGod(GodsOf(b)), pid);
  }

  lemma EntryOfSame(own: Option<Snapshot>, ga: seq<Snapshot>, gb: seq<Snapshot>, x: Option<Snapshot>, y: Option<Snapshot>,
                    pid: Name)
    requires own.Some? ==> own.value.RoleSnapshot?
    requires x.Some? ==> x.value.GodSnapshot? && x.value.alive.AliveList?
    requires y.Some? ==> y.value.GodSnapshot? && y.value.alive.AliveList?
    requires SameListing(x, y)
    ensures SameTrusted(EntryOf(own, ga, x, pid), EntryOf(own, gb, y, pid))
  {
    hide FromGod;
  }

  /** Whatever god's snapshots say about roles and teams, no other perspective's display changes. */
  lemma GodsKnowledgeStaysWithGod(a: seq<Snapshot>, b: seq<Snapshot>, x: SeatIndex, y: SeatIndex, p: Perspective, pid: Name)
    requires OnlyGodRolesDiffer(a, b) && !p.God?
    requires forall q :: q in x <==> Mentioned(a, q)
    requires forall q :: q in y <==> Mentioned(b, q)
    requires forall q :: q in x ==> x[q] == EntryFor(a, q)
    requires forall q :: q in y ==> y[q] == EntryFor(b, q)
    ensures var v, w := ViewOf(x, p, pid), ViewOf(y, p, pid);
            v.role == w.role && v.team == w.team && v.alive == w.alive && v.standing == w.standing
  {
    hide EntryFor, Mentioned, OnlyGodRolesDiffer;
    MentionsUnchanged(a, b, pid);
    EntriesSameTrusted(a, b, pid);
    if p.RoleOf? {
      MentionsUnchanged(a, b, p.player);
      EntriesSameTrusted(a, b, p.player);
    }
  }
}
