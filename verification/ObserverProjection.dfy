/** What an observer perspective may see of players, events and private reasons. */
module ObserverProjection {
  import opened Logs
  import opened ObserverTrust
  import R = DecisionReasons

  datatype Perspective = God | PublicOnly | RoleOf(player: Name) | WolfTeam

  // ---- players ------------------------------------------------------------------------------

  datatype Standing = Full | AsPublic | AsSelf | AsHidden | AsTeam

  datatype Provenance = From(source: Source) | FromOwnKnowledge

  datatype PlayerView = PlayerView(
    player: Name, role: string, team: string, alive: Option<bool>, standing: Standing, provenance: Provenance)

  function TeamForRole(role: string): Option<string> {
    if role == "werewolf" then Some("werewolf")
    else if role == "seer" || role == "witch" || role == "villager" || role == "hunter" || role == "guard" then Some("villager")
    else None
  }

  predicate IsWerewolfRole(role: string) { TeamForRole(role) == Some("werewolf") }

  function Entry(index: SeatIndex, pid: Name): Option<SeatEntry> {
    if pid in index then Some(index[pid]) else None
  }

  function RoleLabel(e: Option<SeatEntry>): string { if e.Some? then e.value.role else UNKNOWN }

  function TeamLabel(e: Option<SeatEntry>): string { if e.Some? then e.value.team else UNKNOWN }

  function RoleSourceOf(e: Option<SeatEntry>): Source { if e.Some? then e.value.roleSource else NoSource }

  function TeamSourceOf(e: Option<SeatEntry>): Source { if e.Some? then e.value.teamSource else NoSource }

  function AliveOf(e: Option<SeatEntry>): Option<bool> { if e.Some? then Some(e.value.alive) else None }

  /** What one seat may be told of another: its role, only if the seat's own snapshot says so and it is no wolf. */
  function KnownRole(self: Option<SeatEntry>, pid: Name): string {
    if self.Some? && pid in self.value.known then
      var role := self.value.known[pid];
      if role == UNKNOWN || IsWerewolfRole(role) then UNKNOWN else role
    else UNKNOWN
  }

  function KnownTeam(role: string): string {
    if role == UNKNOWN then UNKNOWN
    else match TeamForRole(role) case Some(team) => team case None => "villager"
  }

  function ViewOf(index: SeatIndex, p: Perspective, pid: Name): PlayerView {
    var e := Entry(index, pid);
    match p
    case God => PlayerView(pid, RoleLabel(e), TeamLabel(e), AliveOf(e), Full, From(RoleSourceOf(e)))
    case PublicOnly =>
      PlayerView(pid, UNKNOWN, UNKNOWN, AliveOf(e), AsPublic, From(if e.Some? then e.value.aliveSource else NoSource))
    case RoleOf(self) =>
      if pid == self then
        PlayerView(pid, if RoleSourceOf(e).RoleProjection? then RoleLabel(e) else UNKNOWN,
                   if TeamSourceOf(e).RoleProjection? then TeamLabel(e) else UNKNOWN,
                   AliveOf(e), AsSelf, From(RoleSourceOf(e)))
      else
        var known := KnownRole(Entry(index, self), pid);
        PlayerView(pid, known, KnownTeam(known), AliveOf(e), AsHidden, FromOwnKnowledge)
    case WolfTeam =>
      var trusted := RoleSourceOf(e).RoleProjection? && TeamSourceOf(e).RoleProjection?;
      if trusted && TeamLabel(e) == "werewolf" then
        PlayerView(pid, RoleLabel(e), TeamLabel(e), AliveOf(e), AsTeam, From(RoleProjection))
      else
        PlayerView(pid, UNKNOWN, UNKNOWN, AliveOf(e), AsHidden, From(if trusted then RoleProjection else RoleSourceOf(e)))
  }

  /** The player's own snapshot vouches for its role and its team. */
  predicate Vouched(index: SeatIndex, pid: Name) {
    pid in index && index[pid].roleSource.RoleProjection? && index[pid].teamSource.RoleProjection?
  }

  /**
    What a perspective may learn from a view, and no more. The public learns no role; a seat learns its own role and team
    as far as its own snapshot vouches for them, and of others only what that snapshot says and never a wolf; the wolves
    learn of vouched-for wolves; god alone learns what only god's snapshots say.
  */
  predicate Discreet(index: SeatIndex, p: Perspective, v: PlayerView) {
    var pid := v.player;
    && (v.alive.Some? <==> pid in index) && (pid in index ==> v.alive == Some(index[pid].alive))
    && (match p
        case God =>
          && v.standing == Full
          && if pid in index then v.role == index[pid].role && v.team == index[pid].team else v.role == UNKNOWN && v.team == UNKNOWN
        case PublicOnly => v.role == UNKNOWN && v.team == UNKNOWN && v.standing == AsPublic
        case RoleOf(self) =>
          if pid == self then
            && v.standing == AsSelf
            && (v.role != UNKNOWN ==> pid in index && index[pid].roleSource.RoleProjection? && v.role == index[pid].role)
            && (v.team != UNKNOWN ==> pid in index && index[pid].teamSource.RoleProjection? && v.team == index[pid].team)
            && (Vouched(index, pid) ==> v.role == index[pid].role && v.team == index[pid].team)
          else
            && v.standing == AsHidden
            && v.team == (if v.role == UNKNOWN then UNKNOWN else "villager") && v.role != "werewolf"
            && (v.role != UNKNOWN ==> self in index && pid in index[self].known && v.role == index[self].known[pid])
            && (self in index && pid in index[self].known && index[self].known[pid] != "werewolf" ==>
                  v.role == index[self].known[pid])
        case WolfTeam =>
          if Vouched(index, pid) && index[pid].team == "werewolf" then
            v.role == index[pid].role && v.team == "werewolf" && v.standing == AsTeam
          else v.role == UNKNOWN && v.team == UNKNOWN && v.standing == AsHidden)
    && ProvenanceTells(index, p, v)
  }

  /** Where a view says it comes from: what backs the shown player's role; for the public, what backs its life. */
  predicate ProvenanceTells(index: SeatIndex, p: Perspective, v: PlayerView) {
    var pid := v.player;
    match p
    case PublicOnly => v.provenance == From(if pid in index then index[pid].aliveSource else NoSource)
    case RoleOf(self) =>
      v.provenance == if pid != self then FromOwnKnowledge else From(if pid in index then index[pid].roleSource else NoSource)
    case _ => v.provenance == From(if pid in index then index[pid].roleSource else NoSource)
  }

  lemma ViewsAreDiscreet(index: SeatIndex, p: Perspective, pid: Name)
    ensures ViewOf(index, p, pid).player == pid && Discreet(index, p, ViewOf(index, p, pid))
  {
  }

  /** A wolf shows as a wolf only to god, to itself and to the wolves' perspective. */
  lemma WolvesStayHidden(index: SeatIndex, p: Perspective, pid: Name)
    requires ViewOf(index, p, pid).team == "werewolf" || IsWerewolfRole(ViewOf(index, p, pid).role)
    ensures p.God? || p.WolfTeam? || p == RoleOf(pid)
    ensures !p.God? ==> pid in index && (index[pid].roleSource.RoleProjection? || index[pid].teamSource.RoleProjection?)
  {
    ViewsAreDiscreet(index, p, pid);
  }

  /** One view per player, in the order given: the index's sorted seats, or the six default ones. */
  method BuildPlayerProjection(index: SeatIndex, p: Perspective, players: seq<Name>) returns (views: seq<PlayerView>)
    ensures |views| == |players|
    ensures forall i :: 0 <= i < |players| ==> views[i].player == players[i] && Discreet(index, p, views[i])
    ensures forall i :: 0 <= i < |players| ==> views[i] == ViewOf(index, p, players[i])
  {
    views := [];
    for i := 0 to |players|
      invariant |views| == i && forall j :: 0 <= j < i ==> views[j] == ViewOf(index, p, players[j])
      invariant forall j :: 0 <= j < i ==> views[j].player == players[j] && Discreet(index, p, views[j])
    {
      ViewsAreDiscreet(index, p, players[i]);
      views := views + [ViewOf(index, p, players[i])];
    }
  }

  // ---- events ---------------------------------------------------------------------------------

  datatype Reason = GodReason | PublicEvent | RoleEvent(channel: Visibility) | WolfEvent | Hidden

  predicate PublicLike(v: Visibility) { v.Public? || v.Everyone? }

  /** The channels this filter opens by role; the hunter has none. */
  predicate RoleSpecific(v: Visibility) { v.SeerOnly? || v.WitchOnly? || v.GuardOnly? }

  function ChannelOf(role: string): Option<Visibility> {
    if role == "seer" then Some(SeerOnly)
    else if role == "witch" then Some(WitchOnly)
    else if role == "guard" then Some(GuardOnly)
    else None
  }

  function TrustedRole(index: SeatIndex, pid: Name): string {
    if RoleSourceOf(Entry(index, pid)).RoleProjection? then RoleLabel(Entry(index, pid)) else UNKNOWN
  }

  function TrustedTeam(index: SeatIndex, pid: Name): string {
    if TeamSourceOf(Entry(index, pid)).RoleProjection? then TeamLabel(Entry(index, pid)) else UNKNOWN
  }

  function EventVisible(v: Visibility, p: Perspective, index: SeatIndex): (bool, Reason) {
    match p
    case God => (true, GodReason)
    case PublicOnly => (PublicLike(v), PublicEvent)
    case RoleOf(self) =>
      if PublicLike(v) then (true, PublicEvent)
      else if RoleSpecific(v) then
        if ChannelOf(TrustedRole(index, self)) == Some(v) then (true, RoleEvent(v)) else (false, Hidden)
      else if v.WolvesOnly? && TrustedTeam(index, self) == "werewolf" then (true, WolfEvent)
      else (false, Hidden)
    case WolfTeam => if PublicLike(v) || v.WolvesOnly? then (true, WolfEvent) else (false, Hidden)
  }

  function Shown(events: seq<Event>, p: Perspective, index: SeatIndex): (shown: seq<Event>)
    ensures forall e :: e in shown <==> e in events && EventVisible(e.visibility, p, index).0
  {
    if events == [] then []
    else
      var init, last := events[..|events| - 1], events[|events| - 1];
      assert forall e :: e in events <==> e in init || e == last;
      if EventVisible(last.visibility, p, index).0 then Shown(init, p, index) + [last] else Shown(init, p, index)
  }

  function CountReason(events: seq<Event>, p: Perspective, index: SeatIndex, r: Reason): nat {
    if events == [] then 0
    else
      CountReason(events[..|events| - 1], p, index, r) +
      if ReasonTells(events[|events| - 1].visibility, p, index, r) then 1 else 0
  }

  lemma NothingShown(p: Perspective, index: SeatIndex)
    ensures Shown([], p, index) == [] && ReasonsCounted(map[], [], p, index)
  {
  }

  lemma ShownSnoc(events: seq<Event>, e: Event, p: Perspective, index: SeatIndex)
    ensures Shown(events + [e], p, index) ==
            Shown(events, p, index) + if EventVisible(e.visibility, p, index).0 then [e] else []
  {
    hide EventVisible;
    assert (events + [e])[..|events|] == events;
  }

  ghost predicate ReasonsCounted(reasons: map<Reason, nat>, events: seq<Event>, p: Perspective, index: SeatIndex) {
    forall r :: (if r in reasons then reasons[r] else 0) == CountReason(events, p, index, r)
  }

  lemma OneMoreReason(reasons: map<Reason, nat>, events: seq<Event>, e: Event, p: Perspective, index: SeatIndex)
    requires ReasonsCounted(reasons, events, p, index)
    ensures var reason := EventVisible(e.visibility, p, index).1;
            ReasonsCounted(reasons[reason := (if reason in reasons then reasons[reason] else 0) + 1], events + [e], p, index)
  {
    hide EventVisible, ReasonTells;
    assert (events + [e])[..|events|] == events;
    ReasonExactly(e.visibility, p, index);
  }

  // ---- who sees which channel -------------------------------------------------------------------

  /** The player's own snapshot says it has this role. */
  predicate KnownAs(index: SeatIndex, pid: Name, role: string) {
    pid in index && index[pid].roleSource.RoleProjection? && index[pid].role == role
  }

  /** God sees everything; the public what is meant for everybody; the wolves also their own channel; a seat also the
      channel of the role, and of the wolf team, that its own snapshot vouches for. */
  predicate MaySee(v: Visibility, p: Perspective, index: SeatIndex) {
    match p
    case God => true
    case PublicOnly => v == Public || v == Everyone
    case WolfTeam => v == Public || v == Everyone || v == WolvesOnly
    case RoleOf(self) =>
      || v == Public || v == Everyone
      || (v == SeerOnly && KnownAs(index, self, "seer"))
      || (v == WitchOnly && KnownAs(index, self, "witch"))
      || (v == GuardOnly && KnownAs(index, self, "guard"))
      || (v == WolvesOnly && self in index && index[self].teamSource.RoleProjection? && index[self].team == "werewolf")
  }

  lemma VisibleExactly(v: Visibility, p: Perspective, index: SeatIndex)
    ensures EventVisible(v, p, index).0 <==> MaySee(v, p, index)
  {
  }

  /** The events of the list that may be seen, in order. */
  function Entitled(events: seq<Event>, p: Perspective, index: SeatIndex): seq<Event> {
    if events == [] then []
    else
      Entitled(events[..|events| - 1], p, index) +
      if MaySee(events[|events| - 1].visibility, p, index) then [events[|events| - 1]] else []
  }

  lemma {:induction false} EntitledExactly(events: seq<Event>, p: Perspective, index: SeatIndex)
    ensures forall e :: e in Entitled(events, p, index) <==> e in events && MaySee(e.visibility, p, index)
  {
    if events != [] {
      var init, last := events[..|events| - 1], events[|events| - 1];
      assert forall e :: e in events <==> e in init || e == last;
      hide MaySee;
      EntitledExactly(init, p, index);
    }
  }

  lemma {:induction false} ShownExactly(events: seq<Event>, p: Perspective, index: SeatIndex)
    ensures Shown(events, p, index) == Entitled(events, p, index)
  {
    if events != [] {
      hide EventVisible, MaySee;
      VisibleExactly(events[|events| - 1].visibility, p, index);
      ShownExactly(events[..|events| - 1], p, index);
    }
  }

  /** For which reason an event is shown or hidden, which is just one: the public perspective has no other. */
  predicate ReasonTells(v: Visibility, p: Perspective, index: SeatIndex, r: Reason) {
    match p
    case God => r.GodReason?
    case PublicOnly => r.PublicEvent?
    case WolfTeam => if MaySee(v, p, index) then r.WolfEvent? else r.Hidden?
    case RoleOf(_) =>
      if !MaySee(v, p, index) then r.Hidden?
      else if v == Public || v == Everyone then r.PublicEvent?
      else if v == WolvesOnly then r.WolfEvent?
      else r == RoleEvent(v)
  }

  lemma ReasonExactly(v: Visibility, p: Perspective, index: SeatIndex)
    ensures forall r :: ReasonTells(v, p, index, r) <==> r == EventVisible(v, p, index).1
  {
  }

  /** The events a perspective sees, in order; shown and hidden together are all of them, each counted under its reason. */
  method ProjectEvents(events: seq<Event>, p: Perspective, index: SeatIndex)
    returns (visible: seq<Event>, hidden: nat, reasons: map<Reason, nat>)
    ensures visible == Shown(events, p, index) && |visible| + hidden == |events|
    ensures visible == Entitled(events, p, index)
    ensures forall e :: e in visible <==> e in events && MaySee(e.visibility, p, index)
    ensures ReasonsCounted(reasons, events, p, index)
  {
    visible, hidden, reasons := [], 0, map[];
    ProjectedStart(events, p, index);
    for i := 0 to |events|
      invariant Projected(events, i, visible, hidden, reasons, p, index)
    {
      hide *;
      var (sees, reason) := EventVisible(events[i].visibility, p, index);
      ProjectedNext(events, i, visible, hidden, reasons, p, index);
      if sees {
        visible := visible + [events[i]];
      } else {
        hidden := hidden + 1;
      }
      reasons := reasons[reason := (if reason in reasons then reasons[reason] else 0) + 1];
    }
    assert events[..|events|] == events;
    hide Shown, CountReason, EventVisible, ReasonsCounted, MaySee, Entitled;
    ShownExactly(events, p, index);
    EntitledExactly(events, p, index);
  }

  /** What has been shown, hidden and counted of the first n events. */
  ghost predicate Projected(events: seq<Event>, n: nat, visible: seq<Event>, hidden: nat, reasons: map<Reason, nat>,
                            p: Perspective, index: SeatIndex) {
    && n <= |events| && visible == Shown(events[..n], p, index) && |visible| + hidden == n
    && ReasonsCounted(reasons, events[..n], p, index)
  }

  lemma ProjectedStart(events: seq<Event>, p: Perspective, index: SeatIndex)
    ensures Projected(events, 0, [], 0, map[], p, index)
  {
    NothingShown(p, index);
    assert events[..0] == [];
  }

  lemma ProjectedNext(events: seq<Event>, i: nat, visible: seq<Event>, hidden: nat, reasons: map<Reason, nat>,
                      p: Perspective, index: SeatIndex)
    requires i < |events| && Projected(events, i, visible, hidden, reasons, p, index)
    ensures var (sees, reason) := EventVisible(events[i].visibility, p, index);
            var reasons' := reasons[reason := (if reason in reasons then reasons[reason] else 0) + 1];
            if sees then Projected(events, i + 1, visible + [events[i]], hidden, reasons', p, index)
            else Projected(events, i + 1, visible, hidden + 1, reasons', p, index)
  {
    hide Shown, ReasonsCounted, EventVisible;
    assert events[..i + 1] == events[..i] + [events[i]];
    ShownSnoc(events[..i], events[i], p, index);
    OneMoreReason(reasons, events[..i], events[i], p, index);
  }

  // ---- private reasons -----------------------------------------------------------------------------

  /** A reason is private strategy: only god and the deciding player read it, whoever saw the event. */
  method EnrichEvents(visible: seq<Event>, reasons: map<string, R.Attachment>, p: Perspective)
    returns (attached: seq<Option<R.Attachment>>)
    ensures |attached| == |visible|
    ensures forall i :: 0 <= i < |visible| ==>
              attached[i] == if visible[i].id in reasons && (p == God || p == RoleOf(reasons[visible[i].id].actor))
                             then Some(reasons[visible[i].id]) else None
  {
    attached := [];
    for i := 0 to |visible|
      invariant |attached| == i
      invariant forall j :: 0 <= j < i ==>
                  attached[j] == if visible[j].id in reasons && (p == God || p == RoleOf(reasons[visible[j].id].actor))
                                 then Some(reasons[visible[j].id]) else None
    {
      var next: Option<R.Attachment> := None;
      if visible[i].id in reasons {
        var a := reasons[visible[i].id];
        if p.God? || (p.RoleOf? && p.player == a.actor) {
          next := Some(a);
        }
      }
      attached := attached + [next];
    }
  }
}
