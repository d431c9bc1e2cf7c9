/** Which snapshot backs what the observer says about a seat. */
module ObserverTrust {
  import opened Logs

  datatype AliveField = NoAlive | MalformedAlive | AliveList(ids: seq<Name>)

  datatype GodPlayer = GodPlayer(id: Name, role: Option<string>, team: Option<string>)

  datatype Snapshot =
    | RoleSnapshot(player: Name, round: int, phase: string, role: string, team: string, alive: AliveField,
                   known: map<Name, string>)
    | GodSnapshot(round: int, phase: string, players: seq<GodPlayer>, alive: AliveField)
    | OtherSnapshot

  datatype Source = RoleProjection | GodView | NoSource

  datatype SeatEntry = SeatEntry(
    role: string, roleSource: Source, team: string, teamSource: Source, alive: bool, aliveSource: Source,
    known: map<Name, string>)

  type SeatIndex = map<Name, SeatEntry>

  const UNKNOWN: string := "unknown"

  const NOBODY_ID: Name := OtherName("")

  function PhaseRank(phase: string): nat {
    if phase == "setup" then 0
    else if phase == "night" then 1
    else if phase == "day" then 2
    else if phase == "vote" || phase == "voting" then 3
    else if phase == "game_end" || phase == "result" then 4
    else 1
  }

  /** Not older in game time. */
  predicate NotBefore(s: Snapshot, t: Snapshot)
    requires !s.OtherSnapshot? && !t.OtherSnapshot?
  {
    s.round > t.round || (s.round == t.round && PhaseRank(s.phase) >= PhaseRank(t.phase))
  }

  /** Time is counted in rounds, and within a round from the setup over the night, the day and the vote to the result. */
  lemma TimeRuns(s: Snapshot, t: Snapshot)
    requires !s.OtherSnapshot? && !t.OtherSnapshot?
    ensures s.round != t.round ==> (NotBefore(s, t) <==> s.round > t.round)
    ensures s.round == t.round && s.phase == t.phase ==> NotBefore(s, t)
    ensures s.round == t.round && NotBefore(s, t) && NotBefore(t, s) ==> PhaseRank(s.phase) == PhaseRank(t.phase)
    ensures s.round == t.round && NotBefore(t, s) && s.phase in {"game_end", "result"} ==> t.phase in {"game_end", "result"}
    ensures s.round == t.round && NotBefore(t, s) && s.phase in {"vote", "voting"} ==>
              t.phase in {"vote", "voting", "game_end", "result"}
    ensures s.round == t.round && NotBefore(t, s) && s.phase == "day" ==>
              t.phase in {"day", "vote", "voting", "game_end", "result"}
    ensures s.round == t.round && NotBefore(t, s) && s.phase != "setup" ==> t.phase != "setup"
  {
  }

  // ---- what each loop of the builder collects -------------------------------------------------

  predicate IsOwn(s: Snapshot, pid: Name) { s.RoleSnapshot? && s.player == pid && pid != NOBODY_ID }

  /** A player's latest own snapshot; among equals the one listed last. */
  function LatestOwn(snaps: seq<Snapshot>, pid: Name): (latest: Option<Snapshot>)
    ensures latest.Some? ==> IsOwn(latest.value, pid)
  {
    if snaps == [] then None
    else
      var last, before := snaps[|snaps| - 1], LatestOwn(snaps[..|snaps| - 1], pid);
      if IsOwn(last, pid) && (before.None? || NotBefore(last, before.value)) then Some(last) else before
  }

  function GodsOf(snaps: seq<Snapshot>): (gods: seq<Snapshot>)
    ensures forall s :: s in gods <==> s in snaps && s.GodSnapshot?
  {
    if snaps == [] then []
    else
      var init, last := snaps[..|snaps| - 1], snaps[|snaps| - 1];
      assert forall s :: s in snaps <==> s in init || s == last;
      if last.GodSnapshot? then GodsOf(init) + [last] else GodsOf(init)
  }

  /** The latest god snapshot that lists the living. */
  function LatestGod(gods: seq<Snapshot>): (latest: Option<Snapshot>)
    ensures latest.Some? ==> latest.value.GodSnapshot? && latest.value.alive.AliveList? && latest.value in gods
  {
    if gods == [] then None
    else
      var last, before := gods[|gods| - 1], LatestGod(gods[..|gods| - 1]);
      if last.GodSnapshot? && last.alive.AliveList? && (before.None? || NotBefore(last, before.value)) then Some(last)
      else before
  }

  function FirstNamed(players: seq<GodPlayer>, pid: Name, field: GodPlayer -> Option<string>): Option<string> {
    if players == [] then None
    else if players[0].id == pid && field(players[0]).Some? then field(players[0])
    else FirstNamed(players[1..], pid, field)
  }

  /** The first god snapshot that says something about this player's role or team. */
  function FromGod(gods: seq<Snapshot>, pid: Name, field: GodPlayer -> Option<string>): Option<string> {
    if gods == [] then None
    else if gods[0].GodSnapshot? && FirstNamed(gods[0].players, pid, field).Some? then FirstNamed(gods[0].players, pid, field)
    else FromGod(gods[1..], pid, field)
  }

  function RoleField(): GodPlayer -> Option<string> { (p: GodPlayer) => p.role }

  function TeamField(): GodPlayer -> Option<string> { (p: GodPlayer) => p.team }

  /** Who the snapshots mention. */
  predicate Mentions(s: Snapshot, pid: Name) {
    match s
    case RoleSnapshot(player, _, _, _, _, _, _) => player == pid && pid != NOBODY_ID
    case GodSnapshot(_, _, players, alive) =>
      || (pid != NOBODY_ID && exists i :: 0 <= i < |players| && players[i].id == pid)
      || (alive.AliveList? && pid in alive.ids)
    case OtherSnapshot => false
  }

  predicate Mentioned(snaps: seq<Snapshot>, pid: Name) {
    exists i :: 0 <= i < |snaps| && Mentions(snaps[i], pid)
  }

  /** The entry of one player, from their own latest snapshot and the god snapshots. */
  function EntryOf(own: Option<Snapshot>, gods: seq<Snapshot>, latest: Option<Snapshot>, pid: Name): SeatEntry
    requires own.Some? ==> own.value.RoleSnapshot?
    requires latest.Some? ==> latest.value.GodSnapshot? && latest.value.alive.AliveList?
  {
    var godRole, godTeam := FromGod(gods, pid, RoleField()), FromGod(gods, pid, TeamField());
    var (role, roleSource) :=
      if own.Some? then (own.value.role, RoleProjection)
      else if godRole.Some? then (godRole.value, GodView)
      else (UNKNOWN, NoSource);
    var (team, teamSource) :=
      if own.Some? then (own.value.team, RoleProjection)
      else if godTeam.Some? then (godTeam.value, GodView)
      else (UNKNOWN, NoSource);
    var (alive, aliveSource) :=
      if latest.Some? then (pid in latest.value.alive.ids, GodView)
      else if own.Some? && !own.value.alive.MalformedAlive? then
        (own.value.alive.AliveList? && pid in own.value.alive.ids, RoleProjection)
      else (true, NoSource);
    SeatEntry(role, roleSource, team, teamSource, alive, aliveSource, if own.Some? then own.value.known else map[])
  }

  function EntryFor(snaps: seq<Snapshot>, pid: Name): SeatEntry {
    EntryOf(LatestOwn(snaps, pid), GodsOf(snaps), LatestGod(GodsOf(snaps)), pid)
  }

  // ---- the builder ------------------------------------------------------------------------------

  function MentionedBy(s: Snapshot): (ids: set<Name>)
    ensures forall pid :: pid in ids <==> Mentions(s, pid)
  {
    match s
    case RoleSnapshot(player, _, _, _, _, _, _) => if player != NOBODY_ID then {player} else {}
    case GodSnapshot(_, _, players, alive) =>
      (set i | 0 <= i < |players| && players[i].id != NOBODY_ID :: players[i].id) +
      (if alive.AliveList? then set pid | pid in alive.ids else {})
    case OtherSnapshot => {}
  }

  method Collect(snaps: seq<Snapshot>) returns (owns: map<Name, Snapshot>, gods: seq<Snapshot>, ids: set<Name>)
    ensures forall pid :: pid in owns <==> LatestOwn(snaps, pid).Some?
    ensures forall pid :: pid in owns ==> LatestOwn(snaps, pid) == Some(owns[pid])
    ensures gods == GodsOf(snaps) && forall pid :: pid in ids <==> Mentioned(snaps, pid)
  {
    owns, gods, ids := map[], [], {};
    for i := 0 to |snaps|
      invariant forall pid :: pid in owns <==> LatestOwn(snaps[..i], pid).Some?
      invariant forall pid :: pid in owns ==> LatestOwn(snaps[..i], pid) == Some(owns[pid])
      invariant gods == GodsOf(snaps[..i]) && forall pid :: pid in ids <==> Mentioned(snaps[..i], pid)
    {
      hide GodsOf, LatestOwn, Mentioned, Mentions;
      var s := snaps[i];
      assert snaps[..i + 1] == snaps[..i] + [s];
      GodsSnoc(snaps[..i], s);
      forall pid ensures Mentioned(snaps[..i + 1], pid) <==> Mentioned(snaps[..i], pid) || Mentions(s, pid) {
        MentionedSnoc(snaps[..i], s, pid);
      }
      forall pid ensures LatestOwn(snaps[..i + 1], pid) == NextOwn(LatestOwn(snaps[..i], pid), s, pid) {
        OwnSnoc(snaps[..i], s, pid);
      }
      ids := ids + MentionedBy(s);
      if s.GodSnapshot? {
        gods := gods + [s];
      } else if s.RoleSnapshot? && s.player != NOBODY_ID {
        if s.player !in owns || NotBefore(s, owns[s.player]) {
          owns := owns[s.player := s];
        }
      }
    }
    assert snaps[..|snaps|] == snaps;
  }

  function NextOwn(before: Option<Snapshot>, s: Snapshot, pid: Name): Option<Snapshot>
    requires before.Some? ==> IsOwn(before.value, pid)
  {
    if IsOwn(s, pid) && (before.None? || NotBefore(s, before.value)) then Some(s) else before
  }

  lemma OwnSnoc(snaps: seq<Snapshot>, s: Snapshot, pid: Name)
    ensures LatestOwn(snaps + [s], pid) == NextOwn(LatestOwn(snaps, pid), s, pid)
  {
    assert (snaps + [s])[..|snaps|] == snaps;
  }

  lemma GodsSnoc(snaps: seq<Snapshot>, s: Snapshot)
    ensures GodsOf(snaps + [s]) == if s.GodSnapshot? then GodsOf(snaps) + [s] else GodsOf(snaps)
  {
    assert (snaps + [s])[..|snaps|] == snaps;
  }

  lemma MentionedSnoc(snaps: seq<Snapshot>, s: Snapshot, pid: Name)
    ensures Mentioned(snaps + [s], pid) <==> Mentioned(snaps, pid) || Mentions(s, pid)
  {
    hide Mentions;
    var all := snaps + [s];
    assert all[|snaps|] == s;
    if i :| 0 <= i < |snaps| && Mentions(snaps[i], pid) { assert all[i] == snaps[i]; }
    if i :| 0 <= i < |all| && Mentions(all[i], pid) { assert i == |snaps| || all[i] == snaps[i]; }
  }

  /** The latest listing of the living, kept while the god snapshots go by. */
  method FindLatestGod(gods: seq<Snapshot>) returns (latest: Option<Snapshot>)
    requires forall s :: s in gods ==> s.GodSnapshot?
    ensures latest == LatestGod(gods)
  {
    latest := None;
    for i := 0 to |gods|
      invariant latest == LatestGod(gods[..i])
    {
      assert gods[i] in gods && gods[..i + 1][..i] == gods[..i];
      if gods[i].alive.AliveList? && (latest.None? || NotBefore(gods[i], latest.value)) {
        latest := Some(gods[i]);
      }
    }
    assert gods[..|gods|] == gods;
  }

  // ---- the living come from the latest god snapshot, however the files are listed -----------------------

  predicate ListsLiving(s: Snapshot) { s.GodSnapshot? && s.alive.AliveList? }

  predicate SameTime(s: Snapshot, t: Snapshot)
    requires s.GodSnapshot? && t.GodSnapshot?
  {
    s.round == t.round && PhaseRank(s.phase) == PhaseRank(t.phase)
  }

  /** The authority on who lives is not older than any snapshot that lists the living. */
  lemma {:induction false} LatestGodIsLatest(gods: seq<Snapshot>, s: Snapshot)
    requires s in gods && ListsLiving(s)
    ensures LatestGod(gods).Some? && NotBefore(LatestGod(gods).value, s)
  {
    var init, last := gods[..|gods| - 1], gods[|gods| - 1];
    assert gods == init + [last];
    if s in init {
      LatestGodIsLatest(init, s);
    }
  }

  /** A seat's own snapshot is not older than any other of its own. */
  lemma {:induction false} LatestOwnIsLatest(snaps: seq<Snapshot>, pid: Name, s: Snapshot)
    requires s in snaps && IsOwn(s, pid)
    ensures LatestOwn(snaps, pid).Some? && NotBefore(LatestOwn(snaps, pid).value, s)
  {
    var init, last := snaps[..|snaps| - 1], snaps[|snaps| - 1];
    assert snaps == init + [last];
    if s in init {
      LatestOwnIsLatest(init, pid, s);
    }
  }

  lemma {:induction false} LatestOwnIsListed(snaps: seq<Snapshot>, pid: Name)
    ensures LatestOwn(snaps, pid).Some? ==> LatestOwn(snaps, pid).value in snaps
  {
    if snaps != [] {
      LatestOwnIsListed(snaps[..|snaps| - 1], pid);
    }
  }

  /** No two of this seat's own snapshots carry the same time. */
  predicate OwnTimesDiffer(snaps: seq<Snapshot>, pid: Name) {
    forall s, t :: s in snaps && t in snaps && IsOwn(s, pid) && IsOwn(t, pid) && NotBefore(s, t) && NotBefore(t, s) ==> s == t
  }

  lemma OwnOrderIsIrrelevant(a: seq<Snapshot>, b: seq<Snapshot>, pid: Name)
    requires (forall s :: s in a <==> s in b) && OwnTimesDiffer(a, pid)
    ensures LatestOwn(a, pid) == LatestOwn(b, pid)
  {
    hide LatestOwn, PhaseRank;
    var x, y := LatestOwn(a, pid), LatestOwn(b, pid);
    LatestOwnIsListed(a, pid);
    LatestOwnIsListed(b, pid);
    if x.Some? {
      LatestOwnIsLatest(b, pid, x.value);
    }
    if y.Some? {
      LatestOwnIsLatest(a, pid, y.value);
    }
  }

  /** What one god snapshot says of a seat. */
  function Says(s: Snapshot, pid: Name, field: GodPlayer -> Option<string>): Option<string> {
    if s.GodSnapshot? then FirstNamed(s.players, pid, field) else None
  }

  /** Those god snapshots that say something of a seat say the same. */
  predicate GodsAgree(snaps: seq<Snapshot>, pid: Name, field: GodPlayer -> Option<string>) {
    forall s, t :: s in snaps && t in snaps && Says(s, pid, field).Some? && Says(t, pid, field).Some? ==>
      Says(s, pid, field) == Says(t, pid, field)
  }

  lemma {:induction false} FromGodIsSaid(gods: seq<Snapshot>, pid: Name, field: GodPlayer -> Option<string>)
    ensures FromGod(gods, pid, field).Some? <==> exists s :: s in gods && Says(s, pid, field).Some?
    ensures FromGod(gods, pid, field).Some? ==> exists s :: s in gods && Says(s, pid, field) == FromGod(gods, pid, field)
  {
    if gods != [] {
      FromGodIsSaid(gods[1..], pid, field);
      assert gods == [gods[0]] + gods[1..] && gods[0] in gods;
    }
  }

  lemma GodOrderIsIrrelevant(a: seq<Snapshot>, b: seq<Snapshot>, pid: Name, field: GodPlayer -> Option<string>)
    requires (forall s :: s in a <==> s in b) && GodsAgree(a, pid, field)
    ensures FromGod(GodsOf(a), pid, field) == FromGod(GodsOf(b), pid, field)
  {
    hide FromGod, Says, GodsOf;
    FromGodIsSaid(GodsOf(a), pid, field);
    FromGodIsSaid(GodsOf(b), pid, field);
  }

  lemma MentionOrderIsIrrelevant(a: seq<Snapshot>, b: seq<Snapshot>, pid: Name)
    requires forall s :: s in a <==> s in b
    ensures Mentioned(a, pid) <==> Mentioned(b, pid)
  {
    hide Mentions;
    if i :| 0 <= i < |a| && Mentions(a[i], pid) {
      assert a[i] in b;
      var j :| 0 <= j < |b| && b[j] == a[i];
    }
    if i :| 0 <= i < |b| && Mentions(b[i], pid) {
      assert b[i] in a;
      var j :| 0 <= j < |a| && a[j] == b[i];
    }
  }

  /** The snapshots leave nothing to the order in which their files are found. */
  predicate Unambiguous(snaps: seq<Snapshot>, pid: Name) {
    && (forall s, t :: s in snaps && t in snaps && ListsLiving(s) && ListsLiving(t) && SameTime(s, t) ==> s.alive == t.alive)
    && OwnTimesDiffer(snaps, pid)
    && GodsAgree(snaps, pid, RoleField()) && GodsAgree(snaps, pid, TeamField())
  }

  /** A seat's whole entry, and whether it has one, is the same in whatever order the files are found. */
  lemma ListingOrderIsIrrelevant(a: seq<Snapshot>, b: seq<Snapshot>, pid: Name)
    requires (forall s :: s in a <==> s in b) && Unambiguous(a, pid)
    ensures Mentioned(a, pid) <==> Mentioned(b, pid)
    ensures EntryFor(a, pid) == EntryFor(b, pid)
  {
    hide Mentioned, LatestOwn, GodsOf, LatestGod, FromGod, OwnTimesDiffer, GodsAgree;
    MentionOrderIsIrrelevant(a, b, pid);
    OwnOrderIsIrrelevant(a, b, pid);
    LivingOrderIsIrrelevant(a, b);
    GodOrderIsIrrelevant(a, b, pid, RoleField());
    GodOrderIsIrrelevant(a, b, pid, TeamField());
  }

  /** When no two listings carry the same time but different seats, the living do not depend on the order. */
  lemma LivingOrderIsIrrelevant(a: seq<Snapshot>, b: seq<Snapshot>)
    requires forall s :: s in a <==> s in b
    requires forall s, t :: s in a && t in a && ListsLiving(s) && ListsLiving(t) && SameTime(s, t) ==> s.alive == t.alive
    ensures LatestGod(GodsOf(a)).Some? <==> LatestGod(GodsOf(b)).Some?
    ensures LatestGod(GodsOf(a)).Some? ==> LatestGod(GodsOf(a)).value.alive == LatestGod(GodsOf(b)).value.alive
  {
    hide GodsOf, LatestGod, PhaseRank;
    var x, y := LatestGod(GodsOf(a)), LatestGod(GodsOf(b));
    if x.Some? {
      LatestGodIsLatest(GodsOf(b), x.value);
    }
    if y.Some? {
      LatestGodIsLatest(GodsOf(a), y.value);
    }
  }

  // ---- what an entry says ---------------------------------------------------------------------------

  /** Some god snapshot says this of the player, and everything it lists before that says nothing. */
  ghost predicate Tells(s: Snapshot, pid: Name, field: GodPlayer -> Option<string>, text: string) {
    && s.GodSnapshot?
    && exists k :: 0 <= k < |s.players| && s.players[k].id == pid && field(s.players[k]) == Some(text)
                   && forall j :: 0 <= j < k && s.players[j].id == pid ==> field(s.players[j]) == None
  }

  ghost predicate Silent(s: Snapshot, pid: Name, field: GodPlayer -> Option<string>) {
    s.GodSnapshot? ==> forall k :: 0 <= k < |s.players| && s.players[k].id == pid ==> field(s.players[k]) == None
  }

  /** A role or team not vouched for by the seat itself is what the first telling god snapshot says. */
  ghost predicate FieldTells(snaps: seq<Snapshot>, pid: Name, field: GodPlayer -> Option<string>, text: string,
                             source: Source) {
    if forall i :: 0 <= i < |snaps| ==> Silent(snaps[i], pid, field) then text == UNKNOWN && source == NoSource
    else
      && source == GodView
      && exists i :: 0 <= i < |snaps| && Tells(snaps[i], pid, field, text) && forall j :: 0 <= j < i ==> Silent(snaps[j], pid, field)
  }

  /** The seat's role and team are those of an own snapshot that no other of its own is newer than. */
  ghost predicate OwnTells(snaps: seq<Snapshot>, pid: Name, e: SeatEntry) {
    if forall s :: s in snaps ==> !IsOwn(s, pid) then e.known == map[] && !e.roleSource.RoleProjection? && !e.teamSource.RoleProjection?
    else
      && e.roleSource == RoleProjection && e.teamSource == RoleProjection
      && exists s :: s in snaps && IsOwn(s, pid) && (forall t :: t in snaps && IsOwn(t, pid) ==> NotBefore(s, t))
                     && e.role == s.role && e.team == s.team && e.known == s.known
  }

  /** Who lives is read off a god snapshot that no other listing is newer than; failing that, off the seat's own newest. */
  ghost predicate LivingTells(snaps: seq<Snapshot>, pid: Name, e: SeatEntry) {
    if exists s :: s in snaps && ListsLiving(s) then
      && e.aliveSource == GodView
      && exists s :: s in snaps && ListsLiving(s) && (forall t :: t in snaps && ListsLiving(t) ==> NotBefore(s, t))
                     && (e.alive <==> pid in s.alive.ids)
    else if forall s :: s in snaps ==> !IsOwn(s, pid) then e.alive && e.aliveSource == NoSource
    else
      exists s :: s in snaps && IsOwn(s, pid) && (forall t :: t in snaps && IsOwn(t, pid) ==> NotBefore(s, t))
                  && match s.alive
                     case AliveList(ids) => e.aliveSource == RoleProjection && (e.alive <==> pid in ids)
                     case NoAlive => e.aliveSource == RoleProjection && !e.alive
                     case MalformedAlive => e.aliveSource == NoSource && e.alive
  }

  lemma EntryForUnfolds(snaps: seq<Snapshot>, pid: Name)
    ensures EntryFor(snaps, pid) == EntryOf(LatestOwn(snaps, pid), GodsOf(snaps), LatestGod(GodsOf(snaps)), pid)
  {
  }

  lemma EntryOwns(snaps: seq<Snapshot>, pid: Name)
    ensures OwnTells(snaps, pid, EntryFor(snaps, pid))
  {
    hide LatestOwn, GodsOf, LatestGod, FromGod, IsOwn, NotBefore;
    LatestOwnExactly(snaps, pid);
  }

  lemma EntryLives(snaps: seq<Snapshot>, pid: Name)
    ensures LivingTells(snaps, pid, EntryFor(snaps, pid))
  {
    hide LatestOwn, GodsOf, LatestGod, FromGod, NotBefore;
    LatestOwnExactly(snaps, pid);
    forall s | s in snaps && ListsLiving(s)
      ensures LatestGod(GodsOf(snaps)).Some? && NotBefore(LatestGod(GodsOf(snaps)).value, s)
    {
      LatestGodIsLatest(GodsOf(snaps), s);
    }
  }

  lemma LatestOwnExactly(snaps: seq<Snapshot>, pid: Name)
    ensures var own := LatestOwn(snaps, pid);
            && (own.None? ==> forall s :: s in snaps ==> !IsOwn(s, pid))
            && (own.Some? ==> own.value in snaps && IsOwn(own.value, pid)
                              && forall t :: t in snaps && IsOwn(t, pid) ==> NotBefore(own.value, t))
  {
    hide LatestOwn, NotBefore;
    LatestOwnIsListed(snaps, pid);
    forall t | t in snaps && IsOwn(t, pid)
      ensures LatestOwn(snaps, pid).Some? && NotBefore(LatestOwn(snaps, pid).value, t)
    {
      LatestOwnIsLatest(snaps, pid, t);
    }
  }

  lemma {:induction false} FirstNamedTells(players: seq<GodPlayer>, pid: Name, field: GodPlayer -> Option<string>)
    ensures var text := FirstNamed(players, pid, field);
            if text.None? then forall k :: 0 <= k < |players| && players[k].id == pid ==> field(players[k]) == None
            else exists k :: 0 <= k < |players| && players[k].id == pid && field(players[k]) == text
                             && forall j :: 0 <= j < k && players[j].id == pid ==> field(players[j]) == None
  {
    if players != [] && !(players[0].id == pid && field(players[0]).Some?) {
      var rest := players[1..];
      FirstNamedTells(rest, pid, field);
      if FirstNamed(rest, pid, field).Some? {
        var k :| 0 <= k < |rest| && rest[k].id == pid && field(rest[k]) == FirstNamed(rest, pid, field)
                 && forall j :: 0 <= j < k && rest[j].id == pid ==> field(rest[j]) == None;
        assert players[k + 1] == rest[k];
        assert forall j :: 0 < j < k + 1 ==> players[j] == rest[j - 1];
      } else {
        assert forall k :: 0 < k < |players| ==> players[k] == rest[k - 1];
      }
    }
  }

  lemma SaysTells(s: Snapshot, pid: Name, field: GodPlayer -> Option<string>)
    ensures Says(s, pid, field) == None <==> Silent(s, pid, field)
    ensures Says(s, pid, field).Some? ==> Tells(s, pid, field, Says(s, pid, field).value)
  {
    if s.GodSnapshot? {
      FirstNamedTells(s.players, pid, field);
      hide FirstNamed;
    }
  }

  lemma {:induction false} FromGodSnoc(gods: seq<Snapshot>, s: Snapshot, pid: Name, field: GodPlayer -> Option<string>)
    ensures FromGod(gods + [s], pid, field) ==
            if FromGod(gods, pid, field).Some? then FromGod(gods, pid, field) else Says(s, pid, field)
  {
    if gods == [] {
      assert [s][1..] == [];
      assert FromGod([s][1..], pid, field) == None;
    } else {
      assert (gods + [s])[1..] == gods[1..] + [s];
      FromGodSnoc(gods[1..], s, pid, field);
    }
  }

  /** Going through the snapshots as listed, the first that says something of the player is the one believed. */
  lemma {:induction false} FromGodTells(snaps: seq<Snapshot>, pid: Name, field: GodPlayer -> Option<string>)
    ensures var text := FromGod(GodsOf(snaps), pid, field);
            if text.None? then forall i :: 0 <= i < |snaps| ==> Silent(snaps[i], pid, field)
            else exists i :: 0 <= i < |snaps| && Tells(snaps[i], pid, field, text.value)
                             && forall j :: 0 <= j < i ==> Silent(snaps[j], pid, field)
  {
    if snaps != [] {
      var init, last := snaps[..|snaps| - 1], snaps[|snaps| - 1];
      FromGodTells(init, pid, field);
      hide FromGod, GodsOf, Says, Tells, Silent;
      assert snaps == init + [last];
      GodsSnoc(init, last);
      SaysTells(last, pid, field);
      if last.GodSnapshot? {
        FromGodSnoc(GodsOf(init), last, pid, field);
      } else {
        OthersAreSilent(last, pid, field);
      }
      assert forall j :: 0 <= j < |init| ==> snaps[j] == init[j];
    }
  }

  lemma OthersAreSilent(s: Snapshot, pid: Name, field: GodPlayer -> Option<string>)
    requires !s.GodSnapshot?
    ensures Silent(s, pid, field)
  {
  }

  lemma EntryNames(snaps: seq<Snapshot>, pid: Name)
    ensures (forall s :: s in snaps ==> !IsOwn(s, pid)) ==>
              && FieldTells(snaps, pid, RoleField(), EntryFor(snaps, pid).role, EntryFor(snaps, pid).roleSource)
              && FieldTells(snaps, pid, TeamField(), EntryFor(snaps, pid).team, EntryFor(snaps, pid).teamSource)
  {
    hide LatestOwn, GodsOf, LatestGod, FromGod, IsOwn, NotBefore, Silent, Tells;
    LatestOwnExactly(snaps, pid);
    FromGodTells(snaps, pid, RoleField());
    FromGodTells(snaps, pid, TeamField());
    if exists i :: 0 <= i < |snaps| && Tells(snaps[i], pid, RoleField(), EntryFor(snaps, pid).role) {
      var i :| 0 <= i < |snaps| && Tells(snaps[i], pid, RoleField(), EntryFor(snaps, pid).role);
      TellsIsNotSilent(snaps[i], pid, RoleField(), EntryFor(snaps, pid).role);
    }
    if exists i :: 0 <= i < |snaps| && Tells(snaps[i], pid, TeamField(), EntryFor(snaps, pid).team) {
      var i :| 0 <= i < |snaps| && Tells(snaps[i], pid, TeamField(), EntryFor(snaps, pid).team);
      TellsIsNotSilent(snaps[i], pid, TeamField(), EntryFor(snaps, pid).team);
    }
  }

  lemma TellsIsNotSilent(s: Snapshot, pid: Name, field: GodPlayer -> Option<string>, text: string)
    requires Tells(s, pid, field, text)
    ensures !Silent(s, pid, field)
  {
  }

  // ---- the builder, told by its snapshots --------------------------------------------------------------

  method BuildSeatRoleIndex(snaps: seq<Snapshot>) returns (index: SeatIndex)
    ensures forall pid :: pid in index <==> Mentioned(snaps, pid)
    ensures forall pid :: pid in index ==> index[pid] == EntryFor(snaps, pid)
    ensures forall pid :: pid in index ==> LivingTells(snaps, pid, index[pid]) && OwnTells(snaps, pid, index[pid])
    ensures forall pid :: pid in index && (forall s :: s in snaps ==> !IsOwn(s, pid)) ==>
              && FieldTells(snaps, pid, RoleField(), index[pid].role, index[pid].roleSource)
              && FieldTells(snaps, pid, TeamField(), index[pid].team, index[pid].teamSource)
  {
    hide LatestOwn, GodsOf, LatestGod, Mentioned, EntryOf, LivingTells, OwnTells, FieldTells, EntryFor;
    var owns, gods, ids := Collect(snaps);
    assert forall s :: s in gods ==> s.GodSnapshot?;
    var latest := FindLatestGod(gods);
    index := map pid | pid in ids :: EntryOf(if pid in owns then Some(owns[pid]) else None, gods, latest, pid);
    forall pid | pid in index
      ensures index[pid] == EntryFor(snaps, pid)
      ensures LivingTells(snaps, pid, index[pid]) && OwnTells(snaps, pid, index[pid])
      ensures (forall s :: s in snaps ==> !IsOwn(s, pid)) ==>
                && FieldTells(snaps, pid, RoleField(), index[pid].role, index[pid].roleSource)
                && FieldTells(snaps, pid, TeamField(), index[pid].team, index[pid].teamSource)
    {
      assert LatestOwn(snaps, pid) == if pid in owns then Some(owns[pid]) else None;
      EntryForUnfolds(snaps, pid);
      EntryLives(snaps, pid);
      EntryOwns(snaps, pid);
      EntryNames(snaps, pid);
    }
  }
}
