/** The engine's own rule for which event ids a seat may be shown. */
module RoleVisibility {
  import opened Logs

  /** Ids of the events every seat sees, in order. */
  function PublicRefs(events: seq<Event>): seq<string> {
    if events == [] then []
    else
      var rest := PublicRefs(events[..|events| - 1]);
      var last := events[|events| - 1];
      if IsPublic(last.visibility) then rest + [last.id] else rest
  }

  lemma {:induction false} PublicRefsExactly(events: seq<Event>, r: string)
    ensures r in PublicRefs(events) <==>
            exists i :: 0 <= i < |events| && events[i].id == r && IsPublic(events[i].visibility)
  {
    if events != [] {
      var init := events[..|events| - 1];
      PublicRefsExactly(init, r);
      if i :| 0 <= i < |init| && init[i].id == r && IsPublic(init[i].visibility) {
        assert events[i] == init[i];
      }
      if i :| 0 <= i < |events| && events[i].id == r && IsPublic(events[i].visibility) {
        if i < |init| { assert init[i].id == r; }
      }
    }
  }

  /** The visibility value that carries a role's own name; only some roles have a channel of their own. */
  function OwnChannel(r: Role): Visibility {
    match r
    case Seer => SeerOnly
    case Witch => WitchOnly
    case Hunter => HunterOnly
    case Guard => GuardOnly
    case Werewolf => OtherVisibility("werewolf")
    case Villager => OtherVisibility("villager")
  }

  predicate PrivatelySees(v: Visibility, role: Role, wolfTeam: bool) {
    v.Everyone? || v == OwnChannel(role) || (v.WolvesOnly? && wolfTeam)
  }

  /** Ids a seat privately sees, in event order. */
  function PrivateRefs(events: seq<Event>, role: Role, wolfTeam: bool): seq<string> {
    if events == [] then []
    else
      var rest := PrivateRefs(events[..|events| - 1], role, wolfTeam);
      var last := events[|events| - 1];
      if PrivatelySees(last.visibility, role, wolfTeam) then rest + [last.id] else rest
  }

  lemma {:induction false} PrivateRefsExactly(events: seq<Event>, role: Role, wolfTeam: bool, r: string)
    ensures r in PrivateRefs(events, role, wolfTeam) <==>
            exists i :: 0 <= i < |events| && events[i].id == r && PrivatelySees(events[i].visibility, role, wolfTeam)
  {
    if events != [] {
      var init := events[..|events| - 1];
      PrivateRefsExactly(init, role, wolfTeam, r);
      if i :| 0 <= i < |init| && init[i].id == r && PrivatelySees(init[i].visibility, role, wolfTeam) {
        assert events[i] == init[i];
      }
      if i :| 0 <= i < |events| && events[i].id == r && PrivatelySees(events[i].visibility, role, wolfTeam) {
        if i < |init| { assert init[i].id == r; }
      }
    }
  }

  /** The engine's private list, built in a loop; a seat without a recorded team counts as a wolf by its role. */
  method PrivateRefsForRole(events: seq<Event>, role: Role, team: Option<Team>) returns (refs: seq<string>)
    ensures refs == PrivateRefs(events, role, if team.Some? then team.value.WerewolfTeam? else role.Werewolf?)
  {
    var wolfTeam := if team.Some? then team.value.WerewolfTeam? else role.Werewolf?;
    refs := [];
    for i := 0 to |events|
      invariant refs == PrivateRefs(events[..i], role, wolfTeam)
    {
      assert events[..i + 1][..i] == events[..i];
      if PrivatelySees(events[i].visibility, role, wolfTeam) {
        refs := refs + [events[i].id];
      }
    }
    assert events[..|events|] == events;
  }
}
