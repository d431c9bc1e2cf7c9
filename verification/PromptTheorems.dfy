/** What a prompt shows is exactly what its seat may see, and nothing else can change it. */
module PromptTheorems {
  import opened Logs
  import opened RoleVisibility
  import opened Rendering
  import opened PromptRendering

  /** A log as the engine writes it: sequences ascend and no two events share an id. */
  predicate WellKept(log: seq<Told>) {
    StrictlyAscending(log) && forall i, j :: 0 <= i < j < |log| ==> log[i].event.id != log[j].event.id
  }

  predicate MaySee(t: Told, role: Role, wolfTeam: bool) {
    IsPublic(t.event.visibility) || PrivatelySees(t.event.visibility, role, wolfTeam)
  }

  function Visible(log: seq<Told>, role: Role, wolfTeam: bool): (visible: seq<Told>)
    ensures forall t :: t in visible <==> t in log && MaySee(t, role, wolfTeam)
  {
    if log == [] then []
    else
      var init, last := log[..|log| - 1], log[|log| - 1];
      assert forall t :: t in log <==> t in init || t == last;
      if MaySee(last, role, wolfTeam) then Visible(init, role, wolfTeam) + [last] else Visible(init, role, wolfTeam)
  }

  /** The observation the engine hands to a renderer. */
  predicate ObservationOf(obs: Observation, log: seq<Told>) {
    && obs.publicIds == PublicRefs(Events(log))
    && obs.privateIds == PrivateRefs(Events(log), obs.role, obs.team.WerewolfTeam?)
  }

  // ---- ids find their events ----------------------------------------------------------------

  lemma {:induction false} ByIdExactly(log: seq<Told>, id: string)
    requires WellKept(log)
    ensures id in ById(log) <==> exists t :: t in log && t.event.id == id
    ensures id in ById(log) ==> ById(log)[id] in log && ById(log)[id].event.id == id
  {
    if log != [] {
      var init, last := log[..|log| - 1], log[|log| - 1];
      assert log == init + [last];
      InitKept(log, init);
      ByIdExactly(init, id);
    }
  }

  lemma InitKept(log: seq<Told>, init: seq<Told>)
    requires WellKept(log) && log != [] && init == log[..|log| - 1]
    ensures WellKept(init)
  {
  }

  lemma IdNamesOne(log: seq<Told>, s: Told, t: Told)
    requires WellKept(log) && s in log && t in log && s.event.id == t.event.id
    ensures s == t
  {
    var i :| 0 <= i < |log| && log[i] == s;
    var j :| 0 <= j < |log| && log[j] == t;
  }

  lemma PublicIdIff(log: seq<Told>, t: Told)
    requires WellKept(log) && t in log
    ensures t.event.id in PublicRefs(Events(log)) <==> IsPublic(t.event.visibility)
  {
    PublicRefsExactly(Events(log), t.event.id);
    var k :| 0 <= k < |log| && log[k] == t;
    if i :| 0 <= i < |log| && Events(log)[i].id == t.event.id && IsPublic(Events(log)[i].visibility) {
      assert log[i] in log;
      IdNamesOne(log, log[i], t);
    }
    if IsPublic(t.event.visibility) { assert Events(log)[k].id == t.event.id; }
  }

  lemma PrivateIdIff(log: seq<Told>, t: Told, role: Role, wolfTeam: bool)
    requires WellKept(log) && t in log
    ensures t.event.id in PrivateRefs(Events(log), role, wolfTeam) <==> PrivatelySees(t.event.visibility, role, wolfTeam)
  {
    PrivateRefsExactly(Events(log), role, wolfTeam, t.event.id);
    var k :| 0 <= k < |log| && log[k] == t;
    if i :| 0 <= i < |log| && Events(log)[i].id == t.event.id && PrivatelySees(Events(log)[i].visibility, role, wolfTeam) {
      assert log[i] in log;
      IdNamesOne(log, log[i], t);
    }
    if PrivatelySees(t.event.visibility, role, wolfTeam) { assert Events(log)[k].id == t.event.id; }
  }

  // ---- the gathered events are the visible ones ------------------------------------------------

  lemma GatheredMembers(log: seq<Told>, obs: Observation, t: Told)
    requires WellKept(log) && ObservationOf(obs, log)
    ensures t in Gathered(obs, ById(log)) <==> t in Visible(log, obs.role, obs.team.WerewolfTeam?)
  {
    hide PublicRefs, PrivateRefs, ById, Known, Dedupe, Visible;
    var refs := Dedupe(obs.publicIds + obs.privateIds);
    ByIdExactly(log, t.event.id);
    if t in log {
      PublicIdIff(log, t);
      PrivateIdIff(log, t, obs.role, obs.team.WerewolfTeam?);
      if t.event.id in refs {
        IdNamesOne(log, ById(log)[t.event.id], t);
      }
    }
    if r :| r in refs && r in ById(log) && ById(log)[r] == t {
      ByIdExactly(log, r);
    }
  }

  lemma {:induction false} KnownOnce(refs: seq<string>, log: seq<Told>)
    requires WellKept(log) && Distinct(refs)
    ensures Distinct(Known(refs, ById(log)))
  {
    if refs != [] {
      var init, last := refs[..|refs| - 1], refs[|refs| - 1];
      assert refs == init + [last];
      assert Distinct(init) by { assert forall i :: 0 <= i < |init| ==> init[i] == refs[i]; }
      KnownOnce(init, log);
      if last in ById(log) {
        forall t | t in Known(init, ById(log)) ensures t != ById(log)[last] {
          var r :| r in init && r in ById(log) && ById(log)[r] == t;
          var i :| 0 <= i < |init| && init[i] == r;
          assert refs[i] != refs[|refs| - 1];
          ByIdExactly(log, r);
          ByIdExactly(log, last);
        }
        DistinctSnoc(Known(init, ById(log)), ById(log)[last]);
      }
    }
  }

  lemma DistinctSnoc(ts: seq<Told>, t: Told)
    requires Distinct(ts) && forall x :: x in ts ==> x != t
    ensures Distinct(ts + [t])
  {
    assert forall i :: 0 <= i < |ts| ==> ts[i] in ts;
  }

  lemma SortedOnce(ts: seq<Told>, log: seq<Told>)
    requires WellKept(log) && Distinct(ts) && forall t :: t in ts ==> t in log
    ensures StrictlyAscending(SortBySequence(ts))
  {
    SortSorts(ts);
    var sorted := SortBySequence(ts);
    hide SortBySequence;
    DistinctMultiset(ts);
    forall i, j | 0 <= i < j < |sorted| ensures sorted[i].event.sequence < sorted[j].event.sequence {
      assert sorted[i] in sorted && sorted[j] in sorted;
      RepeatCounts(sorted, i, j);
      assert multiset(sorted)[sorted[i]] <= 1;
      OneOfEach(log, sorted[i], if sorted[i].event.sequence == sorted[j].event.sequence then sorted[j] else sorted[i]);
    }
  }

  lemma {:induction false} DistinctMultiset(ts: seq<Told>)
    requires Distinct(ts)
    ensures forall t :: multiset(ts)[t] <= 1
  {
    if ts != [] {
      var init, last := ts[..|ts| - 1], ts[|ts| - 1];
      assert ts == init + [last];
      assert forall i :: 0 <= i < |init| ==> init[i] != last;
      assert Distinct(init);
      DistinctMultiset(init);
      assert last !in init;
      assert last !in multiset(init);
    }
  }

  /** An element standing at two places counts at least twice. */
  lemma RepeatCounts(ts: seq<Told>, i: nat, j: nat)
    requires i < j < |ts|
    ensures ts[i] == ts[j] ==> multiset(ts)[ts[i]] >= 2
  {
    assert ts == ts[..j] + [ts[j]] + ts[j + 1..];
    assert ts[..j][i] == ts[i];
    assert ts[i] in multiset(ts[..j]);
  }

  lemma {:induction false} VisibleAscends(log: seq<Told>, role: Role, wolfTeam: bool)
    requires StrictlyAscending(log)
    ensures StrictlyAscending(Visible(log, role, wolfTeam))
  {
    if log != [] {
      var init, last := log[..|log| - 1], log[|log| - 1];
      VisibleAscends(init, role, wolfTeam);
      var before := Visible(init, role, wolfTeam);
      forall i | 0 <= i < |before| ensures before[i].event.sequence < last.event.sequence {
        assert before[i] in init;
        var k :| 0 <= k < |init| && init[k] == before[i];
        assert log[k].event.sequence < log[|log| - 1].event.sequence;
      }
    }
  }

  /** Sorting the de-duplicated public and private references gives back the log, filtered by what the seat may see. */
  lemma SortIsFilter(log: seq<Told>, obs: Observation)
    requires WellKept(log) && ObservationOf(obs, log)
    ensures SortBySequence(Gathered(obs, ById(log))) == Visible(log, obs.role, obs.team.WerewolfTeam?)
  {
    var found := Gathered(obs, ById(log));
    var visible := Visible(log, obs.role, obs.team.WerewolfTeam?);
    forall t ensures t in found <==> t in visible { GatheredMembers(log, obs, t); }
    KnownOnce(Dedupe(obs.publicIds + obs.privateIds), log);
    SortedOnce(found, log);
    SortSorts(found);
    VisibleAscends(log, obs.role, obs.team.WerewolfTeam?);
    hide SortBySequence, Known, Dedupe, Visible, ById;
    SameMembersSameList(SortBySequence(found), visible);
  }

  // ---- every visible event lands in one section ----------------------------------------------------

  lemma {:induction false} SectionsPartition(ts: seq<Told>, isPublic: Told -> bool)
    ensures multiset(Pick(ts, PrivateSection, isPublic)) + multiset(Pick(ts, FactSection, isPublic))
            + multiset(Pick(ts, OtherSection, isPublic)) + multiset(Pick(ts, SpeechSection, isPublic))
            + multiset(Pick(ts, VoteSection, isPublic)) == multiset(Narrated(ts))
  {
    if ts != [] {
      SectionsPartition(ts[..|ts| - 1], isPublic);
    }
  }

  lemma {:induction false} PickMembers(ts: seq<Told>, s: Section, isPublic: Told -> bool, t: Told)
    ensures t in Pick(ts, s, isPublic) <==> t in ts && SectionFor(t, isPublic(t)) == s
  {
    if ts != [] {
      assert ts == ts[..|ts| - 1] + [ts[|ts| - 1]];
      hide SectionFor;
      PickMembers(ts[..|ts| - 1], s, isPublic, t);
    }
  }

  /** What each section tells: the private events, then of the public ones the facts, the speeches, the votes and the rest. */
  lemma SectionsExactly(ts: seq<Told>, isPublic: Told -> bool, t: Told)
    ensures t in Pick(ts, PrivateSection, isPublic) <==> t in ts && t.summary != "" && !isPublic(t)
    ensures t in Pick(ts, FactSection, isPublic) <==>
              && t in ts && t.summary != "" && isPublic(t)
              && t.event.kind in {PlayerDied, PlayerEliminated, RoleRevealed, DayAnnouncement, HunterShoot, HunterPass}
    ensures t in Pick(ts, SpeechSection, isPublic) <==> t in ts && t.summary != "" && isPublic(t) && t.event.kind == PlayerSpeech
    ensures t in Pick(ts, VoteSection, isPublic) <==> t in ts && t.summary != "" && isPublic(t) && t.event.kind == PlayerVote
    ensures t in Pick(ts, OtherSection, isPublic) <==>
              && t in ts && t.summary != "" && isPublic(t)
              && t.event.kind !in {PlayerDied, PlayerEliminated, RoleRevealed, DayAnnouncement, HunterShoot, HunterPass,
                                   PlayerSpeech, PlayerVote}
  {
    hide Pick;
    PickMembers(ts, PrivateSection, isPublic, t);
    PickMembers(ts, FactSection, isPublic, t);
    PickMembers(ts, SpeechSection, isPublic, t);
    PickMembers(ts, VoteSection, isPublic, t);
    PickMembers(ts, OtherSection, isPublic, t);
  }

  // ---- what cannot be seen cannot matter ---------------------------------------------------------------

  /** An event without its id and number: all that a line can show. */
  function Face(t: Told): Told {
    t.(event := t.event.(id := "", sequence := 0, refs := []))
  }

  /** Two histories that look the same to a seat, up to renumbering. */
  predicate SameFaces(a: seq<Told>, b: seq<Told>) {
    |a| == |b| && forall i :: 0 <= i < |a| ==> Face(a[i]) == Face(b[i])
  }

  lemma {:induction false} PickSame(a: seq<Told>, b: seq<Told>, s: Section, isPublicA: Told -> bool, isPublicB: Told -> bool)
    requires SameFaces(a, b)
    requires forall i :: 0 <= i < |a| ==> isPublicA(a[i]) == isPublicB(b[i])
    ensures SameFaces(Pick(a, s, isPublicA), Pick(b, s, isPublicB))
  {
    if a != [] {
      var a', b' := a[..|a| - 1], b[..|b| - 1];
      assert forall i :: 0 <= i < |a'| ==> a'[i] == a[i] && b'[i] == b[i];
      PickSame(a', b', s, isPublicA, isPublicB);
      SameSection(a[|a| - 1], b[|b| - 1]);
    }
  }

  lemma SameSection(s: Told, t: Told)
    requires Face(s) == Face(t)
    ensures s.summary == t.summary && s.event.kind == t.event.kind && s.event.round == t.event.round
    ensures s.event.phase == t.event.phase && s.event.actor == t.event.actor && s.event.target == t.event.target
    ensures s.event.visibility == t.event.visibility
  {
    assert Face(s).event.kind == s.event.kind && Face(t).event.kind == t.event.kind;
    assert Face(s).event.round == s.event.round && Face(t).event.round == t.event.round;
    assert Face(s).event.phase == s.event.phase && Face(t).event.phase == t.event.phase;
    assert Face(s).event.actor == s.event.actor && Face(t).event.actor == t.event.actor;
    assert Face(s).event.target == s.event.target && Face(t).event.target == t.event.target;
    assert Face(s).event.visibility == s.event.visibility && Face(t).event.visibility == t.event.visibility;
  }

  lemma LinesSame(a: seq<Told>, b: seq<Told>, s: Section)
    requires SameFaces(a, b)
    ensures Lines(a, s) == Lines(b, s)
  {
    hide Face;
    forall i | 0 <= i < |a| ensures LineFor(a[i], s) == LineFor(b[i], s) {
      SameSection(a[i], b[i]);
    }
  }

  lemma {:induction false} VotesSame(a: seq<Told>, b: seq<Told>)
    requires SameFaces(a, b)
    ensures VoteRounds(a) == VoteRounds(b) && forall r :: VotesIn(a, r) == VotesIn(b, r)
  {
    if a != [] {
      var a', b' := a[..|a| - 1], b[..|b| - 1];
      assert forall i :: 0 <= i < |a'| ==> a'[i] == a[i] && b'[i] == b[i];
      VotesSame(a', b');
      SameSection(a[|a| - 1], b[|b| - 1]);
    }
  }

  lemma VoteLinesSame(a: seq<Told>, b: seq<Told>)
    requires SameFaces(a, b)
    ensures VoteLines(a) == VoteLines(b)
  {
    VotesSame(a, b);
    hide SameFaces;
  }

  lemma TextV2Same(obsA: Observation, obsB: Observation, a: seq<Told>, b: seq<Told>,
                   isPublicA: Told -> bool, isPublicB: Told -> bool)
    requires SameFaces(a, b) && forall i :: 0 <= i < |a| ==> isPublicA(a[i]) == isPublicB(b[i])
    requires obsB == obsA.(publicIds := obsB.publicIds, privateIds := obsB.privateIds)
    ensures TextV2(obsA, a, isPublicA) == TextV2(obsB, b, isPublicB)
  {
    forall s: Section
      ensures Lines(Pick(a, s, isPublicA), s) == Lines(Pick(b, s, isPublicB), s)
      ensures SameFaces(Pick(a, s, isPublicA), Pick(b, s, isPublicB))
    {
      PickSame(a, b, s, isPublicA, isPublicB);
      LinesSame(Pick(a, s, isPublicA), Pick(b, s, isPublicB), s);
    }
    VoteLinesSame(Pick(a, VoteSection, isPublicA), Pick(b, VoteSection, isPublicB));
    hide Lines, Pick, VoteLines, SameFaces;
  }

  /** Whether a shown event counts as public depends on its visibility alone. */
  lemma PublicByFace(log: seq<Told>, obs: Observation, t: Told)
    requires WellKept(log) && ObservationOf(obs, log) && t in Visible(log, obs.role, obs.team.WerewolfTeam?)
    ensures ByIds(obs.publicIds)(t) <==> IsPublic(t.event.visibility)
  {
    hide PublicRefs, PrivateRefs, Visible;
    PublicIdIff(log, t);
  }

  /**
    The second renderer's text depends only on what its seat may see: two logs with the same visible events, up to
    numbering, and the same living and known-role fields give the same text, whatever else happened.
  */
  lemma UnseenCannotMatterV2(logA: seq<Told>, obsA: Observation, logB: seq<Told>, obsB: Observation)
    requires WellKept(logA) && ObservationOf(obsA, logA) && WellKept(logB) && ObservationOf(obsB, logB)
    requires obsB == obsA.(publicIds := obsB.publicIds, privateIds := obsB.privateIds)
    requires SameFaces(Visible(logA, obsA.role, obsA.team.WerewolfTeam?), Visible(logB, obsA.role, obsA.team.WerewolfTeam?))
    ensures TextV2(obsA, SortBySequence(Gathered(obsA, ById(logA))), ByIds(obsA.publicIds)) ==
            TextV2(obsB, SortBySequence(Gathered(obsB, ById(logB))), ByIds(obsB.publicIds))
  {
    var a, b := Visible(logA, obsA.role, obsA.team.WerewolfTeam?), Visible(logB, obsA.role, obsA.team.WerewolfTeam?);
    SortIsFilter(logA, obsA);
    SortIsFilter(logB, obsB);
    hide Visible, SortBySequence, Known, Dedupe, ById, PublicRefs, PrivateRefs, WellKept, Face, ByIds, TextV2;
    forall i | 0 <= i < |a| ensures ByIds(obsA.publicIds)(a[i]) == ByIds(obsB.publicIds)(b[i]) {
      assert a[i] in a && b[i] in b;
      PublicByFace(logA, obsA, a[i]);
      PublicByFace(logB, obsB, b[i]);
      SameSection(a[i], b[i]);
    }
    TextV2Same(obsA, obsB, a, b, ByIds(obsA.publicIds), ByIds(obsB.publicIds));
  }

  // ---- the first renderer: public events, then the private ones not already shown -------------------------

  /** The public events of a list, or the others, in order. */
  function Side(ts: seq<Told>, public: bool): seq<Told> {
    if ts == [] then []
    else if IsPublic(ts[|ts| - 1].event.visibility) == public then Side(ts[..|ts| - 1], public) + [ts[|ts| - 1]]
    else Side(ts[..|ts| - 1], public)
  }

  function Without(refs: seq<string>, taken: seq<string>): seq<string> {
    if refs == [] then []
    else if refs[|refs| - 1] in taken then Without(refs[..|refs| - 1], taken)
    else Without(refs[..|refs| - 1], taken) + [refs[|refs| - 1]]
  }

  lemma {:induction false} DedupeDistinct(refs: seq<string>)
    requires Distinct(refs)
    ensures Dedupe(refs) == refs
  {
    if refs != [] {
      var init := refs[..|refs| - 1];
      assert refs == init + [refs[|refs| - 1]];
      assert forall i :: 0 <= i < |init| ==> init[i] == refs[i] && refs[i] != refs[|refs| - 1];
      assert Distinct(init);
      DedupeDistinct(init);
    }
  }

  lemma LastIsNew(refs: seq<string>, init: seq<string>)
    requires Distinct(refs) && refs != [] && init == refs[..|refs| - 1]
    ensures Distinct(init) && refs[|refs| - 1] !in init
  {
    assert forall i :: 0 <= i < |init| ==> init[i] == refs[i] && refs[i] != refs[|refs| - 1];
  }

  lemma {:induction false} DedupeSnoc(refs: seq<string>, r: string)
    ensures Dedupe(refs + [r]) == if r in refs then Dedupe(refs) else Dedupe(refs) + [r]
  {
    var all := refs + [r];
    assert all[|all| - 1] == r && all[..|all| - 1] == refs;
    assert Dedupe(all) == if r in Dedupe(refs) then Dedupe(refs) else Dedupe(refs) + [r];
  }

  lemma {:induction false} DedupeAppend(p: seq<string>, q: seq<string>)
    requires Distinct(p) && Distinct(q)
    ensures Dedupe(p + q) == p + Without(q, p)
  {
    if q == [] {
      assert p + q == p;
      DedupeDistinct(p);
    } else {
      hide Dedupe, Without, Distinct;
      var init, last := q[..|q| - 1], q[|q| - 1];
      LastIsNew(q, init);
      DedupeAppend(p, init);
      assert q == init + [last];
      assert p + q == (p + init) + [last];
      DedupeSnoc(p + init, last);
      WithoutSnoc(init, last, p);
      assert last in p + init <==> last in p;
      assert p + (Without(init, p) + [last]) == (p + Without(init, p)) + [last];
    }
  }

  lemma {:induction false} WithoutMembers(refs: seq<string>, taken: seq<string>, r: string)
    ensures r in Without(refs, taken) <==> r in refs && r !in taken
  {
    if refs != [] {
      assert refs == refs[..|refs| - 1] + [refs[|refs| - 1]];
      WithoutMembers(refs[..|refs| - 1], taken, r);
    }
  }

  lemma {:induction false} KnownAppend(p: seq<string>, q: seq<string>, byId: map<string, Told>)
    ensures Known(p + q, byId) == Known(p, byId) + Known(q, byId)
  {
    if q == [] {
      assert p + q == p;
    } else {
      assert (p + q)[..|p + q| - 1] == p + q[..|q| - 1];
      KnownAppend(p, q[..|q| - 1], byId);
    }
  }

  lemma {:induction false} KnownPublic(log: seq<Told>, n: nat)
    requires WellKept(log) && n <= |log|
    ensures Known(PublicRefs(Events(log[..n])), ById(log)) == Side(log[..n], true)
    ensures Distinct(PublicRefs(Events(log[..n])))
  {
    if n > 0 {
      KnownPublic(log, n - 1);
      PrefixEvents(log, n);
      var t := log[n - 1];
      TellsItself(log, n - 1);
      if IsPublic(t.event.visibility) {
        var before := PublicRefs(Events(log[..n - 1]));
        forall r | r in before ensures r != t.event.id {
          PublicRefsExactly(Events(log[..n - 1]), r);
        }
        assert forall i :: 0 <= i < |before| ==> before[i] in before;
      }
    }
  }

  lemma PrefixEvents(log: seq<Told>, n: nat)
    requires 0 < n <= |log|
    ensures log[..n][..n - 1] == log[..n - 1] && Events(log[..n])[..n - 1] == Events(log[..n - 1])
    ensures |Events(log[..n])| == n && Events(log[..n])[n - 1] == log[n - 1].event
  {
  }

  lemma TellsItself(log: seq<Told>, k: nat)
    requires WellKept(log) && k < |log|
    ensures log[k].event.id in ById(log) && ById(log)[log[k].event.id] == log[k]
  {
    assert log[k] in log;
    ByIdExactly(log, log[k].event.id);
    IdNamesOne(log, ById(log)[log[k].event.id], log[k]);
  }

  // How each list grows with one more entry.

  lemma PrivateSnoc(events: seq<Event>, e: Event, role: Role, wolfTeam: bool)
    ensures PrivateRefs(events + [e], role, wolfTeam) ==
            PrivateRefs(events, role, wolfTeam) + if PrivatelySees(e.visibility, role, wolfTeam) then [e.id] else []
  {
    assert (events + [e])[..|events|] == events;
  }

  lemma WithoutSnoc(refs: seq<string>, r: string, taken: seq<string>)
    ensures Without(refs + [r], taken) == Without(refs, taken) + if r in taken then [] else [r]
  {
    assert (refs + [r])[..|refs|] == refs;
  }

  lemma KnownSnoc(refs: seq<string>, r: string, byId: map<string, Told>)
    ensures Known(refs + [r], byId) == Known(refs, byId) + if r in byId then [byId[r]] else []
  {
    assert (refs + [r])[..|refs|] == refs;
  }

  lemma VisibleSnoc(log: seq<Told>, t: Told, role: Role, wolfTeam: bool)
    ensures Visible(log + [t], role, wolfTeam) == Visible(log, role, wolfTeam) + if MaySee(t, role, wolfTeam) then [t] else []
  {
    assert (log + [t])[..|log|] == log;
  }

  lemma SideSnoc(ts: seq<Told>, t: Told, public: bool)
    ensures Side(ts + [t], public) == Side(ts, public) + if IsPublic(t.event.visibility) == public then [t] else []
  {
    assert (ts + [t])[..|ts|] == ts;
  }

  lemma PrivateOnce(log: seq<Told>, n: nat, role: Role, wolfTeam: bool)
    requires WellKept(log) && n < |log|
    ensures log[n].event.id !in PrivateRefs(Events(log[..n]), role, wolfTeam)
  {
    PrivateRefsExactly(Events(log[..n]), role, wolfTeam, log[n].event.id);
  }

  /** One more event: if it is privately seen and not public it joins both lists, otherwise neither. */
  lemma OnePrivate(refs: seq<string>, publicIds: seq<string>, byId: map<string, Told>, visible: seq<Told>, t: Told,
                   role: Role, wolfTeam: bool)
    requires Known(Without(refs, publicIds), byId) == Side(visible, false)
    requires t.event.id in byId && byId[t.event.id] == t && (t.event.id in publicIds <==> IsPublic(t.event.visibility))
    ensures Known(Without(refs + if PrivatelySees(t.event.visibility, role, wolfTeam) then [t.event.id] else [], publicIds), byId)
            == Side(visible + if MaySee(t, role, wolfTeam) then [t] else [], false)
  {
    hide Known, Without, Side;
    WithoutSnoc(refs, t.event.id, publicIds);
    KnownSnoc(Without(refs, publicIds), t.event.id, byId);
    SideSnoc(visible, t, false);
    assert refs + [] == refs && visible + [] == visible && Without(refs, publicIds) + [] == Without(refs, publicIds);
  }

  lemma PrefixSnoc(log: seq<Told>, n: nat)
    requires 0 < n <= |log|
    ensures log[..n] == log[..n - 1] + [log[n - 1]]
    ensures Events(log[..n]) == Events(log[..n - 1]) + [log[n - 1].event]
  {
  }

  /** The private references not already public, looked up: the visible events that are not public. */
  lemma {:induction false} KnownPrivate(log: seq<Told>, n: nat, role: Role, wolfTeam: bool)
    requires WellKept(log) && n <= |log|
    ensures Known(Without(PrivateRefs(Events(log[..n]), role, wolfTeam), PublicRefs(Events(log))), ById(log)) ==
            Side(Visible(log[..n], role, wolfTeam), false)
  {
    if n > 0 {
      var t, before, publicIds := log[n - 1], log[..n - 1], PublicRefs(Events(log));
      KnownPrivate(log, n - 1, role, wolfTeam);
      assert t in log;
      TellsItself(log, n - 1);
      PublicIdIff(log, t);
      PrefixSnoc(log, n);
      hide *;
      PrivateSnoc(Events(before), t.event, role, wolfTeam);
      VisibleSnoc(before, t, role, wolfTeam);
      OnePrivate(PrivateRefs(Events(before), role, wolfTeam), publicIds, ById(log), Visible(before, role, wolfTeam), t, role,
                 wolfTeam);
    }
  }

  lemma {:induction false} PrivateDistinct(log: seq<Told>, n: nat, role: Role, wolfTeam: bool)
    requires WellKept(log) && n <= |log|
    ensures Distinct(PrivateRefs(Events(log[..n]), role, wolfTeam))
  {
    if n > 0 {
      PrivateDistinct(log, n - 1, role, wolfTeam);
      PrivateOnce(log, n - 1, role, wolfTeam);
      PrefixSnoc(log, n);
      PrivateSnoc(Events(log[..n - 1]), log[n - 1].event, role, wolfTeam);
      var before := PrivateRefs(Events(log[..n - 1]), role, wolfTeam);
      assert forall i :: 0 <= i < |before| ==> before[i] in before;
    }
  }

  lemma {:induction false} PublicAreVisible(log: seq<Told>, role: Role, wolfTeam: bool)
    ensures Side(Visible(log, role, wolfTeam), true) == Side(log, true)
  {
    if log != [] {
      PublicAreVisible(log[..|log| - 1], role, wolfTeam);
    }
  }

  /** What the first renderer gathers: the visible public events in log order, then the other visible ones. */
  lemma GatheredInOrder(log: seq<Told>, obs: Observation)
    requires WellKept(log) && ObservationOf(obs, log)
    ensures var visible := Visible(log, obs.role, obs.team.WerewolfTeam?);
            Gathered(obs, ById(log)) == Side(visible, true) + Side(visible, false)
  {
    hide Known, Dedupe, PublicRefs, PrivateRefs, Without, Side, Visible, ById, WellKept;
    assert log[..|log|] == log;
    KnownPublic(log, |log|);
    KnownPrivate(log, |log|, obs.role, obs.team.WerewolfTeam?);
    PrivateDistinct(log, |log|, obs.role, obs.team.WerewolfTeam?);
    PublicAreVisible(log, obs.role, obs.team.WerewolfTeam?);
    DedupeAppend(obs.publicIds, obs.privateIds);
    KnownAppend(obs.publicIds, Without(obs.privateIds, obs.publicIds), ById(log));
  }

  lemma {:induction false} SideSame(a: seq<Told>, b: seq<Told>, public: bool)
    requires SameFaces(a, b)
    ensures SameFaces(Side(a, public), Side(b, public))
  {
    if a != [] {
      var a', b' := a[..|a| - 1], b[..|b| - 1];
      assert forall i :: 0 <= i < |a'| ==> a'[i] == a[i] && b'[i] == b[i];
      SideSame(a', b', public);
      SameSection(a[|a| - 1], b[|b| - 1]);
    }
  }

  lemma {:induction false} NarratedSame(a: seq<Told>, b: seq<Told>)
    requires SameFaces(a, b)
    ensures SameFaces(Narrated(a), Narrated(b))
  {
    if a != [] {
      var a', b' := a[..|a| - 1], b[..|b| - 1];
      assert forall i :: 0 <= i < |a'| ==> a'[i] == a[i] && b'[i] == b[i];
      NarratedSame(a', b');
      SameSection(a[|a| - 1], b[|b| - 1]);
    }
  }

  /** The same for the first renderer. */
  lemma UnseenCannotMatterV1(logA: seq<Told>, obsA: Observation, logB: seq<Told>, obsB: Observation)
    requires WellKept(logA) && ObservationOf(obsA, logA) && WellKept(logB) && ObservationOf(obsB, logB)
    requires obsB == obsA.(publicIds := obsB.publicIds, privateIds := obsB.privateIds)
    requires SameFaces(Visible(logA, obsA.role, obsA.team.WerewolfTeam?), Visible(logB, obsA.role, obsA.team.WerewolfTeam?))
    ensures TextV1(obsA, Gathered(obsA, ById(logA))) == TextV1(obsB, Gathered(obsB, ById(logB)))
  {
    hide Visible, Gathered, ById, WellKept, Face, Side, Narrated, ObservationOf, Lines;
    var a, b := Visible(logA, obsA.role, obsA.team.WerewolfTeam?), Visible(logB, obsA.role, obsA.team.WerewolfTeam?);
    GatheredInOrder(logA, obsA);
    GatheredInOrder(logB, obsB);
    SideSame(a, b, true);
    SideSame(a, b, false);
    FacesAppend(Side(a, true), Side(b, true), Side(a, false), Side(b, false));
    hide SameFaces;
    NarratedSame(Side(a, true) + Side(a, false), Side(b, true) + Side(b, false));
    LinesSame(Narrated(Side(a, true) + Side(a, false)), Narrated(Side(b, true) + Side(b, false)), PrivateSection);
  }

  lemma FacesAppend(a: seq<Told>, b: seq<Told>, c: seq<Told>, d: seq<Told>)
    requires SameFaces(a, b) && SameFaces(c, d)
    ensures SameFaces(a + c, b + d)
  {
    hide Face;
  }
}
