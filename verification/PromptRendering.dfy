/** The two observation renderers and what they may depend on. */
module PromptRendering {
  import opened Logs
  import opened RoleVisibility
  import opened Rendering

  // ---- sections of the second renderer ---------------------------------------------------

  datatype Section = Untold | PrivateSection | SpeechSection | VoteSection | FactSection | OtherSection

  predicate PublicFact(k: EventKind) {
    k.PlayerDied? || k.PlayerEliminated? || k.RoleRevealed? || k.DayAnnouncement? || k.HunterShoot? || k.HunterPass?
  }

  function SectionFor(t: Told, isPublic: bool): Section {
    if t.summary == "" then Untold
    else if !isPublic then PrivateSection
    else if t.event.kind.PlayerSpeech? then SpeechSection
    else if t.event.kind.PlayerVote? then VoteSection
    else if PublicFact(t.event.kind) then FactSection
    else OtherSection
  }

  function LineFor(t: Told, s: Section): Line {
    if s.SpeechSection? then SpeechLine(t.event.round, t.event.actor, t.summary)
    else EventLine(t.event.round, t.event.phase, t.summary)
  }

  /** Which told events are public, as the renderer knows it: by their ids. */
  function ByIds(publicIds: seq<string>): Told -> bool { (t: Told) => t.event.id in publicIds }

  /** The entries of one section, in order. */
  function Pick(ts: seq<Told>, s: Section, isPublic: Told -> bool): seq<Told> {
    if ts == [] then []
    else
      var last := ts[|ts| - 1];
      if SectionFor(last, isPublic(last)) == s then Pick(ts[..|ts| - 1], s, isPublic) + [last]
      else Pick(ts[..|ts| - 1], s, isPublic)
  }

  function Lines(ts: seq<Told>, s: Section): (lines: seq<Line>)
    ensures |lines| == |ts|
  {
    seq(|ts|, i requires 0 <= i < |ts| => LineFor(ts[i], s))
  }

  // ---- the vote record, by round -------------------------------------------------------------

  function VotesIn(votes: seq<Told>, rnd: int): seq<(Name, Name)> {
    if votes == [] then []
    else
      var last := votes[|votes| - 1].event;
      if last.round == rnd then VotesIn(votes[..|votes| - 1], rnd) + [(last.actor, last.target)]
      else VotesIn(votes[..|votes| - 1], rnd)
  }

  function InsertRound(rounds: seq<int>, rnd: int): (out: seq<int>)
    ensures forall r :: r in out <==> r in rounds || r == rnd
  {
    if rounds == [] then [rnd]
    else
      var init, last := rounds[..|rounds| - 1], rounds[|rounds| - 1];
      assert forall r :: r in rounds <==> r in init || r == last;
      if last == rnd then rounds
      else if last < rnd then rounds + [rnd]
      else InsertRound(init, rnd) + [last]
  }

  /** The rounds that had a vote, ascending. */
  function VoteRounds(votes: seq<Told>): seq<int> {
    if votes == [] then [] else InsertRound(VoteRounds(votes[..|votes| - 1]), votes[|votes| - 1].event.round)
  }

  function VoteLines(votes: seq<Told>): seq<Line> {
    var rounds := VoteRounds(votes);
    seq(|rounds|, i requires 0 <= i < |rounds| => VoteLine(rounds[i], VotesIn(votes, rounds[i])))
  }

  // ---- composing the text ------------------------------------------------------------------------

  function Others(obs: Observation): map<Name, Role> { obs.known - {obs.player} }

  function Titled(title: string, lines: seq<Line>): seq<Line> {
    if lines == [] then [] else [Heading(title)] + lines
  }

  function KnownLines(obs: Observation): seq<Line> {
    if Others(obs) == map[] then [] else [KnownLine(Others(obs))]
  }

  /** The second renderer's text for what it may show, given in the order of the log. */
  function TextV2(obs: Observation, shown: seq<Told>, isPublic: Told -> bool): seq<Line> {
    [Heading("private"), WhoLine(obs.player, obs.role, obs.team)] + KnownLines(obs)
    + Titled("private events", Lines(Pick(shown, PrivateSection, isPublic), PrivateSection))
    + [Heading("public"), NowLine(obs.round, obs.phase, obs.alive)]
    + Titled("facts", Lines(Pick(shown, FactSection, isPublic), FactSection))
    + Titled("other", Lines(Pick(shown, OtherSection, isPublic), OtherSection))
    + Titled("speeches", Lines(Pick(shown, SpeechSection, isPublic), SpeechSection))
    + Titled("votes", VoteLines(Pick(shown, VoteSection, isPublic)))
  }

  /** The first renderer's text: one list of events. */
  function TextV1(obs: Observation, shown: seq<Told>): seq<Line> {
    [WhoLine(obs.player, obs.role, obs.team), NowLine(obs.round, obs.phase, obs.alive)] + KnownLines(obs)
    + Titled("events", Lines(Narrated(shown), PrivateSection))
  }

  function Narrated(ts: seq<Told>): seq<Told> {
    if ts == [] then []
    else if ts[|ts| - 1].summary != "" then Narrated(ts[..|ts| - 1]) + [ts[|ts| - 1]]
    else Narrated(ts[..|ts| - 1])
  }

  function Ids(ts: seq<Told>): seq<string> {
    seq(|ts|, i requires 0 <= i < |ts| => ts[i].event.id)
  }

  function Gathered(obs: Observation, byId: map<string, Told>): seq<Told> {
    Known(Dedupe(obs.publicIds + obs.privateIds), byId)
  }

  // ---- the renderers ----------------------------------------------------------------------------------

  method Lookup(refs: seq<string>, byId: map<string, Told>) returns (known: seq<Told>)
    ensures known == Known(refs, byId)
  {
    known := [];
    for i := 0 to |refs|
      invariant known == Known(refs[..i], byId)
    {
      assert refs[..i + 1][..i] == refs[..i];
      if refs[i] in byId {
        known := known + [byId[refs[i]]];
      }
    }
    assert refs[..|refs|] == refs;
  }

  method RenderObservation(obs: Observation, byId: map<string, Told>) returns (text: seq<Line>, sources: seq<string>)
    ensures text == TextV1(obs, Gathered(obs, byId)) && sources == Ids(Narrated(Gathered(obs, byId)))
  {
    hide Known, Dedupe;
    var refs := Gather(obs.publicIds + obs.privateIds);
    var visible := Lookup(refs, byId);
    text := [WhoLine(obs.player, obs.role, obs.team), NowLine(obs.round, obs.phase, obs.alive)];
    if Others(obs) != map[] {
      text := text + [KnownLine(Others(obs))];
    }
    var events: seq<Line> := [];
    sources := [];
    for i := 0 to |visible|
      invariant events == Lines(Narrated(visible[..i]), PrivateSection) && sources == Ids(Narrated(visible[..i]))
    {
      assert visible[..i + 1][..i] == visible[..i];
      var t := visible[i];
      if t.summary != "" {
        sources := sources + [t.event.id];
        events := events + [EventLine(t.event.round, t.event.phase, t.summary)];
      }
    }
    assert visible[..|visible|] == visible;
    if events != [] {
      text := text + [Heading("events")] + events;
    }
  }

  /** Votes grouped by round while the events go by. */
  ghost predicate Grouped(byRound: map<int, seq<(Name, Name)>>, votes: seq<Told>) {
    && (forall r :: r in byRound <==> r in VoteRounds(votes))
    && (forall r :: r in byRound ==> byRound[r] == VotesIn(votes, r))
  }

  lemma {:induction false} NoVotesIn(votes: seq<Told>, rnd: int)
    ensures rnd !in VoteRounds(votes) ==> VotesIn(votes, rnd) == []
  {
    if votes != [] {
      NoVotesIn(votes[..|votes| - 1], rnd);
    }
  }

  lemma GroupOne(byRound: map<int, seq<(Name, Name)>>, votes: seq<Told>, t: Told)
    requires Grouped(byRound, votes)
    ensures var r := t.event.round;
            Grouped(byRound[r := (if r in byRound then byRound[r] else []) + [(t.event.actor, t.event.target)]], votes + [t])
  {
    assert (votes + [t])[..|votes|] == votes;
    NoVotesIn(votes, t.event.round);
  }

  predicate Rising(rounds: seq<int>) {
    forall i, j :: 0 <= i < j < |rounds| ==> rounds[i] < rounds[j]
  }

  lemma {:induction false} InsertRises(rounds: seq<int>, rnd: int)
    requires Rising(rounds)
    ensures Rising(InsertRound(rounds, rnd))
  {
    if rounds != [] && rounds[|rounds| - 1] > rnd {
      var init := rounds[..|rounds| - 1];
      InsertRises(init, rnd);
      assert forall i :: 0 <= i < |InsertRound(init, rnd)| ==> InsertRound(init, rnd)[i] in InsertRound(init, rnd);
    }
  }

  lemma {:induction false} VoteRoundsRise(votes: seq<Told>)
    ensures Rising(VoteRounds(votes))
  {
    if votes != [] {
      VoteRoundsRise(votes[..|votes| - 1]);
      InsertRises(VoteRounds(votes[..|votes| - 1]), votes[|votes| - 1].event.round);
    }
  }

  lemma HasRound(rounds: seq<int>)
    ensures rounds != [] ==> exists r :: r in rounds
  {
    if rounds != [] {
      var first := rounds[0];
      assert first in rounds;
    }
  }

  lemma InitRounds(rounds: seq<int>, init: seq<int>)
    requires Rising(rounds) && rounds != [] && init == rounds[..|rounds| - 1]
    ensures Rising(init) && forall r :: r in init <==> r in rounds && r != rounds[|rounds| - 1]
  {
    assert rounds == init + [rounds[|rounds| - 1]];
  }

  /** Ascending lists of the same rounds are equal. */
  lemma {:induction false} RisingUnique(a: seq<int>, b: seq<int>)
    requires Rising(a) && Rising(b) && forall r :: r in a <==> r in b
    ensures a == b
  {
    if a == [] || b == [] {
      HasRound(a);
      HasRound(b);
    } else {
      var a', b' := a[..|a| - 1], b[..|b| - 1];
      assert a == a' + [a[|a| - 1]] && b == b' + [b[|b| - 1]];
      assert a[|a| - 1] in b && b[|b| - 1] in a;
      assert a[|a| - 1] == b[|b| - 1];
      InitRounds(a, a');
      InitRounds(b, b');
      RisingUnique(a', b');
    }
  }

  /** The rounds of the dictionary, sorted. */
  method SortedRounds(keys: seq<int>) returns (rounds: seq<int>)
    ensures Rising(rounds) && forall r :: r in rounds <==> r in keys
  {
    rounds := [];
    for i := 0 to |keys|
      invariant Rising(rounds) && forall r :: r in rounds <==> r in keys[..i]
    {
      InsertRises(rounds, keys[i]);
      rounds := InsertRound(rounds, keys[i]);
    }
  }

  /** The vote section: rounds ascending, each with its votes in order. */
  method WriteVotes(byRound: map<int, seq<(Name, Name)>>, order: seq<int>, ghost votes: seq<Told>) returns (lines: seq<Line>)
    requires Grouped(byRound, votes) && forall r :: r in order <==> r in byRound
    ensures lines == VoteLines(votes)
  {
    var rounds := SortedRounds(order);
    VoteRoundsRise(votes);
    RisingUnique(rounds, VoteRounds(votes));
    lines := [];
    for i := 0 to |rounds|
      invariant lines == VoteLines(votes)[..i]
    {
      assert rounds[i] in rounds;
      lines := lines + [VoteLine(rounds[i], byRound[rounds[i]])];
    }
  }

  lemma PickSnoc(ts: seq<Told>, t: Told, s: Section, isPublic: Told -> bool)
    ensures Pick(ts + [t], s, isPublic) == Pick(ts, s, isPublic) + if SectionFor(t, isPublic(t)) == s then [t] else []
  {
    assert (ts + [t])[..|ts|] == ts;
  }

  lemma LinesSnoc(ts: seq<Told>, t: Told, s: Section)
    ensures Lines(ts + [t], s) == Lines(ts, s) + [LineFor(t, s)]
  {
  }

  /** One more event makes its own section's lines one longer and leaves the others alone. */
  lemma SectionLinesSnoc(ts: seq<Told>, t: Told, s: Section, isPublic: Told -> bool)
    ensures Lines(Pick(ts + [t], s, isPublic), s) ==
            Lines(Pick(ts, s, isPublic), s) + if SectionFor(t, isPublic(t)) == s then [LineFor(t, s)] else []
  {
    hide Pick, Lines, SectionFor, LineFor;
    PickSnoc(ts, t, s, isPublic);
    LinesSnoc(Pick(ts, s, isPublic), t, s);
    assert Pick(ts, s, isPublic) + [] == Pick(ts, s, isPublic);
  }

  method RenderObservationV2(obs: Observation, byId: map<string, Told>) returns (text: seq<Line>, sources: seq<string>)
    ensures text == TextV2(obs, SortBySequence(Gathered(obs, byId)), ByIds(obs.publicIds))
    ensures sources == Ids(Narrated(SortBySequence(Gathered(obs, byId))))
  {
    hide SortBySequence, Known, Dedupe, Grouped, VoteLines, VoteRounds, Pick, Lines, Titled, KnownLines, Others;
    var refs := Gather(obs.publicIds + obs.privateIds);
    var found := Lookup(refs, byId);
    var ordered := SortBySequence(found);
    var isPublic := ByIds(obs.publicIds);
    NoLines(isPublic);
    sources := [];
    var private, facts, others, speeches: seq<Line> := [], [], [], [];
    var byRound: map<int, seq<(Name, Name)>> := map[];
    var order: seq<int> := [];
    ghost var votes: seq<Told> := [];
    assert Grouped(byRound, []) by { NothingGrouped(); }
    for i := 0 to |ordered|
      invariant sources == Ids(Narrated(ordered[..i]))
      invariant private == Lines(Pick(ordered[..i], PrivateSection, isPublic), PrivateSection)
      invariant facts == Lines(Pick(ordered[..i], FactSection, isPublic), FactSection)
      invariant others == Lines(Pick(ordered[..i], OtherSection, isPublic), OtherSection)
      invariant speeches == Lines(Pick(ordered[..i], SpeechSection, isPublic), SpeechSection)
      invariant votes == Pick(ordered[..i], VoteSection, isPublic) && Grouped(byRound, votes)
      invariant forall r :: r in order <==> r in byRound
    {
      var t := ordered[i];
      assert ordered[..i + 1] == ordered[..i] + [t] && ordered[..i + 1][..i] == ordered[..i];
      SectionLinesSnoc(ordered[..i], t, PrivateSection, isPublic);
      SectionLinesSnoc(ordered[..i], t, FactSection, isPublic);
      SectionLinesSnoc(ordered[..i], t, OtherSection, isPublic);
      SectionLinesSnoc(ordered[..i], t, SpeechSection, isPublic);
      PickSnoc(ordered[..i], t, VoteSection, isPublic);
      if t.summary != "" {
        sources := sources + [t.event.id];
        if t.event.id !in obs.publicIds {
          private := private + [EventLine(t.event.round, t.event.phase, t.summary)];
        } else if t.event.kind.PlayerSpeech? {
          speeches := speeches + [SpeechLine(t.event.round, t.event.actor, t.summary)];
        } else if t.event.kind.PlayerVote? {
          GroupOne(byRound, votes, t);
          var r := t.event.round;
          if r !in byRound {
            order := order + [r];
          }
          byRound := byRound[r := (if r in byRound then byRound[r] else []) + [(t.event.actor, t.event.target)]];
          votes := votes + [t];
        } else if PublicFact(t.event.kind) {
          facts := facts + [EventLine(t.event.round, t.event.phase, t.summary)];
        } else {
          others := others + [EventLine(t.event.round, t.event.phase, t.summary)];
        }
      }
    }
    assert ordered[..|ordered|] == ordered;
    var voteLines := WriteVotes(byRound, order, votes);
    text := [Heading("private"), WhoLine(obs.player, obs.role, obs.team)] + KnownLines(obs)
      + Titled("private events", private) + [Heading("public"), NowLine(obs.round, obs.phase, obs.alive)]
      + Titled("facts", facts) + Titled("other", others) + Titled("speeches", speeches) + Titled("votes", voteLines);
  }

  lemma NoLines(isPublic: Told -> bool)
    ensures forall s :: Pick([], s, isPublic) == []
  {
  }

  lemma NothingGrouped()
    ensures Grouped(map[], [])
  {
  }
}
