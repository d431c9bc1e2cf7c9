/**
  The observation renderers: what a seat's prompt shows of the log, as structured lines. The wording of a line is fixed
  by the fields it carries.
*/
module Rendering {
  import opened Logs
  import opened RoleVisibility

  /** An event together with its narration. */
  datatype Told = Told(event: Event, summary: string)

  datatype Observation = Observation(
    player: Name, role: Role, team: Team, phase: Phase, round: int, alive: seq<Name>, publicIds: seq<string>,
    privateIds: seq<string>, known: map<Name, Role>)

  datatype Line =
    | WhoLine(player: Name, role: Role, team: Team)
    | NowLine(round: int, phase: Phase, alive: seq<Name>)
    | KnownLine(known: map<Name, Role>)
    | Heading(text: string)
    | EventLine(round: int, phase: Phase, summary: string)
    | SpeechLine(round: int, actor: Name, summary: string)
    | VoteLine(round: int, votes: seq<(Name, Name)>)

  function Events(log: seq<Told>): (events: seq<Event>)
    ensures |events| == |log| && forall i :: 0 <= i < |log| ==> events[i] == log[i].event
  {
    seq(|log|, i requires 0 <= i < |log| => log[i].event)
  }

  /** The lookup table the renderers are handed: ids to events. */
  function ById(log: seq<Told>): map<string, Told> {
    if log == [] then map[] else ById(log[..|log| - 1])[log[|log| - 1].event.id := log[|log| - 1]]
  }

  // ---- gathering what may be shown ------------------------------------------------------

  /** References in order, each only the first time. */
  function Dedupe(refs: seq<string>): (out: seq<string>)
    ensures forall r :: r in out <==> r in refs
    ensures Distinct(out)
  {
    if refs == [] then []
    else
      var init, last := refs[..|refs| - 1], refs[|refs| - 1];
      assert forall r :: r in refs <==> r in init || r == last;
      if last in Dedupe(init) then Dedupe(init) else Dedupe(init) + [last]
  }

  method Gather(refs: seq<string>) returns (visible: seq<string>)
    ensures visible == Dedupe(refs)
  {
    visible := [];
    var seen: set<string> := {};
    for i := 0 to |refs|
      invariant visible == Dedupe(refs[..i])
      invariant forall r :: r in seen <==> r in visible
    {
      assert refs[..i + 1][..i] == refs[..i];
      if refs[i] !in seen {
        seen := seen + {refs[i]};
        visible := visible + [refs[i]];
      }
    }
    assert refs[..|refs|] == refs;
  }

  function Known(refs: seq<string>, byId: map<string, Told>): (known: seq<Told>)
    ensures forall t :: t in known <==> exists r :: r in refs && r in byId && byId[r] == t
  {
    if refs == [] then []
    else
      var init, last := refs[..|refs| - 1], refs[|refs| - 1];
      assert forall r :: r in refs <==> r in init || r == last;
      if last in byId then Known(init, byId) + [byId[last]] else Known(init, byId)
  }

  // ---- sorting by sequence -----------------------------------------------------------------

  /** Insert before the first entry with a larger sequence: a stable insertion. */
  function Insert(t: Told, sorted: seq<Told>): seq<Told> {
    if sorted == [] then [t]
    else if sorted[|sorted| - 1].event.sequence <= t.event.sequence then sorted + [t]
    else Insert(t, sorted[..|sorted| - 1]) + [sorted[|sorted| - 1]]
  }

  function SortBySequence(ts: seq<Told>): seq<Told> {
    if ts == [] then [] else Insert(ts[|ts| - 1], SortBySequence(ts[..|ts| - 1]))
  }

  predicate Ascending(ts: seq<Told>) {
    forall i, j :: 0 <= i < j < |ts| ==> ts[i].event.sequence <= ts[j].event.sequence
  }

  predicate StrictlyAscending(ts: seq<Told>) {
    forall i, j :: 0 <= i < j < |ts| ==> ts[i].event.sequence < ts[j].event.sequence
  }

  lemma {:induction false} InsertKeepsMembers(t: Told, sorted: seq<Told>)
    ensures multiset(Insert(t, sorted)) == multiset(sorted) + multiset{t}
    ensures forall x :: x in Insert(t, sorted) <==> x in sorted || x == t
  {
    if sorted != [] {
      var init, last := sorted[..|sorted| - 1], sorted[|sorted| - 1];
      assert sorted == init + [last];
      InsertKeepsMembers(t, init);
    }
  }

  lemma {:induction false} InsertSorts(t: Told, sorted: seq<Told>)
    requires Ascending(sorted)
    ensures Ascending(Insert(t, sorted))
  {
    if sorted != [] && sorted[|sorted| - 1].event.sequence > t.event.sequence {
      var init, last := sorted[..|sorted| - 1], sorted[|sorted| - 1];
      assert Ascending(init) by { assert forall i :: 0 <= i < |init| ==> init[i] == sorted[i]; }
      InsertSorts(t, init);
      InsertKeepsMembers(t, init);
      AscendingSnoc(Insert(t, init), last, init, t);
    }
  }

  lemma AscendingSnoc(ts: seq<Told>, last: Told, init: seq<Told>, t: Told)
    requires Ascending(ts) && Ascending(init + [last]) && t.event.sequence <= last.event.sequence
    requires forall x :: x in ts <==> x in init || x == t
    ensures Ascending(ts + [last])
  {
    forall i | 0 <= i < |ts| ensures ts[i].event.sequence <= last.event.sequence {
      assert ts[i] in ts;
      if ts[i] in init {
        var j :| 0 <= j < |init| && init[j] == ts[i];
        assert (init + [last])[j] == ts[i] && (init + [last])[|init|] == last;
      }
    }
  }

  lemma {:induction false} SortSorts(ts: seq<Told>)
    ensures Ascending(SortBySequence(ts)) && multiset(SortBySequence(ts)) == multiset(ts)
    ensures forall x :: x in SortBySequence(ts) <==> x in ts
  {
    if ts != [] {
      var init, last := ts[..|ts| - 1], ts[|ts| - 1];
      assert ts == init + [last];
      SortSorts(init);
      InsertSorts(last, SortBySequence(init));
      InsertKeepsMembers(last, SortBySequence(init));
    }
  }

  /** Two strictly ascending lists with the same members are the same list. */
  lemma {:induction false} SameMembersSameList(a: seq<Told>, b: seq<Told>)
    requires StrictlyAscending(a) && StrictlyAscending(b)
    requires forall x :: x in a <==> x in b
    ensures a == b
  {
    if a == [] || b == [] {
      HasMember(a);
      HasMember(b);
    } else {
      var a', b' := a[..|a| - 1], b[..|b| - 1];
      SameLast(a, b);
      InitAscends(a, a');
      InitAscends(b, b');
      WithoutLast(a, a');
      WithoutLast(b, b');
      hide StrictlyAscending;
      SameMembersSameList(a', b');
      assert a == a' + [a[|a| - 1]] && b == b' + [b[|b| - 1]];
    }
  }

  lemma HasMember(ts: seq<Told>)
    ensures ts != [] ==> exists x :: x in ts
  {
    if ts != [] { assert ts[0] in ts; }
  }

  lemma InitAscends(ts: seq<Told>, init: seq<Told>)
    requires StrictlyAscending(ts) && ts != [] && init == ts[..|ts| - 1]
    ensures StrictlyAscending(init)
  {
  }

  lemma SameLast(a: seq<Told>, b: seq<Told>)
    requires StrictlyAscending(a) && StrictlyAscending(b) && a != [] && b != []
    requires forall x :: x in a <==> x in b
    ensures a[|a| - 1] == b[|b| - 1]
  {
    var x, y := a[|a| - 1], b[|b| - 1];
    assert x in a && y in b;
    LastIsLargest(a, y);
    LastIsLargest(b, x);
    OneOfEach(b, x, y);
  }

  lemma LastIsLargest(ts: seq<Told>, x: Told)
    requires StrictlyAscending(ts) && x in ts
    ensures x.event.sequence <= ts[|ts| - 1].event.sequence
  {
    var i :| 0 <= i < |ts| && ts[i] == x;
  }

  lemma OneOfEach(ts: seq<Told>, x: Told, y: Told)
    requires StrictlyAscending(ts) && x in ts && y in ts && x.event.sequence == y.event.sequence
    ensures x == y
  {
    var i :| 0 <= i < |ts| && ts[i] == x;
    var j :| 0 <= j < |ts| && ts[j] == y;
  }

  lemma WithoutLast(ts: seq<Told>, init: seq<Told>)
    requires StrictlyAscending(ts) && ts != [] && init == ts[..|ts| - 1]
    ensures forall x :: x in init <==> x in ts && x != ts[|ts| - 1]
  {
    assert ts == init + [ts[|ts| - 1]];
    forall x | x in init ensures x != ts[|ts| - 1] {
      var i :| 0 <= i < |init| && init[i] == x;
      assert ts[i].event.sequence < ts[|ts| - 1].event.sequence;
    }
  }
}
