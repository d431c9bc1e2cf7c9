/** Which memory records a seat's prompt packet includes, compacts or drops. */
module ContextPacket {
  import opened Logs

  datatype Scope = PublicScope | SeatPrivate | FactionPrivate | OtherScope(text: string)

  datatype MemoryRecord = MemoryRecord(
    id: string, scope: Scope, seats: set<string>, authorized: set<string>, teams: set<string>, body: string)

  predicate VisibleTo(r: MemoryRecord, seat: string, teams: set<string>) {
    match r.scope
    case PublicScope => true
    case SeatPrivate => seat in r.seats
    case FactionPrivate => seat in r.authorized && teams * r.teams != {}
    case OtherScope(_) => false
  }

  function VisibleRecords(records: seq<MemoryRecord>, seat: string, teams: set<string>): seq<MemoryRecord> {
    if records == [] then []
    else
      var rest, last := VisibleRecords(records[..|records| - 1], seat, teams), records[|records| - 1];
      if VisibleTo(last, seat, teams) then rest + [last] else rest
  }

  lemma {:induction false} VisibleExactly(records: seq<MemoryRecord>, seat: string, teams: set<string>)
    ensures forall r :: r in VisibleRecords(records, seat, teams) <==>
              r in records && (|| r.scope == PublicScope
                               || (r.scope == SeatPrivate && seat in r.seats)
                               || (r.scope == FactionPrivate && seat in r.authorized
                                   && exists t :: t in teams && t in r.teams))
  {
    if records != [] {
      var init, last := records[..|records| - 1], records[|records| - 1];
      assert forall r :: r in records <==> r in init || r == last;
      VisibleExactly(init, seat, teams);
      assert teams * last.teams != {} <==> exists t :: t in teams && t in last.teams by {
        if t :| t in teams && t in last.teams { assert t in teams * last.teams; }
      }
    }
  }

  datatype Budget = Budget(compacted: set<string>, limit: Option<nat>)

  datatype Selection = Selection(
    records: seq<MemoryRecord>, included: seq<string>, compacted: seq<string>, dropped: seq<string>)

  predicate Full(b: Budget, included: nat) { b.limit.Some? && included >= b.limit.value }

  /** One more visible record: compacted ones are kept for free, others while there is room. */
  function Take(s: Selection, r: MemoryRecord, b: Budget): Selection {
    if r.id in b.compacted then s.(records := s.records + [r], compacted := s.compacted + [r.id])
    else if Full(b, |s.included|) then s.(dropped := s.dropped + [r.id])
    else s.(records := s.records + [r], included := s.included + [r.id])
  }

  function Chosen(visible: seq<MemoryRecord>, b: Budget): Selection {
    if visible == [] then Selection([], [], [], [])
    else Take(Chosen(visible[..|visible| - 1], b), visible[|visible| - 1], b)
  }

  datatype Selected = Refused | Ok(selection: Selection)

  // ---- which records that is ---------------------------------------------------------------------

  function Ids(records: seq<MemoryRecord>): (ids: seq<string>)
    ensures |ids| == |records| && forall i :: 0 <= i < |records| ==> ids[i] == records[i].id
  {
    seq(|records|, i requires 0 <= i < |records| => records[i].id)
  }

  /** The records that are compacted, or those that are not, in order. */
  function Marked(visible: seq<MemoryRecord>, ids: set<string>, inside: bool): seq<MemoryRecord> {
    if visible == [] then []
    else
      Marked(visible[..|visible| - 1], ids, inside) +
      if (visible[|visible| - 1].id in ids) == inside then [visible[|visible| - 1]] else []
  }

  /** All compacted records are kept; of the others the first ones up to the limit are, and the rest are dropped. */
  predicate Divided(s: Selection, visible: seq<MemoryRecord>, compactedIds: set<string>, limit: Option<int>)
    requires limit.Some? ==> limit.value >= 0
  {
    var plain := Ids(Marked(visible, compactedIds, false));
    var room := if limit.Some? && limit.value < |plain| then limit.value else |plain|;
    s.compacted == Ids(Marked(visible, compactedIds, true)) && s.included == plain[..room] && s.dropped == plain[room..]
  }

  lemma MarkedSnoc(visible: seq<MemoryRecord>, r: MemoryRecord, ids: set<string>, inside: bool)
    ensures Ids(Marked(visible + [r], ids, inside)) ==
            Ids(Marked(visible, ids, inside)) + if (r.id in ids) == inside then [r.id] else []
  {
    assert (visible + [r])[..|visible|] == visible;
  }

  lemma {:induction false} ChosenDivides(visible: seq<MemoryRecord>, b: Budget)
    ensures Divided(Chosen(visible, b), visible, b.compacted, b.limit)
  {
    if visible != [] {
      var init, last := visible[..|visible| - 1], visible[|visible| - 1];
      ChosenDivides(init, b);
      assert visible == init + [last];
      MarkedSnoc(init, last, b.compacted, true);
      MarkedSnoc(init, last, b.compacted, false);
      hide Marked, Ids;
    }
  }

  lemma {:induction false} ChosenAreVisible(visible: seq<MemoryRecord>, b: Budget)
    ensures forall r :: r in Chosen(visible, b).records ==> r in visible
    ensures forall r :: r in visible && (b.limit.None? || r.id in b.compacted) ==> r in Chosen(visible, b).records
  {
    if visible != [] {
      ChosenAreVisible(visible[..|visible| - 1], b);
      assert visible == visible[..|visible| - 1] + [visible[|visible| - 1]];
    }
  }

  method SelectVisiblePacket(wellFormed: bool, records: seq<MemoryRecord>, seat: string, teams: set<string>,
                             maxRecords: Option<int>, compactedIds: set<string>) returns (result: Selected)
    ensures result.Refused? <==> !wellFormed || (maxRecords.Some? && maxRecords.value < 0)
    ensures result.Ok? ==>
              result.selection == Chosen(VisibleRecords(records, seat, teams),
                                         Budget(compactedIds, if maxRecords.Some? then Some(maxRecords.value) else None))
    ensures result.Ok? ==>
              forall r :: r in result.selection.records ==>
                && r in records && !r.scope.OtherScope?
                && (r.scope == SeatPrivate ==> seat in r.seats)
                && (r.scope == FactionPrivate ==> seat in r.authorized && exists t :: t in teams && t in r.teams)
    ensures result.Ok? ==>
              forall r :: r in records && (maxRecords.None? || r.id in compactedIds)
                          && (|| r.scope == PublicScope
                              || (r.scope == SeatPrivate && seat in r.seats)
                              || (r.scope == FactionPrivate && seat in r.authorized
                                  && exists t :: t in teams && t in r.teams)) ==>
                r in result.selection.records
    ensures result.Ok? ==>
              Divided(result.selection, VisibleRecords(records, seat, teams), compactedIds, maxRecords)
  {
    if !wellFormed || (maxRecords.Some? && maxRecords.value < 0) {
      return Refused;
    }
    ghost var b := Budget(compactedIds, if maxRecords.Some? then Some(maxRecords.value) else None);
    var visible: seq<MemoryRecord> := [];
    for i := 0 to |records|
      invariant visible == VisibleRecords(records[..i], seat, teams)
    {
      assert records[..i + 1][..i] == records[..i];
      if VisibleTo(records[i], seat, teams) {
        visible := visible + [records[i]];
      }
    }
    assert records[..|records|] == records;
    var selected: seq<MemoryRecord> := [];
    var included, compacted, dropped: seq<string> := [], [], [];
    var includedCount := 0;
    for i := 0 to |visible|
      invariant Chosen(visible[..i], b) == Selection(selected, included, compacted, dropped) && includedCount == |included|
    {
      assert visible[..i + 1][..i] == visible[..i];
      var r := visible[i];
      if r.id in compactedIds {
        selected := selected + [r];
        compacted := compacted + [r.id];
      } else if maxRecords.Some? && includedCount >= maxRecords.value {
        dropped := dropped + [r.id];
      } else {
        selected := selected + [r];
        included := included + [r.id];
        includedCount := includedCount + 1;
      }
    }
    assert visible[..|visible|] == visible;
    VisibleExactly(records, seat, teams);
    ChosenAreVisible(visible, b);
    ChosenDivides(visible, b);
    return Ok(Selection(selected, included, compacted, dropped));
  }

  // ---- what a selection keeps ----------------------------------------------------------------

  /** The records a selection keeps are those of the list that satisfy p, in the list's order. */
  function Keep(records: seq<MemoryRecord>, p: nat -> bool): seq<MemoryRecord> {
    if records == [] then []
    else
      var rest := Keep(records[..|records| - 1], p);
      if p(|records| - 1) then rest + [records[|records| - 1]] else rest
  }

  predicate Partitions(s: Selection, visible: seq<MemoryRecord>) {
    multiset(s.included) + multiset(s.compacted) + multiset(s.dropped) == multiset(Ids(visible))
  }

  predicate WithinBudget(s: Selection, visible: seq<MemoryRecord>, b: Budget) {
    && |s.records| == |s.included| + |s.compacted|
    && (b.limit.Some? ==> |s.included| <= b.limit.value)
    && (b.limit.None? ==> s.dropped == [] && s.records == visible)
    && (s.dropped != [] ==> b.limit.Some? && |s.included| == b.limit.value)
  }

  lemma IdsSnoc(visible: seq<MemoryRecord>, r: MemoryRecord)
    ensures multiset(Ids(visible + [r])) == multiset(Ids(visible)) + multiset{r.id}
  {
    assert Ids(visible + [r]) == Ids(visible) + [r.id];
  }

  lemma TakePartitions(s: Selection, visible: seq<MemoryRecord>, r: MemoryRecord, b: Budget)
    requires Partitions(s, visible)
    ensures Partitions(Take(s, r, b), visible + [r])
  {
    hide Ids;
    IdsSnoc(visible, r);
  }

  /** Every visible record goes to exactly one of the three lists, and no more than the limit are included. */
  lemma {:induction false} SelectionPartitions(visible: seq<MemoryRecord>, b: Budget)
    ensures Partitions(Chosen(visible, b), visible) && WithinBudget(Chosen(visible, b), visible, b)
  {
    if visible != [] {
      var init, last := visible[..|visible| - 1], visible[|visible| - 1];
      SelectionPartitions(init, b);
      assert visible == init + [last];
      ChosenSnoc(init, last, b);
      TakePartitions(Chosen(init, b), init, last, b);
    }
  }

  /** Which positions survive: a record is kept if it is compacted, or while the room lasts. */
  predicate Survives(visible: seq<MemoryRecord>, b: Budget, i: nat)
    requires i < |visible|
  {
    visible[i].id in b.compacted || !Full(b, |Chosen(visible[..i], b).included|)
  }

  function Survivors(visible: seq<MemoryRecord>, b: Budget): nat -> bool {
    (i: nat) => i < |visible| && Survives(visible, b, i)
  }

  /** The kept records are the surviving ones, in order. */
  lemma {:induction false} SelectionKeepsOrder(visible: seq<MemoryRecord>, b: Budget, n: nat)
    requires n <= |visible|
    ensures Chosen(visible[..n], b).records == Keep(visible[..n], Survivors(visible, b))
  {
    if n > 0 {
      SelectionKeepsOrder(visible, b, n - 1);
      assert visible[..n][..n - 1] == visible[..n - 1];
    }
  }

  // ---- selecting again changes nothing --------------------------------------------------------

  lemma ChosenSnoc(visible: seq<MemoryRecord>, r: MemoryRecord, b: Budget)
    ensures Chosen(visible + [r], b) == Take(Chosen(visible, b), r, b)
  {
    assert (visible + [r])[..|visible|] == visible;
  }

  /** A selected packet, selected again under the same budget, keeps everything it has. */
  lemma {:induction false} SelectingAgainKeepsAll(visible: seq<MemoryRecord>, b: Budget)
    ensures var s := Chosen(visible, b);
            Chosen(s.records, b) == Selection(s.records, s.included, s.compacted, [])
  {
    if visible != [] {
      var init, last := visible[..|visible| - 1], visible[|visible| - 1];
      SelectingAgainKeepsAll(init, b);
      var before := Chosen(init, b);
      assert visible == init + [last];
      ChosenSnoc(init, last, b);
      ChosenSnoc(before.records, last, b);
      hide Chosen;
    }
  }

  lemma {:induction false} AllVisible(records: seq<MemoryRecord>, seat: string, teams: set<string>)
    requires forall r :: r in records ==> VisibleTo(r, seat, teams)
    ensures VisibleRecords(records, seat, teams) == records
  {
    if records != [] {
      assert records == records[..|records| - 1] + [records[|records| - 1]];
      AllVisible(records[..|records| - 1], seat, teams);
    }
  }

  /** Whatever list a packet is cut from, its seat may read every record of the cut, so filtering it again keeps it whole. */
  lemma SelectedAreVisible(records: seq<MemoryRecord>, b: Budget, seat: string, teams: set<string>)
    ensures var kept := Chosen(VisibleRecords(records, seat, teams), b).records;
            && VisibleRecords(kept, seat, teams) == kept
            && forall r :: r in kept ==>
                 || r.scope == PublicScope
                 || (r.scope == SeatPrivate && seat in r.seats)
                 || (r.scope == FactionPrivate && seat in r.authorized && exists t :: t in teams && t in r.teams)
  {
    var visible := VisibleRecords(records, seat, teams);
    var kept := Chosen(visible, b).records;
    VisibleExactly(records, seat, teams);
    ChosenAreVisible(visible, b);
    forall r | r in kept ensures VisibleTo(r, seat, teams) {
      if r.scope == FactionPrivate {
        var t :| t in teams && t in r.teams;
        assert t in teams * r.teams;
      }
    }
    AllVisible(kept, seat, teams);
  }

  // ---- invisible records cannot matter -----------------------------------------------------------

  lemma {:induction false} VisibleAppend(a: seq<MemoryRecord>, c: seq<MemoryRecord>, seat: string, teams: set<string>)
    ensures VisibleRecords(a + c, seat, teams) == VisibleRecords(a, seat, teams) + VisibleRecords(c, seat, teams)
  {
    if c == [] {
      assert a + c == a;
    } else {
      assert (a + c)[..|a + c| - 1] == a + c[..|c| - 1];
      VisibleAppend(a, c[..|c| - 1], seat, teams);
    }
  }

  lemma {:induction false} NoneVisible(hidden: seq<MemoryRecord>, seat: string, teams: set<string>)
    requires forall r :: r in hidden ==> !VisibleTo(r, seat, teams)
    ensures VisibleRecords(hidden, seat, teams) == []
  {
    if hidden != [] {
      assert hidden == hidden[..|hidden| - 1] + [hidden[|hidden| - 1]];
      NoneVisible(hidden[..|hidden| - 1], seat, teams);
    }
  }

  /** Putting records a seat may not see anywhere into the packet leaves its selection as it was. */
  lemma InvisibleRecordsCannotMatter(a: seq<MemoryRecord>, hidden: seq<MemoryRecord>, c: seq<MemoryRecord>, seat: string,
                                     teams: set<string>, b: Budget)
    requires forall r :: r in hidden ==>
               && r.scope != PublicScope && (r.scope == SeatPrivate ==> seat !in r.seats)
               && (r.scope == FactionPrivate ==> seat !in r.authorized || forall t :: t in teams ==> t !in r.teams)
    ensures Chosen(VisibleRecords(a + hidden + c, seat, teams), b) == Chosen(VisibleRecords(a + c, seat, teams), b)
  {
    VisibleAppend(a + hidden, c, seat, teams);
    VisibleAppend(a, hidden, seat, teams);
    VisibleAppend(a, c, seat, teams);
    NoneVisible(hidden, seat, teams);
    assert VisibleRecords(a, seat, teams) + [] == VisibleRecords(a, seat, teams);
  }
}
