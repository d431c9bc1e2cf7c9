/** The continuity store: role-private memory derived from the engine's events as they happen. */
module Continuity {
  import opened Logs

  datatype WitchFlags = WitchFlags(antidoteUsed: bool, poisonUsed: bool)

  datatype RecordId = SeerRecord(seat: Name) | WitchRecord(seat: Name) | OtherRecord(text: string)

  datatype AbilityRecord = AbilityRecord(id: RecordId, sources: seq<string>, round: int, phase: Phase, target: Name)

  datatype Signal = Signal(seat: Name, record: RecordId, event: string)

  // ---- what the fed events imply ----------------------------------------------------------------

  predicate IsPotion(k: EventKind) { k.WitchSave? || k.WitchPoison? || k.WitchPass? }

  /** The potion flags of a seat that acted as witch: whether it has saved, whether it has poisoned. */
  function ReplayFlags(events: seq<Event>, seat: Name): Option<WitchFlags> {
    if events == [] then None
    else
      var e, before := events[|events| - 1], ReplayFlags(events[..|events| - 1], seat);
      if IsPotion(e.kind) && e.actor == seat then
        var f := if before.Some? then before.value else WitchFlags(false, false);
        Some(WitchFlags(f.antidoteUsed || e.kind.WitchSave?, f.poisonUsed || e.kind.WitchPoison?))
      else before
  }

  function AddOnce(ids: seq<string>, id: string): seq<string> { if id in ids then ids else ids + [id] }

  /** The ids of a seat's checks, in order, each once. */
  function ReplayChecks(events: seq<Event>, seat: Name): seq<string> {
    if events == [] then []
    else
      var e, before := events[|events| - 1], ReplayChecks(events[..|events| - 1], seat);
      if e.kind.SeerCheck? && e.actor == seat then AddOnce(before, e.id) else before
  }

  /** The ids of a seat's potion events, in order, each once. */
  function ReplayPotions(events: seq<Event>, seat: Name): seq<string> {
    if events == [] then []
    else
      var e, before := events[|events| - 1], ReplayPotions(events[..|events| - 1], seat);
      if IsPotion(e.kind) && e.actor == seat then AddOnce(before, e.id) else before
  }

  /** What the flags mean: a potion is used exactly when some event by this seat used it. */
  lemma {:induction false} FlagsExactly(events: seq<Event>, seat: Name)
    ensures ReplayFlags(events, seat).Some? <==> exists e :: e in events && e.kind in {WitchSave, WitchPoison, WitchPass} && e.actor == seat
    ensures ReplayFlags(events, seat).Some? ==>
              && (ReplayFlags(events, seat).value.antidoteUsed <==> exists e :: e in events && e.kind.WitchSave? && e.actor == seat)
              && (ReplayFlags(events, seat).value.poisonUsed <==> exists e :: e in events && e.kind.WitchPoison? && e.actor == seat)
  {
    if events != [] {
      var init, last := events[..|events| - 1], events[|events| - 1];
      FlagsExactly(init, seat);
      assert forall e :: e in events <==> e in init || e == last by { assert events == init + [last]; }
    }
  }

  lemma {:induction false} ChecksExactly(events: seq<Event>, seat: Name, id: string)
    ensures id in ReplayChecks(events, seat) <==> exists e :: e in events && e.kind.SeerCheck? && e.actor == seat && e.id == id
    ensures Distinct(ReplayChecks(events, seat))
  {
    if events != [] {
      var init, last := events[..|events| - 1], events[|events| - 1];
      ChecksExactly(init, seat, id);
      assert forall e :: e in events <==> e in init || e == last by { assert events == init + [last]; }
      var before := ReplayChecks(init, seat);
      assert forall i :: 0 <= i < |before| ==> before[i] in before;
    }
  }

  // ---- the records of a packet -------------------------------------------------------------------

  function Without(records: seq<AbilityRecord>, id: RecordId): (rest: seq<AbilityRecord>)
    ensures forall r :: r in rest <==> r in records && r.id != id
  {
    if records == [] then []
    else
      var init, last := records[..|records| - 1], records[|records| - 1];
      assert forall r :: r in records <==> r in init || r == last;
      if last.id == id then Without(init, id) else Without(init, id) + [last]
  }

  /** A record replaces the one with its id and goes to the end. */
  function Upserted(records: seq<AbilityRecord>, r: AbilityRecord): seq<AbilityRecord> { Without(records, r.id) + [r] }

  predicate OnePerId(records: seq<AbilityRecord>) {
    forall i, j :: 0 <= i < j < |records| ==> records[i].id != records[j].id
  }

  lemma {:induction false} WithoutKeepsOnePerId(records: seq<AbilityRecord>, id: RecordId)
    requires OnePerId(records)
    ensures OnePerId(Without(records, id))
  {
    if records != [] {
      var init, last := records[..|records| - 1], records[|records| - 1];
      assert OnePerId(init) by { assert forall i :: 0 <= i < |init| ==> init[i] == records[i]; }
      WithoutKeepsOnePerId(init, id);
      var rest := Without(init, id);
      forall i | 0 <= i < |rest| ensures rest[i].id != last.id {
        assert rest[i] in rest;
        var k :| 0 <= k < |init| && init[k] == rest[i];
        assert records[k].id != records[|records| - 1].id;
      }
    }
  }

  lemma UpsertedHolds(records: seq<AbilityRecord>, r: AbilityRecord)
    requires OnePerId(records)
    ensures OnePerId(Upserted(records, r))
    ensures forall x :: x in Upserted(records, r) <==> (x in records && x.id != r.id) || x == r
  {
    WithoutKeepsOnePerId(records, r.id);
    var rest := Without(records, r.id);
    assert forall i :: 0 <= i < |rest| ==> rest[i] in rest;
  }

  function SourcesOf(records: seq<AbilityRecord>, id: RecordId): seq<string> {
    if records == [] then []
    else if records[0].id == id then records[0].sources
    else SourcesOf(records[1..], id)
  }

  lemma {:induction false} SourcesFound(records: seq<AbilityRecord>, r: AbilityRecord)
    requires OnePerId(records) && r in records
    ensures SourcesOf(records, r.id) == r.sources
  {
    if records[0] != r {
      var k :| 0 <= k < |records| && records[k] == r;
      assert records[1..][k - 1] == r;
      assert OnePerId(records[1..]);
      SourcesFound(records[1..], r);
    }
  }

  lemma {:induction false} NoSources(records: seq<AbilityRecord>, id: RecordId)
    requires forall r :: r in records ==> r.id != id
    ensures SourcesOf(records, id) == []
  {
    if records != [] {
      assert records[0] in records;
      assert forall r :: r in records[1..] ==> r in records;
      NoSources(records[1..], id);
    }
  }

  class RuntimeContinuityStore {
    const seats: set<Name>
    var packets: map<Name, seq<AbilityRecord>>
    var witchState: map<Name, WitchFlags>
    var seerChecks: map<Name, seq<string>>
    var signals: seq<Signal>
    ghost var fed: seq<Event>

    /** Everything the store remembers is a replay of the events it was fed. */
    ghost predicate Valid()
      reads this
    {
      && packets.Keys == seats
      && (forall s :: s in packets ==> OnePerId(packets[s]))
      && (forall s :: s in witchState ==> s in seats) && (forall s :: s in seerChecks ==> s in seats)
      && (forall s :: s in seats ==> SeatReplayed(s))
    }

    ghost predicate SeatReplayed(s: Name)
      requires s in packets
      reads this
    {
      Remembers(fed, s, if s in witchState then Some(witchState[s]) else None,
                if s in seerChecks then seerChecks[s] else [], packets[s])
    }

    constructor (seats: set<Name>)
      ensures Valid() && fed == [] && this.seats == seats && signals == []
    {
      this.seats := seats;
      packets := map s | s in seats :: [];
      witchState, seerChecks, signals, fed := map[], map[], [], [];
    }

    /** Observe one engine event; only checks and potions by known seats leave a record. */
    method OnGameEvent(e: Event)
      requires Valid()
      modifies this
      ensures Valid() && fed == old(fed) + [e]
      ensures |signals| == |old(signals)| + if e.actor in seats && e.kind in {SeerCheck, WitchSave, WitchPoison, WitchPass} then 1 else 0
    {
      hide Remembers, OnePerId, Upserts;
      ghost var before, flags, checks, packetsWere := fed, witchState, seerChecks, packets;
      fed := fed + [e];
      if e.actor in seats {
        if e.kind.SeerCheck? {
          RecordSeerCheck(e);
        } else if IsPotion(e.kind) {
          RecordWitchPotion(e);
        }
        UpsertsKeep(packetsWere, packets, e.actor);
      }
      forall s | s in seats ensures SeatReplayed(s) {
        var flagsWere := if s in flags then Some(flags[s]) else None;
        var checksWere := if s in checks then checks[s] else [];
        assert Remembers(before, s, flagsWere, checksWere, packetsWere[s]);
        if s != e.actor || !(e.kind.SeerCheck? || IsPotion(e.kind)) {
          OtherEvent(before, e, s, flagsWere, checksWere, packetsWere[s]);
        } else if e.kind.SeerCheck? {
          CheckEvent(before, e, s, flagsWere, checksWere, packetsWere, packets);
        } else {
          PotionEvent(before, e, s, flagsWere, checksWere, packetsWere, packets);
        }
      }
    }

    method RecordSeerCheck(e: Event)
      requires e.actor in seats && packets.Keys == seats && forall s :: s in packets ==> OnePerId(packets[s])
      modifies this`seerChecks, this`packets, this`signals
      ensures seerChecks == old(seerChecks)[e.actor :=
                AddOnce(if e.actor in old(seerChecks) then old(seerChecks)[e.actor] else [], e.id)]
      ensures Upserts(old(packets), packets, e.actor, SeerRecord(e.actor), seerChecks[e.actor])
      ensures |signals| == |old(signals)| + 1
    {
      hide OnePerId, Upserted;
      var checks := if e.actor in seerChecks then seerChecks[e.actor] else [];
      if e.id !in checks {
        checks := checks + [e.id];
      }
      seerChecks := seerChecks[e.actor := checks];
      Upsert(e.actor, AbilityRecord(SeerRecord(e.actor), checks, e.round, e.phase, e.target), e.id);
    }

    method RecordWitchPotion(e: Event)
      requires e.actor in seats && packets.Keys == seats && forall s :: s in packets ==> OnePerId(packets[s])
      requires IsPotion(e.kind)
      modifies this`witchState, this`packets, this`signals
      ensures var f := if e.actor in old(witchState) then old(witchState)[e.actor] else WitchFlags(false, false);
              witchState == old(witchState)[e.actor :=
                WitchFlags(f.antidoteUsed || e.kind.WitchSave?, f.poisonUsed || e.kind.WitchPoison?)]
      ensures Upserts(old(packets), packets, e.actor, WitchRecord(e.actor),
                      AddOnce(SourcesOf(old(packets)[e.actor], WitchRecord(e.actor)), e.id))
      ensures |signals| == |old(signals)| + 1
    {
      hide OnePerId, Upserted, SourcesOf;
      var state := if e.actor in witchState then witchState[e.actor] else WitchFlags(false, false);
      if e.kind.WitchSave? {
        state := state.(antidoteUsed := true);
      } else if e.kind.WitchPoison? {
        state := state.(poisonUsed := true);
      }
      witchState := witchState[e.actor := state];
      var sources := SourcesOf(packets[e.actor], WitchRecord(e.actor));
      if e.id !in sources {
        sources := sources + [e.id];
      }
      Upsert(e.actor, AbilityRecord(WitchRecord(e.actor), sources, e.round, e.phase, e.target), e.id);
    }

    method Upsert(seat: Name, r: AbilityRecord, eventId: string)
      requires seat in packets && OnePerId(packets[seat])
      modifies this`packets, this`signals
      ensures packets == old(packets)[seat := Upserted(old(packets)[seat], r)]
      ensures Upserts(old(packets), packets, seat, r.id, r.sources)
      ensures |signals| == |old(signals)| + 1
    {
      hide OnePerId, SourcesOf;
      UpsertSources(packets[seat], r);
      var kept: seq<AbilityRecord> := [];
      for i := 0 to |packets[seat]|
        invariant kept == Without(packets[seat][..i], r.id)
      {
        assert packets[seat][..i + 1][..i] == packets[seat][..i];
        if packets[seat][i].id != r.id {
          kept := kept + [packets[seat][i]];
        }
      }
      assert packets[seat][..|packets[seat]|] == packets[seat];
      packets := packets[seat := kept + [r]];
      signals := signals + [Signal(seat, r.id, eventId)];
    }
  }

  /** What a seat's state and packet must be after these events. */
  ghost predicate Remembers(events: seq<Event>, s: Name, flags: Option<WitchFlags>, checks: seq<string>,
                            records: seq<AbilityRecord>) {
    && flags == ReplayFlags(events, s) && checks == ReplayChecks(events, s)
    && SourcesOf(records, SeerRecord(s)) == ReplayChecks(events, s)
    && SourcesOf(records, WitchRecord(s)) == ReplayPotions(events, s)
  }

  lemma OtherEvent(events: seq<Event>, e: Event, s: Name, flags: Option<WitchFlags>, checks: seq<string>,
                   records: seq<AbilityRecord>)
    requires Remembers(events, s, flags, checks, records) && (s != e.actor || !(e.kind.SeerCheck? || IsPotion(e.kind)))
    ensures Remembers(events + [e], s, flags, checks, records)
  {
    hide ReplayFlags, ReplayChecks, ReplayPotions, SourcesOf;
    ReplaySnoc(events, e, s);
  }

  lemma CheckEvent(events: seq<Event>, e: Event, s: Name, flags: Option<WitchFlags>, checks: seq<string>,
                   before: map<Name, seq<AbilityRecord>>, after: map<Name, seq<AbilityRecord>>)
    requires s in before && Remembers(events, s, flags, checks, before[s]) && s == e.actor && e.kind.SeerCheck?
    requires Upserts(before, after, s, SeerRecord(s), AddOnce(checks, e.id))
    ensures Remembers(events + [e], s, flags, AddOnce(checks, e.id), after[s])
  {
    hide ReplayFlags, ReplayChecks, ReplayPotions, SourcesOf, OnePerId;
    ReplaySnoc(events, e, s);
  }

  lemma PotionEvent(events: seq<Event>, e: Event, s: Name, flags: Option<WitchFlags>, checks: seq<string>,
                    before: map<Name, seq<AbilityRecord>>, after: map<Name, seq<AbilityRecord>>)
    requires s in before && Remembers(events, s, flags, checks, before[s]) && s == e.actor && IsPotion(e.kind)
    requires Upserts(before, after, s, WitchRecord(s), AddOnce(SourcesOf(before[s], WitchRecord(s)), e.id))
    ensures Remembers(events + [e], s, NextFlags(flags, e, s), checks, after[s])
  {
    hide ReplayFlags, ReplayChecks, ReplayPotions, SourcesOf, OnePerId;
    ReplaySnoc(events, e, s);
  }

  lemma UpsertsKeep(before: map<Name, seq<AbilityRecord>>, after: map<Name, seq<AbilityRecord>>, seat: Name)
    requires forall s :: s in before ==> OnePerId(before[s])
    requires after == before || exists id, sources :: Upserts(before, after, seat, id, sources)
    ensures after.Keys == before.Keys && (forall s :: s in after ==> OnePerId(after[s]))
    ensures forall s :: s in before && s != seat ==> after[s] == before[s]
  {
  }

  /** One packet changed: the record now has these sources, every other record and packet is as it was. */
  ghost predicate Upserts(before: map<Name, seq<AbilityRecord>>, after: map<Name, seq<AbilityRecord>>, seat: Name, id: RecordId,
                          sources: seq<string>) {
    && after.Keys == before.Keys && seat in before
    && (forall s :: s in before && s != seat ==> after[s] == before[s])
    && OnePerId(after[seat]) && SourcesOf(after[seat], id) == sources
    && forall other :: other != id ==> SourcesOf(after[seat], other) == SourcesOf(before[seat], other)
  }

  lemma UpsertSources(records: seq<AbilityRecord>, r: AbilityRecord)
    requires OnePerId(records)
    ensures OnePerId(Upserted(records, r)) && SourcesOf(Upserted(records, r), r.id) == r.sources
    ensures forall other :: other != r.id ==> SourcesOf(Upserted(records, r), other) == SourcesOf(records, other)
  {
    UpsertedHolds(records, r);
    var after := Upserted(records, r);
    assert r in after;
    SourcesFound(after, r);
    forall other | other != r.id ensures SourcesOf(after, other) == SourcesOf(records, other) {
      if x :| x in records && x.id == other {
        SourcesFound(records, x);
        SourcesFound(after, x);
      } else {
        NoSources(records, other);
        NoSources(after, other);
      }
    }
  }

  function NextFlags(before: Option<WitchFlags>, e: Event, seat: Name): Option<WitchFlags> {
    if IsPotion(e.kind) && e.actor == seat then
      var f := if before.Some? then before.value else WitchFlags(false, false);
      Some(WitchFlags(f.antidoteUsed || e.kind.WitchSave?, f.poisonUsed || e.kind.WitchPoison?))
    else before
  }

  function NextChecks(before: seq<string>, e: Event, seat: Name): seq<string> {
    if e.kind.SeerCheck? && e.actor == seat then AddOnce(before, e.id) else before
  }

  function NextPotions(before: seq<string>, e: Event, seat: Name): seq<string> {
    if IsPotion(e.kind) && e.actor == seat then AddOnce(before, e.id) else before
  }

  lemma ReplaySnoc(events: seq<Event>, e: Event, seat: Name)
    ensures ReplayFlags(events + [e], seat) == NextFlags(ReplayFlags(events, seat), e, seat)
    ensures ReplayChecks(events + [e], seat) == NextChecks(ReplayChecks(events, seat), e, seat)
    ensures ReplayPotions(events + [e], seat) == NextPotions(ReplayPotions(events, seat), e, seat)
  {
    assert (events + [e])[..|events|] == events;
  }
}
