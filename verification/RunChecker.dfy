/**
  The checker of finished runs. It knows nothing of the engine: each check reads the logs of a run and lists what
  breaks one invariant. A run is clean when no check has anything to list.
*/
module RunChecker {
  import opened Logs
  import opened LogViews
  import opened Counting

  // ---- counting keys ----------------------------------------------------------

  /** How often each key occurs, and the keys in order of first occurrence. */
  method CountKeys<K(!new, ==)>(keys: seq<K>) returns (counts: map<K, nat>, order: seq<K>)
    ensures Counted(counts, keys) && Distinct(order) && forall k :: k in order <==> k in counts
  {
    counts, order := map[], [];
    for i := 0 to |keys|
      invariant Counted(counts, keys[..i])
      invariant Distinct(order) && forall k :: k in order <==> k in counts
    {
      hide Counted, Distinct;
      CountOne(counts, keys[..i], keys[i]);
      assert keys[..i + 1] == keys[..i] + [keys[i]];
      if keys[i] !in counts {
        DistinctSnoc(order, keys[i]);
        order := order + [keys[i]];
      }
      counts := counts[keys[i] := (if keys[i] in counts then counts[keys[i]] else 0) + 1];
    }
    assert keys[..|keys|] == keys;
  }

  /** The keys that occur more than once, each listed once. */
  method Repeated<K(!new, ==)>(keys: seq<K>) returns (repeats: seq<K>)
    ensures repeats == [] <==> Distinct(keys)
    ensures forall k :: k in repeats <==> multiset(keys)[k] > 1
    ensures Distinct(repeats)
  {
    var counts, order := CountKeys(keys);
    DistinctByCount(keys);
    hide Distinct;
    repeats := [];
    assert Distinct(repeats) by { NoKeys<K>(); }
    for i := 0 to |order|
      invariant Distinct(repeats)
      invariant forall k :: k in repeats <==> k in order[..i] && counts[k] > 1
    {
      OneOfPrefix(order, i);
      if counts[order[i]] > 1 {
        DistinctSnoc(repeats, order[i]);
        repeats := repeats + [order[i]];
      }
    }
    assert order[..|order|] == order;
    forall k ensures k in repeats <==> multiset(keys)[k] > 1 {
      assert k in order <==> k in counts;
    }
    if repeats != [] {
      assert repeats[0] in repeats;
    }
  }

  lemma NoKeys<K>()
    ensures Distinct<K>([])
  {
  }

  /** The prefix one longer has one key more, which is new. */
  lemma OneOfPrefix<K>(keys: seq<K>, i: nat)
    requires i < |keys| && Distinct(keys)
    ensures keys[i] !in keys[..i] && forall k :: k in keys[..i + 1] <==> k in keys[..i] || k == keys[i]
  {
    assert keys[..i + 1] == keys[..i] + [keys[i]];
  }

  lemma DistinctSnoc<T>(items: seq<T>, last: T)
    ensures Distinct(items + [last]) <==> Distinct(items) && last !in items
  {
    var all := items + [last];
    if Distinct(all) {
      assert forall i :: 0 <= i < |items| ==> all[i] == items[i] && all[i] != all[|items|];
    }
  }

  // ---- I1: nobody is committed dead twice -------------------------------------

  function DeathTargets(events: seq<Event>): seq<Name> {
    if events == [] then []
    else
      var e := events[|events| - 1];
      DeathTargets(events[..|events| - 1]) + if IsDeath(e.kind) then [e.target] else []
  }

  /** No name is the target of two death events. */
  predicate NobodyDiesTwice(events: seq<Event>) {
    forall i, j :: 0 <= i < j < |events| && events[i].kind in {PlayerDied, PlayerEliminated} ==>
      events[j].kind in {PlayerDied, PlayerEliminated} ==> events[i].target != events[j].target
  }

  lemma DiesTwiceSnoc(events: seq<Event>, e: Event)
    ensures NobodyDiesTwice(events + [e]) <==>
            NobodyDiesTwice(events)
            && (e.kind in {PlayerDied, PlayerEliminated} ==>
                  forall i :: 0 <= i < |events| && events[i].kind in {PlayerDied, PlayerEliminated} ==> events[i].target != e.target)
  {
    var all := events + [e];
    assert all[|events|] == e && forall i :: 0 <= i < |events| ==> all[i] == events[i];
  }

  lemma {:induction false} DeathTargetsExactly(events: seq<Event>)
    ensures forall n :: n in DeathTargets(events) <==>
              exists i :: 0 <= i < |events| && events[i].kind in {PlayerDied, PlayerEliminated} && events[i].target == n
    ensures Distinct(DeathTargets(events)) <==> NobodyDiesTwice(events)
  {
    if events != [] {
      var init, last := events[..|events| - 1], events[|events| - 1];
      assert events == init + [last];
      DeathTargetsExactly(init);
      DiesTwiceSnoc(init, last);
      assert DeathTargets(events) == if IsDeath(last.kind) then DeathTargets(init) + [last.target] else DeathTargets(init);
      DistinctSnoc(DeathTargets(init), last.target);
      hide DeathTargets, NobodyDiesTwice, Distinct;
      forall n ensures n in DeathTargets(events) <==>
                 exists i :: 0 <= i < |events| && events[i].kind in {PlayerDied, PlayerEliminated} && events[i].target == n
      {
        if i :| 0 <= i < |init| && init[i].kind in {PlayerDied, PlayerEliminated} && init[i].target == n {
          assert events[i] == init[i];
        }
      }
    }
  }

  method CheckI1(events: seq<Event>) returns (violations: seq<Name>)
    ensures violations == [] <==> Distinct(DeathTargets(events))
    ensures violations == [] <==> NobodyDiesTwice(events)
  {
    hide Distinct, NobodyDiesTwice;
    DeathTargetsExactly(events);
    var keys: seq<Name> := [];
    var i := 0;
    while i < |events|
      invariant 0 <= i <= |events| && keys == DeathTargets(events[..i])
    {
      assert events[..i + 1][..i] == events[..i];
      if IsDeath(events[i].kind) {
        keys := keys + [events[i].target];
      }
      i := i + 1;
    }
    assert events[..|events|] == events;
    violations := Repeated(keys);
  }

  // ---- I2: the dead do not act ---------------------------------------------------

  predicate IsAction(k: EventKind) {
    || k.WerewolfKill? || k.SeerCheck? || k.WitchSave? || k.WitchPoison? || k.WitchPass? || k.GuardProtect?
    || k.PlayerSpeech? || k.PlayerVote?
  }

  /** Some death event of this event's actor carries a smaller sequence number. */
  predicate ActsAfterDeath(events: seq<Event>, e: Event) {
    && IsAction(e.kind)
    && exists i :: 0 <= i < |events| && IsDeath(events[i].kind) && events[i].target == e.actor
                   && events[i].sequence < e.sequence
  }

  /** The smallest sequence number among each name's death events. */
  ghost predicate FirstDeaths(events: seq<Event>, deadAt: map<Name, int>) {
    && (forall i :: 0 <= i < |events| && IsDeath(events[i].kind) ==>
          events[i].target in deadAt && deadAt[events[i].target] <= events[i].sequence)
    && (forall n :: n in deadAt ==>
          exists i :: 0 <= i < |events| && IsDeath(events[i].kind) && events[i].target == n
                      && events[i].sequence == deadAt[n])
  }

  lemma FirstDeathsSnoc(events: seq<Event>, e: Event, before: map<Name, int>, after: map<Name, int>)
    requires FirstDeaths(events, before)
    requires if IsDeath(e.kind) && (e.target !in before || e.sequence < before[e.target])
             then after == before[e.target := e.sequence] else after == before
    ensures FirstDeaths(events + [e], after)
  {
    var es := events + [e];
    forall n | n in after
      ensures exists i :: 0 <= i < |es| && IsDeath(es[i].kind) && es[i].target == n && es[i].sequence == after[n]
    {
      if n in before && after[n] == before[n] {
        var i :| 0 <= i < |events| && IsDeath(events[i].kind) && events[i].target == n && events[i].sequence == before[n];
        assert es[i] == events[i];
      } else {
        assert es[|events|] == e;
      }
    }
  }

  lemma NoDeathsYet()
    ensures FirstDeaths([], map[])
  {
  }

  method FirstDeathSequence(events: seq<Event>) returns (deadAt: map<Name, int>)
    ensures FirstDeaths(events, deadAt)
  {
    hide FirstDeaths;
    assert FirstDeaths([], map[]) by { NoDeathsYet(); }
    deadAt := map[];
    var i := 0;
    while i < |events|
      invariant 0 <= i <= |events| && FirstDeaths(events[..i], deadAt)
    {
      var e := events[i];
      ghost var before := deadAt;
      if IsDeath(e.kind) && (e.target !in deadAt || e.sequence < deadAt[e.target]) {
        deadAt := deadAt[e.target := e.sequence];
      }
      assert events[..i + 1] == events[..i] + [e];
      FirstDeathsSnoc(events[..i], e, before, deadAt);
      i := i + 1;
    }
    assert events[..|events|] == events;
  }

  method CheckI2(events: seq<Event>) returns (violations: seq<Event>)
    ensures forall e :: e in violations <==> e in events && ActsAfterDeath(events, e)
    ensures forall e :: e in violations <==>
              && e in events
              && e.kind in {WerewolfKill, SeerCheck, WitchSave, WitchPoison, WitchPass, GuardProtect, PlayerSpeech, PlayerVote}
              && exists i :: 0 <= i < |events| && events[i].kind in {PlayerDied, PlayerEliminated}
                             && events[i].target == e.actor && events[i].sequence < e.sequence
  {
    var deadAt := FirstDeathSequence(events);
    violations := [];
    var i := 0;
    while i < |events|
      invariant 0 <= i <= |events|
      invariant forall e :: e in violations <==> e in events[..i] && ActsAfterDeath(events, e)
    {
      var e := events[i];
      assert events[..i + 1] == events[..i] + [e];
      if IsAction(e.kind) && e.actor in deadAt && deadAt[e.actor] < e.sequence {
        violations := violations + [e];
      }
      i := i + 1;
    }
    assert events[..|events|] == events;
  }

  // ---- I3: one use of each consumable per actor -----------------------------------

  predicate IsConsumed(k: EventKind) { k.WitchSave? || k.WitchPoison? || k.HunterShoot? }

  function Uses(events: seq<Event>): seq<(Name, EventKind)> {
    if events == [] then []
    else
      var e := events[|events| - 1];
      Uses(events[..|events| - 1]) + if IsConsumed(e.kind) then [(e.actor, e.kind)] else []
  }

  /** No actor uses the antidote, the poison or its shot a second time. */
  predicate NothingUsedTwice(events: seq<Event>) {
    forall i, j :: 0 <= i < j < |events| && events[i].kind in {WitchSave, WitchPoison, HunterShoot} ==>
      events[i].kind == events[j].kind ==> events[i].actor != events[j].actor
  }

  lemma UsedTwiceSnoc(events: seq<Event>, e: Event)
    ensures NothingUsedTwice(events + [e]) <==>
            NothingUsedTwice(events)
            && (e.kind in {WitchSave, WitchPoison, HunterShoot} ==>
                  forall i :: 0 <= i < |events| && events[i].kind == e.kind ==> events[i].actor != e.actor)
  {
    var all := events + [e];
    assert all[|events|] == e && forall i :: 0 <= i < |events| ==> all[i] == events[i];
  }

  lemma {:induction false} UsesExactly(events: seq<Event>)
    ensures forall n, k :: (n, k) in Uses(events) <==>
              k in {WitchSave, WitchPoison, HunterShoot}
              && exists i :: 0 <= i < |events| && events[i].kind == k && events[i].actor == n
    ensures Distinct(Uses(events)) <==> NothingUsedTwice(events)
  {
    if events != [] {
      var init, last := events[..|events| - 1], events[|events| - 1];
      assert events == init + [last];
      UsesExactly(init);
      UsedTwiceSnoc(init, last);
      assert Uses(events) == if IsConsumed(last.kind) then Uses(init) + [(last.actor, last.kind)] else Uses(init);
      DistinctSnoc(Uses(init), (last.actor, last.kind));
      hide Uses, NothingUsedTwice, Distinct;
      forall n, k ensures (n, k) in Uses(events) <==>
                    k in {WitchSave, WitchPoison, HunterShoot}
                    && exists i :: 0 <= i < |events| && events[i].kind == k && events[i].actor == n
      {
        if i :| 0 <= i < |init| && init[i].kind == k && init[i].actor == n {
          assert events[i] == init[i];
        }
      }
    }
  }

  method CheckI3(events: seq<Event>) returns (violations: seq<(Name, EventKind)>)
    ensures violations == [] <==> Distinct(Uses(events))
    ensures violations == [] <==> NothingUsedTwice(events)
  {
    hide Distinct, NothingUsedTwice;
    UsesExactly(events);
    var keys: seq<(Name, EventKind)> := [];
    var i := 0;
    while i < |events|
      invariant 0 <= i <= |events| && keys == Uses(events[..i])
    {
      assert events[..i + 1][..i] == events[..i];
      if IsConsumed(events[i].kind) {
        keys := keys + [(events[i].actor, events[i].kind)];
      }
      i := i + 1;
    }
    assert events[..|events|] == events;
    violations := Repeated(keys);
  }

  // ---- I6: every death has a cause; I7: only players die ---------------------------

  predicate IsCause(k: EventKind) { k.WerewolfKill? || k.WitchPoison? || k.HunterShoot? }

  predicate HasCause(events: seq<Event>, e: Event) {
    exists i :: 0 <= i < |events| && events[i].sequence < e.sequence && IsCause(events[i].kind)
                && events[i].target == e.target
  }

  method CheckI6(events: seq<Event>) returns (violations: seq<Event>)
    ensures forall e :: e in violations <==> e in events && e.kind.PlayerDied? && !HasCause(events, e)
    ensures forall e :: e in violations <==>
              && e in events && e.kind == PlayerDied
              && forall i :: 0 <= i < |events| && events[i].sequence < e.sequence && events[i].target == e.target ==>
                   events[i].kind !in {WerewolfKill, WitchPoison, HunterShoot}
  {
    violations := [];
    var i := 0;
    while i < |events|
      invariant 0 <= i <= |events|
      invariant forall e :: e in violations <==> e in events[..i] && e.kind.PlayerDied? && !HasCause(events, e)
    {
      assert events[..i + 1] == events[..i] + [events[i]];
      if events[i].kind.PlayerDied? && !HasCause(events, events[i]) {
        violations := violations + [events[i]];
      }
      i := i + 1;
    }
    assert events[..|events|] == events;
  }

  predicate KnownPlayer(players: seq<PlayerEntry>, n: Name) {
    exists i :: 0 <= i < |players| && players[i].name == n
  }

  method CheckI7(players: seq<PlayerEntry>, events: seq<Event>) returns (violations: seq<Event>)
    ensures forall e :: e in violations <==>
              e in events && IsDeath(e.kind) && players != [] && !KnownPlayer(players, e.target)
    ensures forall e :: e in violations <==>
              && e in events && e.kind in {PlayerDied, PlayerEliminated} && players != []
              && forall i :: 0 <= i < |players| ==> players[i].name != e.target
  {
    violations := [];
    var i := 0;
    while i < |events|
      invariant 0 <= i <= |events|
      invariant forall e :: e in violations <==>
                  e in events[..i] && IsDeath(e.kind) && players != [] && !KnownPlayer(players, e.target)
    {
      assert events[..i + 1] == events[..i] + [events[i]];
      if IsDeath(events[i].kind) && players != [] && !KnownPlayer(players, events[i].target) {
        violations := violations + [events[i]];
      }
      i := i + 1;
    }
    assert events[..|events|] == events;
  }

  // ---- I8: the guard's nights --------------------------------------------------------

  /** What one night's events say: the last target of each ability, and who died. */
  datatype Row = Row(kill: Option<Name>, guard: Option<Name>, save: Option<Name>, poison: Option<Name>, died: set<Name>)

  const EMPTY_ROW: Row := Row(None, None, None, None, {})

  function Recorded(row: Row, e: Event): Row {
    match e.kind
    case WerewolfKill => row.(kill := Some(e.target))
    case GuardProtect => row.(guard := Some(e.target))
    case WitchSave => row.(save := Some(e.target))
    case WitchPoison => row.(poison := Some(e.target))
    case PlayerDied => row.(died := row.died + {e.target})
    case _ => row
  }

  function RowOf(events: seq<Event>, rnd: int): Row {
    if events == [] then EMPTY_ROW
    else
      var e := events[|events| - 1];
      var before := RowOf(events[..|events| - 1], rnd);
      if e.phase.Night? && e.round == rnd then Recorded(before, e) else before
  }

  /** A kill the guard blocked, with no save and no poison on the same target, takes nobody. */
  predicate BlockedSurvives(row: Row) {
    row.kill.Some? && row.guard == row.kill && row.save != row.kill && row.poison != row.kill ==>
      row.kill.value !in row.died
  }

  /** Guard and save on the same target cancel out: the target dies. */
  predicate PiercedDies(row: Row) {
    row.kill.Some? && row.guard == row.kill && row.save == row.kill ==> row.kill.value in row.died
  }

  predicate RowOk(row: Row) { BlockedSurvives(row) && PiercedDies(row) }

  ghost predicate RowsOf(events: seq<Event>, rows: map<int, Row>) {
    && (forall r :: r in rows ==> rows[r] == RowOf(events, r))
    && (forall r :: r !in rows ==> RowOf(events, r) == EMPTY_ROW)
  }

  lemma RowSnoc(events: seq<Event>, e: Event, rnd: int)
    ensures RowOf(events + [e], rnd) ==
            if e.phase.Night? && e.round == rnd then Recorded(RowOf(events, rnd), e) else RowOf(events, rnd)
  {
    assert (events + [e])[..|events|] == events;
  }

  /** The target of the night's last event of this kind, if there was one. */
  ghost predicate LastOfNight(events: seq<Event>, rnd: int, kind: EventKind, target: Option<Name>) {
    if target.None? then forall i :: 0 <= i < |events| && events[i].kind == kind && events[i].round == rnd ==> events[i].phase != Night
    else
      exists i :: 0 <= i < |events| && events[i].kind == kind && events[i].round == rnd && events[i].phase == Night
                  && events[i].target == target.value
                  && forall j :: i < j < |events| && events[j].kind == kind && events[j].round == rnd ==> events[j].phase != Night
  }

  /** A row holds the last target of each ability in that night, and everybody who died in it. */
  ghost predicate RowTells(events: seq<Event>, rnd: int, row: Row) {
    && LastOfNight(events, rnd, WerewolfKill, row.kill) && LastOfNight(events, rnd, GuardProtect, row.guard)
    && LastOfNight(events, rnd, WitchSave, row.save) && LastOfNight(events, rnd, WitchPoison, row.poison)
    && forall n :: n in row.died <==> DiedThatNight(events, rnd, n)
  }

  predicate DiedThatNight(events: seq<Event>, rnd: int, n: Name) {
    exists i :: 0 <= i < |events| && events[i].kind == PlayerDied && events[i].round == rnd && events[i].phase == Night
                && events[i].target == n
  }

  lemma LastOfNightSnoc(events: seq<Event>, e: Event, rnd: int, kind: EventKind, target: Option<Name>)
    requires LastOfNight(events, rnd, kind, target)
    ensures LastOfNight(events + [e], rnd, kind,
                        if e.kind == kind && e.round == rnd && e.phase == Night then Some(e.target) else target)
  {
    var all := events + [e];
    if e.kind == kind && e.round == rnd && e.phase == Night {
      assert all[|events|] == e;
    } else if target.Some? {
      var i :| 0 <= i < |events| && events[i].kind == kind && events[i].round == rnd && events[i].phase == Night
               && events[i].target == target.value
               && forall j :: i < j < |events| && events[j].kind == kind && events[j].round == rnd ==> events[j].phase != Night;
      assert all[i] == events[i];
      assert forall j :: i < j < |events| ==> all[j] == events[j];
    }
  }

  lemma DiedSnoc(events: seq<Event>, e: Event, rnd: int, n: Name)
    ensures DiedThatNight(events + [e], rnd, n) <==>
            DiedThatNight(events, rnd, n) || (e.kind == PlayerDied && e.round == rnd && e.phase == Night && e.target == n)
  {
    var all := events + [e];
    assert all[|events|] == e;
    if i :| 0 <= i < |events| && events[i].kind == PlayerDied && events[i].round == rnd && events[i].phase == Night
            && events[i].target == n {
      assert all[i] == events[i];
    }
  }

  lemma RowTellsSnoc(events: seq<Event>, e: Event, rnd: int, row: Row)
    requires RowTells(events, rnd, row)
    ensures RowTells(events + [e], rnd, if e.phase.Night? && e.round == rnd then Recorded(row, e) else row)
  {
    hide LastOfNight, DiedThatNight;
    LastOfNightSnoc(events, e, rnd, WerewolfKill, row.kill);
    LastOfNightSnoc(events, e, rnd, GuardProtect, row.guard);
    LastOfNightSnoc(events, e, rnd, WitchSave, row.save);
    LastOfNightSnoc(events, e, rnd, WitchPoison, row.poison);
    forall n ensures DiedThatNight(events + [e], rnd, n) <==>
               DiedThatNight(events, rnd, n) || (e.kind == PlayerDied && e.round == rnd && e.phase == Night && e.target == n)
    {
      DiedSnoc(events, e, rnd, n);
    }
  }

  lemma {:induction false} RowExactly(events: seq<Event>, rnd: int)
    ensures RowTells(events, rnd, RowOf(events, rnd))
  {
    if events != [] {
      var init, last := events[..|events| - 1], events[|events| - 1];
      RowExactly(init, rnd);
      assert events == init + [last];
      RowSnoc(init, last, rnd);
      hide RowTells, RowOf, Recorded;
      RowTellsSnoc(init, last, rnd, RowOf(init, rnd));
    }
  }

  method NightRows(events: seq<Event>) returns (rows: map<int, Row>)
    ensures RowsOf(events, rows)
    ensures forall r :: RowTells(events, r, if r in rows then rows[r] else EMPTY_ROW)
  {
    rows := map[];
    var i := 0;
    while i < |events|
      invariant 0 <= i <= |events| && RowsOf(events[..i], rows)
    {
      var e := events[i];
      assert events[..i + 1] == events[..i] + [e];
      forall r ensures RowOf(events[..i + 1], r) ==
                       if e.phase.Night? && e.round == r then Recorded(RowOf(events[..i], r), e) else RowOf(events[..i], r)
      {
        RowSnoc(events[..i], e, r);
      }
      if e.phase.Night? {
        rows := rows[e.round := Recorded(if e.round in rows then rows[e.round] else EMPTY_ROW, e)];
      }
      i := i + 1;
    }
    assert events[..|events|] == events;
    forall r ensures RowTells(events, r, if r in rows then rows[r] else EMPTY_ROW) {
      RowExactly(events, r);
    }
  }

  /** The nights in which the guard stood by the wolves' victim, and it died although the witch kept out of it, or lived
      although the witch saved it as well. */
  method CheckI8(events: seq<Event>) returns (violations: set<int>)
    ensures forall r :: r in violations <==> !RowOk(RowOf(events, r))
    ensures forall r :: var row := RowOf(events, r);
              r in violations <==>
                && row.kill.Some? && row.guard == row.kill
                && if row.save == row.kill then row.kill.value !in row.died
                   else row.poison != row.kill && row.kill.value in row.died
  {
    var rows := NightRows(events);
    violations := set r | r in rows && !RowOk(rows[r]);
  }

  /** The guard's nights as (round, target), sorted by round. */
  function InsertNight(night: (int, Name), sorted: seq<(int, Name)>): seq<(int, Name)> {
    if sorted == [] || night.0 >= sorted[|sorted| - 1].0 then sorted + [night]
    else InsertNight(night, sorted[..|sorted| - 1]) + [sorted[|sorted| - 1]]
  }

  function GuardNights(events: seq<Event>): seq<(int, Name)> {
    if events == [] then []
    else
      var e := events[|events| - 1];
      var before := GuardNights(events[..|events| - 1]);
      if e.kind.GuardProtect? then InsertNight((e.round, e.target), before) else before
  }

  lemma {:induction false} InsertNightHolds(night: (int, Name), sorted: seq<(int, Name)>)
    requires forall i, j :: 0 <= i < j < |sorted| ==> sorted[i].0 <= sorted[j].0
    ensures var out := InsertNight(night, sorted);
            && multiset(out) == multiset(sorted) + multiset{night} && (forall n :: n in out <==> n in sorted || n == night)
            && forall i, j :: 0 <= i < j < |out| ==> out[i].0 <= out[j].0
  {
    if sorted != [] && night.0 < sorted[|sorted| - 1].0 {
      var init, last := sorted[..|sorted| - 1], sorted[|sorted| - 1];
      assert sorted == init + [last];
      InsertNightHolds(night, init);
      var before := InsertNight(night, init);
      forall i | 0 <= i < |before| ensures before[i].0 <= last.0 {
        assert before[i] in before;
        if before[i] != night {
          var k :| 0 <= k < |init| && init[k] == before[i];
          assert sorted[k].0 <= sorted[|sorted| - 1].0;
        }
      }
    }
  }

  /** The guard's nights are its events, by round. */
  lemma {:induction false} GuardNightsSorted(events: seq<Event>)
    ensures var nights := GuardNights(events);
            && (forall i, j :: 0 <= i < j < |nights| ==> nights[i].0 <= nights[j].0)
            && forall r, n :: (r, n) in nights <==>
                 exists i :: 0 <= i < |events| && events[i].kind == GuardProtect && events[i].round == r && events[i].target == n
  {
    if events != [] {
      var init, last := events[..|events| - 1], events[|events| - 1];
      assert events == init + [last];
      GuardNightsSorted(init);
      InsertNightHolds((last.round, last.target), GuardNights(init));
      hide InsertNight;
      forall r, n ensures (r, n) in GuardNights(events) <==>
                    exists i :: 0 <= i < |events| && events[i].kind == GuardProtect && events[i].round == r && events[i].target == n
      {
        if i :| 0 <= i < |init| && init[i].kind == GuardProtect && init[i].round == r && init[i].target == n {
          assert events[i] == init[i];
        }
      }
    }
  }

  predicate GuardsRest(nights: seq<(int, Name)>) {
    forall i :: 0 <= i < |nights| - 1 ==> !(nights[i + 1].0 == nights[i].0 + 1 && nights[i].1 == nights[i + 1].1)
  }

  method CheckI8c(events: seq<Event>) returns (violations: seq<(int, Name)>)
    ensures violations == [] <==> GuardsRest(GuardNights(events))
  {
    var nights := GuardNights(events);
    violations := [];
    var i := 0;
    while i < |nights| - 1
      invariant 0 <= i <= |nights|
      invariant violations == [] <==>
                forall j :: 0 <= j < i && j + 1 < |nights| ==>
                  !(nights[j + 1].0 == nights[j].0 + 1 && nights[j].1 == nights[j + 1].1)
    {
      if nights[i + 1].0 == nights[i].0 + 1 && nights[i].1 == nights[i + 1].1 {
        violations := violations + [nights[i]];
      }
      i := i + 1;
    }
  }

  // ---- the whole check -----------------------------------------------------------------

  /** What is read of a finished run; an identity is a request id with the phase of its turn. */
  datatype Artifacts = Artifacts(players: seq<PlayerEntry>, events: seq<Event>, identities: seq<(string, Phase)>)

  ghost predicate Clean(run: Artifacts) {
    && run.events != []
    && Distinct(DeathTargets(run.events))
    && (forall e :: e in run.events ==> !ActsAfterDeath(run.events, e))
    && Distinct(Uses(run.events))
    && Distinct(run.identities)
    && (forall e :: e in run.events && e.kind.PlayerDied? ==> HasCause(run.events, e))
    && (forall e :: e in run.events && IsDeath(e.kind) && run.players != [] ==> KnownPlayer(run.players, e.target))
    && (forall r :: RowOk(RowOf(run.events, r)))
    && GuardsRest(GuardNights(run.events))
  }

  lemma NoMember<T>(s: seq<T>)
    ensures s == [] <==> forall x :: x !in s
  {
    if s != [] { assert s[0] in s; }
  }

  lemma NoRound(rounds: set<int>)
    ensures rounds == {} <==> forall r :: r !in rounds
  {
    if forall r :: r !in rounds {
      assert rounds == {};
    }
  }

  method CheckRun(run: Artifacts) returns (clean: bool)
    ensures clean <==> Clean(run)
  {
    hide Distinct, ActsAfterDeath, HasCause, RowOk, GuardsRest;
    var i1 := CheckI1(run.events);
    var i2 := CheckI2(run.events);
    var i3 := CheckI3(run.events);
    var i5 := Repeated(run.identities);
    var i6 := CheckI6(run.events);
    var i7 := CheckI7(run.players, run.events);
    var i8 := CheckI8(run.events);
    var i8c := CheckI8c(run.events);
    NoMember(i2);
    NoMember(i6);
    NoMember(i7);
    NoRound(i8);
    assert i2 == [] <==> forall e :: e in run.events ==> !ActsAfterDeath(run.events, e);
    assert i6 == [] <==> forall e :: e in run.events && e.kind.PlayerDied? ==> HasCause(run.events, e);
    clean := run.events != [] && i1 == [] && i2 == [] && i3 == [] && i5 == [] && i6 == [] && i7 == [] && i8 == {} && i8c == [];
  }
}
