/** Joining the decision log's private reasons onto the game log's events (`_load_decision_reasons`). */
module DecisionReasons {
  import opened Logs

  /** A round field as JSON delivers it; Python counts a boolean as an integer, and only one side excludes it. */
  datatype RawRound = NoRound | IntRound(n: int) | BoolRound(b: bool)

  datatype RawDecision = RawDecision(
    id: string, hasReason: bool, round: RawRound, phase: Phase, actor: Name, action: EventKind, target: Name)

  datatype RawEvent = RawEvent(id: string, round: RawRound, phase: Phase, actor: Name, action: EventKind, target: Name)

  datatype Key = Key(round: int, phase: Phase, actor: Name, action: EventKind, target: Name)

  datatype LegacyKey = LegacyKey(actor: Name, action: EventKind, target: Name)

  datatype Source = Matched | Ambiguous(candidates: nat) | LegacyNoRound

  /** The reason attached to an event: which decision's, and how it was found. */
  datatype Attachment = Attachment(decision: nat, actor: Name, source: Source)

  function DecisionRound(r: RawRound): Option<int> {
    match r
    case NoRound => None
    case IntRound(n) => if n >= 0 then Some(n) else None
    case BoolRound(b) => Some(if b then 1 else 0)
  }

  function EventRound(r: RawRound): Option<int> {
    if r.IntRound? && r.n >= 0 then Some(r.n) else None
  }

  /** A natural number is the same round on both sides, a boolean only to the decision log, anything else on neither. */
  lemma RoundsExactly(r: RawRound, n: int)
    ensures EventRound(r) == Some(n) <==> n >= 0 && r == IntRound(n)
    ensures DecisionRound(r) == Some(n) <==> EventRound(r) == Some(n) || (r == BoolRound(false) && n == 0) || (r == BoolRound(true) && n == 1)
  {
  }

  function DecisionKey(d: RawDecision): Key
    requires DecisionRound(d.round).Some?
  {
    Key(DecisionRound(d.round).value, d.phase, d.actor, d.action, d.target)
  }

  function DecisionLegacyKey(d: RawDecision): LegacyKey { LegacyKey(d.actor, d.action, d.target) }

  function EventKey(e: RawEvent): Key
    requires EventRound(e.round).Some?
  {
    Key(EventRound(e.round).value, e.phase, e.actor, e.action, e.target)
  }

  function EventLegacyKey(e: RawEvent): LegacyKey { LegacyKey(e.actor, e.action, e.target) }

  function LegacyPart(key: Key): LegacyKey { LegacyKey(key.actor, key.action, key.target) }

  /** Events the join looks at: they have an id and somebody decided them. */
  predicate Joinable(e: RawEvent) {
    e.id != "" && e.actor != OtherName("") && !e.actor.System?
  }

  // ---- the two queues ---------------------------------------------------------------------

  /** Decisions not attached yet: indexes into the decision log, by key. */
  datatype Queues = Queues(pending: map<Key, seq<nat>>, legacy: map<LegacyKey, seq<nat>>)

  predicate Waits(q: Queues, k: nat) {
    || (exists key :: key in q.pending && k in q.pending[key])
    || (exists key :: key in q.legacy && k in q.legacy[key])
  }

  predicate QueueOk(decisions: seq<RawDecision>, q: Queues) {
    && (forall key :: key in q.pending ==>
          && q.pending[key] != [] && Distinct(q.pending[key])
          && forall k :: k in q.pending[key] ==>
               k < |decisions| && decisions[k].hasReason && DecisionRound(decisions[k].round).Some?
               && DecisionKey(decisions[k]) == key)
    && (forall key :: key in q.legacy ==>
          && q.legacy[key] != [] && Distinct(q.legacy[key])
          && forall k :: k in q.legacy[key] ==>
               k < |decisions| && decisions[k].hasReason && DecisionRound(decisions[k].round).None?
               && DecisionLegacyKey(decisions[k]) == key)
  }

  function Enqueue<K(==)>(queue: map<K, seq<nat>>, key: K, k: nat): map<K, seq<nat>> {
    queue[key := (if key in queue then queue[key] else []) + [k]]
  }

  /** Drop the head of a queue, and the queue with it when it was the last one. */
  function Pop<K(==)>(queue: map<K, seq<nat>>, key: K): map<K, seq<nat>>
    requires key in queue && queue[key] != []
  {
    if |queue[key]| == 1 then queue - {key} else queue[key := queue[key][1..]]
  }

  /** The keys of the decisions that wait with a round, in the order in which they first appear. */
  function KeysInOrder(decisions: seq<RawDecision>): (keys: seq<Key>)
    ensures Distinct(keys)
    ensures forall key :: key in keys <==>
              exists k :: 0 <= k < |decisions| && decisions[k].hasReason && DecisionRound(decisions[k].round).Some?
                          && DecisionKey(decisions[k]) == key
  {
    if decisions == [] then []
    else
      var init, d := decisions[..|decisions| - 1], decisions[|decisions| - 1];
      assert decisions == init + [d];
      var before := KeysInOrder(init);
      if d.hasReason && DecisionRound(d.round).Some? && DecisionKey(d) !in before then before + [DecisionKey(d)] else before
  }

  lemma KeysSnoc(decisions: seq<RawDecision>, d: RawDecision)
    ensures var before := KeysInOrder(decisions);
            KeysInOrder(decisions + [d]) ==
            if d.hasReason && DecisionRound(d.round).Some? && DecisionKey(d) !in before then before + [DecisionKey(d)] else before
  {
    assert (decisions + [d])[..|decisions|] == decisions;
  }

  /** File every decision that has a reason; `order` remembers the order in which keys first appeared. */
  method FileDecisions(decisions: seq<RawDecision>) returns (q: Queues, order: seq<Key>)
    ensures QueueOk(decisions, q)
    ensures forall k: nat :: Waits(q, k) <==> k < |decisions| && decisions[k].hasReason
    ensures order == KeysInOrder(decisions) && forall key :: key in q.pending <==> key in order
  {
    q, order := Queues(map[], map[]), [];
    assert decisions[..0] == [];
    for i := 0 to |decisions|
      invariant QueueOk(decisions, q)
      invariant forall k: nat :: Waits(q, k) <==> k < i && decisions[k].hasReason
      invariant order == KeysInOrder(decisions[..i]) && forall key :: key in q.pending <==> key in order
    {
      hide KeysInOrder, QueueOk, Waits;
      var d := decisions[i];
      assert decisions[..i + 1] == decisions[..i] + [d];
      KeysSnoc(decisions[..i], d);
      if d.hasReason {
        ghost var before := q;
        assert !Waits(q, i);
        if DecisionRound(d.round).Some? {
          var key := DecisionKey(d);
          if key !in q.pending {
            order := order + [key];
          }
          FilePending(decisions, q, i);
          q := q.(pending := Enqueue(q.pending, key, i));
        } else {
          FileLegacy(decisions, q, i);
          q := q.(legacy := Enqueue(q.legacy, DecisionLegacyKey(d), i));
        }
      }
    }
    assert decisions[..|decisions|] == decisions;
  }

  lemma FilePending(decisions: seq<RawDecision>, q: Queues, i: nat)
    requires QueueOk(decisions, q) && !Waits(q, i)
    requires i < |decisions| && decisions[i].hasReason && DecisionRound(decisions[i].round).Some?
    ensures var q' := q.(pending := Enqueue(q.pending, DecisionKey(decisions[i]), i));
            QueueOk(decisions, q') && forall k :: Waits(q', k) <==> Waits(q, k) || k == i
  {
    var key := DecisionKey(decisions[i]);
    var q' := q.(pending := Enqueue(q.pending, key, i));
    assert i in q'.pending[key] && key in q'.pending;
    forall k | Waits(q, k) ensures Waits(q', k) {
      if x :| x in q.pending && k in q.pending[x] {
        assert x in q'.pending && k in q'.pending[x];
      } else {
        var x :| x in q.legacy && k in q.legacy[x];
        assert x in q'.legacy;
      }
    }
  }

  lemma FileLegacy(decisions: seq<RawDecision>, q: Queues, i: nat)
    requires QueueOk(decisions, q) && !Waits(q, i)
    requires i < |decisions| && decisions[i].hasReason && DecisionRound(decisions[i].round).None?
    ensures var q' := q.(legacy := Enqueue(q.legacy, DecisionLegacyKey(decisions[i]), i));
            QueueOk(decisions, q') && forall k :: Waits(q', k) <==> Waits(q, k) || k == i
  {
    var key := DecisionLegacyKey(decisions[i]);
    var q' := q.(legacy := Enqueue(q.legacy, key, i));
    assert i in q'.legacy[key] && key in q'.legacy;
    forall k | Waits(q, k) ensures Waits(q', k) {
      if x :| x in q.legacy && k in q.legacy[x] {
        assert x in q'.legacy && k in q'.legacy[x];
      } else {
        var x :| x in q.pending && k in q.pending[x];
        assert x in q'.pending;
      }
    }
  }

  lemma PopPending(decisions: seq<RawDecision>, q: Queues, key: Key)
    requires QueueOk(decisions, q) && key in q.pending
    ensures q.pending[key] != []
    ensures var k, q' := q.pending[key][0], q.(pending := Pop(q.pending, key));
            QueueOk(decisions, q') && !Waits(q', k) && forall j :: Waits(q, j) <==> Waits(q', j) || j == k
  {
    var k, q' := q.pending[key][0], q.(pending := Pop(q.pending, key));
    var queue := q.pending[key];
    assert queue == [k] + queue[1..];
    forall j | j in queue[1..] ensures j in queue && j != k {
      var i :| 0 <= i < |queue[1..]| && queue[1..][i] == j;
      assert queue[i + 1] == j;
    }
    forall j | Waits(q, j) && j != k ensures Waits(q', j) {
      if x :| x in q.pending && j in q.pending[x] {
        assert x in q'.pending && j in q'.pending[x];
      } else {
        var x :| x in q.legacy && j in q.legacy[x];
        assert x in q'.legacy;
      }
    }
    assert k in q.pending[key];
  }

  lemma PopLegacy(decisions: seq<RawDecision>, q: Queues, key: LegacyKey)
    requires QueueOk(decisions, q) && key in q.legacy
    ensures q.legacy[key] != []
    ensures var k, q' := q.legacy[key][0], q.(legacy := Pop(q.legacy, key));
            QueueOk(decisions, q') && !Waits(q', k) && forall j :: Waits(q, j) <==> Waits(q', j) || j == k
  {
    var k, q' := q.legacy[key][0], q.(legacy := Pop(q.legacy, key));
    var queue := q.legacy[key];
    assert queue == [k] + queue[1..];
    forall j | j in queue[1..] ensures j in queue && j != k {
      var i :| 0 <= i < |queue[1..]| && queue[1..][i] == j;
      assert queue[i + 1] == j;
    }
    forall j | Waits(q, j) && j != k ensures Waits(q', j) {
      if x :| x in q.legacy && j in q.legacy[x] {
        assert x in q'.legacy && j in q'.legacy[x];
      } else {
        var x :| x in q.pending && j in q.pending[x];
        assert x in q'.pending;
      }
    }
    assert k in q.legacy[key];
  }

  // ---- one event ---------------------------------------------------------------------------

  /** The attached decision is about this event, and never from a different valid round. */
  predicate Fits(decisions: seq<RawDecision>, e: RawEvent, a: Attachment) {
    && a.decision < |decisions|
    && var d := decisions[a.decision];
    && d.hasReason && a.actor == e.actor == d.actor && d.action == e.action && d.target == e.target
    && (EventRound(e.round).Some? && DecisionRound(d.round).Some? ==> EventRound(e.round) == DecisionRound(d.round))
    && (a.source.Matched? || a.source.Ambiguous? ==>
          EventRound(e.round).Some? && DecisionRound(d.round).Some? && d.phase == e.phase)
  }

  /** What joining one event does to the queues: an unambiguous match takes exactly its decision out. */
  ghost predicate Joined(decisions: seq<RawDecision>, q: Queues, e: RawEvent, a: Option<Attachment>, q': Queues) {
    && QueueOk(decisions, q')
    && (a.None? ==> q' == q)
    && (a.Some? ==> Joinable(e) && Fits(decisions, e, a.value))
    && (a.Some? && a.value.source.Ambiguous? ==> q' == q)
    && (a.Some? && !a.value.source.Ambiguous? ==>
          && Waits(q, a.value.decision) && !Waits(q', a.value.decision)
          && forall j: nat :: Waits(q, j) <==> Waits(q', j) || j == a.value.decision)
  }

  /** Which waiting decision an event takes: its own key first, then the oldest one without a round, and only an event
      without a round falls back on decisions of any round, on the first key in order that is about the same deed. */
  ghost predicate TakesItsTurn(q: Queues, order: seq<Key>, e: RawEvent, a: Option<Attachment>)
    requires forall key :: key in q.pending ==> q.pending[key] != []
    requires forall key :: key in q.legacy ==> q.legacy[key] != []
  {
    if !Joinable(e) then a.None?
    else if EventRound(e.round).Some? && EventKey(e) in q.pending then
      var queue := q.pending[EventKey(e)];
      a == Some(Attachment(queue[0], e.actor, if |queue| == 1 then Matched else Ambiguous(|queue|)))
    else if EventLegacyKey(e) in q.legacy then
      a == Some(Attachment(q.legacy[EventLegacyKey(e)][0], e.actor, LegacyNoRound))
    else if EventRound(e.round).Some? then a.None?
    else
      if a.None? then forall key :: key in q.pending ==> LegacyPart(key) != EventLegacyKey(e)
      else exists i: nat :: FirstAbout(q, order, EventLegacyKey(e), i)
                       && a.value == Attachment(q.pending[order[i]][0], e.actor, LegacyNoRound)
  }

  /** The first key in order that still waits and is about this deed. */
  predicate FirstAbout(q: Queues, order: seq<Key>, deed: LegacyKey, i: nat) {
    && i < |order| && order[i] in q.pending && LegacyPart(order[i]) == deed
    && forall j :: 0 <= j < i ==> !(order[j] in q.pending && LegacyPart(order[j]) == deed)
  }

  method JoinEvent(decisions: seq<RawDecision>, q: Queues, order: seq<Key>, e: RawEvent)
    returns (a: Option<Attachment>, q': Queues)
    requires QueueOk(decisions, q) && forall key :: key in q.pending ==> key in order
    ensures Joined(decisions, q, e, a, q') && TakesItsTurn(q, order, e, a)
    ensures forall key :: key in q'.pending ==> key in q.pending
    ensures e.id == "" || e.actor == OtherName("") || e.actor == System ==> a.None? && q' == q
    ensures q.legacy == map[] && EventRound(e.round).Some? && e.id != "" && e.actor != OtherName("") && e.actor != System ==>
              (a.Some? <==> EventKey(e) in q.pending) && q'.legacy == map[]
              && (a.Some? && |q.pending[EventKey(e)]| == 1 ==>
                    a.value.source == Matched && a.value.decision == q.pending[EventKey(e)][0]
                    && q'.pending == q.pending - {EventKey(e)})
  {
    if !Joinable(e) {
      return None, q;
    }
    if EventRound(e.round).Some? && EventKey(e) in q.pending {
      var key := EventKey(e);
      var entries := q.pending[key];
      assert entries[0] in entries;
      if |entries| == 1 {
        PopPending(decisions, q, key);
        return Some(Attachment(entries[0], e.actor, Matched)), q.(pending := Pop(q.pending, key));
      }
      return Some(Attachment(entries[0], e.actor, Ambiguous(|entries|))), q;
    }
    var legacyKey := EventLegacyKey(e);
    if legacyKey in q.legacy {
      var k := q.legacy[legacyKey][0];
      assert k in q.legacy[legacyKey];
      PopLegacy(decisions, q, legacyKey);
      return Some(Attachment(k, e.actor, LegacyNoRound)), q.(legacy := Pop(q.legacy, legacyKey));
    }
    if EventRound(e.round).Some? {
      return None, q;
    }
    for i := 0 to |order|
      invariant forall j :: 0 <= j < i && order[j] in q.pending ==> LegacyPart(order[j]) != legacyKey
    {
      if order[i] in q.pending && LegacyPart(order[i]) == legacyKey {
        var k := q.pending[order[i]][0];
        assert k in q.pending[order[i]] && FirstAbout(q, order, legacyKey, i);
        PopPending(decisions, q, order[i]);
        return Some(Attachment(k, e.actor, LegacyNoRound)), q.(pending := Pop(q.pending, order[i]));
      }
    }
    return None, q;
  }

  // ---- the whole join -------------------------------------------------------------------------

  /** Every attachment comes from some event with that id, and fits it. */
  ghost predicate FromEvents(decisions: seq<RawDecision>, events: seq<RawEvent>, upTo: nat, out: map<string, Attachment>)
    requires upTo <= |events|
  {
    forall id :: id in out ==>
      exists i :: 0 <= i < upTo && events[i].id == id && Joinable(events[i]) && Fits(decisions, events[i], out[id])
  }

  /** No decision is attached under two event ids. */
  ghost predicate AttachedOnce(out: map<string, Attachment>) {
    forall x, y :: x in out && y in out && x != y && !out[x].source.Ambiguous? && !out[y].source.Ambiguous? ==>
      out[x].decision != out[y].decision
  }

  /** Every decision names its round, no two share a key, and every event names its round under its own id. */
  predicate CleanLogs(decisions: seq<RawDecision>, events: seq<RawEvent>) {
    && (forall k :: 0 <= k < |decisions| ==> DecisionRound(decisions[k].round).Some?)
    && (forall j, k :: 0 <= j < k < |decisions| && decisions[j].hasReason && decisions[k].hasReason ==>
          DecisionKey(decisions[j]) != DecisionKey(decisions[k]))
    && (forall i :: 0 <= i < |events| ==> EventRound(events[i].round).Some?)
    && (forall i, j :: 0 <= i < j < |events| ==> events[i].id != events[j].id)
  }

  /** This event is the first one the join looks at with its key. */
  predicate FirstOfKey(events: seq<RawEvent>, i: nat)
    requires i < |events| && forall j :: 0 <= j < |events| ==> EventRound(events[j].round).Some?
  {
    Joinable(events[i]) && forall j :: 0 <= j < i && Joinable(events[j]) ==> EventKey(events[j]) != EventKey(events[i])
  }

  predicate Explains(decisions: seq<RawDecision>, k: nat, e: RawEvent)
    requires k < |decisions| && DecisionRound(decisions[k].round).Some? && EventRound(e.round).Some?
  {
    decisions[k].hasReason && DecisionKey(decisions[k]) == EventKey(e)
  }

  /** On clean logs, each decision goes, marked as matched, to the first event with its key. */
  ghost predicate ReasonsGiven(decisions: seq<RawDecision>, events: seq<RawEvent>, upTo: nat, out: map<string, Attachment>)
    requires CleanLogs(decisions, events) && upTo <= |events|
  {
    forall i, k :: 0 <= i < upTo && 0 <= k < |decisions| && FirstOfKey(events, i) && Explains(decisions, k, events[i]) ==>
      events[i].id in out && out[events[i].id] == Attachment(k, events[i].actor, Matched)
  }

  /** On clean logs, nothing but those events gets a reason. */
  ghost predicate ReasonsEarned(decisions: seq<RawDecision>, events: seq<RawEvent>, upTo: nat, out: map<string, Attachment>)
    requires CleanLogs(decisions, events) && upTo <= |events|
  {
    forall id :: id in out ==>
      exists i, k :: 0 <= i < upTo && 0 <= k < |decisions| && events[i].id == id && FirstOfKey(events, i)
                     && Explains(decisions, k, events[i])
  }

  ghost predicate ExactJoin(decisions: seq<RawDecision>, events: seq<RawEvent>, upTo: nat, out: map<string, Attachment>)
    requires CleanLogs(decisions, events) && upTo <= |events|
  {
    ReasonsGiven(decisions, events, upTo, out) && ReasonsEarned(decisions, events, upTo, out)
  }

  /** What is still waiting on clean logs: the decisions none of the first events explained away. */
  ghost predicate CleanQueues(decisions: seq<RawDecision>, events: seq<RawEvent>, upTo: nat, q: Queues)
    requires CleanLogs(decisions, events) && upTo <= |events|
  {
    && q.legacy == map[]
    && (forall k :: 0 <= k < |decisions| && decisions[k].hasReason ==>
          (DecisionKey(decisions[k]) in q.pending <==>
             forall j :: 0 <= j < upTo && Joinable(events[j]) ==> EventKey(events[j]) != DecisionKey(decisions[k])))
  }

  lemma SeveralWait(queue: seq<nat>)
    requires Distinct(queue) && queue != []
    ensures |queue| == 1 || exists j, k :: j in queue && k in queue && j != k
  {
    if |queue| > 1 {
      assert queue[0] in queue && queue[1] in queue;
    }
  }

  lemma SingleWaiter(decisions: seq<RawDecision>, events: seq<RawEvent>, q: Queues, key: Key)
    requires CleanLogs(decisions, events) && QueueOk(decisions, q) && key in q.pending
    ensures |q.pending[key]| == 1
  {
    SeveralWait(q.pending[key]);
  }

  lemma StepExactly(decisions: seq<RawDecision>, events: seq<RawEvent>, i: nat, q: Queues, a: Option<Attachment>, q': Queues,
                    out: map<string, Attachment>, out': map<string, Attachment>)
    requires CleanLogs(decisions, events) && i < |events| && QueueOk(decisions, q)
    requires CleanQueues(decisions, events, i, q) && ExactJoin(decisions, events, i, out)
    requires Joined(decisions, q, events[i], a, q')
    requires Joinable(events[i]) ==>
               (a.Some? <==> EventKey(events[i]) in q.pending) && q'.legacy == map[]
               && (a.Some? && |q.pending[EventKey(events[i])]| == 1 ==>
                     a.value.source == Matched && a.value.decision == q.pending[EventKey(events[i])][0]
                     && q'.pending == q.pending - {EventKey(events[i])})
    requires out' == if a.Some? then out[events[i].id := a.value] else out
    ensures CleanQueues(decisions, events, i + 1, q') && ExactJoin(decisions, events, i + 1, out')
  {
    var e := events[i];
    if a.Some? {
      var key := EventKey(e);
      SingleWaiter(decisions, events, q, key);
      var k := q.pending[key][0];
      assert k in q.pending[key];
      assert DecisionKey(decisions[k]) == key;
      assert Explains(decisions, k, e);
      assert FirstOfKey(events, i);
    }
    WaitersExactly(decisions, events, i, q, a, q');
    GivenNext(decisions, events, i, q, a, out, out');
    EarnedNext(decisions, events, i, a, out, out');
  }

  lemma WaitersExactly(decisions: seq<RawDecision>, events: seq<RawEvent>, i: nat, q: Queues, a: Option<Attachment>, q': Queues)
    requires CleanLogs(decisions, events) && i < |events| && QueueOk(decisions, q)
    requires CleanQueues(decisions, events, i, q) && Joined(decisions, q, events[i], a, q')
    requires a.Some? ==> q'.legacy == map[] && q'.pending == q.pending - {EventKey(events[i])}
    requires Joinable(events[i]) ==> (a.Some? <==> EventKey(events[i]) in q.pending)
    ensures CleanQueues(decisions, events, i + 1, q')
  {
    forall k | 0 <= k < |decisions| && decisions[k].hasReason
      ensures DecisionKey(decisions[k]) in q'.pending <==>
              forall j :: 0 <= j < i + 1 && Joinable(events[j]) ==> EventKey(events[j]) != DecisionKey(decisions[k])
    {
      var key := DecisionKey(decisions[k]);
      assert key in q.pending <==> forall j :: 0 <= j < i && Joinable(events[j]) ==> EventKey(events[j]) != key;
    }
  }

  /** A clean event's attachment is its own decision, the first time its key comes up. */
  ghost predicate OwnDecision(decisions: seq<RawDecision>, events: seq<RawEvent>, i: nat, a: Option<Attachment>)
    requires CleanLogs(decisions, events) && i < |events|
  {
    a.Some? ==>
      && Joinable(events[i]) && FirstOfKey(events, i) && a.value.decision < |decisions|
      && Explains(decisions, a.value.decision, events[i])
      && a.value == Attachment(a.value.decision, events[i].actor, Matched)
  }

  lemma OwnReasonFound(decisions: seq<RawDecision>, events: seq<RawEvent>, i: nat, q: Queues, a: Option<Attachment>, k: nat)
    requires CleanLogs(decisions, events) && i < |events| && CleanQueues(decisions, events, i, q)
    requires Joinable(events[i]) ==> (a.Some? <==> EventKey(events[i]) in q.pending)
    requires OwnDecision(decisions, events, i, a)
    requires k < |decisions| && FirstOfKey(events, i) && Explains(decisions, k, events[i])
    ensures a == Some(Attachment(k, events[i].actor, Matched))
  {
    assert DecisionKey(decisions[k]) in q.pending;
  }

  lemma GivenNext(decisions: seq<RawDecision>, events: seq<RawEvent>, i: nat, q: Queues, a: Option<Attachment>,
                  out: map<string, Attachment>, out': map<string, Attachment>)
    requires CleanLogs(decisions, events) && i < |events|
    requires CleanQueues(decisions, events, i, q) && ReasonsGiven(decisions, events, i, out)
    requires Joinable(events[i]) ==> (a.Some? <==> EventKey(events[i]) in q.pending)
    requires OwnDecision(decisions, events, i, a)
    requires out' == if a.Some? then out[events[i].id := a.value] else out
    ensures ReasonsGiven(decisions, events, i + 1, out')
  {
    assert forall j :: 0 <= j < i ==> events[j].id != events[i].id;
    forall k | 0 <= k < |decisions| && FirstOfKey(events, i) && Explains(decisions, k, events[i])
      ensures a == Some(Attachment(k, events[i].actor, Matched))
    {
      OwnReasonFound(decisions, events, i, q, a, k);
    }
    hide CleanQueues, FirstOfKey, Explains, Joinable, OwnDecision;
  }

  lemma EarnedNext(decisions: seq<RawDecision>, events: seq<RawEvent>, i: nat, a: Option<Attachment>,
                   out: map<string, Attachment>, out': map<string, Attachment>)
    requires CleanLogs(decisions, events) && i < |events|
    requires ReasonsEarned(decisions, events, i, out) && OwnDecision(decisions, events, i, a)
    requires out' == if a.Some? then out[events[i].id := a.value] else out
    ensures ReasonsEarned(decisions, events, i + 1, out')
  {
    hide FirstOfKey, Explains, Joinable;
    forall id | id in out'
      ensures exists j, k :: 0 <= j < i + 1 && 0 <= k < |decisions| && events[j].id == id && FirstOfKey(events, j)
                             && Explains(decisions, k, events[j])
    {
      if a.Some? && id == events[i].id {
        assert FirstOfKey(events, i) && Explains(decisions, a.value.decision, events[i]);
      } else {
        var j, k :| 0 <= j < i && 0 <= k < |decisions| && events[j].id == id && FirstOfKey(events, j)
                    && Explains(decisions, k, events[j]);
      }
    }
  }

  method LoadDecisionReasons(decisions: seq<RawDecision>, events: seq<RawEvent>) returns (out: map<string, Attachment>)
    ensures FromEvents(decisions, events, |events|, out) && AttachedOnce(out)
    ensures CleanLogs(decisions, events) ==> ExactJoin(decisions, events, |events|, out)
  {
    hide QueueOk, Waits, Joined, FromEvents, AttachedOnce, CleanLogs, ExactJoin, CleanQueues, Fits, Joinable;
    var q, order := FileDecisions(decisions);
    ghost var clean := CleanLogs(decisions, events);
    out := map[];
    JoinStart(decisions, events, q);
    for i := 0 to |events|
      invariant QueueOk(decisions, q) && (forall key :: key in q.pending ==> key in order)
      invariant FromEvents(decisions, events, i, out) && AttachedOnce(out) && Gone(q, out)
      invariant clean ==> CleanQueues(decisions, events, i, q) && ExactJoin(decisions, events, i, out)
    {
      ghost var before, was := q, out;
      var a;
      a, q := JoinEvent(decisions, q, order, events[i]);
      if a.Some? {
        out := out[events[i].id := a.value];
      }
      JoinKeeps(decisions, events, i, before, a, q, was, out);
      if clean {
        CleanFacts(decisions, events, i, before);
        StepExactly(decisions, events, i, before, a, q, was, out);
      }
    }
  }

  /** Attached decisions no longer wait. */
  ghost predicate Gone(q: Queues, out: map<string, Attachment>) {
    forall x :: x in out && !out[x].source.Ambiguous? ==> !Waits(q, out[x].decision)
  }

  lemma JoinStart(decisions: seq<RawDecision>, events: seq<RawEvent>, q: Queues)
    requires QueueOk(decisions, q) && forall k: nat :: Waits(q, k) <==> k < |decisions| && decisions[k].hasReason
    ensures FromEvents(decisions, events, 0, map[]) && AttachedOnce(map[]) && Gone(q, map[])
    ensures CleanLogs(decisions, events) ==>
              CleanQueues(decisions, events, 0, q) && ExactJoin(decisions, events, 0, map[])
  {
    forall key | key in q.legacy ensures exists k :: 0 <= k < |decisions| && DecisionRound(decisions[k].round).None? {
      assert q.legacy[key][0] in q.legacy[key];
    }
    if CleanLogs(decisions, events) {
      assert q.legacy == map[];
      forall k | 0 <= k < |decisions| && decisions[k].hasReason ensures DecisionKey(decisions[k]) in q.pending {
        assert Waits(q, k);
      }
    }
  }

  lemma CleanFacts(decisions: seq<RawDecision>, events: seq<RawEvent>, i: nat, q: Queues)
    requires CleanLogs(decisions, events) && i < |events| && CleanQueues(decisions, events, i, q)
    ensures q.legacy == map[] && EventRound(events[i].round).Some?
  {
  }

  lemma JoinKeeps(decisions: seq<RawDecision>, events: seq<RawEvent>, i: nat, q: Queues, a: Option<Attachment>, q': Queues,
                  out: map<string, Attachment>, out': map<string, Attachment>)
    requires i < |events| && FromEvents(decisions, events, i, out) && AttachedOnce(out) && Gone(q, out)
    requires Joined(decisions, q, events[i], a, q')
    requires out' == if a.Some? then out[events[i].id := a.value] else out
    ensures FromEvents(decisions, events, i + 1, out') && AttachedOnce(out') && Gone(q', out')
  {
    hide QueueOk, Waits, Fits, Joinable;
    forall id | id in out'
      ensures exists j :: 0 <= j < i + 1 && events[j].id == id && Joinable(events[j]) && Fits(decisions, events[j], out'[id])
    {
      if !(a.Some? && id == events[i].id) {
        var j :| 0 <= j < i && events[j].id == id && Joinable(events[j]) && Fits(decisions, events[j], out[id]);
      }
    }
  }
}
