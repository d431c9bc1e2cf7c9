/**
  The action-window controller as a state machine: every critical section is one step, and the threads' steps may come
  in any order. A run is any sequence of steps from the empty desk.
*/
module ActionDesk {
  import opened Logs
  import opened ParticipantProtocol

  datatype Desk = Desk(
    order: seq<string>,                  // window ids, oldest first
    windows: map<string, Window>,
    submissions: map<string, Submission>,
    records: Records,
    windowCount: nat,
    actionCount: nat,
    seats: set<(string, string)>)

  datatype Op =
    | ConfigureSeat(run: string, seat: string)
    | OpenWindow(run: string, seat: string, revision: nat, allowed: seq<string>, cursor: nat, fieldsOk: bool)
    | SubmitAction(run: string, seat: string, submission: Submission)
    | Recheck(id: string, expired: bool)   // one pass of the waiting loop

  datatype Reply =
    | Done
    | Opened(window: Window)
    | AlreadyOpen(id: string)
    | Rejected(code: ErrorCode)
    | AcceptedReply(result: SubmitResult)
    | DuplicateReply(result: SubmitResult)
    | Delivered(submission: Submission)
    | Ended
    | StillWaiting

  const MAX_ID_LENGTH: nat := 256

  function EmptyDesk(): Desk { Desk([], map[], map[], map[], 0, 0, {}) }

  predicate IsOpenFor(w: Window, run: string, seat: string) { w.run == run && w.seat == seat && w.status.WindowOpen? }

  /** The windows in the order they were opened. */
  function WindowsInOrder(order: seq<string>, windows: map<string, Window>): (ws: seq<Window>)
    requires forall id :: id in order ==> id in windows
    ensures |ws| == |order| && forall i :: 0 <= i < |order| ==> ws[i] == windows[order[i]]
  {
    seq(|order|, i requires 0 <= i < |order| => assert order[i] in order; windows[order[i]])
  }

  lemma OpenForSnoc(ws: seq<Window>, w: Window, run: string, seat: string)
    ensures OpenFor(ws + [w], run, seat) == OpenFor(ws, run, seat) + if IsOpenFor(w, run, seat) then [w] else []
  {
    assert (ws + [w])[..|ws|] == ws;
  }

  lemma OpenForNext(ws: seq<Window>, i: nat, run: string, seat: string)
    requires i < |ws|
    ensures OpenFor(ws[..i + 1], run, seat) == OpenFor(ws[..i], run, seat) + if IsOpenFor(ws[i], run, seat) then [ws[i]] else []
  {
    assert ws[..i + 1] == ws[..i] + [ws[i]];
    OpenForSnoc(ws[..i], ws[i], run, seat);
  }

  lemma OpenForEnds(ws: seq<Window>, run: string, seat: string)
    ensures OpenFor(ws[..0], run, seat) == [] && OpenFor(ws[..|ws|], run, seat) == OpenFor(ws, run, seat)
  {
    assert ws[..|ws|] == ws;
  }

  /** This seat's open windows, oldest first. */
  function OpenFor(ws: seq<Window>, run: string, seat: string): (open: seq<Window>)
    ensures forall w :: w in open <==> w in ws && IsOpenFor(w, run, seat)
  {
    if ws == [] then []
    else
      var init, last := ws[..|ws| - 1], ws[|ws| - 1];
      assert forall w :: w in ws <==> w in init || w == last;
      if IsOpenFor(last, run, seat) then OpenFor(init, run, seat) + [last] else OpenFor(init, run, seat)
  }

  ghost predicate Listed(d: Desk) {
    && (forall id :: id in d.order <==> id in d.windows)
    && Distinct(d.order)
  }

  // ---- the steps -------------------------------------------------------------------------

  function Place(d: Desk, w: Window): Desk {
    d.(order := d.order + [w.id], windows := d.windows[w.id := w])
  }

  function AfterOpen(d: Desk, op: Op): (Desk, Reply)
    requires op.OpenWindow? && forall id :: id in d.order ==> id in d.windows
  {
    var current := OpenFor(WindowsInOrder(d.order, d.windows), op.run, op.seat);
    if current != [] then (d, AlreadyOpen(current[0].id))
    else
      var next := d.(windowCount := d.windowCount + 1);
      var id := WindowId(op.run, op.seat, next.windowCount);
      if !op.fieldsOk || |id| > MAX_ID_LENGTH then (next, Rejected(InvalidPayload))
      else
        var w := Window(id, op.run, op.seat, op.revision, op.allowed, WindowOpen, op.cursor);
        (Place(next, w), Opened(w))
  }

  function Close(w: Window, status: WindowStatus, revision: nat): Window {
    w.(status := status, revision := revision, cursor := w.cursor + 1)
  }

  function AfterAccept(d: Desk, s: Submission, w: Window): (Desk, Reply) {
    var result := SubmitResult(w.id, w.revision + 1, d.actionCount + 1, w.cursor + 1);
    (d.(actionCount := d.actionCount + 1,
        records := Remember(d.records, s, result),
        submissions := d.submissions[w.id := s],
        windows := d.windows[w.id := Close(w, WindowAccepted, w.revision + 1)]),
     AcceptedReply(result))
  }

  /** A repeat is answered before the window or its owner is looked at. */
  function AfterSubmit(d: Desk, run: string, seat: string, s: Submission): (Desk, Reply) {
    match Find(d.records, s)
    case Repeat(result) => (d, DuplicateReply(result))
    case Conflict => (d, Rejected(IdempotencyConflict))
    case Fresh =>
      if s.windowId !in d.windows || d.windows[s.windowId].run != run || d.windows[s.windowId].seat != seat then
        (d, Rejected(WindowNotFound))
      else
        var w := d.windows[s.windowId];
        match ValidateForWindow(s, w)
        case Some(code) => (d, Rejected(code))
        case None => AfterAccept(d, s, w)
  }

  function AfterRecheck(d: Desk, id: string, expired: bool): (Desk, Reply) {
    if id in d.submissions then (d, Delivered(d.submissions[id]))
    else if id !in d.windows || !d.windows[id].status.WindowOpen? then (d, Ended)
    else if !expired then (d, StillWaiting)
    else (d.(windows := d.windows[id := Close(d.windows[id], WindowTimedOut, d.windows[id].revision)]), Ended)
  }

  function Apply(d: Desk, op: Op): (Desk, Reply)
    requires forall id :: id in d.order ==> id in d.windows
  {
    match op
    case ConfigureSeat(run, seat) => (d.(seats := d.seats + {(run, seat)}), Done)
    case OpenWindow(_, _, _, _, _, _) => AfterOpen(d, op)
    case SubmitAction(run, seat, s) => AfterSubmit(d, run, seat, s)
    case Recheck(id, expired) => AfterRecheck(d, id, expired)
  }

  // ---- what every interleaving keeps ---------------------------------------------------------

  ghost predicate IssuedId(d: Desk, w: Window) {
    exists k: nat :: 1 <= k <= d.windowCount && w.id == WindowId(w.run, w.seat, k)
  }

  /** An accepted window's only record is its submission's. */
  ghost predicate RecordsFit(d: Desk, id: string)
    requires id in d.windows
  {
    if d.windows[id].status.WindowAccepted? then
      && id in d.submissions && d.submissions[id].windowId == id
      && id in d.records && d.records[id].Keys == {d.submissions[id].key}
      && var r := d.records[id][d.submissions[id].key];
         r.fingerprint == FingerprintOf(d.submissions[id]) && r.result.windowId == id
    else
      id !in d.submissions && id !in d.records
  }

  ghost predicate WindowInv(d: Desk, id: string)
    requires id in d.windows
  {
    d.windows[id].id == id && IssuedId(d, d.windows[id]) && RecordsFit(d, id)
  }

  ghost predicate DeskInv(d: Desk) {
    && Listed(d)
    && (forall id :: id in d.windows ==> WindowInv(d, id))
    && (forall id :: id in d.submissions || id in d.records ==> id in d.windows)
    && OneOpen(d.windows)
  }

  /** No run and seat has two open windows. */
  ghost predicate OneOpen(windows: map<string, Window>) {
    forall x, y ::
      x in windows && y in windows && x != y && windows[x].status.WindowOpen? && windows[y].status.WindowOpen? ==>
      windows[x].run != windows[y].run || windows[x].seat != windows[y].seat
  }

  lemma InvStart()
    ensures DeskInv(EmptyDesk())
  {
  }

  /** A counter never used before gives an id never used before. */
  lemma FreshWindowId(d: Desk, run: string, seat: string)
    requires DeskInv(d)
    ensures WindowId(run, seat, d.windowCount + 1) !in d.windows
  {
    var id := WindowId(run, seat, d.windowCount + 1);
    if id in d.windows {
      var w := d.windows[id];
      assert WindowInv(d, id);
      var k: nat :| 1 <= k <= d.windowCount && w.id == WindowId(w.run, w.seat, k);
      WindowIdInjective(run, seat, d.windowCount + 1, w.run, w.seat, k);
      assert false;
    }
  }

  /** This window is as it was, up to counters that only grow. */
  lemma WindowStays(d: Desk, d': Desk, id: string)
    requires id in d.windows && WindowInv(d, id) && id in d'.windows && d'.windows[id] == d.windows[id]
    requires d.windowCount <= d'.windowCount
    requires id in d'.submissions <==> id in d.submissions
    requires id in d.submissions ==> d'.submissions[id] == d.submissions[id]
    requires id in d'.records <==> id in d.records
    requires id in d.records ==> d'.records[id] == d.records[id]
    ensures WindowInv(d', id)
  {
    hide WindowId;
  }

  lemma PlaceKeepsInv(d: Desk, w: Window)
    requires DeskInv(d) && w.id !in d.windows && w.status.WindowOpen? && IssuedId(d, w)
    requires forall id :: id in d.windows ==> !IsOpenFor(d.windows[id], w.run, w.seat)
    ensures DeskInv(Place(d, w))
  {
    hide WindowId, IssuedId;
    var d' := Place(d, w);
    assert w.id !in d.order;
    forall id | id in d'.windows ensures WindowInv(d', id) {
      if id == w.id {
        assert IssuedId(d', w) by { SameCounter(d, d', w); }
      } else {
        PlacedBeside(d, w, id);
      }
    }
  }

  lemma SameCounter(d: Desk, d': Desk, w: Window)
    requires IssuedId(d, w) && d.windowCount <= d'.windowCount
    ensures IssuedId(d', w)
  {
    hide WindowId;
  }

  lemma PlacedBeside(d: Desk, w: Window, id: string)
    requires DeskInv(d) && id in d.windows && id != w.id
    ensures WindowInv(Place(d, w), id)
  {
    hide Listed, OneOpen;
    assert WindowInv(d, id);
    WindowStays(d, Place(d, w), id);
  }

  lemma CounterKeepsInv(d: Desk)
    requires DeskInv(d)
    ensures DeskInv(d.(windowCount := d.windowCount + 1))
  {
    hide WindowId;
    var d' := d.(windowCount := d.windowCount + 1);
    forall id | id in d'.windows ensures WindowInv(d', id) {
      assert WindowInv(d, id);
      WindowStays(d, d', id);
    }
  }

  lemma NobodyOpen(d: Desk, run: string, seat: string)
    requires Listed(d) && OpenFor(WindowsInOrder(d.order, d.windows), run, seat) == []
    ensures forall id :: id in d.windows ==> !IsOpenFor(d.windows[id], run, seat)
  {
    var ws := WindowsInOrder(d.order, d.windows);
    forall id | id in d.windows ensures !IsOpenFor(d.windows[id], run, seat) {
      var i :| 0 <= i < |d.order| && d.order[i] == id;
      assert ws[i] == d.windows[id] && ws[i] in ws;
      assert d.windows[id] !in OpenFor(ws, run, seat);
    }
  }

  lemma OpenKeepsInv(d: Desk, op: Op)
    requires DeskInv(d) && op.OpenWindow?
    ensures DeskInv(AfterOpen(d, op).0)
  {
    hide WindowId, WindowInv, OneOpen, OpenFor;
    CounterKeepsInv(d);
    var next := d.(windowCount := d.windowCount + 1);
    var reply := AfterOpen(d, op).1;
    if reply.Opened? {
      FreshWindowId(d, op.run, op.seat);
      NobodyOpen(d, op.run, op.seat);
      assert IssuedId(next, reply.window);
      PlaceKeepsInv(next, reply.window);
    }
  }

  lemma AcceptKeepsInv(d: Desk, s: Submission)
    requires DeskInv(d) && s.windowId in d.windows && Find(d.records, s).Fresh?
    requires ValidateForWindow(s, d.windows[s.windowId]).None?
    ensures DeskInv(AfterAccept(d, s, d.windows[s.windowId]).0)
  {
    hide WindowId;
    var d' := AfterAccept(d, s, d.windows[s.windowId]).0;
    assert WindowInv(d, s.windowId);
    forall id | id in d'.windows ensures WindowInv(d', id) {
      assert WindowInv(d, id);
      if id != s.windowId {
        WindowStays(d, d', id);
      } else {
        assert d'.records[id].Keys == {s.key};
        assert IssuedId(d', d'.windows[id]);
      }
    }
  }

  lemma RecheckKeepsWindow(d: Desk, id: string, expired: bool, x: string)
    requires DeskInv(d) && x in d.windows
    ensures WindowInv(AfterRecheck(d, id, expired).0, x)
  {
    hide WindowId, OneOpen, Listed;
    var d' := AfterRecheck(d, id, expired).0;
    assert WindowInv(d, x);
    if d'.windows[x] == d.windows[x] {
      WindowStays(d, d', x);
    } else {
      assert IssuedId(d', d'.windows[x]);
    }
  }

  lemma RecheckKeepsInv(d: Desk, id: string, expired: bool)
    requires DeskInv(d)
    ensures DeskInv(AfterRecheck(d, id, expired).0)
  {
    hide WindowId, IssuedId;
    var d' := AfterRecheck(d, id, expired).0;
    forall x | x in d'.windows ensures WindowInv(d', x) {
      RecheckKeepsWindow(d, id, expired, x);
    }
  }

  /** One step of any thread keeps the invariant. */
  lemma StepKeepsInv(d: Desk, op: Op)
    requires DeskInv(d)
    ensures DeskInv(Apply(d, op).0)
  {
    match op
    case OpenWindow(_, _, _, _, _, _) => OpenKeepsInv(d, op);
    case SubmitAction(run, seat, s) =>
      if AfterSubmit(d, run, seat, s).1.AcceptedReply? {
        AcceptKeepsInv(d, s);
      }
    case Recheck(id, expired) => RecheckKeepsInv(d, id, expired);
    case ConfigureSeat(run, seat) =>
      var d' := Apply(d, op).0;
      forall x | x in d'.windows ensures WindowInv(d', x) {
        assert WindowInv(d, x);
        WindowStays(d, d', x);
      }
  }
}
