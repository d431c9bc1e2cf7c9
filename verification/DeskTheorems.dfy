/** What holds of the action-window controller over any number of steps, in any order. */
module DeskTheorems {
  import opened Logs
  import opened ParticipantProtocol
  import opened ActionDesk

  ghost function RunFrom(d: Desk, ops: seq<Op>): (d': Desk)
    requires DeskInv(d)
    ensures DeskInv(d')
    decreases |ops|
  {
    if ops == [] then d
    else
      StepKeepsInv(d, ops[0]);
      RunFrom(Apply(d, ops[0]).0, ops[1..])
  }

  ghost function RepliesFrom(d: Desk, ops: seq<Op>): (replies: seq<Reply>)
    requires DeskInv(d)
    ensures |replies| == |ops|
    decreases |ops|
  {
    if ops == [] then []
    else
      StepKeepsInv(d, ops[0]);
      [Apply(d, ops[0]).1] + RepliesFrom(Apply(d, ops[0]).0, ops[1..])
  }

  lemma {:induction false} RunAppend(d: Desk, ops: seq<Op>, more: seq<Op>)
    requires DeskInv(d)
    ensures RunFrom(d, ops + more) == RunFrom(RunFrom(d, ops), more)
    decreases |ops|
  {
    if ops == [] {
      assert ops + more == more;
    } else {
      StepKeepsInv(d, ops[0]);
      RunAppend(Apply(d, ops[0]).0, ops[1..], more);
      assert (ops + more)[1..] == ops[1..] + more;
    }
  }

  lemma RunSnoc(d: Desk, ops: seq<Op>, op: Op)
    requires DeskInv(d)
    ensures RunFrom(d, ops + [op]) == Apply(RunFrom(d, ops), op).0
  {
    RunAppend(d, ops, [op]);
    StepKeepsInv(RunFrom(d, ops), op);
    assert [op][1..] == [];
  }

  /** The single-open check at the head of opening a window never fires: the desk never has two. */
  lemma NeverTwoOpen(d: Desk, run: string, seat: string)
    requires DeskInv(d)
    ensures |OpenFor(WindowsInOrder(d.order, d.windows), run, seat)| <= 1
  {
    AtMostOneOpen(d, |d.order|, run, seat);
    assert WindowsInOrder(d.order, d.windows)[..|d.order|] == WindowsInOrder(d.order, d.windows);
  }

  lemma NotBothOpen(d: Desk, i: nat, j: nat, run: string, seat: string)
    requires DeskInv(d) && i < j < |d.order|
    ensures var ws := WindowsInOrder(d.order, d.windows);
            !(IsOpenFor(ws[i], run, seat) && IsOpenFor(ws[j], run, seat))
  {
    hide WindowInv;
    assert d.order[i] != d.order[j] && d.order[i] in d.order && d.order[j] in d.order;
  }

  lemma HasFirst<T>(s: seq<T>)
    ensures s != [] ==> exists x :: x in s
  {
    if s != [] {
      assert s[0] in s;
    }
  }

  lemma NoneOpenBefore(d: Desk, n: nat, run: string, seat: string)
    requires DeskInv(d) && n < |d.order| && IsOpenFor(WindowsInOrder(d.order, d.windows)[n], run, seat)
    ensures OpenFor(WindowsInOrder(d.order, d.windows)[..n], run, seat) == []
  {
    hide OneOpen, WindowInv, OpenFor, IsOpenFor;
    var ws := WindowsInOrder(d.order, d.windows);
    forall w | w in ws[..n] ensures !IsOpenFor(w, run, seat) {
      var i :| 0 <= i < n && ws[i] == w;
      NotBothOpen(d, i, n, run, seat);
    }
    HasFirst(OpenFor(ws[..n], run, seat));
  }

  lemma {:induction false} AtMostOneOpen(d: Desk, n: nat, run: string, seat: string)
    requires DeskInv(d) && n <= |d.order|
    ensures |OpenFor(WindowsInOrder(d.order, d.windows)[..n], run, seat)| <= 1
  {
    if n > 0 {
      var ws := WindowsInOrder(d.order, d.windows);
      AtMostOneOpen(d, n - 1, run, seat);
      OpenForNext(ws, n - 1, run, seat);
      if IsOpenFor(ws[n - 1], run, seat) {
        NoneOpenBefore(d, n - 1, run, seat);
      }
    }
  }

  lemma SubmissionsOnlyAccepted(d: Desk, id: string)
    requires DeskInv(d)
    ensures id in d.submissions <==> id in d.windows && d.windows[id].status.WindowAccepted?
  {
    if id in d.windows {
      assert WindowInv(d, id);
    }
  }

  // ---- windows only close ------------------------------------------------------------------

  /** The window keeps its owner; once closed it never changes, and its cursor never goes back. */
  predicate OnlyCloses(w: Window, w': Window) {
    && w'.id == w.id && w'.run == w.run && w'.seat == w.seat
    && w.cursor <= w'.cursor
    && (!w.status.WindowOpen? ==> w' == w)
    && (w.status.WindowOpen? && w'.status.WindowOpen? ==> w' == w)
  }

  lemma StepOnlyCloses(d: Desk, op: Op, id: string)
    requires DeskInv(d) && id in d.windows
    ensures id in Apply(d, op).0.windows && OnlyCloses(d.windows[id], Apply(d, op).0.windows[id])
  {
    hide WindowId, WindowInv, OneOpen, OpenFor;
    if op.OpenWindow? {
      FreshWindowId(d, op.run, op.seat);
    } else if op.SubmitAction? && op.submission.windowId in d.windows {
      WindowNamesItself(d, op.submission.windowId);
    }
  }

  lemma WindowNamesItself(d: Desk, id: string)
    requires DeskInv(d) && id in d.windows
    ensures d.windows[id].id == id
  {
    assert WindowInv(d, id);
  }

  /** Whatever the threads do, a window is never reopened, reassigned or dropped. */
  lemma {:induction false} WindowsOnlyClose(d: Desk, ops: seq<Op>, id: string)
    requires DeskInv(d) && id in d.windows
    ensures id in RunFrom(d, ops).windows && OnlyCloses(d.windows[id], RunFrom(d, ops).windows[id])
    decreases |ops|
  {
    if ops != [] {
      StepKeepsInv(d, ops[0]);
      StepOnlyCloses(d, ops[0], id);
      WindowsOnlyClose(Apply(d, ops[0]).0, ops[1..], id);
    }
  }

  // ---- safety over whole runs ------------------------------------------------------------------

  /** Every reachable desk has at most one open window per seat, and a submission stored exactly for accepted windows. */
  lemma DeskIsSafe(ops: seq<Op>)
    ensures DeskInv(EmptyDesk())
    ensures var d := RunFrom(EmptyDesk(), ops);
            && OneOpen(d.windows)
            && (forall id :: id in d.windows ==>
                  && (id in d.submissions <==> d.windows[id].status.WindowAccepted?)
                  && (id in d.records <==> d.windows[id].status.WindowAccepted?)
                  && (id in d.records ==> |d.records[id]| == 1))
            && (forall id :: id in d.submissions || id in d.records ==> id in d.windows)
  {
    InvStart();
    var d := RunFrom(EmptyDesk(), ops);
    forall id | id in d.windows
      ensures id in d.submissions <==> d.windows[id].status.WindowAccepted?
      ensures id in d.records <==> d.windows[id].status.WindowAccepted?
      ensures id in d.records ==> |d.records[id]| == 1
    {
      assert WindowInv(d, id);
      if id in d.records {
        assert |d.records[id]| == |d.records[id].Keys|;
      }
    }
  }

  /** The waiting engine gets an answer only when its window is closed or unknown, and a submission only when accepted. */
  lemma WaitEndsClosed(d: Desk, id: string, expired: bool)
    requires DeskInv(d)
    ensures var (d', reply) := Apply(d, Recheck(id, expired));
            && (reply.StillWaiting? <==> id in d.windows && d.windows[id].status.WindowOpen? && !expired)
            && (reply.StillWaiting? ==> d' == d)
            && (!reply.StillWaiting? ==> id !in d'.windows || !d'.windows[id].status.WindowOpen?)
            && (reply.Delivered? <==> id in d.windows && d.windows[id].status.WindowAccepted?)
            && (reply.Delivered? ==> d' == d && id in d.submissions && reply.submission == d.submissions[id])
  {
    if id in d.windows {
      assert WindowInv(d, id);
    }
  }

  // ---- what each request is answered --------------------------------------------------------------

  /**
    A key that the window's accepted submission already used is answered as a repeat or a conflict by what was submitted.
    A new key is accepted exactly if the window exists and is this seat's, is open, is at the submitted revision, and
    allows the submitted action; the first of these that fails gives the error, and an error changes nothing.
  */
  ghost predicate SubmitAnswered(d: Desk, run: string, seat: string, s: Submission, d': Desk, reply: Reply) {
    if s.windowId in d.submissions && d.submissions[s.windowId].key == s.key then
      var first := d.submissions[s.windowId];
      && d' == d
      && if first.revision == s.revision && first.action == s.action && first.payload == s.payload
         then reply.DuplicateReply? && reply.result.windowId == s.windowId
         else reply == Rejected(IdempotencyConflict)
    else if s.windowId !in d.windows || d.windows[s.windowId].run != run || d.windows[s.windowId].seat != seat then
      d' == d && reply == Rejected(WindowNotFound)
    else
      var w := d.windows[s.windowId];
      if w.status != WindowOpen then d' == d && reply == Rejected(WindowClosed)
      else if s.revision != w.revision then d' == d && reply == Rejected(StaleRevision)
      else if s.action !in w.allowed then d' == d && reply == Rejected(IllegalAction)
      else
        && reply == AcceptedReply(SubmitResult(s.windowId, w.revision + 1, d.actionCount + 1, w.cursor + 1))
        && d'.submissions == d.submissions[s.windowId := s]
        && d'.windows == d.windows[s.windowId := w.(status := WindowAccepted, revision := w.revision + 1, cursor := w.cursor + 1)]
        && d'.order == d.order && d'.windowCount == d.windowCount && d'.actionCount == d.actionCount + 1 && d'.seats == d.seats
  }

  /** Every submission to a sound desk is answered so. */
  lemma SubmitExactly(d: Desk, run: string, seat: string, s: Submission)
    requires DeskInv(d)
    ensures SubmitAnswered(d, run, seat, s, AfterSubmit(d, run, seat, s).0, AfterSubmit(d, run, seat, s).1)
  {
    hide OneOpen, Listed, IssuedId;
    if s.windowId in d.windows {
      assert WindowInv(d, s.windowId);
    }
  }

  predicate OpenOne(d: Desk, run: string, seat: string, id: string) {
    id in d.windows && d.windows[id].run == run && d.windows[id].seat == seat && d.windows[id].status == WindowOpen
  }

  /** A seat with an open window is told its id; otherwise sound fields open a new window under an id nobody had. */
  ghost predicate OpenAnswered(d: Desk, run: string, seat: string, revision: nat, allowed: seq<string>, cursor: nat,
                               fieldsOk: bool, d': Desk, reply: Reply) {
    if exists id :: OpenOne(d, run, seat, id) then d' == d && reply.AlreadyOpen? && OpenOne(d, run, seat, reply.id)
    else if reply.Opened? then
      && fieldsOk && reply.window.id !in d.windows && |reply.window.id| <= 256
      && reply.window == Window(reply.window.id, run, seat, revision, allowed, WindowOpen, cursor)
      && d'.order == d.order + [reply.window.id] && d'.windows == d.windows[reply.window.id := reply.window]
      && d'.submissions == d.submissions && d'.records == d.records && d'.seats == d.seats
    else
      && reply == Rejected(InvalidPayload) && d' == d.(windowCount := d.windowCount + 1)
      && (!fieldsOk || |WindowId(run, seat, d.windowCount + 1)| > 256)
  }

  /** Every request for a window at a sound desk is answered so. */
  lemma OpenExactly(d: Desk, run: string, seat: string, revision: nat, allowed: seq<string>, cursor: nat, fieldsOk: bool)
    requires DeskInv(d)
    ensures var after := Apply(d, Op.OpenWindow(run, seat, revision, allowed, cursor, fieldsOk));
            OpenAnswered(d, run, seat, revision, allowed, cursor, fieldsOk, after.0, after.1)
  {
    OpenIsFound(d, run, seat);
    FreshWindowId(d, run, seat);
    hide DeskInv, OneOpen, WindowInv, WindowId, OpenFor, OpenOne, WindowsInOrder;
  }

  /** The desk's search in window order finds an open window exactly if there is one. */
  lemma OpenIsFound(d: Desk, run: string, seat: string)
    requires DeskInv(d)
    ensures forall id :: id in d.order ==> id in d.windows
    ensures var current := OpenFor(WindowsInOrder(d.order, d.windows), run, seat);
            && (current != [] ==> OpenOne(d, run, seat, current[0].id))
            && forall id :: OpenOne(d, run, seat, id) ==> current != []
  {
    hide OneOpen, WindowInv, OpenFor;
    var ws := WindowsInOrder(d.order, d.windows);
    var current := OpenFor(ws, run, seat);
    if current != [] {
      assert current[0] in current;
      var i :| 0 <= i < |ws| && ws[i] == current[0];
      assert d.order[i] in d.order && OpenOne(d, run, seat, d.order[i]);
      NamesItself(d, d.order[i]);
    }
    forall id | OpenOne(d, run, seat, id) ensures current != [] {
      assert id in d.order;
      var i :| 0 <= i < |d.order| && d.order[i] == id;
      assert ws[i] in ws && ws[i] in current;
    }
  }

  lemma NamesItself(d: Desk, id: string)
    requires id in d.windows && WindowInv(d, id)
    ensures d.windows[id].id == id
  {
  }

  /** A recheck of a window past its deadline times it out; otherwise rechecking changes nothing. */
  lemma RecheckExactly(d: Desk, id: string, expired: bool)
    requires DeskInv(d)
    ensures var (d', _) := Apply(d, Recheck(id, expired));
            d' == if expired && id in d.windows && d.windows[id].status == WindowOpen
                  then d.(windows := d.windows[id := d.windows[id].(status := WindowTimedOut, cursor := d.windows[id].cursor + 1)])
                  else d
  {
    if id in d.windows {
      assert WindowInv(d, id);
    }
  }

  // ---- exactly-once submission --------------------------------------------------------------------

  /** This window was settled by this submission, with this result. */
  ghost predicate SettledBy(d: Desk, s: Submission, result: SubmitResult, run: string, seat: string) {
    && s.windowId in d.windows && d.windows[s.windowId].status.WindowAccepted?
    && d.windows[s.windowId].run == run && d.windows[s.windowId].seat == seat
    && s.windowId in d.records && d.records[s.windowId] == map[s.key := Record(FingerprintOf(s), result)]
  }

  lemma AcceptSettles(d: Desk, run: string, seat: string, s: Submission)
    requires DeskInv(d) && AfterSubmit(d, run, seat, s).1.AcceptedReply?
    ensures SettledBy(AfterSubmit(d, run, seat, s).0, s, AfterSubmit(d, run, seat, s).1.result, run, seat)
  {
    assert WindowInv(d, s.windowId);
  }

  lemma StepKeepsSettled(d: Desk, op: Op, s: Submission, result: SubmitResult, run: string, seat: string)
    requires DeskInv(d) && SettledBy(d, s, result, run, seat)
    ensures SettledBy(Apply(d, op).0, s, result, run, seat)
  {
    hide OneOpen, OpenFor;
    StepOnlyCloses(d, op, s.windowId);
    if op.SubmitAction? && op.submission.windowId == s.windowId {
      assert WindowInv(d, s.windowId);
    }
  }

  lemma {:induction false} RunKeepsSettled(d: Desk, ops: seq<Op>, s: Submission, result: SubmitResult, run: string, seat: string)
    requires DeskInv(d) && SettledBy(d, s, result, run, seat)
    ensures SettledBy(RunFrom(d, ops), s, result, run, seat)
    decreases |ops|
  {
    if ops != [] {
      StepKeepsInv(d, ops[0]);
      StepKeepsSettled(d, ops[0], s, result, run, seat);
      RunKeepsSettled(Apply(d, ops[0]).0, ops[1..], s, result, run, seat);
    }
  }

  function SettledReply(s: Submission, result: SubmitResult, t: Submission, own: bool): Reply {
    if t.key == s.key && FingerprintOf(t) == FingerprintOf(s) then DuplicateReply(result)
    else if t.key == s.key then Rejected(IdempotencyConflict)
    else if !own then Rejected(WindowNotFound)
    else Rejected(WindowClosed)
  }

  lemma SettledAnswers(d: Desk, s: Submission, result: SubmitResult, run: string, seat: string, who: (string, string),
                       t: Submission)
    requires DeskInv(d) && SettledBy(d, s, result, run, seat) && t.windowId == s.windowId
    ensures AfterSubmit(d, who.0, who.1, t) == (d, SettledReply(s, result, t, who == (run, seat)))
  {
    WindowNamesItself(d, s.windowId);
    hide DeskInv;
  }

  /**
    After an accept, whatever happens in between: the same key and content always returns the stored result, the same
    key with other content always conflicts, any other key finds the window closed, and none of these changes anything.
  */
  lemma AcceptedExactlyOnce(d: Desk, run: string, seat: string, s: Submission, ops: seq<Op>, who: (string, string), t: Submission)
    requires DeskInv(d) && AfterSubmit(d, run, seat, s).1.AcceptedReply? && t.windowId == s.windowId
    ensures DeskInv(AfterSubmit(d, run, seat, s).0)
    ensures var after := RunFrom(AfterSubmit(d, run, seat, s).0, ops);
            AfterSubmit(after, who.0, who.1, t) ==
            (after, SettledReply(s, AfterSubmit(d, run, seat, s).1.result, t, who == (run, seat)))
  {
    var op := SubmitAction(run, seat, s);
    var (first, reply) := AfterSubmit(d, run, seat, s);
    assert first == Apply(d, op).0;
    StepKeepsInv(d, op);
    hide DeskInv, AfterSubmit, SettledBy, SettledReply;
    AcceptSettles(d, run, seat, s);
    RunKeepsSettled(first, ops, s, reply.result, run, seat);
    SettledAnswers(RunFrom(first, ops), s, reply.result, run, seat, who, t);
  }

  function CountAccepted(replies: seq<Reply>, id: string): nat {
    if replies == [] then 0
    else (if replies[0].AcceptedReply? && replies[0].result.windowId == id then 1 else 0) + CountAccepted(replies[1..], id)
  }

  function IsAccepted(d: Desk, id: string): nat {
    if id in d.windows && d.windows[id].status.WindowAccepted? then 1 else 0
  }

  lemma StepCountsAccepts(d: Desk, op: Op, id: string)
    requires DeskInv(d)
    ensures var (d', reply) := Apply(d, op);
            IsAccepted(d', id) == IsAccepted(d, id) + if reply.AcceptedReply? && reply.result.windowId == id then 1 else 0
  {
    hide OneOpen, OpenFor, WindowId;
    if op.OpenWindow? {
      FreshWindowId(d, op.run, op.seat);
    }
    if id in d.windows {
      WindowNamesItself(d, id);
      StepOnlyCloses(d, op, id);
    }
    if op.SubmitAction? && op.submission.windowId in d.windows {
      WindowNamesItself(d, op.submission.windowId);
    }
  }

  /** Over any history a window is answered `accepted` exactly once if it ends accepted, and never otherwise. */
  lemma {:induction false} OneAcceptPerWindow(d: Desk, ops: seq<Op>, id: string)
    requires DeskInv(d)
    ensures IsAccepted(RunFrom(d, ops), id) == IsAccepted(d, id) + CountAccepted(RepliesFrom(d, ops), id)
    decreases |ops|
  {
    if ops != [] {
      StepKeepsInv(d, ops[0]);
      StepCountsAccepts(d, ops[0], id);
      OneAcceptPerWindow(Apply(d, ops[0]).0, ops[1..], id);
    }
  }

  // ---- the reconnect cursor --------------------------------------------------------------------------

  /** The largest cursor among this seat's windows. */
  function LatestCursor(ws: seq<Window>, run: string, seat: string): (latest: Option<nat>)
    ensures latest.None? <==> forall w :: w in ws ==> w.run != run || w.seat != seat
    ensures latest.Some? ==>
              && (exists w :: w in ws && w.run == run && w.seat == seat && w.cursor == latest.value)
              && forall w :: w in ws && w.run == run && w.seat == seat ==> w.cursor <= latest.value
  {
    if ws == [] then None
    else
      var init, last := ws[..|ws| - 1], ws[|ws| - 1];
      assert forall w :: w in ws <==> w in init || w == last;
      var before := LatestCursor(init, run, seat);
      if last.run != run || last.seat != seat then before
      else if before.Some? && before.value >= last.cursor then before
      else Some(last.cursor)
  }

  /** The larger of the latest cursor so far and one more window's, if that is the seat's. */
  function LaterCursor(latest: Option<nat>, w: Window, run: string, seat: string): Option<nat> {
    if w.run == run && w.seat == seat && (latest.None? || latest.value < w.cursor) then Some(w.cursor) else latest
  }

  lemma LatestNext(ws: seq<Window>, i: nat, run: string, seat: string)
    requires i < |ws|
    ensures LatestCursor(ws[..i + 1], run, seat) == LaterCursor(LatestCursor(ws[..i], run, seat), ws[i], run, seat)
  {
    assert ws[..i + 1][..i] == ws[..i];
  }

  lemma LatestEnds(ws: seq<Window>, run: string, seat: string)
    ensures LatestCursor(ws[..0], run, seat) == None && LatestCursor(ws[..|ws|], run, seat) == LatestCursor(ws, run, seat)
  {
    assert ws[..|ws|] == ws;
  }

  ghost function CursorOf(d: Desk, run: string, seat: string): Option<nat>
    requires Listed(d)
  {
    LatestCursor(WindowsInOrder(d.order, d.windows), run, seat)
  }

  /** A participant that reconnects is never sent back: the latest cursor never decreases. */
  lemma CursorNeverDecreases(d: Desk, ops: seq<Op>, run: string, seat: string)
    requires DeskInv(d) && CursorOf(d, run, seat).Some?
    ensures CursorOf(RunFrom(d, ops), run, seat).Some?
    ensures CursorOf(d, run, seat).value <= CursorOf(RunFrom(d, ops), run, seat).value
  {
    var d' := RunFrom(d, ops);
    var ws, ws' := WindowsInOrder(d.order, d.windows), WindowsInOrder(d'.order, d'.windows);
    var w :| w in ws && w.run == run && w.seat == seat && w.cursor == CursorOf(d, run, seat).value;
    var i :| 0 <= i < |ws| && ws[i] == w;
    var id := d.order[i];
    assert id in d.order;
    WindowsOnlyClose(d, ops, id);
    assert id in d'.order;
    var j :| 0 <= j < |d'.order| && d'.order[j] == id;
    assert ws'[j] == d'.windows[id] && ws'[j] in ws';
  }
}
