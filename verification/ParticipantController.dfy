/**
  The in-memory action controller shared by the HTTP threads and the engine thread. Each method is one critical section
  and is proved to be one step of the desk; the waiting loop is a sequence of steps with other threads' in between.
*/
module ParticipantController {
  import opened Logs
  import opened ParticipantProtocol
  import opened ActionDesk
  import opened DeskTheorems

  /** What happened while the waiting thread had released the lock, and whether its deadline passed meanwhile. */
  datatype WakeUp = WakeUp(others: seq<Op>, expired: bool)

  datatype WaitResult = Answer(submission: Submission) | NoAnswer | Blocked

  class InMemoryParticipantActionController {
    var order: seq<string>
    var windows: map<string, Window>
    var submissions: map<string, Submission>
    var windowCount: nat
    var actionCount: nat
    var seats: set<(string, string)>
    const idempotency: ActionIdempotencyTracker

    ghost function State(): Desk
      reads this, idempotency
    {
      Desk(order, windows, submissions, idempotency.records, windowCount, actionCount, seats)
    }

    ghost predicate Valid()
      reads this, idempotency
    {
      DeskInv(State())
    }

    constructor ()
      ensures Valid() && State() == EmptyDesk() && fresh(idempotency)
    {
      order, windows, submissions, windowCount, actionCount, seats := [], map[], map[], 0, 0, {};
      idempotency := new ActionIdempotencyTracker();
    }

    method ConfigureHumanSeat(run: string, seat: string)
      requires Valid()
      modifies this, idempotency
      ensures Valid() && State() == Apply(old(State()), ConfigureSeat(run, seat)).0
    {
      hide DeskInv;
      StepKeepsInv(State(), ConfigureSeat(run, seat));
      seats := seats + {(run, seat)};
    }

    /** This seat's open windows, oldest first. */
    method OpenWindowsOf(run: string, seat: string) returns (current: seq<Window>)
      requires Valid()
      ensures current == OpenFor(WindowsInOrder(order, windows), run, seat)
    {
      hide OneOpen, WindowInv, OpenFor, IsOpenFor;
      ghost var ws := WindowsInOrder(order, windows);
      OpenForEnds(ws, run, seat);
      current := [];
      for i := 0 to |order|
        invariant current == OpenFor(ws[..i], run, seat)
      {
        assert order[i] in order;
        var w := windows[order[i]];
        OpenForNext(ws, i, run, seat);
        if IsOpenFor(w, run, seat) {
          current := current + [w];
        }
      }
    }

    method OpenActionWindow(run: string, seat: string, revision: nat, allowed: seq<string>, cursor: nat, fieldsOk: bool)
      returns (reply: Reply)
      requires Valid()
      modifies this, idempotency
      ensures Valid()
      ensures (State(), reply) == Apply(old(State()), Op.OpenWindow(run, seat, revision, allowed, cursor, fieldsOk))
      ensures OpenAnswered(old(State()), run, seat, revision, allowed, cursor, fieldsOk, State(), reply)
    {
      hide DeskInv, WindowId, OpenAnswered;
      ghost var op := Op.OpenWindow(run, seat, revision, allowed, cursor, fieldsOk);
      StepKeepsInv(State(), op);
      OpenExactly(State(), run, seat, revision, allowed, cursor, fieldsOk);
      var current := OpenWindowsOf(run, seat);
      var single := EnsureSingleOpen(current);
      assert single by { NeverTwoOpen(State(), run, seat); }
      if current != [] {
        return AlreadyOpen(current[0].id);
      }
      windowCount := windowCount + 1;
      var id := WindowId(run, seat, windowCount);
      if !fieldsOk || |id| > MAX_ID_LENGTH {
        return Rejected(InvalidPayload);
      }
      var w := Window(id, run, seat, revision, allowed, WindowOpen, cursor);
      order := order + [id];
      windows := windows[id := w];
      return Opened(w);
    }

    method SubmitAction(run: string, seat: string, s: Submission) returns (reply: Reply)
      requires Valid()
      modifies this, idempotency
      ensures Valid()
      ensures (State(), reply) == Apply(old(State()), Op.SubmitAction(run, seat, s))
      ensures SubmitAnswered(old(State()), run, seat, s, State(), reply)
    {
      hide DeskInv, Find, Remember, SubmitAnswered;
      ghost var op := Op.SubmitAction(run, seat, s);
      StepKeepsInv(State(), op);
      SubmitExactly(State(), run, seat, s);
      var found := idempotency.DuplicateFor(s);
      match found
      case Repeat(result) => return DuplicateReply(result);
      case Conflict => return Rejected(IdempotencyConflict);
      case Fresh =>
        if s.windowId !in windows || windows[s.windowId].run != run || windows[s.windowId].seat != seat {
          return Rejected(WindowNotFound);
        }
        var w := windows[s.windowId];
        var problem := ValidateForWindow(s, w);
        if problem.Some? {
          return Rejected(problem.value);
        }
        actionCount := actionCount + 1;
        var result := SubmitResult(w.id, w.revision + 1, actionCount, w.cursor + 1);
        var _ := idempotency.RecordOrDuplicate(s, result);
        submissions := submissions[w.id := s];
        windows := windows[w.id := w.(status := WindowAccepted, revision := w.revision + 1, cursor := w.cursor + 1)];
        return AcceptedReply(result);
    }

    /** One pass of the waiting loop, with the lock held: an answer, the end of the window, or nothing yet. */
    method Recheck(id: string, expired: bool) returns (reply: Reply)
      requires Valid()
      modifies this, idempotency
      ensures Valid()
      ensures (State(), reply) == Apply(old(State()), Op.Recheck(id, expired))
      ensures idempotency.records == old(idempotency.records) && submissions == old(submissions) && order == old(order)
      ensures windows == if expired && id in old(windows) && old(windows)[id].status.WindowOpen?
                         then old(windows)[id := old(windows)[id].(status := WindowTimedOut, cursor := old(windows)[id].cursor + 1)]
                         else old(windows)
      ensures reply == if id in old(windows) && old(windows)[id].status.WindowAccepted? && id in old(submissions)
                       then Delivered(old(submissions)[id])
                       else if id in old(windows) && old(windows)[id].status.WindowOpen? && !expired then StillWaiting
                       else Ended
    {
      hide DeskInv;
      StepKeepsInv(State(), Op.Recheck(id, expired));
      RecheckExactly(State(), id, expired);
      WaitEndsClosed(State(), id, expired);
      if id in submissions {
        return Delivered(submissions[id]);
      }
      if id !in windows || !windows[id].status.WindowOpen? {
        return Ended;
      }
      if !expired {
        return StillWaiting;
      }
      windows := windows[id := windows[id].(status := WindowTimedOut, cursor := windows[id].cursor + 1)];
      return Ended;
    }

    /** Whichever critical section another thread runs. */
    method Perform(op: Op) returns (reply: Reply)
      requires Valid()
      modifies this, idempotency
      ensures Valid()
      ensures (State(), reply) == Apply(old(State()), op)
    {
      hide DeskInv;
      match op
      case ConfigureSeat(run, seat) => ConfigureHumanSeat(run, seat); return Done;
      case OpenWindow(run, seat, revision, allowed, cursor, fieldsOk) =>
        reply := OpenActionWindow(run, seat, revision, allowed, cursor, fieldsOk);
      case SubmitAction(run, seat, s) => reply := SubmitAction(run, seat, s);
      case Recheck(id, expired) => reply := Recheck(id, expired);
    }

    /** Other threads' critical sections, one after another. */
    method LetOthersRun(others: seq<Op>)
      requires Valid()
      modifies this, idempotency
      ensures Valid() && State() == RunFrom(old(State()), others)
    {
      hide DeskInv, Apply;
      for i := 0 to |others|
        invariant Valid() && State() == RunFrom(old(State()), others[..i])
      {
        RunSnoc(old(State()), others[..i], others[i]);
        assert others[..i] + [others[i]] == others[..i + 1];
        var _ := Perform(others[i]);
      }
      assert others[..|others|] == others;
    }

    /**
      Wait for a window's answer while other threads run between the rechecks. It returns only with the window closed
      or unknown; an answer is the accepted submission; everything it did is an interleaving of single steps.
    */
    method WaitForAction(id: string, wakes: seq<WakeUp>) returns (result: WaitResult, ghost trace: seq<Op>)
      requires Valid()
      modifies this, idempotency
      ensures Valid() && State() == RunFrom(old(State()), trace)
      ensures result.Answer? ==> id in submissions && result.submission == submissions[id]
                                 && id in windows && windows[id].status.WindowAccepted?
      ensures result.NoAnswer? ==> id !in submissions && (id !in windows || windows[id].status.WindowTimedOut?)
      ensures result.Blocked? ==> id in windows && windows[id].status.WindowOpen?
    {
      hide DeskInv, Apply;
      trace := [];
      var expired := false;
      for i := 0 to |wakes|
        invariant Valid() && State() == RunFrom(old(State()), trace)
      {
        var reply := Check(id, expired, old(State()), trace);
        trace := trace + [Op.Recheck(id, expired)];
        if reply.Delivered? {
          return Answer(reply.submission), trace;
        }
        if !reply.StillWaiting? {
          return NoAnswer, trace;
        }
        ghost var before := State();
        LetOthersRun(wakes[i].others);
        RunAppend(old(State()), trace, wakes[i].others);
        trace := trace + wakes[i].others;
        expired := wakes[i].expired;
      }
      var reply := Check(id, expired, old(State()), trace);
      trace := trace + [Op.Recheck(id, expired)];
      if reply.Delivered? {
        return Answer(reply.submission), trace;
      }
      return if reply.StillWaiting? then Blocked else NoAnswer, trace;
    }

    /** A recheck, with what its reply says about the window. */
    method Check(id: string, expired: bool, ghost start: Desk, ghost trace: seq<Op>) returns (reply: Reply)
      requires Valid() && DeskInv(start) && State() == RunFrom(start, trace)
      modifies this, idempotency
      ensures Valid() && State() == RunFrom(start, trace + [Op.Recheck(id, expired)])
      ensures reply.Delivered? || reply.Ended? || reply.StillWaiting?
      ensures reply.Delivered? ==> id in submissions && reply.submission == submissions[id]
                                   && id in windows && windows[id].status.WindowAccepted?
      ensures reply.Ended? ==> id !in submissions && (id !in windows || windows[id].status.WindowTimedOut?)
      ensures reply.StillWaiting? ==> id in windows && windows[id].status.WindowOpen?
    {
      ghost var d := State();
      WaitEndsClosed(d, id, expired);
      RunSnoc(start, trace, Op.Recheck(id, expired));
      reply := Recheck(id, expired);
      SubmissionsOnlyAccepted(State(), id);
    }

    /** The latest cursor over this seat's windows. */
    method LatestReconnectCursor(run: string, seat: string) returns (latest: Option<nat>)
      requires Valid()
      ensures latest == CursorOf(State(), run, seat)
    {
      hide OneOpen, WindowInv, LatestCursor;
      ghost var ws := WindowsInOrder(order, windows);
      LatestEnds(ws, run, seat);
      latest := None;
      for i := 0 to |order|
        invariant latest == LatestCursor(ws[..i], run, seat)
      {
        assert order[i] in order;
        var w := windows[order[i]];
        LatestNext(ws, i, run, seat);
        if w.run == run && w.seat == seat && (latest.None? || latest.value < w.cursor) {
          latest := Some(w.cursor);
        }
      }
    }
  }
}
