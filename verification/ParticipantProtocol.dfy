/** Participant protocol: cursors, action windows, submissions, and idempotency records. */
module ParticipantProtocol {
  import opened Text
  import opened Logs

  // ---- reconnect cursors --------------------------------------------------------------

  const CURSOR_PREFIX: string := "event:"

  function FormatCursor(index: nat): string { CURSOR_PREFIX + Digits(index) }

  /** `event:` followed by decimal digits, and nothing else. */
  function ParseCursor(text: string): Option<nat> {
    if CURSOR_PREFIX <= text && |text| > |CURSOR_PREFIX| && AllDigits(text[|CURSOR_PREFIX|..])
    then Some(Value(text[|CURSOR_PREFIX|..]))
    else None
  }

  /** Formatting then parsing gives the index back, so re-validating a cursor changes nothing but leading zeros. */
  lemma CursorRoundTrip(index: nat)
    ensures FormatCursor(index) == "event:" + Digits(index) && ParseCursor(FormatCursor(index)) == Some(index)
  {
    DigitsValue(index);
    assert FormatCursor(index)[|CURSOR_PREFIX|..] == Digits(index);
  }

  // ---- windows and submissions ----------------------------------------------------------

  datatype WindowStatus = WindowOpen | WindowAccepted | WindowTimedOut

  datatype Window = Window(
    id: string, run: string, seat: string, revision: nat, allowed: seq<string>, status: WindowStatus, cursor: nat)

  datatype Submission = Submission(windowId: string, revision: int, key: string, action: string, payload: string)

  /** What two submissions must share to count as the same one under a key. */
  datatype Fingerprint = Fingerprint(revision: int, action: string, payload: string)

  function FingerprintOf(s: Submission): Fingerprint { Fingerprint(s.revision, s.action, s.payload) }

  datatype SubmitResult = SubmitResult(windowId: string, revision: nat, accepted: nat, cursor: nat)

  datatype ErrorCode =
    | InvalidPayload | WindowNotFound | StaleRevision | IdempotencyConflict | WindowClosed | IllegalAction

  /** A submission against its window: open, current, and legal there, checked in that order. */
  function ValidateForWindow(s: Submission, w: Window): Option<ErrorCode> {
    if s.windowId != w.id then Some(WindowNotFound)
    else if !w.status.WindowOpen? then Some(WindowClosed)
    else if s.revision != w.revision then Some(StaleRevision)
    else if s.action !in w.allowed then Some(IllegalAction)
    else None
  }

  /** At most one open window per run and seat. */
  ghost predicate SingleOpen(windows: seq<Window>) {
    forall i, j :: 0 <= i < j < |windows| && windows[i].status.WindowOpen? && windows[j].status.WindowOpen? ==>
      (windows[i].run, windows[i].seat) != (windows[j].run, windows[j].seat)
  }

  method EnsureSingleOpen(windows: seq<Window>) returns (ok: bool)
    ensures ok <==> SingleOpen(windows)
  {
    var seen: map<(string, string), string> := map[];
    for i := 0 to |windows|
      invariant forall k :: k in seen <==>
                  exists j :: 0 <= j < i && windows[j].status.WindowOpen? && (windows[j].run, windows[j].seat) == k
      invariant SingleOpen(windows[..i])
    {
      var w := windows[i];
      assert windows[..i + 1] == windows[..i] + [w];
      if w.status.WindowOpen? {
        if (w.run, w.seat) in seen {
          return false;
        }
        seen := seen[(w.run, w.seat) := w.id];
      }
    }
    assert windows[..|windows|] == windows;
    return true;
  }

  // ---- idempotency ---------------------------------------------------------------------------

  datatype Record = Record(fingerprint: Fingerprint, result: SubmitResult)

  type Records = map<string, map<string, Record>>

  datatype Lookup = Fresh | Repeat(result: SubmitResult) | Conflict

  function Find(records: Records, s: Submission): Lookup {
    if s.windowId in records && s.key in records[s.windowId] then
      var r := records[s.windowId][s.key];
      if r.fingerprint == FingerprintOf(s) then Repeat(r.result) else Conflict
    else Fresh
  }

  function Remember(records: Records, s: Submission, result: SubmitResult): Records {
    var forWindow := if s.windowId in records then records[s.windowId] else map[];
    records[s.windowId := forWindow[s.key := Record(FingerprintOf(s), result)]]
  }

  /** Once remembered, the same submission finds its own result and any other one under that key conflicts. */
  lemma RememberedIsFound(records: Records, s: Submission, result: SubmitResult, t: Submission)
    ensures var after := Remember(records, s, result);
            && Find(after, s) == Repeat(result)
            && (t.windowId == s.windowId && t.key == s.key && FingerprintOf(t) != FingerprintOf(s) ==> Find(after, t) == Conflict)
            && (t.windowId != s.windowId || t.key != s.key ==> Find(after, t) == Find(records, t))
  {
  }

  class ActionIdempotencyTracker {
    var records: Records

    constructor ()
      ensures records == map[]
    {
      records := map[];
    }

    method DuplicateFor(s: Submission) returns (found: Lookup)
      ensures found == Find(records, s)
    {
      if s.windowId !in records || s.key !in records[s.windowId] {
        return Fresh;
      }
      var existing := records[s.windowId][s.key];
      if existing.fingerprint != FingerprintOf(s) {
        return Conflict;
      }
      return Repeat(existing.result);
    }

    /** Store the first result under a key; a repeat gets the stored result, a conflict changes nothing. */
    method RecordOrDuplicate(s: Submission, result: SubmitResult) returns (found: Lookup)
      modifies this
      ensures found == Find(old(records), s)
      ensures records == if found.Fresh? then Remember(old(records), s, result) else old(records)
    {
      found := DuplicateFor(s);
      if !found.Fresh? {
        return;
      }
      if s.windowId !in records {
        records := records[s.windowId := map[]];
      }
      records := records[s.windowId := records[s.windowId][s.key := Record(FingerprintOf(s), result)]];
    }
  }
}
