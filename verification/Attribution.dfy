/** The critical-vote rule: an elimination by a margin of one is one a single ballot could have turned. */
module Attribution {
  import opened Logs

  function Count(ballots: seq<Name>, n: Name): nat { multiset(ballots)[n] }

  /** The most votes anybody but this one has. */
  function RunnerUp(ballots: seq<Name>, out: Name): nat {
    if ballots == [] then 0
    else
      var rest := RunnerUp(ballots[..|ballots| - 1], out);
      var last := ballots[|ballots| - 1];
      if last != out && Count(ballots, last) > rest then Count(ballots, last) else rest
  }

  lemma CountSnoc(ballots: seq<Name>, b: Name, n: Name)
    ensures Count(ballots + [b], n) == Count(ballots, n) + if n == b then 1 else 0
  {
  }

  lemma {:induction false} RunnerUpExactly(ballots: seq<Name>, out: Name)
    ensures forall n :: n != out ==> Count(ballots, n) <= RunnerUp(ballots, out)
    ensures RunnerUp(ballots, out) > 0 ==> exists n :: n != out && Count(ballots, n) == RunnerUp(ballots, out)
  {
    if ballots != [] {
      var init, last := ballots[..|ballots| - 1], ballots[|ballots| - 1];
      assert ballots == init + [last];
      RunnerUpExactly(init, out);
      forall n ensures Count(ballots, n) == Count(init, n) + if n == last then 1 else 0 { CountSnoc(init, last, n); }
      if RunnerUp(ballots, out) == RunnerUp(init, out) && RunnerUp(init, out) > 0 {
        var n :| n != out && Count(init, n) == RunnerUp(init, out);
        assert Count(ballots, n) == RunnerUp(ballots, out);
      } else if RunnerUp(ballots, out) > 0 {
        assert last != out && Count(ballots, last) == RunnerUp(ballots, out);
      }
    }
  }

  lemma RunnerUpSnoc(ballots: seq<Name>, b: Name, out: Name)
    ensures RunnerUp(ballots + [b], out) ==
            if b != out && Count(ballots, b) + 1 > RunnerUp(ballots, out) then Count(ballots, b) + 1 else RunnerUp(ballots, out)
  {
    assert (ballots + [b])[..|ballots|] == ballots;
    CountSnoc(ballots, b, b);
  }

  function Margin(ballots: seq<Name>, out: Name): int { Count(ballots, out) - RunnerUp(ballots, out) }

  /** The rule's own count: votes for the eliminated, and a dictionary of the others' votes. */
  method VoteMargin(ballots: seq<Name>, out: Name) returns (margin: int)
    ensures margin == Margin(ballots, out)
  {
    hide Count, RunnerUp;
    assert forall n :: Count([], n) == 0 && RunnerUp([], out) == 0 by { NoBallots(out); }
    var own: int := 0;
    var others: map<Name, nat> := map[];
    var top: int := 0;
    for i := 0 to |ballots|
      invariant own == Count(ballots[..i], out) && top == RunnerUp(ballots[..i], out)
      invariant forall n :: n in others ==> n != out && others[n] == Count(ballots[..i], n)
      invariant forall n :: n != out && n !in others ==> Count(ballots[..i], n) == 0
    {
      var b := ballots[i];
      assert ballots[..i + 1] == ballots[..i] + [b];
      forall n ensures Count(ballots[..i + 1], n) == Count(ballots[..i], n) + if n == b then 1 else 0 {
        CountSnoc(ballots[..i], b, n);
      }
      RunnerUpSnoc(ballots[..i], b, out);
      if b == out {
        own := own + 1;
      } else {
        others := others[b := (if b in others then others[b] else 0) + 1];
        if others[b] > top {
          top := others[b];
        }
      }
    }
    assert ballots[..|ballots|] == ballots;
    return own - top;
  }

  lemma NoBallots(out: Name)
    ensures RunnerUp([], out) == 0 && forall n :: Count([], n) == 0
  {
  }

  // ---- what one ballot could change -------------------------------------------------------

  predicate UniqueLeader(ballots: seq<Name>, n: Name, candidates: set<Name>) {
    n in candidates && forall m :: m in candidates && m != n ==> Count(ballots, m) < Count(ballots, n)
  }

  /** One voter votes for somebody else. */
  function Changed(ballots: seq<Name>, i: nat, to: Name): seq<Name>
    requires i < |ballots|
  {
    ballots[i := to]
  }

  lemma ChangedCounts(ballots: seq<Name>, i: nat, to: Name, n: Name)
    requires i < |ballots|
    ensures Count(Changed(ballots, i, to), n) ==
            Count(ballots, n) + (if n == to then 1 else 0) - (if n == ballots[i] then 1 else 0)
    ensures Count(ballots, ballots[i]) >= 1
  {
    assert ballots == ballots[..i] + [ballots[i]] + ballots[i + 1..];
    assert Changed(ballots, i, to) == ballots[..i] + [to] + ballots[i + 1..];
  }

  predicate Election(ballots: seq<Name>, out: Name, candidates: set<Name>) {
    && (forall b :: b in ballots ==> b in candidates)
    && UniqueLeader(ballots, out, candidates)
    && exists m :: m in candidates && m != out
  }

  ghost predicate OneBallotElects(ballots: seq<Name>, out: Name, candidates: set<Name>) {
    exists i, to, m :: 0 <= i < |ballots| && to in candidates && m != out && UniqueLeader(Changed(ballots, i, to), m, candidates)
  }

  /** Some ballot for the leader, and somebody next in line to give it to. */
  lemma Challenger(ballots: seq<Name>, out: Name, candidates: set<Name>) returns (i: nat, m: Name)
    requires Election(ballots, out, candidates)
    ensures i < |ballots| && ballots[i] == out
    ensures m in candidates && m != out && Count(ballots, m) == RunnerUp(ballots, out)
  {
    RunnerUpExactly(ballots, out);
    var other :| other in candidates && other != out;
    assert Count(ballots, out) > 0;
    assert out in multiset(ballots);
    i :| 0 <= i < |ballots| && ballots[i] == out;
    if RunnerUp(ballots, out) == 0 {
      m := other;
    } else {
      m :| m != out && Count(ballots, m) == RunnerUp(ballots, out);
      assert m in multiset(ballots);
      assert m in ballots;
    }
  }

  /** A unique leader is ahead by at least one. */
  lemma LeaderIsAhead(ballots: seq<Name>, out: Name, candidates: set<Name>)
    requires Election(ballots, out, candidates)
    ensures Margin(ballots, out) >= 1
  {
    RunnerUpExactly(ballots, out);
    if RunnerUp(ballots, out) > 0 {
      var n :| n != out && Count(ballots, n) == RunnerUp(ballots, out);
      assert n in multiset(ballots);
      assert n in ballots;
    } else {
      var m :| m in candidates && m != out;
      assert Count(ballots, m) < Count(ballots, out);
    }
  }

  lemma NobodyPassesFromBehind(ballots: seq<Name>, out: Name, candidates: set<Name>, i: nat, to: Name, m: Name)
    requires Election(ballots, out, candidates) && i < |ballots| && m in candidates && m != out
    ensures Count(Changed(ballots, i, to), m) <= RunnerUp(ballots, out) + 1
    ensures Count(Changed(ballots, i, to), out) >= Count(ballots, out) - 1
    ensures Count(Changed(ballots, i, to), m) > RunnerUp(ballots, out) ==> to == m
  {
    RunnerUpExactly(ballots, out);
    ChangedCounts(ballots, i, to, m);
    ChangedCounts(ballots, i, to, out);
  }

  lemma MarginOneElects(ballots: seq<Name>, out: Name, candidates: set<Name>)
    requires Election(ballots, out, candidates) && Margin(ballots, out) == 1
    ensures OneBallotElects(ballots, out, candidates)
  {
    var i, m := Challenger(ballots, out, candidates);
    RunnerUpExactly(ballots, out);
    var after := Changed(ballots, i, m);
    forall n | n in candidates && n != m ensures Count(after, n) < Count(after, m) {
      ChangedCounts(ballots, i, m, n);
      ChangedCounts(ballots, i, m, m);
    }
    assert UniqueLeader(after, m, candidates);
  }

  /**
    What a critical vote means: after a unique-plurality elimination with somebody else to vote for, the margin is one
    exactly when a single different ballot would have made somebody else the unique leader.
  */
  lemma MarginOneExactly(ballots: seq<Name>, out: Name, candidates: set<Name>)
    requires Election(ballots, out, candidates)
    ensures Margin(ballots, out) == 1 <==> OneBallotElects(ballots, out, candidates)
  {
    LeaderIsAhead(ballots, out, candidates);
    if Margin(ballots, out) == 1 {
      MarginOneElects(ballots, out, candidates);
    }
    if OneBallotElects(ballots, out, candidates) {
      var i, to, m :| 0 <= i < |ballots| && to in candidates && m != out
                      && UniqueLeader(Changed(ballots, i, to), m, candidates);
      NobodyPassesFromBehind(ballots, out, candidates, i, to, m);
      assert Count(Changed(ballots, i, to), out) < Count(Changed(ballots, i, to), m);
      if to == m && ballots[i] != out {
        ChangedCounts(ballots, i, to, out);
        ChangedCounts(ballots, i, to, m);
        RunnerUpExactly(ballots, out);
      }
    }
  }

  /** With a margin of two the best a single ballot can do is a tie; with more, nothing. */
  lemma MarginTwoOnlyTies(ballots: seq<Name>, out: Name, candidates: set<Name>)
    requires Election(ballots, out, candidates)
    ensures Margin(ballots, out) <= 2 <==>
            exists i, to :: 0 <= i < |ballots| && to in candidates && !UniqueLeader(Changed(ballots, i, to), out, candidates)
    ensures Margin(ballots, out) == 2 ==> !OneBallotElects(ballots, out, candidates)
  {
    LeaderIsAhead(ballots, out, candidates);
    MarginOneExactly(ballots, out, candidates);
    RunnerUpExactly(ballots, out);
    if Margin(ballots, out) <= 2 {
      var i, m := Challenger(ballots, out, candidates);
      ChangedCounts(ballots, i, m, m);
      ChangedCounts(ballots, i, m, out);
      assert !UniqueLeader(Changed(ballots, i, m), out, candidates);
    }
    if i, to :| 0 <= i < |ballots| && to in candidates && !UniqueLeader(Changed(ballots, i, to), out, candidates) {
      var m :| m in candidates && m != out && Count(Changed(ballots, i, to), m) >= Count(Changed(ballots, i, to), out);
      NobodyPassesFromBehind(ballots, out, candidates, i, to, m);
    }
  }
}
