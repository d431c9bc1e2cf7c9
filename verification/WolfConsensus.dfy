/**
  How the scripted engine settles a night from the wolves' answers (`_resolve_wolf_consensus`, provider mode), and
  that the consensus log of any number of such nights is accepted.
*/
module WolfConsensus {
  import opened Logs
  import opened Rules
  import opened RoleVisibility
  import opened LogViews
  import opened LogInvariants
  import opened TeamInvariants
  import opened ConsensusEntries
  import opened RunDocuments
  import opened GameLogCheck
  import opened ConsensusLogCheck
  import opened ConsensusTheorems

  datatype AgentAnswer =
    | Raised
    | Act(actor: Name, action: EventKind, target: Name, phase: Phase, round: int)

  datatype FailureKind = AgentError | InvalidAction | WolfConsensusFailure

  datatype Failure = Failure(actor: Name, kind: FailureKind)

  /** The night being settled: who is asked, who is alive, and what each wolf answers. */
  datatype NightQuery = NightQuery(round: nat, phase: Phase, wolves: seq<Seat>, alive: set<Seat>, answers: Seat -> AgentAnswer)

  predicate Willing(q: NightQuery, wolf: Seat) {
    var a := q.answers(wolf);
    && a.Act? && a.actor == Player(wolf) && a.action.WerewolfKill? && a.phase == q.phase && a.round == q.round
    && a.target.Player? && a.target.seat in q.alive && a.target.seat !in q.wolves
  }

  function Choice(q: NightQuery, wolf: Seat): Seat
    requires Willing(q, wolf)
  {
    q.answers(wolf).target.seat
  }

  /** The wolf answers for itself, for this very night, with the kill of a living seat outside the pack. */
  predicate BidsFor(q: NightQuery, wolf: Seat, target: Seat) {
    && q.answers(wolf) == Act(Player(wolf), WerewolfKill, Player(target), q.phase, q.round)
    && target in q.alive && target !in q.wolves
  }

  lemma WillingExactly(q: NightQuery, wolf: Seat)
    ensures Willing(q, wolf) <==> exists target :: BidsFor(q, wolf, target)
    ensures Willing(q, wolf) ==> forall target :: BidsFor(q, wolf, target) <==> target == Choice(q, wolf)
  {
    if Willing(q, wolf) {
      assert BidsFor(q, wolf, Choice(q, wolf));
    }
  }

  ghost predicate SomebodyBids(q: NightQuery) { exists w, t :: w in q.wolves && BidsFor(q, w, t) }

  ghost predicate WolvesSplit(q: NightQuery) {
    exists v, w, t, u :: v in q.wolves && w in q.wolves && BidsFor(q, v, t) && BidsFor(q, w, u) && t != u
  }

  lemma ChoiceExactly(q: NightQuery)
    ensures forall w, t :: BidsFor(q, w, t) <==> Willing(q, w) && Choice(q, w) == t
  {
    forall w, t ensures BidsFor(q, w, t) <==> Willing(q, w) && Choice(q, w) == t {
      WillingExactly(q, w);
    }
  }

  function RefusalOf(q: NightQuery, wolf: Seat): Failure {
    Failure(Player(wolf), if q.answers(wolf).Raised? then AgentError else InvalidAction)
  }

  // ---- what the first n wolves come to ---------------------------------------------------

  function ValidBids(q: NightQuery, n: nat): (bids: seq<Bid>)
    requires n <= |q.wolves|
  {
    if n == 0 then []
    else if Willing(q, q.wolves[n - 1]) then ValidBids(q, n - 1) + [Bid(q.wolves[n - 1], Choice(q, q.wolves[n - 1]))]
    else ValidBids(q, n - 1)
  }

  function Refusers(q: NightQuery, n: nat): (seats: seq<Seat>)
    requires n <= |q.wolves|
  {
    if n == 0 then []
    else if Willing(q, q.wolves[n - 1]) then Refusers(q, n - 1)
    else Refusers(q, n - 1) + [q.wolves[n - 1]]
  }

  function Refusals(q: NightQuery, n: nat): (failures: seq<Failure>)
    requires n <= |q.wolves|
  {
    if n == 0 then []
    else if Willing(q, q.wolves[n - 1]) then Refusals(q, n - 1)
    else Refusals(q, n - 1) + [RefusalOf(q, q.wolves[n - 1])]
  }

  function Objectors(bids: seq<Bid>, target: Seat): seq<Seat> {
    if bids == [] then []
    else
      var last := bids[|bids| - 1];
      if last.target != target then Objectors(bids[..|bids| - 1], target) + [last.wolf]
      else Objectors(bids[..|bids| - 1], target)
  }

  lemma {:induction false} BidsExactly(q: NightQuery, n: nat, bid: Bid)
    requires n <= |q.wolves|
    ensures bid in ValidBids(q, n) <==>
            bid.wolf in q.wolves[..n] && Willing(q, bid.wolf) && bid.target == Choice(q, bid.wolf)
  {
    if n > 0 {
      BidsExactly(q, n - 1, bid);
      assert q.wolves[..n] == q.wolves[..n - 1] + [q.wolves[n - 1]];
    }
  }

  lemma {:induction false} RefusersExactly(q: NightQuery, n: nat, w: Seat)
    requires n <= |q.wolves|
    ensures w in Refusers(q, n) <==> w in q.wolves[..n] && !Willing(q, w)
  {
    if n > 0 {
      RefusersExactly(q, n - 1, w);
      assert q.wolves[..n] == q.wolves[..n - 1] + [q.wolves[n - 1]];
    }
  }

  lemma {:induction false} ObjectorsExactly(bids: seq<Bid>, target: Seat, w: Seat)
    ensures w in Objectors(bids, target) <==> exists bid :: bid in bids && bid.wolf == w && bid.target != target
  {
    if bids != [] {
      var init, last := bids[..|bids| - 1], bids[|bids| - 1];
      ObjectorsExactly(init, target, w);
      assert bids == init + [last];
      if bid :| bid in init && bid.wolf == w && bid.target != target {
        assert bid in bids;
      }
      if bid :| bid in bids && bid.wolf == w && bid.target != target {
        assert bid in init || bid == last;
      }
      assert last in bids;
    }
  }

  /** A wolf is heard at most once, so valid bids never repeat a wolf. */
  lemma {:induction false} BidsOnce(q: NightQuery, n: nat)
    requires n <= |q.wolves| && Distinct(q.wolves)
    ensures forall i, j :: 0 <= i < j < |ValidBids(q, n)| ==> ValidBids(q, n)[i].wolf != ValidBids(q, n)[j].wolf
  {
    if n > 0 {
      BidsOnce(q, n - 1);
      var before := ValidBids(q, n - 1);
      forall i | 0 <= i < |before| ensures before[i].wolf != q.wolves[n - 1] {
        BidsExactly(q, n - 1, before[i]);
        var k :| 0 <= k < n - 1 && q.wolves[k] == before[i].wolf;
      }
    }
  }

  // ---- the resolution -----------------------------------------------------------------------

  predicate FromOthers(bids: seq<Bid>, primary: Seat, target: Seat, rs: seq<Response>) {
    && (forall r :: r in rs ==> AnswersBid(bids, primary, target, r))
    && DistinctResponders(rs)
    && forall bid :: bid in bids && bid.wolf != primary ==> HasResponse(rs, bid.wolf)
  }

  predicate HasResponse(rs: seq<Response>, wolf: Seat) {
    exists r :: r in rs && r.responder == Player(wolf)
  }

  lemma ResponseKept(rs: seq<Response>, r: Response, wolf: Seat)
    requires HasResponse(rs, wolf)
    ensures HasResponse(rs + [r], wolf)
  {
    var kept :| kept in rs && kept.responder == Player(wolf);
    assert kept in rs + [r];
  }

  predicate AnswersBid(bids: seq<Bid>, primary: Seat, target: Seat, r: Response) {
    && r.id >= 1 && r.toProposal == 1 && r.refs == [] && r.actionRound == 1
    && r.responder.Player? && r.responder.seat != primary
    && exists bid :: bid in bids && bid.wolf == r.responder.seat
                     && r.kind == if bid.target == target then SupportWithReason else OpposeWithReason
  }

  /** One answer per heard wolf other than the primary: support for the target, opposition otherwise. */
  method Responses(bids: seq<Bid>, supporters: seq<Seat>, primary: Seat, target: Seat) returns (rs: seq<Response>)
    requires forall i, j :: 0 <= i < j < |bids| ==> bids[i].wolf != bids[j].wolf
    requires forall i :: 0 <= i < |bids| ==> (bids[i].wolf in supporters <==> bids[i].target == target)
    ensures FromOthers(bids, primary, target, rs)
  {
    rs := [];
    for j := 0 to |bids|
      invariant forall r :: r in rs ==> AnswersBid(bids, primary, target, r) && r.responder.seat != primary
      invariant forall r :: r in rs ==> exists i :: 0 <= i < j && bids[i].wolf == r.responder.seat
      invariant DistinctResponders(rs)
      invariant forall i :: 0 <= i < j && bids[i].wolf != primary ==> HasResponse(rs, bids[i].wolf)
    {
      var w := bids[j].wolf;
      if w != primary {
        assert bids[j] in bids;
        var r := Response(j + 1, 1, Player(w), if w in supporters then SupportWithReason else OpposeWithReason, [], 1);
        assert AnswersBid(bids, primary, target, r);
        forall i | 0 <= i < j && bids[i].wolf != primary ensures HasResponse(rs + [r], bids[i].wolf) {
          ResponseKept(rs, r, bids[i].wolf);
        }
        rs := rs + [r];
        assert r in rs;
      }
    }
    forall bid | bid in bids && bid.wolf != primary ensures HasResponse(rs, bid.wolf) {
      var i :| 0 <= i < |bids| && bids[i] == bid;
    }
  }

  /** What the night's entry must say, in terms of the wolves' answers alone. */
  ghost predicate SettlesNight(b: Board, q: NightQuery, refs: seq<string>, c: ConsensusEntry, target: Seat) {
    && c.id == ConsensusId(b.gameId, q.round) && c.gameId == b.gameId && c.round == q.round && c.phase == q.phase
    && c.participants == Names(q.wolves)
    && (exists i :: 0 <= i < |q.wolves| && BidsFor(q, q.wolves[i], target) && c.final.primary == Player(q.wolves[i])
                    && forall j, t :: 0 <= j < i ==> !BidsFor(q, q.wolves[j], t))
    && c.final.target == Player(target)
    && (forall w :: w in q.wolves ==>
          && (Player(w) in c.final.supporters <==> BidsFor(q, w, target))
          && (Player(w) in c.final.dissenters <==> !BidsFor(q, w, target)))
    && (c.status.Consensus? <==> forall w :: w in q.wolves ==> BidsFor(q, w, target))
    && |c.proposals| == 1 && c.proposals[0].refs == refs
  }

  lemma {:induction false} FirstBid(q: NightQuery, n: nat)
    requires n <= |q.wolves| && ValidBids(q, n) != []
    ensures exists i :: 0 <= i < n && Willing(q, q.wolves[i]) && (forall j :: 0 <= j < i ==> !Willing(q, q.wolves[j]))
                        && ValidBids(q, n)[0] == Bid(q.wolves[i], Choice(q, q.wolves[i]))
  {
    if ValidBids(q, n - 1) != [] {
      FirstBid(q, n - 1);
    } else {
      forall j | 0 <= j < n - 1 ensures !Willing(q, q.wolves[j]) {
        if Willing(q, q.wolves[j]) {
          assert q.wolves[j] in q.wolves[..n - 1];
          BidsExactly(q, n - 1, Bid(q.wolves[j], Choice(q, q.wolves[j])));
        }
      }
    }
  }

  /** The two sides of the verdict, read off the wolves' answers. */
  ghost predicate Sides(q: NightQuery, target: Seat, supporters: seq<Seat>, dissenters: seq<Seat>) {
    && (forall w :: w in supporters <==> w in q.wolves && Willing(q, w) && Choice(q, w) == target)
    && (forall w :: w in dissenters <==> w in q.wolves && !(Willing(q, w) && Choice(q, w) == target))
  }

  lemma SidesExactly(q: NightQuery, target: Seat)
    requires Distinct(q.wolves)
    ensures var bids, n := ValidBids(q, |q.wolves|), |q.wolves|;
            Sides(q, target, Backers(bids, target), Objectors(bids, target) + Refusers(q, n))
  {
    var n := |q.wolves|;
    var bids := ValidBids(q, n);
    assert q.wolves[..n] == q.wolves;
    forall w
      ensures w in Backers(bids, target) <==> w in q.wolves && Willing(q, w) && Choice(q, w) == target
      ensures w in Objectors(bids, target) <==> w in q.wolves && Willing(q, w) && Choice(q, w) != target
      ensures w in Refusers(q, n) <==> w in q.wolves && !Willing(q, w)
    {
      BackersExactly(bids, target, w);
      ObjectorsExactly(bids, target, w);
      RefusersExactly(q, n, w);
      BidsExactly(q, n, Bid(w, target));
      if bid :| bid in bids && bid.wolf == w && bid.target != target { BidsExactly(q, n, bid); }
      if w in q.wolves && Willing(q, w) { BidsExactly(q, n, Bid(w, Choice(q, w))); }
    }
  }

  lemma SidesPartition(b: Board, q: NightQuery, target: Seat, supporters: seq<Seat>, dissenters: seq<Seat>, f: FinalDecision,
                       primary: Seat)
    requires Sides(q, target, supporters, dissenters) && primary in supporters
    requires f.primary == Player(primary) && f.resolutionRound == 1
    requires f.supporters == Names(supporters) && f.dissenters == Names(dissenters)
    ensures VerdictShape(f, Names(q.wolves)) && f.primary in f.supporters
    ensures forall w :: w in q.wolves ==>
              && (Player(w) in f.supporters <==> Willing(q, w) && Choice(q, w) == target)
              && (Player(w) in f.dissenters <==> !(Willing(q, w) && Choice(q, w) == target))
  {
    hide Willing;
    forall n
      ensures n in Names(q.wolves) <==> n.Player? && n.seat in q.wolves
      ensures n in f.supporters <==> n.Player? && n.seat in supporters
      ensures n in f.dissenters <==> n.Player? && n.seat in dissenters
    {
      NamesHold(q.wolves, n);
      NamesHold(supporters, n);
      NamesHold(dissenters, n);
    }
  }

  lemma BidsByWolf(q: NightQuery, bids: seq<Bid>, target: Seat)
    requires Distinct(q.wolves) && bids == ValidBids(q, |q.wolves|)
    ensures forall i :: 0 <= i < |bids| ==> (bids[i].wolf in Backers(bids, target) <==> bids[i].target == target)
    ensures forall bid :: bid in bids ==> bid.wolf in q.wolves && Willing(q, bid.wolf) && bid.target == Choice(q, bid.wolf)
  {
    assert q.wolves[..|q.wolves|] == q.wolves;
    SidesExactly(q, target);
    forall bid | bid in bids ensures bid.wolf in q.wolves && Willing(q, bid.wolf) && bid.target == Choice(q, bid.wolf) {
      BidsExactly(q, |q.wolves|, bid);
    }
    forall i | 0 <= i < |bids| ensures bids[i].wolf in Backers(bids, target) <==> bids[i].target == target {
      assert bids[i] in bids;
    }
  }

  lemma AnswerIsShaped(q: NightQuery, bids: seq<Bid>, target: Seat, primary: Seat, c: ConsensusEntry, r: Response)
    requires (forall bid :: bid in bids ==> bid.wolf in q.wolves) && AnswersBid(bids, primary, target, r)
    requires c.participants == Names(q.wolves) && c.final.primary == Player(primary)
    ensures ResponseShape(c, r)
  {
    NamesHold(q.wolves, r.responder);
  }

  lemma AnswersAreShaped(q: NightQuery, bids: seq<Bid>, target: Seat, primary: Seat, c: ConsensusEntry)
    requires (forall bid :: bid in bids ==> bid.wolf in q.wolves) && FromOthers(bids, primary, target, c.responses)
    requires c.participants == Names(q.wolves) && c.final.primary == Player(primary)
    ensures forall i :: 0 <= i < |c.responses| ==> ResponseShape(c, c.responses[i])
    ensures DistinctResponders(c.responses)
  {
    hide AnswersBid, ResponseShape, DistinctResponders;
    forall i | 0 <= i < |c.responses| ensures ResponseShape(c, c.responses[i]) {
      assert c.responses[i] in c.responses;
      AnswerIsShaped(q, bids, target, primary, c, c.responses[i]);
    }
  }

  lemma NobodyObjects(q: NightQuery, target: Seat, supporters: seq<Seat>, dissenters: seq<Seat>)
    requires Sides(q, target, supporters, dissenters)
    ensures dissenters == [] <==> forall w :: w in q.wolves ==> Willing(q, w) && Choice(q, w) == target
  {
    if dissenters != [] {
      assert dissenters[0] in dissenters;
    }
  }

  /** Objectors among the heard wolves exist exactly when the bids differ. */
  lemma SplitBids(bids: seq<Bid>)
    requires bids != []
    ensures Objectors(bids, bids[0].target) == [] <==> Unanimous(bids)
  {
    var target := bids[0].target;
    forall w ensures w in Objectors(bids, target) <==> exists bid :: bid in bids && bid.wolf == w && bid.target != target {
      ObjectorsExactly(bids, target, w);
    }
    if Objectors(bids, target) != [] {
      assert Objectors(bids, target)[0] in Objectors(bids, target);
      var bid :| bid in bids && bid.wolf == Objectors(bids, target)[0] && bid.target != target;
      var i :| 0 <= i < |bids| && bids[i] == bid;
    } else {
      forall i, j | 0 <= i < |bids| && 0 <= j < |bids| ensures bids[i].target == bids[j].target {
        assert bids[i] in bids && bids[j] in bids;
        assert bids[i].wolf !in Objectors(bids, target) && bids[j].wolf !in Objectors(bids, target);
      }
    }
  }

  lemma SplitExactly(q: NightQuery)
    ensures !Unanimous(ValidBids(q, |q.wolves|)) <==> WolvesSplit(q)
  {
    var n := |q.wolves|;
    var bids := ValidBids(q, n);
    ChoiceExactly(q);
    hide BidsFor;
    assert q.wolves[..n] == q.wolves;
    forall bid ensures bid in bids <==> bid.wolf in q.wolves && Willing(q, bid.wolf) && bid.target == Choice(q, bid.wolf) {
      BidsExactly(q, n, bid);
    }
    if !Unanimous(bids) {
      var i, j :| 0 <= i < |bids| && 0 <= j < |bids| && bids[i].target != bids[j].target;
      assert bids[i] in bids && bids[j] in bids;
      assert BidsFor(q, bids[i].wolf, bids[i].target) && BidsFor(q, bids[j].wolf, bids[j].target);
    }
    if v, w, t, u :| v in q.wolves && w in q.wolves && BidsFor(q, v, t) && BidsFor(q, w, u) && t != u {
      var x, y := Bid(v, Choice(q, v)), Bid(w, Choice(q, w));
      assert x in bids && y in bids;
      var i :| 0 <= i < |bids| && bids[i] == x;
      var j :| 0 <= j < |bids| && bids[j] == y;
    }
  }

  lemma HeardExactly(q: NightQuery)
    ensures ValidBids(q, |q.wolves|) != [] <==> SomebodyBids(q)
  {
    var n := |q.wolves|;
    var bids := ValidBids(q, n);
    ChoiceExactly(q);
    hide BidsFor;
    assert q.wolves[..n] == q.wolves;
    if bids != [] {
      BidsExactly(q, n, bids[0]);
      assert bids[0] in bids && BidsFor(q, bids[0].wolf, bids[0].target);
    }
    if w, t :| w in q.wolves && BidsFor(q, w, t) {
      BidsExactly(q, n, Bid(w, Choice(q, w)));
    }
  }

  /** Gather the valid answers in seat order; every other wolf fails with a reason. */
  lemma {:induction false} RefusalsExactly(q: NightQuery, n: nat)
    requires n <= |q.wolves|
    ensures forall f :: f in Refusals(q, n) <==>
              exists w :: w in q.wolves[..n] && !Willing(q, w)
                          && f == Failure(Player(w), if q.answers(w) == Raised then AgentError else InvalidAction)
  {
    if n > 0 {
      RefusalsExactly(q, n - 1);
      assert q.wolves[..n] == q.wolves[..n - 1] + [q.wolves[n - 1]];
      hide Willing;
      assert forall f :: f in Refusals(q, n) <==>
               f in Refusals(q, n - 1) || (!Willing(q, q.wolves[n - 1]) && f == RefusalOf(q, q.wolves[n - 1]));
    }
  }

  method HearWolves(q: NightQuery) returns (valid: seq<Bid>, failed: seq<Seat>, failures: seq<Failure>)
    ensures valid == ValidBids(q, |q.wolves|) && failed == Refusers(q, |q.wolves|) && failures == Refusals(q, |q.wolves|)
    ensures forall w, t :: Bid(w, t) in valid <==> w in q.wolves && BidsFor(q, w, t)
    ensures forall w :: w in failed <==> w in q.wolves && forall t :: !BidsFor(q, w, t)
    ensures forall f :: f in failures <==>
              exists w :: w in failed && f == Failure(Player(w), if q.answers(w) == Raised then AgentError else InvalidAction)
  {
    valid, failed, failures := [], [], [];
    for i := 0 to |q.wolves|
      invariant valid == ValidBids(q, i) && failed == Refusers(q, i) && failures == Refusals(q, i)
    {
      var wolf := q.wolves[i];
      if Willing(q, wolf) {
        valid := valid + [Bid(wolf, Choice(q, wolf))];
      } else {
        failures := failures + [RefusalOf(q, wolf)];
        failed := failed + [wolf];
      }
    }
    HeardTells(q, valid, failed, failures);
  }

  lemma HeardTells(q: NightQuery, valid: seq<Bid>, failed: seq<Seat>, failures: seq<Failure>)
    requires valid == ValidBids(q, |q.wolves|) && failed == Refusers(q, |q.wolves|) && failures == Refusals(q, |q.wolves|)
    ensures forall w, t :: Bid(w, t) in valid <==> w in q.wolves && BidsFor(q, w, t)
    ensures forall w :: w in failed <==> w in q.wolves && forall t :: !BidsFor(q, w, t)
    ensures forall f :: f in failures <==>
              exists w :: w in failed && f == Failure(Player(w), if q.answers(w) == Raised then AgentError else InvalidAction)
  {
    hide Willing, BidsFor, ValidBids, Refusers, Refusals;
    assert q.wolves[..|q.wolves|] == q.wolves;
    forall w, t ensures Bid(w, t) in valid <==> w in q.wolves && BidsFor(q, w, t) {
      BidsExactly(q, |q.wolves|, Bid(w, t));
      WillingExactly(q, w);
    }
    forall w
      ensures w in failed <==> w in q.wolves && !Willing(q, w)
      ensures Willing(q, w) <==> exists t :: BidsFor(q, w, t)
    {
      RefusersExactly(q, |q.wolves|, w);
      WillingExactly(q, w);
    }
    RefusalsExactly(q, |q.wolves|);
  }

  function EntryOf(b: Board, q: NightQuery, first: Bid, refs: seq<string>, supporters: seq<Seat>, dissenters: seq<Seat>,
                   status: Status, responses: seq<Response>): ConsensusEntry
    requires q.wolves != []
  {
    ConsensusEntry(
      ConsensusId(b.gameId, q.round), b.gameId, q.round, q.phase, WerewolfTeam, Names(q.wolves), Player(q.wolves[0]), 1, 1,
      status, [Proposal(1, Player(first.wolf), Player(first.target), refs, 1)], responses,
      FinalDecision(Player(first.target), status, Player(first.wolf), Names(supporters), Names(dissenters), 1))
  }

  method ResolveWolfConsensus(b: Board, q: NightQuery, events: seq<Event>)
    returns (entry: Option<ConsensusEntry>, failures: seq<Failure>, target: Option<Seat>)
    requires Distinct(q.wolves) && (forall w :: w in q.wolves ==> IsWolf(b, w)) && forall s :: s in q.alive ==> s < |b.roles|
    ensures entry.Some? <==> SomebodyBids(q)
    ensures target.Some? <==> entry.Some?
    ensures entry.Some? ==>
              && EntryShape(b, entry.value) && Settled(entry.value)
              && SettlesNight(b, q, PublicRefs(events), entry.value, target.value)
    ensures failures == Refusals(q, |q.wolves|) + if WolvesSplit(q) then [Failure(WolfPack, WolfConsensusFailure)] else []
  {
    hide Willing, BidsFor, SomebodyBids, WolvesSplit, Unanimous, ValidBids, Refusers, Refusals, Backers, Objectors;
    var valid, failed;
    valid, failed, failures := HearWolves(q);
    HeardExactly(q);
    SplitExactly(q);
    if valid == [] {
      assert Unanimous(valid) by { NoBidsAgree(valid); }
      return None, failures, None;
    }
    var aim := valid[0].target;
    var status := Consensus;
    if !Unanimous(valid) {
      status := CoordinatorTieBreak;
      failures := failures + [Failure(WolfPack, WolfConsensusFailure)];
    }
    var supporters := Backers(valid, aim);
    var dissenters := Objectors(valid, aim);
    if failed != [] {
      dissenters := dissenters + failed;
      if status.Consensus? {
        status := CoordinatorTieBreak;
      }
    }
    var primary := valid[0].wolf;
    BidsOnce(q, |q.wolves|);
    BidsByWolf(q, valid, aim);
    var responses := Responses(valid, supporters, primary, aim);
    var c := EntryOf(b, q, valid[0], PublicRefs(events), supporters, dissenters, status, responses);
    SplitBids(valid);
    SidesExactly(q, aim);
    assert dissenters == Objectors(valid, aim) + failed;
    EntryIsShaped(b, q, valid, PublicRefs(events), supporters, dissenters, status, responses);
    EntrySettles(b, q, valid, PublicRefs(events), supporters, dissenters, status, responses);
    return Some(c), failures, Some(aim);
  }

  lemma NoBidsAgree(bids: seq<Bid>)
    requires bids == []
    ensures Unanimous(bids)
  {
  }

  /** The first valid bid's wolf is the primary, stands among the supporters, and its target is not a wolf's seat. */
  lemma FirstBidFacts(q: NightQuery, bids: seq<Bid>, supporters: seq<Seat>, dissenters: seq<Seat>)
    requires Distinct(q.wolves) && bids == ValidBids(q, |q.wolves|) && bids != []
    requires Sides(q, bids[0].target, supporters, dissenters)
    ensures q.wolves != [] && bids[0].wolf in q.wolves && bids[0].wolf in supporters
    ensures bids[0].target in q.alive && bids[0].target !in q.wolves
    ensures forall bid :: bid in bids ==> bid.wolf in q.wolves
  {
    BidsByWolf(q, bids, bids[0].target);
    assert bids[0] in bids;
  }

  lemma EntryIsShaped(b: Board, q: NightQuery, bids: seq<Bid>, refs: seq<string>, supporters: seq<Seat>,
                      dissenters: seq<Seat>, status: Status, responses: seq<Response>)
    requires Distinct(q.wolves) && (forall w :: w in q.wolves ==> IsWolf(b, w)) && forall s :: s in q.alive ==> s < |b.roles|
    requires bids == ValidBids(q, |q.wolves|) && bids != []
    requires Sides(q, bids[0].target, supporters, dissenters) && (status.Consensus? <==> dissenters == [])
    requires status.Consensus? || status.CoordinatorTieBreak?
    requires FromOthers(bids, bids[0].wolf, bids[0].target, responses)
    ensures q.wolves != []
    ensures var c := EntryOf(b, q, bids[0], refs, supporters, dissenters, status, responses);
            EntryShape(b, c) && Settled(c)
  {
    hide Willing, ValidBids, FromOthers, Sides, VerdictShape, ResponseShape, DistinctResponders, ConsensusId, IsWolf, WolfName;
    FirstBidFacts(q, bids, supporters, dissenters);
    var c := EntryOf(b, q, bids[0], refs, supporters, dissenters, status, responses);
    SidesPartition(b, q, bids[0].target, supporters, dissenters, c.final, bids[0].wolf);
    AnswersAreShaped(q, bids, bids[0].target, bids[0].wolf, c);
    ParticipantsShaped(b, q.wolves);
    NamesHold(q.wolves, Player(bids[0].target));
    IdMark(b.gameId, q.round);
    assert Names(dissenters) == [] <==> dissenters == [];
  }

  lemma EntrySettles(b: Board, q: NightQuery, bids: seq<Bid>, refs: seq<string>, supporters: seq<Seat>,
                     dissenters: seq<Seat>, status: Status, responses: seq<Response>)
    requires Distinct(q.wolves) && bids == ValidBids(q, |q.wolves|) && bids != [] && q.wolves != []
    requires Sides(q, bids[0].target, supporters, dissenters) && (status.Consensus? <==> dissenters == [])
    ensures SettlesNight(b, q, refs, EntryOf(b, q, bids[0], refs, supporters, dissenters, status, responses), bids[0].target)
  {
    hide Willing, ValidBids, Sides, VerdictShape, ConsensusId, Choice;
    FirstBid(q, |q.wolves|);
    FirstBidFacts(q, bids, supporters, dissenters);
    var c := EntryOf(b, q, bids[0], refs, supporters, dissenters, status, responses);
    SidesPartition(b, q, bids[0].target, supporters, dissenters, c.final, bids[0].wolf);
    NobodyObjects(q, bids[0].target, supporters, dissenters);
    ChoiceExactly(q);
    hide BidsFor;
  }

  // ---- any number of nights --------------------------------------------------------------------

  /** An event to be logged between kills: anything but a kill. */
  datatype Draft = Draft(round: int, phase: Phase, kind: EventKind, actor: Name, target: Name, visibility: Visibility)

  datatype NightPlan = NightPlan(before: seq<Draft>, wolves: seq<Seat>, alive: set<Seat>, answers: Seat -> AgentAnswer)

  predicate PlanOk(b: Board, p: NightPlan) {
    && Distinct(p.wolves) && (forall w :: w in p.wolves ==> IsWolf(b, w)) && (forall s :: s in p.alive ==> s < |b.roles|)
    && forall d :: d in p.before ==> !d.kind.WerewolfKill?
  }

  function Logged(b: Board, count: nat, d: Draft): Event {
    Event(EventId(b.gameId, count + 1), count + 1, d.round, d.phase, d.kind, d.actor, d.target, d.visibility, true, [])
  }

  ghost predicate Tidy(b: Board, events: seq<Event>) {
    forall i :: 0 <= i < |events| ==> events[i].id == EventId(b.gameId, i + 1) && events[i].sequence == i + 1
  }

  lemma TidyIsNumbered(b: Board, events: seq<Event>)
    requires Tidy(b, events)
    ensures Numbered(events)
  {
    hide EventId;
    forall i, j | 0 <= i < j < |events| ensures events[i].id != events[j].id {
      if events[i].id == events[j].id { EventIdInjective(b.gameId, i + 1, j + 1); }
    }
  }

  /** The record so far: every kill has its entry, every entry accounts for its wolves, nothing is from a later night. */
  ghost predicate NightsOk(b: Board, events: seq<Event>, entries: seq<ConsensusEntry>, nights: nat) {
    && Tidy(b, events) && Matched(b, events, entries) && EntryInv(b, events, entries)
    && (forall k :: 0 <= k < |entries| ==> Settled(entries[k]) && entries[k].round <= nights)
  }

  lemma KillsAreOld(b: Board, events: seq<Event>, entries: seq<ConsensusEntry>, nights: nat, i: nat)
    requires NightsOk(b, events, entries, nights) && i < |events| && events[i].kind.WerewolfKill?
    ensures events[i].round <= nights
  {
    hide ConsensusId, EntryInv, Settled, Tidy;
    SelectedAre(KindView(WerewolfKill), events, events[i]);
    var kills := Select(KindView(WerewolfKill), events);
    var k :| 0 <= k < |kills| && kills[k] == events[i];
    assert Records(b, entries[k], kills[k]);
  }

  lemma EntriesStay(b: Board, events: seq<Event>, entries: seq<ConsensusEntry>, e: Event)
    requires EntryInv(b, events, entries)
    ensures EntryInv(b, events + [e], entries)
  {
    hide RefsPrecede, ResponseShape, VerdictShape, DistinctResponders;
    forall k | 0 <= k < |entries| ensures EntryOk(b, events + [e], entries[k]) {
      assert EntryOk(b, events, entries[k]);
      RefsStayBefore(events, [e], entries[k].proposals[0].refs, entries[k].round);
    }
  }

  lemma LogOther(b: Board, events: seq<Event>, entries: seq<ConsensusEntry>, nights: nat, d: Draft)
    requires NightsOk(b, events, entries, nights) && !d.kind.WerewolfKill?
    ensures NightsOk(b, events + [Logged(b, |events|, d)], entries, nights)
  {
    hide EntryInv, Settled, Records, EventId, Select;
    var e := Logged(b, |events|, d);
    EntriesStay(b, events, entries, e);
    SelectOne(KindView(WerewolfKill), events, e);
  }

  /** Tonight's public refs are all older than tonight's kill. */
  lemma PublicRefsPrecede(b: Board, events: seq<Event>, entries: seq<ConsensusEntry>, nights: nat)
    requires NightsOk(b, events, entries, nights)
    ensures RefsPrecede(events, PublicRefs(events), nights + 1)
  {
    forall i | 0 <= i < |events| && events[i].kind.WerewolfKill? ensures events[i].round <= nights {
      KillsAreOld(b, events, entries, nights, i);
    }
    hide NightsOk;
    forall r | r in PublicRefs(events)
      ensures exists i :: 0 <= i < |events| && events[i].id == r && IsPublic(events[i].visibility)
                          && BeforeKillOf(events, i, nights + 1)
    {
      PublicRefsExactly(events, r);
      var i :| 0 <= i < |events| && events[i].id == r && IsPublic(events[i].visibility);
      assert BeforeKillOf(events, i, nights + 1);
    }
  }

  lemma KillMatched(b: Board, events: seq<Event>, entries: seq<ConsensusEntry>, nights: nat, c: ConsensusEntry, e: Event)
    requires Matched(b, events, entries) && (forall k :: 0 <= k < |entries| ==> entries[k].round <= nights)
    requires e.kind.WerewolfKill? && Records(b, c, e) && c.round == nights + 1
    ensures Matched(b, events + [e], entries + [c])
  {
    SelectOne(KindView(WerewolfKill), events, e);
    hide Records, Select;
  }

  lemma LogKill(b: Board, events: seq<Event>, entries: seq<ConsensusEntry>, nights: nat, c: ConsensusEntry, d: Draft)
    requires NightsOk(b, events, entries, nights)
    requires EntryShape(b, c) && Settled(c) && c.phase.Night? && c.proposals[0].refs == PublicRefs(events)
    requires c.id == ConsensusId(b.gameId, nights + 1) && c.round == nights + 1
    requires d == Draft(nights + 1, Night, WerewolfKill, c.final.primary, c.final.target, WolvesOnly)
    ensures NightsOk(b, events + [Logged(b, |events|, d)], entries + [c], nights + 1)
  {
    PublicRefsPrecede(b, events, entries, nights);
    LogKillRefs(b, events, entries, nights, c, d, PublicRefs(events));
  }

  lemma LogKillRefs(b: Board, events: seq<Event>, entries: seq<ConsensusEntry>, nights: nat, c: ConsensusEntry, d: Draft,
                    refs: seq<string>)
    requires NightsOk(b, events, entries, nights) && RefsPrecede(events, refs, nights + 1)
    requires EntryShape(b, c) && Settled(c) && c.phase.Night? && c.proposals[0].refs == refs
    requires c.id == ConsensusId(b.gameId, nights + 1) && c.round == nights + 1
    requires d == Draft(nights + 1, Night, WerewolfKill, c.final.primary, c.final.target, WolvesOnly)
    ensures NightsOk(b, events + [Logged(b, |events|, d)], entries + [c], nights + 1)
  {
    hide Matched, EntryInv, RefsPrecede, Settled, EventId, ConsensusId, ResponseShape, VerdictShape, DistinctResponders,
      Select, PublicRefs;
    var e := Logged(b, |events|, d);
    EntriesStay(b, events, entries, e);
    RefsStayBefore(events, [e], refs, nights + 1);
    assert Records(b, c, e);
    KillMatched(b, events, entries, nights, c, e);
    assert EntryOk(b, events + [e], c);
    EntriesGrow(b, events + [e], entries, c);
  }

  lemma EntriesGrow(b: Board, events: seq<Event>, entries: seq<ConsensusEntry>, c: ConsensusEntry)
    requires EntryInv(b, events, entries) && EntryOk(b, events, c)
    ensures EntryInv(b, events, entries + [c])
  {
    hide EntryOk;
  }

  /** One night: log what came before, settle the wolves' answers, and log the kill if there is one. */
  method PlayNight(b: Board, plan: NightPlan, night: nat, events: seq<Event>, entries: seq<ConsensusEntry>)
    returns (events': seq<Event>, entries': seq<ConsensusEntry>)
    requires PlanOk(b, plan) && NightsOk(b, events, entries, night)
    ensures NightsOk(b, events', entries', night + 1)
    ensures events <= events'
    ensures |entries'| == |entries| +
            var q := NightQuery(night + 1, Night, plan.wolves, plan.alive, plan.answers);
            if SomebodyBids(q) then 1 else 0
  {
    hide NightsOk, EntryShape, Settled, Willing, BidsFor, SomebodyBids, WolvesSplit, ConsensusId;
    events', entries' := events, entries;
    for i := 0 to |plan.before|
      invariant NightsOk(b, events', entries', night) && entries' == entries && events <= events'
    {
      LogOther(b, events', entries', night, plan.before[i]);
      events' := events' + [Logged(b, |events'|, plan.before[i])];
    }
    var q := NightQuery(night + 1, Night, plan.wolves, plan.alive, plan.answers);
    var entry, _, _ := ResolveWolfConsensus(b, q, events');
    if entry.Some? {
      var kill := Draft(night + 1, Night, WerewolfKill, entry.value.final.primary, entry.value.final.target, WolvesOnly);
      LogKill(b, events', entries', night, entry.value, kill);
      events' := events' + [Logged(b, |events'|, kill)];
      entries' := entries' + [entry.value];
    } else {
      NightPasses(b, events', entries', night);
    }
  }

  lemma NightPasses(b: Board, events: seq<Event>, entries: seq<ConsensusEntry>, nights: nat)
    requires NightsOk(b, events, entries, nights)
    ensures NightsOk(b, events, entries, nights + 1)
  {
    hide Tidy, Matched, EntryInv, Settled;
  }

  /** For any wolves and any answers, over any number of nights, the consensus log is accepted. */
  method PlayNights(b: Board, source: string, plans: seq<NightPlan>, result: GameResult)
    returns (log: ConsensusLog, game: GameLog)
    requires (forall p :: p in plans ==> PlanOk(b, p)) && source in VALID_SOURCE_LABELS
    ensures AcceptsConsensusLog(log, game)
    ensures game.events == [] ==> log.consensuses == []
    ensures game.players == Roster(b) && game.gameId == log.gameId == b.gameId
  {
    hide NightsOk, AcceptsConsensusLog, VALID_SOURCE_LABELS;
    var events: seq<Event>, entries: seq<ConsensusEntry> := [], [];
    assert NightsOk(b, events, entries, 0) by { FirstNight(b); }
    for k := 0 to |plans|
      invariant NightsOk(b, events, entries, k)
    {
      events, entries := PlayNight(b, plans[k], k, events, entries);
    }
    log := ConsensusLog(b.gameId + "_consensus_log", b.gameId, source, entries);
    game := GameLog(b.gameId, source, Roster(b), events, result);
    assert |log.id| > 0;
    NightsAccepted(b, log, game, |plans|);
    if events == [] {
      NoEventsNoEntries(b, entries, |plans|);
    }
  }

  lemma FirstNight(b: Board)
    ensures NightsOk(b, [], [], 0)
  {
  }

  lemma NoEventsNoEntries(b: Board, entries: seq<ConsensusEntry>, nights: nat)
    requires NightsOk(b, [], entries, nights)
    ensures entries == []
  {
  }

  lemma NightsAccepted(b: Board, log: ConsensusLog, game: GameLog, nights: nat)
    requires NightsOk(b, game.events, log.consensuses, nights) && game.players == Roster(b)
    requires game.gameId == b.gameId == log.gameId && log.id != "" && log.sourceLabel in VALID_SOURCE_LABELS
    ensures AcceptsConsensusLog(log, game)
  {
    hide Matched, EntryInv, Settled, AcceptsConsensusLog, VALID_SOURCE_LABELS, Numbered;
    TidyIsNumbered(b, game.events);
    MatchedLogAccepted(b, log, game);
  }
}
