/** What a wolf consensus entry looks like, and when its verdict accounts for every wolf. */
module ConsensusEntries {
  import opened Logs
  import opened Rules

  predicate WolfName(b: Board, n: Name) { n.Player? && IsWolf(b, n.seat) }

  predicate ResponseShape(c: ConsensusEntry, r: Response) {
    && r.id >= 1 && r.toProposal == 1 && r.refs == [] && r.actionRound == 1
    && (r.kind.SupportWithReason? || r.kind.OpposeWithReason?)
    && r.responder in c.participants && r.responder != c.final.primary
  }

  predicate VerdictShape(f: FinalDecision, participants: seq<Name>) {
    && f.primary in participants && f.resolutionRound == 1
    && (forall n :: n in f.supporters ==> n in participants)
    && (forall n :: n in f.dissenters ==> n in participants && n !in f.supporters && n != f.primary)
    && (forall n :: n in participants ==> n == f.primary || n in f.supporters || n in f.dissenters)
  }

  /** One proposal by the primary wolf, at most one answer from each other wolf, nobody on both sides. */
  ghost predicate EntryShape(b: Board, c: ConsensusEntry) {
    && c.id != "" && c.gameId == b.gameId && c.team.WerewolfTeam?
    && (c.status.Consensus? || c.status.CoordinatorTieBreak?) && c.final.dtype == c.status
    && c.maxRounds == 1 && c.actualRounds == 1
    && c.participants != [] && Distinct(c.participants) && c.coordinator in c.participants
    && (forall n :: n in c.participants ==> WolfName(b, n))
    && c.final.target.Player? && c.final.target.seat < |b.roles| && c.final.target !in c.participants
    && |c.proposals| == 1
    && c.proposals[0] == Proposal(1, c.final.primary, c.final.target, c.proposals[0].refs, 1)
    && (forall i :: 0 <= i < |c.responses| ==> ResponseShape(c, c.responses[i]))
    && DistinctResponders(c.responses)
    && VerdictShape(c.final, c.participants)
  }

  /** Every wolf is on exactly one side, and the status says whether there was an opposing side. */
  predicate Settled(c: ConsensusEntry) {
    && c.final.primary in c.final.supporters
    && (c.status.Consensus? <==> c.final.dissenters == [])
  }

  // ---- the entry the emergent engine builds -----------------------------------------

  predicate AnswerFrom(r: Response, wolves: seq<Seat>, primary: Seat) {
    && r.responder.Player? && r.responder.seat in wolves && r.responder.seat != primary
    && r.id >= 1 && r.toProposal == 1 && r.refs == [] && r.actionRound == 1
    && (r.kind.SupportWithReason? || r.kind.OpposeWithReason?)
  }

  predicate DistinctResponders(rs: seq<Response>) {
    forall i, j :: 0 <= i < j < |rs| ==> rs[i].responder != rs[j].responder
  }

  lemma {:induction false} ResponsesShaped(wolves: seq<Seat>, primary: Seat, supporters: seq<Seat>)
    requires Distinct(wolves)
    ensures forall r :: r in WolfResponses(wolves, primary, supporters) ==> AnswerFrom(r, wolves, primary)
    ensures DistinctResponders(WolfResponses(wolves, primary, supporters))
  {
    if wolves != [] {
      var init, w := wolves[..|wolves| - 1], wolves[|wolves| - 1];
      assert wolves == init + [w];
      assert Distinct(init);
      ResponsesShaped(init, primary, supporters);
      var rest := WolfResponses(init, primary, supporters);
      forall r | r in rest ensures AnswerFrom(r, wolves, primary) && r.responder.seat != w {
        assert AnswerFrom(r, init, primary);
        var k :| 0 <= k < |init| && init[k] == r.responder.seat;
        assert wolves[k] != wolves[|wolves| - 1];
      }
    }
  }

  /** The bids are from different living wolves and name living others, and the target is what they settled on. */
  predicate BidsAgree(b: Board, wolves: seq<Seat>, bids: seq<Bid>, target: Seat, status: Status) {
    && (forall i :: 0 <= i < |bids| ==> bids[i].wolf in wolves)
    && (forall i, j :: 0 <= i < j < |bids| ==> bids[i].wolf != bids[j].wolf)
    && (bids != [] ==> exists i :: 0 <= i < |bids| && bids[i].target == target)
    && (if bids != [] && Unanimous(bids) then status.Consensus? else status.CoordinatorTieBreak?)
  }

  lemma PrimaryBacks(wolves: seq<Seat>, bids: seq<Bid>, target: Seat)
    requires wolves != [] && (forall i :: 0 <= i < |bids| ==> bids[i].wolf in wolves)
    requires bids != [] ==> exists i :: 0 <= i < |bids| && bids[i].target == target
    ensures PrimaryWolf(wolves, bids, target) in wolves
    ensures bids != [] ==> PrimaryWolf(wolves, bids, target) in Backers(bids, target)
    ensures forall w :: w in Backers(bids, target) ==> w in wolves
    ensures bids == [] ==> Backers(bids, target) == []
  {
    forall w | w in Backers(bids, target) ensures w in wolves {
      BackersExactly(bids, target, w);
    }
    if bids != [] {
      var i :| 0 <= i < |bids| && bids[i].target == target;
      BackersExactly(bids, target, bids[i].wolf);
      assert bids[i] == Bid(bids[i].wolf, target);
    }
  }

  lemma NamesHold(seats: seq<Seat>, n: Name)
    ensures n in Names(seats) <==> n.Player? && n.seat in seats
  {
    if n.Player? && n.seat in seats {
      var i :| 0 <= i < |seats| && seats[i] == n.seat;
      assert Names(seats)[i] == n;
    }
  }

  lemma BuiltEntryShape(b: Board, rnd: nat, wolves: seq<Seat>, bids: seq<Bid>, target: Seat, status: Status,
                        refs: seq<string>)
    requires wolves != [] && Distinct(wolves) && (forall w :: w in wolves ==> IsWolf(b, w))
    requires target < |b.roles| && target !in wolves
    requires BidsAgree(b, wolves, bids, target, status)
    ensures var c := BuildConsensusEntry(b, rnd, wolves, target, PrimaryWolf(wolves, bids, target), Backers(bids, target),
                                         status, refs);
            EntryShape(b, c)
  {
    hide *;
    var primary, supporters := PrimaryWolf(wolves, bids, target), Backers(bids, target);
    BackedPrimary(b, wolves, bids, target, status);
    EntryFromParts(b, rnd, wolves, target, primary, supporters, status, refs);
  }

  lemma BackedPrimary(b: Board, wolves: seq<Seat>, bids: seq<Bid>, target: Seat, status: Status)
    requires wolves != [] && BidsAgree(b, wolves, bids, target, status)
    ensures PrimaryWolf(wolves, bids, target) in wolves && forall w :: w in Backers(bids, target) ==> w in wolves
    ensures status.Consensus? || status.CoordinatorTieBreak?
  {
    PrimaryBacks(wolves, bids, target);
  }

  lemma EntryFromParts(b: Board, rnd: nat, wolves: seq<Seat>, target: Seat, primary: Seat, supporters: seq<Seat>,
                       status: Status, refs: seq<string>)
    requires wolves != [] && Distinct(wolves) && (forall w :: w in wolves ==> IsWolf(b, w))
    requires target < |b.roles| && target !in wolves
    requires primary in wolves && forall w :: w in supporters ==> w in wolves
    requires status.Consensus? || status.CoordinatorTieBreak?
    ensures EntryShape(b, BuildConsensusEntry(b, rnd, wolves, target, primary, supporters, status, refs))
  {
    hide WolfResponses, Opponents, ConsensusId, VerdictShape, ResponseShape, AnswerFrom, DistinctResponders, IsWolf;
    var c := BuildConsensusEntry(b, rnd, wolves, target, primary, supporters, status, refs);
    IdMark(b.gameId, rnd);
    VerdictShaped(wolves, primary, supporters, c.final);
    ResponsesShaped(wolves, primary, supporters);
    forall i | 0 <= i < |c.responses| ensures ResponseShape(c, c.responses[i]) {
      AnswerShaped(c, wolves, primary, c.responses[i]);
    }
    ParticipantsShaped(b, wolves);
    NamesHold(wolves, Player(target));
  }

  lemma ParticipantsShaped(b: Board, wolves: seq<Seat>)
    requires wolves != [] && Distinct(wolves) && (forall w :: w in wolves ==> IsWolf(b, w))
    ensures Distinct(Names(wolves)) && Player(wolves[0]) in Names(wolves)
    ensures forall n :: n in Names(wolves) ==> WolfName(b, n)
  {
    assert Names(wolves)[0] == Player(wolves[0]);
    forall n | n in Names(wolves) ensures WolfName(b, n) { NamesHold(wolves, n); }
  }

  lemma AnswerShaped(c: ConsensusEntry, wolves: seq<Seat>, primary: Seat, r: Response)
    requires AnswerFrom(r, wolves, primary) && c.participants == Names(wolves) && c.final.primary == Player(primary)
    ensures ResponseShape(c, r)
  {
    NamesHold(wolves, r.responder);
  }

  lemma VerdictShaped(wolves: seq<Seat>, primary: Seat, supporters: seq<Seat>, f: FinalDecision)
    requires primary in wolves && (forall w :: w in supporters ==> w in wolves)
    requires f.primary == Player(primary) && f.supporters == Names(supporters) && f.resolutionRound == 1
    requires f.dissenters == Names(Opponents(wolves, primary, supporters))
    ensures VerdictShape(f, Names(wolves))
  {
    hide Opponents;
    var opponents := Opponents(wolves, primary, supporters);
    forall n ensures n in Names(wolves) <==> n.Player? && n.seat in wolves { NamesHold(wolves, n); }
    forall n ensures n in f.supporters <==> n.Player? && n.seat in supporters { NamesHold(supporters, n); }
    forall n ensures n in f.dissenters <==> n.Player? && n.seat in opponents { NamesHold(opponents, n); }
  }

  lemma IdMark(gameId: string, rnd: nat)
    ensures |ConsensusId(gameId, rnd)| > |gameId| && ConsensusId(gameId, rnd)[|gameId|] == '_'
  {
  }

  /**
    The entry accounts for every wolf exactly when somebody bid and, if all bids agree, every living wolf bid.
    Otherwise it misses the primary wolf, or claims a consensus with a dissenter.
  */
  lemma BuiltEntrySettledExactly(b: Board, rnd: nat, wolves: seq<Seat>, bids: seq<Bid>, target: Seat, status: Status,
                                 refs: seq<string>)
    requires wolves != [] && BidsAgree(b, wolves, bids, target, status)
    ensures var c := BuildConsensusEntry(b, rnd, wolves, target, PrimaryWolf(wolves, bids, target), Backers(bids, target),
                                         status, refs);
            Settled(c) <==>
            bids != [] && (Unanimous(bids) ==> forall w :: w in wolves ==> exists i :: 0 <= i < |bids| && bids[i].wolf == w)
  {
    var primary, supporters := PrimaryWolf(wolves, bids, target), Backers(bids, target);
    PrimaryBacks(wolves, bids, target);
    NamesHold(supporters, Player(primary));
    var opponents := Opponents(wolves, primary, supporters);
    if bids != [] {
      if Unanimous(bids) {
        UnanimousBackers(bids, target);
        MissingWolfOpposes(wolves, bids, target);
      } else {
        SomebodyOpposes(wolves, bids, target);
      }
    }
    hide PrimaryWolf, Backers, WolfResponses, Opponents, ConsensusId, Unanimous;
    assert Names(opponents) == [] <==> opponents == [];
  }

  // ---- what the entry says of the bids ---------------------------------------------------

  /** The proposer is the first wolf that named the target, or the first wolf when nobody bid. */
  ghost predicate FirstToName(wolves: seq<Seat>, bids: seq<Bid>, target: Seat, primary: Name)
    requires wolves != []
  {
    if bids == [] then primary == Player(wolves[0])
    else exists i :: 0 <= i < |bids| && bids[i].target == target && primary == Player(bids[i].wolf)
                     && forall j :: 0 <= j < i ==> bids[j].target != target
  }

  /** Supporters named the target; every other wolf but the proposer dissents. */
  ghost predicate SidesTell(wolves: seq<Seat>, bids: seq<Bid>, target: Seat, f: FinalDecision) {
    && (forall w :: Player(w) in f.supporters <==> Bid(w, target) in bids)
    && (forall w :: Player(w) in f.dissenters <==> w in wolves && Player(w) != f.primary && Bid(w, target) !in bids)
  }

  /** Every wolf but the proposer responds once: in support exactly if it named the target. */
  ghost predicate ResponsesTell(wolves: seq<Seat>, bids: seq<Bid>, target: Seat, primary: Name, rs: seq<Response>) {
    && DistinctResponders(rs)
    && (forall r :: r in rs ==>
          && r.responder.Player? && r.responder.seat in wolves && r.responder != primary
          && r.kind == if Bid(r.responder.seat, target) in bids then SupportWithReason else OpposeWithReason)
    && (forall w :: w in wolves && Player(w) != primary ==> HasResponder(rs, Player(w)))
  }

  predicate HasResponder(rs: seq<Response>, n: Name) { exists r :: r in rs && r.responder == n }

  /** The entry in terms of the wolves and their bids alone. */
  ghost predicate TellsTheBids(wolves: seq<Seat>, bids: seq<Bid>, target: Seat, refs: seq<string>, c: ConsensusEntry)
    requires wolves != []
  {
    && |c.participants| == |wolves| && (forall i :: 0 <= i < |wolves| ==> c.participants[i] == Player(wolves[i]))
    && c.coordinator == Player(wolves[0]) && c.final.target == Player(target) && c.final.dtype == c.status
    && c.status == (if bids != [] && (forall i :: 0 <= i < |bids| ==> bids[i].target == bids[0].target) then Consensus
                    else CoordinatorTieBreak)
    && c.proposals == [Proposal(1, c.final.primary, Player(target), refs, 1)]
    && FirstToName(wolves, bids, target, c.final.primary)
    && SidesTell(wolves, bids, target, c.final)
    && ResponsesTell(wolves, bids, target, c.final.primary, c.responses)
  }

  lemma {:induction false} FirstBacker(bids: seq<Bid>, target: Seat)
    requires Backers(bids, target) != []
    ensures exists i :: 0 <= i < |bids| && bids[i] == Bid(Backers(bids, target)[0], target)
                        && forall j :: 0 <= j < i ==> bids[j].target != target
  {
    var init := bids[..|bids| - 1];
    assert bids == init + [bids[|bids| - 1]];
    if Backers(init, target) != [] {
      FirstBacker(init, target);
      var i :| 0 <= i < |init| && init[i] == Bid(Backers(init, target)[0], target)
               && forall j :: 0 <= j < i ==> init[j].target != target;
      assert bids[i] == init[i];
    } else {
      forall j | 0 <= j < |init| ensures init[j].target != target {
        BackersExactly(init, target, init[j].wolf);
        assert init[j] == Bid(init[j].wolf, init[j].target);
      }
    }
  }

  lemma {:induction false} ResponsesTellKinds(wolves: seq<Seat>, primary: Seat, supporters: seq<Seat>)
    ensures forall r :: r in WolfResponses(wolves, primary, supporters) ==>
              && r.responder.Player? && r.responder.seat in wolves && r.responder.seat != primary
              && r.kind == if r.responder.seat in supporters then SupportWithReason else OpposeWithReason
    ensures forall w :: w in wolves && w != primary ==> HasResponder(WolfResponses(wolves, primary, supporters), Player(w))
  {
    if wolves != [] {
      var init, last := wolves[..|wolves| - 1], wolves[|wolves| - 1];
      ResponsesTellKinds(init, primary, supporters);
      assert wolves == init + [last];
      var rest, all := WolfResponses(init, primary, supporters), WolfResponses(wolves, primary, supporters);
      forall w | w in wolves && w != primary ensures HasResponder(all, Player(w)) {
        if w in init {
          var r :| r in rest && r.responder == Player(w);
          assert r in all;
        } else {
          assert all[|all| - 1].responder == Player(w) && all[|all| - 1] in all;
        }
      }
    }
  }

  lemma BackersBid(bids: seq<Bid>, target: Seat, w: Seat)
    ensures w in Backers(bids, target) <==> Bid(w, target) in bids
  {
    BackersExactly(bids, target, w);
  }

  lemma ProposerTells(wolves: seq<Seat>, bids: seq<Bid>, target: Seat)
    requires wolves != [] && bids != [] ==> exists i :: 0 <= i < |bids| && bids[i].target == target
    requires wolves != [] && forall i :: 0 <= i < |bids| ==> bids[i].wolf in wolves
    ensures FirstToName(wolves, bids, target, Player(PrimaryWolf(wolves, bids, target)))
  {
    PrimaryBacks(wolves, bids, target);
    if bids != [] {
      FirstBacker(bids, target);
    }
  }

  lemma BuiltSidesTell(wolves: seq<Seat>, bids: seq<Bid>, target: Seat, primary: Seat, f: FinalDecision)
    requires f.primary == Player(primary) && f.supporters == Names(Backers(bids, target))
    requires f.dissenters == Names(Opponents(wolves, primary, Backers(bids, target)))
    ensures SidesTell(wolves, bids, target, f)
  {
    var supporters := Backers(bids, target);
    forall w
      ensures Player(w) in f.supporters <==> Bid(w, target) in bids
      ensures Player(w) in f.dissenters <==> w in wolves && w != primary && Bid(w, target) !in bids
    {
      NamesHold(supporters, Player(w));
      NamesHold(Opponents(wolves, primary, supporters), Player(w));
      BackersBid(bids, target, w);
    }
  }

  lemma BuiltResponsesTell(wolves: seq<Seat>, bids: seq<Bid>, target: Seat, primary: Seat)
    requires Distinct(wolves)
    ensures ResponsesTell(wolves, bids, target, Player(primary), WolfResponses(wolves, primary, Backers(bids, target)))
  {
    var supporters := Backers(bids, target);
    var rs := WolfResponses(wolves, primary, supporters);
    ResponsesShaped(wolves, primary, supporters);
    ResponsesTellKinds(wolves, primary, supporters);
    hide WolfResponses, Backers, AnswerFrom, DistinctResponders, HasResponder, Distinct;
    forall r | r in rs
      ensures r.responder.Player? && r.responder.seat in wolves && r.responder != Player(primary)
      ensures r.kind == if Bid(r.responder.seat, target) in bids then SupportWithReason else OpposeWithReason
    {
      BackersBid(bids, target, r.responder.seat);
    }
  }

  /** The entry built from the bids says who proposed, who agreed and who did not, as they bid. */
  lemma BuiltEntryTells(b: Board, rnd: nat, wolves: seq<Seat>, bids: seq<Bid>, target: Seat, status: Status,
                        refs: seq<string>)
    requires wolves != [] && Distinct(wolves) && BidsAgree(b, wolves, bids, target, status)
    ensures TellsTheBids(wolves, bids, target, refs,
                         BuildConsensusEntry(b, rnd, wolves, target, PrimaryWolf(wolves, bids, target), Backers(bids, target),
                                             status, refs))
  {
    var primary, supporters := PrimaryWolf(wolves, bids, target), Backers(bids, target);
    BuiltHeadTells(b, rnd, wolves, bids, target, primary, supporters, status, refs);
    ProposerTells(wolves, bids, target);
    BuiltSidesTell(wolves, bids, target, primary,
                   BuildConsensusEntry(b, rnd, wolves, target, primary, supporters, status, refs).final);
    BuiltResponsesTell(wolves, bids, target, primary);
    hide BuildConsensusEntry, BidsAgree, Opponents, PrimaryWolf, Backers, FirstToName, SidesTell, ResponsesTell, Distinct;
  }

  lemma BuiltHeadTells(b: Board, rnd: nat, wolves: seq<Seat>, bids: seq<Bid>, target: Seat, primary: Seat,
                       supporters: seq<Seat>, status: Status, refs: seq<string>)
    requires wolves != [] && BidsAgree(b, wolves, bids, target, status)
    ensures var c := BuildConsensusEntry(b, rnd, wolves, target, primary, supporters, status, refs);
            && |c.participants| == |wolves| && (forall i :: 0 <= i < |wolves| ==> c.participants[i] == Player(wolves[i]))
            && c.coordinator == Player(wolves[0]) && c.final.target == Player(target) && c.final.dtype == c.status
            && c.final.primary == Player(primary) && c.proposals == [Proposal(1, Player(primary), Player(target), refs, 1)]
            && c.responses == WolfResponses(wolves, primary, supporters)
            && c.status == (if bids != [] && (forall i :: 0 <= i < |bids| ==> bids[i].target == bids[0].target) then Consensus
                            else CoordinatorTieBreak)
  {
    UnanimityOf(bids);
    hide WolfResponses, Opponents, ConsensusId, Unanimous;
  }

  lemma UnanimityOf(bids: seq<Bid>)
    ensures bids != [] ==> (Unanimous(bids) <==> forall i :: 0 <= i < |bids| ==> bids[i].target == bids[0].target)
  {
  }

  lemma UnanimousBackers(bids: seq<Bid>, target: Seat)
    requires bids != [] && Unanimous(bids) && exists i :: 0 <= i < |bids| && bids[i].target == target
    ensures forall w :: w in Backers(bids, target) <==> exists i :: 0 <= i < |bids| && bids[i].wolf == w
  {
    forall w ensures w in Backers(bids, target) <==> exists i :: 0 <= i < |bids| && bids[i].wolf == w {
      BackersExactly(bids, target, w);
      if i :| 0 <= i < |bids| && bids[i].wolf == w {
        assert bids[i] == Bid(w, target);
      }
    }
  }

  lemma MissingWolfOpposes(wolves: seq<Seat>, bids: seq<Bid>, target: Seat)
    requires wolves != [] && bids != []
    requires PrimaryWolf(wolves, bids, target) in Backers(bids, target)
    requires forall w :: w in Backers(bids, target) <==> exists i :: 0 <= i < |bids| && bids[i].wolf == w
    ensures Opponents(wolves, PrimaryWolf(wolves, bids, target), Backers(bids, target)) == [] <==>
            forall w :: w in wolves ==> exists i :: 0 <= i < |bids| && bids[i].wolf == w
  {
    var primary, supporters := PrimaryWolf(wolves, bids, target), Backers(bids, target);
    var opponents := Opponents(wolves, primary, supporters);
    hide Opponents, PrimaryWolf, Backers;
    if opponents == [] {
      forall w | w in wolves ensures w in supporters {
        assert w !in opponents;
      }
    } else {
      assert opponents[0] in opponents;
    }
  }

  lemma SomebodyOpposes(wolves: seq<Seat>, bids: seq<Bid>, target: Seat)
    requires wolves != [] && !Unanimous(bids)
    requires forall i :: 0 <= i < |bids| ==> bids[i].wolf in wolves
    requires forall i, j :: 0 <= i < j < |bids| ==> bids[i].wolf != bids[j].wolf
    requires PrimaryWolf(wolves, bids, target) in Backers(bids, target)
    ensures Opponents(wolves, PrimaryWolf(wolves, bids, target), Backers(bids, target)) != []
  {
    var i, j :| 0 <= i < |bids| && 0 <= j < |bids| && bids[i].target != bids[j].target;
    var k := if bids[i].target != target then i else j;
    var w := bids[k].wolf;
    BackersExactly(bids, target, w);
    assert w !in Backers(bids, target);
    assert w in Opponents(wolves, PrimaryWolf(wolves, bids, target), Backers(bids, target));
  }
}
