/** The board rules: who may do what to whom, how a night settles, how wolves and voters agree. */
module Rules {
  import opened Logs

  datatype Board = Board(gameId: string, roles: seq<Role>)

  datatype Cause = KilledByWolves | Poisoned | VotedOut | Shot

  datatype Winner = VillagersWin | WerewolvesWin

  datatype RegistryPhase = NightPhase | VotePhase

  /** The live state a target rule may look at. */
  datatype RuntimeState = RuntimeState(board: Board, alive: set<Seat>, lastGuarded: Option<Seat>)

  predicate IsWolf(b: Board, s: Seat) { s < |b.roles| && b.roles[s] == Werewolf }

  predicate HasRole(b: Board, s: Seat, r: Role) { s < |b.roles| && b.roles[s] == r }

  function Below(n: nat): (seats: set<Seat>)
    ensures forall s: Seat :: s in seats <==> s < n
    ensures |seats| == n
  {
    if n == 0 then {} else Below(n - 1) + {n - 1}
  }

  function Seats(b: Board): set<Seat> { Below(|b.roles|) }

  /** The seats below n that satisfy p, in seat order. */
  function SeatsWhere(n: nat, p: Seat -> bool): (seats: seq<Seat>)
    ensures forall s: Seat :: s in seats <==> s < n && p(s)
  {
    if n == 0 then []
    else if p(n - 1) then SeatsWhere(n - 1, p) + [n - 1]
    else SeatsWhere(n - 1, p)
  }

  predicate Ordered(seats: seq<Seat>) {
    forall i, j :: 0 <= i < j < |seats| ==> seats[i] < seats[j]
  }

  lemma {:induction false} SeatsWhereOrdered(n: nat, p: Seat -> bool)
    ensures Ordered(SeatsWhere(n, p))
  {
    if n > 0 {
      SeatsWhereOrdered(n - 1, p);
      var before := SeatsWhere(n - 1, p);
      assert forall i :: 0 <= i < |before| ==> before[i] in before;
    }
  }

  function Among(alive: set<Seat>): Seat -> bool { s => s in alive }

  function WolfAmong(b: Board, alive: set<Seat>): Seat -> bool { s => s in alive && IsWolf(b, s) }

  function NonWolfAmong(b: Board, alive: set<Seat>): Seat -> bool { s => s in alive && !IsWolf(b, s) }

  function RoleAmong(b: Board, alive: set<Seat>, r: Role): Seat -> bool { s => s in alive && HasRole(b, s, r) }

  function AliveInSeatOrder(b: Board, alive: set<Seat>): seq<Seat> { SeatsWhere(|b.roles|, Among(alive)) }

  function LivingWolves(b: Board, alive: set<Seat>): seq<Seat> { SeatsWhere(|b.roles|, WolfAmong(b, alive)) }

  function LivingNonWolves(b: Board, alive: set<Seat>): seq<Seat> { SeatsWhere(|b.roles|, NonWolfAmong(b, alive)) }

  function LivingWith(b: Board, alive: set<Seat>, r: Role): seq<Seat> { SeatsWhere(|b.roles|, RoleAmong(b, alive, r)) }

  /** The engine's win check; `None` while both sides can still lose. */
  function WinCheck(b: Board, alive: set<Seat>): Option<Winner> {
    var wolves, others := |LivingWolves(b, alive)|, |LivingNonWolves(b, alive)|;
    if wolves == 0 then Some(VillagersWin)
    else if wolves >= others then Some(WerewolvesWin)
    else None
  }

  lemma {:induction false} SeatsCounted(n: nat, p: Seat -> bool)
    ensures |SeatsWhere(n, p)| == |set s: Seat | s < n && p(s)|
  {
    if n > 0 {
      SeatsCounted(n - 1, p);
      var before := set s: Seat | s < n - 1 && p(s);
      assert (set s: Seat | s < n && p(s)) == if p(n - 1) then before + {n - 1} else before;
    }
  }

  /** The villagers have won when no wolf lives; the wolves when as many of them live as others; else it goes on. */
  lemma WinCheckExactly(b: Board, alive: set<Seat>)
    ensures var wolves := set s: Seat | s in alive && s < |b.roles| && b.roles[s] == Werewolf;
            var others := set s: Seat | s in alive && s < |b.roles| && b.roles[s] != Werewolf;
            && (WinCheck(b, alive) == Some(VillagersWin) <==> wolves == {})
            && (WinCheck(b, alive) == Some(WerewolvesWin) <==> wolves != {} && |wolves| >= |others|)
            && (WinCheck(b, alive) == None <==> wolves != {} && |wolves| < |others|)
  {
    var wolves := set s: Seat | s in alive && s < |b.roles| && b.roles[s] == Werewolf;
    var others := set s: Seat | s in alive && s < |b.roles| && b.roles[s] != Werewolf;
    SeatsCounted(|b.roles|, WolfAmong(b, alive));
    SeatsCounted(|b.roles|, NonWolfAmong(b, alive));
    assert wolves == set s: Seat | s < |b.roles| && WolfAmong(b, alive)(s);
    assert others == set s: Seat | s < |b.roles| && NonWolfAmong(b, alive)(s);
  }

  function AllowedActions(r: Role, phase: RegistryPhase): set<EventKind> {
    match (phase, r)
    case (VotePhase, _) => {PlayerVote}
    case (NightPhase, Werewolf) => {WerewolfKill}
    case (NightPhase, Seer) => {SeerCheck}
    case (NightPhase, Witch) => {WitchSave, WitchPoison, WitchPass}
    case (NightPhase, Guard) => {GuardProtect}
    case (NightPhase, _) => {}
  }

  /** The target rule of each single-target ability the validator sees. */
  predicate TargetAllowed(st: RuntimeState, actor: Seat, verb: EventKind, target: Seat) {
    match verb
    case WerewolfKill => target in st.alive && !IsWolf(st.board, target)
    case SeerCheck => target in st.alive && target != actor
    case PlayerVote => target in st.alive && target != actor
    case WitchPoison => target in st.alive && target != actor
    case HunterShoot => target in st.alive && target != actor
    case GuardProtect => target in st.alive && st.lastGuarded != Some(target)
    case _ => false
  }

  /** `validate_in_state`: the action belongs to the role and phase, it names one target, the rule admits it. */
  predicate ActionLegal(st: RuntimeState, actor: Seat, phase: RegistryPhase, verb: EventKind, target: Name) {
    && actor < |st.board.roles|
    && verb in AllowedActions(st.board.roles[actor], phase)
    && target.Player?
    && TargetAllowed(st, actor, verb, target.seat)
  }

  /** Action by action: who may do what to whom, apart from potions, which have their own rule. */
  lemma ActionLegalExactly(st: RuntimeState, actor: Seat, phase: RegistryPhase, verb: EventKind, target: Name)
    requires actor < |st.board.roles| && !verb.WitchSave? && !verb.WitchPoison?
    ensures ActionLegal(st, actor, phase, verb, target) <==>
            && target.Player? && target.seat in st.alive
            && if phase.VotePhase? then verb.PlayerVote? && target.seat != actor
               else match st.board.roles[actor]
                    case Werewolf =>
                      verb.WerewolfKill? && !(target.seat < |st.board.roles| && st.board.roles[target.seat] == Werewolf)
                    case Seer => verb.SeerCheck? && target.seat != actor
                    case Guard => verb.GuardProtect? && st.lastGuarded != Some(target.seat)
                    case _ => false
  {
  }

  predicate HasDeathTrigger(r: Role) { r == Hunter }

  predicate Suppressed(r: Role, cause: Cause) { r == Hunter && cause == Poisoned }

  // ---- the night as one joint computation --------------------------------

  datatype NightIntents = NightIntents(victim: Option<Seat>, saved: bool, poison: Option<Seat>, guarded: Option<Seat>)

  datatype NightResult = NightResult(deaths: seq<Seat>, causes: map<Seat, Cause>)

  function ResolveNight(night: NightIntents, alive: set<Seat>): NightResult {
    var shielded :=
      if night.guarded.Some? && night.victim.Some? && night.guarded == night.victim then
        !night.saved
      else
        night.saved;
    var killed := night.victim.Some? && !shielded && night.victim.value in alive;
    var byWolves := if killed then [night.victim.value] else [];
    var causes := if killed then map[night.victim.value := KilledByWolves] else map[];
    if night.poison.Some? && night.poison.value in alive && night.poison.value !in byWolves then
      NightResult(byWolves + [night.poison.value], causes[night.poison.value := Poisoned])
    else
      NightResult(byWolves, causes)
  }

  /** Who dies at night, and of what, as the rules card tells the players. */
  lemma NightDeathsExactly(night: NightIntents, alive: set<Seat>, s: Seat)
    ensures var r := ResolveNight(night, alive);
            var guarded := night.guarded == Some(s);
            var attacked := night.victim == Some(s) && (guarded <==> night.saved);
            && (s in r.deaths <==> s in alive && (attacked || night.poison == Some(s)))
            && (s in r.causes <==> s in r.deaths)
            && (s in r.deaths ==> r.causes[s] == if attacked then KilledByWolves else Poisoned)
            && |r.deaths| <= 2
            && (forall i, j :: 0 <= i < j < |r.deaths| ==> night.victim == Some(r.deaths[i]) && night.poison == Some(r.deaths[j]))
            && (forall i, j :: 0 <= i < j < |r.deaths| ==> r.deaths[i] != r.deaths[j])
  {
  }

  // ---- counting ballots --------------------------------------------------

  function TopCount(count: multiset<Seat>, n: nat): nat {
    if n == 0 then 0
    else
      var rest := TopCount(count, n - 1);
      if count[n - 1] > rest then count[n - 1] else rest
  }

  function WithCount(count: multiset<Seat>, top: nat): Seat -> bool { s => count[s] == top && top > 0 }

  /** The seats with the most ballots, in seat order; empty when there is no ballot. */
  function Leaders(count: multiset<Seat>, n: nat): seq<Seat> {
    SeatsWhere(n, WithCount(count, TopCount(count, n)))
  }

  lemma LeadersOrdered(count: multiset<Seat>, n: nat)
    ensures forall i, j :: 0 <= i < j < |Leaders(count, n)| ==> Leaders(count, n)[i] < Leaders(count, n)[j]
  {
    SeatsWhereOrdered(n, WithCount(count, TopCount(count, n)));
    assert Leaders(count, n) == SeatsWhere(n, WithCount(count, TopCount(count, n)));
  }

  lemma {:induction false} TopCountIsTop(count: multiset<Seat>, n: nat)
    ensures forall s: Seat :: s < n ==> count[s] <= TopCount(count, n)
    ensures TopCount(count, n) > 0 ==> exists s: Seat :: s < n && count[s] == TopCount(count, n)
  {
    if n > 0 {
      TopCountIsTop(count, n - 1);
      assert n - 1 < n && count[n - 1] <= TopCount(count, n);
    }
  }

  /** Leading means having a ballot and at least as many as anyone on the board. */
  lemma LeadersExactly(count: multiset<Seat>, n: nat, s: Seat)
    ensures s in Leaders(count, n) <==> s < n && count[s] > 0 && forall t: Seat :: t < n ==> count[t] <= count[s]
  {
    TopCountIsTop(count, n);
  }

  lemma LeadersNonempty(count: multiset<Seat>, n: nat, s: Seat)
    requires s < n && count[s] > 0
    ensures |Leaders(count, n)| > 0
  {
    TopCountIsTop(count, n);
    var t: Seat :| t < n && count[t] == TopCount(count, n);
    assert t in Leaders(count, n);
  }

  // ---- the wolves' common target -----------------------------------------

  datatype Bid = Bid(wolf: Seat, target: Seat)

  datatype WolfVerdict =
    | NoKill
    | Fixed(target: Seat, status: Status)
    | Draw(over: seq<Seat>, status: Status, fallback: bool)

  function BidTargets(bids: seq<Bid>): multiset<Seat> {
    multiset(seq(|bids|, i requires 0 <= i < |bids| => bids[i].target))
  }

  lemma BidsCounted(bids: seq<Bid>, s: Seat)
    ensures BidTargets(bids)[s] > 0 <==> exists i :: 0 <= i < |bids| && bids[i].target == s
  {
    var targets := seq(|bids|, i requires 0 <= i < |bids| => bids[i].target);
    assert BidTargets(bids)[s] > 0 <==> s in targets;
    if s in targets {
      var i :| 0 <= i < |targets| && targets[i] == s;
      assert bids[i].target == s;
    }
    if i :| 0 <= i < |bids| && bids[i].target == s {
      assert targets[i] == s;
    }
  }

  function AdjudicateKill(b: Board, bids: seq<Bid>, candidates: seq<Seat>): WolfVerdict {
    if bids == [] then
      if candidates == [] then NoKill else Draw(candidates, CoordinatorTieBreak, true)
    else
      var leaders := Leaders(BidTargets(bids), |b.roles|);
      if |leaders| == 1 then
        Fixed(leaders[0], if Unanimous(bids) then Consensus else CoordinatorTieBreak)
      else
        Draw(leaders, CoordinatorTieBreak, false)
  }

  predicate Unanimous(bids: seq<Bid>) {
    forall i, j :: 0 <= i < |bids| && 0 <= j < |bids| ==> bids[i].target == bids[j].target
  }

  function Backers(bids: seq<Bid>, target: Seat): seq<Seat> {
    if bids == [] then []
    else
      var rest := Backers(bids[..|bids| - 1], target);
      var last := bids[|bids| - 1];
      if last.target == target then rest + [last.wolf] else rest
  }

  lemma {:induction false} BackersExactly(bids: seq<Bid>, target: Seat, w: Seat)
    ensures w in Backers(bids, target) <==> exists i :: 0 <= i < |bids| && bids[i] == Bid(w, target)
  {
    if bids != [] {
      var init := bids[..|bids| - 1];
      BackersExactly(init, target, w);
      assert bids == init + [bids[|bids| - 1]];
      if i :| 0 <= i < |init| && init[i] == Bid(w, target) {
        assert bids[i] == Bid(w, target);
      }
      if i :| 0 <= i < |bids| && bids[i] == Bid(w, target) {
        if i < |init| { assert init[i] == Bid(w, target); }
      }
    }
  }

  /** Who in the list named this target. */
  function BidIndexes(bids: seq<Bid>, target: Seat): set<nat> {
    set i: nat | i < |bids| && bids[i].target == target
  }

  lemma {:induction false} BidsCountedExactly(bids: seq<Bid>, target: Seat)
    ensures BidTargets(bids)[target] == |BidIndexes(bids, target)|
  {
    if bids == [] {
      assert BidTargets(bids) == multiset{};
    } else {
      var init, last := bids[..|bids| - 1], bids[|bids| - 1];
      BidsCountedExactly(init, target);
      BidTargetsSnoc(init, last);
      assert bids == init + [last];
      assert BidIndexes(bids, target) ==
             if last.target == target then BidIndexes(init, target) + {|init|} else BidIndexes(init, target);
    }
  }

  lemma BidTargetsSnoc(bids: seq<Bid>, bid: Bid)
    ensures BidTargets(bids + [bid]) == BidTargets(bids) + multiset{bid.target}
  {
    var all := bids + [bid];
    assert seq(|all|, i requires 0 <= i < |all| => all[i].target) ==
           seq(|bids|, i requires 0 <= i < |bids| => bids[i].target) + [bid.target];
  }

  /** Somebody named this target and nobody else was named by more. */
  ghost predicate MostNamed(bids: seq<Bid>, target: Seat) {
    BidIndexes(bids, target) != {} && forall t :: |BidIndexes(bids, t)| <= |BidIndexes(bids, target)|
  }

  /** Whenever there are bids, whatever the adjudication leads to was named by as many as anybody. */
  lemma VerdictIsMostNamed(b: Board, bids: seq<Bid>, candidates: seq<Seat>, target: Seat)
    requires bids != [] && forall i :: 0 <= i < |bids| ==> bids[i].target < |b.roles|
    requires match AdjudicateKill(b, bids, candidates)
             case NoKill => false
             case Fixed(t, _) => target == t
             case Draw(over, _, _) => target in over
    ensures MostNamed(bids, target)
  {
    var count := BidTargets(bids);
    assert target in Leaders(count, |b.roles|);
    LeadersExactly(count, |b.roles|, target);
    hide Leaders, AdjudicateKill, BidTargets;
    BidsCountedExactly(bids, target);
    forall t: Seat ensures |BidIndexes(bids, t)| <= |BidIndexes(bids, target)| {
      BidsCountedExactly(bids, t);
      if t >= |b.roles| {
        assert BidIndexes(bids, t) == {};
      }
    }
  }

  /** The wolf recorded as the proposer: the first backer, or the first wolf when nobody bid. */
  function PrimaryWolf(wolves: seq<Seat>, bids: seq<Bid>, target: Seat): Seat
    requires |wolves| > 0
  {
    var backers := Backers(bids, target);
    if bids == [] || backers == [] then wolves[0] else backers[0]
  }

  function Names(seats: seq<Seat>): (names: seq<Name>)
    ensures |names| == |seats| && forall i :: 0 <= i < |seats| ==> names[i] == Player(seats[i])
  {
    seq(|seats|, i requires 0 <= i < |seats| => Player(seats[i]))
  }

  function WolfResponses(wolves: seq<Seat>, primary: Seat, supporters: seq<Seat>): seq<Response> {
    if wolves == [] then []
    else
      var rest := WolfResponses(wolves[..|wolves| - 1], primary, supporters);
      var w := wolves[|wolves| - 1];
      if w == primary then rest
      else rest + [Response(|wolves|, 1, Player(w),
                            if w in supporters then SupportWithReason else OpposeWithReason, [], 1)]
  }

  function Opponents(wolves: seq<Seat>, primary: Seat, supporters: seq<Seat>): (out: seq<Seat>)
    ensures forall w :: w in out <==> w in wolves && w != primary && w !in supporters
  {
    if wolves == [] then []
    else
      var w := wolves[|wolves| - 1];
      assert forall v :: v in wolves <==> v in wolves[..|wolves| - 1] || v == w;
      var rest := Opponents(wolves[..|wolves| - 1], primary, supporters);
      if w != primary && w !in supporters then rest + [w] else rest
  }

  function BuildConsensusEntry(b: Board, rnd: nat, wolves: seq<Seat>, target: Seat, primary: Seat,
                               supporters: seq<Seat>, status: Status, refs: seq<string>): ConsensusEntry
    requires |wolves| > 0
  {
    ConsensusEntry(
      ConsensusId(b.gameId, rnd), b.gameId, rnd, Night, WerewolfTeam, Names(wolves), Player(wolves[0]), 1, 1, status,
      [Proposal(1, Player(primary), Player(target), refs, 1)],
      WolfResponses(wolves, primary, supporters),
      FinalDecision(Player(target), status, Player(primary), Names(supporters),
                    Names(Opponents(wolves, primary, supporters)), 1))
  }
}
