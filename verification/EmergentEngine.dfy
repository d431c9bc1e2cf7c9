/**
  The emergent game engine: one run from role assignment to a winner, with every provider answer and every random
  draw an arbitrary input. Each method is proved to make only moves the rule book allows.
*/
module EmergentEngine {
  import opened Logs
  import opened Rules
  import opened Referee
  import opened RoleVisibility
  import opened RunInvariants
  import opened TeamInvariants
  import opened ConsensusEntries
  import opened EngineSteps
  import opened CallInvariants
  import opened RunDocuments
  import opened DeathSteps
  import opened DaySteps
  import opened ConsensusTheorems
  import opened OutcomeTheorems
  import C = ConsensusLogCheck
  import G = GameLogCheck

  datatype FailureKind = Timeout | TransportError | OverBudget | InvalidAction | ParseFailure | AuthFailed | ProviderError

  /** What a provider or a person sent back; Words is text that is not an action. */
  datatype Answer =
    | Failed(why: FailureKind)
    | Words(blank: bool)
    | Reply(verb: EventKind, target: Name)

  /** The result of a step that may find the request budget spent. */
  datatype Result<+T> = Ok(value: T) | Exhausted {
    predicate IsFailure() { Exhausted? }

    function PropagateFailure<U>(): Result<U>
      requires Exhausted?
    {
      Exhausted
    }

    function Extract(): T
      requires Ok?
    {
      value
    }
  }

  function FallbackKindFor(why: FailureKind): TurnKind {
    match why
    case Timeout => TimeoutFallback
    case TransportError => TimeoutFallback
    case OverBudget => TimeoutFallback
    case InvalidAction => InvalidFallback
    case ParseFailure => InvalidFallback
    case AuthFailed => ErrorFallback
    case ProviderError => ErrorFallback
  }

  /** How a live turn is first recorded: action requests want an action, speech requests want words. */
  function LiveTurnKind(a: Answer, speech: bool): TurnKind {
    match a
    case Failed(why) => if speech then ErrorFallback else FallbackKindFor(why)
    case Words(blank) => if !speech || blank then InvalidFallback else LiveSuccess
    case Reply(_, _) => LiveSuccess
  }

  /** Successes are actions and spoken words; a speech fails as an error, an action by the kind of its failure. */
  predicate TurnTells(a: Answer, speech: bool, kind: TurnKind) {
    match a
    case Reply(_, _) => kind.LiveSuccess?
    case Words(blank) => if speech && !blank then kind.LiveSuccess? else kind.InvalidFallback?
    case Failed(why) =>
      && (kind.TimeoutFallback? <==> !speech && (why.Timeout? || why.TransportError? || why.OverBudget?))
      && (kind.InvalidFallback? <==> !speech && (why.InvalidAction? || why.ParseFailure?))
      && (kind.ErrorFallback? <==> speech || why.AuthFailed? || why.ProviderError?)
  }

  /** What a participant's window is opened for. */
  datatype Purpose = ForAction(verb: EventKind) | ForPotion | ForShot | ForWords

  /** What a provider's answer asks to do: only a well-formed action counts. */
  function ProviderWish(a: Answer, speech: bool): Option<(EventKind, Name)> {
    if a.Reply? && !speech then Some((a.verb, a.target)) else None
  }

  /** What a person's answer asks to do: the window fixes the action, a pass or no target is judged like any target. */
  function PersonWish(a: Answer, purpose: Purpose): Option<(EventKind, Name)> {
    if a.Failed? then None
    else
      match purpose
      case ForAction(verb) => Some((verb, if a.Reply? then a.target else OtherName("None")))
      case ForPotion => Some(if a.Reply? then (a.verb, a.target) else (WitchPass, Nobody))
      case ForShot => Some(if a.Reply? && a.verb.HunterShoot? then (HunterShoot, a.target) else (HunterPass, Nobody))
      case ForWords => None
  }

  /** The moment the wolves' turns of one night began: who lived and how many turns there had been. */
  datatype Hearing = Hearing(alive: set<Seat>, turn: nat)

  datatype WitchNight = WitchNight(saved: bool, poison: Option<Seat>, saveUsed: bool, poisonUsed: bool)

  /** What a run hands back; a failed run hands back no log. */
  datatype GameOutcome = GameOutcome(
    completed: bool, gameLog: Option<GameLog>, decisionLog: Option<DecisionLog>, consensusLog: Option<ConsensusLog>,
    endCondition: EndCondition, turns: seq<Turn>)

  /** Boards and seats the engine takes on: at most one of each special role, at most one person, on a known seat. */
  predicate Supported(b: Board, humans: set<Seat>) {
    && |LivingWith(b, Seats(b), Seer)| <= 1
    && |LivingWith(b, Seats(b), Witch)| <= 1
    && |LivingWith(b, Seats(b), Guard)| <= 1
    && |humans| <= 1 && forall h :: h in humans ==> h < |b.roles|
  }

  lemma OrderedPair(seats: seq<Seat>)
    requires Ordered(seats)
    ensures |seats| > 1 <==> exists s, t :: s in seats && t in seats && s != t
  {
    if |seats| > 1 {
      assert seats[0] in seats && seats[1] in seats && seats[0] < seats[1];
    }
  }

  /** With one holder on the board there is never a choice of whom to ask, however the living are enumerated. */
  lemma AtMostOneHolder(b: Board, alive: set<Seat>, r: Role)
    requires |LivingWith(b, Seats(b), r)| <= 1
    ensures |LivingWith(b, alive, r)| <= 1
  {
    SeatsWhereOrdered(|b.roles|, RoleAmong(b, Seats(b), r));
    SeatsWhereOrdered(|b.roles|, RoleAmong(b, alive, r));
    assert LivingWith(b, alive, r) == SeatsWhere(|b.roles|, RoleAmong(b, alive, r));
    assert LivingWith(b, Seats(b), r) == SeatsWhere(|b.roles|, RoleAmong(b, Seats(b), r));
    OrderedPair(LivingWith(b, alive, r));
    OrderedPair(LivingWith(b, Seats(b), r));
    forall s | s in LivingWith(b, alive, r) ensures s in LivingWith(b, Seats(b), r) {
    }
  }

  lemma SupportedHolders(b: Board, humans: set<Seat>, alive: set<Seat>)
    requires Supported(b, humans)
    ensures |LivingWith(b, alive, Seer)| <= 1 && |LivingWith(b, alive, Witch)| <= 1 && |LivingWith(b, alive, Guard)| <= 1
  {
    AtMostOneHolder(b, alive, Seer);
    AtMostOneHolder(b, alive, Witch);
    AtMostOneHolder(b, alive, Guard);
  }

  /** Build an engine, or refuse the board. */
  method NewEngine(board: Board, sourceLabel: string, humans: set<Seat>, maxRequests: nat, maxDayRounds: nat, scaffold: bool,
                   answers: nat -> Answer, draws: nat -> nat) returns (engine: Option<EmergentGameEngine>)
    ensures engine.Some? <==> Supported(board, humans)
    ensures engine.Some? ==> fresh(engine.value) && engine.value.Valid() && engine.value.Now() == Opening(board)
                             && engine.value.board == board && engine.value.maxRequests == maxRequests
                             && engine.value.maxDayRounds == maxDayRounds
  {
    if !Supported(board, humans) {
      return None;
    }
    var e := new EmergentGameEngine(board, sourceLabel, humans, maxRequests, maxDayRounds, scaffold, answers, draws);
    return Some(e);
  }

  lemma OneMember(seats: seq<Seat>, s: Seat)
    requires |seats| <= 1 && s in seats
    ensures seats != [] && s == seats[0]
  {
  }

  /** An injective image is as large as what it is the image of. */
  lemma {:induction false} ImageSize<T>(s: set<nat>, image: set<T>, f: nat --> T)
    requires forall i :: i in s ==> f.requires(i)
    requires image == set i | i in s :: f(i)
    requires forall i, j :: i in s && j in s && f(i) == f(j) ==> i == j
    ensures |image| == |s|
    decreases s
  {
    if s != {} {
      var i :| i in s;
      ImageSize(s - {i}, image - {f(i)}, f);
    }
  }

  class EmergentGameEngine {
    const board: Board
    const sourceLabel: string
    const humans: set<Seat>
    const maxRequests: nat
    const maxDayRounds: nat
    const scaffold: bool
    const answers: nat -> Answer
    const draws: nat -> nat

    var alive: set<Seat>
    var committed: set<Seat>
    var events: seq<Event>
    var sequence: nat
    var decisions: seq<Decision>
    var turns: seq<Turn>
    var consensus: seq<ConsensusEntry>
    var lastGuarded: Option<Seat>
    var used: nat
    var windows: nat
    var drawn: nat
    ghost var table: Table
    ghost var hearings: seq<Hearing>    // one for every consensus entry

    ghost function Now(): Game
      reads this
    {
      Game(alive, committed, events, decisions, turns, consensus, lastGuarded, used, windows, table)
    }

    ghost predicate Valid()
      reads this
    {
      && sequence == |events| && Reachable(board, Now()) && Supported(board, humans) && used <= maxRequests
      && Accounted(consensus, hearings)
    }

    /** The one charge too many, which proves the limit is below what the rules can ask for. */
    ghost predicate Overrun()
      reads this
    {
      used == maxRequests + 1 <= RequestBound(|board.roles|, table.round)
    }

    /** What this seat's next answer asks to do. */
    function Wish(actor: Seat, purpose: Purpose, turn: nat): Option<(EventKind, Name)> {
      if actor in humans then PersonWish(answers(turn), purpose) else ProviderWish(answers(turn), false)
    }

    // ---- what an answer asks for -----------------------------------------------

    /** An action is taken from an answer as it is; a person's window decides what a pass or a missing field means. */
    ghost predicate Requests(actor: Seat, purpose: Purpose, a: Answer, wish: Option<(EventKind, Name)>) {
      if actor !in humans then wish == if a.Reply? then Some((a.verb, a.target)) else None
      else
        && (wish.Some? <==> !a.Failed? && !purpose.ForWords?)
        && (wish.Some? && purpose.ForAction? ==>
              wish.value.0 == purpose.verb && (a.Reply? ==> wish.value.1 == a.target) && (!a.Reply? ==> !wish.value.1.Player?))
        && (wish.Some? && purpose.ForPotion? ==>
              if a.Reply? then wish.value == (a.verb, a.target) else wish.value.0.WitchPass?)
        && (wish.Some? && purpose.ForShot? ==>
              if a.Reply? && a.verb.HunterShoot? then wish.value == (HunterShoot, a.target) else wish.value.0.HunterPass?)
    }

    /** The answer is a shot at this seat. */
    ghost predicate ShootsAt(a: Answer, target: Seat) { a == Reply(HunterShoot, Player(target)) }

    /** The answer names this target for this action; a person's window fixes the action, a provider must name it too. */
    ghost predicate AsksFor(actor: Seat, verb: EventKind, a: Answer, target: Seat) {
      a.Reply? && a.target == Player(target) && (actor in humans || a.verb == verb)
    }

    /** Whom a seer, guard or voter may choose. */
    ghost predicate MayChoose(verb: EventKind, actor: Seat, among: set<Seat>, last: Option<Seat>, target: Seat) {
      target in among && if verb.GuardProtect? then last != Some(target) else target != actor
    }

    /** An action request is accepted exactly if the answer asks for this action on a target that may be chosen. */
    lemma TurnWishExactly(verb: EventKind, actor: Seat, among: set<Seat>, last: Option<Seat>, turn: nat)
      requires SingleTurn(verb) && actor < |board.roles|
      requires !verb.PlayerVote? ==> board.roles[actor] == if verb.GuardProtect? then Guard else Seer
      ensures var wish := Wish(actor, ForAction(verb), turn);
              var accepted := wish.Some? && ActionLegal(RuntimeState(board, among, last), actor,
                                                        if verb.PlayerVote? then VotePhase else NightPhase,
                                                        wish.value.0, wish.value.1);
              && (accepted ==> wish.value.0 == verb && wish.value.1.Player? && AsksFor(actor, verb, answers(turn), wish.value.1.seat)
                               && MayChoose(verb, actor, among, last, wish.value.1.seat))
              && forall t :: AsksFor(actor, verb, answers(turn), t) && MayChoose(verb, actor, among, last, t) ==>
                   accepted && wish.value.1 == Player(t)
    {
    }

    lemma AllowedMayChoose(verb: EventKind, actor: Seat, among: set<Seat>, last: Option<Seat>, target: Seat)
      requires SingleTurn(verb) && TargetAllowed(RuntimeState(board, among, last), actor, verb, target)
      ensures MayChoose(verb, actor, among, last, target)
    {
    }

    // ---- what the wolves' answers propose -------------------------------------

    /** The answer to wolf i's turn names this target, who is alive and no wolf. */
    ghost predicate Proposes(h: Hearing, i: nat, target: Seat) {
      var wolves := LivingWolves(board, h.alive);
      && i < |wolves| && AsksFor(wolves[i], WerewolfKill, answers(h.turn + i), target)
      && target in h.alive && !(target < |board.roles| && board.roles[target] == Werewolf)
    }

    /** A wolf's request is accepted exactly if its answer proposes somebody. */
    lemma WolfWishExactly(wolf: Seat, among: set<Seat>, last: Option<Seat>, turn: nat)
      requires wolf < |board.roles| && board.roles[wolf] == Werewolf
      ensures var wish := Wish(wolf, ForAction(WerewolfKill), turn);
              var accepted := wish.Some? && ActionLegal(RuntimeState(board, among, last), wolf, NightPhase,
                                                        wish.value.0, wish.value.1);
              && (accepted ==> wish.value.0 == WerewolfKill && wish.value.1.Player?
                               && AsksFor(wolf, WerewolfKill, answers(turn), wish.value.1.seat)
                               && wish.value.1.seat in among && !IsWolf(board, wish.value.1.seat))
              && forall t :: AsksFor(wolf, WerewolfKill, answers(turn), t) && t in among && !IsWolf(board, t) ==>
                   accepted && wish.value.1 == Player(t)
    {
    }

    /** Which of the wolves propose this target. */
    ghost function Proposers(h: Hearing, target: Seat): set<nat> {
      set i: nat | i < |LivingWolves(board, h.alive)| && Proposes(h, i, target)
    }

    /** Some wolf proposes this target and no other is proposed by more of them. */
    ghost predicate MostProposed(h: Hearing, target: Seat) {
      Proposers(h, target) != {} && forall t :: |Proposers(h, t)| <= |Proposers(h, target)|
    }

    ghost predicate Bidding(h: Hearing, i: nat) { exists target :: Proposes(h, i, target) }

    ghost predicate OneVoice(h: Hearing) {
      forall i, j, s, t :: Proposes(h, i, s) && Proposes(h, j, t) ==> s == t
    }

    /** Some wolf answered with a legal kill, and where all who did name one target every wolf did. */
    ghost predicate Answered(h: Hearing) {
      && (exists i :: Bidding(h, i))
      && (OneVoice(h) ==> forall i :: 0 <= i < |LivingWolves(board, h.alive)| ==> Bidding(h, i))
    }

    /** Every entry lists the wolves of its night and accounts for all of them exactly if their answers did. */
    ghost predicate Accounted(entries: seq<ConsensusEntry>, nights: seq<Hearing>) {
      && |entries| == |nights|
      && forall k :: 0 <= k < |nights| ==>
           && entries[k].participants == Names(LivingWolves(board, nights[k].alive))
           && (Settled(entries[k]) <==> Answered(nights[k]))
           && (forall i, t :: Proposes(nights[k], i, t) ==>
                 entries[k].final.target.Player? && MostProposed(nights[k], entries[k].final.target.seat))
    }

    /** The first i wolves' proposals are exactly these bids. */
    ghost predicate BidsHeard(h: Hearing, i: nat, bids: seq<Bid>) {
      var wolves := LivingWolves(board, h.alive);
      && i <= |wolves| && BidsSoFar(board, h.alive, wolves, i, bids)
      && forall j, target :: 0 <= j < i ==> (Bid(wolves[j], target) in bids <==> Proposes(h, j, target))
    }

    lemma NobodyHeard(h: Hearing)
      ensures BidsHeard(h, 0, [])
    {
    }

    /** What hearing one wolf returns is what its answer proposes. */
    lemma BidMatches(h: Hearing, i: nat, bid: Option<Bid>)
      requires i < |LivingWolves(board, h.alive)|
      requires var wolf := LivingWolves(board, h.alive)[i];
               forall t :: bid == Some(Bid(wolf, t)) <==>
                 AsksFor(wolf, WerewolfKill, answers(h.turn + i), t) && t in h.alive && !IsWolf(board, t)
      requires bid.Some? ==> bid.value.wolf == LivingWolves(board, h.alive)[i]
      ensures bid.Some? ==> bid.value.wolf == LivingWolves(board, h.alive)[i] && Proposes(h, i, bid.value.target)
      ensures bid.None? ==> !Bidding(h, i)
    {
      hide LivingWolves, AsksFor;
      var wolf := LivingWolves(board, h.alive)[i];
      if bid.Some? {
        assert bid == Some(Bid(wolf, bid.value.target));
      }
    }

    lemma OneMoreHeard(h: Hearing, i: nat, bids: seq<Bid>, bid: Option<Bid>)
      requires BidsHeard(h, i, bids) && i < |LivingWolves(board, h.alive)|
      requires forall s :: s in h.alive ==> s < |board.roles|
      requires bid.Some? ==> bid.value.wolf == LivingWolves(board, h.alive)[i] && Proposes(h, i, bid.value.target)
      requires bid.None? ==> !Bidding(h, i)
      ensures BidsHeard(h, i + 1, bids + if bid.Some? then [bid.value] else [])
    {
      var wolves := LivingWolves(board, h.alive);
      SeatsWhereOrdered(|board.roles|, WolfAmong(board, h.alive));
      assert wolves == SeatsWhere(|board.roles|, WolfAmong(board, h.alive));
      hide LivingNonWolves, ActionLegal;
      BidSkipped(board, h.alive, wolves, i, bids);
      if bid.Some? {
        BidAdded(board, h.alive, wolves, i, bids, bid.value.target);
      }
      var heard := bids + if bid.Some? then [bid.value] else [];
      forall j, target | 0 <= j < i + 1 ensures Bid(wolves[j], target) in heard <==> Proposes(h, j, target) {
        if j < i {
          assert wolves[j] < wolves[i];
        } else {
          forall b | b in bids ensures b.wolf != wolves[i] {
            var k :| 0 <= k < |bids| && bids[k] == b;
            assert bids[k].wolf in wolves[..i];
          }
        }
      }
    }

    lemma BidIsProposed(h: Hearing, bids: seq<Bid>, k: nat)
      requires BidsHeard(h, |LivingWolves(board, h.alive)|, bids) && k < |bids|
      ensures exists i: nat :: i < |LivingWolves(board, h.alive)| && LivingWolves(board, h.alive)[i] == bids[k].wolf
                               && Proposes(h, i, bids[k].target)
    {
      hide LivingWolves, LivingNonWolves, Proposes;
      var wolves := LivingWolves(board, h.alive);
      assert wolves[..|wolves|] == wolves;
      var i: nat :| i < |wolves| && wolves[i] == bids[k].wolf;
      assert bids[k] == Bid(wolves[i], bids[k].target);
    }

    lemma ProposalIsBid(h: Hearing, bids: seq<Bid>, i: nat, target: Seat)
      requires BidsHeard(h, |LivingWolves(board, h.alive)|, bids) && Proposes(h, i, target)
      ensures i < |LivingWolves(board, h.alive)|
      ensures exists k: nat :: k < |bids| && bids[k] == Bid(LivingWolves(board, h.alive)[i], target)
    {
      hide LivingWolves, LivingNonWolves, BidsSoFar, AsksFor;
      assert Bid(LivingWolves(board, h.alive)[i], target) in bids;
    }

    lemma OneVoiceExactly(h: Hearing, bids: seq<Bid>)
      requires BidsHeard(h, |LivingWolves(board, h.alive)|, bids)
      ensures OneVoice(h) <==> Unanimous(bids)
    {
      hide LivingWolves, BidsHeard, Proposes;
      if Unanimous(bids) {
        forall i: nat, j: nat, s: Seat, t: Seat | Proposes(h, i, s) && Proposes(h, j, t) ensures s == t {
          ProposalIsBid(h, bids, i, s);
          ProposalIsBid(h, bids, j, t);
        }
      }
      if OneVoice(h) {
        forall k, l | 0 <= k < |bids| && 0 <= l < |bids| ensures bids[k].target == bids[l].target {
          BidIsProposed(h, bids, k);
          BidIsProposed(h, bids, l);
        }
      }
    }

    lemma BiddingExactly(h: Hearing, bids: seq<Bid>, i: nat)
      requires BidsHeard(h, |LivingWolves(board, h.alive)|, bids) && i < |LivingWolves(board, h.alive)|
      ensures Bidding(h, i) <==> exists k :: 0 <= k < |bids| && bids[k].wolf == LivingWolves(board, h.alive)[i]
    {
      var wolves := LivingWolves(board, h.alive);
      SeatsWhereOrdered(|board.roles|, WolfAmong(board, h.alive));
      assert wolves == SeatsWhere(|board.roles|, WolfAmong(board, h.alive));
      hide LivingWolves, BidsHeard, Proposes;
      if Bidding(h, i) {
        var target :| Proposes(h, i, target);
        ProposalIsBid(h, bids, i, target);
      }
      if k :| 0 <= k < |bids| && bids[k].wolf == wolves[i] {
        BidIsProposed(h, bids, k);
        var j: nat :| j < |wolves| && wolves[j] == wolves[i] && Proposes(h, j, bids[k].target);
        assert j == i;
      }
    }

    /** In terms of the bids: the condition under which an entry accounts for every wolf. */
    lemma AnsweredExactly(h: Hearing, bids: seq<Bid>)
      requires BidsHeard(h, |LivingWolves(board, h.alive)|, bids)
      ensures Answered(h) <==>
              bids != [] && (Unanimous(bids) ==>
                forall w :: w in LivingWolves(board, h.alive) ==> exists k :: 0 <= k < |bids| && bids[k].wolf == w)
    {
      var wolves := LivingWolves(board, h.alive);
      hide LivingWolves, BidsHeard, Proposes, OneVoice, Unanimous;
      OneVoiceExactly(h, bids);
      forall i: nat | i < |wolves|
        ensures Bidding(h, i) <==> exists k :: 0 <= k < |bids| && bids[k].wolf == wolves[i]
      {
        BiddingExactly(h, bids, i);
      }
      if forall i :: 0 <= i < |wolves| ==> Bidding(h, i) {
        forall w | w in wolves ensures exists k :: 0 <= k < |bids| && bids[k].wolf == w {
          var i: nat :| i < |wolves| && wolves[i] == w;
          assert Bidding(h, i);
        }
      } else {
        var i: nat :| i < |wolves| && !Bidding(h, i);
        assert wolves[i] in wolves;
      }
      if bids != [] {
        BidIsProposed(h, bids, 0);
        var i: nat :| i < |wolves| && Proposes(h, i, bids[0].target);
        assert Bidding(h, i);
      }
      if i: nat :| Bidding(h, i) {
        var target :| Proposes(h, i, target);
        ProposalIsBid(h, bids, i, target);
      }
    }

    lemma WolvesDiffer(alive: set<Seat>)
      ensures forall i, j :: 0 <= i < j < |LivingWolves(board, alive)| ==>
                LivingWolves(board, alive)[i] != LivingWolves(board, alive)[j]
    {
      SeatsWhereOrdered(|board.roles|, WolfAmong(board, alive));
      assert LivingWolves(board, alive) == SeatsWhere(|board.roles|, WolfAmong(board, alive));
    }

    /** The wolves that propose a target are those whose bids name it. */
    lemma CallersAreBidders(h: Hearing, bids: seq<Bid>, target: Seat, w: Seat)
      requires BidsHeard(h, |LivingWolves(board, h.alive)|, bids)
      ensures (exists i :: i in Proposers(h, target) && LivingWolves(board, h.alive)[i] == w) <==>
              (exists k :: k in BidIndexes(bids, target) && bids[k].wolf == w)
    {
      hide LivingWolves, BidsHeard, Proposes;
      if i :| i in Proposers(h, target) && LivingWolves(board, h.alive)[i] == w {
        ProposalIsBid(h, bids, i, target);
        var k: nat :| k < |bids| && bids[k] == Bid(w, target);
        assert k in BidIndexes(bids, target);
      }
      if k :| k in BidIndexes(bids, target) && bids[k].wolf == w {
        BidIsProposed(h, bids, k);
        var i: nat :| i < |LivingWolves(board, h.alive)| && LivingWolves(board, h.alive)[i] == w && Proposes(h, i, target);
        assert i in Proposers(h, target);
      }
    }

    lemma ProposersCounted(h: Hearing, bids: seq<Bid>, target: Seat)
      requires BidsHeard(h, |LivingWolves(board, h.alive)|, bids)
      ensures |Proposers(h, target)| == |BidIndexes(bids, target)|
    {
      var wolves := LivingWolves(board, h.alive);
      var callers, backers := Proposers(h, target), BidIndexes(bids, target);
      assert forall i :: i in callers ==> i < |wolves|;
      assert forall k :: k in backers ==> k < |bids|;
      WolvesDiffer(h.alive);
      BidsAreOrdered(h, bids);
      hide LivingWolves, BidsHeard, Proposers, BidIndexes;
      var byCaller := set i | i in callers :: wolves[i];
      var byBid := set k | k in backers :: bids[k].wolf;
      forall w ensures w in byCaller <==> w in byBid {
        CallersAreBidders(h, bids, target, w);
      }
      assert byCaller == byBid;
      ImageSize(callers, byCaller, i requires 0 <= i < |wolves| => wolves[i]);
      ImageSize(backers, byBid, k requires 0 <= k < |bids| => bids[k].wolf);
    }

    lemma BidsAreOrdered(h: Hearing, bids: seq<Bid>)
      requires BidsHeard(h, |LivingWolves(board, h.alive)|, bids)
      ensures forall j, k :: 0 <= j < k < |bids| ==> bids[j].wolf < bids[k].wolf
    {
      hide LivingWolves, Proposes;
    }

    /** What was named by most bids was proposed by most wolves. */
    lemma MostNamedIsMostProposed(h: Hearing, bids: seq<Bid>, target: Seat)
      requires BidsHeard(h, |LivingWolves(board, h.alive)|, bids) && MostNamed(bids, target)
      ensures MostProposed(h, target)
    {
      hide LivingWolves, BidsHeard, Proposers, BidIndexes;
      forall t ensures |Proposers(h, t)| == |BidIndexes(bids, t)| {
        ProposersCounted(h, bids, t);
      }
    }

    lemma OneMoreAccounted(g: Game, m: Move, h: Hearing, nights: seq<Hearing>)
      requires Legal(board, g, m) && m.Kill? && h.alive == g.alive && Accounted(g.consensus, nights)
      requires BidsHeard(h, |LivingWolves(board, h.alive)|, m.bids)
      ensures Accounted(g.consensus + NewConsensus(board, g, m), nights + [h])
    {
      hide Legal, Settled, Answered, BidsHeard, LivingWolves, Backers, AdjudicateKill, MostProposed, MostNamed, Proposes;
      KillSettledExactly(board, g, m);
      AnsweredExactly(h, m.bids);
      KillIsMostNamed(board, g, m);
      forall i, t | Proposes(h, i, t) ensures MostProposed(h, m.target) {
        ProposalIsBid(h, m.bids, i, t);
        MostNamedIsMostProposed(h, m.bids, m.target);
      }
    }

    constructor (board: Board, sourceLabel: string, humans: set<Seat>, maxRequests: nat, maxDayRounds: nat, scaffold: bool,
                 answers: nat -> Answer, draws: nat -> nat)
      requires Supported(board, humans)
      ensures Valid() && Now() == Opening(board)
      ensures this.board == board && this.humans == humans && this.maxRequests == maxRequests
      ensures this.maxDayRounds == maxDayRounds && this.sourceLabel == sourceLabel
      ensures this.scaffold == scaffold && this.answers == answers && this.draws == draws
    {
      this.board, this.humans, this.maxRequests, this.maxDayRounds := board, humans, maxRequests, maxDayRounds;
      this.sourceLabel, this.scaffold, this.answers, this.draws := sourceLabel, scaffold, answers, draws;
      alive, committed, decisions, turns, consensus := Seats(board), {}, [], [], [];
      lastGuarded, used, windows, drawn := None, 0, 0, 0;
      events := [NewEvent(board, 0, 0, Setup, RoleAssignment, System, Nobody, Public)];
      sequence := 1;
      table := OpeningTable(board);
      hearings := [];
      new;
      ReachStart(board);
    }

    // ---- small helpers ------------------------------------------------------

    method Draw(over: seq<Seat>) returns (pick: Seat)
      requires over != []
      modifies this`drawn
      ensures pick in over && drawn == old(drawn) + 1
    {
      pick := over[draws(drawn) % |over|];
      drawn := drawn + 1;
    }

    method Emit(rnd: nat, phase: Phase, kind: EventKind, actor: Name, target: Name, visibility: Visibility)
      requires sequence == |events|
      modifies this`events, this`sequence
      ensures sequence == |events|
      ensures events == old(events) + [NewEvent(board, old(|events|), rnd, phase, kind, actor, target, visibility)]
    {
      sequence := sequence + 1;
      events := events + [Event(EventId(board.gameId, sequence), sequence, rnd, phase, kind, actor, target, visibility,
                                true, [])];
    }

    method Decide(actor: Seat, scope: Scope, phase: Phase, action: EventKind, target: Name, dtype: DecisionType, rnd: nat,
                  request: Option<RequestKey>, refs: seq<string>, consensusId: Option<string>)
      requires rnd == table.round
      modifies this`decisions
      ensures decisions == old(decisions) + [NewDecision(board, old(Now()), actor, scope, consensusId, phase, action,
                                                         target, refs, dtype, request)]
    {
      decisions := decisions + [Decision(DecisionId(board.gameId, |decisions| + 1), Player(actor), scope, consensusId,
                                         phase, rnd, action, target, refs, dtype, request)];
    }

    function LastTurn(): Option<RequestKey>
      reads this
    {
      if turns == [] then None else Some(turns[|turns| - 1].key)
    }

    // ---- asking ---------------------------------------------------------------

    method AskProvider(slot: Slot, rnd: nat, speech: bool) returns (r: Result<Answer>)
      requires Valid() && MayAsk(board, Now(), slot) && rnd == table.round && !slot.ScribeSlot?
      requires speech <==> slot.SpeechSlot?
      modifies this
      ensures table.round == old(table.round) && hearings == old(hearings)
      ensures r.Exhausted? ==> Overrun()
      ensures r.Ok? ==>
                && Valid() && AfterAsk(old(Now()), Now(), slot) && r.value == answers(old(|turns|))
                && table.heard == ProviderWish(r.value, speech)
                && turns == old(turns) + [Turn(RequestKey(rnd, slot), true, LiveTurnKind(r.value, speech))]
                && used == old(used) + 1 <= maxRequests
      ensures r.Ok? ==> TurnTells(r.value, speech, turns[|turns| - 1].kind)
    {
      hide Reachable, MayAsk, NextTable, Step, Legal, Supported, Accounted;
      var a := answers(|turns|);
      var kind := LiveTurnKind(a, speech);
      ghost var m := Ask(slot, kind, ProviderWish(a, speech));
      AskEffect(board, Now(), slot, kind, ProviderWish(a, speech));
      ChargeFits(board, Now(), m);
      used := used + 1;
      if used > maxRequests {
        return Exhausted;
      }
      turns := turns + [Turn(RequestKey(rnd, slot), true, kind)];
      table := NextTable(old(Now()), m);
      assert Now() == Step(board, old(Now()), m);
      return Ok(a);
    }

    /** Open a participant window for this seat and wait for its answer. */
    method AskPerson(actor: Seat, rnd: nat, purpose: Purpose) returns (a: Answer)
      requires Valid() && rnd == table.round && !table.stage.EndStage? && table.aim.None? && table.heard.None?
      requires actor < |board.roles|
      modifies this
      ensures Valid() && JustAsked(Now(), actor) && a == answers(old(|turns|)) && |turns| == old(|turns|) + 1
      ensures hearings == old(hearings)
      ensures Now() == old(Now()).(turns := turns, windows := windows, table := table)
      ensures table == old(table).(heard := PersonWish(a, purpose), polled := table.polled)
      ensures table.polled == old(table.polled) + if table.stage.NightStage? && actor in alive then {actor} else {}
      ensures Downgradable(turns[|turns| - 1].kind) <==> !a.Failed?
      ensures windows == old(windows) + 1
    {
      hide Reachable, Legal, Step, NextTable, Supported, Accounted, JustAsked;
      a := answers(|turns|);
      var kind := if a.Failed? then HumanTimeout else HumanAction;
      ghost var m := AskHuman(actor, kind, PersonWish(a, purpose));
      HumanEffect(board, Now(), actor, kind, PersonWish(a, purpose));
      windows := windows + 1;
      turns := turns + [Turn(RequestKey(rnd, WindowSlot(actor, windows)), false, kind)];
      table := table.(heard := PersonWish(a, purpose),
                      polled := table.polled + if table.stage.NightStage? && actor in alive then {actor} else {});
      assert Now() == Step(board, old(Now()), m);
    }


    /** The live action of this turn, from the seat's person or its provider; None when there is none to judge. */
    method RequestAction(actor: Seat, slot: Slot, purpose: Purpose, rnd: nat)
      returns (r: Result<Option<(EventKind, Name)>>)
      requires Valid() && rnd == table.round && !table.stage.EndStage? && table.aim.None? && table.heard.None?
      requires actor < |board.roles| && !purpose.ForWords?
      requires !slot.ScribeSlot? && !slot.SpeechSlot? && slot.seat == actor && MayAsk(board, Now(), slot)
      requires slot.NightSlot? ==> table.stage.NightStage? && actor in alive
      modifies this
      ensures table.round == old(table.round)
      ensures r.Exhausted? ==> Overrun()
      ensures r.Ok? ==> Valid() && AfterAsk(old(Now()), Now(), slot) && |turns| == old(|turns|) + 1
      ensures hearings == old(hearings)
      ensures r.Ok? ==> r.value == table.heard == Wish(actor, purpose, old(|turns|))
      ensures r.Ok? ==> Requests(actor, purpose, answers(old(|turns|)), r.value)
      ensures r.Ok? ==> (r.value.Some? <==> Downgradable(turns[|turns| - 1].kind))
    {
      hide Reachable, MayAsk, Legal, Supported, Accounted, AfterAsk, JustAsked;
      if actor in humans {
        var a := AskPerson(actor, rnd, purpose);
        PersonAsked(old(Now()), Now(), slot);
        return Ok(PersonWish(a, purpose));
      } else {
        var a :- AskProvider(slot, rnd, false);
        return Ok(ProviderWish(a, false));
      }
    }

    /** The engine rejected an action it had accepted from the transport: the turn no longer counts as a success. */
    method DowngradeTurn()
      requires Valid() && turns != [] && Downgradable(turns[|turns| - 1].kind) && table.aim.None?
      requires Refused(board, Now())
      modifies this`turns, this`table
      ensures Valid() && Now() == Downgraded(old(Now()))
    {
      hide Reachable, Play, Refused, Supported, Accounted;
      ReachStep(board, Now(), Downgrade);
      turns := turns[|turns| - 1 := turns[|turns| - 1].(kind := InvalidFallback)];
      table := table.(heard := None);
      assert Now() == Step(board, old(Now()), Downgrade);
    }

    /** A refused answer that nothing can replace is laid aside. */
    method DropAnswer()
      requires Valid() && Refused(board, Now()) && WinCheck(board, alive).Some? && table.aim.None?
      modifies this`table
      ensures Valid() && Now() == Step(board, old(Now()), Drop) && Now() == old(Now()).(table := old(table).(heard := None))
    {
      hide Reachable, Play, Refused, Supported, Accounted;
      DropEffect(board, Now());
      table := table.(heard := None);
    }

    /** This decision is the actor's own, for this action on this target, with these references. */
    ghost predicate DecisionTells(d: Decision, verb: EventKind, actor: Seat, target: Seat, dtype: DecisionType,
                                  refs: seq<string>, rnd: nat) {
      && d.actor == Player(actor) && d.action == verb && d.target == Player(target) && d.scope.Single?
      && d.dtype == dtype && d.refs == refs && d.round == rnd
    }

    lemma NewDecisionTells(g: Game, verb: EventKind, actor: Seat, target: Seat, phase: Phase, dtype: DecisionType,
                           refs: seq<string>, request: Option<RequestKey>)
      ensures DecisionTells(NewDecision(board, g, actor, Single, None, phase, verb, Player(target), refs, dtype, request),
                            verb, actor, target, dtype, refs, g.table.round)
    {
      hide DecisionId;
    }

    /** Write the decision and its event, and remember what the guard actually protected. */
    method RecordTurn(verb: EventKind, actor: Seat, target: Seat, dtype: DecisionType, rnd: nat, refs: seq<string>)
      requires Valid() && rnd == table.round && TurnReady(board, Now(), verb, actor)
      requires Follows(Now(), actor, verb, target, dtype) && PublicIdsOnly(Now(), refs)
      requires TargetAllowed(RuntimeState(board, alive, lastGuarded), actor, verb, target)
      modifies this
      ensures Valid() && TurnTaken(board, old(Now()), Now(), verb, actor, target)
      ensures table.asked == old(table.asked)
      ensures |decisions| == |old(decisions)| + 1 && old(decisions) <= decisions
      ensures DecisionTells(decisions[|decisions| - 1], verb, actor, target, dtype, if verb.PlayerVote? then refs else [], rnd)
    {
      hide Reachable, Legal, Step, NextTable, TurnTaken, TurnReady, NewEvent, NewDecision, TargetAllowed, PublicIdsOnly,
        DecisionTells, Follows, Supported, Accounted;
      ghost var m := TurnMove(verb, actor, target, dtype, refs);
      TurnLegal(board, Now(), verb, actor, target, dtype, refs);
      TurnEffect(board, Now(), verb, actor, target, dtype, refs);
      TurnEffectTaken(board, Now(), verb, actor, target, dtype, refs);
      var phase := if verb.PlayerVote? then Day else Night;
      NewDecisionTells(Now(), verb, actor, target, phase, dtype, if verb.PlayerVote? then refs else [], LastTurn());
      Decide(actor, Single, phase, verb, Player(target), dtype, rnd, LastTurn(),
             if verb.PlayerVote? then refs else [], None);
      Emit(rnd, phase, verb, Player(actor), Player(target),
           if verb.PlayerVote? then Public else if verb.GuardProtect? then GuardOnly else SeerOnly);
      if verb.GuardProtect? {
        lastGuarded := Some(target);
      }
      table := NextTable(old(Now()), m);
      assert Now() == Step(board, old(Now()), m);
    }

    /**
      An admissible request is what happens; without one an admissible target is picked as a default; without an
      admissible target nothing happens.
    */
    ghost predicate ChosenFairly(verb: EventKind, actor: Seat, among: set<Seat>, last: Option<Seat>, a: Answer,
                                 choice: Option<(Seat, DecisionType)>) {
      && (forall t: Seat :: AsksFor(actor, verb, a, t) && MayChoose(verb, actor, among, last, t) ==> choice == Some((t, InferenceBased)))
      && (choice.Some? ==>
            && MayChoose(verb, actor, among, last, choice.value.0)
            && choice.value.1 == if AsksFor(actor, verb, a, choice.value.0) then InferenceBased else Default)
    }

    /** What comes of an accepted and of a rejected request. */
    lemma TurnJudged(verb: EventKind, actor: Seat, among: set<Seat>, last: Option<Seat>, turn: nat)
      requires SingleTurn(verb) && actor < |board.roles|
      requires !verb.PlayerVote? ==> board.roles[actor] == if verb.GuardProtect? then Guard else Seer
      ensures var wish := Wish(actor, ForAction(verb), turn);
              if wish.Some? && ActionLegal(RuntimeState(board, among, last), actor,
                                           if verb.PlayerVote? then VotePhase else NightPhase, wish.value.0, wish.value.1)
              then
                && wish.value.0 == verb && wish.value.1.Player?
                && TargetAllowed(RuntimeState(board, among, last), actor, verb, wish.value.1.seat)
                && ChosenFairly(verb, actor, among, last, answers(turn), Some((wish.value.1.seat, InferenceBased)))
              else
                && ChosenFairly(verb, actor, among, last, answers(turn), None)
                && forall t: Seat :: MayChoose(verb, actor, among, last, t) ==>
                     ChosenFairly(verb, actor, among, last, answers(turn), Some((t, Default)))
    {
      TurnWishExactly(verb, actor, among, last, turn);
      hide Wish, MayChoose, AsksFor, TargetAllowed, AllowedActions;
    }

    /** Ask for a target, adjudicate the answer, and fall back on a random candidate. */
    method ChooseTarget(verb: EventKind, actor: Seat, rnd: nat) returns (r: Result<Option<(Seat, DecisionType)>>)
      requires Valid() && rnd == table.round && TurnReady(board, Now(), verb, actor) && table.heard.None?
      requires MayAsk(board, Now(), TurnSlot(verb, actor))
      modifies this
      ensures table.round == old(table.round)
      ensures r.Exhausted? ==> Overrun()
      ensures r.Ok? ==> Valid() && AfterAsk(old(Now()), Now(), TurnSlot(verb, actor))
      ensures r.Ok? && r.value.Some? ==>
                Follows(Now(), actor, verb, r.value.value.0, r.value.value.1)
                && TargetAllowed(RuntimeState(board, alive, lastGuarded), actor, verb, r.value.value.0)
      ensures r.Ok? && r.value.None? ==> WinCheck(board, alive).Some? && table.heard.None?
      ensures r.Ok? ==> ChosenFairly(verb, actor, alive, lastGuarded, answers(old(|turns|)), r.value)
      ensures r.Ok? ==> decisions == old(decisions)
    {
      hide Reachable, MayAsk, Legal, WinCheck, Candidates, MayChoose, Wish, AfterAsk, TurnReady, AllowedActions, TargetAllowed,
        Refused, Supported, Accounted, ChosenFairly, ActionLegal, Requests;
      TurnReadyFacts(board, Now(), verb, actor);
      TurnJudged(verb, actor, alive, lastGuarded, |turns|);
      var action :- RequestAction(actor, TurnSlot(verb, actor), ForAction(verb), rnd);
      AfterAskKeepsTurn(board, old(Now()), Now(), TurnSlot(verb, actor), verb, actor);
      AfterAskSame(old(Now()), Now(), TurnSlot(verb, actor));
      var phase := if verb.PlayerVote? then VotePhase else NightPhase;
      if action.Some? {
        if ActionLegal(RuntimeState(board, alive, lastGuarded), actor, phase, action.value.0, action.value.1) {
          return Ok(Some((action.value.1.seat, InferenceBased)));
        }
        TurnRefused(board, Now(), verb, actor, action.value);
      }
      var candidates := Candidates(board, verb, actor, alive, lastGuarded);
      if candidates == [] {
        if WinCheck(board, alive).None? {
          UndecidedHasCandidates(board, verb, actor, alive, lastGuarded);
        }
        if action.Some? {
          ghost var asked := Now();
          DropAnswer();
          DropKeepsAsk(old(Now()), asked, TurnSlot(verb, actor));
        }
        return Ok(None);
      }
      if action.Some? {
        ghost var asked := Now();
        DowngradeTurn();
        DowngradeKeepsAsk(old(Now()), asked, TurnSlot(verb, actor));
      }
      ghost var asked := Now();
      var target := Draw(candidates);
      assert Now() == asked;
      AfterAskKeepsTurn(board, old(Now()), Now(), TurnSlot(verb, actor), verb, actor);
      CandidateAllowed(board, verb, actor, alive, lastGuarded, target);
      AllowedMayChoose(verb, actor, alive, lastGuarded, target);
      return Ok(Some((target, Default)));
    }

    /** The target of a turn is admissible, and the one asked for whenever that is admissible. */
    ghost predicate TurnFollows(verb: EventKind, actor: Seat, among: set<Seat>, last: Option<Seat>, a: Answer,
                                target: Option<Seat>) {
      && (forall t: Seat :: AsksFor(actor, verb, a, t) && MayChoose(verb, actor, among, last, t) ==> target == Some(t))
      && (target.Some? ==> MayChoose(verb, actor, among, last, target.value))
    }

    /** One seer, guard or voter turn. */
    method RunSingleTurn(verb: EventKind, actor: Seat, rnd: nat, refs: seq<string>) returns (r: Result<Option<Seat>>)
      requires Valid() && rnd == table.round && TurnReady(board, Now(), verb, actor) && table.heard.None?
      requires MayAsk(board, Now(), TurnSlot(verb, actor)) && PublicIdsOnly(Now(), refs)
      modifies this
      ensures table.round == old(table.round)
      ensures r.Exhausted? ==> Overrun()
      ensures r.Ok? ==> Valid()
      ensures r.Ok? && r.value.Some? ==>
                && TurnTaken(board, old(Now()), Now(), verb, actor, r.value.value)
                && r.value.value in alive && (verb.PlayerVote? ==> r.value.value != actor)
      ensures r.Ok? && r.value.None? ==> TurnSkipped(old(Now()), Now(), verb, actor) && WinCheck(board, alive).Some?
      ensures r.Ok? ==> TurnFollows(verb, actor, old(alive), old(lastGuarded), answers(old(|turns|)), r.value)
      ensures r.Ok? && r.value.Some? ==>
                && |decisions| == |old(decisions)| + 1 && old(decisions) <= decisions
                && DecisionTells(decisions[|decisions| - 1], verb, actor, r.value.value,
                                 if AsksFor(actor, verb, answers(old(|turns|)), r.value.value) then InferenceBased else Default,
                                 if verb.PlayerVote? then refs else [], rnd)
      ensures r.Ok? && r.value.None? ==> decisions == old(decisions)
    {
      hide Reachable, MayAsk, Legal, WinCheck, TurnTaken, AfterAsk, TurnReady, Follows, Supported, Accounted, AsksFor,
        MayChoose, DecisionTells;
      var slot := TurnSlot(verb, actor);
      TurnReadyFacts(board, Now(), verb, actor);
      var choice :- ChooseTarget(verb, actor, rnd);
      AfterAskKeepsTurn(board, old(Now()), Now(), slot, verb, actor);
      if choice.None? {
        AskOnly(old(Now()), Now(), verb, actor);
        return Ok(None);
      }
      ghost var asked := Now();
      RecordTurn(verb, actor, choice.value.0, choice.value.1, rnd, refs);
      AskThenTurn(board, old(Now()), asked, Now(), verb, actor, choice.value.0);
      return Ok(Some(choice.value.0));
    }

    // ---- the night --------------------------------------------------------------

    /** The one living holder of the role, if there is one, takes its turn; nobody else's answer counts. */
    ghost predicate HolderFollows(verb: EventKind, role: Role, among: set<Seat>, last: Option<Seat>, a: Answer,
                                  target: Option<Seat>) {
      && (target.Some? ==> exists s :: s in among && HasRole(board, s, role))
      && forall s :: s in among && HasRole(board, s, role) ==> TurnFollows(verb, s, among, last, a, target)
    }

    lemma OneHolderFollows(verb: EventKind, role: Role, among: set<Seat>, last: Option<Seat>, a: Answer, target: Option<Seat>)
      requires Supported(board, humans) && (role == Seer || role == Guard)
      requires LivingWith(board, among, role) == [] ==> target == None
      requires LivingWith(board, among, role) != [] ==>
                 TurnFollows(verb, LivingWith(board, among, role)[0], among, last, a, target)
      ensures HolderFollows(verb, role, among, last, a, target)
    {
      SupportedHolders(board, humans, among);
      hide Supported, TurnFollows;
      var seats := LivingWith(board, among, role);
      if seats != [] {
        assert seats[0] in seats;
      }
      forall s | s in among && HasRole(board, s, role) ensures seats != [] && s == seats[0] {
        OneMember(seats, s);
      }
    }

    method RunRoleTurn(verb: EventKind, role: Role, rnd: nat) returns (r: Result<Option<Seat>>)
      requires Valid() && rnd == table.round && StillNight(Now()) && table.aim.None? && table.heard.None?
      requires (verb.SeerCheck? && role == Seer && WolvesDone(board, table)) || (verb.GuardProtect? && role == Guard)
      requires Idle(board, Now(), role)
      modifies this
      ensures table.round == old(table.round)
      ensures r.Exhausted? ==> Overrun()
      ensures r.Ok? ==> Valid() && RoleOnly(board, old(Now()), Now(), role) && table.victim == old(table.victim)
      ensures r.Ok? ==> table.guarded == if verb.GuardProtect? && r.value.Some? then r.value else old(table.guarded)
      ensures r.Ok? && WinCheck(board, alive).None? ==> RoleActed(board, alive, table, role, TurnDeed(verb))
      ensures r.Ok? ==> HolderFollows(verb, role, old(alive), old(lastGuarded), answers(old(|turns|)), r.value)
    {
      hide HolderFollows, TurnFollows, DecisionTells, Reachable, MayAsk, Legal, WinCheck, TurnTaken, TurnSkipped, TurnReady, Idle, WolvesDone, RoleActed;
      var seats := LivingWith(board, alive, role);
      SupportedHolders(board, humans, alive);
      if seats == [] {
        OneHolderFollows(verb, role, alive, lastGuarded, answers(|turns|), None);
        OneHolderActed(board, alive, table, role, TurnDeed(verb));
        return Ok(None);
      }
      var actor := seats[0];
      RoleTurnReady(board, Now(), verb, actor, role);
      var target :- RunSingleTurn(verb, actor, rnd, []);
      OneHolderFollows(verb, role, old(alive), old(lastGuarded), answers(old(|turns|)), target);
      if target.Some? {
        TurnIsRoleOnly(board, old(Now()), Now(), verb, actor, target.value, role);
        OneHolderActed(board, alive, table, role, TurnDeed(verb));
      } else {
        SkipIsRoleOnly(board, old(Now()), Now(), verb, actor, role);
      }
      return Ok(target);
    }

    method RunSeer(rnd: nat) returns (r: Result<Option<Seat>>)
      requires Valid() && NightUnderWay(board, Now(), rnd) && WolvesDone(board, table) && Idle(board, Now(), Seer)
      modifies this
      ensures table.round == old(table.round)
      ensures r.Exhausted? ==> Overrun()
      ensures r.Ok? ==> Valid() && RoleOnly(board, old(Now()), Now(), Seer) && SeerDone(board, table)
      ensures r.Ok? ==> table.victim == old(table.victim) && table.guarded == old(table.guarded)
      ensures r.Ok? ==> HolderFollows(SeerCheck, Seer, old(alive), old(lastGuarded), answers(old(|turns|)), r.value)
    {
      hide Reachable, Idle, WinCheck, RoleActed, WolvesDone, HolderFollows;
      r := RunRoleTurn(SeerCheck, Seer, rnd);
    }

    method RunGuard(rnd: nat) returns (r: Result<Option<Seat>>)
      requires Valid() && NightUnderWay(board, Now(), rnd) && table.guarded.None? && Idle(board, Now(), Guard)
      modifies this
      ensures table.round == old(table.round)
      ensures r.Exhausted? ==> Overrun()
      ensures r.Ok? ==> Valid() && RoleOnly(board, old(Now()), Now(), Guard) && GuardDone(board, table)
      ensures r.Ok? ==> table.victim == old(table.victim) && table.guarded == r.value
      ensures r.Ok? ==> HolderFollows(GuardProtect, Guard, old(alive), old(lastGuarded), answers(old(|turns|)), r.value)
    {
      hide Reachable, Idle, WinCheck, RoleActed, HolderFollows;
      r := RunRoleTurn(GuardProtect, Guard, rnd);
    }

    /** Write one decision and the event that follows it. */
    method RecordDeed(ghost m: Move, actor: Seat, phase: Phase, action: EventKind, target: Name, dtype: DecisionType,
                      visibility: Visibility, rnd: nat)
      requires Valid() && Legal(board, Now(), m) && rnd == table.round
      requires DeedIs(board, Now(), m, actor, phase, action, target, dtype, visibility)
      modifies this
      ensures Valid() && Now() == Step(board, old(Now()), m)
    {
      hide Reachable, Legal, Step, NextTable, NewEvents, NewDecisions, NewEvent, NewDecision, Supported, Accounted;
      DeedEffect(board, Now(), m);
      Decide(actor, Single, phase, action, target, dtype, rnd, LastTurn(), [], None);
      Emit(rnd, phase, action, Player(actor), target, visibility);
      table := NextTable(old(Now()), m);
    }

    /** The answer saves tonight's victim: the antidote is left, and a self-save is for the first night only. */
    ghost predicate SavesVictim(a: Answer, witch: Seat, victim: Option<Seat>, saveUsed: bool, rnd: nat) {
      !saveUsed && victim.Some? && a == Reply(WitchSave, Player(victim.value)) && (victim.value == witch ==> rnd == 1)
    }

    /** The answer poisons this living other seat, and the poison is left. */
    ghost predicate PoisonsSeat(a: Answer, witch: Seat, target: Seat, among: set<Seat>, poisonUsed: bool) {
      !poisonUsed && a == Reply(WitchPoison, Player(target)) && target in among && target != witch
    }

    /** The potion is the one asked for whenever it is admissible, and otherwise none. */
    ghost predicate PotionFollows(a: Answer, among: set<Seat>, witch: Seat, victim: Option<Seat>, saveUsed: bool,
                                  poisonUsed: bool, rnd: nat, potion: (EventKind, Name)) {
      && (potion.0.WitchSave? <==> SavesVictim(a, witch, victim, saveUsed, rnd))
      && (potion.0.WitchSave? ==> victim.Some?)
      && (forall t: Seat :: potion == (WitchPoison, Player(t)) <==> PoisonsSeat(a, witch, t, among, poisonUsed))
      && (potion.0.WitchSave? || potion.0.WitchPoison? || potion.0.WitchPass?)
      && (potion.0.WitchPoison? ==> potion.1.Player?)
    }

    lemma PotionJudged(a: Answer, among: set<Seat>, witch: Seat, victim: Option<Seat>, saveUsed: bool, poisonUsed: bool,
                       rnd: nat, wish: Option<(EventKind, Name)>)
      requires Requests(witch, ForPotion, a, wish)
      ensures var allowed :=
                && wish.Some?
                && match wish.value.0
                   case WitchSave =>
                     && !saveUsed && victim.Some? && wish.value.1 == Player(victim.value)
                     && (wish.value.1 == Player(witch) ==> rnd == 1)
                   case WitchPoison =>
                     !poisonUsed && wish.value.1.Player? && wish.value.1.seat in among && wish.value.1.seat != witch
                   case WitchPass => true
                   case _ => false;
              PotionFollows(a, among, witch, victim, saveUsed, poisonUsed, rnd, if allowed then wish.value else (WitchPass, Nobody))
    {
    }

    /** The potion the witch may use tonight, or WitchPass; an illegal potion is rejected and its turn downgraded. */
    method AskForPotion(witch: Seat, rnd: nat, victim: Option<Seat>, saveUsed: bool, poisonUsed: bool)
      returns (r: Result<(EventKind, Name)>)
      requires Valid() && rnd == table.round && WitchReady(board, Now(), witch) && table.heard.None?
      requires victim == table.victim && saveUsed == table.saveUsed && poisonUsed == table.poisonUsed
      modifies this
      ensures table.round == old(table.round)
      ensures r.Exhausted? ==> Overrun()
      ensures r.Ok? ==> Valid() && AfterAsk(old(Now()), Now(), WitchSlot(witch))
      ensures r.Ok? && !r.value.0.WitchPass? ==>
                && table.heard == Some(r.value) && (r.value.0.WitchSave? || r.value.0.WitchPoison?)
                && PotionAllowed(old(Now()), witch, r.value.0, r.value.1)
      ensures r.Ok? && r.value.0.WitchPass? ==> Abstains(Now(), witch, WitchPass)
      ensures r.Ok? ==>
                PotionFollows(answers(old(|turns|)), old(alive), witch, victim, saveUsed, poisonUsed, rnd, r.value)
    {
      hide Reachable, Legal, AfterAsk, MayAsk, SeerDone, WolvesDone, Refused, Supported, Accounted, PotionFollows, Wish, Requests;
      ghost var g := Now();
      WitchMayAsk(board, g, witch);
      var action :- RequestAction(witch, WitchSlot(witch), ForPotion, rnd);
      ghost var asked := Now();
      AfterAskSame(g, asked, WitchSlot(witch));
      PotionJudged(answers(|g.turns|), g.alive, witch, victim, saveUsed, poisonUsed, rnd, action);
      if action.None? {
        return Ok((WitchPass, Nobody));
      }
      PotionStaysAllowed(g, asked, witch, action.value.0, action.value.1);
      var (verb, target) := action.value;
      var allowed :=
        match verb
        case WitchSave =>
          !saveUsed && victim.Some? && target == Player(victim.value) && (target == Player(witch) ==> rnd == 1)
        case WitchPoison => !poisonUsed && target.Player? && target.seat in alive && target.seat != witch
        case WitchPass => true
        case _ => false;
      if allowed {
        return Ok((verb, target));
      }
      PotionRefused(board, asked, witch, action.value);
      DowngradeTurn();
      DowngradeKeepsAsk(g, asked, WitchSlot(witch));
      return Ok((WitchPass, Nobody));
    }

    /** What the living witch's answer does is what its night comes to. */
    ghost predicate WitchFollows(a: Answer, among: set<Seat>, victim: Option<Seat>, saveUsed: bool, poisonUsed: bool, rnd: nat,
                                 night: WitchNight) {
      forall w :: w in among && HasRole(board, w, Witch) ==>
        && (night.saved <==> SavesVictim(a, w, victim, saveUsed, rnd))
        && forall t: Seat :: night.poison == Some(t) <==> PoisonsSeat(a, w, t, among, poisonUsed)
    }

    lemma OneWitchFollows(a: Answer, among: set<Seat>, victim: Option<Seat>, saveUsed: bool, poisonUsed: bool, rnd: nat,
                          night: WitchNight)
      requires |LivingWith(board, among, Witch)| <= 1
      requires LivingWith(board, among, Witch) != [] ==>
                 var w := LivingWith(board, among, Witch)[0];
                 && (night.saved <==> SavesVictim(a, w, victim, saveUsed, rnd))
                 && forall t: Seat :: night.poison == Some(t) <==> PoisonsSeat(a, w, t, among, poisonUsed)
      ensures WitchFollows(a, among, victim, saveUsed, poisonUsed, rnd, night)
    {
      hide SavesVictim, PoisonsSeat;
      var witches := LivingWith(board, among, Witch);
      forall w | w in among && HasRole(board, w, Witch) ensures witches != [] && w == witches[0] {
        OneMember(witches, w);
      }
    }

    /** The witch's turn. */
    method ResolveWitch(rnd: nat, victim: Option<Seat>, saveUsed: bool, poisonUsed: bool) returns (r: Result<WitchNight>)
      requires Valid() && NightUnderWay(board, Now(), rnd) && SeerDone(board, table) && WolvesDone(board, table)
      requires Idle(board, Now(), Witch) && !table.saved && table.poison.None?
      requires victim == table.victim && saveUsed == table.saveUsed && poisonUsed == table.poisonUsed
      modifies this
      ensures table.round == old(table.round)
      ensures r.Exhausted? ==> Overrun()
      ensures r.Ok? ==> Valid() && WitchOnlyActed(old(Now()), Now()) && WitchDone(board, table)
      ensures r.Ok? ==> r.value == WitchNight(table.saved, table.poison, table.saveUsed, table.poisonUsed)
      ensures r.Ok? ==> WitchFollows(answers(old(|turns|)), old(alive), victim, saveUsed, poisonUsed, rnd, r.value)
    {
      hide Reachable, Legal, AfterAsk, Step, Idle, WitchReady, DeedIs, WitchOnlyActed, SeerDone, WolvesDone, NoneToFire,
        RoleActed, Abstains, Supported, Accounted, JustAsked, WitchFollows, SavesVictim, PoisonsSeat;
      ghost var g := Now();
      var witches := LivingWith(board, alive, Witch);
      assert |witches| <= 1 by { SupportedHolders(board, humans, alive); }
      if witches == [] {
        NobodyActed(Now());
        OneHolderActed(board, alive, table, Witch, UsingPotion);
        OneWitchFollows(answers(|turns|), alive, victim, saveUsed, poisonUsed, rnd, WitchNight(false, None, saveUsed, poisonUsed));
        return Ok(WitchNight(false, None, saveUsed, poisonUsed));
      }
      var witch := witches[0];
      IdleWitchReady(board, g, witch);
      var potion :- AskForPotion(witch, rnd, victim, saveUsed, poisonUsed);
      ghost var mid := Now();
      AfterAskSame(g, mid, WitchSlot(witch));
      var night := WitchNight(false, None, saveUsed, poisonUsed);
      if potion.0.WitchSave? {
        SaveLegal(board, g, mid, witch, victim.value);
        PotionTaken(board, g, mid, Save(witch), witch);
        RecordDeed(Save(witch), witch, Night, WitchSave, potion.1, InferenceBased, WitchOnly, rnd);
        night := WitchNight(true, None, true, poisonUsed);
      } else if potion.0.WitchPoison? {
        PoisonLegal(board, g, mid, witch, potion.1.seat);
        PotionTaken(board, g, mid, Move.Poison(witch, potion.1.seat), witch);
        RecordDeed(Move.Poison(witch, potion.1.seat), witch, Night, WitchPoison, potion.1, Retaliatory, WitchOnly, rnd);
        night := WitchNight(false, Some(potion.1.seat), saveUsed, true);
      } else {
        KeepLegal(board, g, mid, witch);
        PotionTaken(board, g, mid, KeepPotions(witch), witch);
        RecordDeed(KeepPotions(witch), witch, Night, WitchPass, Nobody, Default, WitchOnly, rnd);
      }
      OneHolderActed(board, alive, table, Witch, UsingPotion);
      OneWitchFollows(answers(|g.turns|), g.alive, victim, saveUsed, poisonUsed, rnd, night);
      return Ok(night);
    }

    /** Take up a legal proposal; reject any other and downgrade its turn. */
    method JudgeProposal(wolf: Seat, action: (EventKind, Name)) returns (bid: Option<Bid>)
      requires Valid() && table.stage.NightStage? && table.aim.None? && wolf in LivingWolves(board, alive)
      requires JustAsked(Now(), wolf) && table.heard == Some(action)
      requires turns != [] && Downgradable(turns[|turns| - 1].kind)
      modifies this`turns, this`table
      ensures Valid() && |turns| == old(|turns|)
      ensures Now() == old(Now()).(turns := turns, table := table)
      ensures table == old(table).(heard := None, bids := old(table).bids + if bid.Some? then [bid.value] else [])
      ensures bid.Some? <==> ActionLegal(RuntimeState(board, alive, lastGuarded), wolf, NightPhase, action.0, action.1)
      ensures bid.Some? ==> action == (WerewolfKill, Player(bid.value.target)) && bid.value.wolf == wolf
    {
      hide Reachable, Legal, Step, ActionLegal, Refused, Supported, Accounted, LivingWolves, JustAsked;
      ghost var mid := Now();
      if !ActionLegal(RuntimeState(board, alive, lastGuarded), wolf, NightPhase, action.0, action.1) {
        KillRefused(board, mid, wolf, action);
        DowngradeTurn();
        return None;
      }
      WolfVerb(board, alive, lastGuarded, wolf, action.0, action.1);
      WolfProposes(board, mid, wolf, action.1);
      bid := Some(Bid(wolf, action.1.seat));
      table := table.(heard := None, bids := table.bids + [bid.value]);
      assert Now() == Step(board, mid, Propose(wolf, action.1.seat));
    }

    /** One wolf's proposal, if its answer is a legal one. */
    method HearWolf(ghost g: Game, wolves: seq<Seat>, i: nat, rnd: nat) returns (r: Result<Option<Bid>>)
      requires Valid() && rnd == table.round && i < |wolves| && WolvesReady(board, g, wolves)
      requires WolvesHeard(board, g, Now(), wolves, i)
      modifies this
      ensures table.round == old(table.round)
      ensures r.Exhausted? ==> Overrun()
      ensures r.Ok? ==> Valid() && WolvesHeard(board, g, Now(), wolves, i + 1) && alive == old(alive)
      ensures r.Ok? ==> lastGuarded == old(lastGuarded) && |turns| == old(|turns|) + 1
      ensures hearings == old(hearings)
      ensures r.Ok? ==> table.bids == old(table.bids) + if r.value.Some? then [r.value.value] else []
      ensures r.Ok? ==>
                forall t: Seat :: r.value == Some(Bid(wolves[i], t)) <==>
                  AsksFor(wolves[i], WerewolfKill, answers(old(|turns|)), t) && t in alive && !IsWolf(board, t)
      ensures r.Ok? && r.value.Some? ==> r.value.value.wolf == wolves[i]
    {
      hide Reachable, Legal, AfterAsk, MayAsk, ActionLegal, Supported, Accounted, WolvesHeard, WolvesReady, LivingWolves, JustAsked,
        AsksFor, Wish;
      ghost var h := Now();
      var wolf := wolves[i];
      WolfMayAsk(board, g, h, wolves, i);
      WolfWishExactly(wolf, h.alive, h.lastGuarded, |h.turns|);
      var action :- RequestAction(wolf, NightSlot(wolf), ForAction(WerewolfKill), rnd);
      ghost var mid := Now();
      AfterAskSame(h, mid, NightSlot(wolf));
      var bid: Option<Bid> := None;
      if action.Some? {
        bid := JudgeProposal(wolf, action.value);
      }
      WolfHeard(board, g, h, mid, Now(), wolves, i);
      return Ok(bid);
    }

    /** Hear every living wolf in seat order; an illegal proposal is rejected and its turn downgraded. */
    method CollectBids(wolves: seq<Seat>, rnd: nat) returns (r: Result<seq<Bid>>)
      requires Valid() && rnd == table.round && WolvesReady(board, Now(), wolves)
      modifies this
      ensures table.round == old(table.round)
      ensures r.Exhausted? ==> Overrun()
      ensures r.Ok? ==>
                && Valid() && WolvesHeard(board, old(Now()), Now(), wolves, |wolves|)
                && BidsSoFar(board, alive, wolves, |wolves|, r.value) && r.value == table.bids
      ensures hearings == old(hearings)
      ensures r.Ok? ==> forall i, target :: 0 <= i < |wolves| ==>
                (Bid(wolves[i], target) in r.value <==>
                 Proposes(Hearing(old(alive), old(|turns|)), i, target))
      ensures r.Ok? ==> BidsHeard(Hearing(old(alive), old(|turns|)), |wolves|, r.value)
    {
      hide Reachable, Legal, Idle, ActionLegal, Supported, Accounted, GuardDone, Wish, WolvesHeard, LivingWolves,
        LivingNonWolves, Overrun, BidsSoFar;
      ghost var g := Now();
      ghost var hearing := Hearing(alive, |turns|);
      LivingOnBoard(board, g);
      WolvesAreReady(board, g);
      NobodyHeard(hearing);
      var bids: seq<Bid> := [];
      var i := 0;
      while i < |wolves|
        invariant 0 <= i <= |wolves| && Valid() && table.round == rnd && bids == table.bids
        invariant WolvesHeard(board, g, Now(), wolves, i) && alive == g.alive && hearings == old(hearings)
        invariant lastGuarded == g.lastGuarded && |turns| == |g.turns| + i
        invariant BidsHeard(hearing, i, bids)
      {
        ghost var h := Now();
        WolfMayAsk(board, g, h, wolves, i);
        var bid :- HearWolf(g, wolves, i, rnd);
        BidMatches(hearing, i, bid);
        OneMoreHeard(hearing, i, bids, bid);
        if bid.Some? {
          bids := bids + [bid.value];
        }
        i := i + 1;
      }
      return Ok(bids);
    }

    /** The wolves' night: hear them, adjudicate, record the consensus entry, the decision and the kill. */
    method RunWolfKill(rnd: nat) returns (r: Result<Option<Seat>>)
      requires Valid() && NightUnderWay(board, Now(), rnd) && GuardDone(board, table) && table.bids == []
      requires Idle(board, Now(), Werewolf) && table.victim.None?
      modifies this
      ensures table.round == old(table.round)
      ensures r.Exhausted? ==> Overrun()
      ensures r.Ok? ==> Valid() && RoleOnly(board, old(Now()), Now(), Werewolf) && WolvesDone(board, table)
      ensures r.Ok? ==> table.victim == r.value && table.guarded == old(table.guarded)
      ensures r.Ok? ==>
                hearings == old(hearings) +
                  if r.value.Some? then [Hearing(old(alive), old(|turns|))] else []
      ensures r.Ok? && r.value.Some? ==>
                && r.value.value in old(alive) && !IsWolf(board, r.value.value)
                && (table.bids != [] ==> MostNamed(table.bids, r.value.value))
                && (forall i, t :: Proposes(Hearing(old(alive), old(|turns|)), i, t) ==>
                      MostProposed(Hearing(old(alive), old(|turns|)), r.value.value))
    {
      hide Reachable, Legal, Idle, WinCheck, AdjudicateKill, RoleOnly, WolvesReady, WolvesHeard, BidsSoFar, NoneToFire,
        GuardDone, Supported, Accounted, BidsHeard, Proposes, MostNamed, MostProposed, TellsTheBids;
      var wolves := LivingWolves(board, alive);
      ghost var g := Now();
      ghost var hearing := Hearing(alive, |turns|);
      WolvesAreReady(board, g);
      if wolves == [] {
        NoKillIsRoleOnly(board, g, g, wolves);
        NoWolvesMeansDecided(board, alive);
        return Ok(None);
      }
      var bids :- CollectBids(wolves, rnd);
      WolvesHeardSame(board, g, Now(), wolves);
      var verdict := AdjudicateKill(board, bids, LivingNonWolves(board, alive));
      if verdict.NoKill? {
        NoKillIsRoleOnly(board, g, Now(), wolves);
        NoKillMeansDecided(board, alive, bids);
        return Ok(None);
      }
      var target;
      if verdict.Fixed? {
        target := verdict.target;
      } else {
        DrawNonempty(board, alive, bids, wolves);
        ghost var h := Now();
        target := Draw(verdict.over);
        assert Now() == h;
      }
      RecordKill(g, hearing, wolves, bids, target, verdict.status, rnd);
      forall i, t | Proposes(hearing, i, t) ensures bids != [] {
        ProposalIsBid(hearing, bids, i, t);
      }
      return Ok(Some(target));
    }

    method RecordKill(ghost g: Game, ghost hearing: Hearing, wolves: seq<Seat>, bids: seq<Bid>, target: Seat, status: Status, rnd: nat)
      requires Valid() && rnd == table.round == g.table.round && wolves != [] && g.table.victim.None?
      requires WolvesReady(board, g, wolves) && WolvesHeard(board, g, Now(), wolves, |wolves|)
      requires BidsSoFar(board, alive, wolves, |wolves|, bids) && bids == table.bids
      requires hearing.alive == alive && BidsHeard(hearing, |wolves|, bids)
      requires var verdict := AdjudicateKill(board, bids, LivingNonWolves(board, alive));
               VerdictAllows(verdict, target) && status == VerdictStatus(verdict)
      requires wolves == LivingWolves(board, alive)
      modifies this
      ensures Valid() && RoleOnly(board, g, Now(), Werewolf)
      ensures table.victim == Some(target) && table.guarded == g.table.guarded && table.round == rnd
      ensures alive == old(alive) && hearings == old(hearings) + [hearing] && table.bids == bids
      ensures consensus == old(consensus) +
                [BuildConsensusEntry(board, rnd, wolves, target, PrimaryWolf(wolves, bids, target),
                                     Backers(bids, target), status, PublicRefs(old(events)))]
      ensures TellsTheBids(wolves, bids, target, PublicRefs(old(events)), consensus[|consensus| - 1])
      ensures target in alive && !IsWolf(board, target) && (bids != [] ==> MostNamed(bids, target))
      ensures bids != [] ==> MostProposed(hearing, target)
    {
      hide Reachable, Legal, Step, NewEvent, NewDecision, ConsensusId, AdjudicateKill, RoleOnly, WolvesReady, WolvesHeard, BidsSoFar,
        NewEvents, NewDecisions, NewConsensus, NextTable, VerdictAllows, PrimaryWolf, Backers, BuildConsensusEntry,
        LivingWolves, VerdictStatus, PublicRefs, Supported, Accounted, BidsHeard, TellsTheBids, MostNamed, MostProposed,
        Unanimous, LivingNonWolves, WolfAmong, NonWolfAmong;
      var refs := PublicRefs(events);
      var primary := PrimaryWolf(wolves, bids, target);
      ghost var m := Kill(bids, target, primary, refs);
      PublicRefsKnown(Now());
      KillRecorded(board, g, Now(), wolves, bids, target, refs);
      OneMoreAccounted(Now(), m, hearing, hearings);
      NewEntryTells(board, Now(), m);
      KillIsMostNamed(board, Now(), m);
      if bids != [] {
        MostNamedIsMostProposed(hearing, bids, target);
      }
      ghost var done := Step(board, Now(), m);
      WriteKill(wolves, bids, target, primary, status, refs, rnd);
      hearings, table := hearings + [hearing], done.table;
      assert Now() == done;
    }

    /** The entry, then the decision that refers to it, then the event. */
    method WriteKill(wolves: seq<Seat>, bids: seq<Bid>, target: Seat, primary: Seat, status: Status, refs: seq<string>,
                     rnd: nat)
      requires wolves != [] && rnd == table.round && sequence == |events|
      modifies this`consensus, this`decisions, this`events, this`sequence
      ensures sequence == |events|
      ensures consensus == old(consensus) +
                [BuildConsensusEntry(board, rnd, wolves, target, primary, Backers(bids, target), status, refs)]
      ensures decisions == old(decisions) +
                [NewDecision(board, old(Now()), primary, TeamScope, Some(ConsensusId(board.gameId, rnd)), Night, WerewolfKill,
                             Player(target), [], if bids == [] then Default else TeamCoordinated, None)]
      ensures events == old(events) +
                [NewEvent(board, old(|events|), rnd, Night, WerewolfKill, Player(primary), Player(target), WolvesOnly)]
    {
      hide NewEvent, ConsensusId, Backers, BuildConsensusEntry;
      consensus := consensus +
        [BuildConsensusEntry(board, rnd, wolves, target, primary, Backers(bids, target), status, refs)];
      Decide(primary, TeamScope, Night, WerewolfKill, Player(target), if bids == [] then Default else TeamCoordinated, rnd,
             None, [], Some(ConsensusId(board.gameId, rnd)));
      Emit(rnd, Night, WerewolfKill, Player(primary), Player(target), WolvesOnly);
    }

    // ---- dying ------------------------------------------------------------------

    /** Strike a player off the living and record the death; nobody is committed dead twice. */
    method Bury(dead: Seat, rnd: nat, phase: Phase, cause: Cause)
      requires Valid() && rnd == table.round && phase == PhaseOf(table.stage) && Legal(board, Now(), Die(dead, cause))
      modifies this
      ensures Valid() && Now() == Step(board, old(Now()), Die(dead, cause))
      ensures JustDied(board, Now(), dead, cause) && alive == old(alive) - {dead} && table.round == rnd
      ensures old(NoneToFire(board, Now())) ==> OnlyPending(board, Now(), dead)
      ensures table == old(table).(causes := table.causes, aim := None) && lastGuarded == old(lastGuarded)
      ensures old(events) <= events && consensus == old(consensus)
    {
      hide Reachable, Legal, Step, NewEvent, JustDied, NoneToFire, OnlyPending, Supported, Accounted;
      DieLegalFacts(board, Now(), dead, cause);
      LivingUntouched(board, Now(), dead);
      DieEffect(board, Now(), dead, cause);
      alive := alive - {dead};
      assert dead !in committed;
      committed := committed + {dead};
      Emit(rnd, phase, PlayerDied, System, Player(dead), Everyone);
      table := table.(causes := table.causes[dead := cause], aim := None);
      assert Now() == Step(board, old(Now()), Die(dead, cause));
      if old(NoneToFire(board, Now())) {
        OneMorePending(board, old(Now()), Now(), dead, cause);
      }
    }

    /** A person's last words, if any; a provider's seat has none. */
    method ResolveFinalWords(dead: Seat, rnd: nat, phase: Phase)
      requires Valid() && rnd == table.round && phase == PhaseOf(table.stage)
      requires dead in committed && dead < |board.roles| && table.aim.None? && table.heard.None? && !table.stage.EndStage?
      modifies this
      ensures Valid() && TalkOnly(old(Now()), Now())
      ensures windows == old(windows) + if dead in humans then 1 else 0
      ensures var said := answers(old(|turns|));
              events == old(events) +
                if dead in humans && said.Words? && !said.blank then
                  [NewEvent(board, old(|events|), rnd, phase, FinalWords, Player(dead), Nobody, Public)]
                else []
    {
      hide Reachable, Legal, Step, NewEvent, Supported, Accounted;
      if dead !in humans {
        return;
      }
      var a := AskPerson(dead, rnd, ForWords);
      if a.Words? && !a.blank {
        LastWordsEffect(board, Now(), dead);
        ghost var before := Now();
        Emit(rnd, phase, FinalWords, Player(dead), Nobody, Public);
        assert Now() == Step(board, before, LastWords(dead));
      }
    }

    lemma ShotRuleExactly(hunter: Seat)
      ensures forall among, last, t :: TargetAllowed(RuntimeState(board, among, last), hunter, HunterShoot, t) <==>
                                       t in among && t != hunter
    {
    }

    /** What the dead hunter aims at, judged by the shot's target rule; an illegal or unknown answer is no shot. */
    method AskForShot(hunter: Seat, rnd: nat) returns (r: Result<Option<Seat>>)
      requires Valid() && rnd == table.round && ShotReady(board, Now(), hunter) && table.heard.None?
      modifies this
      ensures table.round == old(table.round)
      ensures r.Exhausted? ==> Overrun()
      ensures r.Ok? ==> Valid() && AfterAsk(old(Now()), Now(), ShotSlot(hunter))
      ensures r.Ok? && r.value.Some? ==>
                TargetAllowed(RuntimeState(board, alive, lastGuarded), hunter, HunterShoot, r.value.value)
                && table.heard == Some((HunterShoot, Player(r.value.value)))
      ensures r.Ok? && r.value.None? ==> Abstains(Now(), hunter, HunterPass)
      ensures r.Ok? ==>
                forall t: Seat :: r.value == Some(t) <==> ShootsAt(answers(old(|turns|)), t) && t in old(alive) && t != hunter
    {
      hide Reachable, Legal, MayAsk, ShotReady, TargetAllowed, Refused, AfterAsk, Supported, Accounted;
      ShotMayAsk(board, Now(), hunter);
      ShotRuleExactly(hunter);
      ShotReadyFacts(board, Now(), hunter);
      var action :- RequestAction(hunter, ShotSlot(hunter), ForShot, rnd);
      ghost var asked := Now();
      AfterAskSame(old(Now()), asked, ShotSlot(hunter));
      if action.None? || action.value.0.HunterPass? {
        return Ok(None);
      }
      if action.value.0.HunterShoot? && action.value.1.Player?
         && TargetAllowed(RuntimeState(board, alive, lastGuarded), hunter, HunterShoot, action.value.1.seat) {
        return Ok(Some(action.value.1.seat));
      }
      ShotRefused(board, asked, hunter, action.value);
      DowngradeTurn();
      DowngradeKeepsAsk(old(Now()), asked, ShotSlot(hunter));
      return Ok(None);
    }

    /** Ask a dead hunter for a shot, and record the answer; an illegal shot is no shot. */
    method ResolveHunterShot(hunter: Seat, rnd: nat, phase: Phase) returns (r: Result<Option<Seat>>)
      requires Valid() && rnd == table.round && phase == PhaseOf(table.stage) && ShotReady(board, Now(), hunter)
      requires table.heard.None?
      modifies this
      ensures table.round == old(table.round)
      ensures r.Exhausted? ==> Overrun()
      ensures r.Ok? ==> Valid() && ShotTaken(old(Now()), Now(), hunter, r.value)
      ensures r.Ok? && r.value.Some? ==> r.value.value in alive
      ensures r.Ok? ==>
                forall t: Seat :: r.value == Some(t) <==> ShootsAt(answers(old(|turns|)), t) && t in old(alive) && t != hunter
      ensures r.Ok? ==> table.aim == r.value
    {
      hide Reachable, Legal, AfterAsk, Step, ShotReady, DeedIs, ShootsAt, TargetAllowed, Abstains, Supported, Accounted;
      ghost var g := Now();
      ShotReadyFacts(board, g, hunter);
      var target :- AskForShot(hunter, rnd);
      AfterAskSame(g, Now(), ShotSlot(hunter));
      ghost var mid := Now();
      if target.Some? {
        ShotLegal(board, g, mid, hunter, target.value);
        ShotDone(board, g, mid, Shoot(hunter, target.value), hunter);
        RecordDeed(Shoot(hunter, target.value), hunter, phase, HunterShoot, Player(target.value), Retaliatory, Public, rnd);
        return Ok(Some(target.value));
      }
      HoldLegal(board, g, mid, hunter);
      ShotDone(board, g, mid, HoldFire(hunter), hunter);
      RecordDeed(HoldFire(hunter), hunter, phase, HunterPass, Nobody, Default, Public, rnd);
      return Ok(None);
    }

    /**
      Fire what a death sets off. A shot hunter shoots in turn: the cascade ends because every shot takes somebody
      off the living, and nobody's shot is left open.
    */
    method TriggerOnDeath(dead: Seat, rnd: nat, phase: Phase, cause: Cause) returns (r: Result<()>)
      requires Valid() && rnd == table.round && phase == PhaseOf(table.stage) && JustDied(board, Now(), dead, cause)
      requires OnlyPending(board, Now(), dead)
      modifies this
      ensures table.round == old(table.round)
      ensures r.Exhausted? ==> Overrun()
      ensures r.Ok? ==> Valid() && Aftermath(old(Now()), Now()) && NoneToFire(board, Now())
      decreases |alive|
    {
      hide Reachable, Legal, Step, ShotReady, JustDied, ShotTaken, Aftermath, OnlyPending, NoneToFire, TalkOnly, Supported, Accounted;
      ghost var g := Now();
      JustDiedFacts(board, g, dead, cause);
      if !HasDeathTrigger(board.roles[dead]) || Suppressed(board.roles[dead], cause) {
        NothingHappened(g);
        NothingSetOff(board, g, dead, cause);
        return Ok(());
      }
      DeadHunterReady(board, g, dead, cause);
      var target :- ResolveHunterShot(dead, rnd, phase);
      ghost var h := Now();
      ShotTakenFacts(g, h, dead, target);
      ShotAnswered(board, g, h, dead, target);
      if target.Some? && target.value in alive {
        ShotBurial(board, g, h, dead, target.value);
        Bury(target.value, rnd, phase, Shot);
        ShotThenDeath(g, h, Now(), dead, target.value);
        ghost var k := Now();
        JustDiedFacts(board, k, target.value, Shot);
        ResolveFinalWords(target.value, rnd, phase);
        TalkKeepsDead(board, k, Now(), target.value, Shot);
        PendingStays(board, k, Now(), target.value);
        AftermathTrans(g, k, Now());
        ghost var l := Now();
        TalkRound(k, l);
        StrictlySmallerSet(alive, h.alive, target.value);
        SmallerSet(h.alive, g.alive);
        var _ :- TriggerOnDeath(target.value, rnd, phase, Shot);
        AftermathTrans(g, l, Now());
      } else {
        HeldFire(g, h, dead);
      }
      return Ok(());
    }

    // ---- one night -----------------------------------------------------------------

    /** One of the condemned: the burial, last words, and whatever the death sets off. */
    method SettleDeath(dead: Seat, rnd: nat, cause: Cause) returns (r: Result<()>)
      requires Valid() && rnd == table.round && table.stage.NightStage? && table.aim.None?
      requires Legal(board, Now(), Die(dead, cause)) && NoneToFire(board, Now())
      modifies this
      ensures table.round == old(table.round)
      ensures r.Exhausted? ==> Overrun()
      ensures r.Ok? ==> Valid() && Aftermath(old(Now()), Now()) && NoneToFire(board, Now()) && dead !in alive
    {
      hide Reachable, Legal, Step, JustDied, Aftermath, NoneToFire, OnlyPending, TalkOnly, Supported, Accounted;
      ghost var h := Now();
      Bury(dead, rnd, Night, cause);
      ghost var k := Now();
      JustDiedFacts(board, k, dead, cause);
      BurialAftermath(h, k, dead);
      ResolveFinalWords(dead, rnd, Night);
      TalkKeepsDead(board, k, Now(), dead, cause);
      PendingStays(board, k, Now(), dead);
      ghost var l := Now();
      TalkRound(k, l);
      AftermathTrans(h, k, l);
      var _ :- TriggerOnDeath(dead, rnd, Night, cause);
      AftermathTrans(h, l, Now());
      FewerAlive(l, Now());
      return Ok(());
    }

    /** Carry out the joint settlement; a hunter's shot may already have taken one of the condemned. */
    method SettleNight(rnd: nat, intents: NightIntents) returns (r: Result<()>)
      requires Valid() && NightUnderWay(board, Now(), rnd) && NightTurnsTaken(board, table) && intents == Intents(table)
      modifies this
      ensures table.round == old(table.round)
      ensures r.Exhausted? ==> Overrun()
      ensures r.Ok? ==> Valid() && NightOver(board, Now(), rnd) && Aftermath(old(Now()), Now())
    {
      hide Reachable, Legal, Step, JustDied, Aftermath, ResolveNight, NightOver, NightTurnsTaken, NoneToFire, Supported, Accounted;
      ghost var g := Now();
      var night := ResolveNight(intents, alive);
      assert night == Settlement(g.table);
      NothingHappened(g);
      var i := 0;
      while i < |night.deaths|
        invariant 0 <= i <= |night.deaths| && Valid() && Aftermath(g, Now()) && table.round == rnd
        invariant NoneToFire(board, Now())
        invariant forall j :: 0 <= j < i ==> night.deaths[j] !in alive
      {
        var dead := night.deaths[i];
        ghost var h := Now();
        AftermathSettles(g, h);
        AftermathKeepsTurns(board, g, h);
        if dead in alive {
          EarlierAreBuried(h, i);
          NightDeathLegal(board, h, dead);
          var _ :- SettleDeath(dead, rnd, night.causes[dead]);
          AftermathTrans(g, h, Now());
          FewerAlive(h, Now());
        }
        i := i + 1;
      }
      SettledIsOver(board, g, Now(), rnd);
      return Ok(());
    }

    /** Guard, wolves, seer, witch, then the settlement. */
    method RunNight(rnd: nat, saveUsed: bool, poisonUsed: bool) returns (r: Result<(bool, bool)>)
      requires Valid() && FreshNight(board, Now(), rnd) && saveUsed == table.saveUsed && poisonUsed == table.poisonUsed
      modifies this
      ensures table.round == old(table.round)
      ensures r.Exhausted? ==> Overrun()
      ensures r.Ok? ==> Valid() && NightOver(board, Now(), rnd) && r.value == (table.saveUsed, table.poisonUsed)
    {
      hide Reachable, Legal, Step, Idle, RoleOnly, WitchOnlyActed, NightOver, NoneToFire, GuardDone, WolvesDone, SeerDone,
        WitchDone, Supported, Accounted;
      ghost var g := Now();
      forall role: Role ensures Idle(board, g, role) {
        FreshIsIdle(board, g, rnd, role);
      }
      var guardTarget :- RunGuard(rnd);
      ghost var afterGuard := Now();
      RoleKeepsNight(board, g, afterGuard, Guard, rnd);
      OthersStayIdle(board, g, afterGuard, Guard, Werewolf);
      OthersStayIdle(board, g, afterGuard, Guard, Seer);
      OthersStayIdle(board, g, afterGuard, Guard, Witch);
      var victim :- RunWolfKill(rnd);
      ghost var afterWolves := Now();
      RoleKeepsNight(board, afterGuard, afterWolves, Werewolf, rnd);
      TurnsStayTaken(board, afterGuard.table, afterWolves.table);
      OthersStayIdle(board, afterGuard, afterWolves, Werewolf, Seer);
      OthersStayIdle(board, afterGuard, afterWolves, Werewolf, Witch);
      var _ :- RunSeer(rnd);
      ghost var afterSeer := Now();
      RoleKeepsNight(board, afterWolves, afterSeer, Seer, rnd);
      TurnsStayTaken(board, afterWolves.table, afterSeer.table);
      OthersStayIdle(board, afterWolves, afterSeer, Seer, Witch);
      var witch :- ResolveWitch(rnd, victim, saveUsed, poisonUsed);
      WitchKeepsNight(board, afterSeer, Now(), rnd);
      TurnsStayTaken(board, afterSeer.table, table);
      var _ :- SettleNight(rnd, NightIntents(victim, witch.saved, witch.poison, guardTarget));
      return Ok((witch.saveUsed, witch.poisonUsed));
    }

    // ---- one day --------------------------------------------------------------------

    method Announce(rnd: nat)
      requires Valid() && NightOver(board, Now(), rnd) && WinCheck(board, alive).None?
      modifies this
      ensures Valid() && Morning(board, Now(), rnd) && table == old(table).(stage := DayStage)
    {
      hide Reachable, Legal, Step, WinCheck, NewEvent, NightOver, Morning, Supported, Accounted;
      SunriseEffect(board, Now(), rnd);
      Emit(rnd, Day, DayAnnouncement, System, Nobody, Public);
      table := table.(stage := DayStage);
      assert Now() == Step(board, old(Now()), Sunrise);
    }

    /** One speech; a failed, empty or withheld speech is still announced, and never aborts the run. */
    method ResolveSpeech(speaker: Seat, rnd: nat) returns (r: Result<()>)
      requires Valid() && rnd == table.round && MaySpeak(board, Now(), speaker)
      modifies this
      ensures table.round == old(table.round)
      ensures r.Exhausted? ==> Overrun()
      ensures r.Ok? ==> Valid() && SpeechMade(old(Now()), Now(), speaker)
    {
      hide Reachable, Legal, Step, MayAsk, NewEvent, Supported, Accounted, TurnReached, AfterAsk, JustAsked, SpeechMade, MaySpeak;
      MaySpeakFacts(board, Now(), speaker);
      ghost var g := Now();
      SpeechMayAsk(board, g, speaker);
      if speaker in humans {
        var _ := AskPerson(speaker, rnd, ForWords);
        PersonAsked(g, Now(), SpeechSlot(speaker));
      } else {
        var _ :- AskProvider(SpeechSlot(speaker), rnd, true);
      }
      ghost var h := Now();
      SpeakEffect(board, g, h, speaker);
      Emit(rnd, Day, PlayerSpeech, Player(speaker), Nobody, Public);
      table := table.(acted := table.acted + {(speaker, Speaking)});
      assert Now() == Step(board, h, Speak(speaker));
      SpeechIsMade(board, g, h, Now(), speaker);
      return Ok(());
    }

    method RunSpeeches(rnd: nat) returns (r: Result<()>)
      requires Valid() && Morning(board, Now(), rnd)
      modifies this
      ensures table.round == old(table.round)
      ensures r.Exhausted? ==> Overrun()
      ensures r.Ok? ==> Valid() && BeforeVote(board, Now(), rnd) && ScribeSlot !in table.asked
      ensures r.Ok? ==> table.saveUsed == old(table.saveUsed) && table.poisonUsed == old(table.poisonUsed)
    {
      hide Reachable, Legal, Step, Morning, SpeakersReady, MaySpeak, SpeechMade, BeforeVote, Supported, Accounted;
      ghost var g := Now();
      LivingOnBoard(board, g);
      var speakers := AliveInSeatOrder(board, alive);
      SpeakersAreReady(board, g, rnd);
      assert table.round == rnd by { SpeakersRound(board, g, rnd, speakers); }
      var i := 0;
      while i < |speakers|
        invariant 0 <= i <= |speakers| && Valid() && table.round == rnd
        invariant Spoken(g, Now(), speakers, i)
      {
        ghost var h := Now();
        NextSpeaker(board, g, h, rnd, speakers, i);
        var _ :- ResolveSpeech(speakers[i], rnd);
        SpokenNext(g, h, Now(), speakers, i);
        i := i + 1;
      }
      SpeechesDone(board, g, Now(), rnd, speakers);
      return Ok(());
    }

    ghost predicate SpeechesOf(rnd: nat)
      reads this
    {
      exists i :: 0 <= i < |events| && events[i].kind.PlayerSpeech? && events[i].round == rnd
    }

    /** One extraction call over today's speeches; its failure is recorded and ignored. */
    method RunScribe(rnd: nat) returns (r: Result<()>)
      requires Valid() && BeforeVote(board, Now(), rnd) && ScribeSlot !in table.asked
      modifies this
      ensures table.round == old(table.round)
      ensures r.Exhausted? ==> Overrun()
      ensures r.Ok? ==> Valid() && BeforeVote(board, Now(), rnd)
      ensures r.Ok? && SpeechesOf(rnd) ==> ScribeSlot in table.asked
      ensures r.Ok? ==> table.saveUsed == old(table.saveUsed) && table.poisonUsed == old(table.poisonUsed)
    {
      hide Reachable, Legal, Step, NoneToFire, WinCheck, AllDid, Supported, Accounted;
      if forall i :: 0 <= i < |events| ==> !(events[i].kind.PlayerSpeech? && events[i].round == rnd) {
        return Ok(());
      }
      var a := answers(|turns|);
      var kind := if a.Words? && !a.blank then ScaffoldSuccess else ScaffoldFallback;
      ScribeEffect(board, Now(), rnd, kind);
      ChargeFits(board, Now(), AskScribe(kind));
      used := used + 1;
      if used > maxRequests {
        return Exhausted;
      }
      turns := turns + [Turn(RequestKey(rnd, ScribeSlot), false, kind)];
      table := table.(asked := table.asked + {ScribeSlot});
      assert Now() == Step(board, old(Now()), AskScribe(kind));
      return Ok(());
    }

    /** These are the ids of exactly the events that everybody may see. */
    ghost predicate CitesThePublic(refs: seq<string>, log: seq<Event>) {
      forall id :: id in refs <==>
        exists i :: 0 <= i < |log| && log[i].id == id && (log[i].visibility.Public? || log[i].visibility.Everyone?)
    }

    lemma PublicRefsCite(log: seq<Event>)
      ensures CitesThePublic(PublicRefs(log), log)
    {
      forall id
        ensures id in PublicRefs(log) <==>
                exists i :: 0 <= i < |log| && log[i].id == id && (log[i].visibility.Public? || log[i].visibility.Everyone?)
      {
        PublicRefsExactly(log, id);
      }
    }

    /** The decisions from the n-th on are votes that cite what was public when the vote began. */
    ghost predicate VotesCite(made: seq<Decision>, n: nat, log: seq<Event>) {
      n <= |made| && forall k :: n <= k < |made| ==> made[k].action.PlayerVote? && CitesThePublic(made[k].refs, log)
    }

    /** Every living seat votes in seat order; a tie is broken at random among the leaders. */
    method RunVoteRound(rnd: nat) returns (r: Result<Option<Seat>>)
      requires Valid() && BeforeVote(board, Now(), rnd)
      modifies this
      ensures table.round == old(table.round)
      ensures r.Exhausted? ==> Overrun()
      ensures r.Ok? ==> Valid() && r.value.Some? && Doomed(board, Now(), rnd, r.value.value)
      ensures r.Ok? ==> old(table.asked) <= table.asked
      ensures r.Ok? ==> old(decisions) <= decisions && VotesCite(decisions, |old(decisions)|, old(events))
      ensures r.Ok? ==> table.saveUsed == old(table.saveUsed) && table.poisonUsed == old(table.poisonUsed)
    {
      hide Reachable, Legal, MayAsk, BeforeVote, VotersReady, TurnReady, TurnTaken, TurnSkipped, WinCheck, Leaders,
        PublicRefs, PublicIdsOnly, Supported, Accounted, CitesThePublic, AsksFor, MayChoose, TurnFollows;
      ghost var g := Now();
      LivingOnBoard(board, g);
      VotersHeard(board, g, rnd);
      var refs := PublicRefs(events);
      PublicRefsKnown(g);
      PublicRefsCite(events);
      var tally: multiset<Seat> := multiset{};
      var voters := AliveInSeatOrder(board, alive);
      VotersAreReady(board, g, rnd);
      VotersRound(board, g, rnd, voters);
      var i := 0;
      while i < |voters|
        invariant 0 <= i <= |voters| && Valid() && table.round == rnd && tally == table.ballots
        invariant Balloted(board, g, Now(), voters, i)
        invariant g.decisions <= decisions && VotesCite(decisions, |g.decisions|, g.events)
      {
        ghost var h := Now();
        NextVoter(board, g, h, rnd, voters, i);
        RefsStayKnown(g, h, refs);
        var target :- RunSingleTurn(PlayerVote, voters[i], rnd, refs);
        if target.Some? {
          VoterStays(board, h, Now(), voters[i], target.value);
          BallotCast(board, g, h, Now(), voters, i, target.value);
          tally := tally + multiset{target.value};
        } else {
          VoterSkips(h, Now(), voters[i]);
        }
        i := i + 1;
      }
      VoteDecides(board, g, Now(), rnd, voters);
      if tally == multiset{} {
        return Ok(None);
      }
      var leaders := Leaders(tally, |board.roles|);
      ghost var h := Now();
      var out := leaders[0];
      if |leaders| != 1 {
        out := Draw(leaders);
      }
      assert Now() == h;
      DoomedAfterVote(board, g, h, rnd, voters, out);
      return Ok(Some(out));
    }

    /** Carry out the vote: eliminate, reveal, hear last words, let a hunter shoot. */
    method Eliminate(out: Seat, rnd: nat) returns (r: Result<()>)
      requires Valid() && Doomed(board, Now(), rnd, out)
      modifies this
      ensures table.round == old(table.round)
      ensures r.Exhausted? ==> Overrun()
      ensures r.Ok? ==> Valid() && DayClosing(board, Now(), rnd) && table.asked == old(table.asked)
      ensures r.Ok? ==> table.saveUsed == old(table.saveUsed) && table.poisonUsed == old(table.poisonUsed)
    {
      hide Reachable, Legal, Step, JustDied, NewEvent, Leaders, NoneToFire, OnlyPending, AllDid, Supported, Accounted, DayClosing;
      ghost var g := Now();
      OustLegal(board, g, rnd, out);
      OustEffect(board, g, rnd, out);
      alive := alive - {out};
      assert out !in committed;
      committed := committed + {out};
      Emit(rnd, Day, PlayerEliminated, System, Player(out), Everyone);
      Emit(rnd, Day, RoleRevealed, System, Player(out), Everyone);
      table := table.(causes := table.causes[out := VotedOut], ousted := Some(out));
      ghost var h := Now();
      assert h == Step(board, g, Oust(out));
      JustDiedFacts(board, h, out, VotedOut);
      ResolveFinalWords(out, rnd, Day);
      TalkKeepsDead(board, h, Now(), out, VotedOut);
      PendingStays(board, h, Now(), out);
      ghost var k := Now();
      var _ :- TriggerOnDeath(out, rnd, Day, VotedOut);
      AftermathTrans(h, k, Now());
      AftermathCloses(board, h, Now(), rnd);
      return Ok(());
    }

    method RunDay(rnd: nat) returns (r: Result<()>)
      requires Valid() && NightOver(board, Now(), rnd) && WinCheck(board, alive).None?
      modifies this
      ensures table.round == old(table.round)
      ensures r.Exhausted? ==> Overrun()
      ensures r.Ok? ==> Valid() && DayClosing(board, Now(), rnd)
      ensures r.Ok? && scaffold ==> ScribeSlot in table.asked
      ensures r.Ok? ==> table.saveUsed == old(table.saveUsed) && table.poisonUsed == old(table.poisonUsed)
    {
      hide Reachable, NightOver, WinCheck, Morning, BeforeVote, Doomed, DayClosing, Supported, Accounted;
      Announce(rnd);
      var _ :- RunSpeeches(rnd);
      if scaffold {
        var _ :- RunScribe(rnd);
        SomebodySpoke(board, Now(), rnd);
      }
      var out :- RunVoteRound(rnd);
      if out.Some? {
        var _ :- Eliminate(out.value, rnd);
      }
      return Ok(());
    }

    // ---- the run --------------------------------------------------------------------

    /** Rounds until somebody wins or the round cap; None is the cap. */
    method RunRounds() returns (r: Result<Option<(Winner, nat)>>)
      requires Valid() && Now() == Opening(board)
      modifies this
      ensures r.Exhausted? ==> used == maxRequests + 1 <= RequestBound(|board.roles|, maxDayRounds)
      ensures r.Ok? ==> Valid()
      ensures r.Ok? && r.value.Some? ==>
                && WinCheck(board, alive) == Some(r.value.value.0) && 1 <= r.value.value.1 == table.round <= maxDayRounds
                && (NightOver(board, Now(), table.round) || DayClosing(board, Now(), table.round))
      ensures r.Ok? && r.value.None? ==> table.round == maxDayRounds + 1
      ensures r.Ok? && r.value.None? && maxDayRounds > 0 ==>
                maxDayRounds + 3 <= |board.roles| && WinCheck(board, alive).None?
    {
      hide Reachable, Legal, Step, WinCheck, NightOver, DayClosing, Ceiling, Supported, Accounted, NoneToFire;
      OpeningIsFresh(board);
      var saveUsed, poisonUsed := false, false;
      var rnd := 1;
      while rnd <= maxDayRounds
        invariant 1 <= rnd <= maxDayRounds + 1
        invariant Valid() && FreshNight(board, Now(), rnd) && saveUsed == table.saveUsed && poisonUsed == table.poisonUsed
        invariant rnd == 1 || (rnd + 2 <= |board.roles| && WinCheck(board, alive).None?)
        decreases maxDayRounds - rnd
      {
        CeilingGrows(|board.roles|, rnd, maxDayRounds);
        var potions :- RunNight(rnd, saveUsed, poisonUsed);
        saveUsed, poisonUsed := potions.0, potions.1;
        var winner := WinCheck(board, alive);
        if winner.Some? {
          return Ok(Some((winner.value, rnd)));
        }
        var _ :- RunDay(rnd);
        winner := WinCheck(board, alive);
        if winner.Some? {
          return Ok(Some((winner.value, rnd)));
        }
        DayClosingFacts(board, Now(), rnd);
        UndecidedRoundsBounded(board, Now(), rnd);
        NightfallEffect(board, Now(), rnd);
        table := NextTable(Now(), Nightfall);
        rnd := rnd + 1;
      }
      return Ok(None);
    }

    /** What the consensus validator makes of a finished run's log, in terms of the wolves' answers. */
    lemma ConsensusByAnswers(w: Winner)
      requires Valid() && table.stage.EndStage?
      ensures C.AcceptsConsensusLog(ConsensusLogOf(board, sourceLabel, Now()), GameLogOf(board, sourceLabel, Now(), w)) <==>
              sourceLabel in G.VALID_SOURCE_LABELS && forall k :: 0 <= k < |hearings| ==> Answered(hearings[k])
      ensures WinCheck(board, Seats(board)).None? ==> hearings != []
    {
      hide Reachable, Supported, Settled, Answered, WinCheck, Seats, G.VALID_SOURCE_LABELS, C.AcceptsConsensusLog, Roster;
      EngineConsensusLogExactly(board, sourceLabel, Now(), w);
      if WinCheck(board, Seats(board)).None? {
        SomebodyWasKilled(board, Now());
      }
    }

    /** A night on which no answer was an action has no proposals. */
    lemma NoActionNoProposal(h: Hearing)
      requires forall turn :: !answers(turn).Reply?
      ensures !Answered(h)
    {
      hide LivingWolves, ActionLegal;
    }

    /** A finished run in which nobody ever answered with an action has its consensus log refused, whatever the board. */
    lemma UnansweredRunsAreRefused(w: Winner)
      requires Valid() && table.stage.EndStage? && WinCheck(board, Seats(board)).None?
      requires forall turn :: !answers(turn).Reply?
      ensures !C.AcceptsConsensusLog(ConsensusLogOf(board, sourceLabel, Now()), GameLogOf(board, sourceLabel, Now(), w))
    {
      hide *;
      ConsensusByAnswers(w);
      NoActionNoProposal(hearings[0]);
    }

    /** A run completes with all three logs, or fails with none. */
    method Run() returns (outcome: GameOutcome)
      requires Valid() && Now() == Opening(board)
      modifies this
      ensures outcome.completed <==> outcome.gameLog.Some?
      ensures outcome.completed <==> outcome.decisionLog.Some?
      ensures outcome.completed <==> outcome.consensusLog.Some?
      ensures outcome.completed ==>
                && Valid() && table.stage.EndStage? && 1 <= table.round <= maxDayRounds
                && WinCheck(board, alive).Some?
                && var winner := WinCheck(board, alive).value;
                && outcome.gameLog == Some(GameLogOf(board, sourceLabel, Now(), winner))
                && outcome.decisionLog == Some(DecisionLogOf(board, sourceLabel, Now()))
                && outcome.consensusLog == Some(ConsensusLogOf(board, sourceLabel, Now()))
                && outcome.endCondition == EndConditionOf(winner)
      ensures !outcome.completed ==> outcome.endCondition.BudgetExhausted? || outcome.endCondition.RoundCap?
      ensures outcome.endCondition.BudgetExhausted? ==> used == maxRequests + 1 <= RequestBound(|board.roles|, maxDayRounds)
      ensures outcome.endCondition.RoundCap? ==> table.round == maxDayRounds + 1
      ensures outcome.endCondition.RoundCap? && maxDayRounds > 0 ==>
                maxDayRounds + 3 <= |board.roles| && WinCheck(board, alive).None?
      ensures maxDayRounds > 0 && maxDayRounds + 3 > |board.roles| && RequestBound(|board.roles|, maxDayRounds) <= maxRequests ==>
                outcome.completed
      ensures outcome.completed ==>
                && Crowned(board, alive, outcome.gameLog.value) && OutcomeTheorems.Listed(board, alive, outcome.gameLog.value)
                && outcome.gameLog.value.result.endCondition == outcome.endCondition
                && outcome.gameLog.value.result.endRound == table.round
      ensures outcome.completed ==> Delivered(board, sourceLabel, Now(), WinCheck(board, alive).value)
      ensures outcome.completed ==>
                (C.AcceptsConsensusLog(outcome.consensusLog.value, outcome.gameLog.value) <==>
                 sourceLabel in G.VALID_SOURCE_LABELS && forall k :: 0 <= k < |hearings| ==> Answered(hearings[k]))
      ensures outcome.turns == turns
    {
      hide Reachable, Legal, Step, WinCheck, NightOver, DayClosing, NewEvent, Supported, Accounted, Delivered, Answered, Crowned,
        OutcomeTheorems.Listed, G.VALID_SOURCE_LABELS, C.AcceptsConsensusLog, Ceiling;
      var result := RunRounds();
      if result.Exhausted? {
        return GameOutcome(false, None, None, None, EndCondition.BudgetExhausted, turns);
      }
      if result.value.None? {
        return GameOutcome(false, None, None, None, RoundCap, turns);
      }
      var (winner, rnd) := result.value.value;
      FinishEffect(board, Now(), rnd, winner);
      ghost var g := Now();
      Emit(rnd, GameEnd, GameOver, System, Side(winner), Everyone);
      table := table.(stage := EndStage);
      assert Now() == Step(board, g, Finish(winner));
      FinishCrowns(board, sourceLabel, g, winner);
      LivingAreListed(board, sourceLabel, Now(), winner);
      FinishedRunDelivers(board, sourceLabel, Now(), winner);
      ConsensusByAnswers(winner);
      return GameOutcome(
        true,
        Some(GameLog(board.gameId, sourceLabel, Roster(board), events,
                     GameResult(WinningTeam(winner), rnd, Names(AliveInSeatOrder(board, alive)), EndConditionOf(winner)))),
        Some(DecisionLog(board.gameId + "_decision_log", board.gameId, sourceLabel, decisions)),
        Some(ConsensusLog(board.gameId + "_consensus_log", board.gameId, sourceLabel, consensus)),
        EndConditionOf(winner), turns);
    }
  }
}
