/** How long a game can stay undecided and how much it can cost: plays that reach the limits the engine reports. */
module LongGames {
  import opened Logs
  import opened Rules
  import opened Referee
  import opened RunInvariants
  import opened TeamInvariants
  import opened RunTheorems
  import opened EngineSteps
  import opened DeathSteps
  import opened DaySteps
  import opened ConsensusTheorems
  import opened EmergentEngine

  // ---- the board ------------------------------------------------------------------------

  /** One wolf, one guard, and villagers from seat 2 on. */
  predicate Village(b: Board) {
    && |b.roles| >= 4 && b.roles[0] == Werewolf && b.roles[1] == Guard
    && forall s :: 2 <= s < |b.roles| ==> b.roles[s] == Villager
  }

  function VillageOf(n: nat): (b: Board)
    requires n >= 4
    ensures Village(b) && |b.roles| == n
  {
    Board("g", [Werewolf, Guard] + seq(n - 2, _ => Villager))
  }

  /** Whom the guard protects and the wolf attacks, a different seat every other night. */
  function Shield(rnd: nat): Seat { if rnd % 2 == 1 then 1 else 2 }

  /** Guard, wolf and scribe once a round, a speech and a vote from everybody alive. */
  function Charges(n: nat, rounds: nat): int {
    if rounds == 0 then 0 else Charges(n, rounds - 1) + 2 * (n - rounds + 1) + 3
  }

  /** The living, in seat order, are the seats 0 to k - 1. */
  lemma {:induction false} FirstSeats(n: nat, k: nat)
    requires k <= n
    ensures var seats := SeatsWhere(n, Among(Below(k)));
            |seats| == k && forall i :: 0 <= i < k ==> seats[i] == i
  {
    hide Below, SeatsWhere;
    LastSeat(n, Among(Below(k)));
    if n > 0 {
      if k == n {
        Prefixes(n - 1, Among(Below(k)), Among(Below(k - 1)));
        FirstSeats(n - 1, k - 1);
      } else {
        FirstSeats(n - 1, k);
      }
    }
  }

  lemma LastSeat(n: nat, p: Seat -> bool)
    ensures SeatsWhere(n, p) ==
            if n == 0 then [] else SeatsWhere(n - 1, p) + if p(n - 1) then [n - 1] else []
  {
  }

  lemma {:induction false} Prefixes(n: nat, p: Seat -> bool, q: Seat -> bool)
    requires forall s: Seat :: s < n ==> p(s) == q(s)
    ensures SeatsWhere(n, p) == SeatsWhere(n, q)
  {
    if n > 0 {
      Prefixes(n - 1, p, q);
    }
  }

  /** With the first k seats alive the wolf is alone against at least two. */
  lemma VillageSides(b: Board, k: nat)
    requires Village(b) && 3 <= k <= |b.roles|
    ensures LivingWolves(b, Below(k)) == [0]
    ensures 1 in LivingNonWolves(b, Below(k)) && 2 in LivingNonWolves(b, Below(k))
    ensures WinCheck(b, Below(k)).None?
  {
    OnlySeat(|b.roles|, WolfAmong(b, Below(k)), 0);
    var others := LivingNonWolves(b, Below(k));
    hide LivingNonWolves, Village;
    assert 1 in others && 2 in others by { hide SeatsWhere; }
    TwoOfThem(others, 1, 2);
  }

  lemma TwoOfThem(seats: seq<Seat>, s: Seat, t: Seat)
    requires s in seats && t in seats && s != t
    ensures |seats| >= 2
  {
    var i :| 0 <= i < |seats| && seats[i] == s;
    var j :| 0 <= j < |seats| && seats[j] == t;
  }

  lemma NoHunters(b: Board, g: Game)
    requires Village(b)
    ensures NoneToFire(b, g)
  {
  }

  // ---- one night ----------------------------------------------------------------------------

  /** The rnd-th night, one villager the fewer for every day before it. */
  ghost predicate NightBegins(b: Board, g: Game, rnd: nat) {
    && Village(b) && Reachable(b, g) && FreshNight(b, g, rnd) && 1 <= rnd && rnd + 3 <= |b.roles|
    && g.alive == Below(|b.roles| - rnd + 1) && g.lastGuarded != Some(Shield(rnd))
    && g.used == Charges(|b.roles|, rnd - 1)
  }

  lemma RefsOfNobody(g: Game)
    ensures PublicIdsOnly(g, [])
  {
  }

  /** A seat whose turn it is asks for a target its rule admits, and gets it for one charge. */
  lemma TurnGranted(b: Board, g: Game, verb: EventKind, actor: Seat, target: Seat) returns (h: Game)
    requires Reachable(b, g) && TurnReady(b, g, verb, actor) && MayAsk(b, g, TurnSlot(verb, actor))
    requires TargetAllowed(RuntimeState(b, g.alive, g.lastGuarded), actor, verb, target)
    ensures Reachable(b, h) && TurnTaken(b, g, h, verb, actor, target) && h.used == g.used + 1
  {
    hide Reachable, TurnReady, MayAsk, TargetAllowed, AfterAsk, Legal, Step, TurnTaken, NextTable, NewEvent, NewDecision,
      PublicIdsOnly, JustAsked;
    var slot, wish := TurnSlot(verb, actor), Some((verb, Player(target)));
    AskEffect(b, g, slot, LiveSuccess, wish);
    var mid := Step(b, g, Ask(slot, LiveSuccess, wish));
    AfterAskKeepsTurn(b, g, mid, slot, verb, actor);
    RefsOfNobody(mid);
    TurnLegal(b, mid, verb, actor, target, InferenceBased, []);
    TurnEffect(b, mid, verb, actor, target, InferenceBased, []);
    TurnEffectTaken(b, mid, verb, actor, target, InferenceBased, []);
    h := Step(b, mid, TurnMove(verb, actor, target, InferenceBased, []));
    AskThenTurn(b, g, mid, h, verb, actor, target);
  }

  lemma GuardIsAlone(b: Board, alive: set<Seat>)
    requires Village(b) && 1 in alive
    ensures LivingWith(b, alive, Guard) == [1]
  {
    OnlySeat(|b.roles|, RoleAmong(b, alive, Guard), 1);
  }

  lemma GuardProtects(b: Board, g: Game, rnd: nat) returns (h: Game)
    requires NightBegins(b, g, rnd)
    ensures Reachable(b, h) && RoleOnly(b, g, h, Guard) && GuardDone(b, h.table) && h.used == g.used + 1
    ensures h.table.guarded == Some(Shield(rnd)) && h.table.victim.None? && h.lastGuarded == Some(Shield(rnd))
  {
    hide Reachable, TurnReady, MayAsk, TurnTaken, Idle, RoleOnly, LivingWith, WinCheck, Below, Charges, NoneToFire, RoleActed;
    FreshIsIdle(b, g, rnd, Guard);
    GuardIsAlone(b, g.alive);
    RoleTurnReady(b, g, GuardProtect, 1, Guard);
    h := TurnGranted(b, g, GuardProtect, 1, Shield(rnd));
    TurnIsRoleOnly(b, g, h, GuardProtect, 1, Shield(rnd), Guard);
    OneHolderActed(b, g.alive, h.table, Guard, Protecting);
    GuardAfterTurn(b, g, h, rnd);
  }

  lemma GuardAfterTurn(b: Board, g: Game, h: Game, rnd: nat)
    requires FreshNight(b, g, rnd) && RoleOnly(b, g, h, Guard) && RoleActed(b, g.alive, h.table, Guard, Protecting)
    requires TurnTaken(b, g, h, GuardProtect, 1, Shield(rnd))
    ensures GuardDone(b, h.table) && h.lastGuarded == Some(Shield(rnd))
  {
    hide WinCheck, NoneToFire;
  }

  lemma LoneBid(b: Board, target: Seat)
    requires target < |b.roles|
    ensures forall candidates :: AdjudicateKill(b, [Bid(0, target)], candidates) == Fixed(target, Consensus)
  {
    var bids := [Bid(0, target)];
    assert BidTargets(bids) == multiset{target} by {
      assert seq(|bids|, i requires 0 <= i < |bids| => bids[i].target) == [target];
    }
    LeaderIs(multiset{target}, |b.roles|, target);
  }

  /** With strictly more ballots than anybody else a seat leads alone. */
  lemma LeaderIs(count: multiset<Seat>, n: nat, s: Seat)
    requires s < n && count[s] > 0 && forall t: Seat :: t < n && t != s ==> count[t] < count[s]
    ensures Leaders(count, n) == [s]
  {
    hide Leaders;
    LeadersExactly(count, n, s);
    LeadersOrdered(count, n);
    LongListsDiffer(Leaders(count, n));
    forall t | t in Leaders(count, n) ensures t == s {
      LeadersExactly(count, n, t);
    }
    assert |Leaders(count, n)| == 1;
    assert Leaders(count, n)[0] in Leaders(count, n);
  }

  /** The wolf's answer is a legal kill. */
  lemma WolfIsHeard(b: Board, g: Game, target: Seat) returns (h: Game)
    requires Reachable(b, g) && WolvesReady(b, g, [0]) && WolvesHeard(b, g, g, [0], 0)
    requires target in g.alive && target < |b.roles| && !IsWolf(b, target)
    ensures Reachable(b, h) && WolvesHeard(b, g, h, [0], 1) && h.table.bids == [Bid(0, target)] && h.used == g.used + 1
    ensures h.lastGuarded == g.lastGuarded && h.alive == g.alive
  {
    hide Reachable, WolvesReady, MayAsk, AfterAsk, Legal, Step, NextTable, LivingWolves, JustAsked, ActionLegal, WolvesHeard;
    WolfMayAsk(b, g, g, [0], 0);
    var slot, wish := NightSlot(0), Some((WerewolfKill, Player(target)));
    AskEffect(b, g, slot, LiveSuccess, wish);
    var mid := Step(b, g, Ask(slot, LiveSuccess, wish));
    AfterAskSame(g, mid, slot);
    WolfMayKill(b, g, target);
    WolfProposes(b, mid, 0, Player(target));
    h := Step(b, mid, Propose(0, target));
    WolfHeard(b, g, g, mid, h, [0], 0);
  }

  lemma WolfMayKill(b: Board, g: Game, target: Seat)
    requires WolvesReady(b, g, [0]) && target in g.alive && target < |b.roles| && !IsWolf(b, target)
    ensures ActionLegal(RuntimeState(b, g.alive, g.lastGuarded), 0, NightPhase, WerewolfKill, Player(target))
    ensures 0 in LivingWolves(b, g.alive) && g.table.stage.NightStage? && g.table.aim.None? && g.table.bids == []
  {
    assert 0 in [0];
  }

  lemma WolfAttacks(b: Board, g: Game, target: Seat) returns (h: Game)
    requires Reachable(b, g) && WolvesReady(b, g, [0]) && WolvesHeard(b, g, g, [0], 0) && g.table.victim.None?
    requires target in LivingNonWolves(b, g.alive)
    ensures Reachable(b, h) && RoleOnly(b, g, h, Werewolf) && h.table.victim == Some(target) && h.used == g.used + 1
    ensures h.table.guarded == g.table.guarded && h.lastGuarded == g.lastGuarded
  {
    hide Reachable, WolvesReady, WolvesHeard, Legal, Step, NextTable, AdjudicateKill, RoleOnly, NewConsensus, Backers, LivingWolves;
    var mid := WolfIsHeard(b, g, target);
    WolvesHeardSame(b, g, mid, [0]);
    LoneBid(b, target);
    RefsOfNobody(mid);
    OneBid(b, mid.alive, target);
    KillRecorded(b, g, mid, [0], [Bid(0, target)], target, []);
    h := Step(b, mid, Kill([Bid(0, target)], target, PrimaryWolf([0], [Bid(0, target)], target), []));
  }

  lemma OneBid(b: Board, alive: set<Seat>, target: Seat)
    requires target in LivingNonWolves(b, alive)
    ensures BidsSoFar(b, alive, [0], 1, [Bid(0, target)])
  {
    assert [0][..1] == [0];
  }

  /** The guard was in the way: nobody dies. */
  lemma NobodyDies(b: Board, g: Game, rnd: nat)
    requires Village(b) && NightUnderWay(b, g, rnd) && GuardDone(b, g.table)
    requires g.table.victim.Some? && g.table.guarded == g.table.victim && !g.table.saved && g.table.poison.None?
    ensures NightOver(b, g, rnd)
  {
    hide WinCheck, NoneToFire, GuardDone;
    NothingHappened(g);
  }

  lemma ShieldStands(b: Board, rnd: nat)
    requires Village(b) && 1 <= rnd && rnd + 3 <= |b.roles|
    ensures Shield(rnd) in LivingNonWolves(b, Below(|b.roles| - rnd + 1))
  {
    hide LivingNonWolves, Below;
    VillageSides(b, |b.roles| - rnd + 1);
  }

  lemma NothingYet(b: Board, g: Game, rnd: nat)
    requires NightBegins(b, g, rnd)
    ensures NightUnderWay(b, g, rnd) && g.table.victim.None? && !g.table.saved && g.table.poison.None?
    ensures Idle(b, g, Werewolf) && g.table.bids == []
  {
    hide Reachable, NoneToFire, Village, Below, Charges;
    FreshIsIdle(b, g, rnd, Werewolf);
  }

  lemma WolvesTurn(b: Board, g: Game, rnd: nat)
    requires NightUnderWay(b, g, rnd) && GuardDone(b, g.table) && Idle(b, g, Werewolf) && g.table.bids == []
    requires LivingWolves(b, g.alive) == [0]
    ensures WolvesReady(b, g, [0]) && WolvesHeard(b, g, g, [0], 0)
  {
    hide NoneToFire, GuardDone, Idle, LivingWolves, WolvesReady, WolvesHeard;
    WolvesAreReady(b, g);
  }

  /** The night passes without a death. */
  lemma QuietNight(b: Board, g: Game, rnd: nat) returns (h: Game)
    requires NightBegins(b, g, rnd)
    ensures Reachable(b, h) && NightOver(b, h, rnd) && h.alive == g.alive && h.used == g.used + 2
    ensures h.lastGuarded == Some(Shield(rnd))
  {
    hide Reachable, RoleOnly, GuardDone, WolvesReady, WolvesHeard, Idle, NightOver, NightUnderWay, LivingWolves, LivingNonWolves,
      Below, Charges, Shield, FreshNight;
    NothingYet(b, g, rnd);
    var mid := GuardProtects(b, g, rnd);
    RoleKeepsNight(b, g, mid, Guard, rnd);
    OthersStayIdle(b, g, mid, Guard, Werewolf);
    SameLiving(b, g, mid, Guard);
    VillageSides(b, |b.roles| - rnd + 1);
    WolvesTurn(b, mid, rnd);
    ShieldStands(b, rnd);
    h := WolfAttacks(b, mid, Shield(rnd));
    RoleKeepsNight(b, mid, h, Werewolf, rnd);
    SameLiving(b, mid, h, Werewolf);
    TurnsStayTaken(b, mid.table, h.table);
    NobodyDies(b, h, rnd);
  }

  lemma SameLiving(b: Board, g: Game, h: Game, r: Role)
    requires RoleOnly(b, g, h, r)
    ensures h.alive == g.alive
  {
  }

  // ---- one day ------------------------------------------------------------------------------

  lemma OneSpeech(b: Board, g: Game, s: Seat) returns (h: Game)
    requires Reachable(b, g) && MaySpeak(b, g, s)
    ensures Reachable(b, h) && SpeechMade(g, h, s) && h.used == g.used + 1
  {
    hide Reachable, MaySpeak, MayAsk, Legal, Step, NewEvent;
    SpeechMayAsk(b, g, s);
    AskEffect(b, g, SpeechSlot(s), LiveSuccess, None);
    var mid := Step(b, g, Ask(SpeechSlot(s), LiveSuccess, None));
    SpeakEffect(b, g, mid, s);
    h := Step(b, mid, Speak(s));
    SpeechIsMade(b, g, mid, h, s);
  }

  lemma {:induction false} Speeches(b: Board, g: Game, rnd: nat, speakers: seq<Seat>, i: nat) returns (h: Game)
    requires Reachable(b, g) && SpeakersReady(b, g, rnd, speakers) && i <= |speakers|
    requires forall s :: s in g.alive ==> s < |b.roles|
    ensures Reachable(b, h) && Spoken(g, h, speakers, i) && h.used == g.used + i
  {
    hide Reachable, SpeakersReady, MaySpeak, SpeechMade, Spoken, Morning;
    if i == 0 {
      h := g;
      NoSpeechYet(g, speakers, b, rnd);
    } else {
      var mid := Speeches(b, g, rnd, speakers, i - 1);
      NextSpeaker(b, g, mid, rnd, speakers, i - 1);
      h := OneSpeech(b, mid, speakers[i - 1]);
      SpokenNext(g, mid, h, speakers, i - 1);
    }
  }

  lemma NoSpeechYet(g: Game, speakers: seq<Seat>, b: Board, rnd: nat)
    ensures Spoken(g, g, speakers, 0)
  {
  }

  /** Everybody votes for the last seat, which votes for the first. */
  function Choice(k: nat, voter: Seat): Seat
    requires k >= 1
  {
    if voter == k - 1 then 0 else k - 1
  }

  /** The ballots after the first i votes. */
  ghost predicate Tallied(k: nat, ballots: multiset<Seat>, i: nat)
    requires k >= 1
  {
    && (i < k ==> ballots[k - 1] == i && forall s: Seat :: s != k - 1 ==> ballots[s] == 0)
    && (i == k ==> ballots[k - 1] == k - 1 && forall s: Seat :: s != k - 1 ==> ballots[s] <= 1)
  }

  lemma {:induction false} Votes(b: Board, g: Game, rnd: nat, voters: seq<Seat>, i: nat) returns (h: Game)
    requires Reachable(b, g) && VotersReady(b, g, rnd, voters) && i <= |voters|
    requires |voters| >= 2 && g.alive == Below(|voters|) && |voters| <= |b.roles|
    requires forall j :: 0 <= j < |voters| ==> voters[j] == j
    ensures Reachable(b, h) && Balloted(b, g, h, voters, i) && h.used == g.used + i
    ensures Tallied(|voters|, h.table.ballots, i)
  {
    hide Reachable, VotersReady, Balloted, TurnTaken, TurnReady, MayAsk, Below;
    if i == 0 {
      VotersRound(b, g, rnd, voters);
      NoVoteYet(b, g, rnd, voters);
      h := g;
    } else {
      var mid := Votes(b, g, rnd, voters, i - 1);
      NextVoter(b, g, mid, rnd, voters, i - 1);
      var target := Choice(|voters|, i - 1);
      h := TurnGranted(b, mid, PlayerVote, i - 1, target);
      VotersHeardNobody(b, g, rnd, voters);
      BallotCast(b, g, mid, h, voters, i - 1, target);
    }
  }

  lemma NoVoteYet(b: Board, g: Game, rnd: nat, voters: seq<Seat>)
    requires VotersReady(b, g, rnd, voters)
    ensures Balloted(b, g, g, voters, 0)
  {
    hide NoneToFire, WinCheck, AllDid;
  }

  lemma VotersHeardNobody(b: Board, g: Game, rnd: nat, voters: seq<Seat>)
    requires VotersReady(b, g, rnd, voters)
    ensures g.table.heard.None?
  {
  }

  lemma SpokenSame(g: Game, h: Game, speakers: seq<Seat>)
    requires Spoken(g, h, speakers, |speakers|)
    ensures h.alive == g.alive && h.lastGuarded == g.lastGuarded
  {
  }

  lemma BallotedSame(b: Board, g: Game, h: Game, voters: seq<Seat>)
    requires Balloted(b, g, h, voters, |voters|)
    ensures h.alive == g.alive && h.lastGuarded == g.lastGuarded
  {
  }

  /** Everybody speaks and the scribe reads it. */
  lemma DayIsHeard(b: Board, g: Game, rnd: nat, k: nat) returns (h: Game)
    requires Reachable(b, g) && Morning(b, g, rnd) && k <= |b.roles| && g.alive == Below(k)
    ensures Reachable(b, h) && BeforeVote(b, h, rnd) && h.alive == g.alive && h.lastGuarded == g.lastGuarded
    ensures h.used == g.used + k + 1
  {
    hide Reachable, Morning, SpeakersReady, BeforeVote, Spoken, Step, Legal, AliveInSeatOrder, Below;
    SpeakersAreReady(b, g, rnd);
    SeatOrder(b, k);
    var speakers := AliveInSeatOrder(b, g.alive);
    var mid := Speeches(b, g, rnd, speakers, |speakers|);
    SpokenSame(g, mid, speakers);
    SpeechesDone(b, g, mid, rnd, speakers);
    ScribeEffect(b, mid, rnd, ScaffoldSuccess);
    h := Step(b, mid, AskScribe(ScaffoldSuccess));
  }

  lemma SeatOrder(b: Board, k: nat)
    requires k <= |b.roles|
    ensures |AliveInSeatOrder(b, Below(k))| == k && forall i :: 0 <= i < k ==> AliveInSeatOrder(b, Below(k))[i] == i
  {
    FirstSeats(|b.roles|, k);
  }

  /** The last seat gets every vote but its own. */
  lemma DayVotes(b: Board, g: Game, rnd: nat, k: nat) returns (h: Game)
    requires Reachable(b, g) && BeforeVote(b, g, rnd) && 3 <= k <= |b.roles| && g.alive == Below(k)
    ensures Reachable(b, h) && Doomed(b, h, rnd, k - 1) && h.alive == g.alive && h.lastGuarded == g.lastGuarded
    ensures h.used == g.used + k
  {
    hide Reachable, BeforeVote, VotersReady, Balloted, Doomed, AliveInSeatOrder, Below, Leaders;
    VotersAreReady(b, g, rnd);
    SeatOrder(b, k);
    var voters := AliveInSeatOrder(b, g.alive);
    h := Votes(b, g, rnd, voters, k);
    BallotedSame(b, g, h, voters);
    LeaderIs(h.table.ballots, |b.roles|, k - 1);
    DoomedAfterVote(b, g, h, rnd, voters, k - 1);
  }

  lemma OneFewer(k: nat)
    requires k >= 1
    ensures Below(k) - {k - 1} == Below(k - 1)
  {
  }

  /** One round: a quiet night, a full day, and the last seat is voted out. */
  lemma RoundPasses(b: Board, g: Game, rnd: nat) returns (h: Game)
    requires NightBegins(b, g, rnd)
    ensures Reachable(b, h) && DayClosing(b, h, rnd) && h.alive == Below(|b.roles| - rnd) && WinCheck(b, h.alive).None?
    ensures h.used == Charges(|b.roles|, rnd) && h.lastGuarded == Some(Shield(rnd))
  {
    var k := |b.roles| - rnd + 1;
    hide Reachable, NightOver, Morning, BeforeVote, Doomed, DayClosing, FreshNight, WinCheck, Below, Shield, Step, Legal,
      NewEvent, Leaders, JustDied, OnlyPending;
    var night := QuietNight(b, g, rnd);
    VillageSides(b, k);
    SunriseEffect(b, night, rnd);
    var heard := DayIsHeard(b, Step(b, night, Sunrise), rnd, k);
    var voted := DayVotes(b, heard, rnd, k);
    OustLegal(b, voted, rnd, k - 1);
    OustEffect(b, voted, rnd, k - 1);
    h := Step(b, voted, Oust(k - 1));
    OneFewer(k);
    VillageSides(b, k - 1);
    ClosesWithoutHunters(b, h, rnd);
  }

  lemma ClosesWithoutHunters(b: Board, h: Game, rnd: nat)
    requires Village(b) && DayEnding(h, rnd)
    ensures DayClosing(b, h, rnd)
  {
    NoHunters(b, h);
    hide NoneToFire;
  }

  lemma FirstNight(b: Board)
    requires Village(b)
    ensures NightBegins(b, Opening(b), 1)
  {
    hide Reachable, FreshNight, Below;
    ReachStart(b);
    OpeningIsFresh(b);
  }

  lemma ShieldMoves(rnd: nat)
    ensures Shield(rnd + 1) != Shield(rnd)
  {
  }

  lemma NightOf(b: Board, g: Game, rnd: nat)
    requires Village(b) && Reachable(b, g) && FreshNight(b, g, rnd) && 1 <= rnd && rnd + 3 <= |b.roles|
    requires g.alive == Below(|b.roles| - rnd + 1) && g.lastGuarded != Some(Shield(rnd))
    requires g.used == Charges(|b.roles|, rnd - 1)
    ensures NightBegins(b, g, rnd)
  {
    hide Reachable, FreshNight, Village, Below, Charges, Shield;
  }

  lemma NextNight(b: Board, g: Game, rnd: nat)
    requires 1 <= rnd && rnd + 4 <= |b.roles| && g.alive == Below(|b.roles| - rnd)
    requires Village(b) && Reachable(b, g) && DayClosing(b, g, rnd) && WinCheck(b, g.alive).None?
    requires g.used == Charges(|b.roles|, rnd) && g.lastGuarded == Some(Shield(rnd))
    ensures Legal(b, g, Nightfall) && NightBegins(b, Step(b, g, Nightfall), rnd + 1)
  {
    hide *;
    NightfallEffect(b, g, rnd);
    ShieldMoves(rnd);
    NightOf(b, Step(b, g, Nightfall), rnd + 1);
  }

  /** The village stays undecided for as many rounds as it has seats to spare. */
  lemma {:induction false} LongGame(b: Board, rounds: nat) returns (g: Game)
    requires Village(b) && 1 <= rounds && rounds + 3 <= |b.roles|
    ensures Reachable(b, g) && DayClosing(b, g, rounds) && g.alive == Below(|b.roles| - rounds)
    ensures WinCheck(b, g.alive).None? && g.used == Charges(|b.roles|, rounds) && g.lastGuarded == Some(Shield(rounds))
    decreases rounds
  {
    hide Reachable, DayClosing, WinCheck, Below, Charges, Shield, Village, Opening, Step, Legal;
    if rounds == 1 {
      FirstNight(b);
      g := RoundPasses(b, Opening(b), 1);
    } else {
      var h := LongGame(b, rounds - 1);
      NextNight(b, h, rounds - 1);
      g := RoundPasses(b, Step(b, h, Nightfall), rounds);
    }
  }

  // ---- how far it can go ----------------------------------------------------------------------

  /** On some board of n seats that the engine takes there is a game still undecided after this many full rounds. */
  ghost predicate CanOutlast(n: nat, rounds: nat) {
    exists b: Board, g :: |b.roles| == n && Supported(b, {}) && Reachable(b, g) && DayClosing(b, g, rounds) && WinCheck(b, g.alive).None?
  }

  lemma VillageIsSupported(b: Board)
    requires Village(b)
    ensures Supported(b, {})
  {
    hide Below;
    GuardIsAlone(b, Seats(b));
    NoSeat(|b.roles|, RoleAmong(b, Seats(b), Seer));
    NoSeat(|b.roles|, RoleAmong(b, Seats(b), Witch));
  }

  /** The round cap is a possible end exactly for caps at most the number of players minus three. */
  lemma RoundCapExactly(n: nat, rounds: nat)
    requires rounds >= 1
    ensures CanOutlast(n, rounds) <==> rounds + 3 <= n
  {
    hide Reachable, DayClosing, WinCheck, Below, Charges, Shield, Village, Supported;
    if rounds + 3 <= n {
      var b := VillageOf(n);
      VillageIsSupported(b);
      var g := LongGame(b, rounds);
      assert CanOutlast(n, rounds);
    }
    if CanOutlast(n, rounds) {
      var b: Board, g :| |b.roles| == n && Supported(b, {}) && Reachable(b, g) && DayClosing(b, g, rounds) && WinCheck(b, g.alive).None?;
      DayClosingFacts(b, g, rounds);
      UndecidedRoundsBounded(b, g, rounds);
    }
  }

  /** Some run charges its limit up and is then to be charged once more, in a round not later than this one. */
  ghost predicate Overdrawn(b: Board, g: Game, m: Move, limit: nat, rounds: nat) {
    && Reachable(b, g) && Legal(b, g, m) && (m.Ask? || m.AskScribe?)
    && g.used == limit && g.table.round <= rounds
  }

  /** On the way to a state with more charges than the limit some charge is the one too many. */
  lemma {:induction false} LimitIsCrossed(b: Board, moves: seq<Move>, limit: nat) returns (g: Game, m: Move)
    requires Play(b, moves).Some? && Play(b, moves).value.used > limit
    ensures Overdrawn(b, g, m, limit, Play(b, moves).value.table.round)
  {
    hide Legal, NextTable, NewEvents, NewDecisions, NewConsensus, NextTurns;
    var init, last := moves[..|moves| - 1], moves[|moves| - 1];
    var before := Play(b, init).value;
    ClockFrame(before, last);
    if before.used > limit {
      g, m := LimitIsCrossed(b, init, limit);
    } else {
      g, m := before, last;
      assert Play(b, init) == Some(g);
    }
  }

  /**
    The budget can run out: for every limit below the charges of the long game there is a run on n seats that is to be
    charged beyond it within these rounds.
  */
  lemma BudgetCanRunOut(n: nat, rounds: nat, limit: nat)
    requires 1 <= rounds && rounds + 3 <= n && limit < Charges(n, rounds)
    ensures exists b: Board, g, m :: |b.roles| == n && Supported(b, {}) && Overdrawn(b, g, m, limit, rounds)
  {
    hide WinCheck, Below, Charges, Shield, Village, Supported, NoneToFire;
    var b := VillageOf(n);
    VillageIsSupported(b);
    var end := LongGame(b, rounds);
    var moves :| Play(b, moves) == Some(end);
    hide Overdrawn, Play;
    var g, m := LimitIsCrossed(b, moves, limit);
    assert Overdrawn(b, g, m, limit, rounds);
  }
}
