/** The day: announcement, speeches, the scribe, the vote, the elimination, and the turn of the round. */
module DaySteps {
  import opened Logs
  import opened Rules
  import opened Referee
  import opened RunInvariants
  import opened LogViews
  import opened DutyInvariants
  import opened RunTheorems
  import opened EngineSteps
  import opened DeathSteps

  // ---- where a round stands ---------------------------------------------------------

  /** A fresh night: nothing asked, nothing done, everybody counted at dawn is alive. */
  ghost predicate FreshNight(b: Board, g: Game, rnd: nat) {
    && NoneToFire(b, g) && g.table.heard.None? && g.table.bids == []
    && g.table.stage.NightStage? && g.table.round == rnd && g.table.dawn == g.alive && g.table.aim.None?
    && g.table.asked == {} && g.table.acted == {} && g.table.ballots == multiset{} && g.table.ousted.None?
    && g.table.victim.None? && !g.table.saved && g.table.poison.None? && g.table.guarded.None?
  }

  lemma FreshIsIdle(b: Board, g: Game, rnd: nat, r: Role)
    requires FreshNight(b, g, rnd)
    ensures Idle(b, g, r)
  {
  }

  lemma OpeningIsFresh(b: Board)
    ensures FreshNight(b, Opening(b), 1)
  {
  }

  /** The night so far: intents may be on the table, nobody has died. */
  ghost predicate NightUnderWay(b: Board, g: Game, rnd: nat) {
    && NoneToFire(b, g) && g.table.heard.None?
    && g.table.stage.NightStage? && g.table.round == rnd && g.table.dawn == g.alive && g.table.aim.None?
    && g.table.ousted.None?
  }

  lemma RoleKeepsNight(b: Board, g: Game, h: Game, r: Role, rnd: nat)
    requires NightUnderWay(b, g, rnd) && RoleOnly(b, g, h, r)
    ensures NightUnderWay(b, h, rnd) && g.events <= h.events && h.table.dawn == g.table.dawn
    ensures g.table.acted <= h.table.acted && (r != Werewolf ==> h.table.bids == g.table.bids)
    ensures h.table.saved == g.table.saved && h.table.poison == g.table.poison
    ensures h.table.saveUsed == g.table.saveUsed && h.table.poisonUsed == g.table.poisonUsed
  {
  }

  lemma WitchKeepsNight(b: Board, g: Game, h: Game, rnd: nat)
    requires NightUnderWay(b, g, rnd) && WitchOnlyActed(g, h)
    ensures NightUnderWay(b, h, rnd) && g.events <= h.events && h.table.dawn == g.table.dawn
    ensures g.table.acted <= h.table.acted
    ensures h.table.victim == g.table.victim && h.table.guarded == g.table.guarded
  {
  }

  /** Turns once taken stay taken while the round goes on. */
  lemma TurnsStayTaken(b: Board, t: Table, t': Table)
    requires t'.dawn == t.dawn && t.acted <= t'.acted && (t.victim.Some? ==> t'.victim.Some?)
    ensures GuardDone(b, t) ==> GuardDone(b, t')
    ensures WolvesDone(b, t) ==> WolvesDone(b, t')
    ensures SeerDone(b, t) ==> SeerDone(b, t')
  {
    hide WinCheck;
  }

  /** The night is settled: everybody has had a turn, the condemned are dead, no shot is outstanding. */
  ghost predicate NightOver(b: Board, g: Game, rnd: nat) {
    && g.table.stage.NightStage? && g.table.round == rnd && g.table.aim.None? && g.table.heard.None?
    && g.table.ousted.None? && DuskSettled(g) && NightTurnsTaken(b, g.table) && NoneToFire(b, g)
  }

  lemma SettledIsOver(b: Board, g: Game, h: Game, rnd: nat)
    requires NightUnderWay(b, g, rnd) && Aftermath(g, h) && NightTurnsTaken(b, g.table) && NoneToFire(b, h)
    requires forall s :: s in Settlement(g.table).deaths ==> s !in h.alive
    ensures NightOver(b, h, rnd)
  {
    hide NightTurnsTaken, NoneToFire, ResolveNight;
    AftermathSettles(g, h);
    AftermathKeepsTurns(b, g, h);
  }

  /** A day on which nobody has been asked, voted or eliminated yet. */
  ghost predicate Morning(b: Board, g: Game, rnd: nat) {
    && g.table.stage.DayStage? && g.table.round == rnd && g.table.aim.None? && g.table.heard.None?
    && g.table.ousted.None? && NoneToFire(b, g)
    && (forall slot :: slot in g.table.asked ==> slot.NightSlot? || slot.WitchSlot?)
    && (forall s, d :: (s, d) in g.table.acted ==> !d.Speaking? && !d.Voting?)
    && g.table.ballots == multiset{}
    && WinCheck(b, g.alive).None?
  }

  lemma NightFacts(b: Board, g: Game)
    requires Reachable(b, g)
    ensures NightInv(g.table)
  {
    hide Reachable, NightInv;
    ReachableInv(b, g);
  }

  lemma SunriseWrites(b: Board, g: Game, rnd: nat)
    requires NightOver(b, g, rnd) && WinCheck(b, g.alive).None?
    ensures Legal(b, g, Sunrise)
    ensures Step(b, g, Sunrise) ==
            g.(events := g.events + [NewEvent(b, |g.events|, rnd, Day, DayAnnouncement, System, Nobody, Public)],
               table := g.table.(stage := DayStage))
  {
    hide WinCheck, ResolveNight, NewEvent, NightTurnsTaken, NoneToFire;
  }

  lemma SunriseEffect(b: Board, g: Game, rnd: nat)
    requires Reachable(b, g) && NightOver(b, g, rnd) && WinCheck(b, g.alive).None?
    ensures Legal(b, g, Sunrise) && Reachable(b, Step(b, g, Sunrise))
    ensures Step(b, g, Sunrise) ==
            g.(events := g.events + [NewEvent(b, |g.events|, rnd, Day, DayAnnouncement, System, Nobody, Public)],
               table := g.table.(stage := DayStage))
    ensures Morning(b, Step(b, g, Sunrise), rnd)
  {
    hide Reachable, Legal, Step, WinCheck, NewEvent, DuskSettled, NightTurnsTaken;
    NightFacts(b, g);
    SunriseWrites(b, g, rnd);
    ReachStep(b, g, Sunrise);
  }

  // ---- speeches ----------------------------------------------------------------------

  /** The first i speakers have spoken: only they were asked, nothing else changed. */
  ghost predicate Spoken(g: Game, h: Game, speakers: seq<Seat>, i: nat)
    requires i <= |speakers|
  {
    && h == g.(events := h.events, turns := h.turns, used := h.used, windows := h.windows, table := h.table)
    && g.events <= h.events
    && h.table == g.table.(asked := h.table.asked, polled := h.table.polled, acted := h.table.acted)
    && (forall slot :: slot in h.table.asked && slot !in g.table.asked ==> slot.SpeechSlot? && slot.seat in speakers[..i])
    && (forall s, d :: (s, d) in h.table.acted && (s, d) !in g.table.acted ==> d.Speaking? && s in speakers[..i])
    && (forall j :: 0 <= j < i ==> (speakers[j], Speaking) in h.table.acted)
  }

  ghost predicate SpeakersReady(b: Board, g: Game, rnd: nat, speakers: seq<Seat>) {
    Morning(b, g, rnd) && speakers == AliveInSeatOrder(b, g.alive) && Ordered(speakers)
  }

  lemma SpeakersAreReady(b: Board, g: Game, rnd: nat)
    requires Morning(b, g, rnd)
    ensures SpeakersReady(b, g, rnd, AliveInSeatOrder(b, g.alive)) && Spoken(g, g, AliveInSeatOrder(b, g.alive), 0)
  {
    hide WinCheck, NoneToFire;
    SeatsWhereOrdered(|b.roles|, Among(g.alive));
    assert AliveInSeatOrder(b, g.alive) == SeatsWhere(|b.roles|, Among(g.alive));
  }

  /** This seat may speak: by day, alive, its turn has come, and not asked for a speech today. */
  predicate MaySpeak(b: Board, g: Game, s: Seat) {
    && g.table.stage.DayStage? && g.table.aim.None? && g.table.heard.None? && s in g.alive && s < |b.roles|
    && SpeechSlot(s) !in g.table.asked && TurnReached(g, s, Speaking)
  }

  /** In an ordered list whoever is smaller stands earlier. */
  lemma SmallerIsEarlier(seats: seq<Seat>, i: nat, x: Seat)
    requires Ordered(seats) && i < |seats| && x in seats && x < seats[i]
    ensures x in seats[..i]
  {
    var j :| 0 <= j < |seats| && seats[j] == x;
    assert j < i;
  }

  lemma NextSpeaker(b: Board, g: Game, h: Game, rnd: nat, speakers: seq<Seat>, i: nat)
    requires i < |speakers| && SpeakersReady(b, g, rnd, speakers) && Spoken(g, h, speakers, i)
    requires forall s :: s in g.alive ==> s < |b.roles|
    ensures MaySpeak(b, h, speakers[i]) && h.table.round == rnd
  {
    hide WinCheck, NoneToFire;
    assert speakers[i] in speakers;
    forall x | x in h.alive && x < speakers[i] ensures (x, Speaking) in h.table.acted {
      SmallerIsEarlier(speakers, i, x);
    }
  }

  lemma SpeakersRound(b: Board, g: Game, rnd: nat, speakers: seq<Seat>)
    requires SpeakersReady(b, g, rnd, speakers)
    ensures g.table.round == rnd
  {
  }

  lemma MaySpeakFacts(b: Board, g: Game, s: Seat)
    requires MaySpeak(b, g, s)
    ensures g.table.stage.DayStage? && g.table.aim.None? && g.table.heard.None? && s < |b.roles|
  {
    hide TurnReached;
  }

  lemma SpeechMayAsk(b: Board, g: Game, s: Seat)
    requires MaySpeak(b, g, s)
    ensures MayAsk(b, g, SpeechSlot(s))
  {
    hide KillAgreed, Leaders, WinCheck, ResolveNight;
  }

  lemma SpeakEffect(b: Board, g: Game, h: Game, s: Seat)
    requires Reachable(b, h) && MaySpeak(b, g, s) && AfterAsk(g, h, SpeechSlot(s)) && h.table.heard.None?
    ensures Legal(b, h, Speak(s)) && Reachable(b, Step(b, h, Speak(s)))
    ensures Step(b, h, Speak(s)) ==
            h.(events := h.events + [NewEvent(b, |h.events|, h.table.round, Day, PlayerSpeech, Player(s), Nobody, Public)],
               table := h.table.(acted := h.table.acted + {(s, Speaking)}))
  {
    hide Play, ResolveNight, KillAgreed, Leaders, WinCheck, EventId;
    ReachStep(b, h, Speak(s));
  }

  /** One speech: its seat was asked at most once, and the speech is noted. */
  predicate SpeechMade(g: Game, h: Game, s: Seat) {
    && h == g.(events := h.events, turns := h.turns, used := h.used, windows := h.windows, table := h.table)
    && g.events <= h.events
    && h.table == g.table.(asked := h.table.asked, polled := h.table.polled, acted := h.table.acted)
    && h.table.asked <= g.table.asked + {SpeechSlot(s)}
    && h.table.acted == g.table.acted + {(s, Speaking)}
  }

  lemma SpeechIsMade(b: Board, g: Game, mid: Game, h: Game, s: Seat)
    requires MaySpeak(b, g, s) && AfterAsk(g, mid, SpeechSlot(s)) && mid.table.heard.None?
    requires mid.events <= h.events && h == mid.(events := h.events, table := h.table)
    requires h.table == mid.table.(acted := mid.table.acted + {(s, Speaking)})
    ensures SpeechMade(g, h, s)
  {
  }

  lemma SpokenNext(g: Game, h: Game, k: Game, speakers: seq<Seat>, i: nat)
    requires i < |speakers| && Spoken(g, h, speakers, i) && SpeechMade(h, k, speakers[i])
    ensures Spoken(g, k, speakers, i + 1)
  {
    assert speakers[..i + 1] == speakers[..i] + [speakers[i]];
  }

  // ---- the vote -----------------------------------------------------------------------

  /** Ready to vote: nobody was asked for a vote or voted yet, and the game is undecided. */
  ghost predicate BeforeVote(b: Board, g: Game, rnd: nat) {
    && g.table.stage.DayStage? && g.table.round == rnd && g.table.aim.None? && g.table.heard.None?
    && g.table.ousted.None? && NoneToFire(b, g) && AllDid(g.alive, g.table, Speaking)
    && (forall slot :: slot in g.table.asked ==> !slot.VoteSlot?)
    && (forall s, d :: (s, d) in g.table.acted ==> !d.Voting?)
    && g.table.ballots == multiset{}
    && WinCheck(b, g.alive).None?
  }

  lemma SpeechesDone(b: Board, g: Game, h: Game, rnd: nat, speakers: seq<Seat>)
    requires SpeakersReady(b, g, rnd, speakers) && Spoken(g, h, speakers, |speakers|)
    requires forall s :: s in g.alive ==> s < |b.roles|
    ensures BeforeVote(b, h, rnd) && ScribeSlot !in h.table.asked
  {
    hide WinCheck;
    forall s | s in h.alive ensures (s, Speaking) in h.table.acted {
      assert s in speakers;
    }
  }

  lemma ScribeKeepsShots(b: Board, g: Game, h: Game)
    requires NoneToFire(b, g) && h.committed == g.committed
    requires h.table.fired == g.table.fired && h.table.causes == g.table.causes
    ensures NoneToFire(b, h)
  {
  }

  lemma ScribeEffect(b: Board, g: Game, rnd: nat, kind: TurnKind)
    requires Reachable(b, g) && BeforeVote(b, g, rnd) && ScribeSlot !in g.table.asked
    requires kind.ScaffoldSuccess? || kind.ScaffoldFallback?
    ensures Legal(b, g, AskScribe(kind)) && Reachable(b, Step(b, g, AskScribe(kind)))
    ensures Step(b, g, AskScribe(kind)) ==
            g.(turns := g.turns + [Turn(RequestKey(rnd, ScribeSlot), false, kind)], used := g.used + 1,
               table := g.table.(asked := g.table.asked + {ScribeSlot}))
    ensures BeforeVote(b, Step(b, g, AskScribe(kind)), rnd)
  {
    hide Play, WinCheck, ResolveNight, KillAgreed, Leaders, NoneToFire;
    ReachStep(b, g, AskScribe(kind));
    ScribeKeepsShots(b, g, Step(b, g, AskScribe(kind)));
  }

  lemma VotersHeard(b: Board, g: Game, rnd: nat)
    requires BeforeVote(b, g, rnd)
    ensures g.table.heard.None? && g.table.ballots == multiset{}
  {
  }

  /** Before the vote everybody alive has spoken today, so the scribe always has something to read. */
  lemma SomebodySpoke(b: Board, g: Game, rnd: nat)
    requires Reachable(b, g) && BeforeVote(b, g, rnd)
    ensures exists i :: 0 <= i < |g.events| && g.events[i].kind.PlayerSpeech? && g.events[i].round == rnd
  {
    hide Reachable, WinCheck, NoneToFire, StageInv, HonestInv, Select;
    DutiesOf(b, g);
    UndecidedHasThree(b, g.alive);
    var s :| s in g.alive;
    assert (s, Speaking) in g.table.acted;
    assert DeedsBy(g.events, rnd, s, Speaking) == 1;
    var e := Select(TurnView(rnd, Player(s), Speaking), g.events)[0];
    SelectedAre(TurnView(rnd, Player(s), Speaking), g.events, e);
  }

  /** The first i voters were heard; every one of them cast a ballot. */
  ghost predicate Balloted(b: Board, g: Game, h: Game, voters: seq<Seat>, i: nat)
    requires i <= |voters|
  {
    && h == g.(events := h.events, decisions := h.decisions, turns := h.turns, used := h.used, windows := h.windows,
               table := h.table)
    && g.events <= h.events
    && h.table == g.table.(asked := h.table.asked, polled := h.table.polled, acted := h.table.acted,
                           ballots := h.table.ballots)
    && g.table.asked <= h.table.asked && g.table.acted <= h.table.acted
    && (forall j :: 0 <= j < i ==> (voters[j], Voting) in h.table.acted)
    && (forall slot :: slot in h.table.asked && slot !in g.table.asked ==> slot.VoteSlot? && slot.seat in voters[..i])
    && (forall s, d :: (s, d) in h.table.acted && (s, d) !in g.table.acted ==> d.Voting? && s in voters[..i])
    && |h.table.ballots| == i
    && (forall s :: s in h.table.ballots ==> s in g.alive)
  }

  ghost predicate VotersReady(b: Board, g: Game, rnd: nat, voters: seq<Seat>) {
    BeforeVote(b, g, rnd) && voters == AliveInSeatOrder(b, g.alive) && Ordered(voters)
  }

  lemma VotersAreReady(b: Board, g: Game, rnd: nat)
    requires BeforeVote(b, g, rnd)
    ensures VotersReady(b, g, rnd, AliveInSeatOrder(b, g.alive)) && Balloted(b, g, g, AliveInSeatOrder(b, g.alive), 0)
    ensures AliveInSeatOrder(b, g.alive) != []
  {
    hide NoneToFire, AllDid;
    SeatsWhereOrdered(|b.roles|, Among(g.alive));
    assert AliveInSeatOrder(b, g.alive) == SeatsWhere(|b.roles|, Among(g.alive));
    SomebodyLives(b, g.alive);
  }

  lemma SomebodyLives(b: Board, alive: set<Seat>)
    requires WinCheck(b, alive).None?
    ensures AliveInSeatOrder(b, alive) != []
  {
    var others := LivingNonWolves(b, alive);
    assert others[0] in others;
    assert others[0] in AliveInSeatOrder(b, alive);
  }

  lemma VotersRound(b: Board, g: Game, rnd: nat, voters: seq<Seat>)
    requires VotersReady(b, g, rnd, voters)
    ensures g.table.round == rnd && g.table.ballots == multiset{}
  {
  }

  lemma VoterStays(b: Board, h: Game, k: Game, voter: Seat, target: Seat)
    requires TurnTaken(b, h, k, PlayerVote, voter, target)
    ensures k.alive == h.alive && k.table.round == h.table.round
  {
  }

  lemma VoterSkips(h: Game, k: Game, voter: Seat)
    requires TurnSkipped(h, k, PlayerVote, voter)
    ensures k.alive == h.alive
  {
  }

  lemma NextVoter(b: Board, g: Game, h: Game, rnd: nat, voters: seq<Seat>, i: nat)
    requires i < |voters| && VotersReady(b, g, rnd, voters) && Balloted(b, g, h, voters, i)
    requires forall s :: s in g.alive ==> s < |b.roles|
    ensures TurnReady(b, h, PlayerVote, voters[i]) && MayAsk(b, h, TurnSlot(PlayerVote, voters[i]))
    ensures h.alive == g.alive && h.table.round == rnd && WinCheck(b, h.alive).None? && g.events <= h.events
  {
    hide WinCheck, KillAgreed, Leaders, ResolveNight, NoneToFire;
    assert voters[i] in voters;
    forall x | x in h.alive && x < voters[i] ensures (x, Voting) in h.table.acted {
      SmallerIsEarlier(voters, i, x);
    }
  }

  lemma BallotCast(b: Board, g: Game, h: Game, k: Game, voters: seq<Seat>, i: nat, target: Seat)
    requires i < |voters| && Balloted(b, g, h, voters, i) && TurnTaken(b, h, k, PlayerVote, voters[i], target)
    requires target in g.alive && g.table.heard.None?
    ensures Balloted(b, g, k, voters, i + 1) && k.table.ballots == h.table.ballots + multiset{target}
  {
    assert voters[..i + 1] == voters[..i] + [voters[i]];
    forall j | 0 <= j < i + 1 ensures (voters[j], Voting) in k.table.acted {
    }
  }

  /** Every living seat voted, so the leaders are living seats and there is at least one. */
  lemma VoteDecides(b: Board, g: Game, h: Game, rnd: nat, voters: seq<Seat>)
    requires VotersReady(b, g, rnd, voters) && voters != [] && Balloted(b, g, h, voters, |voters|)
    requires forall s :: s in g.alive ==> s < |b.roles|
    ensures h.table.ballots != multiset{}
    ensures Leaders(h.table.ballots, |b.roles|) != []
    ensures forall s :: s in Leaders(h.table.ballots, |b.roles|) ==> s in h.alive
  {
    hide WinCheck;
    assert |h.table.ballots| > 0;
    var s :| s in h.table.ballots;
    LeadersNonempty(h.table.ballots, |b.roles|, s);
    forall t | t in Leaders(h.table.ballots, |b.roles|) ensures t in h.alive {
      LeadersExactly(h.table.ballots, |b.roles|, t);
    }
  }

  /** The tally is closed and this living seat leads it. */
  predicate Doomed(b: Board, g: Game, rnd: nat, s: Seat) {
    && g.table.stage.DayStage? && g.table.round == rnd && g.table.aim.None? && g.table.heard.None?
    && g.table.ousted.None? && s in g.alive && s in Leaders(g.table.ballots, |b.roles|)
    && NoneToFire(b, g) && AllDid(g.alive, g.table, Speaking) && AllDid(g.alive, g.table, Voting)
  }

  lemma DoomedAfterVote(b: Board, g: Game, h: Game, rnd: nat, voters: seq<Seat>, s: Seat)
    requires VotersReady(b, g, rnd, voters) && Balloted(b, g, h, voters, |voters|)
    requires s in h.alive && s in Leaders(h.table.ballots, |b.roles|)
    requires forall s :: s in g.alive ==> s < |b.roles|
    ensures Doomed(b, h, rnd, s)
  {
    hide WinCheck, Leaders;
    forall x | x in h.alive ensures (x, Voting) in h.table.acted {
      assert x in voters;
    }
  }

  lemma OustLegal(b: Board, g: Game, rnd: nat, s: Seat)
    requires Doomed(b, g, rnd, s)
    ensures Legal(b, g, Oust(s))
  {
    hide Leaders, NoneToFire, AllDid;
  }

  lemma OustEffect(b: Board, g: Game, rnd: nat, s: Seat)
    requires Reachable(b, g) && Doomed(b, g, rnd, s) && Legal(b, g, Oust(s))
    ensures var h := Step(b, g, Oust(s));
            && Reachable(b, h)
            && h == g.(alive := g.alive - {s}, committed := g.committed + {s},
                       events := g.events +
                         [NewEvent(b, |g.events|, rnd, Day, PlayerEliminated, System, Player(s), Everyone),
                          NewEvent(b, |g.events| + 1, rnd, Day, RoleRevealed, System, Player(s), Everyone)],
                       table := g.table.(causes := g.table.causes[s := VotedOut], ousted := Some(s)))
            && JustDied(b, h, s, VotedOut) && DayEnding(h, rnd) && s !in g.committed && OnlyPending(b, h, s)
  {
    hide Play, Legal, Leaders, EventId, NoneToFire, OnlyPending, AllDid;
    LivingUntouched(b, g, s);
    ReachStep(b, g, Oust(s));
    OneMorePending(b, g, Step(b, g, Oust(s)), s, VotedOut);
  }

  /** Somebody was eliminated today. */
  predicate DayEnding(g: Game, rnd: nat) {
    && g.table.stage.DayStage? && g.table.round == rnd && g.table.aim.None? && g.table.heard.None?
    && g.table.ousted.Some?
  }

  /** The day is over: whatever the elimination set off has been answered. */
  predicate DayClosing(b: Board, g: Game, rnd: nat) { DayEnding(g, rnd) && NoneToFire(b, g) }

  lemma DayClosingFacts(b: Board, g: Game, rnd: nat)
    requires DayClosing(b, g, rnd)
    ensures g.table.round == rnd && g.table.ousted.Some?
  {
  }

  lemma AftermathCloses(b: Board, g: Game, h: Game, rnd: nat)
    requires DayEnding(g, rnd) && Aftermath(g, h) && NoneToFire(b, h)
    ensures DayClosing(b, h, rnd)
  {
  }

  lemma NightfallEffect(b: Board, g: Game, rnd: nat)
    requires Reachable(b, g) && DayClosing(b, g, rnd) && WinCheck(b, g.alive).None?
    ensures Legal(b, g, Nightfall) && Reachable(b, Step(b, g, Nightfall))
    ensures Step(b, g, Nightfall) == g.(table := NextTable(g, Nightfall))
    ensures FreshNight(b, Step(b, g, Nightfall), rnd + 1)
    ensures NextTable(g, Nightfall).saveUsed == g.table.saveUsed && NextTable(g, Nightfall).poisonUsed == g.table.poisonUsed
  {
    hide Play, Leaders, KillAgreed, ResolveNight, WinCheck;
    ReachStep(b, g, Nightfall);
  }

  lemma FinishEffect(b: Board, g: Game, rnd: nat, winner: Winner)
    requires Reachable(b, g) && (NightOver(b, g, rnd) || DayClosing(b, g, rnd)) && WinCheck(b, g.alive) == Some(winner)
    ensures Legal(b, g, Finish(winner)) && Reachable(b, Step(b, g, Finish(winner)))
    ensures Step(b, g, Finish(winner)) ==
            g.(events := g.events + [NewEvent(b, |g.events|, rnd, GameEnd, GameOver, System, Side(winner), Everyone)],
               table := g.table.(stage := EndStage))
  {
    hide Play, Leaders, KillAgreed, ResolveNight, WinCheck, EventId;
    ReachStep(b, g, Finish(winner));
  }

  // ---- how long an undecided game can last -----------------------------------------------

  /** An undecided board has at least three living players: one wolf and two others. */
  lemma UndecidedHasThree(b: Board, alive: set<Seat>)
    requires WinCheck(b, alive).None?
    ensures |LivingWolves(b, alive)| >= 1 && |LivingNonWolves(b, alive)| >= 2 && |alive| >= 3
  {
    var wolves, others := LivingWolves(b, alive), LivingNonWolves(b, alive);
    SeatsWhereOrdered(|b.roles|, NonWolfAmong(b, alive));
    assert others == SeatsWhere(|b.roles|, NonWolfAmong(b, alive));
    assert wolves[0] in wolves && others[0] in others && others[1] in others;
    assert others[0] < others[1];
    SmallerSet({wolves[0], others[0], others[1]}, alive);
  }

  /** Each round costs at least one life, so a game still undecided at dusk has outlived few rounds. */
  lemma UndecidedRoundsBounded(b: Board, g: Game, rnd: nat)
    requires Reachable(b, g) && g.table.round == rnd && g.table.ousted.Some? && WinCheck(b, g.alive).None?
    ensures rnd + 3 <= |b.roles|
  {
    ReachableInv(b, g);
    UndecidedHasThree(b, g.alive);
    StrictlySmallerSet(g.alive, g.table.dawn, g.table.ousted.value);
  }
}
