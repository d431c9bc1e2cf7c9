/**
  What one engine step does to the record, as facts about the rule book: asking a seat, taking a single-actor turn,
  the wolves' kill, a potion, a death and a shot. The engine's methods are proved against these.
*/
module EngineSteps {
  import opened Logs
  import opened Rules
  import opened Referee
  import opened RoleVisibility
  import opened RunInvariants
  import opened CallInvariants
  import opened LogViews
  import opened LogInvariants
  import opened TeamInvariants
  import opened RunTheorems

  function RequestBound(players: nat, rounds: nat): nat {
    Ceiling(players, rounds) + players
  }

  predicate MayAsk(b: Board, g: Game, slot: Slot) { Legal(b, g, Ask(slot, ErrorFallback, None)) }

  /** Nothing but the request bookkeeping changed, and this seat was the last one asked. */
  predicate AfterAsk(g: Game, h: Game, slot: Slot)
    requires !slot.ScribeSlot?
  {
    && h == g.(turns := h.turns, used := h.used, windows := h.windows, table := h.table)
    && h.table == g.table.(asked := h.table.asked, shotAsked := h.table.shotAsked, heard := h.table.heard,
                           polled := h.table.polled)
    && JustAsked(h, slot.seat)
    && g.table.polled <= h.table.polled <= g.table.polled + {slot.seat}
    && (slot.NightSlot? ==> slot.seat in h.table.polled)
    && g.table.asked <= h.table.asked <= g.table.asked + {slot}
    && g.table.shotAsked <= h.table.shotAsked <= g.table.shotAsked + {slot.seat}
    && (!slot.ShotSlot? ==> h.table.shotAsked == g.table.shotAsked)
    && (slot.ShotSlot? ==> h.table.asked == g.table.asked)
  }

  /** Any legal charge fits under the bound for the current round. */
  lemma ChargeFits(b: Board, g: Game, m: Move)
    requires Reachable(b, g) && Legal(b, g, m) && (m.Ask? || m.AskScribe?)
    ensures g.used + 1 <= RequestBound(|b.roles|, g.table.round)
  {
    hide Legal, NextTable, NewEvents, NewDecisions, NewConsensus, NextTurns, Play;
    ReachStep(b, g, m);
    var h := Step(b, g, m);
    ReachableInv(b, h);
    ChargeRound(b, g, m);
    ChargesBounded(b, h);
    SmallerSet(h.committed, Seats(b));
  }

  lemma ChargeRound(b: Board, g: Game, m: Move)
    requires m.Ask? || m.AskScribe?
    ensures NextTable(g, m).round == g.table.round
  {
  }

  lemma AskEffect(b: Board, g: Game, slot: Slot, kind: TurnKind, wish: Option<(EventKind, Name)>)
    requires MayAsk(b, g, slot) && LiveKind(kind) && Reachable(b, g)
    requires if slot.SpeechSlot? then wish.None? else wish.Some? <==> kind.LiveSuccess?
    ensures var m := Ask(slot, kind, wish);
            && Legal(b, g, m) && Reachable(b, Step(b, g, m))
            && Step(b, g, m) ==
               g.(turns := g.turns + [Turn(RequestKey(g.table.round, slot), true, kind)], used := g.used + 1,
                  table := NextTable(g, m))
            && !slot.ScribeSlot? && AfterAsk(g, Step(b, g, m), slot) && Step(b, g, m).table.heard == wish
  {
    hide Play, KillAgreed, Leaders, WinCheck, ResolveNight;
    var m := Ask(slot, kind, wish);
    assert Legal(b, g, m);
    ReachStep(b, g, m);
    var h := Step(b, g, m);
    assert h.events == g.events && h.decisions == g.decisions && h.consensus == g.consensus;
    assert h.alive == g.alive && h.committed == g.committed;
  }

  lemma HumanEffect(b: Board, g: Game, s: Seat, kind: TurnKind, wish: Option<(EventKind, Name)>)
    requires Reachable(b, g) && g.table.aim.None? && g.table.heard.None? && !g.table.stage.EndStage? && s < |b.roles|
    requires (kind.HumanAction? || kind.HumanTimeout?) && (wish.Some? ==> kind.HumanAction?)
    ensures var m := AskHuman(s, kind, wish);
            && Legal(b, g, m) && Reachable(b, Step(b, g, m)) && JustAsked(Step(b, g, m), s)
            && Step(b, g, m) ==
               g.(turns := g.turns + [Turn(RequestKey(g.table.round, WindowSlot(s, g.windows + 1)), false, kind)],
                  windows := g.windows + 1,
                  table := g.table.(heard := wish,
                                    polled := g.table.polled +
                                      if g.table.stage.NightStage? && s in g.alive then {s} else {}))
  {
    hide Play;
    ReachStep(b, g, AskHuman(s, kind, wish));
  }

  /** A person's answer leaves what a provider's would have left. */
  lemma PersonAsked(g: Game, h: Game, slot: Slot)
    requires !slot.ScribeSlot? && JustAsked(h, slot.seat)
    requires h == g.(turns := h.turns, windows := h.windows, table := h.table)
    requires h.table == g.table.(heard := h.table.heard, polled := h.table.polled)
    requires g.table.polled <= h.table.polled <= g.table.polled + {slot.seat}
    requires slot.NightSlot? ==> slot.seat in h.table.polled
    ensures AfterAsk(g, h, slot)
  {
    hide JustAsked;
  }

  // ---- single-actor turns: seer, guard, one voter --------------------------------

  predicate SingleTurn(verb: EventKind) { verb.SeerCheck? || verb.GuardProtect? || verb.PlayerVote? }

  function TurnSlot(verb: EventKind, actor: Seat): Slot {
    if verb.PlayerVote? then VoteSlot(actor) else NightSlot(actor)
  }

  function TurnDeed(verb: EventKind): Deed {
    if verb.PlayerVote? then Voting else if verb.GuardProtect? then Protecting else Checking
  }

  function TurnMove(verb: EventKind, actor: Seat, target: Seat, dtype: DecisionType, refs: seq<string>): Move {
    if verb.PlayerVote? then Vote(actor, target, dtype, refs)
    else if verb.GuardProtect? then Protect(actor, target, dtype)
    else Check(actor, target, dtype)
  }

  /** It is this actor's turn and the turn is not yet used up. */
  predicate TurnReady(b: Board, g: Game, verb: EventKind, actor: Seat) {
    && SingleTurn(verb) && g.table.aim.None?
    && actor in g.alive && (actor, TurnDeed(verb)) !in g.table.acted
    && (if verb.PlayerVote? then
          && g.table.stage.DayStage? && g.table.ousted.None? && actor < |b.roles|
          && TurnReached(g, actor, Voting) && AllDid(g.alive, g.table, Speaking)
        else
          && StillNight(g) && HasRole(b, actor, if verb.GuardProtect? then Guard else Seer)
          && (verb.SeerCheck? ==> WolvesDone(b, g.table)))
  }

  /** What a resolver falls back on when the answer is missing or illegal. */
  function Candidates(b: Board, verb: EventKind, actor: Seat, alive: set<Seat>, last: Option<Seat>): seq<Seat> {
    if verb.GuardProtect? then SeatsWhere(|b.roles|, s => s in alive && last != Some(s))
    else SeatsWhere(|b.roles|, s => s in alive && s != actor)
  }

  /** Every admissible target may be drawn, and no other, each with the same chance. */
  lemma CandidatesExactly(b: Board, verb: EventKind, actor: Seat, alive: set<Seat>, last: Option<Seat>, target: Seat)
    requires verb.SeerCheck? || verb.GuardProtect? || verb.PlayerVote?
    ensures var candidates := Candidates(b, verb, actor, alive, last);
            && (target in candidates <==>
                  && target < |b.roles| && target in alive
                  && if verb.GuardProtect? then last != Some(target) else target != actor)
            && forall i, j :: 0 <= i < j < |candidates| ==> candidates[i] < candidates[j]
  {
    if verb.GuardProtect? {
      SeatsWhereOrdered(|b.roles|, s => s in alive && last != Some(s));
    } else {
      SeatsWhereOrdered(|b.roles|, s => s in alive && s != actor);
    }
  }

  lemma TurnLegal(b: Board, g: Game, verb: EventKind, actor: Seat, target: Seat, dtype: DecisionType, refs: seq<string>)
    requires TurnReady(b, g, verb, actor) && Follows(g, actor, verb, target, dtype) && PublicIdsOnly(g, refs)
    requires TargetAllowed(RuntimeState(b, g.alive, g.lastGuarded), actor, verb, target)
    ensures SingleTurn(verb) && Legal(b, g, TurnMove(verb, actor, target, dtype, refs))
  {
    hide WinCheck, PublicIdsOnly, AllDid;
  }

  /** An answer the validator rejects is one the rule book refuses. */
  lemma TurnRefused(b: Board, g: Game, verb: EventKind, actor: Seat, action: (EventKind, Name))
    requires TurnReady(b, g, verb, actor) && JustAsked(g, actor) && g.table.heard == Some(action)
    requires var phase := if verb.PlayerVote? then VotePhase else NightPhase;
             !ActionLegal(RuntimeState(b, g.alive, g.lastGuarded), actor, phase, action.0, action.1)
    ensures Refused(b, g)
  {
    hide ActionLegal, AllDid, WolvesDone, TurnReached;
  }

  lemma DropEffect(b: Board, g: Game)
    requires Reachable(b, g) && Refused(b, g) && WinCheck(b, g.alive).Some? && g.table.aim.None?
    ensures Legal(b, g, Drop) && Reachable(b, Step(b, g, Drop))
    ensures Step(b, g, Drop) == g.(table := g.table.(heard := None))
  {
    hide Play, WinCheck, Refused;
    ReachStep(b, g, Drop);
  }

  /** While both sides can still win there are at least three players, so every turn has a candidate. */
  lemma UndecidedHasCandidates(b: Board, verb: EventKind, actor: Seat, alive: set<Seat>, last: Option<Seat>)
    requires WinCheck(b, alive).None?
    ensures Candidates(b, verb, actor, alive, last) != []
  {
    var others := LivingNonWolves(b, alive);
    SeatsWhereOrdered(|b.roles|, NonWolfAmong(b, alive));
    assert others == SeatsWhere(|b.roles|, NonWolfAmong(b, alive)) && |others| >= 2;
    assert others[0] in others && others[1] in others;
    var barred := if verb.GuardProtect? then last else Some(actor);
    var free := if barred == Some(others[0]) then others[1] else others[0];
    assert free in Candidates(b, verb, actor, alive, last);
  }

  /** A finished turn: at most this slot was asked, and exactly this deed was done. */
  predicate TurnTaken(b: Board, g: Game, h: Game, verb: EventKind, actor: Seat, target: Seat) {
    && h == g.(events := h.events, decisions := h.decisions, turns := h.turns, used := h.used, windows := h.windows,
               lastGuarded := h.lastGuarded, table := h.table)
    && h.table == g.table.(asked := h.table.asked, heard := None, polled := h.table.polled, acted := h.table.acted,
                           guarded := h.table.guarded, ballots := h.table.ballots)
    && g.table.asked <= h.table.asked <= g.table.asked + {TurnSlot(verb, actor)}
    && h.table.acted == g.table.acted + {(actor, TurnDeed(verb))}
    && h.lastGuarded == (if verb.GuardProtect? then Some(target) else g.lastGuarded)
    && h.table.guarded == (if verb.GuardProtect? then Some(target) else g.table.guarded)
    && h.table.ballots == (if verb.PlayerVote? then g.table.ballots + multiset{target} else g.table.ballots)
    && g.events <= h.events
  }

  /** A skipped turn: somebody may have been asked, nothing else happened. */
  predicate TurnSkipped(g: Game, h: Game, verb: EventKind, actor: Seat) {
    && h == g.(turns := h.turns, used := h.used, windows := h.windows, table := h.table)
    && h.table == g.table.(asked := h.table.asked, heard := None, polled := h.table.polled)
    && g.table.asked <= h.table.asked <= g.table.asked + {TurnSlot(verb, actor)}
  }

  lemma TurnEffect(b: Board, g: Game, verb: EventKind, actor: Seat, target: Seat, dtype: DecisionType, refs: seq<string>)
    requires SingleTurn(verb) && Legal(b, g, TurnMove(verb, actor, target, dtype, refs)) && Reachable(b, g)
    ensures var phase := if verb.PlayerVote? then Day else Night;
            var visibility :=
              if verb.PlayerVote? then Public else if verb.GuardProtect? then GuardOnly else SeerOnly;
            var m := TurnMove(verb, actor, target, dtype, refs);
            && Reachable(b, Step(b, g, m))
            && Step(b, g, m) ==
               g.(events := g.events +
                    [NewEvent(b, |g.events|, g.table.round, phase, verb, Player(actor), Player(target), visibility)],
                  decisions := g.decisions +
                    [NewDecision(b, g, actor, Single, None, phase, verb, Player(target),
                                 if verb.PlayerVote? then refs else [], dtype, LastRequest(g))],
                  lastGuarded := (if verb.GuardProtect? then Some(target) else g.lastGuarded),
                  table := NextTable(g, m))
  {
    hide Play, KillAgreed, Leaders, WinCheck, ResolveNight, EventId, DecisionId;
    ReachStep(b, g, TurnMove(verb, actor, target, dtype, refs));
  }

  lemma TurnEffectTaken(b: Board, g: Game, verb: EventKind, actor: Seat, target: Seat, dtype: DecisionType, refs: seq<string>)
    requires SingleTurn(verb) && Legal(b, g, TurnMove(verb, actor, target, dtype, refs)) && Reachable(b, g)
    ensures var h := Step(b, g, TurnMove(verb, actor, target, dtype, refs));
            TurnTaken(b, g, h, verb, actor, target) && h.table.asked == g.table.asked
  {
    hide Legal, Reachable, Step, NewEvent, NewDecision;
    TurnEffect(b, g, verb, actor, target, dtype, refs);
    var m := TurnMove(verb, actor, target, dtype, refs);
    var h := Step(b, g, m);
    assert h.table == NextTable(g, m);
    assert g.events <= h.events;
    assert h.table.asked == g.table.asked;
    assert h.table.acted == g.table.acted + {(actor, TurnDeed(verb))};
    assert h.table.guarded == (if verb.GuardProtect? then Some(target) else g.table.guarded);
    assert h.table.ballots == (if verb.PlayerVote? then g.table.ballots + multiset{target} else g.table.ballots);
    assert h.table == g.table.(heard := None, acted := h.table.acted, guarded := h.table.guarded,
                               ballots := h.table.ballots);
  }

  lemma AfterAskKeepsTurn(b: Board, g: Game, h: Game, slot: Slot, verb: EventKind, actor: Seat)
    requires !slot.ScribeSlot? && slot.seat == actor && AfterAsk(g, h, slot) && TurnReady(b, g, verb, actor)
    ensures TurnReady(b, h, verb, actor) && JustAsked(h, actor) && h.turns != []
    ensures h.alive == g.alive && h.lastGuarded == g.lastGuarded && h.table.round == g.table.round
    ensures h.events == g.events && h.table.aim == g.table.aim
  {
  }

  lemma TurnReadyFacts(b: Board, g: Game, verb: EventKind, actor: Seat)
    requires TurnReady(b, g, verb, actor)
    ensures SingleTurn(verb) && !g.table.stage.EndStage? && g.table.aim.None? && actor < |b.roles|
    ensures actor in g.alive && (!verb.PlayerVote? ==> g.table.stage.NightStage?)
    ensures !verb.PlayerVote? ==> b.roles[actor] == if verb.GuardProtect? then Guard else Seer
    ensures var phase := if verb.PlayerVote? then VotePhase else NightPhase;
            AllowedActions(b.roles[actor], phase) == {verb}
  {
  }

  /** The record after the last turn was rejected. */
  function Downgraded(g: Game): Game
    requires g.turns != []
  {
    var last := |g.turns| - 1;
    g.(turns := g.turns[last := g.turns[last].(kind := InvalidFallback)], table := g.table.(heard := None))
  }

  /** Rejecting the last turn leaves everything an ask promised in place. */
  lemma DowngradeKeepsAsk(g: Game, h: Game, slot: Slot)
    requires !slot.ScribeSlot? && AfterAsk(g, h, slot)
    ensures h.turns != [] && AfterAsk(g, Downgraded(h), slot) && LastFailed(Downgraded(h))
  {
  }

  lemma DropKeepsAsk(g: Game, h: Game, slot: Slot)
    requires !slot.ScribeSlot? && AfterAsk(g, h, slot)
    ensures AfterAsk(g, h.(table := h.table.(heard := None)), slot)
  {
  }

  lemma AskOnly(g: Game, h: Game, verb: EventKind, actor: Seat)
    requires AfterAsk(g, h, TurnSlot(verb, actor)) && h.table.heard.None?
    ensures TurnSkipped(g, h, verb, actor)
  {
  }

  lemma AskThenTurn(b: Board, g: Game, mid: Game, h: Game, verb: EventKind, actor: Seat, target: Seat)
    requires AfterAsk(g, mid, TurnSlot(verb, actor)) && TurnTaken(b, mid, h, verb, actor, target)
    requires h.table.asked == mid.table.asked
    ensures TurnTaken(b, g, h, verb, actor, target) && h.alive == mid.alive && h.table.round == mid.table.round
  {
  }

  lemma CandidateAllowed(b: Board, verb: EventKind, actor: Seat, alive: set<Seat>, last: Option<Seat>, target: Seat)
    requires SingleTurn(verb) && target in Candidates(b, verb, actor, alive, last)
    ensures TargetAllowed(RuntimeState(b, alive, last), actor, verb, target)
  {
  }

  // ---- the night's other record ------------------------------------------------

  /** Nobody of this role has been asked or has acted this round. */
  ghost predicate Idle(b: Board, g: Game, r: Role) {
    && (forall slot :: slot in g.table.asked ==> !slot.ScribeSlot? && !HasRole(b, slot.seat, r))
    && (forall s, d :: (s, d) in g.table.acted ==> !HasRole(b, s, r))
  }

  /** Only seats of this role were asked or acted, and nobody died. */
  ghost predicate RoleOnly(b: Board, g: Game, h: Game, r: Role) {
    && h.alive == g.alive && h.committed == g.committed && g.events <= h.events
    && h.table == g.table.(asked := h.table.asked, heard := None, polled := h.table.polled, bids := h.table.bids,
                           acted := h.table.acted, victim := h.table.victim, guarded := h.table.guarded)
    && (r != Werewolf ==> h.table.bids == g.table.bids)
    && g.table.asked <= h.table.asked && g.table.acted <= h.table.acted
    && (forall slot :: slot in h.table.asked && slot !in g.table.asked ==> slot.NightSlot? && HasRole(b, slot.seat, r))
    && (forall s, d :: (s, d) in h.table.acted && (s, d) !in g.table.acted ==> HasRole(b, s, r))
  }

  lemma OthersStayIdle(b: Board, g: Game, h: Game, r: Role, other: Role)
    requires RoleOnly(b, g, h, r) && r != other && Idle(b, g, other)
    ensures Idle(b, h, other)
  {
  }

  lemma TurnIsRoleOnly(b: Board, g: Game, h: Game, verb: EventKind, actor: Seat, target: Seat, r: Role)
    requires TurnTaken(b, g, h, verb, actor, target) && (verb.SeerCheck? || verb.GuardProtect?)
    requires HasRole(b, actor, r) && r != Werewolf
    ensures RoleOnly(b, g, h, r) && h.table.victim == g.table.victim && (actor, TurnDeed(verb)) in h.table.acted
    ensures h.table.guarded == (if verb.GuardProtect? then Some(target) else g.table.guarded)
  {
  }

  lemma SkipIsRoleOnly(b: Board, g: Game, h: Game, verb: EventKind, actor: Seat, r: Role)
    requires TurnSkipped(g, h, verb, actor) && (verb.SeerCheck? || verb.GuardProtect?)
    requires HasRole(b, actor, r) && r != Werewolf
    ensures RoleOnly(b, g, h, r) && h.table.victim == g.table.victim && h.table.guarded == g.table.guarded
  {
  }

  lemma RoleTurnReady(b: Board, g: Game, verb: EventKind, actor: Seat, r: Role)
    requires r == (if verb.GuardProtect? then Guard else Seer) && (verb.SeerCheck? || verb.GuardProtect?)
    requires StillNight(g) && g.table.aim.None? && g.table.heard.None? && Idle(b, g, r)
    requires verb.SeerCheck? ==> WolvesDone(b, g.table)
    requires actor in LivingWith(b, g.alive, r)
    ensures TurnReady(b, g, verb, actor) && MayAsk(b, g, TurnSlot(verb, actor)) && HasRole(b, actor, r)
  {
    hide KillAgreed, Leaders, WinCheck, ResolveNight;
  }

  /** With at most one holder of a role, one deed is the whole role's. */
  lemma OneHolderActed(b: Board, alive: set<Seat>, t: Table, r: Role, d: Deed)
    requires |LivingWith(b, alive, r)| <= 1
    requires LivingWith(b, alive, r) != [] ==> (LivingWith(b, alive, r)[0], d) in t.acted
    ensures RoleActed(b, alive, t, r, d)
  {
    forall s | s in alive && HasRole(b, s, r) ensures (s, d) in t.acted {
      assert s in LivingWith(b, alive, r);
    }
  }

  // ---- public references ---------------------------------------------------------

  lemma RefsStayKnown(g: Game, h: Game, refs: seq<string>)
    requires g.events <= h.events && PublicIdsOnly(g, refs)
    ensures PublicIdsOnly(h, refs)
  {
    forall r | r in refs
      ensures exists i :: 0 <= i < |h.events| && h.events[i].id == r && IsPublic(h.events[i].visibility)
    {
      var i :| 0 <= i < |g.events| && g.events[i].id == r && IsPublic(g.events[i].visibility);
      assert h.events[i].id == r;
    }
  }

  lemma PublicRefsKnown(g: Game)
    ensures PublicIdsOnly(g, PublicRefs(g.events))
  {
    forall r | r in PublicRefs(g.events)
      ensures exists i :: 0 <= i < |g.events| && g.events[i].id == r && IsPublic(g.events[i].visibility)
    {
      PublicRefsExactly(g.events, r);
    }
  }

  // ---- recording one deed -----------------------------------------------------------

  /** This move is exactly this decision followed by this event. */
  ghost predicate DeedIs(b: Board, g: Game, m: Move, actor: Seat, phase: Phase, action: EventKind, target: Name,
                         dtype: DecisionType, visibility: Visibility) {
    && (m.Save? || m.Poison? || m.KeepPotions? || m.Shoot? || m.HoldFire?)
    && NewEvents(b, g, m) ==
       [NewEvent(b, |g.events|, g.table.round, phase, action, Player(actor), target, visibility)]
    && NewDecisions(b, g, m) ==
       [NewDecision(b, g, actor, Single, None, phase, action, target, [], dtype, LastRequest(g))]
  }

  lemma DeedEffect(b: Board, g: Game, m: Move)
    requires Reachable(b, g) && Legal(b, g, m)
    requires m.Save? || m.Poison? || m.KeepPotions? || m.Shoot? || m.HoldFire?
    ensures Reachable(b, Step(b, g, m))
    ensures Step(b, g, m) == g.(events := g.events + NewEvents(b, g, m), decisions := g.decisions + NewDecisions(b, g, m),
                                table := NextTable(g, m))
  {
    hide Play, Legal, NewEvents, NewDecisions, NextTable;
    ReachStep(b, g, m);
  }

  // ---- the witch ----------------------------------------------------------------------

  predicate WitchReady(b: Board, g: Game, witch: Seat) {
    && StillNight(g) && g.table.aim.None? && LivingRole(b, g, witch, Witch)
    && WitchSlot(witch) !in g.table.asked && (witch, UsingPotion) !in g.table.acted
    && SeerDone(b, g.table) && WolvesDone(b, g.table)
  }

  /** Only the witch was asked or acted, and nobody died. */
  predicate WitchOnlyActed(g: Game, h: Game) {
    && h.alive == g.alive && h.committed == g.committed && g.events <= h.events
    && h.table == g.table.(asked := h.table.asked, heard := None, polled := h.table.polled, acted := h.table.acted,
                           saved := h.table.saved, poison := h.table.poison, saveUsed := h.table.saveUsed,
                           poisonUsed := h.table.poisonUsed)
    && g.table.acted <= h.table.acted
  }

  lemma NobodyActed(g: Game)
    requires g.table.heard.None?
    ensures WitchOnlyActed(g, g)
  {
  }

  lemma IdleWitchReady(b: Board, g: Game, witch: Seat)
    requires Idle(b, g, Witch) && StillNight(g) && g.table.aim.None? && witch in LivingWith(b, g.alive, Witch)
    requires SeerDone(b, g.table) && WolvesDone(b, g.table)
    ensures WitchReady(b, g, witch)
  {
  }

  lemma WitchMayAsk(b: Board, g: Game, witch: Seat)
    requires WitchReady(b, g, witch) && g.table.heard.None?
    ensures MayAsk(b, g, WitchSlot(witch)) && witch < |b.roles|
  {
    hide KillAgreed, Leaders, WinCheck, ResolveNight;
  }

  lemma WitchDutiesStay(b: Board, g: Game, h: Game)
    requires h.table.dawn == g.table.dawn && h.table.acted == g.table.acted && h.table.victim == g.table.victim
    requires SeerDone(b, g.table) && WolvesDone(b, g.table)
    ensures SeerDone(b, h.table) && WolvesDone(b, h.table)
  {
    hide WinCheck;
  }

  /** An answer the witch's turn rejects is one the rule book refuses. */
  lemma PotionRefused(b: Board, g: Game, witch: Seat, action: (EventKind, Name))
    requires LivingRole(b, g, witch, Witch) && g.table.stage.NightStage? && JustAsked(g, witch)
    requires g.table.heard == Some(action) && !PotionAllowed(g, witch, action.0, action.1)
    ensures Refused(b, g)
  {
    hide ActionLegal;
  }

  lemma PotionStaysAllowed(g: Game, h: Game, witch: Seat, verb: EventKind, target: Name)
    requires AfterAsk(g, h, WitchSlot(witch))
    ensures PotionAllowed(h, witch, verb, target) <==> PotionAllowed(g, witch, verb, target)
  {
  }

  lemma SaveLegal(b: Board, g: Game, h: Game, witch: Seat, victim: Seat)
    requires WitchReady(b, g, witch) && AfterAsk(g, h, WitchSlot(witch))
    requires !g.table.saveUsed && g.table.victim == Some(victim) && (victim == witch ==> g.table.round == 1)
    requires h.table.heard == Some((WitchSave, Player(victim)))
    ensures Legal(b, h, Save(witch)) && DeedIs(b, h, Save(witch), witch, Night, WitchSave, Player(victim), InferenceBased, WitchOnly)
  {
    hide WinCheck, EventId, DecisionId, SeerDone, WolvesDone;
    WitchDutiesStay(b, g, h);
  }

  lemma PoisonLegal(b: Board, g: Game, h: Game, witch: Seat, target: Seat)
    requires WitchReady(b, g, witch) && AfterAsk(g, h, WitchSlot(witch))
    requires !g.table.poisonUsed && target in g.alive && target != witch
    requires h.table.heard == Some((WitchPoison, Player(target)))
    ensures var m := Move.Poison(witch, target);
            Legal(b, h, m) && DeedIs(b, h, m, witch, Night, WitchPoison, Player(target), Retaliatory, WitchOnly)
  {
    hide WinCheck, EventId, DecisionId, SeerDone, WolvesDone;
    WitchDutiesStay(b, g, h);
  }

  lemma KeepLegal(b: Board, g: Game, h: Game, witch: Seat)
    requires WitchReady(b, g, witch) && AfterAsk(g, h, WitchSlot(witch)) && Abstains(h, witch, WitchPass)
    ensures var m := KeepPotions(witch);
            Legal(b, h, m) && DeedIs(b, h, m, witch, Night, WitchPass, Nobody, Default, WitchOnly)
  {
    hide WinCheck, EventId, DecisionId, SeerDone, WolvesDone;
    WitchDutiesStay(b, g, h);
  }

  lemma PotionTaken(b: Board, g: Game, mid: Game, m: Move, witch: Seat)
    requires AfterAsk(g, mid, WitchSlot(witch)) && Legal(b, mid, m) && (m.Save? || m.Poison? || m.KeepPotions?)
    ensures WitchOnlyActed(g, Step(b, mid, m))
    ensures var t := Step(b, mid, m).table;
            && t.saved == (m.Save? || g.table.saved) && t.saveUsed == (m.Save? || g.table.saveUsed)
            && t.poison == (if m.Poison? then Some(m.target) else g.table.poison)
            && t.poisonUsed == (m.Poison? || g.table.poisonUsed)
            && t.round == g.table.round && t.dawn == g.table.dawn && (m.seat, UsingPotion) in t.acted
            && Step(b, mid, m).alive == g.alive
  {
    hide Legal, NewDecisions, NewEvents;
  }

  lemma AfterAskSame(g: Game, h: Game, slot: Slot)
    requires !slot.ScribeSlot? && AfterAsk(g, h, slot)
    ensures h.alive == g.alive && h.committed == g.committed && h.events == g.events && h.lastGuarded == g.lastGuarded
    ensures h.consensus == g.consensus && h.decisions == g.decisions
    ensures h.table == g.table.(asked := h.table.asked, shotAsked := h.table.shotAsked, heard := h.table.heard,
                                polled := h.table.polled)
    ensures h.turns != [] && JustAsked(h, slot.seat)
  {
  }

  // ---- the wolves ---------------------------------------------------------------------

  /** After the first i wolves were heard: only they were asked, nothing else changed. */
  ghost predicate WolvesHeard(b: Board, g: Game, h: Game, wolves: seq<Seat>, i: nat)
    requires i <= |wolves|
  {
    && h == g.(turns := h.turns, used := h.used, windows := h.windows, table := h.table)
    && h.table == g.table.(asked := h.table.asked, heard := None, polled := h.table.polled, bids := h.table.bids)
    && g.table.asked <= h.table.asked
    && (forall j :: 0 <= j < i ==> wolves[j] in h.table.polled)
    && (forall slot :: slot in h.table.asked && slot !in g.table.asked ==> slot.NightSlot? && slot.seat in wolves[..i])
  }

  ghost predicate WolvesReady(b: Board, g: Game, wolves: seq<Seat>) {
    && wolves == LivingWolves(b, g.alive) && Ordered(wolves)
    && StillNight(g) && g.table.aim.None? && g.table.heard.None? && g.table.bids == []
    && GuardDone(b, g.table) && Idle(b, g, Werewolf)
  }

  lemma WolvesAreReady(b: Board, g: Game)
    requires StillNight(g) && g.table.aim.None? && g.table.heard.None? && g.table.bids == []
    requires GuardDone(b, g.table) && Idle(b, g, Werewolf)
    ensures WolvesReady(b, g, LivingWolves(b, g.alive)) && WolvesHeard(b, g, g, LivingWolves(b, g.alive), 0)
  {
    SeatsWhereOrdered(|b.roles|, WolfAmong(b, g.alive));
    assert LivingWolves(b, g.alive) == SeatsWhere(|b.roles|, WolfAmong(b, g.alive));
  }

  lemma WolfMayAsk(b: Board, g: Game, h: Game, wolves: seq<Seat>, i: nat)
    requires i < |wolves| && WolvesReady(b, g, wolves) && WolvesHeard(b, g, h, wolves, i)
    ensures MayAsk(b, h, NightSlot(wolves[i])) && wolves[i] < |b.roles| && h.alive == g.alive
    ensures h.table.aim.None? && h.table.heard.None? && h.table.stage.NightStage? && h.table.round == g.table.round
    ensures wolves[i] in LivingWolves(b, h.alive) && wolves[i] in h.alive && IsWolf(b, wolves[i])
  {
    hide KillAgreed, Leaders, WinCheck, ResolveNight;
    assert wolves[i] in wolves;
    assert HasRole(b, wolves[i], Werewolf);
    assert NightSlot(wolves[i]) !in h.table.asked;
  }

  lemma WolfHeard(b: Board, g: Game, h: Game, mid: Game, k: Game, wolves: seq<Seat>, i: nat)
    requires i < |wolves| && WolvesHeard(b, g, h, wolves, i) && AfterAsk(h, mid, NightSlot(wolves[i]))
    requires k == mid.(turns := k.turns, table := mid.table.(heard := None, bids := k.table.bids))
    ensures WolvesHeard(b, g, k, wolves, i + 1)
  {
    assert wolves[..i + 1] == wolves[..i] + [wolves[i]];
  }

  lemma WolfProposes(b: Board, g: Game, wolf: Seat, target: Name)
    requires Reachable(b, g) && g.table.stage.NightStage? && g.table.aim.None? && JustAsked(g, wolf)
    requires wolf in LivingWolves(b, g.alive) && g.table.heard == Some((WerewolfKill, target))
    requires ActionLegal(RuntimeState(b, g.alive, g.lastGuarded), wolf, NightPhase, WerewolfKill, target)
    ensures Legal(b, g, Propose(wolf, target.seat)) && Reachable(b, Step(b, g, Propose(wolf, target.seat)))
    ensures Step(b, g, Propose(wolf, target.seat)) ==
            g.(table := g.table.(heard := None, bids := g.table.bids + [Bid(wolf, target.seat)]))
  {
    hide Play, WinCheck;
    LivingOnBoard(b, g);
    ReachStep(b, g, Propose(wolf, target.seat));
  }

  lemma KillRefused(b: Board, g: Game, wolf: Seat, action: (EventKind, Name))
    requires g.table.stage.NightStage? && JustAsked(g, wolf) && wolf in LivingWolves(b, g.alive)
    requires g.table.heard == Some(action)
    requires !ActionLegal(RuntimeState(b, g.alive, g.lastGuarded), wolf, NightPhase, action.0, action.1)
    ensures Refused(b, g)
  {
    hide ActionLegal;
  }

  /** Bids so far come from the first i wolves, in order, and name living non-wolves. */
  ghost predicate BidsSoFar(b: Board, alive: set<Seat>, wolves: seq<Seat>, i: nat, bids: seq<Bid>)
    requires i <= |wolves|
  {
    && (forall k :: 0 <= k < |bids| ==> bids[k].wolf in wolves[..i] && bids[k].target in LivingNonWolves(b, alive))
    && (forall j, k :: 0 <= j < k < |bids| ==> bids[j].wolf < bids[k].wolf)
  }

  lemma BidSkipped(b: Board, alive: set<Seat>, wolves: seq<Seat>, i: nat, bids: seq<Bid>)
    requires i < |wolves| && BidsSoFar(b, alive, wolves, i, bids)
    ensures BidsSoFar(b, alive, wolves, i + 1, bids)
  {
    assert wolves[..i + 1] == wolves[..i] + [wolves[i]];
  }

  lemma BidAdded(b: Board, alive: set<Seat>, wolves: seq<Seat>, i: nat, bids: seq<Bid>, target: Seat)
    requires i < |wolves| && BidsSoFar(b, alive, wolves, i, bids) && Ordered(wolves)
    requires wolves == LivingWolves(b, alive) && forall s :: s in alive ==> s < |b.roles|
    requires target in alive && !IsWolf(b, target)
    ensures BidsSoFar(b, alive, wolves, i + 1, bids + [Bid(wolves[i], target)])
  {
    assert wolves[..i + 1] == wolves[..i] + [wolves[i]];
    assert target in LivingNonWolves(b, alive);
  }

  lemma WolfVerb(b: Board, alive: set<Seat>, last: Option<Seat>, wolf: Seat, verb: EventKind, target: Name)
    requires wolf in LivingWolves(b, alive) && ActionLegal(RuntimeState(b, alive, last), wolf, NightPhase, verb, target)
    ensures verb == WerewolfKill && target.Player?
  {
  }

  lemma LivingOnBoard(b: Board, g: Game)
    requires Reachable(b, g)
    ensures forall s :: s in g.alive ==> s < |b.roles|
  {
    ReachableInv(b, g);
  }

  lemma WolvesHeardSame(b: Board, g: Game, h: Game, wolves: seq<Seat>)
    requires WolvesReady(b, g, wolves) && WolvesHeard(b, g, h, wolves, |wolves|)
    ensures h.alive == g.alive && wolves == LivingWolves(b, h.alive) && h.table.round == g.table.round
    ensures h.table.dawn == g.table.dawn && h.table.victim == g.table.victim
  {
  }

  lemma NoWolvesMeansDecided(b: Board, alive: set<Seat>)
    requires LivingWolves(b, alive) == []
    ensures WinCheck(b, alive) == Some(VillagersWin)
  {
  }

  lemma KillLegal(b: Board, g: Game, h: Game, wolves: seq<Seat>, bids: seq<Bid>, target: Seat, primary: Seat, refs: seq<string>)
    requires WolvesReady(b, g, wolves) && WolvesHeard(b, g, h, wolves, |wolves|) && wolves != []
    requires g.table.victim.None? && PublicIdsOnly(h, refs) && h.table.bids == bids
    requires BidsSoFar(b, h.alive, wolves, |wolves|, bids)
    requires VerdictAllows(AdjudicateKill(b, bids, LivingNonWolves(b, h.alive)), target)
    requires primary == PrimaryWolf(wolves, bids, target)
    ensures Legal(b, h, Kill(bids, target, primary, refs))
  {
    hide AdjudicateKill, ResolveNight, WinCheck;
    assert wolves[..|wolves|] == wolves;
    assert BidsOk(b, h, bids);
    PrimaryIsALivingWolf(b, h, bids, target, primary);
    assert HasRole(b, primary, Werewolf);
    assert GuardDone(b, h.table);
  }

  lemma KillEffect(b: Board, g: Game, m: Move)
    requires Reachable(b, g) && Legal(b, g, m) && m.Kill?
    ensures Reachable(b, Step(b, g, m))
    ensures Step(b, g, m) == g.(events := g.events + NewEvents(b, g, m), decisions := g.decisions + NewDecisions(b, g, m),
                                consensus := g.consensus + NewConsensus(b, g, m), table := NextTable(g, m))
  {
    hide Play, Legal, NewEvents, NewDecisions, NewConsensus, NextTable;
    ReachStep(b, g, m);
  }

  /** What a kill writes into the three logs. */
  lemma KillWrites(b: Board, g: Game, bids: seq<Bid>, target: Seat, primary: Seat, refs: seq<string>)
    requires LivingWolves(b, g.alive) != []
    ensures var m := Kill(bids, target, primary, refs);
            && NewEvents(b, g, m) ==
               [NewEvent(b, |g.events|, g.table.round, Night, WerewolfKill, Player(primary), Player(target), WolvesOnly)]
            && NewDecisions(b, g, m) ==
               [NewDecision(b, g, primary, TeamScope, Some(ConsensusId(b.gameId, g.table.round)), Night, WerewolfKill,
                            Player(target), [], if bids == [] then Default else TeamCoordinated, None)]
            && NewConsensus(b, g, m) ==
               [BuildConsensusEntry(b, g.table.round, LivingWolves(b, g.alive), target, primary, Backers(bids, target),
                                    VerdictStatus(AdjudicateKill(b, bids, LivingNonWolves(b, g.alive))), refs)]
  {
    hide LivingWolves, LivingNonWolves, Backers, AdjudicateKill, BuildConsensusEntry, NewEvent, NewDecision, ConsensusId;
  }

  /** What a kill leaves on the referee's table. */
  lemma KillTable(g: Game, m: Move)
    requires m.Kill?
    ensures NextTable(g, m) ==
            g.table.(acted := g.table.acted + {(m.primary, Killing)}, victim := Some(m.target))
  {
  }

  lemma KillIsRoleOnly(b: Board, g: Game, h: Game, wolves: seq<Seat>, m: Move)
    requires WolvesReady(b, g, wolves) && WolvesHeard(b, g, h, wolves, |wolves|)
    requires m.Kill? && Legal(b, h, m) && Reachable(b, h)
    ensures RoleOnly(b, g, Step(b, h, m), Werewolf)
    ensures Step(b, h, m).table.victim == Some(m.target) && Step(b, h, m).table.guarded == g.table.guarded
  {
    hide *;
    PrimaryIsAWolf(b, h, m);
    KillEffect(b, h, m);
    KillTable(h, m);
    WolvesAskedOnly(b, g, h, wolves);
    HeardThenKill(b, g, h, Step(b, h, m), wolves, m);
  }

  /** The whole record after the kill. */
  lemma KillRecorded(b: Board, g: Game, h: Game, wolves: seq<Seat>, bids: seq<Bid>, target: Seat, refs: seq<string>)
    requires WolvesReady(b, g, wolves) && WolvesHeard(b, g, h, wolves, |wolves|) && wolves != [] && Reachable(b, h)
    requires g.table.victim.None? && PublicIdsOnly(h, refs) && h.table.bids == bids && wolves == LivingWolves(b, h.alive)
    requires BidsSoFar(b, h.alive, wolves, |wolves|, bids)
    requires VerdictAllows(AdjudicateKill(b, bids, LivingNonWolves(b, h.alive)), target)
    ensures var primary := PrimaryWolf(wolves, bids, target);
            var m := Kill(bids, target, primary, refs);
            && Legal(b, h, m) && Reachable(b, Step(b, h, m)) && RoleOnly(b, g, Step(b, h, m), Werewolf)
            && Step(b, h, m) ==
               h.(events := h.events + [NewEvent(b, |h.events|, h.table.round, Night, WerewolfKill, Player(primary),
                                                 Player(target), WolvesOnly)],
                  decisions := h.decisions + [NewDecision(b, h, primary, TeamScope,
                                                          Some(ConsensusId(b.gameId, h.table.round)), Night, WerewolfKill,
                                                          Player(target), [],
                                                          if bids == [] then Default else TeamCoordinated, None)],
                  consensus := h.consensus + NewConsensus(b, h, m),
                  table := NextTable(h, m))
            && NextTable(h, m) == h.table.(acted := h.table.acted + {(primary, Killing)}, victim := Some(target))
            && NewConsensus(b, h, m) ==
               [BuildConsensusEntry(b, h.table.round, wolves, target, primary, Backers(bids, target),
                                    VerdictStatus(AdjudicateKill(b, bids, LivingNonWolves(b, h.alive))), refs)]
    ensures h.table.guarded == g.table.guarded
  {
    hide *;
    var primary := PrimaryWolf(wolves, bids, target);
    var m := Kill(bids, target, primary, refs);
    KillLegal(b, g, h, wolves, bids, target, primary, refs);
    KillWrites(b, h, bids, target, primary, refs);
    KillTable(h, m);
    KillEffect(b, h, m);
    KillIsRoleOnly(b, g, h, wolves, m);
  }

  lemma PrimaryIsAWolf(b: Board, h: Game, m: Move)
    requires m.Kill? && Legal(b, h, m)
    ensures HasRole(b, m.primary, Werewolf)
  {
    hide ResolveNight, WinCheck, AdjudicateKill, BidsOk, VerdictAllows;
    PrimaryIsALivingWolf(b, h, m.bids, m.target, m.primary);
  }

  lemma HeardThenKill(b: Board, g: Game, h: Game, k: Game, wolves: seq<Seat>, m: Move)
    requires m.Kill? && HasRole(b, m.primary, Werewolf) && WolvesHeard(b, g, h, wolves, |wolves|)
    requires k.alive == h.alive && k.committed == h.committed && h.events <= k.events
    requires k.table == h.table.(acted := h.table.acted + {(m.primary, Killing)}, victim := Some(m.target))
    requires forall slot :: slot in h.table.asked && slot !in g.table.asked ==>
               slot.NightSlot? && HasRole(b, slot.seat, Werewolf)
    ensures RoleOnly(b, g, k, Werewolf) && k.table.victim == Some(m.target) && k.table.guarded == g.table.guarded
  {
    hide HasRole;
    assert k.table.acted == g.table.acted + {(m.primary, Killing)};
    assert k.table == g.table.(asked := k.table.asked, heard := None, polled := k.table.polled, bids := k.table.bids,
                               acted := k.table.acted, victim := k.table.victim, guarded := k.table.guarded);
  }

  lemma WolvesAskedOnly(b: Board, g: Game, h: Game, wolves: seq<Seat>)
    requires WolvesReady(b, g, wolves) && WolvesHeard(b, g, h, wolves, |wolves|)
    ensures forall slot :: slot in h.table.asked && slot !in g.table.asked ==>
              slot.NightSlot? && HasRole(b, slot.seat, Werewolf)
  {
    assert wolves[..|wolves|] == wolves;
    forall slot | slot in h.table.asked && slot !in g.table.asked
      ensures slot.NightSlot? && HasRole(b, slot.seat, Werewolf)
    {
      assert slot.seat in wolves;
    }
  }

  lemma NoKillIsRoleOnly(b: Board, g: Game, h: Game, wolves: seq<Seat>)
    requires WolvesReady(b, g, wolves) && WolvesHeard(b, g, h, wolves, |wolves|)
    ensures RoleOnly(b, g, h, Werewolf) && h.table.victim == g.table.victim && h.table.guarded == g.table.guarded
  {
    hide WolvesReady;
    WolvesAskedOnly(b, g, h, wolves);
  }

  /** Adjudication skips only when there is nobody left to kill, so only when the game is already decided. */
  lemma NoKillMeansDecided(b: Board, alive: set<Seat>, bids: seq<Bid>)
    requires AdjudicateKill(b, bids, LivingNonWolves(b, alive)).NoKill?
    ensures bids == [] && WinCheck(b, alive).Some?
  {
  }

  lemma DrawNonempty(b: Board, alive: set<Seat>, bids: seq<Bid>, wolves: seq<Seat>)
    requires AdjudicateKill(b, bids, LivingNonWolves(b, alive)).Draw? && BidsSoFar(b, alive, wolves, |wolves|, bids)
    ensures AdjudicateKill(b, bids, LivingNonWolves(b, alive)).over != []
  {
    if bids != [] {
      assert bids[0].target in LivingNonWolves(b, alive);
      BidsCounted(bids, bids[0].target);
      LeadersNonempty(BidTargets(bids), |b.roles|, bids[0].target);
    }
  }
}
