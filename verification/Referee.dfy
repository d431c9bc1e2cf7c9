/**
  The rule book of a run, independent of the engine's control flow.

  A Game is everything a run has recorded so far plus a Table, the referee's own notes on the current round.
  A run is a sequence of Moves. Legal says when a move is allowed; Step says what it writes.
  The engine is proved to make only legal moves; the theorems about whole runs are proved for every legal run.
*/
module Referee {
  import opened Logs
  import opened Rules

  datatype Stage = NightStage | DayStage | EndStage

  datatype Deed = Protecting | Killing | Checking | UsingPotion | Speaking | Voting

  datatype Table = Table(
    round: nat,
    stage: Stage,
    dawn: set<Seat>,            // alive when the round began
    asked: set<Slot>,           // this round's provider requests, hunter shots excepted
    heard: Option<(EventKind, Name)>,  // what the last turn asked to do, until that is done or refused
    polled: set<Seat>,          // asked for an action tonight
    bids: seq<Bid>,             // the wolves' proposals tonight
    acted: set<(Seat, Deed)>,   // this round's deeds, hunter shots excepted
    victim: Option<Seat>,       // tonight's wolf target
    saved: bool,
    poison: Option<Seat>,
    guarded: Option<Seat>,
    ballots: multiset<Seat>,    // today's votes
    ousted: Option<Seat>,       // today's elimination
    saveUsed: bool,
    poisonUsed: bool,
    shotAsked: set<Seat>,       // hunters whose provider was asked for a shot
    fired: set<Seat>,           // hunters who have shot or passed
    aim: Option<Seat>,          // shot, not yet buried
    causes: map<Seat, Cause>)

  datatype Game = Game(
    alive: set<Seat>,
    committed: set<Seat>,
    events: seq<Event>,
    decisions: seq<Decision>,
    turns: seq<Turn>,
    consensus: seq<ConsensusEntry>,
    lastGuarded: Option<Seat>,
    used: nat,
    windows: nat,
    table: Table)

  datatype Move =
    | Ask(slot: Slot, kind: TurnKind, wish: Option<(EventKind, Name)>)
    | AskScribe(kind: TurnKind)
    | AskHuman(seat: Seat, kind: TurnKind, wish: Option<(EventKind, Name)>)
    | Downgrade
    | Drop
    | Propose(seat: Seat, target: Seat)
    | Protect(seat: Seat, target: Seat, dtype: DecisionType)
    | Kill(bids: seq<Bid>, target: Seat, primary: Seat, refs: seq<string>)
    | Check(seat: Seat, target: Seat, dtype: DecisionType)
    | Save(seat: Seat)
    | Poison(seat: Seat, target: Seat)
    | KeepPotions(seat: Seat)
    | Die(seat: Seat, cause: Cause)
    | LastWords(seat: Seat)
    | Shoot(seat: Seat, target: Seat)
    | HoldFire(seat: Seat)
    | Sunrise
    | Speak(seat: Seat)
    | Vote(seat: Seat, target: Seat, dtype: DecisionType, refs: seq<string>)
    | Oust(seat: Seat)
    | Nightfall
    | Finish(winner: Winner)

  // ---- what a move writes -------------------------------------------------

  function PhaseOf(stage: Stage): Phase {
    match stage
    case NightStage => Night
    case DayStage => Day
    case EndStage => GameEnd
  }

  function NewEvent(b: Board, count: nat, rnd: nat, phase: Phase, kind: EventKind, actor: Name, target: Name,
                    visibility: Visibility): Event {
    Event(EventId(b.gameId, count + 1), count + 1, rnd, phase, kind, actor, target, visibility, true, [])
  }

  function Side(w: Winner): Name { if w == VillagersWin then VillagerSide else WerewolfSide }

  function NewEvents(b: Board, g: Game, m: Move): seq<Event>
  {
    var k, rnd, phase := |g.events|, g.table.round, PhaseOf(g.table.stage);
    match m
    case Protect(s, t, _) => [NewEvent(b, k, rnd, Night, GuardProtect, Player(s), Player(t), GuardOnly)]
    case Kill(_, t, p, _) => [NewEvent(b, k, rnd, Night, WerewolfKill, Player(p), Player(t), WolvesOnly)]
    case Check(s, t, _) => [NewEvent(b, k, rnd, Night, SeerCheck, Player(s), Player(t), SeerOnly)]
    case Save(s) =>
      [NewEvent(b, k, rnd, Night, WitchSave, Player(s),
                if g.table.victim.Some? then Player(g.table.victim.value) else Nobody, WitchOnly)]
    case Poison(s, t) => [NewEvent(b, k, rnd, Night, WitchPoison, Player(s), Player(t), WitchOnly)]
    case KeepPotions(s) => [NewEvent(b, k, rnd, Night, WitchPass, Player(s), Nobody, WitchOnly)]
    case Die(s, _) => [NewEvent(b, k, rnd, phase, PlayerDied, System, Player(s), Everyone)]
    case LastWords(s) => [NewEvent(b, k, rnd, phase, FinalWords, Player(s), Nobody, Public)]
    case Shoot(s, t) => [NewEvent(b, k, rnd, phase, HunterShoot, Player(s), Player(t), Public)]
    case HoldFire(s) => [NewEvent(b, k, rnd, phase, HunterPass, Player(s), Nobody, Public)]
    case Sunrise => [NewEvent(b, k, rnd, Day, DayAnnouncement, System, Nobody, Public)]
    case Speak(s) => [NewEvent(b, k, rnd, Day, PlayerSpeech, Player(s), Nobody, Public)]
    case Vote(s, t, _, _) => [NewEvent(b, k, rnd, Day, PlayerVote, Player(s), Player(t), Public)]
    case Oust(s) =>
      [NewEvent(b, k, rnd, Day, PlayerEliminated, System, Player(s), Everyone),
       NewEvent(b, k + 1, rnd, Day, RoleRevealed, System, Player(s), Everyone)]
    case Finish(w) => [NewEvent(b, k, rnd, GameEnd, GameOver, System, Side(w), Everyone)]
    case _ => []
  }

  function LastRequest(g: Game): Option<RequestKey> {
    if g.turns == [] then None else Some(g.turns[|g.turns| - 1].key)
  }

  function NewDecision(b: Board, g: Game, actor: Seat, scope: Scope, consensusId: Option<string>, phase: Phase,
                       action: EventKind, target: Name, refs: seq<string>, dtype: DecisionType,
                       request: Option<RequestKey>): Decision {
    Decision(DecisionId(b.gameId, |g.decisions| + 1), Player(actor), scope, consensusId, phase, g.table.round, action,
             target, refs, dtype, request)
  }

  function NewDecisions(b: Board, g: Game, m: Move): seq<Decision>
  {
    var phase, request := PhaseOf(g.table.stage), LastRequest(g);
    match m
    case Protect(s, t, d) => [NewDecision(b, g, s, Single, None, Night, GuardProtect, Player(t), [], d, request)]
    case Kill(bids, t, p, _) =>
      [NewDecision(b, g, p, TeamScope, Some(ConsensusId(b.gameId, g.table.round)), Night, WerewolfKill, Player(t), [],
                   if bids == [] then Default else TeamCoordinated, None)]
    case Check(s, t, d) => [NewDecision(b, g, s, Single, None, Night, SeerCheck, Player(t), [], d, request)]
    case Save(s) =>
      [NewDecision(b, g, s, Single, None, Night, WitchSave,
                   if g.table.victim.Some? then Player(g.table.victim.value) else Nobody, [], InferenceBased, request)]
    case Poison(s, t) => [NewDecision(b, g, s, Single, None, Night, WitchPoison, Player(t), [], Retaliatory, request)]
    case KeepPotions(s) => [NewDecision(b, g, s, Single, None, Night, WitchPass, Nobody, [], Default, request)]
    case Shoot(s, t) => [NewDecision(b, g, s, Single, None, phase, HunterShoot, Player(t), [], Retaliatory, request)]
    case HoldFire(s) => [NewDecision(b, g, s, Single, None, phase, HunterPass, Nobody, [], Default, request)]
    case Vote(s, t, d, refs) => [NewDecision(b, g, s, Single, None, Day, PlayerVote, Player(t), refs, d, request)]
    case _ => []
  }

  /** Provider turns after the move; only Downgrade touches a turn already recorded. */
  function NextTurns(g: Game, m: Move): seq<Turn>
    requires m.Downgrade? ==> g.turns != []
  {
    var rnd := g.table.round;
    match m
    case Ask(slot, kind, _) => g.turns + [Turn(RequestKey(rnd, slot), true, kind)]
    case AskScribe(kind) => g.turns + [Turn(RequestKey(rnd, ScribeSlot), false, kind)]
    case AskHuman(s, kind, _) => g.turns + [Turn(RequestKey(rnd, WindowSlot(s, g.windows + 1)), false, kind)]
    case Downgrade => var last := |g.turns| - 1; g.turns[last := g.turns[last].(kind := InvalidFallback)]
    case _ => g.turns
  }

  function VerdictStatus(v: WolfVerdict): Status {
    if v.NoKill? then CoordinatorTieBreak else v.status
  }

  function NewConsensus(b: Board, g: Game, m: Move): seq<ConsensusEntry>
    requires m.Kill? ==> LivingWolves(b, g.alive) != []
  {
    match m
    case Kill(bids, t, p, refs) =>
      var status := VerdictStatus(AdjudicateKill(b, bids, LivingNonWolves(b, g.alive)));
      [BuildConsensusEntry(b, g.table.round, LivingWolves(b, g.alive), t, p, Backers(bids, t), status, refs)]
    case _ => []
  }

  function Departing(m: Move): set<Seat> {
    match m
    case Die(s, _) => {s}
    case Oust(s) => {s}
    case _ => {}
  }

  function NextTable(g: Game, m: Move): Table {
    var t := g.table;
    match m
    case Ask(slot, _, wish) =>
      if slot.ShotSlot? then t.(shotAsked := t.shotAsked + {slot.seat}, heard := wish)
      else t.(asked := t.asked + {slot}, heard := wish,
              polled := if slot.NightSlot? then t.polled + {slot.seat} else t.polled)
    case AskScribe(_) => t.(asked := t.asked + {ScribeSlot})
    case AskHuman(s, _, wish) =>
      t.(heard := wish, polled := if t.stage.NightStage? && s in g.alive then t.polled + {s} else t.polled)
    case Downgrade => t.(heard := None)
    case Drop => t.(heard := None)
    case Propose(s, x) => t.(heard := None, bids := t.bids + [Bid(s, x)])
    case Protect(s, x, _) => t.(acted := t.acted + {(s, Protecting)}, heard := None, guarded := Some(x))
    case Kill(_, x, p, _) => t.(acted := t.acted + {(p, Killing)}, victim := Some(x))
    case Check(s, _, _) => t.(acted := t.acted + {(s, Checking)}, heard := None)
    case Save(s) => t.(acted := t.acted + {(s, UsingPotion)}, heard := None, saved := true, saveUsed := true)
    case Poison(s, x) =>
      t.(acted := t.acted + {(s, UsingPotion)}, heard := None, poison := Some(x), poisonUsed := true)
    case KeepPotions(s) => t.(acted := t.acted + {(s, UsingPotion)}, heard := None)
    case Die(s, c) => t.(causes := t.causes[s := c], aim := None)
    case Shoot(s, x) => t.(fired := t.fired + {s}, heard := None, aim := Some(x))
    case HoldFire(s) => t.(fired := t.fired + {s}, heard := None)
    case Sunrise => t.(stage := DayStage)
    case Speak(s) => t.(acted := t.acted + {(s, Speaking)})
    case Vote(s, x, _, _) =>
      t.(acted := t.acted + {(s, Voting)}, heard := None, ballots := t.ballots + multiset{x})
    case Oust(s) => t.(causes := t.causes[s := VotedOut], ousted := Some(s))
    case Nightfall =>
      t.(round := t.round + 1, stage := NightStage, dawn := g.alive, asked := {}, polled := {}, bids := [], acted := {},
         victim := None, saved := false, poison := None, guarded := None, ballots := multiset{}, ousted := None)
    case Finish(_) => t.(stage := EndStage)
    case _ => t
  }

  function Step(b: Board, g: Game, m: Move): Game
    requires Legal(b, g, m)
  {
    Game(
      g.alive - Departing(m),
      g.committed + Departing(m),
      g.events + NewEvents(b, g, m),
      g.decisions + NewDecisions(b, g, m),
      NextTurns(g, m),
      g.consensus + NewConsensus(b, g, m),
      if m.Protect? then Some(m.target) else g.lastGuarded,
      if m.Ask? || m.AskScribe? then g.used + 1 else g.used,
      if m.AskHuman? then g.windows + 1 else g.windows,
      NextTable(g, m))
  }

  // ---- when a move is allowed ----------------------------------------------

  predicate LiveKind(k: TurnKind) {
    k.LiveSuccess? || k.InvalidFallback? || k.TimeoutFallback? || k.ErrorFallback?
  }

  predicate Downgradable(k: TurnKind) { k.LiveSuccess? || k.HumanAction? }

  predicate ActsAtNight(r: Role) { r.Werewolf? || r.Seer? || r.Guard? }

  function Intents(t: Table): NightIntents { NightIntents(t.victim, t.saved, t.poison, t.guarded) }

  function Settlement(t: Table): NightResult { ResolveNight(Intents(t), t.dawn) }

  /** The most recent turn was this seat's, in this round. */
  predicate JustAsked(g: Game, s: Seat) {
    && g.turns != []
    && var key := g.turns[|g.turns| - 1].key;
    && key.round == g.table.round && !key.slot.ScribeSlot? && key.slot.seat == s
  }

  /** The last turn brought nothing the engine could use. */
  predicate LastFailed(g: Game) { g.turns != [] && !Downgradable(g.turns[|g.turns| - 1].kind) }

  /** The seat gets the target it asked for, or one was picked for it because its turn failed. */
  predicate Follows(g: Game, s: Seat, verb: EventKind, target: Seat, d: DecisionType) {
    && JustAsked(g, s)
    && if d.InferenceBased? then g.table.heard == Some((verb, Player(target)))
       else d.Default? && g.table.heard.None? && LastFailed(g)
  }

  /** The seat asked to hold back, or its turn failed. */
  predicate Abstains(g: Game, s: Seat, verb: EventKind) {
    && JustAsked(g, s)
    && if g.table.heard.Some? then g.table.heard.value.0 == verb else LastFailed(g)
  }

  predicate LivingRole(b: Board, g: Game, s: Seat, r: Role) { s in g.alive && HasRole(b, s, r) }

  predicate BidsOk(b: Board, g: Game, bids: seq<Bid>) {
    && (forall i :: 0 <= i < |bids| ==>
        bids[i].wolf in LivingWolves(b, g.alive) && bids[i].target in LivingNonWolves(b, g.alive))
    && (forall i, j :: 0 <= i < j < |bids| ==> bids[i].wolf < bids[j].wolf)
  }

  predicate VerdictAllows(v: WolfVerdict, target: Seat) {
    match v
    case NoKill => false
    case Fixed(t, _) => target == t
    case Draw(over, _, _) => target in over
  }

  predicate KillAgreed(b: Board, g: Game, bids: seq<Bid>, target: Seat, primary: Seat) {
    var wolves := LivingWolves(b, g.alive);
    && wolves != [] && primary == PrimaryWolf(wolves, bids, target)
    && BidsOk(b, g, bids)
    && VerdictAllows(AdjudicateKill(b, bids, LivingNonWolves(b, g.alive)), target)
  }

  /** Every ref names an event of the log that all seats see. */
  predicate PublicIdsOnly(g: Game, refs: seq<string>) {
    forall r :: r in refs ==> exists i :: 0 <= i < |g.events| && g.events[i].id == r && IsPublic(g.events[i].visibility)
  }

  predicate CanTrigger(b: Board, g: Game, s: Seat) {
    && HasRole(b, s, Hunter)
    && s in g.committed && s !in g.table.fired
    && s in g.table.causes && !Suppressed(Hunter, g.table.causes[s])
  }

  /** Nobody the night condemned is still alive. */
  predicate DuskSettled(g: Game) {
    forall s :: s in Settlement(g.table).deaths ==> s !in g.alive
  }

  /** Whoever the wolves killed tonight is buried. */
  predicate AttackedBuried(g: Game) {
    forall s :: s in Settlement(g.table).causes && Settlement(g.table).causes[s].KilledByWolves? ==> s !in g.alive
  }

  // ---- what a seat may ask for ----------------------------------------------

  predicate PotionAllowed(g: Game, witch: Seat, verb: EventKind, target: Name) {
    var t := g.table;
    match verb
    case WitchSave =>
      !t.saveUsed && t.victim.Some? && target == Player(t.victim.value) && (target == Player(witch) ==> t.round == 1)
    case WitchPoison => !t.poisonUsed && target.Player? && target.seat in g.alive && target.seat != witch
    case WitchPass => true
    case _ => false
  }

  /** The rules let this seat do this now: a dead hunter's shot, a vote by day, a potion or a night action. */
  predicate Acceptable(b: Board, g: Game, s: Seat, verb: EventKind, target: Name) {
    var state := RuntimeState(b, g.alive, g.lastGuarded);
    if s !in g.alive then
      verb.HunterPass? || (verb.HunterShoot? && target.Player? && TargetAllowed(state, s, verb, target.seat))
    else if g.table.stage.DayStage? then ActionLegal(state, s, VotePhase, verb, target)
    else if HasRole(b, s, Witch) then PotionAllowed(g, s, verb, target)
    else ActionLegal(state, s, NightPhase, verb, target)
  }

  /** What the last turn asked for is against the rules. */
  predicate Refused(b: Board, g: Game) {
    && g.table.heard.Some? && g.turns != []
    && var key := g.turns[|g.turns| - 1].key;
    && !key.slot.ScribeSlot?
    && !Acceptable(b, g, key.slot.seat, g.table.heard.value.0, g.table.heard.value.1)
  }

  // ---- who must have acted ----------------------------------------------------

  /** Everybody of this role has done this deed this round. */
  predicate RoleActed(b: Board, who: set<Seat>, t: Table, r: Role, d: Deed) {
    forall s :: s in who && HasRole(b, s, r) ==> (s, d) in t.acted
  }

  /** The night's turns, in order. In a game already decided at dusk a turn may find nobody to act on. */
  predicate GuardDone(b: Board, t: Table) {
    WinCheck(b, t.dawn).None? ==> RoleActed(b, t.dawn, t, Guard, Protecting)
  }

  predicate WolvesDone(b: Board, t: Table) { WinCheck(b, t.dawn).None? ==> t.victim.Some? }

  predicate SeerDone(b: Board, t: Table) {
    WinCheck(b, t.dawn).None? ==> RoleActed(b, t.dawn, t, Seer, Checking)
  }

  predicate WitchDone(b: Board, t: Table) { RoleActed(b, t.dawn, t, Witch, UsingPotion) }

  predicate NightTurnsTaken(b: Board, t: Table) {
    GuardDone(b, t) && WolvesDone(b, t) && SeerDone(b, t) && WitchDone(b, t)
  }

  /** Night turns come before the night's deaths. */
  predicate StillNight(g: Game) { g.table.stage.NightStage? && g.alive == g.table.dawn }

  /** No dead hunter still has a shot to answer for. */
  predicate NoneToFire(b: Board, g: Game) {
    forall s :: s in g.committed ==> !CanTrigger(b, g, s)
  }

  predicate AllDid(who: set<Seat>, t: Table, d: Deed) {
    forall s :: s in who ==> (s, d) in t.acted
  }

  /** Every living seat before this one has had its turn. */
  predicate TurnReached(g: Game, s: Seat, d: Deed) {
    (s, d) !in g.table.acted && forall x :: x in g.alive && x < s ==> (x, d) in g.table.acted
  }

  /** Uses up or refuses what the last turn asked for. */
  predicate Answers(m: Move) {
    || m.Downgrade? || m.Drop? || m.Propose? || m.Protect? || m.Check? || m.Save? || m.Poison? || m.KeepPotions?
    || m.Vote? || m.Shoot? || m.HoldFire?
  }

  /** A shot is buried, and a request is dealt with, before anything else happens. */
  predicate Legal(b: Board, g: Game, m: Move) {
    (g.table.aim.Some? ==> m.Die?) && (g.table.heard.Some? ==> Answers(m)) && Allowed(b, g, m)
  }

  predicate Allowed(b: Board, g: Game, m: Move) {
    var t := g.table;
    match m
    case Ask(slot, kind, wish) =>
      && LiveKind(kind) && !t.stage.EndStage? && (slot.ShotSlot? || slot !in t.asked)
      && (if slot.SpeechSlot? then wish.None? else wish.Some? <==> kind.LiveSuccess?)
      && (match slot
          case NightSlot(s) =>
            t.stage.NightStage? && s in g.alive && s < |b.roles| && ActsAtNight(b.roles[s])
          case WitchSlot(s) => t.stage.NightStage? && LivingRole(b, g, s, Witch)
          case SpeechSlot(s) => t.stage.DayStage? && s in g.alive
          case VoteSlot(s) => t.stage.DayStage? && s in g.alive
          case ShotSlot(s) => CanTrigger(b, g, s) && s !in t.shotAsked
          case _ => false)
    case AskScribe(kind) =>
      && t.stage.DayStage? && ScribeSlot !in t.asked && (kind.ScaffoldSuccess? || kind.ScaffoldFallback?)
      && AllDid(g.alive, t, Speaking) && t.ballots == multiset{}
    case AskHuman(s, kind, wish) =>
      && !t.stage.EndStage? && s < |b.roles| && (kind.HumanAction? || kind.HumanTimeout?)
      && (wish.Some? ==> kind.HumanAction?)
    case Downgrade => g.turns != [] && Downgradable(g.turns[|g.turns| - 1].kind) && Refused(b, g)
    case Drop => Refused(b, g) && WinCheck(b, g.alive).Some?
    case Propose(s, x) =>
      && t.stage.NightStage? && JustAsked(g, s) && s in LivingWolves(b, g.alive) && x in LivingNonWolves(b, g.alive)
      && t.heard == Some((WerewolfKill, Player(x)))
    case Protect(s, x, d) =>
      && StillNight(g) && LivingRole(b, g, s, Guard) && (s, Protecting) !in t.acted
      && x in g.alive && g.lastGuarded != Some(x) && Follows(g, s, GuardProtect, x, d)
    case Kill(bids, x, p, refs) =>
      && StillNight(g) && t.victim.None? && (p, Killing) !in t.acted && t.heard.None? && GuardDone(b, t)
      && bids == t.bids && (forall w :: w in LivingWolves(b, g.alive) ==> w in t.polled)
      && KillAgreed(b, g, bids, x, p) && PublicIdsOnly(g, refs)
    case Check(s, x, d) =>
      && StillNight(g) && LivingRole(b, g, s, Seer) && (s, Checking) !in t.acted && WolvesDone(b, t)
      && x in g.alive && x != s && Follows(g, s, SeerCheck, x, d)
    case Save(s) =>
      && StillNight(g) && LivingRole(b, g, s, Witch) && (s, UsingPotion) !in t.acted && JustAsked(g, s)
      && SeerDone(b, t) && WolvesDone(b, t)
      && !t.saveUsed && t.victim.Some? && (t.victim == Some(s) ==> t.round == 1)
      && t.heard == Some((WitchSave, Player(t.victim.value)))
    case Poison(s, x) =>
      && StillNight(g) && LivingRole(b, g, s, Witch) && (s, UsingPotion) !in t.acted && JustAsked(g, s)
      && SeerDone(b, t) && WolvesDone(b, t)
      && !t.poisonUsed && x in g.alive && x != s && t.heard == Some((WitchPoison, Player(x)))
    case KeepPotions(s) =>
      && StillNight(g) && LivingRole(b, g, s, Witch) && (s, UsingPotion) !in t.acted
      && SeerDone(b, t) && WolvesDone(b, t) && Abstains(g, s, WitchPass)
    case Die(s, c) =>
      && s in g.alive
      && (if t.aim.Some? then t.aim == Some(s) && c == Shot && !t.stage.EndStage?
          else
            && t.stage.NightStage? && s in Settlement(t).causes && Settlement(t).causes[s] == c
            && NightTurnsTaken(b, t) && NoneToFire(b, g) && (c.Poisoned? ==> AttackedBuried(g)))
    case LastWords(s) => s in g.committed && JustAsked(g, s) && !t.stage.EndStage?
    case Shoot(s, x) =>
      && CanTrigger(b, g, s) && !t.stage.EndStage? && JustAsked(g, s) && x in g.alive && x != s
      && t.heard == Some((HunterShoot, Player(x)))
    case HoldFire(s) => CanTrigger(b, g, s) && !t.stage.EndStage? && Abstains(g, s, HunterPass)
    case Sunrise =>
      && t.stage.NightStage? && DuskSettled(g) && NightTurnsTaken(b, t) && NoneToFire(b, g) && WinCheck(b, g.alive).None?
    case Speak(s) => t.stage.DayStage? && s in g.alive && JustAsked(g, s) && TurnReached(g, s, Speaking)
    case Vote(s, x, d, refs) =>
      && t.stage.DayStage? && s in g.alive && TurnReached(g, s, Voting) && t.ousted.None? && AllDid(g.alive, t, Speaking)
      && x in g.alive && x != s && Follows(g, s, PlayerVote, x, d) && PublicIdsOnly(g, refs)
    case Oust(s) =>
      && t.stage.DayStage? && t.ousted.None? && s in g.alive && s in Leaders(t.ballots, |b.roles|)
      && AllDid(g.alive, t, Speaking) && AllDid(g.alive, t, Voting)
    case Nightfall => t.stage.DayStage? && t.ousted.Some? && NoneToFire(b, g) && WinCheck(b, g.alive).None?
    case Finish(w) =>
      && WinCheck(b, g.alive) == Some(w) && NoneToFire(b, g)
      && (match t.stage
          case NightStage => DuskSettled(g) && NightTurnsTaken(b, t)
          case DayStage => t.ousted.Some?
          case EndStage => false)
  }

  // ---- runs ------------------------------------------------------------------

  function OpeningTable(b: Board): Table {
    Table(1, NightStage, Seats(b), {}, None, {}, [], {}, None, false, None, None, multiset{}, None, false, false, {}, {}, None, map[])
  }

  /** The board right after the role assignment was announced. */
  function Opening(b: Board): Game {
    Game(Seats(b), {}, [NewEvent(b, 0, 0, Setup, RoleAssignment, System, Nobody, Public)], [], [], [], None, 0, 0,
         OpeningTable(b))
  }

  ghost function Play(b: Board, moves: seq<Move>): Option<Game> {
    if moves == [] then Some(Opening(b))
    else
      var before := Play(b, moves[..|moves| - 1]);
      var m := moves[|moves| - 1];
      if before.Some? && Legal(b, before.value, m) then Some(Step(b, before.value, m)) else None
  }

  ghost predicate Reachable(b: Board, g: Game) {
    exists moves :: Play(b, moves) == Some(g)
  }

  lemma ReachStart(b: Board)
    ensures Reachable(b, Opening(b))
  {
    assert Play(b, []) == Some(Opening(b));
  }

  lemma ReachStep(b: Board, g: Game, m: Move)
    requires Reachable(b, g) && Legal(b, g, m)
    ensures Reachable(b, Step(b, g, m))
  {
    hide Legal, Step;
    var moves :| Play(b, moves) == Some(g);
    assert (moves + [m])[..|moves|] == moves;
    assert Play(b, moves + [m]) == Some(Step(b, g, m));
  }
}
