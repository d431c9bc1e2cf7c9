/** The records of a run: events, decisions, consensus entries and provider turns. */
module Logs {
  import opened Text

  datatype Option<+T> = None | Some(value: T)

  /** Seats are numbered in seat order; seat s is written "p{s+1}". */
  type Seat = nat

  datatype Role = Werewolf | Seer | Witch | Villager | Hunter | Guard

  datatype Team = WerewolfTeam | VillagerTeam | OtherTeam(text: string)

  datatype Phase = Setup | Night | Day | GameEnd | OtherPhase(text: string)

  /** What an actor or target field can hold. */
  datatype Name =
    | Player(seat: Seat)
    | System
    | WolfPack
    | Nobody
    | VillagerSide
    | WerewolfSide
    | OtherName(text: string)

  datatype Visibility =
    | Public | Everyone | WolvesOnly | SeerOnly | WitchOnly | HunterOnly | GuardOnly
    | SpecificPlayers
    | OtherVisibility(text: string)

  datatype EventKind =
    | RoleAssignment
    | GuardProtect | WerewolfKill | SeerCheck | WitchSave | WitchPoison | WitchPass
    | PlayerDied | FinalWords
    | DayAnnouncement | PlayerSpeech | PlayerVote | PlayerEliminated | RoleRevealed
    | HunterShoot | HunterPass
    | GameOver
    | OtherKind(text: string)

  datatype Event = Event(
    id: string, sequence: int, round: int, phase: Phase, kind: EventKind,
    actor: Name, target: Name, visibility: Visibility, hasSummary: bool, refs: seq<string>)

  datatype Scope = Single | TeamScope | OtherScope(text: string)

  datatype DecisionType = InferenceBased | Random | Retaliatory | TeamCoordinated | Default | OtherType(text: string)

  datatype Decision = Decision(
    id: string, actor: Name, scope: Scope, consensusId: Option<string>, phase: Phase, round: int,
    action: EventKind, target: Name, refs: seq<string>, dtype: DecisionType, request: Option<RequestKey>)

  datatype Status = Consensus | AcceptedConsensus | CoordinatorTieBreak | ForcedRandom | OtherStatus(text: string)

  datatype ResponseType = SupportWithReason | OpposeWithReason | ReviseTarget | Abstain | OtherResponse(text: string)

  datatype Proposal = Proposal(id: int, proposer: Name, target: Name, refs: seq<string>, actionRound: int)

  datatype Response = Response(
    id: int, toProposal: int, responder: Name, kind: ResponseType, refs: seq<string>, actionRound: int)

  datatype FinalDecision = FinalDecision(
    target: Name, dtype: Status, primary: Name, supporters: seq<Name>, dissenters: seq<Name>, resolutionRound: int)

  datatype ConsensusEntry = ConsensusEntry(
    id: string, gameId: string, round: int, phase: Phase, team: Team, participants: seq<Name>, coordinator: Name,
    maxRounds: int, actualRounds: int, status: Status, proposals: seq<Proposal>, responses: seq<Response>,
    final: FinalDecision)

  /** What a provider or participant request was for; the seat and purpose give the request id its suffix. */
  datatype Slot =
    | NightSlot(seat: Seat)
    | WitchSlot(seat: Seat)
    | SpeechSlot(seat: Seat)
    | VoteSlot(seat: Seat)
    | ShotSlot(seat: Seat)
    | ScribeSlot
    | WindowSlot(seat: Seat, number: nat)

  datatype RequestKey = RequestKey(round: nat, slot: Slot)

  datatype TurnKind =
    | LiveSuccess | InvalidFallback | TimeoutFallback | ErrorFallback
    | ScaffoldSuccess | ScaffoldFallback
    | HumanAction | HumanTimeout

  datatype Turn = Turn(key: RequestKey, live: bool, kind: TurnKind)

  // ---- the documents a finished run hands over --------------------------------

  datatype PlayerEntry = PlayerEntry(name: Name, role: Role, team: Team)

  datatype EndCondition = AllWolvesEliminated | WolvesReachParity | BudgetExhausted | RoundCap

  datatype GameResult = GameResult(winner: Team, endRound: int, survivors: seq<Name>, endCondition: EndCondition)

  datatype GameLog = GameLog(
    gameId: string, sourceLabel: string, players: seq<PlayerEntry>, events: seq<Event>, result: GameResult)

  datatype DecisionLog = DecisionLog(id: string, gameId: string, sourceLabel: string, decisions: seq<Decision>)

  datatype ConsensusLog = ConsensusLog(
    id: string, gameId: string, sourceLabel: string, consensuses: seq<ConsensusEntry>)

  function TeamOf(role: Role): Team {
    if role == Werewolf then WerewolfTeam else VillagerTeam
  }

  predicate Distinct<T(==)>(items: seq<T>) {
    forall i, j :: 0 <= i < j < |items| ==> items[i] != items[j]
  }

  predicate IsPublic(v: Visibility) { v.Public? || v.Everyone? }

  function SeatText(s: Seat): string { "p" + Digits(s + 1) }

  function EventId(gameId: string, sequence: nat): string { gameId + "_e" + Pad(sequence, 3) }

  function DecisionId(gameId: string, count: nat): string { gameId + "_d" + Pad(count, 3) }

  function ConsensusId(gameId: string, round: nat): string { gameId + "_consensus_r" + Pad(round, 2) }

  /** The participant controller's id for its `counter`-th window. */
  function WindowId(runId: string, seatId: string, counter: nat): string {
    "aw_" + runId + "_" + seatId + "_" + Pad(counter, 4)
  }

  function SlotTail(gameId: string, slot: Slot): string {
    match slot
    case NightSlot(_) => ""
    case WitchSlot(_) => "_witch"
    case SpeechSlot(_) => "_speech"
    case VoteSlot(_) => "_vote"
    case ShotSlot(_) => "_shot"
    case ScribeSlot => ""
    case WindowSlot(s, k) => "_" + WindowId(gameId, SeatText(s), k)
  }

  function SlotText(gameId: string, slot: Slot): string {
    if slot.ScribeSlot? then "scribe" else SeatText(slot.seat) + SlotTail(gameId, slot)
  }

  function RequestText(gameId: string, key: RequestKey): string {
    gameId + "_r" + Pad(key.round, 2) + "_" + SlotText(gameId, key.slot)
  }

  lemma SamePrefix(prefix: string, a: string, b: string)
    requires prefix + a == prefix + b
    ensures a == b
  {
    assert (prefix + a)[|prefix|..] == a;
    assert (prefix + b)[|prefix|..] == b;
  }

  lemma EventIdInjective(gameId: string, m: nat, n: nat)
    requires EventId(gameId, m) == EventId(gameId, n)
    ensures m == n
  {
    SamePrefix(gameId + "_e", Pad(m, 3), Pad(n, 3));
    PadInjective(m, n, 3);
  }

  lemma DecisionIdInjective(gameId: string, m: nat, n: nat)
    requires DecisionId(gameId, m) == DecisionId(gameId, n)
    ensures m == n
  {
    SamePrefix(gameId + "_d", Pad(m, 3), Pad(n, 3));
    PadInjective(m, n, 3);
  }

  lemma ConsensusIdInjective(gameId: string, m: nat, n: nat)
    requires ConsensusId(gameId, m) == ConsensusId(gameId, n)
    ensures m == n
  {
    SamePrefix(gameId + "_consensus_r", Pad(m, 2), Pad(n, 2));
    PadInjective(m, n, 2);
  }

  /** Two windows opened under different counters never share an id, whatever the run and seat names. */
  lemma WindowIdInjective(run1: string, seat1: string, m: nat, run2: string, seat2: string, n: nat)
    requires WindowId(run1, seat1, m) == WindowId(run2, seat2, n)
    ensures m == n
  {
    var left, right := "aw_" + run1 + "_" + seat1, "aw_" + run2 + "_" + seat2;
    assert WindowId(run1, seat1, m) == left + ['_'] + Pad(m, 4);
    assert WindowId(run2, seat2, n) == right + ['_'] + Pad(n, 4);
    SplitAtLast(left, Pad(m, 4), right, Pad(n, 4), '_');
    PadInjective(m, n, 4);
  }

  lemma SlotTailInjective(gameId: string, a: Slot, b: Slot)
    requires !a.ScribeSlot? && !b.ScribeSlot? && a.seat == b.seat
    requires SlotTail(gameId, a) == SlotTail(gameId, b)
    ensures a == b
  {
    if a.WindowSlot? || b.WindowSlot? {
      var w := if a.WindowSlot? then a else b;
      var tail := SlotTail(gameId, w);
      assert tail[..3] == "_aw";
      assert tail[1] == 'a';
      if a.WindowSlot? && b.WindowSlot? {
        SamePrefix("_", WindowId(gameId, SeatText(a.seat), a.number), WindowId(gameId, SeatText(b.seat), b.number));
        WindowIdInjective(gameId, SeatText(a.seat), a.number, gameId, SeatText(b.seat), b.number);
      }
    }
  }

  lemma SlotTextInjective(gameId: string, a: Slot, b: Slot)
    requires SlotText(gameId, a) == SlotText(gameId, b)
    ensures a == b
  {
    if a.ScribeSlot? || b.ScribeSlot? {
      assert SlotText(gameId, a)[0] == (if a.ScribeSlot? then 's' else 'p');
      assert SlotText(gameId, b)[0] == (if b.ScribeSlot? then 's' else 'p');
    } else {
      var ta, tb := SlotTail(gameId, a), SlotTail(gameId, b);
      assert SlotText(gameId, a) == SeatText(a.seat) + ta;
      assert SlotText(gameId, b) == SeatText(b.seat) + tb;
      assert SeatText(a.seat) + ta + "_" == SeatText(b.seat) + tb + "_";
      SeatPrefix(a.seat, ta, b.seat, tb);
      SlotTailInjective(gameId, a, b);
    }
  }

  lemma SeatPrefix(s: Seat, x: string, t: Seat, y: string)
    requires SeatText(s) + x == SeatText(t) + y
    requires x == "" || x[0] == '_'
    requires y == "" || y[0] == '_'
    ensures s == t && x == y
  {
    var xs, ys := x + "_", y + "_";
    assert SeatText(s) + xs == SeatText(s) + x + "_" == SeatText(t) + y + "_" == SeatText(t) + ys;
    assert xs == ['_'] + xs[1..] && ys == ['_'] + ys[1..];
    assert SeatText(s) + ['_'] + xs[1..] == SeatText(s) + xs;
    assert SeatText(t) + ['_'] + ys[1..] == SeatText(t) + ys;
    SplitAtFirst(SeatText(s), xs[1..], SeatText(t), ys[1..], '_');
    SamePrefix("p", Digits(s + 1), Digits(t + 1));
    DigitsValue(s + 1);
    DigitsValue(t + 1);
    assert x == xs[..|xs| - 1] && y == ys[..|ys| - 1];
  }

  /** A request id names one round, seat and purpose. */
  lemma RequestTextInjective(gameId: string, a: RequestKey, b: RequestKey)
    requires RequestText(gameId, a) == RequestText(gameId, b)
    ensures a == b
  {
    hide Pad, SlotText;
    var x, y := SlotText(gameId, a.slot), SlotText(gameId, b.slot);
    assert RequestText(gameId, a) == (gameId + "_r") + (Pad(a.round, 2) + ['_'] + x);
    assert RequestText(gameId, b) == (gameId + "_r") + (Pad(b.round, 2) + ['_'] + y);
    SamePrefix(gameId + "_r", Pad(a.round, 2) + ['_'] + x, Pad(b.round, 2) + ['_'] + y);
    SplitAtFirst(Pad(a.round, 2), x, Pad(b.round, 2), y, '_');
    PadInjective(a.round, b.round, 2);
    SlotTextInjective(gameId, a.slot, b.slot);
  }
}
