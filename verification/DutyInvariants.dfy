/** Duties: the log shows who has acted this round, nobody is passed over, and decisions keep to what was asked for. */
module DutyInvariants {
  import opened Logs
  import opened Rules
  import opened Referee
  import opened RunInvariants
  import opened CallInvariants
  import opened LogViews

  // ---- one deed each ---------------------------------------------------------

  function DeedsBy(events: seq<Event>, rnd: int, s: Seat, d: Deed): nat {
    |Select(TurnView(rnd, Player(s), d), events)|
  }

  function KillsIn(events: seq<Event>, rnd: int): nat { |Select(NightKillView(rnd), events)| }

  /** What the referee notes as done this round was logged exactly once; what is not noted was not logged. */
  ghost predicate DutyInv(events: seq<Event>, t: Table) {
    && (forall i :: 0 <= i < |events| ==> events[i].round <= t.round)
    && (forall s: Seat, d: Deed :: DeedsBy(events, t.round, s, d) == if (s, d) in t.acted then 1 else 0)
    && KillsIn(events, t.round) == if t.victim.Some? then 1 else 0
  }

  /** A move does nobody's deed, one deed not done before, or opens the next round. */
  predicate DutyMove(t: Table, added: seq<Event>, t': Table) {
    && |added| <= 2
    && (forall e :: e in added ==> e.round == t.round)
    && ( || (t'.round == t.round && t'.acted == t.acted && t'.victim == t.victim
             && forall e :: e in added ==> DeedOf(e.kind).None?)
         || (t'.round == t.round && |added| == 1 && OneDeed(t, added[0], t'))
         || (t'.round == t.round + 1 && t'.acted == {} && t'.victim.None? && added == []))
  }

  predicate OneDeed(t: Table, e: Event, t': Table) {
    && DeedOf(e.kind).Some? && e.actor.Player?
    && (e.actor.seat, DeedOf(e.kind).value) !in t.acted
    && t'.acted == t.acted + {(e.actor.seat, DeedOf(e.kind).value)}
    && if e.kind.WerewolfKill? then t.victim.None? && t'.victim.Some? else t'.victim == t.victim
  }

  /** Whose deed a move is, if anybody's. */
  function DeedIn(m: Move): Option<(Seat, Deed)> {
    match m
    case Protect(s, _, _) => Some((s, Protecting))
    case Kill(_, _, p, _) => Some((p, Killing))
    case Check(s, _, _) => Some((s, Checking))
    case Save(s) => Some((s, UsingPotion))
    case Poison(s, _) => Some((s, UsingPotion))
    case KeepPotions(s) => Some((s, UsingPotion))
    case Speak(s) => Some((s, Speaking))
    case Vote(s, _, _, _) => Some((s, Voting))
    case _ => None
  }

  lemma DeedIsNew(b: Board, g: Game, m: Move)
    requires Legal(b, g, m) && DeedIn(m).Some?
    ensures DeedIn(m).value !in g.table.acted && (m.Kill? ==> g.table.victim.None?)
  {
    hide KillAgreed, WinCheck, PublicIdsOnly, Follows, Abstains, JustAsked, GuardDone, SeerDone, WolvesDone, AllDid,
      LivingWolves;
  }

  lemma DeedLogged(b: Board, g: Game, m: Move)
    requires DeedIn(m).Some?
    ensures |NewEvents(b, g, m)| == 1
    ensures var e, (s, d) := NewEvents(b, g, m)[0], DeedIn(m).value;
            e.round == g.table.round && e.actor == Player(s) && DeedOf(e.kind) == Some(d) && (e.kind.WerewolfKill? <==> m.Kill?)
  {
    hide EventId;
  }

  lemma DeedNoted(g: Game, m: Move)
    requires DeedIn(m).Some?
    ensures NextTable(g, m).acted == g.table.acted + {DeedIn(m).value} && NextTable(g, m).round == g.table.round
    ensures if m.Kill? then NextTable(g, m).victim.Some? else NextTable(g, m).victim == g.table.victim
  {
  }

  lemma NewDeed(b: Board, g: Game, m: Move)
    requires Legal(b, g, m) && DeedIn(m).Some?
    ensures |NewEvents(b, g, m)| == 1 && NewEvents(b, g, m)[0].round == g.table.round == NextTable(g, m).round
    ensures OneDeed(g.table, NewEvents(b, g, m)[0], NextTable(g, m))
  {
    hide *;
    DeedIsNew(b, g, m);
    DeedLogged(b, g, m);
    DeedNoted(g, m);
    JoinDeed(g.table, NewEvents(b, g, m)[0], NextTable(g, m), DeedIn(m).value.0, DeedIn(m).value.1);
  }

  lemma JoinDeed(t: Table, e: Event, t': Table, s: Seat, d: Deed)
    requires e.actor == Player(s) && DeedOf(e.kind) == Some(d) && (s, d) !in t.acted && t'.acted == t.acted + {(s, d)}
    requires if e.kind.WerewolfKill? then t.victim.None? && t'.victim.Some? else t'.victim == t.victim
    ensures OneDeed(t, e, t')
  {
    hide DeedOf;
  }

  lemma NoDeed(b: Board, g: Game, m: Move)
    requires DeedIn(m).None?
    ensures |NewEvents(b, g, m)| <= 2
    ensures forall e :: e in NewEvents(b, g, m) ==> e.round == g.table.round && DeedOf(e.kind).None?
    ensures var t, t' := g.table, NextTable(g, m);
            if m.Nightfall? then t'.round == t.round + 1 && t'.acted == {} && t'.victim.None? && NewEvents(b, g, m) == []
            else t'.round == t.round && t'.acted == t.acted && t'.victim == t.victim
  {
    hide EventId;
  }

  lemma NewDuties(b: Board, g: Game, m: Move)
    requires Legal(b, g, m)
    ensures DutyMove(g.table, NewEvents(b, g, m), NextTable(g, m))
  {
    hide Legal, NewEvents, NextTable, OneDeed, DeedIn;
    if DeedIn(m).Some? {
      NewDeed(b, g, m);
    } else {
      NoDeed(b, g, m);
    }
  }

  lemma {:induction false} NoneSelected(v: View, events: seq<Event>)
    requires forall i :: 0 <= i < |events| ==> !Selects(v, events[i])
    ensures Select(v, events) == []
  {
    if events != [] {
      NoneSelected(v, events[..|events| - 1]);
    }
  }

  lemma DeedsExtend(events: seq<Event>, t: Table, added: seq<Event>, t': Table, s: Seat, d: Deed)
    requires DutyInv(events, t) && DutyMove(t, added, t')
    ensures DeedsBy(events + added, t'.round, s, d) == if (s, d) in t'.acted then 1 else 0
  {
    if |added| > 0 { assert added[0] in added; }
    if |added| > 1 { assert added[1] in added; }
    SelectAppend(TurnView(t'.round, Player(s), d), events, added);
    assert DeedsBy(events, t.round, s, d) == if (s, d) in t.acted then 1 else 0;
    if t'.round == t.round + 1 {
      assert events + added == events;
      NoneSelected(TurnView(t'.round, Player(s), d), events);
    }
  }

  lemma KillsExtend(events: seq<Event>, t: Table, added: seq<Event>, t': Table)
    requires DutyInv(events, t) && DutyMove(t, added, t')
    ensures KillsIn(events + added, t'.round) == if t'.victim.Some? then 1 else 0
  {
    hide Select;
    if |added| > 0 { assert added[0] in added; }
    if |added| > 1 { assert added[1] in added; }
    SelectAppend(NightKillView(t'.round), events, added);
    if t'.round == t.round + 1 {
      assert events + added == events;
      NoneSelected(NightKillView(t'.round), events);
    }
  }

  lemma DutiesStep(b: Board, g: Game, m: Move)
    requires Legal(b, g, m) && DutyInv(g.events, g.table)
    ensures DutyInv(g.events + NewEvents(b, g, m), NextTable(g, m))
  {
    NewDuties(b, g, m);
    hide Legal, NewEvents, NextTable, DeedsBy, KillsIn, OneDeed;
    var es, t' := NewEvents(b, g, m), NextTable(g, m);
    forall s: Seat, d: Deed ensures DeedsBy(g.events + es, t'.round, s, d) == if (s, d) in t'.acted then 1 else 0 {
      DeedsExtend(g.events, g.table, es, t', s, d);
    }
    KillsExtend(g.events, g.table, es, t');
    forall i | 0 <= i < |g.events + es| ensures (g.events + es)[i].round <= t'.round {
      if i >= |g.events| { assert es[i - |g.events|] in es; }
    }
  }

  // ---- nobody is passed over ----------------------------------------------------

  /** By day the night's turns are complete, an elimination follows everybody's vote, the end leaves no shot open. */
  ghost predicate StageInv(b: Board, g: Game) {
    var t := g.table;
    && (!t.stage.NightStage? ==> NightTurnsTaken(b, t))
    && (t.ousted.Some? ==> EverybodyHeard(g))
    && (t.stage.EndStage? ==> NoneToFire(b, g) && t.heard.None? && t.aim.None?)
  }

  ghost predicate EverybodyHeard(g: Game) {
    forall s :: s in g.alive || g.table.ousted == Some(s) ==> (s, Speaking) in g.table.acted && (s, Voting) in g.table.acted
  }

  lemma NightStaysTaken(b: Board, g: Game, m: Move)
    requires Legal(b, g, m) && NightTurnsTaken(b, g.table) && !m.Nightfall?
    ensures NightTurnsTaken(b, NextTable(g, m))
  {
    TableGrows(g, m);
    hide Legal, NextTable, WinCheck;
  }

  /** Until nightfall what was done this round stays done. */
  lemma TableGrows(g: Game, m: Move)
    requires !m.Nightfall?
    ensures var t, t' := g.table, NextTable(g, m);
            t'.dawn == t.dawn && t.acted <= t'.acted && (t.victim.Some? ==> t'.victim.Some?)
  {
    if !m.Kill? {
      VictimFrame(g, m);
    }
    ClockFrame(g, m);
  }

  lemma SunriseIsLate(b: Board, g: Game, m: Move)
    requires Legal(b, g, m) && g.table.stage.NightStage? && !NextTable(g, m).stage.NightStage?
    ensures NightTurnsTaken(b, g.table)
  {
    hide NightTurnsTaken, WinCheck, NoneToFire, KillAgreed, ResolveNight, Refused;
  }

  lemma HeardStays(b: Board, g: Game, m: Move)
    requires Legal(b, g, m) && (g.table.ousted.Some? ==> EverybodyHeard(g))
    ensures NextTable(g, m).ousted.Some? ==> EverybodyHeard(Step(b, g, m))
  {
    hide NewEvents, NewDecisions, NewConsensus, NextTurns;
    if m.Oust? {
      OustIsLate(b, g, m);
      hide Legal;
    } else {
      OustedStays(g, m);
      hide Legal, NextTable;
    }
  }

  lemma OustedStays(g: Game, m: Move)
    requires !m.Oust?
    ensures var t, t' := g.table, NextTable(g, m);
            t'.ousted.Some? ==> t'.ousted == t.ousted && t.acted <= t'.acted
  {
    VoteFrame(g, m);
    ClockFrame(g, m);
    hide NextTable;
  }

  lemma OustIsLate(b: Board, g: Game, m: Move)
    requires Legal(b, g, m) && m.Oust?
    ensures m.seat in g.alive && AllDid(g.alive, g.table, Speaking) && AllDid(g.alive, g.table, Voting)
  {
    hide Leaders, AllDid;
  }

  lemma NothingAfterTheEnd(b: Board, g: Game, m: Move)
    requires Legal(b, g, m)
    requires g.table.stage.EndStage? ==> g.table.heard.None? && g.table.aim.None?
    ensures !g.table.stage.EndStage?
  {
    hide WinCheck, NoneToFire, KillAgreed, ResolveNight, Leaders, NightTurnsTaken, GuardDone, SeerDone, WolvesDone;
  }

  lemma EndIsSettled(b: Board, g: Game, m: Move)
    requires Legal(b, g, m) && !g.table.stage.EndStage? && NextTable(g, m).stage.EndStage?
    ensures m.Finish? && NoneToFire(b, g) && g.table.heard.None? && g.table.aim.None?
  {
    hide WinCheck, NoneToFire, KillAgreed, ResolveNight, Leaders, NightTurnsTaken, Refused;
  }

  lemma StageStep(b: Board, g: Game, m: Move)
    requires Legal(b, g, m) && StageInv(b, g)
    ensures StageInv(b, Step(b, g, m))
  {
    NothingAfterTheEnd(b, g, m);
    HeardStays(b, g, m);
    var h := Step(b, g, m);
    if !h.table.stage.NightStage? {
      if g.table.stage.NightStage? {
        SunriseIsLate(b, g, m);
      }
      NightStaysTaken(b, g, m);
    }
    if h.table.stage.EndStage? {
      EndIsSettled(b, g, m);
    }
    hide Legal, NightTurnsTaken, EverybodyHeard, NewEvents, NewDecisions, NewConsensus, NextTurns;
  }

  // ---- decisions and turns --------------------------------------------------------

  /** Own choices rest on turns that succeeded, random picks on turns that did not; potions and shots are always chosen. */
  predicate KindFits(d: Decision, kind: TurnKind) {
    match d.action
    case GuardProtect => ChosenOrPicked(d, kind)
    case SeerCheck => ChosenOrPicked(d, kind)
    case PlayerVote => ChosenOrPicked(d, kind)
    case WitchSave => Downgradable(kind)
    case WitchPoison => Downgradable(kind)
    case HunterShoot => Downgradable(kind)
    case _ => true
  }

  predicate ChosenOrPicked(d: Decision, kind: TurnKind) {
    if d.dtype.InferenceBased? then Downgradable(kind) else d.dtype.Default? && !Downgradable(kind)
  }

  ghost predicate Honoured(d: Decision, turns: seq<Turn>) {
    if d.action.WerewolfKill? then d.request.None?
    else
      d.request.Some? && exists i :: 0 <= i < |turns| && turns[i].key == d.request.value && KindFits(d, turns[i].kind)
  }

  ghost predicate HonestInv(decisions: seq<Decision>, turns: seq<Turn>, t: Table) {
    && (forall k :: 0 <= k < |decisions| ==> Honoured(decisions[k], turns))
    && (t.heard.Some? ==> Unused(decisions, turns))
  }

  /** The last turn succeeded and no decision rests on it yet. */
  ghost predicate Unused(decisions: seq<Decision>, turns: seq<Turn>) {
    && turns != [] && Downgradable(turns[|turns| - 1].kind)
    && forall k :: 0 <= k < |decisions| ==> decisions[k].request != Some(turns[|turns| - 1].key)
  }

  lemma HonouredStays(d: Decision, turns: seq<Turn>, turns': seq<Turn>)
    requires Honoured(d, turns) && |turns| <= |turns'|
    requires forall i :: 0 <= i < |turns| && d.request == Some(turns[i].key) ==> turns'[i] == turns[i]
    ensures Honoured(d, turns')
  {
    if !d.action.WerewolfKill? {
      var i :| 0 <= i < |turns| && turns[i].key == d.request.value && KindFits(d, turns[i].kind);
      assert turns'[i] == turns[i];
    }
  }

  lemma AskIsHonest(b: Board, g: Game, m: Move)
    requires Legal(b, g, m) && (m.Ask? || m.AskScribe? || m.AskHuman?)
    requires HonestInv(g.decisions, g.turns, g.table) && CallInv(g.turns, g.used, g.windows, g.table)
    ensures HonestInv(g.decisions, NextTurns(g, m), NextTable(g, m))
  {
    NewTurn(b, g, m);
    var turns' := NextTurns(g, m);
    var last := turns'[|g.turns|];
    AskedWell(b, g, m);
    forall k | 0 <= k < |g.decisions|
      ensures Honoured(g.decisions[k], turns') && g.decisions[k].request != Some(last.key)
    {
      HonouredStays(g.decisions[k], g.turns, turns');
      if !g.decisions[k].action.WerewolfKill? {
        var i :| 0 <= i < |g.turns| && g.turns[i].key == g.decisions[k].request.value;
        NewKey(b, g, m, g.turns[i]);
      }
    }
    hide Legal, NextTable, NextTurns, Honoured;
  }

  lemma AskedWell(b: Board, g: Game, m: Move)
    requires Legal(b, g, m) && (m.Ask? || m.AskScribe? || m.AskHuman?)
    ensures NextTable(g, m).heard.Some? ==> Downgradable(NextTurns(g, m)[|g.turns|].kind)
  {
    hide JustAsked, KillAgreed, WinCheck, ResolveNight, NoneToFire, NightTurnsTaken;
  }

  lemma DowngradeIsHonest(b: Board, g: Game, m: Move)
    requires Legal(b, g, m) && m.Downgrade? && HonestInv(g.decisions, g.turns, g.table)
    ensures HonestInv(g.decisions, NextTurns(g, m), NextTable(g, m))
  {
    forall k | 0 <= k < |g.decisions| ensures Honoured(g.decisions[k], NextTurns(g, m)) {
      HonouredStays(g.decisions[k], g.turns, NextTurns(g, m));
    }
  }

  lemma DeedIsHonest(b: Board, g: Game, m: Move)
    requires Legal(b, g, m) && HonestInv(g.decisions, g.turns, g.table) && NewDecisions(b, g, m) != []
    ensures |NewDecisions(b, g, m)| == 1 && Honoured(NewDecisions(b, g, m)[0], g.turns)
    ensures NextTurns(g, m) == g.turns && NextTable(g, m).heard.None?
  {
    hide DecisionId, ConsensusId, ResolveNight, KillAgreed, Leaders, WinCheck, PublicIdsOnly, NoneToFire, GuardDone, SeerDone,
      WolvesDone, LivingWolves, LivingNonWolves, TurnReached, AllDid;
    if !m.Kill? {
      assert g.turns != [] && KindFits(NewDecisions(b, g, m)[0], g.turns[|g.turns| - 1].kind);
    }
  }

  lemma OthersAreHonest(b: Board, g: Game, m: Move)
    requires Legal(b, g, m) && NewDecisions(b, g, m) == []
    requires !m.Ask? && !m.AskScribe? && !m.AskHuman? && !m.Downgrade?
    ensures NextTurns(g, m) == g.turns
    ensures NextTable(g, m).heard.Some? ==> NextTable(g, m).heard == g.table.heard
  {
    hide Legal;
  }

  lemma HonestStep(b: Board, g: Game, m: Move)
    requires Legal(b, g, m) && HonestInv(g.decisions, g.turns, g.table) && CallInv(g.turns, g.used, g.windows, g.table)
    ensures HonestInv(g.decisions + NewDecisions(b, g, m), NextTurns(g, m), NextTable(g, m))
  {
    if m.Ask? || m.AskScribe? || m.AskHuman? {
      assert g.decisions + NewDecisions(b, g, m) == g.decisions;
      AskIsHonest(b, g, m);
    } else if m.Downgrade? {
      assert g.decisions + NewDecisions(b, g, m) == g.decisions;
      DowngradeIsHonest(b, g, m);
    } else if NewDecisions(b, g, m) != [] {
      DeedIsHonest(b, g, m);
      hide Legal, NewDecisions, Honoured;
    } else {
      OthersAreHonest(b, g, m);
      assert g.decisions + NewDecisions(b, g, m) == g.decisions;
    }
  }
}
