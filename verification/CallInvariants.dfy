/** Provider calls: every request has its own key, every charge is a recorded turn, and the total is bounded. */
module CallInvariants {
  import opened Logs
  import opened Rules
  import opened Referee
  import opened RunInvariants

  predicate Charged(tn: Turn) { tn.live || tn.key.slot.ScribeSlot? }

  function CountCharged(turns: seq<Turn>): nat {
    if turns == [] then 0
    else CountCharged(turns[..|turns| - 1]) + (if Charged(turns[|turns| - 1]) then 1 else 0)
  }

  /** The referee's notes know this request. */
  predicate Booked(tn: Turn, t: Table, windows: nat) {
    && tn.key.round <= t.round
    && match tn.key.slot
       case ShotSlot(s) => s in t.shotAsked
       case WindowSlot(_, k) => k <= windows
       case slot => tn.key.round == t.round ==> slot in t.asked
  }

  predicate HonestKind(tn: Turn) {
    && (tn.live <==> !tn.key.slot.ScribeSlot? && !tn.key.slot.WindowSlot?)
    && (tn.kind.LiveSuccess? ==> tn.live)
  }

  ghost predicate CallInv(turns: seq<Turn>, used: nat, windows: nat, t: Table) {
    && used == CountCharged(turns)
    && (forall i :: 0 <= i < |turns| ==> Booked(turns[i], t, windows) && HonestKind(turns[i]))
    && (forall i, j :: 0 <= i < j < |turns| ==> turns[i].key != turns[j].key)
  }

  lemma CallGrow(turns: seq<Turn>, used: nat, windows: nat, t: Table, tn: Turn, windows': nat, t': Table)
    requires CallInv(turns, used, windows, t)
    requires forall i :: 0 <= i < |turns| ==> Booked(turns[i], t', windows') && turns[i].key != tn.key
    requires Booked(tn, t', windows') && HonestKind(tn)
    ensures CallInv(turns + [tn], if Charged(tn) then used + 1 else used, windows', t')
  {
    assert (turns + [tn])[..|turns|] == turns;
  }

  lemma BookedStays(b: Board, g: Game, m: Move, tn: Turn)
    requires Legal(b, g, m) && Booked(tn, g.table, g.windows)
    ensures Booked(tn, NextTable(g, m), if m.AskHuman? then g.windows + 1 else g.windows)
  {
    hide Legal;
  }

  lemma NewKey(b: Board, g: Game, m: Move, tn: Turn)
    requires Legal(b, g, m) && Booked(tn, g.table, g.windows)
    requires m.Ask? || m.AskScribe? || m.AskHuman?
    ensures NextTurns(g, m) == g.turns + [NextTurns(g, m)[|g.turns|]]
    ensures NextTurns(g, m)[|g.turns|].key != tn.key
  {
  }

  lemma NewTurn(b: Board, g: Game, m: Move)
    requires Legal(b, g, m)
    requires m.Ask? || m.AskScribe? || m.AskHuman?
    ensures NextTurns(g, m) == g.turns + [NextTurns(g, m)[|g.turns|]]
    ensures var tn := NextTurns(g, m)[|g.turns|];
            && Booked(tn, NextTable(g, m), if m.AskHuman? then g.windows + 1 else g.windows)
            && HonestKind(tn) && (Charged(tn) <==> m.Ask? || m.AskScribe?)
  {
  }

  lemma CallStep(b: Board, g: Game, m: Move)
    requires Legal(b, g, m) && CallInv(g.turns, g.used, g.windows, g.table)
    ensures CallInv(NextTurns(g, m), if m.Ask? || m.AskScribe? then g.used + 1 else g.used,
                    if m.AskHuman? then g.windows + 1 else g.windows, NextTable(g, m))
  {
    hide Legal, NextTable, Booked, HonestKind, Charged;
    var windows' := if m.AskHuman? then g.windows + 1 else g.windows;
    forall i | 0 <= i < |g.turns| ensures Booked(g.turns[i], NextTable(g, m), windows') {
      BookedStays(b, g, m, g.turns[i]);
    }
    if m.Ask? || m.AskScribe? || m.AskHuman? {
      NewTurn(b, g, m);
      forall i | 0 <= i < |g.turns| ensures g.turns[i].key != NextTurns(g, m)[|g.turns|].key {
        NewKey(b, g, m, g.turns[i]);
      }
      hide NextTurns;
      CallGrow(g.turns, g.used, g.windows, g.table, NextTurns(g, m)[|g.turns|], windows', NextTable(g, m));
    } else if m.Downgrade? {
      CallDowngraded(b, g, m, windows');
    }
  }

  lemma CallDowngraded(b: Board, g: Game, m: Move, windows': nat)
    requires m.Downgrade? && Legal(b, g, m) && CallInv(g.turns, g.used, g.windows, g.table)
    requires forall i :: 0 <= i < |g.turns| ==> Booked(g.turns[i], NextTable(g, m), windows')
    ensures CallInv(NextTurns(g, m), g.used, windows', NextTable(g, m))
  {
    var turns' := NextTurns(g, m);
    assert turns'[..|turns'| - 1] == g.turns[..|g.turns| - 1];
  }

  // ---- how many calls a run can make ------------------------------------------

  /** At most three calls per living player and one scribe call in each of the first `rounds` rounds. */
  function Ceiling(players: nat, rounds: nat): nat {
    if rounds == 0 then 0
    else Ceiling(players, rounds - 1) + (if rounds <= players then 3 * (players - rounds + 1) else 0) + 1
  }

  lemma {:induction false} CeilingGrows(players: nat, r: nat, s: nat)
    requires r <= s
    ensures Ceiling(players, r) <= Ceiling(players, s)
  {
    if r < s { CeilingGrows(players, r, s - 1); }
  }

  predicate DayDuty(b: Board, dawn: set<Seat>, slot: Slot) {
    match slot
    case NightSlot(s) => s in dawn && !HasRole(b, s, Witch)
    case WitchSlot(s) => s in dawn && HasRole(b, s, Witch)
    case SpeechSlot(s) => s in dawn
    case VoteSlot(s) => s in dawn
    case ScribeSlot => true
    case _ => false
  }

  ghost predicate BudgetInv(b: Board, used: nat, t: Table) {
    && t.round >= 1
    && (forall slot :: slot in t.asked ==> DayDuty(b, t.dawn, slot))
    && used <= Ceiling(|b.roles|, t.round - 1) + |t.asked| + |t.shotAsked|
  }

  lemma ImageNoLarger(seats: set<Seat>, f: Seat -> Slot)
    ensures |set s | s in seats :: f(s)| <= |seats|
  {
    if seats != {} {
      var s :| s in seats;
      var rest := seats - {s};
      ImageNoLarger(rest, f);
      assert (set x | x in seats :: f(x)) == (set x | x in rest :: f(x)) + {f(s)};
    }
  }

  lemma DutiesBounded(b: Board, dawn: set<Seat>, asked: set<Slot>)
    requires forall slot :: slot in asked ==> DayDuty(b, dawn, slot)
    ensures |asked| <= 3 * |dawn| + 1
  {
    var night := (s: Seat) => if HasRole(b, s, Witch) then WitchSlot(s) else NightSlot(s);
    var speech := (s: Seat) => SpeechSlot(s);
    var vote := (s: Seat) => VoteSlot(s);
    var nights, speeches, votes :=
      set s | s in dawn :: night(s), set s | s in dawn :: speech(s), set s | s in dawn :: vote(s);
    ImageNoLarger(dawn, night);
    ImageNoLarger(dawn, speech);
    ImageNoLarger(dawn, vote);
    forall slot | slot in asked ensures slot in nights + speeches + votes + {ScribeSlot} {
      assert DayDuty(b, dawn, slot);
      match slot
      case NightSlot(s) => assert night(s) == slot;
      case WitchSlot(s) => assert night(s) == slot;
      case SpeechSlot(s) => assert speech(s) == slot;
      case VoteSlot(s) => assert vote(s) == slot;
      case _ =>
    }
    SmallerSet(asked, nights + speeches + votes + {ScribeSlot});
  }

  lemma DutyStep(b: Board, g: Game, m: Move)
    requires Legal(b, g, m) && g.alive <= g.table.dawn
    requires forall slot :: slot in g.table.asked ==> DayDuty(b, g.table.dawn, slot)
    ensures forall slot :: slot in NextTable(g, m).asked ==> DayDuty(b, NextTable(g, m).dawn, slot)
  {
    hide ResolveNight, KillAgreed, Leaders, WinCheck, PublicIdsOnly;
  }

  /** One charge makes room for itself in the asked sets; other moves leave them alone or start a round. */
  lemma ChargeStep(b: Board, g: Game, m: Move)
    requires Legal(b, g, m)
    ensures var t, t' := g.table, NextTable(g, m);
            || (t'.round == t.round && |t'.asked| + |t'.shotAsked| == |t.asked| + |t.shotAsked| +
                                       (if m.Ask? || m.AskScribe? then 1 else 0))
            || (m.Nightfall? && t'.round == t.round + 1 && t'.asked == {} && t'.shotAsked == t.shotAsked)
  {
    hide ResolveNight, KillAgreed, Leaders, WinCheck, PublicIdsOnly;
    var t := g.table;
    if m.Ask? && !m.slot.ShotSlot? {
      assert |t.asked + {m.slot}| == |t.asked| + 1;
    } else if m.Ask? {
      assert |t.shotAsked + {m.slot.seat}| == |t.shotAsked| + 1;
    } else if m.AskScribe? {
      assert |t.asked + {ScribeSlot}| == |t.asked| + 1;
    }
  }

  lemma BudgetStep(b: Board, g: Game, m: Move)
    requires Legal(b, g, m) && DayInv(b, g.alive, g.table) && BudgetInv(b, g.used, g.table)
    ensures BudgetInv(b, if m.Ask? || m.AskScribe? then g.used + 1 else g.used, NextTable(g, m))
  {
    hide Legal, NextTable, DayDuty;
    DutyStep(b, g, m);
    ChargeStep(b, g, m);
    DutiesBounded(b, g.table.dawn, g.table.asked);
  }

  /** Charges so far, for any provider answers: the rounds' duties plus one shot per death. */
  lemma ChargesBounded(b: Board, g: Game)
    requires LifeInv(b, g.alive, g.committed, g.table) && BudgetInv(b, g.used, g.table)
    ensures g.used <= Ceiling(|b.roles|, g.table.round) + |g.committed|
  {
    DutiesBounded(b, g.table.dawn, g.table.asked);
    SmallerSet(g.table.shotAsked, g.committed);
  }
}
