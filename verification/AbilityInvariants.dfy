/** Abilities over a whole run: potions, guarding, hunter shots, the wolves' kill and the vote. */
module AbilityInvariants {
  import opened Logs
  import opened Rules
  import opened Referee
  import opened RunInvariants
  import opened LogViews
  import opened LogInvariants

  // ---- potions --------------------------------------------------------------

  predicate KillLogged(events: seq<Event>, upTo: nat, rnd: int, target: Name)
    requires upTo <= |events|
  {
    exists j :: 0 <= j < upTo && events[j].kind.WerewolfKill? && events[j].round == rnd && events[j].target == target
  }

  /** A save answers an earlier kill event of the same night, and is a self-save only on the first night. */
  predicate SaveOk(events: seq<Event>, i: nat)
    requires i < |events|
  {
    events[i].kind.WitchSave? ==>
      && KillLogged(events, i, events[i].round, events[i].target)
      && (events[i].actor == events[i].target ==> events[i].round == 1)
  }

  ghost predicate PotionInv(events: seq<Event>, t: Table) {
    && |Select(KindView(WitchSave), events)| == (if t.saveUsed then 1 else 0)
    && |Select(KindView(WitchPoison), events)| == (if t.poisonUsed then 1 else 0)
    && (forall i :: 0 <= i < |events| ==> SaveOk(events, i))
    && (t.victim.Some? ==> KillLogged(events, |events|, t.round, Player(t.victim.value)))
  }

  lemma KillStaysLogged(events: seq<Event>, added: seq<Event>, upTo: nat, rnd: int, target: Name)
    requires upTo <= |events| && KillLogged(events, upTo, rnd, target)
    ensures KillLogged(events + added, upTo, rnd, target)
  {
    var j :| 0 <= j < upTo && events[j].kind.WerewolfKill? && events[j].round == rnd && events[j].target == target;
    assert (events + added)[j] == events[j];
  }

  /** A move uses at most one potion, spends it for good, and saves only tonight's victim. */
  predicate PotionMove(t: Table, added: seq<Event>, t': Table) {
    && |added| <= 2
    && (forall e :: e in added && e.kind.WitchSave? ==>
          added == [e] && !t.saveUsed && t'.saveUsed && e.round == t.round && t.victim.Some?
          && e.target == Player(t.victim.value) && (e.actor == e.target ==> e.round == 1))
    && (forall e :: e in added && e.kind.WitchPoison? ==> added == [e] && !t.poisonUsed && t'.poisonUsed)
    && ((forall e :: e in added ==> !e.kind.WitchSave?) ==> t'.saveUsed == t.saveUsed)
    && ((forall e :: e in added ==> !e.kind.WitchPoison?) ==> t'.poisonUsed == t.poisonUsed)
    && (t'.victim.Some? ==>
          || (t'.victim == t.victim && t'.round == t.round)
          || (|added| == 1 && added[0].kind.WerewolfKill? && added[0].round == t'.round
              && added[0].target == Player(t'.victim.value)))
  }

  lemma NewPotions(b: Board, g: Game, m: Move)
    requires Legal(b, g, m)
    ensures PotionMove(g.table, NewEvents(b, g, m), NextTable(g, m))
  {
    if m.Save? || m.Poison? || m.Kill? {
      NewPotion(b, g, m);
    } else {
      NoPotionWritten(b, g, m);
      NoPotionNoted(g, m);
      hide Legal, NewEvents, NextTable;
    }
  }

  lemma NoPotionWritten(b: Board, g: Game, m: Move)
    requires !m.Save? && !m.Poison?
    ensures |NewEvents(b, g, m)| <= 2
    ensures forall i :: 0 <= i < |NewEvents(b, g, m)| ==>
              !NewEvents(b, g, m)[i].kind.WitchSave? && !NewEvents(b, g, m)[i].kind.WitchPoison?
  {
    hide EventId;
  }

  lemma NoPotionNoted(g: Game, m: Move)
    requires !m.Save? && !m.Poison? && !m.Kill?
    ensures var t, t' := g.table, NextTable(g, m);
            && t'.saveUsed == t.saveUsed && t'.poisonUsed == t.poisonUsed
            && (t'.victim.Some? ==> t'.victim == t.victim && t'.round == t.round)
  {
    PotionFrame(g, m);
    VictimFrame(g, m);
    ClockFrame(g, m);
    hide NextTable;
  }

  lemma NewPotion(b: Board, g: Game, m: Move)
    requires Legal(b, g, m) && (m.Save? || m.Poison? || m.Kill?)
    ensures PotionMove(g.table, NewEvents(b, g, m), NextTable(g, m))
  {
    hide EventId, ResolveNight, KillAgreed, WinCheck, PublicIdsOnly, GuardDone, SeerDone, WolvesDone, JustAsked;
    assert NewEvents(b, g, m)[0] in NewEvents(b, g, m);
  }

  lemma PotionExtend(events: seq<Event>, t: Table, added: seq<Event>, t': Table)
    requires PotionInv(events, t) && PotionMove(t, added, t')
    ensures PotionInv(events + added, t')
  {
    SelectAppend(KindView(WitchSave), events, added);
    SelectAppend(KindView(WitchPoison), events, added);
    if |added| > 0 { assert added[0] in added; }
    if |added| > 1 { assert added[1] in added; }
    forall i | 0 <= i < |events + added| ensures SaveOk(events + added, i) {
      if i < |events| {
        assert SaveOk(events, i) && (events + added)[i] == events[i];
        if events[i].kind.WitchSave? {
          KillStaysLogged(events, added, i, events[i].round, events[i].target);
        }
      } else if added[i - |events|].kind.WitchSave? {
        assert added[i - |events|] in added;
        KillStaysLogged(events, added, |events|, t.round, Player(t.victim.value));
      }
    }
    if t'.victim.Some? {
      if t'.victim == t.victim && t'.round == t.round {
        KillStaysLogged(events, added, |events|, t.round, Player(t.victim.value));
      } else {
        assert (events + added)[|events|] == added[0];
      }
    }
  }

  lemma PotionStep(b: Board, g: Game, m: Move)
    requires Legal(b, g, m) && PotionInv(g.events, g.table)
    ensures PotionInv(g.events + NewEvents(b, g, m), NextTable(g, m))
  {
    NewPotions(b, g, m);
    hide Legal, NewEvents, NextTable;
    PotionExtend(g.events, g.table, NewEvents(b, g, m), NextTable(g, m));
  }

  // ---- guarding -------------------------------------------------------------

  ghost predicate GuardInv(events: seq<Event>, lastGuarded: Option<Seat>) {
    var nights := Select(KindView(GuardProtect), events);
    && (forall i :: 0 <= i < |nights| ==> nights[i].target.Player?)
    && (forall i :: 0 <= i < |nights| - 1 ==> nights[i].target != nights[i + 1].target)
    && lastGuarded == if nights == [] then None else Some(nights[|nights| - 1].target.seat)
  }

  /** A move guards at most one seat, and never the one guarded last. */
  predicate GuardMove(last: Option<Seat>, added: seq<Event>, last': Option<Seat>) {
    && |added| <= 2
    && ( || (last' == last && forall e :: e in added ==> !e.kind.GuardProtect?)
         || (|added| == 1 && added[0].kind.GuardProtect? && last'.Some? && last' != last
             && added[0].target == Player(last'.value)))
  }

  lemma NewGuarding(b: Board, g: Game, m: Move)
    requires Legal(b, g, m)
    ensures GuardMove(g.lastGuarded, NewEvents(b, g, m), if m.Protect? then Some(m.target) else g.lastGuarded)
  {
    hide EventId, ResolveNight, KillAgreed, Leaders, WinCheck, PublicIdsOnly;
  }

  lemma GuardExtend(events: seq<Event>, last: Option<Seat>, added: seq<Event>, last': Option<Seat>)
    requires GuardInv(events, last) && GuardMove(last, added, last')
    ensures GuardInv(events + added, last')
  {
    SelectAppend(KindView(GuardProtect), events, added);
    var nights := Select(KindView(GuardProtect), events);
    if |added| == 1 && added[0].kind.GuardProtect? {
      assert Select(KindView(GuardProtect), events + added) == nights + [added[0]];
    } else {
      assert Select(KindView(GuardProtect), events + added) == nights;
    }
  }

  lemma GuardStep(b: Board, g: Game, m: Move)
    requires Legal(b, g, m) && GuardInv(g.events, g.lastGuarded)
    ensures GuardInv(g.events + NewEvents(b, g, m), if m.Protect? then Some(m.target) else g.lastGuarded)
  {
    NewGuarding(b, g, m);
    hide Legal, NewEvents;
    GuardExtend(g.events, g.lastGuarded, NewEvents(b, g, m), if m.Protect? then Some(m.target) else g.lastGuarded);
  }

  // ---- hunter shots ---------------------------------------------------------

  /** A shot is followed at once by its victim's death. */
  predicate ShotOk(events: seq<Event>, i: nat, aim: Option<Seat>)
    requires i < |events|
  {
    events[i].kind.HunterShoot? ==>
      && events[i].target.Player?
      && if i + 1 < |events| then events[i + 1].kind.PlayerDied? && events[i + 1].target == events[i].target
         else aim == Some(events[i].target.seat)
  }

  function ShotsBy(events: seq<Event>, s: Seat): nat {
    |Select(ShotView(Player(s)), events)|
  }

  ghost predicate ShotInv(events: seq<Event>, t: Table) {
    && (forall s: Seat :: ShotsBy(events, s) == if s in t.fired then 1 else 0)
    && (forall i :: 0 <= i < |events| && IsShot(events[i].kind) ==> events[i].actor.Player?)
    && (forall i :: 0 <= i < |events| ==> ShotOk(events, i, t.aim))
    && (t.aim.Some? ==> events != [] && events[|events| - 1].kind.HunterShoot?
                        && events[|events| - 1].target == Player(t.aim.value))
  }

  /** A move is at most one hunter's only answer, and a pending shot is buried by the very next event. */
  predicate ShotMove(t: Table, added: seq<Event>, t': Table) {
    && |added| <= 2
    && (forall e :: e in added && IsShot(e.kind) ==>
          added == [e] && e.actor.Player? && e.actor.seat !in t.fired && t'.fired == t.fired + {e.actor.seat})
    && ((forall e :: e in added ==> !IsShot(e.kind)) ==> t'.fired == t.fired)
    && (forall e :: e in added && e.kind.HunterShoot? ==> e.target.Player? && t'.aim == Some(e.target.seat))
    && (t.aim.Some? ==> t'.aim.None? && |added| > 0 && added[0].kind.PlayerDied?
                        && added[0].target == Player(t.aim.value))
    && (t.aim.None? && t'.aim.Some? ==>
          |added| == 1 && added[0].kind.HunterShoot? && added[0].target == Player(t'.aim.value))
  }

  lemma NewAnswer(b: Board, g: Game, m: Move)
    requires Legal(b, g, m) && (m.Shoot? || m.HoldFire?)
    ensures ShotMove(g.table, NewEvents(b, g, m), NextTable(g, m))
  {
    hide EventId, Suppressed, HasRole, Abstains;
    assert NewEvents(b, g, m)[0] in NewEvents(b, g, m);
  }

  lemma NewShots(b: Board, g: Game, m: Move)
    requires Legal(b, g, m)
    ensures ShotMove(g.table, NewEvents(b, g, m), NextTable(g, m))
  {
    if m.Shoot? || m.HoldFire? {
      NewAnswer(b, g, m);
    } else {
      NoShots(b, g, m);
    }
  }

  lemma NoShots(b: Board, g: Game, m: Move)
    requires Legal(b, g, m) && !m.Shoot? && !m.HoldFire?
    ensures ShotMove(g.table, NewEvents(b, g, m), NextTable(g, m))
  {
    if m.Die? {
      DieKeepsAim(b, g, m);
      DeathWritten(b, g, m);
      hide Allowed, NewEvents, NextTable, NewEvent;
    } else {
      NoShotWritten(b, g, m);
      NoShotNoted(g, m);
      hide Allowed, NewEvents, NextTable;
    }
  }

  lemma NoShotWritten(b: Board, g: Game, m: Move)
    requires !m.Shoot? && !m.HoldFire?
    ensures |NewEvents(b, g, m)| <= 2
    ensures forall i :: 0 <= i < |NewEvents(b, g, m)| ==> !IsShot(NewEvents(b, g, m)[i].kind)
  {
    hide EventId;
  }

  lemma NoShotNoted(g: Game, m: Move)
    requires !m.Shoot? && !m.HoldFire? && !m.Die?
    ensures NextTable(g, m).fired == g.table.fired && NextTable(g, m).aim == g.table.aim
  {
    DeathFrame(g, m);
    ShotFrame(g, m);
    hide NextTable;
  }

  lemma DeathWritten(b: Board, g: Game, m: Move)
    requires m.Die?
    ensures |NewEvents(b, g, m)| == 1
    ensures NewEvents(b, g, m)[0].kind.PlayerDied? && NewEvents(b, g, m)[0].target == Player(m.seat)
    ensures NextTable(g, m).aim.None? && NextTable(g, m).fired == g.table.fired
  {
    hide EventId;
  }

  lemma DieKeepsAim(b: Board, g: Game, m: Move)
    requires Legal(b, g, m) && m.Die?
    ensures g.table.aim.Some? ==> g.table.aim == Some(m.seat)
  {
  }

  lemma ShotExtend(events: seq<Event>, t: Table, added: seq<Event>, t': Table)
    requires ShotInv(events, t) && ShotMove(t, added, t')
    ensures ShotInv(events + added, t')
  {
    if |added| > 0 { assert added[0] in added; }
    if |added| > 1 { assert added[1] in added; }
    forall s: Seat ensures ShotsBy(events + added, s) == if s in t'.fired then 1 else 0 {
      SelectAppend(ShotView(Player(s)), events, added);
    }
    forall i | 0 <= i < |events + added| ensures ShotOk(events + added, i, t'.aim) {
      if i < |events| {
        assert ShotOk(events, i, t.aim) && (events + added)[i] == events[i];
        if i + 1 < |events| {
          assert (events + added)[i + 1] == events[i + 1];
        }
      } else {
        assert added[i - |events|] in added;
      }
    }
  }

  lemma ShotStep(b: Board, g: Game, m: Move)
    requires Legal(b, g, m) && ShotInv(g.events, g.table)
    ensures ShotInv(g.events + NewEvents(b, g, m), NextTable(g, m))
  {
    NewShots(b, g, m);
    hide Legal, NewEvents, NextTable;
    ShotExtend(g.events, g.table, NewEvents(b, g, m), NextTable(g, m));
  }

  // ---- the vote -------------------------------------------------------------

  function VotesFor(events: seq<Event>, rnd: int, s: Seat): nat {
    |Select(VoteView(rnd, Player(s)), events)|
  }

  predicate Led(b: Board, events: seq<Event>, e: Event) {
    e.kind.PlayerEliminated? ==>
      && e.target.Player?
      && VotesFor(events, e.round, e.target.seat) > 0
      && forall s: Seat :: s < |b.roles| ==> VotesFor(events, e.round, s) <= VotesFor(events, e.round, e.target.seat)
  }

  ghost predicate BallotInv(b: Board, events: seq<Event>, t: Table) {
    && (forall i :: 0 <= i < |events| ==> events[i].round <= t.round)
    && (forall s: Seat :: VotesFor(events, t.round, s) == t.ballots[s])
    && (forall i :: 0 <= i < |events| && events[i].kind.PlayerEliminated? && t.ousted.None? ==> events[i].round < t.round)
    && (forall i :: 0 <= i < |events| ==> Led(b, events, events[i]))
  }

  /** A move leaves the tally alone, adds one vote, closes the vote, or opens the next round. */
  predicate BallotMove(b: Board, t: Table, added: seq<Event>, t': Table) {
    && |added| <= 2
    && (forall e :: e in added ==> e.round == t.round)
    && ( || (t'.round == t.round && t'.ballots == t.ballots && t'.ousted == t.ousted
             && forall e :: e in added ==> !e.kind.PlayerVote? && !e.kind.PlayerEliminated?)
         || (t'.round == t.round && t'.ousted == t.ousted && t.ousted.None? && |added| == 1 && added[0].kind.PlayerVote?
             && added[0].target.Player? && t'.ballots == t.ballots + multiset{added[0].target.seat})
         || (t'.round == t.round && t'.ballots == t.ballots && t'.ousted.Some? && |added| == 2
             && added[0].kind.PlayerEliminated? && added[0].target.Player? && added[1].kind.RoleRevealed?
             && added[0].target.seat in Leaders(t.ballots, |b.roles|))
         || (t'.round == t.round + 1 && t'.ballots == multiset{} && added == []))
  }

  lemma NewBallots(b: Board, g: Game, m: Move)
    requires Legal(b, g, m) && g.table.round >= 1
    ensures BallotMove(b, g.table, NewEvents(b, g, m), NextTable(g, m))
  {
    if m.Vote? || m.Oust? {
      NewBallot(b, g, m);
    } else {
      NoBallotWritten(b, g, m);
      NoBallotNoted(g, m);
      hide Legal, NewEvents, NextTable;
    }
  }

  lemma NewBallot(b: Board, g: Game, m: Move)
    requires Legal(b, g, m) && (m.Vote? || m.Oust?)
    ensures BallotMove(b, g.table, NewEvents(b, g, m), NextTable(g, m))
  {
    hide EventId, ResolveNight, KillAgreed, Leaders, WinCheck, PublicIdsOnly, NoneToFire, Follows, AllDid;
  }

  lemma NoBallotWritten(b: Board, g: Game, m: Move)
    requires !m.Vote? && !m.Oust?
    ensures |NewEvents(b, g, m)| <= 1 && (m.Nightfall? ==> NewEvents(b, g, m) == [])
    ensures forall i :: 0 <= i < |NewEvents(b, g, m)| ==>
              var e := NewEvents(b, g, m)[i];
              e.round == g.table.round && !e.kind.PlayerVote? && !e.kind.PlayerEliminated?
  {
    hide EventId;
  }

  lemma NoBallotNoted(g: Game, m: Move)
    requires !m.Vote? && !m.Oust?
    ensures var t, t' := g.table, NextTable(g, m);
            if m.Nightfall? then t'.round == t.round + 1 && t'.ballots == multiset{}
            else t'.round == t.round && t'.ballots == t.ballots && t'.ousted == t.ousted
  {
    VoteFrame(g, m);
    ClockFrame(g, m);
    hide NextTable;
  }

  lemma {:induction false} NoVotesYet(events: seq<Event>, rnd: int, s: Seat)
    requires forall i :: 0 <= i < |events| ==> events[i].round < rnd
    ensures VotesFor(events, rnd, s) == 0
  {
    if events != [] {
      NoVotesYet(events[..|events| - 1], rnd, s);
    }
  }

  lemma VotesAppend(events: seq<Event>, added: seq<Event>, rnd: int, s: Seat)
    requires |added| <= 2
    ensures VotesFor(events + added, rnd, s) ==
            VotesFor(events, rnd, s) + |SelectNew(VoteView(rnd, Player(s)), added)|
  {
    SelectAppend(VoteView(rnd, Player(s)), events, added);
  }

  lemma TallyExtend(b: Board, events: seq<Event>, t: Table, added: seq<Event>, t': Table, s: Seat)
    requires BallotInv(b, events, t) && BallotMove(b, t, added, t')
    ensures VotesFor(events + added, t'.round, s) == t'.ballots[s]
  {
    hide Leaders, Led;
    if |added| > 0 { assert added[0] in added; }
    if |added| > 1 { assert added[1] in added; }
    VotesAppend(events, added, t.round, s);
    if t'.round == t.round + 1 {
      assert events + added == events;
      NoVotesYet(events, t'.round, s);
    }
  }

  lemma OldVerdictStands(b: Board, events: seq<Event>, t: Table, added: seq<Event>, t': Table, e: Event)
    requires BallotInv(b, events, t) && BallotMove(b, t, added, t') && Led(b, events, e)
    requires e in events
    ensures Led(b, events + added, e)
  {
    hide Leaders;
    if |added| > 0 { assert added[0] in added; }
    if |added| > 1 { assert added[1] in added; }
    if e.kind.PlayerEliminated? {
      forall s: Seat ensures VotesFor(events + added, e.round, s) == VotesFor(events, e.round, s) {
        VotesAppend(events, added, e.round, s);
      }
    }
  }

  lemma NewVerdictLeads(b: Board, events: seq<Event>, t: Table, added: seq<Event>, t': Table, e: Event)
    requires BallotInv(b, events, t) && BallotMove(b, t, added, t')
    requires e in added
    ensures Led(b, events + added, e)
  {
    if e.kind.PlayerEliminated? {
      assert e == added[0] && e.round == t.round;
      LeadersExactly(t.ballots, |b.roles|, e.target.seat);
      forall s: Seat ensures VotesFor(events + added, t.round, s) == t.ballots[s] {
        VotesAppend(events, added, t.round, s);
      }
    }
  }

  lemma BallotExtend(b: Board, events: seq<Event>, t: Table, added: seq<Event>, t': Table)
    requires BallotInv(b, events, t) && BallotMove(b, t, added, t')
    ensures BallotInv(b, events + added, t')
  {
    hide Leaders, Led, VotesFor;
    forall s: Seat ensures VotesFor(events + added, t'.round, s) == t'.ballots[s] {
      TallyExtend(b, events, t, added, t', s);
    }
    if |added| > 0 { assert added[0] in added; }
    if |added| > 1 { assert added[1] in added; }
    forall i | 0 <= i < |events + added| ensures Led(b, events + added, (events + added)[i]) {
      if i < |events| {
        OldVerdictStands(b, events, t, added, t', events[i]);
      } else {
        NewVerdictLeads(b, events, t, added, t', added[i - |events|]);
      }
    }
  }

  lemma BallotStep(b: Board, g: Game, m: Move)
    requires Legal(b, g, m) && DayInv(b, g.alive, g.table) && BallotInv(b, g.events, g.table)
    ensures BallotInv(b, g.events + NewEvents(b, g, m), NextTable(g, m))
  {
    NewBallots(b, g, m);
    hide Legal, NewEvents, NextTable;
    BallotExtend(b, g.events, g.table, NewEvents(b, g, m), NextTable(g, m));
  }
}
