/** Picking events out of a log. */
module LogViews {
  import opened Logs
  import opened Referee

  datatype View =
    | DeathView(target: Name)             // the events that commit this one's death
    | DeedView                            // the events that follow a decision
    | ShotView(actor: Name)               // this hunter's answers
    | KindView(kind: EventKind)
    | VoteView(round: int, target: Name)  // that round's votes against one name
    | TurnView(round: int, actor: Name, deed: Deed)  // what one seat did that round
    | NightKillView(round: int)

  predicate IsDeath(k: EventKind) { k.PlayerDied? || k.PlayerEliminated? }

  predicate IsShot(k: EventKind) { k.HunterShoot? || k.HunterPass? }

  predicate IsDeed(k: EventKind) {
    || k.GuardProtect? || k.WerewolfKill? || k.SeerCheck? || k.WitchSave? || k.WitchPoison? || k.WitchPass?
    || k.PlayerVote? || k.HunterShoot? || k.HunterPass?
  }

  function DeedOf(k: EventKind): Option<Deed> {
    match k
    case GuardProtect => Some(Protecting)
    case WerewolfKill => Some(Killing)
    case SeerCheck => Some(Checking)
    case WitchSave => Some(UsingPotion)
    case WitchPoison => Some(UsingPotion)
    case WitchPass => Some(UsingPotion)
    case PlayerSpeech => Some(Speaking)
    case PlayerVote => Some(Voting)
    case _ => None
  }

  predicate Selects(v: View, e: Event) {
    match v
    case DeathView(t) => IsDeath(e.kind) && e.target == t
    case DeedView => IsDeed(e.kind)
    case ShotView(a) => IsShot(e.kind) && e.actor == a
    case KindView(k) => e.kind == k
    case VoteView(r, t) => e.kind == PlayerVote && e.round == r && e.target == t
    case TurnView(r, a, d) => DeedOf(e.kind) == Some(d) && e.round == r && e.actor == a
    case NightKillView(r) => e.kind == WerewolfKill && e.round == r
  }

  function Select(v: View, es: seq<Event>): seq<Event>
  {
    if es == [] then []
    else
      var last := es[|es| - 1];
      if Selects(v, last) then Select(v, es[..|es| - 1]) + [last] else Select(v, es[..|es| - 1])
  }

  lemma SelectOne(v: View, es: seq<Event>, e: Event)
    ensures Select(v, es + [e]) == if Selects(v, e) then Select(v, es) + [e] else Select(v, es)
  {
    assert (es + [e])[..|es|] == es;
  }

  lemma SelectTwo(v: View, es: seq<Event>, d: Event, e: Event)
    ensures Select(v, es + [d, e]) ==
            Select(v, es) + (if Selects(v, d) then [d] else []) + (if Selects(v, e) then [e] else [])
  {
    assert es + [d, e] == (es + [d]) + [e];
    SelectOne(v, es, d);
    SelectOne(v, es + [d], e);
  }

  /** The picks among at most two new events. */
  function SelectNew(v: View, added: seq<Event>): seq<Event>
    requires |added| <= 2
  {
    (if |added| > 0 && Selects(v, added[0]) then [added[0]] else []) +
    (if |added| > 1 && Selects(v, added[1]) then [added[1]] else [])
  }

  lemma SelectAppend(v: View, es: seq<Event>, added: seq<Event>)
    requires |added| <= 2
    ensures Select(v, es + added) == Select(v, es) + SelectNew(v, added)
  {
    if |added| == 1 {
      SelectOne(v, es, added[0]);
      assert added == [added[0]];
    } else if |added| == 2 {
      SelectTwo(v, es, added[0], added[1]);
      assert added == [added[0], added[1]];
    } else {
      assert es + added == es;
    }
  }

  lemma {:induction false} SelectedAre(v: View, es: seq<Event>, e: Event)
    ensures e in Select(v, es) <==> e in es && Selects(v, e)
  {
    if es != [] {
      SelectedAre(v, es[..|es| - 1], e);
      assert es == es[..|es| - 1] + [es[|es| - 1]];
    }
  }
}
