/** Whether an evaluation accepts a consensus log. */
module ConsensusLogCheck {
  import opened Logs
  import opened Counting
  import opened GameLogCheck

  // ---- one entry ---------------------------------------------------------------------

  predicate KnownStatus(s: Status) { !s.OtherStatus? }

  function ActionKeys(c: ConsensusEntry): seq<(Name, int)> {
    seq(|c.proposals|, i requires 0 <= i < |c.proposals| => (c.proposals[i].proposer, c.proposals[i].actionRound)) +
    seq(|c.responses|, i requires 0 <= i < |c.responses| => (c.responses[i].responder, c.responses[i].actionRound))
  }

  /** Per wolf and action round at most one proposal or response, in a round that took place. */
  predicate ActionsOk(c: ConsensusEntry) {
    && Distinct(ActionKeys(c))
    && forall key :: key in ActionKeys(c) ==> 1 <= key.1 <= c.actualRounds
  }

  method CheckActions(c: ConsensusEntry) returns (ok: bool)
    ensures ok <==> ActionsOk(c)
  {
    var keys := ActionKeys(c);
    hide ActionKeys, Distinct;
    var counts: map<(Name, int), nat> := map[];
    for i := 0 to |keys|
      invariant forall j :: 0 <= j < i ==> 1 <= keys[j].1 <= c.actualRounds
      invariant Counted(counts, keys[..i])
    {
      var key := keys[i];
      if !(1 <= key.1 <= c.actualRounds) {
        assert key in keys;
        return false;
      }
      assert keys[..i + 1] == keys[..i] + [key];
      CountOne(counts, keys[..i], key);
      counts := counts[key := (if key in counts then counts[key] else 0) + 1];
    }
    assert keys[..|keys|] == keys;
    DistinctByCount(keys);
    ok := forall key :: key in counts ==> counts[key] <= 1;
  }

  predicate SeenByWolves(e: Event, players: seq<PlayerEntry>) {
    || IsPublic(e.visibility) || e.visibility.WolvesOnly?
    || (e.visibility.SpecificPlayers?
        && exists i :: 0 <= i < |players| && players[i].name == e.target && players[i].team.WerewolfTeam?
                       && forall j :: 0 <= j < i ==> players[j].name != e.target)
  }

  /** Where the first kill event of a round stands; the length when there is none. */
  function FirstKill(events: seq<Event>, rnd: int): (i: nat)
    ensures i <= |events|
    ensures i < |events| ==> events[i].kind.WerewolfKill? && events[i].round == rnd
    ensures forall j :: 0 <= j < i ==> !(events[j].kind.WerewolfKill? && events[j].round == rnd)
  {
    if events == [] then 0
    else if events[0].kind.WerewolfKill? && events[0].round == rnd then 0
    else 1 + FirstKill(events[1..], rnd)
  }

  /** A ref a wolf could have used: known, visible to the wolves, older than the round's kill. */
  predicate RefOk(ref: string, game: GameLog, rnd: int) {
    var i, kill := FirstWithId(game.events, ref), FirstKill(game.events, rnd);
    && i < |game.events|
    && SeenByWolves(game.events[i], game.players)
    && (kill < |game.events| ==> game.events[i].sequence < game.events[kill].sequence)
  }

  predicate ProposalOk(c: ConsensusEntry, p: Proposal, game: GameLog) {
    && p.id >= 1
    && p.proposer in c.participants
    && p.target in PlayerIds(game) && p.target !in c.participants
    && forall r :: r in p.refs ==> RefOk(r, game, c.round)
  }

  predicate ResponseOk(c: ConsensusEntry, r: Response, game: GameLog) {
    && r.id >= 1
    && (exists i :: 0 <= i < |c.proposals| && c.proposals[i].id == r.toProposal)
    && r.responder in c.participants
    && !r.kind.OtherResponse?
    && forall ref :: ref in r.refs ==> RefOk(ref, game, c.round)
  }

  predicate IsKillOf(e: Event, c: ConsensusEntry) {
    e.kind.WerewolfKill? && e.round == c.round && e.phase == c.phase && e.target == c.final.target
  }

  predicate SidesOk(f: FinalDecision, participants: seq<Name>) {
    && (forall n :: n in f.supporters ==> n in participants)
    && (forall n :: n in f.dissenters ==> n in participants)
    && (forall n :: n in f.supporters ==> n !in f.dissenters)
    && (f.dtype.Consensus? || f.dtype.AcceptedConsensus? ==> f.dissenters == [])
    && (f.dtype.CoordinatorTieBreak? ==> f.dissenters != [])
    && (forall n :: n in participants ==> n in f.supporters || n in f.dissenters)
  }

  predicate FinalOk(c: ConsensusEntry, game: GameLog) {
    var f := c.final;
    && KnownStatus(f.dtype) && f.dtype == c.status
    && f.primary in c.participants
    && SidesOk(f, c.participants)
    && 1 <= f.resolutionRound <= c.actualRounds
    && f.target in PlayerIds(game) && f.target !in c.participants
    && exists i :: 0 <= i < |game.events| && IsKillOf(game.events[i], c)
  }

  predicate WerewolfIn(players: seq<PlayerEntry>, n: Name) {
    exists i :: 0 <= i < |players| && players[i].name == n && players[i].team.WerewolfTeam?
                && forall j :: i < j < |players| ==> players[j].name != n
  }

  predicate ParticipantsOk(c: ConsensusEntry, players: seq<PlayerEntry>) {
    && c.participants != [] && NoRepeats(c.participants)
    && c.coordinator in c.participants
    && forall n :: n in c.participants ==> WerewolfIn(players, n)
  }

  function ProposalIds(c: ConsensusEntry): seq<int> {
    seq(|c.proposals|, i requires 0 <= i < |c.proposals| => c.proposals[i].id)
  }

  predicate AcceptsEntry(c: ConsensusEntry, game: GameLog) {
    && c.id != "" && c.gameId == game.gameId
    && c.phase.Night? && c.team.WerewolfTeam? && KnownStatus(c.status)
    && 1 <= c.maxRounds <= 3 && 1 <= c.actualRounds <= c.maxRounds
    && ParticipantsOk(c, game.players)
    && NoRepeats(ProposalIds(c))
    && ActionsOk(c)
    && (forall p :: p in c.proposals ==> ProposalOk(c, p, game))
    && (forall r :: r in c.responses ==> ResponseOk(c, r, game))
    && FinalOk(c, game)
  }

  // ---- kills and entries cover each other --------------------------------------------

  type KillKey = (int, Phase, Name)

  function EntryKey(c: ConsensusEntry): KillKey { (c.round, c.phase, c.final.target) }

  function EventKey(e: Event): KillKey { (e.round, e.phase, e.target) }

  function KillKeys(events: seq<Event>): set<KillKey> {
    set e | e in events && e.kind.WerewolfKill? :: EventKey(e)
  }

  function EntryKeys(entries: seq<ConsensusEntry>): (keys: seq<KillKey>)
    ensures |keys| == |entries|
  {
    seq(|entries|, i requires 0 <= i < |entries| => EntryKey(entries[i]))
  }

  /** Once there is a kill, kills and entries match one to one. */
  predicate KillsCovered(entries: seq<ConsensusEntry>, events: seq<Event>) {
    KillKeys(events) != {} ==>
      && Distinct(EntryKeys(entries))
      && (forall key :: key in KillKeys(events) ==> key in EntryKeys(entries))
      && (forall key :: key in EntryKeys(entries) ==> key in KillKeys(events))
  }

  ghost function Lengths(covered: map<KillKey, seq<string>>): map<KillKey, nat> {
    map key | key in covered :: |covered[key]|
  }

  lemma LengthsOne(covered: map<KillKey, seq<string>>, key: KillKey, ids: seq<string>)
    ensures Lengths(covered[key := ids]) == Lengths(covered)[key := |ids|]
  {
  }

  /** Group the entry ids by the kill they claim. */
  method Group(entries: seq<ConsensusEntry>) returns (covered: map<KillKey, seq<string>>)
    ensures Counted(Lengths(covered), EntryKeys(entries))
  {
    var keys := EntryKeys(entries);
    covered := map[];
    for i := 0 to |entries|
      invariant Counted(Lengths(covered), keys[..i])
    {
      hide Counted;
      var key := EntryKey(entries[i]);
      assert keys[..i + 1] == keys[..i] + [key];
      CountOne(Lengths(covered), keys[..i], key);
      LengthsOne(covered, key, (if key in covered then covered[key] else []) + [entries[i].id]);
      covered := covered[key := (if key in covered then covered[key] else []) + [entries[i].id]];
    }
    assert keys[..|keys|] == keys;
  }

  lemma CoveredOnce(keys: seq<KillKey>, counts: map<KillKey, nat>)
    requires Counted(counts, keys)
    ensures Distinct(keys) <==> forall key :: key in counts ==> counts[key] <= 1
  {
    hide Distinct;
    DistinctByCount(keys);
  }

  method CoversAllKills(entries: seq<ConsensusEntry>, events: seq<Event>) returns (ok: bool)
    ensures ok <==> KillsCovered(entries, events)
  {
    hide KillKeys, EntryKeys, Distinct;
    var kills := KillKeys(events);
    if kills == {} {
      return true;
    }
    var covered := Group(entries);
    CoveredOnce(EntryKeys(entries), Lengths(covered));
    ok := (forall key :: key in kills ==> key in covered && |covered[key]| <= 1)
          && (forall key :: key in covered ==> key in kills);
    assert forall key :: key in covered <==> key in EntryKeys(entries) by {
      assert forall key :: key in covered <==> key in Lengths(covered);
    }
    assert forall key :: key in covered ==> Lengths(covered)[key] == |covered[key]|;
  }

  // ---- what the checks come to -----------------------------------------------------------

  lemma ActionKeysAt(c: ConsensusEntry)
    ensures |ActionKeys(c)| == |c.proposals| + |c.responses|
    ensures forall i :: 0 <= i < |c.proposals| ==> ActionKeys(c)[i] == (c.proposals[i].proposer, c.proposals[i].actionRound)
    ensures forall j :: 0 <= j < |c.responses| ==>
              ActionKeys(c)[|c.proposals| + j] == (c.responses[j].responder, c.responses[j].actionRound)
  {
  }

  predicate Prompt(c: ConsensusEntry) {
    && (forall i :: 0 <= i < |c.proposals| ==> 1 <= c.proposals[i].actionRound <= c.actualRounds)
    && (forall j :: 0 <= j < |c.responses| ==> 1 <= c.responses[j].actionRound <= c.actualRounds)
  }

  lemma PromptExactly(c: ConsensusEntry)
    ensures Prompt(c) <==> forall key :: key in ActionKeys(c) ==> 1 <= key.1 <= c.actualRounds
  {
    var keys := ActionKeys(c);
    ActionKeysAt(c);
    hide ActionKeys;
    if forall key :: key in keys ==> 1 <= key.1 <= c.actualRounds {
      forall i | 0 <= i < |c.proposals| ensures 1 <= c.proposals[i].actionRound <= c.actualRounds {
        assert keys[i] in keys;
      }
      forall j | 0 <= j < |c.responses| ensures 1 <= c.responses[j].actionRound <= c.actualRounds {
        assert keys[|c.proposals| + j] in keys;
      }
    }
    if Prompt(c) {
      forall key | key in keys ensures 1 <= key.1 <= c.actualRounds {
        var k :| 0 <= k < |keys| && keys[k] == key;
        if k < |c.proposals| {
          assert key.1 == c.proposals[k].actionRound;
        } else {
          var j := k - |c.proposals|;
          assert keys[|c.proposals| + j] == key && key.1 == c.responses[j].actionRound;
        }
      }
    }
  }

  /** No two actions by one wolf fall into the same round. */
  predicate OneActionEach(c: ConsensusEntry) {
    && (forall i, j :: 0 <= i < j < |c.proposals| && c.proposals[i].proposer == c.proposals[j].proposer ==>
          c.proposals[i].actionRound != c.proposals[j].actionRound)
    && (forall i, j :: 0 <= i < j < |c.responses| && c.responses[i].responder == c.responses[j].responder ==>
          c.responses[i].actionRound != c.responses[j].actionRound)
    && (forall p, r :: p in c.proposals && r in c.responses && p.proposer == r.responder ==> p.actionRound != r.actionRound)
  }

  lemma OneActionExactly(c: ConsensusEntry)
    ensures OneActionEach(c) <==> Distinct(ActionKeys(c))
  {
    var keys, n := ActionKeys(c), |c.proposals|;
    ActionKeysAt(c);
    hide ActionKeys;
    if Distinct(keys) {
      forall i, j | 0 <= i < j < |c.responses| && c.responses[i].responder == c.responses[j].responder
        ensures c.responses[i].actionRound != c.responses[j].actionRound
      {
        assert keys[n + i] != keys[n + j];
      }
      forall p, r | p in c.proposals && r in c.responses && p.proposer == r.responder ensures p.actionRound != r.actionRound {
        var i :| 0 <= i < n && c.proposals[i] == p;
        var j :| 0 <= j < |c.responses| && c.responses[j] == r;
        assert keys[i] != keys[n + j];
      }
    }
    if OneActionEach(c) {
      forall i, j | 0 <= i < j < |keys| ensures keys[i] != keys[j] {
        KeysDiffer(c, keys, i, j);
      }
    }
  }

  lemma KeysDiffer(c: ConsensusEntry, keys: seq<(Name, int)>, i: nat, j: nat)
    requires OneActionEach(c) && i < j < |keys| == |c.proposals| + |c.responses|
    requires forall k :: 0 <= k < |c.proposals| ==> keys[k] == (c.proposals[k].proposer, c.proposals[k].actionRound)
    requires forall k :: 0 <= k < |c.responses| ==>
               keys[|c.proposals| + k] == (c.responses[k].responder, c.responses[k].actionRound)
    ensures keys[i] != keys[j]
  {
    var n := |c.proposals|;
    if j >= n {
      var k := j - n;
      assert keys[n + k] == (c.responses[k].responder, c.responses[k].actionRound) && c.responses[k] in c.responses;
      if i >= n {
        var l := i - n;
        assert keys[n + l] == (c.responses[l].responder, c.responses[l].actionRound);
      } else {
        assert c.proposals[i] in c.proposals;
      }
    }
  }

  /** No wolf proposes or responds twice in one action round, and every action falls into a round that took place. */
  lemma ActionsExactly(c: ConsensusEntry)
    ensures ActionsOk(c) <==> Prompt(c) && OneActionEach(c)
  {
    hide ActionKeys, Distinct, Prompt, OneActionEach;
    PromptExactly(c);
    OneActionExactly(c);
  }

  /** A ref holds when the first event with that id was open to the wolves and stands before the round's first kill. */
  lemma RefExactly(ref: string, game: GameLog, rnd: int)
    ensures RefOk(ref, game, rnd) <==>
            exists i :: 0 <= i < |game.events| && game.events[i].id == ref
                        && (forall j :: 0 <= j < i ==> game.events[j].id != ref)
                        && (|| game.events[i].visibility in {Public, Everyone, WolvesOnly}
                            || (&& game.events[i].visibility == SpecificPlayers
                                && FirstNamedIsWolf(game.players, game.events[i].target)))
                        && forall k :: 0 <= k < |game.events| && IsFirstKill(game.events, rnd, k) ==>
                             game.events[i].sequence < game.events[k].sequence
  {
    var i, kill := FirstWithId(game.events, ref), FirstKill(game.events, rnd);
    if kill < |game.events| {
      assert IsFirstKill(game.events, rnd, kill);
    }
    hide FirstWithId, FirstKill;
  }

  predicate IsFirstKill(events: seq<Event>, rnd: int, k: nat)
    requires k < |events|
  {
    && events[k].kind == WerewolfKill && events[k].round == rnd
    && forall j :: 0 <= j < k ==> events[j].kind != WerewolfKill || events[j].round != rnd
  }

  predicate FirstNamedIsWolf(players: seq<PlayerEntry>, n: Name) {
    exists i :: 0 <= i < |players| && players[i].name == n && players[i].team == WerewolfTeam
                && forall j :: 0 <= j < i ==> players[j].name != n
  }

  predicate Claims(c: ConsensusEntry, e: Event) {
    e.kind == WerewolfKill && e.round == c.round && e.phase == c.phase && e.target == c.final.target
  }

  /** What an accepted entry says: of which wolves, who proposed and answered what, and how it came out. */
  lemma AcceptedEntryExactly(c: ConsensusEntry, game: GameLog)
    ensures AcceptsEntry(c, game) <==>
            && c.id != "" && c.gameId == game.gameId && c.phase == Night && c.team == WerewolfTeam
            && 1 <= c.actualRounds <= c.maxRounds <= 3 && ActionsOk(c)
            && MembersOk(c, game) && MovesOk(c, game) && VerdictOk(c, game)
  {
    hide ActionsOk, ParticipantsOk, MembersOk, FinalOk, VerdictOk, NoRepeats, ProposalOk, ResponseOk, MovesOk, ProposalIds;
    NoRepeatsExactly(ProposalIds(c));
    MembersExactly(c, game);
    MovesExactly(c, game);
    VerdictExactly(c, game);
    StatusKnown(c, game);
  }

  lemma StatusKnown(c: ConsensusEntry, game: GameLog)
    ensures FinalOk(c, game) ==> KnownStatus(c.status)
  {
  }

  /** The participants are different wolves, the coordinator one of them; a name listed twice is what it is listed last. */
  predicate MembersOk(c: ConsensusEntry, game: GameLog) {
    && c.coordinator in c.participants
    && (forall i, j :: 0 <= i < j < |c.participants| ==> c.participants[i] != c.participants[j])
    && forall n :: n in c.participants ==>
         exists i :: 0 <= i < |game.players| && game.players[i].name == n && game.players[i].team == WerewolfTeam
                     && forall j :: i < j < |game.players| ==> game.players[j].name != n
  }

  /** Participants propose players outside the pack and answer proposals that were made, on refs open to them. */
  predicate MovesOk(c: ConsensusEntry, game: GameLog) {
    && (forall i, j :: 0 <= i < j < |c.proposals| ==> c.proposals[i].id != c.proposals[j].id)
    && (forall i :: 0 <= i < |c.proposals| ==>
          && c.proposals[i].id >= 1 && c.proposals[i].proposer in c.participants
          && OnRoster(game.players, c.proposals[i].target) && c.proposals[i].target !in c.participants
          && forall ref :: ref in c.proposals[i].refs ==> RefOk(ref, game, c.round))
    && (forall i :: 0 <= i < |c.responses| ==>
          && c.responses[i].id >= 1 && c.responses[i].responder in c.participants && !c.responses[i].kind.OtherResponse?
          && (exists j :: 0 <= j < |c.proposals| && c.proposals[j].id == c.responses[i].toProposal)
          && forall ref :: ref in c.responses[i].refs ==> RefOk(ref, game, c.round))
  }

  /** The verdict is on a kill that happened; every participant stands on one side, and dissent fits the status. */
  ghost predicate VerdictOk(c: ConsensusEntry, game: GameLog) {
    && c.final.dtype == c.status && c.status in {Consensus, AcceptedConsensus, CoordinatorTieBreak, ForcedRandom}
    && c.final.primary in c.participants && 1 <= c.final.resolutionRound <= c.actualRounds
    && OnRoster(game.players, c.final.target) && c.final.target !in c.participants
    && (forall n :: n in c.final.supporters || n in c.final.dissenters <==> n in c.participants)
    && (forall n :: n in c.final.supporters ==> n !in c.final.dissenters)
    && (c.status in {Consensus, AcceptedConsensus} ==> c.final.dissenters == [])
    && (c.status == CoordinatorTieBreak ==> c.final.dissenters != [])
    && exists e :: e in game.events && Claims(c, e)
  }

  lemma MembersExactly(c: ConsensusEntry, game: GameLog)
    ensures ParticipantsOk(c, game.players) <==> MembersOk(c, game)
  {
    NoRepeatsExactly(c.participants);
    hide NoRepeats;
  }

  lemma MovesExactly(c: ConsensusEntry, game: GameLog)
    ensures MovesOk(c, game) <==>
            && Distinct(ProposalIds(c)) && (forall p :: p in c.proposals ==> ProposalOk(c, p, game))
            && (forall r :: r in c.responses ==> ResponseOk(c, r, game))
  {
    assert Distinct(ProposalIds(c)) <==>
           forall i, j :: 0 <= i < j < |c.proposals| ==> c.proposals[i].id != c.proposals[j].id by {
      assert forall i :: 0 <= i < |c.proposals| ==> ProposalIds(c)[i] == c.proposals[i].id;
    }
    forall n ensures n in PlayerIds(game) <==> OnRoster(game.players, n) {
      RosterExactly(game, n);
    }
    hide PlayerIds, OnRoster, ProposalIds, Distinct, RefOk;
    assert (forall p :: p in c.proposals ==> ProposalOk(c, p, game)) <==>
           forall i :: 0 <= i < |c.proposals| ==> ProposalOk(c, c.proposals[i], game);
    assert (forall r :: r in c.responses ==> ResponseOk(c, r, game)) <==>
           forall i :: 0 <= i < |c.responses| ==> ResponseOk(c, c.responses[i], game);
  }

  lemma VerdictExactly(c: ConsensusEntry, game: GameLog)
    ensures FinalOk(c, game) <==> VerdictOk(c, game)
  {
    RosterExactly(game, c.final.target);
    hide PlayerIds, OnRoster;
    if e :| e in game.events && Claims(c, e) {
      var i :| 0 <= i < |game.events| && game.events[i] == e;
      assert IsKillOf(game.events[i], c);
    }
    if i :| 0 <= i < |game.events| && IsKillOf(game.events[i], c) {
      assert game.events[i] in game.events && Claims(c, game.events[i]);
    }
  }

  predicate EveryKillClaimed(entries: seq<ConsensusEntry>, events: seq<Event>) {
    forall e :: e in events && e.kind == WerewolfKill ==> exists i :: 0 <= i < |entries| && Claims(entries[i], e)
  }

  predicate EveryClaimTrue(entries: seq<ConsensusEntry>, events: seq<Event>) {
    forall i :: 0 <= i < |entries| ==> exists e :: e in events && Claims(entries[i], e)
  }

  predicate ClaimsDiffer(entries: seq<ConsensusEntry>) {
    forall i, j :: 0 <= i < j < |entries| ==>
      || entries[i].round != entries[j].round || entries[i].phase != entries[j].phase
      || entries[i].final.target != entries[j].final.target
  }

  lemma EntryKeysHold(entries: seq<ConsensusEntry>)
    ensures forall i :: 0 <= i < |entries| ==> EntryKeys(entries)[i] == EntryKey(entries[i])
    ensures Distinct(EntryKeys(entries)) <==> ClaimsDiffer(entries)
  {
    assert forall i :: 0 <= i < |entries| ==> EntryKeys(entries)[i] == EntryKey(entries[i]);
  }

  lemma ClaimedExactly(entries: seq<ConsensusEntry>, events: seq<Event>)
    ensures EveryKillClaimed(entries, events) <==> forall key :: key in KillKeys(events) ==> key in EntryKeys(entries)
  {
    EntryKeysHold(entries);
    hide EntryKeys;
    if forall key :: key in KillKeys(events) ==> key in EntryKeys(entries) {
      forall e | e in events && e.kind == WerewolfKill ensures exists i :: 0 <= i < |entries| && Claims(entries[i], e) {
        assert EventKey(e) in KillKeys(events);
        var i :| 0 <= i < |entries| && EntryKeys(entries)[i] == EventKey(e);
        assert Claims(entries[i], e);
      }
    }
    if EveryKillClaimed(entries, events) {
      forall key | key in KillKeys(events) ensures key in EntryKeys(entries) {
        var e :| e in events && e.kind.WerewolfKill? && EventKey(e) == key;
        var i :| 0 <= i < |entries| && Claims(entries[i], e);
        assert EntryKeys(entries)[i] == key;
      }
    }
  }

  lemma ClaimsTrueExactly(entries: seq<ConsensusEntry>, events: seq<Event>)
    ensures EveryClaimTrue(entries, events) <==> forall key :: key in EntryKeys(entries) ==> key in KillKeys(events)
  {
    EntryKeysHold(entries);
    hide EntryKeys;
    if forall key :: key in EntryKeys(entries) ==> key in KillKeys(events) {
      forall i | 0 <= i < |entries| ensures exists e :: e in events && Claims(entries[i], e) {
        assert EntryKeys(entries)[i] in KillKeys(events);
        var e :| e in events && e.kind.WerewolfKill? && EventKey(e) == EntryKeys(entries)[i];
        assert Claims(entries[i], e);
      }
    }
    if EveryClaimTrue(entries, events) {
      forall key | key in EntryKeys(entries) ensures key in KillKeys(events) {
        var i :| 0 <= i < |entries| && EntryKeys(entries)[i] == key;
        var e :| e in events && Claims(entries[i], e);
        assert EventKey(e) == key;
      }
    }
  }

  /** In a game with a kill, every kill has an entry, every entry a kill, and no two entries claim the same. */
  lemma CoverageExactly(entries: seq<ConsensusEntry>, events: seq<Event>)
    ensures KillsCovered(entries, events) <==>
            ((exists e :: e in events && e.kind == WerewolfKill) ==>
               EveryKillClaimed(entries, events) && EveryClaimTrue(entries, events) && ClaimsDiffer(entries))
  {
    ClaimedExactly(entries, events);
    ClaimsTrueExactly(entries, events);
    EntryKeysHold(entries);
    hide EntryKeys, EveryKillClaimed, EveryClaimTrue, ClaimsDiffer, Distinct;
    if KillKeys(events) != {} {
      var key :| key in KillKeys(events);
      var e :| e in events && e.kind.WerewolfKill? && EventKey(e) == key;
    }
    if e :| e in events && e.kind == WerewolfKill {
      assert EventKey(e) in KillKeys(events);
    }
  }

  // ---- the whole log -------------------------------------------------------------------

  function EntryIds(entries: seq<ConsensusEntry>): (ids: seq<string>)
    ensures |ids| == |entries|
  {
    seq(|entries|, i requires 0 <= i < |entries| => entries[i].id)
  }

  predicate AcceptsConsensusLog(log: ConsensusLog, game: GameLog) {
    && log.id != "" && log.gameId == game.gameId && log.sourceLabel in VALID_SOURCE_LABELS
    && NoRepeats(EntryIds(log.consensuses))
    && (forall c :: c in log.consensuses ==> AcceptsEntry(c, game))
    && KillsCovered(log.consensuses, game.events)
  }

  method ValidateEntry(c: ConsensusEntry, game: GameLog) returns (ok: bool)
    ensures ok <==> AcceptsEntry(c, game)
  {
    if c.id == "" || c.gameId != game.gameId || !c.phase.Night? || !c.team.WerewolfTeam? || !KnownStatus(c.status) {
      return false;
    }
    if !(1 <= c.maxRounds <= 3 && 1 <= c.actualRounds <= c.maxRounds) {
      return false;
    }
    if !ParticipantsOk(c, game.players) || !NoRepeats(ProposalIds(c)) {
      return false;
    }
    hide ParticipantsOk, NoRepeats, ActionsOk, ProposalOk, ResponseOk, FinalOk;
    var actions := CheckActions(c);
    return actions && (forall p :: p in c.proposals ==> ProposalOk(c, p, game))
                   && (forall r :: r in c.responses ==> ResponseOk(c, r, game)) && FinalOk(c, game);
  }

  method ValidateConsensusLog(log: ConsensusLog, game: GameLog) returns (ok: bool)
    ensures ok <==> AcceptsConsensusLog(log, game)
  {
    hide AcceptsEntry, NoRepeats, KillsCovered;
    if log.id == "" || log.gameId != game.gameId || log.sourceLabel !in VALID_SOURCE_LABELS
       || !NoRepeats(EntryIds(log.consensuses)) {
      return false;
    }
    for i := 0 to |log.consensuses|
      invariant forall j :: 0 <= j < i ==> AcceptsEntry(log.consensuses[j], game)
    {
      var entry := ValidateEntry(log.consensuses[i], game);
      assert log.consensuses[i] in log.consensuses;
      if !entry {
        return false;
      }
    }
    ok := CoversAllKills(log.consensuses, game.events);
  }
}
