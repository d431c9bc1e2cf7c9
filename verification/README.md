# Verified model of the Werewolf game runtime

This project models the runtime of a six-seat Werewolf game played by language-model agents and people, and proves what
its runs guarantee for every provider answer, every human answer and every random draw.

## The pieces

**The emergent round machine.** `Rules` holds the board rules (target rules, night settlement, ballots, wolf
adjudication). `Referee` is a rule book that is independent of the engine's control flow: a `Game` is what a run has
recorded, a `Move` is one thing that can happen, `Legal` says when, `Step` says what it writes. The rule book fixes who
must have acted before what: guard, wolves, seer and witch in that order, deaths only after all night turns, a hunter
heard before the next burial, everybody's speech before the first vote and everybody's vote before the elimination, both
in seat order. A request that an answer makes is carried out or refused before anything else happens; a legal request
cannot be refused and a default is taken only after a turn that failed. `EmergentEngine` is the engine itself, a class
with the source's fields whose methods are proved to make only legal moves, and a round ends only when all its moves were made. What every run
keeps is proved over `Reachable` games: `RunInvariants`, `LogInvariants`, `CallInvariants`, `AbilityInvariants`,
`TeamInvariants`, `DutyInvariants`, `CheckInvariants` hold one family of invariants each, `RunTheorems` puts them
together, and `GameTheorems` states the results. `EngineSteps`, `DeathSteps` and `DaySteps` connect the engine's methods
to the rule book.

**The readers of the logs.** Each is modelled on arbitrary logs, independently of the engine, and then applied to the
logs of runs: the run checker (`RunChecker`, `CheckerTheorems`), the game and decision log validators (`GameLogCheck`),
the consensus validator (`ConsensusLogCheck`, `ConsensusTheorems`), the bundle links (`LogBundle`), the decision join
(`DecisionReasons`, `ReasonTheorems`), trace collection (`ProviderTrace`, `TraceTheorems`) and the pivotal-vote margin (`Attribution`).
`OutcomeTheorems` says all of it at once of what a finished run hands over, and `LongGames` plays the games that reach
the limits. `WolfConsensus` is the scripted engine's own way to settle a night.

**The participant desk.** `ActionDesk` has one atomic step per critical section; `DeskTheorems` are about every
interleaving of steps; `ParticipantController` and `ParticipantProtocol` are the classes, with `wait_for_action` split
at its condition wait.

**The policy store.** `PolicyVersions` and `PolicyRegistry`, with histories of calls in `PolicyTheorems`.

**Who sees what.** `RoleVisibility` and the renderers (`Rendering`, `PromptRendering`) on the engine's side,
`ObserverTrust` and `ObserverProjection` on the observer's; `PromptTheorems`, `PromptGuard` and `ObserverTheorems` relate
them. `ContextPacket` and `Continuity` are the memory side.

## What turned out false, and exactly when it holds

- A run's consensus log is not always accepted by the consensus validator. With a valid label it is accepted exactly if at
  every kill somebody had bid and, where the bids agree, every living wolf had (`ConsensusLogByBids`, over all plays);
  in terms of the input, exactly if on every night some wolf answered with a legal kill and, where all who did name one
  target, every wolf did (`Run`, `ConsensusByAnswers`, over all answers). `SilentGame` is a finished run that is refused,
  `SilentWolvesAreRefused` plays that no continuation saves, and `UnansweredRunsAreRefused` says that without a single
  action among the answers every finished run of a game undecided at the start is refused.
- A run's game log is accepted exactly on six-player boards with a non-empty id and a known label
  (`EngineGameLogAccepted`); the engine itself takes other sizes.
- The observer and the engine agree on every visibility but one: a hunter-only event, which no run writes
  (`WitnessesAgreeExactly`).
- A run need not complete. `round_cap` is possible exactly for caps of at most the number of players minus three
  (`RoundCapExactly`). `budget_exhausted` is possible for every limit below the charges of the long game
  (`BudgetCanRunOut`) and for none from `RequestBound` on (`Run`); between the two nothing is claimed.

## How the source is represented

Seats are numbers in seat order, written `p1`, `p2`, … in ids; roles, names, phases and event kinds are datatypes with a
constructor for anything else, so that the validators can be asked about malformed logs. Teams follow from roles.
Provider and human answers are a function of the turn's number and draws are a function of how many were made, both
arbitrary. The first event is written by the constructor, not at the start of the run. Dictionaries
are maps, with the order of first insertion kept beside them where the source iterates; sets the engine iterates to find
the one holder of a role are read in seat order, which makes no difference because there is at most one.

Where code and comments differ the model follows the code: the decision side of the join accepts a boolean round while
the event side does not, although a comment says they mirror each other; and the death-commit assertion, which can
never fire, is kept as an assertion.

`dafny verify dfyconfig.toml` checks the whole project.

## Model

| member | source | states |
|---|---|---|
| `EmergentEngine.NewEngine` | src/werewolf_eval/emergent_engine.py:240-275 | an engine is built exactly for boards with at most one seer, witch and guard and at most one human, on a known seat; anything else is refused; a new engine stands at the opening of its board |
| `EmergentEngine.EmergentGameEngine.constructor` | src/werewolf_eval/emergent_engine.py:240-345 | the new engine holds the opening game: everybody alive, nobody committed dead, one role-assignment event, nothing charged |
| `EmergentEngine.EmergentGameEngine.Run` | src/werewolf_eval/emergent_engine.py:1764-1919 | a run has all three logs exactly when it is completed; then the game log's winner, end condition and last event say villagers exactly if no wolf lives and otherwise wolves, of whom at least as many live as others, and its players and survivors are the board's and the living; the logs pass or fail their validators exactly as `Delivered` says, and the consensus log is accepted exactly if the label is valid and the wolves' answers accounted for all of them on every night; `budget_exhausted` means exactly one charge over the limit and a limit below three calls per living seat and one scribe call a round plus one shot per death; `round_cap` means every day-round was played, the game is undecided, and the cap is at most the number of players minus three; with limits beyond both the run completes |
| `EmergentEngine.EmergentGameEngine.RunRounds` | src/werewolf_eval/emergent_engine.py:1805-1877 | rounds are played until the win check decides or the cap is reached; every undecided round leaves at least one wolf and two others, so the cap is out of reach from players minus two rounds on |
| `EmergentEngine.EmergentGameEngine.RunNight` | src/werewolf_eval/emergent_engine.py:1807-1838 | guard, wolves, seer and witch each take their turn in that order, then the settlement; the night ends with the condemned dead and no hunter still to be heard; the two potion flags returned are the ones the run has used |
| `EmergentEngine.EmergentGameEngine.SettleNight` | src/werewolf_eval/emergent_engine.py:1822-1838 | everybody the joint settlement condemns is dead afterwards, once each, the wolves' victim before the poisoned seat, even when a hunter shot a condemned seat first, and nothing but deaths, shots and last words happened |
| `DeathSteps.AttackedDiesFirst` | src/werewolf_eval/action_runtime/settler.py:62-70 | whoever the wolves struck without being saved or shielded is dead before the poisoned seat dies |
| `EmergentEngine.EmergentGameEngine.SettleDeath` | src/werewolf_eval/emergent_engine.py:1828-1838 | one condemned seat is buried, its last words heard and its death trigger fired to the end of the cascade |
| `EmergentEngine.EmergentGameEngine.Bury` | src/werewolf_eval/emergent_engine.py:1829-1831 | a seat leaves the living and enters the committed dead, for the first time, with one death event; at most its own death can still set something off |
| `EmergentEngine.EmergentGameEngine.TriggerOnDeath` | src/werewolf_eval/emergent_engine.py:1601-1624 | for any number of hunters the cascade ends, with every dead hunter not poisoned having answered exactly once and no shot left unburied |
| `EmergentEngine.EmergentGameEngine.ResolveHunterShot` | src/werewolf_eval/emergent_engine.py:1626-1760 | the dead hunter answers once: a legal shot at a living other seat that its answer, a person's or a provider's, asked for is the one recorded, and anything else is a recorded pass |
| `EmergentEngine.EmergentGameEngine.AskForShot` | src/werewolf_eval/emergent_engine.py:1671-1714 | a shot is returned exactly if the answer asks to shoot a living seat other than the hunter; otherwise the hunter asked to pass or its turn does not count as a success |
| `EmergentEngine.EmergentGameEngine.ResolveFinalWords` | src/werewolf_eval/emergent_engine.py:946-965 | a human seat gets exactly one window and a final-words event exactly if it says something not blank; a provider seat gets neither |
| `EmergentEngine.EmergentGameEngine.ResolveWitch` | src/werewolf_eval/emergent_engine.py:1229-1410 | the returned night is what the record holds: a save or a poison exactly as the witch's answer asked where the rules allow it, else none; flags spent for good; only the witch was asked or acted; a living witch has acted |
| `EmergentEngine.EmergentGameEngine.AskForPotion` | src/werewolf_eval/emergent_engine.py:1267-1341 | a save or poison is returned exactly if the answer asks for it and the potion rules admit it; any other outcome is the asked-for pass or a turn that does not count as a success |
| `EmergentEngine.EmergentGameEngine.RunWolfKill` | src/werewolf_eval/emergent_engine.py:1114-1151 | only wolves were asked or acted; the victim on record is the one returned, a living seat that is no wolf; with any legal proposal it was named by at least as many bids, and proposed by at least as many wolves' answers, as any other seat; there is none only in a game already decided; with a kill one hearing is remembered: who lived and how many turns there had been when the wolves' turns began |
| `EmergentEngine.EmergentGameEngine.RecordKill` | src/werewolf_eval/emergent_engine.py:1140-1151 | the kill, its decision and its consensus entry are written together; the entry names the first wolf to propose the target, as supporters and supporting answers exactly those who bid for it, as opponents exactly the other wolves, and as status consensus exactly if there are bids that all agree; it accounts for every wolf exactly if the answers of that hearing did |
| `EmergentEngine.EmergentGameEngine.CollectBids` | src/werewolf_eval/emergent_engine.py:1119-1135 | every living wolf is asked, in seat order; wolf i's bid for a target is in the list exactly if the answer to the i-th turn from here is a legal kill of that target |
| `EmergentEngine.EmergentGameEngine.HearWolf` | src/werewolf_eval/emergent_engine.py:1121-1135 | a bid is taken exactly when this wolf answers with a legal kill, and it is the kill it named |
| `EmergentEngine.EmergentGameEngine.JudgeProposal` | src/werewolf_eval/emergent_engine.py:1130-1135 | a legal proposal joins the bids; any other is dropped and its turn downgraded |
| `EmergentEngine.EmergentGameEngine.WriteKill` | src/werewolf_eval/emergent_engine.py:1140-1151 | the consensus entry, the decision that refers to it and the kill event are written, one of each |
| `EmergentEngine.EmergentGameEngine.AnsweredExactly` | src/werewolf_eval/emergent_engine.py:1119-1149 | in terms of the wolves' answers: some wolf answered with a legal kill and, where all who did name one target, every wolf did, exactly if somebody bid and, where the bids agree, every living wolf bid |
| `EmergentEngine.EmergentGameEngine.MostNamedIsMostProposed` | src/werewolf_eval/action_runtime/turn.py:226-241 | the seat named by most bids was proposed by the answers of most wolves |
| `EmergentEngine.EmergentGameEngine.ConsensusByAnswers` | src/werewolf_eval/consensus_log.py:119-138 | the consensus log of a finished run is accepted exactly if its label is valid and on every night the wolves' answers accounted for all of them; a game undecided at the start has such a night |
| `EmergentEngine.EmergentGameEngine.UnansweredRunsAreRefused` | src/werewolf_eval/emergent_engine.py:1136-1149 | when no answer is ever an action, every finished run of a game undecided at the start has its consensus log refused, whatever the board |
| `EmergentEngine.EmergentGameEngine.RunSeer` | src/werewolf_eval/emergent_engine.py:1026-1042 | only the seer was asked or acted; unless the game is already decided a living seer has checked somebody |
| `EmergentEngine.EmergentGameEngine.RunGuard` | src/werewolf_eval/emergent_engine.py:1044-1066 | only the guard was asked or acted; the effective target is remembered; unless the game is already decided a living guard has protected somebody |
| `EmergentEngine.EmergentGameEngine.RunRoleTurn` | src/werewolf_eval/emergent_engine.py:1026-1066 | the one living holder of the role takes its turn, on the target its answer asks for where that is admissible, and nobody else is touched |
| `EmergentEngine.EmergentGameEngine.RunSingleTurn` | src/werewolf_eval/emergent_engine.py:830-859 | one decision and one matching event on the target the answer asks for if it may be chosen, else on one that may; a skip happens only in a game already decided |
| `EmergentEngine.EmergentGameEngine.ChooseTarget` | src/werewolf_eval/emergent_engine.py:834-850 | the chosen target is the one the answer asks for if it may be chosen by the rule of the action; a random candidate, one that may be chosen, is taken only when the turn does not count as a success |
| `EmergentEngine.EmergentGameEngine.TurnWishExactly` | src/werewolf_eval/emergent_engine.py:834-850 | what the engine takes for an admissible request is exactly an answer that asks for this action on a seat that may be chosen |
| `EmergentEngine.EmergentGameEngine.RecordTurn` | src/werewolf_eval/emergent_engine.py:851-858 | the decision is followed at once by its own event; the guard's target becomes the last guarded one |
| `EmergentEngine.EmergentGameEngine.RecordDeed` | src/werewolf_eval/emergent_engine.py:1337-1351 | one decision followed at once by its own event, exactly the rule book's step |
| `EmergentEngine.EmergentGameEngine.RequestAction` | src/werewolf_eval/emergent_engine.py:882-944 | what is judged is what this turn's answer asks to do: a provider's action as it is, a person's choice of vote, night action, potion or shot as that action, words and silence as nothing; the turn counts as a success exactly when it asks for something |
| `EmergentEngine.EmergentGameEngine.AskProvider` | src/werewolf_eval/emergent_engine.py:722-803 | one charge, one recorded turn with its own key; the turn is recorded by this answer: an action, or words where words were asked for, as a success, a failed speech as an error, and a failed action request as timeout (timeout, transport failure, spent budget), invalid (bad action, unparsable) or error (authorization, provider); the only failure is the charge over the limit |
| `EmergentEngine.EmergentGameEngine.AskPerson` | src/werewolf_eval/emergent_engine.py:389-415 | a human answer costs no charge: one window, one turn that counts as human action exactly if an answer came in time |
| `EmergentEngine.EmergentGameEngine.DowngradeTurn` | src/werewolf_eval/emergent_engine.py:805-813 | only a refused request is downgraded, and its turn alone changes, from success to invalid |
| `EmergentEngine.EmergentGameEngine.Emit` | src/werewolf_eval/emergent_engine.py:424-460 | events are appended under consecutive sequence numbers and ids |
| `EmergentEngine.EmergentGameEngine.Decide` | src/werewolf_eval/emergent_engine.py:462-496 | decisions are appended under consecutive ids |
| `EmergentEngine.EmergentGameEngine.Draw` | src/werewolf_eval/emergent_engine.py:815-819 | a draw picks one of the offered seats and uses up one draw |
| `EmergentEngine.EmergentGameEngine.Announce` | src/werewolf_eval/emergent_engine.py:1847-1851 | the day opens with its announcement, with nobody asked, heard or voting yet |
| `EmergentEngine.EmergentGameEngine.ResolveSpeech` | src/werewolf_eval/emergent_engine.py:1414-1549 | one speech event whatever the answer; nothing else about the game changes |
| `EmergentEngine.EmergentGameEngine.RunSpeeches` | src/werewolf_eval/emergent_engine.py:1853-1854 | every living seat speaks once, in seat order, before anybody votes |
| `EmergentEngine.EmergentGameEngine.RunScribe` | src/werewolf_eval/emergent_engine.py:1551-1597 | if anybody spoke the scribe is asked once, charged once, and changes nothing else |
| `EmergentEngine.EmergentGameEngine.RunVoteRound` | src/werewolf_eval/emergent_engine.py:1068-1101 | every living seat votes once, in seat order, each decision citing exactly the public events before it, and the seat returned is alive and leads the tally |
| `EmergentEngine.EmergentGameEngine.Eliminate` | src/werewolf_eval/emergent_engine.py:1859-1867 | the leader of the vote is dead and revealed and whatever that sets off has been answered |
| `EmergentEngine.EmergentGameEngine.RunDay` | src/werewolf_eval/emergent_engine.py:1847-1867 | a day ends with one elimination; with a scaffold renderer the scribe was asked |
| `Rules.NightDeathsExactly` | src/werewolf_eval/action_runtime/settler.py:48-72 | who dies at night and of what: the attacked seat unless exactly one of guard and save covers it, the poisoned seat always, at most two seats, each once, the attacked one first, an attack taking precedence as the cause |
| `Rules.LeadersExactly` | src/werewolf_eval/emergent_engine.py:1079-1085 | a seat leads exactly if it has a ballot and nobody on the board has more |
| `Rules.BackersExactly` | src/werewolf_eval/action_runtime/turn.py:221-248 | the backers of a target are exactly the wolves that bid for it |
| `Rules.VerdictIsMostNamed` | src/werewolf_eval/action_runtime/turn.py:226-241 | with any bid, whatever the adjudication leads to was named by at least as many bids as any other seat, counted on the bids themselves |
| `Rules.WinCheckExactly` | src/werewolf_eval/emergent_engine.py:1103-1110 | villagers have won exactly if no wolf lives, wolves exactly if one lives and at least as many of them as of the others; otherwise the game goes on |
| `Rules.ActionLegalExactly` | src/werewolf_eval/action_runtime/validator.py:29-57 | action by action, who may vote for, kill, check or protect whom |
| `RunInvariants.VerdictTargetsALivingVillager` | src/werewolf_eval/action_runtime/turn.py:226-241 | whatever the wolves bid, the adjudicated target is a living non-wolf, and one that some wolf named if any bid |
| `EngineSteps.NoKillMeansDecided` | src/werewolf_eval/action_runtime/turn.py:226-241 | adjudication skips the kill only when nobody bid and the game is already decided |
| `EngineSteps.UndecidedHasCandidates` | src/werewolf_eval/emergent_engine.py:843-846 | while both sides can win every seer, guard and voter has a candidate, so the no-candidate skip is dead code |
| `EngineSteps.CandidatesExactly` | src/werewolf_eval/emergent_engine.py:843-846 | a random target is drawn from exactly the seats that may be chosen, each listed once in seat order |
| `EngineSteps.ChargeFits` | src/werewolf_eval/emergent_engine.py:157-166 | no legal charge of round r exceeds the request bound for r rounds |
| `DaySteps.UndecidedHasThree` | src/werewolf_eval/emergent_engine.py:1103-1110 | an undecided board has a living wolf and two living others |
| `DaySteps.UndecidedRoundsBounded` | src/werewolf_eval/emergent_engine.py:1869-1877 | a game still undecided after round r has at least r + 3 players |
| `LongGames.LongGame` | src/werewolf_eval/emergent_engine.py:1805-1877 | for any board of one wolf, one guard and villagers, a play whose every night is saved by the guard and whose every day costs one villager, undecided for as many rounds as there are players beyond three, with its exact number of charges |
| `LongGames.RoundCapExactly` | src/werewolf_eval/emergent_engine.py:1805-1877 | on boards of n seats a game can be undecided after so many full rounds exactly if they are at most n minus three |
| `LongGames.BudgetCanRunOut` | src/werewolf_eval/emergent_engine.py:159-166 | for every limit below the charges of the long game some run within those rounds has charged the limit up and is to be charged once more |
| `DaySteps.VoteDecides` | src/werewolf_eval/emergent_engine.py:1068-1085 | when everybody living has voted the leaders are living seats and there is at least one |
| `Referee.ReachStep` | src/werewolf_eval/emergent_engine.py:1805-1877 | runs are closed under legal moves |
| `RunTheorems.RunInvStep` | src/werewolf_eval/emergent_engine.py:1805-1877 | one move keeps all run invariants together: lives, hunters, logs, decisions, calls, potions, guard, votes, kills, entries, duties, nights |
| `RunTheorems.ReachableInv` | src/werewolf_eval/emergent_engine.py:1791-1919 | every state of every run satisfies all run invariants |
| `GameTheorems.LogReplaysToTheLiving` | src/werewolf_eval/emergent_engine.py:1827-1867 | in every state the living and the committed dead split the board, each dead seat has exactly one death event and each living seat none, and replaying the log's deaths gives the living |
| `GameTheorems.EveryDayCostsALife` | src/werewolf_eval/emergent_engine.py:1859-1874 | a finished day has fewer living seats than its dawn, and rounds plus living never exceed the players |
| `GameTheorems.ChargesAreBounded` | src/werewolf_eval/emergent_engine.py:157-166 | charges so far never exceed three per living seat and one per round, summed over the rounds begun, plus the deaths, for any answers |
| `GameTheorems.DefaultBudgetSuffices` | src/werewolf_eval/emergent_engine.py:157-166 | six players and three rounds can ask for at most 54 requests, so the default 80 are never exhausted |
| `GameTheorems.ChargesAreRecorded` | src/werewolf_eval/emergent_engine.py:722-811 | charges equal live turns plus scaffold turns, only live turns count as live successes, and request ids are pairwise distinct |
| `GameTheorems.PotionsAreOneShot` | src/werewolf_eval/emergent_engine.py:1229-1351 | at most one save and one poison in a run; a save answers an earlier kill of the same night and is a self-save only in round 1 |
| `GameTheorems.HuntersShootOnce` | src/werewolf_eval/emergent_engine.py:1601-1727 | a hunter answers at most once, only dead and never poisoned, and a shot is followed at once by its target's death |
| `GameTheorems.DeadHuntersWereHeard` | src/werewolf_eval/emergent_engine.py:1601-1624 | in a finished game a seat has answered as hunter exactly once if it is a dead hunter not poisoned, and never otherwise |
| `GameTheorems.NightsAreComplete` | src/werewolf_eval/emergent_engine.py:1807-1820 | by day the night has exactly one kill and exactly one deed by each guard, seer and witch who saw the dusk, unless the game was decided then; nobody acts twice in a round |
| `GameTheorems.DaysHearEverybody` | src/werewolf_eval/emergent_engine.py:1853-1857 | whoever could be eliminated spoke exactly once and voted exactly once that day |
| `GameTheorems.DecisionsKeepToTheTurns` | src/werewolf_eval/emergent_engine.py:830-859 | a seer, guard or vote decision is inference-based exactly when its own turn counts as a success and default exactly when not; potions and shots always rest on a success |
| `GameTheorems.GuardNeverRepeats` | src/werewolf_eval/emergent_engine.py:1044-1066 | no two consecutive protections have the same target |
| `GameTheorems.EliminationsLedTheVote` | src/werewolf_eval/emergent_engine.py:1068-1085 | whoever a day eliminates had a vote in that day's log and nobody had more |
| `GameTheorems.KillsLedTheBids` | src/werewolf_eval/action_runtime/turn.py:221-248 | every kill of every run falls on a living seat that is no wolf and, with any bid on the table that night, on one named by at least as many bids as any other |
| `GameTheorems.DecisionsMatchTheirEvents` | src/werewolf_eval/emergent_engine.py:852-858 | the k-th decision agrees with the k-th deed event in round, phase, actor, action and target, and no two decisions share all five |
| `Logs.RequestTextInjective` | src/werewolf_eval/emergent_engine.py:750-752 | a request id names one round, seat and purpose |
| `Logs.EventIdInjective` | src/werewolf_eval/emergent_engine.py:424-460 | padded event ids never collide, however long the log |
| `Logs.WindowIdInjective` | src/werewolf_eval/participant_controller.py:124-130 | two windows opened under different counters never share an id, whatever the run and seat names |
| `RunChecker.CheckRun` | src/werewolf_eval/invariants/checker.py:25-44 | the run checker reports nothing exactly if the log is not empty and satisfies I1, I2, I3, I5, I6, I7, I8 and I8c as stated on the logs alone |
| `RunChecker.CheckI1` | src/werewolf_eval/invariants/checker.py:47-58 | no violation exactly if no two death events share a target |
| `RunChecker.CheckI2` | src/werewolf_eval/invariants/checker.py:67-91 | lists exactly the ordinary actions with a larger sequence number than some death of their actor |
| `RunChecker.CheckI3` | src/werewolf_eval/invariants/checker.py:97-109 | no violation exactly if no actor used a consumable twice |
| `RunChecker.CheckI6` | src/werewolf_eval/invariants/checker.py:175-197 | lists exactly the deaths without an earlier kill, poison or shot naming the same target |
| `RunChecker.CheckI7` | src/werewolf_eval/invariants/checker.py:203-224 | lists exactly the deaths of names not among the players |
| `RunChecker.NightRows` | src/werewolf_eval/invariants/checker.py:227-247 | each night's row holds the last kill, guard, save and poison targets and everybody who died that night |
| `RunChecker.CheckI8` | src/werewolf_eval/invariants/checker.py:250-267 | lists exactly the nights on which the guard stood by the wolves' target and it died although unsaved and unpoisoned by its own, or lived although saved as well |
| `RunChecker.CheckI8c` | src/werewolf_eval/invariants/checker.py:273-283 | no violation exactly if no two consecutive guard nights share a target |
| `RunChecker.GuardNightsSorted` | src/werewolf_eval/invariants/checker.py:273-283 | the nights compared are exactly the guard's events, by round |
| `RunChecker.Repeated` | src/werewolf_eval/invariants/checker.py:155-169 | lists exactly the keys that occur more than once, each once (I5, request id with phase) |
| `CheckInvariants.RowStep` | src/werewolf_eval/invariants/checker.py:227-267 | every move keeps each night's row in step with what was decided that night, so a blocked target never dies and a pierced one always does |
| `CheckInvariants.DeathIsCaused` | src/werewolf_eval/invariants/checker.py:175-197 | whoever dies was named before by a kill, a poison or a shot in the log |
| `CheckerTheorems.TheDeadDoNotAct` | src/werewolf_eval/invariants/checker.py:75-91 | no run has an action by a seat after its death, shots excepted |
| `CheckerTheorems.NightsAreSettled` | src/werewolf_eval/invariants/checker.py:250-267 | in every run, once a night is over, its row passes I8 |
| `CheckerTheorems.RunsAreClean` | src/werewolf_eval/invariants/checker.py:25-44 | the checker has nothing to report on any run that has reached a day or its end, whatever the answers and draws |
| `GameLogCheck.EngineGameLogAccepted` | src/werewolf_eval/game_log.py:106-145 | the game log of any run is accepted exactly if the game id is not empty, the label is valid and there are six players |
| `GameLogCheck.AcceptedGameLogExactly` | src/werewolf_eval/game_log.py:106-146 | a game log is accepted exactly with six differently named players, events numbered from 1 under ids used once, actors, targets and survivors that are known, and references to events of the log |
| `GameLogCheck.AcceptedDecisionLogExactly` | src/werewolf_eval/decision_log.py:86-200 | a decision log is accepted exactly with ids used once, day or night phases, known actors and targets and references to events of its game |
| `GameLogCheck.AcceptedIdsFindTheirEvents` | src/werewolf_eval/game_log.py:67-72 | in an accepted log an id finds its own event and no other |
| `GameLogCheck.EngineDecisionLogAccepted` | src/werewolf_eval/decision_log.py:86-104 | the decision log of any run is accepted against its game log exactly if the label is valid |
| `GameLogCheck.NoRepeatsExactly` | src/werewolf_eval/game_log.py:114-120 | comparing a list's length with its set's size tests for repeats |
| `LogBundle.CountLinks` | src/werewolf_eval/log_bundle.py:79-104 | links are counted exactly when every team decision agrees with its consensus entry, and then there is one per team decision |
| `LogBundle.EngineLinksHold` | src/werewolf_eval/log_bundle.py:70-116 | in every run each team decision has its agreeing entry, one link per consensus entry |
| `ConsensusLogCheck.ValidateConsensusLog` | src/werewolf_eval/consensus_log.py:119-138 | the validator accepts exactly the logs of its game with a valid label, entry ids used once, accepted entries and covered kills |
| `ConsensusLogCheck.ValidateEntry` | src/werewolf_eval/consensus_log.py:269-337 | the checks in their order accept exactly the entries that `AcceptsEntry` admits |
| `ConsensusLogCheck.CheckActions` | src/werewolf_eval/consensus_log.py:318-337 | the action counters pass exactly if no wolf acts twice in a round and every round took place |
| `ConsensusLogCheck.CoversAllKills` | src/werewolf_eval/consensus_log.py:340-370 | coverage passes exactly if kills and entries correspond one to one by round and phase |
| `ConsensusLogCheck.AcceptedEntryExactly` | src/werewolf_eval/consensus_log.py:269-476 | an entry is accepted exactly if its participants are different wolves, they propose players outside the pack and answer proposals made, every participant stands on one side of a verdict on a kill that happened, and dissent fits the status |
| `ConsensusLogCheck.ActionsExactly` | src/werewolf_eval/consensus_log.py:318-337 | no two proposals or responses of one wolf fall into the same action round, and each falls into a round that took place |
| `ConsensusLogCheck.RefExactly` | src/werewolf_eval/consensus_log.py:492-520 | a reference is admitted exactly if the first event with that id was open to the wolves and stands before the round's first kill |
| `ConsensusLogCheck.CoverageExactly` | src/werewolf_eval/consensus_log.py:340-370 | in a game with a kill, every kill has an entry of its round, phase and target, every entry such a kill, and no two entries the same |
| `ConsensusTheorems.ShapedEntryAccepted` | src/werewolf_eval/consensus_log.py:269-476 | an entry of the shape both engines build, with its kill logged, is accepted exactly if it accounts for every wolf |
| `ConsensusTheorems.MatchedLogAccepted` | src/werewolf_eval/consensus_log.py:119-138 | with kills and entries matched, a log is accepted exactly if its label is valid and every entry accounts for every wolf |
| `ConsensusTheorems.EngineConsensusLogExactly` | src/werewolf_eval/consensus_log.py:119-138 | the consensus log of any run is accepted exactly if its label is valid and every entry accounts for every wolf |
| `ConsensusTheorems.ConsensusLogByBids` | src/werewolf_eval/consensus_log.py:119-138 | move by move: the consensus log of a run is accepted exactly if its label is valid and every kill of the run was agreed on by bids of which there is at least one and which, where they agree, come from every wolf alive at that moment |
| `ConsensusTheorems.NeverAcceptedAgain` | src/werewolf_eval/consensus_log.py:119-138 | after one kill badly agreed on no continuation of the run has its consensus log accepted |
| `ConsensusTheorems.SilentGame` | src/werewolf_eval/emergent_engine.py:1136-1149 | a whole game of three players, from the failed wolf to the finish, whose consensus log is refused |
| `ConsensusTheorems.SilentWolvesAreRefused` | src/werewolf_eval/emergent_engine.py:1136-1149 | on every board with both sides and no guard there is a play, the night on which no wolf answers, after which every continuation has its consensus log refused |
| `TeamInvariants.KillSettledExactly` | src/werewolf_eval/emergent_engine.py:1178-1225 | a kill's entry accounts for every wolf exactly if somebody bid and, when all bids agree, every living wolf bid |
| `TeamInvariants.KillIsMostNamed` | src/werewolf_eval/action_runtime/turn.py:221-248 | a legal kill rests on the bids heard this night and falls on a living villager that was named by as many of them as anybody |
| `TeamInvariants.NewEntryTells` | src/werewolf_eval/emergent_engine.py:1178-1225 | the entry a kill leaves names proposer, supporters, opponents and answers as the bids have them |
| `ConsensusEntries.BuiltEntrySettledExactly` | src/werewolf_eval/emergent_engine.py:1178-1225 | the same for any entry built from bids: status and dissent fit together exactly if not everybody was silent and no silent wolf is hidden behind a unanimous vote |
| `ConsensusEntries.BuiltEntryTells` | src/werewolf_eval/emergent_engine.py:1153-1225 | an entry built from bids tells them: participants in order, the first to name the target as proposer, support from exactly those who bid for it, opposition from the other wolves, consensus exactly if all bids agree |
| `WolfConsensus.ResolveWolfConsensus` | src/werewolf_eval/game_engine.py:301-477 | an entry is returned exactly if some wolf answers for itself with the kill, this night, of a living seat outside the pack; its target is the first such answer's, supporters are exactly those who named it, dissenters the rest, and it is called consensus exactly if nobody dissents; every wolf without a legal answer leaves a failure, and so does a split |
| `WolfConsensus.HearWolves` | src/werewolf_eval/game_engine.py:313-367 | the valid bids are exactly the legal answers; everybody else fails, by the agent's error if it raised one and otherwise as an invalid action |
| `WolfConsensus.Responses` | src/werewolf_eval/game_engine.py:400-430 | one response per heard wolf other than the proposer: support for the target, opposition otherwise |
| `WolfConsensus.PlayNight` | src/werewolf_eval/game_engine.py:301-477 | one more night keeps log and entries matched and adds an entry exactly if some wolf answers |
| `WolfConsensus.PlayNights` | src/werewolf_eval/game_engine.py:301-477 | for any wolves, any answers and any number of nights the resulting consensus log is accepted |
| `DecisionReasons.FileDecisions` | src/werewolf_eval/observer_enrichment.py:93-140 | every decision with a reason waits in exactly one queue, under its own key; the keys are listed in the order of their first decision |
| `DecisionReasons.JoinEvent` | src/werewolf_eval/observer_enrichment.py:141-211 | an event without id or without an actor of its own takes nothing; any other takes at most one waiting decision: the oldest with its key, else the oldest without a round, and only an event without a round takes one of any round, from the first listed key about the same deed; marked matched exactly if it was alone, left in place when ambiguous |
| `DecisionReasons.RoundsExactly` | src/werewolf_eval/observer_enrichment.py:93-140 | a natural number is the same round to both sides of the join, a boolean only to the decision side, anything else to neither |
| `DecisionReasons.LoadDecisionReasons` | src/werewolf_eval/observer_enrichment.py:67-211 | on any logs no decision is attached twice and nothing is attached to an event it does not explain; on clean logs every event gets exactly its own decision, marked matched |
| `ReasonTheorems.EngineLogsAreClean` | src/werewolf_eval/observer_enrichment.py:93-140 | the logs of every run are clean: unique keys, valid rounds |
| `ReasonTheorems.KeyBelongsToItsDeed` | src/werewolf_eval/emergent_engine.py:852-858 | a decision's key matches the event emitted right after it and no other event of the log |
| `ReasonTheorems.EngineReasonsExactly` | src/werewolf_eval/observer_enrichment.py:67-211 | on every run's logs the join attaches each decision to the one event that follows it, marked matched, and attaches nothing else |
| `OutcomeTheorems.FinishedRunDelivers` | src/werewolf_eval/emergent_engine.py:1878-1919 | of every finished run at once: which of its three logs are accepted, that every team decision links to the entry that made it, that the run checker finds nothing, and that the join of decisions and events is exact |
| `OutcomeTheorems.FinishCrowns` | src/werewolf_eval/emergent_engine.py:1878-1919 | finishing writes the winner, the end condition and the last event as the living say: villagers exactly if no wolf lives, else wolves, at least as many as the others |
| `OutcomeTheorems.LivingAreListed` | src/werewolf_eval/emergent_engine.py:1878-1919 | the game log's players are the board's seats with their teams, and its survivors are exactly the living, each once |
| `OutcomeTheorems.SomebodyWasKilled` | src/werewolf_eval/emergent_engine.py:1114-1151 | a game undecided at the start has at least one consensus entry when a day or its end is reached |
| `ParticipantProtocol.CursorRoundTrip` | src/werewolf_eval/participant_protocol.py:229-257 | a reconnect cursor is written as `event:` and its index, and parsing it gives the index back |
| `ParticipantProtocol.EnsureSingleOpen` | src/werewolf_eval/participant_protocol.py:631-648 | the check passes exactly if no run and seat has two open windows |
| `ParticipantProtocol.RememberedIsFound` | src/werewolf_eval/participant_protocol.py:721-754 | after a result is remembered the same submission finds it, another under its key conflicts, and other keys are unaffected |
| `ParticipantProtocol.ActionIdempotencyTracker.DuplicateFor` | src/werewolf_eval/participant_protocol.py:721-736 | a lookup finds fresh, repeat or conflict by key and fingerprint |
| `ParticipantProtocol.ActionIdempotencyTracker.RecordOrDuplicate` | src/werewolf_eval/participant_protocol.py:738-754 | only a fresh submission is stored; repeats and conflicts change nothing |
| `ActionDesk.StepKeepsInv` | src/werewolf_eval/participant_controller.py:100-306 | one critical section of any thread keeps the desk invariant |
| `ActionDesk.FreshWindowId` | src/werewolf_eval/participant_controller.py:124-130 | the next window id is one no window has |
| `DeskTheorems.DeskIsSafe` | src/werewolf_eval/participant_controller.py:100-300 | under every interleaving a run and seat has at most one open window, and a submission and exactly one idempotency record exactly if its window is accepted |
| `DeskTheorems.NeverTwoOpen` | src/werewolf_eval/participant_controller.py:117-123 | the single-open check inside opening a window can never fail |
| `DeskTheorems.WindowsOnlyClose` | src/werewolf_eval/participant_controller.py:201-300 | a window never reopens, changes owner or disappears: its status moves at most once, from open to accepted or timed out |
| `DeskTheorems.WaitEndsClosed` | src/werewolf_eval/participant_controller.py:269-300 | waiting ends only with the window closed or unknown, with an answer exactly if it is accepted |
| `DeskTheorems.AcceptedExactlyOnce` | src/werewolf_eval/participant_controller.py:201-267 | after an accept, and any history, the same key and fingerprint gets the stored result as duplicate, another fingerprint a conflict, another key a closed window, a stranger a refusal, and nothing changes |
| `DeskTheorems.SubmitExactly` | src/werewolf_eval/participant_controller.py:201-267 | on every sound desk a submission is answered, and the desk changed, as owner, status, revision and offered actions of its window say, error by error |
| `DeskTheorems.OpenExactly` | src/werewolf_eval/participant_controller.py:100-156 | on every sound desk a request for a window finds the seat's open one, opens exactly the one asked for, or is refused for its fields |
| `DeskTheorems.RecheckExactly` | src/werewolf_eval/participant_controller.py:274-300 | on every sound desk a recheck times out exactly an open window past its deadline and changes nothing else |
| `DeskTheorems.OneAcceptPerWindow` | src/werewolf_eval/participant_controller.py:201-267 | over any history the number of `accepted` replies for a window is one if it ends accepted and zero if not |
| `DeskTheorems.CursorNeverDecreases` | src/werewolf_eval/participant_controller.py:188-199 | a seat's latest reconnect cursor never decreases |
| `ParticipantController.InMemoryParticipantActionController.ConfigureHumanSeat` | src/werewolf_eval/participant_controller.py:53-59 | the new state is the desk's configuration step |
| `ParticipantController.InMemoryParticipantActionController.OpenActionWindow` | src/werewolf_eval/participant_controller.py:100-156 | state and reply are the desk's open step: the open window's id if the seat has one, else a new window under an id nobody had, exactly as asked for, or a refusal of bad fields or an overlong id |
| `ParticipantController.InMemoryParticipantActionController.SubmitAction` | src/werewolf_eval/participant_controller.py:201-267 | state and reply are the desk's submit step: a repeated key gives the duplicate or a conflict; a new key is accepted exactly if the window exists, is this run's and seat's, is open, has the submitted revision and lists the submitted action, and otherwise the first of these to fail names the error and nothing changes |
| `ParticipantController.InMemoryParticipantActionController.Recheck` | src/werewolf_eval/participant_controller.py:274-300 | state and reply are the desk's recheck step: an open window past its deadline is timed out, anything else is left alone |
| `ParticipantController.InMemoryParticipantActionController.WaitForAction` | src/werewolf_eval/participant_controller.py:269-300 | with other threads running at every wait, an answer means accepted, no answer means timed out or unknown, and still blocked means open |
| `ParticipantController.InMemoryParticipantActionController.LatestReconnectCursor` | src/werewolf_eval/participant_controller.py:188-199 | the largest cursor among the seat's windows, if it has any |
| `PolicyVersions.RefRoundTrip` | src/werewolf_eval/role_policy_registry.py:565-580 | splitting a policy ref gives back its id and version |
| `PolicyVersions.RefInjective` | src/werewolf_eval/role_policy_registry.py:565-580 | a ref names one id and one version |
| `PolicyVersions.VersionRoundTrip` | src/werewolf_eval/role_policy_registry.py:582-588 | reading a formatted version gives it back |
| `PolicyVersions.CandidatesDiffer` | src/werewolf_eval/role_policy_registry.py:590-600 | different patch numbers give different refs |
| `PolicyVersions.NextUnusedPatchVersion` | src/werewolf_eval/role_policy_registry.py:590-600 | the search ends, at the least patch above the base whose ref is not taken, and fails exactly if the base is not a version |
| `PolicyVersions.NextDraftId` | src/werewolf_eval/role_policy_registry.py:602-614 | the id is new and its number exceeds every number in use under the same prefix |
| `PolicyRegistry.RolePolicyRegistry.CreateDraft` | src/werewolf_eval/role_policy_registry.py:153-184 | succeeds exactly on an admissible patch, a known pack and role, and a patched policy with sound id, version and content; adds one draft of the patched fields, under a new id, on the current policy; each refusal is named and changes nothing |
| `PolicyRegistry.RolePolicyRegistry.PublishDraft` | src/werewolf_eval/role_policy_registry.py:186-242 | publishes only a current draft of a known pack, as the one release the rules allow: with the draft's role and content, as it stands unless its base is referenced, pointed at elsewhere or would be rewritten, and then under the base's id and a version nobody uses; each refusal is named and changes nothing |
| `PolicyRegistry.NothingOverwritten` | src/werewolf_eval/role_policy_registry.py:210-242 | publishing never changes what an existing ref names |
| `PolicyRegistry.OneRelease` | src/werewolf_eval/role_policy_registry.py:210-232 | a draft's release is determined |
| `PolicyTheorems.RefsAreImmutable` | src/werewolf_eval/role_policy_registry.py:153-242 | over any calls no ref ever changes value and no pointer or draft base is lost |
| `PolicyTheorems.PointersNeverReturn` | src/werewolf_eval/role_policy_registry.py:186-242 | a pointer that has left a ref never comes back to it |
| `PolicyTheorems.ContentChangeMovesPointer` | src/werewolf_eval/role_policy_registry.py:210-242 | publishing changed content moves the pointer off its base |
| `PolicyTheorems.AtMostOneContentChange` | src/werewolf_eval/role_policy_registry.py:186-208 | after one draft with changed content is published no other draft on the same base ever can be |
| `RoleVisibility.PublicRefsExactly` | src/werewolf_eval/role_visibility.py:27-29 | public refs are exactly the ids of public events |
| `RoleVisibility.PrivateRefsExactly` | src/werewolf_eval/role_visibility.py:32-41 | private refs are exactly the ids of events on the seat's own channels |
| `RoleVisibility.PrivateRefsForRole` | src/werewolf_eval/role_visibility.py:32-41 | the loop computes those refs, with a seat without a team judged by its role |
| `PromptTheorems.SortIsFilter` | src/werewolf_eval/prompt_v2.py:87-105 | sorting the de-duplicated public and private refs gives the log filtered by what the seat may see |
| `PromptTheorems.SectionsPartition` | src/werewolf_eval/prompt_v2.py:106-140 | every visible event with a summary is told in exactly one section |
| `PromptTheorems.SectionsExactly` | src/werewolf_eval/prompt_v2.py:81-140 | each section by event kind: private events; of the public ones deaths, eliminations, reveals, day announcements and hunters' answers as facts; speeches; votes; and everything else as other |
| `PromptTheorems.GatheredInOrder` | src/werewolf_eval/prompt_v1.py:25-50 | the first renderer gathers the visible public events in order, then the other visible ones |
| `PromptTheorems.UnseenCannotMatterV1` | src/werewolf_eval/prompt_v1.py:25-67 | two histories alike in what a seat may see, up to renumbering, render the same v1 text |
| `PromptTheorems.UnseenCannotMatterV2` | src/werewolf_eval/prompt_v2.py:87-156 | two histories alike in what a seat may see, up to renumbering, render the same v2 text |
| `PromptRendering.RenderObservation` | src/werewolf_eval/prompt_v1.py:25-67 | the loop writes the v1 text and names as sources exactly the events it told |
| `PromptRendering.RenderObservationV2` | src/werewolf_eval/prompt_v2.py:87-156 | the loops write the v2 text, votes by ascending round, and name as sources exactly the events told |
| `PromptGuard.PromptsPassTheGuard` | src/werewolf_eval/invariants/guards.py:22-42 | in every state of every run whatever either renderer cites for a seat is an event of the log the observer entitles that seat to |
| `ObserverTrust.BuildSeatRoleIndex` | src/werewolf_eval/observer_trust_index.py:48-209 | the index has exactly the mentioned seats; who lives is membership in the list of a god snapshot no other listing is newer than, failing that in the seat's own newest snapshot; role and team are those of the seat's own newest snapshot, failing that what the first god snapshot to tell says, failing that unknown; each with its source |
| `ObserverTrust.TimeRuns` | src/werewolf_eval/observer_trust_index.py:26-45 | snapshots are ordered by round, and within a round setup comes first, then night and unknown phases, day, vote, and the end |
| `ObserverTrust.LatestGodIsLatest` | src/werewolf_eval/observer_trust_index.py:129-160 | no snapshot listing the living is newer than the one used |
| `ObserverTrust.ListingOrderIsIrrelevant` | src/werewolf_eval/observer_trust_index.py:38-45 | two listings of the same snapshots give a seat the same index entry, or none, provided snapshots of the same time agree: on the living, on the seat's own account, and on what god says of its role and team |
| `ObserverTrust.LivingOrderIsIrrelevant` | src/werewolf_eval/observer_trust_index.py:38-45 | without two differing listings of the living of the same time the list taken from the latest god snapshot does not depend on the order of files |
| `ObserverProjection.BuildPlayerProjection` | src/werewolf_eval/observer_projection.py:102-239 | one view per player in roster order, and every view is discreet: the public sees no role and no team; a seat learns its own only as far as its own snapshot vouches for it, and of another seat only what its own snapshot names and never a wolf; the team view shows vouched-for wolves alone; only god sees what only god's snapshots say; standing and provenance say which of these it is |
| `ObserverProjection.ViewsAreDiscreet` | src/werewolf_eval/observer_projection.py:102-239 | whatever the index holds, every view of every perspective is discreet |
| `ObserverProjection.WolvesStayHidden` | src/werewolf_eval/observer_projection.py:102-239 | a player is shown to be a wolf only to god, to the wolves and to itself, and to the last two only on its own snapshot's word |
| `ObserverProjection.ProjectEvents` | src/werewolf_eval/observer_projection.py:320-358 | the visible events in order are exactly: for the public those of visibility public or all, for the team view those and the wolves' own, for a seat those and the channels of the role and team its own snapshot vouches for, for god all; visible and hidden counts add up to the log, and each event is counted under its one reason |
| `ObserverProjection.VisibleExactly` | src/werewolf_eval/observer_projection.py:247-293 | visibility by visibility, who is shown an event |
| `ObserverProjection.EnrichEvents` | src/werewolf_eval/observer_enrichment.py:214-286 | a visible event carries its reason exactly if there is one and the perspective is god's or that of the seat that decided |
| `ObserverTheorems.WitnessesAgreeExactly` | src/werewolf_eval/observer_projection.py:247-293 | observer and engine agree on a visibility for a trusted seat unless it is the seat's own channel and not one of seer, witch and guard (the hunter's) |
| `ObserverTheorems.WitnessesAgreeOnRuns` | src/werewolf_eval/observer_projection.py:247-293 | on every run's log the observer shows a seat exactly the events whose ids the engine puts in its public or private refs |
| `ObserverTheorems.RunsAreShownExactly` | src/werewolf_eval/observer_projection.py:247-358 | of every run's log god sees everything, the public exactly what is no night deed, the wolves also exactly the kills, and a seat its own snapshot vouches for also exactly the deeds of its own role |
| `ObserverTheorems.GodsKnowledgeStaysWithGod` | src/werewolf_eval/observer_projection.py:102-239 | changing only roles and teams in god snapshots changes nothing any other perspective is shown of any player |
| `ProviderTrace.CollectProviderTrace` | src/werewolf_eval/artifacts.py:40-74 | requests and responses in order, each id only the first time when de-duplicating |
| `ProviderTrace.FirstByIdExactly` | src/werewolf_eval/artifacts.py:40-74 | de-duplication invents nothing, loses no id, repeats none and keeps the first call of each |
| `ProviderTrace.EachCallExactlyOnce` | src/werewolf_eval/artifacts.py:40-74 | when an id names one call every call is kept exactly once |
| `ProviderTrace.SharingIsIrrelevant` | src/werewolf_eval/artifacts.py:40-74 | when the seats made the same calls in total, the traces hold the same calls, each once, whoever's provider recorded them and however often |
| `TraceTheorems.TraceIsTheRunsCalls` | src/werewolf_eval/artifacts.py:40-74 | a run's de-duplicated trace holds the id of each charged request exactly once and nothing else, so it is as long as the number of charges |
| `Attribution.VoteMargin` | src/werewolf_eval/attribution.py:127-145 | the dictionary count gives the eliminated seat's votes minus the best other's |
| `Attribution.RunnerUpExactly` | src/werewolf_eval/attribution.py:135-145 | the runner-up count is an upper bound on everybody else and is reached if positive |
| `Attribution.MarginOneExactly` | src/werewolf_eval/attribution.py:127-145 | the margin is one exactly if some single changed ballot makes another candidate the unique leader |
| `Attribution.MarginTwoOnlyTies` | src/werewolf_eval/attribution.py:205-214 | some single changed ballot ends the unique lead exactly if the margin is at most two; with two it can only tie |
| `ContextPacket.SelectVisiblePacket` | src/werewolf_eval/agent_context_packet.py:209-256 | refused exactly on a packet that fails validation or a negative limit; otherwise only records of the packet are selected, a seat-private one only for a seat in its list, a faction one only for an authorized seat that shares a team, no record of another private scope; every entitled record that is compacted, and without a limit every entitled record, is selected; of the others the first up to the limit are included and the rest dropped |
| `ContextPacket.VisibleExactly` | src/werewolf_eval/agent_context_packet.py:383-399 | the filtered list holds exactly the packet's public records, those private to this seat, and those of a faction for which it is authorized and shares a team |
| `ContextPacket.SelectionPartitions` | src/werewolf_eval/agent_context_packet.py:209-256 | every visible record is included, compacted or dropped, once, and no more than the limit are included |
| `ContextPacket.SelectionKeepsOrder` | src/werewolf_eval/agent_context_packet.py:209-256 | the kept records keep their order |
| `ContextPacket.SelectingAgainKeepsAll` | src/werewolf_eval/agent_context_packet.py:209-256 | selecting from a selection drops nothing |
| `ContextPacket.SelectedAreVisible` | src/werewolf_eval/agent_context_packet.py:383-399 | from whatever packet, every selected record is public, private to this seat, or of a faction for which it is authorized and shares a team, and selecting visible records again keeps it whole |
| `ContextPacket.InvisibleRecordsCannotMatter` | src/werewolf_eval/agent_context_packet.py:209-256 | records the seat may not see, put in anywhere, do not change its selection |
| `Continuity.RuntimeContinuityStore.OnGameEvent` | src/werewolf_eval/continuity_runtime.py:69-77 | after any events the store's flags, checks and records equal a replay of the events it was fed; a signal is recorded exactly for a known seat's check or potion |
| `Continuity.RuntimeContinuityStore.RecordSeerCheck` | src/werewolf_eval/continuity_runtime.py:113-142 | the check joins the seat's list once, and the seat's record cites the list |
| `Continuity.RuntimeContinuityStore.RecordWitchPotion` | src/werewolf_eval/continuity_runtime.py:144-190 | the potion's flag is set for good, the record cites the event, other seats are untouched |
| `Continuity.FlagsExactly` | src/werewolf_eval/continuity_runtime.py:144-190 | a potion flag is set exactly if some event of that seat used the potion |
| `Continuity.ChecksExactly` | src/werewolf_eval/continuity_runtime.py:113-142 | the check list holds exactly the ids of the seat's checks, each once |
| `Continuity.UpsertSources` | src/werewolf_eval/continuity_runtime.py:298-337 | an upsert replaces the record with its id and leaves the others |
| `ContinuityTheorems.StoreKnowsThePotions` | src/werewolf_eval/continuity_runtime.py:144-190 | fed any run's log the store says a potion is used exactly if the run has used it |

## Left out

- CheckRun: I4b (prompt sources against the observer) is not part of it, because turns here carry no prompt sources; `PromptGuard` states the same for what the renderers cite. The role parsed from a reveal's summary text (second half of I7) is not modelled either.
- CheckI8c: nights of the same round keep their log order where the source orders them by target name; runs never have two.
- CheckI2: the first death of a seat is found as a running minimum, where the source sorts the events first.
- EngineGameLogAccepted: the per-field parsing of a raw log before validation is not modelled.
- SilentWolvesAreRefused: stated for boards without a guard, whose turn comes before the wolves'; UnansweredRunsAreRefused has no such condition.
- BudgetCanRunOut: the least limit that no run overdraws lies between the charges of the long game and the request bound, and is not determined.
- Run: a JSON list or object as the `target` of a poison or a shot makes the source's test for membership among the living raise a type error that leaves the run; here a target is always a name or nothing.
- WitnessesAgreeExactly: for seats the observer's index trusts; what it shows of a seat without a trusted role is modelled but not compared.
- PublishDraft: a pack or role missing at publication is an error result, where the source raises a plain key error.
- LoadDecisionReasons: exact on clean logs; on other logs it is stated what may be attached, not what each event takes in turn; JoinEvent says that of one event.
- MarginOneExactly: the rule's other conditions (a role reveal, the impact text) are left out.
- RenderObservation: prompt wording is a line constructor applied to the event; the Chinese text, length caps and the board card are not modelled.
- BuildSeatRoleIndex: takes the snapshots as a list in the order they are found; reading files is left out.
- Provider transports, HTTP dialects, JSON parsing of answers, timeouts as clock time, credentials and launchers: an answer is already a failure, words, or an action.
- Failure records, runtime events, god and role snapshots, partial log mirroring, claim ledger and prompt context blocks of the engine: written beside the run and never read by it.
- Prompt versions 3 to 6 and the scaffold's digest; evaluation, scoring and semantic labels.
- Summaries, reason texts, confidences and their length and secret checks in all validators.
- Survivors are listed in seat order; the source sorts their names as text, which is the same up to nine seats. Draws among leaders are only known to pick one of them.
- `GameEngine.run` and the scripted consensus modes other than provider consensus: fixed finite scripts.
- The participant stub window, waiting for an open window, sessions, tokens and payload schemas: a window's field checks are one arbitrary flag, deadlines and phases are not kept.
- Role policy content checks are parameters of the store; saving and loading files is left out.
- Projection of snapshots, the proof block and the detail endpoint of the observer.
- Context packet schema validation is one arbitrary flag; roleplay memory operations, initial packets and fixture signals of the continuity store.
- The failure audit acceptor: the engine records kinds outside its accepted set, so universal acceptance is not claimed.
