# Blacklist_Download: a verified model

Peers download an n-bit array from a trusted source although some of them are
Byzantine. The program runs one round per bit: a committee asks the source and
broadcasts the bit, the round is sealed, every honest peer tallies the votes of the
senders it has not blacklisted, accepts a majority, or asks the source when both sides
have more than rho votes (a conflict) or nobody voted; a conflict blacklists the losers.
The model covers that protocol, the objects it runs on, and the concurrency beneath it.

| file | contents |
|---|---|
| Counting | counting and summing over sequences |
| Tally | messages, the tally of one round, the verdict |
| NodeRun | one honest peer over a whole run, against any adversary |
| Parameters | rho, committee probability, committee coin, over the reals |
| Mailbox | the message store, its 32-bit window, the flat log it must read like |
| Buffers | the message store again, with real byte buffers that are copied in and out |
| World | all peers and all rounds as a function of what the network does |
| WholeRun | theorems about finished runs over any network |
| Delivery | the votes each peer holds when it decides, and its counters, over any network |
| Ballots | over any network: the votes decided on, how liars are caught, which rounds fail, what the counters show |
| Divergence | when honest peers hold different blacklists; votes that disagree unnoticed |
| Lockstep, Adversaries | full delivery: the exact state of every peer, the exact cost of each adversary |
| AgentNode, Scenario | the source and peer objects, and the scenario runner working on them in place |
| Reporting, Setup | the report's meaning; Byzantine selection and fractions |
| ReceiveWindow | stores, seals (compare-and-swap loop) and sweeps of one peer, interleaved |
| Interleaving | one round over any network, its jobs and sends interleaved step by step |
| ConcurrentRound, ConcurrentRun | the whole round along any schedule, and whole runs against the sequential one |
| WorkerPool | the semaphore and error-channel pool that runs the jobs |
| SlotPool | the port-slot queue of the grid runner |

How the parts connect: the methods of `Scenario` are proved equal to the functions of
`World`; the theorems about those functions therefore hold of the objects.
`ConcurrentRun` proves, for any network, that running the jobs concurrently gives the same
peers as running them one after another. The views of `NodeRun.Run` are arbitrary, so its
theorems quantify over every adaptive adversary that may tell each peer something else.

## Assumptions

- `float64` is `real`; a square root is a number with the given square, a logarithm is a
  function on integers. Committee coins and the random adversary's coins are arbitrary
  functions of round and peer. `Config.rho` is the rho in force, given or derived.
- A message's `sender` is the peer that broadcast it. The source's bits are 0 or 1.
- The network is a value of type `Net`: for each request it says whether it fails, by the
  deadline or otherwise, how often a message reaches its target before its round is sealed,
  and, if several requests of a broadcast fail, which error arrives first. `Full` means that
  no request fails and each message arrives once; `Clean` that no request fails.
- `Config.Fits` (at most 2^31 rounds) is required where votes must pass the 32-bit window.

## Where the code does not do what its comments promise

- A peer's store is promised to be bounded to about one round (agent/message.go:26-28).
  Nothing bounds what it holds for rounds that are never decided. A message for round 5
  that comes in round 0 is still there at the end of a run of five rounds
  (`Mailbox.EarlyMessageExample`); and because the window test converts the round number to
  32 bits while the store keeps the full number, a message for round -2^32 is stored under a
  round that is already sealed (`Mailbox.WrappedRoundExample`). Over runs of any length and
  any traffic, a message outlives the run exactly if its 32-bit round was above the seal
  when it arrived and its full round is none of 0..n-1 (`Mailbox.OutlivesExactly`), the
  final store is empty exactly if there is no such message (`Mailbox.EmptyExactly`), and
  nothing is ever carried from one round to the next exactly if every message let in is for
  the round at hand (`Mailbox.NothingCarriedOverExactly`). The narrower promise that nothing
  at or below the seal is kept fails exactly for round numbers that wrap upward
  (`Mailbox.OnlyWrappedRoundsGoStale`). The program's own messages are always for the round
  at hand (`WholeRun.StoresEmptyBetweenRounds`).
- Messages for a sealed round are promised to be dropped (agent/message.go:12-13). The
  test and the append are separate steps, so a store that passed the test before the seal
  can append after it, and even after the round was forgotten
  (`ReceiveWindow.SplitStoreLeaksExample`). A sweep of a sealed round is final exactly if no
  such store is in flight (`ReceiveWindow.SweepIsFinalExactly`). A sealed round's votes are frozen exactly if no
  such store is in flight (`ReceiveWindow.FrozenExactlyIfNoneInFlight`), which holds
  whenever test and append are one step (`ReceiveWindow.AtomicStoresFreeze`).
- All honest peers are said to blacklist the same liars (sim/algo_blacklist.go:41-42), which
  is why the drip adversary watches one of them. One vote that misses its deadline at one
  peer breaks this in a run that succeeds (`Divergence.MissedVoteSplitsBlacklists`). Two
  honest peers hold the same blacklist throughout exactly if in every round the votes clash
  for both or for neither, and where they clash the unlisted senders of false votes are the
  same (`Divergence.HonestBlacklistsAgreeExactly`). That holds whenever each vote reaches
  both equally often (`Divergence.EqualDeliveryKeepsBlacklistsEqual`), and so under full
  delivery.
- Two committee members that broadcast different values are said to be a conflict that the
  source resolves (README.md:21). The source is asked exactly if both sides have more than
  rho votes; otherwise the majority stands, or 0 on a tie, and nobody is blacklisted
  (`Tally.DisagreementResolvedExactly`). With one honest and one lying peer and rho = 1 the
  honest peer outputs a wrong bit without asking (`Divergence.UnresolvedDisagreement`).

## Model

| member | source | states |
|---|---|---|
| Tally.DecideIgnoresOrder | sim/algo_blacklist.go:181-225 | the verdict depends on the multiset of votes only, not on arrival order |
| Tally.WrongBitCondition | sim/algo_blacklist.go:199-224 | a round ends with the wrong bit exactly if at most rho true votes count and the false side is ahead, or tied with the true bit 1 |
| Tally.LosersVotedWrong | sim/algo_blacklist.go:207-215 | who is blacklisted by a round: exactly the counted senders of false votes, and only in a conflict |
| Tally.ConflictExposes | sim/algo_blacklist.go:199-215 | with one vote per sender a conflict lists more than rho senders, none of them listed before |
| Tally.HonestVotesCounted | sim/algo_blacklist.go:184-197 | votes of unlisted honest peers are all counted, on the true side |
| Tally.VoidVotesAreIgnored | sim/algo_blacklist.go:187-189 | empty messages and those of listed senders change nothing in the verdict, wherever they stand |
| Tally.OnlyTheFirstByteCounts | sim/algo_blacklist.go:190-196 | of any other message only the sender counts, and whether its first byte is 0 |
| Tally.LoneVoteDecides | sim/algo_blacklist.go:199-224 | a single vote that counts decides the bit without a query, and with none the source is asked |
| Tally.DisagreementResolvedExactly | README.md:21 | votes on both sides are taken to the source exactly if both counts exceed rho; otherwise majority or tie value, and nobody listed |
| Tally.BlacklistsStayEqual | sim/algo_blacklist.go:199-215 | peers with equal blacklists leave a round with equal blacklists exactly if both or neither clash and a clash has the same unlisted false senders |
| Tally.ExposureIsLeastAboveRho | sim/algo_blacklist.go:44 | floor(rho)+1 is the least number of votes above rho |
| NodeRun.Run.BlacklistGrows | agent/blacklist.go:6-10 | the blacklist only grows over a run |
| NodeRun.Run.BlacklistIsTheCaught | sim/algo_blacklist.go:207-215 | a peer is on the blacklist exactly if its counted vote was false in some earlier conflict |
| NodeRun.Run.HonestNeverListed | sim/algo_blacklist.go:184-215 | no honest peer is ever blacklisted, whatever the adversary does |
| NodeRun.Run.ListedAreByzantine | sim/algo_blacklist.go:184-215 | the blacklist holds Byzantine peers only |
| NodeRun.Run.OutputWrongExactlyAtFailures | sim/algo_blacklist.go:244-247 | the output is complete, and wrong in exactly the bits whose round met the failure condition |
| NodeRun.Run.Safety | sim/algo_blacklist.go:121-125 | more than rho honest votes in every view make the output equal the source's array, for every adaptive equivocating adversary |
| NodeRun.Run.VerifySplits | sim/algo_blacklist.go:199-205 | verify queries are the conflicts plus the rounds without a counted vote |
| NodeRun.Run.Potential | sim/algo_blacklist.go:199-215 | at every point of a run, conflicts times floor(rho)+1 is at most the size of the blacklist |
| NodeRun.Run.ConflictBound | sim/algo_blacklist.go:199-215 | no adversary with one vote per sender and round forces more than min(n, B div (floor(rho)+1)) conflicts |
| NodeRun.BlacklistsAgreeExactly | sim/algo_blacklist.go:39-42 | two honest runs of the same bits hold the same blacklist at every point exactly if in every round the same liars are caught |
| NodeRun.Run.FloodCaughtAtOnce | sim/algo_blacklist.go:230-242 | if every Byzantine peer lies in every round, there is at most one conflict, and after it exactly the Byzantine peers are listed |
| NodeRun.Run.FloodLaterQueriesAreSilent | sim/algo_blacklist.go:199-217 | after that conflict a verify query happens exactly in rounds without an honest vote |
| Parameters.CommitteeProbability | agent/committee.go:10-26 | the probability lies in [0, 1], is 1 exactly in the saturated cases, and otherwise is the quotient of the formula |
| Parameters.CoinIsBelow | agent/committee.go:30-39 | of the draws in [0, 1) exactly those below p seat a peer, whether or not p is clamped |
| Parameters.RhoExactly | sim/algo_blacklist.go:249-258 | the derived rho is 1 exactly if H * B <= d * n, and otherwise rho^2 * d * n = H * B |
| Parameters.RhoSquared | sim/algo_blacklist.go:251-258 | the derived rho satisfies rho^2 * d * n >= H * B |
| Parameters.SquareRootBound | sim/algo_blacklist.go:249-258 | c * (floor(rho)+1) <= B gives c^2 * H <= d * n * B for the derived rho |
| Parameters.RunSquareRootBound | sim/algo_blacklist.go:20-26 | an honest peer's conflicts obey that bound in every run with one vote per sender and round |
| Parameters.SaturatedCommitteeBeatsRho | sim/algo_blacklist.go:249-258 | H honest votes exceed the derived rho exactly if H >= 2 and B < d * n * H |
| Mailbox.StoreRefinesLog | agent/message.go:14-79 | for every sequence of stores, seals and sweeps, reading a round and topic gives the accepted, unforgotten messages of that key in arrival order |
| Mailbox.LogHolds | agent/message.go:26-57 | that log holds exactly the messages that found the window open and whose round was not forgotten since |
| Mailbox.FrozenOnceSealed | agent/message.go:12-24 | with atomic stores a sealed round reads the same until it is forgotten |
| Mailbox.ViewIsArrivals | sim/algo_blacklist.go:103-105 | the votes decided on are those stored before the seal; latecomers change nothing |
| Mailbox.RunContents | agent/message.go:26-57 | over a run with arbitrary traffic before and after each seal, the store holds exactly what the window let through, in order, except for the rounds decided so far |
| Mailbox.OutlivesExactly | agent/message.go:26-33 | a message outlives n rounds exactly if its 32-bit round was above the seal on arrival and its full round is none of 0..n-1 |
| Mailbox.EmptyExactly | agent/message.go:26-33 | the store is empty after n rounds exactly if every message let through was for one of them |
| Mailbox.NothingCarriedOverExactly | sim/algo_blacklist.go:135-139 | no round ends with a message left exactly if every message let in is for the round at hand |
| Mailbox.EarlyMessageExample | agent/message.go:26-33 | a message for round 5 is still stored after every run of up to five rounds |
| Mailbox.NothingSealedIsKept | agent/message.go:12-33 | unless round numbers wrap, nothing at or below the seal is left after a round |
| Mailbox.OnlyWrappedRoundsGoStale | agent/message.go:36-39 | a message can be stored under a sealed round exactly if its round number wraps upward in 32 bits |
| Mailbox.WrappedRoundExample | agent/message.go:36-39 | such a message, and the round it survives |
| Buffers.MessageStore.StoreMessage | agent/message.go:36-57 | storing copies the sender's buffer: the store's buffers are its own, its contents those of the flat store |
| Buffers.MessageStore.Messages | agent/message.go:60-79 | readers get the stored bytes in new buffers disjoint from the store's |
| Buffers.MessageStore.SealRound | agent/message.go:14-24 | sealing moves the window as on values and leaves the buffers alone |
| Buffers.MessageStore.ForgetRound | agent/message.go:29-33 | forgetting drops one round's messages and no other |
| Buffers.Scribble | agent/message.go:43-48 | writing into any buffer outside the store leaves its contents unchanged |
| World.FirstHonestExists | sim/algo_blacklist.go:45-47 | there is an honest peer to represent the adversary's view |
| WholeRun.CoreFollowsRun | sim/algo_blacklist.go:121-125 | over any network an honest peer's bits, blacklist and verify count are those of its own run of views |
| WholeRun.FinishedRun | sim/algo_blacklist.go:121-171 | a run without error leaves each honest peer exactly the bits 0..n-1, wrong precisely where a round failed, and a blacklist of Byzantine peers |
| WholeRun.FinishedRunIsSafe | sim/algo_blacklist.go:49-140 | with more than rho honest votes in each view the output is right over any network |
| WholeRun.VerifyQueriesBounded | sim/algo_blacklist.go:199-215 | over a network without duplicates verify queries are conflicts plus silent rounds, and conflicts obey the potential bound |
| WholeRun.CleanRunBalances | sim/algo_blacklist.go:91-98 | without faults a run completes, an honest peer's source queries are primary plus verify, its messages (k-1) times primary, a Byzantine peer's all 0 |
| WholeRun.StoresEmptyBetweenRounds | sim/algo_blacklist.go:135-139 | with atomic stores the program's own messages leave every store empty after each round, and while deciding it holds that round only |
| Delivery.JobsReach | sim/algo_blacklist.go:81-99 | over any network the exact state of every peer in the middle of the voting phase: votes received, queries and acknowledged sends |
| Delivery.JobsMissed | sim/sim.go:222-227 | the missed counter is the number of jobs that return the deadline's error |
| Delivery.ViewIsReceived | sim/algo_blacklist.go:103-125 | an honest peer decides on as many copies of each sent vote as the network let through |
| Ballots.ExposedExactly | sim/algo_blacklist.go:65-79 | drip exposes a peer exactly if it is Byzantine, unlisted, and fewer than floor(rho)+1 such peers have lower ids |
| Ballots.VotesDecidedOn | sim/algo_blacklist.go:65-105 | over any network and for all four adversaries, the exact votes an honest peer decides on: true bits of the seated peers the source answered, coins of random peers, false bits of the others, under drip of those exposed in the eyes of the least honest peer, each as often as it arrived |
| Ballots.CaughtExactly | sim/algo_blacklist.go:199-215 | a Byzantine peer is on an honest peer's blacklist exactly if in some conflict so far its vote was false and arrived |
| Ballots.RandomCaughtExactly | sim/algo_blacklist.go:230-242 | a random peer is listed exactly if its coin was false in such a conflict, so never if its coin is always true |
| Ballots.RoundFailsExactly | sim/algo_blacklist.go:81-125 | a round fails exactly if some job ends with an error that is not the deadline, or an honest peer whose votes clash or do not count has its query refused |
| Ballots.CountersExactly | agent/client.go:22-90 | over any network: queries are committee seats plus verifications, primary queries the answered seats, messages the peers reached in those rounds |
| Divergence.HonestBlacklistsAgreeExactly | sim/algo_blacklist.go:39-42 | over any network two honest peers hold the same blacklist after every round exactly if they catch the same liars in every round |
| Divergence.EqualDeliveryKeepsBlacklistsEqual | sim/algo_blacklist.go:39-42 | they do if each vote reaches both equally often |
| Divergence.MissedVoteSplitsBlacklists | sim/algo_blacklist.go:39-42 | a configuration and a network with one vote lost by the deadline, whose run succeeds and leaves two honest peers with different blacklists |
| Divergence.UnresolvedDisagreement | README.md:21 | a run under full delivery whose two votes disagree, yet the honest peer asks nobody and outputs the wrong bit |
| Lockstep.LockstepRun | sim/algo_blacklist.go:39-47 | under full delivery the exact state of every peer after every round; all honest peers agree on bits, blacklist and verify count |
| Adversaries.FullDeliveryIsSafe | sim/algo_blacklist.go:49-140 | under full delivery honest committees larger than rho make every output right |
| Adversaries.ExposedSize | sim/algo_blacklist.go:65-79 | drip exposes unlisted Byzantine peers only, as many as there are up to floor(rho)+1 |
| Adversaries.DripRound | sim/algo_blacklist.go:65-79 | a drip round is a conflict exactly if enough Byzantine peers are unlisted, and then costs exactly the exposed ones |
| Adversaries.DripCounts | sim/algo_blacklist.go:39-47 | after i drip rounds: min(i, B div e) verify queries and e times as many listed peers |
| Adversaries.DripIsExactAndOptimal | sim/algo_blacklist.go:39-79 | each honest peer makes exactly min(n, B div e) verify queries under drip, and no rival forces more conflicts |
| Adversaries.FloodCostsOneConflict | sim/algo_blacklist.go:227-242 | flood and collude cause one conflict in the run, exactly if some round has more than rho voters on both sides, and none otherwise |
| Adversaries.FloodVerifyQueries | sim/algo_blacklist.go:227-242 | with an honest voter in every committee an honest peer then verifies exactly that often |
| Adversaries.ClampedCommittees | agent/committee.go:30-39 | probability 1 seats everyone in every committee, probability 0 no one |
| Adversaries.SaturatedIsStrong | sim/algo_blacklist.go:20-27 | saturated committees beat the derived rho in every round exactly if H >= 2 and B < d * n * H |
| Adversaries.SaturatedGuarantee | sim/algo_blacklist.go:20-27 | then every output is right, and under drip an honest peer spends exactly n + min(n, B div e) queries |
| Adversaries.ConflictsWithinSquareRoot | sim/algo_blacklist.go:20-26 | the program's own runs obey c^2 * H <= d * n * B over any network without duplicates |
| AgentNode.Source.constructor | source/source.go:28-43 | the source holds one drawn bit per position, at least one |
| AgentNode.Source.GetBit | source/source.go:64-69 | an index is answered exactly if it is in range, with the stored bit |
| AgentNode.Source.Object | source/source.go:58-62 | the ground truth is a fresh copy |
| AgentNode.Source.Serve | source/source.go:73-96 | exactly the answered requests are counted |
| AgentNode.Agent.constructor | agent/agent.go:40-54 | a new peer is empty and its window open from round 0 |
| AgentNode.Agent.StoreBit | agent/agent.go:67-71 | one bit is set, everything else unchanged |
| AgentNode.Agent.MissingBitCount | agent/agent.go:80-90 | the number of absent positions |
| AgentNode.MissingCounted | agent/agent.go:80-90 | that number is the size of the set of absent positions |
| AgentNode.NothingMissing | agent/agent.go:80-105 | no bit is missing exactly if reconstruction succeeds |
| AgentNode.Agent.Reconstruct | agent/agent.go:93-105 | null exactly if a bit is missing, else a fresh array of all bits |
| AgentNode.Agent.SealRound | agent/message.go:14-24 | the window closes up to the round and never reopens |
| AgentNode.Agent.ForgetRound | agent/message.go:29-33 | exactly that round's messages are dropped |
| AgentNode.Agent.StoreMessage | agent/message.go:36-57 | the nested store gets the message at the end of its key, unless the window is closed for it |
| AgentNode.Agent.Messages | agent/message.go:60-79 | the messages of one round and topic |
| AgentNode.Agent.Blacklist | agent/blacklist.go:6-10 | one id is added, nothing else changes |
| AgentNode.Agent.QueryBit | agent/client.go:23-52 | the attempt counts even if it fails; a success returns the source's bit |
| Scenario.BroadcastMessage | agent/client.go:56-90 | every target gets its copies, the sender its own, M counts acknowledged honest sends, the fault that arrives first is returned |
| Scenario.ByzantineVote | sim/algo_blacklist.go:230-242 | the vote each strategy sends |
| Scenario.ChooseExposed | sim/algo_blacklist.go:65-79 | the loop with its early exit picks the first unlisted Byzantine peers up to the exposure |
| Scenario.RunJob | sim/algo_blacklist.go:81-99 | one peer's job, for all outcomes of its requests |
| Scenario.RunRoundJobs | sim/sim.go:203-240 | all jobs run whatever the others' outcomes; deadline faults are counted, others reported |
| Scenario.TallyVotes | sim/algo_blacklist.go:182-197 | the counters and voter lists are the tally of the unlisted, nonempty votes |
| Scenario.BlacklistAll | sim/algo_blacklist.go:212-214 | all losers are added |
| Scenario.DecideOneBit | sim/algo_blacklist.go:181-225 | the peer ends in the state the verdict prescribes; a failed query leaves everything but the attempt counter |
| Scenario.HonestAgents | sim/sim.go:191-199 | exactly the honest peers, in order |
| Scenario.RunDecisions | sim/algo_blacklist.go:121-125 | each honest peer decides once, Byzantine peers are untouched, a fault anywhere is reported |
| Scenario.RunRound | sim/algo_blacklist.go:50-140 | one whole round on the objects is one round of the model, failure included |
| Scenario.Account | sim/algo_blacklist.go:148-172 | the report is that of the final state |
| Scenario.RunBlacklistScenario | sim/algo_blacklist.go:16-178 | the run on the objects succeeds exactly if the model's run does, with the same final state and report |
| Reporting.OutcomesCounted | sim/algo_blacklist.go:166-171 | whatever state the run ended in, completed is the number of honest peers whose output is the source's array, failed that of the others |
| Reporting.TotalsAreSums | sim/algo_blacklist.go:148-170 | total and honest queries, messages and missing bits are the sums of the peers' own numbers, in every state |
| Reporting.MaximaAttained | sim/algo_blacklist.go:155-164 | reported maxima bound every honest peer and are attained; Q comes with the split of the first peer that attains it |
| Reporting.FinishedReport | sim/algo_blacklist.go:143-177 | a finished run reports on every honest peer, at least one, misses no bit, and completed is the number of those without a failed round |
| Reporting.CleanReport | sim/algo_blacklist.go:148-165 | without faults Q is its committee part plus its conflict part, and M is k-1 messages per committee query |
| Setup.ByzantineCountIsLargest | sim/scenario.go:40-44 | the count is the largest whose fraction does not exceed the ratio, and leaves an honest peer |
| Setup.FractionsComplement | sim/scenario.go:104-110 | the honest fraction is 1 - beta, and positive |
| Setup.SelectionIsValid | sim/scenario.go:40-44 | the peers marked for a ratio make a valid configuration with an honest peer |
| Setup.ReportCountsUnmarked | sim/algo_blacklist.go:166-171 | a finished scenario reports on exactly k minus the marked peers |
| Setup.SelectByzantine | sim/sim.go:181-189 | exactly the requested number of peers is marked, those at the head of the permutation |
| ReceiveWindow.WindowOnlyCloses | agent/message.go:14-24 | in every interleaving the sealed round never decreases and finished calls stay finished |
| ReceiveWindow.SealLinearizesToMaximum | agent/message.go:14-24 | a returned SealRound(r) has closed the window up to r; when all have returned it is the maximum of the initial value and all rounds |
| ReceiveWindow.MeasureDecreases | agent/message.go:15-23 | every step decreases a measure in which a failed swap is paid for by the successful one that caused it |
| ReceiveWindow.ScheduleIsBounded | agent/message.go:15-23 | no interleaving of T calls takes more than (2T+4)T steps |
| ReceiveWindow.LateMessageIsDropped | agent/message.go:36-39 | a message tested after some SealRound(r) has returned is never stored under a round up to r |
| ReceiveWindow.FrozenExactlyIfNoneInFlight | agent/message.go:36-57 | a sealed round's votes are frozen until forgotten exactly if no store has passed its test without appending |
| ReceiveWindow.SplitStoreLeaksExample | agent/message.go:36-57 | an interleaving that stores a vote after its round was sealed and forgotten |
| ReceiveWindow.SweepEmptiesItsRound | agent/message.go:29-33 | when a sweep returns nothing of its round is stored and every other round reads as before |
| ReceiveWindow.SweepIsFinalExactly | agent/message.go:26-57 | a sweep of a sealed round is final, along every later schedule, exactly if no store of that round is in flight |
| ReceiveWindow.AtomicRunIsLinearizable | agent/message.go:12-57 | with atomic stores every interleaving leaves the window and the log of the operations taken one after another, in the order in which they return |
| ReceiveWindow.MemoryExactly | agent/message.go:26-57 | at every moment of an atomic run exactly the messages let in and not swept since are stored |
| ReceiveWindow.AtomicStoresFreeze | agent/message.go:36-57 | with test and append in one step every sealed round is frozen, under any schedule |
| Interleaving.ChangeKeepsPeer | sim/algo_blacklist.go:81-99 | at every step of any job, over any network, each peer's counters match the progress of its job and its store holds exactly the copies delivered so far, as a multiset |
| ConcurrentRound.StragglersAreDropped | agent/message.go:36-39 | a message that arrives after its round was sealed changes nothing, at any moment of any later round |
| ConcurrentRound.ExecuteKeepsOk | sim/algo_blacklist.go:81-139 | the invariant of the round holds along every schedule, through voting, sealing, deciding, sweeping and failing |
| ConcurrentRound.RoundCanFinish | sim/algo_blacklist.go:81-139 | from every state a round can be in it can be run to its end |
| ConcurrentRun.ConcurrentRunIsSequential | sim/algo_blacklist.go:49-140 | over any network and for all interleavings, a concurrent run leaves all peers exactly as, and fails exactly if, the sequential run does over the same network with the observed order of errors |
| ConcurrentRun.AllInterleavingsAgree | sim/algo_blacklist.go:49-140 | unless a broadcast meets two kinds of faults, all completed interleavings of the run end as the one sequential run |
| ConcurrentRun.InterleavingsKeepLockstep | sim/algo_blacklist.go:39-47 | under full delivery no interleaving fails, and each leaves every peer in its one lockstep state |
| WorkerPool.BoundedParallelism | sim/sim.go:207-222 | never more jobs in flight than the limit |
| WorkerPool.NoDeadlock | sim/sim.go:207-240 | until the pool returns some step of the parent or a job is possible, even while the parent waits for a token |
| WorkerPool.ReturnAccountsForAll | sim/sim.go:212-239 | missed, failed and successful jobs add up to the launched ones, all of them finished; everything was launched unless cancelled; the returned error is the first one sent, or else a cancellation, or nil if every job was launched |
| WorkerPool.PoolReportsTheTruth | sim/sim.go:212-239 | from what the jobs did: each launched function ends once, missed counts those that hit the deadline uncancelled, every other error is sent once and nothing else is, and the first one sent is returned |
| WorkerPool.MissedAreTheLate | sim/sim.go:222-226 | without a cancellation missed is the number of functions that ended by the deadline |
| WorkerPool.FailureIsReported | sim/sim.go:222-239 | a job that fails at any step of a schedule has its error on the channel, and the pool does not report success |
| WorkerPool.SuccessExactly | sim/sim.go:232-239 | the pool returns nil exactly if nothing was cancelled before and no function ended with an error |
| WorkerPool.CancelStopsLaunching | sim/sim.go:212-217 | after a cancellation at most the one job already past its test is launched |
| WorkerPool.PoolTerminates | sim/sim.go:212-233 | in every execution, cancelled or not, the parent and the jobs take at most 7n+2 steps |
| SlotPool.SlotsAreExclusive | scripts/run_grid_multiseed.py:35-37 | concurrently running tasks hold different slots of the pool, absent from the queue |
| SlotPool.PortsDisjointIffTheyFit | scripts/run_grid_multiseed.py:21-22 | simulations with k and l agents have disjoint ports on any two slots exactly if k+1 and l+1 are at most PORT_STRIDE |
| SlotPool.RunningTasksShareNoPort | scripts/run_grid_multiseed.py:34-69 | tasks running at the same time, each with its own number of agents within the stride, never share a port |
| SlotPool.FirstComeFirstServed | scripts/run_grid_multiseed.py:35-87 | slots taken so far followed by the queue are the initial slots followed by those put back; the counter is the number of runs without an exception |
| SlotPool.EverySlotReturns | scripts/run_grid_multiseed.py:42-87 | when all tasks have ended every slot is back, exceptions or not |
| SlotPool.EveryTaskRuns | scripts/run_grid_multiseed.py:98-105 | with at least one slot an execution that cannot be continued has run every task once, to its end |

## Left out

- HTTP, JSON, sockets, retries and backoff timing: a request succeeds, fails, or misses the deadline, and a message arrives any number of times, as `Net` says.
- Random generators and probability claims: coins are arbitrary, and the size of honest committees is a hypothesis (`StrongCommittees`, `WellAttended`).
- Floating-point rounding and NaN.
- Byte buffers inside `AgentNode.Agent`: its messages are values; copying and aliasing are modelled in `Buffers`.
- Locks and atomics of `AgentNode.Agent`: each method is one atomic step there; the steps inside SealRound and StoreMessage are modelled in `ReceiveWindow`.
- Which of several jobs' errors ends a run: a round fails for any error that is not the deadline, and the run then has no result.
- Scenario.RunRoundJobs: no outside cancellation, which stops launching jobs; a cancelled run ends with an error and no result, as a failed one does, and `WorkerPool` models the launching.
- Scenario.RunDecisions: no outside cancellation, as above.
- Scenario.RunBlacklistScenario: no outside cancellation, no average of the honest queries, and no server-side query count.
- Mailbox.NothingSealedIsKept: says nothing about rounds above the seal, which `Mailbox.RunContents` and its corollaries describe exactly.
- WholeRun.StoresEmptyBetweenRounds: stores are atomic there; a store in flight at the seal is the subject of `ReceiveWindow`.
- AgentNode.Agent.QueryBit: a failed request is never counted at the source, although the source may have seen it; the report's server-side query count is not modelled.
- WorkerPool.ReturnAccountsForAll: covers runRoundJobs; runAgentJobs is the case without late jobs, and the pool inside Broadcast the case without cancellation.
- Runs of more than 2^31 rounds, where every vote is dropped by the window.
- GetBit, IsBlacklisted, BlacklistSize and BlacklistedIDs of a peer, option validation, average queries, timing, and the port and server set-up: they would only add easy members.
- Terminal output, traces, CSV files, plotting, the grid generator and shell scripts.
- The claim that the paper's rho minimises the total cost: nothing in the code decides it.
