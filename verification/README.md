# Verified models of the node's core

This project models the hard parts of a DAG ledger node and its networking stack in Dafny 4.11, and proves what
they are for: over every run, every interleaving, every input. One module follows one source file, or one part of
it. Code that works by changing things keeps that form: a class with the source's fields, methods with the
source's loops. Each such method is proved against a function or predicate of its inputs, and the theorems are
proved about that function. `dafny verify dfyconfig.toml` checks everything.

| files | what they model |
|---|---|
| `Common` | what several modules share |
| `Dag`, `Sync`, `Tips`, `GraphInfo` | the unit store, best parent, level and witnessed level, the tip set, the selection and order of units sent to a peer |
| `Ledger`, `LedgerOwners`, `LedgerProcess` | batches of stabilised units over the set of unspent outputs, who is paid what, building and reviewing a payment |
| `Feed` | the event feed under every interleaving of Send, Subscribe and Unsubscribe |
| `Discovery`, `DiscoveryLaws`, `DiscoveryEcho`, `DiscoveryLoop` | the discovery state machine with nested transitions and find-node queries, the cause of every change of state, and what an accepted pong proves |
| `Dialer`, `DialerLaws`, `ServerLoop`, `DialLoop` | the dial scheduler, the reason for every dial, and the server's run loop |
| `PeerMux` | the message code space negotiated by the two ends of a connection |
| `BitsetCodec` | the recursive sparse byte codec |
| `Sponge`, `Sha3` | the buffered sponge against the one-shot sponge of sections 4 and 5.1 of FIPS 202 |
| `BlockQueue` | the circular growing block queue |
| `Bits`, `Rlpx`, `RlpxLaws`, `RlpxConn` | RLPx framing, both ends in lockstep, the bytes of a frame and what its tags cover |
| `Merkle` | the Merkle tree on the heap, with parent pointers |
| `Distance`, `Table`, `TableLaws`, `TableOps` | XOR distances, the nearest nodes, bucket invariants, what each operation does to a bucket |
| `Curve` | Jacobian doubling and addition modulo P, with the tangent and chord laws |

Assumptions, each visible in a predicate of the model: a new unit has a content key that no stored unit has
(`Dag.FreshKeys`); stable units have stable ancestors whose main chain index is not larger (`Sync.StableIsClosed`);
the hash of a node is a function of its ID (`Table.Hashed`); the two ends of a connection give a shared protocol
version the same length (`PeerMux.AgreeOnLengths`); the RLP and snappy codecs undo themselves (`Rlpx.Lawful`, which
`Rlpx.SomeSuiteIsLawful` shows can be met); a dynamically dialled connection is added while its dial task is still in
flight (`ServerLoop.Enabled`), as p2p/server.go:635-637 says.

Nine promises turn out false of the code as it stands; each has a concrete input or run and the exact condition:

- A batch of valid units conserves the total if and only if the gains of its units cancel, a gain being what a unit
  pays out more than it declares as paid in, and what it spends of other owners (`Ledger.ValidBatchTotal`). The review
  looks at the first message only, and an output is looked up under its owner but deleted under the author
  (transaction/stableprocess.go:66-67). So a unit that passes the review can pay out too much in its second message
  (`Ledger.TwoMessagesNeedNotBalance`), or balance and spend what is not its author's
  (`Ledger.ForeignInputNeedNotBalance`). Any batch, aborted or with invalid units, changes the total by what its units
  make less what they take up to where they stop, and grows if and only if they make more (`Ledger.BatchTotal`); a unit
  that is refused as a double spend keeps the outputs of its earlier messages (`Ledger.RefusedUnitGrows`). Units that
  have never made more than they have taken, however far they get, never raise the total (`Ledger.ThriftyNeverGrows`).
- An output can be consumed twice (`Ledger.CanBeSpentTwice`). Over every run of units whose inputs are all their
  authors', reviewed units among them, none is (`Ledger.NeverSpentTwice`, `Ledger.ReviewedNeverSpentTwice`). A valid
  unit opens the way to a second spending if and only if some input is not its author's (`Ledger.SpentTwiceIff`): that
  output is still there (`Ledger.GoneIffAuthored`, `Ledger.SpendableAgainIff`) until its owner spends it, after which
  nobody does again (`Ledger.SpentOnceByItsOwner`).
- Not every output that is stored can be spent. The message index of an input is not read, and 0 is put in its place
  (transaction/stableprocess.go:59): an output of a stored unit can be asked for if and only if it is one of the first
  message, or a commission (`LedgerOwners.AskedIff`); those of later messages are stored and stay
  (`LedgerOwners.OutputIsStored`).
- A unit from CreateTx passes the amount review if and only if the two amounts it is given agree, and with nothing
  offered only if the amount cancels the commissions (`LedgerProcess.CreateTx`, `LedgerProcess.AmountsNeedNotMatch`).
  Both callers pass equal amounts (node/node.go:649 and 762).
- A message is sent and read back if and only if it fits 24 bits; the frame size is a 32-bit sum and may wrap
  (`Rlpx.ExactlyWhenItFits`, `Rlpx.WrappedSizeIsAccepted`).
- A deferred find-node query can wait without a timer, in three ways: after an unknown node was pinged from outside the
  machine (`Discovery.DeferredQueryCanStall`); after the timeout of the query before it, which never starts the next one
  (`Discovery.TimeoutLeavesQueryStalled`, `Discovery.NeighboursTimeoutStalls`); and at a node that claims our own ID,
  which is never pinged (`Discovery.QueryToOurselvesWaits`). In runs without such pings a deferred query has the timer
  of its wait if and only if its node can be queried and has another query pending, or cannot be queried yet and is not
  ourselves, or waits for the other side's ping (`Discovery.DeferredHasTimerIff`). No timeout starts a query that is
  stalled at a node that can be queried (`Discovery.StalledStays`).
- A node can become known without having answered any ping: when the ping could not be sent, a pong with an empty
  token passes the check (`DiscoveryEcho.EmptyTokenVerifies`). With no empty ping hashes, a verified node has echoed a
  ping that was sent to it if and only if one of its accepted tokens is not empty (`DiscoveryEcho.EchoedIff`); if every
  ping is sent, every verified node has, but for one with our own ID (`DiscoveryEcho.VerifiedHasEchoed`).
- Add and Double have no result where the z coordinate has no inverse. Modulo an odd prime this is so exactly for two
  points with the same x coordinate, equal or opposite, and for y = 0 (`Curve.AddDefinedIff`, `Curve.DoubleDefinedIff`,
  `Curve.AddOfEqualsFails`).
- Input that decompresses at its own size is taken as it is (`BitsetCodec.AcceptedNeedNotBeCanonical`); accepted
  input is what compression produces if and only if it is shorter than the target or encoding does not shorten it
  (`BitsetCodec.AcceptedIsCanonical`).

## Model

| member | source | states |
|---|---|---|
| `Dag.BestParentIsOrderFree` | dag/graph_info.go:78-103 | the best parent depends on the set of parents only, not on the order the tips come in |
| `Dag.BestParentIff` | dag/graph_info.go:78-103 | what no parent beats has the highest witnessed level of the parents, among those the lowest level, among those the smallest key; and the other way round |
| `Dag.BestParentOfEveryUnit` | dag/graph_info.go:78-103 | over every run from genesis this holds of the best parent of every stored unit |
| `Dag.LevelIsLongestPath` | dag/graph_info.go:27-39 | over every run the level of a unit, above that of the genesis unit, is the number of links on a longest path of parents to the genesis unit |
| `Dag.WalkBounds` | dag/graph_info.go:41-76 | the walk's result lies between 0 and the level of its start |
| `Dag.WalkMonotone` | dag/graph_info.go:41-76 | starting with more witnesses already met never lowers the result |
| `Dag.WalkFrame` | dag/graph_info.go:41-76 | the walk gives the same result in every later store |
| `Dag.WalkFindsMajority` | dag/graph_info.go:41-76 | the walk stops at the first position of the best-parent chain where the witnesses met number a majority, or there is no such position and it returns 0 |
| `Dag.WalkIsWitnessedLevel` | dag/graph_info.go:41-76 | a number has the meaning of the witnessed level if and only if the walk returns it |
| `Dag.StepKeepsInv` | transaction/transaction.go:90-112 | saving a unit built by the graph code, or restamping one, keeps every unit's metadata right |
| `Dag.RunKeepsInv` | transaction/transaction.go:90-112 | so does every run |
| `Dag.GenesisInv` | node/node.go:491-516 | a store with the genesis unit alone starts the invariant |
| `Dag.WitnessedLevelOverParents` | dag/graph_info.go:27-103 | a unit's witnessed level is at least that of each parent, not only the best one, and below its own level |
| `Dag.WitnessedLevelMonotone` | dag/graph_info.go:27-103 | over every run from genesis, along every path of parent links: witnessed levels never increase, levels strictly decrease |
| `Dag.RunKeepsKeys` | core/types/unit.go:56-86 | without a hash collision all stored units have different keys, over every run |
| `Dag.BuildIsOrderFree` | dag/graph_info.go:27-103 | over every run: two units built over the same tips, in any two orders, get the same best parent, level and witnessed level |
| `Sync.ClosedHoldsPath` | dag/graph_info.go:176-194 | collections that hold the tips and are closed under admitted parents hold everything reached |
| `Sync.ReachedIsAdmittedAncestor` | dag/graph_info.go:176-194 | the traversal enters exactly the ancestors of the tips that are unstable or above the known index |
| `Sync.SentOnce` | node/node.go:319-339 | everything sent is stored, and nothing is sent twice |
| `Sync.SendOrderIsTopological` | node/node.go:319-339 | in the concatenated send order every missing parent stands before its child |
| `Sync.SentIsExactlyMissing` | dag/graph_info.go:154-206 | a unit is sent if and only if it is a tip, unstable, or stable above the known index; the stable part holds exactly the last kind |
| `Tips.SaveTipIsChildless` | dag/memdb/parent_memdb.go:44-60 | removing the parents and adding the unit turns the childless units of the old store into those of the new one |
| `Tips.SaveKeepsTipInv` | dag/memdb/parent_memdb.go:44-60 | saving keeps the tip set exact and every unit an ancestor-or-self of a tip |
| `Tips.RestampKeepsTipInv` | core/types/unit.go:89-108 | a change of stability does not touch the tips |
| `Tips.RunKeepsTips` | dag/memdb/parent_memdb.go:44-60 | over every run the incremental tip set is exactly the childless units and covers every unit |
| `Tips.GenesisTips` | dag/memdb/parent_memdb.go:36-42 | the genesis unit alone is an exact tip set |
| `Tips.TipsMakeSyncable` | dag/memdb/parent_memdb.go:62-68 | any listing of an exact tip set, in any order, is what a complete and ordered sync needs |
| `Tips.ParentMemDB.constructor` | dag/memdb/parent_memdb.go:29-42 | memory and stored list start with the genesis unit |
| `Tips.ParentMemDB.SaveParent` | dag/memdb/parent_memdb.go:44-54 | memory and stored list take the same step of the tip set |
| `Tips.ParentMemDB.UpdateMainChain` | transaction/consensus.go:25-32 | storing a well-built unit keeps memory, list and exactness |
| `Tips.ParentMemDB.GetParentsAsHash` | dag/memdb/parent_memdb.go:62-68 | each tip once, in some order; an empty memory is refilled from the list |
| `GraphInfo.GraphInfoGetter.constructor` | dag/graph_info.go:21-25 | the best parent of the list, or the zero hash for none |
| `GraphInfo.GraphInfoGetter.GetBestParentUnit` | dag/graph_info.go:78-103 | the parent with the highest witnessed level, among those the lowest level, among those the smallest key; the zero hash for no parent |
| `GraphInfo.GraphInfoGetter.GetLevel` | dag/graph_info.go:27-39 | one above the highest parent, at least 1, and no higher than that |
| `GraphInfo.GraphInfoGetter.GetWitnessLevel` | dag/graph_info.go:41-76 | the queue-driven loop ends and returns the walk's result, hence the witnessed level by its meaning |
| `GraphInfo.GraphInfoGetter.BuildTransactionUnit` | transaction/transaction.go:90-112 | the unit built over the tips is well-built, keeps the store's invariant and is above all its parents |
| `GraphInfo.GraphInfoGetter.Seed` | dag/graph_info.go:166-174 | the tips are collected as unstable and queued |
| `GraphInfo.GraphInfoGetter.Expand` | dag/graph_info.go:176-194 | one round collects every admitted parent and keeps the rest |
| `GraphInfo.GraphInfoGetter.Visit` | dag/graph_info.go:179-193 | a parent is collected on its side if it is admitted, and queued when new |
| `GraphInfo.GraphInfoGetter.SelectMissing` | dag/graph_info.go:160-194 | the search ends, and its two maps hold exactly what is reached, stable and unstable |
| `GraphInfo.GraphInfoGetter.SortedValues` | dag/graph_info.go:196-204 | each collected unit once, by level |
| `GraphInfo.GraphInfoGetter.GetMissingUnits` | dag/graph_info.go:154-206 | nothing when the peer is ahead, otherwise the two sorted lists of the selection |
| `GraphInfo.PickDataFromDag` | node/node.go:319-339 | what is sent is a prefix of exactly the missing units, without duplicates, parents first |
| `GraphInfo.SendUntil` | node/node.go:333-339 | sending stops at the first failed transmission |
| `GraphInfo.SelectionIsMissing` | node/node.go:319-339 | the concatenated lists are exactly the missing units in an order that is safe to apply |
| `GraphInfo.SyncMissesNothing` | dag/graph_info.go:154-206 | after any run from genesis, a unit that is not sent is stable and known to the peer |
| `Ledger.SpendAccounts` | transaction/stableprocess.go:26-74 | spending removes exactly those outputs of a prefix of the inputs that are the author's, each once, and the total by their amounts; outputs of others stay |
| `Ledger.OutputCommissionsAreNew` | transaction/stableprocess.go:76-84 | the outputs of a message become new, distinct entries with the same sum |
| `Ledger.MessagesAccount` | transaction/stableprocess.go:19-95 | a valid unit pays in and out exactly what its messages declare, except that what it spends of others is not taken away |
| `Ledger.UnitAccount` | transaction/stableprocess.go:19-104 | one unit changes the total by its gain less the payload commission still owed |
| `Ledger.ValidUnitsAccount` | transaction/consensus.go:55-92 | all units valid: what is left and what is owed add up to the old total and the gains |
| `Ledger.BatchSaves` | transaction/consensus.go:80-98 | everything a batch stores is a new entry of its owner |
| `Ledger.BatchKeepsInv` | transaction/consensus.go:55-98 | each stored output stays under its owner and comes from a processed unit |
| `Ledger.ValidBatchTotal` | transaction/consensus.go:55-98 | a batch of valid units changes the total by exactly its gains, and is conserved if and only if they cancel |
| `Ledger.Conservation` | transaction/consensus.go:55-98 | reviewed units: the total is unchanged if all are valid and never grows otherwise, aborted batches included |
| `Ledger.TwoMessagesNeedNotBalance` | transaction/utils.go:10-68 | a unit that passes the shape, amount and author checks, all inputs its author's, and creates 5 out of nothing |
| `Ledger.ForeignInputNeedNotBalance` | transaction/stableprocess.go:66-67 | a unit that passes the same checks, whose amounts cancel, and the total grows by what it spends of another owner |
| `Ledger.GoneIffAuthored` | transaction/stableprocess.go:66-67 | an output that a unit has consumed is still stored if and only if it is not the author's |
| `Ledger.SpendableAgainIff` | transaction/stableprocess.go:26-74 | after a valid unit some output it has spent can be spent again if and only if some message spends another owner's output |
| `Ledger.ConsumedAreInputs` | transaction/stableprocess.go:26-74 | a valid unit consumes exactly the outputs of its inputs, in every message |
| `Ledger.SpentOnceByItsOwner` | transaction/stableprocess.go:26-74 | over a whole run of any units, once its owner has spent an output nobody spends it again; each consumed one was there or was created by the run |
| `Ledger.CanBeSpentTwice` | transaction/stableprocess.go:66-67 | a run of units that pass the checks in which one output is consumed twice |
| `Ledger.NeverSpentTwice` | transaction/stableprocess.go:26-74 | over a whole run of units whose inputs are all their authors', valid or not, no output is consumed twice |
| `Ledger.ReviewedNeverSpentTwice` | transaction/utils.go:58-68 | so for every run of reviewed units |
| `Ledger.SpentTwiceIff` | transaction/stableprocess.go:26-74 | after a valid unit, some run with all later spending by the owners consumes an output twice if and only if the unit has an input that is not its author's |
| `Ledger.RunOwned` | transaction/stableprocess.go:26-74 | over such a run everything consumed is deleted under its owner |
| `Ledger.TotalNeverGrows` | transaction/consensus.go:55-98 | over a whole run of units, of any number of messages, that never get ahead of what they take, the total never grows |
| `Ledger.MessagesStop` | transaction/stableprocess.go:19-95 | what a unit takes and pays out, valid or not, is settled by the message and input it stops at |
| `Ledger.BatchTotal` | transaction/consensus.go:55-98 | the exact total after every batch, invalid units and aborted batches included, and exactly when it grows |
| `Ledger.ThriftyNeverGrows` | transaction/consensus.go:55-98 | units that at no message have made more than they have taken never raise the total, whatever becomes of them |
| `Ledger.RefusedUnitGrows` | transaction/stableprocess.go:72-84 | a unit that passes the checks, all inputs its author's, is refused as a double spend and raises the total from 14 to 110 |
| `LedgerOwners.OwnerLaw` | transaction/consensus.go:55-98 | for every address: a batch of valid units changes what is stored under it by the outputs addressed to it, less what it spends of its own, plus the headers commissions of units that name it, plus all payload commissions if it is the author of the last unit |
| `LedgerOwners.UnitUnder` | transaction/stableprocess.go:19-104 | the same for one unit, without the payload commission |
| `LedgerOwners.EarningsArePaid` | transaction/transaction.go:198-211 | the payload commissions go to the author of the last unit, and to nobody else |
| `LedgerOwners.MarksTheInvalid` | transaction/consensus.go:66-73 | after a batch exactly its invalid units are stored as invalid, and no other stored unit changes |
| `LedgerOwners.AskedIff` | transaction/stableprocess.go:33-64 | an output of a stored unit can be asked for by an input if and only if it is one of the first message, or a commission |
| `LedgerOwners.OutputIsStored` | transaction/stableprocess.go:76-84 | output z of message i is stored as such under its address, and can be asked for if and only if i is 0 |
| `LedgerProcess.CreateTx` | transaction/transaction.go:114-179 | the shortest sufficient prefix of the offered outputs is spent, the payee and the change are paid; both errors, exactly when; the result passes the amount review if and only if the two amounts agree |
| `LedgerProcess.AmountsNeedNotMatch` | transaction/transaction.go:114-179 | concrete amounts for which the unit returned fails the amount review |
| `LedgerProcess.ValidUnitInputsAndOutputs` | transaction/utils.go:10-36 | accepts exactly the formed units; the index error of a message with fewer inputs than its number, exactly when |
| `LedgerProcess.ValidUTXOAmount` | transaction/utils.go:38-56 | true if and only if the inputs of the first message pay for its outputs and the commissions |
| `LedgerProcess.ValidAuthorAddress` | transaction/utils.go:58-68 | true if and only if every input of the first message belongs to the author |
| `LedgerProcess.StableProcess.SpendInputs` | transaction/stableprocess.go:26-74 | the loop deletes what the specification consumes, and stops with its status |
| `LedgerProcess.StableProcess.CollectOutputs` | transaction/stableprocess.go:76-84 | one commission for each output, in order |
| `LedgerProcess.StableProcess.HandleUnit` | transaction/stableprocess.go:19-104 | the store, the commissions and the status are those that the accounts and the law of the owners speak about |
| `LedgerProcess.StableProcess.CalcWitnessEarnings` | transaction/transaction.go:198-211 | one earning of the payload commission for each unit |
| `LedgerProcess.StableProcess.DistributeCommission` | transaction/consensus.go:85-98 | grouped by owner, every commission ends up stored |
| `LedgerProcess.StableProcess.HandleEach` | transaction/consensus.go:57-78 | invalid units are stored as invalid and skipped, a missing source aborts the batch |
| `LedgerProcess.StableProcess.HandleStableUnits` | transaction/consensus.go:55-98 | a batch leaves the store exactly as the conservation laws assume |
| `Feed.RemovalFinds` | event/feed.go:88-111 | a waiting removal finds its channel among the send cases, behind the first |
| `Feed.StepKeepsInv` | event/feed.go:57-174 | every step of every operation keeps the placement of subscriptions and the split of the slice |
| `Feed.RunKeepsInv` | event/feed.go:57-174 | so does every interleaving |
| `Feed.EveryInterleaving` | event/feed.go:57-174 | each live subscription is in exactly one of inbox and send cases; every finished Send delivered once to each subscription not removed before its turn and counted the deliveries; find never fails on removal |
| `Feed.ExactlyOnce` | event/feed.go:113-174 | a channel present once at the start of a Send and not removed gets the value exactly once, never twice |
| `Feed.DroppedOnlyByRemoval` | event/feed.go:154-165 | only the removal of a channel takes it out of a Send before its turn |
| `Feed.NextPhase` | event/feed.go:135-174 | where each step leaves the Send: the fast path begins at its first case after every select, stays at a case that took the value and moves on from one that did not |
| `Feed.DeliversTo` | event/feed.go:143-165 | a step delivers to the case the fast path is at, or to the one the select has chosen, and to no other |
| `Feed.ServeKeepsSplit` | event/feed.go:212-216 | swapping a served case behind the active prefix keeps the three-way split |
| `Feed.DropKeepsSplit` | event/feed.go:155-161 | removing an active case drops exactly that subscription |
| `Feed.ForgetKeepsSplit` | event/feed.go:155-161 | removing a served case changes nothing else |
| `Feed.DeleteIn` | event/feed.go:207-209 | deleting in place shifts the shared memory and shortens the slice |
| `Feed.DeactivateIn` | event/feed.go:212-216 | the swap through one slice, in the whole shared memory |
| `Feed.AppendTo` | event/feed.go:119-122 | the inbox is appended in place or in a new block |
| `Feed.SeenThrough` | event/feed.go:212-216 | a deactivation through a Send's slice is the same deactivation in the longer slice over the same memory |
| `Feed.Machine.constructor` | event/feed.go:45-51 | the first case is the removal channel |
| `Feed.Machine.FindIn` | event/feed.go:197-204 | the first position of the channel, or -1 |
| `Feed.Machine.SubscribeCh` | event/feed.go:57-77 | a subscription goes to the inbox |
| `Feed.Machine.UnsubscribeCh` | event/feed.go:88-99 | it leaves the inbox at once, or waits in the select |
| `Feed.Machine.RemoveLocked` | event/feed.go:101-108 | with no Send in progress the case is deleted under the lock |
| `Feed.Machine.Begin` | event/feed.go:113-138 | the inbox joins the send cases and every case is active |
| `Feed.Machine.DeactivateCase` | event/feed.go:212-216 | through the Send's slice, the swap leaves sendCases right and counts one delivery |
| `Feed.Machine.Try` | event/feed.go:143-149 | one turn of the fast path |
| `Feed.Machine.AfterFast` | event/feed.go:150-152 | done when only the first case is active, otherwise the select |
| `Feed.Machine.Selected` | event/feed.go:162-165 | the select sent to a case |
| `Feed.Machine.SelectedRemoval` | event/feed.go:155-161 | the select took a removal: the deletion through sendCases leaves the Send's slice right, cut if the case was in it |
| `Discovery.StepKeepsInv` | p2p/discv5/net.go:857-1067 | every step, nested transitions included, keeps each query in one place and each node's local rules |
| `Discovery.RunKeepsInv` | p2p/discv5/net.go:395-449 | so does every run of the main loop |
| `Discovery.EachQueryInOnePlace` | p2p/discv5/net.go:771-805 | in every reachable state a query is exactly one of deferred at its remote, pending at its remote, or answered, and is answered at most once |
| `Discovery.EveryNodeIsVerified` | p2p/discv5/net.go:857-1067 | a node in a verified state has had a pong accepted since it left unknown; unknown nodes hold no query; a query is pending exactly while its timer runs |
| `Discovery.VerificationIsNeverLost` | p2p/discv5/net.go:857-1067 | over every run a verified node never falls back to an unverified state |
| `Discovery.DeferredHasTimerIff` | p2p/discv5/net.go:785-805 | over every run that pings no unknown node from outside: a deferred query has the timer of its wait if and only if its node can be queried and has another query pending, or cannot be queried yet and is not ourselves, or waits for the other side's ping |
| `Discovery.WaitTimerEndsTheWait` | p2p/discv5/net.go:886-941 | while a node cannot be queried, the timer of its wait answers its deferred queries, or makes it known with the first of them pending |
| `Discovery.TimeoutsDoNotHelp` | p2p/discv5/net.go:1133-1152 | no timeout of any node starts or answers a query that is deferred at a node that can be queried and has none pending |
| `Discovery.StalledStays` | p2p/discv5/net.go:1133-1152 | such a query outlasts every sequence of timeouts |
| `Discovery.TimeoutLeavesQueryStalled` | p2p/discv5/net.go:1143-1152 | a run without outside pings after which a query is deferred at a known node and no timer runs at all |
| `Discovery.NeighboursTimeoutStalls` | p2p/discv5/net.go:1143-1152 | after the timeout of its pending query, every query deferred at a node is stalled |
| `Discovery.QueryToOurselvesWaits` | p2p/discv5/net.go:1090-1095 | a run without outside pings after which a query waits at a node that claims our own ID and no timer runs at all |
| `Discovery.DeferredQueryCanStall` | p2p/discv5/net.go:1090-1100 | a run with such a ping after which a query is deferred and no timer runs at all |
| `DiscoveryEcho.TokensWereSent` | p2p/discv5/net.go:1045-1050 | over every run an accepted token that is not empty is the hash of a ping sent to that node before |
| `DiscoveryEcho.EchoedIff` | p2p/discv5/net.go:1045-1050 | over every run without empty hashes: a verified node has echoed a ping that was sent to it if and only if it has an accepted token that is not empty |
| `DiscoveryEcho.VerifiedHasEchoed` | p2p/discv5/net.go:857-1067 | over every run in which all pings are sent, every verified node has echoed one, unless it claims our own ID |
| `DiscoveryEcho.EmptyTokenVerifies` | p2p/discv5/net.go:1046 | a run that makes a node known to which no ping was ever sent |
| `Discovery.StateHandleKeepsInv` | p2p/discv5/net.go:857-1011 | every state's handler keeps the invariant |
| `Discovery.TransitionKeepsInv` | p2p/discv5/net.go:1061-1070 | so does a transition with its enter function |
| `Discovery.HandleNeighboursKeepsInv` | p2p/discv5/net.go:1228-1256 | answering a query and interning the found nodes keeps it |
| `Discovery.SubmitKeepsInv` | p2p/discv5/net.go:785-805 | a new query is answered at once, sent, or deferred, never two of these |
| `DiscoveryLaws.EveryChangeHasItsCause` | p2p/discv5/net.go:857-1070 | no node changes its state without the event that the change needs: unknown and unresponsive only by a pong timeout, contested only as the last node of a bucket or by the sixth failed query, and so on for every state; no node is forgotten |
| `DiscoveryLaws.AcceptedPong` | p2p/discv5/net.go:896-1008 | an accepted pong leads from verifyinit to remoteverifywait, and from verifywait, contested and unresponsive to known, or contested if it is the last node of the bucket; its timer stops |
| `DiscoveryLaws.RefusedPong` | p2p/discv5/net.go:1045-1050 | a pong that does not pass changes nothing, except that an unseen node is interned |
| `DiscoveryLaws.PingReceived` | p2p/discv5/net.go:874-1008 | a ping makes an unknown or verifyinit node verifywait, and an unresponsive one known |
| `DiscoveryLaws.PongTimedOut` | p2p/discv5/net.go:899-988 | without a pong a node under verification is unknown again, a contested one unresponsive |
| `DiscoveryLaws.PingTimedOut` | p2p/discv5/net.go:930-941 | a node that had time to verify us is known |
| `DiscoveryLaws.QueryTimedOut` | p2p/discv5/net.go:1143-1152 | a failed query is counted; the sixth in a row makes a known node contested |
| `DiscoveryLaws.WrongTopic` | p2p/discv5/net.go:1184-1192 | so is a reply for another topic |
| `DiscoveryLaws.KnownStartsAfresh` | p2p/discv5/net.go:945-957 | a node that becomes known has no failed queries |
| `DiscoveryLaws.LastIsContested` | p2p/discv5/net.go:945-957 | a known node that is the last of a full bucket is contested by every node that becomes known |
| `DiscoveryLaws.ListedIsVerified` | p2p/discv5/net.go:1228-1256 | every accepted node of an answer is interned and no longer unknown |
| `DiscoveryLaws.AskedIsVerified` | p2p/discv5/net.go:785-805 | a query or a seed starts the verification of an unknown node |
| `DiscoveryLaws.NewQuery` | p2p/discv5/net.go:771-805 | a query is answered at once, sent with its timer, or put behind those that wait |
| `DiscoveryLaws.AnswerReceived` | p2p/discv5/net.go:1228-1256 | an answer replies to the pending query and sends the one that has waited longest |
| `DiscoveryLoop.Network.AbortQueries` | p2p/discv5/net.go:860-873 | entering unknown answers every held query with nothing |
| `DiscoveryLoop.Network.InternFound` | p2p/discv5/net.go:1234-1249 | every found node is interned and verified if unknown |
| `DiscoveryLoop.Network.Turn` | p2p/discv5/net.go:395-449 | one turn of the loop is one step of the machine, so the run theorems hold of it |
| `Dialer.LaunchKeepsBuilt` | p2p/dial.go:152-160 | a checked dial is new, recorded once, and keeps the needed count exact |
| `Dialer.AddStaticsKeepsBuilt` | p2p/dial.go:178-189 | so do the static nodes, in any order |
| `Dialer.AddRandomKeepsBuilt` | p2p/dial.go:202-212 | at most half the needed dials are random, so the limit holds |
| `Dialer.AddLookupsKeepsBuilt` | p2p/dial.go:213-221 | lookup results are dialled only while dials are needed |
| `Dialer.NewTasksBuilds` | p2p/dial.go:146-237 | new tasks: only nodes not dialling, connected or recent, each once; dynamic ones only as needed; at most one lookup |
| `Dialer.NewTasksMissesNothing` | p2p/dial.go:146-237 | no static node is left that could be dialled; if dynamic dials are still needed a lookup is running; if nothing runs the history is empty |
| `DialerLaws.EveryDialHasItsReason` | p2p/dial.go:146-236 | every static node and every candidate that was due is dialled or there is a reason against it; every new dial is of such a node, with the flags of its kind, and nothing spoke against it; exactly the hopeless static nodes are dropped |
| `DialerLaws.RandomAndBootnode` | p2p/dial.go:190-212 | half of the dials still needed are tried at random; the first bootnode is tried and goes last exactly when there is no peer, a dial is needed and 20 seconds have passed |
| `DialerLaws.LookupOrWait` | p2p/dial.go:222-235 | a lookup starts if and only if dials are still needed and none is running; an idle dialer waits until the first of its past dials expires |
| `DialerLaws.StaticIsDialled` | p2p/dial.go:178-189 | a static node against which only the history can speak is dialled if and only if it has no unexpired past dial |
| `DialerLaws.FineIff` | p2p/dial.go:247-262 | the check passes exactly without a dial, a peer, our own ID, a ban and a past dial |
| `ServerLoop.StartTasksKeeps` | p2p/server.go:548-557 | no task is lost, at most 16 run, and tasks wait only at the limit |
| `ServerLoop.StepKeepsInv` | p2p/server.go:569-652 | every event of the loop keeps the invariant |
| `ServerLoop.RunKeepsInv` | p2p/server.go:569-652 | so does every run |
| `ServerLoop.EveryRun` | p2p/server.go:521-652 | over every run: at most 16 running tasks; the dialing map's keys are exactly the nodes of running or queued dials; dynamic peers with dynamic dials within the limit; the inbound count exact |
| `ServerLoop.RedialOnlyAfterExpiry` | p2p/dial.go:374-404 | a node is redialled only strictly after its history expiry, unless removeStatic intervened |
| `ServerLoop.StaticIsRedialled` | p2p/dial.go:178-189 | over every run a static node with nothing else against it is dialled if and only if 30 seconds have passed since its last dial |
| `ServerLoop.WaitsOnlyWhenIdle` | p2p/server.go:558-567 | a waiting timer is started only when no task is running or queued |
| `ServerLoop.FinishedTask` | p2p/dial.go:264-273 | a finished dial is in the history for 30 seconds; the results of a lookup come behind those buffered |
| `ServerLoop.StaticNodes` | p2p/dial.go:132-146 | what becomes static and what does not any more, with its past dial |
| `ServerLoop.AdmissionHoldsTheLimits` | p2p/server.go:687-700 | over every run: peers neither trusted nor static within the peer limit, untrusted inbound peers within the inbound limit, never ourselves |
| `ServerLoop.AdmittedIff` | p2p/server.go:687-700 | over every run: a connection is admitted if and only if its node is new and not ourselves, it is trusted or static or the peers are below their limit, and it is trusted or not inbound or the inbound peers are below theirs |
| `DialLoop.CountDyn` | p2p/dial.go:162-173 | the number of dynamically dialled entries |
| `DialLoop.Top` | p2p/dial.go:375-377 | an entry with the earliest expiry |
| `DialLoop.ExpireHist` | p2p/dial.go:399-404 | popping the top while it has expired leaves exactly the unexpired entries |
| `DialLoop.ForgetDial` | p2p/dial.go:382-390 | the first entry of the node goes |
| `DialLoop.DialScheduler.AddDial` | p2p/dial.go:152-160 | a candidate that passes the check is recorded and launched |
| `DialLoop.DialScheduler.DialStatics` | p2p/dial.go:178-189 | every static node is tried once, in some order |
| `DialLoop.DialScheduler.DialBootnode` | p2p/dial.go:190-201 | the first bootnode rotates to the end and is tried when there is no peer |
| `DialLoop.DialScheduler.DialRandom` | p2p/dial.go:202-212 | the random nodes up to the limit |
| `DialLoop.DialScheduler.DialLookups` | p2p/dial.go:213-221 | tried lookup results leave the buffer, the others stay |
| `DialLoop.DialScheduler.Begin` | p2p/dial.go:146-176 | start time, needed dials and expired history |
| `DialLoop.DialScheduler.DiscoverAndWait` | p2p/dial.go:222-235 | a lookup if candidates are short, a timer if nothing else runs |
| `DialLoop.DialScheduler.NewTasksAt` | p2p/dial.go:146-237 | tasks and dialer are those NewTasksBuilds speaks about, for the order the statics came in |
| `DialLoop.StartTasks` | p2p/server.go:548-557 | the loop starts tasks up to the limit and returns the rest |
| `DialLoop.RemoveTask` | p2p/server.go:539-546 | the first occurrence of the task goes |
| `DialLoop.RunLoop.constructor` | p2p/server.go:521-530 | the loop starts with no peer and no task |
| `DialLoop.RunLoop.ScheduleTasks` | p2p/server.go:558-566 | queued tasks first, then new ones if there is room |
| `DialLoop.RunLoop.TaskIsDone` | p2p/server.go:595-601 | one step of the loop |
| `DialLoop.RunLoop.AddStaticNode` | p2p/dial.go:132-136 | one step of the loop |
| `DialLoop.RunLoop.RemoveStaticNode` | p2p/dial.go:138-144 | the static entry and the history entry go |
| `DialLoop.RunLoop.AddPeer` | p2p/server.go:615-634 | a connection becomes a peer if and only if its node is new and not ourselves and there is room among the peers and the inbound peers, or it is exempt; the inbound count stays exact |
| `DialLoop.RunLoop.DelPeer` | p2p/server.go:643-650 | the peer and its share of the inbound count go |
| `PeerMux.AssignAllLays` | p2p/peer.go:300-322 | the offset loop with reverts lays out exactly the highest shared versions, in name order |
| `PeerMux.EndsAgree` | p2p/peer.go:300-322 | two ends that match each other's advertised protocols compute identical offset maps |
| `PeerMux.NegotiationIsSound` | p2p/peer.go:300-322 | the ranges are disjoint and contiguous from 16, and hold the highest shared version of every shared name |
| `PeerMux.MessageArrives` | p2p/peer.go:352-398 | a code written by one end reaches the same protocol with the same code at the other |
| `PeerMux.GetProto` | p2p/peer.go:352-359 | a running protocol whose range holds the code, or none has it |
| `PeerMux.Handle` | p2p/peer.go:257-285 | base protocol codes, the protocol that owns the code, or out of range |
| `PeerMux.SortCaps` | p2p/peer.go:300-301 | the capabilities in ascending order of name and version |
| `PeerMux.MatchProtocols` | p2p/peer.go:300-322 | exactly the shared names, each at its highest shared version, on ranges that tile the code space, for any order of the input |
| `PeerMux.MatchSorted` | p2p/peer.go:302-321 | the loop with the running offset computes the map the two-ended theorems speak about |
| `BitsetCodec.BitsetBit` | common/bitutil/compress.go:67-76 | a bit of the bitset is set exactly where the byte is not zero |
| `BitsetCodec.BitsDetermine` | common/bitutil/compress.go:67-76 | a bitset is determined by its bits |
| `BitsetCodec.DistributeRebuilds` | common/bitutil/compress.go:136-153 | distributing the non-zero bytes by the marks rebuilds the sequence |
| `BitsetCodec.DistributeIsFaithful` | common/bitutil/compress.go:136-153 | a successful distribution sets exactly the marked slots, with the bytes it consumed |
| `BitsetCodec.EncodeThenDecode` | common/bitutil/compress.go:55-154 | whatever follows it, the encoding of a sequence that is not all zero decodes to that sequence and consumes exactly itself |
| `BitsetCodec.DecodeIsInverse` | common/bitutil/compress.go:55-154 | the encoding of every sequence, all zeros included, decodes to it when nothing follows |
| `BitsetCodec.BitOrder` | common/bitutil/compress.go:71-76 | bit k of a byte counts from the most significant one |
| `BitsetCodec.ShortEncoding` | common/bitutil/compress.go:55-81 | up to eight bytes are encoded as one byte that marks the non-zero ones from its most significant bit on, and then these |
| `BitsetCodec.DecodeThenEncode` | common/bitutil/compress.go:114-154 | whenever partial decoding succeeds, encoding the result gives back exactly the consumed bytes |
| `BitsetCodec.RoundTrip` | common/bitutil/compress.go:44-108 | decompression undoes compression for every byte sequence |
| `BitsetCodec.AcceptedNeedNotBeCanonical` | common/bitutil/compress.go:86-96 | a single zero byte is accepted and is not what compression produces |
| `BitsetCodec.AcceptedIsCanonical` | common/bitutil/compress.go:86-108 | exactly which accepted inputs are the output of compression |
| `BitsetCodec.CompressIsInjective` | common/bitutil/compress.go:44-51 | sequences of one length compress to different bytes |
| `BitsetCodec.BitsetEncodeBytes` | common/bitutil/compress.go:55-81 | the recursion ends and computes the encoding |
| `BitsetCodec.Collect` | common/bitutil/compress.go:67-76 | one pass gives the bitset and the non-zero bytes |
| `BitsetCodec.CompressBytes` | common/bitutil/compress.go:44-51 | never longer than the input, and decompressible to it |
| `BitsetCodec.BitsetDecodePartialBytes` | common/bitutil/compress.go:114-154 | the recursion ends and gives the result or the first error |
| `BitsetCodec.DecompressBytes` | common/bitutil/compress.go:86-108 | the target length on success, and below it only canonical input |
| `Sponge.PadIsPad101` | crypto/sha3/sha3.go:98-122 | bit by bit, the padded message is the message, the domain suffix and pad10*1 of section 5.1 of FIPS 202 |
| `Sponge.Pad101Fills` | crypto/sha3/sha3.go:98-122 | the padding fills whole blocks |
| `Sponge.DomainBytes` | crypto/sha3/hashes.go:16-39 | the domain bytes of Keccak and SHA-3 (and SHAKE) carry their suffixes and the first padding bit |
| `Sponge.AbsorbSnoc` | crypto/sha3/sha3.go:125-157 | absorbing whole blocks and then one more |
| `Sponge.SqueezeMore` | crypto/sha3/sha3.go:160-181 | the one-shot output goes on inside the current block |
| `Sponge.ShortMessage` | crypto/sha3/sha3.go:125-181 | a message shorter than a block is hashed by one permutation of its padded block, and longer output goes on with the next permutation |
| `Sha3.Hash.constructor` | crypto/sha3/sha3.go:57-64 | an empty sponge |
| `Sha3.Hash.XorIn` | crypto/sha3/xor_generic.go:12-20 | whole lanes: the block, filled with zeros, is xored into the state |
| `Sha3.Hash.CopyOut` | crypto/sha3/xor_generic.go:23-28 | the first bytes of the state go to the buffer |
| `Sha3.Hash.PermuteAbsorbing` | crypto/sha3/sha3.go:79-87 | a full buffer is absorbed as a block of section 4 of FIPS 202 |
| `Sha3.Hash.PermuteSqueezing` | crypto/sha3/sha3.go:88-94 | the next block of output fills the buffer |
| `Sha3.Hash.PadBuffer` | crypto/sha3/sha3.go:98-116 | the buffer with the padding of its rest |
| `Sha3.Hash.PadAndPermute` | crypto/sha3/sha3.go:98-122 | the state is that of the whole padded message |
| `Sha3.Hash.Write` | crypto/sha3/sha3.go:125-157 | fast and slow path alike: the message grows by exactly the input |
| `Sha3.Hash.Read` | crypto/sha3/sha3.go:160-181 | with what was read before, the output is the one-shot output |
| `Sha3.Hash.Clone` | crypto/sha3/sha3.go:66-75 | an independent object over the same message |
| `Sha3.Hash.Sum` | crypto/sha3/sha3.go:185-192 | the hash of what is written so far; the object is unchanged |
| `Sha3.HashInChunks` | crypto/sha3/sha3.go:66-192 | any chunking of writes, a Sum after each, and any chunking of reads: the reads concatenate to the one-shot sponge of the concatenated message, each Sum is the hash of its prefix |
| `BlockQueue.StoreRepresents` | common/queue/queue.go:41-43 | storing at the tail appends to the sequence |
| `BlockQueue.InsertRepresents` | common/queue/queue.go:49-57 | inserting a block in mid-list keeps the sequence |
| `BlockQueue.ClearRepresents` | common/queue/queue.go:63-65 | clearing the head drops the first element |
| `BlockQueue.NextHeadRepresents` | common/queue/queue.go:66-70 | the head moves to the next block, around the end |
| `BlockQueue.FifoConserves` | common/queue/queue.go:41-72 | everything pushed comes out once, in order, or is still there |
| `BlockQueue.Queue.constructor` | common/queue/queue.go:32-38 | an empty queue |
| `BlockQueue.Queue.Push` | common/queue/queue.go:41-60 | the sequence grows by the element, across all wraps and insertions |
| `BlockQueue.Queue.Pop` | common/queue/queue.go:63-73 | the first element of the sequence is returned and removed |
| `BlockQueue.Queue.Front` | common/queue/queue.go:75-77 | the first element |
| `BlockQueue.Queue.Empty` | common/queue/queue.go:80-82 | true if and only if the sequence is empty |
| `BlockQueue.Queue.Size` | common/queue/queue.go:85-93 | the length of the sequence |
| `BlockQueue.Serve` | common/queue/queue.go:32-93 | for every run of pushes and pops the queue answers as a plain sequence |
| `Rlpx.Int24RoundTrip` | p2p/rlpx.go:718-726 | a number is read back if and only if it fits 24 bits |
| `Rlpx.MaskedTwice` | p2p/rlpx.go:606-606 | the key stream at the same position undoes itself |
| `Rlpx.FrameIsReceived` | p2p/rlpx.go:637-677 | a frame of the size its header says is opened to its content, both MACs accepted, and both ends move on alike |
| `Rlpx.MessageIsReceived` | p2p/rlpx.go:584-704 | a message that fits is read back exactly, with and without compression, and the ends are mirrored again |
| `Rlpx.SentIff` | p2p/rlpx.go:584-603 | a message is sent if and only if it fits, or its 32-bit frame size wraps |
| `Rlpx.ExactlyWhenItFits` | p2p/rlpx.go:584-704 | every honest message is sent and read back exactly if and only if it fits |
| `Rlpx.WrappedSizeIsAccepted` | p2p/rlpx.go:600-603 | four gigabytes less one byte are accepted for sending and cannot be read |
| `Rlpx.ReceivedIsSmall` | p2p/rlpx.go:637-680 | no frame yields a payload beyond the limit |
| `Rlpx.Lockstep` | p2p/rlpx.go:584-726 | for every sequence of honest messages that do not wrap, the reader gets exactly those that fit, in order, and the ends are mirrored again |
| `Rlpx.SomeSuiteIsLawful` | p2p/rlpx.go:585-593 | the laws can be met, by RLP integers and a compressor that leaves its input alone |
| `Rlpx.RlpRoundTrip` | p2p/rlpx.go:585-585 | every 64-bit message code is read back from its RLP integer, whatever follows |
| `Rlpx.SomeMessageIsReceived` | p2p/rlpx.go:584-704 | a message in two pieces that goes through a lawful suite |
| `RlpxConn.UpdateMac` | p2p/rlpx.go:708-716 | the reseeded MAC and its tag |
| `RlpxLaws.SeededIs` | p2p/rlpx.go:708-716 | byte by byte, what a reseeded MAC has hashed: all it had, and the encrypted sum of that under the seed |
| `RlpxLaws.SeededDetermines` | p2p/rlpx.go:708-716 | a reseeded MAC determines what it had hashed and every byte of the seed |
| `RlpxLaws.HeaderBytes` | p2p/rlpx.go:599-605 | the size, big end first, the constant header and zeros |
| `RlpxLaws.FrameBytes` | p2p/rlpx.go:584-635 | byte by byte, the frame on the wire: header, tag, padded content, tag |
| `RlpxLaws.HeaderRefusedIff` | p2p/rlpx.go:643-647 | a header is refused if and only if its tag is not that of the MAC seeded with it |
| `RlpxLaws.FrameRefusedIff` | p2p/rlpx.go:663-673 | a frame is refused for its MAC if and only if its tag is not that of the MAC after its padded content |
| `RlpxLaws.ChangedHeaderNeedsCollision` | p2p/rlpx.go:643-647 | a changed header passes with the same tag only if two inputs of the MAC have the same tag |
| `RlpxConn.XorKeyStream` | p2p/rlpx.go:606-606 | the bytes under the key stream at this position |
| `RlpxConn.FrameRW.constructor` | p2p/rlpx.go:562-582 | both key streams start at 0, the MACs as given |
| `RlpxConn.FrameRW.Tee` | p2p/rlpx.go:614-622 | the cipher text goes to the wire and into the MAC |
| `RlpxConn.FrameRW.WriteHeader` | p2p/rlpx.go:598-612 | the encrypted header and its tag |
| `RlpxConn.FrameRW.WriteBody` | p2p/rlpx.go:614-627 | message code, payload piece by piece and padding, under one running key stream |
| `RlpxConn.FrameRW.WriteMsg` | p2p/rlpx.go:584-635 | the wire is the frame of the specification; a refused message changes nothing |
| `RlpxConn.FrameRW.ReadMsg` | p2p/rlpx.go:637-704 | the message, the fault, the reader's state and the unread bytes are those of the specification |
| `RlpxConn.FrameRW.ReadFrame` | p2p/rlpx.go:652-704 | the frame after its header, with every fault |
| `Merkle.SealedRoot` | common/merkletree.go:128-153 | the hash at the top is the root of the hashes at the bottom |
| `Merkle.PaddedIs` | common/merkletree.go:109-117 | the contents, with the last one doubled if they are odd |
| `Merkle.RootOfPair` | common/merkletree.go:128-153 | the root of two hashes is the hash of the left one followed by the right one |
| `Merkle.RootOfHalves` | common/merkletree.go:128-153 | from above: the root of two halves of 2^k hashes is the hash of their roots, left before right |
| `Merkle.RootOfThree` | common/merkletree.go:128-153 | the last hash of an odd level is paired with itself |
| `Merkle.BuildLevel` | common/merkletree.go:128-151 | one level: the last node of an odd level pairs with itself, and every node gets its parent |
| `Merkle.BuildIntermediate` | common/merkletree.go:128-153 | the recursion ends without a one-node level below the root; parents lead up level by level and end at the root |
| `Merkle.BuildLeafs` | common/merkletree.go:96-119 | a leaf for each content, the last one doubled when odd, or the first failing hash |
| `Merkle.BuildWithContent` | common/merkletree.go:92-124 | fails exactly on no contents or a failing hash; otherwise the root of the contents |
| `Merkle.NewTree` | common/merkletree.go:76-87 | a valid tree with the root of the contents |
| `Merkle.UpToTheRoot` | common/merkletree.go:39-59 | recomputing level by level ends in the root |
| `Merkle.VerifyNode` | common/merkletree.go:39-59 | the hash recomputed from the contents below the node |
| `Merkle.OwnRoot` | common/merkletree.go:76-87 | the root hash of a tree is the root of its own contents |
| `Merkle.PathUp` | common/merkletree.go:218-246 | the parent climb has one node a level, each with the right hash, and ends at the root |
| `Merkle.Climb` | common/merkletree.go:218-247 | the loop over parents ends and accepts |
| `Merkle.FindLeaf` | common/merkletree.go:209-217 | the first leaf whose comparison decides |
| `Merkle.DecideIff` | common/merkletree.go:208-250 | with no failing comparison the answer is whether some content is equal |
| `Merkle.MerkleTree.VerifyTree` | common/merkletree.go:193-203 | accepts if and only if the stored root is the one the contents give |
| `Merkle.MerkleTree.VerifyContent` | common/merkletree.go:208-250 | error, true or false exactly as the first deciding leaf says |
| `Merkle.MerkleTree.RebuildTreeWith` | common/merkletree.go:180-189 | the root of the new contents, or an unchanged tree |
| `Merkle.MerkleTree.RebuildTree` | common/merkletree.go:162-175 | the root hash and the contents stay the same |
| `Merkle.BuildAndVerify` | common/merkletree.go:39-250 | for every list: built exactly when it can be, accepted, a content found exactly when an equal one is in the list, same root after rebuilding |
| `Distance.NumDecides` | p2p/discover/node.go:334-345 | the first differing byte decides the order of two numbers |
| `Distance.BitLenOfNum` | p2p/discover/node.go:384-396 | leading zero bytes do not count, and the first other byte gives the top bits |
| `Distance.BitLenIsLog` | p2p/discover/node.go:384-396 | a number of k bits lies between two powers of two |
| `Distance.DistInjective` | p2p/discover/node.go:334-345 | different hashes have different distances to a target |
| `Distance.DistCmp` | p2p/discover/node.go:334-345 | the sign of the comparison of the two XOR distances; zero only for equal hashes |
| `Distance.LzCountIsBitLen` | p2p/discover/node.go:348-381 | the table of leading zeros complements the bit length |
| `Distance.LogDist` | p2p/discover/node.go:384-396 | the bit length of the XOR distance that the comparison orders by |
| `Distance.HashAtDistance` | p2p/discover/node.go:399-416 | for every 0 ≤ n ≤ 256 and any random bytes, the result is at log distance exactly n |
| `Table.LogDistBound` | p2p/discover/table.go:521-527 | a log distance is at most 256, so every hash has a bucket |
| `Table.BumpOrAddKeepsInv` | p2p/discover/table.go:659-673 | bumping or adding keeps a bucket's invariant |
| `Table.AddToKeepsInv` | p2p/discover/table.go:534-543 | so does adding with the replacement list |
| `Table.DeleteKeepsInv` | p2p/discover/table.go:675-678 | so does deleting |
| `Table.ReplaceKeepsInv` | p2p/discover/table.go:626-641 | so does replacing a dead node by any replacement |
| `Table.AnswerKeepsBucket` | p2p/discover/table.go:430-458 | a late answer bumps or replaces the node only where it still is |
| `Table.StepKeepsInv` | p2p/discover/table.go:430-678 | every operation keeps the table's invariant, a revalidation in flight included |
| `Table.EveryTableIsSound` | p2p/discover/table.go:430-678 | over every run: at most 16 entries and 10 replacements a bucket, each node in the bucket of its hash, each ID at most once in the whole table |
| `TableLaws.DeadIsReplaced` | p2p/discover/table.go:430-458 | a dead node that is still the last entry is gone, a former replacement has its place and is no replacement any more; in any other case nothing changes |
| `TableLaws.AliveIsBumped` | p2p/discover/table.go:440-446 | a node that answered goes to the front if it is still an entry |
| `TableLaws.LastIsPicked` | p2p/discover/table.go:461-473 | the node to revalidate is the last entry of its bucket |
| `TableLaws.AddedNode` | p2p/discover/table.go:534-543 | place by place, the bucket after a node was added: in front of the entries, in front of the replacements, or nowhere, exactly when |
| `TableLaws.StuffedNode` | p2p/discover/table.go:560-573 | never ourselves, never a full bucket, and otherwise adding without the replacements |
| `TableLaws.DeletedNode` | p2p/discover/table.go:576-581 | the entry goes and the others keep their places |
| `TableLaws.BucketByDistance` | p2p/discover/table.go:521-527 | bucket 0 is for distances below 2^240, bucket i for those from 2^(239+i) to 2^(240+i) |
| `TableOps.SortingIsRight` | p2p/discover/table.go:709-725 | inserting one by one sorts, and loses nothing |
| `TableOps.TakeInserted` | p2p/discover/table.go:709-725 | only the first k matter for the first k after an insertion |
| `TableOps.SortAndTakeIsNearest` | p2p/discover/table.go:500-511 | sort-and-take gives k nodes, in order, and none that is left is nearer |
| `TableOps.Search` | p2p/discover/table.go:710-712 | binary search for the first entry that is farther away |
| `TableOps.NodesByDistance.Push` | p2p/discover/table.go:709-725 | the nearest of the entries and the node, in order |
| `TableOps.Closest` | p2p/discover/table.go:500-511 | exactly sort-and-take over all entries, hence the k nearest |
| `TableOps.DeleteNode` | p2p/discover/table.go:692-699 | the first node of this ID goes |
| `TableOps.Bump` | p2p/discover/table.go:645-655 | the node goes in front and the others keep their order; whether it was there |
| `TableOps.PushNode` | p2p/discover/table.go:681-689 | the node in front, the last one dropped and returned if the list was full |
| `TableOps.AddedComesFirst` | p2p/discover/table.go:659-673 | exactly when the node is among the entries afterwards; it is first, and no other entry is lost or moves |
| `TableOps.NodeTable.BucketIndex` | p2p/discover/table.go:521-527 | the bucket of the hash |
| `TableOps.NodeTable.Add` | p2p/discover/table.go:534-543 | one step of the table |
| `TableOps.NodeTable.Stuff` | p2p/discover/table.go:560-573 | one node of the list: never ourselves, never into a full bucket |
| `TableOps.NodeTable.Delete` | p2p/discover/table.go:576-581 | one step of the table |
| `TableOps.NodeTable.Answer` | p2p/discover/table.go:430-458 | one step of the table |
| `Curve.DoublingExact` | crypto/secp256k1/curve.go:189-219 | the formula's coordinates as polynomials |
| `Curve.DoublingKeepsCurveExact` | crypto/secp256k1/curve.go:189-219 | before reduction the doubled point is on the curve |
| `Curve.DoublingKeepsCurve` | crypto/secp256k1/curve.go:189-219 | for every modulus and constant, the reduced coordinates satisfy the Jacobian equation |
| `Curve.AffineIsOnCurve` | crypto/secp256k1/curve.go:98-108 | with an inverse of z, the affine point of a Jacobian point passes IsOnCurve |
| `Curve.DoubleIsOnCurve` | crypto/secp256k1/curve.go:182-187 | for every point of the curve: the double is defined if and only if 2 y is invertible, and then passes IsOnCurve |
| `Curve.DoubleDefinedIff` | crypto/secp256k1/curve.go:182-187 | modulo an odd prime, exactly for y different from 0 |
| `Curve.TangentLaw` | crypto/secp256k1/curve.go:182-219 | the double is the reflected third point on the tangent |
| `Curve.DoubleIff` | crypto/secp256k1/curve.go:182-219 | and no other point with reduced coordinates satisfies the tangent law |
| `Curve.AdditionKeepsCurve` | crypto/secp256k1/curve.go:118-179 | the same for the addition formula with its lifted differences |
| `Curve.AddIsOnCurve` | crypto/secp256k1/curve.go:111-116 | for any two points of the curve: the sum is defined if and only if twice the difference of the x coordinates is invertible, and then passes IsOnCurve |
| `Curve.SumHasZ` | crypto/secp256k1/curve.go:118-179 | the z coordinate of a sum is congruent to 2 z1 z2 (x2 z1^2 - x1 z2^2) |
| `Curve.AddDefinedIff` | crypto/secp256k1/curve.go:98-116 | modulo an odd prime, exactly for different x coordinates |
| `Curve.ChordLaw` | crypto/secp256k1/curve.go:111-179 | the sum is the reflected third point on the chord |
| `Curve.AddIff` | crypto/secp256k1/curve.go:111-179 | and no other point with reduced coordinates satisfies the chord law |
| `Curve.AddOfEqualsFails` | crypto/secp256k1/curve.go:98-116 | for every modulus, equal and opposite points have no sum |
| `Curve.PrimeInverts` | crypto/secp256k1/curve.go:99 | modulo a prime exactly the multiples of the prime have no inverse |

## Left out

- Integer widths: amounts, levels, indices, message offsets and times are unbounded; only the 32- and 24-bit frame sizes are modelled with their wrap, and message codes with their 64 bits.
- LevelDB, JSON, RLP encoding of units, RPC, HTTP, sockets, NAT, logging, metrics and wallets: I/O or thin wrappers.
- Values of the configuration package (genesis hash, majority, witness list): parameters of the model.
- dag/main_chain.go and the advance of the stable point: the deciding function is not part of the repository; batches of stable units are inputs, and stability stamps are events.
- dag/witness_replace.go and GetMissingStableUnitsHashOnMainChain: their loops have no exit, so there is no result to state.
- GetLastStableBall and the parent list filter by witnesses: lookups that would only add easy members.
- ChoiceInputs (transaction/transaction.go:64-77) appends nothing and always returns an empty list, so CreateTx as it stands fails for every total above minus the commissions; in the model the offered outputs are a parameter.
- Pending pool and backtracking (transaction/backtrack.go, transaction/pendingprocess.go): early exits that fix little.
- The stable store is a set of (owner, output) pairs: transaction/stableprocess.go:66 and leveldb/dbservice.go:366 disagree on the arity of the lookup, and transaction/transaction.go:204-205 names a field Amount that core/types/utxo.go:9-15 does not have; the owner is the output's address, the amount the output's amount.
- dag/memdb/parent_memdb.go:44-68 stores tips through database calls that are not defined in the repository; they are taken as insert into and delete from the stored list. SaveNewTip and GetDagAllTips (node/node.go:323 and 502, transaction/consensus.go:32) are defined nowhere; they are modelled as SaveParent and GetParentsAsHash.
- Feed: the inbox is a sequence of its own; clearing the sent value and the type check of channels are not modelled.
- Discovery: the table is modelled by the node it contests; topics, tickets and the packets that only answer are left out.
- discv5 table: its replacement list may hold duplicates, so no such claim is made of it.
- ServerLoop: peers without a shared protocol are refused before admission and do not appear as events; the order of the heap of past dials is not modelled, only its content and its top.
- Sha3: a 64-bit lane is the eight bytes it is read from and written to; the permutation is a parameter; cloning a squeezing sponge is not modelled, since its slice start uses the capacity of the buffer.
- Rlpx: write errors of the connection, deadlines, the handshake and the strength of the MAC are left out.
- Merkle: the hash of a content is a function of the content, so it cannot fail in a tree that was built; stored hashes are fixed when a node is made, so a node changed afterwards is not modelled, only a changed stored root is.
- Table: whether an address is accepted is an input, because the address counts are not kept exact by the source; seed nodes carry a hash that is a function of their ID.
- ReadRandomNodes, lookups over the network, and the return count of the random read.
- Curve: scalar multiplication and marshalling; that the field's P is prime is a hypothesis (`Curve.Prime`) where it is needed, and the point at infinity has no representation. Where ModInverse returns nil (crypto/secp256k1/curve.go:99) the source goes on to dereference it; the model returns None.
- witness_node/: copies of files already modelled.
