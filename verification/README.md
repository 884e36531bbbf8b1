# PRaft: block pipeline, certification, broadcast tree and consistent-hash ring

PRaft replicates batches of key-value transactions. Every node turns its own batches into numbered
requests and has peers store them until enough have confirmed: the request is then *certified*. A single
proposer collects certified requests into numbered blocks and announces block h together with the commit
of block h - 1. Every node feeds the heights it considers decided to an in-order executor. Requests travel
either directly or down a tree built for each broadcast. A consistent-hash ring, used apart from all this,
maps names to members.

The classes follow the Go code statement by statement. Every method of `Server`, `LogCert` and `BlockLog`
that changes state is proved equal to a step function; the theorems are about every run of those steps.

| file | what it holds |
|---|---|
| `Server.dfy`, `Records.dfy`, `Ycsb.dfy` | the server, its block logs and certificates, and the store, as they update their fields |
| `Pipeline.dfy` | the step functions of the block pipeline and the cluster's transition system |
| `PipelineSafety.dfy` | under any message order: agreement, order, no executor abort |
| `Conservation.dfy` | no certified request is lost or duplicated |
| `PipelineQuorum.dfy`, `PipelineFifo.dfy` | quorums behind a queued height; exact progress and durability on in-order links |
| `PipelineOrder.dfy`, `PipelineReorder.dfy` | under any message order: exactly what a follower queues and keeps, exactly when a queued block is durable, and a run in which it is not |
| `ExecSpec.dfy` | the executor over one channel: closed form of what it has done, and when it drops a height |
| `PipelineExecutor.dfy`, `WorldExecutor.dfy`, `MissingRequest.dfy` | every executor in every run: its state in closed form, exactly when it stops for good, and a run in which one does |
| `Certification.dfy` | the certification protocol over a network that loses, repeats, reorders and relays |
| `World.dfy`, `WorldParts.dfy` | certification and pipeline together: equal replicas, each request once; runs of the whole as runs of its parts |
| `Effects.dfy`, `WorldStore.dfy` | what blocks do to each key, by the place of the operations; the store of every node in every run |
| `TreeSpec.dfy`, `Tree.dfy` | the broadcast tree as a value, and as nodes in memory built with a queue |
| `TreeBroadcast.dfy`, `TreeDuplication.dfy` | one broadcast down any tree over every interleaving; the handlers that run it |
| `RingSpec.dfy`, `Consistent.dfy` | the ring as a value, and the class that keeps it |
| `SeqNums.dfy` | node ids and sequence numbers |

## Assumptions

- One proposer: position 0 of the peer list (`ProposerNum` is 1). n is the number of nodes and the fault
  number is (n - 1) / 3; results that need f >= 1 are about n >= 4.
- A handler is one atomic step. `Sending` releases its lock between copying the pool and clearing it
  (zpbft/server.go:516-557); it is taken as the single step it is meant to be.
- Pipeline: each request and each reply is delivered at most once, in any order, unless a statement says
  that links deliver in order (`Fifo`); that covers requests and replies. Certification: any message may be
  handled at any time, again, or never. Tree broadcast: each call, return and batch is delivered once, in any
  order.
- Messages are authentic. The code hashes a constant (zpbft/crypto.go:90-92), so digests say nothing and
  their comparisons are dropped.
- `zlog.Error` panics; a panicked executor does nothing further.
- The execution channel is modelled by its whole history `execCh` and the number `taken` out of it. The
  executor's local variables are fields of `Server`.
- The ring's hash is an arbitrary function to 32-bit points and the number of replicas an arbitrary
  parameter >= 1.

## Where the code does not do what one might expect

- *A missing request stops a node for good.* `execute` removes a height from its set before it tests that
  the requests are there, and then skips it. In every run of the whole system and in any message order, an
  executor's next height was taken already if and only if the node once came to a height while a request of it
  was not among its certificates (`WorldExecutor.ExecutorForm`); from then on it never executes again, even when
  the request arrives (`WorldExecutor.StuckForGood`). `LateRequestStopsNode` is such a run, with in-order links
  and the request present in the end. Order, agreement and at-most-once do not depend on it.
- *Commit before block loses the contents.* A follower that sees the commit of h before block h keeps an entry
  without contents (zpbft/server.go:641-669). In any message order a follower queues exactly the heights whose
  announcement reached it before the next one (`QueuesIff`), and a height that was overtaken is never queued and
  never executed there (`OvertakenForGood`). A height queued by the proposer is kept by f followers if and only
  if its announcement reached f followers without being overtaken, or the block is empty (`DurableIff`);
  `ReorderingLosesContents` is a run in which it is kept by none. Commit notices are sent whether or not the
  height was prepared, so nothing is claimed about followers committing only what a quorum has prepared.
- *`GetN` and `GetTwo` can loop forever.* With `start` 0 the test `i != start` never ends the loop, because
  `i` is 0 only for a moment inside the body. `ScanHaltsIff` and `TwoHaltsIff` give the exact conditions, and they
  are what the two methods require. `TwiceAdded` builds a ring that fails them: adding one element twice
  makes the count two with one point. When every member was added once and no two collide the loops always end
  (`FullAnswer`). `GetN` with a negative length after clamping panics in `make`; started past point 0 with
  length 0, or with more than there are distinct owners, it answers all distinct owners.
- *Replica keys run together.* `eltKey` puts the index before the name without a separator. From eleven replicas
  on, and no earlier, there are pairs of names that share a point under every hash, such as x and 0x
  (`ClashesExistIff`, `PrefixedNameAlwaysCollides`); some hash keeps a set of members apart if and only if no two
  of them have a replica key in common and there are points for all (`CanSeparateIff`). The comment on `New` and the
  tests speak of 20 replicas; `New` sets 1. What needs a collision-free ring says so; what does not is proved
  for any hash.
- *`makeTree` with a fan-out below 1* drops every peer; with a fan-out of at least 1 it drops none.
- *Counting an answer for equal heights* would lock one mutex twice (zpbft/server.go:585-586), so
  `HandleReply` requires the two heights of an answer to differ. `Sending` never announces equal ones.
- *`LogCert.committed` is never set* in the live paths, so the early return at zpbft/server.go:405 is not
  modelled.

## Model

| member | source | states |
|---|---|---|
| PipelineSafety.PrefixAgreement | zpbft/server.go:505-755 | in every run under any message order, what any two nodes have executed are prefixes of one another, heights and contents |
| PipelineSafety.ExecutedIsPrefix | zpbft/server.go:505-755 | every node's executed blocks are a prefix of the proposer's blocks, every executed height is below the proposer's current one, and no executor has aborted |
| PipelineSafety.QueuedIsDecided | zpbft/server.go:593-719 | every height an executor received is prepared and committed in its node's log, and no height is queued twice, whatever the order |
| PipelineSafety.StepKeepsSafe | zpbft/server.go:505-755 | each step keeps the safety invariant, and the proposer's blocks only grow at the end |
| PipelineSafety.RunIsSafe | zpbft/server.go:505-755 | the safety invariant holds in every reachable state |
| PipelineSafety.ConfirmedIsCounted | zpbft/server.go:573-611 | handling an answer about known, different heights is counting it, then queueing the committed height, then taking over the reported requests |
| Conservation.RunConserves | zpbft/server.go:516-610 | in every run the bag of certified requests equals pools plus replies in flight plus blocks, and the transaction count is the sum over all blocks |
| Conservation.StepConserves | zpbft/server.go:516-692 | each step keeps that bag, except certification, which adds exactly its request |
| Conservation.StepCounts | zpbft/server.go:551-551 | the count of committed transactions stays the sum over the blocks |
| Conservation.CountPlusPendingIsCertified | zpbft/server.go:516-610 | in every run the proposer's transaction count plus the transactions of all requests in pools and replies are the transactions of all requests certified, counted request by request in any order |
| Pipeline.TxSumAddsUp | zpbft/server.go:518-521 | the sum of one request is its transaction count, and sums add up |
| Pipeline.TxSumIsWeight | zpbft/server.go:518-521 | the loop's sum is the transactions of the requests counted in any order |
| Pipeline.WeightAddsUp | zpbft/server.go:518-521 | counted in any order, the transactions of two bags of requests add up |
| Conservation.BlockedAtMostOnce | zpbft/server.go:516-557 | if nothing is certified twice, no request is in two blocks or twice in one, and none in a block is still in a pool or a reply |
| Conservation.ExecutedAtMostOnce | zpbft/server.go:695-755 | a node executes a request at one height and once there |
| PipelineQuorum.QueuedHasQuorums | zpbft/server.go:587-596 | under any order, a height queued by the proposer has at least f distinct followers that handled its block and at least f that handled its commit notice, all heard by the proposer |
| PipelineQuorum.QueuedIsCounted | zpbft/server.go:587-596 | such a height lies before the last block and is prepared and committed at the proposer |
| PipelineQuorum.StepKeepsQuorum | zpbft/server.go:573-599 | each step keeps the quorum invariant: recorded confirmations come from distinct followers that handled that announcement |
| PipelineQuorum.RunKeepsQuorum | zpbft/server.go:573-599 | the quorum invariant holds in every reachable state with f >= 1 |
| PipelineFifo.FollowerProgress | zpbft/server.go:615-670 | on in-order links a follower that handled m announcements has queued exactly heights 1 to m - 1, in order |
| PipelineFifo.LeaderProgress | zpbft/server.go:587-596 | on in-order links the proposer has queued an initial run of heights, and k is in it exactly when at least f answers to announcement k + 1 were handled |
| PipelineFifo.LeaderQueue | zpbft/server.go:587-596 | the same for every state satisfying the in-order invariant |
| PipelineFifo.LeaderQueuesAtFthAnswer | zpbft/server.go:593-596 | a step queues k at the proposer if and only if it handles the f-th answer to announcement k + 1 |
| PipelineFifo.QueuedIsStored | zpbft/server.go:573-599 | when the proposer has queued k, at least f followers store block k with its contents and have handled its commit |
| PipelineFifo.LosingFLeavesAHolder | zpbft/server.go:573-599 | losing any f nodes, the proposer included, leaves a node that stores a queued block with its contents |
| PipelineFifo.TookInOrder | zpbft/server.go:699-752 | with heights in order, the executor stays level with its channel over one height exactly when it was level and all requests of the block are held |
| PipelineFifo.KeepsUpIff | zpbft/server.go:712-738 | over a whole in-order run, for any requests held at each step, an executor is level with its channel if and only if it never took a height with a request missing; WorldExecutor.KeepsUpIff is about the requests a node's certificates hold |
| PipelineFifo.StepKeepsUp | zpbft/server.go:712-738 | the same for one step of an in-order state |
| PipelineFifo.QuietQueues | zpbft/server.go:560-670 | when an in-order run comes to rest, every node has queued all blocks but the last |
| PipelineFifo.QuietProgress | zpbft/server.go:695-755 | at rest, a node that never missed a request has executed exactly all blocks but the last |
| PipelineFifo.StepInOrder | zpbft/server.go:505-755 | each in-order step keeps the in-order invariant |
| PipelineFifo.RunInOrder | zpbft/server.go:505-755 | the in-order invariant holds after every in-order run |
| PipelineReorder.ReorderingLosesContents | zpbft/server.go:641-670 | the witness for the failing side of DurableIff: a legal run of four nodes in which the proposer queues block 1 while no follower keeps its contents |
| PipelineOrder.DurableIff | zpbft/server.go:573-669 | in every run, in any order: a height queued by the proposer is kept by f followers if and only if its announcement reached f of them without being overtaken or the block is empty; with its commit it is stored by f followers if and only if both announcements reached f of them in order, or the block is empty and both reached f of them |
| PipelineOrder.QueuesIff | zpbft/server.go:626-669 | in every run, in any order: a follower has queued exactly the heights whose announcement reached it before the next one, in the order in which the next ones did |
| PipelineOrder.KeepsIff | zpbft/server.go:626-662 | in every run, in any order: exactly when a follower keeps the contents of a block, and exactly when it has them prepared and committed |
| PipelineOrder.FollowerQueuesIff | zpbft/server.go:646-669 | a step queues a height at a follower if and only if it delivers the next announcement after that height's own |
| PipelineOrder.OvertakenForGood | zpbft/server.go:641-669 | a height overtaken on the way to a follower is never queued there, and the follower never executes past it, whatever arrives later |
| PipelineOrder.RunTraces | zpbft/server.go:615-670 | a follower's channel and every one of its entries are determined by the order in which the announcements arrived |
| PipelineExecutor.ExecutorForm | zpbft/server.go:695-755 | in every run, in any order and with requests and entries changing between heights: what was taken below the next height is done, what was taken above waits, and the next height was taken already if and only if the executor once came to a height with a request missing |
| PipelineExecutor.StuckForGood | zpbft/server.go:708-738 | after one such miss the executor stands still in every continuation of the run |
| PipelineExecutor.StepForm | zpbft/server.go:695-755 | the same for one step of any kind |
| PipelineExecutor.TookForm | zpbft/server.go:699-753 | taking one height keeps the closed form, and stops a running executor exactly when the drain comes to a height with a request missing |
| PipelineExecutor.DrainBetween | zpbft/server.go:708-753 | the inner loop ends at a height that was not taken, or, exactly when it comes to a height with a request missing, at one that was taken and no longer waits |
| PipelineExecutor.PanicsIff | zpbft/server.go:713-719 | the executor panics if and only if it comes to a received height without a prepared and committed entry, everything before it having been executed |
| ExecSpec.FeedSettles | zpbft/server.go:695-755 | for any sequence of heights, reordered, repeated or old, against one log and one set of held requests: everything before the next height was received and could run, the next one was not received or could not run, and the received heights above it wait |
| ExecSpec.ReceiveSettles | zpbft/server.go:699-753 | one further height keeps that closed form, against the same log and held requests |
| ExecSpec.DrainInOrder | zpbft/server.go:708-753 | whatever is received or held, executed heights are 1, 2, 3, ... once each |
| ExecSpec.DrainExtends | zpbft/server.go:708-753 | a drain only appends blocks, each with the contents of the log at a height that was received |
| ExecSpec.DrainDoesNotAbort | zpbft/server.go:713-719 | the executor panics on nothing but a received height that is not prepared and committed |
| ExecSpec.DrainReplays | zpbft/server.go:742-746 | the store is always the replay of the executed blocks, over any larger collection of requests that agrees |
| ExecSpec.DrainExecutesHeld | zpbft/server.go:720-738 | only blocks with all requests held are executed |
| ExecSpec.ReplayAgrees | zpbft/server.go:742-746 | replaying blocks gives the same store over any larger collection of requests |
| Effects.BlockHasItsEffect | zpbft/server.go:742-746 | executing a block whose requests are all held leaves each key with the value of its last write over the whole block, by request, transaction and operation, and a key never written as it was |
| Effects.BlockEffectDetermines | zpbft/server.go:742-746 | that effect determines the store |
| Effects.ReplayIsStore | zpbft/server.go:742-746 | executing a chain of blocks from the empty store leaves exactly the keys written in it, each with the value of its last write over all blocks |
| Effects.ChainLastExists | zpbft/server.go:742-746 | a key written in a chain of blocks has a last write in it |
| ExecSpec.StallIsPermanent | zpbft/server.go:712-738 | after a height was taken with a request missing, no arrival of other heights moves the executor, against one log and one set of held requests; StuckForGood is about every run |
| ExecSpec.TakeStallsIff | zpbft/server.go:712-738 | taking the next height executes it if and only if all its requests are held at that moment, and stalls otherwise |
| Certification.CertifiedOnce | zpbft/server.go:944-1008 | a step certifies exactly its outcome, which was not certified before, and certified requests stay certified |
| Certification.CertifiedIsHeld | zpbft/server.go:975-982 | a certified request is stored under its number by the originator and f distinct other nodes |
| Certification.CertifiedIff | zpbft/server.go:976-978 | with f at least 1, a node's own request is certified if and only if f peers' confirmations were counted, and until then none is left uncounted |
| Certification.EnoughConfirmsCertify | zpbft/server.go:944-1008 | confirmations handled one after the other certify a request if and only if they bring its distinct voters to f |
| Certification.RunPutsUp | zpbft/server.go:1140-1168 | in every run the numbers already taken from a node's channel for broadcast followed by those still in it are exactly its numbers 1 to the last assigned, in order and once each |
| Certification.EachNumberIsPutUp | zpbft/server.go:1149-1168 | in every run a number is a node's own if and only if it waits in the node's channel or was taken for broadcast, and never both |
| Certification.BroadcastSends | zpbft/server.go:319-345 | a broadcast sends the request held under the head of the channel to every target |
| Certification.IssuedIsGiven | zpbft/server.go:1124-1144 | under a number it newly assigns a node holds the request it was given, and it assigns one number at a time, at start or on certification |
| Certification.StoredIsHeld | zpbft/server.go:404-424 | storing a message's request leaves the peer holding it and its confirmation sent |
| Certification.ConfirmedGains | zpbft/server.go:975-990 | a confirmation certifies no request but its own, takes no certification back, and yields a unit exactly when the certificate goes from not certified to certified, with that request's transactions |
| Certification.ConfirmedCounts | zpbft/server.go:350-356 | a confirmation is counted with all that were waiting, or waits while the request is unknown or once it is certified; other certificates stay as they were |
| Certification.GainOne | zpbft/server.go:101-113 | one more confirmation of a batch keeps: the units gained are one for each number whose certificate became certified |
| Certification.HeldInIff | zpbft/server.go:726-730 | a node holds a request exactly when its certificate has one |
| Certification.OneMoreAssigned | zpbft/server.go:1003-1149 | after start, of the j numbers a node has assigned exactly the first j - 1 are certified |
| Certification.OneRequestPerNumber | zpbft/server.go:410-448 | a sequence number names one request on every node |
| Certification.HeldAgrees | zpbft/server.go:410-410 | all nodes' stored requests are part of one common table |
| Certification.RegistryGrows | zpbft/server.go:410-410 | entries of that table never change |
| Certification.StepGrows | zpbft/server.go:350-466 | a step never takes back a stored request, a vote, an assigned number or a certification |
| Certification.StepKeepsInv | zpbft/server.go:314-425 | each step, with lost, repeated, reordered and relayed messages, keeps the certification invariant |
| Certification.RunKeepsInv | zpbft/server.go:944-1170 | the certification invariant holds in every reachable state |
| World.ReplicasAgree | zpbft/server.go:742-746 | in every run two nodes at the same height have executed the same blocks and hold equal key-value maps |
| World.EachRequestOnce | zpbft/server.go:516-557 | in every run a certified request is in exactly one pool, reply or block and an uncertified one in none; it is in at most one block and executed by each node at no more than one height, once there |
| World.ExecutedWasCertified | zpbft/server.go:975-990 | whatever a node executes was certified, and is stored by its originator and f others |
| World.QueuedSurvivesFaults | zpbft/config.go:117-117 | with n >= 4 and in-order links, losing any (n - 1) / 3 nodes leaves a node that stores a queued block, and each of its requests was stored by one more node than can be lost |
| World.StepKeepsInv | zpbft/server.go:505-1170 | each step of certification and pipeline together keeps both invariants, the account of certified requests and the stores |
| World.RunKeepsInv | zpbft/server.go:505-1170 | they hold in every reachable state |
| World.FaultNumIsGreatest | zpbft/config.go:117-117 | f is at most the fault number of n nodes if and only if 3f + 1 is at most n |
| WorldParts.CertificationRuns | zpbft/server.go:944-1170 | the certification steps of a run of the whole are a run of certification that ends in the same state |
| WorldParts.PipelineRuns | zpbft/server.go:505-755 | what the steps of a run of the whole do to the pipeline is a run of the pipeline that ends in the same state |
| WorldStore.StoreHoldsLastWrites | zpbft/server.go:742-746 | in every run the store of every node has exactly the keys written by the blocks it has executed, each with the value of its last write over all of them, by block, request, transaction and operation, and the node holds all those requests |
| WorldStore.RunKeepsHeld | zpbft/server.go:720-747 | in every run a node holds every request it has executed |
| WorldExecutor.ExecutorForm | zpbft/server.go:695-755 | in every run of the whole system, in any order: what an executor took below its next height is done, what it took above waits, and it is stuck if and only if it once came to a height while its node did not hold one of the requests |
| WorldExecutor.StuckForGood | zpbft/server.go:720-738 | a node that missed a request once executes nothing more in any continuation, even when the request reaches it |
| WorldExecutor.KeepsUpIff | zpbft/server.go:712-738 | on in-order links a node has executed everything it took if and only if it held every request of each block when it took the block |
| WorldExecutor.InOrderForm | zpbft/server.go:712-738 | on in-order links a level executor misses exactly when a request of the block it takes is not held |
| MissingRequest.LateRequestStopsNode | zpbft/server.go:712-738 | a legal in-order run of four nodes in which a node misses a request, holds it in the end, and has executed nothing |
| TreeBroadcast.EveryoneConfirms | zpbft/server.go:118-312 | over any tree and any interleaving, a broadcast that can go no further has reached every peer exactly once and brought every peer's confirmation to the root exactly once, n - 1 in all |
| TreeBroadcast.AtMostOnce | zpbft/server.go:99-312 | at any moment a peer has stored the request at most once and the root has its confirmation at most once, from peers that have stored it |
| TreeBroadcast.RunsEnd | zpbft/server.go:118-312 | a measure falls with every step, so no broadcast to n nodes takes more than 3n - 2 steps |
| TreeBroadcast.CanFinish | zpbft/server.go:118-312 | every run, from any point and whatever happened before, can be carried on to that end |
| TreeBroadcast.StepKeepsInv | zpbft/server.go:99-312 | each step keeps: a call is out or handled as often as the parent passed it on, a confirmation is in flight or kept, a full batch is in flight once or was handled once |
| TreeBroadcast.NotFullYet | zpbft/server.go:278-283 | while a child's confirmation is on its way its parent's batch is not complete, so each batch is sent once |
| TreeBroadcast.KidsAreWhatIsRead | zpbft/server.go:206-206 | the children a server reads from the received tree are those of its position, so the broadcast over a built tree is the one proved |
| TreeDuplication.TreeDuplicate | zpbft/server.go:118-161 | the root calls exactly the first two peers in placement order, no busy one while an idle one is left out, over the complete binary tree of all peers |
| TreeDuplication.TreeDuplicateRpc | zpbft/server.go:206-311 | a peer's handler stores the request, finds its children in the tree, calls each of them but itself with the same request, confirms to its caller, and waits for the children on behalf of the root |
| TreeDuplication.Relay.OnReturn | zpbft/server.go:278-283 | collecting the confirmation of the child with an id is the gathering step of the broadcast for the child's position: what is gathered stays what the broadcast has there, and the batch leaves exactly with the last child |
| TreeDuplication.CallsReachTheKids | zpbft/server.go:244-270 | in a tree over distinct ids a peer's calls go to exactly the children of its position, once each, with the request it was sent |
| TreeDuplication.CallsToIff | zpbft/server.go:245-270 | whatever the ids, a peer's calls go to exactly the children read from the tree other than itself, each with the request unchanged |
| TreeDuplication.ChildCount | zpbft/server.go:280-280 | a peer awaits as many confirmations as its position has children |
| TreeDuplication.FinishedBroadcastCertifies | zpbft/server.go:99-172 | a broadcast that can go no further has certified its request, in whatever order the confirmations reached the root, for f between 1 and the number of peers |
| Tree.MakeTree | zpbft/tree.go:15-100 | for a fan-out of at least 1 the nodes linked by the queue represent the complete tree over the local node and all peers, idle peers first; for any other fan-out the local node alone |
| Tree.PlacementOrder | zpbft/tree.go:27-37 | every peer once, idle ones before busy ones, for any iteration order of the map |
| Tree.AdoptionKeepsShape | zpbft/tree.go:60-73 | giving the newest node to the current one, or to the next in the queue, keeps every node's children where their positions say |
| Tree.RoomIff | zpbft/tree.go:60-66 | the child count tells whether the current node has room, and when it has none the queue is not empty: no peer is dropped |
| Tree.LinkedIsComplete | zpbft/tree.go:55-75 | nodes linked by position represent the recursively defined complete tree |
| Tree.TraverseTree | zpbft/tree.go:102-126 | on any finite tree the queue loop ends and answers the breadth-first search |
| TreeSpec.SearchFinds | zpbft/tree.go:109-114 | with distinct ids the answer is exactly the child ids, in order, of the node with the id, wherever it is |
| TreeSpec.SearchMisses | zpbft/tree.go:102-126 | an id that is not in the tree has no children |
| TreeSpec.SearchComplete | zpbft/tree.go:102-126 | on a built tree the children of the m-th inserted id are those at positions km + 1 to km + k, as far as there are any |
| TreeSpec.CompleteSpans | zpbft/tree.go:55-75 | every id is in the tree exactly as often as it was given |
| TreeSpec.ChildrenOf | zpbft/tree.go:60-72 | a node has the ids of its range as children, and at most k of them |
| TreeSpec.ParentIff | zpbft/tree.go:55-75 | position j is a child of position p if and only if p is (j - 1) / k |
| TreeSpec.AtIff | zpbft/tree.go:55-75 | an id is found at a depth of the tree exactly when one of its positions has that many ancestors |
| TreeSpec.IdleNotBelowBusy | zpbft/tree.go:30-37 | no idle peer is deeper than a busy one, for any fan-out |
| TreeSpec.BusyIff | zpbft/tree.go:30-31 | the busy peers are those at addresses whose last two octets are 148 and 45, whatever the port |
| TreeSpec.DepthIsLogarithmic | zpbft/server.go:121-121 | in the binary tree of a broadcast a node at depth d needs at least 2^d nodes |
| Server.Server.constructor | zpbft/server.go:1199-1260 | a new server starts in the initial state of both protocols, with an undecided block 0 |
| Server.Server.Sending | zpbft/server.go:505-557 | one step of the proposer: the pool becomes the next block, the block's and the proposer's counts take in every transaction of every request in it, and the block is announced with the commit of the one before |
| Server.Server.Receiving | zpbft/server.go:615-693 | one step of a follower: block, commit notice, queueing, and the pool drained into the answer |
| Server.Server.StoreBlock | zpbft/server.go:626-645 | a known height is only marked prepared; an unknown one is stored with its contents |
| Server.Server.NoticeCommit | zpbft/server.go:646-670 | a known height is marked and queued once it has both flags; an unknown one gets an entry without contents and is not queued |
| Server.Server.QueueIfDecided | zpbft/server.go:666-669 | a height with both flags is queued once |
| Server.Server.HandleReply | zpbft/server.go:573-611 | one step of the proposer on an answer; an answer about an unknown height changes nothing |
| Server.Server.CountReply | zpbft/server.go:585-590 | the sender is recorded for the prepared and the committed height and both are checked |
| Server.Server.AssignSeq | zpbft/server.go:445-448 | the j-th call yields the node's j-th sequence number |
| Server.Server.GetCertOrNew | zpbft/server.go:450-466 | the certificate of a number, empty on first use, with all others unchanged |
| Server.Server.MakeReq | zpbft/server.go:1140-1149 | the counter grows by 10^10 and its new value goes to the end of the channel; under it the node holds the new request as its duplicator |
| Server.Server.BroadcastNext | zpbft/server.go:1160-1164 | one pass of the work loop takes the head of the channel and sends the request held under it to every peer |
| Server.Server.Duplicate | zpbft/server.go:314-358 | every peer is sent the stored request under its number |
| Server.Server.DuplicateRpc | zpbft/server.go:404-424 | a peer holds the request of the message, with its originator as duplicator, and confirms as itself |
| Server.Server.VerifyBallot | zpbft/server.go:944-1007 | counting the queued voters certifies the request exactly when f have voted, which pools it and starts the next one |
| Server.Server.CountBallot | zpbft/server.go:952-978 | the queued voters are counted once each, and the certificate moves to the next stage exactly when f have voted |
| Server.Server.OnDuplicateConfirm | zpbft/server.go:350-356 | one confirmation is one counting step of the protocol; the pool grows by the unit of its request, and the pipeline state collects that unit, exactly when the certificate goes from not certified to certified, and neither changes otherwise |
| Server.Server.PrimaryReceiveBackRpc | zpbft/server.go:99-116 | a batch of confirmations is the same as its members handled one after the other; the pool grows by one unit for each number whose certificate became certified, with that request's transactions, and by nothing else |
| Server.Server.CheckPresent | zpbft/server.go:720-733 | a block can run exactly when each of its requests has a certificate holding the request; looking does not change what is held |
| Server.Server.ExecuteReqs | zpbft/server.go:742-747 | the store takes the effect of the whole block: each key has the value of its last write over all requests, transactions and operations of the block, and a key never written is as it was |
| Server.Server.TakeNext | zpbft/server.go:712-752 | one pass of the inner loop leaves the outcome of draining the same |
| Server.Server.OnHeight | zpbft/server.go:699-753 | handling a height is the executor's receive step, and the inner loop ends |
| Server.Server.ExecuteNext | zpbft/server.go:699-753 | taking one height is the executor step of the cluster |
| Server.Server.Execute | zpbft/server.go:695-755 | the outer loop feeds all queued heights to the executor in order, up to a panic |
| Server.ConfirmedInParts | zpbft/server.go:350-356 | pushing a confirmation and then counting, if still uncertified, is the protocol's counting step |
| Records.BlockLog.Check | zpbft/blocklog.go:47-54 | a flag is set when its confirmations have reached the fault number, and never cleared |
| Records.LogCert.CountConfirms | zpbft/server.go:952-974 | the queue is emptied and each voter counts once |
| Records.LogCert.PopAllDuplicateConfirms | zpbft/cert.go:145-151 | the queue is handed over and cleared |
| Records.LogCert.DuplicateConfirmBallot | zpbft/cert.go:248-252 | the number of distinct voters |
| Ycsb.LastWriterWins | zpbft/ycsb.go:104-122 | after a batch every key holds its last written value, by transaction and operation, or what it held before if no operation writes it |
| Ycsb.BatchEffectDetermines | zpbft/ycsb.go:104-122 | that effect determines the store |
| Ycsb.Database.ExecTxSet | zpbft/ycsb.go:104-122 | the loops give the store the effect of the batch, key by key, and return the number of transactions |
| SeqNums.GetId | zpbft/util.go:82-96 | the loop computes the id of an address, failing on a part that is not a number |
| SeqNums.IdsAreUnique | zpbft/util.go:82-96 | ids are below 10^8 and equal exactly when third octet, fourth octet and port modulo 100 are |
| SeqNums.IdOfOctets | zpbft/util.go:82-96 | for a dotted address the id is the third octet times 100,000, plus the fourth times 100, plus the port modulo 100 |
| SeqNums.IdExistsIff | zpbft/util.go:85-95 | an address has an id if and only if every part after the second is a number, and the port makes its last two digits |
| SeqNums.FirstPartWeighs | zpbft/util.go:85-92 | with any number of parts, each weighs a thousand times the next |
| SeqNums.SeqNumbersAreUnique | zpbft/server.go:445-448 | sequence numbers are equal exactly when node and call are, and both can be read back |
| SeqNums.LastDigitsAreTheNode | zpbft/server.go:446-447 | the last eight decimal digits of a sequence number are the node's id, and what stands before the last ten is the number of the call |
| SeqNums.SeqNumbersFit | zpbft/server.go:445-448 | the 64-bit counter holds the j-th number if and only if j <= 922,337,203, whatever the node |
| RingSpec.RemovalKeepsPreferences | consistent/consistent.go:102-109 | removing a member deletes it from every full preference list and moves nothing else |
| RingSpec.AdditionKeepsPreferences | consistent/consistent.go:85-92 | adding a member inserts it into every full preference list and moves nothing else |
| RingSpec.AdditionOnlyMovesToNewMember | consistent/consistent.go:85-92 | for any hash, adding a member changes a name's owner only to that member |
| RingSpec.OwnerIsMember | consistent/consistent.go:148-157 | for any hash, a name has exactly one owner on a ring that is not empty; it is a current member and heads the preference list |
| RingSpec.WalkStartsAtSuccessor | consistent/consistent.go:159-168 | the walk begins at the least point strictly above the name's hash, or the least of all |
| RingSpec.WalkIsRotation | consistent/consistent.go:159-168 | the clockwise walk is the sorted points rotated to the searched index |
| RingSpec.WalkOwnersRotate | consistent/consistent.go:200-240 | walking by index with wrap-around visits the owners of the clockwise walk |
| RingSpec.SetEqualsRebuild | consistent/consistent.go:113-135 | an exact circle, its sorted points and all its answers are those of a fresh ring with the members added in any order |
| RingSpec.Params.AddedExact | consistent/consistent.go:85-92 | without collisions, adding leaves exactly the points of the old members and the new one, each owned by its own member |
| RingSpec.Params.RemovedExact | consistent/consistent.go:102-109 | without collisions, removing leaves exactly the points of the others |
| RingSpec.Params.AddedOwned | consistent/consistent.go:85-92 | for any hash, every point keeps an owner that is a member |
| RingSpec.Params.RemovedOwned | consistent/consistent.go:102-109 | for any hash, no point stays with a removed member |
| RingSpec.Params.AddedIff | consistent/consistent.go:86-88 | for any hash, adding occupies the hashes of the element's replica keys and writes the element there over any owner, and leaves every other point |
| RingSpec.Params.RemovedIff | consistent/consistent.go:103-105 | for any hash, removing frees the hashes of the element's replica keys, also those another member shares or owns, and leaves every other point |
| RingSpec.Params.ExactUnique | consistent/consistent.go:113-135 | an exact circle is determined by its members |
| RingSpec.Params.BuiltExact | consistent/consistent.go:85-92 | adding members one by one to a fresh ring, repeats included, gives their exact circle |
| RingSpec.ItoaIsDecimal | consistent/consistent.go:74-74 | a rendered index has digits only, begins with 0 only for 0, and reads back in base ten to the index |
| RingSpec.KeyIs | consistent/consistent.go:72-75 | a replica key is the index in decimal followed by the name |
| RingSpec.PrefixedNameAlwaysCollides | consistent/consistent.go:72-75 | from eleven replicas on a name and the name with a leading 0 collide under every hash, and from twelve on also the one with a leading 1 |
| RingSpec.ClashesExistIff | consistent/consistent.go:72-75 | distinct names that share a replica key exist if and only if there are at least eleven replicas |
| RingSpec.CanSeparateIff | consistent/consistent.go:72-88 | some hash keeps a list of distinct members apart if and only if no two of them share a replica key and they are no more than the points |
| RingSpec.AlwaysCollideIff | consistent/consistent.go:72-88 | two names collide under every hash if and only if they share a replica key |
| RingSpec.ScanHaltsIff | consistent/consistent.go:226-237 | the loop of `GetN` ends if and only if it starts past point 0 or n is between 1 and the number of distinct owners |
| RingSpec.ScanStops | consistent/consistent.go:226-237 | a loop that can end does so within one turn of the ring, with the nearest distinct owners |
| RingSpec.ScanNeverStops | consistent/consistent.go:226-237 | otherwise it is still running after any number of passes |
| RingSpec.ScanPass | consistent/consistent.go:226-237 | one pass completes the answer or goes on with one more owner seen |
| RingSpec.EveryMemberIsMet | consistent/consistent.go:200-240 | without collisions, as many owners as there are members, and any fewer, are always found in full, and the loop always ends |
| RingSpec.NearestAre | consistent/consistent.go:170-240 | the answers begin with the nearest owners in walking order: n of them if there are that many and n is at least 1, all otherwise; two for `GetTwo`, the only owner twice if there is no second |
| RingSpec.TwoHaltsIff | consistent/consistent.go:185-195 | the loop of `GetTwo` ends if and only if it starts past point 0 or there is a second owner |
| ConsistentHash.Consistent.New | consistent/consistent.go:63-69 | a fresh ring is empty |
| ConsistentHash.Consistent.Add | consistent/consistent.go:85-92 | the hashes of the element's replica keys are its own, every other point is as it was, it is a member, and the count grows even if it was one already |
| ConsistentHash.Consistent.Remove | consistent/consistent.go:102-109 | the hashes of the element's replica keys are free, every other point is as it was, it is no member, and the count falls even if it was none |
| ConsistentHash.Consistent.Set | consistent/consistent.go:113-135 | the members are exactly the given elements, the count moves with their number, without collisions the circle is exactly theirs, and setting the members that are there already changes nothing |
| ConsistentHash.Consistent.Get | consistent/consistent.go:148-157 | the owner of the least point strictly above the name's hash, wrapping around, and a current member; an error exactly on an empty circle |
| ConsistentHash.Consistent.Search | consistent/consistent.go:159-168 | the index of the first point strictly above the key, wrapping to 0 |
| ConsistentHash.Consistent.GetTwo | consistent/consistent.go:171-197 | the two nearest distinct owners, one and an empty name with a count of 1, the only owner twice if there is no second; on a ring whose members do not collide and were added once each, two distinct members whenever the count is at least 2 |
| ConsistentHash.Consistent.GetN | consistent/consistent.go:200-240 | under exactly the condition under which the loop ends: the first min(n, count) distinct owners clockwise from the name if there are that many and the length is at least 1, all distinct owners otherwise, a panic for a negative length; on a ring whose members do not collide and were added once each, exactly min(n, count) distinct members |
| ConsistentHash.Consistent.FullAnswer | consistent/consistent.go:200-240 | on a nonempty ring whose members do not collide and were added once each, `GetN` may be called for any n of at least 1 and answers exactly the first min(n, count) distinct owners, all members |
| ConsistentHash.Consistent.TwoAreFound | consistent/consistent.go:171-197 | on such a ring with a count of at least 2 `GetTwo` may be called and answers what `GetN` answers for 2 |
| ConsistentHash.Consistent.AnswersNest | consistent/consistent.go:200-240 | on such a ring the answer of `GetN` for fewer owners is a prefix of the one for more |
| ConsistentHash.TwiceAdded | consistent/consistent.go:85-92 | adding one element twice to a ring with one replica leaves a ring on which `GetTwo` never returns, nor `GetN` for any length of at least 0 other than 1 |
| ConsistentHash.Consistent.UpdateSortedHashes | consistent/consistent.go:264-275 | the sorted points are strictly increasing and are exactly the circle's keys |
| ConsistentHash.Sort | consistent/consistent.go:273-273 | distinct points come back strictly increasing, with none lost or added |

## Left out

- RPC and HTTP connections, goroutine scheduling, sleeps, locks, logging, timing and throughput: only the message steps are kept.
- Signatures and digests: see the assumptions. With real digests the confirmation digest of tree mode would not match the request's.
- Prepare, PrepareRpc, Commit, CommitRpc, rotateProposers, isProposerOrNot, LocalView, `BlockLog.set` and its push methods: no live path calls them.
- Leader change, several proposers and Byzantine nodes: the code has no mechanism for them.
- Lost replies in tree mode: a failed call panics in the log function, so a broadcast is modelled without loss.
- makeReq's transaction pool: its result is not used. Only sequence assignment and the certificate are modelled.
- GenTxSet, gob encoding and leveldb: a request's operations are given, and the database is a map.
- The client and the commented-out request handlers.
- CRC32 and FNV, the trimming of slice capacity, and the read-write lock of the ring.
- Channel capacities: a full channel would only delay a step.
- Configuration files, key generation, bandwidth and deployment scripts, conversions between integers and bytes.
- `Members` of the ring: a copy of the map's keys.
- With f = 0 (n < 4) the quorum, durability and progress statements say nothing; agreement, order and conservation still hold.
- Server.Server.Execute: the executor runs against the state at hand and does not interleave with handlers inside one call; interleaving is in the cluster's steps, one height each.
- Server.Server.GetReq: looking up an unknown number leaves an empty certificate, which the step functions do not distinguish from none.
- Server.Server.MakeReq: the generated transactions are an argument.
- ConsistentHash.Sort: stands in for the library sort.
