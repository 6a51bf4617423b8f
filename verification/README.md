# Redis 7.2.3: cluster failover, append-only file, ACL rules, bitmaps, blocked clients, background jobs

A Dafny model of the parts of Redis that carry its hardest guarantees, with proofs. Every `.dfy`
file is one module; `dafny verify dfyconfig.toml` checks them all.

## What is modelled

**Cluster protocol** (`src/cluster.c`). `ClusterProtocol` is one deterministic machine: every
node's epochs, election bookkeeping and node table, the messages in flight, the votes granted and
the elections won. A run is any sequence of steps; time, the failure detector and the slot tables
only choose which steps happen. `ClusterServer` holds the same handlers as methods on fields and
proves each equal to the machine's step. `ElectionSafety`, `EarlyAckRun`, `EpochBound`,
`EpochCollision` and `WinnerEpoch` are about all runs.

**Slot table** (`src/cluster.c`). `SlotBitmap`, `SlotTable` and `SlotOps` keep the owner of each
slot and every node's bitmap and counter together. `SlotConvergence` is about claims heard in any
order, `SlotRanges`, `SlotText` and `SlotReload` about printing slots and loading them again.

**Append-only file** (`src/aof.c`). `AofManifest`, `AofRewrite` and `AofRewriteSafety`: the
rewrite, one file operation at a time, with a crash possible between any two; `AofHistory`: no file
is forgotten; `AofManifestText`: the manifest written and read as text (`NumberText`: its numbers).
`AofCodec`,
`AofLoad` and `AofTruncation`: the bytes of a log, the loader, and what a cut at any byte leaves.
`AofFlush`: partial writes and their undoing.

**ACL command rules** (`src/acl.c`). `AclRules` is the meaning of rules and of the compacted log,
`AclText` the log as text edited in place, `SplitArgs` the splitting of that text and `ArgsRepr` its
quoting (`src/sds.c`), `AclSelector` the object with its bitmap, first-argument table and text,
`AclMeaning` what each operation means by its text, `AclExamples` what blanks do.

**Bitmaps** (`src/bitops.c`). `Bits`, `Popcount`, `Bitcount`, `Bitpos`, `Bitop`, `Bitfield`,
`BitfieldOps`: each fast form against bit-by-bit definitions. A byte is its eight bits; the 32-bit
and 64-bit arithmetic of the program is written out on integers.

**Blocked clients** (`src/blocked.c`). `BlockedIndex` and `BlockedClients`: the two-way index and
the loop that serves a ready key.

**Background jobs** (`src/bio.c`). `BioWorkers` and `BioSafety`: workers and callers as
interleaved single steps.

## What the proofs found

Each of these is a property that does not hold as wished. The code is modelled as it is; a concrete
run or input shows the failure and a lemma gives the exact condition.

- An ack that arrives after `failover_auth_count` is reset and before the new election is requested
  is counted for the new election. Two quorums overlap in one voter when the electors are odd in
  number and in two when they are even; with fewer such early acks no epoch has two winners
  (`ElectionSafety.SafeElections`), and with that many two replicas can win the same epoch, whatever
  the set of electors (`EarlyAckRun.TightRun`, for three and four masters `EarlyAckRun.TwoWinners`).
- When the manifest's rename succeeds and a later step of writing it fails, the done handler
  unlinks the new BASE file although the manifest on disk names it
  (`AofRewriteSafety.LostBaseExample`). What the flush before the fork leaves in the buffer is
  replayed twice (`AofRewriteSafety.RepeatedExample`). `AofRewriteSafety.ReplayIsExact` has the
  exact condition.
- A file name with a single quote, and nothing that sdsneedsrepr quotes, is written bare into the
  manifest, where sdssplitargs takes the quote for an opening one: the server does not start again
  (`AofManifestText.QuoteExample`; exactly when a manifest reads back:
  `AofManifestText.ManifestReadsBack`, which also has the line limit).
- A log cut inside a command of an open MULTI is cut back to after MULTI, so commands appended
  afterwards are queued and never run (`AofTruncation.CutInMultiExample`). A log cut inside a
  timestamp annotation is accepted as it is, and once something has been appended it no longer
  loads (`AofTruncation.CutInNoteExample`). For every other cut appending is safe
  (`AofTruncation.AppendSafe`, `AofTruncation.TornExactly`).
- On the descriptor opened without O_APPEND, a short write that ftruncate undoes leaves zero bytes
  before the next write (`AofFlush.UndoLeavesHole`, exactly when: `AofFlush.FlushExact`).
- A first argument with a blank or a quote is accepted in an ACL rule, but the log then reads back as
  other words (exactly when: `AclSelector.LogReadsBack`). Describing the selector then panics
  (`AclExamples.BlankPanics`) or describes another rule (`AclExamples.BlankChanges`);
  `AclSelector.Selector.Describe` says exactly when it panics.
- BITFIELD SET with OVERFLOW SAT stores the maximum instead of the minimum for very low values of
  signed fields under 64 bits (`BitfieldOps.SignedSetExample`), and the maximum for negative values
  of unsigned fields (`BitfieldOps.UnsignedSetExample`); `BitfieldOps.SignedSet` and
  `BitfieldOps.UnsignedSet` have the exact conditions.
- A slot marked both migrating and importing loses its importing mark when saved
  (`SlotReload.BothMarksExample`, exactly when: `SlotReload.Reload`).
- `fsynced_reploff_pending` can fall: with appendfsync always the main thread stores it itself, and
  the close job that a rewrite has queued may store its older offset later
  (`BioSafety.OvertakenExample`). It never falls while every such store finds no smaller offset
  still to be stored (`BioSafety.PendingNeverFalls`), and can after any other
  (`BioSafety.UnsafeStoreFalls`).

## Assumptions

- Cluster: message delivery is at most once; for each epoch all parties agree on the masters
  serving slots (the parameter `elect`); no hard reset. Epochs are unbounded. A link carries the
  messages of one node, and the random name of an entry in handshake is no node's name.
- Rewrite: AOF stays on; a BASE file is the dataset it snapshots; writes reach disk in whole commands.
- Loading: a file without an RDB preamble; allocation and truncate succeed; read errors other than
  the end of the file do not happen. Command lookup is a parameter.
- ACL: the command table is a parameter with distinct ids below the reserved bit.
- Background jobs: the offsets of AOF jobs and of the main thread's stores never decrease while the
  append-only file is on; stopAppendOnly, which sets the pending offset back to zero, is not a step.
- Blocked clients: what running a command again comes to is a parameter; one database.
- Numbers in memory are loaded low byte first in `Popcount`; the result does not depend on it.

## Model

| member | source | states |
|---|---|---|
| `ClusterServer.Server.ProcessHeader` | redis-cluster/redis/redis-7.2.3/src/cluster.c:2816-2827 | The header of a packet raises currentEpoch and the sender's configEpoch to the greater of old and announced, changes no other entry, and does nothing during a handshake. |
| `ClusterServer.Server.GetMaxEpoch` | redis-cluster/redis/redis-7.2.3/src/cluster.c:1730-1743 | The result bounds every known configEpoch and currentEpoch, and is one of them. |
| `ClusterServer.Server.BumpConfigEpochWithoutConsensus` | redis-cluster/redis/redis-7.2.3/src/cluster.c:1774-1791 | The node takes a new epoch of its own, one above currentEpoch, exactly when its configEpoch is zero or below currentEpoch or below that of a known node. |
| `ClusterServer.Server.HandleConfigEpochCollision` | redis-cluster/redis/redis-7.2.3/src/cluster.c:1839-1854 | Two masters of one epoch: the node of smaller name moves to one above currentEpoch; every other case changes nothing. |
| `ClusterServer.Server.ProcessPing` | redis-cluster/redis/redis-7.2.3/src/cluster.c:3105-3110 | A heartbeat does to the node what the machine's step does: header, role, demotion, collision. |
| `ClusterServer.Server.ProcessUpdate` | redis-cluster/redis/redis-7.2.3/src/cluster.c:3199-3215 | After an UPDATE about a known node its configEpoch is at least the reported one, and if that was greater the node is a master with exactly it; no third entry changes. |
| `ClusterServer.Server.ProcessHandshakeReply` | redis-cluster/redis/redis-7.2.3/src/cluster.c:2908-2934 | A PING or PONG over the link of an entry in handshake removes the entry if its sender is known, else renames it to the sender and ends the handshake. |
| `ClusterServer.Server.SendFailoverAuthIfNeeded` | redis-cluster/redis/redis-7.2.3/src/cluster.c:3918-4019 | The vote is granted exactly when all checks hold, the slot loop and the pause since the last vote about that master included; a vote records its epoch and time. |
| `ClusterServer.Server.ProcessAuthRequest` | redis-cluster/redis/redis-7.2.3/src/cluster.c:3163-3165 | A vote request does to the node what the machine's step does, and reports whether a vote was sent. |
| `ClusterServer.Server.ProcessAuthAck` | redis-cluster/redis/redis-7.2.3/src/cluster.c:3166-3178 | The count grows by one exactly for a master serving slots whose epoch is not below that of the election. |
| `ClusterServer.Server.HandleSlaveFailover` | redis-cluster/redis/redis-7.2.3/src/cluster.c:4165-4334 | Each turn does exactly the action that is due by its times, ranks and counters. A win makes the node a master that follows nobody, whose configEpoch is the greater of its own and the election's, and changes no other entry; a request stands for one above currentEpoch; scheduling resets the count. |
| `ClusterServer.Server.MayStart` | redis-cluster/redis/redis-7.2.3/src/cluster.c:4192-4233 | A turn goes on exactly on a replica of a master with slots that is failing, or by hand, and automatically only without the no-failover option and with data no older than all allowances together. |
| `ClusterServer.Server.TakeOver` | redis-cluster/redis/redis-7.2.3/src/cluster.c:4314-4330 | The winner's configEpoch becomes the greater of its own and the election's; it is a master and follows nobody; no other entry changes. |
| `ClusterServer.TooOldWhen` | redis-cluster/redis/redis-7.2.3/src/cluster.c:4216-4228 | Data is too old exactly when the link was down for longer than node timeout, validity factor and ping period allow together. |
| `ClusterServer.ActsWhen` | redis-cluster/redis/redis-7.2.3/src/cluster.c:4165-4334 | In plain times: votes are requested only from the start time, put off by a second for each rank lost, until twice the node timeout or two seconds later; a new attempt only after twice that; a win only with more than half the masters; and each does happen then. |
| `ClusterServer.Server.TakeoverCommand` | redis-cluster/redis/redis-7.2.3/src/cluster.c:6379-6386 | A takeover leaves a master that follows nobody, with an epoch at least as great as any it knows, and no other entry changed. |
| `ClusterServer.Server.SetConfigEpochCommand` | redis-cluster/redis/redis-7.2.3/src/cluster.c:6398-6433 | Succeeds exactly for a number not negative on a server that knows nobody and has no epoch; currentEpoch is raised to it if smaller. |
| `ClusterServer.Server.SetMaster` | redis-cluster/redis/redis-7.2.3/src/cluster.c:5157-5174 | The server is a replica of the given node. |
| `ClusterServer.Server.StartHandshakeWith` | redis-cluster/redis/redis-7.2.3/src/cluster.c:2088-2100 | One entry is added: in handshake, no master, epoch zero. |
| `ClusterServer.Server.ForgetNode` | redis-cluster/redis/redis-7.2.3/src/cluster.c:1608-1637 | The entry and nothing else goes; a replica of it is left without a master. |
| `ClusterServer.PingAdopts` | redis-cluster/redis/redis-7.2.3/src/cluster.c:2816-2827 | A heartbeat gives the sender's entry its role and the greater of both epochs, makes a demoted server follow the sender, and changes no third entry and no election field. |
| `ClusterServer.PingYields` | redis-cluster/redis/redis-7.2.3/src/cluster.c:1839-1854 | The server gives its epoch up exactly on a collision with a greater name; the new one is one above the currentEpoch both sides knew, so above every known epoch; otherwise its own entry stays. |
| `ClusterServer.MayReceive` | redis-cluster/redis/redis-7.2.3/src/cluster.c:2687-2705 | In every state of the machine each message in flight may be lost or arrive, and may end a handshake over its link. |
| `ClusterServer.MayMeet` | redis-cluster/redis/redis-7.2.3/src/cluster.c:1588-1637 | In every state a server may talk to, follow, forget, learn or start a handshake with another node. |
| `ClusterServer.MayRise` | redis-cluster/redis/redis-7.2.3/src/cluster.c:4165-4334 | In every state a server may take a new epoch, and a replica may take over, stand for election and win it with a majority. |
| `WinnerEpoch.OwnNeverFalls` | redis-cluster/redis/redis-7.2.3/src/cluster.c:4322-4327 | No step lowers a node's own configEpoch; winning raises it at least to the epoch of the election. |
| `WinnerEpoch.WinnersKeepEpoch` | redis-cluster/redis/redis-7.2.3/src/cluster.c:4314-4330 | In every state of every run each election ever won has left its winner with a configEpoch at or above the election's. |
| `WinnerEpoch.FreshEpochs` | redis-cluster/redis/redis-7.2.3/src/cluster.c:1774-1791 | In every state of every run an epoch taken without an election, on request or after a collision, is greater than every epoch in the node's table. |
| `ClusterServer.Server.ScheduleElection` | redis-cluster/redis/redis-7.2.3/src/cluster.c:4237-4266 | The tally is reset and the start set: at least half a second away and a second more for every rank, or at once for a manual failover. |
| `EpochBound.SendersPastHandshake` | redis-cluster/redis/redis-7.2.3/src/cluster.c:2687-2705 | In every state of every run a sender that its receiver can look up is past its handshake, because an entry in handshake stands under a name no node has. |
| `ElectionSafety.RunKeepsInv` | redis-cluster/redis/redis-7.2.3/src/cluster.c:2816-2827 | Votes, requests, acks, tallies and wins stay consistent in every state of every run. |
| `ElectionSafety.CountExact` | redis-cluster/redis/redis-7.2.3/src/cluster.c:3166-3178 | In every reachable state failover_auth_count is the number of distinct voters of the current election plus the acks counted before it was requested. |
| `ElectionSafety.StaleRun` | redis-cluster/redis/redis-7.2.3/src/cluster.c:4237-4242 | The early acks in any tally or win are among those delivered to that node between a reset and the next request. |
| `ElectionSafety.AtMostOneWinner` | redis-cluster/redis/redis-7.2.3/src/cluster.c:4314-4327 | Two wins of one epoch whose early acks together are fewer than the overlap of two quorums (1 for an odd number of electors, 2 for an even one) share a voter and are by the same node. |
| `ElectionSafety.SafeElections` | redis-cluster/redis/redis-7.2.3/src/cluster.c:4237-4334 | In every run no epoch has two winners unless the whole run counts at least as many early acks as two quorums overlap. |
| `ElectionSafety.VoteEpochsIncrease` | redis-cluster/redis/redis-7.2.3/src/cluster.c:3918-4019 | Whatever a master votes after any point of a run is for a greater epoch than all it voted before. |
| `EarlyAckRun.TightRun` | redis-cluster/redis/redis-7.2.3/src/cluster.c:4237-4303 | For every non-empty set of electors there is a run with exactly as many early acks as two quorums overlap in which two replicas win the same epoch. |
| `EarlyAckRun.TwoWinners` | redis-cluster/redis/redis-7.2.3/src/cluster.c:4237-4303 | Among three masters one early ack, and among four two, let two replicas win epoch 2. |
| `EpochBound.UpdateBounded` | redis-cluster/redis/redis-7.2.3/src/cluster.c:3199-3215 | An UPDATE keeps every known configEpoch at or below currentEpoch if and only if its sender's header was used or it brings no greater epoch. |
| `EpochBound.EpochsBounded` | redis-cluster/redis/redis-7.2.3/src/cluster.c:3514-3516 | In every state of every run no stored or sent configEpoch exceeds the node's or message's currentEpoch. |
| `EpochCollision.RunKeepsInv` | redis-cluster/redis/redis-7.2.3/src/cluster.c:1839-1854 | In runs of heartbeats and UPDATEs among masters, sent, lost and delivered in any order, abandoned epochs are distinct, were held by a node of greater name, and no view or UPDATE runs ahead of its node. |
| `EpochCollision.PingEffect` | redis-cluster/redis/redis-7.2.3/src/cluster.c:3105-3110 | A heartbeat between masters makes the receiver bump exactly when the sender has a greater name and the same epoch; the new epoch exceeds both currentEpochs. |
| `EpochCollision.UpdateEffect` | redis-cluster/redis/redis-7.2.3/src/cluster.c:3199-3215 | A delivered UPDATE leaves the receiver's own epoch and history alone, brings its subject to the reported epoch or more, and raises no view but those of its sender and its subject. |
| `EpochCollision.UpwardHeld` | redis-cluster/redis/redis-7.2.3/src/cluster.c:1839-1854 | All epochs ever held by a set of nodes closed under greater names number at most 2^size - 1. |
| `EpochCollision.BumpBound` | redis-cluster/redis/redis-7.2.3/src/cluster.c:1839-1854 | In every such run, UPDATEs included and without demotions, a master with k greater names bumps at most 2^k - 1 times, the greatest never, and all together at most 2^n - n - 1 times. |
| `EpochCollision.Progress` | redis-cluster/redis/redis-7.2.3/src/cluster.c:3105-3110 | In every state of such a run a fresh heartbeat makes its receiver bump if and only if it comes from a greater name with the same epoch. |
| `SlotBitmap.BitChanges` | redis-cluster/redis/redis-7.2.3/src/cluster.c:4844-4862 | Setting or clearing a bit changes that bit and no other. |
| `SlotTable.AddKeeps` | redis-cluster/redis/redis-7.2.3/src/cluster.c:4925-4930 | Assigning a free slot keeps owners, bitmaps and counters in agreement. |
| `SlotTable.DelKeeps` | redis-cluster/redis/redis-7.2.3/src/cluster.c:4935-4946 | Freeing a slot keeps them in agreement, and the owner's bit was set. |
| `SlotTable.NumslotsIsPopcount` | redis-cluster/redis/redis-7.2.3/src/cluster.c:4882-4915 | In a coherent state a node's counter is the population count of its bitmap. |
| `SlotTable.OneOwner` | redis-cluster/redis/redis-7.2.3/src/cluster.c:4882-4915 | No slot is in two bitmaps. |
| `SlotTable.NumslotsSum` | redis-cluster/redis/redis-7.2.3/src/cluster.c:4882-4946 | The counters of all nodes sum to the number of assigned slots. |
| `SlotOps.ClusterState.SetSlotBit` | redis-cluster/redis/redis-7.2.3/src/cluster.c:4882-4904 | The bit is set and counted only if it was clear; the old bit is returned. |
| `SlotOps.ClusterState.ClearSlotBit` | redis-cluster/redis/redis-7.2.3/src/cluster.c:4907-4914 | The bit is cleared and uncounted only if it was set; the old bit is returned. |
| `SlotOps.ClusterState.AddNode` | redis-cluster/redis/redis-7.2.3/src/cluster.c:1588-1594 | A new node without slots is added and coherence is kept. |
| `SlotOps.ClusterState.AddSlot` | redis-cluster/redis/redis-7.2.3/src/cluster.c:4925-4930 | Succeeds exactly for a free slot, changes no other slot, and keeps coherence. |
| `SlotOps.ClusterState.DelSlot` | redis-cluster/redis/redis-7.2.3/src/cluster.c:4935-4946 | Frees exactly one slot, keeps coherence, and the assertion in it holds. |
| `SlotOps.ClusterState.DelNodeSlots` | redis-cluster/redis/redis-7.2.3/src/cluster.c:4950-4960 | Frees exactly the node's slots and returns how many there were. |
| `SlotOps.ClusterState.ClaimSlotsOf` | redis-cluster/redis/redis-7.2.3/src/cluster.c:4138-4143 | Moves exactly the slots of one node to another. |
| `SlotOps.ClusterState.ReplaceYourMaster` | redis-cluster/redis/redis-7.2.3/src/cluster.c:4127-4143 | A failover moves exactly the old master's slots, adds their number to ours and leaves the old master none; a master or a node without one changes nothing. |
| `SlotOps.ClusterState.SetMaster` | redis-cluster/redis/redis-7.2.3/src/cluster.c:5157-5174 | This server follows another node; a master also drops all its imports and migrations. |
| `SlotOps.ClusterState.SetNodeAsMaster` | redis-cluster/redis/redis-7.2.3/src/cluster.c:2319-2333 | The node becomes a master that follows nobody; a master stays as it is. |
| `SlotOps.ClusterState.SetNodeAsReplica` | redis-cluster/redis/redis-7.2.3/src/cluster.c:3004-3030 | A master that says it is a replica loses exactly its slots; it follows its master if that is known; nobody else changes. |
| `SlotOps.ClusterState.ClaimSlot` | redis-cluster/redis/redis-7.2.3/src/cluster.c:2375-2429 | One slot after a claim. While importing the owner stays; a claimed slot goes to the sender if and only if it was the sender's, nobody's, given up, or held under a smaller epoch; an unclaimed one is marked if it was the sender's. |
| `SlotOps.ClusterState.ClaimSlots` | redis-cluster/redis/redis-7.2.3/src/cluster.c:2375-2429 | The loop over a claim: the same for every slot, how many were claimed, how many taken from our master, and which of ours were lost with keys in them. |
| `SlotOps.ClusterState.Reconfigure` | redis-cluster/redis/redis-7.2.3/src/cluster.c:2444-2481 | After the loop: follow the claimant, leave a master that is a replica, or delete keys, by the same tests in the same order; the process ends exactly if an unknown master lost a slot or a server that still holds slots would follow another. |
| `SlotOps.ExactClaim` | redis-cluster/redis/redis-7.2.3/src/cluster.c:2444-2446 | A claim of as many slots as it took from one owner is a claim of exactly those slots, and only such a claim is. |
| `SlotOps.ClaimsSurvived` | redis-cluster/redis/redis-7.2.3/src/cluster.c:5157-5159 | No claim ends the process of a master, or of a replica that knows its master and holds no slots. |
| `SlotOps.ClusterState.UpdateSlotsConfigWith` | redis-cluster/redis/redis-7.2.3/src/cluster.c:2346-2482 | The whole table after a claim, slot by slot on the tables before and after, and what follows: the new master, the grandmaster, the slots whose keys are deleted, nothing, or the end of the process. |
| `SlotOps.RebindSettles` | redis-cluster/redis/redis-7.2.3/src/cluster.c:2384-2428 | The rule for one slot, by its owner, its marks and the epochs, whatever the claim. |
| `SlotOps.DecisionMeans` | redis-cluster/redis/redis-7.2.3/src/cluster.c:2444-2481 | What follows a claim, by which slots were lost, which are still held, which were claimed and who follows whom, without counting. |
| `SlotOps.ClusterState.DelNode` | redis-cluster/redis/redis-7.2.3/src/cluster.c:1560-1621 | No slot, import, migration or replica names the removed node, every other node is as before, and coherence is kept. |
| `SlotConvergence.DeliverGreatest` | redis-cluster/redis/redis-7.2.3/src/cluster.c:2375-2429 | After claims with distinct epochs in any order and number, each slot belongs to its claimant of greatest epoch, or to nobody if nobody claims it. |
| `SlotConvergence.ObserversAgree` | redis-cluster/redis/redis-7.2.3/src/cluster.c:2375-2429 | Two nodes that heard the same peers hold the same table. |
| `SlotRanges.RangesExact` | redis-cluster/redis/redis-7.2.3/src/cluster.c:5289-5307 | The ranges are the maximal runs: in order, apart, and covering exactly the node's slots. |
| `SlotRanges.ScanNode` | redis-cluster/redis/redis-7.2.3/src/cluster.c:5289-5307 | The scan for one node finds its ranges. |
| `SlotRanges.GenNodesSlotsInfo` | redis-cluster/redis/redis-7.2.3/src/cluster.c:5331-5360 | One pass gives every unfiltered node its ranges. |
| `SlotRanges.ScansAgree` | redis-cluster/redis/redis-7.2.3/src/cluster.c:5287-5308 | Both ways of finding ranges give the same list. |
| `SlotRanges.Room` | redis-cluster/redis/redis-7.2.3/src/cluster.c:5348-5353 | The assertion before a pair is stored holds: there is room in 2 * numslots entries. |
| `SlotRanges.RangesFit` | redis-cluster/redis/redis-7.2.3/src/cluster.c:5348-5353 | A node's pairs never exceed 2 * numslots entries. |
| `SlotText.RangeReads` | redis-cluster/redis/redis-7.2.3/src/cluster.c:666-678 | A printed range reads back as its first and last slot. |
| `SlotText.MarkReads` | redis-cluster/redis/redis-7.2.3/src/cluster.c:632-665 | A printed migration mark reads back as its slot, direction and node name. |
| `SlotText.RangesLoad` | redis-cluster/redis/redis-7.2.3/src/cluster.c:666-680 | Loading printed ranges gives exactly the free slots inside them to the node. |
| `SlotText.MarksLoad` | redis-cluster/redis/redis-7.2.3/src/cluster.c:5313-5323 | Loading printed marks restores them, an importing mark only where the slot is not also migrating. |
| `SlotReload.RepresentSlotInfo` | redis-cluster/redis/redis-7.2.3/src/cluster.c:5214-5225 | Appends every range as a word after a space. |
| `SlotReload.LineLoads` | redis-cluster/redis/redis-7.2.3/src/cluster.c:428-442 | A line splits into its eight fields and the slot words, and the words are loaded for the node its first field names. |
| `SlotReload.LoadRange` | redis-cluster/redis/redis-7.2.3/src/cluster.c:679-679 | The loop over a range takes exactly its free slots and keeps coherence. |
| `SlotReload.Reload` | redis-cluster/redis/redis-7.2.3/src/cluster.c:5287-5323 | Loading a saved file, node by node through the names in it, rebuilds the same owners and migrating marks, and the same state if and only if no slot has both marks. |
| `SlotReload.BothMarksExample` | redis-cluster/redis/redis-7.2.3/src/cluster.c:5315-5321 | A slot both migrating and importing comes back without its importing mark. |
| `AofManifest.AofManifestObject.Dup` | redis-cluster/redis/redis-7.2.3/src/aof.c:391-408 | A duplicate has the same value. |
| `AofManifest.AofManifestObject.GetNewIncrAofName` | redis-cluster/redis/redis-7.2.3/src/aof.c:455-464 | The next INCR number is taken and its file added last. |
| `AofManifest.AofManifestObject.GetNewBaseFileName` | redis-cluster/redis/redis-7.2.3/src/aof.c:427-446 | The next BASE number is taken and the previous BASE goes to HISTORY. |
| `AofManifest.AofManifestObject.MarkRewrittenIncrAofAsHistory` | redis-cluster/redis/redis-7.2.3/src/aof.c:492-522 | All INCR files but the one in use go to HISTORY, in order. |
| `AofHistory.Retired` | redis-cluster/redis/redis-7.2.3/src/aof.c:427-446 | A rewrite moves exactly the files in use that it replaces into HISTORY. |
| `AofHistory.HistoryIsComplete` | redis-cluster/redis/redis-7.2.3/src/aof.c:429-433 | In every state of every run, failures and crashes included, a file on disk is in use, listed in HISTORY, or was never installed. |
| `AofHistory.CollectsAll` | redis-cluster/redis/redis-7.2.3/src/aof.c:679-691 | From any state of it the collection unlinks exactly the listed files and leaves HISTORY empty in memory and on disk. |
| `AofHistory.OnlyLiveLeft` | redis-cluster/redis/redis-7.2.3/src/aof.c:679-691 | In every run, after a collection every file on disk is in use or was never installed. |
| `AofHistory.FlushesAll` | redis-cluster/redis/redis-7.2.3/src/aof.c:1064-1232 | In every idle state the buffer may be flushed whole, and if nothing was lost before, a restart then loads everything executed. |
| `ArgsRepr.CatRepr` | redis-cluster/redis/redis-7.2.3/src/sds.c:910-934 | Appends the string in double quotes with its escapes. |
| `ArgsRepr.ReprsReadBack` | redis-cluster/redis/redis-7.2.3/src/sds.c:998-999 | Any byte strings in that form, joined by spaces, split back into themselves. |
| `ArgsRepr.SplitQuoted` | redis-cluster/redis/redis-7.2.3/src/sds.c:1046-1051 | A quoted string is one argument, and nothing but a blank may follow its closing quote. |
| `ArgsRepr.SingleQuoted` | redis-cluster/redis/redis-7.2.3/src/sds.c:1059-1076 | In single quotes everything but a quote stands for itself. |
| `ArgsRepr.SingleEscape` | redis-cluster/redis/redis-7.2.3/src/sds.c:1060-1062 | A quote inside them is written with a backslash. |
| `ArgsRepr.ShownReads` | redis-cluster/redis/redis-7.2.3/src/sds.c:943-954 | A string shown in quotes only if sdsneedsrepr asks for them reads back if and only if it is not empty and holds no single quote, or needed the quotes. |
| `AofManifestText.GetAofManifestAsString` | redis-cluster/redis/redis-7.2.3/src/aof.c:192-221 | The text is one line for the BASE, each HISTORY and each INCR file, in that order. |
| `AofManifestText.AssignFields` | redis-cluster/redis/redis-7.2.3/src/aof.c:315-329 | The loop over keys and values sets name, number and type, in any order and case, and stops at a path. |
| `AofManifestText.ReadLine` | redis-cluster/redis/redis-7.2.3/src/aof.c:307-335 | A line is an entry or the error of its first fault. |
| `AofManifestText.LoadManifestFromFile` | redis-cluster/redis/redis-7.2.3/src/aof.c:256-388 | The loader gives what its recursive definition gives, and whatever it accepts is in order. |
| `AofManifestText.LoadOrdered` | redis-cluster/redis/redis-7.2.3/src/aof.c:340-363 | Whatever the text, an accepted manifest has at most one BASE, ascending INCR numbers, counters at their ends, and no path for a name. |
| `AofManifestText.LineReads` | redis-cluster/redis/redis-7.2.3/src/aof.c:121-135 | A written line with a readable name reads back as its entry. |
| `AofManifestText.OneQuoteStops` | redis-cluster/redis/redis-7.2.3/src/aof.c:307-312 | A name with one single quote and nothing else unusual makes its line an error. |
| `AofManifestText.QuoteExample` | redis-cluster/redis/redis-7.2.3/src/aof.c:124-132 | With a file name such as it's.1.incr.aof the manifest that was written does not load. |
| `AofManifestText.ManifestReadsBack` | redis-cluster/redis/redis-7.2.3/src/aof.c:256-388 | A manifest written and read again is the same if and only if it lists a file, no name holds a single quote without something else that asks for double ones, and no line is longer than the buffer. |
| `AofRewriteSafety.RunKeepsInv` | redis-cluster/redis/redis-7.2.3/src/aof.c:2425-2493 | Memory, disk, child and buffer agree in every state between any two file operations. |
| `AofRewriteSafety.ReplayIsExact` | redis-cluster/redis/redis-7.2.3/src/aof.c:2582-2694 | In every state of every run disk and buffer hold exactly what was executed, once, if and only if the manifest on disk names no unlinked BASE and the last rewrite was forked with an empty buffer. |
| `AofRewriteSafety.CarefulRunsAreSafe` | redis-cluster/redis/redis-7.2.3/src/aof.c:2425-2493 | If the flush before each fork empties the buffer and no finished rewrite's manifest write fails after its rename, nothing is ever lost or repeated. |
| `AofRewriteSafety.LiveFilesUntouched` | redis-cluster/redis/redis-7.2.3/src/aof.c:790-853 | No step truncates, overwrites or unlinks a file in use; one named on disk only if it is an empty INCR file or in the undo after a failed manifest write, unless that undo has already lost the BASE. |
| `AofRewriteSafety.UnflushedRestIsRepeated` | redis-cluster/redis/redis-7.2.3/src/aof.c:2425-2493 | A completed rewrite repeats exactly what its flush left in the buffer. |
| `AofRewriteSafety.UndoAfterRenameLosesBase` | redis-cluster/redis/redis-7.2.3/src/aof.c:2664-2676 | If the manifest write fails after its rename, the undo leaves a manifest that names a missing file, so the files do not load. |
| `AofRewriteSafety.RepeatedExample` | redis-cluster/redis/redis-7.2.3/src/aof.c:2440-2462 | From a fresh server: a command not flushed before the fork is in the new BASE and in the buffer. |
| `AofRewriteSafety.LostBaseExample` | redis-cluster/redis/redis-7.2.3/src/aof.c:2664-2676 | From a fresh server: the undo after a rename leaves files that do not load. |
| `AofCodec.CatAppendOnlyGenericCommand` | redis-cluster/redis/redis-7.2.3/src/aof.c:1268-1291 | Appends the encoding of the command: its count, then each argument with its length. |
| `AofCodec.RecordWhole` | redis-cluster/redis/redis-7.2.3/src/aof.c:1485-1535 | A record that is all there is read as what was written, whatever follows it. |
| `AofCodec.CommandPart` | redis-cluster/redis/redis-7.2.3/src/aof.c:1485-1535 | A command cut at any byte is a read error at the end of the file. |
| `AofCodec.NotePart` | redis-cluster/redis/redis-7.2.3/src/aof.c:1485-1492 | A cut annotation is skipped without an error. |
| `AofCodec.Malformed` | redis-cluster/redis/redis-7.2.3/src/aof.c:1494-1511 | Another first byte, a count below one, or an argument without its mark is a format error. |
| `AofCodec.Format` | redis-cluster/redis/redis-7.2.3/src/aof.c:1268-1291 | The bytes of a command and of an annotation, written out. |
| `AofLoad.ReadArgs` | redis-cluster/redis/redis-7.2.3/src/aof.c:1506-1535 | The argument loop reads what its recursive definition reads. |
| `AofLoad.ReadRecord` | redis-cluster/redis/redis-7.2.3/src/aof.c:1485-1535 | One record of the file, with the same error for the same bytes. |
| `AofLoad.LoadSingleFile` | redis-cluster/redis/redis-7.2.3/src/aof.c:1469-1631 | The loader's loop gives the status, the commands run and the offset of its recursive definition, of which the next rows say what it runs. |
| `AofTruncation.LoadPrefix` | redis-cluster/redis/redis-7.2.3/src/aof.c:1469-1631 | For any log and any non-empty byte prefix of it: exactly the whole commands run, and status and offset follow from where the cut falls, MULTI and annotations included. |
| `AofTruncation.LoadCommitted` | redis-cluster/redis/redis-7.2.3/src/aof.c:1555-1576 | Of any log cut at any byte the load runs, in order, the commands of the whole records outside MULTI and inside each MULTI that has its EXEC, the marks removed and an open transaction dropped. |
| `AofTruncation.TransactionLoads` | redis-cluster/redis/redis-7.2.3/src/aof.c:1555-1560 | MULTI, commands and EXEC load as exactly those commands. |
| `AofTruncation.StrictLoad` | redis-cluster/redis/redis-7.2.3/src/aof.c:1582-1621 | With aof-load-truncated off the same commands run, and exactly what would be cut off is a failure. |
| `AofTruncation.PlainPrefix` | redis-cluster/redis/redis-7.2.3/src/aof.c:1469-1576 | Without MULTI and annotations the commands wholly inside the prefix run, valid_up_to is their length, and the result is truncation unless the cut falls between commands. |
| `AofTruncation.RoundTrip` | redis-cluster/redis/redis-7.2.3/src/aof.c:1268-1291 | The full encoding loads as the commands that were written. |
| `AofTruncation.AppendSafe` | redis-cluster/redis/redis-7.2.3/src/aof.c:1582-1615 | If the cut is not torn, whatever is appended to the kept file is run by the next load after what ran before. |
| `AofTruncation.TornLoses` | redis-cluster/redis/redis-7.2.3/src/aof.c:1582-1615 | If it is torn, no appended ordinary command is run by the next load; where the first load had accepted the file, the next one fails. |
| `AofTruncation.TornExactly` | redis-cluster/redis/redis-7.2.3/src/aof.c:1582-1587 | Without nested MULTI a cut is torn exactly inside a command of an open transaction or inside an annotation outside of one. |
| `AofTruncation.CutInMultiExample` | redis-cluster/redis/redis-7.2.3/src/aof.c:1582-1615 | MULTI and a cut PING: a PING appended after loading is not run. |
| `AofTruncation.CutInNoteExample` | redis-cluster/redis/redis-7.2.3/src/aof.c:1485-1493 | PING and a cut annotation: the file loads, and no longer does once another PING has been appended. |
| `AofFlush.AofBuffer.Feed` | redis-cluster/redis/redis-7.2.3/src/aof.c:1347-1356 | The bytes go to the end of the buffer. |
| `AofFlush.AofBuffer.AofWrite` | redis-cluster/redis/redis-7.2.3/src/aof.c:1026-1043 | Whatever single writes do, the result is one write of the first bytes reported, or nothing. |
| `AofFlush.AofBuffer.Flush` | redis-cluster/redis/redis-7.2.3/src/aof.c:1064-1232 | A flush is the transition for some number of bytes written; both sizes grow alike. |
| `AofFlush.FlushExact` | redis-cluster/redis/redis-7.2.3/src/aof.c:1148-1232 | A flush keeps file and buffer together if and only if the descriptor appends or is at the end, or nothing it wrote stays. |
| `AofFlush.RunConserves` | redis-cluster/redis/redis-7.2.3/src/aof.c:1129-1232 | On an appending descriptor, over all feeds and flushes, file and buffer are all bytes fed, in order, and the recorded size is the file's. |
| `AofFlush.UndoLeavesHole` | redis-cluster/redis/redis-7.2.3/src/aof.c:809-809 | Without O_APPEND an undone short write leaves a zero byte before the next one. |
| `AclRules.SupersededAlike` | redis-cluster/redis/redis-7.2.3/src/acl.c:550-592 | A superseded rule affects nothing that the superseding rule does not overwrite. |
| `AclRules.LogReplays` | redis-cluster/redis/redis-7.2.3/src/acl.c:596-604 | The compacted log with a new rule replays to the rule applied to the replay of the old log. |
| `AclRules.InterpretOk` | redis-cluster/redis/redis-7.2.3/src/acl.c:1097-1174 | An accepted operation is a well-formed rule in lower case. |
| `AclRules.ReservedUntouched` | redis-cluster/redis/redis-7.2.3/src/acl.c:527-529 | No rule but +@all and -@all changes the reserved bit. |
| `AclRules.SetSelectorOk` | redis-cluster/redis/redis-7.2.3/src/acl.c:1010-1174 | Every operation, accepted or refused, keeps log and permissions in agreement. |
| `AclRules.HistoryReplays` | redis-cluster/redis/redis-7.2.3/src/acl.c:1010-1174 | After any sequence of operations the log replays to the very bitmap and first arguments. |
| `AclText.DeleteOrSkip` | redis-cluster/redis/redis-7.2.3/src/acl.c:557-588 | One turn of the memmove loop: the rest of the scan gives the same text, and there is less of it left. |
| `AclText.RemoveCommandRule` | redis-cluster/redis/redis-7.2.3/src/acl.c:550-592 | For any text the loop computes its recursive definition; on rules without spaces it removes the superseded rules. |
| `AclText.DeletedIsRemove` | redis-cluster/redis/redis-7.2.3/src/acl.c:550-592 | On rules without spaces, deleting from the text is removing from the list. |
| `AclText.RuleReadsBack` | redis-cluster/redis/redis-7.2.3/src/acl.c:1097-1174 | A rule read from its own text is the same rule. |
| `AclMeaning.AnyCase` | redis-cluster/redis/redis-7.2.3/src/acl.c:1027-1040 | Case does not matter to any operation. |
| `AclMeaning.AcceptedExactly` | redis-cluster/redis/redis-7.2.3/src/acl.c:1097-1174 | An operation is taken as a rule if and only if its text is, but for case, that of the well-formed rule. |
| `AclMeaning.RefusedBelow` | redis-cluster/redis/redis-7.2.3/src/acl.c:1107-1146 | Below a subcommand there is nothing, a bar needs a name after it, and a container has only its own subcommands: three refusals, each with its error. |
| `AclMeaning.RefusedUnknown` | redis-cluster/redis/redis-7.2.3/src/acl.c:1161-1174 | An unknown command or category is refused under either sign. |
| `AclMeaning.CommandMeans` | redis-cluster/redis/redis-7.2.3/src/acl.c:608-621 | Naming a command writes exactly its bit and its subcommands' and forgets exactly its first arguments. |
| `AclMeaning.CategoryMeans` | redis-cluster/redis/redis-7.2.3/src/acl.c:1169-1174 | Naming a category does so for exactly the commands and subcommands in it. |
| `AclMeaning.FirstArgMeans` | redis-cluster/redis/redis-7.2.3/src/acl.c:1147-1158 | A first argument is added to its command's; no bit changes. |
| `AclMeaning.AllMeans` | redis-cluster/redis/redis-7.2.3/src/acl.c:1027-1040 | All commands: every bit and no rule; no commands: no bit and no rule. |
| `AclMeaning.RemovesExactly` | redis-cluster/redis/redis-7.2.3/src/acl.c:550-592 | Each logged rule stays in its place unless the new rule's text is the same or is its part up to a bar. |
| `SplitArgs.SplitPlain` | redis-cluster/redis/redis-7.2.3/src/sds.c:1006-1105 | Words without blanks and quotes, joined by spaces, split into themselves. |
| `SplitArgs.SplitsBackExactly` | redis-cluster/redis/redis-7.2.3/src/sds.c:1006-1105 | And only such words do. |
| `AclSelector.LogReadsBack` | redis-cluster/redis/redis-7.2.3/src/acl.c:755-757 | The log reads back as its rules if and only if no rule holds a blank or a quote. |
| `AclSelector.Selector.SetCommandBit` | redis-cluster/redis/redis-7.2.3/src/acl.c:536-545 | One bit changes; clearing it drops the all-commands flag; an id out of range changes nothing. |
| `AclSelector.Selector.AddAllowedFirstArg` | redis-cluster/redis/redis-7.2.3/src/acl.c:918-944 | The argument is added, compared without case. |
| `AclSelector.Selector.SetSubcommandBits` | redis-cluster/redis/redis-7.2.3/src/acl.c:612-620 | The bits of all subcommands change, in any order. |
| `AclSelector.Selector.ChangeSelectorPerm` | redis-cluster/redis/redis-7.2.3/src/acl.c:608-621 | A command's bit and its subcommands' bits change and its first arguments go. |
| `AclSelector.Selector.ChangeEach` | redis-cluster/redis/redis-7.2.3/src/acl.c:629-642 | The same for several commands, in any order. |
| `AclSelector.Selector.SetBitsForCategory` | redis-cluster/redis/redis-7.2.3/src/acl.c:629-642 | Every command and subcommand of the category changes, in any order. |
| `AclSelector.Selector.UpdateCommandRules` | redis-cluster/redis/redis-7.2.3/src/acl.c:596-604 | The text is that of the deletion with the rule last, and spells the compacted log as long as no rule holds a blank or a quote. |
| `AclSelector.Selector.ApplyCommand` | redis-cluster/redis/redis-7.2.3/src/acl.c:1098-1105 | A command rule has its effect and is logged. |
| `AclSelector.Selector.ApplyCategory` | redis-cluster/redis/redis-7.2.3/src/acl.c:682-691 | A category rule has its effect and is logged. |
| `AclSelector.Selector.ApplyFirstArg` | redis-cluster/redis/redis-7.2.3/src/acl.c:1147-1158 | A first-argument rule has its effect and is logged. |
| `AclSelector.Selector.SetAllCommands` | redis-cluster/redis/redis-7.2.3/src/acl.c:1027-1040 | All bits set or cleared, log and first arguments emptied. |
| `AclSelector.Selector.Dispatch` | redis-cluster/redis/redis-7.2.3/src/acl.c:1097-1174 | Every operation takes the branch its text asks for, with the same errors; the words for all and for no commands, in any case, set or clear everything; refused ones change nothing. |
| `AclSelector.Selector.SetSelector` | redis-cluster/redis/redis-7.2.3/src/acl.c:1010-1174 | Every operation keeps bitmap, first arguments and log in agreement. After allcommands or +@all every bit is set, after nocommands or -@all none, and both leave no first arguments and an empty log. The text follows exactly, and spells the log as long as no rule holds a blank or a quote. |
| `AclSelector.Selector.Load` | redis-cluster/redis/redis-7.2.3/src/acl.c:746-762 | Applying words in order gives what they rebuild, or stops at the first one refused. |
| `AclSelector.Selector.Recompute` | redis-cluster/redis/redis-7.2.3/src/acl.c:647-680 | It fails an assertion if and only if the text does not split or a word is refused, else it rebuilds what the words say; a text that spells its log changes nothing and fails nothing. |
| `AclSelector.Selector.Describe` | redis-cluster/redis/redis-7.2.3/src/acl.c:733-786 | It panics if and only if the text does not split, a word is refused, or the rebuilt bitmap differs; never while the text spells a log without blanks and quotes. |
| `AclSelector.RebuiltLog` | redis-cluster/redis/redis-7.2.3/src/acl.c:746-762 | The words of a compacted log rebuild the selector they came from, log included. |
| `AclSelector.PlainIsDescribable` | redis-cluster/redis/redis-7.2.3/src/acl.c:771-783 | A log without blanks and quotes always passes the checks of the description. |
| `AclExamples.BlankPanics` | redis-cluster/redis/redis-7.2.3/src/acl.c:1147-1158 | A first argument with a blank is accepted and logged, and then makes the description panic. |
| `AclExamples.BlankChanges` | redis-cluster/redis/redis-7.2.3/src/acl.c:755-762 | Another one passes the checks, but the words describe a different first argument. |
| `AclExamples.BlankReadsOther` | redis-cluster/redis/redis-7.2.3/src/acl.c:755-757 | Such a log splits into other words than its rules. |
| `Popcount.CountedWord` | redis-cluster/redis/redis-7.2.3/src/bitops.c:66-86 | The three masked steps turn each byte of a word into its bit count. |
| `Popcount.SwarIsCounted` | redis-cluster/redis/redis-7.2.3/src/bitops.c:66-86 | In 32-bit arithmetic nothing wraps around. |
| `Popcount.BlockOnes` | redis-cluster/redis/redis-7.2.3/src/bitops.c:80-86 | Seven words sum to at most 224, so the product's top byte is the bit count of 28 bytes. |
| `Popcount.RedisPopcount` | redis-cluster/redis/redis-7.2.3/src/bitops.c:40-92 | For every length and alignment the result is the number of set bits. |
| `Bitcount.MaskValues` | redis-cluster/redis/redis-7.2.3/src/bitops.c:838-845 | The edge masks are the numbers the program computes. |
| `Bitcount.CountBytes` | redis-cluster/redis/redis-7.2.3/src/bitops.c:861-872 | Subtracting the masked edges leaves exactly the bits of the range. |
| `Bitcount.Bitcount` | redis-cluster/redis/redis-7.2.3/src/bitops.c:796-874 | BITCOUNT is the number of set bits whose byte or bit index lies between the two given ones, negative ones counted from the end; two negative indexes out of order count nothing. |
| `Bitcount.Clip` | redis-cluster/redis/redis-7.2.3/src/bitops.c:830-837 | An index is between the clipped bounds exactly if it is between the given ones. |
| `Bitcount.LastUnits` | redis-cluster/redis/redis-7.2.3/src/bitops.c:833-834 | From -k to -1 are exactly the last k bytes or bits. |
| `Bitcount.UnitsBetween` | redis-cluster/redis/redis-7.2.3/src/bitops.c:796-874 | From m to n are exactly the bytes or bits m to n. |
| `Bitcount.UnitsFromEnd` | redis-cluster/redis/redis-7.2.3/src/bitops.c:833-834 | From -k to -j are exactly the bytes or bits from the k-th to the j-th last. |
| `Bitcount.EveryUnit` | redis-cluster/redis/redis-7.2.3/src/bitops.c:835-837 | Without a range, or with one past both ends, every bit counts. |
| `Bitcount.OutOfOrder` | redis-cluster/redis/redis-7.2.3/src/bitops.c:819-823 | Indexes of one sign out of order count nothing. |
| `Bitpos.LoadWord` | redis-cluster/redis/redis-7.2.3/src/bitops.c:151-159 | The word holds the next 64 bits, zeros past the end. |
| `Bitpos.ScanWord` | redis-cluster/redis/redis-7.2.3/src/bitops.c:166-186 | The last word settles the search; the panic is not reached. |
| `Bitpos.RedisBitpos` | redis-cluster/redis/redis-7.2.3/src/bitops.c:101-186 | For every alignment the result is the least matching index; past the string all bits are zero; -1 if a one is sought in vain. |
| `Bitpos.SearchRange` | redis-cluster/redis/redis-7.2.3/src/bitops.c:958-1001 | Within masked edges the result is the least matching index of the range, -1, or for zeros without an end the first position past it. |
| `Bitpos.BitposCommand` | redis-cluster/redis/redis-7.2.3/src/bitops.c:877-1003 | BITPOS is the least matching bit whose byte or bit index lies between the given ones, negative ones counted from the end; -1, or for zeros without an end the first position past the string, if there is none; a missing key has its fixed answers. |
| `Bitpos.SearchesBetween` | redis-cluster/redis/redis-7.2.3/src/bitops.c:930-935 | Two indexes from the start, or the same two from the end, search exactly the bytes or bits from the one to the other. |
| `Bitpos.SearchesFrom` | redis-cluster/redis/redis-7.2.3/src/bitops.c:924-927 | An index alone searches from that byte to the end, without one from the first. |
| `Bitop.FoldBits` | redis-cluster/redis/redis-7.2.3/src/bitops.c:747-770 | Each bit of the fold is the conjunction, disjunction, parity or negation of the inputs' bits. |
| `Bitop.SettledStays` | redis-cluster/redis/redis-7.2.3/src/bitops.c:753-767 | Once a byte is settled the remaining inputs do not change it, so skipping them is right. |
| `Bitop.Lengths` | redis-cluster/redis/redis-7.2.3/src/bitops.c:643-670 | The greatest and the least length of the inputs. |
| `Bitop.FastBlock` | redis-cluster/redis/redis-7.2.3/src/bitops.c:685-743 | Four words of every input at a time give the fold of their 32 bytes. |
| `Bitop.SlowByte` | redis-cluster/redis/redis-7.2.3/src/bitops.c:748-769 | One byte with early exit is the fold over the zero-padded inputs. |
| `Bitop.BitopCommand` | redis-cluster/redis/redis-7.2.3/src/bitops.c:607-771 | Word path, byte tail and early exit together are the per-byte fold over zero-padded inputs. |
| `Bitfield.SetUnsignedBitfield` | redis-cluster/redis/redis-7.2.3/src/bitops.c:209-222 | The field's bits become the value's binary digits and no other bit changes. |
| `Bitfield.GetUnsignedBitfield` | redis-cluster/redis/redis-7.2.3/src/bitops.c:229-241 | The value is the number the field's bits spell. |
| `Bitfield.WriteRead` | redis-cluster/redis/redis-7.2.3/src/bitops.c:209-241 | Reading what was written gives the value reduced to the width. |
| `BitfieldOps.UnsignedIncr` | redis-cluster/redis/redis-7.2.3/src/bitops.c:288-323 | Unsigned INCRBY stores the sum if it fits, else its residue, the clamp, or nothing. |
| `BitfieldOps.UnsignedSet` | redis-cluster/redis/redis-7.2.3/src/bitops.c:288-323 | Unsigned SET treats its argument as 64 unsigned bits; that is the policy's result if and only if it is not a negative value under SAT. |
| `BitfieldOps.UnsignedSetExample` | redis-cluster/redis/redis-7.2.3/src/bitops.c:288-302 | An 8-bit unsigned SET under SAT of -1 stores 255. |
| `BitfieldOps.SignedIncr` | redis-cluster/redis/redis-7.2.3/src/bitops.c:325-378 | Signed INCRBY stores the sum if it fits, else its residue, the clamp, or nothing, for all widths up to 64. |
| `BitfieldOps.SignedSet` | redis-cluster/redis/redis-7.2.3/src/bitops.c:325-378 | Signed SET gives the policy's result if and only if it is not SAT on a field under 64 bits with a value below 2^(bits-1) - 2^63. |
| `BitfieldOps.SignedSetExample` | redis-cluster/redis/redis-7.2.3/src/bitops.c:333-333 | An 8-bit SET under SAT of the least 64-bit number stores 127. |
| `BitfieldOps.GetSignedBitfield` | redis-cluster/redis/redis-7.2.3/src/bitops.c:243-263 | The sign bit is spread correctly for every width. |
| `BitfieldOps.OutcomeMeaning` | redis-cluster/redis/redis-7.2.3/src/bitops.c:1140-1216 | Whatever is stored is in the field's range, and INCRBY stores what the policy says of the sum. |
| `BitfieldOps.BitfieldGet` | redis-cluster/redis/redis-7.2.3/src/bitops.c:1217-1250 | GET through the nine-byte window equals reading the zero-extended bitmap. |
| `BitfieldOps.BitfieldWrite` | redis-cluster/redis/redis-7.2.3/src/bitops.c:1140-1216 | After SET or INCRBY the field reads as the stored value, the reply is as documented, no other bit changes, and FAIL changes nothing. |
| `BlockedIndex.ListedOnce` | redis-cluster/redis/redis-7.2.3/src/blocked.c:374-407 | A client is listed under a key if and only if the key is in its own table, and then once. |
| `BlockedIndex.AddedOk` | redis-cluster/redis/redis-7.2.3/src/blocked.c:374-407 | Adding a key keeps lists non-empty and in blocking order, both tables in agreement and the no-key counter exact. |
| `BlockedIndex.ReleasedOk` | redis-cluster/redis/redis-7.2.3/src/blocked.c:512-545 | Releasing a key keeps the same. |
| `BlockedClients.Database.AddKey` | redis-cluster/redis/redis-7.2.3/src/blocked.c:374-407 | One key: the client at the tail of its list, the key in the client's table, the counter raised if flagged. |
| `BlockedClients.Database.BlockForKeys` | redis-cluster/redis/redis-7.2.3/src/blocked.c:368-415 | Blocking lists the client once under each distinct key, after all others, and touches nobody else. |
| `BlockedClients.Database.ReleaseEntry` | redis-cluster/redis/redis-7.2.3/src/blocked.c:512-545 | The node is unlinked, empty lists go, the counter falls and goes at zero; both assertions hold. |
| `BlockedClients.Database.UnblockWaitingData` | redis-cluster/redis/redis-7.2.3/src/blocked.c:419-433 | Every key of the client is released, in any order, and nobody else is touched. |
| `BlockedClients.Database.UnblockClient` | redis-cluster/redis/redis-7.2.3/src/blocked.c:184-224 | A timeout or an error takes the client out of every list. |
| `BlockedClients.Database.UnblockOnKey` | redis-cluster/redis/redis-7.2.3/src/blocked.c:636-650 | So does a ready key. |
| `BlockedClients.Database.ServeClient` | redis-cluster/redis/redis-7.2.3/src/blocked.c:573-592 | A waiter stays, or leaves and perhaps comes back at the tail. |
| `BlockedClients.Database.HandleClientsBlockedOnKey` | redis-cluster/redis/redis-7.2.3/src/blocked.c:558-594 | One signal visits each waiter once, in order, even if clients block again meanwhile; those not ready keep their order in front. |
| `BioSafety.RunOk` | redis-cluster/redis/redis-7.2.3/src/bio.c:228-300 | Mutexes, queues, counters and histories agree in every state of every interleaving. |
| `BioSafety.CountersExact` | redis-cluster/redis/redis-7.2.3/src/bio.c:303-311 | With the mutex free each counter is the number of queued and running jobs of its kind, and every answer given was exact. |
| `BioSafety.DrainsFinish` | redis-cluster/redis/redis-7.2.3/src/bio.c:314-322 | A drain returns only after every job queued before it was called has been finished, in order. |
| `BioSafety.AskInFull` | redis-cluster/redis/redis-7.2.3/src/bio.c:303-311 | A question asked with the mutex free reports the counter and changes nothing else. |
| `BioSafety.DrainInFull` | redis-cluster/redis/redis-7.2.3/src/bio.c:314-322 | A drain returns at once if the queue is empty, else waits for the jobs it found. |
| `BioSafety.SubmitInFull` | redis-cluster/redis/redis-7.2.3/src/bio.c:152-160 | A submitted job is last in its worker's queue and counted. |
| `BioSafety.AskingAnswers` | redis-cluster/redis/redis-7.2.3/src/bio.c:303-311 | In every state of every run a question asked with the mutex free is answered by the exact number of jobs of its kind. |
| `BioSafety.PendingNeverFalls` | redis-cluster/redis/redis-7.2.3/src/bio.c:259-277 | With offsets that never decrease, and stores of the main thread made only when no job with a smaller offset is still to be stored, fsynced_reploff_pending never falls, under every interleaving and every fsync outcome. |
| `BioSafety.UnsafeStoreFalls` | redis-cluster/redis/redis-7.2.3/src/aof.c:1255-1257 | After any other store of the main thread some continuation makes it fall below that store. |
| `BioSafety.OvertakenExample` | redis-cluster/redis/redis-7.2.3/src/aof.c:834-837 | A close job queued by a rewrite and overtaken by the main thread's own fsync makes it fall from 7 to 5. |

## Left out

- Sockets, event loop, timers, logging and configuration: they only decide when steps happen.
- Gossip contents, failure detection, replica migration, manual failover pausing and CLUSTER RESET HARD: outside the epoch and slot rules.
- ClusterServer.Server.ProcessPing: whether the sender's slots demote this server is the parameter `demoted`; the decision itself is SlotOps.ClusterState.UpdateSlotsConfigWith, and in the protocol machine demotion is a free step.
- ClusterServer.Server.ProcessUpdate: the slots of an UPDATE are applied by SlotOps.ClusterState.UpdateSlotsConfigWith, not by this method.
- SlotOps.ClusterState.SetSlotBit: does not set the flag CLUSTER_NODE_MIGRATE_TO on a first slot, because the flag only steers replica migration.
- SlotOps.ClusterState.SetNodeAsMaster: leaves out the same flag, for the same reason.
- Crash durability of votes and configuration: it depends on the order of fsync and socket writes in the event loop.
- AofManifestText.ManifestReadsBack: a name with a zero byte is excluded, because no C string holds one.
- AofManifestText.LoadManifestFromFile: does not model zero bytes in the file, which end the C string that fgets fills.
- Switching the append-only file on or off while running, and RDB preambles: a BASE file is an abstract dataset.
- Key and channel patterns, passwords, users and ACL files: only the command rules of a selector.
- AclSelector.Selector.Recompute: whether a word about keys or channels is accepted is the parameter `other`, because it depends on their state.
- The table of bit counts per byte is taken as the count of a byte's bits.
- The argument parsing of the bitmap commands, and growing the string before a bitfield is written.
- Clients blocked by modules, replication or shutdown: they are not in the key index.
- Signals of the condition variables in the background workers: a waiting thread may wake at any time.
