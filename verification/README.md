# Redis 4.0.9: the protocols and the arithmetic

This project models the parts of Redis 4.0.9 and its cluster tool whose correctness is
not visible in any one function, and proves what they promise:

- the cluster bus: epochs, failover elections, the slot table, redirection of clients;
- the append only file: what is fed to it, flushes that fail half way, the background
  rewrite with its pipe to a child process, loading, and the offline checker;
- bit strings: BITFIELD, BITCOUNT, BITPOS and BITOP;
- the two checksums, the hash slot of a key and the footer of a DUMP payload;
- the resharding planner of `redis-trib.rb`.

`dafny verify dfyconfig.toml` checks everything.

## How it is laid out

| file | what it holds |
|---|---|
| `ClusterBus.dfy` | epochs and elections of all nodes as a step system over a lossy, reordering bus |
| `ElectionOutcome.dfy` | what packets teach a node, and what the winner of an election announces |
| `FailoverNode.dfy` | the handlers of one node as a class; each is a step of `ClusterBus` |
| `SlotTable.dfy` | the owner table, bitmaps, importing and migrating slots of one node, as objects |
| `NodeDescription.dfy` | slots printed as ranges and loaded back |
| `Routing.dfy` | `getNodeByQuery` and clients that follow redirections |
| `Resp.dfy` | the text of commands, and the C library reads used on it |
| `AofRecovery.dfy`, `AofLoader.dfy` | the offline checker and the loader on a file cut anywhere |
| `Keyspace.dfy`, `AofLog.dfy` | the dataset and what has expired in it; the log over whole runs with a clock, for any command set that obeys `Lawful` |
| `AofCommands.dfy`, `AofRewrite.dfy`, `AofServer.dfy` | the commands a rewrite prints and the real environment for `AofLog` |
| `AofExpire.dfy` | commands on databases that still hold expired entries |
| `AofFeed.dfy` | what is logged for a client command: relative times become absolute; the SET that stops the server |
| `AofTimes.dfy` | times and options spelled out command by command |
| `AofMalformed.dfy` | loader and checker on files that are damaged, not cut |
| `AofWriter.dfy`, `AofProcess.dfy` | rewrite buffer blocks and server fields as objects; each handler is a step of `AofLog` |
| `AofLateClock.dfy` | a key that expires between the fork and the child's reading of the clock |
| `AdList.dfy` | the doubly linked list by itself; the rewrite buffer keeps its blocks in a sequence, as the list should be read |
| `Bitfield.dfy`, `Popcount.dfy`, `Bitpos.dfy`, `Bitop.dfy` | bit arithmetic |
| `ByteBits.dfy`, `WordBits.dfy`, `WordOps.dfy` | the bytes, words and masks of the server, which obey the laws the bit arithmetic needs |
| `BitfieldMeaning.dfy`, `BitopMeaning.dfy` | BITFIELD and BITOP in terms of numbers and single bits |
| `CrcCheck.dfy` | the published check values of both checksums |
| `CrcTables.dfy`, `Crc.dfy`, `CrcBits.dfy`, `KeySlot.dfy`, `DumpPayload.dfy` | checksums and their users |
| `Reshard.dfy`, `Rebalance.dfy` | the reshard plan, and the rebalancing command |
| `Basics.dfy` | what several parts share |

Two conventions. A loop or a handler of the source is a method; what it computes is a
function or a predicate, and the theorems are about that. Where bit vectors or deep
recursion would get in the way of a proof, the operation is a function valued parameter
with its laws in a predicate (`Lawful`, `Laws`, `Streams`), and a later lemma shows that
the server's own operations keep the laws.

## Findings

- Two slaves can be elected for the same epoch if an ack of an earlier election arrives
  after the counter was reset and before the next request raises the election epoch
  (`ClusterBus.WindowBreaksElectionSafety` is such a run). Without a delivery in that
  window at most one is elected (`ClusterBus.ElectionSafety`).
- A slave that wins an election announces its epoch, but if it hears in between that its
  master has taken an epoch as great, it does not outrank it
  (`ElectionOutcome.NewsOutranksWinner` is such a run from a cluster at rest). It outranks a
  node it knows if and only if that node's epoch is below the election's or its own
  (`ElectionOutcome.WinnerOutranksIff`), and always when it has heard no such news since it
  asked for votes (`ElectionOutcome.WinnerOutranksMaster`).
- The child of a rewrite reads its clock after the fork (aof.c:1112), and leaves out what has
  expired by then. A key that expires in between, and that a command fed in between keeps
  alive, is missing from the new log although the server holds it
  (`AofLateClock.LateClockLosesKey` is such a run, with a PEXPIRE). For commands on
  different keys, the new log shows what the server shows if and only if none of them is one
  that revives a key that was left out (`AofLateClock.ManyCommandsExact`). When nothing was
  fed, or nothing in the snapshot expired, before the child reads its clock, the log is right
  on every run (`AofLog.LogReplaysToDataset`).
- `SET k v EX px EX 10` is accepted and carried out, and stops the server at the assertion
  of aof.c:591 when it is logged (`AofFeed.AcceptedSetStops`). Of the SETs that the parser
  accepts it stops on exactly those in which an expire value, overridden by a later one, is
  the name of the other unit (`AofFeed.SetStopsIff`); every other command is logged with its
  meaning (`AofFeed.TranslationKeepsMeaning`).
- The loader and the offline checker keep the same length of a cut log if and only if the
  cut does not fall inside an open transaction (`AofLoader.LoaderAgreesWithChecker`; an
  instance is `AofLoader.CutBehindMulti`).
- A claim stops the process exactly when it takes the last slots of my master and leaves me
  one of my own, or when I am a slave without a master and it takes a free slot (`Stops` in
  `SlotTable.ClusterState.UpdateSlotsConfigWith`). The first happens to a slave that was given
  a slot by ADDSLOTS, which does not look at the role (`SlotTable.SlaveWithSlotStops`).
- The rounding correction of the planner makes progress if and only if some balance is
  negative (`Rebalance.Pass`). 22 equal masters, one with 760 slots and the others with 744,
  exceed the default threshold and have no negative balance
  (`Rebalance.CorrectionCanStall`, `Rebalance.StalledPass`).
- A reshard plan over `k` sources can fall short of the slots asked for, by at most `k - 2`
  (`Reshard.QuotasSuffice`); four sources of four slots asked for six plan five
  (`Reshard.PlanCanFallShort`).

## Model

| member | source | states |
|---|---|---|
| `ClusterBus.EpochsOrderedAlways` | tools/redis-4.0.9/src/cluster.c:1690-1701 | on every run, at every node and in every packet no configEpoch exceeds the currentEpoch beside it |
| `ClusterBus.MintedEpochIsFresh` | tools/redis-4.0.9/src/cluster.c:1012-1029 | after any run an epoch taken by bump, takeover or collision, or opened for an election, exceeds every configEpoch the node knows and every epoch it voted in |
| `ClusterBus.VoteIsNew` | tools/redis-4.0.9/src/cluster.c:2630-2731 | a granted vote is at an epoch in which the master has not voted |
| `ClusterBus.CountedAckIsCurrent` | tools/redis-4.0.9/src/cluster.c:2033-2045 | outside the window every countable ack is a vote cast for this slave at exactly its election epoch and not counted before |
| `ClusterBus.ElectionInvAlways` | tools/redis-4.0.9/src/cluster.c:2940-3037 | on every run without an ack in the window the vote counters, votes in flight and wins stay sound, and votes are never changed |
| `ClusterBus.ElectionSafety` | tools/redis-4.0.9/src/cluster.c:2940-3037 | on those runs no two different slaves are elected for the same epoch |
| `ClusterBus.WinsOnOldAcks` | tools/redis-4.0.9/src/cluster.c:2940-3010 | a run in which a slave wins an epoch on acks of the epoch before |
| `ClusterBus.WindowBreaksElectionSafety` | tools/redis-4.0.9/src/cluster.c:2940-3010 | from a cluster at rest, a run that elects two slaves for one epoch when an ack lands in the window |
| `ElectionOutcome.HeaderIsKnown` | tools/redis-4.0.9/src/cluster.c:1690-1701 | after a packet from a known node its epochs are known, and no epoch goes back |
| `ElectionOutcome.UpdateIsKnown` | tools/redis-4.0.9/src/cluster.c:2058-2079 | an UPDATE raises a known node's epoch to the one it carries and never lowers it |
| `ElectionOutcome.QuorumIsMajority` | tools/redis-4.0.9/src/cluster.c:2873-2873 | the quorum is the least majority |
| `ElectionOutcome.AnnouncedIs` | tools/redis-4.0.9/src/cluster.c:2233-2274 | a slave announces its master's epoch, a master its own |
| `ElectionOutcome.WinnerTakesEpoch` | tools/redis-4.0.9/src/cluster.c:3019-3031 | the winner becomes a master that announces the epoch of its election, or its own if that is greater; nothing else changes |
| `ElectionOutcome.WinnerOutranksIff` | tools/redis-4.0.9/src/cluster.c:3019-3031 | it outranks a node it knows iff that node's epoch is below the election's or its own |
| `ElectionOutcome.WinnerOutranksMaster` | tools/redis-4.0.9/src/cluster.c:3005-3031 | wherever a run has led: a slave that wins before it hears that its master has an epoch as great announces a greater one than its master's |
| `ElectionOutcome.NewsOutranksWinner` | tools/redis-4.0.9/src/cluster.c:3005-3031 | a run from rest in which the master takes the same epoch first, and the winner does not outrank it |
| `FailoverNode.Node.ProcessHeader` | tools/redis-4.0.9/src/cluster.c:1687-1701 | each of the header's two epochs raises ours exactly when it is greater |
| `FailoverNode.Node.SendFailoverAuthIfNeeded` | tools/redis-4.0.9/src/cluster.c:2630-2731 | exactly when a vote is granted, and that granting it records the epoch and the time |
| `FailoverNode.Node.ProcessAck` | tools/redis-4.0.9/src/cluster.c:2033-2045 | exactly which acks are counted |
| `FailoverNode.Node.GetMaxEpoch` | tools/redis-4.0.9/src/cluster.c:968-981 | the greatest epoch known |
| `FailoverNode.Node.BumpConfigEpochWithoutConsensus` | tools/redis-4.0.9/src/cluster.c:1012-1029 | a new epoch unless ours is already the greatest, and whether one was taken |
| `FailoverNode.Node.HandleConfigEpochCollision` | tools/redis-4.0.9/src/cluster.c:1077-1092 | of two masters with one epoch exactly the one with the smaller name moves on |
| `FailoverNode.Node.HandleSlaveFailover` | tools/redis-4.0.9/src/cluster.c:2870-3037 | exactly when an election is scheduled, opened or won, and every field after it; the winner's configEpoch is raised to the election's |
| `FailoverNode.Node.EligibleIs` | tools/redis-4.0.9/src/cluster.c:2895-2951 | who may fail over: a slave of a master with slots that has failed, or a manual failover |
| `FailoverNode.DataTooOldIs` | tools/redis-4.0.9/src/cluster.c:2924-2942 | when the data is too old, in terms of its age |
| `FailoverNode.AuthTimeoutIs` | tools/redis-4.0.9/src/cluster.c:2880-2888 | an election is on for twice the node timeout, two seconds at least |
| `FailoverNode.Node.StartTimeIs` | tools/redis-4.0.9/src/cluster.c:2971-2990 | a slave that fell in rank waits a second longer for each rank |
| `SlotTable.ClusterState.constructor` | tools/redis-4.0.9/src/cluster.c:428-470 | an empty, coherent table |
| `SlotTable.ClusterState.AddSlot` | tools/redis-4.0.9/src/cluster.c:3622-3627 | a free slot gets the owner, a bound one does not; table, bitmaps and counters stay coherent, also when the slot is importing |
| `SlotTable.ClusterState.DelSlot` | tools/redis-4.0.9/src/cluster.c:3632-3639 | the slot is freed, coherence stays, and the owner's bit was set, so the assertion never fires |
| `SlotTable.ClusterState.DelNodeSlots` | tools/redis-4.0.9/src/cluster.c:3643-3653 | exactly the node's slots are freed and counted |
| `SlotTable.ClusterState.CloseAllSlots` | tools/redis-4.0.9/src/cluster.c:3657-3662 | nothing is importing or migrating |
| `SlotTable.ClusterState.DelNode` | tools/redis-4.0.9/src/cluster.c:905-932 | after it no table and no node refers to the deleted node, and everything else is as before |
| `SlotTable.ClusterState.FreeNode` | tools/redis-4.0.9/src/cluster.c:861-883 | its slaves lose their master and it leaves the node set |
| `SlotTable.ClusterState.SetNodeAsMaster` | tools/redis-4.0.9/src/cluster.c:1503-1518 | the node is a master without a master |
| `SlotTable.ClusterState.SetMaster` | tools/redis-4.0.9/src/cluster.c:3844-3862 | under its two assertions I replicate the node, and a former master has no open slot |
| `SlotTable.ClusterState.RebindClaimed` | tools/redis-4.0.9/src/cluster.c:1551-1594 | exactly the claimed slots that are free or under a smaller epoch and not importing move to the sender; which were mine with keys; whether my master lost one |
| `SlotTable.ClusterState.RebindsIs` | tools/redis-4.0.9/src/cluster.c:1551-1594 | which slots a claim moves |
| `SlotTable.ClusterState.DemotesIs` | tools/redis-4.0.9/src/cluster.c:1596-1604 | a claim of all slots of my master, or of all of mine, demotes me |
| `SlotTable.ClusterState.UpdateSlotsConfigWith` | tools/redis-4.0.9/src/cluster.c:1530-1618 | the same slots move and coherence stays; the process survives iff the claim is none that `Stops` it; I become the sender's replica iff it takes the last slots of my master; exactly the slots that were mine with keys are purged, unless I was demoted |
| `SlotTable.ClusterState.CheckSlotArgs` | tools/redis-4.0.9/src/cluster.c:4169-4191 | the arguments are accepted iff all are slots in the needed state, each named once |
| `SlotTable.ClusterState.AddDelSlots` | tools/redis-4.0.9/src/cluster.c:4159-4208 | all named slots are bound or freed, or none is; importing is cleared for them |
| `SlotTable.ClusterState.FlushSlots` | tools/redis-4.0.9/src/cluster.c:4150-4158 | my slots are freed if the database is empty |
| `SlotTable.ClusterState.SetSlotMigrating` | tools/redis-4.0.9/src/cluster.c:4224-4234 | accepted iff I own the slot and know the node; only that entry changes |
| `SlotTable.ClusterState.SetSlotImporting` | tools/redis-4.0.9/src/cluster.c:4235-4246 | accepted iff I do not own the slot and know the node |
| `SlotTable.ClusterState.SetSlotStable` | tools/redis-4.0.9/src/cluster.c:4247-4250 | both states of the slot are cleared |
| `SlotTable.ClusterState.GetMaxEpoch` | tools/redis-4.0.9/src/cluster.c:968-981 | the greatest epoch known |
| `SlotTable.ClusterState.SetSlotNode` | tools/redis-4.0.9/src/cluster.c:4251-4299 | when it is accepted, who owns the slot then, which states it clears, and that taking over an imported slot bumps my epoch to a new one iff some known epoch is greater or mine is zero |
| `SlotTable.ClusterState.FailoverReplaceYourMaster` | tools/redis-4.0.9/src/cluster.c:2832-2849 | I am a master with exactly my old master's slots added, and it has none |
| `SlotTable.ClusterState.SenderTurnedSlave` | tools/redis-4.0.9/src/cluster.c:1880-1905 | a master that became a slave owns no slot |
| `SlotTable.ClusterState.VerifyConfigWithData` | tools/redis-4.0.9/src/cluster.c:3794-3834 | a slot that holds keys and is neither mine nor importing becomes mine if it is free and is imported from its owner otherwise; nothing else changes |
| `SlotTable.ClusterState.UnclaimedIs` | tools/redis-4.0.9/src/cluster.c:3806-3812 | which slots with keys have no place in the tables |
| `SlotTable.ClusterState.ProcessClaim` | tools/redis-4.0.9/src/cluster.c:1919-1931 | a PING raises the sender's epoch and does what its claim does: slots, survival, demotion and purge; the shortcut on equal bitmaps loses nothing |
| `SlotTable.ClusterState.ProcessClaims` | tools/redis-4.0.9/src/cluster.c:1530-1618 | from an empty table, any sequence of claims with repeats leaves free exactly the slots nobody claimed and binds every other slot to the claimant of greatest epoch |
| `SlotTable.SameClaimsSameOwner` | tools/redis-4.0.9/src/cluster.c:1530-1618 | two nodes that saw the same claims, in any order and number, agree on every owner |
| `SlotTable.SlaveWithSlotStops` | tools/redis-4.0.9/src/cluster.c:3844-3847 | from an empty table: ADDSLOTS on a slave, then a claim of all its master has, and the process stops |
| `NodeDescription.SlotRanges` | tools/redis-4.0.9/src/cluster.c:3929-3947 | ascending, disjoint, maximal ranges hold exactly the set bits, also when a run ends at the last slot |
| `NodeDescription.TokenIs` | tools/redis-4.0.9/src/cluster.c:3940-3945 | one slot is printed by itself, several as first, minus sign and last |
| `NodeDescription.RangeRoundTrip` | tools/redis-4.0.9/src/cluster.c:262-268 | a printed range parses back |
| `NodeDescription.GenSlots` | tools/redis-4.0.9/src/cluster.c:3901-3947 | the slots of a line describe the node's bitmap |
| `NodeDescription.LoadRange` | tools/redis-4.0.9/src/cluster.c:267-271 | a range is refused iff an end is not a slot; its free slots are bound |
| `NodeDescription.LoadSlots` | tools/redis-4.0.9/src/cluster.c:233-271 | the printed slots are bound to the node, nothing else changes |
| `NodeDescription.LoadNodes` | tools/redis-4.0.9/src/cluster.c:233-271 | loading all saved lines rebuilds every bitmap and a coherent owner table |
| `Routing.GetNodeByQuery` | tools/redis-4.0.9/src/cluster.c:5285-5447 | for every view and request: exactly when each reply is given, and to which node a redirection leads |
| `Routing.RoutedKeysShareSlot` | tools/redis-4.0.9/src/cluster.c:5350-5368 | a request that is served or redirected has all keys in one slot |
| `Routing.OpenSlotServesWhatItHolds` | tools/redis-4.0.9/src/cluster.c:5402-5424 | while a slot is open a request runs only where all its keys are |
| `Routing.ServedOnce` | tools/redis-4.0.9/src/cluster.c:5285-5447 | where a request ends is determined |
| `Routing.MigrationServesOnce` | tools/redis-4.0.9/src/cluster.c:5390-5447 | from any master a one key request is served after at most two redirections, by the old owner if it has the key and else by the new one under ASKING, and by nobody else; a command with the asking flag sent to the new one is served there |
| `Resp.ParsePrintInt` | tools/redis-4.0.9/src/aof.c:498-508 | a printed number reads back |
| `Resp.CatGenericCommand` | tools/redis-4.0.9/src/aof.c:493-516 | the printed command is appended to the buffer |
| `AofRecovery.MoveMulti` | tools/redis/redis-check-aof.c:119-129 | a MULTI is accepted outside a transaction, an EXEC inside one, and the count moves by one |
| `AofRecovery.CheckArguments` | tools/redis/redis-check-aof.c:112-131 | the argument loop reads a command and moves the transaction count |
| `AofRecovery.Process` | tools/redis/redis-check-aof.c:100-142 | the loop returns the position the reading defines |
| `AofRecovery.WholeLenIsLongest` | tools/redis/redis-check-aof.c:100-142 | the length of the whole units within a cut is the longest such prefix |
| `AofRecovery.CheckerKeepsWholeUnits` | tools/redis/redis-check-aof.c:43-142 | for every log and every cut the checker returns the length of the longest prefix of whole commands and whole transactions |
| `AofLoader.LoadArguments` | tools/redis-4.0.9/src/aof.c:740-771 | the argument loop of the loader |
| `AofLoader.LoadLoop` | tools/redis-4.0.9/src/aof.c:725-798 | the command loop runs what the reading defines and stops where it says |
| `AofLoader.LoadAppendOnlyFile` | tools/redis-4.0.9/src/aof.c:673-852 | what is run, and the length kept or the exit |
| `AofLoader.LoaderRunsWholeCommands` | tools/redis-4.0.9/src/aof.c:725-842 | on a log cut anywhere the loader runs exactly the whole commands and, outside a transaction or not, where it cuts |
| `AofLoader.WholeLogLoads` | tools/redis-4.0.9/src/aof.c:725-806 | an uncut log without transactions parses back to the printed commands |
| `AofLoader.LoaderAgreesWithChecker` | tools/redis-4.0.9/src/aof.c:797-842 | loader and checker keep the same length of a cut file iff the cut is not inside an open transaction |
| `AofLoader.CutBehindMulti` | tools/redis-4.0.9/src/aof.c:797-797 | a file cut behind a MULTI: the loader keeps the MULTI, the checker nothing |
| `AofMalformed.DamageIsFatal` | tools/redis-4.0.9/src/aof.c:725-770 | commands before the damage are run, and then the server exits |
| `AofMalformed.LineIs` | tools/redis-4.0.9/src/aof.c:734-734 | a line is read up to its end, 127 bytes at most |
| `AofMalformed.BadCount` | tools/redis-4.0.9/src/aof.c:737-740 | a command with a count below one is damaged |
| `AofMalformed.BadArgument` | tools/redis-4.0.9/src/aof.c:752-753 | so is an argument that does not begin with a length |
| `AofMalformed.ShortArgument` | tools/redis-4.0.9/src/aof.c:754-770 | an argument that is not there in full is a short read |
| `AofMalformed.StrtolIs` | tools/redis-4.0.9/src/aof.c:739-753 | what strtol takes of a line |
| `AofMalformed.MultiIs` | tools/redis-4.0.9/src/multi.c:86-102 | MULTI opens a transaction for the loader, EXEC and DISCARD close it |
| `AofMalformed.SecondMulti` | tools/redis/redis-check-aof.c:119-129 | nothing from an open MULTI on counts once a second follows |
| `AofMalformed.LoneExec` | tools/redis/redis-check-aof.c:119-129 | the checker stops at an EXEC without MULTI |
| `AofLog.FlushMoves` | tools/redis-4.0.9/src/aof.c:397-462 | every outcome of a flush: what goes from the buffer to the file, that both together stay the same, and the recorded size |
| `AofLog.FeedTwice` | tools/redis-4.0.9/src/aof.c:555-619 | two feeds for one database print what one feed of all commands prints |
| `AofLog.SwitchRebuilds` | tools/redis-4.0.9/src/aof.c:1481-1600 | the new file with the last blocks is a log of the current dataset |
| `AofLog.SwitchReplaces` | tools/redis-4.0.9/src/aof.c:1481-1600 | a switch makes the output and the last blocks the file, and empties the buffer |
| `AofLog.StepKeeps` | tools/redis-4.0.9/src/aof.c:228-282 | every step keeps the invariant of the log, if the child reads its clock in time |
| `AofLog.RunKeeps` | tools/redis-4.0.9/src/aof.c:228-282 | so does every run |
| `AofLog.LogReplaysToDataset` | tools/redis-4.0.9/src/aof.c:555-619 | through any interleaving of commands, flushes, rewrites, stops, starts and time passing in which every child reads its clock in time, when the log is on file and buffer are the text of a log that replays to the dataset, if not all of what has expired |
| `AofLog.FlushedFileIsLog` | tools/redis-4.0.9/src/aof.c:331-469 | after a full flush at any point of such a run the file by itself is the text of a log that replays to the dataset |
| `AofLog.DiffStreamConserved` | tools/redis-4.0.9/src/aof.c:1096-1106 | the bytes fed since the fork are the child's difference, the pipe and the blocks in order, and a finished child's output with the blocks is a dump followed by exactly them |
| `AofCommands.ChunksFill` | tools/redis-4.0.9/src/aof.c:875-1092 | executing the chunked commands fills the aggregate with all items, for every chunk size |
| `AofCommands.ChunkSizes` | tools/redis-4.0.9/src/aof.c:875-1092 | every command but the last has as many items as are allowed in one |
| `AofCommands.StreamItems` | tools/redis-4.0.9/src/aof.c:875-905 | the loop with its countdown announces in every header as many items as follow |
| `AofCommands.RewriteItems` | tools/redis-4.0.9/src/aof.c:875-1092 | the streamed text is the text of the chunked commands |
| `AofRewrite.Enumerate` | tools/redis-4.0.9/src/aof.c:909-1092 | in whatever order it is visited, filling an empty aggregate with what is streamed gives the value |
| `AofRewrite.EntryRebuilds` | tools/redis-4.0.9/src/aof.c:1135-1168 | executing what is printed for an entry puts the entry, with its expire time, into the database |
| `AofServer.ServerLawful` | tools/redis-4.0.9/src/aof.c:555-570 | SELECT, execution and printing obey the laws that the log invariant needs |
| `AofServer.SelectText` | tools/redis-4.0.9/src/aof.c:560-569 | SELECT 0 byte for byte |
| `AofServer.RewriteEntry` | tools/redis-4.0.9/src/aof.c:1135-1168 | the text of one entry, and what executing it does |
| `AofServer.RewriteDb` | tools/redis-4.0.9/src/aof.c:1124-1176 | the text printed for a database rebuilds what is live in it |
| `AofServer.RewriteAppendOnlyFileRio` | tools/redis-4.0.9/src/aof.c:1108-1183 | the printed file is a dump: the loader reads all of it, and from nothing it gives every database without its expired keys |
| `AofExpire.ExpiredOfExact` | tools/redis-4.0.9/src/db.c:1116-1151 | looking keys up deletes exactly those that have expired, each once |
| `Keyspace.ExpiresAfter` | tools/redis-4.0.9/src/db.c:1116-1151 | a key is there until its time has passed |
| `AofExpire.LiveKeysTolerate` | tools/redis-4.0.9/src/db.c:1116-1151 | commands that touch no expired entry do the same to a database that lacks some of the expired ones, but for those |
| `AofFeed.ScanFindsOptions` | tools/redis-4.0.9/src/aof.c:588-596 | on every SET the parser accepts, the scan finds its unit, with the value if it is a number, and the other unit iff an expire value spells it |
| `AofFeed.SetStopsIff` | tools/redis-4.0.9/src/aof.c:586-591 | of the accepted SETs the assertion fails on exactly those in which an overridden expire value is the name of the other unit |
| `AofFeed.AcceptedSetStops` | tools/redis-4.0.9/src/t_string.c:102-142 | SET key value EX px EX 10 is carried out and stops the server |
| `AofFeed.FeedCommands` | tools/redis-4.0.9/src/aof.c:573-607 | whether the server stops, and else the text fed is the text of the translated command |
| `AofFeed.TranslationKeepsMeaning` | tools/redis-4.0.9/src/aof.c:525-607 | logging a command stops the server iff it is such a SET; otherwise executing what is logged, with a DEL for every key it found expired, does to the database what the command did |
| `AofFeed.LoggedTolerates` | tools/redis-4.0.9/src/aof.c:525-607 | what is logged for a command does the same to a database that lacks some expired entries |
| `AofTimes.ExpireIsLogged` | tools/redis-4.0.9/src/aof.c:525-551 | EXPIRE is logged as the time now and a thousand times its argument, PEXPIRE as now and its argument, EXPIREAT as a thousand times it, PEXPIREAT as it is |
| `AofTimes.SetExIsLogged` | tools/redis-4.0.9/src/aof.c:576-584 | SETEX and PSETEX are logged as a SET and the time |
| `AofTimes.SetIsLogged` | tools/redis-4.0.9/src/aof.c:585-600 | SET is logged without its options and with the time of its unit |
| `AofTimes.ExpireTenSeconds` | tools/redis-4.0.9/src/aof.c:525-551 | EXPIRE k 10 at time 1000000 is logged as PEXPIREAT k 1010000 |
| `AofTimes.ExpireLeaves` | tools/redis-4.0.9/src/expire.c:405-450 | the key has that time in milliseconds, or is gone when it has come |
| `AofTimes.ExpireRefused` | tools/redis-4.0.9/src/expire.c:405-419 | without the key or a number nothing happens and nothing is logged |
| `AofTimes.SetExLeaves` | tools/redis-4.0.9/src/t_string.c:66-95 | a positive time is taken, any other refused |
| `AofTimes.SetLeaves` | tools/redis-4.0.9/src/t_string.c:66-142 | when SET is refused, and what it leaves otherwise |
| `AofTimes.OneOption` | tools/redis-4.0.9/src/t_string.c:102-142 | what each option by itself means |
| `AofTimes.NotBoth` | tools/redis-4.0.9/src/t_string.c:102-142 | NX and XX exclude each other |
| `AofTimes.NotBothUnits` | tools/redis-4.0.9/src/t_string.c:102-142 | so do EX and PX as options |
| `AofTimes.NamesAndCases` | tools/redis-4.0.9/src/aof.c:586-590 | letters count the same in either case, and an option ends at a zero byte |
| `AofWriter.Block.Fill` | tools/redis-4.0.9/src/aof.c:132-141 | as much as fits goes behind the used part, used and free still make the block size |
| `AofWriter.Block.Shift` | tools/redis-4.0.9/src/aof.c:115-117 | the unsent part moves to the front, used and free still make the block size |
| `AofWriter.RewriteBuffer.Append` | tools/redis-4.0.9/src/aof.c:125-170 | the bytes are added at the end of the buffer, across blocks |
| `AofWriter.RewriteBuffer.ChildWriteDiffData` | tools/redis-4.0.9/src/aof.c:95-121 | whatever each write takes, what was sent followed by what is left is the buffer; nothing is sent after the stop |
| `AofWriter.RewriteBuffer.Size` | tools/redis-4.0.9/src/aof.c:79-90 | the number of bytes in the buffer |
| `AofWriter.RewriteBuffer.Write` | tools/redis-4.0.9/src/aof.c:174-194 | it succeeds iff every block is written in full, and then the whole buffer was written |
| `AofProcess.Server.FeedAppendOnlyFile` | tools/redis-4.0.9/src/aof.c:555-619 | when the server stops, and else the text that goes to the buffer and to the child, with a SELECT iff the database changes; the fields change as the feed step of the log |
| `AofProcess.Server.FlushAppendOnlyFile` | tools/redis-4.0.9/src/aof.c:331-462 | file, buffer and size after every outcome of the writes, and when the process exits; the fields change as the flush step |
| `AofProcess.Server.TruncateIs` | tools/redis-4.0.9/src/aof.c:411-426 | a file that is cut keeps a start of it |
| `AofProcess.Server.BackgroundRewriteDone` | tools/redis-4.0.9/src/aof.c:1481-1612 | when the new file takes over, what is in it and every field then; the fields change as the reap step, and the buffer is new |
| `AofProcess.Server.Forked` | tools/redis-4.0.9/src/aof.c:1410-1436 | the fields change as the fork step |
| `AofProcess.Server.ChildPipeReadable` | tools/redis-4.0.9/src/aof.c:1297-1318 | the fields change as the ack step |
| `AofProcess.Server.SendDiff` | tools/redis-4.0.9/src/aof.c:95-121 | the fields change as a transfer from blocks to pipe |
| `AofProcess.ClientCommandStep` | tools/redis-4.0.9/src/aof.c:555-619 | what is logged for any client command that does not stop the server is an enabled step, and the step does to the dataset what the command did |
| `AofProcess.ExpiryStep` | tools/redis-4.0.9/src/db.c:1081-1095 | the DEL of an expired key is an enabled step at any time |
| `AofProcess.PrintedDumpFinishes` | tools/redis-4.0.9/src/aof.c:1108-1270 | what the child prints for its snapshot at the time it read is a dump with which it can finish |
| `AofProcess.LoadRebuildsDataset` | tools/redis-4.0.9/src/aof.c:673-806 | at any point of such a run with the log on, loading file and buffer reads every command, and from then on shows a client what the server's dataset shows |
| `AofProcess.FlushedFileRebuildsDataset` | tools/redis-4.0.9/src/aof.c:331-469 | loading the file after a full flush rebuilds the dataset |
| `AofLateClock.OneCommandExact` | tools/redis-4.0.9/src/aof.c:1112-1133 | a dump without what had expired at the child's clock, followed by one command, shows what the server shows iff the command does not revive a key that was left out |
| `AofLateClock.ManyCommandsExact` | tools/redis-4.0.9/src/aof.c:1112-1133 | the same for any number of commands on different keys |
| `AofLateClock.LateClockLosesKey` | tools/redis-4.0.9/src/aof.c:1112-1133 | a run from a fresh server after which it holds a key with time left, and its log loads to a database without it |
| `AdList.List.AddNodeHead` | tools/redis-4.0.9/src/adlist.c:88-106 | the value is first, links and length stay right |
| `AdList.List.AddNodeTail` | tools/redis-4.0.9/src/adlist.c:114-132 | the value is last |
| `AdList.List.DelNode` | tools/redis-4.0.9/src/adlist.c:167-180 | exactly that node goes, the others keep their order |
| `AdList.List.Rotate` | tools/redis-4.0.9/src/adlist.c:330-343 | the last node becomes the first |
| `AdList.List.Join` | tools/redis-4.0.9/src/adlist.c:347-362 | the other list's nodes follow, and it is empty; also when either was empty |
| `AdList.List.Index` | tools/redis-4.0.9/src/adlist.c:315-327 | the node at the index, counted from the tail when negative, or none |
| `Bitfield.ReadPut` | tools/redis-4.0.9/src/bitops.c:209-240 | what was written to a field is read back modulo 2^bits |
| `Bitfield.SignedRoundTrip` | tools/redis-4.0.9/src/bitops.c:223-263 | a signed number in range survives being written and read |
| `Bitfield.CheckUnsigned` | tools/redis-4.0.9/src/bitops.c:288-325 | overflow is reported iff the sum leaves the range, and the limit is what the policy stores |
| `Bitfield.CheckSigned` | tools/redis-4.0.9/src/bitops.c:327-373 | the same for signed fields, wrapping to the two's complement reading |
| `Bitfield.SetUnsigned` | tools/redis-4.0.9/src/bitops.c:209-221 | the field holds the digits of the value and every bit outside it is unchanged |
| `Bitfield.GetUnsigned` | tools/redis-4.0.9/src/bitops.c:228-240 | the number in the bits |
| `Bitfield.GetSigned` | tools/redis-4.0.9/src/bitops.c:242-263 | its two's complement reading |
| `Bitfield.WrittenIsRead` | tools/redis-4.0.9/src/bitops.c:1008-1080 | after SET or INCRBY the field reads as what the policy makes of the wanted number |
| `Bitfield.OthersKeep` | tools/redis-4.0.9/src/bitops.c:1008-1080 | fields that do not meet the written one keep their numbers |
| `Bitfield.ExecuteWrite` | tools/redis-4.0.9/src/bitops.c:1008-1080 | reply and string after SET or INCRBY are those of the operation on an endless bit string |
| `Bitfield.ExecuteGet` | tools/redis-4.0.9/src/bitops.c:1081-1116 | reading through the nine byte copy equals reading the string padded with zeros for ever |
| `Bitfield.LastByte` | tools/redis-4.0.9/src/bitops.c:966-972 | no write reaches past the byte the string is grown to |
| `Bitfield.BitfieldCommand` | tools/redis-4.0.9/src/bitops.c:982-1116 | all replies and the final string are those of the operations, in order, on an endless bit string |
| `BitfieldMeaning.ReadDigits` | tools/redis-4.0.9/src/bitops.c:228-240 | the bits of a field are the binary digits of its number, the first the most significant |
| `BitfieldMeaning.BitIs` | tools/redis-4.0.9/src/bitops.c:209-221 | bit i is in byte i / 8, the most significant first, with zeros behind the string |
| `BitfieldMeaning.FieldIs` | tools/redis-4.0.9/src/bitops.c:242-263 | a signed field reads as its number, less 2^n from half of the range on |
| `BitfieldMeaning.WriteIs` | tools/redis-4.0.9/src/bitops.c:1008-1080 | what SET and INCRBY want, store and reply under each policy, and that no other bit changes |
| `BitfieldMeaning.GetIs` | tools/redis-4.0.9/src/bitops.c:1081-1116 | GET replies what the field reads as, and writes nothing |
| `BitfieldMeaning.OneMoreOperation` | tools/redis-4.0.9/src/bitops.c:1000-1116 | operations are carried out one after the other and replied to in order |
| `ByteBits.BytesLawful` | tools/redis-4.0.9/src/bitops.c:214-218 | the masks and shifts of a byte set one bit and keep the others |
| `ByteBits.TestIs` | tools/redis-4.0.9/src/bitops.c:214-238 | bit 0 of a byte is its most significant |
| `Popcount.TableCounts` | tools/redis-4.0.9/src/bitops.c:44-44 | every table entry is the number of set bits of its index |
| `Popcount.WordCounts` | tools/redis-4.0.9/src/bitops.c:68-89 | the three steps on a word leave the bit count of each byte in its place |
| `Popcount.TopByteCollects` | tools/redis-4.0.9/src/bitops.c:82-88 | with at most 224 counted no carry reaches the top byte, which then holds the sum |
| `Popcount.RedisPopcount` | tools/redis-4.0.9/src/bitops.c:40-93 | for every string and alignment the result is the number of set bits |
| `Bitpos.Skip` | tools/redis-4.0.9/src/bitops.c:121-147 | nothing before the stop is wanted, and the bit is within a word or less than a word is left |
| `Bitpos.ScanWord` | tools/redis-4.0.9/src/bitops.c:178-186 | the scan finds the first wanted bit and never runs off the word, so the panic is not reached |
| `Bitpos.RedisBitpos` | tools/redis-4.0.9/src/bitops.c:101-187 | the least index of the wanted bit, the length in bits for a clear bit in a string of ones, and -1 iff a set bit is wanted and there is none |
| `WordBits.MachineLawful` | tools/redis-4.0.9/src/bitops.c:149-186 | 64 bit words, their loading and the moving mask behave as the search needs |
| `Bitop.WordByBytes` | tools/redis-4.0.9/src/bitops.c:677-724 | an operation on a word is the operation on each of its bytes |
| `Bitop.FastPath` | tools/redis-4.0.9/src/bitops.c:666-728 | the blocks it handles equal the fold, byte by byte, over all keys |
| `Bitop.BitopCommand` | tools/redis-4.0.9/src/bitops.c:615-744 | for every operation, number of keys and lengths, missing keys included, the result is the fold over the zero padded strings |
| `BitopMeaning.BitopServer` | tools/redis-4.0.9/src/bitops.c:627-744 | a bit of the result is set iff all strings have it, some string has it, an odd number has it, or the only one has it not |
| `WordOps.ServerLawful` | tools/redis-4.0.9/src/bitops.c:677-724 | the bitwise operators on words and bytes obey the law the fast path needs |
| `CrcTables.Table16Bits` | tools/redis-4.0.9/src/crc16.c:47-80 | every entry of the CRC-16 table is the division of its index by x^16 + x^12 + x^5 + 1 |
| `CrcTables.Table64Bits` | tools/redis-4.0.9/src/crc64.c:42-171 | every entry of the CRC-64 table is the division of its index by the reflected Jones polynomial |
| `Crc.LookupDivides` | tools/redis-4.0.9/src/crc64.c:173-181 | one lookup does the work of eight division steps |
| `Crc.Checksum` | tools/redis-4.0.9/src/crc64.c:173-181 | the table driven loop equals division bit by bit |
| `Crc.OneByteDetected` | tools/redis-4.0.9/src/crc64.c:173-181 | changing one byte of a message changes a checksum whose step is injective |
| `CrcBits.Laws16` | tools/redis-4.0.9/src/crc16.c:82-88 | the register operations of crc16 obey the laws |
| `CrcBits.Laws64` | tools/redis-4.0.9/src/crc64.c:173-181 | those of crc64 do |
| `CrcBits.Reversible64` | tools/redis-4.0.9/src/crc64.c:173-181 | the crc64 step is injective in the register and in the byte |
| `CrcCheck.Check16` | tools/redis-4.0.9/src/crc16.c:45-45 | the CRC-16 of "123456789" is 31C3 |
| `CrcCheck.Check64` | tools/redis-4.0.9/src/crc64.c:11-11 | the CRC-64 of "123456789" is e9c6d914c4b8d9ca |
| `KeySlot.ServerCrc16` | tools/redis-4.0.9/src/crc16.c:82-88 | crc16 equals CRC-16/XMODEM by division |
| `KeySlot.ScanTag` | tools/redis-4.0.9/src/cluster.c:662-681 | the two loops find the hash tag |
| `KeySlot.HashTagIs` | tools/redis-4.0.9/src/cluster.c:662-681 | what is hashed: what stands between the first `{` and the first `}` after it, if anything does, and else the whole key |
| `KeySlot.KeyHashSlot` | tools/redis-4.0.9/src/cluster.c:662-681 | the slot is the low 14 bits of the CRC of the hash tag |
| `KeySlot.SlotIs` | tools/redis-4.0.9/src/cluster.c:662-681 | the slot is the CRC of what is hashed modulo 16384 |
| `KeySlot.SlotInRange` | tools/redis-4.0.9/src/cluster.c:662-681 | every slot is below 16384 |
| `KeySlot.ToolCrc16` | tools/redis/redis-trib.rb:1709-1716 | the tool's masked register holds the same CRC |
| `KeySlot.SearchTag` | tools/redis/redis-trib.rb:1758-1768 | the two searches find the same hash tag |
| `KeySlot.KeyToSlot` | tools/redis/redis-trib.rb:1756-1769 | for every key the tool computes the server's slot |
| `DumpPayload.CreateDumpPayload` | tools/redis-4.0.9/src/cluster.c:4661-4688 | the payload is the body, the version and the CRC of both |
| `DumpPayload.LittleIs` | tools/redis-4.0.9/src/cluster.c:4682-4686 | the lowest byte of the CRC comes first |
| `DumpPayload.VerifyDumpPayload` | tools/redis-4.0.9/src/cluster.c:4694-4711 | a payload is accepted iff it has ten bytes, a version of 8 or less, and the CRC of what precedes it |
| `DumpPayload.PayloadGuardsItself` | tools/redis-4.0.9/src/cluster.c:4661-4711 | a payload is accepted as built and refused after any change of one byte, wherever it is |
| `Rebalance.SharesWithin` | tools/redis/redis-trib.rb:1160-1165 | rounded down shares never exceed all slots |
| `Rebalance.ExpectedIs` | tools/redis/redis-trib.rb:1163-1164 | the expected count is the exact share rounded down |
| `Rebalance.OverIs` | tools/redis/redis-trib.rb:1166-1178 | when a node is over the threshold, without a division |
| `Rebalance.SumNotNegative` | tools/redis/redis-trib.rb:1160-1194 | with all slots covered the balances sum to zero or more |
| `Rebalance.Pass` | tools/redis/redis-trib.rb:1196-1201 | one pass makes progress iff some balance is negative |
| `Rebalance.StallsIs` | tools/redis/redis-trib.rb:1191-1202 | the correction stalls iff nobody has less than its share rounded down and somebody more than its share |
| `Rebalance.Correct` | tools/redis/redis-trib.rb:1191-1202 | the loop ends with sum zero; only gainers change |
| `Rebalance.CorrectionCanStall` | tools/redis/redis-trib.rb:1166-1202 | 22 masters that cover all slots and exceed the default threshold, with a positive sum and no negative balance |
| `Rebalance.StalledPass` | tools/redis/redis-trib.rb:1196-1201 | with no negative balance a pass changes nothing |
| `Reshard.QuotasSuffice` | tools/redis/redis-trib.rb:1002-1031 | with k sources the plan falls short by at most k - 2 slots, with one or two by none |
| `Reshard.PlanCanFallShort` | tools/redis/redis-trib.rb:1002-1031 | four sources of four slots asked for six plan five |
| `Reshard.ReshardTable` | tools/redis/redis-trib.rb:1002-1031 | the plan names each slot once, source by source, the lowest of each source first, as many as the quotas give and no more than asked |
| `Reshard.QuotaIs` | tools/redis/redis-trib.rb:1017-1026 | the first source's share is rounded up, the others' down |
| `Rebalance.TableOf` | tools/redis/redis-trib.rb:1002-1031 | one source gives its lowest slots, as many as asked while it has them |
| `Rebalance.MoveSlot` | tools/redis/redis-trib.rb:1092-1096 | one slot changes hands and the slots stay divided up |
| `Rebalance.Turn` | tools/redis/redis-trib.rb:1227-1256 | as many slots as both sides allow are moved; the table has that length, so its check never fails |
| `Rebalance.TwoIndexes` | tools/redis/redis-trib.rb:1219-1262 | the loop ends with every balance zero, no slot lost and none shared |
| `Rebalance.RebalanceCluster` | tools/redis/redis-trib.rb:1156-1262 | nothing moves iff no node is further from its share than the threshold; otherwise a node that had its share or more ends with exactly the share rounded down, one that had less ends with that or more, and the slots remain a partition |

## Left out

- Epochs are unbounded; the wrap-around of 64 bit epochs is not modelled.
- Nodes in handshake have random names and are never known senders, so they do not appear; failure flags, ranking delays and timeouts are inputs.
- CLUSTER RESET HARD sets epochs back and is excluded from the election runs; a voter that crashes and forgets its vote is excluded too.
- UPDATE packets take part in the epoch runs, but convergence of the slot table is stated over PING and PONG claims, because a header may already have raised the epoch an UPDATE carries.
- Slave lists of a master, failure reports and the flags that only guide replica migration are not modelled.
- `[slot->-node]` and `[slot-<-node]` entries and the other columns of a nodes line are not modelled.
- ClusterBus.ElectionSafety: takes the set of voting masters as fixed and packets as not duplicated.
- The RDB preamble, module values and Lua script propagation are not modelled; other commands are an arbitrary function on their database.
- AofProcess.LoadRebuildsDataset: is about logs without MULTI, as the loader's own claim is, and about a clock that is never set back; that the child reads its clock in time is a hypothesis, because the claim is false without it.
- AofFeed.TranslationKeepsMeaning: takes the clock as frozen within one command; products of times that leave 64 bits are not modelled.
- AofFeed.LoggedTolerates: asks of the commands that are not modelled one by one that they neither depend on other keys than their own nor change them, but to delete them (`AofExpire.Local`).
- The server is a master: slaves leave expired keys to their master. With lazy expiry UNLINK is logged instead of DEL.
- fork, pipes, fsync and rename are steps with every outcome they can have; the exit of a server that must sync every write is an outcome, not a state.
- A negative or overlong length in a header of the file is an error in loader and checker alike; a read error of the file system is not modelled.
- Bit fields of width 64 and arithmetic that leaves 64 bits in the signed check are undefined in C and excluded; parsing of the BITFIELD arguments is not modelled.
- Big endian machines: words are read as on a little endian one.
- Floating point shares of the planner are exact reals; the interactive part of the tool and its fix commands are not modelled.
- Rebalance.RebalanceCluster: asks that the correction does not stall when the threshold is exceeded, because the loop never ends otherwise (`Rebalance.StalledPass`).
- Reshard.ReshardTable: a plan over sources without any slot ends in a floating point error in the tool and is excluded.
- The link between the list of `adlist.c` and the rewrite buffer: the buffer's blocks are a sequence.
- Other list functions of `adlist.c` (insertion at a node, duplication, search) would only add easy members.
