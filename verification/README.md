# A verified model of the Raft key-value store

The repository is a replicated key-value store in C++: Raft nodes that agree on a log (`src/raftCore/raft.cpp`),
a key-value server on each that plays the log into a skip list (`src/raftCore/KvServer.cpp`,
`src/skipList/include/skipList.h`), clients that retry until they are answered (`src/raftClerk/clerk.cpp`), and
a timer manager for its fibers (`src/fiber/timer.cpp`). This project models these parts in Dafny and proves what
they are for.

`dafny verify dfyconfig.toml` checks all of it.

## How it is organised

Code that changes objects step by step is a class with the source's fields and loops; each method is proved to
do to the abstract state what a function says, and the theorems are about those functions.

| part | files |
|---|---|
| Raft: handlers as functions, what each comes to, and the class with the loops | `RaftTypes`, `RaftSteps`, `HandlerMeaning`, `RaftNode` |
| a cluster as a transition system, its history, its invariant, one file for each group of steps | `Cluster`, `History`, `HistorySteps`, `Invariant`, `VoteSteps`, `WinSteps`, `AppendSteps`, `RoundSteps` |
| the safety theorems over runs, and a run in which a command gets through | `RaftSafety`, `Progress` |
| one node with compaction, log negotiation alone and in a cluster | `NodeInvariant`, `Negotiation`, `NegotiationRuns` |
| the apply channel, and what it does to the store | `ApplyStream`, `StoreStream` |
| four lines of raft.cpp as they are written | `LiteralNegotiation`, `LiteralLines` |
| skip list: levels and map as values, the pointer structure, dump and load | `SkipTower`, `SkipList`, `SkipDump` |
| key-value server: state machine, replay theorems, the class | `KvSteps`, `KvReplay`, `KvServer` |
| clients: request ids over runs, reads and the request table, the retry loops | `ClerkRun`, `LateReads`, `Clerk` |
| clients, servers and nodes as one system | `SystemRun` |
| timers: operations as functions, what each comes to, what runs keep, the clock, the classes | `TimerSteps`, `TimerMeaning`, `TimerRuns`, `TimerClock`, `TimerManager` |
| strict orders, optional values | `Orders`, `Options` |

The Raft cluster is a set of nodes, the requests ever sent and the replies ever made. Requests may be lost,
delayed, reordered and handled any number of times; a reply travels with its request, and the thread that sent a
request handles one reply. A failing `myAssert` ends the process (`src/common/util.cpp:12-17`), so a step whose
assertion fails is no step, and `RaftSafety.NoAssertionFails` shows that there is none. The proof keeps a history
beside the run (who voted and won with which log, the log of each term, the highest acknowledgement of each
server in each term, who was counted for each round); the theorems themselves do not mention it. Section numbers
in the comments are those of Ongaro and Ousterhout, "In Search of an Understandable Consensus Algorithm (Extended
Version)".

## Where the code departs from what it is meant to do

The model follows the stated intent where a line contradicts its own comment or its sibling lines. Each such line is
also modelled as it is written, with what it loses, the exact condition, and an input:

- `raft.cpp:41` suggests last log *term* + 1, the comment at line 37 and the other branches an index. From a probe
  beyond the follower's log the negotiation then ends if and only if the last term can be used as an index of the two
  logs (`LiteralNegotiation.LiteralEndsIff`; without snapshots, if it is not greater than the follower's last index);
  otherwise the same suggestion comes back for ever, or lies beyond the leader's log, where an assertion fails.
- `raft.cpp:70-71` subscripts the log with the *term* of the conflicting entry and overwrites only a term; the
  comment at line 59 and the algorithm replace the conflicting entry and everything behind it. Log matching is lost
  (`LiteralLines.LiteralTurnIff`).
- `raft.cpp:649` adopts the term of the *request*; lines 420 and 590 adopt the reply's. The request is never of a
  later term than its sender, so the node always forgets its vote and grants a second one in the same term
  (`LiteralLines.LiteralStepDownForgets`).
- `raft.cpp:859` moves lastApplied to max(*commitIndex*, index); line 339 takes max(lastApplied, index). What is
  committed and not yet applied is then in no later batch (`LiteralLines.LiteralSnapshotLosesIff`).

Other findings, of the code as it is written:

- `Append` executes exactly like `Put` (`KvServer.cpp:27-34`, `49-56`); it is modelled so.
- `load_file` inserts, and an insertion does not replace, so a snapshot read into a store that already holds keys
  leaves old values in place while the request table is replaced (`KvReplay.RestoreExactIff`,
  `KvReplay.LaggingServerKeepsOldValue`). The commuting of snapshots with replay is therefore proved for a server
  that starts empty.
- `ExecuteGetOpOnKVDB` writes the id of a read into the request table of the server that answers it. A read that is
  answered while its client waits for it does no harm; one that is answered later makes the server forget a write it has
  run if and only if it has run a later write of that client, and the write can be run again
  (`LateReads.ReadForgetsIff`, `LateReads.LateReadLosesAWrite`).
- `InstallSnapshot` keeps the tail of the log without comparing terms at the snapshot point
  (`NodeInvariant.InstallKeepsTermsIff`, `NodeInvariant.InstallChangesATerm`). It also accepts a snapshot behind what
  the server has run, as long as it is ahead of the node's own; the server then replaces its request table by an older
  one and takes a repeated write for a new one (`StoreStream.ServerFollowsLogIff`, `StoreStream.LateSnapshotForgets`).
- A leader and a follower finish their negotiation if and only if the leader's snapshot is not behind the
  follower's or is due at once, or their terms agree at one of the indices probed on the way down
  (`Negotiation.EndsIff`); where log matching holds this fails exactly when the leader has the index of the follower's
  snapshot in its log under another term (`Negotiation.EndsIffSnapshotMatches`). The code does not compare terms at
  snapshot points, so such a pair would probe for ever (`Negotiation.DisagreementInstance`), but nodes that compact
  what a running cluster has committed are never such a pair (`NegotiationRuns.CompactedNegotiationEnds`).
- `GetElapsedMs` subtracts the milliseconds of the second instead of adding them, so the clock runs backwards
  within each second, and wraps in the first one (`TimerClock.ElapsedForwardIff`). A refresh then lets a deadline slip
  in front of the one the sleeper was told (`TimerClock.RefreshOversleepsIff`, `TimerClock.RefreshOnClockIff`), and the
  unsigned subtraction of the rollover check takes any step back in the first hour for a rollover
  (`TimerClock.RolloverIff`, `TimerClock.SecondCallExpiresAllIff`).
  The timer theorems take any clock that does not go back.

## Model

| member | source | states |
|---|---|---|
| `RaftSafety.ElectionSafety` | src/raftCore/raft.cpp:574-628 | In every run of a cluster of any size, two leaders of one term, at any two moments, are one server, though replies are counted without asking whether the node is still a candidate. |
| `RaftSafety.OneVoteInATerm` | src/raftCore/raft.cpp:465-508 | Over a run, requests lost, repeated and reordered, a server grants its vote in one term to one candidate only. |
| `RaftSafety.LogMatchingOverRun` | src/raftCore/raft.cpp:50-75 | Two logs of any servers at any moments that hold the same term at the same index are equal up to that index. |
| `RaftSafety.LeaderCompletenessOverRun` | src/raftCore/raft.cpp:486-507 | What any server has committed by its term is a prefix of the log of every leader of a later term. |
| `RaftSafety.CommittedAgree` | src/raftCore/raft.cpp:76-88 | Of two committed prefixes, of any servers at any moments, one is a prefix of the other. |
| `RaftSafety.StateMachineSafety` | src/raftCore/raft.cpp:261-279 | What two servers have pushed to their key-value servers is the same command for each index, and the indices are 1, 2, 3, … |
| `RaftSafety.CommittedNeverReplaced` | src/raftCore/raft.cpp:50-91 | A server's committed prefix is a prefix of its committed prefix at any later moment. |
| `RaftSafety.RunForward` | src/raftCore/raft.cpp:8-91 | Over a run a node's term, commit index and applied index never go down and its output only grows. |
| `RaftSafety.NoAssertionFails` | src/raftCore/raft.cpp:574-704 | In every reachable state each pending message and each action of each server is possible, commands to and rounds and elections of any server included, leading or not: no assertion of the voting, replication, heart-beat and apply code fails, and every request under way carries consecutive indices. |
| `RaftSafety.RoundCounterRefinesQuorum` | src/raftCore/raft.cpp:671-697 | Whenever the round counter raises the commit index to L, a strict majority of distinct servers, the leader among them, holds the leader's log through L, the entry at L has the current term, and the match indices satisfy the rule of `leaderUpdateCommitIndex`. |
| `RaftSafety.RunHistory` | src/raftCore/raft.cpp:132-220 | Beside every run there is a history that satisfies the invariant at the end and vouches for every state on the way. |
| `RaftSafety.StepOk` | src/raftCore/raft.cpp:465-508 | Every step of the cluster keeps the invariant, for a history that only grows. |
| `RaftSafety.RoundQuorum` | src/raftCore/raft.cpp:683-697 | The quorum of a full round, found from the servers that were counted for it. |
| `RaftSafety.RoundMatchRule` | src/raftCore/raft.cpp:432-451 | The step that commits by the round counter satisfies the rule counted from match indices. |
| `RaftSafety.HolderStillHolds` | src/raftCore/raft.cpp:50-75 | A server that acknowledged something chosen still has it, whatever leaders came later. |
| `Progress.ACommandGetsThrough` | src/raftCore/raft.cpp:132-220 | For a cluster of any size from two servers on, any of its servers and any command there is a run in which that server is elected and every server pushes that command as number 1. |
| `History.LeaderCompleteness` | src/raftCore/raft.cpp:510-515 | An entry of term T acknowledged by a quorum in term T is in the log with which any later leader was elected, since the up-to-date check and the two quorums share a member. |
| `History.WinnerHolds` | src/raftCore/raft.cpp:510-515 | A candidate whose log is at least as up to date as one that holds a chosen prefix holds it too. |
| `History.QuorumsMeet` | src/raftCore/raft.cpp:601-612 | Two majorities of a cluster of any size share a server. |
| `History.LogMatching` | src/raftCore/raft.cpp:728-752 | Logs whose entries were all written by the leaders of their terms match up to a common index and term. |
| `HistorySteps.SettledAgree` | src/raftCore/raft.cpp:683-697 | Two settled prefixes are prefixes of one another. |
| `HistorySteps.RecordVoteOk` | src/raftCore/raft.cpp:465-508 | Recording a vote keeps the history consistent: one vote for each server and term. |
| `HistorySteps.RecordWinOk` | src/raftCore/raft.cpp:595-626 | Recording an election keeps the history consistent. |
| `HistorySteps.RecordEntryOk` | src/raftCore/raft.cpp:728-752 | Recording the entry a leader starts keeps the history consistent: the log of a term only grows. |
| `HistorySteps.RecordAckOk` | src/raftCore/raft.cpp:665-683 | Recording an acknowledgement keeps the history consistent: no server may since have lost what it acknowledged. |
| `Invariant.InitOk` | src/raftCore/raft.cpp:755-796 | The initial cluster satisfies the invariant. |
| `VoteSteps.ElectOk` | src/raftCore/raft.cpp:132-163 | The election timer running out at any server keeps the invariant; at a leader it does nothing. |
| `VoteSteps.VoteOk` | src/raftCore/raft.cpp:465-508 | Answering a vote request keeps the invariant, for stale and repeated requests too. |
| `WinSteps.VoteBackOk` | src/raftCore/raft.cpp:574-628 | Handling a vote reply keeps the invariant, whatever the node has become since it asked. |
| `WinSteps.NobodyWonYet` | src/raftCore/raft.cpp:601-626 | When the counter reaches the majority, nobody has been elected in that term before. |
| `WinSteps.CountedOneMore` | src/raftCore/raft.cpp:595-601 | The counter is the number of distinct servers whose votes were counted. |
| `AppendSteps.CommandOk` | src/raftCore/raft.cpp:728-752 | Handing a command to any server keeps the invariant; a leader appends it, and it changes nothing at any other. |
| `AppendSteps.BeatOk` | src/raftCore/raft.cpp:165-220 | A heart-beat round of any server keeps the invariant: all requests of a leader's round end at the same last index, and another server sends nothing. |
| `AppendSteps.AppendOk` | src/raftCore/raft.cpp:8-106 | Handling an append request keeps the invariant, for stale and repeated requests too. |
| `AppendSteps.MergeMeaning` | src/raftCore/raft.cpp:53-74 | The merged log is the longer of the two when they agree and the leader's part otherwise. |
| `AppendSteps.MergeKeeps` | src/raftCore/raft.cpp:53-74 | Merging loses nothing that the server has acknowledged and that may have been chosen. |
| `AppendSteps.AppendAssertsHold` | src/raftCore/raft.cpp:60-88 | No request of a reachable cluster makes an assertion of `AppendEntries1` fail, and all carry consecutive indices. |
| `AppendSteps.ApplyOk` | src/raftCore/raft.cpp:261-279 | Collecting a batch keeps the invariant. |
| `RoundSteps.AppendBackOk` | src/raftCore/raft.cpp:630-704 | Handling an append reply keeps the invariant. |
| `RoundSteps.RoundChooses` | src/raftCore/raft.cpp:683-697 | A full round whose last entry is of the current term makes that prefix chosen. |
| `RaftNode.Raft.constructor` | src/raftCore/raft.cpp:755-780 | A new node is the initial state. |
| `RaftNode.Raft.GetLastLogIndexAndTerm` | src/raftCore/raft.cpp:517-541 | Index and term of the last entry, of the snapshot when the log is empty. |
| `RaftNode.Raft.GetSlicesIndexFromLogIndex` | src/raftCore/raft.cpp:563-572 | The slice returned holds the entry with that index. |
| `RaftNode.Raft.GetLogTermFromLogIndex` | src/raftCore/raft.cpp:543-557 | The term at any index from the snapshot point to the end. |
| `RaftNode.Raft.GetPrevLogInfo` | src/raftCore/raft.cpp:288-299 | The index before the peer's next one, which is in range, and its term. |
| `RaftNode.Raft.RequestVote` | src/raftCore/raft.cpp:465-508 | Node and reply are as the voting function says, and nothing is pushed. |
| `RaftNode.Raft.DoElection` | src/raftCore/raft.cpp:132-163 | Exactly one request to every other peer, all with the same arguments, and a fresh counter of 1; nothing when the node leads. |
| `RaftNode.Raft.SendRequestVote` | src/raftCore/raft.cpp:574-628 | Node and shared counter after a vote reply. |
| `RaftNode.Raft.Start` | src/raftCore/raft.cpp:728-752 | A leader appends the command under the next index and its term and reports both; another node does nothing and answers -1, -1, false (`HandlerMeaning.StartMeans`). |
| `RaftNode.Raft.DoHeartBeat` | src/raftCore/raft.cpp:165-220 | Exactly one request to every other peer whose next index is in memory, the others get the snapshot; every request of the round ends at the last index and carries the commit index (`HandlerMeaning.RequestMeans`). |
| `RaftNode.Raft.RequestFor` | src/raftCore/raft.cpp:186-210 | The request for one peer ends at the last index and carries the commit index (`HandlerMeaning.RequestMeans`). |
| `RaftNode.Raft.EntriesAfter` | src/raftCore/raft.cpp:191-206 | The copied entries are the log from the previous index on. |
| `RaftNode.Raft.AppendEntries1` | src/raftCore/raft.cpp:8-106 | Node and reply after an append request: stale, too far, too old, mismatched, accepted. |
| `RaftNode.Raft.AcceptEntries` | src/raftCore/raft.cpp:51-88 | The merged log, and the commit index that follows the leader's as far as the log reaches. |
| `RaftNode.Raft.MergeEntries` | src/raftCore/raft.cpp:53-74 | The loop over the entries computes the closed form: the log as it was if it holds them, otherwise cut and extended. |
| `RaftNode.MergeTurn` | src/raftCore/raft.cpp:53-74 | One turn of the loop takes the closed form for i entries to the closed form for i + 1. |
| `RaftNode.Raft.SuggestNext` | src/raftCore/raft.cpp:92-101 | The loop backs up to the first entry of the mismatched term. |
| `RaftNode.Raft.SendAppendEntries` | src/raftCore/raft.cpp:630-704 | Node and shared counter after an append reply (`HandlerMeaning.AckMeans`, `HandlerMeaning.NoAckMeans`). |
| `RaftNode.Raft.LeaderUpdateCommitIndex` | src/raftCore/raft.cpp:432-451 | The greatest index that a majority has matched and whose entry is of the current term, or the snapshot index if there is none. |
| `RaftNode.Raft.CountMatched` | src/raftCore/raft.cpp:436-445 | How many servers have matched an index, the leader included. |
| `RaftNode.Raft.GetApplyLogs` | src/raftCore/raft.cpp:261-279 | The batch is the commands from lastApplied + 1 to commitIndex, in order, and nothing else of the node changes. |
| `RaftNode.Raft.Snapshot` | src/raftCore/raft.cpp:835-868 | The node after compaction. |
| `RaftNode.Raft.InstallSnapshot` | src/raftCore/raft.cpp:310-353 | The node after a leader's snapshot and the message pushed for it (`HandlerMeaning.InstallMeans`). |
| `HandlerMeaning.ElectionMeans` | src/raftCore/raft.cpp:132-163 | For any node that keeps its invariant: unless it leads it is a candidate of the next term with its own vote, and asks for it with its last index and term; all other fields stay. |
| `HandlerMeaning.VoteMeans` | src/raftCore/raft.cpp:465-508 | A vote is granted if and only if the request is of no earlier term, its log not behind by last term and then index, and no other candidate of that term has the vote; the answer tells the greater term, a later one is adopted without a vote, and the other fields stay. |
| `HandlerMeaning.VoteComparesLogs` | src/raftCore/raft.cpp:510-515 | Between whole logs the comparison is the one of the safety proof. |
| `HandlerMeaning.VoteReplyMeans` | src/raftCore/raft.cpp:574-628 | A reply of a later term makes the node follow without a vote; a grant with which more than half of the cluster has voted makes it lead, with every next index behind its log and every match index 0; another reply changes at most the counter. |
| `HandlerMeaning.StartMeans` | src/raftCore/raft.cpp:728-752 | A node that does not lead keeps its whole state; a leader has the command behind its log, under the next index and its term, and every entry it had. |
| `HandlerMeaning.RequestMeans` | src/raftCore/raft.cpp:165-220 | A request carries every entry from the peer's next index on, the index before with its term, and the leader's term and commit index. |
| `HandlerMeaning.AppendMeans` | src/raftCore/raft.cpp:8-106 | A stale request changes nothing and is told the node's term; any other makes the node follow, a candidate or leader of the same term too; acceptance exactly when the terms meet, and then the commit index is the greater of its own and the leader's capped at the end of the log. |
| `HandlerMeaning.AppendBringsIff` | src/raftCore/raft.cpp:76-88 | After an accepted request the next batch brings exactly what is not applied, up to the commit index or as far as the leader has committed and the log reaches. |
| `HandlerMeaning.AckMeans` | src/raftCore/raft.cpp:665-697 | After an acknowledgement the peer's match index is the greater of the old one and the request's last index, its next index one more, the other slots as before; the commit index follows if and only if more than half of the cluster has acknowledged and the last entry is of the current term; the counter in either case. |
| `HandlerMeaning.AckBringsIff` | src/raftCore/raft.cpp:683-697 | What such a round brought is in the leader's next batch if and only if more than half of the cluster has acknowledged it. |
| `HandlerMeaning.NoAckMeans` | src/raftCore/raft.cpp:644-664 | Any other reply: a later term is adopted, a suggestion moves the next index of that peer, nothing is counted and nothing committed. |
| `HandlerMeaning.MatchRuleMeans` | src/raftCore/raft.cpp:432-451 | The rule holds if and only if the index is in memory with an entry of the current term and more than half of the servers have matched it. |
| `HandlerMeaning.ApplyMeans` | src/raftCore/raft.cpp:261-279 | The batch is the commands after the last applied index up to the commit index, one for each index in order, and no later batch brings them again. |
| `HandlerMeaning.CompactMeans` | src/raftCore/raft.cpp:835-868 | A compaction commits nothing, and the next batch brings what it would have brought, without what the snapshot covers. |
| `HandlerMeaning.InstallMeans` | src/raftCore/raft.cpp:310-353 | A snapshot ahead of the node's own commits nothing beyond itself: the commit index is the greater of the two, and the next batch brings index i if and only if it is above the snapshot, not applied, and was committed before; a stale or older one changes neither log nor indices. |
| `NodeInvariant.HandlersKeepNodeInv` | src/raftCore/raft.cpp:8-106 | Every handler, given requests with consecutive indices as leaders build them, keeps: entry k has index snapshotIndex + 1 + k, and snapshotIndex <= lastApplied <= commitIndex <= last index; and moves none of term, commit, applied and snapshot index back. |
| `NodeInvariant.NodeInvOverRun` | src/raftCore/raft.cpp:543-572 | In every state a node reaches without restart, from requests with consecutive indices, `getApplyLogs`, `Snapshot` and `InstallSnapshot` meet their assertions for any argument, and each index in memory is found at its slice. |
| `NodeInvariant.SnapshotKeepsVirtualLog` | src/raftCore/raft.cpp:835-868 | Compaction answers every term and command from the new snapshot point on as before, and the log ends where it ended. |
| `NodeInvariant.SnapshotsCompose` | src/raftCore/raft.cpp:835-868 | Compacting twice is compacting once at the later point. |
| `NodeInvariant.InstallKeepsTail` | src/raftCore/raft.cpp:327-341 | A leader's snapshot leaves exactly the entries above its index, unchanged. |
| `NodeInvariant.InstallKeepsTermsIff` | src/raftCore/raft.cpp:327-341 | Terms answer as before over the whole common range if and only if the node had the snapshot's term at its index, or no entry there. |
| `NodeInvariant.InstallChangesATerm` | src/raftCore/raft.cpp:327-341 | A node that after a leader's snapshot answers another term at an index it keeps an entry behind. |
| `NodeInvariant.AppendKeepsIndexedIff` | src/raftCore/raft.cpp:55-57 | The append of an entry from beyond the log keeps entry k at index snapshotIndex + 1 + k if and only if the entry carries the next index, which the receiver does not check. |
| `RaftSteps.RequestsAreContiguous` | src/raftCore/raft.cpp:191-206 | The entries of a request built by a leader carry consecutive indices after the previous one. |
| `RaftSteps.BackUpRange` | src/raftCore/raft.cpp:92-101 | The backing-up loop ends above the snapshot point and not above the probe, except at the snapshot point, where it suggests that point itself. |
| `Negotiation.AnswerTo` | src/raftCore/raft.cpp:36-105 | Any request that is not stale is accepted exactly when the terms meet at the previous index, with the merged log, and is otherwise answered by a suggestion and leaves the log untouched. |
| `Negotiation.ExchangeMeaning` | src/raftCore/raft.cpp:664-677 | One probe, answer and reaction: accepted exactly when the logs meet at the probe, and then the follower takes over the leader's entries behind it and its commit index becomes the greater of its own and the leader's capped at its last index; refused, the next index is the suggestion, which can be probed in turn, and nothing else changes. |
| `Negotiation.RefusalLowersIff` | src/raftCore/raft.cpp:92-105 | A refusal strictly lowers the next index and stays above the follower's snapshot index if and only if, when the probe is at that index, the leader has the follower's term there. |
| `Negotiation.EndsIff` | src/raftCore/raft.cpp:36-105 | The sequence of refusals ends, by acceptance or a snapshot being due, if and only if the leader's snapshot is not behind the follower's or due at once, or the logs meet at one of the indices probed on the way down; the indices are given by the follower's terms alone. |
| `Negotiation.EndsIffSnapshotMatches` | src/raftCore/raft.cpp:36-105 | For logs that match: if and only if the leader does not probe an index that is the follower's snapshot point under another term. |
| `Negotiation.RefusalsBounded` | src/raftCore/raft.cpp:664-677 | A negotiation that ends has at most as many refusals as there are indices between the follower's snapshot and the probe, one more if the two snapshots are at one index with different terms, and one if the probe is below the snapshot. |
| `Negotiation.NegotiationEnds` | src/raftCore/raft.cpp:664-677 | A negotiation that concludes does so with a snapshot due, or with the follower holding the leader's log entry by entry above its snapshot, its commit index following the leader's. |
| `Negotiation.AcceptedReaches` | src/raftCore/raft.cpp:53-80 | After acceptance the follower's log ends where the leader's does if and only if it did not already hold all of it and more. |
| `Negotiation.MergedAgrees` | src/raftCore/raft.cpp:53-74 | The merged log agrees with the leader's at every index above the follower's snapshot. |
| `Negotiation.DisagreementCycles` | src/raftCore/raft.cpp:96-101 | With another term at the follower's snapshot point, which the leader still has in memory, two refusals lead back to the same probe. |
| `Negotiation.DisagreementInstance` | src/raftCore/raft.cpp:96-101 | A pair of nodes, each keeping the node invariant, whose negotiation does not end. |
| `NegotiationRuns.CompactedNegotiationEnds` | src/raftCore/raft.cpp:835-868 | In every state of every run, a leader and a node not ahead of it in terms, each compacted up to anything it has committed, end their negotiation whatever index from 1 to the one after its last the leader probes next, and their logs match. |
| `ApplyStream.ActionKeeps` | src/raftCore/raft.cpp:108-126 | Collecting under the lock, pushing after it, snapshots in between, compaction and consumption all keep the stream in order. |
| `ApplyStream.AppliesInOrder` | src/raftCore/KvServer.cpp:131-142 | In every interleaving each command run has the index after the largest one run or restored so far. |
| `ApplyStream.RunOnce` | src/raftCore/KvServer.cpp:139-142 | No index is run twice and later ones are larger. |
| `ApplyStream.ContinuesAfterSnapshot` | src/raftCore/KvServer.cpp:281-288 | After a snapshot at S ahead of everything, the next command run is S + 1. |
| `ApplyStream.NothingIsLost` | src/raftCore/raft.cpp:261-279 | Over any interleaving, when no message is under way the commands run, or covered by a snapshot that was restored, are exactly those up to the last one the node has handed out. |
| `StoreStream.ServerFollowsLogIff` | src/raftCore/KvServer.cpp:233-288 | In every interleaving of a stream whose messages are those of a log, the server's store and request table are those of the log up to the largest index run or restored, at every moment, if and only if every snapshot it reads fits: one ahead of it changes no value it holds, one behind it skips no write that had an effect. |
| `StoreStream.RestoreFollowsIff` | src/raftCore/include/KvServer.h:98-104 | Reading the snapshot of one prefix on top of the state of another gives the state of the longer one if and only if it fits. |
| `StoreStream.StaleTableIff` | src/raftCore/KvServer.cpp:27-56 | Two prefixes of a log leave the same request table if and only if no write in between had an effect. |
| `StoreStream.SameSnapshotIndex` | src/raftCore/KvServer.cpp:139-142 | The stream and the state machine skip the same commands in every run. |
| `StoreStream.StaleSnapshotForgets` | src/raftCore/KvServer.cpp:281-288 | A snapshot from behind that does not fit makes a write that was executed look new to the duplicate check. |
| `StoreStream.LateSnapshotForgets` | src/raftCore/raft.cpp:310-353 | A run of node, channel and server from the initial state in which a repeated write is a duplicate before a late snapshot is read and none after. |
| `LiteralNegotiation.LiteralEndsIff` | src/raftCore/raft.cpp:38-42 | As written, a negotiation that starts with a probe beyond the follower's log ends if and only if the follower's last term, as an index, is in the leader's log, is below the leader's snapshot or not beyond the follower's log, and the negotiation as intended would end from there; from any other probe, exactly when the intended one does. |
| `LiteralNegotiation.LiteralEndsIffTermFits` | src/raftCore/raft.cpp:38-42 | For a leader whose snapshot is not behind the follower's nor above its last term: if and only if the follower's last term is not greater than its last index, while the negotiation as intended ends. |
| `LiteralNegotiation.SuggestionReturns` | src/raftCore/raft.cpp:38-42 | Otherwise every refusal leads to the same next index, right behind the last term, for ever, or, when that is beyond the leader's log, the second pair is the last because the next heart-beat's assertions fail. |
| `LiteralNegotiation.LiteralSuggestionOvershoots` | src/raftCore/raft.cpp:38-42 | A leader just elected and a follower one entry short: the suggestion lies beyond the leader's log. |
| `LiteralNegotiation.LiteralSuggestionReturns` | src/raftCore/raft.cpp:38-42 | The same follower and a leader with seven entries or more: a negotiation that ends as intended and never as written. |
| `LiteralLines.LiteralTurnIff` | src/raftCore/raft.cpp:70-72 | The conflict branch as written does what it should if and only if the term is a subscript of the log and either nothing conflicts, or it is the subscript meant, of the last entry, and only the term differs. |
| `LiteralLines.LiteralTurnBreaksLogMatching` | src/raftCore/raft.cpp:70-72 | An entry that ends up with the leader's index and term and another command. |
| `LiteralLines.StepDownGrantsIff` | src/raftCore/raft.cpp:644-655 | After a reply of a later term the node grants no vote in the term it leaves; as written it grants one to any up-to-date candidate of that term, voted for before or not, if and only if the request was not of a later term. |
| `LiteralLines.LiteralStepDownForgets` | src/raftCore/raft.cpp:644-655 | In every state of every run of the cluster, handling such a reply as written leaves a node that grants a vote in the term it leaves to whoever asks with an up-to-date log. |
| `LiteralLines.LiteralStepDownVotesTwice` | src/raftCore/raft.cpp:644-655 | A leader that, on a reply of a later term to a request of its own term, as written forgets its vote and grants it to another candidate in the term it was elected in. |
| `LiteralLines.LiteralSnapshotLosesIff` | src/raftCore/raft.cpp:857-860 | An entry committed, not applied and not in the snapshot is in the next batch after a compaction as intended; as written it is in no batch of any later run if and only if the compaction takes place. |
| `LiteralLines.LiteralSnapshotIsSafeIff` | src/raftCore/raft.cpp:857-860 | The two agree if and only if no compaction takes place or nothing is owed after it; otherwise the last committed command is lost. |
| `LiteralLines.LiteralSnapshotLosesACommand` | src/raftCore/raft.cpp:857-860 | A run of a follower in a cluster of three after which a compaction as written loses a committed command for good. |
| `SkipList.SkipList.constructor` | src/skipList/include/skipList.h:352-361 | A new list is the empty map. |
| `SkipList.SkipList.Size` | src/skipList/include/skipList.h:237-240 | The count is the size of the map. |
| `SkipList.SkipList.GetRandomLevel` | src/skipList/include/skipList.h:380-389 | One more than the odd draws, at most the maximal level. |
| `SkipList.SkipList.Advance` | src/skipList/include/skipList.h:157-159 | From any node of a level in front of the key the loop reaches the last one. |
| `SkipList.SkipList.Locate` | src/skipList/include/skipList.h:156-161 | The search of insert and delete finds the predecessor on every level. |
| `SkipList.SkipList.SearchElement` | src/skipList/include/skipList.h:323-344 | The search is the lookup in the map. |
| `SkipList.SkipList.InsertElement` | src/skipList/include/skipList.h:148-191 | Whatever is drawn: 1 and the same map when the key is there, otherwise 0 and the map with the pair added; the shape is kept. |
| `SkipList.SkipList.Splice` | src/skipList/include/skipList.h:182-185 | One turn of the splice loop puts the node into one level and leaves the slots of all others alone. |
| `SkipList.SkipList.SpliceAll` | src/skipList/include/skipList.h:182-185 | The node is linked on exactly the levels it reaches. |
| `SkipList.SkipList.Raise` | src/skipList/include/skipList.h:173-178 | New levels start at the header, and the current level becomes the greater of the two. |
| `SkipList.SkipList.DeleteElement` | src/skipList/include/skipList.h:263-293 | The map without the key; the shape is kept and no array is added. |
| `SkipList.SkipList.Unsplice` | src/skipList/include/skipList.h:280-283 | One turn of the unsplice loop takes the node out of one level and leaves the others alone. |
| `SkipList.SkipList.UnspliceAll` | src/skipList/include/skipList.h:280-283 | The loop with its early exit takes the node out of every level it is on. |
| `SkipList.SkipList.Shrink` | src/skipList/include/skipList.h:285-287 | Levels that became empty are given up, and no others. |
| `SkipList.SkipList.InsertSetElement` | src/skipList/include/skipList.h:295-302 | The map with the key set, present or not. |
| `SkipList.SkipList.LevelShape` | src/skipList/include/skipList.h:156-185 | In every valid list each level is a linked, strictly sorted chain of exactly the nodes that reach it, higher levels are parts of lower ones, and the current level is the highest that is not empty. |
| `SkipList.SkipList.DumpFile` | src/skipList/include/skipList.h:208-221 | The dump lists exactly the map in strictly increasing key order. |
| `SkipList.SkipList.LoadFile` | src/skipList/include/skipList.h:223-235 | Loading is inserting what is absent, line by line, whatever is drawn. |
| `SkipDump.LoadGivesUnion` | src/skipList/include/skipList.h:223-235 | Loading the dump of m' into m gives the union in which m wins. |
| `SkipDump.LoadRestoresIff` | src/skipList/include/skipList.h:208-235 | A loaded store is the dumped one if and only if it held no other key and no other value, so always when it was empty. |
| `SkipDump.LoadedKeys` | src/skipList/include/skipList.h:148-169 | What loading any two columns does to each key. |
| `SkipDump.DumpUnique` | src/skipList/include/skipList.h:208-221 | The dump is determined by the map, whatever levels were drawn. |
| `SkipTower.TowerSublist` | src/skipList/include/skipList.h:280-283 | A higher level is a lower one without the nodes that stop in between. |
| `SkipTower.TowerInsert` | src/skipList/include/skipList.h:182-185 | A node put between two parts shows at its place on the levels it reaches and nowhere else. |
| `SkipTower.TowerSorted` | src/skipList/include/skipList.h:157 | Every level of a sorted list is sorted. |
| `SkipTower.CutDecides` | src/skipList/include/skipList.h:163-165 | The key is in the map exactly when the first node not below it has it. |
| `SkipTower.InsertMap` | src/skipList/include/skipList.h:179-187 | A node put into a sorted list adds its pair to the map, and taking it out removes the key. |
| `KvServer.KvServer.constructor` | src/raftCore/KvServer.cpp:309-319 | A new server holds the empty store and table. |
| `KvServer.KvServer.ExecuteAppendOpOnKVDB` | src/raftCore/KvServer.cpp:27-34 | Store and table after an append, which overwrites. |
| `KvServer.KvServer.ExecutePutOpOnKVDB` | src/raftCore/KvServer.cpp:49-56 | Store and table after a put. |
| `KvServer.KvServer.IfRequestDuplicate` | src/raftCore/KvServer.cpp:160-167 | True exactly when the table has the client with this id or a larger one. |
| `KvServer.KvServer.ExecuteGetOpOnKVDB` | src/raftCore/KvServer.cpp:36-47 | The value under the key, or "" and false; the store stays, and the table has the id of the read. |
| `KvServer.KvServer.GetCommandFromRaft` | src/raftCore/KvServer.cpp:131-151 | A command is skipped when the last snapshot covers it or it is a duplicate, and executed otherwise. |
| `KvServer.KvServer.GetSnapShotData` | src/raftCore/include/KvServer.h:83-96 | The archive holds the dump of the store and the table, and the slot is empty again. |
| `KvServer.KvServer.MakeSnapShot` | src/raftCore/KvServer.cpp:290-294 | A snapshot of the present state, which does not change. |
| `KvServer.KvServer.ParseFromString` | src/raftCore/include/KvServer.h:98-104 | The table is replaced and the store is added to. |
| `KvServer.KvServer.ReadSnapShotToInstall` | src/raftCore/KvServer.cpp:248-253 | The same, or nothing for an empty snapshot. |
| `KvServer.KvServer.GetSnapShotFromRaft` | src/raftCore/KvServer.cpp:281-288 | Store, table and snapshot index after a snapshot message. |
| `KvServer.KvServer.ReadRaftApplyCommandLoop` | src/raftCore/KvServer.cpp:233-246 | The loop over the messages of the channel is the state machine run over them. |
| `KvSteps.ApplyMeans` | src/raftCore/KvServer.cpp:131-151 | A Put or an Append with an id above the one the table has for its client is the only entry that changes anything: its key has its value, the table its id, all other keys and clients what they had. |
| `KvServer.EmptyServerCatchesUp` | src/raftCore/KvServer.cpp:131-142 | An empty server sent the snapshot of the first k entries and then the log from any entry up to k + 1 on holds the store and table of the whole log. |
| `KvServer.CommandsReplayTheRest` | src/raftCore/KvServer.cpp:139-151 | Of consecutive commands those covered by the last snapshot are skipped and the others replayed. |
| `KvReplay.SnapshotCommutesWithReplay` | src/raftCore/include/KvServer.h:83-104 | Restoring the snapshot after entry k into an empty server and replaying the rest gives the state of the whole log. |
| `KvReplay.RestoreExactIff` | src/raftCore/include/KvServer.h:98-104 | A server gets the snapshot's state if and only if everything it held is in it with the same value. |
| `KvReplay.LaggingServerKeepsOldValue` | src/skipList/include/skipList.h:163-169 | For any two writes of one key, a server that ran only the first keeps its value when it reads the snapshot taken after both, and holds the second for done. |
| `KvReplay.TableOfReplay` | src/raftCore/KvServer.cpp:27-56 | After any log the table holds the largest write id of each client, executed or skipped. |
| `KvReplay.DuplicateIffStale` | src/raftCore/KvServer.cpp:160-167 | After any log the duplicate check is true exactly when an earlier write of the client has this id or a larger one. |
| `KvReplay.ReplayIsAtMostOnce` | src/raftCore/KvServer.cpp:131-167 | Replaying any log, duplicated and reordered, equals executing exactly the writes whose id exceeds all earlier ones of their client. |
| `KvReplay.StoreHoldsLastEffect` | src/raftCore/KvServer.cpp:27-56 | After any log a key is in the store exactly when some write of it has an effect, with the value of the last one that has. |
| `KvReplay.EffectsInOrder` | src/raftCore/KvServer.cpp:144-151 | The writes of a client take effect in the order of their ids, so none twice. |
| `KvReplay.EffectiveAreFresh` | src/raftCore/KvServer.cpp:144-151 | A write is among those executed exactly when it stands somewhere with an id above all earlier ones. |
| `KvReplay.EveryWriteOnceIff` | src/raftCore/KvServer.cpp:144-167 | Every write of a log takes effect if and only if a smaller id behind a larger one of the same client is always a repetition. |
| `KvSteps.LessIsOrder` | src/skipList/include/skipList.h:157 | The order of the keys is a strict total order. |
| `ClerkRun.WritesTakeEffectOnce` | src/raftClerk/clerk.cpp:35-65 | In every run of clients, network and log: an answered write has taken effect, none takes effect twice, those of a client take effect in order, and the store is what they make of it. |
| `ClerkRun.StepKeepsInv` | src/raftClerk/clerk.cpp:7-65 | Issuing after an answer, committing any copy at any time and answering keep: before a log entry stand all writes of its client with smaller ids. |
| `ClerkRun.LoggedIsDisciplined` | src/raftClerk/clerk.cpp:35-65 | Such a log meets the condition of `EveryWriteOnceIff`. |
| `SystemRun.OneLog` | src/raftCore/KvServer.cpp:169-246 | In every run of clients, network, nodes and servers there is at every moment one log such that each server, then and at any earlier moment, holds what a prefix of it makes of the store; and a run of `ClerkRun` has led to that log. |
| `SystemRun.WritesTakeEffectOnce` | src/raftCore/KvServer.cpp:169-246 | So in every run of the whole system an answered write, answered for the entry that was applied or for a repetition in the table, has taken effect in the log the servers follow, no write takes effect twice, and those of a client take effect in order. |
| `SystemRun.AnsweredInLog` | src/raftCore/KvServer.cpp:199-224 | Either way to an OK means that the very request is in the log. |
| `SystemRun.StepSourced` | src/raftCore/raft.cpp:728-752 | Every command in a log, in a request or on a channel is one that some client has sent. |
| `LateReads.ReadForgetsIff` | src/raftCore/KvServer.cpp:36-47 | After any log, answering a read makes a server forget a write it has run if and only if it has run a write of that client with a greater id. |
| `LateReads.LastIsNotBehind` | src/raftCore/KvServer.cpp:36-47 | In every run of the clients the last request of a client, answered as a read anywhere, makes no server forget a write. |
| `LateReads.ReadsDoNotShow` | src/raftCore/KvServer.cpp:36-47 | In every run of the clients a server that answers reads after running their entry and before running a later write of their client holds, at every moment and in any order of reads and entries, the store of the log it has run. |
| `LateReads.LateReadLosesAWrite` | src/raftCore/KvServer.cpp:36-47 | A run of one client, and a read answered late, after which a server runs a write again and loses a newer one. |
| `Clerk.Clerk.constructor` | src/raftClerk/clerk.cpp:97 | The first id will be 1 and the first server asked is 0. |
| `Clerk.Clerk.PutAppend` | src/raftClerk/clerk.cpp:35-65 | All attempts carry one request with one new id; they go to the next server after a refusal and to the same one after another error, end at the first OK, and that server is remembered. |
| `Clerk.Clerk.Get` | src/raftClerk/clerk.cpp:7-33 | The same for reads; an absent key ends the call with "" and no new leader is remembered. |
| `Clerk.EveryServerIsAsked` | src/raftClerk/clerk.cpp:55 | As many refusals as servers reach every server, and the first is next again. |
| `Clerk.NextAttemptIff` | src/raftClerk/clerk.cpp:7-65 | The next attempt goes to the next server, round the circle, exactly when there was no reply or one that says it is not the leader, and to the same one otherwise. |
| `Clerk.EndsIff` | src/raftClerk/clerk.cpp:7-65 | An attempt ends a write exactly on a reply that says OK, and a read also on one that says there is no such key. |
| `TimerRuns.NoOversleep` | src/fiber/timer.cpp:105-118 | In every run in which no rollover is seen, while no wake-up has been asked for, the earliest deadline is not earlier than the one the last getNextTimer reported. |
| `TimerRuns.StepKeepsInv` | src/fiber/timer.cpp:33-172 | Adding, cancelling, refreshing, resetting, reporting and expiring, with readings of the clock that may be late, keep the set ordered and complete, and let nobody oversleep unless a rollover is seen. |
| `TimerRuns.SleepEndsAtDeadline` | src/fiber/timer.cpp:105-118 | The time reported ends at the earliest deadline, and is 0 exactly when some timer is due. |
| `TimerRuns.ExpiryCut` | src/fiber/timer.cpp:120-160 | Without rollover exactly the timers with deadline <= now leave, in order, with their callbacks; exactly the recurring ones are back at now + period, the others have no callback; no other timer is touched, and the reading is kept for the next rollover check. |
| `TimerRuns.ExpiryExactIff` | src/fiber/timer.cpp:133-148 | The cut is exact if and only if no rollover is seen or all timers are due. |
| `TimerRuns.CancelFinds` | src/fiber/timer.cpp:33-43 | In every run, rollovers included, `cancel` erases an element that is in the set, and it is the timer. |
| `TimerMeaning.CancelMeans` | src/fiber/timer.cpp:33-43 | In an ordered set that keeps the timers with callbacks: the answer is whether there was a callback; if so the timer is out of the set and has none, the others are as they were and in the same order; if not nothing happens. |
| `TimerMeaning.CancelledNeverFires` | src/fiber/timer.cpp:33-43 | In every run no expiry of any later state, at whatever reading, hands out a timer that was cancelled. |
| `TimerMeaning.FiresOnce` | src/fiber/timer.cpp:120-160 | In every run a timer that is not recurring is handed out by one expiry only. |
| `TimerMeaning.EnterMeans` | src/fiber/timer.cpp:162-172 | The sleeper is woken if and only if the timer that has entered comes before all others and no wake-up was under way; the set is ordered and has one more. |
| `TimerMeaning.AddMeans` | src/fiber/timer.cpp:86-91 | A new timer is in the set, due after its period, and wakes as above; the others are as they were. |
| `TimerMeaning.RefreshMeans` | src/fiber/timer.cpp:46-59 | A timer with a callback is due one period after the reading and still in the set, nobody is woken, and the others are as they were; without a callback nothing happens, and the answer tells which. |
| `TimerMeaning.ResetMeans` | src/fiber/timer.cpp:62-80 | The same period from the old start, or no callback, changes nothing; otherwise the timer has the new period from the reading or from its old start, is in the set, and wakes as a new one; the answer is always true. |
| `TimerMeaning.NextMeans` | src/fiber/timer.cpp:105-118 | With an empty set the answer is the largest number of 64 bits, otherwise the time to the earliest deadline or 0 if it has passed; only the flag changes. |
| `TimerRuns.CallbackIffInSet` | src/fiber/timer.cpp:33-172 | In every run that adds no timer without a callback, a timer has a callback if and only if it is in the set. |
| `TimerRuns.ArmedAfter` | src/fiber/timer.cpp:86-91 | One step keeps that if and only if it adds no timer without a callback. |
| `TimerRuns.ForwardIsCalm` | src/fiber/timer.cpp:174-181 | A run whose expiries read times that never go back sees no rollover. |
| `TimerRuns.FindIffThere` | src/fiber/timer.cpp:38-51 | Looking up by the present key finds a timer exactly when it is in the set. |
| `TimerRuns.CompareIsOrder` | src/fiber/timer.cpp:7-24 | The comparator is a strict total order, null pointers included. |
| `TimerRuns.InsertOrdered` | src/fiber/timer.cpp:154-163 | Inserting keeps the set ordered. |
| `TimerRuns.ReaddMeaning` | src/fiber/timer.cpp:150-159 | What the loop over the expired timers does to every timer and to the set. |
| `TimerManager.Timer.Cancel` | src/fiber/timer.cpp:33-43 | Set and timer after a cancellation, and the answer (`TimerMeaning.CancelMeans`). |
| `TimerManager.Timer.Refresh` | src/fiber/timer.cpp:46-59 | Set and timer after a refresh; the key changes while the timer is out of the set. |
| `TimerManager.Timer.Reset` | src/fiber/timer.cpp:62-80 | Set, timer and wake-up after a reset, with its early answers. |
| `TimerManager.TimerManager.constructor` | src/fiber/timer.cpp:82 | A new manager has no timers. |
| `TimerManager.TimerManager.AddTimer` | src/fiber/timer.cpp:86-91 | Set and wake-up after adding a new timer. |
| `TimerManager.TimerManager.Enter` | src/fiber/timer.cpp:162-172 | Set and wake-up after a timer has entered. |
| `TimerManager.TimerManager.GetNextTimer` | src/fiber/timer.cpp:105-118 | The flag goes down and the time to the earliest deadline is reported. |
| `TimerManager.TimerManager.HasTimer` | src/fiber/timer.cpp:183-186 | Whether the set has an element. |
| `TimerManager.TimerManager.DetectClockRollover` | src/fiber/timer.cpp:174-181 | The rollover check in 64-bit unsigned arithmetic, and the new previous time. |
| `TimerManager.TimerManager.ExpiryEnd` | src/fiber/timer.cpp:141-145 | `lower_bound` with a timer at any address, and the loop behind it, end after exactly the timers that are due. |
| `TimerManager.TimerManager.ListExpiredCb` | src/fiber/timer.cpp:120-160 | Set, timers, previous time and callbacks after expiry, rollover included. |
| `TimerManager.TimerManager.FireAll` | src/fiber/timer.cpp:150-159 | The loop over the expired timers; each is out of the set when its key changes. |
| `TimerClock.ElapsedForwardIff` | src/fiber/include/utils.hpp:26-30 | Two readings in order do not step back if and only if they are in the same millisecond or in different seconds, where a reading of the first second has to be in its first millisecond, since later ones wrap. |
| `TimerClock.RolloverIff` | src/fiber/timer.cpp:174-181 | A rollover is seen exactly on a step back of more than an hour, or of any length in the first hour. |
| `TimerClock.SecondCallExpiresAllIff` | src/fiber/timer.cpp:133-147 | A second call within one second takes every timer for expired exactly when it reads a later millisecond, in the first hour but not in its first second. |
| `TimerClock.RefreshOversleepsIff` | src/fiber/timer.cpp:46-59 | Refreshing any timer at any reading keeps the promise to the sleeper if and only if the reading plus the period is not before the time reported. |
| `TimerClock.ReportedRefreshOversleepsIff` | src/fiber/timer.cpp:46-59 | For the reported timer: if and only if the clock is not behind the timer's start. |
| `TimerClock.RefreshOnClockIff` | src/fiber/include/utils.hpp:26-30 | On the code's own clock: a reported timer started at one reading and refreshed at a later one keeps the promise if and only if the two are in the same millisecond or in different seconds, the first reading not wrapped. |
| `TimerClock.RefreshOversleepsOnClock` | src/fiber/include/utils.hpp:26-30 | Two timers added and one reported at one reading of that clock; at a later reading of the same second a refresh of the other breaks the promise. |
| `TimerClock.RolloverOversleepsIff` | src/fiber/timer.cpp:133-159 | A rollover keeps the promise if and only if no recurring timer comes to stand before the report. |
| `TimerClock.RolloverOversleeps` | src/fiber/timer.cpp:120-160 | A run on a clock that never goes back, with one late reading, after which the promise is broken. |

## Left out

- RPC stubs, channels, configuration and the generated protobuf code: messages are datatypes.
- `Persister` and the boost archives: reading back gives what was saved; crash and restart are not modelled.
- Tickers, sleeps, random timeouts, logging, thread creation: any step may come next. That every run makes progress is not
  stated, only that a negotiation ends and that from the initial state a run gets a command to every server.
- `leaderSendSnapShot` and `InstallSnapshot` in the cluster: the safety theorems are about clusters that do not
  compact; compaction and installation are proved at the node and on the apply channel.
- `waitApplyCh`: a write is answered with OK when some server has run an entry with its client and id or has them in its
  table, which is what the reply paths of `PutAppend` compare; an answer to a read is not constrained.
- The id `ExecuteGetOpOnKVDB` writes into the request table is not in `SystemRun`, whose servers hold what the log makes
  of them; what it changes is the subject of `LateReads`. `Get` commands in the log change nothing.
- `IfNeedToSendSnapShotCommand` as a policy: a server may ask its node to compact at any time after running a command.
- Fibers, hooks, file descriptors, locks, `IOManager` and the scheduler; `addConditionTimer`, whose callback is an
  opaque value here.
- `NodeInvariant.HandlersKeepNodeInv`: a request whose entries skip an index is left out. raft.cpp would append its
  entries as they are (`NodeInvariant.AppendKeepsIndexedIff`), but no leader sends one
  (`RaftSteps.RequestsAreContiguous`), and none occurs in a run of the cluster (`RaftSafety.NoAssertionFails`).
- `NodeInvariant.NodeInvOverRun`: the same requests are left out of its runs.
- `KvServer.KvServer.GetCommandFromRaft`: the compaction trigger and the notice to waiting clients in lines 153-157 are
  not in it; `ApplyStream` lets the server ask for a compaction at any time.
- Integer overflow of terms, indices, deadlines and counters; only the unsigned subtraction of the rollover check
  and the clock conversion have a width.
- `display_list`, `get_key_value_from_string`, `set_value`, `clear`, destructors and the release of memory.
- `TimerManager.Timer.Reset`: the comparison with the old period, which the source makes before it takes the lock, is
  part of the same step here.
- `Clerk.Clerk.PutAppend`, `Clerk.Clerk.Get`: the call is assumed to end, at an attempt named by a ghost parameter; the
  source retries for ever when no server answers.
