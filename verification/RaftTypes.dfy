/** The data of src/raftCore: one node's fields, its log entries and the messages of raftRPC.proto.

    Terms and indices are unbounded integers.  A message is a value; a node is a value here and an
    object with the same fields in `RaftNode`. */
module RaftTypes {

  datatype Status = Follower | Candidate | Leader

  /** `command` is the serialised operation the key-value layer handed to `Start`. */
  datatype Entry = Entry(command: string, term: int, index: int)

  /** The fields of class Raft that the handlers read or write.  `nextIndex` and `matchIndex` have one
      slot for every peer, the node itself included, so their length is the size of the cluster. */
  datatype Node = Node(
    me: int,
    currentTerm: int,
    votedFor: int,
    status: Status,
    logs: seq<Entry>,
    commitIndex: int,
    lastApplied: int,
    nextIndex: seq<int>,
    matchIndex: seq<int>,
    snapIndex: int,
    snapTerm: int)

  datatype VoteArgs = VoteArgs(term: int, candidate: int, lastLogIndex: int, lastLogTerm: int)

  datatype VoteState = Expire | Voted | Normal

  datatype VoteReply = VoteReply(term: int, state: VoteState, granted: bool)

  datatype AppendArgs = AppendArgs(
    term: int, leader: int, prevIndex: int, prevTerm: int, entries: seq<Entry>, leaderCommit: int)

  /** `updateNext` is -100 when the follower has nothing to suggest, as at raft.cpp:17, and 0 when it was
      never set. */
  datatype AppendReply = AppendReply(term: int, success: bool, updateNext: int)

  datatype SnapshotArgs = SnapshotArgs(term: int, leader: int, lastIndex: int, lastTerm: int, data: string)

  /** What a node pushes on the channel to its key-value server. */
  datatype ApplyMsg =
    | CommandMsg(command: string, index: int)
    | SnapshotMsg(data: string, term: int, index: int)

  const NO_VOTE := -1
  const NO_UPDATE := -100

  /** Half of the cluster plus one, the threshold of both counters. */
  function Majority(peers: nat): nat {
    peers / 2 + 1
  }

  function Max(a: int, b: int): int {
    if a < b then b else a
  }

  function Min(a: int, b: int): int {
    if a < b then a else b
  }

  /** Entry k of the in-memory log stands at log index snapIndex + 1 + k. */
  ghost predicate Indexed(n: Node) {
    forall k :: 0 <= k < |n.logs| ==> n.logs[k].index == n.snapIndex + 1 + k
  }

  function LastLogIndex(n: Node): int {
    if n.logs == [] then n.snapIndex else n.logs[|n.logs| - 1].index
  }

  function LastLogTerm(n: Node): int {
    if n.logs == [] then n.snapTerm else n.logs[|n.logs| - 1].term
  }

  /** An index the node can name a term for: the snapshot point or an entry still in memory. */
  predicate InRange(n: Node, index: int) {
    n.snapIndex <= index <= n.snapIndex + |n.logs|
  }

  function TermAt(n: Node, index: int): int
    requires InRange(n, index)
  {
    if index == n.snapIndex then n.snapTerm else n.logs[index - n.snapIndex - 1].term
  }

  lemma LastIndexIsLength(n: Node)
    requires Indexed(n)
    ensures LastLogIndex(n) == n.snapIndex + |n.logs|
    ensures LastLogTerm(n) == TermAt(n, LastLogIndex(n))
  {
  }
}
