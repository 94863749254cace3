/**
 The commit and sync pipeline of one BFT node, as functions on values.

 Commits arrive out of order from consensus, blocks arrive out of order from
 sync, both advance the same committed height, and each drains the other's
 buffers. Every handler of the node is a function from a node state to the next
 one; module `BftNode` holds the handlers in their updating form and proves them
 equal to these functions, and module `PipelineRuns` proves what every run of
 them keeps.
 */
module CommitPipeline {
  import opened Options

  /** A block, named by the hash of its header. A hash determines its header, so
      the height is part of the name; the all-zero hash names no block. */
  datatype BlockId = BlockId(height: nat, digest: nat)

  /** A quorum certificate, as far as the pipeline reads it. `None` is the zero hash. */
  datatype Qc = Qc(blockHash: Option<BlockId>, height: nat)

  /** The consensus side: what is committed, and commits that have to wait. A pending block maps to
      whether it has been constructed from complete data; a pending commit waits at its height, by
      digest, for earlier heights, and a block in `awaitingData` for its data. `emitted` is the output:
      committed blocks, in the order they are emitted. */
  datatype Chain = Chain(
    committed: nat,
    committedHash: Option<BlockId>,
    pendingBlocks: map<BlockId, bool>,
    certified: set<BlockId>,
    pendingCommits: map<nat, nat>,
    awaitingData: set<BlockId>,
    emitted: seq<BlockId>
  )

  /** The sync side: delivered blocks on their way to being applied. Those in `pending` are under
      signature verification, some of them already verified; a buffered one waits at its height, by
      digest, for a verification slot. `requested` is the output: signature checks asked of the runner. */
  datatype Sync = Sync(
    pending: set<BlockId>,
    verified: set<BlockId>,
    buffered: map<nat, nat>,
    requested: seq<BlockId>
  )

  datatype Node = Node(chain: Chain, sync: Sync)

  // ---- Lookup and cleanup ----

  /** The pending entry decides when there is one; the certified blocks are the fallback. */
  predicate Available(c: Chain, id: BlockId) {
    if id in c.pendingBlocks then c.pendingBlocks[id] else id in c.certified
  }

  function BlocksAbove(m: map<BlockId, bool>, height: nat): map<BlockId, bool> {
    map id | id in m && id.height > height :: m[id]
  }

  function IdsAbove(ids: set<BlockId>, height: nat): set<BlockId> {
    set id | id in ids && id.height > height
  }

  function HeightsAbove(m: map<nat, nat>, height: nat): map<nat, nat> {
    map h | h in m && h > height :: m[h]
  }

  function CleanupSync(y: Sync, height: nat): Sync {
    y.(pending := IdsAbove(y.pending, height), verified := IdsAbove(y.verified, height),
       buffered := HeightsAbove(y.buffered, height))
  }

  lemma CleanupTwice(y: Sync, low: nat, high: nat)
    requires low <= high
    ensures CleanupSync(CleanupSync(y, low), high) == CleanupSync(y, high)
  {
    var a, b := CleanupSync(CleanupSync(y, low), high), CleanupSync(y, high);
    assert a.pending == b.pending && a.verified == b.verified && a.buffered == b.buffered;
  }

  /** Advance the committed tip to a block, drop what it outdates and emit it. */
  function Commit(c: Chain, id: BlockId): Chain {
    Chain(id.height, Some(id), BlocksAbove(c.pendingBlocks, id.height),
          IdsAbove(c.certified, id.height), c.pendingCommits,
          IdsAbove(c.awaitingData, id.height), c.emitted + [id])
  }

  // ---- Verification window of synced blocks ----

  const MAX_PARALLEL_SYNC_VERIFICATIONS: nat := 16

  function Submit(y: Sync, id: BlockId): Sync {
    y.(pending := y.pending + {id}, verified := y.verified - {id}, requested := y.requested + [id])
  }

  function SubmitBuffered(y: Sync, height: nat): Sync
    requires height in y.buffered
  {
    Submit(y.(buffered := y.buffered - {height}), BlockId(height, y.buffered[height]))
  }

  function DrainFrom(y: Sync, next: nat, slots: nat): Sync
    decreases slots
  {
    if slots > 0 && next in y.buffered
    then DrainFrom(SubmitBuffered(y, next), next + 1, slots - 1)
    else y
  }

  /** The largest height among some blocks, or `low` when none exceeds it. */
  predicate IsTop(ids: set<BlockId>, low: nat, top: nat) {
    && low <= top
    && (forall id :: id in ids ==> id.height <= top)
    && (top == low || exists id :: id in ids && id.height == top)
  }

  lemma {:induction false} TopExists(ids: set<BlockId>, low: nat)
    ensures exists top: nat :: IsTop(ids, low, top)
    decreases ids
  {
    if ids == {} {
      assert IsTop(ids, low, low);
    } else {
      var id :| id in ids;
      TopExists(ids - {id}, low);
      var rest: nat :| IsTop(ids - {id}, low, rest);
      assert forall x :: x in ids ==> x == id || x in ids - {id};
      assert IsTop(ids, low, if rest < id.height then id.height else rest);
    }
  }

  ghost function TopHeight(ids: set<BlockId>, low: nat): (top: nat)
    ensures IsTop(ids, low, top)
  {
    TopExists(ids, low);
    var top: nat :| IsTop(ids, low, top);
    top
  }

  function FreeSlots(y: Sync): nat {
    if |y.pending| >= MAX_PARALLEL_SYNC_VERIFICATIONS then 0
    else MAX_PARALLEL_SYNC_VERIFICATIONS - |y.pending|
  }

  ghost function NextToSubmit(y: Sync, committed: nat): nat {
    TopHeight(y.pending, committed) + 1
  }

  /** Submit buffered blocks above the window, in height order, while slots are free. */
  ghost function TryDrainBufferedSynced(y: Sync, committed: nat): Sync {
    DrainFrom(y, NextToSubmit(y, committed), FreeSlots(y))
  }

  // ---- Consensus commits ----

  function PopCommit(c: Chain, height: nat): Chain {
    c.(pendingCommits := c.pendingCommits - {height})
  }

  function BufferedCommit(c: Chain, height: nat): BlockId
    requires height in c.pendingCommits
  {
    BlockId(height, c.pendingCommits[height])
  }

  predicate CanCommit(c: Chain, id: BlockId) {
    Available(c, id) && id.height == c.committed + 1
  }

  /** Commit a block and then every buffered successor, stopping at the first gap. */
  function CommitFrom(c: Chain, id: BlockId): Chain
    decreases c.pendingCommits.Keys
  {
    if !CanCommit(c, id) then c
    else if id.height + 1 in c.pendingCommits then
      CommitFrom(PopCommit(Commit(c, id), id.height + 1), BufferedCommit(c, id.height + 1))
    else Commit(c, id)
  }

  ghost function CommitBlockAndBuffered(n: Node, id: BlockId): Node {
    var c := CommitFrom(n.chain, id);
    Node(c, TryDrainBufferedSynced(CleanupSync(n.sync, c.committed), c.committed))
  }

  /** A commit that cannot happen now waits for data, for earlier heights, or is dropped. */
  function DeferCommit(c: Chain, id: BlockId): Chain {
    if Available(c, id) then
      if id.height <= c.committed then c
      else c.(pendingCommits := c.pendingCommits[id.height := id.digest])
    else if id in c.pendingBlocks && id.height > c.committed then
      c.(awaitingData := c.awaitingData + {id})
    else c
  }

  ghost function OnBlockReadyToCommit(n: Node, id: BlockId): Node {
    if CanCommit(n.chain, id) then CommitBlockAndBuffered(n, id)
    else n.(chain := DeferCommit(n.chain, id))
  }

  ghost function TryCommitPendingData(n: Node, id: BlockId): Node {
    if id in n.chain.awaitingData
    then OnBlockReadyToCommit(n.(chain := n.chain.(awaitingData := n.chain.awaitingData - {id})), id)
    else n
  }

  function Constructed(c: Chain, id: BlockId): Chain {
    c.(pendingBlocks := c.pendingBlocks[id := true])
  }

  /** The last missing transaction or certificate of a pending block arrives. */
  ghost function OnDataComplete(n: Node, id: BlockId): Node {
    if id in n.chain.pendingBlocks
    then TryCommitPendingData(n.(chain := Constructed(n.chain, id)), id)
    else n
  }

  function Popped(n: Node): Node {
    n.(chain := PopCommit(n.chain, n.chain.committed + 1))
  }

  ghost function DrainPendingCommits(n: Node): Node
    decreases n.chain.pendingCommits.Keys
  {
    var next := n.chain.committed + 1;
    if next !in n.chain.pendingCommits then n
    else
      var id := BufferedCommit(n.chain, next);
      CommitFromShrinks(Popped(n).chain, id);
      var t := OnBlockReadyToCommit(Popped(n), id);
      if t.chain.committed < next then t else DrainPendingCommits(t)
  }

  lemma {:induction false} CommitFromShrinks(c: Chain, id: BlockId)
    ensures CommitFrom(c, id).pendingCommits.Keys <= c.pendingCommits.Keys
    ensures CanCommit(c, id) ==> CommitFrom(c, id).committed > c.committed
    decreases c.pendingCommits.Keys
  {
    if CanCommit(c, id) && id.height + 1 in c.pendingCommits {
      CommitFromShrinks(PopCommit(Commit(c, id), id.height + 1), BufferedCommit(c, id.height + 1));
    }
  }

  // ---- Blocks entering and leaving assembly ----

  function AcceptHeader(c: Chain, id: BlockId, complete: bool): Chain {
    if id.height <= c.committed || id in c.pendingBlocks then c
    else c.(pendingBlocks := c.pendingBlocks[id := complete])
  }

  /** A fallback or sync block of our own: empty, so complete at once. */
  function AddOwnBlock(c: Chain, id: BlockId): Chain {
    c.(pendingBlocks := c.pendingBlocks[id := true], certified := c.certified + {id})
  }

  /** A block that failed one of its checks. */
  function DropPending(c: Chain, id: BlockId): Chain {
    c.(pendingBlocks := c.pendingBlocks - {id})
  }

  // ---- Sync path ----

  ghost function OnSyncedBlockReady(n: Node, id: BlockId, qc: Qc): Node {
    if id.height <= n.chain.committed || qc.blockHash != Some(id)
       || id in n.sync.pending || id.height in n.sync.buffered then n
    else if id.height == n.chain.committed + 1 then n.(sync := Submit(n.sync, id))
    else
      var y := n.sync.(buffered := n.sync.buffered[id.height := id.digest]);
      n.(sync := TryDrainBufferedSynced(y, n.chain.committed))
  }

  ghost function ApplySyncedBlock(n: Node, id: BlockId): Node {
    DrainPendingCommits(Node(Commit(n.chain, id), CleanupSync(n.sync, id.height)))
  }

  /** The verified blocks at the next height to apply. */
  function NextVerified(n: Node): set<BlockId> {
    set id | id in n.sync.pending && id in n.sync.verified && id.height == n.chain.committed + 1
  }

  /** The block that iterating the table in some order meets first; every choice of one of
      several blocks is the first in some order. */
  ghost function Pick(order: seq<BlockId>, ids: set<BlockId>): (id: BlockId)
    requires ids != {}
    ensures id in ids
  {
    if order == [] then var id :| id in ids; id
    else if order[0] in ids then order[0]
    else Pick(order[1..], ids)
  }

  function PopSync(n: Node, id: BlockId): Node {
    n.(sync := n.sync.(pending := n.sync.pending - {id}, verified := n.sync.verified - {id}))
  }

  /** Apply verified blocks in height order until the next height has none. */
  ghost function ApplyVerified(n: Node, order: seq<BlockId>): Node
    decreases Held(n.sync)
  {
    if NextVerified(n) == {} then n
    else
      var id := Pick(order, NextVerified(n));
      ApplyShrinks(n, id);
      ApplyVerified(ApplySyncedBlock(PopSync(n, id), id), order)
  }

  ghost function OnQcSignatureVerified(n: Node, id: BlockId, valid: bool, order: seq<BlockId>): Node {
    if id !in n.sync.pending then n
    else if !valid then n.(sync := n.sync.(pending := {}, verified := {}))
    else
      var t := ApplyVerified(n.(sync := n.sync.(verified := n.sync.verified + {id})), order);
      t.(sync := TryDrainBufferedSynced(t.sync, t.chain.committed))
  }

  // ---- Termination of the apply loop ----

  /** Synced blocks held, whether under verification or still buffered. */
  function Held(y: Sync): set<BlockId> {
    y.pending + set h | h in y.buffered :: BlockId(h, y.buffered[h])
  }

  lemma {:induction false} DrainHolds(y: Sync, next: nat, slots: nat)
    ensures Held(DrainFrom(y, next, slots)) <= Held(y)
    decreases slots
  {
    if slots > 0 && next in y.buffered {
      DrainHolds(SubmitBuffered(y, next), next + 1, slots - 1);
    }
  }

  lemma TryDrainHolds(y: Sync, committed: nat)
    ensures Held(TryDrainBufferedSynced(y, committed)) <= Held(y)
  {
    DrainHolds(y, NextToSubmit(y, committed), FreeSlots(y));
  }

  lemma ReadyHolds(n: Node, id: BlockId)
    ensures Held(OnBlockReadyToCommit(n, id).sync) <= Held(n.sync)
  {
    if CanCommit(n.chain, id) {
      var height := CommitFrom(n.chain, id).committed;
      TryDrainHolds(CleanupSync(n.sync, height), height);
    }
  }

  lemma {:induction false} DrainCommitsHolds(n: Node)
    ensures Held(DrainPendingCommits(n).sync) <= Held(n.sync)
    decreases n.chain.pendingCommits.Keys
  {
    var next := n.chain.committed + 1;
    if next in n.chain.pendingCommits {
      var id := BufferedCommit(n.chain, next);
      ReadyHolds(Popped(n), id);
      CommitFromShrinks(Popped(n).chain, id);
      var t := OnBlockReadyToCommit(Popped(n), id);
      if t.chain.committed >= next {
        DrainCommitsHolds(t);
      }
    }
  }

  lemma ApplyShrinks(n: Node, id: BlockId)
    requires id in n.sync.pending
    ensures Held(ApplySyncedBlock(PopSync(n, id), id).sync) < Held(n.sync)
  {
    var y := CleanupSync(PopSync(n, id).sync, id.height);
    DrainCommitsHolds(Node(Commit(n.chain, id), y));
    assert Held(y) <= Held(n.sync) && id in Held(n.sync) && id !in Held(y);
  }
}
