/**
 What every run of the commit and sync pipeline keeps.

 A run is any sequence of events: headers, own empty blocks, rejected blocks,
 arriving data, commits announced by consensus, blocks delivered by sync and
 answers of the signature checks, in any order and any number.
 */
module PipelineRuns {
  import opened CommitPipeline
  import opened Options

  datatype Event =
    | Header(id: BlockId, complete: bool)
    | OwnEmptyBlock(id: BlockId)
    | Reject(id: BlockId)
    | Data(id: BlockId)
    | Ready(id: BlockId)
    | SyncDeliver(id: BlockId, qc: Qc)
    | QcVerified(id: BlockId, valid: bool, order: seq<BlockId>)

  ghost function Step(n: Node, e: Event): Node {
    match e
    case Header(id, complete) => n.(chain := AcceptHeader(n.chain, id, complete))
    case OwnEmptyBlock(id) => n.(chain := AddOwnBlock(n.chain, id))
    case Reject(id) => n.(chain := DropPending(n.chain, id))
    case Data(id) => OnDataComplete(n, id)
    case Ready(id) => OnBlockReadyToCommit(n, id)
    case SyncDeliver(id, qc) => OnSyncedBlockReady(n, id, qc)
    case QcVerified(id, valid, order) => OnQcSignatureVerified(n, id, valid, order)
  }

  ghost function Run(n: Node, events: seq<Event>): Node
    decreases |events|
  {
    if events == [] then n else Run(Step(n, events[0]), events[1..])
  }

  // ---------------------------------------------------------------------------
  // Emission order
  // ---------------------------------------------------------------------------

  /** The blocks emitted since height `base` are base+1, base+2, ... up to the
      committed height, none skipped and none repeated. */
  ghost predicate InOrder(c: Chain, base: nat) {
    && base <= c.committed
    && |c.emitted| == c.committed - base
    && (forall i :: 0 <= i < |c.emitted| ==> c.emitted[i].height == base + 1 + i)
    && (c.emitted != [] ==> c.committedHash == Some(c.emitted[|c.emitted| - 1]))
  }

  lemma {:induction false} CommitFromInOrder(c: Chain, id: BlockId, base: nat)
    requires InOrder(c, base)
    ensures InOrder(CommitFrom(c, id), base)
    decreases c.pendingCommits.Keys
  {
    if CanCommit(c, id) && id.height + 1 in c.pendingCommits {
      CommitFromInOrder(PopCommit(Commit(c, id), id.height + 1), BufferedCommit(c, id.height + 1), base);
    }
  }

  lemma ReadyInOrder(n: Node, id: BlockId, base: nat)
    requires InOrder(n.chain, base)
    ensures InOrder(OnBlockReadyToCommit(n, id).chain, base)
  {
    CommitFromInOrder(n.chain, id, base);
  }

  lemma {:induction false} DrainCommitsInOrder(n: Node, base: nat)
    requires InOrder(n.chain, base)
    ensures InOrder(DrainPendingCommits(n).chain, base)
    decreases n.chain.pendingCommits.Keys
  {
    var next := n.chain.committed + 1;
    if next in n.chain.pendingCommits {
      var id := BufferedCommit(n.chain, next);
      ReadyInOrder(Popped(n), id, base);
      CommitFromShrinks(Popped(n).chain, id);
      var t := OnBlockReadyToCommit(Popped(n), id);
      if t.chain.committed >= next {
        DrainCommitsInOrder(t, base);
      }
    }
  }

  lemma {:induction false} ApplyVerifiedInOrder(n: Node, order: seq<BlockId>, base: nat)
    requires InOrder(n.chain, base)
    ensures InOrder(ApplyVerified(n, order).chain, base)
    decreases Held(n.sync)
  {
    if NextVerified(n) != {} {
      var id := Pick(order, NextVerified(n));
      var m := Node(Commit(n.chain, id), CleanupSync(PopSync(n, id).sync, id.height));
      DrainCommitsInOrder(m, base);
      ApplyShrinks(n, id);
      ApplyVerifiedInOrder(ApplySyncedBlock(PopSync(n, id), id), order, base);
    }
  }

  lemma StepInOrder(n: Node, e: Event, base: nat)
    requires InOrder(n.chain, base)
    ensures InOrder(Step(n, e).chain, base)
  {
    match e
    case Data(id) =>
      var c := Constructed(n.chain, id);
      ReadyInOrder(n.(chain := c.(awaitingData := c.awaitingData - {id})), id, base);
    case Ready(id) => ReadyInOrder(n, id, base);
    case QcVerified(id, valid, order) =>
      ApplyVerifiedInOrder(n.(sync := n.sync.(verified := n.sync.verified + {id})), order, base);
    case _ =>
  }

  /** Whatever the events, the blocks a node emits carry the heights base+1,
      base+2, ... in order, and the committed tip is the last of them. */
  lemma {:induction false} RunEmitsConsecutiveHeights(n: Node, events: seq<Event>, base: nat)
    requires InOrder(n.chain, base)
    ensures InOrder(Run(n, events).chain, base)
    decreases |events|
  {
    if events != [] {
      StepInOrder(n, events[0], base);
      RunEmitsConsecutiveHeights(Step(n, events[0]), events[1..], base);
    }
  }

  // ---------------------------------------------------------------------------
  // Buffered commits
  // ---------------------------------------------------------------------------

  /** No buffered commit is left at the next height. */
  ghost predicate NothingNext(c: Chain) {
    c.committed + 1 !in c.pendingCommits
  }

  /** From `c` to `t` buffered commits were taken out only up to the next height, and the one
      there, if any, only because its block is not available. */
  ghost predicate TakenUpTo(c: Chain, t: Chain) {
    && NothingNext(t)
    && (forall h :: h > t.committed + 1 ==> (h in t.pendingCommits <==> h in c.pendingCommits))
    && (forall h :: h in t.pendingCommits ==> h in c.pendingCommits && t.pendingCommits[h] == c.pendingCommits[h])
    && (t.committed + 1 in c.pendingCommits ==> !Available(t, BufferedCommit(c, t.committed + 1)))
  }

  /** The blocks emitted from `c` to `t` are the buffered ones, one per height. */
  ghost predicate EmittedFromBuffer(c: Chain, t: Chain) {
    && c.emitted <= t.emitted && |t.emitted| - |c.emitted| == t.committed - c.committed
    && forall i :: |c.emitted| <= i < |t.emitted| ==> FromBuffer(c, t.emitted[i], c.committed + 1 + i - |c.emitted|)
  }

  ghost predicate FromBuffer(c: Chain, id: BlockId, h: int) {
    h >= 0 && h in c.pendingCommits && id == BufferedCommit(c, h)
  }

  ghost predicate DrainedTo(c: Chain, t: Chain) {
    TakenUpTo(c, t) && EmittedFromBuffer(c, t)
  }

  /** Committing a block drains every available buffered successor. */
  lemma {:induction false} CommitFromDrains(c: Chain, id: BlockId)
    requires CanCommit(c, id)
    ensures DrainedTo(Commit(c, id), CommitFrom(c, id)) && CommitFrom(c, id).committed >= id.height
    decreases c.pendingCommits.Keys
  {
    var d, next := Commit(c, id), id.height + 1;
    if next in c.pendingCommits {
      var c1, successor := PopCommit(d, next), BufferedCommit(c, next);
      if CanCommit(c1, successor) {
        CommitFromDrains(c1, successor);
        DrainedThrough(d, successor, CommitFrom(c1, successor));
      }
    }
  }

  /** One buffered commit taken and committed, and the rest drained, is all drained. */
  lemma DrainedThrough(c: Chain, id: BlockId, t: Chain)
    requires id.height == c.committed + 1 && id.height in c.pendingCommits && id == BufferedCommit(c, id.height)
    requires DrainedTo(Commit(PopCommit(c, id.height), id), t) && t.committed >= id.height
    ensures DrainedTo(c, t)
  {
    var d, k := Commit(PopCommit(c, id.height), id), |c.emitted|;
    assert d.emitted == c.emitted + [id];
    assert t.emitted[..k] == d.emitted[..k] == c.emitted;
    forall i | k <= i < |t.emitted| ensures FromBuffer(c, t.emitted[i], c.committed + 1 + i - k) {
      if i == k {
        assert t.emitted[k] == d.emitted[k] == id;
      } else {
        assert FromBuffer(d, t.emitted[i], d.committed + 1 + i - |d.emitted|);
      }
    }
  }

  lemma NothingToCommit(n: Node)
    requires NothingNext(n.chain)
    ensures DrainPendingCommits(n) == n
  {
  }

  lemma DrainIsOneCommit(n: Node)
    requires n.chain.committed + 1 in n.chain.pendingCommits
    ensures DrainPendingCommits(n) == OnBlockReadyToCommit(Popped(n), BufferedCommit(n.chain, n.chain.committed + 1))
  {
    var c, id := Popped(n).chain, BufferedCommit(n.chain, n.chain.committed + 1);
    if CanCommit(c, id) {
      CommitFromDrains(c, id);
      NothingToCommit(OnBlockReadyToCommit(Popped(n), id));
    }
  }

  /** Draining commits every buffered successor whose block is available, one height after another,
      takes out nothing beyond, and leaves nothing at the next height. */
  lemma DrainCommitsDrains(n: Node)
    ensures DrainedTo(n.chain, DrainPendingCommits(n).chain)
  {
    var c, next := n.chain, n.chain.committed + 1;
    if next in c.pendingCommits {
      var id := BufferedCommit(c, next);
      DrainIsOneCommit(n);
      if CanCommit(Popped(n).chain, id) {
        CommitFromDrains(Popped(n).chain, id);
        DrainedThrough(c, id, CommitFrom(Popped(n).chain, id));
      }
    }
  }

  /** Applying a synced block drains the consensus commits buffered above it. */
  lemma ApplyDrains(n: Node, id: BlockId)
    ensures DrainedTo(Commit(n.chain, id), ApplySyncedBlock(n, id).chain)
  {
    DrainCommitsDrains(Node(Commit(n.chain, id), CleanupSync(n.sync, id.height)));
  }

  lemma ReadyLeavesNothingNext(n: Node, id: BlockId)
    requires NothingNext(n.chain)
    ensures NothingNext(OnBlockReadyToCommit(n, id).chain)
  {
    if CanCommit(n.chain, id) {
      CommitFromDrains(n.chain, id);
    }
  }

  lemma {:induction false} ApplyVerifiedLeavesNothingNext(n: Node, order: seq<BlockId>)
    requires NothingNext(n.chain)
    ensures NothingNext(ApplyVerified(n, order).chain)
    decreases Held(n.sync)
  {
    if NextVerified(n) != {} {
      var id := Pick(order, NextVerified(n));
      ApplyDrains(PopSync(n, id), id);
      ApplyShrinks(n, id);
      ApplyVerifiedLeavesNothingNext(ApplySyncedBlock(PopSync(n, id), id), order);
    }
  }

  lemma {:induction false} DrainKeepsVerified(y: Sync, next: nat, slots: nat, id: BlockId)
    requires id in DrainFrom(y, next, slots).pending && id in DrainFrom(y, next, slots).verified
    ensures id in y.pending && id in y.verified
    decreases slots
  {
    if slots > 0 && next in y.buffered {
      DrainKeepsVerified(SubmitBuffered(y, next), next + 1, slots - 1, id);
    }
  }

  lemma {:induction false} ApplyVerifiedAppliesAll(n: Node, order: seq<BlockId>)
    ensures NextVerified(ApplyVerified(n, order)) == {}
    decreases Held(n.sync)
  {
    if NextVerified(n) != {} {
      var id := Pick(order, NextVerified(n));
      ApplyShrinks(n, id);
      ApplyVerifiedAppliesAll(ApplySyncedBlock(PopSync(n, id), id), order);
    }
  }

  /** After a valid answer no verified block is left waiting at the next height, and the answered
      block is committed if it was there; an invalid one empties the verification table. */
  lemma AnswerAppliesOrClears(n: Node, id: BlockId, valid: bool, order: seq<BlockId>)
    requires id in n.sync.pending
    ensures var t := OnQcSignatureVerified(n, id, valid, order);
            && (valid ==> NextVerified(t) == {} && (id.height == n.chain.committed + 1 ==> t.chain.committed >= id.height))
            && (!valid ==> t.sync.pending == {} && t.sync.verified == {} && t.sync.buffered == n.sync.buffered && t.chain == n.chain)
  {
    if valid {
      var marked := n.(sync := n.sync.(verified := n.sync.verified + {id}));
      var a, t := ApplyVerified(marked, order), OnQcSignatureVerified(n, id, valid, order);
      ApplyVerifiedAppliesAll(marked, order);
      forall x | x in NextVerified(t) ensures x in NextVerified(a) {
        DrainKeepsVerified(a.sync, NextToSubmit(a.sync, a.chain.committed), FreeSlots(a.sync), x);
      }
      if id.height == n.chain.committed + 1 {
        assert id in NextVerified(marked);
        ApplyVerifiedAdvances(marked, order);
      }
    }
  }

  lemma {:induction false} ApplyVerifiedAdvances(n: Node, order: seq<BlockId>)
    ensures ApplyVerified(n, order).chain.committed >= n.chain.committed
    ensures NextVerified(n) != {} ==> ApplyVerified(n, order).chain.committed > n.chain.committed
    decreases Held(n.sync)
  {
    if NextVerified(n) != {} {
      var id := Pick(order, NextVerified(n));
      var m := ApplySyncedBlock(PopSync(n, id), id);
      ApplyDrains(PopSync(n, id), id);
      assert m.chain.committed >= id.height;
      ApplyShrinks(n, id);
      ApplyVerifiedAdvances(m, order);
    }
  }

  lemma StepLeavesNothingNext(n: Node, e: Event)
    requires NothingNext(n.chain)
    ensures NothingNext(Step(n, e).chain)
  {
    match e
    case Data(id) =>
      var c := Constructed(n.chain, id);
      ReadyLeavesNothingNext(n.(chain := c.(awaitingData := c.awaitingData - {id})), id);
    case Ready(id) => ReadyLeavesNothingNext(n, id);
    case QcVerified(id, valid, order) =>
      ApplyVerifiedLeavesNothingNext(n.(sync := n.sync.(verified := n.sync.verified + {id})), order);
    case _ =>
  }

  /** In every run, over both paths and their drains, no commit is left buffered at the next height. */
  lemma {:induction false} RunLeavesNothingNext(n: Node, events: seq<Event>)
    requires NothingNext(n.chain)
    ensures NothingNext(Run(n, events).chain)
    decreases |events|
  {
    if events != [] {
      StepLeavesNothingNext(n, events[0]);
      RunLeavesNothingNext(Step(n, events[0]), events[1..]);
    }
  }

  // ---------------------------------------------------------------------------
  // The verification window of synced blocks
  // ---------------------------------------------------------------------------

  ghost predicate UnderVerification(pending: set<BlockId>, height: nat) {
    exists id :: id in pending && id.height == height
  }

  /** The heights under verification are exactly committed+1 .. committed+k for
      the k <= 16 blocks held, one block per height, each one asked about; every
      buffered block lies above them. */
  ghost predicate Window(y: Sync, committed: nat) {
    var top := committed + |y.pending|;
    && |y.pending| <= MAX_PARALLEL_SYNC_VERIFICATIONS
    && (forall id :: id in y.pending ==> committed < id.height <= top && id in y.requested)
    && (forall a, b :: a in y.pending && b in y.pending && a.height == b.height ==> a == b)
    && (forall h: nat :: committed < h <= top ==> UnderVerification(y.pending, h))
    && (forall h :: h in y.buffered ==> top < h)
  }

  /** The invariant between events: besides the window, the next height to commit
      is never left waiting in the buffer. */
  ghost predicate Settled(y: Sync, committed: nat) {
    Window(y, committed) && committed + 1 !in y.buffered
  }

  lemma SubmitKeepsWindow(y: Sync, id: BlockId, committed: nat)
    requires Window(y, committed)
    requires |y.pending| < MAX_PARALLEL_SYNC_VERIFICATIONS
    requires id.height == committed + |y.pending| + 1
    requires id.height !in y.buffered
    ensures Window(Submit(y, id), committed)
    ensures |Submit(y, id).pending| == |y.pending| + 1
  {
    var r := Submit(y, id);
    assert id !in y.pending;
    forall h: nat | committed < h <= committed + |r.pending|
      ensures UnderVerification(r.pending, h)
    {
      if h == id.height {
        assert id in r.pending;
      } else {
        assert UnderVerification(y.pending, h);
        var x :| x in y.pending && x.height == h;
        assert x in r.pending;
      }
    }
  }

  lemma SubmitBufferedKeepsWindow(y: Sync, next: nat, committed: nat)
    requires Window(y, committed)
    requires |y.pending| < MAX_PARALLEL_SYNC_VERIFICATIONS
    requires next == committed + |y.pending| + 1 && next in y.buffered
    ensures Window(SubmitBuffered(y, next), committed)
    ensures |SubmitBuffered(y, next).pending| == |y.pending| + 1
  {
    SubmitKeepsWindow(y.(buffered := y.buffered - {next}), BlockId(next, y.buffered[next]), committed);
  }

  lemma {:induction false} DrainFromKeepsWindow(y: Sync, next: nat, slots: nat, committed: nat, drained: Sync)
    requires Window(y, committed)
    requires next == committed + |y.pending| + 1
    requires 0 < slots + |y.pending| <= MAX_PARALLEL_SYNC_VERIFICATIONS
    requires drained == DrainFrom(y, next, slots)
    ensures Settled(drained, committed)
    decreases slots
  {
    if slots > 0 && next in y.buffered {
      SubmitBufferedKeepsWindow(y, next, committed);
      DrainFromKeepsWindow(SubmitBuffered(y, next), next + 1, slots - 1, committed, drained);
    } else {
      FullOrNothingNextSettles(y, next, committed);
    }
  }

  lemma FullOrNothingNextSettles(y: Sync, next: nat, committed: nat)
    requires Window(y, committed) && next == committed + |y.pending| + 1
    requires y.pending != {} || next !in y.buffered
    ensures Settled(y, committed)
  {
  }

  lemma TopIsWindowEnd(y: Sync, committed: nat)
    requires Window(y, committed)
    ensures NextToSubmit(y, committed) == committed + |y.pending| + 1
  {
    var top := committed + |y.pending|;
    assert top > committed ==> UnderVerification(y.pending, top);
  }

  lemma TryDrainSettles(y: Sync, committed: nat)
    requires Window(y, committed)
    ensures Settled(TryDrainBufferedSynced(y, committed), committed)
  {
    TopIsWindowEnd(y, committed);
    DrainFromKeepsWindow(y, NextToSubmit(y, committed), FreeSlots(y), committed, TryDrainBufferedSynced(y, committed));
  }

  /** Committing one height slides the window by one. */
  lemma CleanupSlidesWindow(y: Sync, committed: nat)
    requires Window(y, committed)
    ensures Window(CleanupSync(y, committed + 1), committed + 1)
  {
    var r := CleanupSync(y, committed + 1);
    if y.pending == {} {
      assert r.pending == {};
    } else {
      assert UnderVerification(y.pending, committed + 1);
      var first :| first in y.pending && first.height == committed + 1;
      assert r.pending == y.pending - {first};
      forall h: nat | committed + 1 < h <= committed + 1 + |r.pending|
        ensures UnderVerification(r.pending, h)
      {
        assert UnderVerification(y.pending, h);
        var x :| x in y.pending && x.height == h;
        assert x in r.pending;
      }
    }
  }

  lemma {:induction false} CleanupKeepsWindow(y: Sync, low: nat, high: nat)
    requires low < high
    requires Window(y, low)
    ensures Window(CleanupSync(y, high), high)
    decreases high - low
  {
    CleanupSlidesWindow(y, low);
    if low + 1 < high {
      CleanupKeepsWindow(CleanupSync(y, low + 1), low + 1, high);
      CleanupTwice(y, low + 1, high);
    }
  }

  lemma ReadyKeepsWindow(n: Node, id: BlockId)
    requires Window(n.sync, n.chain.committed)
    ensures var t := OnBlockReadyToCommit(n, id); Window(t.sync, t.chain.committed)
    ensures var t := OnBlockReadyToCommit(n, id);
            Settled(n.sync, n.chain.committed) || t.chain.committed > n.chain.committed ==>
            Settled(t.sync, t.chain.committed)
  {
    if CanCommit(n.chain, id) {
      var c := CommitFrom(n.chain, id);
      CommitFromShrinks(n.chain, id);
      CleanupKeepsWindow(n.sync, n.chain.committed, c.committed);
      TryDrainSettles(CleanupSync(n.sync, c.committed), c.committed);
    }
  }

  lemma {:induction false} DrainCommitsKeepsWindow(n: Node)
    requires Window(n.sync, n.chain.committed)
    ensures var t := DrainPendingCommits(n); Window(t.sync, t.chain.committed)
    decreases n.chain.pendingCommits.Keys
  {
    var next := n.chain.committed + 1;
    if next in n.chain.pendingCommits {
      var id := BufferedCommit(n.chain, next);
      ReadyKeepsWindow(Popped(n), id);
      CommitFromShrinks(Popped(n).chain, id);
      var t := OnBlockReadyToCommit(Popped(n), id);
      if t.chain.committed >= next {
        DrainCommitsKeepsWindow(t);
      }
    }
  }

  lemma AppliedKeepsWindow(n: Node, id: BlockId)
    requires Window(n.sync, n.chain.committed) && id in NextVerified(n)
    ensures var t := ApplySyncedBlock(PopSync(n, id), id); Window(t.sync, t.chain.committed)
  {
    var y := CleanupSync(PopSync(n, id).sync, id.height);
    assert y == CleanupSync(n.sync, id.height) by {
      assert y.pending == IdsAbove(n.sync.pending, id.height);
      assert y.verified == IdsAbove(n.sync.verified, id.height);
    }
    CleanupSlidesWindow(n.sync, n.chain.committed);
    DrainCommitsKeepsWindow(Node(Commit(n.chain, id), y));
  }

  lemma {:induction false} ApplyVerifiedKeepsWindow(n: Node, order: seq<BlockId>)
    requires Window(n.sync, n.chain.committed)
    ensures var t := ApplyVerified(n, order); Window(t.sync, t.chain.committed)
    decreases Held(n.sync)
  {
    if NextVerified(n) != {} {
      var id := Pick(order, NextVerified(n));
      AppliedKeepsWindow(n, id);
      ApplyShrinks(n, id);
      ApplyVerifiedKeepsWindow(ApplySyncedBlock(PopSync(n, id), id), order);
    }
  }

  lemma VerifiedSettles(n: Node, id: BlockId, valid: bool, order: seq<BlockId>)
    requires Settled(n.sync, n.chain.committed)
    ensures var t := OnQcSignatureVerified(n, id, valid, order); Settled(t.sync, t.chain.committed)
  {
    if id in n.sync.pending && valid {
      var marked := n.(sync := n.sync.(verified := n.sync.verified + {id}));
      ApplyVerifiedKeepsWindow(marked, order);
      var t := ApplyVerified(marked, order);
      TryDrainSettles(t.sync, t.chain.committed);
    }
  }

  /** A delivered block competes with a different block of the same height that is
      already under verification. */
  ghost predicate Conflicts(n: Node, id: BlockId, qc: Qc) {
    && qc.blockHash == Some(id)
    && id !in n.sync.pending
    && n.chain.committed < id.height <= n.chain.committed + |n.sync.pending|
  }

  /** Draining never looks below its starting height and never ends a verification. */
  lemma {:induction false} DrainFromKeepsBelow(y: Sync, next: nat, slots: nat, height: nat)
    requires height < next && height in y.buffered
    ensures height in DrainFrom(y, next, slots).buffered
    ensures y.pending <= DrainFrom(y, next, slots).pending
    decreases slots
  {
    if slots > 0 && next in y.buffered {
      DrainFromKeepsBelow(SubmitBuffered(y, next), next + 1, slots - 1, height);
    }
  }

  lemma ConflictUnsettles(n: Node, id: BlockId, qc: Qc)
    requires Window(n.sync, n.chain.committed)
    requires Conflicts(n, id, qc)
    ensures var t := OnSyncedBlockReady(n, id, qc); !Window(t.sync, t.chain.committed)
  {
    var t := OnSyncedBlockReady(n, id, qc);
    if id.height == n.chain.committed + 1 {
      assert UnderVerification(n.sync.pending, id.height);
      var rival :| rival in n.sync.pending && rival.height == id.height;
      assert rival in t.sync.pending && id in t.sync.pending;
    } else {
      var y := n.sync.(buffered := n.sync.buffered[id.height := id.digest]);
      assert UnderVerification(n.sync.pending, n.chain.committed + |n.sync.pending|);
      DrainFromKeepsBelow(y, NextToSubmit(y, n.chain.committed), FreeSlots(y), id.height);
      assert t.sync.pending == n.sync.pending + (t.sync.pending - n.sync.pending);
    }
  }

  /** A delivery keeps the invariant exactly when it does not compete. */
  lemma DeliverySettlesIffNoConflict(n: Node, id: BlockId, qc: Qc)
    requires Settled(n.sync, n.chain.committed)
    ensures var t := OnSyncedBlockReady(n, id, qc);
            Settled(t.sync, t.chain.committed) <==> !Conflicts(n, id, qc)
  {
    if Conflicts(n, id, qc) {
      ConflictUnsettles(n, id, qc);
    } else if id.height == n.chain.committed + 1 && n.sync.pending == {} {
      SubmitKeepsWindow(n.sync, id, n.chain.committed);
    } else if id.height > n.chain.committed + 1 {
      var y := n.sync.(buffered := n.sync.buffered[id.height := id.digest]);
      if id.height > n.chain.committed + |y.pending| {
        TryDrainSettles(y, n.chain.committed);
      }
    }
  }

  // ---- Runs of conforming deliveries ----

  lemma {:induction false} ApplyVerifiedHolds(n: Node, order: seq<BlockId>)
    ensures Held(ApplyVerified(n, order).sync) <= Held(n.sync)
    decreases Held(n.sync)
  {
    if NextVerified(n) != {} {
      var id := Pick(order, NextVerified(n));
      ApplyShrinks(n, id);
      ApplyVerifiedHolds(ApplySyncedBlock(PopSync(n, id), id), order);
    }
  }

  ghost function Delivered(e: Event): set<BlockId> {
    if e.SyncDeliver? then {e.id} else {}
  }

  lemma DeliveryHolds(n: Node, id: BlockId, qc: Qc)
    ensures Held(OnSyncedBlockReady(n, id, qc).sync) <= Held(n.sync) + {id}
  {
    var y := n.sync.(buffered := n.sync.buffered[id.height := id.digest]);
    if id.height > n.chain.committed + 1 && id.height !in n.sync.buffered {
      TryDrainHolds(y, n.chain.committed);
    }
  }

  lemma VerifiedHolds(n: Node, id: BlockId, valid: bool, order: seq<BlockId>)
    ensures Held(OnQcSignatureVerified(n, id, valid, order).sync) <= Held(n.sync)
  {
    if id in n.sync.pending && valid {
      var marked := n.(sync := n.sync.(verified := n.sync.verified + {id}));
      var t := ApplyVerified(marked, order);
      ApplyVerifiedHolds(marked, order);
      TryDrainHolds(t.sync, t.chain.committed);
    }
  }

  lemma DataHolds(n: Node, id: BlockId)
    ensures Held(OnDataComplete(n, id).sync) <= Held(n.sync)
  {
    var c := Constructed(n.chain, id);
    ReadyHolds(n.(chain := c.(awaitingData := c.awaitingData - {id})), id);
  }

  /** The only synced blocks a node holds are those it was delivered. */
  lemma StepHolds(n: Node, e: Event)
    ensures Held(Step(n, e).sync) <= Held(n.sync) + Delivered(e)
  {
    match e
    case Data(id) => DataHolds(n, id);
    case Ready(id) => ReadyHolds(n, id);
    case SyncDeliver(id, qc) => DeliveryHolds(n, id, qc);
    case QcVerified(id, valid, order) => VerifiedHolds(n, id, valid, order);
    case _ =>
  }

  lemma StepSettles(n: Node, e: Event)
    requires Settled(n.sync, n.chain.committed)
    requires e.SyncDeliver? ==> !Conflicts(n, e.id, e.qc)
    ensures var t := Step(n, e); Settled(t.sync, t.chain.committed)
  {
    match e
    case Data(id) =>
      var c := Constructed(n.chain, id);
      ReadyKeepsWindow(n.(chain := c.(awaitingData := c.awaitingData - {id})), id);
    case Ready(id) => ReadyKeepsWindow(n, id);
    case SyncDeliver(id, qc) => DeliverySettlesIffNoConflict(n, id, qc);
    case QcVerified(id, valid, order) => VerifiedSettles(n, id, valid, order);
    case _ =>
  }

  /** All blocks agree with one assignment of blocks to heights. */
  ghost predicate OnePerHeight(ids: set<BlockId>, digestAt: nat -> nat) {
    forall id :: id in ids ==> id.digest == digestAt(id.height)
  }

  lemma ConformingNeverConflicts(n: Node, id: BlockId, qc: Qc, digestAt: nat -> nat)
    requires Window(n.sync, n.chain.committed)
    requires OnePerHeight(Held(n.sync), digestAt)
    requires id.digest == digestAt(id.height)
    ensures !Conflicts(n, id, qc)
  {
    if UnderVerification(n.sync.pending, id.height) {
      var rival :| rival in n.sync.pending && rival.height == id.height;
      assert rival in Held(n.sync);
      assert rival == id;
    }
  }

  /** In every run whose delivered blocks agree on one block per height, and with
      any consensus commits and any verification answers in between, the window
      invariant holds at the end, and so after every prefix. */
  lemma {:induction false} RunKeepsWindow(n: Node, events: seq<Event>, digestAt: nat -> nat)
    requires Settled(n.sync, n.chain.committed)
    requires OnePerHeight(Held(n.sync), digestAt)
    requires forall e :: e in events ==> OnePerHeight(Delivered(e), digestAt)
    ensures var t := Run(n, events); Settled(t.sync, t.chain.committed)
    decreases |events|
  {
    if events != [] {
      var e := events[0];
      assert OnePerHeight(Delivered(e), digestAt);
      if e.SyncDeliver? {
        assert e.id in Delivered(e);
        ConformingNeverConflicts(n, e.id, e.qc, digestAt);
      }
      StepSettles(n, e);
      StepHolds(n, e);
      RunKeepsWindow(Step(n, e), events[1..], digestAt);
    }
  }

  // ---- Why the deliveries have to agree ----

  lemma NothingToDrain(y: Sync, committed: nat, last: BlockId)
    requires last in y.pending && committed < last.height
    requires forall id :: id in y.pending ==> id.height <= last.height
    requires last.height + 1 !in y.buffered
    ensures TryDrainBufferedSynced(y, committed) == y
  {
    assert TopHeight(y.pending, committed) == last.height;
  }

  lemma TwoBlockWindow(first: BlockId, second: BlockId)
    requires first.height == 1 && second.height == 2
    ensures Settled(Sync({first, second}, {}, map[], [first, second]), 0)
  {
    var pending := {first, second};
    assert |pending| == 2 && first in pending && second in pending;
    assert UnderVerification(pending, 1) && UnderVerification(pending, 2);
  }

  lemma RunOfThree(n: Node, e0: Event, e1: Event, e2: Event)
    ensures Run(n, [e0, e1, e2]) == Step(Step(Step(n, e0), e1), e2)
  {
    var n1 := Step(n, e0);
    var n2 := Step(n1, e1);
    assert [e0, e1, e2][1..] == [e1, e2];
    assert Run(n, [e0, e1, e2]) == Run(n1, [e1, e2]);
    assert [e1, e2][1..] == [e2];
    assert Run(n1, [e1, e2]) == Run(n2, [e2]);
    assert [e2][1..] == [];
    assert Run(n2, [e2]) == Run(Step(n2, e2), []);
  }

  lemma VerifiedBlockIsApplied(c: Chain, first: BlockId, second: BlockId, digest: nat, order: seq<BlockId>)
    requires c.committed == 0 && c.pendingCommits == map[]
    requires first.height == 1 && second.height == 2
    ensures var y := Sync({first, second}, {}, map[2 := digest], [first, second]);
            OnQcSignatureVerified(Node(c, y), first, true, order) == Node(Commit(c, first), y.(pending := {second}))
  {
    var y := Sync({first, second}, {}, map[2 := digest], [first, second]);
    var marked := Node(c, y.(verified := {first}));
    var t := Node(Commit(c, first), y.(pending := {second}));
    assert NextVerified(marked) == {first};
    assert CleanupSync(PopSync(marked, first).sync, 1) == t.sync;
    assert NextVerified(t) == {};
    assert ApplyVerified(marked, order) == ApplyVerified(t, order);
    NothingToDrain(t.sync, 1, second);
  }

  /** Heights 1 and 2 are under verification when a rival for height 2 arrives. It
      is buffered; height 1 is applied; verification of the first block for height
      2 fails. The rival is now parked at the next height to commit, where a new
      delivery of either block is ignored. */
  lemma CompetingDeliveryParksTheNextHeight(c: Chain, first: BlockId, second: BlockId, rival: BlockId, order: seq<BlockId>)
    requires c.committed == 0 && c.pendingCommits == map[]
    requires first.height == 1 && second.height == rival.height == 2 && second != rival
    ensures var n := Node(c, Sync({first, second}, {}, map[], [first, second]));
            var q2, q3 := Qc(Some(second), 2), Qc(Some(rival), 2);
            var t := Run(n, [SyncDeliver(rival, q3), QcVerified(first, true, order), QcVerified(second, false, order)]);
            && Settled(n.sync, 0)
            && t.chain.committed + 1 in t.sync.buffered
            && t == OnSyncedBlockReady(t, second, q2) == OnSyncedBlockReady(t, rival, q3)
  {
    var y := Sync({first, second}, {}, map[], [first, second]);
    var y1 := y.(buffered := map[2 := rival.digest]);
    TwoBlockWindow(first, second);
    RivalIsBuffered(c, first, second, rival);
    VerifiedBlockIsApplied(c, first, second, rival.digest, order);
    RunOfThree(Node(c, y), SyncDeliver(rival, Qc(Some(rival), 2)), QcVerified(first, true, order), QcVerified(second, false, order));
    RivalStaysParked(Node(Commit(c, first), y1.(pending := {second})), second, rival, order);
  }

  lemma RivalIsBuffered(c: Chain, first: BlockId, second: BlockId, rival: BlockId)
    requires c.committed == 0 && first.height == 1 && second.height == rival.height == 2 && second != rival
    ensures var y := Sync({first, second}, {}, map[], [first, second]);
            OnSyncedBlockReady(Node(c, y), rival, Qc(Some(rival), 2)) == Node(c, y.(buffered := map[2 := rival.digest]))
  {
    NothingToDrain(Sync({first, second}, {}, map[2 := rival.digest], [first, second]), 0, second);
  }

  lemma RivalStaysParked(n: Node, second: BlockId, rival: BlockId, order: seq<BlockId>)
    requires n.chain.committed == 1 && second.height == rival.height == 2
    requires n.sync.pending == {second} && n.sync.buffered == map[2 := rival.digest]
    ensures var t := Step(n, QcVerified(second, false, order));
            && t.chain.committed + 1 in t.sync.buffered
            && t == OnSyncedBlockReady(t, second, Qc(Some(second), 2)) == OnSyncedBlockReady(t, rival, Qc(Some(rival), 2))
  {
  }
}
