/**
 What each event of the commit and sync pipeline does to the node, seen from one block:
 which blocks it holds and can commit afterwards, and what it may emit.
 */
module PipelineSteps {
  import opened CommitPipeline
  import opened Options
  import opened PipelineRuns

  /** Above a height, two chains know the same blocks. */
  ghost predicate SameAbove(c: Chain, d: Chain, height: nat) {
    forall id: BlockId :: id.height > height ==> SameBlock(c, d, id)
  }

  predicate SameBlock(c: Chain, d: Chain, id: BlockId) {
    && (id in c.pendingBlocks <==> id in d.pendingBlocks)
    && (id in c.pendingBlocks ==> c.pendingBlocks[id] == d.pendingBlocks[id])
    && (id in c.certified <==> id in d.certified)
  }

  /** What was emitted between two chains was available or verified, and above the first tip. */
  ghost predicate EmitsBacked(c: Chain, d: Chain, verified: set<BlockId>) {
    && c.emitted <= d.emitted
    && forall i :: |c.emitted| <= i < |d.emitted| ==> Backed(c, verified, d.emitted[i])
  }

  predicate Backed(c: Chain, verified: set<BlockId>, id: BlockId) {
    id.height > c.committed && (Available(c, id) || id in verified)
  }

  /** Blocks complete at hand: constructed ones and our own. */
  function CompleteBlocks(c: Chain): set<BlockId> {
    (set id | id in c.pendingBlocks && c.pendingBlocks[id]) + c.certified
  }

  /** A chain moves forward, and forgets nothing about blocks it has not passed. */
  ghost predicate ChainMoves(c: Chain, d: Chain, verified: set<BlockId>) {
    && c.committed <= d.committed && SameAbove(c, d, d.committed)
    && CompleteBlocks(d) <= CompleteBlocks(c) && EmitsBacked(c, d, verified)
  }

  /** Of the synced blocks above a height none is lost and none is new, and none becomes verified. */
  ghost predicate SyncMoves(y: Sync, z: Sync, height: nat) {
    && (forall id: BlockId :: id.height > height ==> (id in Held(y) <==> id in Held(z)))
    && z.verified <= y.verified
  }

  ghost predicate Moves(n: Node, t: Node) {
    ChainMoves(n.chain, t.chain, n.sync.verified) && SyncMoves(n.sync, t.sync, t.chain.committed)
  }

  lemma ChainMovesTwice(c: Chain, d: Chain, e: Chain, verified: set<BlockId>, later: set<BlockId>)
    requires ChainMoves(c, d, verified) && ChainMoves(d, e, later) && later <= verified
    ensures ChainMoves(c, e, verified)
  {
    forall id: BlockId | id.height > e.committed ensures SameBlock(c, e, id) {
      assert SameBlock(c, d, id) && SameBlock(d, e, id);
    }
    forall i | |c.emitted| <= i < |e.emitted| ensures Backed(c, verified, e.emitted[i]) {
      if i < |d.emitted| {
        assert e.emitted[i] == d.emitted[i];
      } else {
        assert Backed(d, later, e.emitted[i]) && SameBlock(c, d, e.emitted[i]);
      }
    }
  }

  lemma MovesTwice(n: Node, m: Node, t: Node)
    requires Moves(n, m) && Moves(m, t)
    ensures Moves(n, t)
  {
    ChainMovesTwice(n.chain, m.chain, t.chain, n.sync.verified, m.sync.verified);
    forall id: BlockId | id.height > t.chain.committed ensures id in Held(n.sync) <==> id in Held(t.sync) {
      assert id in Held(n.sync) <==> id in Held(m.sync);
    }
  }

  // ---- The handlers move the node ----

  lemma CommitMoves(c: Chain, id: BlockId, verified: set<BlockId>)
    requires Backed(c, verified, id)
    ensures ChainMoves(c, Commit(c, id), verified)
  {
    var d := Commit(c, id);
    forall x: BlockId | x.height > d.committed ensures SameBlock(c, d, x) {
    }
    assert forall i :: |c.emitted| <= i < |d.emitted| ==> d.emitted[i] == id;
  }

  lemma {:induction false} CommitFromMoves(c: Chain, id: BlockId, verified: set<BlockId>)
    ensures ChainMoves(c, CommitFrom(c, id), verified)
    decreases c.pendingCommits.Keys
  {
    if CanCommit(c, id) {
      CommitMoves(c, id, verified);
      if id.height + 1 in c.pendingCommits {
        var d := PopCommit(Commit(c, id), id.height + 1);
        CommitFromMoves(d, BufferedCommit(c, id.height + 1), verified);
        ChainMovesTwice(c, d, CommitFrom(c, id), verified, verified);
      }
    }
  }

  lemma {:induction false} DrainHoldsAll(y: Sync, next: nat, slots: nat)
    ensures Held(DrainFrom(y, next, slots)) == Held(y)
    ensures DrainFrom(y, next, slots).verified <= y.verified
    decreases slots
  {
    if slots > 0 && next in y.buffered {
      var z := SubmitBuffered(y, next);
      DrainHoldsAll(z, next + 1, slots - 1);
      SubmitBufferedHolds(y, next);
    }
  }

  lemma HeldIff(y: Sync, id: BlockId)
    ensures id in Held(y) <==> id in y.pending || (id.height in y.buffered && y.buffered[id.height] == id.digest)
  {
    assert id == BlockId(id.height, id.digest);
  }

  lemma SubmitBufferedHolds(y: Sync, next: nat)
    requires next in y.buffered
    ensures Held(SubmitBuffered(y, next)) == Held(y)
  {
    var z, id := SubmitBuffered(y, next), BlockId(next, y.buffered[next]);
    assert z.pending == y.pending + {id} && z.buffered == y.buffered - {next};
    forall x ensures x in Held(z) <==> x in Held(y) {
      HeldIff(y, x);
      HeldIff(z, x);
    }
  }

  lemma TryDrainMoves(y: Sync, committed: nat)
    ensures SyncMoves(y, TryDrainBufferedSynced(y, committed), committed)
    ensures Held(TryDrainBufferedSynced(y, committed)) == Held(y)
  {
    DrainHoldsAll(y, NextToSubmit(y, committed), FreeSlots(y));
  }

  lemma CleanupMoves(y: Sync, height: nat)
    ensures SyncMoves(y, CleanupSync(y, height), height)
    ensures forall id :: id in Held(CleanupSync(y, height)) <==> id in Held(y) && id.height > height
  {
    forall id ensures id in Held(CleanupSync(y, height)) <==> id in Held(y) && id.height > height {
      HeldIff(y, id);
      HeldIff(CleanupSync(y, height), id);
    }
  }

  lemma ReadyMoves(n: Node, id: BlockId)
    ensures Moves(n, OnBlockReadyToCommit(n, id))
  {
    if CanCommit(n.chain, id) {
      var c := CommitFrom(n.chain, id);
      CommitFromMoves(n.chain, id, n.sync.verified);
      CleanupMoves(n.sync, c.committed);
      TryDrainMoves(CleanupSync(n.sync, c.committed), c.committed);
    }
  }

  lemma {:induction false} DrainCommitsMoves(n: Node)
    ensures Moves(n, DrainPendingCommits(n))
    decreases n.chain.pendingCommits.Keys
  {
    var next := n.chain.committed + 1;
    if next in n.chain.pendingCommits {
      var id := BufferedCommit(n.chain, next);
      var t := OnBlockReadyToCommit(Popped(n), id);
      ReadyMoves(Popped(n), id);
      CommitFromShrinks(Popped(n).chain, id);
      PoppedMoves(n, t);
      if t.chain.committed >= next {
        DrainCommitsMoves(t);
        MovesTwice(n, t, DrainPendingCommits(n));
      }
    }
  }

  lemma PoppedMoves(n: Node, t: Node)
    requires Moves(Popped(n), t)
    ensures Moves(n, t)
  {
    forall id: BlockId | id.height > t.chain.committed ensures SameBlock(n.chain, t.chain, id) {
      assert SameBlock(Popped(n).chain, t.chain, id);
    }
    forall i | |n.chain.emitted| <= i < |t.chain.emitted| ensures Backed(n.chain, n.sync.verified, t.chain.emitted[i]) {
      assert Backed(Popped(n).chain, n.sync.verified, t.chain.emitted[i]);
    }
  }

  lemma ApplyMoves(n: Node, id: BlockId)
    requires id in NextVerified(n)
    ensures Moves(n, ApplySyncedBlock(PopSync(n, id), id))
  {
    var m := Node(Commit(n.chain, id), CleanupSync(PopSync(n, id).sync, id.height));
    CommitMoves(n.chain, id, n.sync.verified);
    CleanupMoves(PopSync(n, id).sync, id.height);
    PopHolds(n, id);
    assert Moves(n, m);
    DrainCommitsMoves(m);
    MovesTwice(n, m, DrainPendingCommits(m));
  }

  lemma PopHolds(n: Node, id: BlockId)
    ensures forall x: BlockId :: x != id ==> (x in Held(n.sync) <==> x in Held(PopSync(n, id).sync))
  {
  }

  lemma {:induction false} ApplyVerifiedMoves(n: Node, order: seq<BlockId>)
    ensures Moves(n, ApplyVerified(n, order))
    decreases Held(n.sync)
  {
    if NextVerified(n) != {} {
      var id := Pick(order, NextVerified(n));
      var m := ApplySyncedBlock(PopSync(n, id), id);
      ApplyShrinks(n, id);
      ApplyMoves(n, id);
      ApplyVerifiedMoves(m, order);
      MovesTwice(n, m, ApplyVerified(n, order));
    }
  }

  // ---- One event, seen from one block ----

  /** The node takes a delivered block in: it is new, above the tip, named by its certificate. */
  predicate Accepts(n: Node, id: BlockId, qc: Qc) {
    id.height > n.chain.committed && qc.blockHash == Some(id) && id.height !in n.sync.buffered
  }

  /** The synced blocks held before the event reaches the tip. */
  predicate HeldNow(n: Node, e: Event, id: BlockId) {
    match e
    case SyncDeliver(x, qc) => id in Held(n.sync) || (id == x && Accepts(n, x, qc))
    case QcVerified(x, false, _) =>
      id in Held(n.sync) && (x in n.sync.pending ==> id.height in n.sync.buffered && n.sync.buffered[id.height] == id.digest)
    case _ => id in Held(n.sync)
  }

  lemma DeliveryHeldIff(n: Node, x: BlockId, qc: Qc, id: BlockId)
    ensures id in Held(OnSyncedBlockReady(n, x, qc).sync) <==> HeldNow(n, SyncDeliver(x, qc), id)
  {
    HeldIff(n.sync, id);
    if Accepts(n, x, qc) && x !in n.sync.pending {
      if x.height == n.chain.committed + 1 {
        HeldIff(Submit(n.sync, x), id);
      } else {
        var y := n.sync.(buffered := n.sync.buffered[x.height := x.digest]);
        HeldIff(y, id);
        TryDrainMoves(y, n.chain.committed);
        assert OnSyncedBlockReady(n, x, qc).sync == TryDrainBufferedSynced(y, n.chain.committed);
      }
    } else {
      assert OnSyncedBlockReady(n, x, qc) == n;
    }
  }

  lemma AnswerHeldIff(n: Node, x: BlockId, valid: bool, order: seq<BlockId>, id: BlockId)
    requires id.height > OnQcSignatureVerified(n, x, valid, order).chain.committed
    ensures id in Held(OnQcSignatureVerified(n, x, valid, order).sync) <==> HeldNow(n, QcVerified(x, valid, order), id)
  {
    HeldIff(n.sync, id);
    HeldIff(n.sync.(pending := {}, verified := {}), id);
    if x in n.sync.pending && valid {
      var marked := n.(sync := n.sync.(verified := n.sync.verified + {x}));
      var t := ApplyVerified(marked, order);
      ApplyVerifiedMoves(marked, order);
      TryDrainMoves(t.sync, t.chain.committed);
      assert Held(marked.sync) == Held(n.sync);
    }
  }

  /** No synced block above the tip is ever lost or made up: after any event the node holds exactly
      those it held, plus an accepted delivery, less those under verification when an answer is
      invalid. */
  lemma HeldAfterStepIff(n: Node, e: Event, id: BlockId)
    requires id.height > Step(n, e).chain.committed
    ensures id in Held(Step(n, e).sync) <==> HeldNow(n, e, id)
  {
    match e
    case Data(x) =>
      var c := Constructed(n.chain, x);
      ReadyMoves(n.(chain := c.(awaitingData := c.awaitingData - {x})), x);
    case Ready(x) => ReadyMoves(n, x);
    case SyncDeliver(x, qc) => DeliveryHeldIff(n, x, qc, id);
    case QcVerified(x, valid, order) => AnswerHeldIff(n, x, valid, order, id);
    case _ =>
  }

  /** The block could be committed, as far as the event itself decides. */
  predicate AvailableNow(c: Chain, e: Event, id: BlockId) {
    match e
    case Header(x, complete) => if x == id && id !in c.pendingBlocks then complete else Available(c, id)
    case OwnEmptyBlock(x) => x == id || Available(c, id)
    case Reject(x) => if x == id then id in c.certified else Available(c, id)
    case Data(x) => (x == id && id in c.pendingBlocks) || Available(c, id)
    case _ => Available(c, id)
  }

  lemma AnswerMoves(n: Node, id: BlockId, valid: bool, order: seq<BlockId>)
    ensures var t := OnQcSignatureVerified(n, id, valid, order);
            ChainMoves(n.chain, t.chain, n.sync.verified + {id}) && t.sync.verified <= n.sync.verified + {id}
    ensures (id in n.sync.pending && valid) || OnQcSignatureVerified(n, id, valid, order).chain == n.chain
  {
    if id in n.sync.pending && valid {
      var marked := n.(sync := n.sync.(verified := n.sync.verified + {id}));
      var t := ApplyVerified(marked, order);
      ApplyVerifiedMoves(marked, order);
      TryDrainMoves(t.sync, t.chain.committed);
    }
  }

  /** Which blocks above the tip can be committed changes only as the event says: commits, drains
      and clean-ups on the way forget none of them. */
  lemma AvailableAfterStepIff(n: Node, e: Event, id: BlockId)
    requires id.height > Step(n, e).chain.committed
    ensures Available(Step(n, e).chain, id) <==> AvailableNow(n.chain, e, id)
    ensures id in Step(n, e).chain.certified <==> id in n.chain.certified || e == OwnEmptyBlock(id)
  {
    match e
    case Data(x) =>
      var c := Constructed(n.chain, x);
      var m := n.(chain := c.(awaitingData := c.awaitingData - {x}));
      ReadyMoves(m, x);
      assert x in n.chain.awaitingData && x in n.chain.pendingBlocks ==> SameBlock(m.chain, Step(n, e).chain, id);
    case Ready(x) =>
      ReadyMoves(n, x);
      assert SameBlock(n.chain, Step(n, e).chain, id);
    case QcVerified(x, valid, order) =>
      AnswerMoves(n, x, valid, order);
      assert SameBlock(n.chain, Step(n, e).chain, id);
    case _ =>
  }

  // ---- What is passed is forgotten ----

  /** Nothing at or below the tip is remembered or waited for. */
  ghost predicate OnlyAbove(c: Chain) {
    && (forall id :: id in c.pendingBlocks ==> id.height > c.committed)
    && (forall id :: id in c.certified + c.awaitingData ==> id.height > c.committed)
  }

  lemma {:induction false} CommitFromForgets(c: Chain, id: BlockId)
    requires OnlyAbove(c) || CanCommit(c, id)
    ensures OnlyAbove(CommitFrom(c, id))
    decreases c.pendingCommits.Keys
  {
    if CanCommit(c, id) {
      assert OnlyAbove(Commit(c, id));
      if id.height + 1 in c.pendingCommits {
        CommitFromForgets(PopCommit(Commit(c, id), id.height + 1), BufferedCommit(c, id.height + 1));
      }
    }
  }

  lemma ReadyForgets(n: Node, id: BlockId)
    requires OnlyAbove(n.chain) || CanCommit(n.chain, id)
    ensures OnlyAbove(OnBlockReadyToCommit(n, id).chain)
  {
    CommitFromForgets(n.chain, id);
  }

  lemma {:induction false} DrainCommitsForgets(n: Node)
    requires OnlyAbove(n.chain)
    ensures OnlyAbove(DrainPendingCommits(n).chain)
    decreases n.chain.pendingCommits.Keys
  {
    var next := n.chain.committed + 1;
    if next in n.chain.pendingCommits {
      var id := BufferedCommit(n.chain, next);
      ReadyForgets(Popped(n), id);
      CommitFromShrinks(Popped(n).chain, id);
      var t := OnBlockReadyToCommit(Popped(n), id);
      if t.chain.committed >= next {
        DrainCommitsForgets(t);
      }
    }
  }

  lemma {:induction false} ApplyVerifiedForgets(n: Node, order: seq<BlockId>)
    requires OnlyAbove(n.chain) || NextVerified(n) != {}
    ensures OnlyAbove(ApplyVerified(n, order).chain)
    decreases Held(n.sync)
  {
    if NextVerified(n) != {} {
      var id := Pick(order, NextVerified(n));
      var m := Node(Commit(n.chain, id), CleanupSync(PopSync(n, id).sync, id.height));
      assert OnlyAbove(m.chain);
      DrainCommitsForgets(m);
      ApplyShrinks(n, id);
      ApplyVerifiedForgets(ApplySyncedBlock(PopSync(n, id), id), order);
    }
  }

  /** After an event that moves the tip, the chain remembers nothing at or below it. */
  lemma StepForgetsPassedBlocks(n: Node, e: Event)
    requires OnlyAbove(n.chain) || Step(n, e).chain.committed > n.chain.committed
    requires e.OwnEmptyBlock? ==> e.id.height > n.chain.committed
    ensures OnlyAbove(Step(n, e).chain)
  {
    match e
    case Data(id) =>
      if id in n.chain.pendingBlocks && id in n.chain.awaitingData {
        var c := Constructed(n.chain, id);
        ReadyForgets(n.(chain := c.(awaitingData := c.awaitingData - {id})), id);
      }
    case Ready(id) => ReadyForgets(n, id);
    case QcVerified(id, valid, order) =>
      if id in n.sync.pending && valid {
        ApplyVerifiedForgets(n.(sync := n.sync.(verified := n.sync.verified + {id})), order);
      }
    case _ =>
  }

  // ---- What a run may emit ----

  /** What an event shows to be complete or properly certified. */
  function Gained(e: Event): set<BlockId> {
    match e
    case Header(id, complete) => if complete then {id} else {}
    case OwnEmptyBlock(id) => {id}
    case Data(id) => {id}
    case QcVerified(id, valid, _) => if valid then {id} else {}
    case _ => {}
  }

  function AllGained(events: seq<Event>): set<BlockId> {
    if events == [] then {} else Gained(events[0]) + AllGained(events[1..])
  }

  /** Everything the node could commit or apply is among some blocks. */
  ghost predicate Within(n: Node, ids: set<BlockId>) {
    CompleteBlocks(n.chain) <= ids && n.sync.verified <= ids
  }

  lemma CompleteHasAvailable(c: Chain, id: BlockId)
    requires Available(c, id)
    ensures id in CompleteBlocks(c)
  {
  }

  ghost predicate EmitsWithin(c: Chain, d: Chain, ids: set<BlockId>) {
    c.emitted <= d.emitted && forall i :: |c.emitted| <= i < |d.emitted| ==> d.emitted[i] in ids
  }

  lemma MovesWithin(c: Chain, d: Chain, verified: set<BlockId>, ids: set<BlockId>)
    requires ChainMoves(c, d, verified) && CompleteBlocks(c) <= ids && verified <= ids
    ensures CompleteBlocks(d) <= ids && EmitsWithin(c, d, ids)
  {
    forall i | |c.emitted| <= i < |d.emitted| ensures d.emitted[i] in ids {
      assert Backed(c, verified, d.emitted[i]);
      if Available(c, d.emitted[i]) {
        CompleteHasAvailable(c, d.emitted[i]);
      }
    }
  }

  lemma EntryWithin(c: Chain, d: Chain, ids: set<BlockId>, id: BlockId)
    requires CompleteBlocks(c) <= ids && d.pendingBlocks == c.pendingBlocks[id := true] && d.certified <= c.certified + {id}
    ensures CompleteBlocks(d) <= ids + {id}
  {
  }

  lemma DataWithin(n: Node, id: BlockId, ids: set<BlockId>)
    requires Within(n, ids)
    ensures var t := OnDataComplete(n, id); Within(t, ids + {id}) && EmitsWithin(n.chain, t.chain, ids + {id})
  {
    if id in n.chain.pendingBlocks {
      var c := Constructed(n.chain, id);
      EntryWithin(n.chain, c, ids, id);
      if id in c.awaitingData {
        var m := n.(chain := c.(awaitingData := c.awaitingData - {id}));
        ReadyWithin(m, id, ids + {id});
      }
    }
  }

  lemma ReadyWithin(n: Node, id: BlockId, ids: set<BlockId>)
    requires Within(n, ids)
    ensures var t := OnBlockReadyToCommit(n, id); Within(t, ids) && EmitsWithin(n.chain, t.chain, ids)
  {
    ReadyMoves(n, id);
    MovesWithin(n.chain, OnBlockReadyToCommit(n, id).chain, n.sync.verified, ids);
  }

  lemma DeliveryWithin(n: Node, id: BlockId, qc: Qc, ids: set<BlockId>)
    requires Within(n, ids)
    ensures var t := OnSyncedBlockReady(n, id, qc); Within(t, ids) && t.chain == n.chain
  {
    TryDrainMoves(n.sync.(buffered := n.sync.buffered[id.height := id.digest]), n.chain.committed);
  }

  lemma AnswerWithin(n: Node, id: BlockId, valid: bool, order: seq<BlockId>, ids: set<BlockId>)
    requires Within(n, ids)
    ensures var t, all := OnQcSignatureVerified(n, id, valid, order), ids + if valid then {id} else {};
            Within(t, all) && EmitsWithin(n.chain, t.chain, all)
  {
    if id in n.sync.pending && valid {
      AnswerMoves(n, id, valid, order);
      MovesWithin(n.chain, OnQcSignatureVerified(n, id, valid, order).chain, n.sync.verified + {id}, ids + {id});
    }
  }

  lemma StepWithin(n: Node, e: Event, ids: set<BlockId>)
    requires Within(n, ids)
    ensures Within(Step(n, e), ids + Gained(e)) && EmitsWithin(n.chain, Step(n, e).chain, ids + Gained(e))
  {
    match e
    case Header(id, complete) =>
      if complete && id.height > n.chain.committed && id !in n.chain.pendingBlocks {
        EntryWithin(n.chain, AcceptHeader(n.chain, id, complete), ids, id);
      }
    case OwnEmptyBlock(id) => EntryWithin(n.chain, AddOwnBlock(n.chain, id), ids, id);
    case Reject(id) =>
    case Data(id) => DataWithin(n, id, ids);
    case Ready(id) => ReadyWithin(n, id, ids);
    case SyncDeliver(id, qc) => DeliveryWithin(n, id, qc, ids);
    case QcVerified(id, valid, order) => AnswerWithin(n, id, valid, order, ids);
  }

  /** In every run, a block is emitted only if it was complete at hand or had a valid signature
      answer, at the start or by some event before. */
  lemma {:induction false} RunEmitsOnlyBacked(n: Node, events: seq<Event>, ids: set<BlockId>)
    requires Within(n, ids)
    ensures EmitsWithin(n.chain, Run(n, events).chain, ids + AllGained(events))
    decreases |events|
  {
    if events != [] {
      var m, gained := Step(n, events[0]), ids + Gained(events[0]);
      StepWithin(n, events[0], ids);
      RunEmitsOnlyBacked(m, events[1..], gained);
      assert gained + AllGained(events[1..]) == ids + AllGained(events);
      EmitsTwice(n.chain, m.chain, Run(n, events).chain, gained, ids + AllGained(events));
    }
  }

  lemma EmitsTwice(c: Chain, d: Chain, e: Chain, ids: set<BlockId>, all: set<BlockId>)
    requires EmitsWithin(c, d, ids) && EmitsWithin(d, e, all) && ids <= all
    ensures EmitsWithin(c, e, all)
  {
    forall i | |c.emitted| <= i < |e.emitted| ensures e.emitted[i] in all {
      assert i < |d.emitted| ==> e.emitted[i] == d.emitted[i];
    }
  }

  // ---- The window is filled ----

  /** All verification slots are taken, or the block after the window is not there. */
  ghost predicate Filled(y: Sync, committed: nat) {
    |y.pending| == MAX_PARALLEL_SYNC_VERIFICATIONS || committed + |y.pending| + 1 !in y.buffered
  }

  ghost predicate AllBelow(ids: set<BlockId>, next: nat) {
    forall id :: id in ids ==> id.height < next
  }

  lemma SubmitGrows(y: Sync, next: nat)
    requires next in y.buffered && AllBelow(y.pending, next)
    ensures var z := SubmitBuffered(y, next); |z.pending| == |y.pending| + 1 && AllBelow(z.pending, next + 1)
  {
    var id := BlockId(next, y.buffered[next]);
    assert id !in y.pending;
    assert SubmitBuffered(y, next).pending == y.pending + {id};
  }

  /** How many buffered blocks a drain takes. */
  function Taken(y: Sync, next: nat, slots: nat): nat
    decreases slots
  {
    if slots > 0 && next in y.buffered then 1 + Taken(SubmitBuffered(y, next), next + 1, slots - 1) else 0
  }

  lemma {:induction false} DrainStopsWhenDone(y: Sync, next: nat, slots: nat)
    ensures var k := Taken(y, next, slots); k == slots || next + k !in DrainFrom(y, next, slots).buffered
    decreases slots
  {
    if slots > 0 && next in y.buffered {
      DrainStopsWhenDone(SubmitBuffered(y, next), next + 1, slots - 1);
    }
  }

  lemma {:induction false} DrainTakes(y: Sync, next: nat, slots: nat)
    requires AllBelow(y.pending, next)
    ensures |DrainFrom(y, next, slots).pending| == |y.pending| + Taken(y, next, slots)
    decreases slots
  {
    if slots > 0 && next in y.buffered {
      SubmitGrows(y, next);
      DrainTakes(SubmitBuffered(y, next), next + 1, slots - 1);
    }
  }

  /** Draining leaves no slot free that a buffered block could take. */
  lemma TryDrainFills(y: Sync, committed: nat)
    requires Window(y, committed)
    ensures Filled(TryDrainBufferedSynced(y, committed), committed)
  {
    TopIsWindowEnd(y, committed);
    var next := NextToSubmit(y, committed);
    DrainStopsWhenDone(y, next, FreeSlots(y));
    DrainTakes(y, next, FreeSlots(y));
  }
}
