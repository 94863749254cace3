/**
 The commit and sync handlers of the BFT state machine in their updating form.

 Each handler changes the fields of the state machine in place, looping where the
 node loops, and is proved equal to the function of the same name in
 `CommitPipeline`, which says what the whole state is afterwards.
 */
module BftNode {
  import P = CommitPipeline
  import opened Options
  import opened Sequences
  import opened CommitPipeline

  class BftState {
    var committedHeight: nat
    var committedHash: Option<BlockId>
    var pendingBlocks: map<BlockId, bool>
    var certifiedBlocks: set<BlockId>
    var pendingCommits: map<nat, nat>
    var pendingCommitsAwaitingData: set<BlockId>
    // The entries of the verification table, and those whose verified flag is set.
    var pendingSyncVerifications: set<BlockId>
    var verifiedSync: set<BlockId>
    var bufferedSyncedBlocks: map<nat, nat>
    var emitted: seq<BlockId>
    var requested: seq<BlockId>

    ghost function ChainPart(): Chain
      reads this
    {
      Chain(committedHeight, committedHash, pendingBlocks, certifiedBlocks, pendingCommits,
            pendingCommitsAwaitingData, emitted)
    }

    ghost function SyncPart(): Sync
      reads this
    {
      Sync(pendingSyncVerifications, verifiedSync, bufferedSyncedBlocks, requested)
    }

    ghost function Value(): Node
      reads this
    {
      Node(ChainPart(), SyncPart())
    }

    constructor (height: nat, hash: Option<BlockId>)
      ensures Value() == Node(Chain(height, hash, map[], {}, map[], {}, []), Sync({}, {}, map[], []))
    {
      committedHeight, committedHash := height, hash;
      pendingBlocks, certifiedBlocks, pendingCommits, pendingCommitsAwaitingData := map[], {}, map[], {};
      pendingSyncVerifications, verifiedSync, bufferedSyncedBlocks := {}, {}, map[];
      emitted, requested := [], [];
    }

    predicate HasBlock(id: BlockId)
      reads this
      ensures HasBlock(id) == Available(ChainPart(), id)
    {
      if id in pendingBlocks then pendingBlocks[id] else id in certifiedBlocks
    }

    method CleanupOldState(height: nat)
      modifies this
      ensures SyncPart() == CleanupSync(old(SyncPart()), height)
      ensures ChainPart() == old(ChainPart()).(
                pendingBlocks := BlocksAbove(old(pendingBlocks), height),
                certified := IdsAbove(old(certifiedBlocks), height),
                awaitingData := IdsAbove(old(pendingCommitsAwaitingData), height))
    {
      pendingBlocks := BlocksAbove(pendingBlocks, height);
      certifiedBlocks := IdsAbove(certifiedBlocks, height);
      pendingCommitsAwaitingData := IdsAbove(pendingCommitsAwaitingData, height);
      bufferedSyncedBlocks := HeightsAbove(bufferedSyncedBlocks, height);
      pendingSyncVerifications := IdsAbove(pendingSyncVerifications, height);
      verifiedSync := IdsAbove(verifiedSync, height);
    }

    /** What both paths do for one block: advance the tip, clean up, emit. */
    method CommitOne(id: BlockId)
      modifies this
      ensures ChainPart() == Commit(old(ChainPart()), id)
      ensures SyncPart() == CleanupSync(old(SyncPart()), id.height)
    {
      committedHeight, committedHash := id.height, Some(id);
      CleanupOldState(id.height);
      emitted := emitted + [id];
    }

    /** Largest height under verification, or the committed height. */
    method HighestPending() returns (top: nat)
      ensures top == TopHeight(pendingSyncVerifications, committedHeight)
    {
      top := committedHeight;
      var rest := pendingSyncVerifications;
      while rest != {}
        invariant rest <= pendingSyncVerifications
        invariant IsTop(pendingSyncVerifications - rest, committedHeight, top)
      {
        var id :| id in rest;
        assert forall x :: x in pendingSyncVerifications - (rest - {id}) ==> x == id || x in pendingSyncVerifications - rest;
        assert forall x :: x in pendingSyncVerifications - rest ==> x in pendingSyncVerifications - (rest - {id});
        assert id in pendingSyncVerifications - (rest - {id});
        top := if top < id.height then id.height else top;
        rest := rest - {id};
      }
      assert pendingSyncVerifications - rest == pendingSyncVerifications;
    }

    method SubmitSyncedBlock(id: BlockId)
      modifies this`pendingSyncVerifications, this`verifiedSync, this`requested
      ensures SyncPart() == Submit(old(SyncPart()), id)
    {
      pendingSyncVerifications := pendingSyncVerifications + {id};
      verifiedSync := verifiedSync - {id};
      requested := requested + [id];
    }

    method TryDrainBuffered()
      modifies this`pendingSyncVerifications, this`verifiedSync, this`requested, this`bufferedSyncedBlocks
      ensures SyncPart() == TryDrainBufferedSynced(old(SyncPart()), committedHeight)
    {
      ghost var goal := TryDrainBufferedSynced(SyncPart(), committedHeight);
      var pendingCount := |pendingSyncVerifications|;
      if pendingCount >= MAX_PARALLEL_SYNC_VERIFICATIONS {
        return;
      }
      var slots := MAX_PARALLEL_SYNC_VERIFICATIONS - pendingCount;
      var top := HighestPending();
      var next, submitted := top + 1, 0;
      while submitted < slots
        invariant 0 <= submitted <= slots
        invariant DrainFrom(SyncPart(), next, slots - submitted) == goal
      {
        if next !in bufferedSyncedBlocks {
          break;
        }
        var id := BlockId(next, bufferedSyncedBlocks[next]);
        bufferedSyncedBlocks := bufferedSyncedBlocks - {next};
        SubmitSyncedBlock(id);
        next, submitted := next + 1, submitted + 1;
      }
    }

    /** The commit loop: this block, then its buffered successors. */
    method CommitSuccessors(id: BlockId)
      requires CanCommit(ChainPart(), id)
      modifies this
      ensures ChainPart() == CommitFrom(old(ChainPart()), id)
      ensures SyncPart() == CleanupSync(old(SyncPart()), committedHeight)
    {
      ghost var c0, y0 := ChainPart(), SyncPart();
      var current, more := id, true;
      while more
        invariant more ==> CommitFrom(ChainPart(), current) == CommitFrom(c0, id)
        invariant !more ==> ChainPart() == CommitFrom(c0, id)
        invariant SyncPart() == CleanupSync(y0, committedHeight)
                  || (more && current == id && ChainPart() == c0 && SyncPart() == y0)
        decreases more, pendingCommits.Keys
      {
        if !HasBlock(current) || current.height != committedHeight + 1 {
          more := false;
        } else {
          CleanupTwice(y0, committedHeight, current.height);
          CommitOne(current);
          if committedHeight + 1 in pendingCommits {
            current := BlockId(committedHeight + 1, pendingCommits[committedHeight + 1]);
            pendingCommits := pendingCommits - {committedHeight + 1};
          } else {
            more := false;
          }
        }
      }
    }

    method CommitBlockAndBuffered(id: BlockId)
      requires CanCommit(ChainPart(), id)
      modifies this
      ensures Value() == P.CommitBlockAndBuffered(old(Value()), id)
    {
      CommitSuccessors(id);
      TryDrainBuffered();
    }

    method OnBlockReadyToCommit(id: BlockId)
      modifies this
      ensures Value() == P.OnBlockReadyToCommit(old(Value()), id)
    {
      if !HasBlock(id) {
        if id in pendingBlocks && id.height > committedHeight {
          pendingCommitsAwaitingData := pendingCommitsAwaitingData + {id};
        }
        return;
      }
      if id.height <= committedHeight {
        return;
      }
      if id.height != committedHeight + 1 {
        pendingCommits := pendingCommits[id.height := id.digest];
        return;
      }
      CommitBlockAndBuffered(id);
    }

    method TryCommitPendingData(id: BlockId)
      modifies this
      ensures Value() == P.TryCommitPendingData(old(Value()), id)
    {
      if id in pendingCommitsAwaitingData {
        pendingCommitsAwaitingData := pendingCommitsAwaitingData - {id};
        OnBlockReadyToCommit(id);
      }
    }

    method OnDataComplete(id: BlockId)
      modifies this
      ensures Value() == P.OnDataComplete(old(Value()), id)
    {
      if id in pendingBlocks {
        pendingBlocks := pendingBlocks[id := true];
        TryCommitPendingData(id);
      }
    }

    method DrainPendingCommits()
      modifies this
      ensures Value() == P.DrainPendingCommits(old(Value()))
    {
      var more := true;
      while more
        invariant more ==> P.DrainPendingCommits(Value()) == P.DrainPendingCommits(old(Value()))
        invariant !more ==> Value() == P.DrainPendingCommits(old(Value()))
        decreases more, pendingCommits.Keys
      {
        var next := committedHeight + 1;
        if next !in pendingCommits {
          more := false;
        } else {
          var id := BlockId(next, pendingCommits[next]);
          ghost var before := Value();
          pendingCommits := pendingCommits - {next};
          assert Value() == Popped(before);
          CommitFromShrinks(ChainPart(), id);
          OnBlockReadyToCommit(id);
          more := committedHeight >= next;
        }
      }
    }

    method ApplySyncedBlock(id: BlockId)
      modifies this
      ensures Value() == P.ApplySyncedBlock(old(Value()), id)
    {
      CommitOne(id);
      DrainPendingCommits();
    }

    method OnSyncedBlockReady(id: BlockId, qc: Qc)
      modifies this
      ensures Value() == P.OnSyncedBlockReady(old(Value()), id, qc)
    {
      if id.height <= committedHeight {
        return;
      }
      if qc.blockHash != Some(id) {
        return;
      }
      if id in pendingSyncVerifications || id.height in bufferedSyncedBlocks {
        return;
      }
      if id.height == committedHeight + 1 {
        SubmitSyncedBlock(id);
      } else {
        bufferedSyncedBlocks := bufferedSyncedBlocks[id.height := id.digest];
        TryDrainBuffered();
      }
    }

    /** The first verified block at the next height, in the table's iteration order. */
    method FindNextVerified(order: seq<BlockId>) returns (found: Option<BlockId>)
      requires forall id :: id in pendingSyncVerifications ==> id in order
      ensures found == Found(Value(), order)
    {
      ghost var candidates := NextVerified(Value());
      for i := 0 to |order|
        invariant forall k :: 0 <= k < i ==> order[k] !in candidates
        invariant candidates != {} ==> Pick(order[i..], candidates) == Pick(order, candidates)
      {
        assert order[i..][1..] == order[i + 1..];
        var id := order[i];
        if id in pendingSyncVerifications && id in verifiedSync && id.height == committedHeight + 1 {
          assert id in candidates;
          return Some(id);
        }
      }
      return None;
    }

    ghost function Found(n: Node, order: seq<BlockId>): Option<BlockId> {
      if NextVerified(n) == {} then None else Some(Pick(order, NextVerified(n)))
    }

    method RemoveAndApply(id: BlockId)
      modifies this
      ensures Value() == P.ApplySyncedBlock(PopSync(old(Value()), id), id)
    {
      pendingSyncVerifications := pendingSyncVerifications - {id};
      verifiedSync := verifiedSync - {id};
      ApplySyncedBlock(id);
    }

    method TryApplyVerified(order: seq<BlockId>)
      requires Held(SyncPart()) <= ToSet(order)
      modifies this
      ensures var t := ApplyVerified(old(Value()), order);
              Value() == t.(sync := TryDrainBufferedSynced(t.sync, t.chain.committed))
    {
      var next := FindNextVerified(order);
      while next != None
        invariant Held(SyncPart()) <= ToSet(order) && next == Found(Value(), order)
        invariant ApplyVerified(Value(), order) == ApplyVerified(old(Value()), order)
        decreases Held(SyncPart())
      {
        ApplyShrinks(Value(), next.value);
        RemoveAndApply(next.value);
        next := FindNextVerified(order);
      }
      TryDrainBuffered();
    }

    method OnQcSignatureVerified(id: BlockId, valid: bool, order: seq<BlockId>)
      requires Held(SyncPart()) <= ToSet(order)
      modifies this
      ensures Value() == P.OnQcSignatureVerified(old(Value()), id, valid, order)
    {
      if id !in pendingSyncVerifications {
        return;
      }
      if !valid {
        pendingSyncVerifications, verifiedSync := {}, {};
        return;
      }
      verifiedSync := verifiedSync + {id};
      TryApplyVerified(order);
    }
  }
}
