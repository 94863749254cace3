/**
 Livelock detection of one shard: when a remote transaction's provisions reach a quorum,
 local transactions that conflict with it and have a higher hash are queued for deferral.
 */
module LivelockDetection {
  import opened CrossShardTracker
  import opened ReverseIndex
  import opened Sequences

  /** A quorum's proof that a remote transaction was committed, naming the nodes it locks. */
  datatype Commitment = Commitment(sourceShard: nat, nodes: set<nat>, signers: set<nat>)

  datatype CycleProof = CycleProof(winner: nat, commitment: Commitment)

  datatype Deferral = Deferral(tx: nat, winner: nat, blockHeight: nat, proof: CycleProof)

  datatype Detector = Detector(
    tracker: Tracker,
    seen: set<(nat, nat)>,
    tombstones: map<nat, nat>,
    proofs: map<nat, Commitment>,
    pending: seq<Deferral>,
    queued: set<nat>)

  // ---- What a transaction needs from other shards ----

  function NeedsOf(shardOf: nat -> nat, local: nat, declared: set<nat>): Needs {
    var remote := set n | n in declared && shardOf(n) != local;
    var shards := set n | n in remote :: shardOf(n);
    Needs(shards, map s | s in shards :: set n | n in remote && shardOf(n) == s)
  }

  function WithNode(nodes: map<nat, set<nat>>, shard: nat, node: nat): map<nat, set<nat>> {
    nodes[shard := Bucket(nodes, shard) + {node}]
  }

  method GroupByShard(shardOf: nat -> nat, local: nat, declared: seq<nat>, ghost before: set<nat>, nodes0: map<nat, set<nat>>)
    returns (nodes: map<nat, set<nat>>)
    requires nodes0 == NeedsOf(shardOf, local, before).nodes
    ensures nodes == NeedsOf(shardOf, local, before + ToSet(declared)).nodes
  {
    nodes := nodes0;
    assert before + ToSet(declared[..0]) == before;
    for i := 0 to |declared|
      invariant nodes == NeedsOf(shardOf, local, before + ToSet(declared[..i])).nodes
    {
      var shard := shardOf(declared[i]);
      GroupStep(shardOf, local, before + ToSet(declared[..i]), declared[i]);
      assert before + ToSet(declared[..i + 1]) == before + ToSet(declared[..i]) + {declared[i]};
      if shard != local {
        nodes := WithNode(nodes, shard, declared[i]);
      }
    }
    assert declared[..|declared|] == declared;
  }

  lemma GroupStep(shardOf: nat -> nat, local: nat, declared: set<nat>, node: nat)
    ensures NeedsOf(shardOf, local, declared + {node}).nodes ==
            if shardOf(node) == local then NeedsOf(shardOf, local, declared).nodes
            else WithNode(NeedsOf(shardOf, local, declared).nodes, shardOf(node), node)
  {
    var a, b := NeedsOf(shardOf, local, declared), NeedsOf(shardOf, local, declared + {node});
    if shardOf(node) == local {
      assert (set n | n in declared + {node} && shardOf(n) != local) == set n | n in declared && shardOf(n) != local;
    } else {
      assert b.shards == a.shards + {shardOf(node)};
      forall s | s in b.nodes ensures b.nodes[s] == WithNode(a.nodes, shardOf(node), node)[s] {
        assert b.nodes[s] == if s == shardOf(node) then Bucket(a.nodes, s) + {node} else a.nodes[s];
      }
    }
  }

  method ComputeRemoteStateNeeds(shardOf: nat -> nat, local: nat, readSet: seq<nat>, writeSet: seq<nat>) returns (needs: Needs)
    ensures needs == NeedsOf(shardOf, local, ToSet(readSet + writeSet))
  {
    var nodes := GroupByShard(shardOf, local, readSet, {}, map[]);
    assert {} + ToSet(readSet) == ToSet(readSet);
    nodes := GroupByShard(shardOf, local, writeSet, ToSet(readSet), nodes);
    assert ToSet(readSet) + ToSet(writeSet) == ToSet(readSet + writeSet);
    needs := Needs(nodes.Keys, nodes);
  }

  // ---- Queuing deferrals ----

  function DeferralFor(loser: nat, winner: nat, commitment: Commitment): Deferral {
    Deferral(loser, winner, 0, CycleProof(winner, commitment))
  }

  function Queue(d: Detector, loser: nat, winner: nat): Detector {
    if loser in d.queued || winner !in d.proofs then d
    else d.(queued := d.queued + {loser}, pending := d.pending + [DeferralFor(loser, winner, d.proofs[winner])])
  }

  predicate Overlaps(needs: map<nat, Needs>, tx: nat, shard: nat, nodes: set<nat>) {
    tx in needs && shard in needs[tx].nodes && needs[tx].nodes[shard] * nodes != {}
  }

  /** A full scan of the tracked transactions: those that must give way to the remote one. */
  function Losers(d: Detector, remote: nat, shard: nat, nodes: set<nat>): set<nat> {
    set tx | tx in d.tracker.needs && Overlaps(d.tracker.needs, tx, shard, nodes) && remote < tx && tx !in d.queued
  }

  /** The list holds one deferral to the winner for each loser, and nothing else. */
  ghost predicate Lists(added: seq<Deferral>, losers: set<nat>, winner: nat, commitment: Commitment) {
    && (forall i, j :: 0 <= i < j < |added| ==> added[i].tx != added[j].tx)
    && (forall e :: e in added ==> e == DeferralFor(e.tx, winner, commitment) && e.tx in losers)
    && (forall tx :: tx in losers ==> DeferralFor(tx, winner, commitment) in added)
  }

  /** Exactly the losers of a full scan were queued, each with the winner's proof. */
  ghost predicate CycleChecked(d: Detector, d': Detector, remote: nat, shard: nat, commitment: Commitment) {
    var losers := Losers(d, remote, shard, commitment.nodes);
    && d' == d.(queued := d.queued + losers, pending := d'.pending)
    && d.pending <= d'.pending
    && Lists(d'.pending[|d.pending|..], losers, remote, commitment)
  }

  // ---- Committed blocks ----

  function Forget(d: Detector, tx: nat): Detector {
    d.(tracker := RemoveTx(d.tracker, tx), seen := (set p | p in d.seen && p.0 != tx), proofs := d.proofs - {tx})
  }

  function ForgetAll(d: Detector, txs: seq<nat>): Detector {
    if txs == [] then d else Forget(ForgetAll(d, txs[..|txs| - 1]), txs[|txs| - 1])
  }

  function DeferAll(d: Detector, txs: seq<nat>, expiry: nat): Detector {
    if txs == [] then d
    else
      var before, tx := DeferAll(d, txs[..|txs| - 1], expiry), txs[|txs| - 1];
      Forget(before.(tombstones := before.tombstones[tx := expiry]), tx)
  }

  function Retain(pending: seq<Deferral>, queued: set<nat>): seq<Deferral> {
    if pending == [] then []
    else Retain(pending[..|pending| - 1], queued) + if pending[|pending| - 1].tx in queued then [pending[|pending| - 1]] else []
  }

  function DropIncluded(d: Detector, deferred: seq<nat>): Detector {
    var queued := d.queued - set tx | tx in deferred;
    d.(queued := queued, pending := Retain(d.pending, queued))
  }

  function BlockCommitted(d: Detector, expiry: nat, deferred: seq<nat>, aborted: seq<nat>, certified: seq<nat>): Detector {
    DropIncluded(ForgetAll(ForgetAll(DeferAll(d, deferred, expiry), aborted), certified), deferred)
  }

  // ---- The state machine ----

  class LivelockState {
    const localShard: nat
    const shardOf: nat -> nat
    const tombstoneTtl: nat
    const tracker: CommittedCrossShardTracker
    var seen: set<(nat, nat)>
    var tombstones: map<nat, nat>
    var proofs: map<nat, Commitment>
    var pending: seq<Deferral>
    var queued: set<nat>
    var now: nat

    ghost function Value(): Detector
      reads this, tracker
    {
      Detector(tracker.Value(), seen, tombstones, proofs, pending, queued)
    }

    constructor (localShard: nat, shardOf: nat -> nat, ttl: nat)
      ensures fresh(tracker) && this.localShard == localShard && this.shardOf == shardOf && tombstoneTtl == ttl
      ensures Value() == Detector(Tracker(map[], map[]), {}, map[], map[], [], {})
    {
      this.localShard, this.shardOf, tombstoneTtl := localShard, shardOf, ttl;
      tracker := new CommittedCrossShardTracker();
      seen, tombstones, proofs, pending, queued, now := {}, map[], map[], [], {}, 0;
    }

    method OnCrossShardCommitted(tx: nat, readSet: seq<nat>, writeSet: seq<nat>)
      modifies tracker
      ensures var needs := NeedsOf(shardOf, localShard, ToSet(readSet + writeSet));
              Value() == if needs.shards == {} then old(Value())
                         else old(Value()).(tracker := AddTx(old(tracker.Value()), tx, needs))
    {
      var needs := ComputeRemoteStateNeeds(shardOf, localShard, readSet, writeSet);
      if needs.shards == {} {
        return;
      }
      tracker.Add(tx, needs);
    }

    method QueueDeferral(loser: nat, winner: nat)
      modifies this
      ensures Value() == Queue(old(Value()), loser, winner) && now == old(now)
    {
      if loser in queued {
        return;
      }
      if winner !in proofs {
        return;
      }
      queued := queued + {loser};
      pending := pending + [Deferral(loser, winner, 0, CycleProof(winner, proofs[winner]))];
    }

    /** The local transactions that conflict with the remote one and have a higher hash. */
    method FindLosers(remote: nat, shard: nat, nodes: set<nat>) returns (losers: seq<nat>)
      requires Agrees(tracker.Value()) && NeedsMatch(tracker.txNeeds)
      ensures NoRepeats(losers)
      ensures forall tx :: tx in losers <==> Overlaps(tracker.txNeeds, tx, shard, nodes) && remote < tx
    {
      var local := tracker.TxsNeedingShard(shard);
      losers := [];
      var rest := local;
      while rest != {}
        invariant rest <= local && NoRepeats(losers)
        invariant forall tx :: tx in losers <==> tx in local && tx !in rest && Overlaps(tracker.txNeeds, tx, shard, nodes) && remote < tx
        decreases rest
      {
        var tx :| tx in rest;
        rest := rest - {tx};
        if tx in tracker.txNeeds && shard in tracker.txNeeds[tx].nodes {
          if tracker.txNeeds[tx].nodes[shard] * nodes != {} && remote < tx {
            losers := losers + [tx];
          }
        }
      }
      forall tx | Overlaps(tracker.txNeeds, tx, shard, nodes) ensures tx in local {
        assert tx in tracker.txNeeds && shard in tracker.txNeeds[tx].shards;
      }
    }

    method CheckForCycle(remote: nat, shard: nat, nodes: set<nat>)
      requires Agrees(tracker.Value()) && NeedsMatch(tracker.txNeeds)
      requires remote in proofs && proofs[remote].nodes == nodes
      modifies this
      ensures CycleChecked(old(Value()), Value(), remote, shard, old(proofs[remote])) && now == old(now)
    {
      var losers := FindLosers(remote, shard, nodes);
      ghost var d := Value();
      for i := 0 to |losers|
        invariant Value() == QueueAll(d, losers[..i], remote) && now == old(now)
      {
        assert losers[..i + 1][..i] == losers[..i];
        QueueDeferral(losers[i], remote);
      }
      assert losers[..|losers|] == losers;
      QueueAllChecks(d, losers, remote, shard);
    }

    method OnProvisionQuorumReached(remote: nat, shard: nat, commitment: Commitment)
      requires Agrees(tracker.Value()) && NeedsMatch(tracker.txNeeds)
      modifies this
      ensures now == old(now)
      ensures QuorumProcessed(old(Value()), Value(), remote, shard, commitment)
    {
      if remote in tombstones {
        return;
      }
      if (remote, shard) in seen {
        return;
      }
      seen := seen + {(remote, shard)};
      proofs := proofs[remote := commitment];
      CheckForCycle(remote, shard, commitment.nodes);
    }

    method StopTracking(tx: nat)
      modifies this, tracker
      ensures Value() == Forget(old(Value()), tx) && now == old(now)
    {
      tracker.Remove(tx);
      seen := set p | p in seen && p.0 != tx;
      proofs := proofs - {tx};
    }

    method StopTrackingAll(txs: seq<nat>)
      modifies this, tracker
      ensures Value() == ForgetAll(old(Value()), txs) && now == old(now)
    {
      ghost var d := Value();
      for i := 0 to |txs|
        invariant Value() == ForgetAll(d, txs[..i]) && now == old(now)
      {
        assert txs[..i + 1][..i] == txs[..i];
        StopTracking(txs[i]);
      }
      assert txs[..|txs|] == txs;
    }

    method DeferralsCommitted(txs: seq<nat>)
      modifies this, tracker
      ensures Value() == DeferAll(old(Value()), txs, old(now) + tombstoneTtl) && now == old(now)
    {
      ghost var d := Value();
      for i := 0 to |txs|
        invariant Value() == DeferAll(d, txs[..i], now + tombstoneTtl) && now == old(now)
      {
        assert txs[..i + 1][..i] == txs[..i];
        tombstones := tombstones[txs[i] := now + tombstoneTtl];
        StopTracking(txs[i]);
      }
      assert txs[..|txs|] == txs;
    }

    method OnBlockCommitted(deferred: seq<nat>, aborted: seq<nat>, certified: seq<nat>)
      modifies this, tracker
      ensures Value() == BlockCommitted(old(Value()), old(now) + tombstoneTtl, deferred, aborted, certified)
    {
      DeferralsCommitted(deferred);
      StopTrackingAll(aborted);
      StopTrackingAll(certified);
      queued := queued - ToSet(deferred);
      var kept := [];
      for i := 0 to |pending|
        invariant kept == Retain(pending[..i], queued)
      {
        assert pending[..i + 1][..i] == pending[..i];
        if pending[i].tx in queued {
          kept := kept + [pending[i]];
        }
      }
      assert pending[..|pending|] == pending;
      pending := kept;
    }

    method Cleanup()
      modifies this
      ensures Value() == Expired(old(Value()), now) && now == old(now)
    {
      tombstones := map tx | tx in tombstones && tombstones[tx] > now :: tombstones[tx];
    }
  }

  function Expired(d: Detector, now: nat): Detector {
    d.(tombstones := map tx | tx in d.tombstones && d.tombstones[tx] > now :: d.tombstones[tx])
  }

  /** Each tracked transaction lists its nodes under exactly the shards it needs. */
  ghost predicate NeedsMatch(needs: map<nat, Needs>) {
    forall tx :: tx in needs ==> needs[tx].nodes.Keys == needs[tx].shards
  }

  /** A late or repeated quorum is discarded; the first one records the proof and checks for cycles. */
  ghost predicate QuorumProcessed(d: Detector, d': Detector, remote: nat, shard: nat, commitment: Commitment) {
    if remote in d.tombstones || (remote, shard) in d.seen then d' == d
    else CycleChecked(d.(seen := d.seen + {(remote, shard)}, proofs := d.proofs[remote := commitment]), d', remote, shard, commitment)
  }

  function QueueAll(d: Detector, losers: seq<nat>, winner: nat): Detector {
    if losers == [] then d else Queue(QueueAll(d, losers[..|losers| - 1], winner), losers[|losers| - 1], winner)
  }

  ghost function Unqueued(losers: seq<nat>, queued: set<nat>): set<nat> {
    set tx | tx in losers && tx !in queued
  }

  lemma {:induction false} QueueAllLists(d: Detector, losers: seq<nat>, winner: nat)
    requires winner in d.proofs && NoRepeats(losers)
    ensures var d', queuedNow := QueueAll(d, losers, winner), Unqueued(losers, d.queued);
            && d' == d.(queued := d.queued + queuedNow, pending := d'.pending)
            && d.pending <= d'.pending
            && Lists(d'.pending[|d.pending|..], queuedNow, winner, d.proofs[winner])
    decreases |losers|
  {
    if losers == [] {
      assert Unqueued(losers, d.queued) == {};
      assert d.pending[|d.pending|..] == [];
    } else {
      var before, last := losers[..|losers| - 1], losers[|losers| - 1];
      QueueAllLists(d, before, winner);
      QueueOneLists(d, QueueAll(d, before, winner), before, last, winner);
      assert losers == before + [last];
    }
  }

  lemma QueueOneLists(d: Detector, d1: Detector, before: seq<nat>, last: nat, winner: nat)
    requires winner in d.proofs && last !in before
    requires d1 == d.(queued := d.queued + Unqueued(before, d.queued), pending := d1.pending) && d.pending <= d1.pending
    requires Lists(d1.pending[|d.pending|..], Unqueued(before, d.queued), winner, d.proofs[winner])
    ensures var d', queuedNow := Queue(d1, last, winner), Unqueued(before + [last], d.queued);
            && d' == d.(queued := d.queued + queuedNow, pending := d'.pending)
            && d.pending <= d'.pending
            && Lists(d'.pending[|d.pending|..], queuedNow, winner, d.proofs[winner])
  {
    var d' := Queue(d1, last, winner);
    if last in d.queued {
      assert Unqueued(before + [last], d.queued) == Unqueued(before, d.queued);
    } else {
      assert Unqueued(before + [last], d.queued) == Unqueued(before, d.queued) + {last};
      assert d'.pending[|d.pending|..] == d1.pending[|d.pending|..] + [DeferralFor(last, winner, d.proofs[winner])];
    }
  }

  lemma QueueAllChecks(d: Detector, losers: seq<nat>, remote: nat, shard: nat)
    requires remote in d.proofs && NoRepeats(losers)
    requires forall tx :: tx in losers <==> Overlaps(d.tracker.needs, tx, shard, d.proofs[remote].nodes) && remote < tx
    ensures CycleChecked(d, QueueAll(d, losers, remote), remote, shard, d.proofs[remote])
  {
    QueueAllLists(d, losers, remote);
    assert Unqueued(losers, d.queued) == Losers(d, remote, shard, d.proofs[remote].nodes);
  }
}
