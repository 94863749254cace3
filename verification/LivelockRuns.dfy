/**
 What every run of livelock detection keeps, over any number of shards: the indexes
 agree, and deferrals always point from a higher hash to a lower one.
 */
module LivelockRuns {
  import opened CrossShardTracker
  import opened LivelockDetection
  import opened ReverseIndex
  import opened Sequences

  /** The placement of nodes on shards, and the nodes each transaction declares; a hash
      determines its transaction. */
  datatype Network = Network(shardOf: nat -> nat, declared: nat -> set<nat>)

  datatype Event =
    | CrossShardCommitted(tx: nat)
    | QuorumReached(remote: nat, source: nat, commitment: Commitment)
    | BlockCommit(deferred: seq<nat>, aborted: seq<nat>, certified: seq<nat>, expiry: nat)
    | CleanupTimer(now: nat)

  function Track(n: Network, local: nat, d: Detector, tx: nat): Detector {
    var needs := NeedsOf(n.shardOf, local, n.declared(tx));
    if needs.shards == {} then d else d.(tracker := AddTx(d.tracker, tx, needs))
  }

  /** One step of the detector of shard `local`. Which loser is queued first is left open. */
  ghost predicate Steps(n: Network, local: nat, d: Detector, e: Event, d': Detector) {
    match e
    case CrossShardCommitted(tx) => d' == Track(n, local, d, tx)
    case QuorumReached(remote, source, commitment) => QuorumProcessed(d, d', remote, source, commitment)
    case BlockCommit(deferred, aborted, certified, expiry) => d' == BlockCommitted(d, expiry, deferred, aborted, certified)
    case CleanupTimer(now) => d' == Expired(d, now)
  }

  // ---- One shard ----

  ghost predicate Points(x: Deferral) {
    x.winner < x.tx && x.proof.winner == x.winner && x.blockHeight == 0
  }

  ghost predicate OnceEach(pending: seq<Deferral>) {
    forall i, j :: 0 <= i < j < |pending| ==> pending[i].tx != pending[j].tx
  }

  lemma OnceEachConcat(a: seq<Deferral>, b: seq<Deferral>)
    requires OnceEach(a) && OnceEach(b) && forall x, y :: x in a && y in b ==> x.tx != y.tx
    ensures OnceEach(a + b)
  {
    forall i, j | 0 <= i < j < |a + b| ensures (a + b)[i].tx != (a + b)[j].tx {
      if i < |a| <= j {
        assert (a + b)[i] in a && (a + b)[j] in b;
      }
    }
  }

  ghost predicate Queued(pending: seq<Deferral>, queued: set<nat>) {
    && OnceEach(pending)
    && (forall x :: x in pending ==> x.tx in queued && Points(x))
    && (forall tx :: tx in queued ==> exists x :: x in pending && x.tx == tx)
  }

  ghost predicate Tracked(n: Network, local: nat, t: Tracker) {
    && Agrees(t)
    && forall tx :: tx in t.needs ==> t.needs[tx] == NeedsOf(n.shardOf, local, n.declared(tx))
  }

  ghost predicate Inv(n: Network, local: nat, d: Detector) {
    Tracked(n, local, d.tracker) && Queued(d.pending, d.queued)
  }

  lemma {:induction false} RetainKeeps(pending: seq<Deferral>, queued: set<nat>, x: Deferral)
    ensures x in Retain(pending, queued) <==> x in pending && x.tx in queued
    decreases |pending|
  {
    if pending != [] {
      RetainKeeps(pending[..|pending| - 1], queued, x);
      assert pending == pending[..|pending| - 1] + [pending[|pending| - 1]];
    }
  }

  lemma {:induction false} RetainIsDistinct(pending: seq<Deferral>, queued: set<nat>)
    requires OnceEach(pending)
    ensures OnceEach(Retain(pending, queued))
    decreases |pending|
  {
    if pending != [] {
      var before := pending[..|pending| - 1];
      RetainIsDistinct(before, queued);
      forall x | x in Retain(before, queued) ensures x.tx != pending[|pending| - 1].tx {
        RetainKeeps(before, queued, x);
      }
      if pending[|pending| - 1].tx in queued {
        OnceEachConcat(Retain(before, queued), [pending[|pending| - 1]]);
      } else {
        assert Retain(pending, queued) == Retain(before, queued);
      }
    }
  }

  lemma DropKeepsQueued(d: Detector, deferred: seq<nat>)
    requires Queued(d.pending, d.queued)
    ensures Queued(DropIncluded(d, deferred).pending, DropIncluded(d, deferred).queued)
  {
    var d' := DropIncluded(d, deferred);
    RetainIsDistinct(d.pending, d'.queued);
    forall x ensures x in d'.pending <==> x in d.pending && x.tx in d'.queued {
      RetainKeeps(d.pending, d'.queued, x);
    }
    forall tx | tx in d'.queued ensures exists x :: x in d'.pending && x.tx == tx {
      var x :| x in d.pending && x.tx == tx;
      assert x in d'.pending;
    }
  }

  lemma TrackKeepsTracked(n: Network, local: nat, t: Tracker, tx: nat)
    requires Tracked(n, local, t)
    ensures Tracked(n, local, AddTx(t, tx, NeedsOf(n.shardOf, local, n.declared(tx))))
  {
    AddKeepsAgreementIffShardsGrow(t, tx, NeedsOf(n.shardOf, local, n.declared(tx)));
  }

  lemma RemoveKeepsTracked(n: Network, local: nat, t: Tracker, tx: nat)
    requires Tracked(n, local, t)
    ensures Tracked(n, local, RemoveTx(t, tx))
  {
    RemoveKeepsAgreement(t, tx);
  }

  lemma {:induction false} ForgetKeepsTracked(n: Network, local: nat, d: Detector, txs: seq<nat>)
    requires Tracked(n, local, d.tracker)
    ensures Tracked(n, local, ForgetAll(d, txs).tracker)
    ensures ForgetAll(d, txs).pending == d.pending && ForgetAll(d, txs).queued == d.queued
    decreases |txs|
  {
    if txs != [] {
      ForgetKeepsTracked(n, local, d, txs[..|txs| - 1]);
      RemoveKeepsTracked(n, local, ForgetAll(d, txs[..|txs| - 1]).tracker, txs[|txs| - 1]);
    }
  }

  lemma {:induction false} DeferKeepsTracked(n: Network, local: nat, d: Detector, txs: seq<nat>, expiry: nat)
    requires Tracked(n, local, d.tracker)
    ensures Tracked(n, local, DeferAll(d, txs, expiry).tracker)
    ensures DeferAll(d, txs, expiry).pending == d.pending && DeferAll(d, txs, expiry).queued == d.queued
    decreases |txs|
  {
    if txs != [] {
      DeferKeepsTracked(n, local, d, txs[..|txs| - 1], expiry);
      RemoveKeepsTracked(n, local, DeferAll(d, txs[..|txs| - 1], expiry).tracker, txs[|txs| - 1]);
    }
  }

  lemma QuorumKeepsQueued(d: Detector, d': Detector, remote: nat, shard: nat, commitment: Commitment)
    requires Queued(d.pending, d.queued) && CycleChecked(d, d', remote, shard, commitment)
    ensures Queued(d'.pending, d'.queued)
  {
    var losers, added := Losers(d, remote, shard, commitment.nodes), d'.pending[|d.pending|..];
    assert d'.pending == d.pending + added;
    forall tx | tx in d'.queued ensures exists x :: x in d'.pending && x.tx == tx {
      if tx in losers {
        assert DeferralFor(tx, remote, commitment) in added;
      } else {
        var x :| x in d.pending && x.tx == tx;
        assert x in d'.pending;
      }
    }
    OnceEachConcat(d.pending, added);
  }

  lemma StepKeepsInv(n: Network, local: nat, d: Detector, e: Event, d': Detector)
    requires Inv(n, local, d) && Steps(n, local, d, e, d')
    ensures Inv(n, local, d')
  {
    match e
    case CrossShardCommitted(tx) =>
      TrackKeepsTracked(n, local, d.tracker, tx);
    case QuorumReached(remote, source, commitment) =>
      if d' != d {
        QuorumKeepsQueued(d.(seen := d.seen + {(remote, source)}, proofs := d.proofs[remote := commitment]), d', remote, source, commitment);
      }
    case BlockCommit(deferred, aborted, certified, expiry) =>
      var d1 := DeferAll(d, deferred, expiry);
      var d2 := ForgetAll(d1, aborted);
      DeferKeepsTracked(n, local, d, deferred, expiry);
      ForgetKeepsTracked(n, local, d1, aborted);
      ForgetKeepsTracked(n, local, d2, certified);
      DropKeepsQueued(ForgetAll(d2, certified), deferred);
    case CleanupTimer(_) =>
  }

  /** In every state a run reaches, the first quorum for a remote transaction and shard queues
      exactly the tracked transactions with a higher hash that declare one of the proof's nodes
      on that shard, each with the proof; the reverse index loses none of them. */
  lemma QuorumQueuesExactlyTheConflicts(n: Network, local: nat, d: Detector, d': Detector, remote: nat, source: nat, c: Commitment)
    requires Inv(n, local, d) && Steps(n, local, d, QuorumReached(remote, source, c), d')
    requires remote !in d.tombstones && (remote, source) !in d.seen
    ensures forall tx :: tx in d'.queued <==>
              || tx in d.queued
              || (tx in d.tracker.needs && remote < tx && source != local &&
                  exists node :: node in n.declared(tx) && n.shardOf(node) == source && node in c.nodes)
    ensures forall tx :: tx in d'.queued && tx !in d.queued ==> DeferralFor(tx, remote, c) in d'.pending
  {
    var d0 := d.(seen := d.seen + {(remote, source)}, proofs := d.proofs[remote := c]);
    forall tx | tx in d.tracker.needs
      ensures Overlaps(d.tracker.needs, tx, source, c.nodes) <==>
              source != local && exists node :: node in n.declared(tx) && n.shardOf(node) == source && node in c.nodes
    {
      OverlapMeansSharedNode(n, local, tx, source, c.nodes);
    }
    assert forall tx :: tx in Losers(d0, remote, source, c.nodes) ==> DeferralFor(tx, remote, c) in d'.pending[|d.pending|..];
  }

  lemma OverlapMeansSharedNode(n: Network, local: nat, tx: nat, shard: nat, nodes: set<nat>)
    ensures var needed := NeedsOf(n.shardOf, local, n.declared(tx)).nodes;
            (shard in needed && needed[shard] * nodes != {}) <==>
            shard != local && exists node :: node in n.declared(tx) && n.shardOf(node) == shard && node in nodes
  {
    var needed := NeedsOf(n.shardOf, local, n.declared(tx)).nodes;
    if shard in needed && needed[shard] * nodes != {} {
      var node :| node in needed[shard] * nodes;
    }
    if node :| shard != local && node in n.declared(tx) && n.shardOf(node) == shard && node in nodes {
      assert shard in needed;
      assert node in needed[shard] * nodes;
    }
  }

  // ---- What a committed block clears ----

  predicate Filed(t: Tracker, shard: nat, tx: nat) {
    tx in Bucket(t.neededBy, shard)
  }

  /** The transactions are gone from both indexes, from the proofs and from the pairs seen, and
      nothing else is. */
  ghost predicate Gone(d: Detector, d': Detector, gone: set<nat>) {
    && d'.tracker.needs == d.tracker.needs - gone
    && (forall s, tx :: Filed(d'.tracker, s, tx) <==> Filed(d.tracker, s, tx) && tx !in gone)
    && d'.proofs == d.proofs - gone
    && (forall p :: p in d'.seen <==> p in d.seen && p.0 !in gone)
  }

  lemma ForgetRemoves(d: Detector, tx: nat)
    requires Agrees(d.tracker)
    ensures Gone(d, Forget(d, tx), {tx}) && Agrees(Forget(d, tx).tracker)
  {
    var d' := Forget(d, tx);
    RemoveKeepsAgreement(d.tracker, tx);
    forall s, other ensures Filed(d'.tracker, s, other) <==> Filed(d.tracker, s, other) && other !in {tx} {
      assert other in Bucket(d.tracker.neededBy, s) <==> other in d.tracker.needs && s in d.tracker.needs[other].shards;
      assert other in Bucket(d'.tracker.neededBy, s) <==> other in d'.tracker.needs && s in d'.tracker.needs[other].shards;
    }
  }

  lemma GoneAlike(d: Detector, d1: Detector, d2: Detector, gone: set<nat>)
    requires Gone(d, d1, gone) && d2 == d1.(queued := d2.queued, pending := d2.pending)
    ensures Gone(d, d2, gone)
  {
    assert d2.tracker == d1.tracker;
  }

  lemma GoneTwice(d: Detector, d1: Detector, d2: Detector, a: set<nat>, b: set<nat>)
    requires Gone(d, d1, a) && Gone(d1, d2, b)
    ensures Gone(d, d2, a + b)
  {
    assert d.tracker.needs - a - b == d.tracker.needs - (a + b);
    assert d.proofs - a - b == d.proofs - (a + b);
  }

  lemma {:induction false} ForgetAllRemoves(d: Detector, txs: seq<nat>)
    requires Agrees(d.tracker)
    ensures Gone(d, ForgetAll(d, txs), ToSet(txs)) && Agrees(ForgetAll(d, txs).tracker)
    ensures ForgetAll(d, txs).tombstones == d.tombstones
    decreases |txs|
  {
    if txs != [] {
      var before, last := txs[..|txs| - 1], txs[|txs| - 1];
      ForgetAllRemoves(d, before);
      ForgetRemoves(ForgetAll(d, before), last);
      GoneTwice(d, ForgetAll(d, before), ForgetAll(d, txs), ToSet(before), {last});
      assert ToSet(txs) == ToSet(before) + {last};
    }
  }

  ghost predicate Buried(before: map<nat, nat>, after: map<nat, nat>, txs: set<nat>, expiry: nat) {
    && after.Keys == before.Keys + txs
    && forall tx :: tx in after ==> after[tx] == if tx in txs then expiry else before[tx]
  }

  lemma {:induction false} DeferAllRemoves(d: Detector, txs: seq<nat>, expiry: nat)
    requires Agrees(d.tracker)
    ensures Gone(d, DeferAll(d, txs, expiry), ToSet(txs)) && Agrees(DeferAll(d, txs, expiry).tracker)
    ensures Buried(d.tombstones, DeferAll(d, txs, expiry).tombstones, ToSet(txs), expiry)
    decreases |txs|
  {
    if txs != [] {
      var before, last := txs[..|txs| - 1], txs[|txs| - 1];
      var d1 := DeferAll(d, before, expiry);
      DeferAllRemoves(d, before, expiry);
      ForgetRemoves(d1.(tombstones := d1.tombstones[last := expiry]), last);
      GoneTwice(d, d1, DeferAll(d, txs, expiry), ToSet(before), {last});
      assert ToSet(txs) == ToSet(before) + {last};
    }
  }

  /** The queue without the deferrals of some transactions, in the same order. */
  function OthersThan(pending: seq<Deferral>, txs: set<nat>): seq<Deferral> {
    if pending == [] then []
    else (if pending[0].tx in txs then [] else [pending[0]]) + OthersThan(pending[1..], txs)
  }

  lemma {:induction false} OthersThanConcat(a: seq<Deferral>, b: seq<Deferral>, txs: set<nat>)
    ensures OthersThan(a + b, txs) == OthersThan(a, txs) + OthersThan(b, txs)
    decreases |a|
  {
    if a == [] {
      assert a + b == b;
    } else {
      assert (a + b)[1..] == a[1..] + b;
      OthersThanConcat(a[1..], b, txs);
    }
  }

  lemma {:induction false} RetainIsOthersThan(pending: seq<Deferral>, queued: set<nat>, txs: set<nat>)
    requires forall x :: x in pending ==> x.tx in queued
    ensures Retain(pending, queued - txs) == OthersThan(pending, txs)
    decreases |pending|
  {
    if pending != [] {
      var before, last := pending[..|pending| - 1], pending[|pending| - 1];
      assert last in pending;
      RetainIsOthersThan(before, queued, txs);
      OthersThanConcat(before, [last], txs);
      assert [last][1..] == [];
      assert pending == before + [last];
    }
  }

  lemma AllRemoved(d: Detector, expiry: nat, deferred: seq<nat>, aborted: seq<nat>, certified: seq<nat>)
    requires Agrees(d.tracker)
    ensures var d' := ForgetAll(ForgetAll(DeferAll(d, deferred, expiry), aborted), certified);
            && Gone(d, d', ToSet(deferred) + ToSet(aborted) + ToSet(certified))
            && Buried(d.tombstones, d'.tombstones, ToSet(deferred), expiry)
  {
    var d1 := DeferAll(d, deferred, expiry);
    var d2 := ForgetAll(d1, aborted);
    DeferAllRemoves(d, deferred, expiry);
    ForgetAllRemoves(d1, aborted);
    ForgetAllRemoves(d2, certified);
    GoneTwice(d, d1, d2, ToSet(deferred), ToSet(aborted));
    GoneTwice(d, d2, ForgetAll(d2, certified), ToSet(deferred) + ToSet(aborted), ToSet(certified));
  }

  lemma QueueUntouched(n: Network, local: nat, d: Detector, expiry: nat, deferred: seq<nat>, aborted: seq<nat>, certified: seq<nat>)
    requires Tracked(n, local, d.tracker)
    ensures var d' := ForgetAll(ForgetAll(DeferAll(d, deferred, expiry), aborted), certified);
            d'.pending == d.pending && d'.queued == d.queued
  {
    var d1 := DeferAll(d, deferred, expiry);
    DeferKeepsTracked(n, local, d, deferred, expiry);
    ForgetKeepsTracked(n, local, d1, aborted);
    ForgetKeepsTracked(n, local, ForgetAll(d1, aborted), certified);
  }

  /** A committed block clears its deferred, aborted and certified transactions from every index,
      buries exactly the deferred ones until the expiry, takes them off the queue, and leaves all
      other transactions alone. */
  lemma BlockCommitClears(n: Network, local: nat, d: Detector, expiry: nat, deferred: seq<nat>, aborted: seq<nat>, certified: seq<nat>)
    requires Inv(n, local, d)
    ensures var d' := BlockCommitted(d, expiry, deferred, aborted, certified);
            && Gone(d, d', ToSet(deferred) + ToSet(aborted) + ToSet(certified))
            && Buried(d.tombstones, d'.tombstones, ToSet(deferred), expiry)
            && d'.queued == d.queued - ToSet(deferred)
            && d'.pending == OthersThan(d.pending, ToSet(deferred))
  {
    AllRemoved(d, expiry, deferred, aborted, certified);
    QueueUntouched(n, local, d, expiry, deferred, aborted, certified);
    var cleared := ForgetAll(ForgetAll(DeferAll(d, deferred, expiry), aborted), certified);
    DropTakesOff(d.pending, d.queued, cleared, deferred);
    GoneAlike(d, cleared, BlockCommitted(d, expiry, deferred, aborted, certified), ToSet(deferred) + ToSet(aborted) + ToSet(certified));
  }

  lemma DropTakesOff(pending: seq<Deferral>, queued: set<nat>, d: Detector, deferred: seq<nat>)
    requires Queued(pending, queued) && d.pending == pending && d.queued == queued
    ensures var d' := DropIncluded(d, deferred);
            && d' == d.(queued := queued - ToSet(deferred), pending := OthersThan(pending, ToSet(deferred)))
  {
    assert (set tx | tx in deferred) == ToSet(deferred);
    RetainIsOthersThan(pending, queued, ToSet(deferred));
  }

  // ---- One step, seen from one transaction ----

  predicate Clears(e: Event, tx: nat) {
    e.BlockCommit? && (tx in e.deferred || tx in e.aborted || tx in e.certified)
  }

  /** A transaction is tracked after a step exactly when the step commits it here while it declares
      a node elsewhere, or it was tracked and no block finished it. */
  lemma TrackedAfterStepIff(n: Network, local: nat, d: Detector, e: Event, d': Detector, tx: nat)
    requires Inv(n, local, d) && Steps(n, local, d, e, d')
    ensures tx in d'.tracker.needs <==>
            || (e == CrossShardCommitted(tx) && exists node :: node in n.declared(tx) && n.shardOf(node) != local)
            || (tx in d.tracker.needs && !Clears(e, tx))
  {
    match e
    case CrossShardCommitted(other) =>
      HasRemoteNeedIff(n, local, other);
    case QuorumReached(_, _, _) =>
    case BlockCommit(deferred, aborted, certified, expiry) =>
      BlockCommitClears(n, local, d, expiry, deferred, aborted, certified);
    case CleanupTimer(_) =>
  }

  lemma HasRemoteNeedIff(n: Network, local: nat, tx: nat)
    ensures NeedsOf(n.shardOf, local, n.declared(tx)).shards != {} <==>
            exists node :: node in n.declared(tx) && n.shardOf(node) != local
  {
    var shards := NeedsOf(n.shardOf, local, n.declared(tx)).shards;
    if shards != {} {
      var s :| s in shards;
    }
    if node :| node in n.declared(tx) && n.shardOf(node) != local {
      assert n.shardOf(node) in shards;
    }
  }

  /** A transaction is buried after a step exactly when the step commits its deferral, or it was
      buried and no clean-up at or after its expiry came. */
  lemma BuriedAfterStepIff(n: Network, local: nat, d: Detector, e: Event, d': Detector, tx: nat)
    requires Inv(n, local, d) && Steps(n, local, d, e, d')
    ensures tx in d'.tombstones <==>
            || (e.BlockCommit? && tx in e.deferred)
            || (tx in d.tombstones && !(e.CleanupTimer? && d.tombstones[tx] <= e.now))
    ensures tx in d'.tombstones ==>
            d'.tombstones[tx] == if e.BlockCommit? && tx in e.deferred then e.expiry else d.tombstones[tx]
  {
    match e
    case CrossShardCommitted(_) =>
    case QuorumReached(_, _, _) =>
    case BlockCommit(deferred, aborted, certified, expiry) =>
      BlockCommitClears(n, local, d, expiry, deferred, aborted, certified);
    case CleanupTimer(_) =>
  }

  /** A quorum for a pair counts as seen after a step exactly when the step brings it for a
      transaction not buried, or it was seen and no block finished the transaction; the proof kept
      is that of the first one, and a repeated or buried one changes nothing. */
  lemma SeenAfterStepIff(n: Network, local: nat, d: Detector, e: Event, d': Detector, remote: nat, source: nat)
    requires Inv(n, local, d) && Steps(n, local, d, e, d')
    ensures var reached := e.QuorumReached? && e.remote == remote && remote !in d.tombstones;
            var first := reached && (remote, e.source) !in d.seen;
            && ((remote, source) in d'.seen <==> (reached && e.source == source) || ((remote, source) in d.seen && !Clears(e, remote)))
            && (remote in d'.proofs <==> first || (remote in d.proofs && !Clears(e, remote)))
            && (remote in d'.proofs ==> d'.proofs[remote] == if first then e.commitment else d.proofs[remote])
            && (e.QuorumReached? && e.remote == remote && !first ==> d' == d)
  {
    match e
    case CrossShardCommitted(_) =>
    case QuorumReached(_, _, _) =>
    case BlockCommit(deferred, aborted, certified, expiry) =>
      BlockCommitClears(n, local, d, expiry, deferred, aborted, certified);
    case CleanupTimer(_) =>
  }

  ghost predicate WinsNothing(d: Detector, d0: Detector, tx: nat) {
    tx !in d.proofs && forall x :: x in d.pending && x.winner == tx ==> x in d0.pending
  }

  ghost predicate LocalRun(n: Network, local: nat, run: seq<Detector>, events: seq<Event>) {
    |run| == |events| + 1 && forall k :: 0 <= k < |events| ==> Steps(n, local, run[k], events[k], run[k + 1])
  }

  /** No clean-up reaches the expiry, and later blocks expire no earlier. */
  ghost predicate Before(events: seq<Event>, expiry: nat) {
    forall k :: 0 <= k < |events| ==> match events[k]
      case CleanupTimer(now) => now < expiry
      case BlockCommit(_, _, _, later) => expiry <= later
      case _ => true
  }

  lemma BuriedStepWinsNothing(n: Network, local: nat, d: Detector, e: Event, d': Detector, d0: Detector, tx: nat, expiry: nat)
    requires Inv(n, local, d) && Steps(n, local, d, e, d') && Before([e], expiry)
    requires tx in d.tombstones && expiry <= d.tombstones[tx] && WinsNothing(d, d0, tx)
    ensures tx in d'.tombstones && expiry <= d'.tombstones[tx] && WinsNothing(d', d0, tx)
  {
    assert [e][0] == e;
    BuriedAfterStepIff(n, local, d, e, d', tx);
    match e
    case CrossShardCommitted(_) =>
    case QuorumReached(remote, source, c) =>
      if d' != d {
        var added := d'.pending[|d.pending|..];
        forall x | x in d'.pending && x.winner == tx ensures x in d0.pending {
          assert d'.pending == d.pending + added;
          assert x in added ==> x.winner == remote;
        }
      }
    case BlockCommit(deferred, aborted, certified, expiry') =>
      BlockCommitClears(n, local, d, expiry', deferred, aborted, certified);
      forall x | x in d'.pending && x.winner == tx ensures x in d0.pending {
        OthersThanKeeps(d.pending, ToSet(deferred), x);
      }
    case CleanupTimer(_) =>
  }

  lemma {:induction false} OthersThanKeeps(pending: seq<Deferral>, txs: set<nat>, x: Deferral)
    requires x in OthersThan(pending, txs)
    ensures x in pending && x.tx !in txs
    decreases |pending|
  {
    if x in OthersThan(pending[1..], txs) {
      OthersThanKeeps(pending[1..], txs, x);
    }
  }

  /** From the block that commits its deferral until a clean-up at or after its expiry, no late
      quorum lets the deferred transaction win against another. */
  lemma {:induction false} DeferredWinsNothingUntilExpiry(n: Network, local: nat, run: seq<Detector>, events: seq<Event>, tx: nat)
    requires LocalRun(n, local, run, events) && Inv(n, local, run[0])
    requires events != [] && events[0].BlockCommit? && tx in events[0].deferred && Before(events, events[0].expiry)
    ensures var last := run[|run| - 1];
            Inv(n, local, last) && tx in last.tombstones && events[0].expiry <= last.tombstones[tx] && WinsNothing(last, run[1], tx)
    decreases |events|
  {
    var e := |events| - 1;
    assert run[e + 1] == run[|run| - 1] && Steps(n, local, run[e], events[e], run[e + 1]);
    if e == 0 {
      StepKeepsInv(n, local, run[0], events[0], run[1]);
      BlockCommitClears(n, local, run[0], events[0].expiry, events[0].deferred, events[0].aborted, events[0].certified);
      assert run[1] == BlockCommitted(run[0], events[0].expiry, events[0].deferred, events[0].aborted, events[0].certified);
      assert tx in ToSet(events[0].deferred);
    } else {
      DeferredWinsNothingUntilExpiry(n, local, run[..e + 1], events[..e], tx);
      StepKeepsInv(n, local, run[e], events[e], run[e + 1]);
      BuriedStepWinsNothing(n, local, run[e], events[e], run[e + 1], run[1], tx, events[0].expiry);
    }
  }

  // ---- Any number of shards ----

  /** All shards' detectors, and every deferral any of them ever queued. */
  datatype System = System(shards: seq<Detector>, history: set<Deferral>)

  ghost predicate SystemStep(n: Network, s: System, local: nat, e: Event, s': System) {
    && local < |s.shards| == |s'.shards|
    && (forall k :: 0 <= k < |s.shards| && k != local ==> s'.shards[k] == s.shards[k])
    && Steps(n, local, s.shards[local], e, s'.shards[local])
    && s'.history == s.history + set x | x in s'.shards[local].pending
  }

  ghost predicate Next(n: Network, s: System, s': System) {
    exists local: nat, e :: SystemStep(n, s, local, e, s')
  }

  ghost predicate Initial(s: System) {
    && s.history == {}
    && forall k :: 0 <= k < |s.shards| ==> s.shards[k] == Detector(Tracker(map[], map[]), {}, map[], map[], [], {})
  }

  ghost predicate IsRun(n: Network, run: seq<System>) {
    && run != [] && Initial(run[0])
    && forall k :: 0 <= k < |run| - 1 ==> Next(n, run[k], run[k + 1])
  }

  ghost predicate SystemInv(n: Network, s: System) {
    && (forall k :: 0 <= k < |s.shards| ==> Inv(n, k, s.shards[k]))
    && (forall x :: x in s.history ==> Points(x))
  }

  lemma SystemStepKeepsInv(n: Network, s: System, s': System)
    requires SystemInv(n, s) && Next(n, s, s')
    ensures SystemInv(n, s')
  {
    var local: nat, e :| SystemStep(n, s, local, e, s');
    StepKeepsInv(n, local, s.shards[local], e, s'.shards[local]);
  }

  lemma {:induction false} RunKeepsInv(n: Network, run: seq<System>)
    requires IsRun(n, run)
    ensures SystemInv(n, run[|run| - 1])
    decreases |run|
  {
    if |run| > 1 {
      var before := run[..|run| - 1];
      assert forall k :: 0 <= k < |before| - 1 ==> Next(n, before[k], before[k + 1]) by {
        forall k | 0 <= k < |before| - 1 ensures Next(n, before[k], before[k + 1]) {
          assert before[k] == run[k] && before[k + 1] == run[k + 1];
        }
      }
      RunKeepsInv(n, before);
      assert Next(n, run[|run| - 2], run[|run| - 2 + 1]);
      SystemStepKeepsInv(n, run[|run| - 2], run[|run| - 1]);
    }
  }

  /** A chain of deferrals, each transaction deferred to the next. */
  ghost predicate Chain(history: set<Deferral>, path: seq<nat>) {
    |path| >= 2 && forall k :: 0 <= k < |path| - 1 ==> DefersTo(history, path[k], path[k + 1])
  }

  ghost predicate DefersTo(history: set<Deferral>, loser: nat, winner: nat) {
    exists x :: x in history && x.tx == loser && x.winner == winner
  }

  lemma {:induction false} ChainsDescend(history: set<Deferral>, path: seq<nat>)
    requires (forall x :: x in history ==> Points(x)) && Chain(history, path)
    ensures path[|path| - 1] < path[0]
    decreases |path|
  {
    assert DefersTo(history, path[0], path[0 + 1]);
    if |path| > 2 {
      var rest := path[1..];
      forall k | 0 <= k < |rest| - 1 ensures DefersTo(history, rest[k], rest[k + 1]) {
        assert DefersTo(history, path[k + 1], path[k + 1 + 1]);
      }
      ChainsDescend(history, rest);
    }
  }

  /** Over any run of any number of shards: no chain of deferrals returns to where it began,
      no two transactions defer to each other, and the smallest transaction of any set is
      never deferred to another of the set. */
  lemma DeferralsNeverFormACycle(n: Network, run: seq<System>)
    requires IsRun(n, run)
    ensures var h := run[|run| - 1].history;
            && (forall path :: Chain(h, path) ==> path[|path| - 1] != path[0])
            && (forall a: nat, b: nat :: !(DefersTo(h, a, b) && DefersTo(h, b, a)))
            && (forall members: set<nat>, m: nat :: m in members && (forall k :: k in members ==> m <= k) ==>
                  forall w: nat :: w in members ==> !DefersTo(h, m, w))
  {
    RunKeepsInv(n, run);
    var h := run[|run| - 1].history;
    forall path | Chain(h, path) ensures path[|path| - 1] != path[0] {
      ChainsDescend(h, path);
    }
    assert forall a: nat, b: nat :: DefersTo(h, a, b) ==> b < a;
  }
}
