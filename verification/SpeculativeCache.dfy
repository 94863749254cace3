/**
 The cache of speculative executions: which transactions were executed ahead of commit,
 the nodes each declared to read, and a reverse index by node to drop those whose reads
 a committed certificate overwrites.
 */
module SpeculativeCache {
  import opened ReverseIndex
  import opened Sequences

  datatype Result = Result(readSet: set<nat>, createdAt: nat)

  datatype Cache = Cache(results: map<nat, Result>, index: Index)

  function Insert(c: Cache, tx: nat, readSet: set<nat>, now: nat): Cache {
    Cache(c.results[tx := Result(readSet, now)], With(c.index, readSet, tx))
  }

  function Remove(c: Cache, tx: nat): Cache {
    if tx !in c.results then c
    else Cache(c.results - {tx}, Without(c.index, c.results[tx].readSet, tx))
  }

  /** The transactions indexed under some written node. */
  function Hits(index: Index, written: set<nat>): set<nat> {
    set n, tx | n in written && n in index && tx in index[n] :: tx
  }

  // ---- The index covers the cache ----

  ghost predicate Covers(c: Cache) {
    && (forall tx, n :: tx in c.results && n in c.results[tx].readSet ==> tx in Bucket(c.index, n))
    && NoneEmpty(c.index)
  }

  /** Nothing is indexed beyond what the cached results read. */
  ghost predicate Exact(c: Cache) {
    Covers(c) && forall tx, n :: tx in Bucket(c.index, n) ==> tx in c.results && n in c.results[tx].readSet
  }

  lemma InsertKeepsCover(c: Cache, tx: nat, readSet: set<nat>, now: nat)
    requires Covers(c)
    ensures Covers(Insert(c, tx, readSet, now))
  {
    var c' := Insert(c, tx, readSet, now);
    FilingLeavesNoneEmpty(c.index, readSet, tx);
    forall t, n | t in c'.results && n in c'.results[t].readSet ensures t in Bucket(c'.index, n) {
      FiledUnder(c.index, readSet, tx, n, t);
    }
  }

  lemma RemoveKeepsCover(c: Cache, tx: nat)
    requires Covers(c)
    ensures Covers(Remove(c, tx))
  {
    if tx in c.results {
      var c' := Remove(c, tx);
      FilingLeavesNoneEmpty(c.index, c.results[tx].readSet, tx);
      forall t, n | t in c'.results && n in c'.results[t].readSet ensures t in Bucket(c'.index, n) {
        StillFiledUnder(c.index, c.results[tx].readSet, tx, n, t);
      }
    }
  }

  /** Caching a result keeps the index exact if and only if it is new or reads at least what
      the result it replaces read. */
  lemma InsertKeepsExactIffReadsGrow(c: Cache, tx: nat, readSet: set<nat>, now: nat)
    requires Exact(c)
    ensures Exact(Insert(c, tx, readSet, now)) <==> (tx in c.results ==> c.results[tx].readSet <= readSet)
  {
    var c' := Insert(c, tx, readSet, now);
    InsertKeepsCover(c, tx, readSet, now);
    if tx in c.results && !(c.results[tx].readSet <= readSet) {
      var n :| n in c.results[tx].readSet && n !in readSet;
      assert tx in Bucket(c.index, n);
      FiledUnder(c.index, readSet, tx, n, tx);
      assert c'.results[tx].readSet == readSet && !Exact(c');
    } else {
      forall t, n | t in Bucket(c'.index, n) ensures t in c'.results && n in c'.results[t].readSet {
        FiledUnder(c.index, readSet, tx, n, t);
      }
    }
  }

  /** Going by the index drops every result that read a written node; with an exact index it
      drops exactly those, like a scan of the whole cache. */
  lemma HitsCoverConflicts(c: Cache, written: set<nat>)
    requires Covers(c)
    ensures forall tx :: tx in c.results && tx !in Hits(c.index, written) ==> c.results[tx].readSet !! written
    ensures Exact(c) ==> forall tx :: tx in Hits(c.index, written) <==> tx in c.results && c.results[tx].readSet * written != {}
  {
    forall tx | tx in c.results && tx !in Hits(c.index, written) ensures c.results[tx].readSet !! written {
      forall n | n in c.results[tx].readSet ensures n !in written {
        assert tx in Bucket(c.index, n);
      }
    }
    if Exact(c) {
      forall tx ensures tx in Hits(c.index, written) <==> tx in c.results && c.results[tx].readSet * written != {} {
        if tx in Hits(c.index, written) {
          var n :| n in written && n in c.index && tx in c.index[n];
          assert tx in Bucket(c.index, n);
          assert n in c.results[tx].readSet * written;
        }
      }
    }
  }

  // ---- The state machine ----

  datatype Transaction = Transaction(hash: nat, declaredReads: set<nat>, singleShard: bool)

  /** No cached result read a node written since it was cached. */
  ghost predicate Fresh(results: map<nat, Result>, writtenSince: map<nat, set<nat>>) {
    forall tx :: tx in results ==> tx in writtenSince && results[tx].readSet !! writtenSince[tx]
  }

  /** The results after a batch completes; a transaction missing from the known batch is
      recorded as reading nothing. */
  function Completed(results: map<nat, Result>, txs: seq<nat>, executed: set<nat>, known: map<nat, set<nat>>, now: nat): map<nat, Result> {
    if txs == [] then results
    else
      var before, tx := Completed(results, txs[..|txs| - 1], executed, known, now), txs[|txs| - 1];
      if tx in executed then before else before[tx := Result(Bucket(known, tx), now)]
  }

  function CompletedCache(c: Cache, txs: seq<nat>, executed: set<nat>, known: map<nat, set<nat>>, now: nat): Cache {
    if txs == [] then c
    else
      var before, tx := CompletedCache(c, txs[..|txs| - 1], executed, known, now), txs[|txs| - 1];
      if tx in executed then before else Insert(before, tx, Bucket(known, tx), now)
  }

  lemma {:induction false} CompletedResults(c: Cache, txs: seq<nat>, executed: set<nat>, known: map<nat, set<nat>>, now: nat)
    ensures CompletedCache(c, txs, executed, known, now).results == Completed(c.results, txs, executed, known, now)
    decreases |txs|
  {
    if txs != [] {
      CompletedResults(c, txs[..|txs| - 1], executed, known, now);
    }
  }

  /** Every completed transaction not executed meanwhile is cached with its declared reads,
      and nothing else changes. */
  lemma {:induction false} CompletedContents(results: map<nat, Result>, txs: seq<nat>, executed: set<nat>,
                                             known: map<nat, set<nat>>, now: nat, tx: nat)
    ensures var after := Completed(results, txs, executed, known, now);
            if tx in txs && tx !in executed then tx in after && after[tx] == Result(Bucket(known, tx), now)
            else (tx in after <==> tx in results) && (tx in results ==> after[tx] == results[tx])
    decreases |txs|
  {
    if txs != [] {
      CompletedContents(results, txs[..|txs| - 1], executed, known, now, tx);
      assert txs == txs[..|txs| - 1] + [txs[|txs| - 1]];
    }
  }

  /** Every cached result records exactly the reads its transaction declared. */
  ghost predicate AllDeclared(results: map<nat, Result>, declared: nat -> set<nat>) {
    forall tx :: tx in results ==> results[tx].readSet == declared(tx)
  }

  ghost predicate KnownDeclared(known: map<nat, set<nat>>, declared: nat -> set<nat>) {
    forall tx :: tx in known ==> known[tx] == declared(tx)
  }

  /** Each completed transaction is still known to the batch, was executed meanwhile, or reads nothing. */
  predicate AllKnown(txs: seq<nat>, executed: set<nat>, known: map<nat, set<nat>>, declared: nat -> set<nat>) {
    forall tx :: tx in txs ==> tx in executed || tx in known || declared(tx) == {}
  }

  /** A completed batch leaves recorded and declared reads the same if and only if all of it is known. */
  lemma CompletedDeclaredIffKnown(results: map<nat, Result>, txs: seq<nat>, executed: set<nat>,
                                  known: map<nat, set<nat>>, now: nat, declared: nat -> set<nat>)
    requires AllDeclared(results, declared) && KnownDeclared(known, declared)
    ensures AllDeclared(Completed(results, txs, executed, known, now), declared) <==> AllKnown(txs, executed, known, declared)
  {
    var after := Completed(results, txs, executed, known, now);
    forall tx ensures tx in txs && tx !in executed ==> tx in after && after[tx].readSet == Bucket(known, tx) {
      CompletedContents(results, txs, executed, known, now, tx);
    }
    if AllKnown(txs, executed, known, declared) {
      forall tx | tx in after ensures after[tx].readSet == declared(tx) {
        CompletedContents(results, txs, executed, known, now, tx);
      }
    } else {
      var tx :| tx in txs && tx !in executed && tx !in known && declared(tx) != {};
      assert after[tx].readSet == {};
    }
  }

  class Speculation {
    const cooldownRounds: nat
    const maxTxs: nat
    var results: map<nat, Result>
    var inFlightTxs: set<nat>
    var readsIndex: Index
    var pendingExecutions: map<nat, map<nat, set<nat>>>
    var executedTxs: set<nat>
    var lastViewChangeHeight: nat
    var now: nat

    // The nodes written by certificates committed since a transaction's result was cached.
    ghost var writtenSince: map<nat, set<nat>>

    ghost function Value(): Cache
      reads `results, `readsIndex
    {
      Cache(results, readsIndex)
    }

    ghost predicate Valid()
      reads `results, `readsIndex, `writtenSince
    {
      Covers(Value()) && Fresh(results, writtenSince)
    }

    constructor (cooldownRounds: nat, maxTxs: nat)
      ensures Valid() && Value() == Cache(map[], map[]) && inFlightTxs == {} && executedTxs == {} && pendingExecutions == map[]
      ensures lastViewChangeHeight == 0 && this.cooldownRounds == cooldownRounds && this.maxTxs == maxTxs
    {
      this.cooldownRounds, this.maxTxs := cooldownRounds, maxTxs;
      results, inFlightTxs, readsIndex, pendingExecutions, executedTxs := map[], {}, map[], map[], {};
      lastViewChangeHeight, now, writtenSince := 0, 0, map[];
    }

    method OnViewChange(height: nat)
      requires Valid()
      modifies `lastViewChangeHeight, `inFlightTxs, `pendingExecutions
      ensures Valid() && inFlightTxs == {} && pendingExecutions == map[] && lastViewChangeHeight == height
    {
      lastViewChangeHeight := height;
      inFlightTxs, pendingExecutions := {}, map[];
    }

    predicate Eligible(tx: Transaction)
      reads this
    {
      tx.singleShard && tx.hash !in results && tx.hash !in inFlightTxs && tx.hash !in executedTxs
    }

    predicate ShouldSpeculate(height: nat)
      reads this
    {
      height > lastViewChangeHeight + cooldownRounds && |results.Keys| + |inFlightTxs| < maxTxs
    }

    /** Sends off the transactions not yet executed, cached or in flight, and remembers their reads. */
    method TriggerSpeculativeExecution(block: nat, height: nat, txs: seq<Transaction>) returns (sent: seq<Transaction>)
      requires Valid()
      modifies `inFlightTxs, `pendingExecutions
      ensures Valid()
      ensures forall tx :: tx in sent <==> tx in txs && old(ShouldSpeculate(height)) && old(Eligible(tx))
      ensures inFlightTxs == old(inFlightTxs) + Hashes(sent)
      ensures sent == [] ==> pendingExecutions == old(pendingExecutions)
      ensures sent != [] ==> pendingExecutions == old(pendingExecutions)[block := ReadsOf(sent)]
    {
      sent := [];
      if !ShouldSpeculate(height) {
        return;
      }
      for i := 0 to |txs|
        invariant forall tx :: tx in sent <==> tx in txs[..i] && Eligible(tx)
      {
        if Eligible(txs[i]) {
          sent := sent + [txs[i]];
        }
      }
      if sent == [] {
        return;
      }
      inFlightTxs := inFlightTxs + Hashes(sent);
      pendingExecutions := pendingExecutions[block := ReadsOf(sent)];
    }

    /** The declared reads of a batch, unless a view change made us forget it. */
    function Known(block: nat): map<nat, set<nat>>
      reads `pendingExecutions
    {
      if block in pendingExecutions then pendingExecutions[block] else map[]
    }

    method CacheOne(tx: nat, readSet: set<nat>)
      requires Valid()
      modifies `results, `readsIndex, `writtenSince
      ensures Valid() && Value() == Insert(old(Value()), tx, readSet, now)
    {
      InsertKeepsCover(Value(), tx, readSet, now);
      readsIndex := File(readsIndex, readSet, tx);
      results := results[tx := Result(readSet, now)];
      writtenSince := writtenSince[tx := {}];
    }

    method OnSpeculativeExecutionComplete(block: nat, txs: seq<nat>)
      requires Valid()
      modifies `results, `readsIndex, `writtenSince, `inFlightTxs, `pendingExecutions
      ensures Valid() && inFlightTxs == old(inFlightTxs) - ToSet(txs) && pendingExecutions == old(pendingExecutions) - {block}
      ensures Value() == CompletedCache(old(Value()), txs, executedTxs, old(Known(block)), now)
      ensures results == Completed(old(results), txs, executedTxs, old(Known(block)), now)
    {
      var known := Known(block);
      CompletedResults(Value(), txs, executedTxs, known, now);
      pendingExecutions := pendingExecutions - {block};
      for i := 0 to |txs|
        invariant Valid() && inFlightTxs == old(inFlightTxs) - ToSet(txs[..i])
        invariant Value() == CompletedCache(old(Value()), txs[..i], executedTxs, known, now)
        invariant pendingExecutions == old(pendingExecutions) - {block}
      {
        assert txs[..i + 1][..i] == txs[..i];
        inFlightTxs := inFlightTxs - {txs[i]};
        if txs[i] !in executedTxs {
          CacheOne(txs[i], Bucket(known, txs[i]));
        }
      }
      assert txs[..|txs|] == txs;
    }

    method RemoveResult(tx: nat)
      requires Valid()
      modifies `results, `readsIndex
      ensures Valid() && Value() == Remove(old(Value()), tx)
    {
      RemoveKeepsCover(Value(), tx);
      if tx in results {
        var readSet := results[tx].readSet;
        results := results - {tx};
        readsIndex := Unfile(readsIndex, readSet, tx);
      }
    }

    method RemoveResults(txs: set<nat>)
      requires Valid()
      modifies `results, `readsIndex
      ensures Valid() && results == old(results) - txs
    {
      var rest := txs;
      while rest != {}
        invariant Valid() && rest <= txs && results == old(results) - (txs - rest)
        decreases rest
      {
        var tx :| tx in rest;
        rest := rest - {tx};
        RemoveResult(tx);
      }
      assert txs - {} == txs;
    }

    /** Drops, going by the index, every result that read a node this certificate writes. */
    method InvalidateOnCommit(written: set<nat>)
      requires Valid()
      modifies `results, `readsIndex, `writtenSince
      ensures Valid()
      ensures results == old(results) - Hits(old(readsIndex), written)
      ensures forall tx :: tx in results ==> writtenSince[tx] == old(writtenSince)[tx] + written
    {
      HitsCoverConflicts(Value(), written);
      ghost var before := results;
      RemoveResults(Hits(readsIndex, written));
      assert forall tx :: tx in results ==> tx in before && results[tx] == before[tx];
      writtenSince := map tx | tx in writtenSince :: writtenSince[tx] + written;
    }

    method TakeResult(tx: nat) returns (hit: bool)
      requires Valid()
      modifies `results, `readsIndex
      ensures Valid() && hit == (tx in old(results)) && results == old(results) - {tx}
    {
      hit := tx in results;
      RemoveResult(tx);
    }

    method CleanupStale(maxAge: nat)
      requires Valid()
      modifies `results, `readsIndex
      ensures Valid()
      ensures forall tx :: tx in results <==> tx in old(results) && now - old(results)[tx].createdAt <= maxAge
      ensures forall tx :: tx in results ==> results[tx] == old(results)[tx]
    {
      RemoveResults(set tx | tx in results && now - results[tx].createdAt > maxAge);
    }

    // ---- Every run ----

    method Handle(e: Event)
      requires Valid()
      modifies this
      ensures Valid()
      ensures forall b :: b in old(pendingExecutions) && !Touches(e, b) ==> Known(b) == old(Known(b)) && b in pendingExecutions
      ensures executedTxs == (match e case Executed(tx) => old(executedTxs) + {tx}
                                      case ExecutionForgotten(tx) => old(executedTxs) - {tx}
                                      case _ => old(executedTxs))
      ensures now == if e.Clock? then e.time else old(now)
      ensures e.CertificateCommitted? ==> forall tx :: tx in results ==> e.written <= writtenSince[tx]
    {
      match e
      case ViewChange(height) => OnViewChange(height);
      case Trigger(block, height, txs) => var _ := TriggerSpeculativeExecution(block, height, txs);
      case Complete(block, txs) => OnSpeculativeExecutionComplete(block, txs);
      case CertificateCommitted(written) => InvalidateOnCommit(written);
      case BlockUses(tx) =>
        var hit := TakeResult(tx);
        if hit {
          inFlightTxs := inFlightTxs - {tx};
        }
      case Executed(tx) => executedTxs := executedTxs + {tx};
      case ExecutionForgotten(tx) => executedTxs := executedTxs - {tx};
      case CleanupTimer(maxAge) => CleanupStale(maxAge);
      case Clock(time) => now := time;
    }

    /** In every run, no cached result read a node written by any certificate committed since
        it was cached, and every node it read leads back to it through the index. */
    method Run(events: seq<Event>)
      requires Valid()
      modifies this
      ensures Valid()
      ensures forall tx :: tx in results ==> tx in writtenSince && results[tx].readSet !! writtenSince[tx]
      ensures forall tx, n :: tx in results && n in results[tx].readSet ==> tx in Bucket(readsIndex, n)
    {
      for i := 0 to |events|
        invariant Valid()
      {
        Handle(events[i]);
      }
    }

    // ---- Declared reads ----

    ghost predicate PendingDeclared(declared: nat -> set<nat>)
      reads `results, `pendingExecutions
    {
      AllDeclared(results, declared) && forall b :: b in pendingExecutions ==> KnownDeclared(pendingExecutions[b], declared)
    }

    /** A completion of which some transaction is no longer known. */
    predicate Unknown(e: Event, declared: nat -> set<nat>)
      reads `executedTxs, `pendingExecutions
    {
      e.Complete? && !AllKnown(e.hashes, executedTxs, Known(e.block), declared)
    }

    method HandleKnown(e: Event, declared: nat -> set<nat>)
      requires Valid() && PendingDeclared(declared)
      requires e.Trigger? ==> forall tx :: tx in e.txs ==> tx.declaredReads == declared(tx.hash)
      requires !Unknown(e, declared)
      modifies this
      ensures Valid() && PendingDeclared(declared)
    {
      match e
      case ViewChange(height) => OnViewChange(height);
      case Trigger(block, height, txs) =>
        var sent := TriggerSpeculativeExecution(block, height, txs);
        ReadsOfDeclared(sent, declared);
      case Complete(block, txs) =>
        CompletedDeclaredIffKnown(results, txs, executedTxs, Known(block), now, declared);
        OnSpeculativeExecutionComplete(block, txs);
      case CertificateCommitted(written) => InvalidateOnCommit(written);
      case BlockUses(tx) =>
        var hit := TakeResult(tx);
        if hit {
          inFlightTxs := inFlightTxs - {tx};
        }
      case Executed(tx) => executedTxs := executedTxs + {tx};
      case ExecutionForgotten(tx) => executedTxs := executedTxs - {tx};
      case CleanupTimer(maxAge) => CleanupStale(maxAge);
      case Clock(time) => now := time;
    }

    method RunBetween(block: nat, events: seq<Event>)
      requires Valid() && block in pendingExecutions && forall e :: e in events ==> !Touches(e, block)
      modifies this
      ensures Valid() && block in pendingExecutions && Known(block) == old(Known(block))
    {
      for i := 0 to |events|
        invariant Valid() && block in pendingExecutions && Known(block) == old(Known(block))
      {
        Handle(events[i]);
      }
    }

    /** From a trigger to the completion of what it sent, with no view change and no other trigger
        or completion for the block in between: the batch is known when it completes, and each
        transaction not executed meanwhile is cached with exactly the reads it declared. */
    method SpeculateToCompletion(block: nat, height: nat, txs: seq<Transaction>, between: seq<Event>, ghost declared: nat -> set<nat>)
      returns (sent: seq<Transaction>, ghost known: map<nat, set<nat>>)
      requires Valid() && forall tx :: tx in txs ==> tx.declaredReads == declared(tx.hash)
      requires forall e :: e in between ==> !Touches(e, block)
      modifies this
      ensures Valid()
      ensures forall tx :: tx in sent <==> tx in txs && old(ShouldSpeculate(height)) && old(Eligible(tx))
      ensures sent != [] ==> AllKnown(HashList(sent), executedTxs, known, declared) && CachedAsDeclared(results, executedTxs, sent, now)
    {
      sent := TriggerSpeculativeExecution(block, height, txs);
      known := Known(block);
      if sent == [] {
        return;
      }
      RunBetween(block, between);
      CompletionCachesDeclared(results, sent, executedTxs, now, declared);
      OnSpeculativeExecutionComplete(block, HashList(sent));
    }

    /** So a write to a node one of them declared drops its result. */
    method WriteAfterCompletion(block: nat, height: nat, txs: seq<Transaction>, between: seq<Event>, written: set<nat>,
                                ghost declared: nat -> set<nat>)
      returns (sent: seq<Transaction>)
      requires Valid() && forall tx :: tx in txs ==> tx.declaredReads == declared(tx.hash)
      requires forall e :: e in between ==> !Touches(e, block)
      modifies this
      ensures Valid()
      ensures forall tx :: tx in sent && tx.hash !in executedTxs && tx.hash in results ==> tx.declaredReads !! written
    {
      ghost var known;
      sent, known := SpeculateToCompletion(block, height, txs, between, declared);
      InvalidateOnCommit(written);
    }

    /** As long as every completed batch is known when it completes, no cached result declared a
        read of a node written since it was cached; the run stops at the first that is not. */
    method RunWhileKnown(events: seq<Event>, declared: nat -> set<nat>) returns (handled: nat)
      requires Valid() && PendingDeclared(declared)
      requires forall e :: e in events && e.Trigger? ==> forall tx :: tx in e.txs ==> tx.declaredReads == declared(tx.hash)
      modifies this
      ensures Valid() && handled <= |events|
      ensures forall tx :: tx in results ==> tx in writtenSince && declared(tx) !! writtenSince[tx]
      ensures handled < |events| ==> Unknown(events[handled], declared)
    {
      handled := 0;
      while handled < |events|
        invariant 0 <= handled <= |events| && Valid() && PendingDeclared(declared)
      {
        var e := events[handled];
        if Unknown(e, declared) {
          return;
        }
        HandleKnown(e, declared);
        handled := handled + 1;
      }
    }
  }

  /** A batch remembers every transaction sent, each with exactly the reads it declared. */
  lemma {:induction false} ReadsOfDeclared(txs: seq<Transaction>, declared: nat -> set<nat>)
    requires forall tx :: tx in txs ==> tx.declaredReads == declared(tx.hash)
    ensures KnownDeclared(ReadsOf(txs), declared)
    ensures forall tx :: tx in txs ==> tx.hash in ReadsOf(txs) && ReadsOf(txs)[tx.hash] == tx.declaredReads
    ensures ReadsOf(txs).Keys == Hashes(txs)
    decreases |txs|
  {
    if txs != [] {
      var before, last := txs[..|txs| - 1], txs[|txs| - 1];
      ReadsOfDeclared(before, declared);
      assert txs == before + [last];
      assert Hashes(txs) == Hashes(before) + {last.hash};
    }
  }

  /** The event may change what is remembered of the block's batch. */
  predicate Touches(e: Event, block: nat) {
    e.ViewChange? || (e.Trigger? && e.block == block) || (e.Complete? && e.block == block)
  }

  function HashList(txs: seq<Transaction>): seq<nat> {
    seq(|txs|, i requires 0 <= i < |txs| => txs[i].hash)
  }

  /** Each transaction not executed meanwhile is cached with the reads it declared. */
  ghost predicate CachedAsDeclared(results: map<nat, Result>, executed: set<nat>, txs: seq<Transaction>, now: nat) {
    forall tx :: tx in txs && tx.hash !in executed ==> tx.hash in results && results[tx.hash] == Result(tx.declaredReads, now)
  }

  lemma CompletionCachesDeclared(results: map<nat, Result>, txs: seq<Transaction>, executed: set<nat>, now: nat, declared: nat -> set<nat>)
    requires forall tx :: tx in txs ==> tx.declaredReads == declared(tx.hash)
    ensures CachedAsDeclared(Completed(results, HashList(txs), executed, ReadsOf(txs), now), executed, txs, now)
    ensures AllKnown(HashList(txs), executed, ReadsOf(txs), declared)
  {
    ReadsOfDeclared(txs, declared);
    forall tx | tx in txs && tx.hash !in executed
      ensures var after := Completed(results, HashList(txs), executed, ReadsOf(txs), now);
              tx.hash in after && after[tx.hash] == Result(tx.declaredReads, now)
    {
      var i :| 0 <= i < |txs| && txs[i] == tx;
      assert HashList(txs)[i] == tx.hash;
      CompletedContents(results, HashList(txs), executed, ReadsOf(txs), now, tx.hash);
    }
    forall h | h in HashList(txs) ensures h in ReadsOf(txs) {
      var i :| 0 <= i < |txs| && HashList(txs)[i] == h;
      assert txs[i] in txs;
    }
  }

  /** A view change forgets the batch: transaction 1, which declared node 5, is cached as reading
      nothing and survives a write to node 5. */
  method ViewChangeForgetsReads() returns (s: Speculation)
    ensures fresh(s) && s.Valid() && 1 in s.results && s.results[1].readSet == {} && 5 in s.writtenSince[1]
  {
    s := new Speculation(0, 10);
    var _ := s.TriggerSpeculativeExecution(9, 1, [Transaction(1, {5}, true)]);
    s.OnViewChange(1);
    s.OnSpeculativeExecutionComplete(9, [1]);
    OneForgotten(map[], s.now);
    s.InvalidateOnCommit({5});
  }

  method TriggerOne() returns (s: Speculation)
    ensures fresh(s) && s.Valid() && s.Value() == Cache(map[], map[]) && s.executedTxs == {} && s.inFlightTxs == {1}
    ensures s.ShouldSpeculate(1)
  {
    s := new Speculation(0, 10);
    var first := s.TriggerSpeculativeExecution(9, 1, [Transaction(1, {5}, true)]);
    assert Transaction(1, {5}, true) in first;
    SameHash(first, 1);
    assert s.results.Keys == {} && |{1}| == 1;
  }

  /** Two triggers for block 9: the second replaces the batch of the first. */
  method TriggerTwice() returns (s: Speculation)
    ensures fresh(s) && s.Valid() && s.Value() == Cache(map[], map[]) && s.executedTxs == {} && 1 !in s.Known(9)
  {
    s := TriggerOne();
    assert s.Eligible(Transaction(2, {6}, true));
    var second := s.TriggerSpeculativeExecution(9, 1, [Transaction(2, {6}, true)]);
    assert Transaction(2, {6}, true) in second;
    OnlyTwo(second);
  }

  /** So does a second trigger for the same block. */
  method SecondTriggerForgetsReads() returns (s: Speculation)
    ensures fresh(s) && s.Valid() && 1 in s.results && s.results[1].readSet == {} && 5 in s.writtenSince[1]
  {
    s := TriggerTwice();
    ghost var known := s.Known(9);
    s.OnSpeculativeExecutionComplete(9, [1]);
    OneForgotten(known, s.now);
    s.InvalidateOnCommit({5});
  }

  lemma SameHash(txs: seq<Transaction>, hash: nat)
    requires txs != [] && forall tx :: tx in txs ==> tx.hash == hash
    ensures Hashes(txs) == {hash}
  {
    assert txs[0] in txs;
  }

  lemma OneForgotten(known: map<nat, set<nat>>, now: nat)
    requires 1 !in known
    ensures CompletedCache(Cache(map[], map[]), [1], {}, known, now) == Cache(map[1 := Result({}, now)], map[])
  {
    assert [1][..0] == [];
    assert With(map[], {}, 1) == map[];
  }

  lemma {:induction false} OnlyTwo(txs: seq<Transaction>)
    requires forall tx :: tx in txs ==> tx.hash == 2
    ensures 1 !in ReadsOf(txs)
    decreases |txs|
  {
    if txs != [] {
      OnlyTwo(txs[..|txs| - 1]);
    }
  }

  function Hashes(txs: seq<Transaction>): set<nat> {
    set tx | tx in txs :: tx.hash
  }

  /** The declared reads by hash; a later transaction with the same hash replaces an earlier one. */
  function ReadsOf(txs: seq<Transaction>): map<nat, set<nat>> {
    if txs == [] then map[]
    else ReadsOf(txs[..|txs| - 1])[txs[|txs| - 1].hash := txs[|txs| - 1].declaredReads]
  }

  datatype Event =
    | ViewChange(height: nat)
    | Trigger(block: nat, height: nat, txs: seq<Transaction>)
    | Complete(block: nat, hashes: seq<nat>)
    | CertificateCommitted(written: set<nat>)
    | BlockUses(tx: nat)
    | Executed(tx: nat)
    | ExecutionForgotten(tx: nat)
    | CleanupTimer(maxAge: nat)
    | Clock(time: nat)
}
