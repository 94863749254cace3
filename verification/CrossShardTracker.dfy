/**
 The index of committed cross-shard transactions: forward from a transaction to the
 shards and nodes it needs, and in reverse from a shard to the transactions needing it.
 */
module CrossShardTracker {
  import opened ReverseIndex

  datatype Needs = Needs(shards: set<nat>, nodes: map<nat, set<nat>>)

  datatype Tracker = Tracker(needs: map<nat, Needs>, neededBy: Index)

  function AddTx(t: Tracker, tx: nat, needs: Needs): Tracker {
    Tracker(t.needs[tx := needs], With(t.neededBy, needs.shards, tx))
  }

  function RemoveTx(t: Tracker, tx: nat): Tracker {
    if tx !in t.needs then t
    else Tracker(t.needs - {tx}, Without(t.neededBy, t.needs[tx].shards, tx))
  }

  class CommittedCrossShardTracker {
    var txNeeds: map<nat, Needs>
    var shardsNeededBy: Index

    ghost function Value(): Tracker
      reads this
    {
      Tracker(txNeeds, shardsNeededBy)
    }

    constructor ()
      ensures Value() == Tracker(map[], map[])
    {
      txNeeds, shardsNeededBy := map[], map[];
    }

    method Add(tx: nat, needs: Needs)
      modifies this
      ensures Value() == AddTx(old(Value()), tx, needs)
    {
      shardsNeededBy := File(shardsNeededBy, needs.shards, tx);
      txNeeds := txNeeds[tx := needs];
    }

    method Remove(tx: nat)
      modifies this
      ensures Value() == RemoveTx(old(Value()), tx)
    {
      if tx !in txNeeds {
        return;
      }
      var needs := txNeeds[tx];
      txNeeds := txNeeds - {tx};
      shardsNeededBy := Unfile(shardsNeededBy, needs.shards, tx);
    }

    method TxsNeedingShard(shard: nat) returns (txs: set<nat>)
      ensures txs == Bucket(shardsNeededBy, shard)
    {
      return if shard in shardsNeededBy then shardsNeededBy[shard] else {};
    }
  }

  // ---- The two directions agree ----

  ghost predicate Agrees(t: Tracker) {
    && (forall s, tx :: tx in Bucket(t.neededBy, s) <==> tx in t.needs && s in t.needs[tx].shards)
    && NoneEmpty(t.neededBy)
  }

  lemma RemoveKeepsAgreement(t: Tracker, tx: nat)
    requires Agrees(t)
    ensures Agrees(RemoveTx(t, tx))
  {
    if tx in t.needs {
      var t', shards := RemoveTx(t, tx), t.needs[tx].shards;
      FilingLeavesNoneEmpty(t.neededBy, shards, tx);
      forall s, other ensures other in Bucket(t'.neededBy, s) <==> other in t'.needs && s in t'.needs[other].shards {
        StillFiledUnder(t.neededBy, shards, tx, s, other);
        assert other in Bucket(t.neededBy, s) <==> other in t.needs && s in t.needs[other].shards;
      }
    }
  }

  /** Adding a transaction keeps the indexes in agreement exactly when it is new or its new
      shards include its old ones: the reverse entries of a replaced one are not removed. */
  lemma AddKeepsAgreementIffShardsGrow(t: Tracker, tx: nat, needs: Needs)
    requires Agrees(t)
    ensures Agrees(AddTx(t, tx, needs)) <==> (tx in t.needs ==> t.needs[tx].shards <= needs.shards)
  {
    var t' := AddTx(t, tx, needs);
    FilingLeavesNoneEmpty(t.neededBy, needs.shards, tx);
    if tx in t.needs && !(t.needs[tx].shards <= needs.shards) {
      var s :| s in t.needs[tx].shards && s !in needs.shards;
      assert tx in Bucket(t.neededBy, s);
      FiledUnder(t.neededBy, needs.shards, tx, s, tx);
      assert t'.needs[tx] == needs && !Agrees(t');
    } else {
      forall s, other ensures other in Bucket(t'.neededBy, s) <==> other in t'.needs && s in t'.needs[other].shards {
        FiledUnder(t.neededBy, needs.shards, tx, s, other);
        assert other in Bucket(t.neededBy, s) <==> other in t.needs && s in t.needs[other].shards;
      }
    }
  }
}
