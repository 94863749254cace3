/**
 The cache of verified state votes, with its reverse index from a transaction to the
 validators whose votes for it are cached.
 */
module VerifiedVotes {
  import opened ReverseIndex

  type Table = map<(nat, nat), nat>

  /** The index files a validator under a transaction exactly when its vote is in the table. */
  ghost predicate Agrees(votes: Table, byTx: Index) {
    Mirrors(votes, byTx) && NoneEmpty(byTx)
  }

  ghost predicate Mirrors(votes: Table, byTx: Index) {
    forall tx: nat, v: nat :: v in Bucket(byTx, tx) <==> (tx, v) in votes
  }

  function OtherThan(votes: Table, tx: nat): Table {
    map k | k in votes && k.0 != tx :: votes[k]
  }

  function NewerThan(votes: Table, cutoff: nat): Table {
    map k | k in votes && votes[k] > cutoff :: votes[k]
  }

  method RemoveVotes(table: Table, tx: nat, validators: set<nat>) returns (votes: Table)
    ensures votes == map k | k in table && !(k.0 == tx && k.1 in validators) :: table[k]
  {
    votes := table;
    var rest := validators;
    while rest != {}
      invariant rest <= validators
      invariant votes == map k | k in table && !(k.0 == tx && k.1 in validators - rest) :: table[k]
      decreases rest
    {
      var validator :| validator in rest;
      rest := rest - {validator};
      votes := votes - {(tx, validator)};
    }
  }

  class VerifiedVoteCache {
    var verifiedStateVotes: Table
    var verifiedVotesByTx: Index

    ghost predicate Valid()
      reads this
    {
      Agrees(verifiedStateVotes, verifiedVotesByTx) && forall k :: k in verifiedStateVotes ==> verifiedStateVotes[k] == 0
    }

    constructor ()
      ensures Valid() && verifiedStateVotes == map[]
    {
      verifiedStateVotes, verifiedVotesByTx := map[], map[];
    }

    /** Votes are always recorded with height zero. */
    method Record(tx: nat, validator: nat)
      requires Valid()
      modifies this
      ensures Valid() && verifiedStateVotes == old(verifiedStateVotes)[(tx, validator) := 0]
    {
      ghost var votes, byTx := verifiedStateVotes, verifiedVotesByTx;
      verifiedStateVotes := verifiedStateVotes[(tx, validator) := 0];
      verifiedVotesByTx := verifiedVotesByTx[tx := Bucket(verifiedVotesByTx, tx) + {validator}];
      RecordKeepsAgreement(votes, byTx, tx, validator);
    }

    /** Cleaning up by the index removes exactly what a scan of the whole table would. */
    method CleanupTransaction(tx: nat)
      requires Valid()
      modifies this
      ensures Valid() && verifiedStateVotes == OtherThan(old(verifiedStateVotes), tx)
      ensures Bucket(verifiedVotesByTx, tx) == {}
    {
      CleanupKeepsAgreement(verifiedStateVotes, verifiedVotesByTx, tx);
      verifiedStateVotes := RemoveVotes(verifiedStateVotes, tx, Bucket(verifiedVotesByTx, tx));
      verifiedVotesByTx := verifiedVotesByTx - {tx};
    }

    /** Drops votes recorded at or below the cutoff height, which is all of them. */
    method Prune(cutoff: nat)
      requires Valid()
      modifies this
      ensures Valid() && verifiedStateVotes == NewerThan(old(verifiedStateVotes), cutoff) == map[]
    {
      ghost var votes, byTx := verifiedStateVotes, verifiedVotesByTx;
      var rest := verifiedStateVotes.Keys;
      while rest != {}
        invariant rest <= votes.Keys
        invariant verifiedStateVotes == map k | k in votes && (votes[k] > cutoff || k in rest) :: votes[k]
        invariant Mirrors(verifiedStateVotes, verifiedVotesByTx)
        decreases rest
      {
        var key :| key in rest;
        rest := rest - {key};
        if verifiedStateVotes[key] <= cutoff {
          ghost var now, index := verifiedStateVotes, verifiedVotesByTx;
          verifiedStateVotes := verifiedStateVotes - {key};
          if key.0 in verifiedVotesByTx {
            verifiedVotesByTx := verifiedVotesByTx[key.0 := verifiedVotesByTx[key.0] - {key.1}];
          }
          PruneOneMirrors(now, index, key);
        }
      }
      verifiedVotesByTx := map tx | tx in verifiedVotesByTx && verifiedVotesByTx[tx] != {} :: verifiedVotesByTx[tx];
    }
  }

  lemma RecordKeepsAgreement(votes: Table, byTx: Index, tx: nat, validator: nat)
    requires Agrees(votes, byTx)
    ensures Agrees(votes[(tx, validator) := 0], byTx[tx := Bucket(byTx, tx) + {validator}])
  {
  }

  lemma CleanupKeepsAgreement(votes: Table, byTx: Index, tx: nat)
    requires Agrees(votes, byTx)
    ensures Agrees(OtherThan(votes, tx), byTx - {tx})
    ensures OtherThan(votes, tx) == map k | k in votes && !(k.0 == tx && k.1 in Bucket(byTx, tx)) :: votes[k]
  {
    assert forall k :: k in votes && k.0 == tx ==> k.1 in Bucket(byTx, tx) by {
      assert forall k :: k in votes ==> k == (k.0, k.1);
    }
    forall t: nat, v: nat ensures v in Bucket(byTx - {tx}, t) <==> (t, v) in OtherThan(votes, tx) {
      assert v in Bucket(byTx, t) <==> (t, v) in votes;
    }
  }

  lemma PruneOneMirrors(votes: Table, byTx: Index, key: (nat, nat))
    requires Mirrors(votes, byTx) && key in votes
    ensures key.0 in byTx
    ensures Mirrors(votes - {key}, byTx[key.0 := byTx[key.0] - {key.1}])
  {
    assert key.1 in Bucket(byTx, key.0);
    forall tx: nat, v: nat ensures v in Bucket(byTx[key.0 := byTx[key.0] - {key.1}], tx) <==> (tx, v) in votes - {key} {
      assert v in Bucket(byTx, tx) <==> (tx, v) in votes;
    }
  }
}
