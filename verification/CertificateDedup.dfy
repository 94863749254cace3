/**
 Certificates in proposals: a proposer walks back over the blocks that are not committed
 yet and leaves out every certificate it finds there.
 */
module CertificateDedup {
  import opened Sequences

  datatype Block = Block(height: nat, parent: nat, certificates: seq<nat>)

  /** All blocks by hash, those a node holds, and its committed height. */
  datatype View = View(blocks: map<nat, Block>, held: set<nat>, committed: nat)

  /** A header names its parent's height plus one. */
  ghost predicate Descending(blocks: map<nat, Block>) {
    forall h :: h in blocks && blocks[h].parent in blocks ==> blocks[blocks[h].parent].height < blocks[h].height
  }

  /** The walk goes on from a block that is held and not committed. */
  predicate Open(v: View, hash: nat) {
    hash in v.held && hash in v.blocks && v.blocks[hash].height > v.committed
  }

  function HeightOf(v: View, hash: nat): nat {
    if hash in v.blocks then v.blocks[hash].height else 0
  }

  function ChainCertificates(v: View, hash: nat): set<nat>
    requires Descending(v.blocks)
    decreases HeightOf(v, hash)
  {
    if !Open(v, hash) then {}
    else
      var parent := v.blocks[hash].parent;
      ToSet(v.blocks[hash].certificates) + if Open(v, parent) then ChainCertificates(v, parent) else {}
  }

  /** `ancestor` is reached from `hash` over blocks that are held and not committed. */
  ghost predicate Reaches(v: View, hash: nat, ancestor: nat)
    requires Descending(v.blocks)
    decreases HeightOf(v, hash)
  {
    Open(v, hash) && (ancestor == hash || (Open(v, v.blocks[hash].parent) && Reaches(v, v.blocks[hash].parent, ancestor)))
  }

  method WalkQcChain(v: View, parentHash: nat) returns (found: set<nat>)
    requires Descending(v.blocks)
    ensures found == ChainCertificates(v, parentHash)
  {
    found := {};
    var current := parentHash;
    while current in v.held && current in v.blocks
      invariant found + ChainCertificates(v, current) == ChainCertificates(v, parentHash)
      decreases if Open(v, current) then HeightOf(v, current) + 1 else 0
    {
      var block := v.blocks[current];
      if block.height <= v.committed {
        break;
      }
      for i := 0 to |block.certificates|
        invariant found + (ToSet(block.certificates[i..]) + if Open(v, block.parent) then ChainCertificates(v, block.parent) else {})
                  == ChainCertificates(v, parentHash)
      {
        assert ToSet(block.certificates[i..]) == {block.certificates[i]} + ToSet(block.certificates[i + 1..]);
        found := found + {block.certificates[i]};
      }
      current := block.parent;
    }
  }

  /** The walk finds exactly the certificates of the ancestors it can reach. */
  lemma {:induction false} WalkFindsReachable(v: View, hash: nat, c: nat)
    requires Descending(v.blocks)
    ensures c in ChainCertificates(v, hash) <==> exists a :: Open(v, a) && Reaches(v, hash, a) && c in v.blocks[a].certificates
    decreases HeightOf(v, hash)
  {
    if Open(v, hash) {
      var parent := v.blocks[hash].parent;
      if Open(v, parent) {
        WalkFindsReachable(v, parent, c);
      }
      assert Reaches(v, hash, hash);
    }
  }

  // ---- Choosing certificates ----

  function NotIn(candidates: seq<nat>, excluded: set<nat>): seq<nat> {
    if candidates == [] then []
    else (if candidates[0] in excluded then [] else [candidates[0]]) + NotIn(candidates[1..], excluded)
  }

  function Take(s: seq<nat>, limit: nat): seq<nat> {
    if |s| <= limit then s else s[..limit]
  }

  lemma NotInStep(candidates: seq<nat>, i: nat, excluded: set<nat>, chosen: seq<nat>)
    requires i < |candidates|
    ensures chosen + NotIn(candidates[i..], excluded) ==
            (if candidates[i] in excluded then chosen else chosen + [candidates[i]]) + NotIn(candidates[i + 1..], excluded)
  {
    assert candidates[i..][1..] == candidates[i + 1..];
  }

  method SelectCertificates(candidates: seq<nat>, excluded: set<nat>, limit: nat) returns (chosen: seq<nat>)
    ensures chosen == Take(NotIn(candidates, excluded), limit)
  {
    chosen := [];
    var i := 0;
    while i < |candidates| && |chosen| < limit
      invariant 0 <= i <= |candidates| && |chosen| <= limit
      invariant chosen + NotIn(candidates[i..], excluded) == NotIn(candidates, excluded)
    {
      NotInStep(candidates, i, excluded, chosen);
      if candidates[i] !in excluded {
        chosen := chosen + [candidates[i]];
      }
      i := i + 1;
    }
  }

  lemma {:induction false} NotInContents(candidates: seq<nat>, excluded: set<nat>, c: nat)
    ensures c in NotIn(candidates, excluded) <==> c in candidates && c !in excluded
    decreases |candidates|
  {
    if candidates != [] {
      NotInContents(candidates[1..], excluded, c);
      assert candidates == [candidates[0]] + candidates[1..];
    }
  }

  lemma {:induction false} NotInKeepsDistinct(candidates: seq<nat>, excluded: set<nat>)
    requires NoRepeats(candidates)
    ensures NoRepeats(NotIn(candidates, excluded))
    decreases |candidates|
  {
    if candidates != [] {
      NotInKeepsDistinct(candidates[1..], excluded);
      NotInContents(candidates[1..], excluded, candidates[0]);
    }
  }

  /** A proposal is within the size limit, repeats nothing, and holds exactly the first
      candidates that no reachable uncommitted ancestor of it carries. */
  lemma ProposalAvoidsAncestors(v: View, parentHash: nat, candidates: seq<nat>, limit: nat)
    requires Descending(v.blocks) && NoRepeats(candidates)
    ensures var chosen := Take(NotIn(candidates, ChainCertificates(v, parentHash)), limit);
            && |chosen| <= limit && NoRepeats(chosen)
            && (forall c :: c in chosen ==> c in candidates)
            && (forall c, a :: c in chosen && Open(v, a) && Reaches(v, parentHash, a) ==> c !in v.blocks[a].certificates)
            && (|chosen| < limit ==> forall c :: c in candidates && c !in chosen ==>
                  exists a :: Open(v, a) && Reaches(v, parentHash, a) && c in v.blocks[a].certificates)
  {
    var excluded := ChainCertificates(v, parentHash);
    NotInKeepsDistinct(candidates, excluded);
    forall c ensures c in NotIn(candidates, excluded) <==> c in candidates && c !in excluded {
      NotInContents(candidates, excluded, c);
    }
    forall c: nat ensures c in excluded <==> exists a :: Open(v, a) && Reaches(v, parentHash, a) && c in v.blocks[a].certificates {
      WalkFindsReachable(v, parentHash, c);
    }
  }

  // ---- Along a chain ----

  /** A chain of block hashes, oldest first, each the parent of the next. */
  ghost predicate Linked(blocks: map<nat, Block>, chain: seq<nat>) {
    && (forall k :: 0 <= k < |chain| ==> chain[k] in blocks)
    && (forall k :: 0 < k < |chain| ==> blocks[chain[k]].parent == chain[k - 1])
  }

  // The finalized certificates of a node: added when they are finalized, removed when a block
  // with them is committed.
  datatype StoreEvent = Finalized(certificate: nat) | Committed(certificates: seq<nat>)

  function Store(history: seq<StoreEvent>): set<nat> {
    if history == [] then {}
    else
      var before, last := Store(history[..|history| - 1]), history[|history| - 1];
      match last
      case Finalized(c) => before + {c}
      case Committed(cs) => before - ToSet(cs)
  }

  /** A committed certificate is among the candidates again if and only if it was finalized again
      since, and not committed again. */
  lemma {:induction false} BackInStoreIffFinalizedAgain(before: seq<StoreEvent>, cs: seq<nat>, after: seq<StoreEvent>, c: nat)
    requires c in cs
    ensures c in Store(before + [Committed(cs)] + after) <==> c in Store(after)
    decreases |after|
  {
    var all := before + [Committed(cs)] + after;
    if after == [] {
      assert all == before + [Committed(cs)] && all[..|all| - 1] == before;
    } else {
      BackInStoreIffFinalizedAgain(before, cs, after[..|after| - 1], c);
      assert all[..|all| - 1] == before + [Committed(cs)] + after[..|after| - 1];
    }
  }

  /** The block's certificates were removed when it was committed, and none was finalized again. */
  ghost predicate KeptOut(history: seq<StoreEvent>, cs: seq<nat>) {
    exists j :: 0 <= j < |history| && history[j] == Committed(cs) && ToSet(cs) !! Store(history[j + 1..])
  }

  lemma KeptOutOfStore(history: seq<StoreEvent>, cs: seq<nat>, c: nat)
    requires KeptOut(history, cs) && c in cs
    ensures c !in Store(history)
  {
    var j :| 0 <= j < |history| && history[j] == Committed(cs) && ToSet(cs) !! Store(history[j + 1..]);
    assert history == history[..j] + [Committed(cs)] + history[j + 1..];
    BackInStoreIffFinalizedAgain(history[..j], cs, history[j + 1..], c);
  }

  datatype Proposer = Proposer(view: View, history: seq<StoreEvent>, candidates: seq<nat>, limit: nat)

  /** Block `k` was proposed from the node's finalized certificates, by a node that held the
      block's uncommitted ancestors in the chain and kept the certificates of the committed ones
      out. The block may have lost certificates since. */
  ghost predicate ProposedAt(blocks: map<nat, Block>, chain: seq<nat>, k: nat, p: Proposer)
    requires Descending(blocks) && Linked(blocks, chain) && k < |chain|
  {
    var block := blocks[chain[k]];
    && p.view.blocks == blocks && ToSet(p.candidates) <= Store(p.history)
    && (forall i :: 0 <= i < k && blocks[chain[i]].height > p.view.committed ==> chain[i] in p.view.held)
    && (forall i :: 0 <= i < k && blocks[chain[i]].height <= p.view.committed ==> KeptOut(p.history, blocks[chain[i]].certificates))
    && NoRepeats(block.certificates)
    && ToSet(block.certificates) <= ToSet(Take(NotIn(p.candidates, ChainCertificates(p.view, block.parent)), p.limit))
  }

  lemma {:induction false} LaterIsHigher(blocks: map<nat, Block>, chain: seq<nat>, i: nat, k: nat)
    requires Descending(blocks) && Linked(blocks, chain) && i <= k < |chain|
    ensures i < k ==> blocks[chain[i]].height < blocks[chain[k]].height
    decreases k
  {
    if i < k {
      LaterIsHigher(blocks, chain, i, k - 1);
      assert blocks[chain[k]].parent == chain[k - 1];
    }
  }

  lemma {:induction false} ChainIsReached(v: View, chain: seq<nat>, i: nat, k: nat)
    requires Descending(v.blocks) && Linked(v.blocks, chain) && i <= k < |chain|
    requires forall j :: i <= j <= k ==> Open(v, chain[j])
    ensures Reaches(v, chain[k], chain[i])
    decreases k
  {
    if i < k {
      ChainIsReached(v, chain, i, k - 1);
      assert v.blocks[chain[k]].parent == chain[k - 1];
    }
  }

  lemma ProposalAvoids(blocks: map<nat, Block>, chain: seq<nat>, i: nat, k: nat, p: Proposer, c: nat)
    requires Descending(blocks) && Linked(blocks, chain) && i < k < |chain| && ProposedAt(blocks, chain, k, p)
    requires c in blocks[chain[k]].certificates
    ensures c !in blocks[chain[i]].certificates
  {
    var v := p.view;
    assert blocks[chain[k]].parent == chain[k - 1];
    assert c in ToSet(blocks[chain[k]].certificates);
    NotInContents(p.candidates, ChainCertificates(v, chain[k - 1]), c);
    assert c in ToSet(p.candidates);
    if blocks[chain[i]].height <= v.committed {
      if c in blocks[chain[i]].certificates {
        KeptOutOfStore(p.history, blocks[chain[i]].certificates, c);
      }
    } else {
      forall j | i <= j <= k - 1 ensures Open(v, chain[j]) {
        LaterIsHigher(blocks, chain, i, j);
      }
      ChainIsReached(v, chain, i, k - 1);
      WalkFindsReachable(v, chain[k - 1], c);
    }
  }

  /** In a chain of such proposals, by any proposers at any committed heights, no certificate
      occurs twice. */
  lemma NoCertificateRepeats(blocks: map<nat, Block>, chain: seq<nat>, proposers: seq<Proposer>)
    requires Descending(blocks) && Linked(blocks, chain) && |proposers| == |chain|
    requires forall k :: 0 <= k < |chain| ==> ProposedAt(blocks, chain, k, proposers[k])
    ensures forall i, k :: 0 <= i < k < |chain| ==>
              ToSet(blocks[chain[i]].certificates) !! ToSet(blocks[chain[k]].certificates)
    ensures forall k :: 0 <= k < |chain| ==> NoRepeats(blocks[chain[k]].certificates)
  {
    forall k | 0 <= k < |chain| ensures NoRepeats(blocks[chain[k]].certificates) {
      assert ProposedAt(blocks, chain, k, proposers[k]);
    }
    forall i, k | 0 <= i < k < |chain|
      ensures ToSet(blocks[chain[i]].certificates) !! ToSet(blocks[chain[k]].certificates)
    {
      assert ProposedAt(blocks, chain, k, proposers[k]);
      forall c | c in blocks[chain[k]].certificates ensures c !in blocks[chain[i]].certificates {
        ProposalAvoids(blocks, chain, i, k, proposers[k], c);
      }
    }
  }

  /** Finalizing a certificate again after its block was committed brings it back: the next
      proposal selects it a second time. */
  lemma FinalizedAgainRepeats(limit: nat)
    requires limit > 0
    ensures var blocks := map[1 := Block(1, 0, [5])];
            && Descending(blocks)
            && Store([Finalized(5), Committed([5]), Finalized(5)]) == {5}
            && Take(NotIn([5], ChainCertificates(View(blocks, {1}, 1), 1)), limit) == blocks[1].certificates
  {
    StoreOfThree(5);
    var excluded := ChainCertificates(View(map[1 := Block(1, 0, [5])], {1}, 1), 1);
    assert excluded == {} && [5][1..] == [];
    assert NotIn([5], excluded) == [5] + NotIn([], excluded);
  }

  lemma StoreOfThree(c: nat)
    ensures Store([Finalized(c), Committed([c]), Finalized(c)]) == {c}
  {
    var h1, h2, h3 := [Finalized(c)], [Finalized(c), Committed([c])], [Finalized(c), Committed([c]), Finalized(c)];
    assert h3[..2] == h2 && h2[..1] == h1 && h1[..0] == [];
    assert Store(h1) == {} + {c};
    assert Store(h2) == Store(h1) - ToSet([c]);
    assert Store(h2) == {};
    assert Store(h3) == Store(h2) + {c};
  }
}
