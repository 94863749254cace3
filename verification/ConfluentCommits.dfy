/**
 Out-of-order commits converge.

 Consensus announces that blocks are ready to commit in any order, and their data
 arrives in any order too. For a contiguous run of blocks whose headers are known,
 where the node ends depends only on which announcements and which data have
 arrived, not on when.
 */
module ConfluentCommits {
  import opened CommitPipeline
  import opened PipelineRuns

  /** Consecutive blocks on top of height `base`. */
  ghost predicate Contiguous(blocks: seq<BlockId>, base: nat) {
    forall i :: 0 <= i < |blocks| ==> blocks[i].height == base + 1 + i
  }

  /** The first `p` blocks are done and the next one, if any, is not. */
  ghost predicate FirstGap(blocks: seq<BlockId>, done: set<BlockId>, p: nat) {
    && p <= |blocks|
    && (forall i :: 0 <= i < p ==> blocks[i] in done)
    && (p < |blocks| ==> blocks[p] !in done)
  }

  /** What the node knows about a block at or above the committed tip. */
  ghost predicate Tracked(c: Chain, id: BlockId, ready: set<BlockId>, data: set<BlockId>) {
    && id in c.pendingBlocks
    && (c.pendingBlocks[id] <==> id in data)
    && (id in c.awaitingData <==> id in ready && id !in data)
  }

  /** The first `p` blocks are committed; the others are tracked, and those of them
      that are done wait in the buffer, except the one at index `skip`. */
  ghost predicate Reached(c: Chain, blocks: seq<BlockId>, base: nat, before: seq<BlockId>,
                          ready: set<BlockId>, data: set<BlockId>, p: nat, skip: int)
  {
    && p <= |blocks|
    && c.committed == base + p
    && c.emitted == before + blocks[..p]
    && (forall i :: 0 <= i < p ==> blocks[i] !in c.pendingBlocks)
    && (forall i :: p <= i < |blocks| ==> Tracked(c, blocks[i], ready, data))
    && (forall h :: h in c.pendingCommits <==>
                    base + p < h <= base + |blocks| && h - base - 1 != skip
                    && blocks[h - base - 1] in ready && blocks[h - base - 1] in data)
    && (forall h :: h in c.pendingCommits ==> c.pendingCommits[h] == blocks[h - base - 1].digest)
  }

  lemma CommitKeepsTracked(c: Chain, blocks: seq<BlockId>, base: nat, before: seq<BlockId>,
                           ready: set<BlockId>, data: set<BlockId>, p: nat)
    requires Contiguous(blocks, base)
    requires p < |blocks| && Reached(c, blocks, base, before, ready, data, p, p)
    ensures Reached(Commit(c, blocks[p]), blocks, base, before, ready, data, p + 1, p)
  {
    var d := Commit(c, blocks[p]);
    assert before + blocks[..p] + [blocks[p]] == before + blocks[..p + 1];
    forall i | p + 1 <= i < |blocks| ensures Tracked(d, blocks[i], ready, data) {
      assert Tracked(c, blocks[i], ready, data);
    }
  }

  /** Committing the first gap runs on to the next one. */
  lemma {:induction false} CommitFromReaches(c: Chain, blocks: seq<BlockId>, base: nat, before: seq<BlockId>,
                                             ready: set<BlockId>, data: set<BlockId>, p: nat) returns (q: nat)
    requires Contiguous(blocks, base)
    requires p < |blocks| && Reached(c, blocks, base, before, ready, data, p, p)
    requires blocks[p] in ready && blocks[p] in data
    requires forall i :: 0 <= i < p ==> blocks[i] in ready * data
    ensures FirstGap(blocks, ready * data, q)
    ensures Reached(CommitFrom(c, blocks[p]), blocks, base, before, ready, data, q, -1)
    decreases |blocks| - p
  {
    var id := blocks[p];
    var d := Commit(c, id);
    CommitKeepsTracked(c, blocks, base, before, ready, data, p);
    if id.height + 1 in c.pendingCommits {
      var e := PopCommit(d, id.height + 1);
      assert forall i :: p + 1 <= i < |blocks| && Tracked(d, blocks[i], ready, data) ==> Tracked(e, blocks[i], ready, data);
      assert BufferedCommit(c, id.height + 1) == blocks[p + 1];
      q := CommitFromReaches(e, blocks, base, before, ready, data, p + 1);
    } else {
      q := p + 1;
    }
  }

  lemma GapIsUnique(blocks: seq<BlockId>, done: set<BlockId>, p: nat, q: nat)
    requires FirstGap(blocks, done, p) && FirstGap(blocks, done, q)
    ensures p == q
  {
  }

  /** A block becomes done: its commit happens now, or is buffered, or already happened. */
  lemma ReadyReaches(n: Node, i: nat, blocks: seq<BlockId>, base: nat, before: seq<BlockId>,
                     ready: set<BlockId>, data: set<BlockId>, p: nat) returns (q: nat)
    requires Contiguous(blocks, base) && i < |blocks|
    requires FirstGap(blocks, ready * data, p)
    requires Reached(n.chain, blocks, base, before, ready, data, p, -1)
    ensures FirstGap(blocks, (ready + {blocks[i]}) * data, q)
    ensures Reached(OnBlockReadyToCommit(n, blocks[i]).chain, blocks, base, before, ready + {blocks[i]}, data, q, -1)
  {
    var id, c := blocks[i], n.chain;
    var ready' := ready + {id};
    if i < p {
      q := p;
      assert ready' == ready;
    } else {
      assert Tracked(c, id, ready, data);
      if i == p && id in data {
        forall j | p <= j < |blocks| ensures Tracked(c, blocks[j], ready', data) {
          assert Tracked(c, blocks[j], ready, data);
        }
        q := CommitFromReaches(c, blocks, base, before, ready', data, p);
      } else {
        q := p;
        var d := DeferCommit(c, id);
        forall j | p <= j < |blocks| ensures Tracked(d, blocks[j], ready', data) {
          assert Tracked(c, blocks[j], ready, data);
        }
      }
    }
  }

  lemma DataReaches(n: Node, i: nat, blocks: seq<BlockId>, base: nat, before: seq<BlockId>,
                    ready: set<BlockId>, data: set<BlockId>, p: nat) returns (q: nat)
    requires Contiguous(blocks, base) && i < |blocks|
    requires FirstGap(blocks, ready * data, p)
    requires Reached(n.chain, blocks, base, before, ready, data, p, -1)
    ensures FirstGap(blocks, ready * (data + {blocks[i]}), q)
    ensures Reached(OnDataComplete(n, blocks[i]).chain, blocks, base, before, ready, data + {blocks[i]}, q, -1)
  {
    var id, data' := blocks[i], data + {blocks[i]};
    q := p;
    if i < p {
      assert data' == data;
    } else {
      assert Tracked(n.chain, id, ready, data);
      var c := Constructed(n.chain, id);
      if id in c.awaitingData {
        // As if the announcement came only now, after the data.
        var d := c.(awaitingData := c.awaitingData - {id});
        var later := ready - {id};
        assert later * data' == ready * data;
        forall j | p <= j < |blocks| ensures Tracked(d, blocks[j], later, data') {
          assert Tracked(n.chain, blocks[j], ready, data);
        }
        q := ReadyReaches(n.(chain := d), i, blocks, base, before, later, data', p);
        assert later + {id} == ready;
      } else {
        assert ready * data' == ready * data;
        forall j | p <= j < |blocks| ensures Tracked(c, blocks[j], ready, data') {
          assert Tracked(n.chain, blocks[j], ready, data);
        }
      }
    }
  }

  // ---- Runs ----

  ghost predicate CommitEvents(events: seq<Event>, blocks: seq<BlockId>) {
    forall e :: e in events ==> (e.Ready? || e.Data?) && e.id in blocks
  }

  ghost function Announced(events: seq<Event>): (ids: set<BlockId>)
    ensures forall id :: id in ids <==> Ready(id) in events
  {
    set e | e in events && e.Ready? :: e.id
  }

  ghost function Supplied(events: seq<Event>): (ids: set<BlockId>)
    ensures forall id :: id in ids <==> Data(id) in events
  {
    set e | e in events && e.Data? :: e.id
  }

  /** One event adds to the announced or to the supplied blocks. */
  lemma StepReaches(n: Node, e: Event, blocks: seq<BlockId>, base: nat, before: seq<BlockId>,
                    ready: set<BlockId>, data: set<BlockId>, p: nat) returns (q: nat)
    requires Contiguous(blocks, base) && CommitEvents([e], blocks)
    requires FirstGap(blocks, ready * data, p)
    requires Reached(n.chain, blocks, base, before, ready, data, p, -1)
    ensures FirstGap(blocks, (ready + Announced([e])) * (data + Supplied([e])), q)
    ensures Reached(Step(n, e).chain, blocks, base, before, ready + Announced([e]), data + Supplied([e]), q, -1)
  {
    assert e in [e];
    var i :| 0 <= i < |blocks| && blocks[i] == e.id;
    if e.Ready? {
      assert Announced([e]) == {e.id} && data + Supplied([e]) == data;
      q := ReadyReaches(n, i, blocks, base, before, ready, data, p);
    } else {
      assert Supplied([e]) == {e.id} && ready + Announced([e]) == ready;
      q := DataReaches(n, i, blocks, base, before, ready, data, p);
    }
  }

  lemma {:induction false} RunReaches(n: Node, events: seq<Event>, blocks: seq<BlockId>, base: nat, before: seq<BlockId>,
                                      ready: set<BlockId>, data: set<BlockId>, p: nat) returns (q: nat)
    requires Contiguous(blocks, base) && CommitEvents(events, blocks)
    requires FirstGap(blocks, ready * data, p)
    requires Reached(n.chain, blocks, base, before, ready, data, p, -1)
    ensures FirstGap(blocks, (ready + Announced(events)) * (data + Supplied(events)), q)
    ensures Reached(Run(n, events).chain, blocks, base, before, ready + Announced(events), data + Supplied(events), q, -1)
    decreases |events|
  {
    if events == [] {
      q := p;
      assert ready + Announced(events) == ready && data + Supplied(events) == data;
    } else {
      var e, rest := events[0], events[1..];
      assert events == [e] + rest;
      var r := StepReaches(n, e, blocks, base, before, ready, data, p);
      q := RunReaches(Step(n, e), rest, blocks, base, before, ready + Announced([e]), data + Supplied([e]), r);
      assert ready + Announced([e]) + Announced(rest) == ready + Announced(events);
      assert data + Supplied([e]) + Supplied(rest) == data + Supplied(events);
    }
  }

  /** Headers of all the blocks are known, nothing has been announced yet. */
  ghost predicate Fresh(c: Chain, blocks: seq<BlockId>, base: nat) {
    && c.committed == base
    && Contiguous(blocks, base)
    && c.pendingCommits == map[]
    && (forall i :: 0 <= i < |blocks| ==> blocks[i] in c.pendingBlocks && blocks[i] !in c.awaitingData)
  }

  ghost function AlreadyComplete(c: Chain): set<BlockId> {
    set id | id in c.pendingBlocks && c.pendingBlocks[id]
  }

  /** Every interleaving of announcements and data ends at the first block that
      lacks one of the two: everything before it is emitted in order, and no
      buffered commit is left at the next height. */
  lemma EveryInterleavingReachesTheGap(n: Node, events: seq<Event>, blocks: seq<BlockId>, base: nat) returns (p: nat)
    requires Fresh(n.chain, blocks, base) && CommitEvents(events, blocks)
    ensures FirstGap(blocks, Announced(events) * (AlreadyComplete(n.chain) + Supplied(events)), p)
    ensures var c := Run(n, events).chain;
            && c.committed == base + p
            && c.emitted == n.chain.emitted + blocks[..p]
            && c.committed + 1 !in c.pendingCommits
  {
    var data := AlreadyComplete(n.chain);
    FreshReachesNothing(n.chain, blocks, base);
    p := RunReaches(n, events, blocks, base, n.chain.emitted, {}, data, 0);
    assert {} + Announced(events) == Announced(events);
  }

  lemma FreshReachesNothing(c: Chain, blocks: seq<BlockId>, base: nat)
    requires Fresh(c, blocks, base)
    ensures Reached(c, blocks, base, c.emitted, {}, AlreadyComplete(c), 0, -1)
    ensures FirstGap(blocks, {} * AlreadyComplete(c), 0)
  {
    assert c.emitted + blocks[..0] == c.emitted;
    forall i | 0 <= i < |blocks| ensures Tracked(c, blocks[i], {}, AlreadyComplete(c)) {
    }
  }

  /** Two runs over the same events, in any orders and with any repetitions, end
      with the same height and the same emitted blocks. */
  lemma CommitsAreConfluent(n: Node, one: seq<Event>, other: seq<Event>, blocks: seq<BlockId>, base: nat)
    requires Fresh(n.chain, blocks, base)
    requires CommitEvents(one, blocks) && CommitEvents(other, blocks)
    requires forall e :: e in one <==> e in other
    ensures Run(n, one).chain.committed == Run(n, other).chain.committed
    ensures Run(n, one).chain.emitted == Run(n, other).chain.emitted
  {
    var p := EveryInterleavingReachesTheGap(n, one, blocks, base);
    var q := EveryInterleavingReachesTheGap(n, other, blocks, base);
    assert Announced(one) == Announced(other) && Supplied(one) == Supplied(other);
    GapIsUnique(blocks, Announced(one) * (AlreadyComplete(n.chain) + Supplied(one)), p, q);
  }

  /** Once everything has arrived, everything is committed, as with in-order delivery. */
  lemma CompleteEventsCommitAll(n: Node, events: seq<Event>, blocks: seq<BlockId>, base: nat)
    requires Fresh(n.chain, blocks, base) && CommitEvents(events, blocks)
    requires forall id :: id in blocks ==> Ready(id) in events && Data(id) in events
    ensures Run(n, events).chain.committed == base + |blocks|
    ensures Run(n, events).chain.emitted == n.chain.emitted + blocks
  {
    var p := EveryInterleavingReachesTheGap(n, events, blocks, base);
    assert blocks[..|blocks|] == blocks;
  }
}
