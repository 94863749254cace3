/**
 Assembling a proposed block from its gossiped hash lists and from transactions and
 certificates that arrive in any order, repeated, or for some other block.
 */
module BlockAssembly {
  import opened Options
  import opened Sequences

  /** A transaction under its own hash, or a certificate under its transaction's hash. */
  datatype Item = Item(hash: nat, content: nat)

  /** Deferrals, aborts and commitment proofs travel with the header. */
  datatype Extras = Extras(deferred: seq<nat>, aborted: seq<nat>, proofs: map<nat, nat>)

  datatype Block = Block(header: nat, retry: seq<Item>, priority: seq<Item>, other: seq<Item>, certificates: seq<Item>, extras: Extras)

  datatype Gossip = Gossip(header: nat, retry: seq<nat>, priority: seq<nat>, other: seq<nat>, certificates: seq<nat>, extras: Extras)

  function Hashes(items: seq<Item>): seq<nat> {
    seq(|items|, i requires 0 <= i < |items| => items[i].hash)
  }

  /** What a proposer gossips for its block. */
  function Split(b: Block): Gossip {
    Gossip(b.header, Hashes(b.retry), Hashes(b.priority), Hashes(b.other), Hashes(b.certificates), b.extras)
  }

  // ---- Waiting for items ----

  datatype Shelf = Shelf(missing: set<nat>, received: map<nat, Item>)

  function Receive(s: Shelf, x: Item): Shelf {
    if x.hash in s.missing then Shelf(s.missing - {x.hash}, s.received[x.hash := x]) else s
  }

  /** Takes the received items out in list order; a hash that is not there is skipped. */
  function Collect(order: seq<nat>, received: map<nat, Item>): seq<Item> {
    if order == [] then []
    else if order[0] in received then [received[order[0]]] + Collect(order[1..], received - {order[0]})
    else Collect(order[1..], received)
  }

  method CollectInOrder(order: seq<nat>, received: map<nat, Item>) returns (items: seq<Item>, left: map<nat, Item>)
    ensures items == Collect(order, received)
    ensures left == received - ToSet(order)
  {
    items, left := [], received;
    for i := 0 to |order|
      invariant items + Collect(order[i..], left) == Collect(order, received)
      invariant left == received - ToSet(order[..i])
    {
      assert order[i..][1..] == order[i + 1..];
      assert ToSet(order[..i + 1]) == ToSet(order[..i]) + {order[i]};
      if order[i] in left {
        items := items + [left[order[i]]];
        left := left - {order[i]};
      }
    }
    assert order[..|order|] == order;
  }

  // ---- The pending block ----

  datatype Pending = Pending(gossip: Gossip, txs: Shelf, certs: Shelf, extras: Extras, constructed: Option<Block>)

  const NO_EXTRAS := Extras([], [], map[])

  function AllHashes(g: Gossip): seq<nat> {
    g.retry + g.priority + g.other
  }

  function New(g: Gossip): Pending {
    Pending(g, Shelf(ToSet(AllHashes(g)), map[]), Shelf(ToSet(g.certificates), map[]), g.extras, None)
  }

  predicate IsComplete(p: Pending) {
    p.txs.missing == {} && p.certs.missing == {}
  }

  function Assembled(p: Pending): Block {
    var g, txs := p.gossip, p.txs.received;
    Block(g.header,
          Collect(g.retry, txs),
          Collect(g.priority, txs - ToSet(g.retry)),
          Collect(g.other, txs - ToSet(g.retry) - ToSet(g.priority)),
          Collect(g.certificates, p.certs.received),
          p.extras)
  }

  function Construct(p: Pending): (Pending, Option<Block>) {
    if !IsComplete(p) then (p, None)
    else if p.constructed.Some? then (p, p.constructed)
    else
      (p.(txs := p.txs.(received := p.txs.received - ToSet(AllHashes(p.gossip))),
          certs := p.certs.(received := p.certs.received - ToSet(p.gossip.certificates)),
          extras := NO_EXTRAS, constructed := Some(Assembled(p))),
       Some(Assembled(p)))
  }

  lemma LeftOfThree(g: Gossip, received: map<nat, Item>)
    ensures received - ToSet(g.retry) - ToSet(g.priority) - ToSet(g.other) == received - ToSet(AllHashes(g))
  {
  }

  class PendingBlock {
    const gossip: Gossip
    var receivedTransactions: map<nat, Item>
    var missingTransactions: set<nat>
    var receivedCertificates: map<nat, Item>
    var missingCertificates: set<nat>
    var extras: Extras
    var constructedBlock: Option<Block>

    ghost function Value(): Pending
      reads this
    {
      Pending(gossip, Shelf(missingTransactions, receivedTransactions), Shelf(missingCertificates, receivedCertificates),
              extras, constructedBlock)
    }

    constructor (g: Gossip)
      ensures Value() == New(g)
    {
      gossip := g;
      missingTransactions := ToSet(g.retry + g.priority + g.other);
      receivedTransactions := map[];
      missingCertificates := ToSet(g.certificates);
      receivedCertificates := map[];
      extras, constructedBlock := g.extras, None;
    }

    method AddTransaction(tx: Item) returns (needed: bool)
      modifies this
      ensures Value() == old(Value()).(txs := Receive(old(Value()).txs, tx))
      ensures needed == (tx.hash in old(missingTransactions))
    {
      needed := tx.hash in missingTransactions;
      if needed {
        missingTransactions := missingTransactions - {tx.hash};
        receivedTransactions := receivedTransactions[tx.hash := tx];
      }
    }

    method AddCertificate(cert: Item) returns (needed: bool)
      modifies this
      ensures Value() == old(Value()).(certs := Receive(old(Value()).certs, cert))
      ensures needed == (cert.hash in old(missingCertificates))
    {
      needed := cert.hash in missingCertificates;
      if needed {
        missingCertificates := missingCertificates - {cert.hash};
        receivedCertificates := receivedCertificates[cert.hash := cert];
      }
    }

    method ConstructBlock() returns (block: Option<Block>)
      modifies this
      ensures (Value(), block) == Construct(old(Value()))
    {
      if missingTransactions != {} || missingCertificates != {} {
        return None;
      }
      if constructedBlock.Some? {
        return constructedBlock;
      }
      var retry, priority, other, certificates;
      ghost var all := receivedTransactions;
      retry, receivedTransactions := CollectInOrder(gossip.retry, receivedTransactions);
      priority, receivedTransactions := CollectInOrder(gossip.priority, receivedTransactions);
      other, receivedTransactions := CollectInOrder(gossip.other, receivedTransactions);
      certificates, receivedCertificates := CollectInOrder(gossip.certificates, receivedCertificates);
      LeftOfThree(gossip, all);
      block := Some(Block(gossip.header, retry, priority, other, certificates, extras));
      extras := NO_EXTRAS;
      constructedBlock := block;
    }
  }

  // ---- Feeding arrivals ----

  datatype Arrival = Transaction(item: Item) | Certificate(item: Item)

  function Feed(p: Pending, arrivals: seq<Arrival>): Pending
    decreases |arrivals|
  {
    if arrivals == [] then p
    else
      var q, last := Feed(p, arrivals[..|arrivals| - 1]), arrivals[|arrivals| - 1];
      if last.Transaction? then q.(txs := Receive(q.txs, last.item)) else q.(certs := Receive(q.certs, last.item))
  }

  /** The first arrival of the right kind under a hash. */
  function First(arrivals: seq<Arrival>, transaction: bool, hash: nat): Option<Item>
    decreases |arrivals|
  {
    if arrivals == [] then None
    else
      var earlier, last := First(arrivals[..|arrivals| - 1], transaction, hash), arrivals[|arrivals| - 1];
      if earlier == None && last.Transaction? == transaction && last.item.hash == hash then Some(last.item) else earlier
  }

  ghost predicate Filled(s: Shelf, wanted: set<nat>, arrivals: seq<Arrival>, transaction: bool) {
    && (forall h :: h in s.missing <==> h in wanted && First(arrivals, transaction, h) == None)
    && (forall h :: h in s.received <==> h in wanted && First(arrivals, transaction, h).Some?)
    && (forall h :: h in s.received ==> s.received[h] == First(arrivals, transaction, h).value)
  }

  lemma {:induction false} FeedFills(g: Gossip, arrivals: seq<Arrival>)
    ensures Filled(Feed(New(g), arrivals).txs, ToSet(AllHashes(g)), arrivals, true)
    ensures Filled(Feed(New(g), arrivals).certs, ToSet(g.certificates), arrivals, false)
    ensures Feed(New(g), arrivals).gossip == g && Feed(New(g), arrivals).extras == g.extras
    ensures Feed(New(g), arrivals).constructed == None
    decreases |arrivals|
  {
    if arrivals != [] {
      FeedFills(g, arrivals[..|arrivals| - 1]);
    }
  }

  // ---- When the assembled block is the original ----

  function AllTransactions(b: Block): seq<Item> {
    b.retry + b.priority + b.other
  }

  ghost predicate DistinctHashes(items: seq<Item>) {
    forall i, j :: 0 <= i < j < |items| ==> items[i].hash != items[j].hash
  }

  ghost predicate Holds(received: map<nat, Item>, items: seq<Item>) {
    forall x :: x in items ==> x.hash in received && received[x.hash] == x
  }

  lemma {:induction false} CollectIsNoLonger(order: seq<nat>, received: map<nat, Item>)
    ensures |Collect(order, received)| <= |order|
    decreases |order|
  {
    if order != [] {
      CollectIsNoLonger(order[1..], received);
      CollectIsNoLonger(order[1..], received - {order[0]});
    }
  }

  lemma {:induction false} CollectConcat(a: seq<nat>, b: seq<nat>, received: map<nat, Item>)
    ensures Collect(a + b, received) == Collect(a, received) + Collect(b, received - ToSet(a))
    decreases |a|
  {
    if a == [] {
      assert a + b == b;
      assert received - ToSet(a) == received;
    } else {
      assert (a + b)[1..] == a[1..] + b;
      assert ToSet(a) == {a[0]} + ToSet(a[1..]);
      CollectConcat(a[1..], b, received);
      CollectConcat(a[1..], b, received - {a[0]});
      assert received - {a[0]} - ToSet(a[1..]) == received - ToSet(a);
      if a[0] !in received {
        assert received - ToSet(a[1..]) == received - ToSet(a);
      }
    }
  }

  /** Taking items out by their hashes gives back the items exactly when the hashes are
      distinct and each hash holds the right item. */
  lemma {:induction false} CollectExact(items: seq<Item>, received: map<nat, Item>)
    ensures Collect(Hashes(items), received) == items <==> DistinctHashes(items) && Holds(received, items)
    decreases |items|
  {
    if items != [] {
      var x, rest := items[0], items[1..];
      assert items == [x] + rest;
      assert Hashes(items)[1..] == Hashes(rest);
      if x.hash in received {
        CollectExact(rest, received - {x.hash});
        assert DistinctHashes(items) <==> DistinctHashes(rest) && forall y :: y in rest ==> y.hash != x.hash;
      } else {
        CollectIsNoLonger(Hashes(rest), received);
      }
    }
  }

  lemma HashesConcat(a: seq<Item>, b: seq<Item>)
    ensures Hashes(a + b) == Hashes(a) + Hashes(b)
  {
  }

  /** The three sections come out right together or not at all. */
  lemma SectionsExact(b: Block, received: map<nat, Item>)
    ensures var g := Split(b);
            && Collect(g.retry, received) == b.retry
            && Collect(g.priority, received - ToSet(g.retry)) == b.priority
            && Collect(g.other, received - ToSet(g.retry) - ToSet(g.priority)) == b.other
            <==> DistinctHashes(AllTransactions(b)) && Holds(received, AllTransactions(b))
  {
    var g := Split(b);
    HashesConcat(b.retry, b.priority);
    HashesConcat(b.retry + b.priority, b.other);
    CollectExact(AllTransactions(b), received);
    CollectConcat(g.retry, g.priority, received);
    CollectConcat(g.retry + g.priority, g.other, received);
    assert received - ToSet(g.retry + g.priority) == received - ToSet(g.retry) - ToSet(g.priority);
    CollectIsNoLonger(g.retry, received);
    CollectIsNoLonger(g.priority, received - ToSet(g.retry));
    CollectIsNoLonger(g.other, received - ToSet(g.retry) - ToSet(g.priority));
    SplitIsUnique(Collect(g.retry, received), Collect(g.priority, received - ToSet(g.retry)),
                  Collect(g.other, received - ToSet(g.retry) - ToSet(g.priority)), b.retry, b.priority, b.other);
  }

  lemma SplitIsUnique(a: seq<Item>, b: seq<Item>, c: seq<Item>, x: seq<Item>, y: seq<Item>, z: seq<Item>)
    requires |a| <= |x| && |b| <= |y| && |c| <= |z|
    ensures a + b + c == x + y + z <==> a == x && b == y && c == z
  {
    if a + b + c == x + y + z {
      assert |a| == |x| && |b| == |y|;
      assert a == (a + b + c)[..|a|] && x == (x + y + z)[..|x|];
      assert b == (a + b + c)[|a|..|a| + |b|] && y == (x + y + z)[|x|..|x| + |y|];
      assert c == (a + b + c)[|a| + |b|..] && z == (x + y + z)[|x| + |y|..];
    }
  }

  // ---- The round trip ----

  /** Some item of each listed kind and hash has arrived. */
  ghost predicate AllArrived(g: Gossip, arrivals: seq<Arrival>) {
    && (forall h :: h in AllHashes(g) ==> First(arrivals, true, h).Some?)
    && (forall h :: h in g.certificates ==> First(arrivals, false, h).Some?)
  }

  /** The first arrival under each hash is the block's own item. */
  ghost predicate GenuineFirst(b: Block, arrivals: seq<Arrival>) {
    && (forall x :: x in AllTransactions(b) ==> First(arrivals, true, x.hash) == Some(x))
    && (forall x :: x in b.certificates ==> First(arrivals, false, x.hash) == Some(x))
  }

  ghost predicate Repeatless(b: Block) {
    DistinctHashes(AllTransactions(b)) && DistinctHashes(b.certificates)
  }

  lemma HashIsListed(items: seq<Item>, x: Item)
    requires x in items
    ensures x.hash in Hashes(items)
  {
    var i :| 0 <= i < |items| && items[i] == x;
    assert Hashes(items)[i] == x.hash;
  }

  /** In any order, with duplicates and strangers mixed in: assembly is complete exactly
      when every listed item has arrived, and only then constructs a block. */
  lemma CompleteIffAllArrived(g: Gossip, arrivals: seq<Arrival>)
    ensures IsComplete(Feed(New(g), arrivals)) <==> AllArrived(g, arrivals)
    ensures Construct(Feed(New(g), arrivals)).1.Some? <==> AllArrived(g, arrivals)
    ensures !AllArrived(g, arrivals) ==> Construct(Feed(New(g), arrivals)).0 == Feed(New(g), arrivals)
  {
    FeedFills(g, arrivals);
    var p := Feed(New(g), arrivals);
    assert p.txs.missing == {} <==> forall h :: h in AllHashes(g) ==> First(arrivals, true, h).Some?;
    assert p.certs.missing == {} <==> forall h :: h in g.certificates ==> First(arrivals, false, h).Some?;
  }

  lemma HoldsIffFirst(s: Shelf, items: seq<Item>, hashes: seq<nat>, arrivals: seq<Arrival>, transaction: bool)
    requires Filled(s, ToSet(hashes), arrivals, transaction) && hashes == Hashes(items)
    ensures Holds(s.received, items) <==> forall x :: x in items ==> First(arrivals, transaction, x.hash) == Some(x)
  {
    forall x | x in items ensures x.hash in hashes {
      HashIsListed(items, x);
    }
  }

  /** Splitting a block and feeding its parts back gives the original block exactly when its
      hashes are distinct and the first item to arrive under each hash is its own. */
  lemma RoundTripIffGenuineAndRepeatless(b: Block, arrivals: seq<Arrival>)
    ensures Construct(Feed(New(Split(b)), arrivals)).1 == Some(b) <==> Repeatless(b) && GenuineFirst(b, arrivals)
  {
    var g := Split(b);
    var p := Feed(New(g), arrivals);
    FeedFills(g, arrivals);
    CompleteIffAllArrived(g, arrivals);
    HashesConcat(b.retry, b.priority);
    HashesConcat(b.retry + b.priority, b.other);
    SectionsExact(b, p.txs.received);
    CollectExact(b.certificates, p.certs.received);
    HoldsIffFirst(p.txs, AllTransactions(b), AllHashes(g), arrivals, true);
    HoldsIffFirst(p.certs, b.certificates, g.certificates, arrivals, false);
    if GenuineFirst(b, arrivals) {
      GenuineHaveArrived(b, arrivals);
    }
  }

  lemma GenuineHaveArrived(b: Block, arrivals: seq<Arrival>)
    requires GenuineFirst(b, arrivals)
    ensures AllArrived(Split(b), arrivals)
  {
    HashesConcat(b.retry, b.priority);
    HashesConcat(b.retry + b.priority, b.other);
    assert AllHashes(Split(b)) == Hashes(AllTransactions(b));
  }

  /** Construction moves everything out: once all listed items have arrived, in any order and with
      any others, what is left beside the block is empty. */
  lemma ConstructionMovesAllOut(g: Gossip, arrivals: seq<Arrival>)
    requires AllArrived(g, arrivals)
    ensures var p := Construct(Feed(New(g), arrivals)).0;
            p == Pending(g, Shelf({}, map[]), Shelf({}, map[]), NO_EXTRAS, Construct(Feed(New(g), arrivals)).1)
  {
    var before := Feed(New(g), arrivals);
    FeedFills(g, arrivals);
    CompleteIffAllArrived(g, arrivals);
    assert before.txs.received - ToSet(AllHashes(g)) == map[];
    assert before.certs.received - ToSet(g.certificates) == map[];
  }

  /** A constructed block stays: further arrivals and constructions change nothing. */
  lemma {:induction false} ConstructedBlockStays(p: Pending, more: seq<Arrival>)
    requires IsComplete(p)
    ensures Construct(p).1.Some?
    ensures Feed(Construct(p).0, more) == Construct(p).0
    ensures Construct(Feed(Construct(p).0, more)) == Construct(p)
    decreases |more|
  {
    if more != [] {
      ConstructedBlockStays(p, more[..|more| - 1]);
    }
  }
}
