/**
 The commitment over a transaction's writes: a hash of the writes in key order,
 so that validators that produced them in different orders agree.
 */
module WritesCommitment {
  import opened Options
  import opened Sequences
  import opened StorageKeys
  import opened Writes

  predicate KeyLt(a: SubstateKey, b: SubstateKey) {
    || Lt(a.node, b.node)
    || (a.node == b.node && (a.partition < b.partition || (a.partition == b.partition && Lt(a.sortKey, b.sortKey))))
  }

  lemma KeyTotal(a: SubstateKey, b: SubstateKey)
    ensures KeyLt(a, b) || a == b || KeyLt(b, a)
    ensures !(KeyLt(a, b) && KeyLt(b, a)) && !KeyLt(a, a)
  {
    LtTotal(a.node, b.node);
    LtTotal(a.sortKey, b.sortKey);
    LtIrreflexive(a.node);
    LtIrreflexive(a.sortKey);
    if Lt(a.node, b.node) && Lt(b.node, a.node) {
      LtTransitive(a.node, b.node, a.node);
    }
    if Lt(a.sortKey, b.sortKey) && Lt(b.sortKey, a.sortKey) {
      LtTransitive(a.sortKey, b.sortKey, a.sortKey);
    }
  }

  lemma KeyTransitive(a: SubstateKey, b: SubstateKey, c: SubstateKey)
    requires !KeyLt(b, a) && !KeyLt(c, b)
    ensures !KeyLt(c, a)
  {
    KeyTotal(a, b);
    KeyTotal(b, c);
    KeyTotal(a, c);
    if KeyLt(a, b) && KeyLt(b, c) {
      if Lt(a.node, b.node) && Lt(b.node, c.node) { LtTransitive(a.node, b.node, c.node); }
      if Lt(a.sortKey, b.sortKey) && Lt(b.sortKey, c.sortKey) { LtTransitive(a.sortKey, b.sortKey, c.sortKey); }
    }
  }

  // ---- The stable sort ----

  function Insert(w: SubstateWrite, sorted: seq<SubstateWrite>): seq<SubstateWrite> {
    if sorted == [] || !KeyLt(sorted[0].key, w.key) then [w] + sorted
    else [sorted[0]] + Insert(w, sorted[1..])
  }

  function SortByKey(writes: seq<SubstateWrite>): seq<SubstateWrite> {
    if writes == [] then [] else Insert(writes[0], SortByKey(writes[1..]))
  }

  ghost predicate Ordered(writes: seq<SubstateWrite>) {
    forall i, j :: 0 <= i < j < |writes| ==> !KeyLt(writes[j].key, writes[i].key)
  }

  /** The writes to one key, in the order given. */
  function WritesTo(writes: seq<SubstateWrite>, key: SubstateKey): seq<SubstateWrite> {
    if writes == [] then []
    else (if writes[0].key == key then [writes[0]] else []) + WritesTo(writes[1..], key)
  }

  lemma {:induction false} InsertAdds(w: SubstateWrite, sorted: seq<SubstateWrite>)
    ensures multiset(Insert(w, sorted)) == multiset{w} + multiset(sorted)
    decreases |sorted|
  {
    if sorted != [] && KeyLt(sorted[0].key, w.key) {
      InsertAdds(w, sorted[1..]);
      assert sorted == [sorted[0]] + sorted[1..];
    }
  }

  lemma {:induction false} InsertOrders(w: SubstateWrite, sorted: seq<SubstateWrite>)
    requires Ordered(sorted)
    ensures Ordered(Insert(w, sorted))
    decreases |sorted|
  {
    if sorted == [] {
    } else if KeyLt(sorted[0].key, w.key) {
      InsertOrders(w, sorted[1..]);
      InsertAdds(w, sorted[1..]);
      forall x | x in Insert(w, sorted[1..]) ensures !KeyLt(x.key, sorted[0].key) {
        assert x in multiset(Insert(w, sorted[1..]));
        assert x == w || x in sorted[1..];
        KeyTotal(sorted[0].key, w.key);
      }
      OrderedCons(sorted[0], Insert(w, sorted[1..]));
    } else {
      forall x | x in sorted ensures !KeyLt(x.key, w.key) {
        KeyTotal(x.key, x.key);
        KeyTransitive(w.key, sorted[0].key, x.key);
      }
      OrderedCons(w, sorted);
    }
  }

  lemma OrderedCons(w: SubstateWrite, sorted: seq<SubstateWrite>)
    requires Ordered(sorted)
    requires forall x :: x in sorted ==> !KeyLt(x.key, w.key)
    ensures Ordered([w] + sorted)
  {
  }

  lemma {:induction false} InsertIsStable(w: SubstateWrite, sorted: seq<SubstateWrite>, key: SubstateKey)
    ensures WritesTo(Insert(w, sorted), key) == (if w.key == key then [w] else []) + WritesTo(sorted, key)
    decreases |sorted|
  {
    if sorted != [] && KeyLt(sorted[0].key, w.key) {
      InsertIsStable(w, sorted[1..], key);
      KeyTotal(sorted[0].key, w.key);
    }
  }

  /** The sort is a permutation in key order that keeps the order of writes to the same key. */
  lemma {:induction false} SortSpec(writes: seq<SubstateWrite>)
    ensures multiset(SortByKey(writes)) == multiset(writes)
    ensures Ordered(SortByKey(writes))
    ensures forall key :: WritesTo(SortByKey(writes), key) == WritesTo(writes, key)
    decreases |writes|
  {
    if writes != [] {
      var rest := SortByKey(writes[1..]);
      SortSpec(writes[1..]);
      InsertAdds(writes[0], rest);
      InsertOrders(writes[0], rest);
      assert writes == [writes[0]] + writes[1..];
      forall key ensures WritesTo(SortByKey(writes), key) == WritesTo(writes, key) {
        InsertIsStable(writes[0], rest, key);
      }
    }
  }

  // ---- Order independence ----

  ghost predicate EqualKeysAgree(writes: seq<SubstateWrite>) {
    forall x, y :: x in writes && y in writes && x.key == y.key ==> x == y
  }

  ghost predicate Permutation(a: seq<SubstateWrite>, b: seq<SubstateWrite>) {
    multiset(a) == multiset(b)
  }

  lemma LeastIsFirst(a: seq<SubstateWrite>, b: seq<SubstateWrite>)
    requires Ordered(a) && a != [] && b != [] && b[0] in multiset(a)
    ensures !KeyLt(b[0].key, a[0].key)
  {
    KeyTotal(a[0].key, a[0].key);
  }

  lemma {:induction false} OrderedIsUnique(a: seq<SubstateWrite>, b: seq<SubstateWrite>)
    requires Ordered(a) && Ordered(b) && Permutation(a, b) && EqualKeysAgree(a)
    ensures a == b
    decreases |a|
  {
    assert |multiset(a)| == |a| && |multiset(b)| == |b|;
    if a != [] {
      assert a[0] in multiset(b) && b[0] in multiset(a);
      LeastIsFirst(a, b);
      LeastIsFirst(b, a);
      KeyTotal(a[0].key, b[0].key);
      TailsArePermutations(a, b);
      OrderedIsUnique(a[1..], b[1..]);
    }
  }

  lemma TailsArePermutations(a: seq<SubstateWrite>, b: seq<SubstateWrite>)
    requires a != [] && b != [] && a[0] == b[0] && Permutation(a, b)
    ensures Permutation(a[1..], b[1..])
  {
    assert a == [a[0]] + a[1..] && b == [b[0]] + b[1..];
    assert multiset(a[1..]) == multiset(a) - multiset{a[0]};
  }

  lemma SortOfPermutation(a: seq<SubstateWrite>, b: seq<SubstateWrite>)
    requires Permutation(a, b) && EqualKeysAgree(a)
    ensures SortByKey(a) == SortByKey(b)
  {
    SortSpec(a);
    SortSpec(b);
    forall x | x in SortByKey(a) ensures x in a {
      assert x in multiset(SortByKey(a));
    }
    OrderedIsUnique(SortByKey(a), SortByKey(b));
  }

  ghost predicate SortsAlike(writes: seq<SubstateWrite>) {
    forall other :: Permutation(writes, other) ==> SortByKey(other) == SortByKey(writes)
  }

  lemma TakeOut(writes: seq<SubstateWrite>, x: SubstateWrite) returns (rest: seq<SubstateWrite>)
    requires x in writes
    ensures multiset(writes) == multiset{x} + multiset(rest)
  {
    var i :| 0 <= i < |writes| && writes[i] == x;
    rest := writes[..i] + writes[i + 1..];
    assert writes == writes[..i] + [x] + writes[i + 1..];
  }

  lemma SwapKeepsWrites(x: SubstateWrite, y: SubstateWrite, rest: seq<SubstateWrite>)
    ensures multiset([x, y] + rest) == multiset{x, y} + multiset(rest)
  {
  }

  lemma FirstWriteTo(x: SubstateWrite, rest: seq<SubstateWrite>)
    ensures WritesTo([x] + rest, x.key) == [x] + WritesTo(rest, x.key)
  {
    assert ([x] + rest)[1..] == rest;
  }

  /** Two different writes to one key are hashed in the order they were given. */
  lemma SwappedPairSortsDifferently(x: SubstateWrite, y: SubstateWrite, rest: seq<SubstateWrite>)
    requires x.key == y.key && x != y
    ensures SortByKey([x, y] + rest) != SortByKey([y, x] + rest)
  {
    SortSpec([x, y] + rest);
    SortSpec([y, x] + rest);
    FirstWriteTo(x, [y] + rest);
    FirstWriteTo(y, [x] + rest);
    assert [x, y] + rest == [x] + ([y] + rest) && [y, x] + rest == [y] + ([x] + rest);
    assert WritesTo([x, y] + rest, x.key)[0] == x;
  }

  /** Every order of the same writes is hashed in one and the same order exactly when
      writes to the same key are the same write. */
  lemma OrderFixedIffEqualKeysAgree(writes: seq<SubstateWrite>)
    ensures SortsAlike(writes) <==> EqualKeysAgree(writes)
  {
    if EqualKeysAgree(writes) {
      forall other | Permutation(writes, other) ensures SortByKey(other) == SortByKey(writes) {
        SortOfPermutation(writes, other);
      }
    } else {
      var x, y :| x in writes && y in writes && x.key == y.key && x != y;
      ConflictSortsDifferently(writes, x, y);
    }
  }

  lemma ConflictSortsDifferently(writes: seq<SubstateWrite>, x: SubstateWrite, y: SubstateWrite)
    requires x in writes && y in writes && x.key == y.key && x != y
    ensures !SortsAlike(writes)
  {
    var rest := PairFirst(writes, x, y);
    SwappedPairSortsDifferently(x, y, rest);
  }

  lemma PairFirst(writes: seq<SubstateWrite>, x: SubstateWrite, y: SubstateWrite) returns (rest: seq<SubstateWrite>)
    requires x in writes && y in writes && x != y
    ensures Permutation(writes, [x, y] + rest) && Permutation(writes, [y, x] + rest)
  {
    var others := TakeOut(writes, x);
    assert y in multiset(writes);
    rest := TakeOut(others, y);
    SwapKeepsWrites(x, y, rest);
    SwapKeepsWrites(y, x, rest);
  }

  // ---- The commitment ----

  function Encoded(writes: seq<SubstateWrite>): Bytes {
    if writes == [] then []
    else Encoded(writes[..|writes| - 1]) + EncodedWrite(writes[|writes| - 1])
  }

  function EncodedWrite(w: SubstateWrite): Bytes {
    w.key.node + [w.key.partition] + w.key.sortKey + w.value
  }

  /** `None` is the all-zero hash; `hash` is the foreign hash function. */
  function Commitment<H>(hash: Bytes -> H, writes: seq<SubstateWrite>): Option<H> {
    if writes == [] then None else Some(hash(Encoded(SortByKey(writes))))
  }

  method ComputeWritesCommitment<H>(hash: Bytes -> H, writes: seq<SubstateWrite>) returns (commitment: Option<H>)
    ensures commitment == Commitment(hash, writes)
  {
    if writes == [] {
      return None;
    }
    var sorted := SortByKey(writes);
    var data: Bytes := [];
    for i := 0 to |sorted|
      invariant data == Encoded(sorted[..i])
    {
      assert sorted[..i + 1][..i] == sorted[..i];
      var w := sorted[i];
      data := data + (w.key.node + [w.key.partition] + w.key.sortKey + w.value);
    }
    assert sorted[..|sorted|] == sorted;
    return Some(hash(data));
  }

  /** Writes with distinct keys commit to the same hash in every order, and after the
      round trip through database updates. */
  lemma CommitmentIgnoresOrderAndRoundTrip<H>(hash: Bytes -> H, spread: NodeId -> HashPrefix, writes: seq<SubstateWrite>, other: seq<SubstateWrite>)
    requires DistinctWrites(writes) && Permutation(writes, other)
    ensures Commitment(hash, other) == Commitment(hash, writes)
    ensures Commitment(hash, Extract(UpdatesOf(spread, other))) == Commitment(hash, writes)
  {
    assert |multiset(writes)| == |writes| && |multiset(other)| == |other|;
    DistinctKeysAgree(writes);
    SortOfPermutation(writes, other);
    PermutationKeepsDistinct(writes, other);
    RoundTripOfDistinctWrites(spread, other);
    var back := Extract(UpdatesOf(spread, other));
    assert |multiset(back)| == |back|;
    SortOfPermutation(writes, back);
  }

  lemma DistinctKeysAgree(writes: seq<SubstateWrite>)
    requires DistinctWrites(writes)
    ensures EqualKeysAgree(writes)
  {
  }

  lemma PermutationKeepsDistinct(a: seq<SubstateWrite>, b: seq<SubstateWrite>)
    requires DistinctWrites(a) && Permutation(a, b)
    ensures DistinctWrites(b)
  {
    forall i, j | 0 <= i < j < |b| ensures b[i].key != b[j].key {
      assert b[i] in multiset(a) && b[j] in multiset(a);
      OnceEach(a, b[i]);
      TwoPlaces(b, i, j);
    }
  }

  // ---- The hashed bytes ----

  /** Writes to one key whose encodings commute may be hashed in either order. */
  predicate Commute(x: SubstateWrite, y: SubstateWrite) {
    EncodedWrite(x) + EncodedWrite(y) == EncodedWrite(y) + EncodedWrite(x)
  }

  ghost predicate EqualKeysCommute(writes: seq<SubstateWrite>) {
    forall x, y :: x in writes && y in writes && x.key == y.key ==> Commute(x, y)
  }

  /** All orders of the writes give the same bytes to hash. */
  ghost predicate HashesAlike(writes: seq<SubstateWrite>) {
    forall other :: Permutation(writes, other) ==> Encoded(SortByKey(other)) == Encoded(SortByKey(writes))
  }

  lemma {:induction false} EncodedConcat(a: seq<SubstateWrite>, b: seq<SubstateWrite>)
    ensures Encoded(a + b) == Encoded(a) + Encoded(b)
    decreases |b|
  {
    if b == [] {
      assert a + b == a;
    } else {
      var before, last := b[..|b| - 1], b[|b| - 1];
      EncodedConcat(a, before);
      assert (a + b)[..|a + b| - 1] == a + before;
      assert Encoded(a + b) == Encoded(a + before) + EncodedWrite(last);
      assert Encoded(a) + (Encoded(before) + EncodedWrite(last)) == (Encoded(a) + Encoded(before)) + EncodedWrite(last);
    }
  }

  lemma EncodedOne(x: SubstateWrite)
    ensures Encoded([x]) == EncodedWrite(x)
  {
    assert [x][..0] == [];
    assert Encoded([x]) == [] + EncodedWrite(x);
  }

  lemma EncodedCons(x: SubstateWrite, rest: seq<SubstateWrite>)
    ensures Encoded([x] + rest) == EncodedWrite(x) + Encoded(rest)
  {
    EncodedConcat([x], rest);
    EncodedOne(x);
  }

  /** A write moves to the front past writes it commutes with. */
  lemma {:induction false} MoveToFront(x: SubstateWrite, before: seq<SubstateWrite>, after: seq<SubstateWrite>)
    requires forall y :: y in before ==> Commute(x, y)
    ensures Encoded(before + [x] + after) == EncodedWrite(x) + Encoded(before + after)
    decreases |before|
  {
    if before == [] {
      assert before + [x] + after == [x] + after && before + after == after;
      EncodedCons(x, after);
    } else {
      var y, rest := before[0], before[1..];
      MoveToFront(x, rest, after);
      PeelFirst(before, [x] + after);
      PeelFirst(before, after);
      assert before + [x] + after == before + ([x] + after) && rest + [x] + after == rest + ([x] + after);
      EncodedCons(y, rest + [x] + after);
      EncodedCons(y, rest + after);
      assert y in before;
      SwapFront(EncodedWrite(x), EncodedWrite(y), Encoded(rest + after));
    }
  }

  lemma PeelFirst(a: seq<SubstateWrite>, b: seq<SubstateWrite>)
    requires a != []
    ensures a + b == [a[0]] + (a[1..] + b)
  {
  }

  lemma SwapFront(a: Bytes, b: Bytes, rest: Bytes)
    requires a + b == b + a
    ensures b + (a + rest) == a + (b + rest)
  {
    assert b + (a + rest) == (b + a) + rest && a + (b + rest) == (a + b) + rest;
  }

  lemma SplitAt(writes: seq<SubstateWrite>, x: SubstateWrite) returns (before: seq<SubstateWrite>, after: seq<SubstateWrite>)
    requires x in writes
    ensures writes == before + [x] + after
    ensures multiset(writes) == multiset{x} + multiset(before + after)
  {
    var i :| 0 <= i < |writes| && writes[i] == x;
    before, after := writes[..i], writes[i + 1..];
    assert writes == before + [x] + after;
  }

  lemma DropKeepsOrder(before: seq<SubstateWrite>, x: SubstateWrite, after: seq<SubstateWrite>)
    requires Ordered(before + [x] + after)
    ensures Ordered(before + after)
    ensures forall y :: y in before ==> !KeyLt(x.key, y.key)
  {
    var all, rest := before + [x] + after, before + after;
    forall i, j | 0 <= i < j < |rest| ensures !KeyLt(rest[j].key, rest[i].key) {
      var i', j' := if i < |before| then i else i + 1, if j < |before| then j else j + 1;
      assert all[i'] == rest[i] && all[j'] == rest[j];
    }
    forall y | y in before ensures !KeyLt(x.key, y.key) {
      var i :| 0 <= i < |before| && before[i] == y;
      assert all[i] == y && all[|before|] == x;
    }
  }

  /** Two sorted lists of the same writes encode alike if writes to one key commute. */
  lemma {:induction false} SortedEncodeAlike(a: seq<SubstateWrite>, b: seq<SubstateWrite>)
    requires Ordered(a) && Ordered(b) && Permutation(a, b) && EqualKeysCommute(a)
    ensures Encoded(a) == Encoded(b)
    decreases |a|
  {
    if a == [] {
      assert |multiset(b)| == |b|;
    } else {
      var x, rest := a[0], a[1..];
      assert x in multiset(a);
      var before, after := SplitAt(b, x);
      DropKeepsOrder(before, x, after);
      RestPermutes(a, b, before + after);
      EqualBefore(a, b, before, after);
      MoveToFront(x, before, after);
      EncodedCons(x, rest);
      assert a == [x] + rest;
      SortedEncodeAlike(rest, before + after);
    }
  }

  lemma RestPermutes(a: seq<SubstateWrite>, b: seq<SubstateWrite>, others: seq<SubstateWrite>)
    requires a != [] && Permutation(a, b) && multiset(b) == multiset{a[0]} + multiset(others)
    ensures Permutation(a[1..], others)
  {
    assert a == [a[0]] + a[1..];
    assert multiset(a[1..]) == multiset(a) - multiset{a[0]};
  }

  lemma EqualBefore(a: seq<SubstateWrite>, b: seq<SubstateWrite>, before: seq<SubstateWrite>, after: seq<SubstateWrite>)
    requires a != [] && Ordered(a) && Ordered(b) && Permutation(a, b) && EqualKeysCommute(a)
    requires b == before + [a[0]] + after
    ensures forall y :: y in before ==> Commute(a[0], y)
  {
    DropKeepsOrder(before, a[0], after);
    forall y | y in before ensures Commute(a[0], y) {
      assert y in b;
      assert y in multiset(a);
      var i :| 0 <= i < |a| && a[i] == y;
      KeyTotal(a[0].key, y.key);
    }
  }

  /** Where the sort inserts a write: before the first one whose key is not lower. */
  function Place(key: SubstateKey, sorted: seq<SubstateWrite>): (p: nat)
    ensures p <= |sorted|
  {
    if sorted == [] || !KeyLt(sorted[0].key, key) then 0 else 1 + Place(key, sorted[1..])
  }

  lemma {:induction false} InsertAtPlace(w: SubstateWrite, sorted: seq<SubstateWrite>)
    ensures var p := Place(w.key, sorted); Insert(w, sorted) == sorted[..p] + [w] + sorted[p..]
    decreases |sorted|
  {
    if sorted != [] && KeyLt(sorted[0].key, w.key) {
      var p, rest := Place(w.key, sorted[1..]), sorted[1..];
      InsertAtPlace(w, rest);
      assert sorted[..p + 1] == [sorted[0]] + rest[..p] && sorted[p + 1..] == rest[p..];
    }
  }

  lemma {:induction false} PlaceIsKept(y: SubstateWrite, sorted: seq<SubstateWrite>)
    ensures Place(y.key, Insert(y, sorted)) == Place(y.key, sorted)
    decreases |sorted|
  {
    KeyTotal(y.key, y.key);
    if sorted != [] && KeyLt(sorted[0].key, y.key) {
      PlaceIsKept(y, sorted[1..]);
      assert Insert(y, sorted)[1..] == Insert(y, sorted[1..]);
    }
  }

  lemma PairSorts(x: SubstateWrite, y: SubstateWrite, rest: seq<SubstateWrite>)
    requires x.key == y.key
    ensures var s := SortByKey(rest);
            var p := Place(x.key, s);
            SortByKey([x, y] + rest) == s[..p] + [x, y] + s[p..]
  {
    var s := SortByKey(rest);
    assert ([x, y] + rest)[1..] == [y] + rest && ([y] + rest)[1..] == rest;
    assert SortByKey([y] + rest) == Insert(y, s);
    assert SortByKey([x, y] + rest) == Insert(x, Insert(y, s));
    InsertTwice(x, y, s);
  }

  lemma InsertTwice(x: SubstateWrite, y: SubstateWrite, s: seq<SubstateWrite>)
    requires x.key == y.key
    ensures var p := Place(x.key, s); Insert(x, Insert(y, s)) == s[..p] + [x, y] + s[p..]
  {
    var p, t := Place(x.key, s), Insert(y, s);
    InsertAtPlace(y, s);
    PlaceIsKept(y, s);
    InsertAtPlace(x, t);
    assert t[..p] == s[..p] && t[p..] == [y] + s[p..];
  }

  lemma MiddleCancels(front: Bytes, a: Bytes, b: Bytes, back: Bytes)
    requires |a| == |b|
    ensures front + a + back == front + b + back <==> a == b
  {
    assert (front + a + back)[|front|..|front| + |a|] == a;
    assert (front + b + back)[|front|..|front| + |b|] == b;
  }

  lemma EncodedAround(front: seq<SubstateWrite>, x: SubstateWrite, y: SubstateWrite, back: seq<SubstateWrite>)
    ensures Encoded(front + [x, y] + back) == Encoded(front) + (EncodedWrite(x) + EncodedWrite(y)) + Encoded(back)
  {
    EncodedConcat(front + [x, y], back);
    EncodedConcat(front, [x, y]);
    EncodedCons(x, [y]);
    EncodedOne(y);
    assert [x, y] == [x] + [y];
  }

  /** Swapping two writes to one key changes the hashed bytes unless their encodings commute. */
  lemma SwapHashesAlikeIffCommute(x: SubstateWrite, y: SubstateWrite, rest: seq<SubstateWrite>)
    requires x.key == y.key
    ensures Encoded(SortByKey([x, y] + rest)) == Encoded(SortByKey([y, x] + rest)) <==> Commute(x, y)
  {
    var s := SortByKey(rest);
    var p := Place(x.key, s);
    PairSorts(x, y, rest);
    PairSorts(y, x, rest);
    EncodedAround(s[..p], x, y, s[p..]);
    EncodedAround(s[..p], y, x, s[p..]);
    MiddleCancels(Encoded(s[..p]), EncodedWrite(x) + EncodedWrite(y), EncodedWrite(y) + EncodedWrite(x), Encoded(s[p..]));
  }

  /** Every order of the writes gives the same bytes to hash if and only if the encodings of any
      two writes to the same key commute. */
  lemma HashesAlikeIffEqualKeysCommute(writes: seq<SubstateWrite>)
    ensures HashesAlike(writes) <==> EqualKeysCommute(writes)
  {
    if EqualKeysCommute(writes) {
      forall other | Permutation(writes, other) ensures Encoded(SortByKey(other)) == Encoded(SortByKey(writes)) {
        CommutingHashAlike(writes, other);
      }
    } else {
      var x, y :| x in writes && y in writes && x.key == y.key && !Commute(x, y);
      var rest := PairFirst(writes, x, y);
      SwapHashesAlikeIffCommute(x, y, rest);
    }
  }

  lemma CommutingHashAlike(writes: seq<SubstateWrite>, other: seq<SubstateWrite>)
    requires EqualKeysCommute(writes) && Permutation(writes, other)
    ensures Encoded(SortByKey(other)) == Encoded(SortByKey(writes))
  {
    SortSpec(writes);
    SortSpec(other);
    forall x | x in SortByKey(writes) ensures x in writes {
      assert x in multiset(SortByKey(writes));
    }
    SortedEncodeAlike(SortByKey(writes), SortByKey(other));
  }

  ghost predicate Injective<H(!new)>(hash: Bytes -> H) {
    forall a, b :: hash(a) == hash(b) ==> a == b
  }

  /** The commitment is the same for every order of the writes if the encodings of writes to the
      same key commute; with a hash that never collides, only then. */
  lemma CommitmentFixedIffEqualKeysCommute<H(!new)>(hash: Bytes -> H, writes: seq<SubstateWrite>)
    ensures EqualKeysCommute(writes) ==> CommitsAlike(hash, writes)
    ensures Injective(hash) ==> (CommitsAlike(hash, writes) <==> EqualKeysCommute(writes))
  {
    HashesAlikeIffEqualKeysCommute(writes);
    forall other | Permutation(writes, other) ensures other == [] <==> writes == [] {
      assert |multiset(writes)| == |writes| && |multiset(other)| == |other|;
    }
    if Injective(hash) && CommitsAlike(hash, writes) {
      forall other | Permutation(writes, other) ensures Encoded(SortByKey(other)) == Encoded(SortByKey(writes)) {
        assert Commitment(hash, other) == Commitment(hash, writes);
      }
    }
  }

  ghost predicate CommitsAlike<H>(hash: Bytes -> H, writes: seq<SubstateWrite>) {
    forall other :: Permutation(writes, other) ==> Commitment(hash, other) == Commitment(hash, writes)
  }

  /** Different writes to one key may still commute, because writes are hashed without their
      lengths: one with an empty value, and one whose value spells the key out. */
  lemma DifferentWritesMayCommute(key: SubstateKey)
    ensures var x, y := SubstateWrite(key, []), SubstateWrite(key, key.node + [key.partition] + key.sortKey);
            x != y && Commute(x, y)
  {
    var k := key.node + [key.partition] + key.sortKey;
    assert k + [] == k;
    assert k + (k + k) == (k + k) + k;
  }

  // ---- What the commitment binds ----

  /** Sort keys and values have the same lengths; node ids always do. */
  predicate SameShape(x: SubstateWrite, y: SubstateWrite) {
    |x.key.sortKey| == |y.key.sortKey| && |x.value| == |y.value|
  }

  ghost predicate SameShapes(a: seq<SubstateWrite>, b: seq<SubstateWrite>) {
    |a| == |b| && forall i :: 0 <= i < |a| ==> SameShape(a[i], b[i])
  }

  /** Node, partition byte, sort key and value follow one another. */
  lemma EncodedParts(w: SubstateWrite)
    ensures var e, n, k := EncodedWrite(w), |w.key.node|, |w.key.node| + 1 + |w.key.sortKey|;
            && |e| == k + |w.value|
            && e[..n] == w.key.node && e[n] == w.key.partition && e[n + 1..k] == w.key.sortKey && e[k..] == w.value
  {
    var e, n, k := EncodedWrite(w), |w.key.node|, |w.key.node| + 1 + |w.key.sortKey|;
    assert e[..n] == w.key.node;
    assert e[n + 1..k] == w.key.sortKey;
    assert e[k..] == w.value;
  }

  /** Writes of the same shape have the same bytes only if they are the same. */
  lemma EncodedWriteBinds(x: SubstateWrite, y: SubstateWrite)
    requires SameShape(x, y)
    ensures EncodedWrite(x) == EncodedWrite(y) <==> x == y
    ensures |EncodedWrite(x)| == |EncodedWrite(y)|
  {
    EncodedParts(x);
    EncodedParts(y);
  }

  lemma ConcatBinds(a: Bytes, b: Bytes, x: Bytes, y: Bytes)
    requires |x| == |y| && a + x == b + y
    ensures a == b && x == y
  {
    assert |a| == |b|;
    assert (a + x)[..|a|] == a && (b + y)[..|b|] == b;
    assert (a + x)[|a|..] == x && (b + y)[|b|..] == y;
  }

  lemma {:induction false} EncodedBinds(a: seq<SubstateWrite>, b: seq<SubstateWrite>)
    requires SameShapes(a, b)
    ensures Encoded(a) == Encoded(b) <==> a == b
    decreases |a|
  {
    if a != [] && Encoded(a) == Encoded(b) {
      var last := |a| - 1;
      EncodedWriteBinds(a[last], b[last]);
      ConcatBinds(Encoded(a[..last]), Encoded(b[..last]), EncodedWrite(a[last]), EncodedWrite(b[last]));
      EncodedBinds(a[..last], b[..last]);
      assert a == a[..last] + [a[last]] && b == b[..last] + [b[last]];
    }
  }

  /** With a hash that never collides, two nonempty lists of writes whose sorted forms have parts
      of the same lengths commit alike if and only if the sorted forms are the same. */
  lemma CommitmentBindsSortedWrites<H(!new)>(hash: Bytes -> H, a: seq<SubstateWrite>, b: seq<SubstateWrite>)
    requires Injective(hash) && a != [] && b != [] && SameShapes(SortByKey(a), SortByKey(b))
    ensures Commitment(hash, a) == Commitment(hash, b) <==> SortByKey(a) == SortByKey(b)
  {
    EncodedBinds(SortByKey(a), SortByKey(b));
  }

  /** For writes with distinct keys and the same lengths, that is the same set of writes. */
  lemma CommitmentBindsWrites<H(!new)>(hash: Bytes -> H, a: seq<SubstateWrite>, b: seq<SubstateWrite>)
    requires Injective(hash) && a != [] && b != [] && SameShapes(SortByKey(a), SortByKey(b)) && DistinctWrites(a)
    ensures Commitment(hash, a) == Commitment(hash, b) <==> Permutation(a, b)
  {
    CommitmentBindsSortedWrites(hash, a, b);
    SortSpec(a);
    SortSpec(b);
    if Permutation(a, b) {
      DistinctKeysAgree(a);
      SortOfPermutation(a, b);
    }
  }

  /** One write: the commitment tells any two values at a key apart, whatever their lengths. */
  lemma CommitmentBindsValue<H(!new)>(hash: Bytes -> H, key: SubstateKey, v: Bytes, v': Bytes)
    requires Injective(hash)
    ensures Commitment(hash, [SubstateWrite(key, v)]) == Commitment(hash, [SubstateWrite(key, v')]) <==> v == v'
  {
    var x, y := SubstateWrite(key, v), SubstateWrite(key, v');
    SortOfOne(x);
    SortOfOne(y);
    EncodedOne(x);
    EncodedOne(y);
    EncodedParts(x);
    EncodedParts(y);
  }

  /** Lengths are not hashed: two single writes commit alike if and
      only if they agree on node and partition and on sort key and value run together. */
  lemma SingleWritesCommitAlikeIff<H(!new)>(hash: Bytes -> H, x: SubstateWrite, y: SubstateWrite)
    requires Injective(hash)
    ensures Commitment(hash, [x]) == Commitment(hash, [y]) <==>
            (x.key.node == y.key.node && x.key.partition == y.key.partition &&
             x.key.sortKey + x.value == y.key.sortKey + y.value)
  {
    SortOfOne(x);
    SortOfOne(y);
    EncodedOne(x);
    EncodedOne(y);
    EncodedRuns(x);
    EncodedRuns(y);
  }

  lemma EncodedRuns(w: SubstateWrite)
    ensures var e, n := EncodedWrite(w), |w.key.node|;
            |e| > n && e[..n] == w.key.node && e[n] == w.key.partition && e[n + 1..] == w.key.sortKey + w.value
    ensures EncodedWrite(w) == w.key.node + [w.key.partition] + (w.key.sortKey + w.value)
  {
    assert EncodedWrite(w) == w.key.node + [w.key.partition] + (w.key.sortKey + w.value);
  }

  lemma SortOfOne(x: SubstateWrite)
    ensures SortByKey([x]) == [x]
  {
    assert SortByKey([x][1..]) == [];
    assert SortByKey([x]) == Insert(x, []);
  }
}
