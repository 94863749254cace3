/**
 Storage keys: byte strings in lexicographic order, the key layout of partitions,
 and the exclusive end of a prefix scan.
 */
module StorageKeys {

  type Byte = b: int | 0 <= b < 256
  type Bytes = seq<Byte>

  // ---- Lexicographic order ----

  predicate Lt(a: Bytes, b: Bytes) {
    if b == [] then false
    else if a == [] then true
    else a[0] < b[0] || (a[0] == b[0] && Lt(a[1..], b[1..]))
  }

  predicate Le(a: Bytes, b: Bytes) {
    a == b || Lt(a, b)
  }

  lemma {:induction false} LtIrreflexive(a: Bytes)
    ensures !Lt(a, a)
  {
    if a != [] {
      LtIrreflexive(a[1..]);
    }
  }

  lemma {:induction false} LtTransitive(a: Bytes, b: Bytes, c: Bytes)
    requires Lt(a, b) && Lt(b, c)
    ensures Lt(a, c)
  {
    if a != [] && a[0] == b[0] && b[0] == c[0] {
      LtTransitive(a[1..], b[1..], c[1..]);
    }
  }

  lemma {:induction false} LtTotal(a: Bytes, b: Bytes)
    ensures Lt(a, b) || a == b || Lt(b, a)
  {
    if a != [] && b != [] && a[0] == b[0] {
      LtTotal(a[1..], b[1..]);
      assert a == [a[0]] + a[1..] && b == [b[0]] + b[1..];
    }
  }

  /** A common prefix does not matter. */
  lemma {:induction false} LtAfterPrefix(p: Bytes, a: Bytes, b: Bytes)
    ensures Lt(p + a, p + b) <==> Lt(a, b)
  {
    if p == [] {
      assert p + a == a && p + b == b;
    } else {
      LtAfterPrefix(p[1..], a, b);
      assert (p + a)[1..] == p[1..] + a && (p + b)[1..] == p[1..] + b;
    }
  }

  // ---- Key layout ----

  datatype Partition = Partition(nodeKey: Bytes, number: Byte)

  /** The characters of "radix:". */
  const RADIX_PREFIX: Bytes := [114, 97, 100, 105, 120, 58]

  function PartitionPrefix(p: Partition): Bytes {
    RADIX_PREFIX + p.nodeKey + [p.number]
  }

  function ToStorageKey(p: Partition, sortKey: Bytes): Bytes {
    RADIX_PREFIX + p.nodeKey + [p.number] + sortKey
  }

  lemma SplitsAlike(a: Bytes, b: Bytes, x: Bytes, y: Bytes)
    requires |a| == |b|
    ensures a + x == b + y <==> a == b && x == y
  {
    assert (a + x)[..|a|] == a && (a + x)[|a|..] == x;
    assert (b + y)[..|b|] == b && (b + y)[|b|..] == y;
  }

  /** Among partitions with node keys of one length, a storage key determines its partition and
      sort key, and a partition prefix its partition. */
  lemma StorageKeysTellApart(p: Partition, q: Partition, k: Bytes, l: Bytes)
    requires |p.nodeKey| == |q.nodeKey|
    ensures ToStorageKey(p, k) == ToStorageKey(q, l) <==> p == q && k == l
    ensures PartitionPrefix(p) == PartitionPrefix(q) <==> p == q
    ensures PartitionPrefix(p) <= ToStorageKey(q, l) <==> p == q
  {
    SplitsAlike(PartitionPrefix(p), PartitionPrefix(q), k, l);
    SplitsAlike(RADIX_PREFIX + p.nodeKey, RADIX_PREFIX + q.nodeKey, [p.number], [q.number]);
    SplitsAlike(RADIX_PREFIX, RADIX_PREFIX, p.nodeKey, q.nodeKey);
    assert ToStorageKey(p, k) == PartitionPrefix(p) + k && ToStorageKey(q, l) == PartitionPrefix(q) + l;
    assert ToStorageKey(q, l)[..|PartitionPrefix(q)|] == PartitionPrefix(q);
  }

  /** Node keys of different lengths are not told apart: the number byte of the shorter one reads
      as the end of the longer. */
  lemma StorageKeysOfTwoLengthsMayMeet(nodeKey: Bytes, number: Byte, more: Byte)
    ensures var p, q := Partition(nodeKey, number), Partition(nodeKey + [number], more);
            p != q && ToStorageKey(p, [more]) == ToStorageKey(q, [])
  {
    assert RADIX_PREFIX + nodeKey + [number] + [more] == RADIX_PREFIX + (nodeKey + [number]) + [more] + [];
  }

  // ---- End of a prefix scan ----

  /** Increment the last byte below 255, zero the bytes after it; when there is no
      such byte, append a zero to the zeros. */
  function NextPrefix(prefix: Bytes): Bytes {
    if prefix == [] then [0]
    else
      var last := |prefix| - 1;
      if prefix[last] < 255 then prefix[..last] + [prefix[last] + 1]
      else NextPrefix(prefix[..last]) + [0]
  }

  function Zeros(n: nat): Bytes {
    seq(n, _ => 0)
  }

  lemma {:induction false} NextPrefixSkipsFull(prefix: Bytes, i: nat)
    requires i <= |prefix|
    requires forall j :: i <= j < |prefix| ==> prefix[j] == 255
    ensures NextPrefix(prefix) == NextPrefix(prefix[..i]) + Zeros(|prefix| - i)
    decreases |prefix|
  {
    if i == |prefix| {
      assert prefix[..i] == prefix;
    } else {
      var last := |prefix| - 1;
      NextPrefixSkipsFull(prefix[..last], i);
      assert prefix[..last][..i] == prefix[..i];
    }
  }

  /** The walk over a copy of the prefix, from the back, changing it in place. */
  method NextPrefixInPlace(prefix: Bytes) returns (next: Bytes)
    ensures next == NextPrefix(prefix)
  {
    var copy := new Byte[|prefix|](i requires 0 <= i < |prefix| => prefix[i]);
    var i := copy.Length;
    while i > 0
      invariant 0 <= i <= copy.Length == |prefix|
      invariant forall j :: 0 <= j < i ==> copy[j] == prefix[j]
      invariant forall j :: i <= j < copy.Length ==> copy[j] == 0 && prefix[j] == 255
    {
      i := i - 1;
      if copy[i] < 255 {
        copy[i] := copy[i] + 1;
        NextPrefixSkipsFull(prefix, i + 1);
        assert prefix[..i + 1][..i] == prefix[..i];
        assert copy[..] == prefix[..i] + [prefix[i] + 1] + Zeros(|prefix| - i - 1);
        return copy[..];
      }
      copy[i] := 0;
    }
    NextPrefixSkipsFull(prefix, 0);
    next := copy[..] + [0];
    assert next == [0] + Zeros(|prefix|);
  }

  predicate HasRoom(prefix: Bytes) {
    exists i :: 0 <= i < |prefix| && prefix[i] < 255
  }

  lemma RoomInFirstOrRest(prefix: Bytes)
    requires prefix != []
    ensures HasRoom(prefix) <==> prefix[0] < 255 || HasRoom(prefix[1..])
  {
    if HasRoom(prefix) && prefix[0] == 255 {
      var k :| 0 <= k < |prefix| && prefix[k] < 255;
      assert prefix[1..][k - 1] == prefix[k];
    }
    if HasRoom(prefix[1..]) {
      var k :| 0 <= k < |prefix| - 1 && prefix[1..][k] < 255;
      assert prefix[k + 1] < 255;
    }
  }

  lemma {:induction false} NextPrefixKeepsFirst(prefix: Bytes)
    requires prefix != [] && HasRoom(prefix[1..])
    ensures NextPrefix(prefix) == [prefix[0]] + NextPrefix(prefix[1..])
    decreases |prefix|
  {
    var last, tail := |prefix| - 1, prefix[1..];
    assert tail[|tail| - 1] == prefix[last];
    if prefix[last] < 255 {
      assert prefix[..last] == [prefix[0]] + tail[..|tail| - 1];
    } else {
      var k :| 0 <= k < |tail| && tail[k] < 255;
      assert prefix[..last][1..] == tail[..|tail| - 1];
      assert tail[..|tail| - 1][k] < 255;
      NextPrefixKeepsFirst(prefix[..last]);
    }
  }

  lemma {:induction false} NextPrefixCarries(prefix: Bytes)
    requires prefix != [] && prefix[0] < 255 && !HasRoom(prefix[1..])
    ensures NextPrefix(prefix) == [prefix[0] + 1] + Zeros(|prefix| - 1)
    decreases |prefix|
  {
    var last := |prefix| - 1;
    if last > 0 {
      assert prefix[1..][last - 1] == prefix[last];
      assert forall i :: 0 <= i < last - 1 ==> prefix[..last][1..][i] == prefix[1..][i];
      NextPrefixCarries(prefix[..last]);
    }
  }

  lemma {:induction false} NothingLongBelowZeros(key: Bytes, n: nat)
    requires |key| > n
    ensures !Lt(key, Zeros(n))
    decreases n
  {
    if n > 0 {
      NothingLongBelowZeros(key[1..], n - 1);
      assert Zeros(n)[1..] == Zeros(n - 1);
    }
  }

  lemma {:induction false} AboveFullMeansPrefix(full: Bytes, key: Bytes)
    requires !HasRoom(full) && |key| >= |full|
    ensures Le(full, key) <==> full <= key
    decreases |full|
  {
    if full != [] {
      assert full[0] == 255;
      assert forall i :: 0 <= i < |full| - 1 ==> full[1..][i] == full[i + 1];
      AboveFullMeansPrefix(full[1..], key[1..]);
      assert full == [full[0]] + full[1..] && key == [key[0]] + key[1..];
      LtIrreflexive(full);
    }
  }

  /** The scan is exact: among the keys longer than the prefix, those between the
      prefix and its successor are exactly those that start with the prefix. */
  lemma {:induction false} PrefixScanIsExact(prefix: Bytes, key: Bytes)
    requires HasRoom(prefix) && |key| > |prefix|
    ensures Le(prefix, key) && Lt(key, NextPrefix(prefix)) <==> prefix <= key
    decreases |prefix|
  {
    var tail, rest := prefix[1..], key[1..];
    assert prefix == [prefix[0]] + tail && key == [key[0]] + rest;
    if HasRoom(tail) {
      NextPrefixKeepsFirst(prefix);
      assert NextPrefix(prefix)[1..] == NextPrefix(tail);
      PrefixScanIsExact(tail, rest);
    } else {
      RoomInFirstOrRest(prefix);
      NextPrefixCarries(prefix);
      assert NextPrefix(prefix)[1..] == Zeros(|tail|);
      NothingLongBelowZeros(rest, |tail|);
      AboveFullMeansPrefix(tail, rest);
    }
  }

  ghost predicate InScan(prefix: Bytes, key: Bytes) {
    Le(prefix, key) && Lt(key, NextPrefix(prefix))
  }

  /** Room below 255 is exactly what an exact scan needs: without it even the
      prefix followed by one byte is missed. */
  lemma ScanIsExactIffRoom(prefix: Bytes)
    ensures HasRoom(prefix) <==> (forall key: Bytes :: |key| > |prefix| ==> (InScan(prefix, key) <==> prefix <= key))
  {
    if HasRoom(prefix) {
      forall key: Bytes | |key| > |prefix| ensures InScan(prefix, key) <==> prefix <= key {
        PrefixScanIsExact(prefix, key);
      }
    } else {
      var key := prefix + [0];
      NextPrefixSkipsFull(prefix, 0);
      assert NextPrefix(prefix) == Zeros(|prefix| + 1);
      NotBelowZeros(key);
      assert !InScan(prefix, key) && prefix <= key;
    }
  }

  lemma {:induction false} NotBelowZeros(key: Bytes)
    ensures !Lt(key, Zeros(|key|))
    decreases |key|
  {
    if key != [] {
      NotBelowZeros(key[1..]);
      assert Zeros(|key|)[1..] == Zeros(|key| - 1);
    }
  }

  lemma PartitionPrefixHasRoom(p: Partition)
    ensures HasRoom(PartitionPrefix(p))
  {
    assert PartitionPrefix(p)[0] == 114;
  }
}
