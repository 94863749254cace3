/**
 The cross-shard overlay store: provisions from other shards laid over the local
 base storage. A provision overrides the base, and an empty provision deletes.
 */
module Overlay {
  import opened Options
  import opened StorageKeys

  datatype Item<+V> = Item(key: Bytes, value: V)

  /** Keys strictly increase: what a sorted map lists. */
  ghost predicate Ascending<V>(items: seq<Item<V>>) {
    forall i, j :: 0 <= i < j < |items| ==> Lt(items[i].key, items[j].key)
  }

  ghost predicate HasKey<V>(items: seq<Item<V>>, key: Bytes) {
    exists x :: x in items && x.key == key
  }

  /** Point lookup in a listing. */
  function Lookup<V>(items: seq<Item<V>>, key: Bytes): Option<V> {
    if items == [] then None
    else if items[0].key == key then Some(items[0].value)
    else Lookup(items[1..], key)
  }

  lemma {:induction false} LookupFinds<V>(items: seq<Item<V>>, key: Bytes, value: V)
    requires Ascending(items)
    ensures Lookup(items, key) == Some(value) <==> Item(key, value) in items
    decreases |items|
  {
    if items != [] {
      LookupFinds(items[1..], key, value);
      assert items == [items[0]] + items[1..];
      if items[0].key == key && Item(key, value) in items[1..] {
        var j :| 0 < j < |items| && items[j] == Item(key, value);
        LtIrreflexive(key);
      }
    }
  }

  // ---- Merging two listings ----

  function Visible(slot: Item<Option<Bytes>>): seq<Item<Bytes>> {
    if slot.value.Some? then [Item(slot.key, slot.value.value)] else []
  }

  /** What the merged iterator yields from the two remaining listings. */
  function Merge(base: seq<Item<Bytes>>, provisions: seq<Item<Option<Bytes>>>): seq<Item<Bytes>>
    decreases |base| + |provisions|
  {
    if provisions == [] then base
    else if base != [] && Lt(base[0].key, provisions[0].key) then
      [base[0]] + Merge(base[1..], provisions)
    else if base != [] && base[0].key == provisions[0].key then
      Visible(provisions[0]) + Merge(base[1..], provisions[1..])
    else Visible(provisions[0]) + Merge(base, provisions[1..])
  }

  class MergedPartitionIterator {
    var base: seq<Item<Bytes>>
    var provisions: seq<Item<Option<Bytes>>>

    ghost function Remaining(): seq<Item<Bytes>>
      reads this
    {
      Merge(base, provisions)
    }

    constructor (base: seq<Item<Bytes>>, provisions: seq<Item<Option<Bytes>>>)
      ensures Remaining() == Merge(base, provisions)
      ensures this.base == base && this.provisions == provisions
    {
      this.base, this.provisions := base, provisions;
    }

    /** Yields the remaining merged items one by one, and `None` exactly at the end. */
    method Next() returns (item: Option<Item<Bytes>>)
      modifies this
      ensures item == None ==> old(Remaining()) == [] == Remaining()
      ensures item.Some? ==> old(Remaining()) == [item.value] + Remaining()
    {
      while base != [] || provisions != []
        invariant Remaining() == old(Remaining())
        decreases |base| + |provisions|
      {
        if provisions == [] || (base != [] && Lt(base[0].key, provisions[0].key)) {
          var first := base[0];
          base := base[1..];
          return Some(first);
        }
        var slot := provisions[0];
        if base != [] && base[0].key == slot.key {
          LtIrreflexive(slot.key);
          base := base[1..];
        }
        provisions := provisions[1..];
        if slot.value.Some? {
          return Some(Item(slot.key, slot.value.value));
        }
      }
      return None;
    }
  }

  // ---- What a merge contains ----

  ghost predicate Below<V>(key: Bytes, items: seq<Item<V>>) {
    forall x :: x in items ==> Lt(key, x.key)
  }

  lemma HeadIsBelow<V>(items: seq<Item<V>>)
    requires Ascending(items) && items != []
    ensures Below(items[0].key, items[1..]) && Ascending(items[1..])
    ensures !HasKey(items[1..], items[0].key)
  {
    LtIrreflexive(items[0].key);
  }

  lemma {:induction false} MergeContents(base: seq<Item<Bytes>>, provisions: seq<Item<Option<Bytes>>>, key: Bytes, value: Bytes)
    requires Ascending(base) && Ascending(provisions)
    ensures Item(key, value) in Merge(base, provisions) <==>
            Item(key, Some(value)) in provisions || (Item(key, value) in base && !HasKey(provisions, key))
    decreases |base| + |provisions|
  {
    if provisions != [] {
      var slot, rest := provisions[0], provisions[1..];
      HeadIsBelow(provisions);
      assert provisions == [slot] + rest;
      assert HasKey(provisions, key) <==> key == slot.key || HasKey(rest, key);
      if base == [] {
        MergeContents(base, rest, key, value);
      } else {
        HeadIsBelow(base);
        assert base == [base[0]] + base[1..];
        if Lt(base[0].key, slot.key) {
          MergeContents(base[1..], provisions, key, value);
          BelowTransfers(base[0].key, slot.key, provisions);
        } else if base[0].key == slot.key {
          MergeContents(base[1..], rest, key, value);
        } else {
          MergeContents(base, rest, key, value);
          LtTotal(base[0].key, slot.key);
          BelowTransfers(slot.key, base[0].key, base);
        }
      }
    }
  }

  /** A key below the first item is below them all, so it is none of theirs. */
  lemma BelowTransfers<V>(low: Bytes, first: Bytes, items: seq<Item<V>>)
    requires Ascending(items) && items != [] && items[0].key == first
    requires Lt(low, first)
    ensures Below(low, items) && !HasKey(items, low)
  {
    forall x | x in items ensures Lt(low, x.key) {
      var i :| 0 <= i < |items| && items[i] == x;
      if i > 0 {
        LtTransitive(low, first, x.key);
      }
    }
    LtIrreflexive(low);
  }

  lemma MergeBelow(base: seq<Item<Bytes>>, provisions: seq<Item<Option<Bytes>>>, low: Bytes)
    requires Ascending(base) && Ascending(provisions)
    requires Below(low, base) && Below(low, provisions)
    ensures Below(low, Merge(base, provisions))
  {
    forall x | x in Merge(base, provisions) ensures Lt(low, x.key) {
      MergeContents(base, provisions, x.key, x.value);
    }
  }

  lemma AscendingCons<V>(x: Item<V>, items: seq<Item<V>>)
    requires Ascending(items) && Below(x.key, items)
    ensures Ascending([x] + items)
  {
  }

  lemma {:induction false} MergeAscends(base: seq<Item<Bytes>>, provisions: seq<Item<Option<Bytes>>>)
    requires Ascending(base) && Ascending(provisions)
    ensures Ascending(Merge(base, provisions))
    decreases |base| + |provisions|
  {
    if provisions != [] {
      var slot, rest := provisions[0], provisions[1..];
      HeadIsBelow(provisions);
      var base' := base;
      if base != [] {
        HeadIsBelow(base);
        LtTotal(base[0].key, slot.key);
        if Lt(base[0].key, slot.key) {
          BelowTransfers(base[0].key, slot.key, provisions);
          MergeAscends(base[1..], provisions);
          MergeBelow(base[1..], provisions, base[0].key);
          AscendingCons(base[0], Merge(base[1..], provisions));
          return;
        }
        if base[0].key == slot.key {
          base' := base[1..];
        } else {
          BelowTransfers(slot.key, base[0].key, base);
        }
      }
      MergeAscends(base', rest);
      MergeBelow(base', rest, slot.key);
      if slot.value.Some? {
        AscendingCons(Item(slot.key, slot.value.value), Merge(base', rest));
      }
    }
  }

  // ---- The snapshot ----

  /** The local storage lists each partition in key order; provisions are keyed by
      full storage key, and an empty value deletes. */
  datatype ProvisionedSnapshot = ProvisionedSnapshot(
    base: Partition -> seq<Item<Bytes>>,
    provisions: seq<Item<Option<Bytes>>>
  )

  function Get(s: ProvisionedSnapshot, p: Partition, sortKey: Bytes): Option<Bytes> {
    match Lookup(s.provisions, ToStorageKey(p, sortKey))
    case Some(value) => value
    case None => Lookup(s.base(p), sortKey)
  }

  predicate AtOrAfter(from: Option<Bytes>, key: Bytes) {
    from.Some? ==> Le(from.value, key)
  }

  /** The base storage's own listing from a start key. */
  function ListFrom(items: seq<Item<Bytes>>, from: Option<Bytes>): seq<Item<Bytes>> {
    if items == [] then []
    else (if AtOrAfter(from, items[0].key) then [items[0]] else []) + ListFrom(items[1..], from)
  }

  function StartKey(p: Partition, from: Option<Bytes>): Bytes {
    if from.Some? then PartitionPrefix(p) + from.value else PartitionPrefix(p)
  }

  predicate Selected(p: Partition, from: Option<Bytes>, key: Bytes) {
    && Le(StartKey(p, from), key) && Lt(key, NextPrefix(PartitionPrefix(p)))
    && |key| > |PartitionPrefix(p)|
  }

  /** The provisions of a partition in the scanned range, under their sort keys. */
  function PartitionSlots(provisions: seq<Item<Option<Bytes>>>, p: Partition, from: Option<Bytes>): seq<Item<Option<Bytes>>> {
    if provisions == [] then []
    else
      var x, rest := provisions[0], PartitionSlots(provisions[1..], p, from);
      if Selected(p, from, x.key) then [Item(x.key[|PartitionPrefix(p)|..], x.value)] + rest else rest
  }

  function List(s: ProvisionedSnapshot, p: Partition, from: Option<Bytes>): seq<Item<Bytes>> {
    Merge(ListFrom(s.base(p), from), PartitionSlots(s.provisions, p, from))
  }

  method ListRawValues(s: ProvisionedSnapshot, p: Partition, from: Option<Bytes>) returns (items: seq<Item<Bytes>>)
    ensures items == List(s, p, from)
  {
    var baseItems := ListFrom(s.base(p), from);
    var slots := PartitionSlots(s.provisions, p, from);
    if slots == [] {
      return baseItems;
    }
    var merged := new MergedPartitionIterator(baseItems, slots);
    items := [];
    var next := merged.Next();
    while next.Some?
      invariant fresh(merged)
      invariant next.Some? ==> items + [next.value] + merged.Remaining() == List(s, p, from)
      invariant next == None ==> items == List(s, p, from)
      decreases next.Some?, |merged.Remaining()|
    {
      items := items + [next.value];
      next := merged.Next();
    }
  }

  // ---- The scanned range selects the partition ----

  lemma SelectedIffInPartition(p: Partition, from: Option<Bytes>, key: Bytes)
    ensures var prefix := PartitionPrefix(p);
            Selected(p, from, key) <==>
            |key| > |prefix| && prefix <= key && AtOrAfter(from, key[|prefix|..])
  {
    var prefix := PartitionPrefix(p);
    if |key| > |prefix| {
      PartitionPrefixHasRoom(p);
      PrefixScanIsExact(prefix, key);
      if from.Some? && Le(StartKey(p, from), key) {
        PrefixIsLeast(prefix, from.value);
        if StartKey(p, from) != key && prefix != StartKey(p, from) {
          LtTransitive(prefix, StartKey(p, from), key);
        }
      }
      if prefix <= key {
        var sortKey := key[|prefix|..];
        assert key == prefix + sortKey;
        if from.Some? {
          LtAfterPrefix(prefix, from.value, sortKey);
          assert prefix + from.value == key <==> from.value == sortKey by {
            assert (prefix + from.value)[|prefix|..] == from.value;
          }
        }
      }
    }
  }

  lemma {:induction false} PrefixIsLeast(prefix: Bytes, tail: Bytes)
    ensures Le(prefix, prefix + tail)
    decreases |prefix|
  {
    if prefix == [] {
      assert prefix + tail == tail;
    } else {
      PrefixIsLeast(prefix[1..], tail);
      assert (prefix + tail)[1..] == prefix[1..] + tail;
      assert prefix == [prefix[0]] + prefix[1..];
      assert prefix + tail == [prefix[0]] + (prefix[1..] + tail);
    }
  }

  /** The range handed to the sorted map never starts after its end, for any start key. */
  lemma RangeIsWellFormed(p: Partition, from: Option<Bytes>)
    ensures Lt(StartKey(p, from), NextPrefix(PartitionPrefix(p)))
  {
    var prefix, start := PartitionPrefix(p), StartKey(p, from);
    if start == prefix {
      SelectedIffInPartition(p, None, prefix + [0]);
      LtAfterPrefix(prefix, [], [0]);
      assert prefix + [] == prefix;
      LtTransitive(prefix, prefix + [0], NextPrefix(prefix));
    } else {
      SelectedIffInPartition(p, from, start);
    }
  }

  lemma {:induction false} SlotsContents(provisions: seq<Item<Option<Bytes>>>, p: Partition, from: Option<Bytes>, x: Item<Option<Bytes>>)
    ensures x in PartitionSlots(provisions, p, from) <==>
            x.key != [] && AtOrAfter(from, x.key) && Item(ToStorageKey(p, x.key), x.value) in provisions
    decreases |provisions|
  {
    if provisions != [] {
      var first, prefix := provisions[0], PartitionPrefix(p);
      SlotsContents(provisions[1..], p, from, x);
      SelectedIffInPartition(p, from, first.key);
      assert provisions == [first] + provisions[1..];
      assert ToStorageKey(p, x.key)[|prefix|..] == x.key;
      if prefix <= first.key {
        assert first.key == prefix + first.key[|prefix|..];
      }
    }
  }

  lemma {:induction false} SlotsAscend(provisions: seq<Item<Option<Bytes>>>, p: Partition, from: Option<Bytes>)
    requires Ascending(provisions)
    ensures Ascending(PartitionSlots(provisions, p, from))
    decreases |provisions|
  {
    if provisions != [] {
      var first, prefix, rest := provisions[0], PartitionPrefix(p), PartitionSlots(provisions[1..], p, from);
      SlotsAscend(provisions[1..], p, from);
      if Selected(p, from, first.key) {
        SelectedIffInPartition(p, from, first.key);
        var key := first.key[|prefix|..];
        assert first.key == prefix + key;
        forall x | x in rest ensures Lt(key, x.key) {
          SlotsContents(provisions[1..], p, from, x);
          LtAfterPrefix(prefix, key, x.key);
        }
        AscendingCons(Item(key, first.value), rest);
      }
    }
  }

  lemma {:induction false} ListFromContents(items: seq<Item<Bytes>>, from: Option<Bytes>, x: Item<Bytes>)
    ensures x in ListFrom(items, from) <==> x in items && AtOrAfter(from, x.key)
    decreases |items|
  {
    if items != [] {
      ListFromContents(items[1..], from, x);
      assert items == [items[0]] + items[1..];
    }
  }

  lemma {:induction false} ListFromAscends(items: seq<Item<Bytes>>, from: Option<Bytes>)
    requires Ascending(items)
    ensures Ascending(ListFrom(items, from))
    decreases |items|
  {
    if items != [] {
      ListFromAscends(items[1..], from);
      if AtOrAfter(from, items[0].key) {
        forall x | x in ListFrom(items[1..], from) ensures Lt(items[0].key, x.key) {
          ListFromContents(items[1..], from, x);
        }
        AscendingCons(items[0], ListFrom(items[1..], from));
      }
    }
  }

  // ---- Listings agree with point reads ----

  ghost predicate Sorted(s: ProvisionedSnapshot, p: Partition) {
    Ascending(s.base(p)) && Ascending(s.provisions)
  }

  lemma {:induction false} LookupMisses<V>(items: seq<Item<V>>, key: Bytes)
    ensures Lookup(items, key) == None <==> !HasKey(items, key)
    decreases |items|
  {
    if items != [] {
      LookupMisses(items[1..], key);
      assert items == [items[0]] + items[1..];
    }
  }

  lemma GetContents(s: ProvisionedSnapshot, p: Partition, k: Bytes, v: Bytes)
    requires Sorted(s, p)
    ensures Get(s, p, k) == Some(v) <==>
            || Item(ToStorageKey(p, k), Some(v)) in s.provisions
            || (!HasKey(s.provisions, ToStorageKey(p, k)) && Item(k, v) in s.base(p))
  {
    LookupMisses(s.provisions, ToStorageKey(p, k));
    LookupFinds(s.provisions, ToStorageKey(p, k), Some(v));
    LookupFinds(s.base(p), k, v);
  }

  /** The merged iterator lists a pair exactly when a slot of the partition supplies it,
      or the base does and no slot covers its key. */
  lemma ListContents(s: ProvisionedSnapshot, p: Partition, from: Option<Bytes>, k: Bytes, v: Bytes)
    requires Sorted(s, p)
    ensures Item(k, v) in List(s, p, from) <==>
            && AtOrAfter(from, k)
            && (|| (k != [] && Item(ToStorageKey(p, k), Some(v)) in s.provisions)
                || ((k == [] || !HasKey(s.provisions, ToStorageKey(p, k))) && Item(k, v) in s.base(p)))
  {
    var slots, storageKey := PartitionSlots(s.provisions, p, from), ToStorageKey(p, k);
    SlotsAscend(s.provisions, p, from);
    ListFromAscends(s.base(p), from);
    MergeContents(ListFrom(s.base(p), from), slots, k, v);
    ListFromContents(s.base(p), from, Item(k, v));
    SlotsContents(s.provisions, p, from, Item(k, Some(v)));
    if k != [] && AtOrAfter(from, k) && HasKey(s.provisions, storageKey) {
      var x :| x in s.provisions && x.key == storageKey;
      SlotsContents(s.provisions, p, from, Item(k, x.value));
    }
    if HasKey(slots, k) {
      var x :| x in slots && x.key == k;
      SlotsContents(s.provisions, p, from, x);
    }
  }

  /** Listing a partition from any start gives, in strictly increasing key order,
      exactly the pairs with a nonempty key at or after the start that `Get` returns. */
  lemma ListingAgreesWithGet(s: ProvisionedSnapshot, p: Partition, from: Option<Bytes>)
    requires Sorted(s, p)
    ensures Ascending(List(s, p, from))
    ensures forall k, v :: k != [] ==>
            (Item(k, v) in List(s, p, from) <==> AtOrAfter(from, k) && Get(s, p, k) == Some(v))
  {
    SlotsAscend(s.provisions, p, from);
    ListFromAscends(s.base(p), from);
    MergeAscends(ListFrom(s.base(p), from), PartitionSlots(s.provisions, p, from));
    forall k, v | k != []
      ensures Item(k, v) in List(s, p, from) <==> AtOrAfter(from, k) && Get(s, p, k) == Some(v)
    {
      ListContents(s, p, from, k, v);
      GetContents(s, p, k, v);
    }
  }

  /** The empty sort key: the range scan never selects the bare partition prefix, so a
      full listing agrees with `Get` there unless a provision changes what the base holds. */
  lemma EmptyKeyAgreesIffProvisionRepeatsBase(s: ProvisionedSnapshot, p: Partition)
    requires Sorted(s, p)
    ensures (forall v :: Item([], v) in List(s, p, None) <==> Get(s, p, []) == Some(v)) <==>
            || Lookup(s.provisions, PartitionPrefix(p)) == None
            || Lookup(s.provisions, PartitionPrefix(p)) == Some(Lookup(s.base(p), []))
  {
    var bare, base := Lookup(s.provisions, PartitionPrefix(p)), Lookup(s.base(p), []);
    assert ToStorageKey(p, []) == PartitionPrefix(p);
    assert Get(s, p, []) == if bare.Some? then bare.value else base;
    forall v ensures Item([], v) in List(s, p, None) <==> base == Some(v) {
      ListContents(s, p, None, [], v);
      LookupFinds(s.base(p), [], v);
      LookupMisses(s.provisions, PartitionPrefix(p));
    }
    if bare.Some? && bare.value != base {
      var v := if base.Some? then base.value else bare.value.value;
      assert !(Item([], v) in List(s, p, None) <==> Get(s, p, []) == Some(v));
    }
  }
}
