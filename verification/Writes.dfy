/**
 Substate writes: their conversion to nested, insertion-ordered database updates
 and back, and the commitment hash that validators vote on.
 */
module Writes {
  import opened Options
  import opened StorageKeys

  type NodeId = id: Bytes | |id| == 30 witness seq(30, i => 0)
  type HashPrefix = h: Bytes | |h| == 20 witness seq(20, i => 0)

  datatype SubstateKey = SubstateKey(node: NodeId, partition: Byte, sortKey: Bytes)
  datatype SubstateWrite = SubstateWrite(key: SubstateKey, value: Bytes)

  // ---- Insertion-ordered maps ----

  datatype Entry<+K, +V> = Entry(key: K, value: V)
  type IndexMap<+K, +V> = seq<Entry<K, V>>

  function Find<K(==), V>(m: IndexMap<K, V>, k: K): Option<V> {
    if m == [] then None
    else if m[0].key == k then Some(m[0].value)
    else Find(m[1..], k)
  }

  /** Replaces the value of a present key in place, and appends an absent one. */
  function Put<K(==), V>(m: IndexMap<K, V>, k: K, v: V): IndexMap<K, V> {
    if m == [] then [Entry(k, v)]
    else if m[0].key == k then [Entry(k, v)] + m[1..]
    else [m[0]] + Put(m[1..], k, v)
  }

  function FindOr<K(==), V>(m: IndexMap<K, V>, k: K, default: V): V {
    match Find(m, k)
    case Some(v) => v
    case None => default
  }

  ghost predicate Distinct<K, V>(m: IndexMap<K, V>) {
    forall i, j :: 0 <= i < j < |m| ==> m[i].key != m[j].key
  }

  lemma {:induction false} FindPut<K, V>(m: IndexMap<K, V>, k: K, v: V, other: K)
    ensures Find(Put(m, k, v), other) == if other == k then Some(v) else Find(m, other)
    decreases |m|
  {
    if m != [] && m[0].key != k {
      FindPut(m[1..], k, v, other);
    }
  }

  lemma {:induction false} PutEntries<K, V>(m: IndexMap<K, V>, k: K, v: V, e: Entry<K, V>)
    requires e in Put(m, k, v)
    ensures e == Entry(k, v) || (e in m && e.key != k) || (e in m && !Distinct(m))
    decreases |m|
  {
    if m != [] && m[0].key != k && e != m[0] {
      PutEntries(m[1..], k, v, e);
    }
  }

  lemma {:induction false} PutKeepsDistinct<K, V>(m: IndexMap<K, V>, k: K, v: V)
    requires Distinct(m)
    ensures Distinct(Put(m, k, v))
    decreases |m|
  {
    if m != [] && m[0].key != k {
      var rest := Put(m[1..], k, v);
      PutKeepsDistinct(m[1..], k, v);
      forall i | 0 <= i < |rest| ensures rest[i].key != m[0].key {
        PutEntries(m[1..], k, v, rest[i]);
      }
    }
  }

  lemma {:induction false} FindIsMember<K, V>(m: IndexMap<K, V>, k: K, v: V)
    requires Distinct(m)
    ensures Find(m, k) == Some(v) <==> Entry(k, v) in m
    decreases |m|
  {
    if m != [] {
      FindIsMember(m[1..], k, v);
      assert m == [m[0]] + m[1..];
    }
  }

  // ---- Database updates ----

  datatype Update = Set(value: Bytes) | Delete
  datatype PartitionUpdates = Delta(substates: IndexMap<Bytes, Update>) | Reset(values: IndexMap<Bytes, Bytes>)
  type NodeUpdates = IndexMap<Byte, PartitionUpdates>
  type DatabaseUpdates = IndexMap<Bytes, NodeUpdates>

  /** The key mapper: a node's hash prefix followed by its id. The hash is foreign code. */
  function DbNodeKey(hash: NodeId -> HashPrefix, node: NodeId): Bytes {
    hash(node) + node
  }

  lemma NodeOfDbNodeKey(hash: NodeId -> HashPrefix, node: NodeId)
    ensures |DbNodeKey(hash, node)| == 50 && DbNodeKey(hash, node)[20..50] == node
  {
  }

  function PutPartition(parts: NodeUpdates, write: SubstateWrite): NodeUpdates {
    match FindOr(parts, write.key.partition, Delta([]))
    case Delta(substates) => Put(parts, write.key.partition, Delta(Put(substates, write.key.sortKey, Set(write.value))))
    case Reset(_) => parts
  }

  function PutWrite(hash: NodeId -> HashPrefix, updates: DatabaseUpdates, write: SubstateWrite): DatabaseUpdates {
    var nodeKey := DbNodeKey(hash, write.key.node);
    Put(updates, nodeKey, PutPartition(FindOr(updates, nodeKey, []), write))
  }

  function UpdatesOf(hash: NodeId -> HashPrefix, writes: seq<SubstateWrite>): DatabaseUpdates {
    if writes == [] then []
    else PutWrite(hash, UpdatesOf(hash, writes[..|writes| - 1]), writes[|writes| - 1])
  }

  method SubstateWritesToDatabaseUpdates(hash: NodeId -> HashPrefix, writes: seq<SubstateWrite>) returns (updates: DatabaseUpdates)
    ensures updates == UpdatesOf(hash, writes)
  {
    updates := [];
    for i := 0 to |writes|
      invariant updates == UpdatesOf(hash, writes[..i])
    {
      assert writes[..i + 1][..i] == writes[..i];
      var write := writes[i];
      var nodeKey := DbNodeKey(hash, write.key.node);
      var parts := FindOr(updates, nodeKey, []);
      var partition := FindOr(parts, write.key.partition, Delta([]));
      if partition.Delta? {
        parts := Put(parts, write.key.partition, Delta(Put(partition.substates, write.key.sortKey, Set(write.value))));
      }
      updates := Put(updates, nodeKey, parts);
    }
    assert writes[..|writes|] == writes;
  }

  // ---- What the updates hold ----

  /** The value a database update sets at a substate key, by nested lookups. */
  function ValueAt(hash: NodeId -> HashPrefix, updates: DatabaseUpdates, key: SubstateKey): Option<Bytes> {
    SetValue(FindOr(FindOr(updates, DbNodeKey(hash, key.node), []), key.partition, Delta([])), key.sortKey)
  }

  function SetValue(partition: PartitionUpdates, sortKey: Bytes): Option<Bytes> {
    if partition.Reset? then None
    else match Find(partition.substates, sortKey)
      case Some(update) => if update.Set? then Some(update.value) else None
      case None => None
  }

  ghost predicate SetsOnly(substates: IndexMap<Bytes, Update>) {
    Distinct(substates) && forall e :: e in substates ==> e.value.Set?
  }

  ghost predicate PartitionsOk(parts: NodeUpdates) {
    Distinct(parts) && forall e :: e in parts ==> e.value.Delta? && SetsOnly(e.value.substates)
  }

  ghost predicate MappedKey(hash: NodeId -> HashPrefix, key: Bytes) {
    |key| == 50 && key == DbNodeKey(hash, key[20..50])
  }

  ghost predicate UpdatesOk(hash: NodeId -> HashPrefix, updates: DatabaseUpdates) {
    Distinct(updates) && forall e :: e in updates ==> MappedKey(hash, e.key) && PartitionsOk(e.value)
  }

  lemma PutSetKeepsSets(substates: IndexMap<Bytes, Update>, k: Bytes, v: Bytes)
    requires SetsOnly(substates)
    ensures SetsOnly(Put(substates, k, Set(v)))
  {
    PutKeepsDistinct(substates, k, Set(v));
    forall e | e in Put(substates, k, Set(v)) ensures e.value.Set? {
      PutEntries(substates, k, Set(v), e);
    }
  }

  lemma PutPartitionKeepsOk(parts: NodeUpdates, write: SubstateWrite)
    requires PartitionsOk(parts)
    ensures PartitionsOk(PutPartition(parts, write))
    ensures FindOr(parts, write.key.partition, Delta([])).Delta?
  {
    var partition := FindOr(parts, write.key.partition, Delta([]));
    if Find(parts, write.key.partition).Some? {
      FindIsMember(parts, write.key.partition, partition);
    }
    var substates' := Put(partition.substates, write.key.sortKey, Set(write.value));
    PutSetKeepsSets(partition.substates, write.key.sortKey, write.value);
    PutKeepsDistinct(parts, write.key.partition, Delta(substates'));
    forall e | e in PutPartition(parts, write) ensures e.value.Delta? && SetsOnly(e.value.substates) {
      PutEntries(parts, write.key.partition, Delta(substates'), e);
    }
  }

  lemma PartsOk(hash: NodeId -> HashPrefix, updates: DatabaseUpdates, nodeKey: Bytes)
    requires UpdatesOk(hash, updates)
    ensures PartitionsOk(FindOr(updates, nodeKey, []))
  {
    if Find(updates, nodeKey).Some? {
      FindIsMember(updates, nodeKey, FindOr(updates, nodeKey, []));
    }
  }

  lemma PutWriteKeepsOk(hash: NodeId -> HashPrefix, updates: DatabaseUpdates, write: SubstateWrite)
    requires UpdatesOk(hash, updates)
    ensures UpdatesOk(hash, PutWrite(hash, updates, write))
  {
    var nodeKey := DbNodeKey(hash, write.key.node);
    var parts := FindOr(updates, nodeKey, []);
    PartsOk(hash, updates, nodeKey);
    PutPartitionKeepsOk(parts, write);
    PutKeepsDistinct(updates, nodeKey, PutPartition(parts, write));
    NodeOfDbNodeKey(hash, write.key.node);
    forall e | e in PutWrite(hash, updates, write) ensures MappedKey(hash, e.key) && PartitionsOk(e.value) {
      PutEntries(updates, nodeKey, PutPartition(parts, write), e);
    }
  }

  lemma PutWriteSets(hash: NodeId -> HashPrefix, updates: DatabaseUpdates, write: SubstateWrite, key: SubstateKey)
    requires UpdatesOk(hash, updates)
    ensures ValueAt(hash, PutWrite(hash, updates, write), key) ==
            if key == write.key then Some(write.value) else ValueAt(hash, updates, key)
  {
    var nodeKey := DbNodeKey(hash, write.key.node);
    var parts := FindOr(updates, nodeKey, []);
    var partition := FindOr(parts, write.key.partition, Delta([]));
    PartsOk(hash, updates, nodeKey);
    PutPartitionKeepsOk(parts, write);
    var substates' := Put(partition.substates, write.key.sortKey, Set(write.value));
    NodeOfDbNodeKey(hash, write.key.node);
    NodeOfDbNodeKey(hash, key.node);
    FindPut(updates, nodeKey, PutPartition(parts, write), DbNodeKey(hash, key.node));
    FindPut(parts, write.key.partition, Delta(substates'), key.partition);
    FindPut(partition.substates, write.key.sortKey, Set(write.value), key.sortKey);
  }

  /** The value of the last write to a key. */
  function LastValue(writes: seq<SubstateWrite>, key: SubstateKey): Option<Bytes> {
    if writes == [] then None
    else
      var last := writes[|writes| - 1];
      if last.key == key then Some(last.value) else LastValue(writes[..|writes| - 1], key)
  }

  lemma {:induction false} UpdatesHoldLastValues(hash: NodeId -> HashPrefix, writes: seq<SubstateWrite>, key: SubstateKey)
    ensures UpdatesOk(hash, UpdatesOf(hash, writes))
    ensures ValueAt(hash, UpdatesOf(hash, writes), key) == LastValue(writes, key)
    decreases |writes|
  {
    if writes != [] {
      var before, write := writes[..|writes| - 1], writes[|writes| - 1];
      UpdatesHoldLastValues(hash, before, key);
      PutWriteKeepsOk(hash, UpdatesOf(hash, before), write);
      PutWriteSets(hash, UpdatesOf(hash, before), write, key);
    }
  }

  // ---- Extraction ----

  function ExtractSubstates(node: NodeId, partition: Byte, substates: IndexMap<Bytes, Update>): seq<SubstateWrite> {
    if substates == [] then []
    else
      var (key, update) := (SubstateKey(node, partition, substates[0].key), substates[0].value);
      (if update.Set? then [SubstateWrite(key, update.value)] else []) + ExtractSubstates(node, partition, substates[1..])
  }

  function ExtractPartition(node: NodeId, partition: Entry<Byte, PartitionUpdates>): seq<SubstateWrite> {
    if partition.value.Delta? then ExtractSubstates(node, partition.key, partition.value.substates) else []
  }

  function ExtractPartitions(node: NodeId, parts: NodeUpdates): seq<SubstateWrite> {
    if parts == [] then [] else ExtractPartition(node, parts[0]) + ExtractPartitions(node, parts[1..])
  }

  function ExtractNode(node: Entry<Bytes, NodeUpdates>): seq<SubstateWrite> {
    if |node.key| >= 50 then ExtractPartitions(node.key[20..50], node.value) else []
  }

  function Extract(updates: DatabaseUpdates): seq<SubstateWrite> {
    if updates == [] then [] else ExtractNode(updates[0]) + Extract(updates[1..])
  }

  method ExtractSubstateSets(node: NodeId, partition: Byte, substates: IndexMap<Bytes, Update>, found: seq<SubstateWrite>)
    returns (writes: seq<SubstateWrite>)
    ensures writes == found + ExtractSubstates(node, partition, substates)
  {
    writes := found;
    for i := 0 to |substates|
      invariant writes + ExtractSubstates(node, partition, substates[i..]) == found + ExtractSubstates(node, partition, substates)
    {
      assert substates[i..][1..] == substates[i + 1..];
      if substates[i].value.Set? {
        writes := writes + [SubstateWrite(SubstateKey(node, partition, substates[i].key), substates[i].value.value)];
      }
    }
  }

  method ExtractPartitionWrites(node: NodeId, parts: NodeUpdates, found: seq<SubstateWrite>) returns (writes: seq<SubstateWrite>)
    ensures writes == found + ExtractPartitions(node, parts)
  {
    writes := found;
    for i := 0 to |parts|
      invariant writes + ExtractPartitions(node, parts[i..]) == found + ExtractPartitions(node, parts)
    {
      ghost var group, rest := ExtractPartition(node, parts[i]), ExtractPartitions(node, parts[i + 1..]);
      assert parts[i..][1..] == parts[i + 1..];
      assert writes + (group + rest) == (writes + group) + rest;
      if parts[i].value.Delta? {
        writes := ExtractSubstateSets(node, parts[i].key, parts[i].value.substates, writes);
      } else {
        assert writes + group == writes;
      }
    }
  }

  method ExtractNodeWrites(node: Entry<Bytes, NodeUpdates>, found: seq<SubstateWrite>) returns (writes: seq<SubstateWrite>)
    ensures writes == found + ExtractNode(node)
  {
    writes := found;
    if |node.key| >= 50 {
      writes := ExtractPartitionWrites(node.key[20..50], node.value, writes);
    }
  }

  lemma ExtractStep(updates: DatabaseUpdates, i: nat, found: seq<SubstateWrite>)
    requires i < |updates|
    ensures found + Extract(updates[i..]) == (found + ExtractNode(updates[i])) + Extract(updates[i + 1..])
  {
    assert updates[i..][1..] == updates[i + 1..];
  }

  /** A receipt without a commit result carries no updates and gives no writes. */
  method ExtractSubstateWrites(receipt: Option<DatabaseUpdates>) returns (writes: seq<SubstateWrite>)
    ensures writes == if receipt.Some? then Extract(receipt.value) else []
  {
    if receipt.None? {
      return [];
    }
    var updates := receipt.value;
    writes := [];
    for i := 0 to |updates|
      invariant writes + Extract(updates[i..]) == Extract(updates)
    {
      ExtractStep(updates, i, writes);
      writes := ExtractNodeWrites(updates[i], writes);
    }
  }

  lemma {:induction false} SubstatesContents(node: NodeId, partition: Byte, substates: IndexMap<Bytes, Update>, w: SubstateWrite)
    ensures w in ExtractSubstates(node, partition, substates) <==>
            w.key.node == node && w.key.partition == partition && Entry(w.key.sortKey, Set(w.value)) in substates
    decreases |substates|
  {
    if substates != [] {
      SubstatesContents(node, partition, substates[1..], w);
      assert substates == [substates[0]] + substates[1..];
    }
  }

  lemma PartitionMember(node: NodeId, e: Entry<Byte, PartitionUpdates>, w: SubstateWrite)
    ensures w in ExtractPartition(node, e) <==>
            && w.key.node == node && w.key.partition == e.key
            && e.value.Delta? && Entry(w.key.sortKey, Set(w.value)) in e.value.substates
  {
    if e.value.Delta? {
      SubstatesContents(node, e.key, e.value.substates, w);
    }
  }

  lemma {:induction false} PartitionsContents(node: NodeId, parts: NodeUpdates, w: SubstateWrite)
    ensures w in ExtractPartitions(node, parts) <==> exists e :: e in parts && w in ExtractPartition(node, e)
    ensures w in ExtractPartitions(node, parts) ==> w.key.node == node
    decreases |parts|
  {
    if parts != [] {
      PartitionsContents(node, parts[1..], w);
      PartitionMember(node, parts[0], w);
      assert parts == [parts[0]] + parts[1..];
    }
  }

  /** Extraction finds exactly the values set inside delta partitions of nodes with a full key. */
  lemma {:induction false} ExtractContents(updates: DatabaseUpdates, w: SubstateWrite)
    ensures w in Extract(updates) <==>
            exists e :: e in updates && w in ExtractNode(e)
    decreases |updates|
  {
    if updates != [] {
      ExtractContents(updates[1..], w);
      assert updates == [updates[0]] + updates[1..];
    }
  }

  ghost predicate DistinctWrites(writes: seq<SubstateWrite>) {
    forall i, j :: 0 <= i < j < |writes| ==> writes[i].key != writes[j].key
  }

  lemma DistinctConcat(a: seq<SubstateWrite>, b: seq<SubstateWrite>)
    requires DistinctWrites(a) && DistinctWrites(b)
    requires forall x, y :: x in a && y in b ==> x.key != y.key
    ensures DistinctWrites(a + b)
  {
    var ab := a + b;
    forall i, j | 0 <= i < j < |ab| ensures ab[i].key != ab[j].key {
      if i < |a| <= j {
        assert ab[i] in a && ab[j] in b;
      }
    }
  }

  lemma {:induction false} SubstatesDistinct(node: NodeId, partition: Byte, substates: IndexMap<Bytes, Update>)
    requires Distinct(substates)
    ensures DistinctWrites(ExtractSubstates(node, partition, substates))
    decreases |substates|
  {
    if substates != [] {
      var rest := ExtractSubstates(node, partition, substates[1..]);
      SubstatesDistinct(node, partition, substates[1..]);
      forall y | y in rest ensures y.key.sortKey != substates[0].key {
        SubstatesContents(node, partition, substates[1..], y);
      }
      if substates[0].value.Set? {
        DistinctConcat([SubstateWrite(SubstateKey(node, partition, substates[0].key), substates[0].value.value)], rest);
      }
    }
  }

  lemma {:induction false} PartitionsDistinct(node: NodeId, parts: NodeUpdates)
    requires PartitionsOk(parts)
    ensures DistinctWrites(ExtractPartitions(node, parts))
    decreases |parts|
  {
    if parts != [] {
      var first, rest := ExtractPartition(node, parts[0]), ExtractPartitions(node, parts[1..]);
      assert parts[0].value.Delta?;
      PartitionsDistinct(node, parts[1..]);
      SubstatesDistinct(node, parts[0].key, parts[0].value.substates);
      forall x, y | x in first && y in rest ensures x.key != y.key {
        PartitionMember(node, parts[0], x);
        PartitionsContents(node, parts[1..], y);
        var e :| e in parts[1..] && y in ExtractPartition(node, e);
        PartitionMember(node, e, y);
      }
      DistinctConcat(first, rest);
    }
  }

  lemma NodeOfWrite(hash: NodeId -> HashPrefix, e: Entry<Bytes, NodeUpdates>, w: SubstateWrite)
    requires MappedKey(hash, e.key) && w in ExtractNode(e)
    ensures e.key == DbNodeKey(hash, w.key.node)
  {
    PartitionsContents(e.key[20..50], e.value, w);
  }

  lemma {:induction false} ExtractDistinct(hash: NodeId -> HashPrefix, updates: DatabaseUpdates)
    requires UpdatesOk(hash, updates)
    ensures DistinctWrites(Extract(updates))
    decreases |updates|
  {
    if updates != [] {
      var first, rest := ExtractNode(updates[0]), Extract(updates[1..]);
      assert updates[0] in updates;
      ExtractDistinct(hash, updates[1..]);
      PartitionsDistinct(updates[0].key[20..50], updates[0].value);
      forall x, y | x in first && y in rest ensures x.key != y.key {
        ExtractContents(updates[1..], y);
        var e :| e in updates[1..] && y in ExtractNode(e);
        NodeOfWrite(hash, updates[0], x);
        NodeOfWrite(hash, e, y);
      }
      DistinctConcat(first, rest);
    }
  }

  /** Extraction lists exactly the values that nested lookups find. */
  lemma ExtractFindsValues(hash: NodeId -> HashPrefix, updates: DatabaseUpdates, w: SubstateWrite)
    requires UpdatesOk(hash, updates)
    ensures w in Extract(updates) <==> ValueAt(hash, updates, w.key) == Some(w.value)
  {
    var nodeKey := DbNodeKey(hash, w.key.node);
    var parts := FindOr(updates, nodeKey, []);
    PartsOk(hash, updates, nodeKey);
    PartitionLookup(parts, w);
    NodeLookup(hash, updates, w);
  }

  lemma NodeLookup(hash: NodeId -> HashPrefix, updates: DatabaseUpdates, w: SubstateWrite)
    requires UpdatesOk(hash, updates)
    ensures w in Extract(updates) <==> w in ExtractPartitions(w.key.node, FindOr(updates, DbNodeKey(hash, w.key.node), []))
  {
    var nodeKey := DbNodeKey(hash, w.key.node);
    NodeOfDbNodeKey(hash, w.key.node);
    ExtractContents(updates, w);
    if w in Extract(updates) {
      var e :| e in updates && w in ExtractNode(e);
      NodeOfWrite(hash, e, w);
      FindIsMember(updates, nodeKey, e.value);
    }
    if Find(updates, nodeKey).Some? {
      var parts := Find(updates, nodeKey).value;
      FindIsMember(updates, nodeKey, parts);
      assert ExtractNode(Entry(nodeKey, parts)) == ExtractPartitions(w.key.node, parts);
    }
  }

  lemma PartitionLookup(parts: NodeUpdates, w: SubstateWrite)
    requires PartitionsOk(parts)
    ensures w in ExtractPartitions(w.key.node, parts) <==>
            SetValue(FindOr(parts, w.key.partition, Delta([])), w.key.sortKey) == Some(w.value)
  {
    PartitionsContents(w.key.node, parts, w);
    if w in ExtractPartitions(w.key.node, parts) {
      var e :| e in parts && w in ExtractPartition(w.key.node, e);
      PartitionMember(w.key.node, e, w);
      FindIsMember(parts, w.key.partition, e.value);
      FindIsMember(e.value.substates, w.key.sortKey, Set(w.value));
    }
    if Find(parts, w.key.partition).Some? {
      var partition := Find(parts, w.key.partition).value;
      FindIsMember(parts, w.key.partition, partition);
      FindIsMember(partition.substates, w.key.sortKey, Set(w.value));
      PartitionMember(w.key.node, Entry(w.key.partition, partition), w);
    }
  }

  /** Converting writes to updates and extracting them gives every key once, with the value
      of its last write: the same write map. */
  lemma RoundTripKeepsLastWrites(hash: NodeId -> HashPrefix, writes: seq<SubstateWrite>)
    ensures DistinctWrites(Extract(UpdatesOf(hash, writes)))
    ensures forall w :: w in Extract(UpdatesOf(hash, writes)) <==> LastValue(writes, w.key) == Some(w.value)
  {
    var updates := UpdatesOf(hash, writes);
    forall w ensures w in Extract(updates) <==> LastValue(writes, w.key) == Some(w.value) {
      UpdatesHoldLastValues(hash, writes, w.key);
      ExtractFindsValues(hash, updates, w);
    }
    UpdatesHoldLastValues(hash, writes, SubstateKey(seq(30, i => 0), 0, []));
    ExtractDistinct(hash, updates);
  }

  lemma {:induction false} LastValueOfDistinct(writes: seq<SubstateWrite>, w: SubstateWrite)
    requires DistinctWrites(writes)
    ensures LastValue(writes, w.key) == Some(w.value) <==> w in writes
    decreases |writes|
  {
    if writes != [] {
      var before, last := writes[..|writes| - 1], writes[|writes| - 1];
      LastValueOfDistinct(before, w);
      assert writes == before + [last];
    }
  }

  lemma {:induction false} OnceEach(writes: seq<SubstateWrite>, w: SubstateWrite)
    requires DistinctWrites(writes)
    ensures multiset(writes)[w] == if w in writes then 1 else 0
    decreases |writes|
  {
    if writes != [] {
      OnceEach(writes[1..], w);
      assert writes == [writes[0]] + writes[1..];
    }
  }

  /** Writes with distinct keys come back as the same writes, each exactly once. */
  lemma RoundTripOfDistinctWrites(hash: NodeId -> HashPrefix, writes: seq<SubstateWrite>)
    requires DistinctWrites(writes)
    ensures multiset(Extract(UpdatesOf(hash, writes))) == multiset(writes)
  {
    var back := Extract(UpdatesOf(hash, writes));
    RoundTripKeepsLastWrites(hash, writes);
    forall w ensures multiset(back)[w] == multiset(writes)[w] {
      LastValueOfDistinct(writes, w);
      OnceEach(writes, w);
      OnceEach(back, w);
    }
  }
}
