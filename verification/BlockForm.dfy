/**
 The ordering check on proposed blocks is a canonical-form check: for a given set of
 transactions and proofs exactly one block passes it.
 */
module BlockForm {
  import opened Sequences

  /** Transactions are named by their hashes; a hash determines its transaction, so whether
      it is a retry is a function of the hash. */
  datatype Sections = Sections(retry: seq<nat>, priority: seq<nat>, other: seq<nat>)

  datatype Section = Retry | Priority | Other

  datatype OrderingError =
    | NotSorted(section: Section)
    | NotARetry(hash: nat)
    | MisplacedRetry(section: Section, hash: nat)
    | NoProof(hash: nat)
    | UnexpectedProof(hash: nat)

  datatype Outcome = Ok | Err(error: OrderingError)

  ghost predicate StrictlyIncreasing(hashes: seq<nat>) {
    forall i, j :: 0 <= i < j < |hashes| ==> hashes[i] < hashes[j]
  }

  function Of(s: Sections, section: Section): seq<nat> {
    match section
    case Retry => s.retry
    case Priority => s.priority
    case Other => s.other
  }

  /** The section a transaction belongs to. */
  function Home(isRetry: nat -> bool, proofs: set<nat>, hash: nat): Section {
    if isRetry(hash) then Retry else if hash in proofs then Priority else Other
  }

  /** Every section is in strict hash order and holds only transactions that belong there. */
  ghost predicate Canonical(isRetry: nat -> bool, proofs: set<nat>, s: Sections) {
    forall section :: StrictlyIncreasing(Of(s, section)) &&
                      forall h :: h in Of(s, section) ==> Home(isRetry, proofs, h) == section
  }

  ghost predicate Violates(isRetry: nat -> bool, proofs: set<nat>, s: Sections, e: OrderingError) {
    match e
    case NotSorted(section) => !StrictlyIncreasing(Of(s, section))
    case NotARetry(h) => h in s.retry && !isRetry(h)
    case MisplacedRetry(section, h) => section != Retry && h in Of(s, section) && isRetry(h)
    case NoProof(h) => h in s.priority && h !in proofs
    case UnexpectedProof(h) => h in s.other && h in proofs
  }

  /** Adjacent pairs suffice. */
  method VerifyHashSorted(hashes: seq<nat>) returns (sorted: bool)
    ensures sorted <==> StrictlyIncreasing(hashes)
  {
    var i := 1;
    while i < |hashes|
      invariant 1 <= i && (i <= |hashes| ==> StrictlyIncreasing(hashes[..i]))
      invariant |hashes| < i ==> i == 1
    {
      if hashes[i - 1] >= hashes[i] {
        return false;
      }
      assert forall k :: 0 <= k < i ==> hashes[..i][k] <= hashes[i - 1];
      i := i + 1;
    }
    assert hashes != [] ==> hashes[..i] == hashes;
    return true;
  }

  method ValidateTransactionOrdering(isRetry: nat -> bool, proofs: set<nat>, s: Sections) returns (outcome: Outcome)
    ensures outcome == Ok <==> Canonical(isRetry, proofs, s)
    ensures outcome.Err? ==> Violates(isRetry, proofs, s, outcome.error)
  {
    outcome := VerifySorted(s);
    if outcome.Err? {
      return;
    }
    outcome := VerifyPlaces(isRetry, proofs, s);
  }

  method VerifySorted(s: Sections) returns (outcome: Outcome)
    ensures outcome == Ok <==> forall section :: StrictlyIncreasing(Of(s, section))
    ensures outcome.Err? ==> outcome.error.NotSorted? && !StrictlyIncreasing(Of(s, outcome.error.section))
  {
    var retrySorted := VerifyHashSorted(s.retry);
    if !retrySorted {
      assert Of(s, Retry) == s.retry;
      return Err(NotSorted(Retry));
    }
    var prioritySorted := VerifyHashSorted(s.priority);
    if !prioritySorted {
      assert Of(s, Priority) == s.priority;
      return Err(NotSorted(Priority));
    }
    var otherSorted := VerifyHashSorted(s.other);
    if !otherSorted {
      assert Of(s, Other) == s.other;
      return Err(NotSorted(Other));
    }
    return Ok;
  }

  method VerifyPlaces(isRetry: nat -> bool, proofs: set<nat>, s: Sections) returns (outcome: Outcome)
    ensures outcome == Ok <==> forall section, h :: h in Of(s, section) ==> Home(isRetry, proofs, h) == section
    ensures outcome.Err? ==> Violates(isRetry, proofs, s, outcome.error)
  {
    for i := 0 to |s.retry|
      invariant forall k :: 0 <= k < i ==> Home(isRetry, proofs, s.retry[k]) == Retry
    {
      if !isRetry(s.retry[i]) {
        assert s.retry[i] in Of(s, Retry) && Home(isRetry, proofs, s.retry[i]) != Retry;
        return Err(NotARetry(s.retry[i]));
      }
    }
    for i := 0 to |s.priority|
      invariant forall k :: 0 <= k < i ==> Home(isRetry, proofs, s.priority[k]) == Priority
    {
      assert s.priority[i] in Of(s, Priority);
      if isRetry(s.priority[i]) {
        assert Home(isRetry, proofs, s.priority[i]) == Retry;
        return Err(MisplacedRetry(Priority, s.priority[i]));
      }
      if s.priority[i] !in proofs {
        assert Home(isRetry, proofs, s.priority[i]) == Other;
        return Err(NoProof(s.priority[i]));
      }
    }
    for i := 0 to |s.other|
      invariant forall k :: 0 <= k < i ==> Home(isRetry, proofs, s.other[k]) == Other
    {
      assert s.other[i] in Of(s, Other);
      if isRetry(s.other[i]) {
        assert Home(isRetry, proofs, s.other[i]) == Retry;
        return Err(MisplacedRetry(Other, s.other[i]));
      }
      if s.other[i] in proofs {
        assert Home(isRetry, proofs, s.other[i]) == Priority;
        return Err(UnexpectedProof(s.other[i]));
      }
    }
    return Ok;
  }

  // ---- Exactly one block per transaction set ----

  function Transactions(s: Sections): set<nat> {
    set h | h in s.retry + s.priority + s.other
  }

  lemma CanonicalHasNoRepeats(isRetry: nat -> bool, proofs: set<nat>, s: Sections)
    requires Canonical(isRetry, proofs, s)
    ensures NoRepeats(s.retry + s.priority + s.other)
  {
    var all := s.retry + s.priority + s.other;
    forall i, j | 0 <= i < j < |all| ensures all[i] != all[j] {
      var a := SectionAt(s, i);
      var b := SectionAt(s, j);
      if a != b {
        assert Home(isRetry, proofs, all[i]) != Home(isRetry, proofs, all[j]);
      }
    }
    assert StrictlyIncreasing(Of(s, Retry)) && StrictlyIncreasing(Of(s, Priority)) && StrictlyIncreasing(Of(s, Other));
  }

  lemma SectionAt(s: Sections, i: nat) returns (section: Section)
    requires i < |s.retry + s.priority + s.other|
    ensures (s.retry + s.priority + s.other)[i] in Of(s, section)
    ensures section == if i < |s.retry| then Retry else if i < |s.retry| + |s.priority| then Priority else Other
  {
    section := if i < |s.retry| then Retry else if i < |s.retry| + |s.priority| then Priority else Other;
  }

  lemma SomeMember(hashes: seq<nat>)
    ensures hashes != [] ==> exists h :: h in hashes
  {
    if hashes != [] {
      assert hashes[0] in hashes;
    }
  }

  lemma {:induction false} IncreasingIsUnique(a: seq<nat>, b: seq<nat>)
    requires StrictlyIncreasing(a) && StrictlyIncreasing(b)
    requires forall h :: h in a <==> h in b
    ensures a == b
    decreases |a|
  {
    SomeMember(a);
    SomeMember(b);
    if a != [] {
      assert a[0] in b && b[0] in a;
      assert a == [a[0]] + a[1..] && b == [b[0]] + b[1..];
      assert a[0] == b[0];
      forall h ensures h in a[1..] <==> h in b[1..] {
        assert h in a[1..] <==> h in a && h != a[0];
        assert h in b[1..] <==> h in b && h != b[0];
      }
      IncreasingIsUnique(a[1..], b[1..]);
    }
  }

  /** Two accepted blocks with the same transactions and the same proofs are the same block. */
  lemma CanonicalIsUnique(isRetry: nat -> bool, proofs: set<nat>, s: Sections, t: Sections)
    requires Canonical(isRetry, proofs, s) && Canonical(isRetry, proofs, t)
    requires Transactions(s) == Transactions(t)
    ensures s == t
  {
    forall section ensures Of(s, section) == Of(t, section) {
      forall h ensures h in Of(s, section) <==> h in Of(t, section) {
        InSection(isRetry, proofs, s, section, h);
        InSection(isRetry, proofs, t, section, h);
      }
      IncreasingIsUnique(Of(s, section), Of(t, section));
    }
    assert Of(s, Retry) == Of(t, Retry) && Of(s, Priority) == Of(t, Priority) && Of(s, Other) == Of(t, Other);
  }

  lemma InSection(isRetry: nat -> bool, proofs: set<nat>, s: Sections, section: Section, h: nat)
    requires Canonical(isRetry, proofs, s)
    ensures h in Of(s, section) <==> h in Transactions(s) && Home(isRetry, proofs, h) == section
  {
    assert h in Transactions(s) <==> h in Of(s, Retry) || h in Of(s, Priority) || h in Of(s, Other);
  }

  lemma {:induction false} InOrder(hashes: set<nat>) returns (sorted: seq<nat>)
    ensures StrictlyIncreasing(sorted) && forall h :: h in sorted <==> h in hashes
    decreases hashes
  {
    if hashes == {} {
      return [];
    }
    var low := Least(hashes);
    var rest := InOrder(hashes - {low});
    sorted := [low] + rest;
    assert forall j :: 0 <= j < |rest| ==> rest[j] in rest;
  }

  lemma {:induction false} Least(hashes: set<nat>) returns (low: nat)
    requires hashes != {}
    ensures low in hashes && forall h :: h in hashes ==> low <= h
    decreases hashes
  {
    var some :| some in hashes;
    low := some;
    assert forall h :: h in hashes ==> h == some || h in hashes - {some};
    if hashes - {some} != {} {
      var other := Least(hashes - {some});
      low := if other < some then other else some;
    }
  }

  /** Every set of transactions has an accepted arrangement. */
  lemma CanonicalExists(isRetry: nat -> bool, proofs: set<nat>, txs: set<nat>) returns (s: Sections)
    ensures Canonical(isRetry, proofs, s) && Transactions(s) == txs
  {
    var retry := InOrder(set h | h in txs && Home(isRetry, proofs, h) == Retry);
    var priority := InOrder(set h | h in txs && Home(isRetry, proofs, h) == Priority);
    var other := InOrder(set h | h in txs && Home(isRetry, proofs, h) == Other);
    s := Sections(retry, priority, other);
    forall section
      ensures StrictlyIncreasing(Of(s, section)) && forall h :: h in Of(s, section) ==> Home(isRetry, proofs, h) == section
    {
      assert Of(s, section) == match section case Retry => retry case Priority => priority case Other => other;
    }
    forall h ensures h in Transactions(s) <==> h in txs {
      InSection(isRetry, proofs, s, Home(isRetry, proofs, h), h);
    }
  }
}
