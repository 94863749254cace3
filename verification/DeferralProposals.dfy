/**
 Deferrals from the livelock detector to the validators: what the proposer puts into a
 block, and the structural rules every validator applies to it.
 */
module DeferralProposals {
  import opened LivelockDetection
  import opened LivelockRuns
  import opened Quorum
  import opened Sequences

  /** Least power that makes a quorum. */
  function QuorumThreshold(total: nat): nat {
    total * 2 / 3 + 1
  }

  lemma ThresholdIsQuorum(power: nat, total: nat)
    ensures power >= QuorumThreshold(total) <==> HasQuorum(power, total)
  {
  }

  /** The proof's signers are counted by head and held against a threshold of voting power. */
  predicate EnoughSigners(x: Deferral, weightsOf: nat -> seq<nat>) {
    PassesHeadCount(x.proof.commitment.signers, weightsOf(x.proof.commitment.sourceShard))
  }

  predicate PassesHeadCount(signers: set<nat>, weights: seq<nat>) {
    |signers| >= QuorumThreshold(TotalPower(weights))
  }

  predicate Stale(x: Deferral, certified: set<nat>) {
    x.winner in certified || x.tx in certified
  }

  /** The proposer's three passes over the queued deferrals, in the order they are written. */
  method FilterDeferrals(deferred: seq<Deferral>, weightsOf: nat -> seq<nat>, height: nat, certificates: seq<nat>)
    returns (proposed: seq<Deferral>)
    ensures proposed == Proposed(deferred, weightsOf, height, ToSet(certificates))
  {
    var withHeight := [];
    for i := 0 to |deferred|
      invariant withHeight == WithHeight(deferred[..i], weightsOf, height)
    {
      assert deferred[..i + 1][..i] == deferred[..i];
      if EnoughSigners(deferred[i], weightsOf) {
        withHeight := withHeight + [deferred[i].(blockHeight := height)];
      }
    }
    assert deferred[..|deferred|] == deferred;
    var certified := {};
    for i := 0 to |certificates|
      invariant certified == ToSet(certificates[..i])
    {
      certified := certified + {certificates[i]};
    }
    assert certificates[..|certificates|] == certificates;
    proposed := [];
    for i := 0 to |withHeight|
      invariant proposed == NotStale(withHeight[..i], certified)
    {
      assert withHeight[..i + 1][..i] == withHeight[..i];
      if withHeight[i].winner !in certified && withHeight[i].tx !in certified {
        proposed := proposed + [withHeight[i]];
      }
    }
    assert withHeight[..|withHeight|] == withHeight;
  }

  function WithHeight(deferred: seq<Deferral>, weightsOf: nat -> seq<nat>, height: nat): seq<Deferral> {
    if deferred == [] then []
    else
      var x := deferred[|deferred| - 1];
      WithHeight(deferred[..|deferred| - 1], weightsOf, height)
      + if EnoughSigners(x, weightsOf) then [x.(blockHeight := height)] else []
  }

  function NotStale(deferred: seq<Deferral>, certified: set<nat>): seq<Deferral> {
    if deferred == [] then []
    else
      var x := deferred[|deferred| - 1];
      NotStale(deferred[..|deferred| - 1], certified) + if Stale(x, certified) then [] else [x]
  }

  function Proposed(deferred: seq<Deferral>, weightsOf: nat -> seq<nat>, height: nat, certified: set<nat>): seq<Deferral> {
    NotStale(WithHeight(deferred, weightsOf, height), certified)
  }

  /** The structural rules: the loser has the higher hash, neither transaction completes in
      the same block, and the proof is about the winner. */
  ghost predicate Acceptable(x: Deferral, certified: set<nat>) {
    x.tx > x.winner && x.winner !in certified && x.tx !in certified && x.proof.winner == x.winner
  }

  datatype AbortReason =
    | ExecutionTimeout(committedAt: nat)
    | TooManyRetries(retryCount: nat)
    | ExecutionRejected

  datatype Abort = Abort(tx: nat, reason: AbortReason, blockHeight: nat)

  /** A timeout lies after the commit, and retries have been made. */
  predicate AcceptableAbort(x: Abort) {
    match x.reason
    case ExecutionTimeout(committedAt) => x.blockHeight >= committedAt
    case TooManyRetries(count) => count != 0
    case ExecutionRejected => true
  }

  method ValidateDeferralsAndAborts(deferred: seq<Deferral>, aborted: seq<Abort>, certificates: seq<nat>) returns (ok: bool)
    ensures ok <==> (forall x :: x in deferred ==> Acceptable(x, ToSet(certificates))) && forall x :: x in aborted ==> AcceptableAbort(x)
    ensures ok ==> forall x :: x in deferred ==>
              x.winner < x.tx && x.winner !in certificates && x.tx !in certificates && x.proof.winner == x.winner
    ensures ok ==> forall x :: x in aborted ==>
              x.reason != TooManyRetries(0) && (x.reason.ExecutionTimeout? ==> x.reason.committedAt <= x.blockHeight)
  {
    var certified := ToSet(certificates);
    for i := 0 to |deferred|
      invariant forall k :: 0 <= k < i ==> Acceptable(deferred[k], certified)
    {
      var x := deferred[i];
      assert x in deferred;
      if x.tx <= x.winner {
        return false;
      }
      if x.winner in certified {
        return false;
      }
      if x.tx in certified {
        return false;
      }
      if x.proof.winner != x.winner {
        return false;
      }
    }
    for i := 0 to |aborted|
      invariant forall k :: 0 <= k < i ==> AcceptableAbort(aborted[k])
    {
      assert aborted[i] in aborted;
      match aborted[i].reason
      case ExecutionTimeout(committedAt) => if aborted[i].blockHeight < committedAt { return false; }
      case TooManyRetries(count) => if count == 0 { return false; }
      case ExecutionRejected =>
    }
    return true;
  }

  lemma {:induction false} WithHeightContents(deferred: seq<Deferral>, weightsOf: nat -> seq<nat>, height: nat, y: Deferral)
    ensures y in WithHeight(deferred, weightsOf, height) <==>
            exists x :: x in deferred && EnoughSigners(x, weightsOf) && y == x.(blockHeight := height)
    decreases |deferred|
  {
    if deferred != [] {
      WithHeightContents(deferred[..|deferred| - 1], weightsOf, height, y);
      assert deferred == deferred[..|deferred| - 1] + [deferred[|deferred| - 1]];
    }
  }

  lemma {:induction false} NotStaleContents(deferred: seq<Deferral>, certified: set<nat>, y: Deferral)
    ensures y in NotStale(deferred, certified) <==> y in deferred && !Stale(y, certified)
    decreases |deferred|
  {
    if deferred != [] {
      NotStaleContents(deferred[..|deferred| - 1], certified, y);
      assert deferred == deferred[..|deferred| - 1] + [deferred[|deferred| - 1]];
    }
  }

  /** The proposer keeps exactly the deferrals whose signers pass the head count and that are not
      stale in this block. */
  lemma ProposedContents(deferred: seq<Deferral>, weightsOf: nat -> seq<nat>, height: nat, certified: set<nat>, y: Deferral)
    ensures y in Proposed(deferred, weightsOf, height, certified) <==>
            exists x :: x in deferred && y == x.(blockHeight := height) && !Stale(x, certified) && EnoughSigners(x, weightsOf)
  {
    WithHeightContents(deferred, weightsOf, height, y);
    NotStaleContents(WithHeight(deferred, weightsOf, height), certified, y);
  }

  lemma {:induction false} WithHeightConcat(a: seq<Deferral>, b: seq<Deferral>, weightsOf: nat -> seq<nat>, height: nat)
    ensures WithHeight(a + b, weightsOf, height) == WithHeight(a, weightsOf, height) + WithHeight(b, weightsOf, height)
    decreases |b|
  {
    if b == [] {
      assert a + b == a;
    } else {
      WithHeightConcat(a, b[..|b| - 1], weightsOf, height);
      assert (a + b)[..|a + b| - 1] == a + b[..|b| - 1];
    }
  }

  lemma {:induction false} NotStaleConcat(a: seq<Deferral>, b: seq<Deferral>, certified: set<nat>)
    ensures NotStale(a + b, certified) == NotStale(a, certified) + NotStale(b, certified)
    decreases |b|
  {
    if b == [] {
      assert a + b == a;
    } else {
      NotStaleConcat(a, b[..|b| - 1], certified);
      assert (a + b)[..|a + b| - 1] == a + b[..|b| - 1];
    }
  }

  /** The proposer goes through the queue in order, and takes each deferral once or not at all. */
  lemma ProposedInOrder(before: seq<Deferral>, x: Deferral, after: seq<Deferral>, weightsOf: nat -> seq<nat>, height: nat, certified: set<nat>)
    ensures Proposed(before + [x] + after, weightsOf, height, certified) ==
            Proposed(before, weightsOf, height, certified)
            + (if EnoughSigners(x, weightsOf) && x.winner !in certified && x.tx !in certified then [x.(blockHeight := height)] else [])
            + Proposed(after, weightsOf, height, certified)
  {
    WithHeightConcat(before + [x], after, weightsOf, height);
    WithHeightConcat(before, [x], weightsOf, height);
    var one := WithHeight([x], weightsOf, height);
    assert [x][..0] == [];
    assert one == if EnoughSigners(x, weightsOf) then [x.(blockHeight := height)] else [];
    NotStaleConcat(WithHeight(before, weightsOf, height) + one, WithHeight(after, weightsOf, height), certified);
    NotStaleConcat(WithHeight(before, weightsOf, height), one, certified);
    assert NotStale(one, certified) == if one == [] || Stale(one[0], certified) then [] else one by {
      assert one != [] ==> one[..0] == [];
    }
  }

  // ---- Counting heads against power ----

  ghost predicate StakeQuorum(signers: set<nat>, weights: seq<nat>) {
    HasQuorum(Power(weights, signers), TotalPower(weights))
  }

  /** For every set of committee members the head count decides like a quorum of stake. */
  ghost predicate HeadCountIsStake(weights: seq<nat>) {
    forall signers :: signers <= Indices(|weights|) ==> (PassesHeadCount(signers, weights) <==> StakeQuorum(signers, weights))
  }

  ghost predicate UnitWeights(weights: seq<nat>) {
    forall i :: 0 <= i < |weights| ==> weights[i] == 1
  }

  /** With positive weights, signers that pass the head count do hold a quorum of stake. */
  lemma HeadCountImpliesStake(signers: set<nat>, weights: seq<nat>)
    requires signers <= Indices(|weights|) && forall i :: 0 <= i < |weights| ==> weights[i] >= 1
    requires PassesHeadCount(signers, weights)
    ensures StakeQuorum(signers, weights)
  {
    IndicesAre(|weights|);
    PowerAtLeastHeads(weights, signers);
  }

  /** Four members of weight ten: all of them sign, and the proof is still refused. */
  lemma FullCommitteeIsRefused()
    ensures !PassesHeadCount({0, 1, 2, 3}, [10, 10, 10, 10]) && StakeQuorum({0, 1, 2, 3}, [10, 10, 10, 10])
  {
    var weights: seq<nat> := [10, 10, 10, 10];
    assert weights[..3] == [10, 10, 10] && [10, 10, 10][..2] == [10, 10] && [10, 10][..1] == [10] && [10][..0] == [];
    assert TotalPower([10]) == 10 && TotalPower([10, 10]) == 20 && TotalPower([10, 10, 10]) == 30 && TotalPower(weights) == 40;
    assert Power([10], {0, 1, 2, 3}) == 10 && Power([10, 10], {0, 1, 2, 3}) == 20;
    assert Power([10, 10, 10], {0, 1, 2, 3}) == 30 && Power(weights, {0, 1, 2, 3}) == 40;
    assert |{0, 1, 2, 3}| == 4;
  }

  lemma {:induction false} SomeOf(members: set<nat>, n: nat) returns (some: set<nat>)
    requires n <= |members|
    ensures some <= members && |some| == n
    decreases n
  {
    if n == 0 {
      return {};
    }
    var i :| i in members;
    var rest := SomeOf(members - {i}, n - 1);
    some := rest + {i};
  }

  lemma {:induction false} PowerOfAll(weights: seq<nat>, members: set<nat>)
    requires forall i: nat :: i < |weights| ==> i in members
    ensures Power(weights, members) == TotalPower(weights)
    decreases |weights|
  {
    if weights != [] {
      PowerOfAll(weights[..|weights| - 1], members);
    }
  }

  /** The largest head count that fails. */
  function Failing(weights: seq<nat>): nat {
    TotalPower(weights) * 2 / 3
  }

  lemma EnoughMembers(weights: seq<nat>)
    requires HeadCountIsStake(weights) && weights != []
    ensures |weights| > Failing(weights)
  {
    var all := Indices(|weights|);
    IndicesAre(|weights|);
    PowerOfAll(weights, all);
    ThresholdIsQuorum(|all|, TotalPower(weights));
    assert PassesHeadCount(all, weights) <==> StakeQuorum(all, weights);
  }

  /** No member is without weight: adding it to a failing head count makes a quorum. */
  lemma EveryMemberWeighs(weights: seq<nat>, j: nat)
    requires HeadCountIsStake(weights) && j < |weights|
    ensures weights[j] >= 1
  {
    IndicesAre(|weights|);
    EnoughMembers(weights);
    var some := SomeOf(Indices(|weights|) - {j}, Failing(weights));
    assert PassesHeadCount(some, weights) <==> StakeQuorum(some, weights);
    assert PassesHeadCount(some + {j}, weights) <==> StakeQuorum(some + {j}, weights);
    PowerOfMore(weights, some, j);
  }

  /** And no member weighs more than one: a failing head count containing it is no quorum. */
  lemma NoMemberWeighsMore(weights: seq<nat>, j: nat)
    requires HeadCountIsStake(weights) && j < |weights|
    requires forall i :: 0 <= i < |weights| ==> weights[i] >= 1
    ensures weights[j] == 1
  {
    IndicesAre(|weights|);
    EnoughMembers(weights);
    var k := Failing(weights);
    if k == 0 {
      OneMember(weights, j);
    } else {
      var some := SomeOf(Indices(|weights|) - {j}, k - 1);
      assert PassesHeadCount(some + {j}, weights) <==> StakeQuorum(some + {j}, weights);
      PowerAtLeastHeads(weights, some);
      PowerOfMore(weights, some, j);
    }
  }

  lemma OneMember(weights: seq<nat>, j: nat)
    requires j < |weights| && weights[j] >= 1 && TotalPower(weights) <= 1
    ensures weights[j] == 1
  {
    PowerOfOne(weights, j);
    PowerAtMostTotal(weights, {j});
  }

  /** The head count decides like a quorum of stake for every set of signers if and only if every
      member of the source shard's committee has weight one. */
  lemma HeadCountIsStakeIffUnitWeights(weights: seq<nat>)
    ensures HeadCountIsStake(weights) <==> UnitWeights(weights)
  {
    if HeadCountIsStake(weights) {
      forall j | 0 <= j < |weights| ensures weights[j] >= 1 {
        EveryMemberWeighs(weights, j);
      }
      forall j | 0 <= j < |weights| ensures weights[j] == 1 {
        NoMemberWeighsMore(weights, j);
      }
    }
    if UnitWeights(weights) {
      IndicesAre(|weights|);
      forall signers | signers <= Indices(|weights|) ensures PassesHeadCount(signers, weights) <==> StakeQuorum(signers, weights) {
        UnitPowerIsHeads(weights, signers);
        ThresholdIsQuorum(|signers|, TotalPower(weights));
      }
    }
  }

  /** Whatever proposers do, the deferrals of accepted blocks never form a cycle. */
  lemma AcceptedDeferralsNeverCycle(history: set<Deferral>, certifiedIn: Deferral -> set<nat>, path: seq<nat>)
    requires (forall x :: x in history ==> Acceptable(x, certifiedIn(x))) && Chain(history, path)
    ensures path[|path| - 1] < path[0]
  {
    var pointed := set x | x in history :: x.(blockHeight := 0);
    forall k | 0 <= k < |path| - 1 ensures DefersTo(pointed, path[k], path[k + 1]) {
      assert DefersTo(history, path[k], path[k + 1]);
      var x :| x in history && x.tx == path[k] && x.winner == path[k + 1];
      assert x.(blockHeight := 0) in pointed;
    }
    ChainsDescend(pointed, path);
  }

  /** What any shard's detector has queued in any reachable state, filtered by the proposer
      for any certificate list, passes every structural rule at the validators, even if
      certificates are dropped from the block afterwards. */
  lemma ProposalsAreAcceptable(n: Network, run: seq<System>, local: nat, weightsOf: nat -> seq<nat>, height: nat,
                               certified: set<nat>, kept: set<nat>)
    requires IsRun(n, run) && local < |run[|run| - 1].shards| && kept <= certified
    ensures forall y :: y in Proposed(run[|run| - 1].shards[local].pending, weightsOf, height, certified) ==>
                        Acceptable(y, kept) && y.blockHeight == height && EnoughSigners(y, weightsOf)
  {
    RunKeepsInv(n, run);
    var pending := run[|run| - 1].shards[local].pending;
    forall y | y in Proposed(pending, weightsOf, height, certified)
      ensures Acceptable(y, kept) && y.blockHeight == height && EnoughSigners(y, weightsOf)
    {
      WithHeightContents(pending, weightsOf, height, y);
      NotStaleContents(WithHeight(pending, weightsOf, height), certified, y);
    }
  }
}
