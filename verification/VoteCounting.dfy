/**
 Counting the votes for one block with deferred signature verification.

 Votes of other validators are buffered unverified until a quorum is possible, then
 sent as one batch to be verified; the verified ones come back and are counted.
 */
module VoteCounting {
  import opened Options
  import opened Quorum

  /** A vote as the set records it: who, when, and with how much power. */
  datatype Vote = Vote(index: nat, timestamp: nat, power: nat)

  function SumPower(votes: seq<Vote>): nat {
    if votes == [] then 0 else SumPower(votes[..|votes| - 1]) + votes[|votes| - 1].power
  }

  function SumWeightedTime(votes: seq<Vote>): nat {
    if votes == [] then 0
    else SumWeightedTime(votes[..|votes| - 1]) + votes[|votes| - 1].timestamp * votes[|votes| - 1].power
  }

  /** What a vote set holds, without its running totals. */
  datatype Tally = Tally(header: bool, verified: seq<Vote>, unverified: seq<Vote>, seen: seq<bool>, pending: bool, built: bool)

  predicate HasSeen(t: Tally, index: nat) {
    index < |t.seen| && t.seen[index]
  }

  function MarkSeen(seen: seq<bool>, index: nat): seq<bool> {
    if index < |seen| then seen[index := true] else seen
  }

  function Buffered(t: Tally, v: Vote): Tally {
    if HasSeen(t, v.index) then t
    else t.(unverified := t.unverified + [v], seen := MarkSeen(t.seen, v.index))
  }

  function AddedVerified(t: Tally, v: Vote): Tally {
    if HasSeen(t, v.index) then t
    else t.(verified := t.verified + [v], seen := MarkSeen(t.seen, v.index))
  }

  predicate ShouldTrigger(t: Tally, total: nat) {
    && !t.pending && !t.built && t.unverified != [] && t.header
    && HasQuorum(SumPower(t.verified) + SumPower(t.unverified), total)
  }

  class VoteSet {
    var hasHeader: bool
    var verifiedVotes: seq<Vote>
    var verifiedPower: nat
    var verifiedTimestampWeightSum: nat
    var unverifiedVotes: seq<Vote>
    var unverifiedPower: nat
    const seenValidators: array<bool>
    var pendingVerification: bool
    var qcBuilt: bool

    /** The running totals equal the sums over the votes they stand for. */
    ghost predicate Valid()
      reads this
    {
      && verifiedPower == SumPower(verifiedVotes)
      && verifiedTimestampWeightSum == SumWeightedTime(verifiedVotes)
      && unverifiedPower == SumPower(unverifiedVotes)
    }

    ghost function Value(): Tally
      reads this, seenValidators
    {
      Tally(hasHeader, verifiedVotes, unverifiedVotes, seenValidators[..], pendingVerification, qcBuilt)
    }

    constructor (hasHeader: bool, validators: nat)
      ensures Valid() && fresh(seenValidators)
      ensures Value() == Tally(hasHeader, [], [], seq(validators, i => false), false, false)
    {
      this.hasHeader := hasHeader;
      verifiedVotes, verifiedPower, verifiedTimestampWeightSum := [], 0, 0;
      unverifiedVotes, unverifiedPower := [], 0;
      seenValidators := new bool[validators](i => false);
      pendingVerification, qcBuilt := false, false;
    }

    method SetHeader()
      requires Valid()
      modifies this
      ensures Valid() && Value() == old(Value()).(header := true)
    {
      hasHeader := true;
    }

    predicate HasSeenValidator(index: nat)
      reads this, seenValidators
    {
      index < seenValidators.Length && seenValidators[index]
    }

    method BufferUnverifiedVote(v: Vote) returns (buffered: bool)
      requires Valid()
      modifies this, seenValidators
      ensures Valid() && Value() == Buffered(old(Value()), v) && buffered == !HasSeen(old(Value()), v.index)
    {
      if HasSeenValidator(v.index) {
        return false;
      }
      if v.index < seenValidators.Length {
        seenValidators[v.index] := true;
      }
      unverifiedPower := unverifiedPower + v.power;
      unverifiedVotes := unverifiedVotes + [v];
      return true;
    }

    method AddVerifiedVote(v: Vote) returns (added: bool)
      requires Valid()
      modifies this, seenValidators
      ensures Valid() && Value() == AddedVerified(old(Value()), v) && added == !HasSeen(old(Value()), v.index)
    {
      if HasSeenValidator(v.index) {
        return false;
      }
      if v.index < seenValidators.Length {
        seenValidators[v.index] := true;
      }
      verifiedTimestampWeightSum := verifiedTimestampWeightSum + v.timestamp * v.power;
      verifiedPower := verifiedPower + v.power;
      verifiedVotes := verifiedVotes + [v];
      return true;
    }

    method ShouldTriggerVerification(total: nat) returns (should: bool)
      requires Valid()
      ensures should == ShouldTrigger(Value(), total)
    {
      return !pendingVerification && !qcBuilt && unverifiedVotes != [] && hasHeader
        && HasQuorum(verifiedPower + unverifiedPower, total);
    }

    method TakeUnverifiedVotes() returns (batch: seq<Vote>)
      requires Valid()
      modifies this
      ensures Valid() && batch == old(unverifiedVotes)
      ensures Value() == old(Value()).(unverified := [], pending := true)
    {
      pendingVerification := true;
      unverifiedPower := 0;
      batch := unverifiedVotes;
      unverifiedVotes := [];
    }

    method OnQcBuilt()
      requires Valid()
      modifies this
      ensures Valid() && Value() == old(Value()).(built := true, pending := false)
    {
      qcBuilt, pendingVerification := true, false;
    }

    method OnVotesVerified(votes: seq<Vote>)
      requires Valid()
      modifies this
      ensures Valid() && Value() == old(Value()).(verified := old(verifiedVotes) + votes, pending := false)
    {
      pendingVerification := false;
      for i := 0 to |votes|
        invariant Valid() && verifiedVotes == old(verifiedVotes) + votes[..i] && !pendingVerification
        invariant hasHeader == old(hasHeader) && unverifiedVotes == old(unverifiedVotes) && qcBuilt == old(qcBuilt)
      {
        verifiedTimestampWeightSum := verifiedTimestampWeightSum + votes[i].timestamp * votes[i].power;
        verifiedPower := verifiedPower + votes[i].power;
        verifiedVotes := verifiedVotes + [votes[i]];
      }
    }
  }

  // ---- The handlers that drive a vote set ----

  function Triggered(t: Tally, total: nat): Tally {
    if ShouldTrigger(t, total) then t.(unverified := [], pending := true) else t
  }

  function Batch(t: Tally, total: nat): Option<seq<Vote>> {
    if ShouldTrigger(t, total) then Some(t.unverified) else None
  }

  /** A vote counts if its sender has power and has not voted for this block before. */
  predicate Counts(t: Tally, weights: seq<nat>, index: nat) {
    index < |weights| && weights[index] != 0 && !HasSeen(t, index)
  }

  function Added(t: Tally, v: Vote, own: bool): Tally {
    if own then AddedVerified(t, v) else Buffered(t, v)
  }

  method MaybeTriggerVoteVerification(voteSet: VoteSet, total: nat) returns (batch: Option<seq<Vote>>)
    requires voteSet.Valid()
    modifies voteSet
    ensures voteSet.Valid() && voteSet.Value() == Triggered(old(voteSet.Value()), total)
    ensures batch == Batch(old(voteSet.Value()), total)
  {
    var should := voteSet.ShouldTriggerVerification(total);
    if !should {
      return None;
    }
    var votes := voteSet.TakeUnverifiedVotes();
    return Some(votes);
  }

  /** A vote is looked at if its height is not committed and, unless it is our own, its sender's key is known. */
  predicate Admitted(height: nat, committed: nat, own: bool, keyKnown: bool) {
    height > committed && (own || keyKnown)
  }

  method OnBlockVote(voteSet: VoteSet, weights: seq<nat>, index: nat, timestamp: nat, own: bool,
                     height: nat, committed: nat, keyKnown: bool)
    returns (batch: Option<seq<Vote>>)
    requires voteSet.Valid()
    modifies voteSet, voteSet.seenValidators
    ensures voteSet.Valid()
    ensures !(Admitted(height, committed, own, keyKnown) && Counts(old(voteSet.Value()), weights, index)) ==>
              voteSet.Value() == old(voteSet.Value()) && batch == None
    ensures Admitted(height, committed, own, keyKnown) && Counts(old(voteSet.Value()), weights, index) ==>
              var t := Added(old(voteSet.Value()), Vote(index, timestamp, weights[index]), own);
              voteSet.Value() == Triggered(t, TotalPower(weights)) && batch == Batch(t, TotalPower(weights))
  {
    if height <= committed {
      return None;
    }
    if index >= |weights| || weights[index] == 0 {
      return None;
    }
    if !own && !keyKnown {
      return None;
    }
    if voteSet.HasSeenValidator(index) {
      return None;
    }
    var v := Vote(index, timestamp, weights[index]);
    if own {
      var _ := voteSet.AddVerifiedVote(v);
    } else {
      var _ := voteSet.BufferUnverifiedVote(v);
    }
    batch := MaybeTriggerVoteVerification(voteSet, TotalPower(weights));
  }

  method OnQcResult(voteSet: VoteSet, weights: seq<nat>, built: bool, valid: seq<Vote>) returns (batch: Option<seq<Vote>>)
    requires voteSet.Valid()
    modifies voteSet
    ensures voteSet.Valid()
    ensures built ==> voteSet.Value() == old(voteSet.Value()).(built := true, pending := false) && batch == None
    ensures !built ==>
              var t := old(voteSet.Value()).(verified := old(voteSet.verifiedVotes) + valid, pending := false);
              voteSet.Value() == Triggered(t, TotalPower(weights)) && batch == Batch(t, TotalPower(weights))
  {
    if built {
      voteSet.OnQcBuilt();
      return None;
    }
    voteSet.OnVotesVerified(valid);
    batch := MaybeTriggerVoteVerification(voteSet, TotalPower(weights));
  }
}
