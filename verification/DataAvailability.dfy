/**
 Data availability before voting: every path by which a validator votes, directly or from
 a callback, votes only for a block whose listed transactions and certificates it has.
 */
module DataAvailability {
  import opened Options

  datatype Item = Transaction(hash: nat) | Certificate(hash: nat)

  /** What the gossip lists for a block; `wellFormed` is the outcome of the content checks. */
  datatype Listing = Listing(items: set<Item>, deferrals: nat, wellFormed: bool) {
    predicate HasCertificates() { exists x :: x in items && x.Certificate? }
    predicate HasTransactions() { exists x :: x in items && x.Transaction? }
  }

  datatype Pending = Pending(listing: Listing, missing: set<Item>, constructed: bool)

  datatype Progress = Progress(total: nat, done: nat, allValid: bool)

  function Answered(p: Progress, valid: bool): Progress {
    Progress(p.total, p.done + 1, p.allValid && valid)
  }

  datatype Root = StateRoot | TransactionRoot

  /** A vote, with everything the validator had received when it cast it. */
  datatype CastVote = CastVote(hash: nat, had: set<Item>)

  lemma NothingLeft(a: set<Item>, b: set<Item>)
    ensures a - b == {} <==> a <= b
  {
    assert forall x :: x in a ==> x in b || x in a - b;
  }

  // ---- The lock at a height ----

  /** A vote goes through the lock check, or around it: at the end of a block's checks, or for an
      own proposal. */
  datatype How = Direct | Callback(listing: Listing) | Own

  /** What happens to the lock: a vote; a release of one
      height; a commit that prunes all heights up to it. */
  datatype Entry = Voted(vote: CastVote, how: How) | Unlocked(height: nat) | Pruned(committed: nat)

  predicate Releases(e: Entry, h: nat) {
    (e.Unlocked? && e.height == h) || (e.Pruned? && h <= e.committed)
  }

  ghost predicate ReleasedBetween(log: seq<Entry>, i: int, j: int, h: nat) {
    exists k :: i < k < j && 0 <= k < |log| && Releases(log[k], h)
  }

  ghost predicate VotedAt(log: seq<Entry>, i: int, heightOf: nat -> nat, h: nat) {
    0 <= i < |log| && log[i].Voted? && heightOf(log[i].vote.hash) == h
  }

  function LocksAbove(locks: map<nat, nat>, committed: nat): map<nat, nat> {
    map h | h in locks && h > committed :: locks[h]
  }

  /** The locks after an entry. */
  function Applied(locks: map<nat, nat>, e: Entry, heightOf: nat -> nat): map<nat, nat> {
    match e
    case Voted(v, _) => locks[heightOf(v.hash) := v.hash]
    case Unlocked(height) => locks - {height}
    case Pruned(committed) => LocksAbove(locks, committed)
  }

  /** The locks after a whole log. */
  function LocksOf(log: seq<Entry>, heightOf: nat -> nat): map<nat, nat> {
    if log == [] then map[] else Applied(LocksOf(log[..|log| - 1], heightOf), log[|log| - 1], heightOf)
  }

  /** Every vote through the lock check found its height unlocked. */
  predicate ChecksHeld(log: seq<Entry>, heightOf: nat -> nat) {
    log == [] ||
    (var e := log[|log| - 1];
     && ChecksHeld(log[..|log| - 1], heightOf)
     && (e.Voted? && e.how.Direct? ==> heightOf(e.vote.hash) !in LocksOf(log[..|log| - 1], heightOf)))
  }

  /** The votes in a log. */
  function VotesIn(log: seq<Entry>): seq<CastVote> {
    if log == [] then []
    else VotesIn(log[..|log| - 1]) + if log[|log| - 1].Voted? then [log[|log| - 1].vote] else []
  }

  lemma LogGrows(log: seq<Entry>, e: Entry, heightOf: nat -> nat)
    ensures LocksOf(log + [e], heightOf) == Applied(LocksOf(log, heightOf), e, heightOf)
    ensures ChecksHeld(log + [e], heightOf) <==>
            ChecksHeld(log, heightOf) && (e.Voted? && e.how.Direct? ==> heightOf(e.vote.hash) !in LocksOf(log, heightOf))
    ensures VotesIn(log + [e]) == VotesIn(log) + if e.Voted? then [e.vote] else []
  {
    assert (log + [e])[..|log|] == log;
  }

  /** A voted height stays locked until it is released. */
  lemma {:induction false} LockedUntilReleased(log: seq<Entry>, heightOf: nat -> nat, i: int, h: nat)
    requires VotedAt(log, i, heightOf, h) && h !in LocksOf(log, heightOf)
    ensures ReleasedBetween(log, i, |log|, h)
  {
    var last := |log| - 1;
    assert LocksOf(log, heightOf) == Applied(LocksOf(log[..last], heightOf), log[last], heightOf);
    if h in LocksOf(log[..last], heightOf) || i == last {
      assert Releases(log[last], h);
    } else {
      assert VotedAt(log[..last], i, heightOf, h);
      LockedUntilReleased(log[..last], heightOf, i, h);
    }
  }

  /** So a vote through the lock check comes only after a release of every earlier vote at its
      height. */
  lemma {:induction false} VotesSeparated(log: seq<Entry>, heightOf: nat -> nat, i: int, j: int, h: nat)
    requires ChecksHeld(log, heightOf) && i < j
    requires VotedAt(log, i, heightOf, h) && VotedAt(log, j, heightOf, h) && log[j].how.Direct?
    ensures ReleasedBetween(log, i, j, h)
  {
    var last := |log| - 1;
    assert VotedAt(log[..last], i, heightOf, h);
    if j == last {
      LockedUntilReleased(log[..last], heightOf, i, h);
    } else {
      assert VotedAt(log[..last], j, heightOf, h);
      VotesSeparated(log[..last], heightOf, i, j, h);
    }
  }

  /** Every check the block needs was answered valid. */
  predicate AllAnswered(hash: nat, listing: Listing, roots: set<(nat, Root)>, cycles: set<nat>) {
    && (listing.HasCertificates() ==> (hash, StateRoot) in roots)
    && (listing.HasTransactions() ==> (hash, TransactionRoot) in roots)
    && (listing.deferrals > 0 ==> hash in cycles)
  }

  predicate EntryAnswered(e: Entry, roots: set<(nat, Root)>, cycles: set<nat>) {
    e.Voted? && e.how.Callback? ==> AllAnswered(e.vote.hash, e.how.listing, roots, cycles)
  }

  /** A vote at the end of a block's checks came after valid answers to all of them. */
  predicate CallbacksAnswered(log: seq<Entry>, roots: set<(nat, Root)>, cycles: set<nat>) {
    log == [] || (CallbacksAnswered(log[..|log| - 1], roots, cycles) && EntryAnswered(log[|log| - 1], roots, cycles))
  }

  lemma {:induction false} MoreAnswers(log: seq<Entry>, roots: set<(nat, Root)>, cycles: set<nat>, roots': set<(nat, Root)>, cycles': set<nat>)
    requires CallbacksAnswered(log, roots, cycles) && roots <= roots' && cycles <= cycles'
    ensures CallbacksAnswered(log, roots', cycles')
    decreases |log|
  {
    if log != [] {
      MoreAnswers(log[..|log| - 1], roots, cycles, roots', cycles');
    }
  }

  lemma OneMoreAnswered(log: seq<Entry>, e: Entry, roots: set<(nat, Root)>, cycles: set<nat>)
    ensures CallbacksAnswered(log + [e], roots, cycles) <==> CallbacksAnswered(log, roots, cycles) && EntryAnswered(e, roots, cycles)
  {
    assert (log + [e])[..|log|] == log;
  }

  lemma {:induction false} CallbackWasAnswered(log: seq<Entry>, e: Entry, roots: set<(nat, Root)>, cycles: set<nat>)
    requires CallbacksAnswered(log, roots, cycles) && e in log
    ensures EntryAnswered(e, roots, cycles)
    decreases |log|
  {
    if e != log[|log| - 1] {
      assert e in log[..|log| - 1];
      CallbackWasAnswered(log[..|log| - 1], e, roots, cycles);
    }
  }

  class Validator {
    // A block hash determines its header: height and parent certificate (`None` is genesis).
    const heightOf: nat -> nat
    const parentQcOf: nat -> Option<nat>

    var votedHeights: map<nat, nat>
    var pendingBlocks: map<nat, Pending>
    var pendingQcVerifications: set<nat>
    var verifiedQcs: set<nat>
    var pendingCycleProofs: map<nat, Progress>
    var verifiedCycleProofs: set<nat>
    // State root checks in flight or queued, and transaction root checks in flight.
    var rootsUnderWay: set<(nat, Root)>
    var verifiedRoots: set<(nat, Root)>

    // History: items received, listings seen per block, and votes cast.
    ghost var received: set<Item>
    ghost var listed: set<(nat, set<Item>)>
    ghost var votes: seq<CastVote>
    ghost var log: seq<Entry>
    // The root checks answered valid so far, and the blocks all of whose cycle proofs were.
    ghost var validRoots: set<(nat, Root)>
    ghost var validCycles: set<nat>

    ghost predicate Available(hash: nat)
      reads `received, `listed
    {
      exists items :: (hash, items) in listed && items <= received
    }

    ghost predicate Backed(v: CastVote)
      reads `received, `listed
    {
      v.had <= received && exists items :: (v.hash, items) in listed && items <= v.had
    }

    ghost predicate Valid()
      reads `pendingBlocks, `pendingQcVerifications, `votes, `received, `listed, `votedHeights, `log
      reads `verifiedRoots, `verifiedCycleProofs, `validRoots, `validCycles
    {
      LocksKept() && BlocksSound() && AskedAvailable() && VotesBacked() && ChecksAnswered()
    }

    ghost predicate ChecksAnswered()
      reads `log, `verifiedRoots, `verifiedCycleProofs, `validRoots, `validCycles
    {
      && verifiedRoots <= validRoots && verifiedCycleProofs <= validCycles
      && CallbacksAnswered(log, validRoots, validCycles)
    }

    ghost predicate BlocksSound()
      reads `pendingBlocks, `received, `listed
    {
      forall h :: h in pendingBlocks ==> Sound(h, pendingBlocks[h])
    }

    ghost predicate AskedAvailable()
      reads `pendingQcVerifications, `received, `listed
    {
      forall h :: h in pendingQcVerifications ==> Available(h)
    }

    ghost predicate VotesBacked()
      reads `votes, `received, `listed
    {
      forall v :: v in votes ==> Backed(v)
    }

    ghost predicate LocksKept()
      reads `votedHeights, `votes, `log
    {
      votedHeights == LocksOf(log, heightOf) && ChecksHeld(log, heightOf) && VotesIn(log) == votes
    }

    ghost predicate Sound(hash: nat, p: Pending)
      reads `received, `listed
    {
      && (hash, p.listing.items) in listed
      && p.listing.items - p.missing <= received
      && (p.constructed ==> p.missing == {})
    }

    constructor (heightOf: nat -> nat, parentQcOf: nat -> Option<nat>)
      ensures Valid() && votes == [] && received == {} && listed == {}
    {
      this.heightOf, this.parentQcOf := heightOf, parentQcOf;
      votedHeights, pendingBlocks, pendingQcVerifications, verifiedQcs := map[], map[], {}, {};
      pendingCycleProofs, verifiedCycleProofs, rootsUnderWay, verifiedRoots := map[], {}, {}, {};
      received, listed, votes, log, validRoots, validCycles := {}, {}, [], [], {}, {};
    }

    /** Records what happens to the lock, with the locks left after it. */
    method Record(ghost e: Entry, locks: map<nat, nat>)
      requires LocksKept() && ChecksAnswered() && locks == Applied(votedHeights, e, heightOf)
      requires EntryAnswered(e, validRoots, validCycles)
      requires e.Voted? && e.how.Direct? ==> heightOf(e.vote.hash) !in votedHeights
      modifies `votedHeights, `log, `votes
      ensures LocksKept() && ChecksAnswered() && votedHeights == locks && log == old(log) + [e]
      ensures votes == if e.Voted? then old(votes) + [e.vote] else old(votes)
    {
      LogGrows(log, e, heightOf);
      OneMoreAnswered(log, e, validRoots, validCycles);
      votedHeights, log := locks, log + [e];
      votes := if e.Voted? then votes + [e.vote] else votes;
    }

    method CreateVote(hash: nat, ghost how: How)
      requires Valid() && Available(hash) && (how.Direct? ==> heightOf(hash) !in votedHeights)
      requires how.Callback? ==> AllAnswered(hash, how.listing, validRoots, validCycles)
      modifies `votedHeights, `votes, `log
      ensures Valid() && votes == old(votes) + [CastVote(hash, received)]
      ensures log == old(log) + [Voted(CastVote(hash, received), how)]
      ensures votedHeights == old(votedHeights)[heightOf(hash) := hash]
    {
      Record(Voted(CastVote(hash, received), how), votedHeights[heightOf(hash) := hash]);
    }

    predicate NeedsCycleProofs(hash: nat, listing: Listing)
      reads `verifiedCycleProofs, `pendingCycleProofs
    {
      listing.deferrals > 0 && hash !in verifiedCycleProofs && hash !in pendingCycleProofs
    }

    /** The roots to check that are neither verified nor under way. */
    function RootsNeeded(hash: nat, listing: Listing): set<(nat, Root)>
      reads `verifiedRoots, `rootsUnderWay
    {
      (if listing.HasCertificates() then {(hash, StateRoot)} else {})
      + (if listing.HasTransactions() then {(hash, TransactionRoot)} else {})
      - verifiedRoots - rootsUnderWay
    }

    /** Some check the block needs is neither done nor under way, and can be sent off now. */
    predicate Sends(hash: nat, listing: Listing, stateReady: bool)
      reads `verifiedCycleProofs, `pendingCycleProofs, `verifiedRoots, `rootsUnderWay
    {
      || NeedsCycleProofs(hash, listing)
      || (stateReady && (hash, StateRoot) in RootsNeeded(hash, listing))
      || (hash, TransactionRoot) in RootsNeeded(hash, listing)
    }

    /** Not locked at this height, and a constructed block is well formed with nothing to send off. */
    predicate VotesNow(hash: nat, stateReady: bool)
      reads `votedHeights, `pendingBlocks, `verifiedCycleProofs, `pendingCycleProofs, `verifiedRoots, `rootsUnderWay
    {
      && heightOf(hash) !in votedHeights
      && (hash in pendingBlocks && pendingBlocks[hash].constructed ==>
            pendingBlocks[hash].listing.wellFormed && !Sends(hash, pendingBlocks[hash].listing, stateReady))
    }

    /** Exactly the checks the block needs were added to those under way. */
    twostate predicate Started(hash: nat, listing: Listing)
      reads `pendingCycleProofs, `rootsUnderWay
    {
      && pendingCycleProofs == (if old(NeedsCycleProofs(hash, listing))
                                then old(pendingCycleProofs)[hash := Progress(listing.deferrals, 0, true)] else old(pendingCycleProofs))
      && rootsUnderWay == old(rootsUnderWay) + old(RootsNeeded(hash, listing))
    }

    /** Starts whatever verification the block still needs; says if any was sent off. */
    method InitiateVerifications(hash: nat, listing: Listing, stateReady: bool) returns (sent: bool)
      modifies `pendingCycleProofs, `rootsUnderWay
      ensures sent == old(Sends(hash, listing, stateReady)) && Started(hash, listing)
    {
      sent := false;
      if listing.deferrals > 0 && hash !in verifiedCycleProofs && hash !in pendingCycleProofs {
        pendingCycleProofs := pendingCycleProofs[hash := Progress(listing.deferrals, 0, true)];
        sent := true;
      }
      if listing.HasCertificates() && (hash, StateRoot) !in verifiedRoots && (hash, StateRoot) !in rootsUnderWay {
        rootsUnderWay := rootsUnderWay + {(hash, StateRoot)};
        sent := sent || stateReady;
      }
      if listing.HasTransactions() && (hash, TransactionRoot) !in verifiedRoots && (hash, TransactionRoot) !in rootsUnderWay {
        rootsUnderWay := rootsUnderWay + {(hash, TransactionRoot)};
        sent := true;
      }
    }

    /** Every check the block needs is under way or done. */
    ghost predicate ChecksBegun(hash: nat, listing: Listing)
      reads `pendingCycleProofs, `verifiedCycleProofs, `rootsUnderWay, `verifiedRoots
    {
      && (listing.deferrals > 0 ==> hash in pendingCycleProofs || hash in verifiedCycleProofs)
      && ((exists x :: x in listing.items && x.Certificate?) ==> (hash, StateRoot) in rootsUnderWay + verifiedRoots)
      && ((exists x :: x in listing.items && x.Transaction?) ==> (hash, TransactionRoot) in rootsUnderWay + verifiedRoots)
    }

    predicate Starts(locked: bool, hash: nat)
      reads `pendingBlocks
    {
      !locked && hash in pendingBlocks && pendingBlocks[hash].constructed && pendingBlocks[hash].listing.wellFormed
    }

    method TryVoteOnBlock(hash: nat, stateReady: bool)
      requires Valid() && Available(hash)
      modifies `votedHeights, `votes, `log, `pendingCycleProofs, `rootsUnderWay
      ensures Valid()
      ensures if old(VotesNow(hash, stateReady)) then VotedFor(hash, Direct) else NotVoted()
      ensures if Starts(heightOf(hash) in old(votedHeights), hash) then Started(hash, pendingBlocks[hash].listing)
              else pendingCycleProofs == old(pendingCycleProofs) && rootsUnderWay == old(rootsUnderWay)
      ensures votes != old(votes) && hash in pendingBlocks && pendingBlocks[hash].constructed ==> ChecksBegun(hash, pendingBlocks[hash].listing)
    {
      if heightOf(hash) in votedHeights {
        return;
      }
      if hash in pendingBlocks && pendingBlocks[hash].constructed {
        if !pendingBlocks[hash].listing.wellFormed {
          return;
        }
        var sent := InitiateVerifications(hash, pendingBlocks[hash].listing, stateReady);
        if sent {
          return;
        }
      }
      CreateVote(hash, Direct);
    }

    /** Exactly one vote was cast, for this block, and the lock set. */
    twostate predicate VotedFor(hash: nat, how: How)
      reads this
    {
      && votes == old(votes) + [CastVote(hash, received)]
      && log == old(log) + [Voted(CastVote(hash, received), how)]
      && votedHeights == old(votedHeights)[heightOf(hash) := hash]
    }

    twostate predicate NotVoted()
      reads this
    {
      votes == old(votes) && log == old(log) && votedHeights == old(votedHeights)
    }

    predicate QcUnverified(hash: nat)
      reads `verifiedQcs
    {
      parentQcOf(hash).Some? && parentQcOf(hash).value !in verifiedQcs
    }

    method TriggerQcVerificationOrVote(hash: nat, stateReady: bool)
      requires Valid() && (hash in pendingBlocks ==> pendingBlocks[hash].missing == {})
      modifies `votedHeights, `votes, `log, `pendingCycleProofs, `rootsUnderWay, `pendingQcVerifications
      ensures Valid()
      ensures var verify := hash in pendingBlocks && old(QcUnverified(hash));
              && pendingQcVerifications == (if verify then old(pendingQcVerifications) + {hash} else old(pendingQcVerifications))
              && if hash in pendingBlocks && !verify && old(VotesNow(hash, stateReady)) then VotedFor(hash, Direct) else NotVoted()
    {
      if hash !in pendingBlocks {
        return;
      }
      assert Sound(hash, pendingBlocks[hash]);
      assert (hash, pendingBlocks[hash].listing.items) in listed && pendingBlocks[hash].listing.items <= received;
      if QcUnverified(hash) {
        pendingQcVerifications := pendingQcVerifications + {hash};
        return;
      }
      TryVoteOnBlock(hash, stateReady);
    }

    method DropBlock(hash: nat)
      requires Valid()
      modifies `pendingBlocks
      ensures Valid() && pendingBlocks == old(pendingBlocks) - {hash}
    {
      pendingBlocks := pendingBlocks - {hash};
    }

    method CloseQcVerification(hash: nat)
      requires Valid() && hash in pendingQcVerifications
      modifies `pendingQcVerifications
      ensures Valid() && Available(hash) && pendingQcVerifications == old(pendingQcVerifications) - {hash}
    {
      assert Available(hash);
      pendingQcVerifications := pendingQcVerifications - {hash};
    }

    /** A certificate was verified: caches it and votes, or drops the block. */
    method OnQcSignatureVerified(hash: nat, valid: bool, stateReady: bool)
      requires Valid()
      modifies `votedHeights, `votes, `log, `pendingCycleProofs, `rootsUnderWay, `pendingQcVerifications, `pendingBlocks, `verifiedQcs
      ensures Valid()
      ensures var asked := hash in old(pendingQcVerifications);
              && pendingQcVerifications == old(pendingQcVerifications) - {hash}
              && pendingBlocks == (if asked && !valid then old(pendingBlocks) - {hash} else old(pendingBlocks))
              && verifiedQcs == old(verifiedQcs) + (if asked && valid && parentQcOf(hash).Some? then {parentQcOf(hash).value} else {})
              && if asked && valid && old(VotesNow(hash, stateReady)) then VotedFor(hash, Direct) else NotVoted()
    {
      if hash !in pendingQcVerifications {
        return;
      }
      CloseQcVerification(hash);
      if !valid {
        DropBlock(hash);
        return;
      }
      if parentQcOf(hash).Some? {
        verifiedQcs := verifiedQcs + {parentQcOf(hash).value};
      }
      TryVoteOnBlock(hash, stateReady);
    }

    predicate VerificationsComplete(hash: nat, listing: Listing)
      reads `verifiedCycleProofs, `verifiedRoots
    {
      && (listing.deferrals > 0 ==> hash in verifiedCycleProofs)
      && (listing.HasCertificates() ==> (hash, StateRoot) in verifiedRoots)
      && (listing.HasTransactions() ==> (hash, TransactionRoot) in verifiedRoots)
    }

    predicate Checked(hash: nat)
      reads `pendingBlocks, `verifiedCycleProofs, `verifiedRoots
    {
      hash in pendingBlocks && pendingBlocks[hash].constructed && VerificationsComplete(hash, pendingBlocks[hash].listing)
    }

    /** The end of every callback: a constructed block with nothing left to check gets the vote. */
    method VoteIfComplete(hash: nat)
      requires Valid()
      modifies `votedHeights, `votes, `log
      ensures Valid()
      ensures if Checked(hash) then VotedFor(hash, Callback(pendingBlocks[hash].listing)) else NotVoted()
    {
      if hash !in pendingBlocks || !pendingBlocks[hash].constructed {
        return;
      }
      assert Sound(hash, pendingBlocks[hash]);
      assert (hash, pendingBlocks[hash].listing.items) in listed && pendingBlocks[hash].listing.items <= received;
      if VerificationsComplete(hash, pendingBlocks[hash].listing) {
        CreateVote(hash, Callback(pendingBlocks[hash].listing));
      }
    }

    method PassCycleProofs(hash: nat)
      requires Valid()
      modifies `verifiedCycleProofs, `validCycles
      ensures Valid() && verifiedCycleProofs == old(verifiedCycleProofs) + {hash} && validCycles == old(validCycles) + {hash}
    {
      MoreAnswers(log, validRoots, validCycles, validRoots, validCycles + {hash});
      verifiedCycleProofs, validCycles := verifiedCycleProofs + {hash}, validCycles + {hash};
    }

    method OnCycleProofVerified(hash: nat, valid: bool)
      requires Valid()
      modifies `votedHeights, `votes, `log, `pendingBlocks, `pendingCycleProofs, `verifiedCycleProofs, `validCycles
      ensures Valid()
      ensures hash !in old(pendingCycleProofs) ==> NotVoted() && pendingBlocks == old(pendingBlocks)
      ensures hash in old(pendingCycleProofs) ==>
                var p := Answered(old(pendingCycleProofs)[hash], valid);
                var passed := p.done >= p.total && p.allValid;
                && pendingCycleProofs == (if p.done < p.total then old(pendingCycleProofs)[hash := p] else old(pendingCycleProofs) - {hash})
                && pendingBlocks == (if p.done < p.total || p.allValid then old(pendingBlocks) else old(pendingBlocks) - {hash})
                && verifiedCycleProofs == (if passed then old(verifiedCycleProofs) + {hash} else old(verifiedCycleProofs))
                && validCycles == (if passed then old(validCycles) + {hash} else old(validCycles))
                && if passed && Checked(hash) then VotedFor(hash, Callback(pendingBlocks[hash].listing)) else NotVoted()
    {
      if hash !in pendingCycleProofs {
        return;
      }
      var p := Answered(pendingCycleProofs[hash], valid);
      if p.done < p.total {
        pendingCycleProofs := pendingCycleProofs[hash := p];
        return;
      }
      pendingCycleProofs := pendingCycleProofs - {hash};
      if !p.allValid {
        DropBlock(hash);
        return;
      }
      PassCycleProofs(hash);
      VoteIfComplete(hash);
    }

    method OnRootVerified(hash: nat, root: Root, valid: bool)
      requires Valid()
      modifies `votedHeights, `votes, `log, `pendingBlocks, `rootsUnderWay, `verifiedRoots, `validRoots
      ensures Valid() && validRoots == old(validRoots) + (if valid then {(hash, root)} else {})
      ensures rootsUnderWay == old(rootsUnderWay) - {(hash, root)}
      ensures verifiedRoots == (if valid then old(verifiedRoots) + {(hash, root)} else old(verifiedRoots))
      ensures pendingBlocks == (if valid then old(pendingBlocks) else old(pendingBlocks) - {hash})
      ensures if valid && Checked(hash) then VotedFor(hash, Callback(pendingBlocks[hash].listing)) else NotVoted()
    {
      rootsUnderWay := rootsUnderWay - {(hash, root)};
      if !valid {
        DropBlock(hash);
        return;
      }
      MoreAnswers(log, validRoots, validCycles, validRoots + {(hash, root)}, validCycles);
      verifiedRoots, validRoots := verifiedRoots + {(hash, root)}, validRoots + {(hash, root)};
      VoteIfComplete(hash);
    }

    // ---- Data arrives ----

    /** A complete block with this listing is voted on at once. */
    predicate VotesOn(hash: nat, listing: Listing, stateReady: bool)
      reads `verifiedQcs, `votedHeights, `verifiedCycleProofs, `pendingCycleProofs, `verifiedRoots, `rootsUnderWay
    {
      !QcUnverified(hash) && heightOf(hash) !in votedHeights && listing.wellFormed && !Sends(hash, listing, stateReady)
    }

    /** A block that just became complete was voted on, or its parent certificate sent off. */
    twostate predicate Completed(complete: bool, hash: nat, listing: Listing, stateReady: bool)
      reads this
    {
      && (if complete && old(VotesOn(hash, listing, stateReady)) then VotedFor(hash, Direct) else NotVoted())
      && pendingQcVerifications == old(pendingQcVerifications) + (if complete && old(QcUnverified(hash)) then {hash} else {})
    }

    method StoreBlock(hash: nat, listing: Listing, held: set<Item>)
      requires Valid() && held <= received
      modifies `pendingBlocks, `listed
      ensures Valid() && listed == old(listed) + {(hash, listing.items)}
      ensures pendingBlocks == old(pendingBlocks)[hash := Pending(listing, listing.items - held, listing.items <= held)]
    {
      listed := listed + {(hash, listing.items)};
      NothingLeft(listing.items, held);
      pendingBlocks := pendingBlocks[hash := Pending(listing, listing.items - held, listing.items - held == {})];
    }

    /** `accepted` is the outcome of header validation. */
    method OnBlockHeader(hash: nat, listing: Listing, held: set<Item>, accepted: bool, stateReady: bool)
      requires Valid()
      modifies `votedHeights, `votes, `log, `pendingCycleProofs, `rootsUnderWay, `pendingQcVerifications, `pendingBlocks, `received, `listed
      ensures Valid() && received == old(received) + held && old(listed) <= listed
      ensures Completed(accepted && hash !in old(pendingBlocks) && listing.items <= held, hash, listing, stateReady)
      ensures pendingBlocks == if !accepted || hash in old(pendingBlocks) then old(pendingBlocks)
                               else old(pendingBlocks)[hash := Pending(listing, listing.items - held, listing.items <= held)]
    {
      received := received + held;
      if !accepted {
        return;
      }
      if hash in pendingBlocks {
        return;
      }
      NothingLeft(listing.items, held);
      StoreBlock(hash, listing, held);
      if pendingBlocks[hash].missing == {} {
        TriggerQcVerificationOrVote(hash, stateReady);
      }
    }

    /** Adds items to one pending block, and triggers its vote once nothing is missing. */
    method AddItems(hash: nat, items: set<Item>, stateReady: bool)
      requires Valid() && items <= received
      modifies `votedHeights, `votes, `log, `pendingCycleProofs, `rootsUnderWay, `pendingQcVerifications, `pendingBlocks
      ensures Valid() && received == old(received) && listed == old(listed)
      ensures hash !in old(pendingBlocks) ==> NotVoted() && pendingBlocks == old(pendingBlocks)
      ensures hash in old(pendingBlocks) ==>
                var p := old(pendingBlocks)[hash];
                && pendingBlocks == old(pendingBlocks)[hash := p.(missing := p.missing - items, constructed := p.missing <= items)]
                && Completed(p.missing <= items, hash, p.listing, stateReady)
    {
      if hash !in pendingBlocks {
        return;
      }
      var p := pendingBlocks[hash];
      assert Sound(hash, p);
      var missing := p.missing - items;
      NothingLeft(p.missing, items);
      pendingBlocks := pendingBlocks[hash := p.(missing := missing, constructed := missing == {})];
      if missing == {} {
        TriggerQcVerificationOrVote(hash, stateReady);
      }
    }

    /** Fetched transactions or certificates for one block. The commit path may then run. */
    method OnFetchReceived(hash: nat, items: set<Item>, stateReady: bool, committed: nat)
      requires Valid()
      modifies this
      ensures Valid() && received == old(received) + items && listed == old(listed) && validRoots == old(validRoots)
      ensures votes == if hash in old(pendingBlocks) && old(pendingBlocks)[hash].missing <= items &&
                          old(VotesOn(hash, pendingBlocks[hash].listing, stateReady))
                       then old(votes) + [CastVote(hash, received)] else old(votes)
      ensures forall h :: h in pendingBlocks <==> h in old(pendingBlocks) && heightOf(h) > committed
      ensures hash in pendingBlocks ==> pendingBlocks[hash].missing == old(pendingBlocks)[hash].missing - items
    {
      received := received + items;
      AddItems(hash, items, stateReady);
      CleanupOldState(committed);
    }

    /** One waiting block gets items already at hand. */
    method Offer(hash: nat, items: set<Item>, stateReady: bool, committed: nat)
      requires Valid() && items <= received
      modifies this
      ensures Valid() && received == old(received) && listed == old(listed) && old(votes) <= votes && validRoots == old(validRoots)
      ensures forall h :: h in pendingBlocks ==> h in old(pendingBlocks)
      ensures forall h :: h in pendingBlocks ==>
                pendingBlocks[h].missing == if h == hash then old(pendingBlocks)[h].missing - items else old(pendingBlocks)[h].missing
    {
      AddItems(hash, items, stateReady);
      CleanupOldState(committed);
    }

    /** The item is off the missing list of every block still pending. */
    ghost predicate Offered(before: map<nat, Pending>, item: Item, waiting: set<nat>)
      reads `pendingBlocks
    {
      forall h :: h in pendingBlocks ==>
        && h in before
        && pendingBlocks[h].missing == if h in waiting then before[h].missing else before[h].missing - {item}
    }

    /** An item arrived by gossip or was finalized locally: every block waiting for it gets it. */
    method CheckPendingBlocksFor(item: Item, stateReady: bool, committed: nat -> nat)
      requires Valid()
      modifies this
      ensures Valid() && received == old(received) + {item} && listed == old(listed) && old(votes) <= votes && validRoots == old(validRoots)
      ensures Offered(old(pendingBlocks), item, {})
    {
      received := received + {item};
      ghost var before := pendingBlocks;
      var waiting := set h | h in pendingBlocks && item in pendingBlocks[h].missing;
      while waiting != {}
        invariant Valid() && received == old(received) + {item} && listed == old(listed) && old(votes) <= votes && validRoots == old(validRoots)
        invariant Offered(before, item, waiting)
        decreases waiting
      {
        var hash :| hash in waiting;
        waiting := waiting - {hash};
        Offer(hash, {item}, stateReady, committed(hash));
      }
    }

    /** An own proposal, with every listed item at hand, dropped unless it is the one being waited
        for; fallback and sync blocks list nothing. */
    method OnProposalBuilt(hash: nat, listing: Listing, expected: bool)
      requires Valid()
      modifies this
      ensures Valid() && old(listed) <= listed && old(received) <= received && validRoots == old(validRoots)
      ensures !expected ==> NotVoted() && received == old(received) && pendingBlocks == old(pendingBlocks)
      ensures expected ==> VotedFor(hash, Own) && received == old(received) + listing.items
      ensures expected ==> pendingBlocks == old(pendingBlocks)[hash := Pending(listing, {}, true)]
    {
      if !expected {
        return;
      }
      received := received + listing.items;
      listed := listed + {(hash, listing.items)};
      pendingBlocks := pendingBlocks[hash := Pending(listing, {}, true)];
      CreateVote(hash, Own);
    }

    function Above(committed: nat): map<nat, Pending>
      reads this
    {
      map h | h in pendingBlocks && heightOf(h) > committed :: pendingBlocks[h]
    }

    method CleanupBlocks(committed: nat)
      requires Valid()
      modifies `pendingBlocks, `pendingQcVerifications
      ensures Valid() && pendingBlocks == old(Above(committed))
      ensures pendingQcVerifications == old(pendingQcVerifications) * pendingBlocks.Keys
    {
      pendingBlocks := Above(committed);
      pendingQcVerifications := set h | h in pendingQcVerifications && h in pendingBlocks;
    }

    method CleanupOldState(committed: nat)
      requires Valid()
      modifies this
      ensures Valid() && votes == old(votes) && received == old(received) && listed == old(listed) && validRoots == old(validRoots)
      ensures log == old(log) + [Pruned(committed)]
      ensures votedHeights == LocksAbove(old(votedHeights), committed)
      ensures pendingBlocks == old(Above(committed))
      ensures pendingQcVerifications == old(pendingQcVerifications) * pendingBlocks.Keys
      ensures pendingCycleProofs.Keys == old(pendingCycleProofs).Keys * pendingBlocks.Keys
      ensures verifiedCycleProofs == old(verifiedCycleProofs) * pendingBlocks.Keys
      ensures forall r :: r in rootsUnderWay <==> r in old(rootsUnderWay) && r.0 in pendingBlocks
      ensures forall r :: r in verifiedRoots <==> r in old(verifiedRoots) && r.0 in pendingBlocks
    {
      CleanupBlocks(committed);
      CleanupLocks(committed);
      CleanupChecks();
    }

    method CleanupLocks(committed: nat)
      requires Valid()
      modifies `votedHeights, `verifiedQcs, `log, `votes
      ensures Valid() && votedHeights == LocksAbove(old(votedHeights), committed) && log == old(log) + [Pruned(committed)] && votes == old(votes)
      ensures verifiedQcs == set q | q in old(verifiedQcs) && heightOf(q) > (if committed < 2 then 0 else committed - 2)
    {
      Record(Pruned(committed), LocksAbove(votedHeights, committed));
      verifiedQcs := set q | q in verifiedQcs && heightOf(q) > (if committed < 2 then 0 else committed - 2);
    }

    method CleanupChecks()
      modifies `pendingCycleProofs, `verifiedCycleProofs, `rootsUnderWay, `verifiedRoots
      ensures pendingCycleProofs.Keys == old(pendingCycleProofs).Keys * pendingBlocks.Keys
      ensures verifiedCycleProofs == old(verifiedCycleProofs) * pendingBlocks.Keys
      ensures forall r :: r in rootsUnderWay <==> r in old(rootsUnderWay) && r.0 in pendingBlocks
      ensures forall r :: r in verifiedRoots <==> r in old(verifiedRoots) && r.0 in pendingBlocks
    {
      pendingCycleProofs := map h | h in pendingCycleProofs && h in pendingBlocks :: pendingCycleProofs[h];
      verifiedCycleProofs := set h | h in verifiedCycleProofs && h in pendingBlocks;
      rootsUnderWay := set r | r in rootsUnderWay && r.0 in pendingBlocks;
      verifiedRoots := set r | r in verifiedRoots && r.0 in pendingBlocks;
    }

    /** A view change or a newer certificate releases the lock at a height. */
    method Unlock(height: nat)
      requires Valid()
      modifies `votedHeights, `log, `votes
      ensures Valid() && votedHeights == old(votedHeights) - {height} && log == old(log) + [Unlocked(height)] && votes == old(votes)
    {
      Record(Unlocked(height), votedHeights - {height});
    }

    // ---- Every run ----

    method Handle(e: Event)
      requires Valid()
      modifies this
      ensures Valid() && old(votes) <= votes && received == old(received) + Brings(e)
      ensures e.RootVerified? && e.valid ==> validRoots == old(validRoots) + {(e.hash, e.root)}
      ensures !(e.RootVerified? && e.valid) ==> validRoots == old(validRoots)
      ensures e.Committed? ==> log == old(log) + [Pruned(e.height)]
      ensures e.LockReleased? ==> log == old(log) + [Unlocked(e.height)]
    {
      match e
      case Header(hash, listing, held, accepted, ready) => OnBlockHeader(hash, listing, held, accepted, ready);
      case Fetched(hash, items, ready, committed) => OnFetchReceived(hash, items, ready, committed);
      case Arrived(item, ready, committed) => CheckPendingBlocksFor(item, ready, committed);
      case QcVerified(hash, valid, ready) => OnQcSignatureVerified(hash, valid, ready);
      case CycleProofVerified(hash, valid) => OnCycleProofVerified(hash, valid);
      case RootVerified(hash, root, valid) => OnRootVerified(hash, root, valid);
      case OwnProposal(hash, listing, expected) => OnProposalBuilt(hash, listing, expected);
      case Committed(height) => CleanupOldState(height);
      case LockReleased(height) => Unlock(height);
    }

    /** In every run, each vote is for a block of which the validator had, when it cast the
        vote, every item of some listing it got for that block; and between a vote and a later vote
        through the lock check at the same height that height was unlocked or committed; and a
        vote at the end of a block's checks comes after valid answers to all it needs. */
    method Run(events: seq<Event>)
      requires Valid()
      modifies this
      ensures Valid() && old(votes) <= votes
      ensures forall v :: v in votes ==> exists items :: (v.hash, items) in listed && items <= v.had <= received
      ensures VotesIn(log) == votes && votedHeights == LocksOf(log, heightOf)
      ensures forall i, j, h :: i < j && VotedAt(log, i, heightOf, h) && VotedAt(log, j, heightOf, h) && log[j].how.Direct? ==>
                ReleasedBetween(log, i, j, h)
      ensures forall e :: e in log && e.Voted? && e.how.Callback? ==> AllAnswered(e.vote.hash, e.how.listing, validRoots, validCycles)
    {
      for i := 0 to |events|
        invariant Valid() && old(votes) <= votes
      {
        Handle(events[i]);
      }
      forall i, j, h | i < j && VotedAt(log, i, heightOf, h) && VotedAt(log, j, heightOf, h) && log[j].how.Direct?
        ensures ReleasedBetween(log, i, j, h)
      {
        VotesSeparated(log, heightOf, i, j, h);
      }
      forall e | e in log && e.Voted? && e.how.Callback? ensures AllAnswered(e.vote.hash, e.how.listing, validRoots, validCycles) {
        CallbackWasAnswered(log, e, validRoots, validCycles);
      }
    }
  }

  /** The items an event brings. */
  function Brings(e: Event): set<Item> {
    match e
    case Header(_, _, held, _, _) => held
    case Fetched(_, items, _, _) => items
    case Arrived(item, _, _) => {item}
    case OwnProposal(_, listing, expected) => if expected then listing.items else {}
    case _ => {}
  }

  datatype Event =
    | Header(hash: nat, listing: Listing, held: set<Item>, accepted: bool, stateReady: bool)
    | Fetched(hash: nat, items: set<Item>, stateReady: bool, committed: nat)
    | Arrived(item: Item, stateReady: bool, committedAfter: nat -> nat)
    | QcVerified(hash: nat, valid: bool, stateReady: bool)
    | CycleProofVerified(hash: nat, valid: bool)
    | RootVerified(hash: nat, root: Root, valid: bool)
    | OwnProposal(hash: nat, listing: Listing, expected: bool)
    | Committed(height: nat)
    | LockReleased(height: nat)
}
