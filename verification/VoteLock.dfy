/**
 Vote locking across crashes and restarts, and agreement at one height.

 A validator votes at a height only while it holds no lock there. A vote first
 sets the lock in memory, is then written to storage, and only then broadcast; a
 crash may fall between any two of these steps and loses everything but storage.
 */
module VoteLock {
  import opened Quorum

  datatype Ballot = Ballot(height: nat, block: nat)

  /** One validator: the block it is locked on at each height, what storage holds of its votes, the
      votes handed to the runner, and those of them already written to storage. */
  datatype Voter = Voter(
    committed: nat,
    voted: map<nat, nat>,
    stored: map<nat, nat>,
    queued: set<Ballot>,
    persisted: set<Ballot>
  )

  /** The locks of a validator that recovers with a given committed height. */
  function LocksAbove(votes: map<nat, nat>, height: nat): map<nat, nat> {
    map h | h in votes && h > height :: votes[h]
  }

  function CreateVote(u: Voter, ballot: Ballot): Voter {
    u.(voted := u.voted[ballot.height := ballot.block], queued := u.queued + {ballot})
  }

  /** The lock check: a block at or below the committed height is never up for a
      vote, and an existing vote at the height, for this or another block, ends it. */
  function TryVote(u: Voter, ballot: Ballot): Voter {
    if ballot.height <= u.committed || ballot.height in u.voted then u else CreateVote(u, ballot)
  }

  function Persist(u: Voter, ballot: Ballot): Voter {
    if ballot in u.queued
    then u.(stored := u.stored[ballot.height := ballot.block], persisted := u.persisted + {ballot})
    else u
  }

  function Restart(u: Voter, height: nat): Voter {
    Voter(height, LocksAbove(u.stored, height), u.stored, {}, {})
  }

  function CommitTo(u: Voter, height: nat): Voter {
    if height > u.committed then u.(committed := height, voted := LocksAbove(u.voted, height)) else u
  }

  // ---- One validator keeps a single vote at a height ----

  /** The last three are the ways out of the lock discipline. */
  datatype LocalEvent =
    | TryVoteOn(ballot: Ballot)
    | PersistVote(ballot: Ballot)
    | RestartAt(height: nat)
    | CommitAt(height: nat)
    | AdvanceRound(height: nat)
    | UnlockForQc(height: nat)
    | VoteFromCallback(ballot: Ballot)

  function LocalStep(u: Voter, e: LocalEvent): Voter {
    match e
    case TryVoteOn(ballot) => TryVote(u, ballot)
    case PersistVote(ballot) => Persist(u, ballot)
    case RestartAt(height) => Restart(u, height)
    case CommitAt(height) => CommitTo(u, height)
    case AdvanceRound(height) => u.(voted := u.voted - {height})
    case UnlockForQc(height) => u.(voted := LocksAbove(u.voted, height))
    case VoteFromCallback(ballot) => CreateVote(u, ballot)
  }

  /** The event leaves the lock at `h` alone and does not vote around it. */
  predicate RespectsLock(e: LocalEvent, h: nat) {
    match e
    case AdvanceRound(height) => height != h
    case UnlockForQc(height) => height < h
    case VoteFromCallback(ballot) => ballot.height != h
    case _ => true
  }

  /** Memory, runner queue and storage tell one story about height `h`, and every
      block in `cast` (the broadcast votes at `h`) is the stored one. */
  ghost predicate OneVoteAt(u: Voter, h: nat, cast: set<nat>) {
    && u.persisted <= u.queued
    && (forall a, b :: Ballot(h, a) in u.queued && Ballot(h, b) in u.queued ==> a == b)
    && (forall b :: Ballot(h, b) in u.queued && h in u.stored ==> u.stored[h] == b)
    && (forall b :: Ballot(h, b) in u.queued && h > u.committed ==> h in u.voted && u.voted[h] == b)
    && (forall b :: Ballot(h, b) in u.persisted ==> h in u.stored)
    && (h in u.stored && h > u.committed ==> h in u.voted && u.voted[h] == u.stored[h])
    && (forall b :: b in cast ==> h in u.stored && u.stored[h] == b)
  }

  lemma LocalStepKeepsOneVote(u: Voter, e: LocalEvent, h: nat, cast: set<nat>)
    requires OneVoteAt(u, h, cast)
    requires RespectsLock(e, h)
    ensures OneVoteAt(LocalStep(u, e), h, cast)
  {
    var t := LocalStep(u, e);
    match e
    case TryVoteOn(ballot) => assert forall x :: x in t.queued ==> x in u.queued || x == ballot;
    case PersistVote(ballot) => assert forall x :: x in t.persisted ==> x in u.persisted || x == ballot;
    case VoteFromCallback(ballot) => assert forall x :: x in t.queued ==> x in u.queued || x == ballot;
    case _ =>
  }

  /** For a validator with a stored vote at a height not yet committed, an event
      keeps the single vote exactly when it respects the lock, or repeats the vote. */
  lemma KeepsOneVoteIffLockRespected(u: Voter, e: LocalEvent, h: nat, cast: set<nat>)
    requires OneVoteAt(u, h, cast)
    requires h in u.stored && h > u.committed
    ensures OneVoteAt(LocalStep(u, e), h, cast) <==>
            RespectsLock(e, h) || e == VoteFromCallback(Ballot(h, u.stored[h]))
  {
    if RespectsLock(e, h) {
      LocalStepKeepsOneVote(u, e, h, cast);
    } else if e.VoteFromCallback? {
      var t := LocalStep(u, e);
      assert e.ballot in t.queued;
      assert forall x :: x in t.queued ==> x in u.queued || x == e.ballot;
    }
  }

  /** The event takes the lock at `h` away, or votes for `other` around it. */
  predicate Escapes(e: LocalEvent, h: nat, other: nat) {
    match e
    case AdvanceRound(height) => height == h
    case UnlockForQc(height) => height >= h
    case VoteFromCallback(ballot) => ballot == Ballot(h, other)
    case _ => false
  }

  /** A validator with a stored vote at an uncommitted height hands a second, different vote to
      the runner right after an event if and only if that event escapes the lock. */
  lemma SecondVoteIffEscape(u: Voter, e: LocalEvent, h: nat, other: nat, cast: set<nat>)
    requires OneVoteAt(u, h, cast)
    requires h in u.stored && h > u.committed && other != u.stored[h]
    ensures Ballot(h, other) in LocalStep(LocalStep(u, e), TryVoteOn(Ballot(h, other))).queued <==> Escapes(e, h, other)
  {
    assert Ballot(h, other) !in u.queued;
  }

  /** After an escape both votes at the height have been persisted, so both may be broadcast. */
  lemma EscapesAllowASecondVote(u: Voter, h: nat, first: nat, other: nat, escape: LocalEvent)
    requires h > u.committed && Ballot(h, first) in u.persisted && first != other
    requires Escapes(escape, h, other)
    ensures var t := LocalStep(LocalStep(LocalStep(u, escape), TryVoteOn(Ballot(h, other))), PersistVote(Ballot(h, other)));
            Ballot(h, first) in t.persisted && Ballot(h, other) in t.persisted
  {
  }

  /** A vote handed to the runner is on storage only once it has been persisted. */
  ghost predicate StoredOncePersisted(u: Voter, h: nat) {
    forall b :: Ballot(h, b) in u.queued && h in u.stored ==> Ballot(h, b) in u.persisted
  }

  lemma LocalStepKeepsStored(u: Voter, e: LocalEvent, h: nat, cast: set<nat>)
    requires OneVoteAt(u, h, cast) && StoredOncePersisted(u, h) && RespectsLock(e, h)
    ensures StoredOncePersisted(LocalStep(u, e), h)
  {
  }

  /** A restart forgets a vote the validator has already counted, and lets it vote for another
      block, if and only if the vote is queued but not persisted. */
  lemma RestartLosesVoteIffNotPersisted(u: Voter, h: nat, block: nat, height: nat, other: nat, cast: set<nat>)
    requires OneVoteAt(u, h, cast) && StoredOncePersisted(u, h)
    requires Ballot(h, block) in u.queued && height < h
    ensures Ballot(h, other) in TryVote(Restart(u, height), Ballot(h, other)).queued <==> Ballot(h, block) !in u.persisted
  {
  }

  // ---- Committed heights are closed ----

  function LocalRun(u: Voter, events: seq<LocalEvent>): Voter
    decreases |events|
  {
    if events == [] then u else LocalRun(LocalStep(u, events[0]), events[1..])
  }

  /** The event neither restarts below height `k` nor votes there around the lock check. */
  predicate StaysAbove(e: LocalEvent, k: nat) {
    match e
    case RestartAt(height) => height >= k
    case VoteFromCallback(ballot) => ballot.height > k
    case _ => true
  }

  ghost predicate NothingNewUpTo(u: Voter, t: Voter, k: nat) {
    t.committed >= k && forall b :: b in t.queued && b.height <= k ==> b in u.queued
  }

  lemma {:induction false} RunKeepsClosed(u: Voter, events: seq<LocalEvent>, k: nat)
    requires u.committed >= k && forall e :: e in events ==> StaysAbove(e, k)
    ensures NothingNewUpTo(u, LocalRun(u, events), k)
    decreases |events|
  {
    if events != [] {
      var t := LocalStep(u, events[0]);
      assert StaysAbove(events[0], k);
      assert NothingNewUpTo(u, t, k);
      RunKeepsClosed(t, events[1..], k);
    }
  }

  /** After a commit or a restart at a height no run hands the runner another vote at or below it,
      unless it restarts lower or a callback votes there; the locks above are as before. */
  lemma CommittedHeightsAreClosed(u: Voter, k: nat, first: LocalEvent, events: seq<LocalEvent>)
    requires first == CommitAt(k) || first == RestartAt(k)
    requires forall e :: e in events ==> StaysAbove(e, k)
    ensures NothingNewUpTo(u, LocalRun(LocalStep(u, first), events), k)
    ensures forall h :: h > k ==> (h in LocalStep(u, first).voted <==> h in if first == CommitAt(k) then u.voted else u.stored)
    ensures forall h :: h in LocalStep(u, first).voted && h <= k ==> first == CommitAt(k) && k <= u.committed
  {
    var t := LocalStep(u, first);
    assert t.committed >= k && t.queued <= u.queued;
    RunKeepsClosed(t, events, k);
  }

  // ---- The committee ----

  /** A vote by a committee member. */
  datatype Cast = Cast(member: nat, ballot: Ballot)

  /** The validators, the votes broadcast, the own votes that validators counted towards a
      certificate, and the ballots certified. */
  datatype Committee = Committee(voters: seq<Voter>, cast: set<Cast>, counted: set<Cast>, certified: set<Ballot>)

  datatype Event =
    | Local(member: nat, step: LocalEvent)
    | Broadcast(member: nat, ballot: Ballot)
    | Forge(member: nat, ballot: Ballot)
    | Build(member: nat, ballot: Ballot)

  function Supporters(votes: set<Cast>, ballot: Ballot): set<nat> {
    set x | x in votes && x.ballot == ballot :: x.member
  }

  predicate OwnQueued(c: Committee, m: nat, ballot: Ballot) {
    m < |c.voters| && ballot in c.voters[m].queued
  }

  /** A validator's own vote, counted from the moment it is created. */
  function OwnVote(c: Committee, m: nat, ballot: Ballot): set<Cast> {
    if OwnQueued(c, m, ballot) then {Cast(m, ballot)} else {}
  }

  predicate Quorate(weights: seq<nat>, votes: set<Cast>, ballot: Ballot) {
    HasQuorum(Power(weights, Supporters(votes, ballot)), TotalPower(weights))
  }

  /** An honest vote is broadcast only once it is persisted; faulty members send anything. A
      validator builds a certificate from the broadcast votes and its own. */
  function Step(c: Committee, e: Event, weights: seq<nat>, faulty: set<nat>): Committee {
    match e
    case Local(m, step) =>
      if m < |c.voters| then c.(voters := c.voters[m := LocalStep(c.voters[m], step)]) else c
    case Broadcast(m, ballot) =>
      if m < |c.voters| && ballot in c.voters[m].persisted
      then c.(cast := c.cast + {Cast(m, ballot)}) else c
    case Forge(m, ballot) =>
      if m in faulty then c.(cast := c.cast + {Cast(m, ballot)}) else c
    case Build(m, ballot) =>
      if Quorate(weights, c.cast + OwnVote(c, m, ballot), ballot)
      then c.(counted := c.counted + OwnVote(c, m, ballot), certified := c.certified + {ballot}) else c
  }

  function Run(c: Committee, events: seq<Event>, weights: seq<nat>, faulty: set<nat>): Committee
    decreases |events|
  {
    if events == [] then c else Run(Step(c, events[0], weights, faulty), events[1..], weights, faulty)
  }

  /** Honest members vote at `h` only through the lock check and keep their lock there. */
  ghost predicate LockedRun(events: seq<Event>, h: nat, faulty: set<nat>) {
    forall e :: e in events && e.Local? && e.member !in faulty ==> RespectsLock(e.step, h)
  }

  ghost function CastBy(votes: set<Cast>, m: nat, h: nat): set<nat> {
    set x | x in votes && x.member == m && x.ballot.height == h :: x.ballot.block
  }

  /** Each honest member's votes among `votes` at height `h` are its single stored one. */
  ghost predicate HonestOneVote(c: Committee, votes: set<Cast>, h: nat, faulty: set<nat>) {
    forall m :: 0 <= m < |c.voters| && m !in faulty ==> OneVoteAt(c.voters[m], h, CastBy(votes, m, h))
  }

  lemma LocalKeepsOneVote(c: Committee, votes: set<Cast>, m: nat, step: LocalEvent, h: nat, faulty: set<nat>)
    requires HonestOneVote(c, votes, h, faulty) && m < |c.voters|
    requires m !in faulty ==> RespectsLock(step, h)
    ensures HonestOneVote(c.(voters := c.voters[m := LocalStep(c.voters[m], step)]), votes, h, faulty)
  {
    if m !in faulty {
      LocalStepKeepsOneVote(c.voters[m], step, h, CastBy(votes, m, h));
    }
  }

  /** A vote may join the others if it is from a faulty member or persisted. */
  lemma JoiningKeepsOneVote(c: Committee, votes: set<Cast>, m: nat, ballot: Ballot, h: nat, faulty: set<nat>)
    requires HonestOneVote(c, votes, h, faulty)
    requires m in faulty || (m < |c.voters| && (ballot.height == h ==> ballot in c.voters[m].persisted))
    ensures HonestOneVote(c, votes + {Cast(m, ballot)}, h, faulty)
  {
    var more := votes + {Cast(m, ballot)};
    forall k | 0 <= k < |c.voters| && k !in faulty ensures OneVoteAt(c.voters[k], h, CastBy(more, k, h)) {
      assert OneVoteAt(c.voters[k], h, CastBy(votes, k, h));
      assert CastBy(more, k, h) <= CastBy(votes, k, h) + (if k == m && ballot.height == h then {ballot.block} else {});
    }
  }

  // ---- Quorums of broadcast votes ----

  lemma StepKeepsOneVote(c: Committee, e: Event, h: nat, weights: seq<nat>, faulty: set<nat>)
    requires HonestOneVote(c, c.cast, h, faulty)
    requires LockedRun([e], h, faulty)
    ensures var t := Step(c, e, weights, faulty); HonestOneVote(t, t.cast, h, faulty) && |t.voters| == |c.voters|
  {
    assert e in [e];
    match e
    case Local(m, step) => if m < |c.voters| { LocalKeepsOneVote(c, c.cast, m, step, h, faulty); }
    case Broadcast(m, ballot) =>
      if m < |c.voters| && ballot in c.voters[m].persisted { JoiningKeepsOneVote(c, c.cast, m, ballot, h, faulty); }
    case Forge(m, ballot) => if m in faulty { JoiningKeepsOneVote(c, c.cast, m, ballot, h, faulty); }
    case Build(_, _) =>
  }

  lemma {:induction false} RunKeepsOneVote(c: Committee, events: seq<Event>, h: nat, weights: seq<nat>, faulty: set<nat>)
    requires HonestOneVote(c, c.cast, h, faulty)
    requires LockedRun(events, h, faulty)
    ensures var t := Run(c, events, weights, faulty); HonestOneVote(t, t.cast, h, faulty) && |t.voters| == |c.voters|
    decreases |events|
  {
    if events != [] {
      assert events[0] in events;
      StepKeepsOneVote(c, events[0], h, weights, faulty);
      RunKeepsOneVote(Step(c, events[0], weights, faulty), events[1..], h, weights, faulty);
    }
  }

  /** A committee before any vote at height `h`. */
  ghost predicate NoVotesAt(c: Committee, h: nat) {
    && (forall m :: 0 <= m < |c.voters| ==>
          && c.voters[m].persisted <= c.voters[m].queued
          && h !in c.voters[m].stored
          && forall b :: Ballot(h, b) !in c.voters[m].queued)
    && (forall x :: x in c.cast + c.counted ==> x.ballot.height != h)
    && (forall b :: b in c.certified ==> b.height != h)
  }

  lemma NoVotesIsOneVote(c: Committee, votes: set<Cast>, h: nat, faulty: set<nat>)
    requires NoVotesAt(c, h) && votes <= c.cast + c.counted
    ensures HonestOneVote(c, votes, h, faulty)
  {
    forall m | 0 <= m < |c.voters| && m !in faulty ensures OneVoteAt(c.voters[m], h, CastBy(votes, m, h)) {
      assert CastBy(votes, m, h) == {};
    }
  }

  /** Two quorums of votes at one height are for one block, if honest members each have one vote. */
  lemma QuorumsAgree(c: Committee, votes: set<Cast>, weights: seq<nat>, faulty: set<nat>, h: nat, one: nat, other: nat)
    requires HonestOneVote(c, votes, h, faulty) && |weights| == |c.voters|
    requires 3 * Power(weights, faulty) < TotalPower(weights)
    requires Quorate(weights, votes, Ballot(h, one)) && Quorate(weights, votes, Ballot(h, other))
    ensures one == other
  {
    QuorumsShareAnHonestMember(weights, Supporters(votes, Ballot(h, one)), Supporters(votes, Ballot(h, other)), faulty);
    var m :| m in Supporters(votes, Ballot(h, one)) && m in Supporters(votes, Ballot(h, other)) && m !in faulty && m < |weights|;
    assert Cast(m, Ballot(h, one)) in votes && Cast(m, Ballot(h, other)) in votes;
    assert one in CastBy(votes, m, h) && other in CastBy(votes, m, h);
    assert OneVoteAt(c.voters[m], h, CastBy(votes, m, h));
  }

  /** For any committee and stake weights with less than a third of the weight
      faulty, in any run with crashes and restarts where honest members respect
      their locks at height h, at most one block at h gathers a quorum of broadcast votes. */
  lemma AtMostOneQuorumPerHeight(c: Committee, events: seq<Event>, weights: seq<nat>, faulty: set<nat>,
                                 h: nat, one: nat, other: nat)
    requires NoVotesAt(c, h)
    requires LockedRun(events, h, faulty)
    requires |weights| == |c.voters|
    requires 3 * Power(weights, faulty) < TotalPower(weights)
    requires var votes := Run(c, events, weights, faulty).cast;
             Quorate(weights, votes, Ballot(h, one)) && Quorate(weights, votes, Ballot(h, other))
    ensures one == other
  {
    NoVotesIsOneVote(c, c.cast, h, faulty);
    RunKeepsOneVote(c, events, h, weights, faulty);
    var t := Run(c, events, weights, faulty);
    QuorumsAgree(t, t.cast, weights, faulty, h, one, other);
  }

  // ---- Certificates ----

  /** An honest builder at height `h` counts its own vote only once it is persisted. */
  predicate CountsPersisted(c: Committee, e: Event, h: nat, faulty: set<nat>) {
    e.Build? && e.ballot.height == h && e.member !in faulty && OwnQueued(c, e.member, e.ballot) ==>
      e.ballot in c.voters[e.member].persisted
  }

  ghost predicate GuardedRun(c: Committee, events: seq<Event>, h: nat, weights: seq<nat>, faulty: set<nat>)
    decreases |events|
  {
    events == [] ||
    (CountsPersisted(c, events[0], h, faulty) && GuardedRun(Step(c, events[0], weights, faulty), events[1..], h, weights, faulty))
  }

  /** Every certificate at `h` has a quorum among the votes broadcast or counted, and each honest
      member has a single vote among them. */
  ghost predicate CertifiedOnce(c: Committee, h: nat, weights: seq<nat>, faulty: set<nat>) {
    && HonestOneVote(c, c.cast + c.counted, h, faulty)
    && forall b :: Ballot(h, b) in c.certified ==> Quorate(weights, c.cast + c.counted, Ballot(h, b))
  }

  lemma QuorateIsMonotone(weights: seq<nat>, votes: set<Cast>, more: set<Cast>, ballot: Ballot)
    requires votes <= more && Quorate(weights, votes, ballot)
    ensures Quorate(weights, more, ballot)
  {
    PowerIsMonotone(weights, Supporters(votes, ballot), Supporters(more, ballot));
  }

  lemma CertificatesStay(c: Committee, t: Committee, h: nat, weights: seq<nat>, faulty: set<nat>)
    requires CertifiedOnce(c, h, weights, faulty) && c.cast + c.counted <= t.cast + t.counted
    requires HonestOneVote(t, t.cast + t.counted, h, faulty)
    requires forall b :: Ballot(h, b) in t.certified && Ballot(h, b) !in c.certified ==>
                         Quorate(weights, t.cast + t.counted, Ballot(h, b))
    ensures CertifiedOnce(t, h, weights, faulty)
  {
    forall b | Ballot(h, b) in t.certified ensures Quorate(weights, t.cast + t.counted, Ballot(h, b)) {
      if Ballot(h, b) in c.certified {
        QuorateIsMonotone(weights, c.cast + c.counted, t.cast + t.counted, Ballot(h, b));
      }
    }
  }

  lemma BuildKeepsCertified(c: Committee, m: nat, ballot: Ballot, h: nat, weights: seq<nat>, faulty: set<nat>)
    requires CertifiedOnce(c, h, weights, faulty) && CountsPersisted(c, Build(m, ballot), h, faulty)
    ensures CertifiedOnce(Step(c, Build(m, ballot), weights, faulty), h, weights, faulty)
  {
    var t, own := Step(c, Build(m, ballot), weights, faulty), OwnVote(c, m, ballot);
    if Quorate(weights, c.cast + own, ballot) {
      assert t.cast + t.counted == c.cast + c.counted + own;
      if own != {} {
        JoiningKeepsOneVote(c, c.cast + c.counted, m, ballot, h, faulty);
      } else {
        assert c.cast + c.counted + own == c.cast + c.counted;
      }
      assert HonestOneVote(t, t.cast + t.counted, h, faulty);
      QuorateIsMonotone(weights, c.cast + own, t.cast + t.counted, ballot);
      CertificatesStay(c, t, h, weights, faulty);
    }
  }

  lemma JoinKeepsCertified(c: Committee, m: nat, ballot: Ballot, h: nat, weights: seq<nat>, faulty: set<nat>)
    requires CertifiedOnce(c, h, weights, faulty)
    requires m in faulty || (m < |c.voters| && ballot in c.voters[m].persisted)
    ensures CertifiedOnce(c.(cast := c.cast + {Cast(m, ballot)}), h, weights, faulty)
  {
    var t := c.(cast := c.cast + {Cast(m, ballot)});
    JoiningKeepsOneVote(c, c.cast + c.counted, m, ballot, h, faulty);
    assert t.cast + t.counted == c.cast + c.counted + {Cast(m, ballot)};
    CertificatesStay(c, t, h, weights, faulty);
  }

  lemma StepKeepsCertified(c: Committee, e: Event, h: nat, weights: seq<nat>, faulty: set<nat>)
    requires CertifiedOnce(c, h, weights, faulty)
    requires LockedRun([e], h, faulty) && CountsPersisted(c, e, h, faulty)
    ensures CertifiedOnce(Step(c, e, weights, faulty), h, weights, faulty)
    ensures |Step(c, e, weights, faulty).voters| == |c.voters|
  {
    assert e in [e];
    match e
    case Local(m, step) =>
      if m < |c.voters| { LocalKeepsOneVote(c, c.cast + c.counted, m, step, h, faulty); }
    case Broadcast(m, ballot) =>
      if m < |c.voters| && ballot in c.voters[m].persisted { JoinKeepsCertified(c, m, ballot, h, weights, faulty); }
    case Forge(m, ballot) =>
      if m in faulty { JoinKeepsCertified(c, m, ballot, h, weights, faulty); }
    case Build(m, ballot) => BuildKeepsCertified(c, m, ballot, h, weights, faulty);
  }

  lemma {:induction false} RunKeepsCertified(c: Committee, events: seq<Event>, h: nat, weights: seq<nat>, faulty: set<nat>)
    requires CertifiedOnce(c, h, weights, faulty)
    requires LockedRun(events, h, faulty) && GuardedRun(c, events, h, weights, faulty)
    ensures CertifiedOnce(Run(c, events, weights, faulty), h, weights, faulty)
    ensures |Run(c, events, weights, faulty).voters| == |c.voters|
    decreases |events|
  {
    if events != [] {
      assert events[0] in events;
      StepKeepsCertified(c, events[0], h, weights, faulty);
      RunKeepsCertified(Step(c, events[0], weights, faulty), events[1..], h, weights, faulty);
    }
  }

  /** With own votes counted as soon as they are created, at most one block at a height is ever
      certified if in addition honest builders count their own vote only once it is persisted. */
  lemma AtMostOneCertificatePerHeight(c: Committee, events: seq<Event>, weights: seq<nat>, faulty: set<nat>,
                                      h: nat, one: nat, other: nat)
    requires NoVotesAt(c, h)
    requires LockedRun(events, h, faulty) && GuardedRun(c, events, h, weights, faulty)
    requires |weights| == |c.voters|
    requires 3 * Power(weights, faulty) < TotalPower(weights)
    requires Ballot(h, one) in Run(c, events, weights, faulty).certified
    requires Ballot(h, other) in Run(c, events, weights, faulty).certified
    ensures one == other
  {
    NoVotesIsOneVote(c, c.cast + c.counted, h, faulty);
    RunKeepsCertified(c, events, h, weights, faulty);
    var t := Run(c, events, weights, faulty);
    QuorumsAgree(t, t.cast + t.counted, weights, faulty, h, one, other);
  }

  // ---- Why the builder's own vote must be persisted ----

  const FRESH := Voter(0, map[], map[], {}, {})

  /** A validator that voted for a block at height 1, before and after persisting. */
  function Voted(block: nat, persisted: bool): Voter {
    var ballots := {Ballot(1, block)};
    Voter(0, map[1 := block], if persisted then map[1 := block] else map[], ballots, if persisted then ballots else {})
  }

  lemma FirstVote(block: nat)
    ensures LocalStep(FRESH, TryVoteOn(Ballot(1, block))) == Voted(block, false)
    ensures LocalStep(Voted(block, false), PersistVote(Ballot(1, block))) == Voted(block, true)
  {
    var ballot := Ballot(1, block);
    assert FRESH.voted[1 := block] == map[1 := block] && FRESH.queued + {ballot} == {ballot};
    assert Voted(block, false).stored[1 := block] == map[1 := block];
    assert Voted(block, false).persisted + {ballot} == {ballot};
  }

  lemma {:induction false} RunConcat(c: Committee, a: seq<Event>, b: seq<Event>, weights: seq<nat>, faulty: set<nat>)
    ensures Run(c, a + b, weights, faulty) == Run(Run(c, a, weights, faulty), b, weights, faulty)
    decreases |a|
  {
    if a == [] {
      assert a + b == b;
    } else {
      assert (a + b)[1..] == a[1..] + b;
      RunConcat(Step(c, a[0], weights, faulty), a[1..], b, weights, faulty);
    }
  }

  lemma RunOne(c: Committee, e: Event, weights: seq<nat>, faulty: set<nat>)
    ensures Run(c, [e], weights, faulty) == Step(c, e, weights, faulty)
  {
    assert [e][1..] == [];
    assert Run(Step(c, e, weights, faulty), [], weights, faulty) == Step(c, e, weights, faulty);
  }

  /** Member `m` votes, persists and broadcasts. */
  function Sends(m: nat, block: nat): seq<Event> {
    [Local(m, TryVoteOn(Ballot(1, block)))] + [Local(m, PersistVote(Ballot(1, block)))] + [Broadcast(m, Ballot(1, block))]
  }

  lemma SendsVote(c: Committee, m: nat, block: nat, faulty: set<nat>)
    requires m < |c.voters| && c.voters[m] == FRESH
    ensures Run(c, Sends(m, block), FOUR, faulty) ==
            c.(voters := c.voters[m := Voted(block, true)], cast := c.cast + {Cast(m, Ballot(1, block))})
  {
    var e0, e1, e2 := Local(m, TryVoteOn(Ballot(1, block))), Local(m, PersistVote(Ballot(1, block))), Broadcast(m, Ballot(1, block));
    RunConcat(c, [e0] + [e1], [e2], FOUR, faulty);
    RunConcat(c, [e0], [e1], FOUR, faulty);
    RunOne(c, e0, FOUR, faulty);
    var c1 := c.(voters := c.voters[m := Voted(block, false)]);
    FirstVote(block);
    assert Step(c, e0, FOUR, faulty) == c1;
    RunOne(c1, e1, FOUR, faulty);
    var c2 := c.(voters := c.voters[m := Voted(block, true)]);
    assert c1.voters[m := Voted(block, true)] == c2.voters;
    assert Step(c1, e1, FOUR, faulty) == c2;
    RunOne(c2, e2, FOUR, faulty);
  }

  lemma ThreeOfFour(votes: set<Cast>, m: nat, block: nat)
    requires m == 1 || m == 2
    requires forall k :: k in {0, m, 3} ==> Cast(k, Ballot(1, block)) in votes
    ensures Quorate(FOUR, votes, Ballot(1, block))
  {
    forall k | k in {0, m, 3} ensures k in Supporters(votes, Ballot(1, block)) {
      assert Cast(k, Ballot(1, block)) in votes;
    }
    PowerIsMonotone(FOUR, {0, m, 3}, Supporters(votes, Ballot(1, block)));
    UnitPowerIsHeads(FOUR, {0, m, 3});
    assert |{0, m, 3}| == 3;
    OneOfFourFaulty();
  }

  /** Member 0 votes for the block without persisting; member `m` and the faulty member 3 send
      their votes for it; member 0 builds the certificate. */
  function Round(m: nat, block: nat): seq<Event> {
    [Local(0, TryVoteOn(Ballot(1, block)))] + Sends(m, block) + [Forge(3, Ballot(1, block))] + [Build(0, Ballot(1, block))]
  }

  lemma RoundCertifies(c: Committee, m: nat, block: nat)
    requires |c.voters| == 4 && (m == 1 || m == 2) && c.voters[0] == FRESH && c.voters[m] == FRESH
    ensures Run(c, Round(m, block), FOUR, {3}) ==
            Committee(c.voters[0 := Voted(block, false)][m := Voted(block, true)],
                      c.cast + {Cast(m, Ballot(1, block))} + {Cast(3, Ballot(1, block))},
                      c.counted + {Cast(0, Ballot(1, block))}, c.certified + {Ballot(1, block)})
  {
    var ballot := Ballot(1, block);
    var e0, e2, e3 := Local(0, TryVoteOn(ballot)), Forge(3, ballot), Build(0, ballot);
    RunConcat(c, [e0] + Sends(m, block) + [e2], [e3], FOUR, {3});
    RunConcat(c, [e0] + Sends(m, block), [e2], FOUR, {3});
    RunConcat(c, [e0], Sends(m, block), FOUR, {3});
    RunOne(c, e0, FOUR, {3});
    var c1 := c.(voters := c.voters[0 := Voted(block, false)]);
    FirstVote(block);
    assert Step(c, e0, FOUR, {3}) == c1;
    SendsVote(c1, m, block, {3});
    var c2 := c1.(voters := c1.voters[m := Voted(block, true)], cast := c.cast + {Cast(m, ballot)});
    RunOne(c2, e2, FOUR, {3});
    var c3 := c2.(cast := c2.cast + {Cast(3, ballot)});
    RunOne(c3, e3, FOUR, {3});
    assert OwnVote(c3, 0, ballot) == {Cast(0, ballot)};
    ThreeOfFour(c3.cast + {Cast(0, ballot)}, m, block);
  }

  /** Member 0 counts its own vote for block 7 before it is written, and certifies 7. It restarts,
      its lock is gone, and it votes for 8 and certifies 8: two certificates at one height, with
      one faulty member of four and every honest member respecting its lock. */
  lemma UnpersistedVoteAllowsTwoCertificates()
    ensures var c := Committee([FRESH, FRESH, FRESH, FRESH], {}, {}, {});
            var events := Round(1, 7) + [Local(0, RestartAt(0))] + Round(2, 8);
            && NoVotesAt(c, 1) && LockedRun(events, 1, {3})
            && 3 * Power(FOUR, {3}) < TotalPower(FOUR)
            && Ballot(1, 7) in Run(c, events, FOUR, {3}).certified
            && Ballot(1, 8) in Run(c, events, FOUR, {3}).certified
  {
    var c, e := Committee([FRESH, FRESH, FRESH, FRESH], {}, {}, {}), Local(0, RestartAt(0));
    TwoRounds(c);
    OneOfFourFaulty();
    RoundIsLocked(1, 7);
    RoundIsLocked(2, 8);
    LockedConcat(Round(1, 7), [e]);
    LockedConcat(Round(1, 7) + [e], Round(2, 8));
  }

  lemma TwoRounds(c: Committee)
    requires |c.voters| == 4 && forall m :: 0 <= m < 4 ==> c.voters[m] == FRESH
    ensures {Ballot(1, 7), Ballot(1, 8)} <= Run(c, Round(1, 7) + [Local(0, RestartAt(0))] + Round(2, 8), FOUR, {3}).certified
  {
    var e := Local(0, RestartAt(0));
    RoundCertifies(c, 1, 7);
    var c1 := Run(c, Round(1, 7), FOUR, {3});
    RunConcat(c, Round(1, 7), [e], FOUR, {3});
    RunOne(c1, e, FOUR, {3});
    var c2 := Step(c1, e, FOUR, {3});
    RestartForgets(c1);
    RunConcat(c, Round(1, 7) + [e], Round(2, 8), FOUR, {3});
    RoundCertifies(c2, 2, 8);
  }

  lemma RestartForgets(c: Committee)
    requires |c.voters| == 4 && c.voters[0] == Voted(7, false) && c.voters[2] == FRESH
    ensures var t := Step(c, Local(0, RestartAt(0)), FOUR, {3});
            |t.voters| == 4 && t.voters[0] == FRESH && t.voters[2] == FRESH && t.certified == c.certified
  {
    assert LocksAbove(map[], 0) == map[];
  }

  lemma OneOfFourFaulty()
    ensures 3 * Power(FOUR, {3}) < TotalPower(FOUR) == 4
  {
    UnitPowerIsHeads(FOUR, {3});
    FourTotal();
  }

  lemma LockedConcat(a: seq<Event>, b: seq<Event>)
    requires LockedRun(a, 1, {3}) && LockedRun(b, 1, {3})
    ensures LockedRun(a + b, 1, {3})
  {
  }

  lemma RoundIsLocked(m: nat, block: nat)
    ensures LockedRun(Round(m, block), 1, {3}) && LockedRun([Local(0, RestartAt(0))], 1, {3})
  {
  }
}
