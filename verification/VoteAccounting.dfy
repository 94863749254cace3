/**
 What every run of a vote set keeps: each committee member is counted at most once,
 as long as the answers to verification requests are clean, and exactly then.
 */
module VoteAccounting {
  import opened Options
  import opened Quorum
  import opened Sequences
  import opened VoteCounting

  /** A verification request: the votes already verified when it was sent, and the batch. */
  datatype Request = Request(verified: seq<Vote>, batch: seq<Vote>)

  /** A vote set, with the requests it has in flight, the requests of earlier sets for the same
      block that were discarded meanwhile, every vote accepted so far, the votes that left the
      set, and the power behind each batch sent. While the set is absent its tally is empty. */
  datatype World = World(
    present: bool,
    tally: Tally,
    inFlight: seq<Request>,
    stale: seq<Request>,
    accepted: seq<Vote>,
    gone: multiset<Vote>,
    sent: seq<nat>)

  datatype Event =
    | VoteArrives(index: nat, timestamp: nat, own: bool)
    | HeaderArrives
    | QcBuilt(late: bool, k: nat)
    | NoQc(late: bool, k: nat, valid: seq<Vote>)
    | Discard(header: bool)

  function Requests(w: World, late: bool): seq<Request> {
    if late then w.stale else w.inFlight
  }

  /** The environment answers requests in flight, in any order and with any votes. */
  predicate Legal(w: World, e: Event) {
    (e.QcBuilt? || e.NoQc?) ==> e.k < |Requests(w, e.late)|
  }

  function DropAt<T>(s: seq<T>, k: nat): seq<T>
    requires k < |s|
  {
    s[..k] + s[k + 1..]
  }

  function Take(w: World, late: bool, k: nat): World
    requires k < |Requests(w, late)|
  {
    if late then w.(stale := DropAt(w.stale, k)) else w.(inFlight := DropAt(w.inFlight, k))
  }

  function EmptyTally(members: nat, header: bool): Tally {
    Tally(header, [], [], seq(members, i => false), false, false)
  }

  function Send(w: World, total: nat): World {
    match Batch(w.tally, total)
    case None => w
    case Some(batch) =>
      w.(tally := Triggered(w.tally, total), inFlight := w.inFlight + [Request(w.tally.verified, batch)],
         sent := w.sent + [SumPower(w.tally.verified) + SumPower(batch)])
  }

  /** The set with the answered votes counted, before it looks for another batch. */
  function Counted(w: World, late: bool, k: nat, valid: seq<Vote>): World
    requires k < |Requests(w, late)|
  {
    Take(w, late, k).(
      tally := w.tally.(verified := w.tally.verified + valid, pending := false),
      gone := if late then w.gone else w.gone + (multiset(w.inFlight[k].batch) - multiset(valid)))
  }

  function Built(w: World, late: bool, k: nat): World
    requires k < |Requests(w, late)|
  {
    Take(w, late, k).(
      tally := w.tally.(built := true, pending := false),
      gone := if late then w.gone else w.gone + multiset(w.inFlight[k].batch))
  }

  function Step(weights: seq<nat>, w: World, e: Event): World
    requires Legal(w, e)
  {
    var total := TotalPower(weights);
    match e
    case VoteArrives(index, timestamp, own) =>
      if Counts(w.tally, weights, index) then
        var v := Vote(index, timestamp, weights[index]);
        Send(w.(present := true, tally := Added(w.tally, v, own), accepted := w.accepted + [v]), total)
      else w
    case HeaderArrives => Send(w.(tally := w.tally.(header := true)), total)
    case QcBuilt(late, k) => if w.present then Built(w, late, k) else Take(w, late, k)
    case NoQc(late, k, valid) => if w.present then Send(Counted(w, late, k, valid), total) else Take(w, late, k)
    case Discard(header) => World(false, EmptyTally(|weights|, header), [], w.stale + w.inFlight, [], multiset{}, w.sent)
  }

  ghost predicate LegalRun(weights: seq<nat>, w: World, events: seq<Event>)
    decreases |events|
  {
    events == [] || (Legal(w, events[0]) && LegalRun(weights, Step(weights, w, events[0]), events[1..]))
  }

  ghost function Run(weights: seq<nat>, w: World, events: seq<Event>): World
    requires LegalRun(weights, w, events)
    decreases |events|
  {
    if events == [] then w else Run(weights, Step(weights, w, events[0]), events[1..])
  }

  function Start(weights: seq<nat>, header: bool): World {
    World(false, EmptyTally(|weights|, header), [], [], [], multiset{}, [])
  }

  // ---- Votes of different members ----

  ghost predicate DistinctMembers(votes: seq<Vote>) {
    forall i, j :: 0 <= i < j < |votes| ==> votes[i].index != votes[j].index
  }

  function Members(votes: seq<Vote>): set<nat> {
    set v | v in votes :: v.index
  }

  lemma DistinctConcat(a: seq<Vote>, b: seq<Vote>)
    ensures DistinctMembers(a + b) <==> DistinctMembers(a) && DistinctMembers(b) && Members(a) !! Members(b)
  {
    var ab := a + b;
    if DistinctMembers(ab) {
      assert forall i :: 0 <= i < |a| ==> ab[i] == a[i];
      assert forall j :: 0 <= j < |b| ==> ab[|a| + j] == b[j];
      forall x, y | x in a && y in b ensures x.index != y.index {
        var i :| 0 <= i < |a| && a[i] == x;
        var j :| 0 <= j < |b| && b[j] == y;
        assert ab[i].index != ab[|a| + j].index;
      }
    }
    if DistinctMembers(a) && DistinctMembers(b) && Members(a) !! Members(b) {
      forall i, j | 0 <= i < j < |ab| ensures ab[i].index != ab[j].index {
        if i < |a| <= j {
          assert ab[i] in a && ab[j] in b;
          assert ab[i].index in Members(a) && ab[j].index in Members(b);
        }
      }
    }
  }

  lemma {:induction false} AtMostOnce(votes: seq<Vote>, v: Vote)
    requires DistinctMembers(votes)
    ensures multiset(votes)[v] <= 1
    decreases |votes|
  {
    if votes != [] {
      AtMostOnce(votes[1..], v);
      assert votes == [votes[0]] + votes[1..];
    }
  }

  lemma PartKeepsDistinct(part: seq<Vote>, votes: seq<Vote>)
    requires DistinctMembers(votes) && multiset(part) <= multiset(votes)
    ensures DistinctMembers(part)
    ensures forall v :: v in part ==> v in votes
  {
    forall i, j | 0 <= i < j < |part| ensures part[i].index != part[j].index {
      TwoPlaces(part, i, j);
      AtMostOnce(votes, part[i]);
      assert part[i] in multiset(part) && part[j] in multiset(part);
    }
    forall v | v in part ensures v in votes {
      assert v in multiset(part);
    }
  }

  lemma SameVotes(a: seq<Vote>, b: seq<Vote>)
    requires multiset(a) == multiset(b)
    ensures DistinctMembers(a) <==> DistinctMembers(b)
    ensures forall v :: v in a <==> v in b
  {
    if DistinctMembers(a) { PartKeepsDistinct(b, a); }
    if DistinctMembers(b) { PartKeepsDistinct(a, b); }
    forall v ensures v in a <==> v in b {
      assert v in multiset(a) <==> v in multiset(b);
    }
  }

  // ---- Where the votes are ----

  function Flat(requests: seq<Request>): seq<Vote> {
    if requests == [] then [] else requests[0].batch + Flat(requests[1..])
  }

  /** Verified, buffered and in-flight votes together. */
  function AllVotes(w: World): seq<Vote> {
    w.tally.verified + w.tally.unverified + Flat(w.inFlight)
  }

  /** The same without the batch of the answered request. */
  function Others(w: World, late: bool, k: nat): seq<Vote>
    requires k < |Requests(w, late)|
  {
    w.tally.verified + w.tally.unverified + Flat(if late then w.inFlight else DropAt(w.inFlight, k))
  }

  lemma {:induction false} FlatConcat(a: seq<Request>, b: seq<Request>)
    ensures Flat(a + b) == Flat(a) + Flat(b)
    decreases |a|
  {
    if a == [] {
      assert a + b == b;
    } else {
      assert (a + b)[1..] == a[1..] + b;
      FlatConcat(a[1..], b);
    }
  }

  lemma DropLater(requests: seq<Request>, k: nat)
    requires 0 < k < |requests|
    ensures DropAt(requests, k) != [] && DropAt(requests, k)[0] == requests[0]
    ensures DropAt(requests, k)[1..] == DropAt(requests[1..], k - 1)
  {
  }

  lemma {:induction false} FlatDrop(requests: seq<Request>, k: nat)
    requires k < |requests|
    ensures multiset(Flat(requests)) == multiset(requests[k].batch) + multiset(Flat(DropAt(requests, k)))
    decreases k
  {
    if k == 0 {
      assert DropAt(requests, k) == requests[1..];
    } else {
      var first, rest := requests[0], requests[1..];
      FlatDrop(rest, k - 1);
      DropLater(requests, k);
      assert Flat(DropAt(requests, k)) == first.batch + Flat(DropAt(rest, k - 1));
      assert Flat(requests) == first.batch + Flat(rest);
    }
  }

  lemma SendKeepsVotes(w: World, total: nat)
    ensures multiset(AllVotes(Send(w, total))) == multiset(AllVotes(w))
  {
    if ShouldTrigger(w.tally, total) {
      var r := Request(w.tally.verified, w.tally.unverified);
      FlatConcat(w.inFlight, [r]);
      assert Flat([r]) == r.batch + [];
    }
  }

  lemma CountedVotes(w: World, late: bool, k: nat, valid: seq<Vote>)
    requires k < |Requests(w, late)|
    ensures multiset(AllVotes(Counted(w, late, k, valid))) == multiset(valid + Others(w, late, k))
    ensures multiset(Others(w, late, k)) <= multiset(AllVotes(w))
  {
    if !late {
      FlatDrop(w.inFlight, k);
    }
  }

  lemma AnsweredVotes(weights: seq<nat>, w: World, late: bool, k: nat, valid: seq<Vote>)
    requires w.present && k < |Requests(w, late)|
    ensures multiset(AllVotes(Step(weights, w, NoQc(late, k, valid)))) == multiset(valid + Others(w, late, k))
  {
    CountedVotes(w, late, k, valid);
    assert Step(weights, w, NoQc(late, k, valid)) == Send(Counted(w, late, k, valid), TotalPower(weights));
    SendKeepsVotes(Counted(w, late, k, valid), TotalPower(weights));
  }

  /** One answer keeps every member counted at most once if and only if the members it returns
      are distinct and none of them is already verified, buffered or in another batch. */
  lemma AnswerKeepsMembersIff(weights: seq<nat>, w: World, late: bool, k: nat, valid: seq<Vote>)
    requires w.present && k < |Requests(w, late)| && DistinctMembers(AllVotes(w))
    ensures DistinctMembers(AllVotes(Step(weights, w, NoQc(late, k, valid)))) <==>
            DistinctMembers(valid) && Members(valid) !! Members(Others(w, late, k))
  {
    var rest := Others(w, late, k);
    AnsweredVotes(weights, w, late, k, valid);
    SameVotes(AllVotes(Step(weights, w, NoQc(late, k, valid))), valid + rest);
    CountedVotes(w, late, k, valid);
    PartKeepsDistinct(rest, AllVotes(w));
    DistinctConcat(valid, rest);
  }

  // ---- The invariant ----

  /** The votes carry their members' weight, and their members are marked as seen. */
  ghost predicate Seen(weights: seq<nat>, t: Tally, votes: seq<Vote>) {
    && |t.seen| == |weights|
    && forall v :: v in votes ==> v.index < |weights| && v.power == weights[v.index] && t.seen[v.index]
  }

  ghost predicate OneBatch(w: World) {
    && |w.inFlight| <= 1
    && (w.tally.pending <==> w.inFlight != [])
    && (w.tally.built ==> w.inFlight == [])
  }

  /** An absent set holds nothing, and requests carry votes verified before them. */
  ghost predicate Linked(w: World) {
    && (!w.present ==> w.tally.verified == [] && w.tally.unverified == [] && w.inFlight == [])
    && (forall r :: r in w.inFlight ==> r.verified <= w.tally.verified)
  }

  ghost predicate Inv(weights: seq<nat>, w: World) {
    DistinctMembers(AllVotes(w)) && Seen(weights, w.tally, AllVotes(w)) && OneBatch(w) && Linked(w)
  }

  /** Returned members are distinct, counted nowhere else and marked as seen, and no newer batch
      of the set is in flight. */
  ghost predicate CleanAnswer(weights: seq<nat>, w: World, late: bool, k: nat, valid: seq<Vote>)
    requires k < |Requests(w, late)|
  {
    && DistinctMembers(valid) && Members(valid) !! Members(Others(w, late, k))
    && Seen(weights, w.tally, valid)
    && OwnOrIdle(w, late)
  }

  ghost predicate OwnOrIdle(w: World, late: bool) {
    !late || w.inFlight == []
  }

  ghost predicate Clean(weights: seq<nat>, w: World, e: Event)
    requires Legal(w, e)
  {
    match e
    case QcBuilt(late, _) => w.present ==> OwnOrIdle(w, late)
    case NoQc(late, k, valid) => w.present ==> CleanAnswer(weights, w, late, k, valid)
    case _ => true
  }

  lemma SendKeepsOneBatch(w: World, total: nat)
    requires OneBatch(w)
    ensures OneBatch(Send(w, total))
  {
  }

  /** An answer keeps at most one batch in flight, with the flag telling, if and only if it is
      to the set's own request or nothing of the set is in flight. */
  lemma AnswerKeepsOneBatchIff(weights: seq<nat>, w: World, late: bool, k: nat, valid: seq<Vote>)
    requires w.present && k < |Requests(w, late)| && OneBatch(w)
    ensures OneBatch(Step(weights, w, NoQc(late, k, valid))) <==> OwnOrIdle(w, late)
  {
    var w1 := Counted(w, late, k, valid);
    assert Step(weights, w, NoQc(late, k, valid)) == Send(w1, TotalPower(weights));
    if OwnOrIdle(w, late) {
      assert w1.inFlight == [];
      SendKeepsOneBatch(w1, TotalPower(weights));
    } else {
      assert !w1.tally.pending && |w1.inFlight| == 1;
    }
  }

  lemma AnswerKeepsLinked(weights: seq<nat>, w: World, late: bool, k: nat, valid: seq<Vote>)
    requires w.present && k < |Requests(w, late)| && Linked(w)
    ensures Linked(Step(weights, w, NoQc(late, k, valid)))
  {
    var w1 := Counted(w, late, k, valid);
    assert Step(weights, w, NoQc(late, k, valid)) == Send(w1, TotalPower(weights));
    assert w.tally.verified <= w1.tally.verified;
  }

  /** An answer to a present set keeps the whole invariant if and only if it is clean. */
  lemma AnswerKeepsInvIff(weights: seq<nat>, w: World, late: bool, k: nat, valid: seq<Vote>)
    requires Inv(weights, w) && w.present && k < |Requests(w, late)|
    ensures Inv(weights, Step(weights, w, NoQc(late, k, valid))) <==> CleanAnswer(weights, w, late, k, valid)
  {
    AnswerKeepsMembersIff(weights, w, late, k, valid);
    AnswerKeepsOneBatchIff(weights, w, late, k, valid);
    AnswerKeepsLinked(weights, w, late, k, valid);
    AnswerKeepsSeenIff(weights, w, late, k, valid);
  }

  lemma OthersSeen(weights: seq<nat>, w: World, late: bool, k: nat)
    requires Inv(weights, w) && k < |Requests(w, late)|
    ensures Seen(weights, w.tally, Others(w, late, k))
  {
    CountedVotes(w, late, k, []);
    PartKeepsDistinct(Others(w, late, k), AllVotes(w));
  }

  lemma AnswerKeepsSeenIff(weights: seq<nat>, w: World, late: bool, k: nat, valid: seq<Vote>)
    requires Inv(weights, w) && w.present && k < |Requests(w, late)|
    ensures var w' := Step(weights, w, NoQc(late, k, valid));
            Seen(weights, w'.tally, AllVotes(w')) <==> Seen(weights, w.tally, valid)
  {
    var w', rest := Step(weights, w, NoQc(late, k, valid)), Others(w, late, k);
    AnsweredVotes(weights, w, late, k, valid);
    SameVotes(AllVotes(w'), valid + rest);
    OthersSeen(weights, w, late, k);
    assert w'.tally.seen == Counted(w, late, k, valid).tally.seen == w.tally.seen;
    SeenOfSame(weights, w.tally, w'.tally, AllVotes(w'), valid, rest);
  }

  lemma SeenOfSame(weights: seq<nat>, t: Tally, t': Tally, all: seq<Vote>, a: seq<Vote>, b: seq<Vote>)
    requires t'.seen == t.seen && Seen(weights, t, b)
    requires forall v :: v in all <==> v in a + b
    ensures Seen(weights, t', all) <==> Seen(weights, t, a)
  {
    assert forall v :: v in a ==> v in a + b;
  }

  lemma BuiltKeepsInvIff(weights: seq<nat>, w: World, late: bool, k: nat)
    requires Inv(weights, w) && w.present && k < |Requests(w, late)|
    ensures Inv(weights, Step(weights, w, QcBuilt(late, k))) <==> OwnOrIdle(w, late)
  {
    var w', rest := Step(weights, w, QcBuilt(late, k)), Others(w, late, k);
    CountedVotes(w, late, k, []);
    PartKeepsDistinct(rest, AllVotes(w));
    assert AllVotes(w') == rest;
    if OwnOrIdle(w, late) {
      assert w'.inFlight == [];
    }
  }

  lemma AddedVotes(w: World, t: Tally, v: Vote, own: bool)
    requires w.tally == Added(t, v, own) && !HasSeen(t, v.index)
    ensures multiset(AllVotes(w)) == multiset([v] + (t.verified + t.unverified + Flat(w.inFlight)))
  {
  }

  lemma NewMember(weights: seq<nat>, t: Tally, votes: seq<Vote>, v: Vote)
    requires DistinctMembers(votes) && Seen(weights, t, votes) && !HasSeen(t, v.index)
    ensures DistinctMembers([v] + votes)
  {
    forall x | x in votes ensures x.index != v.index {
      assert HasSeen(t, x.index);
    }
    assert Members([v]) == {v.index};
    DistinctConcat([v], votes);
  }

  lemma VoteKeepsInv(weights: seq<nat>, w: World, v: Vote, own: bool)
    requires Inv(weights, w) && Counts(w.tally, weights, v.index) && v.power == weights[v.index]
    ensures Inv(weights, w.(present := true, tally := Added(w.tally, v, own), accepted := w.accepted + [v]))
  {
    var w' := w.(present := true, tally := Added(w.tally, v, own), accepted := w.accepted + [v]);
    AddedVotes(w', w.tally, v, own);
    NewMember(weights, w.tally, AllVotes(w), v);
    SameVotes(AllVotes(w'), [v] + AllVotes(w));
    AddedSeen(weights, w.tally, AllVotes(w), v, own, AllVotes(w'));
    assert w.tally.verified <= w'.tally.verified;
  }

  lemma AddedSeen(weights: seq<nat>, t: Tally, votes: seq<Vote>, v: Vote, own: bool, all: seq<Vote>)
    requires Seen(weights, t, votes) && Counts(t, weights, v.index) && v.power == weights[v.index]
    requires forall x :: x in all <==> x in [v] + votes
    ensures Seen(weights, Added(t, v, own), all)
  {
    assert Added(t, v, own).seen == t.seen[v.index := true];
  }

  lemma SendKeepsInv(weights: seq<nat>, w: World)
    requires Inv(weights, w)
    ensures Inv(weights, Send(w, TotalPower(weights)))
  {
    var w' := Send(w, TotalPower(weights));
    SendKeepsVotes(w, TotalPower(weights));
    SameVotes(AllVotes(w'), AllVotes(w));
    SendKeepsOneBatch(w, TotalPower(weights));
  }

  /** Every event whose answer is clean keeps the invariant; votes, headers and discarding the
      set always do. */
  lemma StepKeepsInv(weights: seq<nat>, w: World, e: Event)
    requires Inv(weights, w) && Legal(w, e) && Clean(weights, w, e)
    ensures Inv(weights, Step(weights, w, e))
  {
    match e
    case VoteArrives(index, timestamp, own) =>
      if Counts(w.tally, weights, index) {
        var v := Vote(index, timestamp, weights[index]);
        VoteKeepsInv(weights, w, v, own);
        SendKeepsInv(weights, w.(present := true, tally := Added(w.tally, v, own), accepted := w.accepted + [v]));
      }
    case HeaderArrives =>
      var w' := w.(tally := w.tally.(header := true));
      assert AllVotes(w') == AllVotes(w);
      SendKeepsInv(weights, w');
    case QcBuilt(late, k) =>
      if w.present { BuiltKeepsInvIff(weights, w, late, k); } else { TakeFromAbsent(weights, w, late, k); }
    case NoQc(late, k, valid) =>
      if w.present { AnswerKeepsInvIff(weights, w, late, k, valid); } else { TakeFromAbsent(weights, w, late, k); }
    case Discard(header) =>
      assert AllVotes(Step(weights, w, e)) == [];
  }

  lemma TakeFromAbsent(weights: seq<nat>, w: World, late: bool, k: nat)
    requires Inv(weights, w) && !w.present && k < |Requests(w, late)|
    ensures Inv(weights, Take(w, late, k))
  {
    assert late;
  }

  ghost predicate CleanRun(weights: seq<nat>, w: World, events: seq<Event>)
    requires LegalRun(weights, w, events)
    decreases |events|
  {
    events == [] || (Clean(weights, w, events[0]) && CleanRun(weights, Step(weights, w, events[0]), events[1..]))
  }

  lemma {:induction false} RunKeepsInv(weights: seq<nat>, w: World, events: seq<Event>)
    requires Inv(weights, w) && LegalRun(weights, w, events) && CleanRun(weights, w, events)
    ensures Inv(weights, Run(weights, w, events))
    decreases |events|
  {
    if events != [] {
      StepKeepsInv(weights, w, events[0]);
      RunKeepsInv(weights, Step(weights, w, events[0]), events[1..]);
    }
  }

  // ---- Which answers are clean ----

  /** An answer with votes taken from the batch of the set's own request is clean. */
  lemma BatchAnswerIsClean(weights: seq<nat>, w: World, k: nat, valid: seq<Vote>)
    requires Inv(weights, w) && k < |w.inFlight| && multiset(valid) <= multiset(w.inFlight[k].batch)
    ensures CleanAnswer(weights, w, false, k, valid)
  {
    var rest := Others(w, false, k);
    FlatDrop(w.inFlight, k);
    assert multiset(valid + rest) <= multiset(AllVotes(w));
    PartKeepsDistinct(valid + rest, AllVotes(w));
    DistinctConcat(valid, rest);
    assert forall v :: v in valid ==> v in valid + rest;
  }

  /** The runners start from the votes verified before and add the valid ones of the batch. Such
      an answer is clean if and only if nothing had been verified when the request was sent. */
  lemma RunnerAnswerIsCleanIffNothingVerified(weights: seq<nat>, w: World, k: nat, part: seq<Vote>)
    requires Inv(weights, w) && k < |w.inFlight| && multiset(part) <= multiset(w.inFlight[k].batch)
    ensures CleanAnswer(weights, w, false, k, w.inFlight[k].verified + part) <==> w.inFlight[k].verified == []
  {
    var r := w.inFlight[k];
    if r.verified == [] {
      assert r.verified + part == part;
      BatchAnswerIsClean(weights, w, k, part);
    } else {
      var v := r.verified[0];
      assert r in w.inFlight && v == w.tally.verified[0];
      assert v in r.verified + part && v in Others(w, false, k);
      assert v.index in Members(r.verified + part) && v.index in Members(Others(w, false, k));
    }
  }

  // ---- What the invariant means ----

  lemma {:induction false} SumOfConcat(a: seq<Vote>, b: seq<Vote>)
    ensures SumPower(a + b) == SumPower(a) + SumPower(b)
    decreases |b|
  {
    if b == [] {
      assert a + b == a;
    } else {
      SumOfConcat(a, b[..|b| - 1]);
      assert (a + b)[..|a + b| - 1] == a + b[..|b| - 1];
    }
  }

  /** Votes of different members count for exactly the members' joint power. */
  lemma {:induction false} SumIsMemberPower(weights: seq<nat>, votes: seq<Vote>)
    requires DistinctMembers(votes)
    requires forall v :: v in votes ==> v.index < |weights| && v.power == weights[v.index]
    ensures SumPower(votes) == Power(weights, Members(votes))
    decreases |votes|
  {
    if votes == [] {
      PowerOfNone(weights);
      assert Members(votes) == {};
    } else {
      var rest, last := votes[..|votes| - 1], votes[|votes| - 1];
      SumIsMemberPower(weights, rest);
      assert votes == rest + [last];
      assert Members(votes) == Members(rest) + {last.index};
      assert Members(rest) * {last.index} == {};
      PowerOfUnion(weights, Members(rest), {last.index});
      PowerOfOne(weights, last.index);
    }
  }

  lemma StartHolds(weights: seq<nat>, header: bool)
    ensures Inv(weights, Start(weights, header))
  {
    assert AllVotes(Start(weights, header)) == [];
  }

  /** In every run whose answers are clean, whatever arrives in whatever order and however often
      the set is discarded: each committee member occurs at most once among verified, buffered and
      in-flight votes, the counted power is those members' and never exceeds the committee's, at
      most one batch is in flight, and none is once a certificate was built. */
  lemma RunCountsEachMemberOnce(weights: seq<nat>, header: bool, events: seq<Event>)
    requires LegalRun(weights, Start(weights, header), events) && CleanRun(weights, Start(weights, header), events)
    ensures var w := Run(weights, Start(weights, header), events);
            && DistinctMembers(AllVotes(w))
            && SumPower(w.tally.verified) + SumPower(w.tally.unverified) + SumPower(Flat(w.inFlight))
               == Power(weights, Members(AllVotes(w))) <= TotalPower(weights)
            && |w.inFlight| <= 1 && (w.tally.built ==> w.inFlight == [])
  {
    var w := Run(weights, Start(weights, header), events);
    StartHolds(weights, header);
    RunKeepsInv(weights, Start(weights, header), events);
    SumOfConcat(w.tally.verified + w.tally.unverified, Flat(w.inFlight));
    SumOfConcat(w.tally.verified, w.tally.unverified);
    SumIsMemberPower(weights, AllVotes(w));
    PowerAtMostTotal(weights, Members(AllVotes(w)));
  }

  // ---- Whatever the answers ----

  ghost predicate QuorumPossible(weights: seq<nat>, sent: seq<nat>) {
    forall p :: p in sent ==> HasQuorum(p, TotalPower(weights))
  }

  /** In every run at all, no batch is sent without a possible quorum by the set's own count, and
      none after a certificate was built as long as the set is not discarded. */
  lemma {:induction false} RunSendsOnlyWhenDue(weights: seq<nat>, w: World, events: seq<Event>)
    requires LegalRun(weights, w, events) && QuorumPossible(weights, w.sent)
    ensures QuorumPossible(weights, Run(weights, w, events).sent)
    ensures w.tally.built && (forall e :: e in events ==> !e.Discard?) ==> Run(weights, w, events).sent == w.sent
    decreases |events|
  {
    if events != [] {
      var e, w' := events[0], Step(weights, w, events[0]);
      assert e in events;
      assert QuorumPossible(weights, w'.sent);
      assert w.tally.built && !e.Discard? ==> w'.tally.built && w'.sent == w.sent;
      RunSendsOnlyWhenDue(weights, w', events[1..]);
    }
  }

  /** In every run, no batch is sent before the header is known: not until one arrives or the set is
      recreated with one. */
  lemma {:induction false} RunSendsNothingWithoutHeader(weights: seq<nat>, w: World, events: seq<Event>)
    requires LegalRun(weights, w, events) && !w.tally.header
    requires forall e :: e in events ==> !e.HeaderArrives? && !(e.Discard? && e.header)
    ensures Run(weights, w, events).sent == w.sent && !Run(weights, w, events).tally.header
    decreases |events|
  {
    if events != [] {
      var e, w' := events[0], Step(weights, w, events[0]);
      assert e in events;
      assert !w'.tally.header && w'.sent == w.sent;
      RunSendsNothingWithoutHeader(weights, w', events[1..]);
    }
  }

  lemma SendLeavesNothingDue(w: World, total: nat)
    ensures !ShouldTrigger(Send(w, total).tally, total)
  {
  }

  /** In every run, no batch that could be sent is left waiting between events. */
  lemma {:induction false} RunLeavesNothingDue(weights: seq<nat>, w: World, events: seq<Event>)
    requires LegalRun(weights, w, events) && !ShouldTrigger(w.tally, TotalPower(weights))
    ensures !ShouldTrigger(Run(weights, w, events).tally, TotalPower(weights))
    decreases |events|
  {
    if events != [] {
      var w' := Step(weights, w, events[0]);
      StepLeavesNothingDue(weights, w, events[0]);
      RunLeavesNothingDue(weights, w', events[1..]);
    }
  }

  lemma StepLeavesNothingDue(weights: seq<nat>, w: World, e: Event)
    requires Legal(w, e) && !ShouldTrigger(w.tally, TotalPower(weights))
    ensures !ShouldTrigger(Step(weights, w, e).tally, TotalPower(weights))
  {
    var total := TotalPower(weights);
    match e
    case VoteArrives(index, timestamp, own) =>
      if Counts(w.tally, weights, index) {
        var v := Vote(index, timestamp, weights[index]);
        SendLeavesNothingDue(w.(present := true, tally := Added(w.tally, v, own), accepted := w.accepted + [v]), total);
      }
    case HeaderArrives => SendLeavesNothingDue(w.(tally := w.tally.(header := true)), total);
    case QcBuilt(_, _) =>
    case NoQc(late, k, valid) => SendLeavesNothingDue(Counted(w, late, k, valid), total);
    case Discard(_) =>
  }

  ghost predicate MembersOnly(weights: seq<nat>, votes: seq<Vote>) {
    forall v :: v in votes ==> v.index < |weights| && v.power == weights[v.index] != 0
  }

  /** In every run, each accepted vote is from a committee member with power, and counts with
      exactly that member's power. */
  lemma {:induction false} RunAcceptsOnlyMembers(weights: seq<nat>, w: World, events: seq<Event>)
    requires LegalRun(weights, w, events) && MembersOnly(weights, w.accepted)
    ensures MembersOnly(weights, Run(weights, w, events).accepted)
    decreases |events|
  {
    if events != [] {
      var w' := Step(weights, w, events[0]);
      assert MembersOnly(weights, w'.accepted);
      RunAcceptsOnlyMembers(weights, w', events[1..]);
    }
  }

  // ---- The weighted time ----

  /** The stake-weighted time, which divides this sum by the power, lies between the times of the
      votes counted. */
  lemma {:induction false} WeightedTimeIsBetween(votes: seq<Vote>, low: nat, high: nat)
    requires forall v :: v in votes ==> low <= v.timestamp <= high
    ensures low * SumPower(votes) <= SumWeightedTime(votes) <= high * SumPower(votes)
    decreases |votes|
  {
    if votes != [] {
      var last := votes[|votes| - 1];
      WeightedTimeIsBetween(votes[..|votes| - 1], low, high);
      assert last in votes;
      OneMoreBetween(low, high, SumPower(votes[..|votes| - 1]), SumWeightedTime(votes[..|votes| - 1]), last.power, last.timestamp);
    }
  }

  lemma OneMoreBetween(low: nat, high: nat, power: nat, sum: nat, p: nat, time: nat)
    requires low * power <= sum <= high * power && low <= time <= high
    ensures low * (power + p) <= sum + time * p <= high * (power + p)
  {
    assert low * p <= time * p <= high * p;
    assert low * (power + p) == low * power + low * p && high * (power + p) == high * power + high * p;
  }

  // ---- Conservation ----

  /** Every accepted vote is in exactly one place: verified, buffered, in flight, or gone with an
      answered batch. */
  ghost predicate Conserved(w: World) {
    multiset(w.accepted) == multiset(AllVotes(w)) + w.gone
  }

  /** The set's own requests are answered with votes from their batch, others while it is absent. */
  predicate FromBatch(w: World, e: Event)
    requires Legal(w, e)
  {
    e.NoQc? && w.present ==> !e.late && multiset(e.valid) <= multiset(w.inFlight[e.k].batch)
  }

  lemma TakeConserves(w: World, late: bool, k: nat, valid: seq<Vote>)
    requires Conserved(w) && k < |Requests(w, late)|
    requires if late then valid == [] else multiset(valid) <= multiset(w.inFlight[k].batch)
    ensures Conserved(Counted(w, late, k, valid))
  {
    CountedVotes(w, late, k, valid);
    if late {
      assert valid + Others(w, late, k) == AllVotes(w);
    } else {
      FlatDrop(w.inFlight, k);
    }
  }

  lemma SendConserves(w: World, total: nat)
    requires Conserved(w)
    ensures Conserved(Send(w, total))
  {
    SendKeepsVotes(w, total);
  }

  lemma VoteConserves(w: World, v: Vote, own: bool)
    requires Conserved(w) && !HasSeen(w.tally, v.index)
    ensures Conserved(w.(present := true, tally := Added(w.tally, v, own), accepted := w.accepted + [v]))
  {
    AddedVotes(w.(present := true, tally := Added(w.tally, v, own), accepted := w.accepted + [v]), w.tally, v, own);
  }

  lemma BuiltConserves(w: World, late: bool, k: nat)
    requires Conserved(w) && k < |Requests(w, late)|
    ensures Conserved(Built(w, late, k))
  {
    TakeConserves(w, late, k, []);
    assert AllVotes(Built(w, late, k)) == AllVotes(Counted(w, late, k, [])) by {
      assert w.tally.verified + [] == w.tally.verified;
    }
  }

  lemma StepConserves(weights: seq<nat>, w: World, e: Event)
    requires Conserved(w) && Linked(w) && Legal(w, e) && FromBatch(w, e)
    ensures Conserved(Step(weights, w, e))
  {
    var total := TotalPower(weights);
    match e
    case VoteArrives(index, timestamp, own) =>
      if Counts(w.tally, weights, index) {
        var v := Vote(index, timestamp, weights[index]);
        VoteConserves(w, v, own);
        SendConserves(w.(present := true, tally := Added(w.tally, v, own), accepted := w.accepted + [v]), total);
      }
    case HeaderArrives =>
      SendConserves(w.(tally := w.tally.(header := true)), total);
    case QcBuilt(late, k) =>
      if w.present {
        BuiltConserves(w, late, k);
      }
    case NoQc(late, k, valid) =>
      if w.present {
        TakeConserves(w, late, k, valid);
        SendConserves(Counted(w, late, k, valid), total);
      }
    case Discard(_) =>
  }

  // ---- Two answers that are not clean ----

  function V(i: nat): Vote {
    Vote(i, 0, 1)
  }

  lemma SumOfUnits(a: nat, b: nat, c: nat)
    ensures SumPower([V(a)]) == 1 && SumPower([V(a), V(b)]) == 2 && SumPower([V(a), V(b), V(c)]) == 3
  {
    assert [V(a)][..0] == [] && [V(a), V(b)][..1] == [V(a)] && [V(a), V(b), V(c)][..2] == [V(a), V(b)];
  }

  function SeenUpTo(n: nat): seq<bool> {
    seq(4, i => i < n)
  }

  /** The set of four members that has seen the votes of the first `n`. */
  function Four(n: nat, verified: seq<Vote>, unverified: seq<Vote>, inFlight: seq<Request>, accepted: seq<Vote>, sent: seq<nat>): World {
    World(true, Tally(true, verified, unverified, SeenUpTo(n), inFlight != [], false), inFlight, [], accepted, multiset{}, sent)
  }

  lemma NextSeen(n: nat)
    requires n < 4
    ensures MarkSeen(SeenUpTo(n), n) == SeenUpTo(n + 1)
    ensures FOUR[n] == 1
  {
  }

  /** The first vote for a set that was never there, or was discarded. */
  lemma FirstVote(w: World, own: bool)
    requires !w.present && w.tally == EmptyTally(4, true) && w.inFlight == [] && w.accepted == []
    ensures Step(FOUR, w, VoteArrives(0, 0, own)) ==
            w.(present := true, accepted := [V(0)],
               tally := Tally(true, if own then [V(0)] else [], if own then [] else [V(0)], SeenUpTo(1), false, false))
  {
    FourTotal();
    SumOfUnits(0, 1, 2);
    NextSeen(0);
    assert seq(4, i => false) == SeenUpTo(0);
  }

  lemma VoteStep(w: World, n: nat)
    requires n < 4 && w.present && w.tally.seen == SeenUpTo(n)
    ensures Step(FOUR, w, VoteArrives(n, 0, false)) ==
            Send(w.(tally := w.tally.(unverified := w.tally.unverified + [V(n)], seen := SeenUpTo(n + 1)),
                    accepted := w.accepted + [V(n)]), 4)
  {
    FourTotal();
    NextSeen(n);
    assert !SeenUpTo(n)[n];
  }

  lemma RunCons(weights: seq<nat>, w: World, e: Event, rest: seq<Event>)
    requires Legal(w, e) && LegalRun(weights, Step(weights, w, e), rest)
    ensures LegalRun(weights, w, [e] + rest)
    ensures Run(weights, w, [e] + rest) == Run(weights, Step(weights, w, e), rest)
  {
    assert ([e] + rest)[1..] == rest;
  }

  lemma RunConsThree(weights: seq<nat>, w: World, e0: Event, e1: Event, e2: Event, rest: seq<Event>)
    requires Legal(w, e0) && Legal(Step(weights, w, e0), e1) && Legal(Step(weights, Step(weights, w, e0), e1), e2)
    requires LegalRun(weights, Step(weights, Step(weights, Step(weights, w, e0), e1), e2), rest)
    ensures LegalRun(weights, w, [e0, e1, e2] + rest)
    ensures Run(weights, w, [e0, e1, e2] + rest) == Run(weights, Step(weights, Step(weights, Step(weights, w, e0), e1), e2), rest)
  {
    var w1 := Step(weights, w, e0);
    RunCons(weights, Step(weights, w1, e1), e2, rest);
    RunCons(weights, w1, e1, [e2] + rest);
    RunCons(weights, w, e0, [e1] + ([e2] + rest));
    assert [e0, e1, e2] + rest == [e0] + ([e1] + ([e2] + rest));
  }

  function AfterOne(own: bool): World {
    Four(1, if own then [V(0)] else [], if own then [] else [V(0)], [], [V(0)], [])
  }

  function AfterTwo(own: bool): World {
    Four(2, if own then [V(0)] else [], if own then [V(1)] else [V(0), V(1)], [], [V(0), V(1)], [])
  }

  lemma StepTwo(own: bool)
    ensures Step(FOUR, AfterOne(own), VoteArrives(1, 0, false)) == AfterTwo(own)
  {
    VoteStep(AfterOne(own), 1);
    SumOfUnits(0, 1, 2);
    SumOfUnits(1, 2, 3);
    assert [] + [V(1)] == [V(1)] && [V(0)] + [V(1)] == [V(0), V(1)];
    assert !ShouldTrigger(AfterTwo(own).tally, 4);
  }

  /** Third vote added, nothing sent yet. */
  function Ready(own: bool): World {
    Four(3, if own then [V(0)] else [], if own then [V(1), V(2)] else [V(0), V(1), V(2)], [], [V(0), V(1), V(2)], [])
  }

  lemma ReadySends(own: bool)
    ensures Send(Ready(own), 4) == AfterThree(own)
  {
    SumOfUnits(0, 1, 2);
    SumOfUnits(1, 2, 3);
    assert SumPower(Ready(own).tally.verified) + SumPower(Ready(own).tally.unverified) == 3;
  }

  lemma StepThree(own: bool)
    ensures Step(FOUR, AfterTwo(own), VoteArrives(2, 0, false)) == AfterThree(own)
  {
    VoteStep(AfterTwo(own), 2);
    assert [V(1)] + [V(2)] == [V(1), V(2)] && [V(0), V(1)] + [V(2)] == [V(0), V(1), V(2)];
    ReadySends(own);
  }

  lemma ThreeVotes(own: bool, rest: seq<Event>)
    requires LegalRun(FOUR, AfterThree(own), rest)
    ensures LegalRun(FOUR, Start(FOUR, true), Three(own) + rest)
    ensures Run(FOUR, Start(FOUR, true), Three(own) + rest) == Run(FOUR, AfterThree(own), rest)
  {
    FirstVote(Start(FOUR, true), own);
    assert Step(FOUR, Start(FOUR, true), Three(own)[0]) == AfterOne(own);
    StepTwo(own);
    StepThree(own);
    RunConsThree(FOUR, Start(FOUR, true), Three(own)[0], Three(own)[1], Three(own)[2], rest);
    assert Three(own) == [Three(own)[0], Three(own)[1], Three(own)[2]];
  }

  function Three(own: bool): seq<Event> {
    [VoteArrives(0, 0, own), VoteArrives(1, 0, false), VoteArrives(2, 0, false)]
  }

  function AfterThree(own: bool): World {
    var verified := if own then [V(0)] else [];
    Four(3, verified, [], [Request(verified, if own then [V(1), V(2)] else [V(0), V(1), V(2)])], [V(0), V(1), V(2)], [3])
  }

  lemma TwoOfFour(votes: seq<Vote>)
    requires Members(votes) == {0, 1}
    ensures !HasQuorum(Power(FOUR, Members(votes)), TotalPower(FOUR))
  {
    FourTotal();
    PowerOfOne(FOUR, 0);
    PowerOfOne(FOUR, 1);
    PowerOfUnion(FOUR, {0}, {1});
    assert {0} + {1} == {0, 1} && {0} * {1} == {};
  }

  /** The own vote is verified when the batch is sent. Vote 2 of the batch is invalid, and the
      answer returns the own vote along with vote 1: the own vote counts twice, and two members
      of four pass for a quorum. */
  lemma EchoedVoteCountsTwice()
    ensures var events := Three(true) + [NoQc(false, 0, [V(0), V(1)])];
            && LegalRun(FOUR, Start(FOUR, true), events)
            && var t := Run(FOUR, Start(FOUR, true), events).tally;
               && t.verified == [V(0), V(0), V(1)]
               && HasQuorum(SumPower(t.verified), TotalPower(FOUR))
               && !HasQuorum(Power(FOUR, Members(t.verified)), TotalPower(FOUR))
  {
    EchoRun();
    EchoAnswer();
    TwoPassForThree();
  }

  lemma TwoPassForThree()
    ensures HasQuorum(SumPower([V(0), V(0), V(1)]), TotalPower(FOUR))
    ensures !HasQuorum(Power(FOUR, Members([V(0), V(0), V(1)])), TotalPower(FOUR))
  {
    SumOfUnits(0, 0, 1);
    FourTotal();
    assert Members([V(0), V(0), V(1)]) == {0, 1};
    TwoOfFour([V(0), V(0), V(1)]);
  }

  lemma EchoRun()
    ensures var e := NoQc(false, 0, [V(0), V(1)]);
            && LegalRun(FOUR, Start(FOUR, true), Three(true) + [e])
            && Run(FOUR, Start(FOUR, true), Three(true) + [e]) == Step(FOUR, AfterThree(true), e)
  {
    var w, e := AfterThree(true), NoQc(false, 0, [V(0), V(1)]);
    assert LegalRun(FOUR, Step(FOUR, w, e), []);
    RunCons(FOUR, w, e, []);
    assert [e] + [] == [e];
    ThreeVotes(true, [e]);
  }

  lemma EchoAnswer()
    ensures Step(FOUR, AfterThree(true), NoQc(false, 0, [V(0), V(1)])).tally.verified == [V(0), V(0), V(1)]
  {
    assert [V(0)] + [V(0), V(1)] == [V(0), V(0), V(1)];
  }

  /** A round change discards the set while its batch is in flight. A repeated vote of member 0
      creates it anew, and then the old answer arrives: member 0 is both verified and sent off
      again, and two members of four make a batch with a possible quorum. */
  lemma AnswerToDiscardedSetCountsTwice()
    ensures var events := Three(false) + [Discard(true), VoteArrives(0, 0, false), NoQc(true, 0, [V(0), V(1)])];
            && LegalRun(FOUR, Start(FOUR, true), events)
            && var w := Run(FOUR, Start(FOUR, true), events);
               && w.tally.verified == [V(0), V(1)] && w.inFlight == [Request([V(0), V(1)], [V(0)])]
               && !HasQuorum(Power(FOUR, Members(AllVotes(w))), TotalPower(FOUR))
  {
    var w0 := AfterThree(false);
    var e0, e1, e2 := Discard(true), VoteArrives(0, 0, false), NoQc(true, 0, [V(0), V(1)]);
    var w1 := World(false, EmptyTally(4, true), [], w0.inFlight, [], multiset{}, [3]);
    assert Step(FOUR, w0, e0) == w1;
    FirstVote(w1, false);
    var w2 := Step(FOUR, w1, e1);
    LateAnswer(w2);
    var w3 := Step(FOUR, w2, e2);
    assert LegalRun(FOUR, w3, []);
    RunCons(FOUR, w2, e2, []);
    RunCons(FOUR, w1, e1, [e2] + []);
    RunCons(FOUR, w0, e0, [e1] + ([e2] + []));
    assert [e0] + ([e1] + ([e2] + [])) == [e0, e1, e2];
    ThreeVotes(false, [e0, e1, e2]);
    assert Flat(w3.inFlight) == [V(0)] + [];
    assert AllVotes(w3) == [V(0), V(1), V(0)];
    assert Members(AllVotes(w3)) == {0, 1};
    TwoOfFour(AllVotes(w3));
  }

  lemma LateAnswer(w: World)
    requires w.present && w.tally == Tally(true, [], [V(0)], SeenUpTo(1), false, false)
    requires w.inFlight == [] && |w.stale| == 1
    ensures var w' := Step(FOUR, w, NoQc(true, 0, [V(0), V(1)]));
            w'.tally.verified == [V(0), V(1)] && w'.tally.unverified == [] && w'.inFlight == [Request([V(0), V(1)], [V(0)])]
  {
    FourTotal();
    SumOfUnits(0, 1, 0);
    assert [] + [V(0), V(1)] == [V(0), V(1)];
  }
}
