/** The round trip of an access unit through the jitter buffer, over every order of arrival:
    when it comes out whole, when only part of it does, and which units any order will do for. */
module RoundTrips {
  import opened Serial
  import opened H264
  import opened IdrScan
  import opened Assembly
  import opened VideoJitter
  import opened PartOfUnit
  import opened Delivery

  // ---- when something comes out, and what ----------------------------------------------------

  lemma SameGatheredSameMade(x: Sending, order: seq<nat>, i: nat)
    requires x.Valid() && InRange(order, x.Size()) && i in order
    ensures InRange(order + [i], x.Size()) && Made(x, order + [i]) == Made(x, order)
  {
    GatheredIs(order, x.Size());
    GatheredStep(order, i);
    assert InRange(order + [i], x.Size());
  }

  /** The first arrival after which what is there of the unit is assembled is a new packet
      of the unit. */
  lemma FirstMadeIsNew(x: Sending, arrivals: seq<Arrival>, unit: seq<byte>)
    requires x.Valid() && Fair(x, arrivals) && arrivals != []
    requires AllStuck(x, arrivals[..|arrivals| - 1])
    requires InRange(OwnOf(arrivals), x.Size()) && Made(x, OwnOf(arrivals)) == Some(unit)
    ensures arrivals[|arrivals| - 1].Own?
    ensures arrivals[|arrivals| - 1].i !in OwnOf(arrivals[..|arrivals| - 1])
  {
    var before := arrivals[..|arrivals| - 1];
    FairPrefix(x, arrivals, |before|);
    FairLast(x, arrivals);
    OwnInRange(x, before);
    var last := arrivals[|before|];
    if last.Own? && last.i in OwnOf(before) {
      SameGatheredSameMade(x, OwnOf(before), last.i);
    }
  }

  /** With that arrival it comes out: exactly those bytes, before anything else. */
  lemma FirstMadeComesOut(s0: State, x: Sending, arrivals: seq<Arrival>, unit: seq<byte>)
    requires x.Valid() && Fair(x, arrivals) && Ready(s0, x) && arrivals != []
    requires AllStuck(x, arrivals[..|arrivals| - 1])
    requires InRange(OwnOf(arrivals), x.Size()) && Made(x, OwnOf(arrivals)) == Some(unit)
    ensures Releases(LastOutcomes(s0, x, arrivals), x, s0, unit, AllOwn(arrivals))
  {
    var before := arrivals[..|arrivals| - 1];
    FairPrefix(x, arrivals, |before|);
    FairLast(x, arrivals);
    FirstMadeIsNew(x, arrivals, unit);
    NothingEarly(s0, x, before);
    MadeArrival(Delivered(s0, x, before), s0, x, arrivals, unit);
  }

  lemma MadeArrival(s: State, s0: State, x: Sending, arrivals: seq<Arrival>, unit: seq<byte>)
    requires x.Valid() && arrivals != [] && LastFair(x, arrivals) && Ready(s0, x)
    requires InRange(OwnOf(arrivals), x.Size()) && Made(x, OwnOf(arrivals)) == Some(unit)
    requires
      var before, last := arrivals[..|arrivals| - 1], arrivals[|arrivals| - 1];
      && last.Own? && last.i !in OwnOf(before) && InRange(OwnOf(before), x.Size())
      && Holding(s, x, s0, OwnOf(before), FirstTime(before), AllOwn(before))
    ensures
      var last := arrivals[|arrivals| - 1];
      Releases(Received(s, Bytes(x, last), last.now).outcomes, x, s0, unit, AllOwn(arrivals))
  {
    var before, last := arrivals[..|arrivals| - 1], arrivals[|arrivals| - 1];
    HoldingFirst(s, x, s0, arrivals);
    DeliverLast(s, x, s0, OwnOf(before), FirstTime(arrivals), AllOwn(before), last.i, last.now, unit);
  }

  /** Nothing has come out with any of these arrivals. */
  predicate Silent(s0: State, x: Sending, arrivals: seq<Arrival>)
    requires x.Valid() && ArrivalsOk(x, arrivals)
  {
    arrivals != [] ==>
      Silent(s0, x, arrivals[..|arrivals| - 1]) && LastOutcomes(s0, x, arrivals) == []
  }

  /** Nothing comes out exactly as long as what is there of the unit is not assembled. */
  lemma {:induction false} SilentIff(s0: State, x: Sending, arrivals: seq<Arrival>)
    requires x.Valid() && Fair(x, arrivals) && Ready(s0, x)
    ensures Silent(s0, x, arrivals) <==> AllStuck(x, arrivals)
    decreases |arrivals|
  {
    if arrivals != [] {
      var before := arrivals[..|arrivals| - 1];
      FairPrefix(x, arrivals, |before|);
      SilentIff(s0, x, before);
      OwnInRange(x, arrivals);
      if AllStuck(x, arrivals) {
        NothingEarly(s0, x, arrivals);
      } else if AllStuck(x, before) {
        FirstMadeComesOut(s0, x, arrivals, Made(x, OwnOf(arrivals)).value);
      }
    }
  }

  /** The packets that have come are a run up to the marker that starts with a head, within
      the cap. */
  ghost predicate UsableSoFar(x: Sending, arrivals: seq<Arrival>)
    requires x.Valid()
  {
    SizePositive(x);
    exists c: nat :: Usable(x.Pieces(), Gathered(OwnOf(arrivals)), c)
  }

  /** They are assembled exactly then. */
  lemma StuckIff(x: Sending, arrivals: seq<Arrival>)
    requires x.Valid() && Fair(x, arrivals)
    ensures Stuck(x, OwnOf(arrivals)) <==> !UsableSoFar(x, arrivals)
  {
    OwnInRange(x, arrivals);
    SizePositive(x);
    GatheredIs(OwnOf(arrivals), x.Size());
    PartialIff(x.Pieces(), Gathered(OwnOf(arrivals)));
  }

  /** At none of these arrivals. */
  ghost predicate NeverUsable(x: Sending, arrivals: seq<Arrival>)
    requires x.Valid()
  {
    forall j :: 0 < j <= |arrivals| ==> !UsableSoFar(x, arrivals[..j])
  }

  lemma NeverUsableStep(x: Sending, arrivals: seq<Arrival>)
    requires x.Valid() && arrivals != []
    ensures NeverUsable(x, arrivals) <==>
      NeverUsable(x, arrivals[..|arrivals| - 1]) && !UsableSoFar(x, arrivals)
  {
    var n := |arrivals|;
    var before := arrivals[..n - 1];
    assert arrivals[..n] == arrivals;
    assert forall j :: 0 < j < n ==> before[..j] == arrivals[..j];
    if NeverUsable(x, arrivals) {
      assert !UsableSoFar(x, arrivals[..n]);
      forall j | 0 < j <= n - 1 ensures !UsableSoFar(x, before[..j]) {
        assert !UsableSoFar(x, arrivals[..j]);
      }
    }
  }

  lemma {:induction false} AllStuckIff(x: Sending, arrivals: seq<Arrival>)
    requires x.Valid() && Fair(x, arrivals)
    ensures AllStuck(x, arrivals) <==> NeverUsable(x, arrivals)
    decreases |arrivals|
  {
    if arrivals != [] {
      FairPrefix(x, arrivals, |arrivals| - 1);
      AllStuckIff(x, arrivals[..|arrivals| - 1]);
      StuckIff(x, arrivals);
      NeverUsableStep(x, arrivals);
    }
  }

  /** In any order, with duplicates, newer frames, padding and unreadable packets in between,
      all within the hold: nothing comes out exactly as long as the packets of the unit that
      have come are not a run up to the marker that starts with a head. */
  lemma NothingComesOutIff(s0: State, x: Sending, arrivals: seq<Arrival>)
    requires x.Valid() && Fair(x, arrivals) && Ready(s0, x)
    ensures Silent(s0, x, arrivals) <==> NeverUsable(x, arrivals)
  {
    SilentIff(s0, x, arrivals);
    AllStuckIff(x, arrivals);
  }

  /** As soon as they are, from index `c` on, what comes out is the bytes of that run. */
  lemma FirstRunComesOut(s0: State, x: Sending, arrivals: seq<Arrival>, c: nat)
    requires x.Valid() && Fair(x, arrivals) && Ready(s0, x) && arrivals != []
    requires ArrivalsOk(x, arrivals[..|arrivals| - 1]) && Silent(s0, x, arrivals[..|arrivals| - 1])
    requires x.Pieces().Valid() && Usable(x.Pieces(), Gathered(OwnOf(arrivals)), c)
    ensures Releases(LastOutcomes(s0, x, arrivals), x, s0, DepacketizedAll(PlanPayloads(x.plan)[c..]),
                     AllOwn(arrivals))
  {
    FairPrefix(x, arrivals, |arrivals| - 1);
    SilentIff(s0, x, arrivals[..|arrivals| - 1]);
    OwnInRange(x, arrivals);
    GatheredIs(OwnOf(arrivals), x.Size());
    PartialIff(x.Pieces(), Gathered(OwnOf(arrivals)));
    FirstMadeComesOut(s0, x, arrivals, DepacketizedAll(PlanPayloads(x.plan)[c..]));
  }

  /** Every packet of the unit is among these arrivals, the last one for the first time. */
  predicate Completing(x: Sending, arrivals: seq<Arrival>)
    requires x.Valid()
  {
    && arrivals != [] && arrivals[|arrivals| - 1].Own?
    && arrivals[|arrivals| - 1].i !in OwnOf(arrivals[..|arrivals| - 1])
    && forall i: nat :: i < x.Size() ==> i in OwnOf(arrivals)
  }

  /** Nothing has come out before the last arrival. */
  predicate SilentBefore(s0: State, x: Sending, arrivals: seq<Arrival>)
    requires x.Valid() && Fair(x, arrivals) && arrivals != []
  {
    FairPrefix(x, arrivals, |arrivals| - 1);
    Silent(s0, x, arrivals[..|arrivals| - 1])
  }

  /** The round trip, for every order of arrival.  Nothing comes out before the unit is
      complete exactly when at no earlier arrival the packets there are a run up to the
      marker that starts with a head; and then the packet that completes it releases
      exactly a start code plus each NAL unit, before anything else. */
  lemma RoundTripIff(s0: State, x: Sending, arrivals: seq<Arrival>)
    requires x.Valid() && Fair(x, arrivals) && Ready(s0, x) && Completing(x, arrivals)
    ensures SilentBefore(s0, x, arrivals) <==> NeverUsable(x, arrivals[..|arrivals| - 1])
    ensures SilentBefore(s0, x, arrivals) ==>
      Releases(LastOutcomes(s0, x, arrivals), x, s0, x.Unit(), AllOwn(arrivals))
  {
    SilentBeforeIff(s0, x, arrivals);
    if SilentBefore(s0, x, arrivals) {
      CompletingReleases(s0, x, arrivals);
    }
  }

  lemma SilentBeforeIff(s0: State, x: Sending, arrivals: seq<Arrival>)
    requires x.Valid() && Fair(x, arrivals) && Ready(s0, x) && arrivals != []
    ensures SilentBefore(s0, x, arrivals) <==> NeverUsable(x, arrivals[..|arrivals| - 1])
  {
    var before := arrivals[..|arrivals| - 1];
    FairPrefix(x, arrivals, |before|);
    NothingComesOutIff(s0, x, before);
  }

  lemma CompletingReleases(s0: State, x: Sending, arrivals: seq<Arrival>)
    requires x.Valid() && Fair(x, arrivals) && Ready(s0, x) && Completing(x, arrivals)
    requires SilentBefore(s0, x, arrivals)
    ensures Releases(LastOutcomes(s0, x, arrivals), x, s0, x.Unit(), AllOwn(arrivals))
  {
    FairPrefix(x, arrivals, |arrivals| - 1);
    SilentIff(s0, x, arrivals[..|arrivals| - 1]);
    OwnInRange(x, arrivals);
    CompleteIsMade(x, OwnOf(arrivals));
    FirstMadeComesOut(s0, x, arrivals, x.Unit());
  }

  lemma CompleteIsMade(x: Sending, order: seq<nat>)
    requires x.Valid() && InRange(order, x.Size()) && forall i: nat :: i < x.Size() ==> i in order
    ensures Made(x, order) == Some(x.Unit())
  {
    GatheredIs(order, x.Size());
    CompleteAssembles(x, Gathered(order));
  }

  /** The first packet comes first, unless nothing else could start a unit. */
  predicate StartsWell(x: Sending, arrivals: seq<Arrival>)
  {
    arrivals != [] && arrivals[0].Own? ==> arrivals[0].i == 0 || |x.plan| == 1
  }

  lemma {:induction false} StartsWellStuck(x: Sending, arrivals: seq<Arrival>, missing: nat)
    requires x.Valid() && Fair(x, arrivals) && StartsWell(x, arrivals)
    requires missing < x.Size() && missing !in OwnOf(arrivals)
    ensures AllStuck(x, arrivals)
    decreases |arrivals|
  {
    if arrivals != [] {
      var before := arrivals[..|arrivals| - 1];
      FairPrefix(x, arrivals, |before|);
      FairLast(x, arrivals);
      OwnInRange(x, arrivals);
      StartsWellStuck(x, before, missing);
      GatheredIs(OwnOf(arrivals), x.Size());
      IncompleteWaits(x, Gathered(OwnOf(arrivals)), missing);
    }
  }

  /** So with the first packet first, or where nothing else could start a unit, any order of
      the others does: nothing comes out early, and the packet that completes the unit
      releases it, emitted unless the gate is shut and it has no IDR. */
  lemma RoundTrip(s0: State, x: Sending, arrivals: seq<Arrival>)
    requires x.Valid() && Fair(x, arrivals) && Ready(s0, x) && Completing(x, arrivals) && StartsWell(x, arrivals)
    ensures SilentBefore(s0, x, arrivals)
    ensures
      var outcomes := LastOutcomes(s0, x, arrivals);
      && outcomes != [] && (AllOwn(arrivals) && s0.frames == [] ==> |outcomes| == 1)
      && (!s0.waiting || HasKeyframe(x.Unit()) ==> outcomes[0] == Emitted(x.ts, x.Unit()))
      && (s0.waiting && !HasKeyframe(x.Unit()) ==> outcomes[0] == Discarded(x.ts, x.Unit()))
  {
    var before := arrivals[..|arrivals| - 1];
    FairPrefix(x, arrivals, |before|);
    StartsWellStuck(x, before, arrivals[|before|].i);
    SilentIff(s0, x, before);
    RoundTripIff(s0, x, arrivals);
  }

  /** The other case is real, with one marker and nothing older pending: if the last packet
      could start a unit and comes first, it comes out alone, at once. */
  lemma LastPacketFirst(s0: State, x: Sending, now: u64)
    requires x.Valid() && Ready(s0, x) && x.Pieces().Valid()
    requires
      var last := x.Payload(x.Size() - 1);
      IsPartitionHead(last) && |Depacketized(last)| <= MAX_ACCESS_UNIT_BYTES
    ensures
      var arrivals := [Own(x.Size() - 1, now)];
      && ArrivalsOk(x, arrivals)
      && Releases(LastOutcomes(s0, x, arrivals), x, s0, Depacketized(x.Payload(x.Size() - 1)), true)
  {
    var c := x.Size() - 1;
    var arrivals := [Own(c, now)];
    OneArrival(arrivals, c, now);
    assert Fair(x, arrivals) && AllOwn(arrivals);
    LastIsUsable(x.Pieces(), c);
    BytesOfLast(PlanPayloads(x.plan), c);
    FirstRunComesOut(s0, x, arrivals, c);
  }

  lemma OneArrival(arrivals: seq<Arrival>, i: nat, now: u64)
    requires arrivals == [Own(i, now)]
    ensures arrivals[..0] == [] && OwnOf(arrivals) == [i] && Gathered(OwnOf(arrivals)) == [i]
  {
    assert OwnOf(arrivals) == [] + [i] == [i];
    assert [i][..0] == [] && Gathered([i]) == [] + [i];
  }

  lemma LastIsUsable(f: Numbered, c: nat)
    requires f.Valid() && c == |f.payloads| - 1 && IsPartitionHead(f.payloads[c])
    requires |Depacketized(f.payloads[c])| <= MAX_ACCESS_UNIT_BYTES
    ensures Usable(f, [c], c)
  {
    BytesOfLast(f.payloads, c);
  }

  lemma BytesOfLast(payloads: seq<seq<byte>>, c: nat)
    requires c == |payloads| - 1
    ensures DepacketizedAll(payloads[c..]) == Depacketized(payloads[c])
  {
    assert payloads[c..] == [payloads[c]];
    DepacketizedOne(payloads[c]);
  }

  // ---- units that any order will do for -------------------------------------------------------

  /** Packets `from` to `to` of the unit, all at time 0. */
  function Span(from: nat, to: nat): (arrivals: seq<Arrival>)
    requires from <= to
    ensures |arrivals| == to - from
    ensures forall k :: 0 <= k < to - from ==> arrivals[k] == Own(from + k, 0)
  {
    seq(to - from, k requires 0 <= k < to - from => Own(from + k, 0))
  }

  lemma {:induction false} OwnOfAll(arrivals: seq<Arrival>)
    requires AllOwn(arrivals)
    ensures |OwnOf(arrivals)| == |arrivals|
    ensures forall k :: 0 <= k < |arrivals| ==> OwnOf(arrivals)[k] == arrivals[k].i
  {
    if arrivals != [] {
      OwnOfAll(arrivals[..|arrivals| - 1]);
    }
  }

  /** The packets from index `c` on, then the ones before it. */
  function TailFirst(n: nat, c: nat): (arrivals: seq<Arrival>)
    requires 0 < c < n
    ensures |arrivals| == n && AllOwn(arrivals)
    ensures forall k :: 0 <= k < n ==> arrivals[k] == Own(if k < n - c then c + k else k - (n - c), 0)
  {
    Span(c, n) + Span(0, c)
  }

  lemma TailFirstCompletes(x: Sending, c: nat)
    requires x.Valid() && 0 < c < x.Size()
    ensures Fair(x, TailFirst(x.Size(), c)) && Completing(x, TailFirst(x.Size(), c))
  {
    TailFirstHoldsAll(x.Size(), c);
  }

  lemma TailFirstHoldsAll(n: nat, c: nat)
    requires 0 < c < n
    ensures c - 1 !in OwnOf(TailFirst(n, c)[..n - 1])
    ensures forall i: nat :: i < n ==> i in OwnOf(TailFirst(n, c))
  {
    var arrivals := TailFirst(n, c);
    OwnOfAll(arrivals);
    OwnOfAll(arrivals[..n - 1]);
    forall i: nat | i < n ensures i in OwnOf(arrivals) {
      assert OwnOf(arrivals)[if i >= c then i - c else i + (n - c)] == i;
    }
  }

  /** The packets from a head on are usable by themselves. */
  lemma TailIsUsable(x: Sending, c: nat)
    requires x.Valid() && 0 < c < x.Size() && IsPartitionHead(x.Payload(c))
    ensures UsableSoFar(x, TailFirst(x.Size(), c)[..x.Size() - c])
  {
    var n := x.Size();
    var tail := TailFirst(n, c)[..n - c];
    OwnOfAll(tail);
    SizePositive(x);
    TailFits(x, c);
    forall i: nat ensures i in OwnOf(tail) <==> c <= i < n {
      if c <= i < n { assert OwnOf(tail)[i - c] == i; }
    }
    GatheredIs(OwnOf(tail), n);
    assert Usable(x.Pieces(), Gathered(OwnOf(tail)), c);
  }

  /** The bytes of a part are no more than those of the whole. */
  lemma TailFits(x: Sending, c: nat)
    requires x.Valid() && c < x.Size()
    ensures |DepacketizedAll(PlanPayloads(x.plan)[c..])| <= MAX_ACCESS_UNIT_BYTES
  {
    PlanRoundTrip(x.plan);
    TailNoLonger(PlanPayloads(x.plan), c);
  }

  lemma TailNoLonger(payloads: seq<seq<byte>>, c: nat)
    requires c <= |payloads|
    ensures |DepacketizedAll(payloads[c..])| <= |DepacketizedAll(payloads)|
  {
    DepacketizedAllAppend(payloads[..c], payloads[c..]);
    assert payloads[..c] + payloads[c..] == payloads;
  }

  /** In every order of arrival nothing comes out before the unit is complete. */
  ghost predicate AnyOrderDoes(s0: State, x: Sending)
    requires x.Valid()
  {
    forall arrivals :: Fair(x, arrivals) && Completing(x, arrivals) ==> SilentBefore(s0, x, arrivals)
  }

  /** With nothing older pending, in every order of arrival nothing comes out before the unit
      is complete (and then all of it does, by RoundTripIff) exactly when it is a single
      packetization: one NAL unit in one packet or fragmented, or one aggregation. */
  lemma AnyOrderIff(s0: State, x: Sending)
    requires x.Valid() && Ready(s0, x)
    ensures AnyOrderDoes(s0, x) <==> |x.plan| == 1
  {
    if |x.plan| == 1 {
      forall arrivals | Fair(x, arrivals) && Completing(x, arrivals) ensures SilentBefore(s0, x, arrivals) {
        RoundTrip(s0, x, arrivals);
      }
    } else {
      var c := SecondHead(x);
      TailFirstFails(s0, x, c);
    }
  }

  lemma SecondHead(x: Sending) returns (c: nat)
    requires x.Valid() && |x.plan| != 1
    ensures 0 < c < x.Size() && IsPartitionHead(x.Payload(c))
  {
    PlanHeads(x.plan);
    c :| 0 < c < |PlanPayloads(x.plan)| && IsPartitionHead(PlanPayloads(x.plan)[c]);
  }

  lemma TailFirstFails(s0: State, x: Sending, c: nat)
    requires x.Valid() && Ready(s0, x) && 0 < c < x.Size() && IsPartitionHead(x.Payload(c))
    ensures !AnyOrderDoes(s0, x)
  {
    var arrivals := TailFirst(x.Size(), c);
    TailFirstCompletes(x, c);
    TailIsUsable(x, c);
    UsableBreaks(x, arrivals, x.Size() - c);
    SilentBeforeIff(s0, x, arrivals);
    OrderFails(s0, x, arrivals);
  }

  lemma OrderFails(s0: State, x: Sending, arrivals: seq<Arrival>)
    requires x.Valid() && Fair(x, arrivals) && Completing(x, arrivals) && !SilentBefore(s0, x, arrivals)
    ensures !AnyOrderDoes(s0, x)
  {
  }

  lemma UsableBreaks(x: Sending, arrivals: seq<Arrival>, j: nat)
    requires x.Valid() && 0 < j < |arrivals| && UsableSoFar(x, arrivals[..j])
    ensures !NeverUsable(x, arrivals[..|arrivals| - 1])
  {
    assert arrivals[..|arrivals| - 1][..j] == arrivals[..j];
  }
}
