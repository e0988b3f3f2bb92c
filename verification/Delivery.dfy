/** From sender to decoder: an access unit packetized by RFC 6184 and carried by RFC 3550
    packets arrives at the jitter buffer, packet by packet. */
module Delivery {
  import opened Serial
  import Rtp
  import opened H264
  import opened IdrScan
  import opened Assembly
  import opened PartOfUnit
  import opened VideoJitter

  /** One access unit on the wire: how its NAL units are packetized, the number of its
      first packet, its timestamp, and the RTP header around each payload. */
  datatype Sending = Sending(plan: seq<Packetization>, base: u16, ts: u32, headers: seq<Rtp.Header>)
  {
    predicate Valid() {
      && plan != [] && (forall u <- plan :: u.Valid())
      && Size() == |headers| <= TWO16
      && (forall i: u16 :: i < |headers| ==>
            headers[i].Valid() && headers[i].seqNo == Add16(base, i) && headers[i].ts == ts
            && (headers[i].marker <==> i == |headers| - 1))
      && |Unit()| <= MAX_ACCESS_UNIT_BYTES
    }

    function Size(): nat
      requires forall u <- plan :: u.Valid()
    {
      |PlanPayloads(plan)|
    }

    /** A start code plus each NAL unit, in order. */
    function Unit(): seq<byte> { AnnexB(PlanNals(plan)) }

    function Payload(i: nat): seq<byte>
      requires Valid() && i < Size()
    {
      PlanPayloads(plan)[i]
    }

    function Wire(i: nat): seq<byte>
      requires Valid() && i < Size()
    {
      Rtp.Build(headers[i], Payload(i))
    }

    /** Its packets, as payloads and numbers. */
    function Pieces(): Numbered
      requires forall u <- plan :: u.Valid()
    {
      Numbered(PlanPayloads(plan), base)
    }

    /** The packets with these indices as the jitter buffer keeps them. */
    function KeptAll(ks: seq<nat>): (ps: seq<Packet>)
      requires Valid() && InRange(ks, Size())
    {
      Pieces().KeptAll(ks)
    }
  }

  lemma SizePositive(x: Sending)
    requires x.Valid()
    ensures x.Size() > 0 && x.Pieces().Valid()
  {
    PlanHeads(x.plan);
  }

  /** Some packet is missing, and either the first is here or no other payload could
      start a unit: nothing is assembled. */
  lemma IncompleteWaits(x: Sending, ks: seq<nat>, missing: nat)
    requires x.Valid() && Distinct(ks) && InRange(ks, x.Size())
    requires missing < x.Size() && missing !in ks
    requires 0 in ks || |x.plan| == 1
    ensures Assemble(x.KeptAll(ks)) == None
  {
    if Assemble(x.KeptAll(ks)).Some? {
      SizePositive(x);
      PlanHeads(x.plan);
      AssembledIsSuffix(x.Pieces(), ks);
    }
  }

  lemma CompleteAssembles(x: Sending, ks: seq<nat>)
    requires x.Valid() && Distinct(ks) && InRange(ks, x.Size())
    requires forall i: nat :: i < x.Size() ==> i in ks
    ensures Assemble(x.KeptAll(ks)) == Some(x.Unit())
  {
    SizePositive(x);
    PlanHeads(x.plan);
    PlanRoundTrip(x.plan);
    assert PlanPayloads(x.plan)[0..] == PlanPayloads(x.plan);
    assert SuffixFrom(ks, 0, x.Size());
    SuffixAssembles(x.Pieces(), ks, 0);
  }

  // ---- delivery --------------------------------------------------------------------------

  /** Which packets have come, each once, in order of first arrival. */
  function Gathered(order: seq<nat>): seq<nat>
  {
    if order == [] then []
    else
      var g := Gathered(order[..|order| - 1]);
      if order[|order| - 1] in g then g else g + [order[|order| - 1]]
  }

  lemma {:induction false} GatheredIs(order: seq<nat>, n: nat)
    requires InRange(order, n)
    ensures Distinct(Gathered(order)) && InRange(Gathered(order), n)
    ensures forall i :: i in Gathered(order) <==> i in order
  {
    if order != [] {
      var before := order[..|order| - 1];
      GatheredIs(before, n);
      assert forall i :: i in order <==> i in before || i == order[|order| - 1];
    }
  }

  lemma GatheredStep(order: seq<nat>, i: nat)
    ensures Gathered(order + [i]) == if i in Gathered(order) then Gathered(order) else Gathered(order) + [i]
  {
    assert (order + [i])[..|order|] == order;
  }

  /** The buffer can take the unit as the oldest it has: the timestamp is new, nothing
      older is pending and there is room. */
  predicate Ready(s: State, x: Sending)
  {
    && IndexOf(s.frames, x.ts) == |s.frames| < MAX_FRAMES && Rank(s.frames, x.ts) == 0
    && (s.lastTs.Some? ==> TsNewer(x.ts, s.lastTs.value))
  }

  /** The packets of `order` have come, the first at time `first`; since `s0` nothing has
      been resolved and the gate has not moved.  `alone`: and nothing else was stored. */
  predicate Holding(s: State, x: Sending, s0: State, order: seq<nat>, first: u64, alone: bool)
    requires x.Valid() && InRange(order, x.Size())
  {
    GatheredIs(order, x.Size());
    && s.lastTs == s0.lastTs && s.waiting == s0.waiting
    && if order == [] then s.frames == s0.frames
       else
         && s.frames != [] && (alone ==> s.frames[1..] == s0.frames)
         && s.frames[0] == Frame(x.ts, first, s.frames[0].renacked, x.KeptAll(Gathered(order)))
  }

  /** What the packets of `order` are assembled to. */
  function Made(x: Sending, order: seq<nat>): Option<seq<byte>>
    requires x.Valid() && InRange(order, x.Size())
  {
    GatheredIs(order, x.Size());
    Assemble(x.KeptAll(Gathered(order)))
  }

  /** They are not assembled yet. */
  predicate Stuck(x: Sending, order: seq<nat>)
    requires x.Valid()
  {
    InRange(order, x.Size()) ==> Made(x, order) == None
  }

  lemma ArrivesAs(x: Sending, i: nat)
    requires x.Valid() && i < x.Size()
    ensures Rtp.Parse(x.Wire(i)) == Some(Rtp.Packet(Add16(x.base, i), x.ts, i == x.Size() - 1, x.Payload(i)))
    ensures x.Payload(i) != []
  {
    HeaderOf(x, i);
    Rtp.ParseBuild(x.headers[i], x.Payload(i));
    PayloadNonEmpty(x, i);
  }

  lemma HeaderOf(x: Sending, i: u16)
    requires x.Valid() && i < x.Size()
    ensures
      var h := x.headers[i];
      h.Valid() && h.seqNo == Add16(x.base, i) && h.ts == x.ts && (h.marker <==> i == x.Size() - 1)
  {
  }

  lemma PayloadNonEmpty(x: Sending, i: nat)
    requires x.Valid() && i < x.Size()
    ensures x.Payload(i) != []
  {
    PlanHeads(x.plan);
    assert x.Payload(i) in PlanPayloads(x.plan);
  }

  /** Packet `i` as it is parsed. */
  function Parsed(x: Sending, i: nat): Rtp.Packet
    requires x.Valid() && i < x.Size()
  {
    Rtp.Packet(Add16(x.base, i), x.ts, i == x.Size() - 1, x.Payload(i))
  }

  /** Storing packet `i`: it opens the frame, adds to it, or is a duplicate. */
  lemma StoresPacket(s: State, x: Sending, s0: State, order: seq<nat>, first: u64, alone: bool, i: nat, now: u64)
    requires x.Valid() && InRange(order, x.Size()) && i < x.Size()
    requires Ready(s0, x) && Holding(s, x, s0, order, first, alone)
    requires order == [] ==> now == first
    ensures InRange(order + [i], x.Size())
    ensures
      var r := Stored(s.frames, s.lastTs, Parsed(x, i), now);
      if i in order then r == None
      else r.Some? && Holding(s.(frames := r.value), x, s0, order + [i], first, alone)
  {
    GatheredIs(order, x.Size());
    GatheredStep(order, i);
    if order == [] {
      StoresFirst(s, x, i, now);
    } else {
      StoresNext(s, x, Gathered(order), first, i, now);
    }
  }

  lemma StoresFirst(s: State, x: Sending, i: nat, now: u64)
    requires x.Valid() && i < x.Size() && Ready(s, x)
    ensures Stored(s.frames, s.lastTs, Parsed(x, i), now)
         == Some([Frame(x.ts, now, false, x.KeptAll([i]))] + s.frames)
  {
    var newest := Frame(x.ts, now, false, []);
    var fs := s.frames[..0] + [newest] + s.frames[0..];
    assert fs == [newest] + s.frames;
    assert !Held(newest.packets, Parsed(x, i).seqNo);
    assert x.KeptAll([i]) == [x.Pieces().Kept(i)] == newest.packets + [x.Pieces().Kept(i)];
    assert Located(s.frames, s.lastTs, x.ts, now) == Some((fs, 0));
    assert fs[0 := newest.(packets := x.KeptAll([i]))] == [Frame(x.ts, now, false, x.KeptAll([i]))] + s.frames;
  }

  lemma StoresNext(s: State, x: Sending, ks: seq<nat>, first: u64, i: nat, now: u64)
    requires x.Valid() && i < x.Size() && InRange(ks, x.Size()) && s.frames != []
    requires s.frames[0] == Frame(x.ts, first, s.frames[0].renacked, x.KeptAll(ks))
    ensures Stored(s.frames, s.lastTs, Parsed(x, i), now)
         == if i in ks then None else Some(s.frames[0 := s.frames[0].(packets := x.KeptAll(ks + [i]))])
  {
    HeldIff(x.Pieces(), ks, i);
    assert Located(s.frames, s.lastTs, x.ts, now) == Some((s.frames, 0));
    assert x.KeptAll(ks + [i]) == x.KeptAll(ks) + [x.Pieces().Kept(i)];
  }

  /** Another packet that is of no concern to the unit: unreadable, without a payload, or
      of a newer frame. */
  predicate Aside(x: Sending, rtp: seq<byte>)
  {
    match Rtp.Parse(rtp)
    case None => true
    case Some(p) => p.payload == [] || TsNewer(p.ts, x.ts)
  }

  /** A newer packet is stored behind the unit, or not at all. */
  lemma StoresBehind(frames: seq<Frame>, lastTs: Option<u32>, p: Rtp.Packet, now: u64)
    requires frames != [] && TsNewer(p.ts, frames[0].ts)
    ensures
      var r := Stored(frames, lastTs, p, now);
      r.Some? ==> r.value != [] && r.value[0] == frames[0]
  {
  }

  /** How an assembled unit leaves: emitted, unless the gate is shut and it has no IDR. */
  function Fate(ts: u32, unit: seq<byte>, waiting: bool): Outcome
  {
    if waiting && !HasKeyframe(unit) then Discarded(ts, unit) else Emitted(ts, unit)
  }

  lemma DrainHolds(s: State, x: Sending, s0: State, order: seq<nat>, first: u64, alone: bool, now: u64)
    requires x.Valid() && InRange(order, x.Size()) && order != [] && Stuck(x, order)
    requires Holding(s, x, s0, order, first, alone) && Sub64(now, first) <= HOLD_MS
    ensures Drain(s, now).outcomes == [] && Holding(Drain(s, now).state, x, s0, order, first, alone)
  {
  }

  /** These bytes come first, and alone if nothing else was pending. */
  predicate Releases(outcomes: seq<Outcome>, x: Sending, s0: State, unit: seq<byte>, alone: bool)
  {
    && outcomes != [] && outcomes[0] == Fate(x.ts, unit, s0.waiting)
    && (alone && s0.frames == [] ==> |outcomes| == 1)
  }

  lemma DrainReleases(s: State, x: Sending, s0: State, order: seq<nat>, first: u64, alone: bool,
                      now: u64, unit: seq<byte>)
    requires x.Valid() && InRange(order, x.Size()) && order != [] && Made(x, order) == Some(unit)
    requires Holding(s, x, s0, order, first, alone)
    ensures Releases(Drain(s, now).outcomes, x, s0, unit, alone)
  {
  }

  lemma ReceivesOwn(s: State, x: Sending, i: nat, now: u64)
    requires x.Valid() && i < x.Size()
    ensures Received(s, x.Wire(i), now) == Accept(s, Parsed(x, i), now) && x.Payload(i) != []
  {
    ArrivesAs(x, i);
  }

  /** What a packet with a payload does, once it is known how it is stored. */
  lemma AcceptIs(s: State, p: Rtp.Packet, now: u64)
    requires p.payload != []
    ensures
      var s1 := Tracked(s, p.seqNo);
      var r := Accept(s, p, now);
      match Stored(s1.frames, s1.lastTs, p, now)
      case None => r.state == s1 && r.outcomes == []
      case Some(frames) =>
        var d := Drain(s1.(frames := frames), now);
        r.state == d.state && r.outcomes == d.outcomes
  {
  }

  /** One packet of a unit that is still not assembled: nothing comes out. */
  lemma DeliverEarly(s: State, x: Sending, s0: State, order: seq<nat>, first: u64, alone: bool,
                     i: nat, now: u64)
    requires x.Valid() && InRange(order, x.Size()) && i < x.Size()
    requires Ready(s0, x) && Holding(s, x, s0, order, first, alone)
    requires (order == [] ==> now == first) && Sub64(now, first) <= HOLD_MS
    requires Stuck(x, order + [i])
    ensures InRange(order + [i], x.Size())
    ensures
      var r := Received(s, x.Wire(i), now);
      r.outcomes == [] && Holding(r.state, x, s0, order + [i], first, alone)
  {
    ReceivesOwn(s, x, i, now);
    AcceptIs(s, Parsed(x, i), now);
    var s1 := Tracked(s, Add16(x.base, i));
    StoresPacket(s1, x, s0, order, first, alone, i, now);
    if i in order {
      HoldsDuplicate(s1, x, s0, order, first, alone, i);
    } else {
      var stored := Stored(s1.frames, s1.lastTs, Parsed(x, i), now).value;
      DrainHolds(s1.(frames := stored), x, s0, order + [i], first, alone, now);
    }
  }

  lemma HoldsDuplicate(s: State, x: Sending, s0: State, order: seq<nat>, first: u64, alone: bool, i: nat)
    requires x.Valid() && InRange(order, x.Size()) && i in order && i < x.Size()
    requires Holding(s, x, s0, order, first, alone)
    ensures InRange(order + [i], x.Size()) && Holding(s, x, s0, order + [i], first, alone)
  {
    GatheredIs(order, x.Size());
    GatheredStep(order, i);
    assert InRange(order + [i], x.Size());
    HoldsAlike(s, x, s0, order, order + [i], first, alone);
  }

  lemma HoldsAlike(s: State, x: Sending, s0: State, o1: seq<nat>, o2: seq<nat>, first: u64, alone: bool)
    requires x.Valid() && InRange(o1, x.Size()) && InRange(o2, x.Size())
    requires o1 != [] && o2 != [] && Gathered(o1) == Gathered(o2) && Holding(s, x, s0, o1, first, alone)
    ensures Holding(s, x, s0, o2, first, alone)
  {
  }

  /** Another packet while the unit waits: nothing comes out either. */
  lemma DeliverAside(s: State, x: Sending, s0: State, order: seq<nat>, first: u64, alone: bool,
                     rtp: seq<byte>, now: u64)
    requires x.Valid() && InRange(order, x.Size()) && order != [] && Aside(x, rtp)
    requires Holding(s, x, s0, order, first, alone) && Sub64(now, first) <= HOLD_MS
    requires Stuck(x, order)
    ensures
      var r := Received(s, rtp, now);
      r.outcomes == [] && Holding(r.state, x, s0, order, first, false)
  {
    var parsed := Rtp.Parse(rtp);
    if parsed.Some? && parsed.value.payload != [] {
      var p := parsed.value;
      var s1 := Tracked(s, p.seqNo);
      StoresBehind(s1.frames, s1.lastTs, p, now);
      var stored := Stored(s1.frames, s1.lastTs, p, now);
      if stored.Some? {
        DrainHolds(s1.(frames := stored.value), x, s0, order, first, false, now);
      }
    }
  }

  /** The packet with which the unit, or what is there of it, is assembled. */
  lemma DeliverLast(s: State, x: Sending, s0: State, order: seq<nat>, first: u64, alone: bool,
                    i: nat, now: u64, unit: seq<byte>)
    requires x.Valid() && InRange(order, x.Size()) && i < x.Size() && i !in order
    requires Ready(s0, x) && Holding(s, x, s0, order, first, alone)
    requires order == [] ==> now == first
    requires InRange(order + [i], x.Size()) && Made(x, order + [i]) == Some(unit)
    ensures Releases(Received(s, x.Wire(i), now).outcomes, x, s0, unit, alone)
  {
    ReceivesOwn(s, x, i, now);
    AcceptIs(s, Parsed(x, i), now);
    StoredReleases(Tracked(s, Add16(x.base, i)), x, s0, order, first, alone, i, now, unit);
  }

  lemma StoredReleases(s: State, x: Sending, s0: State, order: seq<nat>, first: u64, alone: bool,
                       i: nat, now: u64, unit: seq<byte>)
    requires x.Valid() && InRange(order, x.Size()) && i < x.Size() && i !in order
    requires Ready(s0, x) && Holding(s, x, s0, order, first, alone)
    requires order == [] ==> now == first
    requires InRange(order + [i], x.Size()) && Made(x, order + [i]) == Some(unit)
    ensures
      var stored := Stored(s.frames, s.lastTs, Parsed(x, i), now);
      stored.Some? && Releases(Drain(s.(frames := stored.value), now).outcomes, x, s0, unit, alone)
  {
    StoresPacket(s, x, s0, order, first, alone, i, now);
    var stored := Stored(s.frames, s.lastTs, Parsed(x, i), now).value;
    DrainReleases(s.(frames := stored), x, s0, order + [i], first, alone, now, unit);
  }

  /** A packet of the unit arrives, or another one. */
  datatype Arrival = Own(i: nat, now: u64) | Other(rtp: seq<byte>, now: u64)

  /** The unit's own packets, any number of times each, and packets of no concern to it;
      its own come first. */
  predicate ArrivalsOk(x: Sending, arrivals: seq<Arrival>)
    requires x.Valid()
  {
    && (arrivals != [] ==> arrivals[0].Own?)
    && forall k :: 0 <= k < |arrivals| ==>
         match arrivals[k] case Own(i, _) => i < x.Size() case Other(rtp, _) => Aside(x, rtp)
  }

  /** All within the hold of the first. */
  predicate Timely(arrivals: seq<Arrival>)
  {
    forall k :: 0 <= k < |arrivals| ==> Sub64(arrivals[k].now, arrivals[0].now) <= HOLD_MS
  }

  /** Which of the unit's packets arrived, in order. */
  function OwnOf(arrivals: seq<Arrival>): seq<nat>
  {
    if arrivals == [] then []
    else
      var before := OwnOf(arrivals[..|arrivals| - 1]);
      var last := arrivals[|arrivals| - 1];
      if last.Own? then before + [last.i] else before
  }

  predicate AllOwn(arrivals: seq<Arrival>)
  {
    forall k :: 0 <= k < |arrivals| ==> arrivals[k].Own?
  }

  lemma {:induction false} OwnInRange(x: Sending, arrivals: seq<Arrival>)
    requires x.Valid() && ArrivalsOk(x, arrivals)
    ensures InRange(OwnOf(arrivals), x.Size())
    ensures arrivals != [] ==> OwnOf(arrivals) != [] && OwnOf(arrivals)[0] == arrivals[0].i
  {
    if |arrivals| == 1 {
      assert arrivals[..0] == [];
      assert OwnOf(arrivals) == [] + [arrivals[0].i];
    } else if arrivals != [] {
      OwnInRange(x, arrivals[..|arrivals| - 1]);
    }
  }

  function Bytes(x: Sending, a: Arrival): seq<byte>
    requires x.Valid() && (a.Own? ==> a.i < x.Size())
  {
    if a.Own? then x.Wire(a.i) else a.rtp
  }

  /** The buffer after these arrivals. */
  function Delivered(s0: State, x: Sending, arrivals: seq<Arrival>): State
    requires x.Valid() && ArrivalsOk(x, arrivals)
  {
    if arrivals == [] then s0
    else
      var last := arrivals[|arrivals| - 1];
      Received(Delivered(s0, x, arrivals[..|arrivals| - 1]), Bytes(x, last), last.now).state
  }

  /** What the last of them brought out. */
  function LastOutcomes(s0: State, x: Sending, arrivals: seq<Arrival>): seq<Outcome>
    requires x.Valid() && ArrivalsOk(x, arrivals) && arrivals != []
  {
    var last := arrivals[|arrivals| - 1];
    Received(Delivered(s0, x, arrivals[..|arrivals| - 1]), Bytes(x, last), last.now).outcomes
  }

  function FirstTime(arrivals: seq<Arrival>): u64
  {
    if arrivals == [] then 0 else arrivals[0].now
  }

  predicate Fair(x: Sending, arrivals: seq<Arrival>)
    requires x.Valid()
  {
    ArrivalsOk(x, arrivals) && Timely(arrivals)
  }

  lemma FairPrefix(x: Sending, arrivals: seq<Arrival>, j: nat)
    requires x.Valid() && Fair(x, arrivals) && j <= |arrivals|
    ensures Fair(x, arrivals[..j]) && (j > 0 ==> FirstTime(arrivals[..j]) == FirstTime(arrivals))
    ensures AllOwn(arrivals) ==> AllOwn(arrivals[..j])
  {
    assert forall k :: 0 <= k < j ==> arrivals[..j][k] == arrivals[k];
  }

  /** What the last of these arrivals brings to its step. */
  predicate LastFair(x: Sending, arrivals: seq<Arrival>)
    requires x.Valid() && arrivals != []
  {
    var before, last := arrivals[..|arrivals| - 1], arrivals[|arrivals| - 1];
    && (if last.Own? then last.i < x.Size() else Aside(x, last.rtp))
    && Sub64(last.now, FirstTime(arrivals)) <= HOLD_MS
    && (OwnOf(before) == [] ==> before == [] && last.Own? && last.now == FirstTime(arrivals))
    && (before != [] ==> FirstTime(before) == FirstTime(arrivals))
    && OwnOf(arrivals) == OwnAfter(OwnOf(before), last)
    && (AllOwn(arrivals) <==> AllOwn(before) && last.Own?)
  }

  lemma FairLast(x: Sending, arrivals: seq<Arrival>)
    requires x.Valid() && Fair(x, arrivals) && arrivals != []
    ensures LastFair(x, arrivals)
  {
    var before := arrivals[..|arrivals| - 1];
    FairPrefix(x, arrivals, |before|);
    OwnInRange(x, before);
    assert arrivals == before + [arrivals[|before|]];
  }

  /** After none of these arrivals what is there of the unit is assembled. */
  predicate AllStuck(x: Sending, arrivals: seq<Arrival>)
    requires x.Valid()
  {
    arrivals != [] ==> AllStuck(x, arrivals[..|arrivals| - 1]) && Stuck(x, OwnOf(arrivals))
  }

  lemma {:induction false} NothingEarly(s0: State, x: Sending, arrivals: seq<Arrival>)
    requires x.Valid() && Fair(x, arrivals) && Ready(s0, x) && AllStuck(x, arrivals)
    ensures InRange(OwnOf(arrivals), x.Size())
    ensures Holding(Delivered(s0, x, arrivals), x, s0, OwnOf(arrivals), FirstTime(arrivals), AllOwn(arrivals))
    ensures arrivals != [] ==> LastOutcomes(s0, x, arrivals) == []
    decreases |arrivals|
  {
    if arrivals != [] {
      var before := arrivals[..|arrivals| - 1];
      FairPrefix(x, arrivals, |before|);
      FairLast(x, arrivals);
      NothingEarly(s0, x, before);
      EarlyArrival(Delivered(s0, x, before), s0, x, arrivals);
    }
  }

  lemma EarlyArrival(s: State, s0: State, x: Sending, arrivals: seq<Arrival>)
    requires x.Valid() && arrivals != [] && LastFair(x, arrivals) && Ready(s0, x) && Stuck(x, OwnOf(arrivals))
    requires
      var before := arrivals[..|arrivals| - 1];
      && InRange(OwnOf(before), x.Size())
      && Holding(s, x, s0, OwnOf(before), FirstTime(before), AllOwn(before))
    ensures InRange(OwnOf(arrivals), x.Size())
    ensures
      var last := arrivals[|arrivals| - 1];
      && (last.Own? ==> last.i < x.Size())
      && var r := Received(s, Bytes(x, last), last.now);
         r.outcomes == [] && Holding(r.state, x, s0, OwnOf(arrivals), FirstTime(arrivals), AllOwn(arrivals))
  {
    var before := arrivals[..|arrivals| - 1];
    HoldingFirst(s, x, s0, arrivals);
    StepEarly(s, x, s0, OwnOf(before), FirstTime(arrivals), AllOwn(before), arrivals[|before|]);
  }

  /** The time of the first arrival is that of the whole. */
  lemma HoldingFirst(s: State, x: Sending, s0: State, arrivals: seq<Arrival>)
    requires x.Valid() && arrivals != []
    requires
      var before := arrivals[..|arrivals| - 1];
      && (OwnOf(before) == [] ==> before == [])
      && (before != [] ==> FirstTime(before) == FirstTime(arrivals))
      && InRange(OwnOf(before), x.Size())
      && Holding(s, x, s0, OwnOf(before), FirstTime(before), AllOwn(before))
    ensures
      var before := arrivals[..|arrivals| - 1];
      Holding(s, x, s0, OwnOf(before), FirstTime(arrivals), AllOwn(before))
  {
  }

  /** The unit's packets once this one has arrived too. */
  function OwnAfter(order: seq<nat>, a: Arrival): seq<nat>
  {
    if a.Own? then order + [a.i] else order
  }

  /** One arrival of either kind while the unit waits. */
  lemma StepEarly(s: State, x: Sending, s0: State, order: seq<nat>, first: u64, alone: bool, a: Arrival)
    requires x.Valid() && InRange(order, x.Size()) && Ready(s0, x) && Holding(s, x, s0, order, first, alone)
    requires if a.Own? then a.i < x.Size() else Aside(x, a.rtp)
    requires (order == [] ==> a.Own? && a.now == first) && Sub64(a.now, first) <= HOLD_MS
    requires Stuck(x, OwnAfter(order, a))
    ensures InRange(OwnAfter(order, a), x.Size())
    ensures
      var r := Received(s, Bytes(x, a), a.now);
      r.outcomes == [] && Holding(r.state, x, s0, OwnAfter(order, a), first, alone && a.Own?)
  {
    match a
    case Own(i, now) => DeliverEarly(s, x, s0, order, first, alone, i, now);
    case Other(rtp, now) => DeliverAside(s, x, s0, order, first, alone, rtp, now);
  }

  /** With emulation-free NAL units the gate's decision is about the NAL types: a shut
      gate lets the unit through exactly when one of them is an IDR slice. */
  lemma GateIsAboutIdr(x: Sending, waiting: bool)
    requires x.Valid() && CleanUnits(PlanNals(x.plan))
    ensures Fate(x.ts, x.Unit(), waiting).Emitted? <==> !waiting || HasIdrSlice(PlanNals(x.plan))
  {
    IdrTestsAgree(PlanNals(x.plan));
  }
}
