/** A frame with more than one marked packet, as the whole jitter buffer treats it: while an
    older frame is incomplete its packets gather in the order of arrival, and that order
    can decide what comes out once the older frame is complete. */
module MarkerOrder {
  import opened Serial
  import Rtp
  import opened H264
  import opened IdrScan
  import opened Assembly
  import opened VideoJitter

  /** The older frame, an IDR in two packets, and the unit it makes. */
  const OLDER := Packet(0, false, [5])
  const OLDER_END := Packet(1, true, [5])
  const OLDER_UNIT: seq<byte> := [0, 0, 0, 1, 5, 0, 0, 0, 1, 5]

  function PlainHeader(p: Packet, ts: u32): (h: Rtp.Header)
    ensures h.Valid()
  {
    Rtp.Header(2, 96, p.seqNo, ts, p.marker, [0, 0, 0, 0], [], None, [])
  }

  /** The packet on the wire, with timestamp 0 for the older frame and 1 for the newer. */
  function OnWire(p: Packet, ts: u32): seq<byte> { Rtp.Build(PlainHeader(p, ts), p.payload) }

  function AsParsed(p: Packet, ts: u32): Rtp.Packet { Rtp.Packet(p.seqNo, ts, p.marker, p.payload) }

  lemma WireParses(p: Packet, ts: u32)
    ensures Rtp.Parse(OnWire(p, ts)) == Some(AsParsed(p, ts))
  {
    Rtp.ParseBuild(PlainHeader(p, ts), p.payload);
  }

  /** The buffer once the first packet of the older frame and these packets of the newer
      one have arrived, all at time 0. */
  function Gathering(qs: seq<Packet>): State
  {
    if qs == [] then Received(START, OnWire(OLDER, 0), 0).state
    else Received(Gathering(qs[..|qs| - 1]), OnWire(qs[|qs| - 1], 1), 0).state
  }

  /** What comes out when the older frame is completed. */
  function ComesOut(qs: seq<Packet>): seq<Outcome> { Received(Gathering(qs), OnWire(OLDER_END, 0), 0).outcomes }

  predicate Payloaded(qs: seq<Packet>)
  {
    forall q <- qs :: q.payload != []
  }

  const OLDER_FRAME := Frame(0, 0, false, [OLDER])

  predicate Pending(s: State, qs: seq<Packet>)
  {
    && s.lastTs == None && s.waiting
    && s.frames == if qs == [] then [OLDER_FRAME] else [OLDER_FRAME, Frame(1, 0, false, qs)]
  }

  lemma OlderWaits(s: State)
    requires s.frames != [] && s.frames[0] == OLDER_FRAME
    ensures Drain(s, 0) == VideoJitter.Result(s, [], [])
  {
    assert FirstMarker([OLDER][1..]) == None;
    assert Assemble(OLDER_FRAME.packets) == None;
  }

  lemma StartGathers(s: State)
    requires s.frames == [] && s.lastTs == None
    ensures Stored(s.frames, s.lastTs, AsParsed(OLDER, 0), 0) == Some([OLDER_FRAME])
  {
    var newest := Frame(0, 0, false, []);
    var fs := s.frames[..0] + [newest] + s.frames[0..];
    assert fs == [newest];
    assert Located(s.frames, s.lastTs, 0, 0) == Some((fs, 0));
    assert !Held(newest.packets, 0) && newest.packets + [OLDER] == [OLDER];
    assert fs[0 := newest.(packets := [OLDER])] == [OLDER_FRAME];
  }

  lemma FirstGathers(s: State, q: Packet)
    requires Pending(s, [])
    ensures Stored(s.frames, s.lastTs, AsParsed(q, 1), 0) == Some([OLDER_FRAME, Frame(1, 0, false, [q])])
  {
    var newest := Frame(1, 0, false, []);
    var fs := s.frames[..1] + [newest] + s.frames[1..];
    assert fs == [OLDER_FRAME, newest];
    assert s.frames[1..] == [];
    assert IndexOf(s.frames, 1) == 1 && Rank(s.frames, 1) == 1;
    assert Located(s.frames, s.lastTs, 1, 0) == Some((fs, 1));
    assert !Held(newest.packets, q.seqNo) && newest.packets + [q] == [q];
    assert fs[1 := newest.(packets := [q])] == [OLDER_FRAME, Frame(1, 0, false, [q])];
  }

  lemma NextGathers(s: State, qs: seq<Packet>, q: Packet)
    requires Pending(s, qs) && qs != [] && !Held(qs, q.seqNo)
    ensures Stored(s.frames, s.lastTs, AsParsed(q, 1), 0) == Some([OLDER_FRAME, Frame(1, 0, false, qs + [q])])
  {
    var newest := Frame(1, 0, false, qs);
    assert s.frames[1..] == [newest];
    assert IndexOf(s.frames[1..], 1) == 0;
    assert IndexOf(s.frames, 1) == 1;
    assert Located(s.frames, s.lastTs, 1, 0) == Some((s.frames, 1));
    assert s.frames[1 := newest.(packets := qs + [q])] == [OLDER_FRAME, Frame(1, 0, false, qs + [q])];
  }

  /** A kept packet that completes nothing changes the frames and the counters only. */
  lemma Accepted(s: State, rtp: seq<byte>, p: Rtp.Packet, frames: seq<Frame>)
    requires Rtp.Parse(rtp) == Some(p) && p.payload != []
    requires Stored(s.frames, s.lastTs, p, 0) == Some(frames) && frames != [] && frames[0] == OLDER_FRAME
    ensures
      var s1 := Received(s, rtp, 0).state;
      s1.frames == frames && s1.lastTs == s.lastTs && s1.waiting == s.waiting
  {
    OlderWaits(Tracked(s, p.seqNo).(frames := frames));
  }

  lemma StepGathers(s: State, qs: seq<Packet>, q: Packet)
    requires Pending(s, qs) && !Held(qs, q.seqNo) && q.payload != []
    ensures Pending(Received(s, OnWire(q, 1), 0).state, qs + [q])
  {
    WireParses(q, 1);
    if qs == [] {
      assert qs + [q] == [q];
      FirstGathers(s, q);
      Accepted(s, OnWire(q, 1), AsParsed(q, 1), [OLDER_FRAME, Frame(1, 0, false, [q])]);
    } else {
      NextGathers(s, qs, q);
      Accepted(s, OnWire(q, 1), AsParsed(q, 1), [OLDER_FRAME, Frame(1, 0, false, qs + [q])]);
    }
  }

  /** Whatever the packets and their order, they gather in that order. */
  lemma {:induction false} GathersInOrder(qs: seq<Packet>)
    requires DistinctNumbers(qs) && Payloaded(qs)
    ensures Pending(Gathering(qs), qs)
  {
    if qs == [] {
      WireParses(OLDER, 0);
      StartGathers(START);
      Accepted(START, OnWire(OLDER, 0), AsParsed(OLDER, 0), [OLDER_FRAME]);
    } else {
      var before, q := qs[..|qs| - 1], qs[|qs| - 1];
      assert qs == before + [q] && q in qs;
      GathersInOrder(before);
      StepGathers(Gathering(before), before, q);
    }
  }

  lemma OlderCompletes()
    ensures Assemble([OLDER, OLDER_END]) == Some(OLDER_UNIT) && HasKeyframe(OLDER_UNIT)
  {
    var ps := [OLDER, OLDER_END];
    assert ps[1..] == [OLDER_END] && FirstMarker([OLDER_END]) == Some(1);
    SortedPair(OLDER, OLDER_END, 1);
    assert Contiguous(ps);
    assert Payloads(ps) == [[5], [5]] by { assert [OLDER_END][1..] == []; }
    PayloadsCons([5], [[5]]);
    DepacketizedOne([5]);
    assert Depacketized([5]) == [0, 0, 0, 1, 5];
    assert DepacketizedAll(Payloads(ps)) == OLDER_UNIT;
    assert KeyframeAt(OLDER_UNIT, 0);
  }

  lemma EndStored(s: State, qs: seq<Packet>)
    requires Pending(s, qs)
    ensures Stored(s.frames, s.lastTs, AsParsed(OLDER_END, 0), 0)
         == Some([Frame(0, 0, false, [OLDER, OLDER_END])] + s.frames[1..])
  {
    assert Located(s.frames, s.lastTs, 0, 0) == Some((s.frames, 0));
    assert [OLDER] + [OLDER_END] == [OLDER, OLDER_END];
    assert s.frames[0 := OLDER_FRAME.(packets := [OLDER, OLDER_END])]
        == [Frame(0, 0, false, [OLDER, OLDER_END])] + s.frames[1..];
  }

  /** What comes of the newer frame. */
  function Newer(qs: seq<Packet>): seq<Outcome>
  {
    if qs == [] || Assemble(qs) == None then [] else [Emitted(1, Assemble(qs).value)]
  }

  lemma DrainsNewer(s: State, qs: seq<Packet>)
    requires !s.waiting && s.frames == if qs == [] then [] else [Frame(1, 0, false, qs)]
    ensures Drain(s, 0).outcomes == Newer(qs)
  {
    if qs != [] && Assemble(qs).Some? {
      assert Drain(Released(s, Assemble(qs).value).0, 0).outcomes == [];
    }
  }

  /** On this run of the whole buffer the older frame comes out, and then the newer one if
      and as its packets, in the order in which they arrived, are assembled. */
  lemma ComesOutIs(qs: seq<Packet>)
    requires DistinctNumbers(qs) && Payloaded(qs)
    ensures ComesOut(qs) == [Emitted(0, OLDER_UNIT)] + Newer(qs)
  {
    GathersInOrder(qs);
    WireParses(OLDER_END, 0);
    var s := Gathering(qs);
    EndStored(s, qs);
    EndDrains(Tracked(s, OLDER_END.seqNo), qs);
  }

  /** The completed older frame is let through, which opens the gate for the newer one. */
  lemma EndDrains(s: State, qs: seq<Packet>)
    requires Pending(s, qs)
    ensures
      var frames := [Frame(0, 0, false, [OLDER, OLDER_END])] + s.frames[1..];
      Drain(s.(frames := frames), 0).outcomes == [Emitted(0, OLDER_UNIT)] + Newer(qs)
  {
    OlderCompletes();
    var s1 := s.(frames := [Frame(0, 0, false, [OLDER, OLDER_END])] + s.frames[1..]);
    var (s2, o) := Released(s1, OLDER_UNIT);
    assert s2.frames == s.frames[1..] && o == Emitted(0, OLDER_UNIT);
    DrainsNewer(s2, qs);
  }

  /** So the outcome shows which unit was assembled, if any. */
  lemma NewerShows(ps: seq<Packet>, qs: seq<Packet>)
    requires SamePackets(ps, qs)
    ensures Newer(qs) == Newer(ps) <==> Assemble(qs) == Assemble(ps)
  {
    EmptyTogether(ps, qs);
  }

  lemma ComesOutShows(ps: seq<Packet>, qs: seq<Packet>)
    requires DistinctNumbers(ps) && Payloaded(ps) && SamePackets(ps, qs)
    ensures ComesOut(qs) == ComesOut(ps) <==> Assemble(qs) == Assemble(ps)
  {
    var older := [Emitted(0, OLDER_UNIT)];
    ComesOutIs(ps);
    ComesOutIs(qs);
    NewerShows(ps, qs);
    assert (older + Newer(qs))[1..] == Newer(qs) && (older + Newer(ps))[1..] == Newer(ps);
  }

  /** Every order of arrival brings out the same. */
  ghost predicate ShownFree(ps: seq<Packet>)
  {
    forall qs :: SamePackets(ps, qs) ==> ComesOut(qs) == ComesOut(ps)
  }

  /** Through the whole buffer, while an older frame stays incomplete: for any packets of the
      newer frame, every order of arrival brings out the same exactly when at most one of
      them is marked, or none that is completes the frame.  With nothing older pending a
      frame need not wait for its packets; that case is RoundTrips.AnyOrderIff. */
  lemma ArrivalOrderIff(ps: seq<Packet>)
    requires DistinctNumbers(ps) && Payloaded(ps) && |ps| < TWO16
    ensures ShownFree(ps) <==> OneMarked(ps) || forall p <- ps :: p.marker ==> !CompleteTo(ps, p.seqNo)
  {
    OrderFreeIff(ps);
    ShownFreeIff(ps);
  }

  lemma ShownFreeIff(ps: seq<Packet>)
    requires DistinctNumbers(ps) && Payloaded(ps)
    ensures ShownFree(ps) <==> OrderFree(ps)
  {
    forall qs | SamePackets(ps, qs) ensures ComesOut(qs) == ComesOut(ps) <==> Assemble(qs) == Assemble(ps) {
      ComesOutShows(ps, qs);
    }
  }

  const FIRST_MARKED := Packet(10, true, [1])
  const LAST_MARKED := Packet(11, true, [1])

  lemma TwoMarkedAssemble()
    ensures Assemble([FIRST_MARKED, LAST_MARKED]) == None
    ensures Assemble([LAST_MARKED, FIRST_MARKED]) == Some([0, 0, 0, 1, 1, 0, 0, 0, 1, 1])
  {
    var a, b := FIRST_MARKED, LAST_MARKED;
    SortedPair(b, a, 11);
    SortedPair(a, b, 10);
    assert [b, a][1..] == [a] && FirstMarker([b, a]) == Some(11);
    assert Payloads([a, b]) == [[1], [1]] by { assert [a, b][1..] == [b] && [b][1..] == []; }
    assert Contiguous([a, b]) by { assert [a, b][1..] == [b]; }
    assert !Contiguous([b, a]);
    PayloadsCons([1], [[1]]);
    DepacketizedOne([1]);
    assert Depacketized([1]) == [0, 0, 0, 1, 1];
    assert DepacketizedAll(Payloads([a, b])) == [0, 0, 0, 1, 1, 0, 0, 0, 1, 1];
  }

  /** Such packets exist: two marked heads in a row, of which the second completes both. */
  lemma TwoMarkersDependOnOrder()
    ensures ComesOut([FIRST_MARKED, LAST_MARKED]) == [Emitted(0, OLDER_UNIT)] + []
    ensures ComesOut([LAST_MARKED, FIRST_MARKED])
         == [Emitted(0, OLDER_UNIT)] + [Emitted(1, [0, 0, 0, 1, 1, 0, 0, 0, 1, 1])]
  {
    TwoMarkedAssemble();
    PairComesOut(FIRST_MARKED, LAST_MARKED);
    PairComesOut(LAST_MARKED, FIRST_MARKED);
  }

  lemma PairComesOut(p: Packet, q: Packet)
    requires p.seqNo != q.seqNo && p.payload != [] && q.payload != []
    ensures ComesOut([p, q]) == [Emitted(0, OLDER_UNIT)] + Newer([p, q])
  {
    ComesOutIs([p, q]);
  }
}
