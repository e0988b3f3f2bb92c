/** The sequence numbers of a run of the video jitter buffer: its counters are those of the
    packets that truly came, its first NACKs name exactly the numbers skipped, and its
    receiver reports are the true ones. */
module JitterNumbers {
  import opened Serial
  import Rtp
  import Nack
  import opened ReceiverReport
  import opened Assembly
  import opened VideoJitter
  import opened VideoJitterRuns

  /** An event of the buffer, with the unwrapped sequence number of the packet if one arrives. */
  datatype Told = Told(e: VideoJitterRuns.Event, n: int)

  function EventsOf(ts: seq<Told>): (es: seq<VideoJitterRuns.Event>)
    ensures |es| == |ts|
  {
    if ts == [] then [] else EventsOf(ts[..|ts| - 1]) + [ts[|ts| - 1].e]
  }

  /** The buffer after these events. */
  function StateOf(ts: seq<Told>): State
  {
    if ts == [] then START else Step(StateOf(ts[..|ts| - 1]), ts[|ts| - 1].e).0
  }

  lemma {:induction false} StateIs(ts: seq<Told>)
    ensures StateOf(ts) == RunTrace(EventsOf(ts)).0
  {
    if ts != [] {
      var before := ts[..|ts| - 1];
      StateIs(before);
      assert EventsOf(ts)[..|ts| - 1] == EventsOf(before);
    }
  }

  /** The packet of this event carries that number. */
  predicate NumberOk(t: Told)
  {
    t.e.Arrives? && Rtp.Parse(t.e.rtp).Some? ==> Rtp.Parse(t.e.rtp).value.seqNo == Wrap16(t.n)
  }

  /** What the counters see of the events since the last reset. */
  function Counted(ts: seq<Told>): seq<ReceiverReport.Event>
  {
    if ts == [] then []
    else
      var before := Counted(ts[..|ts| - 1]);
      match ts[|ts| - 1].e
      case Arrives(rtp, _, _) => if Rtp.Parse(rtp).Some? then before + [Arrival(ts[|ts| - 1].n)] else before
      case Reports => before + [ReportSent]
      case Resets => []
  }

  predicate NumbersOk(ts: seq<Told>)
  {
    forall t <- ts :: NumberOk(t)
  }

  /** One packet's effect on the counters does not depend on where it is stored. */
  lemma ReceivedCounters(s: State, rtp: seq<byte>, now: u64)
    ensures Received(s, rtp, now).state.counters
         == match Rtp.Parse(rtp) case None => s.counters case Some(p) => Track(s.counters, p.seqNo)
  {
    var parsed := Rtp.Parse(rtp);
    if parsed.Some? && parsed.value.payload != [] {
      var p := parsed.value;
      var s1 := Tracked(s, p.seqNo);
      var stored := Stored(s1.frames, s1.lastTs, p, now);
      if stored.Some? {
        DrainTakesFront(s1.(frames := stored.value), now);
      }
    }
  }

  lemma RunCountersStep(es: seq<ReceiverReport.Event>, e: ReceiverReport.Event)
    ensures
      var c := RunCounters(FRESH, es);
      RunCounters(FRESH, es + [e])
        == match e case Arrival(u) => Track(c, Wrap16(u)) case ReportSent => if c.haveSeq then Reported(c) else c
  {
    assert (es + [e])[..|es|] == es;
  }

  /** On every run the buffer's counters are those of the packets that came. */
  lemma {:induction false} CountersFollow(ts: seq<Told>)
    requires NumbersOk(ts)
    ensures StateOf(ts).counters == RunCounters(FRESH, Counted(ts))
  {
    if ts != [] {
      var before, last := ts[..|ts| - 1], ts[|ts| - 1];
      assert last in ts;
      CountersFollow(before);
      match last.e
      case Arrives(rtp, now, _) =>
        ReceivedCounters(StateOf(before), rtp, now);
        RunCountersStep(Counted(before), Arrival(last.n));
      case Reports => RunCountersStep(Counted(before), ReportSent);
      case Resets =>
    }
  }

  /** Every figure of a report made on a run is the true one. */
  lemma RunReportIsTrue(ts: seq<Told>)
    requires NumbersOk(ts) && Windowed(Counted(ts)) && RunTruth(Counted(ts)).Seen?
    requires ReportFits(RunTruth(Counted(ts)))
    ensures StateOf(ts).counters.haveSeq
    ensures ReportTrue(ReportOf(StateOf(ts).counters), RunTruth(Counted(ts)))
  {
    CountersFollow(ts);
    RunFaithful(Counted(ts));
    ReportIsTrue(StateOf(ts).counters, RunTruth(Counted(ts)));
  }

  /** The numbers between `highest` and `n`, if there are at most 255. */
  function Between(highest: int, n: int): seq<u16>
  {
    if 0 < n - highest - 1 <= 255 then Nack.Consecutive(highest + 1, n - highest - 1) else []
  }

  /** The numbers skipped by the packet with unwrapped number `n`. */
  function Skipped(t: Truth, n: int): seq<u16>
  {
    if t.Seen? then Between(t.highest, n) else []
  }

  lemma FirstNacksExact(c: Counters, t: Truth, n: int)
    requires Faithful(c, t) && InWindow(t, n)
    ensures Nack.AllNamed(FirstNacks(c, Wrap16(n))) == Skipped(t, n)
  {
    if t.Seen? {
      SeenNacks(c, t.highest, n);
    }
  }

  lemma SeenNacks(c: Counters, highest: int, n: int)
    requires c.haveSeq && c.maxSeq == Wrap16(highest) && -0x8000 <= n - highest < 0x8000
    ensures Nack.AllNamed(FirstNacks(c, Wrap16(n))) == Between(highest, n)
  {
    GapIs(c, highest, n);
    FirstNacksAre(c, Wrap16(n), n - highest);
    if 0 < n - highest - 1 <= 255 {
      NamesGap(c.maxSeq, highest, n - highest - 1);
    }
  }

  lemma FirstNacksAre(c: Counters, seqNo: u16, ahead: int)
    requires Advances(c, seqNo) <==> ahead > 0
    requires ahead > 0 ==> Sub16(seqNo, c.maxSeq) == ahead
    ensures FirstNacks(c, seqNo)
         == if 0 < ahead - 1 <= 255 then Nack.GapMessages(c.maxSeq + 1, ahead - 1) else []
  {
  }

  /** The gap the counters see is the true one. */
  lemma GapIs(c: Counters, highest: int, n: int)
    requires c.haveSeq && c.maxSeq == Wrap16(highest) && -0x8000 <= n - highest < 0x8000
    ensures Advances(c, Wrap16(n)) <==> n > highest
    ensures n > highest ==> Sub16(Wrap16(n), c.maxSeq) == n - highest
  {
    SeqAfterIsGreater(n, highest);
    Sub16Wrap(n, highest);
  }

  lemma NamesGap(maxSeq: u16, highest: int, gap: nat)
    requires maxSeq == Wrap16(highest)
    ensures Nack.AllNamed(Nack.GapMessages(maxSeq + 1, gap)) == Nack.Consecutive(highest + 1, gap)
  {
    Nack.GapMessagesExact(maxSeq + 1, gap);
    SameNext(maxSeq, highest);
    Nack.ConsecutiveWraps(maxSeq + 1, highest + 1, gap);
  }

  lemma SameNext(maxSeq: u16, highest: int)
    requires maxSeq == Wrap16(highest)
    ensures Wrap16(maxSeq + 1) == Wrap16(highest + 1)
  {
    Add16Wrap(highest, 1);
    Add16Wrap(maxSeq, 1);
  }

  /** On every run, what a packet brings out at once as NACKs names exactly the numbers it
      skipped, in order, each once. */
  lemma RunNacksExact(ts: seq<Told>, rtp: seq<byte>, now: u64, n: int)
    requires NumbersOk(ts) && Windowed(Counted(ts)) && InWindow(RunTruth(Counted(ts)), n)
    requires Rtp.Parse(rtp).Some? && Rtp.Parse(rtp).value.seqNo == Wrap16(n)
    ensures
      var first := FirstNacks(StateOf(ts).counters, Wrap16(n));
      && Nack.AllNamed(first) == Skipped(RunTruth(Counted(ts)), n)
      && first <= Received(StateOf(ts), rtp, now).nacks
  {
    CountersFollow(ts);
    RunFaithful(Counted(ts));
    FirstNacksExact(StateOf(ts).counters, RunTruth(Counted(ts)), n);
  }

  // ---- what is asked for again -----------------------------------------------------------------

  function Numbers(ps: seq<Packet>): (r: seq<u16>)
    ensures |r| == |ps|
  {
    if ps == [] then [] else Numbers(ps[..|ps| - 1]) + [ps[|ps| - 1].seqNo]
  }

  function Markers(ps: seq<Packet>): (r: seq<bool>)
    ensures |r| == |ps|
  {
    if ps == [] then [] else Markers(ps[..|ps| - 1]) + [ps[|ps| - 1].marker]
  }

  function Held(f: Frame): (v: Nack.FrameView)
    ensures v.Valid() && |v.seqs| == |f.packets|
  {
    Nack.FrameView(Numbers(f.packets), Markers(f.packets))
  }

  /** Past 70 ms and not yet asked for again. */
  predicate Due(f: Frame, now: u64) { !f.renacked && Sub64(now, f.firstSeen) > 70 }

  /** These messages ask again for just what the frame is missing, if that is due, and else
      there are none: of the numbers from its lowest packet to its end every one that is
      not held, in order, up to 65 of them. */
  predicate AsksFor(f: Frame, now: u64, ms: seq<Nack.Message>)
    requires f.packets != []
  {
    if Due(f, now) then
      Nack.Lists(Nack.AllNamed(ms), Numbers(f.packets), Nack.LowestOf(Numbers(f.packets)), 0, Nack.SpanOf(Held(f)), 65)
    else ms == []
  }

  predicate AllHold(frames: seq<Frame>)
  {
    forall f <- frames :: f.packets != []
  }

  /** These messages ask, frame by frame, for what the frames that timed out and the one that
      stays in front are missing. */
  predicate Asks(frames: seq<Frame>, outcomes: seq<Outcome>, now: u64, ms: seq<Nack.Message>)
    requires AllHold(frames)
    decreases outcomes
  {
    if frames == [] then ms == []
    else if outcomes == [] then AsksFor(frames[0], now, ms)
    else
      assert AllHold(frames[1..]);
      exists k :: 0 <= k <= |ms|
        && (if outcomes[0].TimedOut? then AsksFor(frames[0], now, ms[..k]) else k == 0)
        && Asks(frames[1..], outcomes[1..], now, ms[k..])
  }

  lemma {:induction false} ViewIs(ps: seq<Packet>)
    ensures ViewOf(ps) == Nack.FrameView(Numbers(ps), Markers(ps))
  {
    if ps != [] {
      var n := |ps| - 1;
      ViewIs(ps[..n]);
      var v, w := ViewOf(ps), ViewOf(ps[..n]);
      assert v.seqs == w.seqs + [ps[n].seqNo] && v.markers == w.markers + [ps[n].marker];
    }
  }

  lemma AskedIs(s: State, now: u64)
    requires s.frames != [] && s.frames[0].packets != []
    ensures AsksFor(s.frames[0], now, AskedAgain(s, now).1)
  {
    ViewIs(s.frames[0].packets);
    Nack.RepeatExact(ViewOf(s.frames[0].packets));
  }

  lemma AsksStep(frames: seq<Frame>, o: Outcome, outcomes: seq<Outcome>, now: u64,
                 nacks: seq<Nack.Message>, more: seq<Nack.Message>)
    requires AllHold(frames) && frames != [] && AllHold(frames[1..]) && Asks(frames[1..], outcomes, now, more)
    requires if o.TimedOut? then AsksFor(frames[0], now, nacks) else nacks == []
    ensures Asks(frames, [o] + outcomes, now, Join(nacks, more))
  {
    var ms := Join(nacks, more);
    var k := |nacks|;
    assert ms[..k] == nacks && ms[k..] == more && ([o] + outcomes)[1..] == outcomes;
  }

  lemma {:induction false} DrainAsks(s: State, now: u64)
    requires AllHold(s.frames)
    ensures Asks(s.frames, Drain(s, now).outcomes, now, Drain(s, now).nacks)
    decreases |s.frames|
  {
    if s.frames != [] {
      match Assemble(s.frames[0].packets)
      case Some(unit) =>
        var (s1, o) := Released(s, unit);
        DrainAsks(s1, now);
        AsksStep(s.frames, o, Drain(s1, now).outcomes, now, [], Drain(s1, now).nacks);
      case None =>
        AskedIs(s, now);
        var (s1, nacks) := AskedAgain(s, now);
        if Overdue(s.frames[0], now) {
          var (s2, o) := GivenUp(s1);
          assert s2.frames == s.frames[1..];
          DrainAsks(s2, now);
          AsksStep(s.frames, o, Drain(s2, now).outcomes, now, nacks, Drain(s2, now).nacks);
        }
    }
  }

  /** What is stored is never an empty frame. */
  lemma StoredHolds(frames: seq<Frame>, lastTs: Option<u32>, p: Rtp.Packet, now: u64)
    requires AllHold(frames)
    ensures Stored(frames, lastTs, p, now).Some? ==> AllHold(Stored(frames, lastTs, p, now).value)
  {
    if Stored(frames, lastTs, p, now).Some? {
      var (fs, at) := Located(frames, lastTs, p.ts, now).value;
      var gs := Stored(frames, lastTs, p, now).value;
      forall i | 0 <= i < |gs| ensures gs[i].packets != [] {
        assert i != at ==> gs[i] == fs[i] && fs[i] in frames;
      }
    }
  }

  /** What a packet makes the buffer ask for: beyond the first request for what it skipped,
      for each frame that timed out and for the one that stays in front, if it was due, just
      what that frame is missing; and nothing more. */
  lemma ReceivedAsks(s: State, rtp: seq<byte>, now: u64)
    requires AllHold(s.frames)
    ensures
      var r := Received(s, rtp, now);
      match Rtp.Parse(rtp)
      case None => r.nacks == []
      case Some(p) =>
        var first := FirstNacks(s.counters, p.seqNo);
        var stored := Stored(s.frames, s.lastTs, p, now);
        && first <= r.nacks
        && if p.payload == [] || stored.None? then r.nacks == first
           else AllHold(stored.value) && Asks(stored.value, r.outcomes, now, r.nacks[|first|..])
  {
    var parsed := Rtp.Parse(rtp);
    if parsed.Some? && parsed.value.payload != [] {
      var p := parsed.value;
      var s1 := Tracked(s, p.seqNo);
      StoredHolds(s.frames, s.lastTs, p, now);
      var stored := Stored(s1.frames, s1.lastTs, p, now);
      if stored.Some? {
        DrainAsks(s1.(frames := stored.value), now);
        var first, more := FirstNacks(s.counters, p.seqNo), Drain(s1.(frames := stored.value), now).nacks;
        assert Join(first, more)[|first|..] == more;
      }
    }
  }

  lemma {:induction false} RunHolds(ts: seq<Told>)
    ensures AllHold(StateOf(ts).frames)
  {
    if ts != [] {
      var before, last := ts[..|ts| - 1], ts[|ts| - 1];
      RunHolds(before);
      match last.e
      case Arrives(rtp, now, _) => ReceivedHolds(StateOf(before), rtp, now);
      case _ =>
    }
  }

  lemma ReceivedHolds(s: State, rtp: seq<byte>, now: u64)
    requires AllHold(s.frames)
    ensures AllHold(Received(s, rtp, now).state.frames)
  {
    var parsed := Rtp.Parse(rtp);
    if parsed.Some? && parsed.value.payload != [] {
      var p := parsed.value;
      var s1 := Tracked(s, p.seqNo);
      StoredHolds(s1.frames, s1.lastTs, p, now);
      var stored := Stored(s1.frames, s1.lastTs, p, now);
      if stored.Some? {
        var s2 := s1.(frames := stored.value);
        DrainTakesFront(s2, now);
        var r := Drain(s2, now);
        forall i | 0 <= i < |r.state.frames| ensures r.state.frames[i].packets != [] {
          assert s2.frames[|r.outcomes|..][i] in s2.frames;
        }
      }
    }
  }

  /** On every run a packet brings out as NACKs: first the numbers it skipped, each once and in
      order; then, for each frame that timed out and the one that stays in front, if it was
      due to be asked for again, just what that frame is missing; and nothing more. */
  lemma RunAsksExactly(ts: seq<Told>, rtp: seq<byte>, now: u64, n: int)
    requires NumbersOk(ts) && Windowed(Counted(ts)) && InWindow(RunTruth(Counted(ts)), n)
    requires Rtp.Parse(rtp).Some? && Rtp.Parse(rtp).value.seqNo == Wrap16(n)
    ensures
      var s := StateOf(ts);
      var r := Received(s, rtp, now);
      var p := Rtp.Parse(rtp).value;
      var stored := Stored(s.frames, s.lastTs, p, now);
      exists k :: 0 <= k <= |r.nacks|
        && Nack.AllNamed(r.nacks[..k]) == Skipped(RunTruth(Counted(ts)), n)
        && if p.payload == [] || stored.None? then k == |r.nacks|
           else AllHold(stored.value) && Asks(stored.value, r.outcomes, now, r.nacks[k..])
  {
    RunNacksExact(ts, rtp, now, n);
    RunHolds(ts);
    ReceivedAsks(StateOf(ts), rtp, now);
    var first := FirstNacks(StateOf(ts).counters, Wrap16(n));
    var nacks := Received(StateOf(ts), rtp, now).nacks;
    assert nacks[..|first|] == first;
  }

  // ---- the statistics, which the rate control reads ----------------------------------------------

  /** How many of these outcomes are units emitted, discarded and frames timed out, and the size
      of the last unit emitted. */
  datatype Tally = Tally(emitted: nat, discarded: nat, timedOut: nat, last: Option<nat>)

  const Nothing := Tally(0, 0, 0, None)

  function One(o: Outcome): Tally
  {
    match o
    case Emitted(_, unit) => Tally(1, 0, 0, Some(|unit|))
    case Discarded(_, _) => Tally(0, 1, 0, None)
    case TimedOut(_) => Tally(0, 0, 1, None)
  }

  function TallyOf(outcomes: seq<Outcome>): Tally
  {
    if outcomes == [] then Nothing else Plus(One(outcomes[0]), TallyOf(outcomes[1..]))
  }

  /** How many frames are asked for again. */
  function AskedCount(frames: seq<Frame>, outcomes: seq<Outcome>, now: u64): nat
    decreases outcomes
  {
    if frames == [] then 0
    else if outcomes == [] then if Due(frames[0], now) then 1 else 0
    else
      (if outcomes[0].TimedOut? && Due(frames[0], now) then 1 else 0)
      + AskedCount(frames[1..], outcomes[1..], now)
  }

  function Plus(t: Tally, u: Tally): Tally
  {
    Tally(t.emitted + u.emitted, t.discarded + u.discarded, t.timedOut + u.timedOut,
          if u.last.Some? then u.last else t.last)
  }

  /** A 32-bit count has moved by `k`. */
  predicate MovedBy(x: u32, y: u32, k: nat) { y == Wrap32(x + k) }

  /** The statistics have moved by these counts. */
  predicate Moved(before: Stats, after: Stats, packets: nat, t: Tally, nacks: nat)
  {
    && MovedBy(before.packets, after.packets, packets) && MovedBy(before.frames, after.frames, t.emitted)
    && MovedBy(before.dropped, after.dropped, t.timedOut) && MovedBy(before.nacks, after.nacks, nacks)
    && MovedBy(before.resyncs, after.resyncs, t.discarded)
    && after.lastFrameBytes == match t.last case None => before.lastFrameBytes case Some(size) => Wrap32(size)
  }

  lemma MovedTwice(x: u32, y: u32, z: u32, j: nat, k: nat)
    requires MovedBy(x, y, j) && MovedBy(y, z, k)
    ensures MovedBy(x, z, j + k)
  {
  }

  lemma MovedThen(s0: Stats, s1: Stats, s2: Stats, p: nat, t: Tally, m: nat, q: nat, u: Tally, n: nat)
    requires Moved(s0, s1, p, t, m) && Moved(s1, s2, q, u, n)
    ensures Moved(s0, s2, p + q, Plus(t, u), m + n)
  {
    MovedTwice(s0.packets, s1.packets, s2.packets, p, q);
    MovedTwice(s0.frames, s1.frames, s2.frames, t.emitted, u.emitted);
    MovedTwice(s0.dropped, s1.dropped, s2.dropped, t.timedOut, u.timedOut);
    MovedTwice(s0.nacks, s1.nacks, s2.nacks, m, n);
    MovedTwice(s0.resyncs, s1.resyncs, s2.resyncs, t.discarded, u.discarded);
  }

  lemma TrackedStats(s: State, seqNo: u16)
    ensures Moved(s.stats, Tracked(s, seqNo).stats, 1, Nothing, |FirstNacks(s.counters, seqNo)|)
  {
  }

  lemma StayStats(s: State, now: u64)
    requires s.frames != []
    ensures Moved(s.stats, AskedAgain(s, now).0.stats, 0, Nothing, if Due(s.frames[0], now) then 1 else 0)
  {
  }

  lemma ReleaseStats(s: State, unit: seq<byte>)
    requires s.frames != []
    ensures Moved(s.stats, Released(s, unit).0.stats, 0, One(Released(s, unit).1), 0)
  {
  }

  lemma GiveUpStats(s: State, now: u64)
    requires s.frames != []
    ensures
      var s1 := GivenUp(AskedAgain(s, now).0);
      Moved(s.stats, s1.0.stats, 0, One(s1.1), if Due(s.frames[0], now) then 1 else 0)
  {
  }

  lemma {:induction false} DrainStats(s: State, now: u64)
    ensures
      var r := Drain(s, now);
      Moved(s.stats, r.state.stats, 0, TallyOf(r.outcomes), AskedCount(s.frames, r.outcomes, now))
    decreases |s.frames|
  {
    if s.frames != [] {
      match Assemble(s.frames[0].packets)
      case Some(unit) =>
        var (s1, o) := Released(s, unit);
        DrainStats(s1, now);
        ReleaseStats(s, unit);
        FirstOf(o, Drain(s1, now).outcomes);
        DrainStatsFirst(s.stats, s1.stats, Drain(s1, now).state.stats, s.frames, Drain(s, now).outcomes, now, 0);
      case None =>
        StayStats(s, now);
        if Overdue(s.frames[0], now) {
          var (s2, o) := GivenUp(AskedAgain(s, now).0);
          assert s2.frames == s.frames[1..];
          DrainStats(s2, now);
          GiveUpStats(s, now);
          var asked := if Due(s.frames[0], now) then 1 else 0;
          FirstOf(o, Drain(s2, now).outcomes);
          DrainStatsFirst(s.stats, s2.stats, Drain(s2, now).state.stats,
                          s.frames, Drain(s, now).outcomes, now, asked);
        }
    }
  }

  lemma DrainStatsFirst(
      a: Stats, b: Stats, c: Stats, frames: seq<Frame>, all: seq<Outcome>, now: u64, asked: nat)
    requires frames != [] && all != [] && Moved(a, b, 0, One(all[0]), asked)
    requires asked == if all[0].TimedOut? && Due(frames[0], now) then 1 else 0
    requires Moved(b, c, 0, TallyOf(all[1..]), AskedCount(frames[1..], all[1..], now))
    ensures Moved(a, c, 0, TallyOf(all), AskedCount(frames, all, now))
  {
    MovedThen(a, b, c, 0, One(all[0]), asked, 0, TallyOf(all[1..]), AskedCount(frames[1..], all[1..], now));
  }

  lemma FirstOf(o: Outcome, outcomes: seq<Outcome>)
    ensures ([o] + outcomes)[0] == o && ([o] + outcomes)[1..] == outcomes
  {
  }

  /** Every readable packet counts as one; every unit emitted, discarded and frame timed out
      counts as one; and so does every message of a first request, and every frame asked for
      again. */
  lemma ReceivedStats(s: State, rtp: seq<byte>, now: u64)
    ensures
      var r := Received(s, rtp, now);
      match Rtp.Parse(rtp)
      case None => r.state.stats == s.stats
      case Some(p) =>
        var stored := Stored(s.frames, s.lastTs, p, now);
        var asked := if p.payload == [] || stored.None? then 0 else AskedCount(stored.value, r.outcomes, now);
        Moved(s.stats, r.state.stats, 1, TallyOf(r.outcomes), |FirstNacks(s.counters, p.seqNo)| + asked)
  {
    var parsed := Rtp.Parse(rtp);
    if parsed.Some? {
      AcceptedStats(s, parsed.value, now, Received(s, rtp, now));
    }
  }

  lemma AcceptedStats(s: State, p: Rtp.Packet, now: u64, r: Result)
    requires r == Accept(s, p, now)
    ensures
      var stored := Stored(s.frames, s.lastTs, p, now);
      var asked := if p.payload == [] || stored.None? then 0 else AskedCount(stored.value, r.outcomes, now);
      Moved(s.stats, r.state.stats, 1, TallyOf(r.outcomes), |FirstNacks(s.counters, p.seqNo)| + asked)
  {
    TrackedStats(s, p.seqNo);
    var stored := Stored(s.frames, s.lastTs, p, now);
    if p.payload != [] && stored.Some? {
      StoredStats(s, p.seqNo, stored.value, now);
    }
  }

  /** The same, once the packet is stored and the frames are these. */
  lemma StoredStats(s: State, seqNo: u16, frames: seq<Frame>, now: u64)
    ensures
      var r := Drain(Tracked(s, seqNo).(frames := frames), now);
      Moved(s.stats, r.state.stats, 1, TallyOf(r.outcomes),
            |FirstNacks(s.counters, seqNo)| + AskedCount(frames, r.outcomes, now))
  {
    var s1 := Tracked(s, seqNo).(frames := frames);
    var r := Drain(s1, now);
    TrackedStats(s, seqNo);
    DrainStats(s1, now);
    MovedThen(s.stats, s1.stats, r.state.stats, 1, Nothing, |FirstNacks(s.counters, seqNo)|,
              0, TallyOf(r.outcomes), AskedCount(frames, r.outcomes, now));
  }
}
