/** The video jitter buffer: frames pending by timestamp, the hold, the repeat NACK
    and the gate that stays shut until an IDR.  `Receive` says what one packet does
    to the state; the class is the program's, field by field and loop by loop. */
module VideoJitter {
  import opened Serial
  import Rtp
  import opened H264
  import opened IdrScan
  import Nack
  import opened ReceiverReport
  import opened Assembly

  const HOLD_MS := 120
  const RENACK_MS := 70
  const MAX_FRAMES := 32

  datatype Frame = Frame(ts: u32, firstSeen: u64, renacked: bool, packets: seq<Packet>)

  datatype Stats = Stats(packets: u32, frames: u32, dropped: u32, nacks: u32, resyncs: u32,
                         lastFrameBytes: u32)

  datatype State = State(frames: seq<Frame>, lastTs: Option<u32>, waiting: bool,
                         counters: Counters, stats: Stats)

  const NO_STATS := Stats(0, 0, 0, 0, 0, 0)
  const START := State([], None, true, FRESH, NO_STATS)

  /** What became of a frame that left the buffer. */
  datatype Outcome =
    | Emitted(ts: u32, unit: seq<byte>)
    | Discarded(ts: u32, unit: seq<byte>)
    | TimedOut(ts: u32)

  datatype Result = Result(state: State, outcomes: seq<Outcome>, nacks: seq<Nack.Message>)

  // ---- where a packet goes --------------------------------------------------------

  /** Index of the frame with this timestamp, or the length. */
  function IndexOf(frames: seq<Frame>, ts: u32): (i: nat)
    ensures i <= |frames|
    ensures i < |frames| ==> frames[i].ts == ts
    ensures forall j :: 0 <= j < i ==> frames[j].ts != ts
  {
    if frames == [] || frames[0].ts == ts then 0 else 1 + IndexOf(frames[1..], ts)
  }

  /** How many leading frames `ts` is newer than. */
  function Rank(frames: seq<Frame>, ts: u32): (i: nat)
    ensures i <= |frames|
    ensures forall j :: 0 <= j < i ==> TsNewer(ts, frames[j].ts)
    ensures i < |frames| ==> !TsNewer(ts, frames[i].ts)
  {
    if frames == [] || !TsNewer(ts, frames[0].ts) then 0 else 1 + Rank(frames[1..], ts)
  }

  /** find_or_create: the frames afterwards and the index, unless refused. */
  function Located(frames: seq<Frame>, lastTs: Option<u32>, ts: u32, now: u64): (r: Option<(seq<Frame>, nat)>)
    ensures r.Some? ==> r.value.1 < |r.value.0| && r.value.0[r.value.1].ts == ts
  {
    var i := IndexOf(frames, ts);
    if i < |frames| then Some((frames, i))
    else if lastTs.Some? && !TsNewer(ts, lastTs.value) then None
    else if |frames| >= MAX_FRAMES then None
    else
      var k := Rank(frames, ts);
      Some((frames[..k] + [Frame(ts, now, false, [])] + frames[k..], k))
  }

  /** The frames once the packet is stored; None if it is stale, over the frame cap
      or a duplicate. */
  function Stored(frames: seq<Frame>, lastTs: Option<u32>, p: Rtp.Packet, now: u64): Option<seq<Frame>>
  {
    match Located(frames, lastTs, p.ts, now)
    case None => None
    case Some((fs, i)) =>
      if Held(fs[i].packets, p.seqNo) then None
      else Some(WithPacket(fs, i, Packet(p.seqNo, p.marker, p.payload)))
  }

  function WithPacket(frames: seq<Frame>, i: nat, p: Packet): (r: seq<Frame>)
    requires i < |frames|
    ensures |r| == |frames|
  {
    frames[i := frames[i].(packets := frames[i].packets + [p])]
  }

  // ---- draining ---------------------------------------------------------------------

  function ViewOf(ps: seq<Packet>): (v: Nack.FrameView)
    ensures v.Valid() && |v.seqs| == |ps|
  {
    Nack.FrameView(seq(|ps|, i requires 0 <= i < |ps| => ps[i].seqNo),
                   seq(|ps|, i requires 0 <= i < |ps| => ps[i].marker))
  }

  predicate RenackDue(f: Frame, now: u64)
  {
    !f.renacked && Sub64(now, f.firstSeen) > RENACK_MS
  }

  predicate Overdue(f: Frame, now: u64)
  {
    Sub64(now, f.firstSeen) > HOLD_MS
  }

  /** The state once the front frame has been assembled into `unit`. */
  function Released(s: State, unit: seq<byte>): (r: (State, Outcome))
    requires s.frames != []
    ensures |r.0.frames| < |s.frames|
  {
    var front := s.frames[0];
    var s1 := s.(frames := s.frames[1..], lastTs := Some(front.ts));
    if s.waiting && !HasKeyframe(unit) then
      (s1.(stats := s.stats.(resyncs := Add32(s.stats.resyncs, 1))), Discarded(front.ts, unit))
    else
      (s1.(waiting := false,
           stats := s.stats.(frames := Add32(s.stats.frames, 1), lastFrameBytes := Wrap32(|unit|))),
       Emitted(front.ts, unit))
  }

  /** The state once the front frame's missing packets have been asked for again, if
      that is due. */
  function AskedAgain(s: State, now: u64): (r: (State, seq<Nack.Message>))
    requires s.frames != []
    ensures |r.0.frames| == |s.frames|
  {
    var front := s.frames[0];
    if RenackDue(front, now) then
      (s.(frames := s.frames[0 := front.(renacked := true)],
          stats := s.stats.(nacks := Add32(s.stats.nacks, 1))),
       Nack.Repeat(ViewOf(front.packets)))
    else (s, [])
  }

  function GivenUp(s: State): (r: (State, Outcome))
    requires s.frames != []
    ensures |r.0.frames| < |s.frames|
  {
    (s.(frames := s.frames[1..], lastTs := Some(s.frames[0].ts), waiting := true,
        stats := s.stats.(dropped := Add32(s.stats.dropped, 1))),
     TimedOut(s.frames[0].ts))
  }

  function Prefixed(outcome: Outcome, nacks: seq<Nack.Message>, r: Result): Result
  {
    Result(r.state, [outcome] + r.outcomes, Join(nacks, r.nacks))
  }

  function Drain(s: State, now: u64): Result
    decreases |s.frames|
  {
    if s.frames == [] then Result(s, [], [])
    else
      match Assemble(s.frames[0].packets)
      case Some(unit) =>
        var (s1, outcome) := Released(s, unit);
        Prefixed(outcome, [], Drain(s1, now))
      case None =>
        var (s1, nacks) := AskedAgain(s, now);
        if Overdue(s.frames[0], now) then
          var (s2, outcome) := GivenUp(s1);
          Prefixed(outcome, nacks, Drain(s2, now))
        else Result(s1, [], nacks)
  }

  // ---- one packet ---------------------------------------------------------------------

  /** The NACKs sent the moment a gap is seen: none beyond 255 missing packets. */
  function FirstNacks(c: Counters, seqNo: u16): seq<Nack.Message>
  {
    if Advances(c, seqNo) && 0 < Sub16(seqNo, c.maxSeq) - 1 <= 255 then
      Nack.GapMessages(c.maxSeq + 1, Sub16(seqNo, c.maxSeq) - 1)
    else []
  }

  /** Sequence tracking, before anything is stored. */
  function Tracked(s: State, seqNo: u16): State
  {
    var nacks := |FirstNacks(s.counters, seqNo)|;
    s.(counters := Track(s.counters, seqNo),
       stats := s.stats.(packets := Add32(s.stats.packets, 1),
                         nacks := Wrap32(s.stats.nacks + nacks)))
  }

  function Accept(s: State, p: Rtp.Packet, now: u64): Result
  {
    var s1 := Tracked(s, p.seqNo);
    var nacks := FirstNacks(s.counters, p.seqNo);
    if p.payload == [] then Result(s1, [], nacks)
    else
      match Stored(s1.frames, s1.lastTs, p, now)
      case None => Result(s1, [], nacks)
      case Some(frames) =>
        var r := Drain(s1.(frames := frames), now);
        Result(r.state, r.outcomes, Join(nacks, r.nacks))
  }

  function Received(s: State, b: seq<byte>, now: u64): Result
  {
    match Rtp.Parse(b)
    case None => Result(s, [], [])
    case Some(p) => Accept(s, p, now)
  }

  /** Units handed to the decoder. */
  function Units(outcomes: seq<Outcome>): seq<seq<byte>>
  {
    if outcomes == [] then []
    else
      var o := outcomes[|outcomes| - 1];
      var before := Units(outcomes[..|outcomes| - 1]);
      if o.Emitted? then before + [o.unit] else before
  }

  /** A keyframe is wanted after any discard or timeout. */
  predicate WantsKeyframe(outcomes: seq<Outcome>)
  {
    exists o :: o in outcomes && !o.Emitted?
  }

  /** `rest` is what is left of `whole` after these outcomes and NACKs. */
  predicate Continues(whole: Result, outcomes: seq<Outcome>, nacks: seq<Nack.Message>, rest: Result)
  {
    && whole.state == rest.state
    && whole.outcomes == Join(outcomes, rest.outcomes)
    && whole.nacks == Join(nacks, rest.nacks)
  }

  lemma Extended(whole: Result, outcomes: seq<Outcome>, nacks: seq<Nack.Message>,
                 o: Outcome, more: seq<Nack.Message>, rest: Result)
    requires Continues(whole, outcomes, nacks, Prefixed(o, more, rest))
    ensures Continues(whole, outcomes + [o], Join(nacks, more), rest)
    ensures Units(outcomes + [o]) == if o.Emitted? then Units(outcomes) + [o.unit] else Units(outcomes)
    ensures WantsKeyframe(outcomes + [o]) <==> WantsKeyframe(outcomes) || !o.Emitted?
  {
    Assoc(outcomes, [o], rest.outcomes);
    Assoc(nacks, more, rest.nacks);
    assert (outcomes + [o])[..|outcomes|] == outcomes;
    assert o in outcomes + [o];
  }

  lemma Finished(whole: Result, outcomes: seq<Outcome>, nacks: seq<Nack.Message>, more: seq<Nack.Message>)
    requires whole.outcomes == Join(outcomes, []) && whole.nacks == Join(nacks, more)
    ensures whole.outcomes == outcomes
  {
  }

  // ---- the program ------------------------------------------------------------------------

  class VideoJitterBuffer {
    var frames: seq<Frame>
    var lastTs: Option<u32>
    var waitingKeyframe: bool
    var haveSeq: bool
    var maxSeq: u16
    var cycles: u32
    var baseSeq: u32
    var received: u32
    var receivedPrior: u32
    var expectedPrior: u32
    var stats: Stats

    function Seqs(): Counters
      reads this
    {
      Counters(haveSeq, maxSeq, cycles, baseSeq, received, receivedPrior, expectedPrior)
    }

    function Value(): State
      reads this
    {
      State(frames, lastTs, waitingKeyframe, Seqs(), stats)
    }

    constructor ()
      ensures Value() == START
    {
      frames, lastTs, waitingKeyframe := [], None, true;
      haveSeq, maxSeq := false, 0;
      cycles, baseSeq, received, receivedPrior, expectedPrior := 0, 0, 0, 0, 0;
      stats := NO_STATS;
    }

    method Reset()
      modifies this
      ensures Value() == START
    {
      frames, lastTs, waitingKeyframe := [], None, true;
      stats := NO_STATS;
      haveSeq, maxSeq := false, 0;
      cycles, baseSeq, received, receivedPrior, expectedPrior := 0, 0, 0, 0, 0;
    }

    method ReportStats() returns (report: Option<Report>)
      modifies this
      ensures old(haveSeq) ==>
        report == Some(ReportOf(old(Seqs()))) && Value() == old(Value()).(counters := Reported(old(Seqs())))
      ensures !old(haveSeq) ==> report == None && Value() == old(Value())
    {
      if !haveSeq { return None; }
      var extendedMax := Add32(cycles, maxSeq);
      var expected := Add32(Sub32(extendedMax, baseSeq), 1);
      var lost := if expected > received then expected - received else 0;
      var expIv := Sub32(expected, expectedPrior);
      var rcvIv := Sub32(received, receivedPrior);
      expectedPrior := expected;
      receivedPrior := received;
      var lostIv := if expIv > rcvIv then expIv - rcvIv else 0;
      return Some(Report(Fraction(lostIv, expIv), lost % 0x100_0000, extendedMax));
    }

    /** The sequence tracking at the head of receive. */
    method TrackSequence(seqNo: u16) returns (nacks: seq<Nack.Message>)
      modifies this
      ensures Value() == Tracked(old(Value()), seqNo)
      ensures nacks == FirstNacks(old(Seqs()), seqNo)
    {
      nacks := [];
      stats := stats.(packets := Add32(stats.packets, 1));
      if !haveSeq {
        haveSeq := true;
        maxSeq, baseSeq := seqNo, seqNo;
        cycles, received := 0, 0;
      }
      received := Add32(received, 1);
      var udelta := Sub16(seqNo, maxSeq);
      if udelta != 0 && udelta < 0x8000 {
        if seqNo < maxSeq { cycles := Add32(cycles, 0x1_0000); }
        var gap := udelta - 1;
        if gap > 0 && gap <= 255 {
          nacks := Nack.RequestGap(maxSeq, seqNo);
          stats := stats.(nacks := Wrap32(stats.nacks + |nacks|));
        }
        maxSeq := seqNo;
      }
    }

    method FindOrCreate(ts: u32, now: u64) returns (at: Option<nat>)
      modifies this`frames
      ensures
        var r := Located(old(frames), lastTs, ts, now);
        && (r.None? ==> at == None && frames == old(frames))
        && (r.Some? ==> at == Some(r.value.1) && frames == r.value.0)
    {
      var i := 0;
      while i < |frames|
        invariant 0 <= i <= |frames| && frames == old(frames)
        invariant IndexOf(frames, ts) == i + IndexOf(frames[i..], ts)
      {
        assert frames[i..][0] == frames[i] && frames[i..][1..] == frames[i + 1..];
        if frames[i].ts == ts { return Some(i); }
        i := i + 1;
      }
      assert IndexOf(frames[i..], ts) == 0;
      if lastTs.Some? && !TsNewer(ts, lastTs.value) { return None; }
      if |frames| >= MAX_FRAMES { return None; }
      var k := 0;
      while k < |frames| && TsNewer(ts, frames[k].ts)
        invariant 0 <= k <= |frames| && frames == old(frames)
        invariant Rank(frames, ts) == k + Rank(frames[k..], ts)
      {
        assert frames[k..][0] == frames[k] && frames[k..][1..] == frames[k + 1..];
        k := k + 1;
      }
      assert Rank(frames[k..], ts) == 0;
      frames := frames[..k] + [Frame(ts, now, false, [])] + frames[k..];
      return Some(k);
    }

    /** The front frame has been assembled: emit it, or discard it while blind. */
    method Release(au: seq<byte>) returns (emit: bool)
      requires frames != []
      modifies this
      ensures Value() == Released(old(Value()), au).0
      ensures emit <==> Released(old(Value()), au).1.Emitted?
    {
      lastTs := Some(frames[0].ts);
      frames := frames[1..];
      if waitingKeyframe {
        var keyframe := FindKeyframe(au);
        if !keyframe {
          stats := stats.(resyncs := Add32(stats.resyncs, 1));
          return false;
        }
        waitingKeyframe := false;
      }
      stats := stats.(frames := Add32(stats.frames, 1), lastFrameBytes := Wrap32(|au|));
      return true;
    }

    /** Ask once more for what the front frame is missing. */
    method AskAgain(now: u64) returns (nacks: seq<Nack.Message>)
      requires frames != []
      modifies this
      ensures (Value(), nacks) == AskedAgain(old(Value()), now)
    {
      nacks := [];
      var front := frames[0];
      if !front.renacked && Sub64(now, front.firstSeen) > RENACK_MS {
        frames := frames[0 := front.(renacked := true)];
        nacks := Nack.RenackMissing(ViewOf(front.packets));
        stats := stats.(nacks := Add32(stats.nacks, 1));
      }
    }

    /** The front frame has waited long enough. */
    method GiveUp()
      requires frames != []
      modifies this
      ensures Value() == GivenUp(old(Value())).0
    {
      lastTs := Some(frames[0].ts);
      frames := frames[1..];
      waitingKeyframe := true;
      stats := stats.(dropped := Add32(stats.dropped, 1));
    }

    /** The drain loop of receive. */
    method DrainFrames(now: u64)
        returns (emitted: seq<seq<byte>>, nacks: seq<Nack.Message>, want: bool, ghost outcomes: seq<Outcome>)
      modifies this
      ensures
        var r := Drain(old(Value()), now);
        Value() == r.state && outcomes == r.outcomes && nacks == r.nacks
      ensures emitted == Units(outcomes)
      ensures want <==> WantsKeyframe(outcomes)
    {
      emitted, nacks, want, outcomes := [], [], false, [];
      ghost var whole := Drain(Value(), now);
      while frames != []
        invariant emitted == Units(outcomes)
        invariant want <==> WantsKeyframe(outcomes)
        invariant Continues(whole, outcomes, nacks, Drain(Value(), now))
        decreases |frames|
      {
        var front := frames[0];
        ghost var s := Value();
        var ok, au := TryAssemble(front.packets);
        if ok {
          var emit := Release(au);
          ghost var o := Released(s, au).1;
          Extended(whole, outcomes, nacks, o, [], Drain(Value(), now));
          outcomes := outcomes + [o];
          if emit { emitted := emitted + [au]; } else { want := true; }
          continue;
        }
        var more := AskAgain(now);
        if Sub64(now, front.firstSeen) <= HOLD_MS {
          Finished(whole, outcomes, nacks, more);
          nacks := Join(nacks, more);
          return;
        }
        GiveUp();
        want := true;
        ghost var o := TimedOut(front.ts);
        Extended(whole, outcomes, nacks, o, more, Drain(Value(), now));
        outcomes := outcomes + [o];
        nacks := Join(nacks, more);
      }
      Finished(whole, outcomes, nacks, []);
    }

    method Receive(rtp: seq<byte>, now: u64)
        returns (emitted: seq<seq<byte>>, nacks: seq<Nack.Message>, want: bool, ghost outcomes: seq<Outcome>)
      modifies this
      ensures Value() == Received(old(Value()), rtp, now).state
      ensures outcomes == Received(old(Value()), rtp, now).outcomes
      ensures nacks == Received(old(Value()), rtp, now).nacks
      ensures emitted == Units(outcomes)
      ensures want <==> exists o :: o in outcomes && !o.Emitted?
    {
      emitted, nacks, want, outcomes := [], [], false, [];
      var parsed := Rtp.Parse(rtp);
      if parsed.None? { return; }
      var p := parsed.value;
      nacks := TrackSequence(p.seqNo);
      if p.payload == [] { return; }
      var at := FindOrCreate(p.ts, now);
      if at.None? { return; }
      var i := at.value;
      var held := Holds(frames[i].packets, p.seqNo);
      if held { return; }
      frames := WithPacket(frames, i, Packet(p.seqNo, p.marker, p.payload));
      var more;
      emitted, more, want, outcomes := DrainFrames(now);
      nacks := Join(nacks, more);
    }
  }

  method Holds(ps: seq<Packet>, seqNo: u16) returns (held: bool)
    ensures held == Held(ps, seqNo)
  {
    for i := 0 to |ps|
      invariant forall j :: 0 <= j < i ==> ps[j].seqNo != seqNo
    {
      if ps[i].seqNo == seqNo { return true; }
    }
    return false;
  }
}
