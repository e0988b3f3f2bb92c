/** What holds over every run of the video jitter buffer: the frames it keeps, the
    order in which it resolves them, and the IDR gate. */
module VideoJitterRuns {
  import opened Serial
  import Rtp
  import Nack
  import opened IdrScan
  import opened ReceiverReport
  import opened Assembly
  import opened VideoJitter

  /** What can happen to the buffer.  `u` is the unwrapped timestamp of the packet. */
  datatype Event =
    | Arrives(rtp: seq<byte>, now: u64, u: int)
    | Reports
    | Resets

  function Step(s: State, e: Event): (r: (State, seq<Outcome>))
  {
    match e
    case Arrives(rtp, now, _) => (Received(s, rtp, now).state, Received(s, rtp, now).outcomes)
    case Reports => (if s.counters.haveSeq then s.(counters := Reported(s.counters)) else s, [])
    case Resets => (START, [])
  }

  // ---- the frames kept ---------------------------------------------------------------

  predicate FrameOk(f: Frame)
  {
    DistinctNumbers(f.packets) && (forall p <- f.packets :: p.payload != [])
  }

  predicate FramesOk(frames: seq<Frame>)
  {
    && |frames| <= 32
    && (forall f <- frames :: FrameOk(f))
    && (forall i, j :: 0 <= i < j < |frames| ==> frames[i].ts != frames[j].ts)
  }

  /** Same frames, except that the repeat NACK may have been noted. */
  predicate SameFrames(fs: seq<Frame>, gs: seq<Frame>)
  {
    |fs| == |gs| && forall i :: 0 <= i < |fs| ==> gs[i] == fs[i].(renacked := gs[i].renacked)
  }

  lemma LocatedOk(frames: seq<Frame>, lastTs: Option<u32>, ts: u32, now: u64)
    requires FramesOk(frames)
    ensures Located(frames, lastTs, ts, now).Some? ==> FramesOk(Located(frames, lastTs, ts, now).value.0)
  {
    var i := IndexOf(frames, ts);
    if i == |frames| && |frames| < MAX_FRAMES {
      var k := Rank(frames, ts);
      var fs := frames[..k] + [Frame(ts, now, false, [])] + frames[k..];
      forall a, b | 0 <= a < b < |fs| ensures fs[a].ts != fs[b].ts {
        assert a != k ==> fs[a] == frames[if a < k then a else a - 1];
        assert b != k ==> fs[b] == frames[if b < k then b else b - 1];
      }
      forall f | f in fs ensures FrameOk(f) {
        assert f in frames[..k] || f == Frame(ts, now, false, []) || f in frames[k..];
      }
    }
  }

  lemma StoredOk(frames: seq<Frame>, lastTs: Option<u32>, p: Rtp.Packet, now: u64)
    requires FramesOk(frames) && p.payload != []
    ensures Stored(frames, lastTs, p, now).Some? ==> FramesOk(Stored(frames, lastTs, p, now).value)
  {
    LocatedOk(frames, lastTs, p.ts, now);
    if Stored(frames, lastTs, p, now).Some? {
      var (fs, i) := Located(frames, lastTs, p.ts, now).value;
      var q := Packet(p.seqNo, p.marker, p.payload);
      var gs := WithPacket(fs, i, q);
      forall r | r in fs[i].packets ensures r.seqNo != q.seqNo { assert !Held(fs[i].packets, q.seqNo); }
      assert FrameOk(fs[i]);
      assert FrameOk(gs[i]);
      forall f | f in gs ensures FrameOk(f) {
        var j :| 0 <= j < |gs| && gs[j] == f;
        assert j != i ==> fs[j] in fs;
      }
    }
  }

  // ---- the drain -----------------------------------------------------------------------

  /** Why a frame leaves: assembled into the unit it gives, or incomplete for too long. */
  predicate Justified(f: Frame, o: Outcome, now: u64)
  {
    && o.ts == f.ts
    && match o
       case Emitted(_, unit) => Assemble(f.packets) == Some(unit)
       case Discarded(_, unit) => Assemble(f.packets) == Some(unit) && !HasKeyframe(unit)
       case TimedOut(_) => Assemble(f.packets) == None && Sub64(now, f.firstSeen) > 120
  }

  /** Neither complete nor older than the hold, and asked for again when due. */
  predicate Waiting(f: Frame, now: u64)
  {
    && Assemble(f.packets) == None && Sub64(now, f.firstSeen) <= 120
    && (Sub64(now, f.firstSeen) > 70 ==> f.renacked)
  }

  /** Of the frames that stay only the first can have changed: it is marked as asked for
      again exactly if that was due or had been done. */
  predicate FrontAsked(fs: seq<Frame>, gs: seq<Frame>, now: u64)
  {
    && |fs| == |gs| && (forall i :: 0 < i < |fs| ==> gs[i] == fs[i])
    && (fs != [] ==>
          gs[0] == Frame(fs[0].ts, fs[0].firstSeen, fs[0].renacked || Sub64(now, fs[0].firstSeen) > 70, fs[0].packets))
  }

  /** `r` took `|r.outcomes|` frames off the front of `s`. */
  predicate TookFront(s: State, r: Result, now: u64)
  {
    var k := |r.outcomes|;
    && k <= |s.frames|
    && (forall i :: 0 <= i < k ==> Justified(s.frames[i], r.outcomes[i], now))
    && SameFrames(s.frames[k..], r.state.frames) && FrontAsked(s.frames[k..], r.state.frames, now)
    && r.state.lastTs == (if k == 0 then s.lastTs else Some(s.frames[k - 1].ts))
    && r.state.counters == s.counters
  }

  /** The drain takes frames off the front, each for its own good reason, and stops at
      one that must still wait. */
  lemma {:induction false} DrainTakesFront(s: State, now: u64)
    ensures TookFront(s, Drain(s, now), now)
    ensures Drain(s, now).state.frames != [] ==> Waiting(Drain(s, now).state.frames[0], now)
    decreases |s.frames|
  {
    if s.frames != [] {
      var front := s.frames[0];
      match Assemble(front.packets)
      case Some(unit) =>
        var (s1, o) := Released(s, unit);
        DrainTakesFront(s1, now);
        DrainShift(s, s1, o, [], Drain(s1, now), now);
      case None =>
        var (s1, nacks) := AskedAgain(s, now);
        assert s1.frames[1..] == s.frames[1..];
        if Overdue(front, now) {
          var (s2, o) := GivenUp(s1);
          DrainTakesFront(s2, now);
          DrainShift(s, s2, o, nacks, Drain(s2, now), now);
        } else {
          assert s.frames[0..] == s.frames;
        }
    }
  }

  lemma DrainShift(s: State, s1: State, o: Outcome, nacks: seq<Nack.Message>, r1: Result, now: u64)
    requires s.frames != [] && s1.frames == s.frames[1..] && s1.lastTs == Some(s.frames[0].ts)
    requires s1.counters == s.counters
    requires Justified(s.frames[0], o, now)
    requires TookFront(s1, r1, now)
    ensures TookFront(s, Prefixed(o, nacks, r1), now)
  {
    var k := |r1.outcomes|;
    var r := Prefixed(o, nacks, r1);
    assert s1.frames[k..] == s.frames[k + 1..];
    forall i | 0 <= i < k + 1 ensures Justified(s.frames[i], r.outcomes[i], now) {
      if i > 0 {
        assert s1.frames[i - 1] == s.frames[i] && r.outcomes[i] == r1.outcomes[i - 1];
      }
    }
  }

  lemma SameFramesOk(fs: seq<Frame>, k: nat, gs: seq<Frame>)
    requires FramesOk(fs) && k <= |fs| && SameFrames(fs[k..], gs)
    ensures FramesOk(gs)
  {
    forall i | 0 <= i < |gs| ensures FrameOk(gs[i]) && gs[i].ts == fs[k + i].ts {
      assert fs[k + i] in fs;
    }
  }

  /** On every run, and with no assumption on the traffic: at most 32 frames, all with
      different timestamps, none holding a sequence number twice or an empty payload. */
  lemma StepKeepsFrames(s: State, e: Event)
    requires FramesOk(s.frames)
    ensures FramesOk(Step(s, e).0.frames)
  {
    match e
    case Arrives(rtp, now, _) =>
      var parsed := Rtp.Parse(rtp);
      if parsed.Some? && parsed.value.payload != [] {
        var p := parsed.value;
        var s1 := Tracked(s, p.seqNo);
        StoredOk(s1.frames, s1.lastTs, p, now);
        var stored := Stored(s1.frames, s1.lastTs, p, now);
        if stored.Some? {
          var s2 := s1.(frames := stored.value);
          DrainTakesFront(s2, now);
          SameFramesOk(s2.frames, |Drain(s2, now).outcomes|, Drain(s2, now).state.frames);
        }
      }
    case _ =>
  }

  // ---- order -----------------------------------------------------------------------------

  /** The buffer with the unwrapped timestamps it stands for: of the pending frames,
      of the last one resolved, and of all resolved since the last reset. */
  datatype Tagged = Tagged(state: State, us: seq<int>, resolved: seq<int>)

  predicate Close(x: int, y: int) { -0x8000_0000 < x - y < 0x8000_0000 }

  function LastOf(resolved: seq<int>): Option<int>
  {
    if resolved == [] then None else Some(resolved[|resolved| - 1])
  }

  predicate Match(frames: seq<Frame>, us: seq<int>)
  {
    |us| == |frames| && forall i :: 0 <= i < |us| ==> frames[i].ts == Wrap32(us[i])
  }

  /** Pending timestamps rise within one window, above everything resolved. */
  predicate Ordered(us: seq<int>, resolved: seq<int>)
  {
    && Ascending(us) && Ascending(resolved)
    && (us != [] ==> Close(us[|us| - 1], us[0]))
    && (us != [] && resolved != [] ==>
          resolved[|resolved| - 1] < us[0] && Close(us[|us| - 1], resolved[|resolved| - 1]))
  }

  predicate TagsOk(t: Tagged)
  {
    && Match(t.state.frames, t.us) && Ordered(t.us, t.resolved)
    && t.state.lastTs == match LastOf(t.resolved) case None => None case Some(last) => Some(Wrap32(last))
  }

  /** The packet's timestamp is within 2^31 of every live one. */
  predicate Live(t: Tagged, u: int)
  {
    && (forall i :: 0 <= i < |t.us| ==> Close(u, t.us[i]))
    && (LastOf(t.resolved).Some? ==> Close(u, LastOf(t.resolved).value))
  }

  function InsertedTag(us: seq<int>, k: nat, u: int): seq<int>
  {
    if k <= |us| then us[..k] + [u] + us[k..] else us
  }

  /** Tags of the pending frames once the packet is stored. */
  function StoredTags(t: Tagged, p: Rtp.Packet, u: int): seq<int>
  {
    if IndexOf(t.state.frames, p.ts) < |t.state.frames| then t.us
    else InsertedTag(t.us, Rank(t.state.frames, p.ts), u)
  }

  /** The first `k` pending frames have been resolved. */
  function Resolved(s: State, us: seq<int>, resolved: seq<int>, k: nat): Tagged
  {
    if 0 < k <= |us| then Tagged(s, us[k..], resolved + us[..k]) else Tagged(s, us, resolved)
  }

  function TagStep(t: Tagged, e: Event): Tagged
  {
    var (s, outcomes) := Step(t.state, e);
    match e
    case Resets => Tagged(START, [], [])
    case Reports => t.(state := s)
    case Arrives(rtp, now, u) =>
      match Rtp.Parse(rtp)
      case None => t
      case Some(p) =>
        if p.payload == [] || Stored(t.state.frames, t.state.lastTs, p, now).None? then t.(state := s)
        else Resolved(s, StoredTags(t, p, u), t.resolved, |outcomes|)
  }

  predicate EventOk(t: Tagged, e: Event)
  {
    e.Arrives? && Rtp.Parse(e.rtp).Some? ==>
      Rtp.Parse(e.rtp).value.ts == Wrap32(e.u) && Live(t, e.u)
  }

  lemma InsertedIs(us: seq<int>, k: nat, u: int)
    requires k <= |us|
    ensures
      var vs := InsertedTag(us, k, u);
      |vs| == |us| + 1 && forall i :: 0 <= i < |vs| ==>
        vs[i] == if i < k then us[i] else if i == k then u else us[i - 1]
  {
  }

  lemma MatchInsert(frames: seq<Frame>, us: seq<int>, k: nat, f: Frame, u: int)
    requires Match(frames, us) && k <= |us| && f.ts == Wrap32(u)
    ensures Match(frames[..k] + [f] + frames[k..], InsertedTag(us, k, u))
  {
    InsertedIs(us, k, u);
  }

  lemma MatchWithPacket(frames: seq<Frame>, us: seq<int>, i: nat, p: Packet)
    requires Match(frames, us) && i < |frames|
    ensures Match(WithPacket(frames, i, p), us)
  {
  }

  lemma MatchSameFrames(fs: seq<Frame>, gs: seq<Frame>, us: seq<int>, k: nat)
    requires Match(fs, us) && k <= |fs| && SameFrames(fs[k..], gs)
    ensures Match(gs, us[k..])
  {
    forall i | 0 <= i < |gs| ensures gs[i].ts == Wrap32(us[k..][i]) {
      assert fs[k..][i] == fs[k + i] && us[k..][i] == us[k + i];
    }
  }

  lemma RankSplits(frames: seq<Frame>, us: seq<int>, ts: u32, u: int)
    requires Match(frames, us) && ts == Wrap32(u) && IndexOf(frames, ts) == |frames|
    requires Ascending(us) && forall i :: 0 <= i < |us| ==> Close(u, us[i])
    ensures forall i :: 0 <= i < |us| ==>
      if i < Rank(frames, ts) then us[i] < u else u < us[i]
  {
    var k := Rank(frames, ts);
    if k < |us| {
      TsNewerIsGreater(u, us[k]);
    }
    forall i | 0 <= i < |us| ensures if i < k then us[i] < u else u < us[i] {
      TsNewerIsGreater(u, us[i]);
    }
  }

  lemma OrderedInsert(us: seq<int>, resolved: seq<int>, k: nat, u: int)
    requires Ordered(us, resolved) && k <= |us|
    requires forall i :: 0 <= i < |us| ==> (if i < k then us[i] < u else u < us[i]) && Close(u, us[i])
    requires resolved != [] ==> resolved[|resolved| - 1] < u && Close(u, resolved[|resolved| - 1])
    ensures Ordered(InsertedTag(us, k, u), resolved)
  {
    InsertedIs(us, k, u);
  }

  lemma OrderedDrop(us: seq<int>, resolved: seq<int>, k: nat)
    requires Ordered(us, resolved) && 0 < k <= |us|
    ensures Ordered(us[k..], resolved + us[..k]) && LastOf(resolved + us[..k]) == Some(us[k - 1])
  {
    var all := resolved + us[..k];
    forall i, j | 0 <= i < j < |all| ensures all[i] < all[j] {
      if i < |resolved| <= j {
        assert resolved[i] <= resolved[|resolved| - 1] < us[0] <= us[j - |resolved|];
      }
    }
  }

  /** Storing keeps the frames in unwrapped order; a frame that is opened is newer than
      anything already resolved. */
  lemma StoringOrders(t: Tagged, p: Rtp.Packet, now: u64, u: int)
    requires TagsOk(t) && p.ts == Wrap32(u) && Live(t, u)
    requires Stored(t.state.frames, t.state.lastTs, p, now).Some?
    ensures
      var fs := Stored(t.state.frames, t.state.lastTs, p, now).value;
      Match(fs, StoredTags(t, p, u)) && Ordered(StoredTags(t, p, u), t.resolved)
  {
    var frames := t.state.frames;
    var (fs, at) := Located(frames, t.state.lastTs, p.ts, now).value;
    if IndexOf(frames, p.ts) == |frames| {
      var k := Rank(frames, p.ts);
      RankSplits(frames, t.us, p.ts, u);
      if t.resolved != [] {
        TsNewerIsGreater(u, t.resolved[|t.resolved| - 1]);
      }
      OrderedInsert(t.us, t.resolved, k, u);
      MatchInsert(frames, t.us, k, Frame(p.ts, now, false, []), u);
    }
    MatchWithPacket(fs, StoredTags(t, p, u), at, Packet(p.seqNo, p.marker, p.payload));
  }

  /** The drain keeps the order and appends the frames it resolved. */
  lemma DrainingOrders(t: Tagged, now: u64)
    requires TagsOk(t)
    ensures
      var r := Drain(t.state, now);
      |r.outcomes| <= |t.us| && TagsOk(Resolved(r.state, t.us, t.resolved, |r.outcomes|))
  {
    DrainTakesFront(t.state, now);
    var r := Drain(t.state, now);
    var k := |r.outcomes|;
    MatchSameFrames(t.state.frames, r.state.frames, t.us, k);
    if k > 0 {
      OrderedDrop(t.us, t.resolved, k);
    } else {
      assert t.us[0..] == t.us;
    }
  }

  /** What is appended is what was resolved: the outcomes carry the same timestamps. */
  lemma DrainedTags(t: Tagged, now: u64, i: nat)
    requires TagsOk(t) && i < |Drain(t.state, now).outcomes|
    ensures i < |t.us| && Drain(t.state, now).outcomes[i].ts == Wrap32(t.us[i])
  {
    DrainTakesFront(t.state, now);
    assert Justified(t.state.frames[i], Drain(t.state, now).outcomes[i], now);
  }

  /** The log grew by exactly the frames the outcomes name. */
  predicate Appended(before: seq<int>, after: seq<int>, outcomes: seq<Outcome>)
  {
    && before <= after && |after| == |before| + |outcomes|
    && forall i :: 0 <= i < |outcomes| ==> outcomes[i].ts == Wrap32(after[|before| + i])
  }

  lemma AppendedTags(before: seq<int>, us: seq<int>, outcomes: seq<Outcome>)
    requires |outcomes| <= |us|
    requires forall i :: 0 <= i < |outcomes| ==> outcomes[i].ts == Wrap32(us[i])
    ensures Appended(before, before + us[..|outcomes|], outcomes)
  {
    var after := before + us[..|outcomes|];
    forall i | 0 <= i < |outcomes| ensures outcomes[i].ts == Wrap32(after[|before| + i]) {
      assert after[|before| + i] == us[i];
    }
  }

  /** One event, whatever it is, keeps every ordering fact. */
  lemma StepKeepsOrder(t: Tagged, e: Event)
    requires TagsOk(t) && EventOk(t, e)
    ensures TagsOk(TagStep(t, e)) && TagStep(t, e).state == Step(t.state, e).0
    ensures !e.Resets? ==> Appended(t.resolved, TagStep(t, e).resolved, Step(t.state, e).1)
  {
    match e
    case Resets =>
    case Reports =>
    case Arrives(rtp, now, u) =>
      var parsed := Rtp.Parse(rtp);
      if parsed.Some? && parsed.value.payload != [] {
        var p := parsed.value;
        var s1 := Tracked(t.state, p.seqNo);
        var stored := Stored(t.state.frames, t.state.lastTs, p, now);
        if stored.Some? {
          StoringOrders(t, p, now, u);
          var t1 := Tagged(s1.(frames := stored.value), StoredTags(t, p, u), t.resolved);
          DrainingOrders(t1, now);
          var outcomes := Drain(t1.state, now).outcomes;
          forall i | 0 <= i < |outcomes| ensures outcomes[i].ts == Wrap32(t1.us[i]) {
            DrainedTags(t1, now, i);
          }
          AppendedTags(t.resolved, t1.us, outcomes);
        }
      }
  }

  function RunTagged(es: seq<Event>): Tagged
  {
    if es == [] then Tagged(START, [], [])
    else TagStep(RunTagged(es[..|es| - 1]), es[|es| - 1])
  }

  /** Every packet of the run is within the window when it arrives. */
  predicate RunLive(es: seq<Event>)
  {
    es != [] ==> RunLive(es[..|es| - 1]) && EventOk(RunTagged(es[..|es| - 1]), es[|es| - 1])
  }

  /** Over every run whose live timestamps stay within a 2^31 window: the pending frames
      are strictly ascending in unwrapped time, all newer than whatever was resolved,
      and the resolved timestamps strictly increase. */
  lemma {:induction false} RunOrdered(es: seq<Event>)
    requires RunLive(es)
    ensures TagsOk(RunTagged(es)) && FramesOk(RunTagged(es).state.frames)
  {
    if es != [] {
      var before := es[..|es| - 1];
      RunOrdered(before);
      StepKeepsOrder(RunTagged(before), es[|es| - 1]);
      StepKeepsFrames(RunTagged(before).state, es[|es| - 1]);
    }
  }

  lemma RefusedWhenLate(t: Tagged, p: Rtp.Packet, now: u64, u: int)
    requires TagsOk(t) && p.ts == Wrap32(u) && Live(t, u)
    requires t.resolved != [] && u <= t.resolved[|t.resolved| - 1]
    ensures Stored(t.state.frames, t.state.lastTs, p, now) == None
  {
    TsNewerIsGreater(u, t.resolved[|t.resolved| - 1]);
    var i := IndexOf(t.state.frames, p.ts);
    if i < |t.us| {
      TsNewerIsGreater(u, t.us[i]);
    }
  }

  /** A packet no newer than something already resolved is refused: the frame is never
      opened again, and nothing but the counters changes. */
  lemma LateIsRefused(es: seq<Event>, rtp: seq<byte>, now: u64, u: int, i: nat)
    requires RunLive(es) && EventOk(RunTagged(es), Arrives(rtp, now, u))
    requires i < |RunTagged(es).resolved| && u <= RunTagged(es).resolved[i]
    ensures
      var t := RunTagged(es);
      var r := Received(t.state, rtp, now);
      && r.outcomes == [] && r.state.frames == t.state.frames && r.state.lastTs == t.state.lastTs
      && r.state.waiting == t.state.waiting
  {
    RunOrdered(es);
    LateChangesNothing(RunTagged(es), rtp, now, u, i);
  }

  lemma LateChangesNothing(t: Tagged, rtp: seq<byte>, now: u64, u: int, i: nat)
    requires TagsOk(t) && EventOk(t, Arrives(rtp, now, u)) && i < |t.resolved| && u <= t.resolved[i]
    ensures
      var r := Received(t.state, rtp, now);
      && r.outcomes == [] && r.state.frames == t.state.frames && r.state.lastTs == t.state.lastTs
      && r.state.waiting == t.state.waiting
  {
    var parsed := Rtp.Parse(rtp);
    if parsed.Some? {
      AscendingLast(t.resolved, i);
      RefusedWhenLate(t, parsed.value, now, u);
      RefusedChangesNothing(t.state, parsed.value, now);
    }
  }

  lemma AscendingLast(us: seq<int>, i: nat)
    requires Ascending(us) && i < |us|
    ensures us[i] <= us[|us| - 1]
  {
  }

  lemma RefusedChangesNothing(s: State, p: Rtp.Packet, now: u64)
    requires Stored(s.frames, s.lastTs, p, now) == None
    ensures
      var r := Accept(s, p, now);
      && r.outcomes == [] && r.state.frames == s.frames && r.state.lastTs == s.lastTs
      && r.state.waiting == s.waiting
  {
  }

  // ---- the gate ------------------------------------------------------------------------------

  /** State and outcomes since the last reset. */
  function RunTrace(es: seq<Event>): (r: (State, seq<Outcome>))
  {
    if es == [] then (START, [])
    else
      var (s, trace) := RunTrace(es[..|es| - 1]);
      var (s1, outcomes) := Step(s, es[|es| - 1]);
      if es[|es| - 1].Resets? then (s1, []) else (s1, trace + outcomes)
  }

  /** Nothing has been emitted since the start or the last timeout. */
  predicate Blind(trace: seq<Outcome>)
  {
    trace == [] ||
    match trace[|trace| - 1]
    case Emitted(_, _) => false
    case TimedOut(_) => true
    case Discarded(_, _) => Blind(trace[..|trace| - 1])
  }

  /** While blind only an IDR is emitted and only non-IDR units are discarded; nothing
      is discarded otherwise. */
  predicate Gated(trace: seq<Outcome>)
  {
    forall i :: 0 <= i < |trace| ==>
      match trace[i]
      case Emitted(_, unit) => Blind(trace[..i]) ==> HasKeyframe(unit)
      case Discarded(_, unit) => Blind(trace[..i]) && !HasKeyframe(unit)
      case TimedOut(_) => true
  }

  lemma GatedAppend(trace: seq<Outcome>, o: Outcome)
    requires Gated(trace)
    requires o.Emitted? && Blind(trace) ==> HasKeyframe(o.unit)
    requires o.Discarded? ==> Blind(trace) && !HasKeyframe(o.unit)
    ensures Gated(trace + [o])
    ensures Blind(trace + [o]) <==> (o.TimedOut? || (o.Discarded? && Blind(trace)))
  {
    var t := trace + [o];
    assert t[..|trace|] == trace;
    assert forall i :: 0 <= i <= |trace| ==> t[..i] == trace[..i];
  }

  lemma {:induction false} DrainGated(s: State, now: u64, trace: seq<Outcome>)
    requires Gated(trace) && s.waiting == Blind(trace)
    ensures
      var r := Drain(s, now);
      Gated(trace + r.outcomes) && r.state.waiting == Blind(trace + r.outcomes)
    decreases |s.frames|
  {
    if s.frames == [] {
      assert trace + [] == trace;
    } else {
      match Assemble(s.frames[0].packets)
      case Some(unit) =>
        var (s1, o) := Released(s, unit);
        GatedAppend(trace, o);
        DrainGated(s1, now, trace + [o]);
        Assoc(trace, [o], Drain(s1, now).outcomes);
      case None =>
        var s1 := AskedAgain(s, now).0;
        if Overdue(s.frames[0], now) {
          var (s2, o) := GivenUp(s1);
          GatedAppend(trace, o);
          DrainGated(s2, now, trace + [o]);
          Assoc(trace, [o], Drain(s2, now).outcomes);
        } else {
          assert trace + [] == trace;
        }
    }
  }

  lemma {:induction false} RunGated(es: seq<Event>)
    ensures
      var (s, trace) := RunTrace(es);
      Gated(trace) && s.waiting == Blind(trace)
  {
    if es != [] {
      var before := es[..|es| - 1];
      RunGated(before);
      var (s, trace) := RunTrace(before);
      assert trace + [] == trace;
      match es[|es| - 1]
      case Arrives(rtp, now, _) =>
        var parsed := Rtp.Parse(rtp);
        if parsed.Some? && parsed.value.payload != [] {
          var p := parsed.value;
          var s1 := Tracked(s, p.seqNo);
          var stored := Stored(s1.frames, s1.lastTs, p, now);
          if stored.Some? {
            DrainGated(s1.(frames := stored.value), now, trace);
          }
        }
      case _ =>
    }
  }

  lemma {:induction false} BlindSince(trace: seq<Outcome>, m: int)
    requires -1 <= m < |trace| && (m == -1 || trace[m].TimedOut?)
    requires forall j :: m < j < |trace| ==> !trace[j].Emitted?
    ensures Blind(trace)
    decreases |trace|
  {
    if m < |trace| - 1 {
      BlindSince(trace[..|trace| - 1], m);
    }
  }

  /** On every run, the first unit emitted after construction, after a reset and after
      every timed-out frame contains an IDR, and is seen to downstream. */
  lemma FirstUnitIsIdr(es: seq<Event>, m: int, i: nat)
    requires
      var trace := RunTrace(es).1;
      && -1 <= m < i < |trace| && (m == -1 || trace[m].TimedOut?)
      && trace[i].Emitted? && (forall j :: m < j < i ==> !trace[j].Emitted?)
    ensures HasKeyframe(RunTrace(es).1[i].unit) && SeesIdr(RunTrace(es).1[i].unit, 0)
  {
    RunGated(es);
    KeyframeIsSeen(RunTrace(es).1[i].unit);
    var trace := RunTrace(es).1;
    BlindSince(trace[..i], m);
  }

  // ---- what is not noticed ---------------------------------------------------------------------

  /** A packet that is kept leaves a front frame that is neither complete nor older than
      the hold, and whose missing packets have been asked for again if that was due. */
  lemma KeptSettles(s: State, p: Rtp.Packet, now: u64)
    requires p.payload != [] && Stored(s.frames, s.lastTs, p, now).Some?
    ensures var frames := Accept(s, p, now).state.frames; frames != [] ==> Waiting(frames[0], now)
  {
    var s1 := Tracked(s, p.seqNo);
    DrainTakesFront(s1.(frames := Stored(s1.frames, s1.lastTs, p, now).value), now);
  }

  /** A packet that would open a thirty-third frame is dropped, and the gate stays as it is. */
  lemma CapDropsQuietly(s: State, p: Rtp.Packet, now: u64)
    requires |s.frames| >= 32 && IndexOf(s.frames, p.ts) == |s.frames|
    ensures
      var r := Accept(s, p, now);
      && r.outcomes == [] && r.state.frames == s.frames && r.state.lastTs == s.lastTs
      && r.state.waiting == s.waiting
  {
    RefusedChangesNothing(s, p, now);
  }

  /** The same buffer, whatever the sequence tracking and the statistics say. */
  predicate Alike(s: State, t: State)
  {
    s.frames == t.frames && s.lastTs == t.lastTs && s.waiting == t.waiting
  }

  lemma {:induction false} DrainIgnoresTracking(s: State, t: State, now: u64)
    requires Alike(s, t)
    ensures Alike(Drain(s, now).state, Drain(t, now).state) && Drain(s, now).outcomes == Drain(t, now).outcomes
    decreases |s.frames|
  {
    if s.frames != [] {
      match Assemble(s.frames[0].packets)
      case Some(unit) =>
        DrainIgnoresTracking(Released(s, unit).0, Released(t, unit).0, now);
      case None =>
        if Overdue(s.frames[0], now) {
          DrainIgnoresTracking(GivenUp(AskedAgain(s, now).0).0, GivenUp(AskedAgain(t, now).0).0, now);
        }
    }
  }

  /** What is emitted, discarded or timed out never depends on the sequence tracking.  A
      frame none of whose packets arrived leaves its mark there only, so its loss can
      neither close the gate nor ask for a keyframe. */
  lemma TrackingIsIgnored(s: State, t: State, b: seq<byte>, now: u64)
    requires Alike(s, t)
    ensures Alike(Received(s, b, now).state, Received(t, b, now).state)
    ensures Received(s, b, now).outcomes == Received(t, b, now).outcomes
  {
    var parsed := Rtp.Parse(b);
    if parsed.Some? && parsed.value.payload != [] {
      var p := parsed.value;
      var stored := Stored(s.frames, s.lastTs, p, now);
      if stored.Some? {
        DrainIgnoresTracking(Tracked(s, p.seqNo).(frames := stored.value),
                             Tracked(t, p.seqNo).(frames := stored.value), now);
      }
    }
  }

  /** With the gate open and nothing pending, a unit that comes in one packet is emitted
      at once, be it an IDR or not, and however many packets are missing before it. */
  lemma MissingFrameUnnoticed(s: State, p: Rtp.Packet, now: u64, unit: seq<byte>)
    requires !s.waiting && s.frames == [] && p.payload != []
    requires s.lastTs.Some? ==> TsNewer(p.ts, s.lastTs.value)
    requires Assemble([Packet(p.seqNo, p.marker, p.payload)]) == Some(unit)
    ensures
      var r := Accept(s, p, now);
      r.outcomes == [Emitted(p.ts, unit)] && !r.state.waiting && !WantsKeyframe(r.outcomes)
  {
    var s1 := Tracked(s, p.seqNo);
    var packets := [Packet(p.seqNo, p.marker, p.payload)];
    assert IndexOf(s1.frames, p.ts) == 0 && Rank(s1.frames, p.ts) == 0;
    var fs := s1.frames[..0] + [Frame(p.ts, now, false, [])] + s1.frames[0..];
    assert fs == [Frame(p.ts, now, false, [])];
    assert fs[0].packets + packets == packets;
    assert WithPacket(fs, 0, packets[0]) == [Frame(p.ts, now, false, packets)];
    assert !Held(fs[0].packets, p.seqNo);
    assert Located(s1.frames, s1.lastTs, p.ts, now) == Some((fs, 0));
    assert Stored(s1.frames, s1.lastTs, p, now) == Some([Frame(p.ts, now, false, packets)]);
    var s2 := s1.(frames := [Frame(p.ts, now, false, packets)]);
    var (s3, o) := Released(s2, unit);
    assert s3.frames == [] && o == Emitted(p.ts, unit);
    assert Drain(s3, now).outcomes == [];
  }
}
