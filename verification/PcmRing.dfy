/** Decoded sound on its way to the card: the ring of interleaved samples, the burst
    trim, the drift servo and the write of what the card has room for. */
module PcmRing {
  import opened Serial

  const FRAMES_PER_PACKET := 960
  const MAX_LATENCY_MS := 120.0
  const TRIM_TO_MS := 60.0
  const SERVO_HIGH_MS := 75.0
  const SERVO_LOW_MS := 45.0
  const SERVO_EVERY_FRAMES := 960
  const COMPACT_AT := 4096 * 2

  /** Milliseconds that frames last at 48 kHz. */
  function Ms(frames: nat): real { frames as real / 48.0 }

  /** How many frames the trim drops off a ring holding `ring` of `total` queued frames. */
  function TrimOf(ring: nat, total: nat): nat
  {
    if Ms(total) > MAX_LATENCY_MS then
      var packets := (total - 2880) / FRAMES_PER_PACKET;
      if packets * FRAMES_PER_PACKET > ring then ring / FRAMES_PER_PACKET * FRAMES_PER_PACKET
      else packets * FRAMES_PER_PACKET
    else 0
  }

  datatype Adjust = NoAdjust | DropOne | RepeatOne

  /** What the servo does to a write of `want` frames. */
  function Servo(lp: real, phase: nat, want: nat, ring: nat): Adjust
  {
    if (lp > SERVO_HIGH_MS || lp < SERVO_LOW_MS) && phase + want >= SERVO_EVERY_FRAMES && ring >= 2 then
      if lp > SERVO_HIGH_MS then DropOne else RepeatOne
    else NoAdjust
  }

  function PhaseAfter(lp: real, phase: nat, want: nat, ring: nat): nat
  {
    if lp > SERVO_HIGH_MS || lp < SERVO_LOW_MS then
      if phase + want >= SERVO_EVERY_FRAMES && ring >= 2 then 0 else phase + want
    else 0
  }

  /** One feed of a queue of samples: what is queued afterwards, the low-passed depth and
      the servo's phase, what was trimmed and adjusted, what the card was offered and
      what it took. */
  datatype Fed = Fed(queue: seq<int16>, lp: real, phase: nat, drop: nat, adjust: Adjust,
                     offer: seq<int16>, out: seq<int16>)

  predicate Whole(q: seq<int16>) { |q| % 2 == 0 }

  function LowPass(lp: real, queuedMs: real): real { lp + (queuedMs - lp) / 1500.0 }

  function Adjusted(q: seq<int16>, adjust: Adjust): seq<int16>
    requires |q| >= 2
  {
    match adjust
    case NoAdjust => q
    case DropOne => q[2..]
    case RepeatOne => q[..2] + q
  }

  function WantAfter(want: nat, avail: nat, adjust: Adjust): nat
    requires want > 0
  {
    match adjust
    case NoAdjust => want
    case DropOne => want - 1
    case RepeatOne => if avail > want then want + 1 else want
  }

  /** `avail` frames fit the card, which already holds `delay`; it takes `wrote` frames of
      what it is offered, or none on an error. */
  function FeedOf(q: seq<int16>, lp: real, phase: nat, avail: nat, delay: nat, wrote: int): Fed
    requires Whole(q)
  {
    PushOf(CutOf(q, lp, delay), phase, avail, wrote)
  }

  /** A queue after the burst trim: what was trimmed and the new low-passed depth. */
  datatype Cut = Cut(queue: seq<int16>, drop: nat, lp: real)

  function CutOf(q: seq<int16>, lp: real, delay: nat): (c: Cut)
    requires Whole(q)
    ensures Whole(c.queue) && 2 * c.drop <= |q| && c.queue == q[2 * c.drop..]
  {
    var total := |q| / 2 + delay;
    var drop := TrimOf(|q| / 2, total);
    TrimLands(|q| / 2, delay);
    Cut(q[2 * drop..], drop, LowPass(lp, Ms(total - drop)))
  }

  function TakenOf(want: nat, wrote: int): (taken: nat)
    ensures taken <= want
  {
    if wrote < 0 then 0 else if wrote < want then wrote else want
  }

  /** Frames offered before the servo touches the write. */
  function WantOf(c: Cut, avail: nat): nat
  {
    if |c.queue| / 2 > avail then avail else |c.queue| / 2
  }

  /** The rest of a feed: the servo and the write. */
  function PushOf(c: Cut, phase: nat, avail: nat, wrote: int): Fed
    requires Whole(c.queue)
  {
    var want0 := WantOf(c, avail);
    if want0 == 0 then Fed(c.queue, c.lp, phase, c.drop, NoAdjust, [], [])
    else WriteOf(c, phase, want0, avail, wrote)
  }

  function WriteOf(c: Cut, phase: nat, want0: nat, avail: nat, wrote: int): Fed
    requires Whole(c.queue) && 0 < want0 <= avail && 2 * want0 <= |c.queue|
  {
    var adjust := Servo(c.lp, phase, want0, |c.queue| / 2);
    var q2 := Adjusted(c.queue, adjust);
    var want := WantAfter(want0, avail, adjust);
    WantFits(c.queue, want0, avail, adjust);
    var taken := TakenOf(want, wrote);
    Fed(q2[2 * taken..], c.lp, PhaseAfter(c.lp, phase, want0, |c.queue| / 2), c.drop, adjust,
        q2[..2 * want], q2[..2 * taken])
  }

  /** What is written and what stays queued make up exactly this sound. */
  predicate SplitsInto(sound: seq<int16>, out: seq<int16>, queue: seq<int16>)
  {
    |out| <= |sound| && sound[..|out|] == out && sound[|out|..] == queue
  }

  /** The frames: what was queued, and repeated, went out, was trimmed or dropped, or stays. */
  predicate Balanced(q: seq<int16>, f: Fed)
  {
    && Whole(f.queue) && Whole(f.out)
    && |q| + (if f.adjust.RepeatOne? then 2 else 0)
       == |f.out| + 2 * f.drop + (if f.adjust.DropOne? then 2 else 0) + |f.queue|
  }

  lemma AdjustedSize(q: seq<int16>, adjust: Adjust)
    requires |q| >= 2
    ensures |Adjusted(q, adjust)| + (if adjust.DropOne? then 2 else 0)
         == |q| + (if adjust.RepeatOne? then 2 else 0)
  {
  }

  lemma EvenSteps(size: nat, frames: nat)
    requires size % 2 == 0 && 2 * frames <= size
    ensures (size - 2 * frames) % 2 == 0 && (2 * frames) % 2 == 0
  {
  }

  lemma WantFits(q: seq<int16>, want: nat, avail: nat, adjust: Adjust)
    requires Whole(q) && 0 < want <= avail && 2 * want <= |q| && (adjust != NoAdjust ==> |q| >= 4)
    ensures WantAfter(want, avail, adjust) <= avail
    ensures 2 * WantAfter(want, avail, adjust) <= |Adjusted(q, adjust)|
  {
  }

  /** What follows the trim keeps the books too. */
  lemma PushConserves(c: Cut, phase: nat, avail: nat, wrote: int)
    requires Whole(c.queue)
    ensures
      var f := PushOf(c, phase, avail, wrote);
      && Whole(f.queue) && Whole(f.out) && f.drop == c.drop
      && |c.queue| + (if f.adjust.RepeatOne? then 2 else 0)
         == |f.out| + (if f.adjust.DropOne? then 2 else 0) + |f.queue|
  {
    var f := PushOf(c, phase, avail, wrote);
    var want := WantOf(c, avail);
    if want > 0 {
      AdjustedSize(c.queue, f.adjust);
      WantFits(c.queue, want, avail, f.adjust);
      EvenSteps(|Adjusted(c.queue, f.adjust)|, TakenOf(WantAfter(want, avail, f.adjust), wrote));
    }
  }

  /** Between resyncs every frame is accounted for. */
  lemma FeedConserves(q: seq<int16>, lp: real, phase: nat, avail: nat, delay: nat, wrote: int)
    requires Whole(q)
    ensures Balanced(q, FeedOf(q, lp, phase, avail, delay, wrote))
  {
    PushConserves(CutOf(q, lp, delay), phase, avail, wrote);
  }

  /** Apart from the trim and the one frame the servo drops or repeats, the sound is passed
      on unchanged; a write is never longer than the card's room or than what is queued. */
  lemma FeedPassesOn(q: seq<int16>, lp: real, phase: nat, avail: nat, delay: nat, wrote: int)
    requires Whole(q)
    ensures
      var f := FeedOf(q, lp, phase, avail, delay, wrote);
      && 2 * f.drop <= |q| && |f.out| <= |f.offer| <= 2 * avail && |f.offer| <= |f.out| + |f.queue|
      && (f.adjust != NoAdjust ==> |q| >= 2 * f.drop + 4)
      && (f.adjust.NoAdjust? ==> SplitsInto(q[2 * f.drop..], f.out, f.queue))
      && (f.adjust != NoAdjust ==> SplitsInto(Adjusted(q[2 * f.drop..], f.adjust), f.out, f.queue))
  {
    PushPassesOn(CutOf(q, lp, delay), phase, avail, wrote);
  }

  lemma PushPassesOn(c: Cut, phase: nat, avail: nat, wrote: int)
    requires Whole(c.queue)
    ensures
      var f := PushOf(c, phase, avail, wrote);
      && f.drop == c.drop && |f.out| <= |f.offer| <= 2 * avail && |f.offer| <= |f.out| + |f.queue|
      && (f.adjust != NoAdjust ==> |c.queue| >= 4)
      && (f.adjust.NoAdjust? ==> SplitsInto(c.queue, f.out, f.queue))
      && (f.adjust != NoAdjust ==> SplitsInto(Adjusted(c.queue, f.adjust), f.out, f.queue))
  {
    var want := WantOf(c, avail);
    if want > 0 {
      WantFits(c.queue, want, avail, PushOf(c, phase, avail, wrote).adjust);
    }
  }

  class AudioPlayer {
    var ring: seq<int16>
    var head: nat
    var latencyLp: real
    var servoPhase: nat

    ghost var appended: nat
    ghost var written: nat
    ghost var trimmed: nat
    ghost var dropped: nat
    ghost var repeated: nat
    /** Frames offered to the card since the last servo adjustment. */
    ghost var offered: nat

    predicate Shaped()
      reads this
    {
      head <= |ring| && |ring| % 2 == 0 && head % 2 == 0
    }

    /** The sound queued: what lies after the head. */
    function Queued(): (q: seq<int16>)
      reads this
      requires Shaped()
      ensures Whole(q)
    {
      ring[head..]
    }

    function Frames(): (n: nat)
      reads this
      requires Shaped()
      ensures n == |Queued()| / 2
    {
      (|ring| - head) / 2
    }

    /** Every frame ever appended is accounted for. */
    ghost predicate Valid()
      reads this
    {
      && Shaped() && appended + repeated == written + trimmed + dropped + Frames()
      && servoPhase <= offered
    }

    constructor ()
      ensures Valid() && Queued() == [] && appended == 0 && latencyLp == 0.0 && servoPhase == 0
    {
      ring, head, latencyLp, servoPhase := [], 0, 0.0, 0;
      appended, written, trimmed, dropped, repeated, offered := 0, 0, 0, 0, 0, 0;
    }

    /** decode() or conceal() appends frames. */
    method Append(samples: seq<int16>)
      requires Valid() && Whole(samples)
      modifies this`ring, this`appended
      ensures Valid() && Queued() == old(Queued()) + samples
      ensures appended == old(appended) + |samples| / 2
    {
      ring := ring + samples;
      appended := appended + |samples| / 2;
    }

    /** ring_consume: moving the head, clearing or compacting never changes the sound that
        is left. */
    method RingConsume(frames: nat)
      requires Shaped()
      modifies this`ring, this`head
      ensures Shaped() && head <= COMPACT_AT
      ensures Queued() == if frames <= old(Frames()) then old(Queued())[2 * frames..] else []
    {
      ghost var was, h := ring, head;
      head := head + 2 * frames;
      if head >= |ring| {
        ring := [];
        head := 0;
      } else if head > COMPACT_AT {
        ring := ring[head..];
        head := 0;
      }
      if frames <= (|was| - h) / 2 {
        assert was[h..][2 * frames..] == was[h + 2 * frames..];
      }
    }

    /** The burst trim of feed: whole packets off the front. */
    method Trim(delay: nat) returns (drop: nat)
      requires Shaped()
      modifies this`ring, this`head
      ensures Shaped() && drop == TrimOf(old(Frames()), old(Frames()) + delay) <= old(Frames())
      ensures Queued() == old(Queued())[2 * drop..]
    {
      drop := 0;
      var queuedMs := Ms(Frames() + delay);
      if queuedMs > MAX_LATENCY_MS {
        var excess := ((queuedMs - TRIM_TO_MS) * 48000.0 / 1000.0).Floor;
        ExcessIs(Frames() + delay);
        var packets := excess / FRAMES_PER_PACKET;
        drop := packets * FRAMES_PER_PACKET;
        if drop > Frames() {
          drop := Frames() / FRAMES_PER_PACKET * FRAMES_PER_PACKET;
        }
      }
      TrimLands(Frames(), delay);
      if drop > 0 {
        RingConsume(drop);
      }
    }

    /** The servo part of feed, on the write about to be made. */
    method AdjustDrift(avail: nat, want0: nat) returns (want: nat)
      requires Shaped() && 0 < want0 <= avail && want0 <= Frames()
      modifies this`ring, this`head, this`servoPhase
      ensures Shaped()
      ensures
        var adjust := Servo(latencyLp, old(servoPhase), want0, old(Frames()));
        && servoPhase == PhaseAfter(latencyLp, old(servoPhase), want0, old(Frames()))
        && Queued() == Adjusted(old(Queued()), adjust) && want == WantAfter(want0, avail, adjust)
    {
      want := want0;
      if latencyLp > SERVO_HIGH_MS || latencyLp < SERVO_LOW_MS {
        servoPhase := servoPhase + want;
        if servoPhase >= SERVO_EVERY_FRAMES && Frames() >= 2 {
          servoPhase := 0;
          if latencyLp > SERVO_HIGH_MS {
            RingConsume(1);
            want := want - 1;
          } else {
            var at := head;
            ghost var q := Queued();
            ring := ring[..at] + [ring[at], ring[at + 1]] + ring[at..];
            assert ring[at..] == [q[0], q[1]] + q;
            assert q[..2] == [q[0], q[1]];
            if avail > want { want := want + 1; }
          }
        }
      } else {
        servoPhase := 0;
      }
    }

    /** The write at the end of feed. */
    method Write(want: nat, wrote: int) returns (offer: seq<int16>, out: seq<int16>)
      requires Shaped() && want <= Frames()
      modifies this`ring, this`head
      ensures Shaped()
      ensures
        var taken := TakenOf(want, wrote);
        && offer == old(Queued())[..2 * want] && out == old(Queued())[..2 * taken]
        && Queued() == old(Queued())[2 * taken..]
    {
      ghost var q := Queued();
      offer, out := [], [];
      if want == 0 { return; }
      offer := ring[head..head + 2 * want];
      assert offer == q[..2 * want];
      if wrote < 0 { return; }
      var taken := if wrote < want then wrote else want;
      out := offer[..2 * taken];
      assert out == q[..2 * taken];
      RingConsume(taken);
    }

    /** feed: `avail` and `delay` are what the card answers, `wrote` what it takes of the
        write; a negative answer is an error from which nothing is consumed. */
    method Feed(avail: int, delay: int, wrote: int) returns (ok: bool, offer: seq<int16>, out: seq<int16>)
      requires Valid()
      modifies this
      ensures Valid() && appended == old(appended) && ok == (avail >= 0)
      ensures avail < 0 ==>
        && Queued() == old(Queued()) && latencyLp == old(latencyLp) && servoPhase == old(servoPhase)
        && offer == out == []
      ensures avail >= 0 ==>
        var held := if delay < 0 then 0 else delay;
        var f := FeedOf(old(Queued()), old(latencyLp), old(servoPhase), avail, held, wrote);
        && Queued() == f.queue && latencyLp == f.lp && servoPhase == f.phase && offer == f.offer && out == f.out
    {
      offer, out := [], [];
      if avail < 0 { return false, offer, out; }
      var delay1 := if delay < 0 then 0 else delay;
      ghost var q, lp, phase := Queued(), latencyLp, servoPhase;
      FeedConserves(q, lp, phase, avail, delay1, wrote);
      AdjustSpacing(q, lp, phase, avail, delay1, wrote, offered);
      offer, out := FeedCard(avail, delay1, wrote);
      Book(FeedOf(q, lp, phase, avail, delay1, wrote),
           OfferedAfter(q, lp, phase, avail, delay1, wrote, offered));
      return true, offer, out;
    }

    /** The ghost books of one feed. */
    ghost method Book(f: Fed, offeredNow: nat)
      modifies this`written, this`trimmed, this`dropped, this`repeated, this`offered
      ensures written == old(written) + |f.out| / 2 && trimmed == old(trimmed) + f.drop
      ensures dropped == old(dropped) + (if f.adjust.DropOne? then 1 else 0)
      ensures repeated == old(repeated) + (if f.adjust.RepeatOne? then 1 else 0)
      ensures offered == offeredNow
    {
      written, trimmed := written + |f.out| / 2, trimmed + f.drop;
      if f.adjust.DropOne? { dropped := dropped + 1; }
      if f.adjust.RepeatOne? { repeated := repeated + 1; }
      offered := offeredNow;
    }

    method FeedCard(avail: nat, delay: nat, wrote: int) returns (offer: seq<int16>, out: seq<int16>)
      requires Shaped()
      modifies this`ring, this`head, this`latencyLp, this`servoPhase
      ensures Shaped()
      ensures
        var f := FeedOf(old(Queued()), old(latencyLp), old(servoPhase), avail, delay, wrote);
        Queued() == f.queue && latencyLp == f.lp && servoPhase == f.phase && offer == f.offer && out == f.out
    {
      ghost var c := CutOf(Queued(), latencyLp, delay);
      Skim(delay);
      offer, out := Push(c, avail, wrote);
    }

    /** The trim and the low-pass of feed. */
    method Skim(delay: nat)
      requires Shaped()
      modifies this`ring, this`head, this`latencyLp
      ensures Shaped()
      ensures
        var c := CutOf(old(Queued()), old(latencyLp), delay);
        Queued() == c.queue && latencyLp == c.lp
    {
      var queued := Frames() + delay;
      var drop := Trim(delay);
      Smooth(queued, drop);
    }

    /** The low-pass on the queued depth. */
    method Smooth(queued: nat, drop: nat)
      requires drop <= queued
      modifies this`latencyLp
      ensures latencyLp == LowPass(old(latencyLp), Ms(queued - drop))
    {
      MsSub(queued, drop);
      var queuedMs := Ms(queued) - Ms(drop);
      latencyLp := latencyLp + (queuedMs - latencyLp) * (1.0 / 1500.0);
    }

    /** The end of feed: the servo and the write. */
    method Push(ghost c: Cut, avail: nat, wrote: int) returns (offer: seq<int16>, out: seq<int16>)
      requires Shaped() && c.queue == Queued() && c.lp == latencyLp
      modifies this`ring, this`head, this`servoPhase
      ensures Shaped()
      ensures
        var f := PushOf(c, old(servoPhase), avail, wrote);
        Queued() == f.queue && servoPhase == f.phase && offer == f.offer && out == f.out
    {
      offer, out := [], [];
      var want := Frames();
      if want > avail { want := avail; }
      if want == 0 { return; }
      offer, out := AdjustAndWrite(c, want, avail, wrote);
    }

    method AdjustAndWrite(ghost c: Cut, want0: nat, avail: nat, wrote: int)
        returns (offer: seq<int16>, out: seq<int16>)
      requires Shaped() && c.queue == Queued() && c.lp == latencyLp && 0 < want0 <= avail && want0 <= Frames()
      modifies this`ring, this`head, this`servoPhase
      ensures Shaped()
      ensures
        var f := WriteOf(c, old(servoPhase), want0, avail, wrote);
        Queued() == f.queue && servoPhase == f.phase && offer == f.offer && out == f.out
    {
      WantFits(c.queue, want0, avail, Servo(c.lp, servoPhase, want0, Frames()));
      var want := AdjustDrift(avail, want0);
      offer, out := Write(want, wrote);
    }

    /** A new stream: the ring is emptied and the books start over. */
    method Resync()
      requires Valid()
      modifies this
      ensures Valid() && Queued() == [] && servoPhase == old(servoPhase) && offered == old(offered)
      ensures latencyLp == 0.0 && appended == written == trimmed == dropped == repeated == 0
    {
      ring, head := [], 0;
      latencyLp := 0.0;
      appended, written, trimmed, dropped, repeated := 0, 0, 0, 0, 0;
    }
  }

  // ---- the trim ------------------------------------------------------------------------------

  lemma MsSub(a: nat, b: nat)
    requires b <= a
    ensures Ms(a) - Ms(b) == Ms(a - b)
  {
  }

  /** The excess over 60 ms is a whole number of frames. */
  lemma ExcessIs(total: nat)
    requires Ms(total) > MAX_LATENCY_MS
    ensures total > 5760 && ((Ms(total) - TRIM_TO_MS) * 48000.0 / 1000.0).Floor == total - 2880
  {
    assert (Ms(total) - TRIM_TO_MS) * 48000.0 / 1000.0 == (total - 2880) as real;
  }

  /** After a trim that the ring did not limit, at least 60 and less than 80 ms are queued;
      what is dropped is whole packets and never more than the ring holds. */
  lemma TrimLands(ring: nat, delay: nat)
    ensures
      var total := ring + delay;
      var drop := TrimOf(ring, total);
      && drop <= ring && drop % FRAMES_PER_PACKET == 0
      && (Ms(total) > MAX_LATENCY_MS && (total - 2880) / FRAMES_PER_PACKET * FRAMES_PER_PACKET <= ring ==>
            60.0 <= Ms(total - drop) < 80.0)
      && (Ms(total) <= MAX_LATENCY_MS ==> drop == 0)
  {
  }

  // ---- the servo -------------------------------------------------------------------------------

  /** Frames offered since the last adjustment. */
  function OfferedAfter(q: seq<int16>, lp: real, phase: nat, avail: nat, delay: nat, wrote: int, offered: nat): nat
    requires Whole(q)
  {
    if FeedOf(q, lp, phase, avail, delay, wrote).adjust != NoAdjust then 0
    else offered + WantOf(CutOf(q, lp, delay), avail)
  }

  /** The phase never runs ahead of what was offered, so between two adjustments at least
      960 frames are offered. */
  lemma AdjustSpacing(q: seq<int16>, lp: real, phase: nat, avail: nat, delay: nat, wrote: int, offered: nat)
    requires Whole(q) && phase <= offered
    ensures
      var f := FeedOf(q, lp, phase, avail, delay, wrote);
      && f.phase <= OfferedAfter(q, lp, phase, avail, delay, wrote, offered)
      && (f.adjust != NoAdjust ==> offered + WantOf(CutOf(q, lp, delay), avail) >= SERVO_EVERY_FRAMES)
  {
  }

  /** Feeds one after the other: the frames offered since the last adjustment. */
  datatype Input = Input(queue: seq<int16>, lp: real, avail: nat, delay: nat, wrote: int)

  function PhaseRun(ins: seq<Input>): (r: (nat, nat))
    requires forall x <- ins :: Whole(x.queue)
  {
    if ins == [] then (0, 0)
    else
      var (phase, offered) := PhaseRun(ins[..|ins| - 1]);
      var x := ins[|ins| - 1];
      assert x in ins;
      (FeedOf(x.queue, x.lp, phase, x.avail, x.delay, x.wrote).phase,
       OfferedAfter(x.queue, x.lp, phase, x.avail, x.delay, x.wrote, offered))
  }

  /** Over any run of feeds, whatever the queue, the depth and the card do in between. */
  lemma {:induction false} AdjustmentsApart(ins: seq<Input>)
    requires forall x <- ins :: Whole(x.queue)
    ensures PhaseRun(ins).0 <= PhaseRun(ins).1
    ensures ins != [] ==>
      var (phase, offered) := PhaseRun(ins[..|ins| - 1]);
      var x := ins[|ins| - 1];
      FeedOf(x.queue, x.lp, phase, x.avail, x.delay, x.wrote).adjust != NoAdjust ==>
        offered + WantOf(CutOf(x.queue, x.lp, x.delay), x.avail) >= SERVO_EVERY_FRAMES
  {
    if ins != [] {
      AdjustmentsApart(ins[..|ins| - 1]);
      var (phase, offered) := PhaseRun(ins[..|ins| - 1]);
      var x := ins[|ins| - 1];
      AdjustSpacing(x.queue, x.lp, phase, x.avail, x.delay, x.wrote, offered);
    }
  }

  /** The last feed of a run. */
  function LastFed(ins: seq<Input>): Fed
    requires ins != [] && forall x <- ins :: Whole(x.queue)
  {
    var x := ins[|ins| - 1];
    FeedOf(x.queue, x.lp, PhaseRun(ins[..|ins| - 1]).0, x.avail, x.delay, x.wrote)
  }

  /** Frames that fit the card, of those the trim left. */
  function Fitting(x: Input, drop: nat): nat
    requires 2 * drop <= |x.queue|
  {
    var left := |x.queue| / 2 - drop;
    if left < x.avail then left else x.avail
  }

  /** Frames that came to a write since a write was last inside 45 to 75 ms or adjusted. */
  function SinceInBand(ins: seq<Input>): nat
    requires forall x <- ins :: Whole(x.queue)
  {
    if ins == [] then 0
    else
      var x, f := ins[|ins| - 1], LastFed(ins);
      var n := Fitting(x, f.drop);
      if n == 0 then SinceInBand(ins[..|ins| - 1])
      else if 45.0 <= f.lp <= 75.0 || f.adjust != NoAdjust then 0
      else SinceInBand(ins[..|ins| - 1]) + n
  }

  lemma {:induction false} PhaseIs(ins: seq<Input>)
    requires forall x <- ins :: Whole(x.queue)
    ensures PhaseRun(ins).0 == SinceInBand(ins)
  {
    if ins != [] {
      PhaseIs(ins[..|ins| - 1]);
    }
  }

  /** On every run a frame is dropped exactly when more than 75 ms are queued on the average,
      and repeated exactly when it is less than 45, and then only at a write with which 960
      frames have come since the last adjustment or the last time inside the band, and with
      at least two frames queued. */
  lemma AdjustsIff(ins: seq<Input>)
    requires ins != [] && forall x <- ins :: Whole(x.queue)
    ensures
      var x, f := ins[|ins| - 1], LastFed(ins);
      var n := Fitting(x, f.drop);
      var due := n > 0 && |x.queue| / 2 - f.drop >= 2 && SinceInBand(ins[..|ins| - 1]) + n >= 960;
      && (f.adjust.DropOne? <==> f.lp > 75.0 && due)
      && (f.adjust.RepeatOne? <==> f.lp < 45.0 && due)
  {
    PhaseIs(ins[..|ins| - 1]);
  }

  /** Where in the sound the write starts and what it offers: dropping skips the first frame
      left by the trim, repeating sends it twice; the write is one frame shorter or, if the
      card has room, longer for it; and of what is offered the card's answer is consumed. */
  lemma WriteIs(x: Input, phase: nat)
    requires Whole(x.queue)
    ensures
      var f := FeedOf(x.queue, x.lp, phase, x.avail, x.delay, x.wrote);
      var n := Fitting(x, f.drop);
      var sound := x.queue[2 * f.drop..];
      && f.out + f.queue == (match f.adjust
                             case NoAdjust => sound
                             case DropOne => sound[2..]
                             case RepeatOne => [sound[0], sound[1]] + sound)
      && |f.offer| == 2 * (match f.adjust
                           case NoAdjust => n
                           case DropOne => n - 1
                           case RepeatOne => if x.avail > n then n + 1 else n)
      && f.offer <= f.out + f.queue
      && |f.out| == if x.wrote < 0 then 0 else if 2 * x.wrote < |f.offer| then 2 * x.wrote else |f.offer|
  {
    var c := CutOf(x.queue, x.lp, x.delay);
    PushIs(c, phase, x.avail, x.wrote);
  }

  lemma PushIs(c: Cut, phase: nat, avail: nat, wrote: int)
    requires Whole(c.queue)
    ensures
      var f := PushOf(c, phase, avail, wrote);
      var n := if |c.queue| / 2 < avail then |c.queue| / 2 else avail;
      && (f.adjust != NoAdjust ==> |c.queue| >= 4)
      && f.drop == c.drop
      && f.out + f.queue == (match f.adjust
                             case NoAdjust => c.queue
                             case DropOne => c.queue[2..]
                             case RepeatOne => [c.queue[0], c.queue[1]] + c.queue)
      && |f.offer| == 2 * (match f.adjust
                           case NoAdjust => n
                           case DropOne => n - 1
                           case RepeatOne => if avail > n then n + 1 else n)
      && f.offer <= f.out + f.queue
      && |f.out| == if wrote < 0 then 0 else if 2 * wrote < |f.offer| then 2 * wrote else |f.offer|
  {
    var want := WantOf(c, avail);
    if want > 0 {
      var f := PushOf(c, phase, avail, wrote);
      WantFits(c.queue, want, avail, f.adjust);
      assert c.queue[..2] == [c.queue[0], c.queue[1]];
      var q2 := Adjusted(c.queue, f.adjust);
      SliceJoin(q2, 0, |f.out|, |q2|);
    }
  }

  /** The trim drops nothing up to 120 ms; above, it drops whole packets, as many as leave
      at least 60 ms and as the ring holds. */
  lemma TrimIs(x: Input, phase: nat)
    requires Whole(x.queue)
    ensures
      var drop := FeedOf(x.queue, x.lp, phase, x.avail, x.delay, x.wrote).drop;
      var ring := |x.queue| / 2;
      if ring + x.delay <= 5760 then drop == 0
      else
        && drop % 960 == 0 && drop <= ring && ring + x.delay - drop >= 2880
        && (drop + 960 > ring || ring + x.delay - (drop + 960) < 2880)
  {
    PushConserves(CutOf(x.queue, x.lp, x.delay), phase, x.avail, x.wrote);
  }

  // ---- the low-pass -------------------------------------------------------------------------------

  /** What is queued after the trim, in milliseconds. */
  function DepthOf(x: Input): real
    requires Whole(x.queue)
  {
    (|x.queue| / 2 + x.delay - CutOf(x.queue, x.lp, x.delay).drop) as real / 48.0
  }

  /** Each feed takes over the average that the one before it left. */
  predicate Chained(ins: seq<Input>)
    requires forall x <- ins :: Whole(x.queue)
  {
    forall i :: 0 < i < |ins| ==> ins[i].lp == CutOf(ins[i - 1].queue, ins[i - 1].lp, ins[i - 1].delay).lp
  }

  /** A distance, `n` times less one part in 1500. */
  function Shrunk(distance: real, n: nat): real
  {
    if n == 0 then distance else 1499.0 / 1500.0 * Shrunk(distance, n - 1)
  }

  /** What one feed makes of the average. */
  lemma AverageIs(x: Input)
    requires Whole(x.queue)
    ensures CutOf(x.queue, x.lp, x.delay).lp == LowPass(x.lp, DepthOf(x))
  {
  }

  /** The averages of a run, before its first feed and after each ... */
  function Averages(ins: seq<Input>): (lps: seq<real>)
    requires ins != [] && forall x <- ins :: Whole(x.queue)
    ensures |lps| == |ins| + 1 && lps[|ins|] == LastFed(ins).lp && forall i :: 0 <= i < |ins| ==> lps[i] == ins[i].lp
  {
    seq(|ins|, i requires 0 <= i < |ins| => ins[i].lp) + [LastFed(ins).lp]
  }

  /** ... and the depths it saw. */
  function Depths(ins: seq<Input>): (ds: seq<real>)
    requires forall x <- ins :: Whole(x.queue)
    ensures |ds| == |ins| && forall i :: 0 <= i < |ins| ==> ds[i] == DepthOf(ins[i])
  {
    seq(|ins|, i requires 0 <= i < |ins| => assert ins[i] in ins; DepthOf(ins[i]))
  }

  /** Each average is what the low-pass makes of the one before and the depth. */
  predicate Smooths(lps: seq<real>, ds: seq<real>)
  {
    |lps| == |ds| + 1 && forall i :: 0 < i < |lps| ==> lps[i] == LowPass(lps[i - 1], ds[i - 1])
  }

  lemma AveragesSmooth(ins: seq<Input>)
    requires ins != [] && (forall x <- ins :: Whole(x.queue)) && Chained(ins)
    ensures Smooths(Averages(ins), Depths(ins))
  {
    var lps, ds := Averages(ins), Depths(ins);
    forall i | 0 < i < |lps| ensures lps[i] == LowPass(lps[i - 1], ds[i - 1]) {
      assert ins[i - 1] in ins;
      AverageIs(ins[i - 1]);
    }
  }

  lemma Approaches(lp: real, d: real)
    ensures LowPass(lp, d) - d == 1499.0 / 1500.0 * (lp - d)
  {
  }

  lemma {:induction false} SteadyAverages(lps: seq<real>, ds: seq<real>, d: real, n: nat)
    requires n < |lps| && Smooths(lps, ds) && forall x <- ds :: x == d
    ensures lps[n] - d == Shrunk(lps[0] - d, n)
  {
    if n > 0 {
      SteadyAverages(lps, ds, d, n - 1);
      assert ds[n - 1] in ds;
      Approaches(lps[n - 1], d);
    }
  }

  /** At a steady depth the average closes in on it, by one part in 1500 a feed. */
  lemma SteadyDepth(ins: seq<Input>, d: real)
    requires ins != [] && (forall x <- ins :: Whole(x.queue)) && Chained(ins)
    requires forall x <- Depths(ins) :: x == d
    ensures LastFed(ins).lp - d == Shrunk(ins[0].lp - d, |ins|)
  {
    AveragesSmooth(ins);
    SteadyAverages(Averages(ins), Depths(ins), d, |ins|);
  }

  lemma {:induction false} AveragesInBand(lps: seq<real>, ds: seq<real>, n: nat)
    requires n < |lps| && Smooths(lps, ds) && 45.0 <= lps[0] <= 75.0 && forall x <- ds :: 45.0 <= x <= 75.0
    ensures 45.0 <= lps[n] <= 75.0
  {
    if n > 0 {
      AveragesInBand(lps, ds, n - 1);
      assert ds[n - 1] in ds;
    }
  }

  /** While every depth is inside the band, and the average was when it began, no frame is
      dropped or repeated. */
  lemma BandIsQuiet(ins: seq<Input>)
    requires ins != [] && (forall x <- ins :: Whole(x.queue)) && Chained(ins)
    requires 45.0 <= ins[0].lp <= 75.0 && forall x <- Depths(ins) :: 45.0 <= x <= 75.0
    ensures 45.0 <= LastFed(ins).lp <= 75.0 && LastFed(ins).adjust == NoAdjust
  {
    AveragesSmooth(ins);
    AveragesInBand(Averages(ins), Depths(ins), |ins|);
    AdjustsIff(ins);
  }
}
