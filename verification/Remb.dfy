/** The bandwidth the receiver advertises (REMB): multiplicative back-off on loss, slow
    additive ramp, a hold-off between back-offs, and a floor while blind.  Times are
    milliseconds of a clock that does not run backwards. */
module Remb {
  import opened Serial

  const FLOOR := 3000
  const KEYFRAME_FLOOR := 4000
  const HOLDOFF_MS := 3000
  const CLEAN_MS := 5000
  const RAMP_KBPS := 1000

  datatype State = State(kbps: nat, lastDropped: u32, lastNacks: u32,
                         cleanSince: nat, holdoffUntil: nat, lossySeconds: nat)

  const START := State(0, 0, 0, 0, 0, 0)

  /** What a tick did to the rate. */
  datatype Action = BackedOff | Lossy | Ramped | Quiet

  predicate IsLossy(d: u32, n: u32) { d >= 2 || n >= 5 }

  predicate IsBad(d: u32, n: u32) { d >= 5 || n >= 15 }

  /** The first tick of a session starts at the cap. */
  function Started(s: State, cap: nat, now: nat): State
  {
    if s.kbps == 0 then s.(kbps := cap, cleanSince := now) else s
  }

  function BackedOffRate(kbps: nat): nat
  {
    var next := kbps * 85 / 100;
    if next < FLOOR then FLOOR else next
  }

  function RampedRate(kbps: nat, cap: nat): nat
  {
    if kbps + RAMP_KBPS > cap then cap else kbps + RAMP_KBPS
  }

  function Decide(s: State, cap: nat, d: u32, n: u32, now: nat): Action
  {
    var lossySeconds := if IsLossy(d, n) then s.lossySeconds + 1 else 0;
    if (lossySeconds >= 2 || IsBad(d, n)) && now >= s.holdoffUntil then BackedOff
    else if IsLossy(d, n) then Lossy
    else if s.kbps < cap && now - s.cleanSince >= CLEAN_MS then Ramped
    else Quiet
  }

  /** One tick, with the jitter buffer's counters of dropped frames and NACKs. */
  function Tick(s: State, cap: nat, dropped: u32, nacks: u32, now: nat): (r: (State, Action))
  {
    var s1 := Started(s, cap, now);
    var d := Sub32(dropped, s.lastDropped);
    var n := Sub32(nacks, s.lastNacks);
    var s2 := s1.(lastDropped := dropped, lastNacks := nacks,
                  lossySeconds := if IsLossy(d, n) then s1.lossySeconds + 1 else 0);
    var action := Decide(s1, cap, d, n, now);
    match action
    case BackedOff =>
      (s2.(kbps := BackedOffRate(s1.kbps), cleanSince := now, holdoffUntil := now + HOLDOFF_MS, lossySeconds := 0),
       action)
    case Lossy => (s2.(cleanSince := now), action)
    case Ramped => (s2.(kbps := RampedRate(s1.kbps, cap), cleanSince := now), action)
    case Quiet => (s2, action)
  }

  /** The rate sent: never too little for a keyframe while one is awaited. */
  function Advertised(s: State, waitingKeyframe: bool): nat
  {
    if waitingKeyframe && s.kbps < KEYFRAME_FLOOR then KEYFRAME_FLOOR else s.kbps
  }

  class RembController {
    var kbps: nat
    var lastDropped: u32
    var lastNacks: u32
    var cleanSince: nat
    var holdoffUntil: nat
    var lossySeconds: nat

    function Value(): State
      reads this
    {
      State(kbps, lastDropped, lastNacks, cleanSince, holdoffUntil, lossySeconds)
    }

    /** What start() does. */
    constructor ()
      ensures Value() == START
    {
      kbps, lastDropped, lastNacks := 0, 0, 0;
      cleanSince, holdoffUntil, lossySeconds := 0, 0, 0;
    }

    /** Whenever the jitter buffer is reset its counters restart, so these must too. */
    method JitterReset()
      modifies this`lastDropped, this`lastNacks, this`lossySeconds
      ensures Value() == old(Value()).(lastDropped := 0, lastNacks := 0, lossySeconds := 0)
    {
      lastDropped, lastNacks := 0, 0;
      lossySeconds := 0;
    }

    method Update(cap: nat, dropped: u32, nacks: u32, now: nat) returns (ghost action: Action)
      modifies this
      ensures (Value(), action) == Tick(old(Value()), cap, dropped, nacks, now)
    {
      action := Quiet;
      if kbps == 0 {
        kbps := cap;
        cleanSince := now;
      }
      var d := Sub32(dropped, lastDropped);
      var n := Sub32(nacks, lastNacks);
      lastDropped := dropped;
      lastNacks := nacks;
      var lossy := d >= 2 || n >= 5;
      var bad := d >= 5 || n >= 15;
      lossySeconds := if lossy then lossySeconds + 1 else 0;
      if (lossySeconds >= 2 || bad) && now >= holdoffUntil {
        var next := kbps * 85 / 100;
        if next < 3000 { next := 3000; }
        kbps := next;
        cleanSince := now;
        holdoffUntil := now + 3000;
        lossySeconds := 0;
        action := BackedOff;
      } else if lossy {
        cleanSince := now;
        action := Lossy;
      } else if kbps < cap && now - cleanSince >= 5000 {
        var next := kbps + 1000;
        if next > cap { next := cap; }
        kbps := next;
        cleanSince := now;
        action := Ramped;
      }
    }

    /** The rate put into the message. */
    method Advertise(waitingKeyframe: bool) returns (rate: nat)
      ensures rate == Advertised(Value(), waitingKeyframe)
    {
      rate := kbps;
      if waitingKeyframe && rate < KEYFRAME_FLOOR { rate := KEYFRAME_FLOOR; }
    }
  }

  // ---- whole runs ---------------------------------------------------------------------------

  /** The jitter buffer counts drops and NACKs, may be reset, and ticks look at it. */
  datatype Event = Counted(dropped: nat, nacks: nat) | Reset | Ticked(now: nat)

  /** Everything so far: the controller, the buffer's counters, the last tick, and what
      each tick did, when. */
  datatype Run = Run(s: State, dropped: nat, nacks: nat, last: nat, log: seq<(nat, Action)>)

  const NOTHING := Run(START, 0, 0, 0, [])

  function Counters(r: Run): (c: (u32, u32)) { (Wrap32(r.dropped), Wrap32(r.nacks)) }

  function Next(r: Run, e: Event, cap: nat): Run
  {
    match e
    case Counted(d, n) => r.(dropped := r.dropped + d, nacks := r.nacks + n)
    case Reset => r.(s := r.s.(lastDropped := 0, lastNacks := 0, lossySeconds := 0), dropped := 0, nacks := 0)
    case Ticked(now) =>
      var (s, action) := Tick(r.s, cap, Counters(r).0, Counters(r).1, now);
      r.(s := s, last := now, log := r.log + [(now, action)])
  }

  function RunOf(es: seq<Event>, cap: nat): Run
  {
    if es == [] then NOTHING else Next(RunOf(es[..|es| - 1], cap), es[|es| - 1], cap)
  }

  /** The clock does not run backwards and the counters stay within 32 bits. */
  predicate Sane(es: seq<Event>, cap: nat)
  {
    es != [] ==>
      var r := RunOf(es[..|es| - 1], cap);
      var e := es[|es| - 1];
      && Sane(es[..|es| - 1], cap)
      && (e.Ticked? ==> e.now >= r.last)
      && (e.Counted? ==> r.dropped + e.dropped < TWO32 && r.nacks + e.nacks < TWO32)
  }

  /** When the last thing that was not quiet happened. */
  function LastNoise(log: seq<(nat, Action)>): Option<nat>
  {
    if log == [] then None
    else if log[|log| - 1].1.Quiet? then LastNoise(log[..|log| - 1])
    else Some(log[|log| - 1].0)
  }

  function LastBackOff(log: seq<(nat, Action)>): Option<nat>
  {
    if log == [] then None
    else if log[|log| - 1].1.BackedOff? then Some(log[|log| - 1].0)
    else LastBackOff(log[..|log| - 1])
  }

  /** The rate stays between the floor and the cap; the deltas never underflow; clean-since
      and hold-off remember what they should. */
  predicate Inv(r: Run, cap: nat)
  {
    && (r.log == [] ==> r.s.kbps == 0)
    && (r.log != [] ==> FLOOR <= r.s.kbps <= cap)
    && r.dropped < TWO32 && r.nacks < TWO32
    && r.s.lastDropped <= r.dropped && r.s.lastNacks <= r.nacks
    && r.s.cleanSince <= r.last
    && (LastNoise(r.log).Some? ==> r.s.cleanSince >= LastNoise(r.log).value)
    && (LastBackOff(r.log).Some? ==> r.s.holdoffUntil == LastBackOff(r.log).value + HOLDOFF_MS)
  }

  /** Each entry of the log obeys the spacing rules with respect to what came before. */
  predicate Spaced(log: seq<(nat, Action)>)
  {
    log != [] ==>
      var before := log[..|log| - 1];
      var (now, action) := log[|log| - 1];
      && Spaced(before)
      && (action.BackedOff? && LastBackOff(before).Some? ==> now >= LastBackOff(before).value + HOLDOFF_MS)
      && (action.Ramped? && LastNoise(before).Some? ==> now >= LastNoise(before).value + CLEAN_MS)
  }

  lemma RateInRange(kbps: nat, cap: nat)
    requires FLOOR <= kbps <= cap
    ensures FLOOR <= BackedOffRate(kbps) <= kbps
    ensures kbps < cap ==> kbps < RampedRate(kbps, cap) <= cap
  {
  }

  lemma {:induction false} RunIsSpaced(es: seq<Event>, cap: nat)
    requires cap >= FLOOR && Sane(es, cap)
    ensures Inv(RunOf(es, cap), cap) && Spaced(RunOf(es, cap).log)
  {
    if es != [] {
      var r := RunOf(es[..|es| - 1], cap);
      RunIsSpaced(es[..|es| - 1], cap);
      match es[|es| - 1]
      case Ticked(now) => TickKeeps(r, now, cap);
      case _ =>
    }
  }

  lemma TickKeeps(r: Run, now: nat, cap: nat)
    requires cap >= FLOOR && Inv(r, cap) && Spaced(r.log) && now >= r.last
    ensures Inv(Next(r, Ticked(now), cap), cap) && Spaced(Next(r, Ticked(now), cap).log)
  {
    var r1 := Next(r, Ticked(now), cap);
    assert r1.log[..|r.log|] == r.log;
    TickKeepsInv(r, now, cap);
    TickKeepsSpacing(r, now, cap);
  }

  lemma TickKeepsInv(r: Run, now: nat, cap: nat)
    requires cap >= FLOOR && Inv(r, cap) && now >= r.last
    ensures Inv(Next(r, Ticked(now), cap), cap)
  {
    SmallWrap(r.dropped);
    SmallWrap(r.nacks);
    TickIs(r.s, cap, Counters(r).0, Counters(r).1, now);
    LastOfAppended(r.log, Next(r, Ticked(now), cap).log[|r.log|]);
  }

  /** What a tick does to each field, by its action. */
  lemma TickIs(s: State, cap: nat, dropped: u32, nacks: u32, now: nat)
    requires cap >= FLOOR && (s.kbps == 0 || FLOOR <= s.kbps <= cap) && s.cleanSince <= now
    ensures
      var (s1, action) := Tick(s, cap, dropped, nacks, now);
      && FLOOR <= s1.kbps <= cap && s.cleanSince <= s1.cleanSince <= now
      && s1.lastDropped == dropped && s1.lastNacks == nacks
      && (!action.Quiet? ==> s1.cleanSince == now)
      && s1.holdoffUntil == if action.BackedOff? then now + HOLDOFF_MS else s.holdoffUntil
  {
    RateInRange(Started(s, cap, now).kbps, cap);
  }

  lemma LastOfAppended(log: seq<(nat, Action)>, x: (nat, Action))
    ensures LastNoise(log + [x]) == if x.1.Quiet? then LastNoise(log) else Some(x.0)
    ensures LastBackOff(log + [x]) == if x.1.BackedOff? then Some(x.0) else LastBackOff(log)
  {
    assert (log + [x])[..|log|] == log;
  }

  lemma TickKeepsSpacing(r: Run, now: nat, cap: nat)
    requires Inv(r, cap) && Spaced(r.log) && now >= r.last
    ensures Spaced(Next(r, Ticked(now), cap).log)
  {
    var r1 := Next(r, Ticked(now), cap);
    assert r1.log[..|r.log|] == r.log;
  }

  /** The drop and NACK deltas a tick works with are the true numbers since the last tick
      or the last reset. */
  lemma DeltasAreTrue(es: seq<Event>, cap: nat)
    requires cap >= FLOOR && Sane(es, cap)
    ensures
      var r := RunOf(es, cap);
      && Sub32(Counters(r).0, r.s.lastDropped) == r.dropped - r.s.lastDropped
      && Sub32(Counters(r).1, r.s.lastNacks) == r.nacks - r.s.lastNacks
  {
    RunIsSpaced(es, cap);
    var r := RunOf(es, cap);
    SmallWrap(r.dropped);
    SmallWrap(r.nacks);
  }

  lemma {:induction false} BackOffBefore(log: seq<(nat, Action)>, i: nat)
    requires Spaced(log) && i < |log| && log[i].1.BackedOff?
    requires forall a, b :: 0 <= a < b < |log| ==> log[a].0 <= log[b].0
    ensures LastBackOff(log).Some? && LastBackOff(log).value >= log[i].0
  {
    if i < |log| - 1 {
      BackOffBefore(log[..|log| - 1], i);
    }
  }

  lemma {:induction false} NoiseBefore(log: seq<(nat, Action)>, i: nat)
    requires i < |log| && !log[i].1.Quiet?
    requires forall a, b :: 0 <= a < b < |log| ==> log[a].0 <= log[b].0
    ensures LastNoise(log).Some? && LastNoise(log).value >= log[i].0
  {
    if i < |log| - 1 {
      NoiseBefore(log[..|log| - 1], i);
    }
  }

  /** Times in the log rise, up to the last tick. */
  predicate Rising(log: seq<(nat, Action)>, last: nat)
  {
    && (forall a, b :: 0 <= a < b < |log| ==> log[a].0 <= log[b].0)
    && (forall a :: 0 <= a < |log| ==> log[a].0 <= last)
  }

  lemma RisingAppend(log: seq<(nat, Action)>, last: nat, now: nat, action: Action)
    requires Rising(log, last) && last <= now
    ensures Rising(log + [(now, action)], now)
  {
  }

  lemma {:induction false} LogRises(es: seq<Event>, cap: nat)
    requires Sane(es, cap)
    ensures Rising(RunOf(es, cap).log, RunOf(es, cap).last)
  {
    if es != [] {
      LogRises(es[..|es| - 1], cap);
      var r := RunOf(es[..|es| - 1], cap);
      match es[|es| - 1]
      case Ticked(now) =>
        RisingAppend(r.log, r.last, now, Tick(r.s, cap, Counters(r).0, Counters(r).1, now).1);
      case _ =>
    }
  }

  lemma {:induction false} SpacedPrefix(log: seq<(nat, Action)>, n: nat)
    requires Spaced(log) && n <= |log|
    ensures Spaced(log[..n])
  {
    if n < |log| {
      SpacedPrefix(log[..|log| - 1], n);
      assert log[..|log| - 1][..n] == log[..n];
    } else {
      assert log[..n] == log;
    }
  }

  /** On every run with a cap of at least 3000: two back-offs are at least 3000 ms apart,
      and a ramp comes at least 5000 ms after any loss, back-off or ramp before it. */
  lemma SpacingHolds(es: seq<Event>, cap: nat, i: nat, j: nat)
    requires cap >= FLOOR && Sane(es, cap) && i < j < |RunOf(es, cap).log|
    ensures
      var log := RunOf(es, cap).log;
      && (log[i].1.BackedOff? && log[j].1.BackedOff? ==> log[j].0 >= log[i].0 + HOLDOFF_MS)
      && (!log[i].1.Quiet? && log[j].1.Ramped? ==> log[j].0 >= log[i].0 + CLEAN_MS)
  {
    RunIsSpaced(es, cap);
    LogRises(es, cap);
    var log := RunOf(es, cap).log;
    PairSpaced(log, i, j);
  }

  lemma PairSpaced(log: seq<(nat, Action)>, i: nat, j: nat)
    requires Spaced(log) && i < j < |log| && forall a, b :: 0 <= a < b < |log| ==> log[a].0 <= log[b].0
    ensures log[i].1.BackedOff? && log[j].1.BackedOff? ==> log[j].0 >= log[i].0 + HOLDOFF_MS
    ensures !log[i].1.Quiet? && log[j].1.Ramped? ==> log[j].0 >= log[i].0 + CLEAN_MS
  {
    SpacedPrefix(log, j + 1);
    SpacedPrefix(log, j);
    assert log[..j + 1][..j] == log[..j] && log[..j + 1][j] == log[j];
    if log[i].1.BackedOff? { BackOffBefore(log[..j], i); }
    if !log[i].1.Quiet? { NoiseBefore(log[..j], i); }
  }

  /** The cap bounds the rate on every run exactly when it is at least the floor: with a
      lower one a single bad second lifts the rate above it. */
  lemma CapHoldsIff(cap: nat)
    ensures cap >= FLOOR <==> forall es :: Sane(es, cap) ==> RunOf(es, cap).s.kbps <= cap
  {
    if cap >= FLOOR {
      forall es | Sane(es, cap) ensures RunOf(es, cap).s.kbps <= cap {
        RunIsSpaced(es, cap);
      }
    } else {
      LowCapBreaks(cap);
    }
  }

  lemma LowCapBreaks(cap: nat)
    requires cap < FLOOR
    ensures
      var es := [Counted(5, 0)] + [Ticked(0)];
      Sane(es, cap) && RunOf(es, cap).s.kbps == FLOOR
  {
    var first := [Counted(5, 0)];
    var es := first + [Ticked(0)];
    assert first[..|first| - 1] == [] && es[..|es| - 1] == first;
    assert RunOf(first, cap) == Next(NOTHING, Counted(5, 0), cap);
    SmallWrap(5);
    assert Sane(first, cap);
  }

  /** On every run with a cap of at least 3000, whatever is awaited: the rate sent is the
      controlled one unless that is below 4000 while blind; it is at least 3000, while blind
      at least 4000; and it goes above the cap only while blind, only under a cap below 4000,
      and then only to 4000. */
  lemma BlindRateFits(es: seq<Event>, cap: nat, waitingKeyframe: bool)
    requires cap >= FLOOR && Sane(es, cap) && RunOf(es, cap).log != []
    ensures
      var rate := Advertised(RunOf(es, cap).s, waitingKeyframe);
      && rate >= 3000 && (waitingKeyframe ==> rate >= 4000)
      && (rate != RunOf(es, cap).s.kbps ==> waitingKeyframe && RunOf(es, cap).s.kbps < 4000)
      && (rate > cap ==> waitingKeyframe && cap < 4000 == rate)
  {
    RunIsSpaced(es, cap);
  }

  // ---- what a tick does, from the events alone ---------------------------------------------

  /** Frames dropped and NACKs sent since the last tick or reset. */
  function SinceTick(es: seq<Event>): (nat, nat)
  {
    if es == [] then (0, 0)
    else
      var (d, n) := SinceTick(es[..|es| - 1]);
      match es[|es| - 1]
      case Counted(dropped, nacks) => (d + dropped, n + nacks)
      case _ => (0, 0)
  }

  /** A lossy second: two frames dropped or five NACKs. */
  predicate LossyTick(es: seq<Event>) { SinceTick(es).0 >= 2 || SinceTick(es).1 >= 5 }

  /** How many lossy ticks there were in a row up to here, since a back-off or a reset. */
  function LossyRow(es: seq<Event>, cap: nat): nat
  {
    if es == [] then 0
    else
      var before := es[..|es| - 1];
      match es[|es| - 1]
      case Counted(_, _) => LossyRow(before, cap)
      case Reset => 0
      case Ticked(_) =>
        var log := RunOf(es, cap).log;
        if log != [] && log[|log| - 1].1.BackedOff? then 0
        else if LossyTick(before) then LossyRow(before, cap) + 1 else 0
  }

  /** The rate going into a tick: the cap on the first one. */
  function RateBefore(es: seq<Event>, cap: nat): nat
  {
    if RunOf(es, cap).log == [] then cap else RunOf(es, cap).s.kbps
  }

  /** Since when nothing has happened to the rate: the last loss, back-off or ramp, or the
      first tick, or this one if it is the first. */
  function CalmSince(log: seq<(nat, Action)>, now: nat): nat
  {
    match LastNoise(log)
    case Some(at) => at
    case None => if log == [] then now else log[0].0
  }

  /** The controller's fields are what the events say. */
  predicate Follows(es: seq<Event>, cap: nat)
  {
    var r := RunOf(es, cap);
    && r.dropped == r.s.lastDropped + SinceTick(es).0 && r.nacks == r.s.lastNacks + SinceTick(es).1
    && r.s.lossySeconds == LossyRow(es, cap)
    && (r.log != [] ==> r.s.cleanSince == CalmSince(r.log, 0))
    && (LastBackOff(r.log).None? ==> r.s.holdoffUntil == 0)
  }

  /** A tick comes at `now`: what it must do. */
  predicate TickRule(es: seq<Event>, cap: nat, now: nat)
  {
    var (d, n) := SinceTick(es);
    var rate := RateBefore(es, cap);
    var log := RunOf(es, cap).log;
    var held := LastBackOff(log).Some? && now < LastBackOff(log).value + 3000;
    var r := Next(RunOf(es, cap), Ticked(now), cap);
    && r.log == log + [(now, r.log[|log|].1)]
    && (if (d >= 5 || n >= 15 || (LossyTick(es) && LossyRow(es, cap) >= 1)) && !held then
          r.log[|log|].1.BackedOff? && r.s.kbps == if rate * 85 / 100 < 3000 then 3000 else rate * 85 / 100
        else if LossyTick(es) then r.log[|log|].1.Lossy? && r.s.kbps == rate
        else if rate < cap && now - CalmSince(log, now) >= 5000 then
          r.log[|log|].1.Ramped? && r.s.kbps == if rate + 1000 > cap then cap else rate + 1000
        else r.log[|log|].1.Quiet? && r.s.kbps == rate)
  }

  /** On every run the next tick follows the rule, whatever happened before. */
  lemma TickFollowsRule(es: seq<Event>, cap: nat, now: nat)
    requires cap >= FLOOR && Inv(RunOf(es, cap), cap) && Follows(es, cap) && now >= RunOf(es, cap).last
    ensures TickRule(es, cap, now)
  {
    var r := RunOf(es, cap);
    SmallWrap(r.dropped);
    SmallWrap(r.nacks);
    DecidesBy(r, cap, now, SinceTick(es).0, SinceTick(es).1);
  }

  /** The same for a run whose deltas are `d` and `n`. */
  lemma DecidesBy(r: Run, cap: nat, now: nat, d: nat, n: nat)
    requires Inv(r, cap) && r.dropped == r.s.lastDropped + d && r.nacks == r.s.lastNacks + n
    ensures
      var s1 := Started(r.s, cap, now);
      var (s2, action) := Tick(r.s, cap, Counters(r).0, Counters(r).1, now);
      && action == Decide(s1, cap, d, n, now)
      && s2.kbps == match action
                    case BackedOff => BackedOffRate(s1.kbps)
                    case Ramped => RampedRate(s1.kbps, cap)
                    case _ => s1.kbps
  {
    SmallWrap(r.dropped);
    SmallWrap(r.nacks);
  }

  lemma {:induction false} RunFollows(es: seq<Event>, cap: nat)
    requires cap >= FLOOR && Sane(es, cap)
    ensures Follows(es, cap)
  {
    if es != [] {
      var before := es[..|es| - 1];
      RunFollows(before, cap);
      RunIsSpaced(before, cap);
      match es[|es| - 1]
      case Ticked(now) => TickFollows(before, cap, now, es);
      case _ =>
    }
  }

  lemma TickFollows(before: seq<Event>, cap: nat, now: nat, es: seq<Event>)
    requires es == before + [Ticked(now)] && es[..|es| - 1] == before
    requires cap >= FLOOR && Inv(RunOf(before, cap), cap) && Follows(before, cap) && now >= RunOf(before, cap).last
    ensures Follows(es, cap)
  {
    var r, r1 := RunOf(before, cap), RunOf(es, cap);
    SmallWrap(r.dropped);
    SmallWrap(r.nacks);
    TickIs(r.s, cap, Counters(r).0, Counters(r).1, now);
    DecidesBy(r, cap, now, SinceTick(before).0, SinceTick(before).1);
    LastOfAppended(r.log, r1.log[|r.log|]);
    assert r1.log[|r1.log| - 1] == r1.log[|r.log|];
  }

  /** On every run: five drops or fifteen NACKs since the last tick, or a second lossy tick
      in a row, with no back-off in the 3000 ms before, leave 85 percent of the rate but no
      less than 3000; a lossy tick otherwise leaves it; and without loss it grows by 1000,
      up to the cap, once 5000 ms have passed since anything happened to it. */
  lemma RunFollowsRule(es: seq<Event>, cap: nat, now: nat)
    requires cap >= FLOOR && Sane(es + [Ticked(now)], cap)
    ensures TickRule(es, cap, now) && RunOf(es + [Ticked(now)], cap) == Next(RunOf(es, cap), Ticked(now), cap)
  {
    assert (es + [Ticked(now)])[..|es|] == es;
    RunIsSpaced(es, cap);
    RunFollows(es, cap);
    TickFollowsRule(es, cap, now);
  }

  /** Back-offs in a log. */
  function BackOffs(log: seq<(nat, Action)>): nat
  {
    if log == [] then 0
    else BackOffs(log[..|log| - 1]) + (if log[|log| - 1].1.BackedOff? then 1 else 0)
  }

  /** No ramp since event `k`. */
  predicate NoRampSince(es: seq<Event>, k: nat, cap: nat)
  {
    |es| > k ==>
      && NoRampSince(es[..|es| - 1], k, cap)
      && (es[|es| - 1].Ticked? ==>
            RunOf(es, cap).log == [] || !RunOf(es, cap).log[|RunOf(es, cap).log| - 1].1.Ramped?)
  }

  lemma OneBackOff(rate: nat)
    requires rate >= 3000
    ensures rate * 85 / 100 <= rate - 450
  {
  }

  /** Down by 450 for each back-off, or at the floor. */
  predicate Fallen(rate: int, cap: int, backOffs: int)
  {
    rate == 3000 || rate + 450 * backOffs <= cap
  }

  lemma FallenFurther(rate: int, cap: int, backOffs: int, after: int, taken: int)
    requires Fallen(rate, cap, backOffs) && Fallen(after, rate, taken) && after >= 3000 && taken >= 0
    ensures Fallen(after, cap, backOffs + taken)
  {
  }

  /** Each back-off takes at least 450 off, down to the floor. */
  lemma {:induction false} BackOffsTakeOff(es: seq<Event>, k: nat, cap: nat)
    requires cap >= FLOOR && Sane(es, cap) && k <= |es| && NoRampSince(es, k, cap)
    ensures BackOffs(RunOf(es, cap).log) >= BackOffs(RunOf(es[..k], cap).log)
    ensures Fallen(RateBefore(es, cap), cap, BackOffs(RunOf(es, cap).log) - BackOffs(RunOf(es[..k], cap).log))
    decreases |es|
  {
    RunIsSpaced(es, cap);
    if k == |es| {
      assert es[..k] == es;
    } else {
      var before := es[..|es| - 1];
      assert before[..k] == es[..k];
      BackOffsTakeOff(before, k, cap);
      var taken := EventTakesOff(before, cap, es);
      FallenFurther(RateBefore(before, cap), cap, BackOffs(RunOf(before, cap).log) - BackOffs(RunOf(es[..k], cap).log),
                    RateBefore(es, cap), taken);
    }
  }

  lemma EventTakesOff(before: seq<Event>, cap: nat, es: seq<Event>) returns (taken: nat)
    requires es != [] && before == es[..|es| - 1] && cap >= FLOOR && Sane(es, cap) && NoRampSince(es, |before|, cap)
    ensures BackOffs(RunOf(es, cap).log) == BackOffs(RunOf(before, cap).log) + taken
    ensures Fallen(RateBefore(es, cap), RateBefore(before, cap), taken) && RateBefore(es, cap) >= 3000
  {
    RunIsSpaced(es, cap);
    taken := 0;
    match es[|es| - 1]
    case Ticked(now) =>
      assert es == before + [Ticked(now)];
      TickTakesOff(before, cap, now, es);
      taken := BackOffs(RunOf(es, cap).log) - BackOffs(RunOf(before, cap).log);
    case _ =>
  }

  /** One tick that does not ramp. */
  lemma TickTakesOff(before: seq<Event>, cap: nat, now: nat, es: seq<Event>)
    requires es == before + [Ticked(now)] && cap >= FLOOR && Sane(es, cap)
    requires RunOf(es, cap).log == [] || !RunOf(es, cap).log[|RunOf(es, cap).log| - 1].1.Ramped?
    ensures RunOf(es, cap).log != []
    ensures
      var taken := BackOffs(RunOf(es, cap).log) - BackOffs(RunOf(before, cap).log);
      && taken >= 0
      && (RateBefore(es, cap) == 3000 || RateBefore(es, cap) + 450 * taken <= RateBefore(before, cap))
  {
    assert es[..|es| - 1] == before;
    RunIsSpaced(before, cap);
    RunFollowsRule(before, cap, now);
    var log := RunOf(es, cap).log;
    BackOffsAppend(RunOf(before, cap).log, log[|log| - 1]);
    OneBackOff(RateBefore(before, cap));
  }

  lemma BackOffsAppend(log: seq<(nat, Action)>, x: (nat, Action))
    ensures BackOffs(log + [x]) == BackOffs(log) + (if x.1.BackedOff? then 1 else 0)
  {
    assert (log + [x])[..|log|] == log;
  }

  /** So ceil((cap - 3000) / 450) back-offs with no ramp between them bring any cap down to
      3000, from wherever the run began. */
  lemma BackOffsReachFloor(es: seq<Event>, k: nat, cap: nat)
    requires cap >= FLOOR && Sane(es, cap) && k <= |es| && NoRampSince(es, k, cap)
    requires BackOffs(RunOf(es, cap).log) > BackOffs(RunOf(es[..k], cap).log)
    requires 450 * (BackOffs(RunOf(es, cap).log) - BackOffs(RunOf(es[..k], cap).log)) >= cap - 3000
    ensures RunOf(es, cap).s.kbps == 3000
  {
    BackOffsTakeOff(es, k, cap);
    RunIsSpaced(es, cap);
  }

  // ---- recovery ------------------------------------------------------------------------------

  /** Ramps still needed. */
  function Ramps(s: State, cap: nat): nat
  {
    if s.kbps >= cap then 0 else (cap - s.kbps + RAMP_KBPS - 1) / RAMP_KBPS
  }

  /** Fewer than two frames dropped and five NACKs sent since the last tick or reset. */
  predicate LossFree(r: Run)
  {
    r.dropped < r.s.lastDropped + 2 && r.nacks < r.s.lastNacks + 5
  }

  /** From event `k` on, every tick is loss-free and at most `g` ms after the one before. */
  predicate CalmFrom(es: seq<Event>, k: nat, cap: nat, g: nat)
  {
    |es| > k ==>
      var r := RunOf(es[..|es| - 1], cap);
      var e := es[|es| - 1];
      && CalmFrom(es[..|es| - 1], k, cap, g)
      && (e.Ticked? ==> e.now <= r.last + g && LossFree(r))
  }

  /** As a tick at `now` leaves the controller: at the cap, or not yet due to ramp. */
  predicate Settled(s: State, cap: nat, now: nat)
  {
    && FLOOR <= s.kbps <= cap && s.cleanSince <= now
    && (s.kbps < cap ==> now < s.cleanSince + CLEAN_MS)
  }

  /** The time by which the cap is reached, at the latest. */
  function Deadline(s: State, cap: nat, g: nat): nat
  {
    s.cleanSince + Ramps(s, cap) * (CLEAN_MS + g)
  }

  /** Every tick of every run, lossy or not, leaves the controller settled. */
  lemma TickSettles(es: seq<Event>, cap: nat)
    requires cap >= FLOOR && Sane(es, cap) && es != [] && es[|es| - 1].Ticked?
    ensures Settled(RunOf(es, cap).s, cap, RunOf(es, cap).last)
  {
    RunIsSpaced(es[..|es| - 1], cap);
    RunIsSpaced(es, cap);
  }

  lemma OneRampLess(s: State, s1: State, cap: nat, g: nat)
    requires s1.kbps < cap && s1.kbps == s.kbps + RAMP_KBPS
    requires s1.cleanSince <= s.cleanSince + CLEAN_MS + g
    ensures Deadline(s1, cap, g) <= Deadline(s, cap, g)
  {
    assert Ramps(s1, cap) == Ramps(s, cap) - 1;
    MulOneLess(Ramps(s, cap), CLEAN_MS + g);
  }

  lemma MulOneLess(a: int, b: int)
    ensures a * b == (a - 1) * b + b
  {
  }

  /** No later deadline, and never below the cap again once there. */
  predicate NoLater(s: State, s1: State, cap: nat, g: nat)
  {
    s1.kbps < cap ==> s.kbps < cap && Deadline(s1, cap, g) <= Deadline(s, cap, g)
  }

  /** Each ramp uses up at most 5000 + g of the time allowed. */
  lemma CalmTickProgress(r: Run, cap: nat, now: nat, g: nat)
    requires cap >= FLOOR && Inv(r, cap) && Settled(r.s, cap, r.last)
    requires LossFree(r) && r.last <= now <= r.last + g
    ensures NoLater(r.s, Next(r, Ticked(now), cap).s, cap, g)
  {
    SmallWrap(r.dropped);
    SmallWrap(r.nacks);
    var s, s1 := r.s, Next(r, Ticked(now), cap).s;
    if s.kbps < cap && now - s.cleanSince >= CLEAN_MS {
      RateInRange(s.kbps, cap);
      if s1.kbps < cap {
        OneRampLess(s, s1, cap, g);
      }
    }
  }

  lemma {:induction false} CalmProgress(es: seq<Event>, k: nat, cap: nat, g: nat)
    requires cap >= FLOOR && Sane(es, cap) && 0 < k <= |es| && es[k - 1].Ticked? && CalmFrom(es, k, cap, g)
    ensures Sane(es[..k], cap) && Settled(RunOf(es, cap).s, cap, RunOf(es, cap).last)
    ensures NoLater(RunOf(es[..k], cap).s, RunOf(es, cap).s, cap, g)
  {
    if k == |es| {
      assert es[..k] == es;
      TickSettles(es, cap);
    } else {
      var before := es[..|es| - 1];
      assert before[..k] == es[..k];
      CalmProgress(before, k, cap, g);
      match es[|es| - 1]
      case Ticked(now) =>
        RunIsSpaced(before, cap);
        CalmTickProgress(RunOf(before, cap), cap, now, g);
        TickSettles(es, cap);
      case _ =>
    }
  }

  /** On every run: take any tick, and let every later one be loss-free and at most `g` ms
      after the one before.  At any time `now` from ceil((cap - rate) / 1000) * (5000 + g)
      ms after that tick on, the next tick being not overdue, the rate is at the cap. */
  lemma RecoversInTime(es: seq<Event>, k: nat, cap: nat, g: nat, now: nat)
    requires cap >= FLOOR && Sane(es, cap) && 0 < k <= |es| && es[k - 1].Ticked? && CalmFrom(es, k, cap, g)
    requires RunOf(es, cap).last <= now <= RunOf(es, cap).last + g
    requires now >= RunOf(es[..k], cap).last + Ramps(RunOf(es[..k], cap).s, cap) * (CLEAN_MS + g)
    ensures RunOf(es, cap).s.kbps == cap
  {
    CalmProgress(es, k, cap, g);
    assert es[..k][k - 1] == es[k - 1];
    TickSettles(es[..k], cap);
    var s1 := RunOf(es, cap).s;
    if s1.kbps < cap {
      OneAtLeast(Ramps(s1, cap), CLEAN_MS + g);
    }
  }

  lemma OneAtLeast(a: nat, b: nat)
    requires a >= 1
    ensures a * b >= b
  {
  }
}
