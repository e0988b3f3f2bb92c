/** Receiver-report bookkeeping of the video jitter buffer (RFC 3550 section 6.4.1
    and Appendix A.3): the 32-bit counters of receive and report_stats, and the
    true, unbounded numbers they stand for. */
module ReceiverReport {
  import opened Serial

  datatype Counters = Counters(
    haveSeq: bool, maxSeq: u16, cycles: u32, baseSeq: u32,
    received: u32, receivedPrior: u32, expectedPrior: u32)

  const FRESH := Counters(false, 0, 0, 0, 0, 0, 0)

  datatype Report = Report(fraction: byte, cumulative: u32, highest: u32)

  /** Is `seqNo` ahead of everything seen? */
  predicate Advances(c: Counters, seqNo: u16)
  {
    c.haveSeq && SeqAfter(seqNo, c.maxSeq)
  }

  function Track(c: Counters, seqNo: u16): Counters
  {
    if !c.haveSeq then
      Counters(true, seqNo, 0, seqNo, 1, c.receivedPrior, c.expectedPrior)
    else
      var c1 := c.(received := Add32(c.received, 1));
      if SeqAfter(seqNo, c.maxSeq) then
        c1.(maxSeq := seqNo,
            cycles := if seqNo < c.maxSeq then Add32(c.cycles, 0x1_0000) else c.cycles)
      else c1
  }

  function Expected(c: Counters): u32
  {
    Add32(Sub32(Add32(c.cycles, c.maxSeq), c.baseSeq), 1)
  }

  /** `static_cast<uint8_t>((lost << 8) / expected)` on 32 bits. */
  function Fraction(lost: u32, expected: u32): byte
  {
    if expected == 0 || lost == 0 then 0
    else Wrap32(lost * 0x100) / expected % 0x100
  }

  function Reported(c: Counters): Counters
  {
    c.(expectedPrior := Expected(c), receivedPrior := c.received)
  }

  function ReportOf(c: Counters): Report
  {
    var expected := Expected(c);
    var lost := if expected > c.received then expected - c.received else 0;
    var expIv := Sub32(expected, c.expectedPrior);
    var rcvIv := Sub32(c.received, c.receivedPrior);
    var lostIv := if expIv > rcvIv then expIv - rcvIv else 0;
    Report(Fraction(lostIv, expIv), lost % 0x100_0000, Add32(c.cycles, c.maxSeq))
  }

  // ---- the numbers meant -------------------------------------------------------

  /** What has truly happened since the counters were fresh: the first and the
      highest unwrapped sequence number, how many packets came, and where the last
      report left off. */
  datatype Truth = Nothing
                 | Seen(base: int, highest: int, count: nat, countPrior: nat, expectedPrior: nat)

  /** Arrival of the packet whose unwrapped sequence number is `u`. */
  function Arrived(t: Truth, u: int): Truth
  {
    match t
    case Nothing => Seen(u, u, 1, 0, 0)
    case Seen(_, h, n, _, _) => t.(highest := if u > h then u else h, count := n + 1)
  }

  function AfterReport(t: Truth): Truth
    requires t.Seen? ==> t.base <= t.highest
  {
    match t
    case Nothing => Nothing
    case Seen(b, h, n, _, _) => t.(countPrior := n, expectedPrior := h - b + 1)
  }

  /** Every packet is within half the number space of the highest so far. */
  predicate InWindow(t: Truth, u: int)
  {
    t.Seen? ==> -0x8000 <= u - t.highest < 0x8000
  }

  /** The counters are the true numbers, reduced to their width. */
  predicate Faithful(c: Counters, t: Truth)
  {
    match t
    case Nothing => c == FRESH
    case Seen(base, highest, count, countPrior, expectedPrior) =>
      && base <= highest && c.haveSeq
      && c.maxSeq == Wrap16(highest) && c.baseSeq == Wrap16(base)
      && Add32(c.cycles, c.maxSeq) == Wrap32(Wrap16(base) + highest - base)
      && c.cycles % 0x1_0000 == 0
      && c.received == Wrap32(count) && c.receivedPrior == Wrap32(countPrior)
      && c.expectedPrior == Wrap32(expectedPrior)
      && countPrior <= count && expectedPrior <= highest - base + 1
      && (expectedPrior < highest - base + 1 ==> countPrior < count)
  }

  lemma ExtendedStep(cycles: u32, maxSeq: u16, seqNo: u16)
    requires SeqAfter(seqNo, maxSeq) && cycles % 0x1_0000 == 0
    ensures
      var cycles' := if seqNo < maxSeq then Add32(cycles, 0x1_0000) else cycles;
      && Add32(cycles', seqNo) == Add32(Add32(cycles, maxSeq), Sub16(seqNo, maxSeq))
      && cycles' % 0x1_0000 == 0
  {
  }

  lemma Add32Wrap(x: int, k: u32)
    ensures Add32(Wrap32(x), k) == Wrap32(x + k)
  {
  }

  /** `cycles_ + max_seq_` follows the unwrapped highest sequence number through
      every arrival, in order or late. */
  lemma TrackFaithful(c: Counters, t: Truth, u: int)
    requires Faithful(c, t) && InWindow(t, u)
    ensures Faithful(Track(c, Wrap16(u)), Arrived(t, u))
  {
    match t
    case Nothing =>
      Add32Wrap(0, Wrap16(u));
    case Seen(base, highest, count, _, _) =>
      Add32Wrap(count, 1);
      SeqAfterIsGreater(u, highest);
      if u > highest {
        Sub16Wrap(u, highest);
        var d := u - highest;
        assert Sub16(Wrap16(u), c.maxSeq) == d;
        ExtendedStep(c.cycles, c.maxSeq, Wrap16(u));
        Add32Wrap(Wrap16(base) + highest - base, d);
      }
  }

  lemma ReportFaithful(c: Counters, t: Truth)
    requires Faithful(c, t) && t.Seen?
    ensures Faithful(Reported(c), AfterReport(t))
    ensures Expected(c) == Wrap32(t.highest - t.base + 1)
  {
    var x := Wrap16(t.base) + t.highest - t.base;
    assert Wrap32(Wrap16(t.base)) == Wrap16(t.base);
    Sub32Wrap(x, Wrap16(t.base));
    Add32Wrap(t.highest - t.base, 1);
  }

  lemma QuotientBelow(n: nat, d: nat, q: nat)
    requires d > 0 && n < d * q
    ensures n / d < q
  {
    var k := n / d;
    assert n == d * k + n % d;
    if k >= q {
      MulMonotone(q, k, d);
    }
  }

  /** No wrap: the quotient fits the byte. */
  lemma FractionTrue(lost: u32, expected: u32)
    requires lost < expected < 0x100_0000
    ensures Fraction(lost, expected) == lost * 0x100 / expected
  {
    var n := lost * 0x100;
    SmallWrap(n);
    QuotientBelow(n, expected, 0x100);
    SmallByte(n / expected);
  }

  lemma SmallByte(x: nat)
    requires x < 0x100
    ensures x % 0x100 == x
  {
  }

  lemma IntervalsTrue(c: Counters, t: Truth)
    requires Faithful(c, t) && t.Seen? && t.count < TWO32 && t.highest - t.base + 1 < TWO32
    ensures Expected(c) == t.highest - t.base + 1 && c.received == t.count
    ensures Sub32(Expected(c), c.expectedPrior) == t.highest - t.base + 1 - t.expectedPrior
    ensures Sub32(c.received, c.receivedPrior) == t.count - t.countPrior
  {
    ReportFaithful(c, t);
    SmallWrap(t.highest - t.base + 1);
    SmallWrap(t.expectedPrior);
    SmallWrap(t.count);
    SmallWrap(t.countPrior);
  }

  /** The true counts fit the fields of the protocol. */
  predicate ReportFits(t: Truth)
    requires t.Seen?
  {
    && Wrap16(t.base) + t.highest - t.base + 1 < TWO32 && t.count < TWO32
    && t.highest - t.base + 1 - t.expectedPrior < 0x100_0000
  }

  /** The figures of this report are the true ones; an interval that expected something
      received something and lost strictly less than it expected. */
  predicate ReportTrue(r: Report, t: Truth)
    requires t.Seen?
  {
    var expected := t.highest - t.base + 1;
    var expIv := expected - t.expectedPrior;
    var rcvIv := t.count - t.countPrior;
    var lostIv := if expIv > rcvIv then expIv - rcvIv else 0;
    && r.highest == Wrap16(t.base) + t.highest - t.base
    && r.cumulative == (if expected > t.count then expected - t.count else 0) % 0x100_0000
    && (expIv > 0 ==> rcvIv > 0 && lostIv < expIv && r.fraction == lostIv * 0x100 / expIv)
    && (expIv == 0 ==> r.fraction == 0)
  }

  /** The figures of a report, for any interval in which the true counts fit the
      protocol's fields: expected and lost are true counts; an interval that
      expected anything received something, so it lost strictly less than it
      expected and the fraction is the 8-bit fixed-point quotient, not wrapped. */
  lemma ReportIsTrue(c: Counters, t: Truth)
    requires Faithful(c, t) && t.Seen? && ReportFits(t)
    ensures ReportTrue(ReportOf(c), t)
  {
    ReportFaithful(c, t);
    var expected := t.highest - t.base + 1;
    var expIv := expected - t.expectedPrior;
    var rcvIv := t.count - t.countPrior;
    var lostIv := if expIv > rcvIv then expIv - rcvIv else 0;
    IntervalsTrue(c, t);
    if expIv > 0 {
      FractionTrue(lostIv, expIv);
    }
    SmallWrap(Wrap16(t.base) + t.highest - t.base);
  }

  // ---- whole runs -----------------------------------------------------------------

  datatype Event = Arrival(u: int) | ReportSent

  function RunCounters(c: Counters, es: seq<Event>): Counters
  {
    if es == [] then c
    else
      var c1 := RunCounters(c, es[..|es| - 1]);
      match es[|es| - 1]
      case Arrival(u) => Track(c1, Wrap16(u))
      case ReportSent => if c1.haveSeq then Reported(c1) else c1
  }

  function RunTruth(es: seq<Event>): (t: Truth)
    ensures t.Seen? ==> t.base <= t.highest
  {
    if es == [] then Nothing
    else
      var t := RunTruth(es[..|es| - 1]);
      match es[|es| - 1]
      case Arrival(u) => Arrived(t, u)
      case ReportSent => AfterReport(t)
  }

  /** No arrival of the run is half the number space away from the highest. */
  predicate Windowed(es: seq<Event>)
  {
    es != [] ==>
      && Windowed(es[..|es| - 1])
      && (es[|es| - 1].Arrival? ==> InWindow(RunTruth(es[..|es| - 1]), es[|es| - 1].u))
  }

  /** Over any run of arrivals and reports the counters stay faithful, and the
      highest number never decreases. */
  lemma {:induction false} RunFaithful(es: seq<Event>)
    requires Windowed(es)
    ensures Faithful(RunCounters(FRESH, es), RunTruth(es))
    ensures es != [] && RunTruth(es[..|es| - 1]).Seen? ==>
      RunTruth(es).Seen? && RunTruth(es).highest >= RunTruth(es[..|es| - 1]).highest
  {
    if es != [] {
      var before := es[..|es| - 1];
      RunFaithful(before);
      match es[|es| - 1]
      case Arrival(u) => TrackFaithful(RunCounters(FRESH, before), RunTruth(before), u);
      case ReportSent =>
        if RunTruth(before).Seen? {
          ReportFaithful(RunCounters(FRESH, before), RunTruth(before));
        }
    }
  }
}
