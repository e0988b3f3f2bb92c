/** Generic NACK (RFC 4585 section 6.2.1): the first request for a sequence gap,
    as sent by receive, and the repeat request of renack_missing. */
module Nack {
  import opened Serial

  /** A 16-bit mask as its bits, least significant first. */
  type Mask = s: seq<bool> | |s| == 16 witness NO_BITS

  const NO_BITS: seq<bool> := [false, false, false, false, false, false, false, false,
                               false, false, false, false, false, false, false, false]

  /** PID names one lost packet; bit b of BLP names packet PID + b + 1. */
  datatype Message = Message(pid: u16, blp: Mask)

  // ---- reading a message -----------------------------------------------------

  function NamedByBits(pid: u16, blp: Mask, b: nat): seq<u16>
    decreases 16 - b
  {
    if b >= 16 then []
    else if blp[b] then [Add16(pid, b + 1)] + NamedByBits(pid, blp, b + 1)
    else NamedByBits(pid, blp, b + 1)
  }

  /** The sequence numbers a message asks for, in order. */
  function Named(m: Message): seq<u16> { [m.pid] + NamedByBits(m.pid, m.blp, 0) }

  function AllNamed(ms: seq<Message>): seq<u16>
  {
    if ms == [] then [] else Named(ms[0]) + AllNamed(ms[1..])
  }

  /** No bit from `b` on is set. */
  predicate ClearFrom(blp: Mask, b: nat)
  {
    forall c :: b <= c < 16 ==> !blp[c]
  }

  lemma {:induction false} NoBitsNoNames(pid: u16, blp: Mask, b: nat)
    requires ClearFrom(blp, b)
    ensures NamedByBits(pid, blp, b) == []
    decreases 16 - b
  {
    if b < 16 {
      NoBitsNoNames(pid, blp, b + 1);
    }
  }

  /** Setting a bit above all others names exactly one more packet. */
  lemma {:induction false} SetBitNames(pid: u16, blp: Mask, b: nat, k: nat)
    requires b <= k < 16 && ClearFrom(blp, k)
    ensures NamedByBits(pid, blp[k := true], b) == NamedByBits(pid, blp, b) + [Add16(pid, k + 1)]
    decreases k - b
  {
    if b == k {
      NoBitsNoNames(pid, blp, k);
      NoBitsNoNames(pid, blp[k := true], k + 1);
    } else {
      SetBitNames(pid, blp, b + 1, k);
    }
  }

  // ---- the first request -----------------------------------------------------

  /** BLP with its `b` lowest bits set. */
  function Ones(b: nat): Mask
    requires b <= 16
  {
    if b == 0 then NO_BITS else Ones(b - 1)[b - 1 := true]
  }

  /** Requests for `left` numbers from the unwrapped `pid` on, seventeen to a message. */
  function GapMessages(pid: int, left: nat): seq<Message>
    decreases left
  {
    if left == 0 then []
    else
      var m := if left < 17 then left else 17;
      [Message(Wrap16(pid), Ones(m - 1))] + GapMessages(pid + m, left - m)
  }

  /** Consecutive sequence numbers, across the wrap. */
  function Consecutive(first: int, n: nat): (s: seq<u16>)
    ensures |s| == n
    decreases n
  {
    if n == 0 then [] else [Wrap16(first)] + Consecutive(first + 1, n - 1)
  }

  lemma {:induction false} ConsecutiveSplit(first: int, a: nat, b: nat)
    ensures Consecutive(first, a + b) == Consecutive(first, a) + Consecutive(first + a, b)
    decreases a
  {
    if a > 0 {
      ConsecutiveSplit(first + 1, a - 1, b);
    }
  }

  /** Only the wrapped first number counts. */
  lemma {:induction false} ConsecutiveWraps(a: int, b: int, n: nat)
    requires Wrap16(a) == Wrap16(b)
    ensures Consecutive(a, n) == Consecutive(b, n)
    decreases n
  {
    if n > 0 {
      Add16Wrap(a, 1);
      Add16Wrap(b, 1);
      ConsecutiveWraps(a + 1, b + 1, n - 1);
    }
  }

  /** The loop of receive for a gap between `maxSeq` and the newer `seqNo`. */
  method RequestGap(maxSeq: u16, seqNo: u16) returns (ms: seq<Message>)
    requires 0 < Sub16(seqNo, maxSeq) < 0x8000
    ensures ms == GapMessages(maxSeq + 1, Sub16(seqNo, maxSeq) - 1)
  {
    ms := [];
    var pid := Add16(maxSeq, 1);
    ghost var at := maxSeq + 1;
    ghost var left := Sub16(seqNo, maxSeq) - 1;
    ghost var all := GapMessages(at, left);
    StepCloser(seqNo, maxSeq);
    AddWraps(maxSeq, maxSeq, 1);
    while pid != seqNo
      invariant pid == Wrap16(at) && 0 <= left == Sub16(seqNo, pid)
      invariant ms + GapMessages(at, left) == all
      decreases left
    {
      var nx, blp := OneRequest(pid, seqNo);
      ghost var m := if left < 17 then left else 17;
      OneMessage(at, left);
      AddWraps(pid, at, m);
      Assoc(ms, [Message(pid, blp)], GapMessages(at + m, left - m));
      ms := ms + [Message(pid, blp)];
      pid, at, left := nx, at + m, left - m;
    }
    NoMore(ms, GapMessages(at, left), all);
  }

  lemma AddWraps(pid: u16, at: int, m: u16)
    requires pid == Wrap16(at)
    ensures Add16(pid, m) == Wrap16(at + m)
  {
    Add16Wrap(at, m);
  }

  lemma NoMore(ms: seq<Message>, rest: seq<Message>, all: seq<Message>)
    requires ms + rest == all && rest == []
    ensures ms == all
  {
  }

  lemma OneMessage(at: int, left: nat)
    requires left > 0
    ensures
      var m := if left < 17 then left else 17;
      GapMessages(at, left) == [Message(Wrap16(at), Ones(m - 1))] + GapMessages(at + m, left - m)
  {
  }

  /** The inner loop: one message's worth of numbers from `pid` on. */
  method OneRequest(pid: u16, seqNo: u16) returns (nx: u16, blp: Mask)
    requires pid != seqNo
    ensures
      var left := Sub16(seqNo, pid);
      var m := if left < 17 then left else 17;
      blp == Ones(m - 1) && nx == Add16(pid, m) && Sub16(seqNo, nx) == left - m
  {
    blp := NO_BITS;
    nx := Add16(pid, 1);
    var b := 0;
    StepCloser(seqNo, pid);
    while b < 16 && nx != seqNo
      invariant 0 <= b <= 16 && blp == Ones(b)
      invariant nx == Add16(pid, b + 1) && Sub16(seqNo, nx) == Sub16(seqNo, pid) - (b + 1)
    {
      blp := blp[b := true];
      StepCloser(seqNo, nx);
      b := b + 1;
      nx := Add16(nx, 1);
    }
  }

  lemma {:induction false} OnesNames(pid: int, b: nat)
    requires b <= 16
    ensures ClearFrom(Ones(b), b)
    ensures Named(Message(Wrap16(pid), Ones(b))) == Consecutive(pid, b + 1)
  {
    var p := Wrap16(pid);
    if b == 0 {
      NoBitsNoNames(p, NO_BITS, 0);
      assert Consecutive(pid, 1) == [p];
    } else {
      OnesNames(pid, b - 1);
      SetBitNames(p, Ones(b - 1), 0, b - 1);
      ConsecutiveSplit(pid, b, 1);
      Assoc([p], NamedByBits(p, Ones(b - 1), 0), [Add16(p, b)]);
      Add16Wrap(pid, b);
      assert Consecutive(pid + b, 1) == [Wrap16(pid + b)];
    }
  }

  /** The messages for a gap name exactly the missing numbers, in order and each
      once, in ceil(gap / 17) messages, wherever the 16-bit wrap falls. */
  lemma {:induction false} GapMessagesExact(pid: int, left: nat)
    ensures AllNamed(GapMessages(pid, left)) == Consecutive(pid, left)
    ensures |GapMessages(pid, left)| == (left + 16) / 17
    decreases left
  {
    if left > 0 {
      var m := if left < 17 then left else 17;
      OnesNames(pid, m - 1);
      GapMessagesExact(pid + m, left - m);
      AllNamedCons(Message(Wrap16(pid), Ones(m - 1)), GapMessages(pid + m, left - m));
      ConsecutiveSplit(pid, m, left - m);
    }
  }

  lemma AllNamedCons(m: Message, ms: seq<Message>)
    ensures AllNamed([m] + ms) == Named(m) + AllNamed(ms)
  {
    assert ([m] + ms)[1..] == ms;
  }

  // ---- the repeat request ----------------------------------------------------

  /** What the repeat request knows of an incomplete frame. */
  datatype FrameView = FrameView(seqs: seq<u16>, markers: seq<bool>)
  {
    predicate Valid() { |seqs| == |markers| }
  }

  function LowestOf(seqs: seq<u16>): u16
    requires seqs != []
  {
    if |seqs| == 1 then seqs[0]
    else
      var lo := LowestOf(seqs[..|seqs| - 1]);
      var s := seqs[|seqs| - 1];
      if SeqBefore(s, lo) then s else lo
  }

  function HighestOf(seqs: seq<u16>): u16
    requires seqs != []
  {
    if |seqs| == 1 then seqs[0]
    else
      var hi := HighestOf(seqs[..|seqs| - 1]);
      var s := seqs[|seqs| - 1];
      if SeqAfter(s, hi) then s else hi
  }

  /** The last marked packet in arrival order. */
  function MarkerOf(seqs: seq<u16>, markers: seq<bool>): Option<u16>
    requires |seqs| == |markers|
  {
    if seqs == [] then None
    else if markers[|seqs| - 1] then Some(seqs[|seqs| - 1])
    else MarkerOf(seqs[..|seqs| - 1], markers[..|seqs| - 1])
  }

  /** Last number of the frame, as far as it is known. */
  function EndOf(v: FrameView): u16
    requires v.Valid() && v.seqs != []
  {
    match MarkerOf(v.seqs, v.markers)
    case Some(m) => m
    case None => Add16(HighestOf(v.seqs), 2)
  }

  /** The first `room` numbers among `s`, `s + 1`, ... (`left` of them) not held. */
  function MissingFrom(seqs: seq<u16>, s: u16, left: nat, room: nat): seq<u16>
    decreases left
  {
    if left == 0 || room == 0 then []
    else if s in seqs then MissingFrom(seqs, Add16(s, 1), left - 1, room)
    else [s] + MissingFrom(seqs, Add16(s, 1), left - 1, room - 1)
  }

  const REPEAT_LIMIT := 65

  /** How many numbers the frame spans, from its lowest packet to its end. */
  function SpanOf(v: FrameView): nat
    requires v.Valid() && v.seqs != []
  {
    Sub16(Add16(EndOf(v), 1), LowestOf(v.seqs))
  }

  function Missing(v: FrameView): seq<u16>
    requires v.Valid() && v.seqs != []
  {
    MissingFrom(v.seqs, LowestOf(v.seqs), SpanOf(v), REPEAT_LIMIT)
  }

  /** BLP for the numbers within 16 of `pid` from index `j` on, and where they end. */
  function Extend(missing: seq<u16>, pid: u16, blp: Mask, j: nat): (r: (Mask, nat))
    requires j <= |missing|
    ensures j <= r.1 <= |missing|
    decreases |missing| - j
  {
    if j == |missing| then (blp, j)
    else
      var d := Sub16(missing[j], pid);
      if d == 0 || d > 16 then (blp, j)
      else Extend(missing, pid, blp[d - 1 := true], j + 1)
  }

  function Pack(missing: seq<u16>, i: nat): seq<Message>
    requires i <= |missing|
    decreases |missing| - i
  {
    if i == |missing| then []
    else
      var (blp, j) := Extend(missing, missing[i], NO_BITS, i + 1);
      [Message(missing[i], blp)] + Pack(missing, j)
  }

  function Repeat(v: FrameView): seq<Message>
    requires v.Valid()
  {
    if v.seqs == [] then [] else Pack(Missing(v), 0)
  }

  /** renack_missing. */
  method RenackMissing(v: FrameView) returns (ms: seq<Message>)
    requires v.Valid()
    ensures ms == Repeat(v)
  {
    if v.seqs == [] { return []; }
    var lo, hi, marker := FindRange(v);
    var end := match marker case Some(m) => m case None => Add16(hi, 2);
    var missing := ListMissing(v.seqs, lo, end);
    ms := PackAll(missing);
  }

  /** The loop over the packets held: lowest, highest and the last marker. */
  method FindRange(v: FrameView) returns (lo: u16, hi: u16, marker: Option<u16>)
    requires v.Valid() && v.seqs != []
    ensures lo == LowestOf(v.seqs) && hi == HighestOf(v.seqs) && marker == MarkerOf(v.seqs, v.markers)
  {
    lo, hi, marker := v.seqs[0], v.seqs[0], None;
    for i := 0 to |v.seqs|
      invariant i == 0 ==> lo == hi == v.seqs[0]
      invariant i > 0 ==> lo == LowestOf(v.seqs[..i]) && hi == HighestOf(v.seqs[..i])
      invariant marker == MarkerOf(v.seqs[..i], v.markers[..i])
    {
      assert v.seqs[..i + 1][..i] == v.seqs[..i] && v.markers[..i + 1][..i] == v.markers[..i];
      var s := v.seqs[i];
      if SeqBefore(s, lo) { lo := s; }
      if SeqAfter(s, hi) { hi := s; }
      if v.markers[i] { marker := Some(s); }
    }
    assert v.seqs[..|v.seqs|] == v.seqs && v.markers[..|v.seqs|] == v.markers;
  }

  /** The loops that pack the missing numbers into messages. */
  method PackAll(missing: seq<u16>) returns (ms: seq<Message>)
    ensures ms == Pack(missing, 0)
  {
    ms := [];
    var i := 0;
    while i < |missing|
      invariant 0 <= i <= |missing|
      invariant ms + Pack(missing, i) == Pack(missing, 0)
      decreases |missing| - i
    {
      var blp, j := FillMask(missing, i);
      Assoc(ms, [Message(missing[i], blp)], Pack(missing, j));
      ms := ms + [Message(missing[i], blp)];
      i := j;
    }
  }

  method FillMask(missing: seq<u16>, i: nat) returns (blp: Mask, j: nat)
    requires i < |missing|
    ensures (blp, j) == Extend(missing, missing[i], NO_BITS, i + 1)
  {
    var pid := missing[i];
    blp, j := NO_BITS, i + 1;
    while j < |missing|
      invariant i < j <= |missing|
      invariant Extend(missing, pid, blp, j) == Extend(missing, pid, NO_BITS, i + 1)
    {
      var d := Sub16(missing[j], pid);
      if d == 0 || d > 16 { return; }
      blp := blp[d - 1 := true];
      j := j + 1;
    }
  }

  /** The scan from the lowest packet to the end, stopping past 64. */
  method ListMissing(seqs: seq<u16>, lo: u16, end: u16) returns (missing: seq<u16>)
    ensures missing == MissingFrom(seqs, lo, Sub16(Add16(end, 1), lo), REPEAT_LIMIT)
  {
    missing := [];
    var s := lo;
    var stop := Add16(end, 1);
    while s != stop
      invariant |missing| <= 64
      invariant missing + MissingFrom(seqs, s, Sub16(stop, s), REPEAT_LIMIT - |missing|)
             == MissingFrom(seqs, lo, Sub16(stop, lo), REPEAT_LIMIT)
      decreases Sub16(stop, s)
    {
      StepCloser(stop, s);
      ghost var rest := MissingFrom(seqs, Add16(s, 1), Sub16(stop, s) - 1, REPEAT_LIMIT - |missing| - 1);
      if s !in seqs {
        assert missing + ([s] + rest) == (missing + [s]) + rest;
        missing := missing + [s];
      }
      if |missing| > 64 { return; }
      s := Add16(s, 1);
    }
  }

  /** Numbers that grow when counted from `base`. */
  predicate AscendsFrom(missing: seq<u16>, base: u16)
  {
    forall i, j :: 0 <= i < j < |missing| ==> Sub16(missing[i], base) < Sub16(missing[j], base)
  }

  /** The same from index `i` on, neighbour by neighbour. */
  predicate Rising(missing: seq<u16>, base: u16, i: nat)
    decreases |missing| - i
  {
    i + 1 < |missing| ==>
      Sub16(missing[i], base) < Sub16(missing[i + 1], base) && Rising(missing, base, i + 1)
  }

  lemma {:induction false} AscendingRises(missing: seq<u16>, base: u16, i: nat)
    requires AscendsFrom(missing, base)
    ensures Rising(missing, base, i)
    decreases |missing| - i
  {
    if i + 1 < |missing| {
      AscendingRises(missing, base, i + 1);
    }
  }

  lemma OffsetDifference(a: u16, b: u16, base: u16)
    requires Sub16(b, base) < Sub16(a, base)
    ensures
      var d := Sub16(a, b);
      d == Sub16(a, base) - Sub16(b, base) && d > 0 && Add16(b, d) == a
  {
  }

  /** One more number in a message. */
  lemma NamesStep(missing: seq<u16>, pid: u16, blp: Mask, j: nat)
    requires j < |missing| && 0 < Sub16(missing[j], pid) <= 16
    requires Add16(pid, Sub16(missing[j], pid)) == missing[j]
    requires ClearFrom(blp, Sub16(missing[j], pid) - 1)
    ensures
      var next := blp[Sub16(missing[j], pid) - 1 := true];
      && NamedByBits(pid, next, 0) == NamedByBits(pid, blp, 0) + [missing[j]]
      && ClearFrom(next, Sub16(missing[j], pid))
  {
    SetBitNames(pid, blp, 0, Sub16(missing[j], pid) - 1);
  }

  lemma {:induction false} ExtendRises(missing: seq<u16>, base: u16, i: nat, blp: Mask, j: nat)
    requires i < j <= |missing| && Rising(missing, base, j - 1)
    ensures Rising(missing, base, Extend(missing, missing[i], blp, j).1 - 1)
    decreases |missing| - j
  {
    if j < |missing| {
      var d := Sub16(missing[j], missing[i]);
      if 0 < d <= 16 {
        ExtendRises(missing, base, i, blp[d - 1 := true], j + 1);
      }
    }
  }

  /** `last` is how far the number before index `j` is past the PID. */
  lemma {:induction false} ExtendNames(missing: seq<u16>, base: u16, i: nat, blp: Mask, j: nat, last: nat)
    requires i < j <= |missing| && Rising(missing, base, j - 1)
    requires last == Sub16(missing[j - 1], base) - Sub16(missing[i], base)
    requires ClearFrom(blp, last)
    ensures
      var r := Extend(missing, missing[i], blp, j);
      NamedByBits(missing[i], r.0, 0) == NamedByBits(missing[i], blp, 0) + missing[j..r.1]
    decreases |missing| - j
  {
    var pid := missing[i];
    EmptySlice(NamedByBits(pid, blp, 0), missing, j);
    if j < |missing| {
      var d := Sub16(missing[j], pid);
      RisingStep(missing, base, i, j, last);
      if d <= 16 {
        var next: Mask := blp[d - 1 := true];
        var r := Extend(missing, pid, next, j + 1);
        NamesStep(missing, pid, blp, j);
        ExtendNames(missing, base, i, next, j + 1, d);
        AppendSlice(NamedByBits(pid, blp, 0), NamedByBits(pid, next, 0), NamedByBits(pid, r.0, 0),
                    missing, j, r.1);
      }
    }
  }

  lemma RisingStep(missing: seq<u16>, base: u16, i: nat, j: nat, last: nat)
    requires i < j < |missing| && Rising(missing, base, j - 1)
    requires last == Sub16(missing[j - 1], base) - Sub16(missing[i], base)
    ensures
      var d := Sub16(missing[j], missing[i]);
      && d == Sub16(missing[j], base) - Sub16(missing[i], base) && d > last
      && Add16(missing[i], d) == missing[j] && Rising(missing, base, j)
  {
    OffsetDifference(missing[j], missing[i], base);
  }

  lemma PackOne(missing: seq<u16>, base: u16, i: nat)
    requires i < |missing| && Rising(missing, base, i)
    ensures
      var r := Extend(missing, missing[i], NO_BITS, i + 1);
      Named(Message(missing[i], r.0)) == missing[i..r.1] && Rising(missing, base, r.1 - 1)
  {
    var r := Extend(missing, missing[i], NO_BITS, i + 1);
    NoBitsNoNames(missing[i], NO_BITS, 0);
    ExtendNames(missing, base, i, NO_BITS, i + 1, 0);
    ExtendRises(missing, base, i, NO_BITS, i + 1);
    EmptySlice(NamedByBits(missing[i], NO_BITS, 0), missing, i + 1);
    SliceFirst(missing, i, r.1);
  }

  lemma {:induction false} PackExact(missing: seq<u16>, base: u16, i: nat)
    requires i <= |missing| && Rising(missing, base, i)
    ensures AllNamed(Pack(missing, i)) == missing[i..|missing|]
    decreases |missing| - i
  {
    if i < |missing| {
      PackOne(missing, base, i);
      var (blp, j) := Extend(missing, missing[i], NO_BITS, i + 1);
      PackExact(missing, base, j);
      AllNamedCons(Message(missing[i], blp), Pack(missing, j));
      SliceJoin(missing, i, j, |missing|);
    }
  }

  /** `m` lists numbers not held, ascending, among the `left` from `from` on; and every one
      of them up to the place where the room ran out. */
  predicate Lists(m: seq<u16>, seqs: seq<u16>, base: u16, from: nat, left: nat, room: nat)
  {
    && |m| <= room
    && AscendsFrom(m, base)
    && (forall q <- m :: q !in seqs && from <= Sub16(q, base) < from + left)
    && (forall q: u16 :: q !in seqs && from <= Sub16(q, base) < from + left && q !in m
          ==> |m| == room && forall p <- m :: Sub16(p, base) < Sub16(q, base))
  }

  lemma ListsNothing(seqs: seq<u16>, base: u16, from: nat, left: nat, room: nat)
    requires left == 0 || room == 0
    ensures Lists([], seqs, base, from, left, room)
  {
  }

  /** The number `s` at offset `from` is held and passed over. */
  lemma ListsSkip(m: seq<u16>, seqs: seq<u16>, base: u16, s: u16, left: nat, room: nat)
    requires s in seqs && left > 0
    requires Lists(m, seqs, base, Sub16(s, base) + 1, left - 1, room)
    ensures Lists(m, seqs, base, Sub16(s, base), left, room)
  {
    OneOffset(s, base);
  }

  /** Or it is not, and listed first. */
  lemma ListsCons(m: seq<u16>, seqs: seq<u16>, base: u16, s: u16, left: nat, room: nat)
    requires s !in seqs && left > 0 && room > 0
    requires Lists(m, seqs, base, Sub16(s, base) + 1, left - 1, room - 1)
    ensures Lists([s] + m, seqs, base, Sub16(s, base), left, room)
  {
    OneOffset(s, base);
    var all := [s] + m;
    assert forall q :: q in all <==> q == s || q in m;
    forall j | 0 <= j < |m| ensures Sub16(m[j], base) > Sub16(s, base) {
      assert m[j] in m;
    }
  }

  lemma OneOffset(s: u16, base: u16)
    ensures forall q: u16 :: Sub16(q, base) == Sub16(s, base) ==> q == s
  {
  }

  lemma NextOffset(s: u16, base: u16)
    requires Sub16(s, base) + 1 < TWO16
    ensures Sub16(Add16(s, 1), base) == Sub16(s, base) + 1
  {
  }

  lemma {:induction false} MissingFromIs(seqs: seq<u16>, base: u16, s: u16, left: nat, room: nat)
    requires left == 0 || Sub16(s, base) + left <= TWO16
    ensures Lists(MissingFrom(seqs, s, left, room), seqs, base, Sub16(s, base), left, room)
    decreases left
  {
    if left == 0 || room == 0 {
      ListsNothing(seqs, base, Sub16(s, base), left, room);
    } else {
      var m := MissingFrom(seqs, Add16(s, 1), left - 1, if s in seqs then room else room - 1);
      if left > 1 {
        NextOffset(s, base);
        MissingFromIs(seqs, base, Add16(s, 1), left - 1, if s in seqs then room else room - 1);
      } else {
        ListsNothing(seqs, base, Sub16(s, base) + 1, 0, if s in seqs then room else room - 1);
      }
      if s in seqs {
        ListsSkip(m, seqs, base, s, left, room);
      } else {
        ListsCons(m, seqs, base, s, left, room);
      }
    }
  }

  /** The repeat request names no packet that is held and nothing outside the frame;
      no number twice; and it leaves out a missing number of the frame only when it
      already names 65 lower ones. */
  lemma RepeatExact(v: FrameView)
    requires v.Valid() && v.seqs != []
    ensures Lists(AllNamed(Repeat(v)), v.seqs, LowestOf(v.seqs), 0, SpanOf(v), REPEAT_LIMIT)
  {
    var lo := LowestOf(v.seqs);
    MissingFromIs(v.seqs, lo, lo, SpanOf(v), REPEAT_LIMIT);
    AscendingRises(Missing(v), lo, 0);
    PackExact(Missing(v), lo, 0);
    assert Missing(v)[0..|Missing(v)|] == Missing(v);
  }

  /** `us[l]` and `us[h]` are the least and the greatest of `us`. */
  predicate Extremes(us: seq<int>, l: nat, h: nat)
  {
    l < |us| && h < |us| && forall i :: 0 <= i < |us| ==> us[l] <= us[i] <= us[h]
  }

  /** When the frame's true, unwrapped numbers lie within half the number space,
      the running minimum and maximum are the true ones. */
  lemma {:induction false} LowestHighest(seqs: seq<u16>, us: seq<int>) returns (l: nat, h: nat)
    requires |seqs| == |us| > 0
    requires forall i :: 0 <= i < |us| ==> seqs[i] == Wrap16(us[i])
    requires forall i, j :: 0 <= i < |us| && 0 <= j < |us| ==> us[i] - us[j] < 0x8000
    ensures Extremes(us, l, h)
    ensures LowestOf(seqs) == seqs[l] && HighestOf(seqs) == seqs[h]
  {
    var n := |us| - 1;
    if n == 0 {
      l, h := 0, 0;
    } else {
      var ss, vs := seqs[..n], us[..n];
      l, h := LowestHighest(ss, vs);
      assert forall i :: 0 <= i < n ==> us[i] == vs[i];
      SeqBeforeIsLess(us[n], us[l]);
      SeqAfterIsGreater(us[n], us[h]);
      if us[n] < us[l] { l := n; }
      if us[n] > us[h] { h := n; }
    }
  }

  /** For such a frame the repeat request covers exactly the true numbers from the
      lowest held to the marker, or to two past the highest when the marker itself
      is missing. */
  lemma SpanIsTrue(v: FrameView, us: seq<int>, m: nat) returns (l: nat, h: nat)
    requires v.Valid() && |v.seqs| == |us| > 0
    requires forall i :: 0 <= i < |us| ==> v.seqs[i] == Wrap16(us[i])
    requires forall i, j :: 0 <= i < |us| && 0 <= j < |us| ==> us[i] - us[j] < 0x8000
    requires m < |us| ==> v.markers[m] && forall i :: m < i < |us| ==> !v.markers[i]
    requires m >= |us| ==> forall i :: 0 <= i < |us| ==> !v.markers[i]
    ensures Extremes(us, l, h) && LowestOf(v.seqs) == Wrap16(us[l])
    ensures SpanOf(v) == (if m < |us| then us[m] else us[h] + 2) - us[l] + 1
  {
    l, h := LowestHighest(v.seqs, us);
    LastMarker(v.seqs, v.markers, m);
    Add16Wrap(us[h], 2);
    var end := if m < |us| then us[m] else us[h] + 2;
    assert EndOf(v) == Wrap16(end);
    SpanIs(v, end, us[l]);
    assert 0 <= end + 1 - us[l] < TWO16;
  }

  lemma SpanIs(v: FrameView, end: int, low: int)
    requires v.Valid() && v.seqs != [] && EndOf(v) == Wrap16(end) && LowestOf(v.seqs) == Wrap16(low)
    ensures SpanOf(v) == Wrap16(end + 1 - low)
  {
    Add16Wrap(end, 1);
    Sub16Wrap(end + 1, low);
  }

  lemma {:induction false} LastMarker(seqs: seq<u16>, markers: seq<bool>, m: nat)
    requires |seqs| == |markers|
    requires m < |seqs| ==> markers[m]
    requires forall i :: 0 <= i < |seqs| && (m >= |seqs| || m < i) ==> !markers[i]
    ensures MarkerOf(seqs, markers) == if m < |seqs| then Some(seqs[m]) else None
  {
    if seqs != [] && m != |seqs| - 1 {
      LastMarker(seqs[..|seqs| - 1], markers[..|seqs| - 1], m);
    }
  }
}
