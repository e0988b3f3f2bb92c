/** H.264 payloads in RTP: single NAL units, STAP-A and FU-A (RFC 6184 sections
    5.6, 5.7.1 and 5.8), turned into an Annex B byte stream. */
module H264 {
  import opened Serial

  const START_CODE: seq<byte> := [0, 0, 0, 1]

  function NalType(p: seq<byte>): nat { if p == [] then 0 else p[0] % 32 }

  /** May an access unit start with this payload? */
  predicate IsPartitionHead(p: seq<byte>)
  {
    var t := NalType(p);
    if t == 28 then |p| > 1 && p[1] >= 0x80 else 1 <= t <= 24
  }

  function Length16(hi: byte, lo: byte): nat { hi * 0x100 + lo }

  /** Annex B bytes of the units aggregated in a STAP-A payload, from offset `i`. */
  function StapUnits(p: seq<byte>, i: nat): seq<byte>
    decreases |p| - i
  {
    if i + 2 > |p| then []
    else
      var n := Length16(p[i], p[i + 1]);
      if n == 0 || i + 2 + n > |p| then []
      else START_CODE + p[i + 2..i + 2 + n] + StapUnits(p, i + 2 + n)
  }

  /** What one RTP payload contributes to the access unit. */
  function Depacketized(p: seq<byte>): seq<byte>
  {
    var t := NalType(p);
    if 1 <= t <= 23 then START_CODE + p
    else if t == 24 then StapUnits(p, 1)
    else if t == 28 && |p| >= 2 then
      if p[1] >= 0x80 then START_CODE + [p[0] / 32 * 32 + p[1] % 32] + p[2..] else p[2..]
    else []
  }

  /** Appends the payload to the access unit under construction. */
  method Depacketize(p: seq<byte>, au: seq<byte>) returns (out: seq<byte>)
    ensures out == au + Depacketized(p)
  {
    out := au;
    if p == [] { return; }
    var t := NalType(p);
    if 1 <= t <= 23 {
      out := out + START_CODE;
      out := out + p;
    } else if t == 24 {
      out := AppendStap(p, out);
    } else if t == 28 {
      if |p| < 2 { return; }
      if p[1] >= 0x80 {
        out := out + START_CODE;
        out := out + [p[0] / 32 * 32 + p[1] % 32];
      }
      out := out + p[2..];
    }
  }

  lemma StapStep(p: seq<byte>, i: nat, done: seq<byte>)
    requires i + 2 <= |p|
    requires var n := Length16(p[i], p[i + 1]); n != 0 && i + 2 + n <= |p|
    ensures
      var n := Length16(p[i], p[i + 1]);
      done + (START_CODE + p[i + 2..i + 2 + n]) + StapUnits(p, i + 2 + n) == done + StapUnits(p, i)
  {
    var n := Length16(p[i], p[i + 1]);
    Assoc(done, START_CODE + p[i + 2..i + 2 + n], StapUnits(p, i + 2 + n));
  }

  /** The STAP-A loop. */
  method AppendStap(p: seq<byte>, au: seq<byte>) returns (out: seq<byte>)
    ensures out == au + StapUnits(p, 1)
  {
    out := au;
    var i := 1;
    ghost var done := [];
    while i + 2 <= |p|
      invariant out == au + done
      invariant done + StapUnits(p, i) == StapUnits(p, 1)
      decreases |p| - i
    {
      var n := Length16(p[i], p[i + 1]);
      if n == 0 || i + 2 + n > |p| { break; }
      var nal := p[i + 2..i + 2 + n];
      StapStep(p, i, done);
      Assoc(au, done, START_CODE + nal);
      Assoc(out, START_CODE, nal);
      out := out + START_CODE;
      out := out + nal;
      done := done + (START_CODE + nal);
      i := i + 2 + n;
    }
    assert StapUnits(p, i) == [];
  }

  /** The bytes of a whole run of payloads. */
  function DepacketizedAll(ps: seq<seq<byte>>): seq<byte>
  {
    if ps == [] then [] else Depacketized(ps[0]) + DepacketizedAll(ps[1..])
  }

  lemma DepacketizedAllFirst(p: seq<byte>, rest: seq<seq<byte>>, all: seq<seq<byte>>)
    requires all != [] && all[0] == p && all[1..] == rest
    ensures DepacketizedAll(all) == Depacketized(p) + DepacketizedAll(rest)
  {
  }

  lemma AppendFirst<T>(ps: seq<T>, qs: seq<T>)
    requires ps != []
    ensures ps + qs != [] && (ps + qs)[0] == ps[0] && (ps + qs)[1..] == ps[1..] + qs
  {
  }

  lemma {:induction false} DepacketizedAllAppend(ps: seq<seq<byte>>, qs: seq<seq<byte>>)
    ensures DepacketizedAll(ps + qs) == DepacketizedAll(ps) + DepacketizedAll(qs)
  {
    if ps == [] {
      assert ps + qs == qs;
    } else {
      DepacketizedAllAppend(ps[1..], qs);
      AppendFirst(ps, qs);
      DepacketizedAllFirst(ps[0], ps[1..] + qs, ps + qs);
      Assoc(Depacketized(ps[0]), DepacketizedAll(ps[1..]), DepacketizedAll(qs));
    }
  }

  // ---- the sender -----------------------------------------------------------

  /** Annex B form of a list of NAL units. */
  function AnnexB(nals: seq<seq<byte>>): seq<byte>
  {
    if nals == [] then [] else START_CODE + nals[0] + AnnexB(nals[1..])
  }

  lemma {:induction false} AnnexBAppend(a: seq<seq<byte>>, b: seq<seq<byte>>)
    ensures AnnexB(a + b) == AnnexB(a) + AnnexB(b)
  {
    if a == [] {
      assert a + b == b;
    } else {
      AnnexBAppend(a[1..], b);
      AppendFirst(a, b);
      Assoc(START_CODE + a[0], AnnexB(a[1..]), AnnexB(b));
    }
  }

  function Concat(parts: seq<seq<byte>>): seq<byte>
  {
    if parts == [] then [] else parts[0] + Concat(parts[1..])
  }

  /** One way RFC 6184 lets a sender put NAL units into payloads.  `indicator` is
      the STAP-A octet (type 24, any F and NRI bits); `parts` are the pieces an
      FU-A cuts the NAL unit's body into. */
  datatype Packetization =
    | Single(nal: seq<byte>)
    | StapA(indicator: byte, nals: seq<seq<byte>>)
    | FuA(nal: seq<byte>, parts: seq<seq<byte>>)
  {
    predicate Valid() {
      match this
      case Single(nal) => 1 <= NalType(nal) <= 23
      case StapA(indicator, nals) =>
        indicator % 32 == 24 && forall n <- nals :: 0 < |n| < 0x1_0000
      case FuA(nal, parts) => nal != [] && |parts| >= 2 && Concat(parts) == nal[1..]
    }

    /** The NAL units carried. */
    function Nals(): seq<seq<byte>> {
      match this
      case Single(nal) => [nal]
      case StapA(_, nals) => nals
      case FuA(nal, _) => [nal]
    }

    /** The RTP payloads, in sequence-number order. */
    function Payloads(): seq<seq<byte>>
      requires Valid()
    {
      match this
      case Single(nal) => [nal]
      case StapA(indicator, nals) => [[indicator] + StapBody(nals)]
      case FuA(nal, parts) => FuPayloads(nal, parts, true)
    }
  }

  /** The size in front of an aggregated unit. */
  function SizeBytes(nal: seq<byte>): (b: seq<byte>)
    requires |nal| < 0x1_0000
    ensures |b| == 2
  {
    [|nal| / 0x100, |nal| % 0x100]
  }

  function StapBody(nals: seq<seq<byte>>): seq<byte>
    requires forall n <- nals :: 0 < |n| < 0x1_0000
  {
    if nals == [] then []
    else
      assert nals[0] in nals;
      SizeBytes(nals[0]) + nals[0] + StapBody(nals[1..])
  }

  /** One FU-A payload per part; S on the very first, E on the last. */
  function FuPayloads(nal: seq<byte>, parts: seq<seq<byte>>, first: bool): (ps: seq<seq<byte>>)
    requires nal != []
    ensures |ps| == |parts|
  {
    if parts == [] then []
    else
      [[nal[0] / 32 * 32 + 28,
        (if first then 128 else 0) + (if |parts| == 1 then 64 else 0) + nal[0] % 32] + parts[0]]
      + FuPayloads(nal, parts[1..], false)
  }

  function PlanPayloads(plan: seq<Packetization>): seq<seq<byte>>
    requires forall u <- plan :: u.Valid()
  {
    if plan == [] then [] else plan[0].Payloads() + PlanPayloads(plan[1..])
  }

  function PlanNals(plan: seq<Packetization>): seq<seq<byte>>
  {
    if plan == [] then [] else plan[0].Nals() + PlanNals(plan[1..])
  }

  // ---- round trip -----------------------------------------------------------

  /** The aggregation units of these NAL units lie in `p` from offset `i` to its end. */
  predicate StapAt(p: seq<byte>, i: nat, nals: seq<seq<byte>>)
    decreases nals
  {
    if nals == [] then i == |p|
    else
      var n := |nals[0]|;
      && 0 < n && i + 2 + n <= |p| && Length16(p[i], p[i + 1]) == n
      && p[i + 2..i + 2 + n] == nals[0] && StapAt(p, i + 2 + n, nals[1..])
  }

  lemma {:induction false} StapBodyAt(pre: seq<byte>, nals: seq<seq<byte>>, p: seq<byte>)
    requires forall n <- nals :: 0 < |n| < 0x1_0000
    requires p == pre + StapBody(nals)
    ensures StapAt(p, |pre|, nals)
    decreases nals
  {
    if nals == [] {
      assert StapBody(nals) == [];
    } else {
      var unit := SizeBytes(nals[0]) + nals[0];
      StapFirst(pre, nals, p);
      StapBodyAt(pre + unit, nals[1..], p);
      StapAtStep(p, |pre|, nals, |pre + unit|);
    }
  }

  lemma StapAtStep(p: seq<byte>, i: nat, nals: seq<seq<byte>>, next: nat)
    requires nals != [] && next == i + 2 + |nals[0]| <= |p|
    requires 0 < |nals[0]| == Length16(p[i], p[i + 1]) && p[i + 2..next] == nals[0]
    requires StapAt(p, next, nals[1..])
    ensures StapAt(p, i, nals)
  {
  }

  lemma StapFirst(pre: seq<byte>, nals: seq<seq<byte>>, p: seq<byte>)
    requires nals != [] && forall n <- nals :: 0 < |n| < 0x1_0000
    requires p == pre + StapBody(nals)
    ensures
      var i, n := |pre|, |nals[0]|;
      && 0 < n < 0x1_0000 && i + 2 + n <= |p| && Length16(p[i], p[i + 1]) == n && p[i + 2..i + 2 + n] == nals[0]
      && p == pre + (SizeBytes(nals[0]) + nals[0]) + StapBody(nals[1..])
  {
    assert nals[0] in nals;
    StapUnitAt(pre, nals[0], StapBody(nals[1..]), p);
    Assoc(pre, SizeBytes(nals[0]) + nals[0], StapBody(nals[1..]));
  }

  lemma StapUnitAt(pre: seq<byte>, nal: seq<byte>, rest: seq<byte>, p: seq<byte>)
    requires 0 < |nal| < 0x1_0000
    requires p == pre + (SizeBytes(nal) + nal + rest)
    ensures
      var i := |pre|;
      var n := |nal|;
      i + 2 + n <= |p| && Length16(p[i], p[i + 1]) == n && p[i + 2..i + 2 + n] == nal
  {
    var i, n, b := |pre|, |nal|, SizeBytes(nal) + nal + rest;
    assert p[i] == b[0] == n / 0x100 && p[i + 1] == b[1] == n % 0x100;
    assert p[i + 2..i + 2 + n] == b[2..2 + n] == nal;
  }

  lemma {:induction false} StapRoundTrip(p: seq<byte>, i: nat, nals: seq<seq<byte>>)
    requires StapAt(p, i, nals)
    ensures StapUnits(p, i) == AnnexB(nals)
    decreases nals
  {
    if nals != [] {
      StapRoundTrip(p, i + 2 + |nals[0]|, nals[1..]);
    }
  }

  /** On any payload: what comes out is the units that lie there up to the first size that is
      zero or reaches past the end. */
  lemma {:induction false} StapIs(p: seq<byte>, i: nat) returns (nals: seq<seq<byte>>, j: nat)
    requires i <= |p|
    ensures i <= j <= |p| && StapAt(p[..j], i, nals) && StapUnits(p, i) == AnnexB(nals)
    ensures j + 2 <= |p| ==>
      var size := p[j] as int * 256 + p[j + 1] as int;
      size == 0 || j + 2 + size > |p|
    decreases |p| - i
  {
    nals, j := [], i;
    if i + 2 <= |p| {
      var next := i + 2 + Length16(p[i], p[i + 1]);
      if i + 2 < next <= |p| {
        nals, j := StapIs(p, next);
        nals := [p[i + 2..next]] + nals;
        assert p[..j][i + 2..next] == nals[0];
        StapAtStep(p[..j], i, nals, next);
      }
    }
  }

  /** A payload that may start an access unit starts a NAL unit, unless it is a STAP-A with
      nothing in it; one that may not adds no start code, and nothing at all unless it
      is the rest of an FU-A. */
  lemma HeadsStartUnits(p: seq<byte>)
    ensures IsPartitionHead(p) ==>
      [0, 0, 0, 1] <= Depacketized(p) || (Depacketized(p) == [] && p[0] % 32 == 24)
    ensures !IsPartitionHead(p) ==>
      Depacketized(p) == if |p| >= 2 && p[0] % 32 == 28 then p[2..] else []
  {
  }

  lemma {:induction false} FuTail(nal: seq<byte>, parts: seq<seq<byte>>)
    requires nal != []
    ensures DepacketizedAll(FuPayloads(nal, parts, false)) == Concat(parts)
  {
    if parts != [] {
      var ps := FuPayloads(nal, parts, false);
      assert ps[1..] == FuPayloads(nal, parts[1..], false);
      assert ps[0][2..] == parts[0];
      assert Depacketized(ps[0]) == parts[0];
      FuTail(nal, parts[1..]);
    }
  }

  lemma DepacketizedOne(p: seq<byte>)
    ensures DepacketizedAll([p]) == Depacketized(p)
  {
    assert [p][1..] == [];
  }

  lemma AnnexBOne(nal: seq<byte>)
    ensures AnnexB([nal]) == START_CODE + nal
  {
    assert [nal][1..] == [];
  }

  lemma FuStart(indicator: byte, header: byte, nalHeader: byte, part: seq<byte>)
    requires indicator == nalHeader / 32 * 32 + 28
    requires header % 32 == nalHeader % 32 && header >= 0x80
    ensures Depacketized([indicator, header] + part) == START_CODE + [nalHeader] + part
  {
    var p := [indicator, header] + part;
    assert p[0] == indicator && p[1] == header && p[2..] == part;
    assert NalType(p) == 28;
    assert indicator / 32 * 32 + header % 32 == nalHeader;
  }

  lemma FuRoundTrip(nal: seq<byte>, parts: seq<seq<byte>>)
    requires FuA(nal, parts).Valid()
    ensures DepacketizedAll(FuPayloads(nal, parts, true)) == START_CODE + nal
  {
    var ps := FuPayloads(nal, parts, true);
    var d := Depacketized(ps[0]);
    var tail := Concat(parts[1..]);
    assert DepacketizedAll(ps) == d + tail by {
      assert ps[1..] == FuPayloads(nal, parts[1..], false);
      FuTail(nal, parts[1..]);
    }
    FuStart(nal[0] / 32 * 32 + 28, 128 + nal[0] % 32, nal[0], parts[0]);
    FuBytes(nal, parts[0], tail);
  }

  lemma FuBytes(nal: seq<byte>, part: seq<byte>, tail: seq<byte>)
    requires nal != [] && part + tail == nal[1..]
    ensures START_CODE + [nal[0]] + part + tail == START_CODE + nal
  {
    Assoc(START_CODE + [nal[0]], part, tail);
    Assoc(START_CODE, [nal[0]], nal[1..]);
  }

  lemma UnitRoundTrip(u: Packetization)
    requires u.Valid()
    ensures DepacketizedAll(u.Payloads()) == AnnexB(u.Nals())
  {
    match u
    case Single(nal) =>
      DepacketizedOne(nal);
      AnnexBOne(nal);
    case StapA(indicator, nals) =>
      var p := [indicator] + StapBody(nals);
      StapBodyAt([indicator], nals, p);
      StapRoundTrip(p, 1, nals);
      DepacketizedOne(p);
    case FuA(nal, parts) =>
      FuRoundTrip(nal, parts);
      AnnexBOne(nal);
  }

  /** Depacketizing what a sender packetized, in order, gives exactly a start code
      plus each NAL unit. */
  lemma {:induction false} PlanRoundTrip(plan: seq<Packetization>)
    requires forall u <- plan :: u.Valid()
    ensures DepacketizedAll(PlanPayloads(plan)) == AnnexB(PlanNals(plan))
  {
    if plan != [] {
      UnitRoundTrip(plan[0]);
      PlanRoundTrip(plan[1..]);
      DepacketizedAllAppend(plan[0].Payloads(), PlanPayloads(plan[1..]));
      AnnexBAppend(plan[0].Nals(), PlanNals(plan[1..]));
    }
  }

  // ---- which payloads are heads ----------------------------------------------

  lemma {:induction false} FuHeads(nal: seq<byte>, parts: seq<seq<byte>>, first: bool)
    requires nal != []
    ensures
      var ps := FuPayloads(nal, parts, first);
      forall i :: 0 <= i < |ps| ==> ps[i] != [] && (IsPartitionHead(ps[i]) <==> first && i == 0)
  {
    if parts != [] {
      var ps := FuPayloads(nal, parts, first);
      FuHeads(nal, parts[1..], false);
      assert NalType(ps[0]) == 28 && (ps[0][1] >= 0x80 <==> first);
      assert forall i :: 0 < i < |ps| ==> ps[i] == FuPayloads(nal, parts[1..], false)[i - 1];
    }
  }

  /** Within one packetization the first payload, and no other, is a head. */
  lemma UnitHeads(u: Packetization)
    requires u.Valid()
    ensures u.Payloads() != []
    ensures forall i :: 0 <= i < |u.Payloads()| ==>
      u.Payloads()[i] != [] && (IsPartitionHead(u.Payloads()[i]) <==> i == 0)
  {
    match u
    case FuA(nal, parts) =>
      FuHeads(nal, parts, true);
      assert u.Payloads() == FuPayloads(nal, parts, true);
    case Single(nal) =>
      assert u.Payloads() == [nal];
    case StapA(indicator, nals) =>
      assert |u.Payloads()| == 1 && NalType(u.Payloads()[0]) == 24;
  }

  /** Every payload of a plan is non-empty and the first is a head; it is the only
      one exactly when the plan is a single packetization. */
  lemma {:induction false} PlanHeads(plan: seq<Packetization>)
    requires plan != [] && forall u <- plan :: u.Valid()
    ensures
      var ps := PlanPayloads(plan);
      && ps != [] && (forall p <- ps :: p != [])
      && IsPartitionHead(ps[0])
      && ((forall i :: 0 < i < |ps| ==> !IsPartitionHead(ps[i])) <==> |plan| == 1)
  {
    var ps := PlanPayloads(plan);
    var k := |plan[0].Payloads()|;
    UnitHeads(plan[0]);
    if |plan| == 1 {
      assert ps == plan[0].Payloads();
    } else {
      PlanHeads(plan[1..]);
      assert ps[k] == PlanPayloads(plan[1..])[0];
    }
  }
}
