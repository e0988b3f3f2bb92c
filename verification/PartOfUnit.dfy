/** Some of the packets of a frame: given the payloads of a whole frame, numbered from a base
    on and the last one marked, which of its packets make an access unit, and which one? */
module PartOfUnit {
  import opened Serial
  import opened H264
  import opened Assembly

  /** The payloads of a frame, numbered from `base` on. */
  datatype Numbered = Numbered(payloads: seq<seq<byte>>, base: u16)
  {
    predicate Valid() { 0 < |payloads| <= TWO16 }

    function Last(): u16
      requires Valid()
    {
      Add16(base, |payloads| - 1)
    }

    /** The packet as the jitter buffer keeps it. */
    function Kept(i: nat): Packet
      requires i < |payloads| <= TWO16
    {
      Packet(Add16(base, i), i == |payloads| - 1, payloads[i])
    }

    function KeptAll(ks: seq<nat>): (ps: seq<Packet>)
      requires |payloads| <= TWO16 && InRange(ks, |payloads|)
      ensures |ps| == |ks| && forall j :: 0 <= j < |ks| ==> ps[j] == Kept(ks[j])
    {
      seq(|ks|, j requires 0 <= j < |ks| => Kept(ks[j]))
    }
  }

  predicate InRange(ks: seq<nat>, n: nat)
  {
    forall j :: 0 <= j < |ks| ==> ks[j] < n
  }

  lemma IndexDistance(base: u16, i: u16, last: u16)
    requires i <= last
    ensures Sub16(Add16(base, last), Add16(base, i)) == last - i
    ensures Sub16(Add16(base, last), last - i) == Add16(base, i)
  {
  }

  /** Exactly the packets from index `c` to the marker. */
  ghost predicate SuffixFrom(ks: seq<nat>, c: nat, n: nat)
  {
    c < n && forall i: nat :: i in ks <==> c <= i < n
  }

  lemma KeptDistances(f: Numbered, ks: seq<nat>)
    requires f.Valid() && Distinct(ks) && InRange(ks, |f.payloads|)
    ensures DistinctNumbers(f.KeptAll(ks))
    ensures forall p <- f.KeptAll(ks) :: Distance(f.Last(), p) < |f.payloads|
  {
    var ps := f.KeptAll(ks);
    forall j | 0 <= j < |ks| ensures Distance(f.Last(), ps[j]) == |f.payloads| - 1 - ks[j] {
      IndexDistance(f.base, ks[j], |f.payloads| - 1);
    }
  }

  lemma KeptMarker(f: Numbered, ks: seq<nat>)
    requires f.Valid() && Distinct(ks) && InRange(ks, |f.payloads|)
    ensures FirstMarker(f.KeptAll(ks)).Some? <==> |f.payloads| - 1 in ks
    ensures FirstMarker(f.KeptAll(ks)).Some? ==> FirstMarker(f.KeptAll(ks)).value == f.Last()
  {
    var ps := f.KeptAll(ks);
    if FirstMarker(ps).Some? {
      FirstMarkerHeld(ps);
    }
    if |f.payloads| - 1 in ks {
      var j :| 0 <= j < |ks| && ks[j] == |f.payloads| - 1;
      assert ps[j] in ps;
      MarkerFound(ps, ps[j]);
    }
  }

  lemma KeptFacts(f: Numbered, ks: seq<nat>)
    requires f.Valid() && Distinct(ks) && InRange(ks, |f.payloads|)
    ensures DistinctNumbers(f.KeptAll(ks)) && |ks| <= |f.payloads|
    ensures forall p <- f.KeptAll(ks) :: Distance(f.Last(), p) < |f.payloads|
    ensures FirstMarker(f.KeptAll(ks)).Some? <==> |f.payloads| - 1 in ks
    ensures FirstMarker(f.KeptAll(ks)).Some? ==> FirstMarker(f.KeptAll(ks)).value == f.Last()
  {
    KeptDistances(f, ks);
    KeptMarker(f, ks);
    RunSize(f.KeptAll(ks), f.Last(), |f.payloads|);
  }

  lemma HeldIff(f: Numbered, ks: seq<nat>, i: nat)
    requires f.Valid() && InRange(ks, |f.payloads|) && i < |f.payloads|
    ensures Held(f.KeptAll(ks), Add16(f.base, i)) <==> i in ks
  {
    var ps := f.KeptAll(ks);
    if i in ks {
      var j :| 0 <= j < |ks| && ks[j] == i;
      assert ps[j] in ps;
    }
    if Held(ps, Add16(f.base, i)) {
      var j := HeldAt(ps, Add16(f.base, i));
      SameNumber(f.base, ks[j], i);
    }
  }

  lemma HeldAt(ps: seq<Packet>, q: u16) returns (j: nat)
    requires Held(ps, q)
    ensures j < |ps| && ps[j].seqNo == q
  {
    var p := PacketOf(ps, q);
    j :| 0 <= j < |ps| && ps[j] == p;
  }

  lemma SameNumber(base: u16, i: u16, j: u16)
    requires Add16(base, i) == Add16(base, j)
    ensures i == j
  {
  }

  lemma KeptPacket(f: Numbered, ks: seq<nat>, i: nat)
    requires f.Valid() && Distinct(ks) && InRange(ks, |f.payloads|) && i in ks
    ensures Held(f.KeptAll(ks), Add16(f.base, i))
    ensures PacketOf(f.KeptAll(ks), Add16(f.base, i)) == f.Kept(i)
  {
    var ps := f.KeptAll(ks);
    var j :| 0 <= j < |ks| && ks[j] == i;
    KeptFacts(f, ks);
    PacketOfUnique(ps, ps[j]);
  }

  lemma {:induction false} SuffixPayloads(f: Numbered, ks: seq<nat>, m: nat)
    requires f.Valid() && Distinct(ks) && InRange(ks, |f.payloads|)
    requires m <= |f.payloads| && RunHeld(f.KeptAll(ks), f.Last(), m)
    ensures RunPayloads(f.KeptAll(ks), f.Last(), m) == f.payloads[|f.payloads| - m..]
    decreases m
  {
    if m > 0 {
      RunFirst(f, ks, m);
      SuffixPayloads(f, ks, m - 1);
      SliceTail(f.payloads, |f.payloads| - m);
    }
  }

  lemma RunFirst(f: Numbered, ks: seq<nat>, m: nat)
    requires f.Valid() && Distinct(ks) && InRange(ks, |f.payloads|)
    requires 0 < m <= |f.payloads| && Held(f.KeptAll(ks), Sub16(f.Last(), m - 1))
    ensures PacketOf(f.KeptAll(ks), Sub16(f.Last(), m - 1)).payload == f.payloads[|f.payloads| - m]
  {
    var i := |f.payloads| - m;
    IndexDistance(f.base, i, |f.payloads| - 1);
    HeldIff(f, ks, i);
    KeptPacket(f, ks, i);
  }

  lemma RunIsSuffix(f: Numbered, ks: seq<nat>, m: nat)
    requires f.Valid() && Distinct(ks) && InRange(ks, |f.payloads|)
    requires 0 < m <= |f.payloads|
    ensures RunHeld(f.KeptAll(ks), f.Last(), m) <==> forall i: nat :: |f.payloads| - m <= i < |f.payloads| ==> i in ks
  {
    var ps := f.KeptAll(ks);
    var n := |f.payloads|;
    forall i: nat | n - m <= i < n ensures Held(ps, Sub16(f.Last(), n - 1 - i)) <==> i in ks {
      IndexDistance(f.base, i, n - 1);
      HeldIff(f, ks, i);
    }
    if forall i: nat :: n - m <= i < n ==> i in ks {
      forall k: u16 | k < m ensures Held(ps, Sub16(f.Last(), k)) {
        assert n - 1 - k in ks;
        IndexDistance(f.base, n - 1 - k, n - 1);
        HeldIff(f, ks, n - 1 - k);
      }
    }
  }

  lemma HeadOfRun(f: Numbered, ks: seq<nat>, m: nat)
    requires f.Valid() && Distinct(ks) && InRange(ks, |f.payloads|)
    requires 0 < m <= |f.payloads| && RunHeld(f.KeptAll(ks), f.Last(), m)
    requires IsPartitionHead(RunPayloads(f.KeptAll(ks), f.Last(), m)[0])
    ensures IsPartitionHead(f.payloads[|f.payloads| - m])
  {
    SuffixPayloads(f, ks, m);
    HeadOfSuffix(RunPayloads(f.KeptAll(ks), f.Last(), m), f.payloads, |f.payloads| - m);
  }

  lemma HeadOfSuffix(run: seq<seq<byte>>, payloads: seq<seq<byte>>, c: nat)
    requires c < |payloads| && run == payloads[c..] && IsPartitionHead(run[0])
    ensures IsPartitionHead(payloads[c])
  {
  }

  lemma BytesOfRun(f: Numbered, ks: seq<nat>, m: nat)
    requires f.Valid() && Distinct(ks) && InRange(ks, |f.payloads|)
    requires 0 < m <= |f.payloads| && RunHeld(f.KeptAll(ks), f.Last(), m)
    ensures DepacketizedAll(RunPayloads(f.KeptAll(ks), f.Last(), m))
         == DepacketizedAll(f.payloads[|f.payloads| - m..])
  {
    SuffixPayloads(f, ks, m);
  }

  /** What is assembled is a run that ends at the marker. */
  lemma AssembledIsRun(f: Numbered, ks: seq<nat>)
    requires f.Valid() && Distinct(ks) && InRange(ks, |f.payloads|)
    requires Assemble(f.KeptAll(ks)).Some?
    ensures 0 < |ks| <= |f.payloads| && RunHeld(f.KeptAll(ks), f.Last(), |ks|)
    ensures IsPartitionHead(RunPayloads(f.KeptAll(ks), f.Last(), |ks|)[0])
  {
    KeptFacts(f, ks);
    AssembleIff(f.KeptAll(ks));
  }

  lemma AssembledBytes(f: Numbered, ks: seq<nat>)
    requires f.Valid() && Distinct(ks) && InRange(ks, |f.payloads|)
    requires Assemble(f.KeptAll(ks)).Some?
    ensures |ks| <= |f.payloads|
    ensures Assemble(f.KeptAll(ks)).value == DepacketizedAll(f.payloads[|f.payloads| - |ks|..])
  {
    KeptFacts(f, ks);
    AssembleIff(f.KeptAll(ks));
    BytesOfRun(f, ks, |ks|);
  }

  lemma AssembledIsSuffix(f: Numbered, ks: seq<nat>)
    requires f.Valid() && Distinct(ks) && InRange(ks, |f.payloads|)
    requires Assemble(f.KeptAll(ks)).Some?
    ensures 0 < |ks| <= |f.payloads|
    ensures
      var c := |f.payloads| - |ks|;
      SuffixFrom(ks, c, |f.payloads|) && IsPartitionHead(f.payloads[c])
  {
    AssembledIsRun(f, ks);
    AssembledAreLast(f, ks);
    HeadOfRun(f, ks, |ks|);
  }

  lemma AssembledAreLast(f: Numbered, ks: seq<nat>)
    requires f.Valid() && Distinct(ks) && InRange(ks, |f.payloads|)
    requires Assemble(f.KeptAll(ks)).Some? && 0 < |ks| <= |f.payloads|
    requires RunHeld(f.KeptAll(ks), f.Last(), |ks|)
    ensures SuffixFrom(ks, |f.payloads| - |ks|, |f.payloads|)
  {
    var ps := f.KeptAll(ks);
    KeptFacts(f, ks);
    RunIsSuffix(f, ks, |ks|);
    forall i: nat | i in ks ensures |f.payloads| - |ks| <= i < |f.payloads| {
      var j :| 0 <= j < |ks| && ks[j] == i;
      CompleteHoldsOnlyRun(ps, ps[j]);
      IndexDistance(f.base, i, |f.payloads| - 1);
    }
  }

  lemma SuffixAssembles(f: Numbered, ks: seq<nat>, c: nat)
    requires f.Valid() && Distinct(ks) && InRange(ks, |f.payloads|)
    requires SuffixFrom(ks, c, |f.payloads|) && IsPartitionHead(f.payloads[c])
    requires |DepacketizedAll(f.payloads[c..])| <= MAX_ACCESS_UNIT_BYTES
    ensures Assemble(f.KeptAll(ks)) == Some(DepacketizedAll(f.payloads[c..]))
  {
    var ps := f.KeptAll(ks);
    var m := |f.payloads| - c;
    KeptFacts(f, ks);
    RunIsSuffix(f, ks, m);
    forall j | 0 <= j < |ks| ensures Distance(f.Last(), ps[j]) < m {
      assert ks[j] in ks;
      IndexDistance(f.base, ks[j], |f.payloads| - 1);
    }
    assert forall p <- ps :: Distance(f.Last(), p) < m;
    RunSize(ps, f.Last(), m);
    SuffixPayloads(f, ks, m);
    AssembleIff(ps);
  }

  /** The packets are a run up to the marker that starts with a head, within the cap. */
  ghost predicate Usable(f: Numbered, ks: seq<nat>, c: nat)
    requires f.Valid()
  {
    && SuffixFrom(ks, c, |f.payloads|) && IsPartitionHead(f.payloads[c])
    && |DepacketizedAll(f.payloads[c..])| <= MAX_ACCESS_UNIT_BYTES
  }

  /** What the buffer makes of some of the packets of a unit: it assembles them exactly
      when they are usable, so a unit can come out without its leading packets; and
      then the bytes are those of the run. */
  lemma PartialIff(f: Numbered, ks: seq<nat>)
    requires f.Valid() && Distinct(ks) && InRange(ks, |f.payloads|)
    ensures Assemble(f.KeptAll(ks)).Some? <==> exists c: nat :: Usable(f, ks, c)
    ensures forall c: nat :: Usable(f, ks, c) ==>
      Assemble(f.KeptAll(ks)) == Some(DepacketizedAll(f.payloads[c..]))
  {
    if Assemble(f.KeptAll(ks)).Some? {
      AssembledIsSuffix(f, ks);
      AssembledBytes(f, ks);
      AssembledFits(f.KeptAll(ks));
      assert Usable(f, ks, |f.payloads| - |ks|);
    }
    forall c: nat | Usable(f, ks, c)
      ensures Assemble(f.KeptAll(ks)) == Some(DepacketizedAll(f.payloads[c..]))
    {
      SuffixAssembles(f, ks, c);
    }
  }

  lemma AssembledFits(ps: seq<Packet>)
    requires Assemble(ps).Some?
    ensures |Assemble(ps).value| <= MAX_ACCESS_UNIT_BYTES
  {
  }
}
