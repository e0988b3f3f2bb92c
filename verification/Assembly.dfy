/** Assembly of one frame: when are the packets held a complete access unit, and
    which bytes is it?  try_assemble of the video jitter buffer. */
module Assembly {
  import opened Serial
  import opened H264

  datatype Packet = Packet(seqNo: u16, marker: bool, payload: seq<byte>)

  const MAX_ACCESS_UNIT_BYTES := 2 * 1024 * 1024

  /** The first marked packet in arrival order. */
  function FirstMarker(ps: seq<Packet>): Option<u16>
  {
    if ps == [] then None
    else if ps[0].marker then Some(ps[0].seqNo)
    else FirstMarker(ps[1..])
  }

  /** How far before the marker a packet is. */
  function Distance(marker: u16, p: Packet): u16 { Sub16(marker, p.seqNo) }

  function Insert(p: Packet, s: seq<Packet>, marker: u16): (r: seq<Packet>)
    ensures |r| == |s| + 1
  {
    if s == [] then [p]
    else if Distance(marker, p) > Distance(marker, s[0]) then [p] + s
    else [s[0]] + Insert(p, s[1..], marker)
  }

  /** The packets by decreasing distance, as std::sort leaves them. */
  function Sorted(ps: seq<Packet>, marker: u16): (r: seq<Packet>)
    ensures |r| == |ps|
  {
    if ps == [] then [] else Insert(ps[0], Sorted(ps[1..], marker), marker)
  }

  predicate Contiguous(s: seq<Packet>)
  {
    |s| >= 2 ==> s[1].seqNo == Add16(s[0].seqNo, 1) && Contiguous(s[1..])
  }

  function Payloads(s: seq<Packet>): (r: seq<seq<byte>>)
    ensures |r| == |s|
  {
    if s == [] then [] else [s[0].payload] + Payloads(s[1..])
  }

  /** The access unit the packets of a frame make if the frame ends at `marker`. */
  function AssembleTo(ps: seq<Packet>, marker: u16): Option<seq<byte>>
    requires ps != []
  {
    var ordered := Sorted(ps, marker);
    if !IsPartitionHead(ordered[0].payload) || !Contiguous(ordered) then None
    else
      var au := DepacketizedAll(Payloads(ordered));
      if |au| > MAX_ACCESS_UNIT_BYTES then None else Some(au)
  }

  /** The access unit the packets of a frame make, if they make one. */
  function Assemble(ps: seq<Packet>): Option<seq<byte>>
  {
    match FirstMarker(ps)
    case None => None
    case Some(marker) => AssembleTo(ps, marker)
  }

  /** try_assemble; `std::sort` is taken at its word. */
  method TryAssemble(ps: seq<Packet>) returns (ok: bool, au: seq<byte>)
    ensures ok == Assemble(ps).Some?
    ensures ok ==> au == Assemble(ps).value
  {
    au := [];
    var marker := FindMarker(ps);
    if marker.None? { return false, au; }
    var ordered := Sorted(ps, marker.value);
    if !IsPartitionHead(ordered[0].payload) { return false, au; }
    var i := 1;
    while i < |ordered|
      invariant 1 <= i <= |ordered|
      invariant Contiguous(ordered) <==> Contiguous(ordered[i - 1..])
    {
      ghost var rest := ordered[i - 1..];
      assert rest[0] == ordered[i - 1] && rest[1] == ordered[i] && rest[1..] == ordered[i..];
      if ordered[i].seqNo != Add16(ordered[i - 1].seqNo, 1) { return false, au; }
      i := i + 1;
    }
    ok, au := AppendAll(ordered);
  }

  method FindMarker(ps: seq<Packet>) returns (m: Option<u16>)
    ensures m == FirstMarker(ps)
  {
    for i := 0 to |ps|
      invariant FirstMarker(ps) == FirstMarker(ps[i..])
    {
      assert ps[i..][0] == ps[i] && ps[i..][1..] == ps[i + 1..];
      if ps[i].marker { return Some(ps[i].seqNo); }
    }
    return None;
  }

  /** The loop that depacketizes under the size cap. */
  method AppendAll(ordered: seq<Packet>) returns (ok: bool, au: seq<byte>)
    ensures
      var all := DepacketizedAll(Payloads(ordered));
      (ok <==> |all| <= MAX_ACCESS_UNIT_BYTES) && (ok ==> au == all)
  {
    au := [];
    ghost var all := DepacketizedAll(Payloads(ordered));
    var i := 0;
    while i < |ordered|
      invariant 0 <= i <= |ordered| && |au| <= MAX_ACCESS_UNIT_BYTES
      invariant all == au + DepacketizedAll(Payloads(ordered[i..]))
    {
      var p := ordered[i].payload;
      ghost var rest := Payloads(ordered[i + 1..]);
      assert ordered[i..][0] == ordered[i] && ordered[i..][1..] == ordered[i + 1..];
      PayloadsCons(p, rest);
      Assoc(au, Depacketized(p), DepacketizedAll(rest));
      au := Depacketize(p, au);
      if |au| > MAX_ACCESS_UNIT_BYTES { return false, au; }
      i := i + 1;
    }
    assert ordered[i..] == [];
    return true, au;
  }

  lemma PayloadsCons(p: seq<byte>, rest: seq<seq<byte>>)
    ensures DepacketizedAll([p] + rest) == Depacketized(p) + DepacketizedAll(rest)
  {
    assert ([p] + rest)[1..] == rest;
  }

  // ---- what sorting gives ----------------------------------------------------------

  predicate DistinctNumbers(ps: seq<Packet>)
  {
    forall i, j :: 0 <= i < j < |ps| ==> ps[i].seqNo != ps[j].seqNo
  }

  predicate Descending(s: seq<Packet>, marker: u16)
  {
    |s| >= 2 ==> Distance(marker, s[0]) > Distance(marker, s[1]) && Descending(s[1..], marker)
  }

  lemma {:induction false} InsertIs(p: Packet, s: seq<Packet>, marker: u16)
    requires Descending(s, marker)
    requires forall q <- s :: q.seqNo != p.seqNo
    ensures Descending(Insert(p, s, marker), marker)
    ensures forall q :: q in Insert(p, s, marker) <==> q == p || q in s
  {
    if s != [] && Distance(marker, p) <= Distance(marker, s[0]) {
      assert s[0].seqNo != p.seqNo;
      InsertIs(p, s[1..], marker);
      var r := Insert(p, s, marker);
      assert r[1..] == Insert(p, s[1..], marker);
      assert forall q :: q in s <==> q == s[0] || q in s[1..];
    } else if s != [] {
      assert ([p] + s)[1..] == s;
    }
  }

  lemma {:induction false} SortedIs(ps: seq<Packet>, marker: u16)
    requires DistinctNumbers(ps)
    ensures Descending(Sorted(ps, marker), marker)
    ensures forall q :: q in Sorted(ps, marker) <==> q in ps
  {
    if ps != [] {
      SortedIs(ps[1..], marker);
      InsertIs(ps[0], Sorted(ps[1..], marker), marker);
      assert forall q :: q in ps <==> q == ps[0] || q in ps[1..];
    }
  }

  lemma {:induction false} DescendingBelow(s: seq<Packet>, marker: u16, q: Packet)
    requires Descending(s, marker) && s != [] && q in s[1..]
    ensures Distance(marker, q) < Distance(marker, s[0])
  {
    if q != s[1] {
      assert q in s[1..][1..];
      DescendingBelow(s[1..], marker, q);
    }
  }

  /** Two packet orders that descend and hold the same packets are the same. */
  lemma {:induction false} DescendingUnique(s: seq<Packet>, t: seq<Packet>, marker: u16)
    requires Descending(s, marker) && Descending(t, marker)
    requires forall q :: q in s <==> q in t
    ensures s == t
  {
    EmptyTogether(s, t);
    if s != [] {
      assert s[0] in t && t[0] in s;
      if s[0] != t[0] {
        assert s[0] in t[1..] && t[0] in s[1..];
        DescendingBelow(s, marker, t[0]);
        DescendingBelow(t, marker, s[0]);
      }
      forall q ensures q in s[1..] <==> q in t[1..] {
        if q in s[1..] { DescendingBelow(s, marker, q); assert q in t; }
        if q in t[1..] { DescendingBelow(t, marker, q); assert q in s; }
      }
      DescendingUnique(s[1..], t[1..], marker);
    }
  }

  // ---- when a frame is complete -------------------------------------------------------

  predicate Held(ps: seq<Packet>, q: u16)
  {
    exists p :: p in ps && p.seqNo == q
  }

  /** The packet held with number `q`. */
  function PacketOf(ps: seq<Packet>, q: u16): (p: Packet)
    requires Held(ps, q)
    ensures p in ps && p.seqNo == q
  {
    if ps[0].seqNo == q then ps[0]
    else
      assert Held(ps[1..], q);
      PacketOf(ps[1..], q)
  }

  lemma {:induction false} PacketOfUnique(ps: seq<Packet>, p: Packet)
    requires DistinctNumbers(ps) && p in ps
    ensures Held(ps, p.seqNo) && PacketOf(ps, p.seqNo) == p
  {
    if ps[0].seqNo == p.seqNo {
      var i :| 0 <= i < |ps| && ps[i] == p;
      assert i == 0;
    } else {
      assert p in ps[1..];
      PacketOfUnique(ps[1..], p);
    }
  }

  /** The `n` numbers ending at the marker are all held. */
  predicate RunHeld(ps: seq<Packet>, marker: u16, n: nat)
  {
    forall k: u16 :: k < n ==> Held(ps, Sub16(marker, k))
  }

  /** Payloads of the `n` numbers ending at the marker, in sequence order. */
  function RunPayloads(ps: seq<Packet>, marker: u16, n: nat): (r: seq<seq<byte>>)
    requires n <= TWO16 && RunHeld(ps, marker, n)
    ensures |r| == n
  {
    if n == 0 then []
    else [PacketOf(ps, Sub16(marker, n - 1)).payload] + RunPayloads(ps, marker, n - 1)
  }

  /** Distances n-1, ..., 1, 0. */
  predicate CountsDown(s: seq<Packet>, marker: u16)
  {
    s != [] ==> Distance(marker, s[0]) == |s| - 1 && CountsDown(s[1..], marker)
  }

  lemma {:induction false} DescendingBound(s: seq<Packet>, marker: u16)
    requires Descending(s, marker) && s != []
    ensures Distance(marker, s[0]) >= |s| - 1
  {
    if |s| >= 2 {
      DescendingBound(s[1..], marker);
    }
  }

  lemma DistinctBound(ps: seq<Packet>)
    requires DistinctNumbers(ps)
    ensures |ps| <= TWO16
  {
    if ps != [] {
      SortedIs(ps, 0);
      DescendingBound(Sorted(ps, 0), 0);
    }
  }

  /** Contiguous up to the marker means counting down to zero. */
  lemma {:induction false} ContiguousCountsDown(s: seq<Packet>, marker: u16)
    requires Descending(s, marker) && Contiguous(s)
    requires s != [] && exists p :: p in s && p.seqNo == marker
    ensures CountsDown(s, marker)
  {
    if |s| >= 2 {
      var p :| p in s && p.seqNo == marker;
      DescendingBound(s, marker);
      assert p in s[1..];
      ContiguousCountsDown(s[1..], marker);
    } else {
      assert s[0].seqNo == marker;
    }
  }

  lemma {:induction false} CountsDownContiguous(s: seq<Packet>, marker: u16)
    requires CountsDown(s, marker)
    ensures Contiguous(s)
  {
    if |s| >= 2 {
      CountsDownContiguous(s[1..], marker);
    }
  }

  /** `n` numbers up to the marker need at least `n` packets; with exactly `n` the
      packets are just those. */
  lemma {:induction false} RunCountsDown(s: seq<Packet>, marker: u16, n: nat)
    requires n <= TWO16 && Descending(s, marker) && RunHeld(s, marker, n)
    ensures |s| >= n
    ensures |s| == n ==> CountsDown(s, marker)
    decreases s
  {
    if n > 0 {
      assert Held(s, Sub16(marker, n - 1));
      var p := PacketOf(s, Sub16(marker, n - 1));
      assert Distance(marker, p) == n - 1;
      if s[0] != p { DescendingBelow(s, marker, p); }
      var m := if s[0] == p then n - 1 else n;
      forall k: u16 | k < m ensures Held(s[1..], Sub16(marker, k)) {
        assert Held(s, Sub16(marker, k));
        var q := PacketOf(s, Sub16(marker, k));
        assert Distance(marker, q) == k;
        assert q in s[1..];
      }
      RunCountsDown(s[1..], marker, m);
    }
  }

  lemma {:induction false} CountsDownRun(s: seq<Packet>, ps: seq<Packet>, marker: u16)
    requires CountsDown(s, marker) && DistinctNumbers(ps) && |s| <= TWO16
    requires forall q <- s :: q in ps
    ensures RunHeld(ps, marker, |s|)
    ensures Payloads(s) == RunPayloads(ps, marker, |s|)
    decreases s
  {
    if s != [] {
      CountsDownRun(s[1..], ps, marker);
      var n := |s|;
      assert s[0].seqNo == Sub16(marker, n - 1);
      PacketOfUnique(ps, s[0]);
      forall k: u16 | k < n ensures Held(ps, Sub16(marker, k)) {
        if k == n - 1 { assert s[0] in ps; } else { assert RunHeld(ps, marker, n - 1); }
      }
    }
  }

  lemma {:induction false} FirstMarkerHeld(ps: seq<Packet>)
    requires FirstMarker(ps).Some?
    ensures exists p :: p in ps && p.marker && p.seqNo == FirstMarker(ps).value
  {
    if ps[0].marker {
      assert ps[0] in ps;
    } else {
      FirstMarkerHeld(ps[1..]);
      var p :| p in ps[1..] && p.marker && p.seqNo == FirstMarker(ps[1..]).value;
      assert p in ps;
    }
  }

  /** The `n` packets of a frame are complete up to `marker` when they are exactly the `n`
      consecutive numbers that end at it (across the 16-bit wrap), the lowest starts a
      NAL unit, and the bytes fit the cap. */
  predicate CompleteTo(ps: seq<Packet>, marker: u16)
    requires |ps| <= TWO16
  {
    && ps != [] && RunHeld(ps, marker, |ps|)
    && IsPartitionHead(RunPayloads(ps, marker, |ps|)[0])
    && |DepacketizedAll(RunPayloads(ps, marker, |ps|))| <= 2097152
  }

  predicate Complete(ps: seq<Packet>)
    requires |ps| <= TWO16
  {
    FirstMarker(ps).Some? && CompleteTo(ps, FirstMarker(ps).value)
  }

  lemma AssembleToIff(ps: seq<Packet>, marker: u16)
    requires DistinctNumbers(ps) && Held(ps, marker)
    ensures |ps| <= TWO16
    ensures AssembleTo(ps, marker).Some? <==> CompleteTo(ps, marker)
    ensures CompleteTo(ps, marker) ==>
      AssembleTo(ps, marker).value == DepacketizedAll(RunPayloads(ps, marker, |ps|))
  {
    DistinctBound(ps);
    var s := Sorted(ps, marker);
    SortedIs(ps, marker);
    if Contiguous(s) {
      ContiguousCountsDown(s, marker);
    }
    if RunHeld(ps, marker, |ps|) {
      forall k: u16 | k < |s| ensures Held(s, Sub16(marker, k)) {
        assert Held(ps, Sub16(marker, k));
      }
      RunCountsDown(s, marker, |s|);
    }
    if CountsDown(s, marker) {
      CountsDownContiguous(s, marker);
      CountsDownRun(s, ps, marker);
    }
  }

  /** Assembly succeeds exactly on complete frames, and then the unit is the bytes of
      the packets in sequence-number order, whatever order they arrived in. */
  lemma AssembleIff(ps: seq<Packet>)
    requires DistinctNumbers(ps)
    ensures |ps| <= TWO16
    ensures Assemble(ps).Some? <==> Complete(ps)
    ensures Complete(ps) ==>
      Assemble(ps).value == DepacketizedAll(RunPayloads(ps, FirstMarker(ps).value, |ps|))
  {
    DistinctBound(ps);
    if FirstMarker(ps).Some? {
      FirstMarkerHeld(ps);
      AssembleToIff(ps, FirstMarker(ps).value);
    }
  }

  lemma {:induction false} CountsDownBelow(s: seq<Packet>, marker: u16, p: Packet)
    requires CountsDown(s, marker) && p in s
    ensures Distance(marker, p) < |s|
  {
    if p != s[0] {
      CountsDownBelow(s[1..], marker, p);
    }
  }

  /** A complete frame holds nothing beyond its run. */
  lemma CompleteToHoldsOnlyRun(ps: seq<Packet>, marker: u16, p: Packet)
    requires DistinctNumbers(ps) && Held(ps, marker) && AssembleTo(ps, marker).Some? && p in ps
    ensures Distance(marker, p) < |ps|
  {
    SortedIs(ps, marker);
    ContiguousCountsDown(Sorted(ps, marker), marker);
    CountsDownBelow(Sorted(ps, marker), marker, p);
  }

  lemma CompleteHoldsOnlyRun(ps: seq<Packet>, p: Packet)
    requires DistinctNumbers(ps) && Assemble(ps).Some? && p in ps
    ensures Distance(FirstMarker(ps).value, p) < |ps|
  {
    FirstMarkerHeld(ps);
    CompleteToHoldsOnlyRun(ps, FirstMarker(ps).value, p);
  }

  /** Distinct packets at most `n - 1` before the marker are at most `n`, and if every
      one of those numbers is held they are exactly `n`. */
  lemma RunSize(ps: seq<Packet>, marker: u16, n: nat)
    requires DistinctNumbers(ps) && 0 < n <= TWO16
    requires forall p <- ps :: Distance(marker, p) < n
    ensures |ps| <= n
    ensures RunHeld(ps, marker, n) ==> |ps| == n
  {
    var s := Sorted(ps, marker);
    SortedIs(ps, marker);
    if s != [] {
      DescendingBound(s, marker);
      assert s[0] in ps;
    }
    if RunHeld(ps, marker, n) {
      forall k: u16 | k < n ensures Held(s, Sub16(marker, k)) {
        assert Held(ps, Sub16(marker, k));
      }
      RunCountsDown(s, marker, n);
    }
  }

  // ---- arrival order ---------------------------------------------------------------------

  ghost predicate SamePackets(ps: seq<Packet>, qs: seq<Packet>)
  {
    DistinctNumbers(qs) && forall p :: p in ps <==> p in qs
  }

  /** For a given marker the order of arrival does not matter. */
  lemma SameSetTo(ps: seq<Packet>, qs: seq<Packet>, marker: u16)
    requires DistinctNumbers(ps) && SamePackets(ps, qs) && ps != []
    ensures qs != [] && AssembleTo(ps, marker) == AssembleTo(qs, marker)
  {
    EmptyTogether(ps, qs);
    SortedIs(ps, marker);
    SortedIs(qs, marker);
    DescendingUnique(Sorted(ps, marker), Sorted(qs, marker), marker);
  }

  /** At most one packet is marked. */
  ghost predicate OneMarked(ps: seq<Packet>)
  {
    forall p, q :: p in ps && q in ps && p.marker && q.marker ==> p == q
  }

  /** With a single marker the outcome depends only on which packets are held. */
  lemma SameSetSameUnit(ps: seq<Packet>, qs: seq<Packet>)
    requires DistinctNumbers(ps) && SamePackets(ps, qs) && OneMarked(ps)
    ensures Assemble(ps) == Assemble(qs)
  {
    if FirstMarker(ps).Some? { FirstMarkerHeld(ps); }
    if FirstMarker(qs).Some? { FirstMarkerHeld(qs); }
    forall p | p in ps && p.marker ensures FirstMarker(ps) == FirstMarker(qs) == Some(p.seqNo) {
      MarkerFound(ps, p);
      MarkerFound(qs, p);
    }
    assert FirstMarker(ps) == FirstMarker(qs);
    if FirstMarker(ps).Some? {
      SameSetTo(ps, qs, FirstMarker(ps).value);
    }
  }

  lemma {:induction false} MarkerFound(ps: seq<Packet>, p: Packet)
    requires p in ps && p.marker
    requires forall q :: q in ps && q.marker ==> q == p
    ensures FirstMarker(ps) == Some(p.seqNo)
  {
    if !ps[0].marker {
      assert p in ps[1..];
      MarkerFound(ps[1..], p);
    } else {
      assert ps[0] in ps;
    }
  }

  /** The same packets with `p` first. */
  function Without(ps: seq<Packet>, p: Packet): seq<Packet>
  {
    if ps == [] then [] else if ps[0] == p then ps[1..] else [ps[0]] + Without(ps[1..], p)
  }

  function Foremost(ps: seq<Packet>, p: Packet): seq<Packet> { [p] + Without(ps, p) }

  lemma {:induction false} WithoutIs(ps: seq<Packet>, p: Packet)
    requires DistinctNumbers(ps)
    ensures DistinctNumbers(Without(ps, p)) && forall q :: q in Without(ps, p) <==> q in ps && q != p
  {
    if ps != [] {
      assert forall q :: q in ps <==> q == ps[0] || q in ps[1..];
      if ps[0] != p {
        WithoutIs(ps[1..], p);
        var rest := Without(ps[1..], p);
        forall j | 0 <= j < |rest| ensures rest[j].seqNo != ps[0].seqNo {
          assert rest[j] in ps[1..];
        }
      }
    }
  }

  lemma ForemostIs(ps: seq<Packet>, p: Packet)
    requires DistinctNumbers(ps) && p in ps && p.marker
    ensures SamePackets(ps, Foremost(ps, p)) && FirstMarker(Foremost(ps, p)) == Some(p.seqNo)
    ensures Assemble(Foremost(ps, p)) == AssembleTo(ps, p.seqNo)
  {
    WithoutIs(ps, p);
    var rest := Without(ps, p);
    forall j | 0 <= j < |rest| ensures rest[j].seqNo != p.seqNo {
      assert rest[j] in ps;
      PacketOfUnique(ps, p);
      PacketOfUnique(ps, rest[j]);
    }
    SameSetTo(ps, Foremost(ps, p), p.seqNo);
  }

  /** Every order of arrival gives the same result. */
  ghost predicate OrderFree(ps: seq<Packet>)
  {
    forall qs :: SamePackets(ps, qs) ==> Assemble(qs) == Assemble(ps)
  }

  /** However many packets there are: every order gives the same exactly when it does not
      matter which of the marked packets the frame is taken to end at. */
  lemma OrderFreeIffAlike(ps: seq<Packet>)
    requires DistinctNumbers(ps)
    ensures OrderFree(ps) <==>
      forall p, q :: p in ps && q in ps && p.marker && q.marker ==>
        AssembleTo(ps, p.seqNo) == AssembleTo(ps, q.seqNo)
  {
    forall p | p in ps && p.marker
      ensures SamePackets(ps, Foremost(ps, p)) && Assemble(Foremost(ps, p)) == AssembleTo(ps, p.seqNo)
    {
      ForemostIs(ps, p);
    }
    forall qs | SamePackets(ps, qs) ensures EndsLike(ps, qs) && EndsLike(ps, ps) {
      EndsSomewhere(ps, qs);
      EndsSomewhere(ps, ps);
    }
  }

  /** In this order the frame is taken to end at one of its marked packets, if it has any. */
  ghost predicate EndsLike(ps: seq<Packet>, qs: seq<Packet>)
  {
    if exists p :: p in ps && p.marker
    then exists p :: p in ps && p.marker && Assemble(qs) == AssembleTo(ps, p.seqNo)
    else Assemble(qs) == None
  }

  lemma EndsSomewhere(ps: seq<Packet>, qs: seq<Packet>)
    requires DistinctNumbers(ps) && SamePackets(ps, qs)
    ensures EndsLike(ps, qs)
  {
    if FirstMarker(qs).Some? {
      FirstMarkerHeld(qs);
      var p :| p in qs && p.marker && p.seqNo == FirstMarker(qs).value;
      assert p in ps;
      SameSetTo(ps, qs, p.seqNo);
    } else if p :| p in ps && p.marker {
      NoMarkerNone(qs, p);
    }
  }

  lemma {:induction false} NoMarkerNone(qs: seq<Packet>, p: Packet)
    requires FirstMarker(qs) == None
    ensures p in qs ==> !p.marker
  {
    if qs != [] {
      NoMarkerNone(qs[1..], p);
    }
  }

  /** Two numbers cannot both end the same packets, unless those are all 65536. */
  lemma OneEnd(ps: seq<Packet>, a: Packet, b: Packet)
    requires DistinctNumbers(ps) && a in ps && b in ps && |ps| < TWO16
    requires AssembleTo(ps, a.seqNo).Some? && AssembleTo(ps, b.seqNo).Some?
    ensures a == b
  {
    if a != b {
      var d := Distance(a.seqNo, b);
      assert d != 0 by {
        PacketOfUnique(ps, a);
        PacketOfUnique(ps, b);
      }
      CompleteToHoldsOnlyRun(ps, a.seqNo, b);
      AssembleToIff(ps, b.seqNo);
      var k: u16 := |ps| - d;
      assert Held(ps, Sub16(b.seqNo, k));
      var p := PacketOf(ps, Sub16(b.seqNo, k));
      assert Distance(a.seqNo, p) == |ps|;
      CompleteToHoldsOnlyRun(ps, a.seqNo, p);
    }
  }

  /** The arrival order of a frame's packets is of no account exactly when at most one of
      them is marked, or none that is completes the frame. */
  lemma OrderFreeIff(ps: seq<Packet>)
    requires DistinctNumbers(ps) && |ps| < TWO16
    ensures OrderFree(ps) <==> OneMarked(ps) || forall p <- ps :: p.marker ==> !CompleteTo(ps, p.seqNo)
  {
    if OneMarked(ps) {
      forall qs | SamePackets(ps, qs) ensures Assemble(qs) == Assemble(ps) {
        SameSetSameUnit(ps, qs);
      }
    } else if p :| p in ps && p.marker && CompleteTo(ps, p.seqNo) {
      OrderMatters(ps, p);
    } else {
      forall qs | SamePackets(ps, qs) || qs == ps ensures Assemble(qs) == None {
        NoneCompletes(ps, qs);
      }
    }
  }

  lemma OrderMatters(ps: seq<Packet>, a: Packet)
    requires DistinctNumbers(ps) && |ps| < TWO16 && !OneMarked(ps)
    requires a in ps && a.marker && CompleteTo(ps, a.seqNo)
    ensures !OrderFree(ps)
  {
    var p, q :| p in ps && q in ps && p.marker && q.marker && p != q;
    var b := if p == a then q else p;
    AssembleToIff(ps, a.seqNo);
    if AssembleTo(ps, b.seqNo).Some? { OneEnd(ps, a, b); }
    ForemostIs(ps, a);
    ForemostIs(ps, b);
  }

  lemma NoneCompletes(ps: seq<Packet>, qs: seq<Packet>)
    requires DistinctNumbers(ps) && SamePackets(ps, qs) && |ps| < TWO16
    requires forall p <- ps :: p.marker ==> !CompleteTo(ps, p.seqNo)
    ensures Assemble(qs) == None
  {
    if FirstMarker(qs).Some? {
      FirstMarkerHeld(qs);
      var p :| p in qs && p.marker && p.seqNo == FirstMarker(qs).value;
      SameSetTo(ps, qs, p.seqNo);
      AssembleToIff(ps, p.seqNo);
    }
  }

  lemma SortedPair(p: Packet, q: Packet, marker: u16)
    ensures Sorted([p, q], marker)
         == if Distance(marker, p) > Distance(marker, q) then [p, q] else [q, p]
  {
    assert [p, q][1..] == [q] && [q][1..] == [];
    assert Sorted([q], marker) == [q];
    assert Insert(p, [], marker) == [p];
  }
}
