/** The three independent scans of an access unit for an IDR slice: has_keyframe
    in the jitter buffer (four-byte start codes, no skipping), au_info in the
    decode pipeline and au_has_idr in the replay feeder (three-byte start codes,
    skipping what they matched). */
module IdrScan {
  import opened Serial
  import opened H264

  /** has_keyframe's test at one offset. */
  predicate KeyframeAt(au: seq<byte>, i: nat)
  {
    i + 4 < |au| && au[i] == 0 && au[i + 1] == 0 && au[i + 2] == 0 && au[i + 3] == 1
    && au[i + 4] % 32 == 5
  }

  predicate HasKeyframe(au: seq<byte>)
  {
    exists i :: 0 <= i < |au| && KeyframeAt(au, i)
  }

  method FindKeyframe(au: seq<byte>) returns (found: bool)
    ensures found == HasKeyframe(au)
  {
    var i := 0;
    while i + 4 < |au|
      invariant forall j :: 0 <= j < i ==> !KeyframeAt(au, j)
    {
      if au[i] == 0 && au[i + 1] == 0 && au[i + 2] == 0 && au[i + 3] == 1 {
        if au[i + 4] % 32 == 5 {
          assert KeyframeAt(au, i);
          return true;
        }
      }
      i := i + 1;
    }
    return false;
  }

  predicate ShortStartCodeAt(p: seq<byte>, k: nat)
  {
    k + 3 < |p| && p[k] == 0 && p[k + 1] == 0 && p[k + 2] == 1
  }

  predicate IsSlice(header: byte) { header % 32 == 1 || header % 32 == 5 }

  /** Slices counted by au_info from offset `k` on. */
  function Slices(p: seq<byte>, k: nat): nat
    decreases |p| - k
  {
    if k + 3 >= |p| then 0
    else if ShortStartCodeAt(p, k) then (if IsSlice(p[k + 3]) then 1 else 0) + Slices(p, k + 4)
    else Slices(p, k + 1)
  }

  /** Does au_info see an IDR from offset `k` on? */
  predicate SeesIdr(p: seq<byte>, k: nat)
    decreases |p| - k
  {
    if k + 3 >= |p| then false
    else if ShortStartCodeAt(p, k) then p[k + 3] % 32 == 5 || SeesIdr(p, k + 4)
    else SeesIdr(p, k + 1)
  }

  method AuInfo(p: seq<byte>) returns (vcl: nat, idr: bool)
    ensures vcl == Slices(p, 0) && idr == SeesIdr(p, 0)
  {
    vcl, idr := 0, false;
    var k := 0;
    while k + 3 < |p|
      invariant vcl + Slices(p, k) == Slices(p, 0)
      invariant idr || SeesIdr(p, k) <==> SeesIdr(p, 0)
      decreases |p| - k
    {
      if p[k] == 0 && p[k + 1] == 0 && p[k + 2] == 1 {
        var t := p[k + 3] % 32;
        if t == 1 || t == 5 { vcl := vcl + 1; }
        if t == 5 { idr := true; }
        k := k + 3;
      }
      k := k + 1;
    }
  }

  method AuHasIdr(au: seq<byte>) returns (found: bool)
    ensures found == SeesIdr(au, 0)
  {
    var k := 0;
    while k + 3 < |au|
      invariant SeesIdr(au, k) == SeesIdr(au, 0)
      decreases |au| - k
    {
      if au[k] == 0 && au[k + 1] == 0 && au[k + 2] == 1 {
        if au[k + 3] % 32 == 5 { return true; }
        k := k + 3;
      }
      k := k + 1;
    }
    return false;
  }

  // ---- on any bytes ----------------------------------------------------------

  /** Whatever passes the gate is seen as an IDR downstream, on any bytes at all: a
      four-byte start code ends in a three-byte one, which the skipping cannot miss. */
  lemma KeyframeIsSeen(p: seq<byte>)
    ensures HasKeyframe(p) ==> SeesIdr(p, 0)
  {
    if i :| 0 <= i < |p| && KeyframeAt(p, i) {
      KeyframeSeenFrom(p, i, 0);
    }
  }

  lemma {:induction false} KeyframeSeenFrom(p: seq<byte>, i: nat, k: nat)
    requires KeyframeAt(p, i) && k <= i + 1
    ensures SeesIdr(p, k)
    decreases i + 1 - k
  {
    if k <= i {
      var next := if ShortStartCodeAt(p, k) then k + 4 else k + 1;
      assert next <= i + 1;
      KeyframeSeenFrom(p, i, next);
    }
  }

  // ---- what the NAL units say ------------------------------------------------

  /** Some NAL unit is an IDR slice. */
  predicate HasIdrSlice(nals: seq<seq<byte>>)
  {
    exists n :: n in nals && NalType(n) == 5
  }

  /** The body of some unit holds a whole four-byte start code and IDR header. */
  predicate EmulatesLong(nals: seq<seq<byte>>)
  {
    exists n :: n in nals && HasKeyframe(n)
  }

  /** The body of some unit is itself scanned as holding an IDR. */
  predicate EmulatesShort(nals: seq<seq<byte>>)
    requires AllNonEmpty(nals)
  {
    exists n :: n in nals && SeesIdr(n[1..], 0)
  }

  predicate AllNonEmpty(nals: seq<seq<byte>>)
  {
    forall n <- nals :: n != []
  }

  /** Slices a scan counts: each unit's own, and whatever its body looks like. */
  function ScanCount(nals: seq<seq<byte>>): nat
    requires AllNonEmpty(nals)
  {
    if nals == [] then 0
    else
      assert nals[0] in nals && forall n :: n in nals[1..] ==> n in nals;
      (if NalType(nals[0]) == 1 || NalType(nals[0]) == 5 then 1 else 0)
      + Slices(nals[0][1..], 0) + ScanCount(nals[1..])
  }

  lemma SplitFirst(nals: seq<seq<byte>>)
    requires nals != [] && AllNonEmpty(nals)
    ensures nals[0] != [] && AllNonEmpty(nals[1..])
    ensures HasIdrSlice(nals) <==> NalType(nals[0]) == 5 || HasIdrSlice(nals[1..])
    ensures EmulatesLong(nals) <==> HasKeyframe(nals[0]) || EmulatesLong(nals[1..])
    ensures EmulatesShort(nals) <==> SeesIdr(nals[0][1..], 0) || EmulatesShort(nals[1..])
  {
    assert nals[0] in nals && forall n :: n in nals <==> n == nals[0] || n in nals[1..];
  }

  // ---- the three-byte scans --------------------------------------------------

  /** These bytes lie in `p` from offset `k` on. */
  predicate At(p: seq<byte>, k: nat, s: seq<byte>)
  {
    k + |s| <= |p| && forall j :: 0 <= j < |s| ==> p[k + j] == s[j]
  }

  /** A unit's body ends at `e`: there the file ends, or a start code begins. */
  predicate Boundary(p: seq<byte>, e: nat)
  {
    e == |p| || (e + 3 < |p| && p[e] == 0 && p[e + 1] == 0 && p[e + 2] == 0 && p[e + 3] == 1)
  }

  /** Two scans that see the same from here on. */
  predicate SameFrom(p: seq<byte>, x: nat, y: nat)
  {
    Slices(p, x) == Slices(p, y) && SeesIdr(p, x) == SeesIdr(p, y)
  }

  /** The last three bytes of a body hide nothing: even if a start code cut off by the end
      of the body makes the scan skip the first byte of the next one, that one is found. */
  lemma {:induction false} ScanIntoBoundary(p: seq<byte>, x: nat, e: nat)
    requires Boundary(p, e) && x <= e <= x + 3
    ensures SameFrom(p, x, e)
    decreases e - x
  {
    if x < e < |p| {
      if ShortStartCodeAt(p, x) {
        assert e == x + 3;
        assert !ShortStartCodeAt(p, e);
      } else {
        ScanIntoBoundary(p, x + 1, e);
      }
    }
  }

  /** A scan of `p` from `x` on gives what a scan of `q` from `y` on gives, and then what a
      scan of `p` from `e` on gives. */
  predicate ScansAs(p: seq<byte>, x: nat, q: seq<byte>, y: nat, e: nat)
  {
    && Slices(p, x) == Slices(q, y) + Slices(p, e)
    && (SeesIdr(p, x) <==> SeesIdr(q, y) || SeesIdr(p, e))
  }

  /** A scan from inside a body gives what a scan of the body alone gives, and then what
      the rest gives. */
  lemma {:induction false} ScanBody(p: seq<byte>, k: nat, body: seq<byte>, j: nat)
    requires At(p, k, body) && Boundary(p, k + |body|) && j <= |body|
    ensures ScansAs(p, k + j, body, j, k + |body|)
    decreases |body| - j
  {
    if j + 3 < |body| {
      CodeInBody(p, k, body, j);
      if ShortStartCodeAt(body, j) {
        ScanBody(p, k, body, j + 4);
        SameCode(p, k + j, body, j, k + |body|);
      } else {
        ScanBody(p, k, body, j + 1);
        SameSkip(p, k + j, body, j, k + |body|);
      }
    } else {
      ScanIntoBoundary(p, k + j, k + |body|);
    }
  }

  /** Two scans that see the same bytes take the same step. */
  lemma SameCode(p: seq<byte>, x: nat, q: seq<byte>, y: nat, e: nat)
    requires ShortStartCodeAt(p, x) && ShortStartCodeAt(q, y) && p[x + 3] == q[y + 3]
    requires ScansAs(p, x + 4, q, y + 4, e)
    ensures ScansAs(p, x, q, y, e)
  {
  }

  lemma SameSkip(p: seq<byte>, x: nat, q: seq<byte>, y: nat, e: nat)
    requires !ShortStartCodeAt(p, x) && !ShortStartCodeAt(q, y) && x + 3 < |p| && y + 3 < |q|
    requires ScansAs(p, x + 1, q, y + 1, e)
    ensures ScansAs(p, x, q, y, e)
  {
  }

  lemma CodeInBody(p: seq<byte>, k: nat, body: seq<byte>, j: nat)
    requires At(p, k, body) && j + 3 < |body|
    ensures ShortStartCodeAt(p, k + j) <==> ShortStartCodeAt(body, j)
    ensures p[k + j + 3] == body[j + 3]
  {
    assert p[k + j] == body[j] && p[k + (j + 1)] == body[j + 1];
    assert p[k + (j + 2)] == body[j + 2] && p[k + (j + 3)] == body[j + 3];
  }

  lemma {:induction false} ScanAnnexB(p: seq<byte>, k: nat, nals: seq<seq<byte>>)
    requires AllNonEmpty(nals) && At(p, k, AnnexB(nals)) && k + |AnnexB(nals)| == |p|
    ensures Slices(p, k) == ScanCount(nals)
    ensures SeesIdr(p, k) <==> HasIdrSlice(nals) || EmulatesShort(nals)
    decreases nals
  {
    if nals != [] {
      SplitFirst(nals);
      FirstUnitAt(p, k, nals);
      assert SameFrom(p, k, k + 1);
      ScanBody(p, k + 5, nals[0][1..], 0);
      ScanAnnexB(p, k + 4 + |nals[0]|, nals[1..]);
    }
  }

  lemma ConcatAt(p: seq<byte>, k: nat, a: seq<byte>, b: seq<byte>)
    requires At(p, k, a + b)
    ensures At(p, k, a) && At(p, k + |a|, b)
  {
    assert forall j :: 0 <= j < |a| ==> (a + b)[j] == a[j];
    forall j | 0 <= j < |b| ensures p[k + |a| + j] == b[j] {
      assert (a + b)[|a| + j] == b[j];
    }
  }

  lemma TailAt(p: seq<byte>, k: nat, s: seq<byte>)
    requires At(p, k, s) && s != []
    ensures p[k] == s[0] && At(p, k + 1, s[1..])
  {
    assert p[k + 0] == s[0];
    assert forall j :: 0 <= j < |s| - 1 ==> s[1..][j] == s[j + 1] && p[k + (j + 1)] == s[j + 1];
  }

  lemma StartsUnit(p: seq<byte>, k: nat)
    requires At(p, k, START_CODE)
    ensures Boundary(p, k)
  {
    assert START_CODE[0] == 0 && START_CODE[1] == 0 && START_CODE[2] == 0 && START_CODE[3] == 1;
  }

  /** An access unit in the file begins at a boundary. */
  lemma UnitsAt(p: seq<byte>, k: nat, nals: seq<seq<byte>>)
    requires At(p, k, AnnexB(nals)) && k + |AnnexB(nals)| == |p|
    ensures Boundary(p, k)
    ensures nals != [] ==>
      && At(p, k + 4, nals[0]) && At(p, k + 4 + |nals[0]|, AnnexB(nals[1..]))
      && k + 4 + |nals[0]| + |AnnexB(nals[1..])| == |p|
  {
    if nals != [] {
      ConcatAt(p, k, START_CODE + nals[0], AnnexB(nals[1..]));
      ConcatAt(p, k, START_CODE, nals[0]);
      StartsUnit(p, k);
    }
  }

  /** Where the first unit, its body and the rest of an access unit lie. */
  lemma FirstUnitAt(p: seq<byte>, k: nat, nals: seq<seq<byte>>)
    requires nals != [] && AllNonEmpty(nals) && At(p, k, AnnexB(nals)) && k + |AnnexB(nals)| == |p|
    ensures
      var nal := nals[0];
      && nal != [] && Boundary(p, k) && k + 4 + |nal| <= |p| && p[k + 4] == nal[0]
      && At(p, k + 4, nal) && At(p, k + 5, nal[1..]) && Boundary(p, k + 4 + |nal|)
      && At(p, k + 4 + |nal|, AnnexB(nals[1..])) && k + 4 + |nal| + |AnnexB(nals[1..])| == |p|
  {
    assert nals[0] in nals;
    UnitsAt(p, k, nals);
    TailAt(p, k + 4, nals[0]);
    UnitsAt(p, k + 4 + |nals[0]|, nals[1..]);
  }

  // ---- the four-byte scan ----------------------------------------------------

  /** A four-byte start code and IDR header that begins inside a body lies inside it. */
  lemma KeyframeInBody(p: seq<byte>, k: nat, body: seq<byte>, i: nat)
    requires At(p, k, body) && Boundary(p, k + |body|) && i < |body|
    ensures KeyframeAt(p, k + i) <==> KeyframeAt(body, i)
  {
  }

  /** Some four-byte start code and IDR header begins at or after `k`. */
  predicate KeyframeFrom(p: seq<byte>, k: nat)
  {
    exists i :: k <= i < |p| && KeyframeAt(p, i)
  }

  lemma KeyframeUnit(p: seq<byte>, k: nat, nal: seq<byte>)
    requires nal != [] && Boundary(p, k) && k + 4 + |nal| <= |p|
    requires At(p, k + 4, nal) && Boundary(p, k + 4 + |nal|)
    ensures KeyframeFrom(p, k) <==> NalType(nal) == 5 || HasKeyframe(nal) || KeyframeFrom(p, k + 4 + |nal|)
  {
    var e := k + 4 + |nal|;
    assert p[k + 4] == nal[0];
    assert KeyframeAt(p, k) <==> NalType(nal) == 5;
    assert !KeyframeAt(p, k + 1) && !KeyframeAt(p, k + 2) && !KeyframeAt(p, k + 3);
    forall i | 0 <= i < |nal| ensures KeyframeAt(p, k + 4 + i) <==> KeyframeAt(nal, i) {
      KeyframeInBody(p, k + 4, nal, i);
    }
    if i :| k <= i < |p| && KeyframeAt(p, i) {
      if k + 4 <= i < e { assert KeyframeAt(nal, i - k - 4); }
    }
    if i :| 0 <= i < |nal| && KeyframeAt(nal, i) {
      assert KeyframeAt(p, k + 4 + i);
    }
  }

  lemma {:induction false} KeyframeAnnexB(p: seq<byte>, k: nat, nals: seq<seq<byte>>)
    requires AllNonEmpty(nals) && At(p, k, AnnexB(nals)) && k + |AnnexB(nals)| == |p|
    ensures KeyframeFrom(p, k) <==> HasIdrSlice(nals) || EmulatesLong(nals)
    decreases nals
  {
    if nals != [] {
      SplitFirst(nals);
      FirstUnitAt(p, k, nals);
      KeyframeUnit(p, k, nals[0]);
      KeyframeAnnexB(p, k + 4 + |nals[0]|, nals[1..]);
    }
  }

  // ---- when the tests agree --------------------------------------------------

  /** What each test answers on any access unit of non-empty NAL units, unit by unit. */
  lemma TestsAre(nals: seq<seq<byte>>)
    requires AllNonEmpty(nals)
    ensures HasKeyframe(AnnexB(nals)) <==> HasIdrSlice(nals) || EmulatesLong(nals)
    ensures SeesIdr(AnnexB(nals), 0) <==> HasIdrSlice(nals) || EmulatesShort(nals)
    ensures Slices(AnnexB(nals), 0) == ScanCount(nals)
  {
    var au := AnnexB(nals);
    KeyframeAnnexB(au, 0, nals);
    assert KeyframeFrom(au, 0) <==> HasKeyframe(au);
    ScanAnnexB(au, 0, nals);
  }

  /** On non-empty units the tests agree exactly when some unit is an IDR slice, or some
      body holds a four-byte start code and IDR header, or no body is scanned as an IDR. */
  lemma AgreeIff(nals: seq<seq<byte>>)
    requires AllNonEmpty(nals)
    ensures (HasKeyframe(AnnexB(nals)) <==> SeesIdr(AnnexB(nals), 0))
       <==> HasIdrSlice(nals) || EmulatesLong(nals) || !EmulatesShort(nals)
  {
    TestsAre(nals);
    KeyframeIsSeen(AnnexB(nals));
  }

  /** Emulation prevention keeps 00 00 01 out of a NAL unit (H.264 section 7.4.1). */
  predicate EmulationFree(nal: seq<byte>)
  {
    forall i :: 0 <= i && i + 2 < |nal| ==> !(nal[i] == 0 && nal[i + 1] == 0 && nal[i + 2] == 1)
  }

  predicate CleanUnits(nals: seq<seq<byte>>)
  {
    forall n <- nals :: n != [] && EmulationFree(n)
  }

  function SliceCount(nals: seq<seq<byte>>): nat
  {
    if nals == [] then 0
    else (if NalType(nals[0]) == 1 || NalType(nals[0]) == 5 then 1 else 0) + SliceCount(nals[1..])
  }

  lemma {:induction false} CleanBody(nal: seq<byte>, k: nat)
    requires nal != [] && EmulationFree(nal) && k <= |nal| - 1
    ensures Slices(nal[1..], k) == 0 && !SeesIdr(nal[1..], k) && !HasKeyframe(nal)
    decreases |nal| - k
  {
    var body := nal[1..];
    forall i | 0 <= i < |nal| ensures !KeyframeAt(nal, i) {
      if i + 4 < |nal| { assert !(nal[i + 1] == 0 && nal[i + 2] == 0 && nal[i + 3] == 1); }
    }
    if k + 3 < |body| {
      assert !(nal[k + 1] == 0 && nal[k + 2] == 0 && nal[k + 3] == 1);
      CleanBody(nal, k + 1);
    }
  }

  lemma {:induction false} CleanCount(nals: seq<seq<byte>>)
    requires CleanUnits(nals)
    ensures ScanCount(nals) == SliceCount(nals)
  {
    if nals != [] {
      assert nals[0] in nals;
      CleanBody(nals[0], 0);
      CleanCount(nals[1..]);
    }
  }

  /** On every access unit built from emulation-free NAL units the three tests
      agree, and they are true exactly when some unit is an IDR slice. */
  lemma IdrTestsAgree(nals: seq<seq<byte>>)
    requires CleanUnits(nals)
    ensures HasKeyframe(AnnexB(nals)) <==> HasIdrSlice(nals)
    ensures SeesIdr(AnnexB(nals), 0) <==> HasIdrSlice(nals)
    ensures Slices(AnnexB(nals), 0) == SliceCount(nals)
  {
    forall n | n in nals ensures !SeesIdr(n[1..], 0) && !HasKeyframe(n) {
      CleanBody(n, 0);
    }
    CleanCount(nals);
    TestsAre(nals);
  }

  /** The condition can fail: with an emulated start code inside a non-IDR slice the
      pipeline sees an IDR that the jitter buffer does not. */
  lemma EmulationBreaksAgreement()
    ensures
      var nal := [1, 0, 0, 1, 5];
      && !EmulationFree(nal)
      && !HasKeyframe(AnnexB([nal])) && SeesIdr(AnnexB([nal]), 0)
  {
    var nal: seq<byte> := [1, 0, 0, 1, 5];
    AnnexBOne(nal);
    var au := AnnexB([nal]);
    assert au == [0, 0, 0, 1, 1, 0, 0, 1, 5];
    assert !EmulationFree(nal) by { assert nal[1] == 0 && nal[2] == 0 && nal[3] == 1; }
    assert SeesIdr(au, 5);
    assert SeesIdr(au, 1);
  }
}
