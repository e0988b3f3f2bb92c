/** The replay feeder: records of a file, put through a model of a bad network, are
    released in order of their due time by a look-ahead that holds only as many records
    as it must.  Loss decisions and jitter draws are inputs; times are real numbers. */
module Replay {
  import opened Serial
  import IdrScan

  datatype Gap = Gap(at: real, len: real)

  datatype Impairment = Impairment(enabled: bool, jitterMs: real, gaps: seq<Gap>)
  {
    /** What parse_impair lets through; without a spec nothing is modelled. */
    predicate Valid() {
      && jitterMs >= 0.0 && (!enabled ==> jitterMs == 0.0)
      && forall g <- gaps :: g.at >= 0.0 && g.len >= 0.0
    }

    function Clamp(): real { 3.0 * jitterMs }
  }

  /** A record of the file, with what the random sources decide about it. */
  datatype Input = Input(kind: byte, seqNo: u32, ts: u64, data: seq<byte>, lost: bool, jitter: real)

  const VIDEO: byte := 0
  const AUDIO: byte := 1

  /** A record whose release time is decided; `order` is its place in the file. */
  datatype Pending = Pending(due: real, order: nat, kind: byte, seqNo: u32, data: seq<byte>)

  // ---- gaps ------------------------------------------------------------------------------

  predicate Inside(x: real, g: Gap) { g.at <= x < g.at + g.len }

  predicate Outside(x: real, gaps: seq<Gap>)
  {
    forall g <- gaps :: !Inside(x, g)
  }

  /** How many gaps end after `x`. */
  function Beyond(x: real, gaps: seq<Gap>): nat
  {
    if gaps == [] then 0
    else if gaps[0].at + gaps[0].len > x then 1 + Beyond(x, gaps[1..])
    else Beyond(x, gaps[1..])
  }

  lemma {:induction false} BeyondShrinks(x: real, y: real, gaps: seq<Gap>)
    requires x <= y
    ensures Beyond(y, gaps) <= Beyond(x, gaps)
    ensures (exists g :: g in gaps && x < g.at + g.len <= y) ==> Beyond(y, gaps) < Beyond(x, gaps)
  {
    if gaps != [] {
      BeyondShrinks(x, y, gaps[1..]);
      if g :| g in gaps && x < g.at + g.len <= y {
        assert g == gaps[0] || g in gaps[1..];
      }
    }
  }

  /** `x` is the least time from `due` on that no gap covers. */
  ghost predicate IsExit(x: real, due: real, gaps: seq<Gap>)
  {
    x >= due && Outside(x, gaps) && forall y :: due <= y < x ==> !Outside(y, gaps)
  }

  lemma ExitUnique(x: real, y: real, due: real, gaps: seq<Gap>)
    requires IsExit(x, due, gaps) && IsExit(y, due, gaps)
    ensures x == y
  {
  }

  /** Where the gaps let a packet due at `due` out. */
  ghost function ExitOf(due: real, gaps: seq<Gap>): (x: real)
    ensures IsExit(x, due, gaps)
    decreases Beyond(due, gaps)
  {
    if Outside(due, gaps) then due
    else
      var g :| g in gaps && Inside(due, g);
      BeyondShrinks(due, g.at + g.len, gaps);
      var x := ExitOf(g.at + g.len, gaps);
      assert forall y :: due <= y < g.at + g.len ==> Inside(y, g);
      x
  }

  /** The loop that holds a packet back: a gap may end inside another one, and the list
      need not be in order. */
  method HoldBack(jittered: real, gaps: seq<Gap>) returns (due: real)
    ensures due == ExitOf(jittered, gaps)
  {
    due := jittered;
    var held := true;
    while held
      invariant due >= jittered
      invariant forall y :: jittered <= y < due ==> !Outside(y, gaps)
      invariant !held ==> Outside(due, gaps)
      decreases Beyond(due, gaps), held
    {
      held := false;
      ghost var start := due;
      var i := 0;
      while i < |gaps|
        invariant 0 <= i <= |gaps| && due >= start && (held <==> due > start)
        invariant !held ==> forall j :: 0 <= j < i ==> !Inside(due, gaps[j])
        invariant forall y :: jittered <= y < due ==> !Outside(y, gaps)
        invariant held ==> Beyond(due, gaps) < Beyond(start, gaps)
      {
        var g := gaps[i];
        if due >= g.at && due < g.at + g.len {
          forall y | due <= y < g.at + g.len ensures !Outside(y, gaps) {
            assert g in gaps && Inside(y, g);
          }
          BeyondShrinks(due, g.at + g.len, gaps);
          due := g.at + g.len;
          held := true;
        }
        i := i + 1;
      }
    }
    ExitUnique(due, ExitOf(jittered, gaps), jittered, gaps);
  }

  // ---- what the model does to one record ----------------------------------------------------

  datatype Counts = Counts(lost: nat, resyncs: nat, discarded: nat, alost: nat)

  /** `dueVideo` and `dueAudio` are each stream's previous release. */
  datatype Feed = Feed(waitingIdr: bool, dueVideo: real, dueAudio: real, order: nat, counts: Counts)

  const LONG_AGO: real := -1000000000000000000.0

  const FRESH := Feed(false, LONG_AGO, LONG_AGO, 0, Counts(0, 0, 0, 0))

  function Jittered(m: Impairment, t: real, jitter: real): real
  {
    if m.jitterMs > 0.0 then
      var j := if m.Clamp() < jitter then m.Clamp() else jitter;
      t + (if j < -m.Clamp() then -m.Clamp() else j)
    else t
  }

  function Previous(f: Feed, kind: byte): real { if kind == VIDEO then f.dueVideo else f.dueAudio }

  ghost function Due(m: Impairment, f: Feed, r: Input, t: real): real
  {
    if !m.enabled then t
    else
      var x := ExitOf(Jittered(m, t, r.jitter), m.gaps);
      if x < Previous(f, r.kind) then Previous(f, r.kind) else x
  }

  /** Why a record is not released, if it is not: not media, lost, or waiting for an IDR. */
  predicate Dropped(m: Impairment, f: Feed, r: Input)
  {
    || (r.kind != VIDEO && r.kind != AUDIO)
    || (m.enabled && r.lost)
    || (m.enabled && r.kind == VIDEO && f.waitingIdr && !IdrScan.SeesIdr(r.data, 0))
  }

  function AfterDrop(m: Impairment, f: Feed, r: Input): Feed
  {
    var c := f.counts;
    if r.kind != VIDEO && r.kind != AUDIO then f
    else if r.kind == AUDIO then f.(counts := c.(alost := c.alost + 1))
    else if r.lost then
      f.(waitingIdr := true,
         counts := c.(lost := c.lost + 1, resyncs := if f.waitingIdr then c.resyncs else c.resyncs + 1))
    else f.(counts := c.(discarded := c.discarded + 1))
  }

  ghost function AfterKeep(m: Impairment, f: Feed, r: Input, t: real): Feed
  {
    var due := Due(m, f, r, t);
    var f1 := f.(order := f.order + 1);
    if !m.enabled then f1
    else if r.kind == VIDEO then f1.(waitingIdr := false, dueVideo := due)
    else f1.(dueAudio := due)
  }

  ghost function Kept(m: Impairment, f: Feed, r: Input, t: real): Pending
  {
    Pending(Due(m, f, r, t), f.order, r.kind, r.seqNo, r.data)
  }

  ghost function After(m: Impairment, f: Feed, r: Input, t: real): Feed
  {
    if Dropped(m, f, r) then AfterDrop(m, f, r) else AfterKeep(m, f, r, t)
  }

  /** Time since the first record, as the program computes it. */
  function Elapsed(r: Input, first: u64): real { Sub64(r.ts, first) as real }

  /** Everything the model keeps, in file order. */
  ghost function KeptAll(m: Impairment, f: Feed, rs: seq<Input>, first: u64): seq<Pending>
    decreases rs
  {
    if rs == [] then []
    else
      var t := Elapsed(rs[0], first);
      var rest := KeptAll(m, After(m, f, rs[0], t), rs[1..], first);
      if Dropped(m, f, rs[0]) then rest else [Kept(m, f, rs[0], t)] + rest
  }

  // ---- order of release -----------------------------------------------------------------------

  predicate Before(a: Pending, b: Pending)
  {
    if a.due != b.due then a.due < b.due else a.order < b.order
  }

  /** The heap, seen as its elements in the order they would be popped. */
  function Insert(p: Pending, heap: seq<Pending>): (r: seq<Pending>)
    ensures |r| == |heap| + 1
  {
    if heap == [] || Before(p, heap[0]) then [p] + heap else [heap[0]] + Insert(p, heap[1..])
  }

  function InsertAll(heap: seq<Pending>, ps: seq<Pending>): seq<Pending>
    decreases ps
  {
    if ps == [] then heap else InsertAll(Insert(ps[0], heap), ps[1..])
  }

  /** The full sort: by due time, then by place in the file. */
  function FullSort(ps: seq<Pending>): seq<Pending> { InsertAll([], ps) }

  lemma {:induction false} FrontStays(h: Pending, heap: seq<Pending>, ps: seq<Pending>)
    requires forall p <- ps :: Before(h, p)
    ensures InsertAll([h] + heap, ps) == [h] + InsertAll(heap, ps)
    decreases ps
  {
    if ps != [] {
      assert ps[0] in ps;
      assert !Before(ps[0], h);
      assert ([h] + heap)[1..] == heap;
      assert Insert(ps[0], [h] + heap) == [h] + Insert(ps[0], heap);
      FrontStays(h, Insert(ps[0], heap), ps[1..]);
    }
  }

  predicate NonDecreasing(rs: seq<Input>)
  {
    forall i, j :: 0 <= i < j < |rs| ==> rs[i].ts <= rs[j].ts
  }

  /** Nothing still to be read can be due at or before `bound`. */
  lemma {:induction false} KeptLater(m: Impairment, f: Feed, rs: seq<Input>, first: u64, newest: real)
    requires m.Valid() && forall r <- rs :: Elapsed(r, first) >= newest
    ensures forall p <- KeptAll(m, f, rs, first) :: p.due >= newest - m.Clamp()
    decreases rs
  {
    if rs != [] {
      assert rs[0] in rs;
      var t := Elapsed(rs[0], first);
      KeptLater(m, After(m, f, rs[0], t), rs[1..], first, newest);
    }
  }

  // ---- the program ---------------------------------------------------------------------------------

  /** The feeder thread's state: its heap, how far it has read, and the model's. */
  class Feeder {
    const m: Impairment
    var heap: seq<Pending>
    var newestT: real
    var waitingIdr: bool
    var lastDueVideo: real
    var lastDueAudio: real
    var order: nat
    var counts: Counts

    constructor (m: Impairment)
      ensures this.m == m && heap == [] && Value() == FRESH
    {
      this.m := m;
      heap, newestT := [], 0.0;
      waitingIdr, lastDueVideo, lastDueAudio, order := false, LONG_AGO, LONG_AGO, 0;
      counts := Counts(0, 0, 0, 0);
    }

    function Value(): Feed
      reads this
    {
      Feed(waitingIdr, lastDueVideo, lastDueAudio, order, counts)
    }

    /** One record read: dropped by the model, or given a due time and pushed. */
    method Read(r: Input, first: u64)
      modifies this
      ensures newestT == Elapsed(r, first)
      ensures Value() == After(m, old(Value()), r, newestT)
      ensures heap == if Dropped(m, old(Value()), r) then old(heap)
                      else Insert(Kept(m, old(Value()), r, newestT), old(heap))
    {
      var t := Elapsed(r, first);
      newestT := t;
      if r.kind != VIDEO && r.kind != AUDIO { return; }
      var due := t;
      if m.enabled {
        if r.kind == VIDEO {
          if r.lost {
            counts := counts.(lost := counts.lost + 1);
            if !waitingIdr {
              waitingIdr := true;
              counts := counts.(resyncs := counts.resyncs + 1);
            }
            return;
          }
          if waitingIdr {
            var idr := IdrScan.AuHasIdr(r.data);
            if !idr {
              counts := counts.(discarded := counts.discarded + 1);
              return;
            }
            waitingIdr := false;
          }
        } else if r.lost {
          counts := counts.(alost := counts.alost + 1);
          return;
        }
        due := HoldBack(Jittered(m, t, r.jitter), m.gaps);
        if r.kind == VIDEO {
          if due < lastDueVideo { due := lastDueVideo; }
          lastDueVideo := due;
        } else {
          if due < lastDueAudio { due := lastDueAudio; }
          lastDueAudio := due;
        }
      }
      heap := Insert(Pending(due, order, r.kind, r.seqNo, r.data), heap);
      order := order + 1;
    }

    /** The thread: read ahead while the front of the heap might still be overtaken,
        then release it; stop after `limit` releases (the stop flags) or at the end. */
    method Run(rs: seq<Input>, limit: nat) returns (released: seq<Pending>)
      requires m.Valid() && heap == [] && Value() == FRESH
      modifies this
      ensures NonDecreasing(rs) ==> released == Take(FullSort(KeptOf(m, rs)), limit)
    {
      released := [];
      var i := 0;
      var firstTs: u64 := 0;
      ghost var first := FirstOf(rs);
      ghost var total := FullSort(KeptOf(m, rs));
      assert rs[0..] == rs;
      while |released| < limit
        invariant |released| <= limit && Reading(rs, i, firstTs)
        invariant NonDecreasing(rs) ==> Splits(total, released, heap, KeptAll(m, Value(), rs[i..], first))
        decreases limit - |released|
      {
        while i < |rs| && (heap == [] || newestT - m.Clamp() <= heap[0].due)
          invariant Reading(rs, i, firstTs)
          invariant NonDecreasing(rs) ==> Splits(total, released, heap, KeptAll(m, Value(), rs[i..], first))
          decreases |rs| - i
        {
          if i == 0 { firstTs := rs[0].ts; }
          assert rs[i..][0] == rs[i] && rs[i..][1..] == rs[i + 1..];
          ReadStep(m, Value(), rs[i..], first, heap);
          Read(rs[i], firstTs);
          i := i + 1;
        }
        if heap == [] { break; }
        if NonDecreasing(rs) {
          if i < |rs| {
            StillLater(m, Value(), rs, i, heap[0]);
          }
          PopStep(total, released, heap, KeptAll(m, Value(), rs[i..], first));
        }
        released := released + [heap[0]];
        heap := heap[1..];
      }
    }

    /** How far the file has been read. */
    predicate Reading(rs: seq<Input>, i: nat, firstTs: u64)
      reads this
    {
      && i <= |rs| && (i == 0 ==> heap == [])
      && (i > 0 ==> firstTs == rs[0].ts && newestT == Elapsed(rs[i - 1], rs[0].ts))
    }
  }

  function Take<T>(s: seq<T>, n: nat): seq<T> { if n < |s| then s[..n] else s }

  function FirstOf(rs: seq<Input>): u64 { if rs == [] then 0 else rs[0].ts }

  /** What the model keeps of a whole file, in file order. */
  ghost function KeptOf(m: Impairment, rs: seq<Input>): seq<Pending>
  {
    KeptAll(m, FRESH, rs, FirstOf(rs))
  }

  /** What is released, then what is in the heap with what is still to come. */
  predicate Splits(total: seq<Pending>, released: seq<Pending>, heap: seq<Pending>, rest: seq<Pending>)
  {
    total == Join(released, InsertAll(heap, rest))
  }

  lemma ReadStep(m: Impairment, f: Feed, rs: seq<Input>, first: u64, heap: seq<Pending>)
    requires rs != []
    ensures
      var t := Elapsed(rs[0], first);
      var rest := KeptAll(m, After(m, f, rs[0], t), rs[1..], first);
      InsertAll(heap, KeptAll(m, f, rs, first))
        == InsertAll(if Dropped(m, f, rs[0]) then heap else Insert(Kept(m, f, rs[0], t), heap), rest)
  {
    var t := Elapsed(rs[0], first);
    var rest := KeptAll(m, After(m, f, rs[0], t), rs[1..], first);
    if !Dropped(m, f, rs[0]) {
      assert ([Kept(m, f, rs[0], t)] + rest)[1..] == rest;
    }
  }

  /** Once the newest record read is past the front by more than the clamp, every
      unread one is later. */
  lemma StillLater(m: Impairment, f: Feed, rs: seq<Input>, i: nat, front: Pending)
    requires m.Valid() && NonDecreasing(rs) && 0 < i <= |rs|
    requires Elapsed(rs[i - 1], rs[0].ts) - m.Clamp() > front.due
    ensures forall p <- KeptAll(m, f, rs[i..], rs[0].ts) :: Before(front, p)
  {
    var newest := Elapsed(rs[i - 1], rs[0].ts);
    forall r | r in rs[i..] ensures Elapsed(r, rs[0].ts) >= newest {
      var j :| i <= j < |rs| && rs[j] == r;
      assert rs[0].ts <= rs[i - 1].ts <= rs[j].ts;
    }
    KeptLater(m, f, rs[i..], rs[0].ts, newest);
  }

  lemma PopStep(total: seq<Pending>, released: seq<Pending>, heap: seq<Pending>, rest: seq<Pending>)
    requires heap != [] && Splits(total, released, heap, rest)
    requires forall p <- rest :: Before(heap[0], p)
    ensures Splits(total, released + [heap[0]], heap[1..], rest)
  {
    assert heap == [heap[0]] + heap[1..];
    FrontStays(heap[0], heap[1..], rest);
    Assoc(released, [heap[0]], InsertAll(heap[1..], rest));
  }

  // ---- what the full sort is ---------------------------------------------------------------------

  predicate Sorted(s: seq<Pending>)
  {
    s != [] ==> (forall q <- s[1..] :: Before(s[0], q)) && Sorted(s[1..])
  }

  lemma {:induction false} InsertSorted(p: Pending, heap: seq<Pending>)
    requires Sorted(heap) && forall q <- heap :: q.order != p.order
    ensures Sorted(Insert(p, heap))
  {
    InsertMembers(p, heap);
    var r := Insert(p, heap);
    if heap == [] || Before(p, heap[0]) {
      assert r[1..] == heap;
      assert forall q :: q in heap ==> q == heap[0] || q in heap[1..];
    } else {
      assert heap[0] in heap && Before(heap[0], p);
      InsertSorted(p, heap[1..]);
      InsertMembers(p, heap[1..]);
      assert r[1..] == Insert(p, heap[1..]);
    }
  }

  lemma {:induction false} InsertMembers(p: Pending, heap: seq<Pending>)
    ensures multiset(Insert(p, heap)) == multiset(heap) + multiset{p}
    ensures forall q :: q in Insert(p, heap) <==> q == p || q in heap
  {
    if heap != [] && !Before(p, heap[0]) {
      InsertMembers(p, heap[1..]);
      assert heap == [heap[0]] + heap[1..];
    }
  }

  /** Places in the file rise from `from` on. */
  predicate Numbered(ps: seq<Pending>, from: nat)
  {
    ps != [] ==> ps[0].order >= from && Numbered(ps[1..], ps[0].order + 1)
  }

  lemma {:induction false} NumberedFrom(ps: seq<Pending>, from: nat)
    requires Numbered(ps, from)
    ensures forall p <- ps :: p.order >= from
  {
    if ps != [] {
      NumberedFrom(ps[1..], ps[0].order + 1);
      assert forall p :: p in ps ==> p == ps[0] || p in ps[1..];
    }
  }

  lemma {:induction false} NumberedUnique(ps: seq<Pending>, from: nat, p: Pending, q: Pending)
    requires Numbered(ps, from) && p in ps && q in ps && p.order == q.order
    ensures p == q
  {
    NumberedFrom(ps[1..], ps[0].order + 1);
    if p in ps[1..] && q in ps[1..] {
      NumberedUnique(ps[1..], ps[0].order + 1, p, q);
    }
  }

  lemma {:induction false} InsertAllSorted(heap: seq<Pending>, ps: seq<Pending>, from: nat)
    requires Sorted(heap) && Numbered(ps, from) && forall q <- heap :: q.order < from
    ensures Sorted(InsertAll(heap, ps))
    ensures multiset(InsertAll(heap, ps)) == multiset(heap) + multiset(ps)
    decreases ps
  {
    if ps != [] {
      InsertSorted(ps[0], heap);
      InsertMembers(ps[0], heap);
      InsertAllSorted(Insert(ps[0], heap), ps[1..], ps[0].order + 1);
      assert ps == [ps[0]] + ps[1..];
    }
  }

  lemma {:induction false} KeptNumbered(m: Impairment, f: Feed, rs: seq<Input>, first: u64)
    ensures Numbered(KeptAll(m, f, rs, first), f.order)
    decreases rs
  {
    if rs != [] {
      var t := Elapsed(rs[0], first);
      var f1 := After(m, f, rs[0], t);
      var rest := KeptAll(m, f1, rs[1..], first);
      KeptNumbered(m, f1, rs[1..], first);
      if !Dropped(m, f, rs[0]) {
        assert ([Kept(m, f, rs[0], t)] + rest)[1..] == rest;
      }
    }
  }

  /** The full sort of what is kept is a permutation of it, in strict order of due time
      and then place in the file. */
  lemma FullSortIs(m: Impairment, rs: seq<Input>)
    ensures Sorted(FullSort(KeptOf(m, rs)))
    ensures multiset(FullSort(KeptOf(m, rs))) == multiset(KeptOf(m, rs))
  {
    KeptNumbered(m, FRESH, rs, FirstOf(rs));
    InsertAllSorted([], KeptOf(m, rs), 0);
  }

  // ---- streams stay in order -------------------------------------------------------------------------

  /** A stream's later records are due no earlier than `floor`. */
  lemma {:induction false} StreamFloor(m: Impairment, f: Feed, rs: seq<Input>, first: u64, kind: byte, floor: real)
    requires m.enabled ==> floor <= Previous(f, kind)
    requires !m.enabled ==> forall r <- rs :: Elapsed(r, first) >= floor
    requires kind == VIDEO || kind == AUDIO
    ensures forall p <- KeptAll(m, f, rs, first) :: p.kind == kind ==> p.due >= floor
    decreases rs
  {
    if rs != [] {
      assert rs[0] in rs;
      var t := Elapsed(rs[0], first);
      StreamFloor(m, After(m, f, rs[0], t), rs[1..], first, kind, floor);
    }
  }

  lemma {:induction false} StreamRises(m: Impairment, f: Feed, rs: seq<Input>, first: u64, p: Pending, q: Pending)
    requires m.enabled || forall i, j :: 0 <= i < j < |rs| ==> Elapsed(rs[i], first) <= Elapsed(rs[j], first)
    requires p in KeptAll(m, f, rs, first) && q in KeptAll(m, f, rs, first)
    requires p.kind == q.kind && p.order < q.order
    ensures p.due <= q.due
    decreases rs
  {
    var t := Elapsed(rs[0], first);
    var f1 := After(m, f, rs[0], t);
    var rest := KeptAll(m, f1, rs[1..], first);
    KeptNumbered(m, f1, rs[1..], first);
    NumberedFrom(rest, f1.order);
    if p in rest && q in rest {
      StreamRises(m, f1, rs[1..], first, p, q);
    } else {
      assert p == Kept(m, f, rs[0], t);
      forall r | r in rs[1..] && !m.enabled ensures Elapsed(r, first) >= t {
        var j :| 0 <= j < |rs[1..]| && rs[1..][j] == r;
        assert rs[j + 1] == r;
      }
      StreamFloor(m, f1, rs[1..], first, p.kind, p.due);
    }
  }

  lemma {:induction false} SortedAt(s: seq<Pending>, i: nat, j: nat)
    requires Sorted(s) && i < j < |s|
    ensures Before(s[i], s[j])
  {
    if i == 0 {
      assert s[j] in s[1..];
    } else {
      SortedAt(s[1..], i - 1, j - 1);
    }
  }

  /** Jitter and gaps never reorder a stream: video leaves in decode order and audio in
      sequence order, as they are in the file. */
  lemma StreamInFileOrder(m: Impairment, rs: seq<Input>, i: nat, j: nat)
    requires m.enabled || NonDecreasing(rs)
    requires i < j < |FullSort(KeptOf(m, rs))|
    requires FullSort(KeptOf(m, rs))[i].kind == FullSort(KeptOf(m, rs))[j].kind
    ensures FullSort(KeptOf(m, rs))[i].order < FullSort(KeptOf(m, rs))[j].order
  {
    var s := FullSort(KeptOf(m, rs));
    FullSortIs(m, rs);
    SortedAt(s, i, j);
    assert s[i] in multiset(s) && s[j] in multiset(s);
    assert s[i] in KeptOf(m, rs) && s[j] in KeptOf(m, rs);
    if s[j].order == s[i].order {
      KeptNumbered(m, FRESH, rs, FirstOf(rs));
      NumberedUnique(KeptOf(m, rs), 0, s[i], s[j]);
    } else if s[j].order < s[i].order {
      if !m.enabled {
        forall a, b | 0 <= a < b < |rs| ensures Elapsed(rs[a], FirstOf(rs)) <= Elapsed(rs[b], FirstOf(rs)) {
          assert rs[0].ts <= rs[a].ts <= rs[b].ts;
        }
      }
      StreamRises(m, FRESH, rs, FirstOf(rs), s[j], s[i]);
    }
  }

  // ---- due times ---------------------------------------------------------------------------------------

  /** Each stream's previous release is a time no gap covers. */
  ghost predicate PreviousClear(m: Impairment, f: Feed)
  {
    Outside(f.dueVideo, m.gaps) && Outside(f.dueAudio, m.gaps)
  }

  lemma PreviousStaysClear(m: Impairment, f: Feed, r: Input, t: real)
    requires m.Valid() && PreviousClear(m, f)
    ensures PreviousClear(m, After(m, f, r, t))
  {
  }

  lemma FreshIsClear(m: Impairment)
    requires m.Valid()
    ensures PreviousClear(m, FRESH)
  {
  }

  /** An impaired due time is the least time outside every gap that is neither before the
      jittered time nor before that stream's previous release. */
  lemma DueIsLeast(m: Impairment, f: Feed, r: Input, t: real)
    requires m.Valid() && m.enabled && PreviousClear(m, f)
    ensures
      var due := Due(m, f, r, t);
      var jittered := Jittered(m, t, r.jitter);
      && Outside(due, m.gaps) && due >= jittered && due >= Previous(f, r.kind)
      && forall y :: Outside(y, m.gaps) && y >= jittered && y >= Previous(f, r.kind) ==> y >= due
  {
    assert IsExit(ExitOf(Jittered(m, t, r.jitter), m.gaps), Jittered(m, t, r.jitter), m.gaps);
  }

  /** The model's state after these records. */
  ghost function FeedOn(m: Impairment, f: Feed, rs: seq<Input>, first: u64): Feed
  {
    if rs == [] then f
    else
      var last := rs[|rs| - 1];
      After(m, FeedOn(m, f, rs[..|rs| - 1], first), last, Elapsed(last, first))
  }

  /** The model's state when record `i` of the file is read, or after the whole file. */
  ghost function FeedAt(m: Impairment, rs: seq<Input>, i: nat): Feed
    requires i <= |rs|
  {
    FeedOn(m, FRESH, rs[..i], FirstOf(rs))
  }

  lemma FeedStep(m: Impairment, rs: seq<Input>, i: nat)
    requires i < |rs|
    ensures FeedAt(m, rs, i + 1) == After(m, FeedAt(m, rs, i), rs[i], Elapsed(rs[i], FirstOf(rs)))
  {
    assert rs[..i + 1][..i] == rs[..i];
  }

  lemma {:induction false} AlwaysClear(m: Impairment, rs: seq<Input>, i: nat)
    requires m.Valid() && i <= |rs|
    ensures PreviousClear(m, FeedAt(m, rs, i))
  {
    if i == 0 {
      FreshIsClear(m);
    } else {
      AlwaysClear(m, rs, i - 1);
      FeedStep(m, rs, i - 1);
      PreviousStaysClear(m, FeedAt(m, rs, i - 1), rs[i - 1], Elapsed(rs[i - 1], FirstOf(rs)));
    }
  }

  // ---- from the records of the file to the records released ----------------------------------------------

  /** Record `i` of the file gets through. */
  ghost predicate Passes(m: Impairment, rs: seq<Input>, i: nat)
    requires i < |rs|
  {
    !Dropped(m, FeedAt(m, rs, i), rs[i])
  }

  /** What is released for record `i`. */
  ghost function Entry(m: Impairment, rs: seq<Input>, i: nat): Pending
    requires i < |rs|
  {
    Kept(m, FeedAt(m, rs, i), rs[i], Elapsed(rs[i], FirstOf(rs)))
  }

  /** The entries of the first `n` records, one for each that gets through. */
  ghost function Entries(m: Impairment, rs: seq<Input>, n: nat): seq<Pending>
    requires n <= |rs|
  {
    if n == 0 then []
    else if Passes(m, rs, n - 1) then Entries(m, rs, n - 1) + [Entry(m, rs, n - 1)]
    else Entries(m, rs, n - 1)
  }

  /** Reading record `n` off what is still to be read. */
  lemma KeptFrom(m: Impairment, rs: seq<Input>, n: nat)
    requires n < |rs|
    ensures
      var rest := KeptAll(m, FeedAt(m, rs, n + 1), rs[n + 1..], FirstOf(rs));
      KeptAll(m, FeedAt(m, rs, n), rs[n..], FirstOf(rs))
      == if Passes(m, rs, n) then [Entry(m, rs, n)] + rest else rest
  {
    FeedStep(m, rs, n);
    assert rs[n..][0] == rs[n] && rs[n..][1..] == rs[n + 1..];
  }

  /** What the feeder keeps, read record by record, is those entries. */
  lemma {:induction false} KeptAreEntries(m: Impairment, rs: seq<Input>, n: nat)
    requires n <= |rs|
    ensures KeptOf(m, rs) == Join(Entries(m, rs, n), KeptAll(m, FeedAt(m, rs, n), rs[n..], FirstOf(rs)))
  {
    if n == 0 {
      assert rs[0..] == rs && rs[..0] == [];
    } else {
      KeptAreEntries(m, rs, n - 1);
      KeptFrom(m, rs, n - 1);
      if Passes(m, rs, n - 1) {
        JoinOne(Entries(m, rs, n - 1), Entry(m, rs, n - 1), KeptAll(m, FeedAt(m, rs, n), rs[n..], FirstOf(rs)));
      }
    }
  }

  lemma JoinOne(a: seq<Pending>, p: Pending, b: seq<Pending>)
    ensures Join(a, [p] + b) == Join(a + [p], b)
  {
    Assoc(a, [p], b);
  }

  /** Entry `k` was made for a record that gets through, and is the `k`-th such. */
  lemma {:induction false} EntryFrom(m: Impairment, rs: seq<Input>, n: nat, k: nat) returns (i: nat)
    requires n <= |rs| && k < |Entries(m, rs, n)|
    ensures i < n && Passes(m, rs, i) && Entries(m, rs, n)[k] == Entry(m, rs, i) && |Entries(m, rs, i)| == k
  {
    if k < |Entries(m, rs, n - 1)| {
      i := EntryFrom(m, rs, n - 1, k);
    } else {
      i := n - 1;
    }
  }

  lemma {:induction false} EntryOf(m: Impairment, rs: seq<Input>, n: nat, i: nat)
    requires i < n <= |rs| && Passes(m, rs, i)
    ensures Entry(m, rs, i) in Entries(m, rs, n)
  {
    if i < n - 1 {
      EntryOf(m, rs, n - 1, i);
    }
  }

  lemma AllEntries(m: Impairment, rs: seq<Input>)
    ensures KeptOf(m, rs) == Entries(m, rs, |rs|)
  {
    KeptAreEntries(m, rs, |rs|);
    assert rs[|rs|..] == [];
  }

  /** What is released is exactly the entries of the records that get through. */
  lemma ReleasedIff(m: Impairment, rs: seq<Input>, p: Pending)
    ensures p in FullSort(KeptOf(m, rs)) <==> exists i: nat :: i < |rs| && Passes(m, rs, i) && p == Entry(m, rs, i)
  {
    FullSortIs(m, rs);
    AllEntries(m, rs);
    var all := Entries(m, rs, |rs|);
    assert p in FullSort(all) <==> p in multiset(FullSort(all));
    assert p in all <==> p in multiset(all);
    if p in all {
      var k: nat :| k < |all| && all[k] == p;
      var i := EntryFrom(m, rs, |rs|, k);
    }
    if i: nat :| i < |rs| && Passes(m, rs, i) && p == Entry(m, rs, i) {
      EntryOf(m, rs, |rs|, i);
    }
  }

  /** Two records never share an entry: the places in the file differ. */
  lemma {:induction false} EntriesDiffer(m: Impairment, rs: seq<Input>, i: nat, j: nat)
    requires i < j < |rs| && Passes(m, rs, i)
    ensures Entry(m, rs, i).order < FeedAt(m, rs, j).order == Entry(m, rs, j).order
  {
    FeedStep(m, rs, j - 1);
    if i < j - 1 {
      EntriesDiffer(m, rs, i, j - 1);
    }
  }

  /** Everything released comes from one record, carries its bytes, and, when the network
      is impaired, is due at the least time outside every gap that is neither before that
      record's jittered time nor before what its stream released last. */
  lemma ReleasedIsLeast(m: Impairment, rs: seq<Input>, p: Pending) returns (i: nat)
    requires m.Valid() && m.enabled && p in FullSort(KeptOf(m, rs))
    ensures i < |rs| && Passes(m, rs, i) && p == Entry(m, rs, i)
    ensures p.kind == rs[i].kind && p.seqNo == rs[i].seqNo && p.data == rs[i].data
    ensures
      var jittered := Jittered(m, Elapsed(rs[i], FirstOf(rs)), rs[i].jitter);
      var floor := Previous(FeedAt(m, rs, i), p.kind);
      && Outside(p.due, m.gaps) && p.due >= jittered && p.due >= floor
      && forall y :: Outside(y, m.gaps) && y >= jittered && y >= floor ==> y >= p.due
  {
    ReleasedIff(m, rs, p);
    i :| i < |rs| && Passes(m, rs, i) && p == Entry(m, rs, i);
    AlwaysClear(m, rs, i);
    DueIsLeast(m, FeedAt(m, rs, i), rs[i], Elapsed(rs[i], FirstOf(rs)));
  }

  /** And what its stream released last is the due time of that stream's entry before it. */
  lemma {:induction false} PreviousIs(m: Impairment, rs: seq<Input>, i: nat, j: nat)
    requires m.enabled && i < j <= |rs| && Passes(m, rs, i)
    requires forall k :: i < k < j && rs[k].kind == rs[i].kind ==> !Passes(m, rs, k)
    ensures Previous(FeedAt(m, rs, j), rs[i].kind) == Entry(m, rs, i).due
  {
    FeedStep(m, rs, j - 1);
    if i < j - 1 {
      PreviousIs(m, rs, i, j - 1);
    }
  }

  /** `j` is the draw where it lies within `limit` of zero, else the nearer bound. */
  predicate Clamped(draw: real, limit: real, j: real)
  {
    && -limit <= j <= limit
    && (draw > limit ==> j == limit) && (draw < -limit ==> j == -limit)
    && (-limit <= draw <= limit ==> j == draw)
  }

  /** When the records of a stream before record `i` are released. */
  ghost function ReleasesBefore(m: Impairment, rs: seq<Input>, i: nat, kind: byte): set<real>
    requires i <= |rs|
  {
    if i == 0 then {}
    else if rs[i - 1].kind == kind && Passes(m, rs, i - 1) then
      ReleasesBefore(m, rs, i - 1, kind) + {Entry(m, rs, i - 1).due}
    else ReleasesBefore(m, rs, i - 1, kind)
  }

  /** A time at which an impaired record may be released: no gap covers it, it is not before
      the record's own time `t` and jitter `j`, and not before any earlier release of its stream. */
  ghost predicate MayBeDue(m: Impairment, rs: seq<Input>, i: nat, t: real, j: real, y: real)
    requires i < |rs|
  {
    && Outside(y, m.gaps) && y >= t + j && y >= -1000000000000000000.0
    && forall r <- ReleasesBefore(m, rs, i, rs[i].kind) :: y >= r
  }

  /** Everything released is due at the least such time, its time being counted from the
      first record and its jitter its own draw, clamped to three times the setting; with no
      network modelled, at just its time. */
  lemma ReleasedWhenDue(m: Impairment, rs: seq<Input>, p: Pending) returns (i: nat, j: real)
    requires m.Valid() && NonDecreasing(rs) && p in FullSort(KeptOf(m, rs))
    ensures i < |rs| && Passes(m, rs, i) && p == Entry(m, rs, i) && rs[0].ts <= rs[i].ts
    ensures Clamped(rs[i].jitter, 3.0 * m.jitterMs, j)
    ensures
      var t := (rs[i].ts - rs[0].ts) as real;
      if !m.enabled then p.due == t
      else
        && MayBeDue(m, rs, i, t, j, p.due)
        && forall y :: MayBeDue(m, rs, i, t, j, y) ==> y >= p.due
  {
    ReleasedIff(m, rs, p);
    i :| i < |rs| && Passes(m, rs, i) && p == Entry(m, rs, i);
    assert i > 0 ==> rs[0].ts <= rs[i].ts;
    var t := (rs[i].ts - rs[0].ts) as real;
    var limit := 3.0 * m.jitterMs;
    j := if rs[i].jitter > limit then limit else if rs[i].jitter < -limit then -limit else rs[i].jitter;
    JitterIs(m, t, rs[i].jitter, j);
    if m.enabled {
      AlwaysClear(m, rs, i);
      DueIsLeast(m, FeedAt(m, rs, i), rs[i], t);
      FloorIs(m, rs, i, rs[i].kind);
    }
  }

  lemma JitterIs(m: Impairment, t: real, draw: real, j: real)
    requires m.Valid() && Clamped(draw, 3.0 * m.jitterMs, j)
    ensures Jittered(m, t, draw) == t + j
  {
  }

  lemma PreviousStep(m: Impairment, f: Feed, r: Input, t: real, kind: byte)
    requires m.enabled && (kind == VIDEO || kind == AUDIO)
    ensures Previous(After(m, f, r, t), kind)
         == if r.kind == kind && !Dropped(m, f, r) then Kept(m, f, r, t).due else Previous(f, kind)
    ensures r.kind == kind ==> Kept(m, f, r, t).due >= Previous(f, kind)
  {
  }

  lemma {:induction false} FloorIs(m: Impairment, rs: seq<Input>, i: nat, kind: byte)
    requires m.enabled && i <= |rs| && (kind == VIDEO || kind == AUDIO)
    ensures IsFloor(ReleasesBefore(m, rs, i, kind), Previous(FeedAt(m, rs, i), kind))
  {
    if i > 0 {
      FloorIs(m, rs, i - 1, kind);
      FeedStep(m, rs, i - 1);
      var f := FeedAt(m, rs, i - 1);
      PreviousStep(m, f, rs[i - 1], Elapsed(rs[i - 1], FirstOf(rs)), kind);
      if rs[i - 1].kind == kind && Passes(m, rs, i - 1) {
        FloorRises(ReleasesBefore(m, rs, i - 1, kind), Previous(f, kind), Entry(m, rs, i - 1).due);
      }
    }
  }

  /** `floor` is the latest of these releases, if there are any. */
  predicate IsFloor(releases: set<real>, floor: real)
  {
    && floor >= LONG_AGO && (forall y <- releases :: floor >= y)
    && (floor == LONG_AGO || floor in releases)
  }

  lemma FloorRises(releases: set<real>, floor: real, due: real)
    requires IsFloor(releases, floor) && due >= floor
    ensures IsFloor(releases + {due}, due)
  {
  }

  // ---- which records get through ---------------------------------------------------------------------------

  /** Video record `k` was lost, and none with an IDR has come through between it and `i`. */
  predicate BlindFrom(rs: seq<Input>, i: nat, k: nat)
    requires i <= |rs|
  {
    && k < i && rs[k].kind == VIDEO && rs[k].lost
    && forall l :: k < l < i && rs[l].kind == VIDEO ==> rs[l].lost || !IdrScan.SeesIdr(rs[l].data, 0)
  }

  /** A video unit was lost before record `i`, and none with an IDR has come through since. */
  predicate BlindAt(rs: seq<Input>, i: nat)
    requires i <= |rs|
  {
    exists k :: 0 <= k < i && BlindFrom(rs, i, k)
  }

  lemma BlindStep(rs: seq<Input>, i: nat)
    requires i < |rs|
    ensures BlindAt(rs, i + 1) <==>
      if rs[i].kind != VIDEO then BlindAt(rs, i)
      else rs[i].lost || (BlindAt(rs, i) && !IdrScan.SeesIdr(rs[i].data, 0))
  {
    forall k | 0 <= k < i
      ensures BlindFrom(rs, i + 1, k)
         <==> BlindFrom(rs, i, k) && (rs[i].kind == VIDEO ==> rs[i].lost || !IdrScan.SeesIdr(rs[i].data, 0))
    {
    }
    assert BlindFrom(rs, i + 1, i) <==> rs[i].kind == VIDEO && rs[i].lost;
    if BlindAt(rs, i + 1) {
      var k :| 0 <= k < i + 1 && BlindFrom(rs, i + 1, k);
      assert k == i || BlindFrom(rs, i, k);
    }
    if BlindAt(rs, i) {
      var k :| 0 <= k < i && BlindFrom(rs, i, k);
      assert rs[i].kind != VIDEO || rs[i].lost || !IdrScan.SeesIdr(rs[i].data, 0) ==> BlindFrom(rs, i + 1, k);
    }
  }

  lemma {:induction false} WaitingIsBlind(m: Impairment, rs: seq<Input>, i: nat)
    requires i <= |rs|
    ensures FeedAt(m, rs, i).waitingIdr <==> m.enabled && BlindAt(rs, i)
  {
    if i > 0 {
      WaitingIsBlind(m, rs, i - 1);
      FeedStep(m, rs, i - 1);
      BlindStep(rs, i - 1);
    }
  }

  /** A record gets through exactly when it is media and, where a network is modelled, it is
      not lost, and, if it is video and a unit was lost before, it has an IDR or one came
      through since. */
  lemma PassesIff(m: Impairment, rs: seq<Input>, i: nat)
    requires i < |rs|
    ensures Passes(m, rs, i) <==>
      && (rs[i].kind == 0 || rs[i].kind == 1)
      && (m.enabled ==> !rs[i].lost && (rs[i].kind == 0 && BlindAt(rs, i) ==> IdrScan.SeesIdr(rs[i].data, 0)))
  {
    WaitingIsBlind(m, rs, i);
  }

  // ---- the IDR gate --------------------------------------------------------------------------------------

  lemma {:induction false} BlindAfterLoss(m: Impairment, rs: seq<Input>, lost: nat, n: nat)
    requires m.enabled && lost < n <= |rs|
    requires rs[lost].kind == VIDEO && rs[lost].lost
    requires forall i :: lost < i < n && rs[i].kind == VIDEO ==> !Passes(m, rs, i)
    ensures FeedAt(m, rs, n).waitingIdr
    decreases n
  {
    FeedStep(m, rs, n - 1);
    if lost < n - 1 {
      BlindAfterLoss(m, rs, lost, n - 1);
      assert rs[n - 1].kind == VIDEO ==> !Passes(m, rs, n - 1);
    }
  }

  /** After a lost video unit the next one that gets through carries an IDR, and it is
      released. */
  lemma NextAfterLossIsIdr(m: Impairment, rs: seq<Input>, lost: nat, next: nat)
    requires m.enabled && lost < next < |rs| && rs[lost].kind == rs[next].kind == VIDEO && rs[lost].lost
    requires Passes(m, rs, next)
    requires forall i :: lost < i < next && rs[i].kind == VIDEO ==> !Passes(m, rs, i)
    ensures Entry(m, rs, next) in FullSort(KeptOf(m, rs)) && IdrScan.SeesIdr(Entry(m, rs, next).data, 0)
  {
    BlindAfterLoss(m, rs, lost, next);
    ReleasedIff(m, rs, Entry(m, rs, next));
  }

  /** A video record that gets through is released between the two whose records it lies
      between. */
  lemma ReleasedBetween(m: Impairment, rs: seq<Input>, i: nat, k: nat, j: nat, a: nat, b: nat) returns (c: nat)
    requires m.enabled && i < k < j < |rs| && rs[k].kind == VIDEO
    requires Passes(m, rs, i) && Passes(m, rs, k) && Passes(m, rs, j)
    requires a < |FullSort(KeptOf(m, rs))| && b < |FullSort(KeptOf(m, rs))|
    requires FullSort(KeptOf(m, rs))[a] == Entry(m, rs, i) && FullSort(KeptOf(m, rs))[b] == Entry(m, rs, j)
    requires rs[i].kind == rs[j].kind == VIDEO
    ensures a < c < b && FullSort(KeptOf(m, rs))[c] == Entry(m, rs, k)
  {
    var s := FullSort(KeptOf(m, rs));
    ReleasedIff(m, rs, Entry(m, rs, k));
    c :| c < |s| && s[c] == Entry(m, rs, k);
    EntriesDiffer(m, rs, i, k);
    EntriesDiffer(m, rs, k, j);
    SortedByFile(m, rs, a, c);
    SortedByFile(m, rs, c, b);
  }

  lemma SortedByFile(m: Impairment, rs: seq<Input>, a: nat, b: nat)
    requires m.enabled && a < |FullSort(KeptOf(m, rs))| && b < |FullSort(KeptOf(m, rs))|
    requires FullSort(KeptOf(m, rs))[a].kind == FullSort(KeptOf(m, rs))[b].kind
    requires FullSort(KeptOf(m, rs))[a].order < FullSort(KeptOf(m, rs))[b].order
    ensures a < b
  {
    if b < a { StreamInFileOrder(m, rs, b, a); }
  }

  /** Two video units released one after the other come from records in that order, and if
      any video unit of the file between them was lost the later one carries an IDR. */
  lemma NextReleasedIsIdr(m: Impairment, rs: seq<Input>, a: nat, b: nat) returns (i: nat, j: nat)
    requires m.Valid() && m.enabled && a < b < |FullSort(KeptOf(m, rs))|
    requires FullSort(KeptOf(m, rs))[a].kind == FullSort(KeptOf(m, rs))[b].kind == VIDEO
    requires forall c :: a < c < b ==> FullSort(KeptOf(m, rs))[c].kind != VIDEO
    ensures i < j < |rs| && Passes(m, rs, i) && Passes(m, rs, j)
    ensures FullSort(KeptOf(m, rs))[a] == Entry(m, rs, i) && FullSort(KeptOf(m, rs))[b] == Entry(m, rs, j)
    ensures forall lost :: i < lost < j && rs[lost].kind == VIDEO && rs[lost].lost ==>
      IdrScan.SeesIdr(FullSort(KeptOf(m, rs))[b].data, 0)
  {
    var s := FullSort(KeptOf(m, rs));
    i := ReleasedIsLeast(m, rs, s[a]);
    j := ReleasedIsLeast(m, rs, s[b]);
    StreamInFileOrder(m, rs, a, b);
    if j < i { EntriesDiffer(m, rs, j, i); }
    forall lost | i < lost < j && rs[lost].kind == VIDEO && rs[lost].lost ensures IdrScan.SeesIdr(s[b].data, 0) {
      forall k | lost < k < j && rs[k].kind == VIDEO ensures !Passes(m, rs, k) {
        if Passes(m, rs, k) {
          var c := ReleasedBetween(m, rs, i, k, j, a, b);
        }
      }
      NextAfterLossIsIdr(m, rs, lost, j);
    }
  }

  /** Units of a kind among the first `n` records. */
  function Units(rs: seq<Input>, n: nat, kind: byte): nat
    requires n <= |rs|
  {
    if n == 0 then 0 else Units(rs, n - 1, kind) + (if rs[n - 1].kind == kind then 1 else 0)
  }

  /** And the lost ones. */
  function LostUnits(rs: seq<Input>, n: nat, kind: byte): nat
    requires n <= |rs|
  {
    if n == 0 then 0 else LostUnits(rs, n - 1, kind) + (if rs[n - 1].kind == kind && rs[n - 1].lost then 1 else 0)
  }

  /** Losses of video among the first `n` records that began a blind spell. */
  function Spells(rs: seq<Input>, n: nat): nat
    requires n <= |rs|
  {
    if n == 0 then 0
    else
      Spells(rs, n - 1) + (if rs[n - 1].kind == VIDEO && rs[n - 1].lost && !BlindAt(rs, n - 1) then 1 else 0)
  }

  /** Units of a kind among these. */
  function UnitsIn(ps: seq<Pending>, kind: byte): nat
  {
    if ps == [] then 0 else (if ps[0].kind == kind then 1 else 0) + UnitsIn(ps[1..], kind)
  }

  lemma {:induction false} UnitsInsert(p: Pending, heap: seq<Pending>, kind: byte)
    ensures UnitsIn(Insert(p, heap), kind) == (if p.kind == kind then 1 else 0) + UnitsIn(heap, kind)
  {
    var r := Insert(p, heap);
    if heap == [] || Before(p, heap[0]) {
      assert r[1..] == heap;
    } else {
      assert r[1..] == Insert(p, heap[1..]);
      UnitsInsert(p, heap[1..], kind);
    }
  }

  lemma {:induction false} UnitsInsertAll(heap: seq<Pending>, ps: seq<Pending>, kind: byte)
    ensures UnitsIn(InsertAll(heap, ps), kind) == UnitsIn(heap, kind) + UnitsIn(ps, kind)
    decreases ps
  {
    if ps != [] {
      UnitsInsert(ps[0], heap, kind);
      UnitsInsertAll(Insert(ps[0], heap), ps[1..], kind);
    }
  }

  lemma {:induction false} UnitsAppend(ps: seq<Pending>, p: Pending, kind: byte)
    ensures UnitsIn(ps + [p], kind) == UnitsIn(ps, kind) + (if p.kind == kind then 1 else 0)
  {
    if ps == [] {
      assert ps + [p] == [p] && [p][1..] == [];
    } else {
      assert (ps + [p])[1..] == ps[1..] + [p];
      UnitsAppend(ps[1..], p, kind);
    }
  }

  /** The model's counts after `n` records, of which `video` and `audio` were kept. */
  predicate CountsTrue(m: Impairment, rs: seq<Input>, n: nat, c: Counts, video: nat, audio: nat)
    requires n <= |rs|
  {
    && Units(rs, n, VIDEO) == video + c.lost + c.discarded
    && c.resyncs == (if m.enabled then Spells(rs, n) else 0)
    && Units(rs, n, AUDIO) == audio + c.alost
    && c.lost == (if m.enabled then LostUnits(rs, n, VIDEO) else 0)
    && c.alost == (if m.enabled then LostUnits(rs, n, AUDIO) else 0)
  }

  lemma {:induction false} UnitEntries(m: Impairment, rs: seq<Input>, n: nat)
    requires n <= |rs|
    ensures
      var es := Entries(m, rs, n);
      CountsTrue(m, rs, n, FeedAt(m, rs, n).counts, UnitsIn(es, VIDEO), UnitsIn(es, AUDIO))
  {
    if n > 0 {
      UnitEntries(m, rs, n - 1);
      FeedStep(m, rs, n - 1);
      WaitingIsBlind(m, rs, n - 1);
      UnitsAppend(Entries(m, rs, n - 1), Entry(m, rs, n - 1), VIDEO);
      UnitsAppend(Entries(m, rs, n - 1), Entry(m, rs, n - 1), AUDIO);
      CountsStep(m, rs, n - 1, UnitsIn(Entries(m, rs, n - 1), VIDEO), UnitsIn(Entries(m, rs, n - 1), AUDIO));
    }
  }

  lemma CountsStep(m: Impairment, rs: seq<Input>, i: nat, video: nat, audio: nat)
    requires i < |rs| && CountsTrue(m, rs, i, FeedAt(m, rs, i).counts, video, audio)
    requires FeedAt(m, rs, i).waitingIdr <==> m.enabled && BlindAt(rs, i)
    ensures
      var kept := Passes(m, rs, i);
      CountsTrue(m, rs, i + 1, After(m, FeedAt(m, rs, i), rs[i], Elapsed(rs[i], FirstOf(rs))).counts,
                 video + (if kept && rs[i].kind == VIDEO then 1 else 0),
                 audio + (if kept && rs[i].kind == AUDIO then 1 else 0))
  {
  }

  /** Every unit of the file is accounted for: video is released, counted as lost, or
      counted as discarded while waiting for an IDR; audio is released or counted as lost;
      and what is counted as lost is exactly what was lost. */
  lemma UnitsAccounted(m: Impairment, rs: seq<Input>)
    ensures
      var released := FullSort(KeptOf(m, rs));
      CountsTrue(m, rs, |rs|, FeedAt(m, rs, |rs|).counts, UnitsIn(released, VIDEO), UnitsIn(released, AUDIO))
  {
    UnitEntries(m, rs, |rs|);
    AllEntries(m, rs);
    UnitsInsertAll([], KeptOf(m, rs), VIDEO);
    UnitsInsertAll([], KeptOf(m, rs), AUDIO);
  }
}
