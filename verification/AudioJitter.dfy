/** The audio reorder buffer: packets leave in serial-number order (RFC 1982 section
    3.2), a missing one is waited for briefly, and every number is accounted for as
    released or lost. */
module AudioJitter {
  import opened Serial

  const MAX_WAIT_MS := 5
  const MAX_LATE := 32

  datatype Entry = Entry(seqNo: u16, arrived: u64, data: seq<byte>)

  datatype State = State(pending: seq<Entry>, next: u16, haveNext: bool, lost: u32)

  const START := State([], 0, false, 0)

  /** Index of the entry with this number, or the length. */
  function Find(pending: seq<Entry>, want: u16): (i: nat)
    ensures i <= |pending|
    ensures i < |pending| ==> pending[i].seqNo == want
    ensures forall j :: 0 <= j < i ==> pending[j].seqNo != want
  {
    if pending == [] || pending[0].seqNo == want then 0 else 1 + Find(pending[1..], want)
  }

  function Push(s: State, seqNo: u16, data: seq<byte>, now: u64): State
  {
    var s1 := if s.haveNext then s else s.(next := seqNo, haveNext := true);
    if SeqBefore(seqNo, s1.next) || Find(s1.pending, seqNo) < |s1.pending| then s1
    else s1.(pending := s1.pending + [Entry(seqNo, now, data)])
  }

  /** Running minima of the scan, in serial order and in time. */
  function Oldest(pending: seq<Entry>): u16
    requires pending != []
  {
    if |pending| == 1 then pending[0].seqNo
    else
      var o := Oldest(pending[..|pending| - 1]);
      var e := pending[|pending| - 1];
      if SeqBefore(e.seqNo, o) then e.seqNo else o
  }

  function OldestArrived(pending: seq<Entry>): u64
    requires pending != []
  {
    if |pending| == 1 then pending[0].arrived
    else
      var o := OldestArrived(pending[..|pending| - 1]);
      var e := pending[|pending| - 1];
      if e.arrived < o then e.arrived else o
  }

  /** Is the missing packet still worth waiting for? */
  predicate Waits(s: State, now: u64)
    requires s.pending != []
  {
    Sub64(now, OldestArrived(s.pending)) < MAX_WAIT_MS && |s.pending| < MAX_LATE
  }

  /** The gap is given up: skip to the oldest packet held. */
  function Skipped(s: State): State
    requires s.pending != []
  {
    var oldest := Oldest(s.pending);
    s.(lost := Add32(s.lost, Sub16(oldest, s.next)), next := oldest)
  }

  function Removed(s: State, i: nat): State
    requires i < |s.pending|
  {
    s.(pending := s.pending[..i] + s.pending[i + 1..], next := Add16(s.next, 1))
  }

  /** The packet released, if any, and the state afterwards. */
  function Pop(s: State, now: u64): (Option<Entry>, State)
  {
    if s.pending == [] then (None, s)
    else
      var i := Find(s.pending, s.next);
      if i < |s.pending| then (Some(s.pending[i]), Removed(s, i))
      else if Waits(s, now) then (None, s)
      else
        var s1 := Skipped(s);
        var j := Find(s1.pending, s1.next);
        if j < |s1.pending| then (Some(s1.pending[j]), Removed(s1, j)) else (None, s1)
  }

  class AudioJitterBuffer {
    var pending: seq<Entry>
    var nextSeq: u16
    var haveNext: bool
    var lost: u32

    function Value(): State
      reads this
    {
      State(pending, nextSeq, haveNext, lost)
    }

    constructor ()
      ensures Value() == START
    {
      pending, nextSeq, haveNext, lost := [], 0, false, 0;
    }

    method Reset()
      modifies this
      ensures Value() == START
    {
      pending, nextSeq, haveNext, lost := [], 0, false, 0;
    }

    method FindSeq(want: u16) returns (idx: int)
      ensures Find(pending, want) < |pending| ==> idx == Find(pending, want)
      ensures Find(pending, want) == |pending| ==> idx == -1
    {
      for i := 0 to |pending|
        invariant Find(pending, want) == i + Find(pending[i..], want)
      {
        assert pending[i..][0] == pending[i] && pending[i..][1..] == pending[i + 1..];
        if pending[i].seqNo == want { return i; }
      }
      return -1;
    }

    method Receive(seqNo: u16, data: seq<byte>, now: u64)
      modifies this
      ensures Value() == Push(old(Value()), seqNo, data, now)
    {
      if !haveNext {
        nextSeq := seqNo;
        haveNext := true;
      }
      if SeqBefore(seqNo, nextSeq) { return; }
      var idx := FindSeq(seqNo);
      if idx >= 0 { return; }
      pending := pending + [Entry(seqNo, now, data)];
    }

    /** The scan for the oldest packet held, by number and by arrival. */
    method FindOldest() returns (oldest: u16, oldestArrived: u64)
      requires pending != []
      ensures oldest == Oldest(pending) && oldestArrived == OldestArrived(pending)
    {
      oldest, oldestArrived := pending[0].seqNo, pending[0].arrived;
      for i := 0 to |pending|
        invariant i == 0 ==> oldest == pending[0].seqNo && oldestArrived == pending[0].arrived
        invariant i > 0 ==> oldest == Oldest(pending[..i]) && oldestArrived == OldestArrived(pending[..i])
      {
        assert pending[..i + 1][..i] == pending[..i];
        var e := pending[i];
        if SeqBefore(e.seqNo, oldest) { oldest := e.seqNo; }
        if e.arrived < oldestArrived { oldestArrived := e.arrived; }
      }
      assert pending[..|pending|] == pending;
    }

    method Release(now: u64) returns (out: Option<Entry>)
      modifies this
      ensures (out, Value()) == Pop(old(Value()), now)
    {
      if pending == [] { return None; }
      var idx := FindSeq(nextSeq);
      if idx < 0 {
        var oldest, oldestArrived := FindOldest();
        if Sub64(now, oldestArrived) < MAX_WAIT_MS && |pending| < MAX_LATE { return None; }
        lost := Add32(lost, Sub16(oldest, nextSeq));
        nextSeq := oldest;
        idx := FindSeq(nextSeq);
        if idx < 0 { return None; }
      }
      var e := TakeAt(idx);
      out := Some(e);
    }

    method TakeAt(idx: nat) returns (e: Entry)
      requires idx < |pending|
      modifies this`pending, this`nextSeq
      ensures e == old(pending)[idx] && Value() == Removed(old(Value()), idx)
    {
      e := pending[idx];
      pending := pending[..idx] + pending[idx + 1..];
      nextSeq := Add16(nextSeq, 1);
    }
  }

  // ---- the numbers meant -----------------------------------------------------------------

  /** The state with the unwrapped numbers it stands for: of each pending packet, of the
      first packet ever, of the next one due, of all released, with what they carried, and
      how many were lost. */
  datatype Truth = Truth(state: State, us: seq<int>, first: int, next: int, released: seq<int>, out: seq<Entry>,
                         lost: nat)

  predicate Match(pending: seq<Entry>, us: seq<int>)
  {
    |pending| == |us| && forall i :: 0 <= i < |us| ==> pending[i].seqNo == Wrap16(us[i])
  }

  /** Pending numbers are distinct and lie in the forward half-window of the next one. */
  predicate Ahead(us: seq<int>, next: int)
  {
    Distinct(us) && forall i :: 0 <= i < |us| ==> next <= us[i] < next + 0x8000
  }

  predicate Accounted(t: Truth)
  {
    && Match(t.state.pending, t.us) && Ahead(t.us, t.next)
    && t.state.lost == Wrap32(t.lost)
    && (t.state.haveNext ==> t.state.next == Wrap16(t.next))
    && (!t.state.haveNext ==> t.state == START && t.us == [] && t.released == [] && t.lost == 0)
    && Ascending(t.released) && Match(t.out, t.released)
    && (t.released != [] ==> t.released[|t.released| - 1] == t.next - 1)
    && (t.released == [] && t.lost == 0 ==> t.next == t.first)
    && t.next - t.first == |t.released| + t.lost
  }

  const NOTHING := Truth(START, [], 0, 0, [], [], 0)

  /** A packet with unwrapped number `u` is pushed. */
  function Pushed(t: Truth, u: int, data: seq<byte>, now: u64): Truth
  {
    var s := Push(t.state, Wrap16(u), data, now);
    var t1 := if t.state.haveNext then t else t.(first := u, next := u);
    t1.(state := s, us := if |s.pending| == |t.us| + 1 then t.us + [u] else t.us)
  }

  /** The packets are less than half the number space from the next one due. */
  predicate InWindow(t: Truth, u: int)
  {
    t.state.haveNext ==> -0x8000 <= u - t.next < 0x8000
  }

  function Without(us: seq<int>, i: nat): seq<int>
  {
    if i < |us| then us[..i] + us[i + 1..] else us
  }

  /** The state has released the entry at index `i`, whose number was due or skipped to. */
  function ReleasedAt(t: Truth, i: nat, s: State): Truth
  {
    if i < |t.us| && i < |t.state.pending| then
      t.(state := s, us := Without(t.us, i), next := t.us[i] + 1, released := t.released + [t.us[i]],
         out := t.out + [t.state.pending[i]],
         lost := if t.us[i] >= t.next then t.lost + (t.us[i] - t.next) else t.lost)
    else t.(state := s)
  }

  function Popped(t: Truth, now: u64): Truth
  {
    var (out, s) := Pop(t.state, now);
    match out
    case None => t.(state := s)
    case Some(e) => ReleasedAt(t, Find(t.state.pending, e.seqNo), s)
  }

  lemma PushAccounted(t: Truth, u: int, data: seq<byte>, now: u64)
    requires Accounted(t) && InWindow(t, u)
    ensures Accounted(Pushed(t, u, data, now))
  {
    var t1 := if t.state.haveNext then t else t.(first := u, next := u);
    SeqBeforeIsLess(u, t1.next);
    forall i | 0 <= i < |t.us| && t.us[i] == u ensures Find(t.state.pending, Wrap16(u)) < |t.state.pending| {
      assert t.state.pending[i].seqNo == Wrap16(u);
    }
  }

  /** The serial scan finds the true minimum. */
  lemma {:induction false} OldestIs(pending: seq<Entry>, us: seq<int>, next: int) returns (i: nat)
    requires Match(pending, us) && pending != []
    requires forall j :: 0 <= j < |us| ==> next <= us[j] < next + 0x8000
    ensures i < |us| && Oldest(pending) == Wrap16(us[i])
    ensures forall j :: 0 <= j < |us| ==> us[i] <= us[j]
  {
    var n := |us| - 1;
    if n == 0 {
      i := 0;
    } else {
      i := OldestIs(pending[..n], us[..n], next);
      assert forall j :: 0 <= j < n ==> us[..n][j] == us[j];
      SeqBeforeIsLess(us[n], us[i]);
      if us[n] < us[i] { i := n; }
    }
  }

  lemma FindIs(pending: seq<Entry>, us: seq<int>, next: int, u: int)
    requires Match(pending, us) && Ahead(us, next) && next <= u < next + 0x8000
    ensures
      var i := Find(pending, Wrap16(u));
      (i < |us| ==> us[i] == u) && (i == |us| ==> forall j :: 0 <= j < |us| ==> us[j] != u)
  {
    forall j | 0 <= j < |us| ensures pending[j].seqNo == Wrap16(u) <==> us[j] == u {
      SeqBeforeIsLess(us[j], u);
    }
  }

  lemma WithoutIs(us: seq<int>, i: nat)
    requires i < |us|
    ensures |Without(us, i)| == |us| - 1
    ensures forall j :: 0 <= j < |us| - 1 ==> Without(us, i)[j] == us[if j < i then j else j + 1]
  {
  }

  /** Releasing the entry with the least number, `us[i]`, keeps the books. */
  lemma ReleaseAccounted(t: Truth, i: nat, s: State)
    requires Accounted(t) && t.state.haveNext && i < |t.us|
    requires forall j :: 0 <= j < |t.us| ==> t.us[i] <= t.us[j]
    requires s.pending == t.state.pending[..i] + t.state.pending[i + 1..] && s.haveNext
    requires s.next == Wrap16(t.us[i] + 1) && s.lost == Wrap32(t.lost + (t.us[i] - t.next))
    ensures Accounted(ReleasedAt(t, i, s))
  {
    WithoutIs(t.us, i);
    var t1 := ReleasedAt(t, i, s);
    forall j | 0 <= j < |t1.us| ensures t1.us[j] >= t1.next && s.pending[j].seqNo == Wrap16(t1.us[j]) {
      var k := if j < i then j else j + 1;
      assert t1.us[j] == t.us[k] && s.pending[j] == t.state.pending[k];
      assert t.us[k] != t.us[i];
    }
  }

  lemma LostAdds(lost: nat, k: u16)
    ensures Add32(Wrap32(lost), k) == Wrap32(lost + k)
  {
  }

  /** What a pop that releases something leaves behind. */
  predicate ReleasedOne(t: Truth, t1: Truth, out: Option<Entry>)
  {
    && Accounted(t1) && out.Some? && t1.released != []
    && t1.released[..|t1.released| - 1] == t.released
    && t1.out == t.out + [out.value] && out.value in t.state.pending
  }

  lemma PopDue(t: Truth, now: u64)
    requires Accounted(t) && t.state.pending != []
    requires Find(t.state.pending, t.state.next) < |t.us|
    ensures ReleasedOne(t, Popped(t, now), Pop(t.state, now).0)
  {
    var i := Find(t.state.pending, t.state.next);
    FindIs(t.state.pending, t.us, t.next, t.next);
    Add16Wrap(t.next, 1);
    ReleaseAccounted(t, i, Removed(t.state, i));
  }

  /** After a skip the packet due is held, and it is the one with the least number. */
  lemma SkipFinds(t: Truth) returns (j: nat)
    requires Accounted(t) && t.state.pending != []
    ensures
      var s1 := Skipped(t.state);
      && j == Find(t.state.pending, s1.next) && j < |t.us|
      && (forall i :: 0 <= i < |t.us| ==> t.us[j] <= t.us[i])
      && s1.next == Wrap16(t.us[j]) && s1.lost == Wrap32(t.lost + (t.us[j] - t.next))
  {
    var k := OldestIs(t.state.pending, t.us, t.next);
    var u := t.us[k];
    FindIs(t.state.pending, t.us, t.next, u);
    j := Find(t.state.pending, Wrap16(u));
    Sub16Wrap(u, t.next);
    LostAdds(t.lost, u - t.next);
  }

  lemma PopSkips(t: Truth, now: u64)
    requires Accounted(t) && t.state.pending != []
    requires Find(t.state.pending, t.state.next) == |t.us| && !Waits(t.state, now)
    ensures ReleasedOne(t, Popped(t, now), Pop(t.state, now).0)
  {
    var j := SkipFinds(t);
    Add16Wrap(t.us[j], 1);
    var s := Removed(Skipped(t.state), j);
    PopIs(t.state, now, j);
    ReleasesSkipped(t, now, j, s);
  }

  lemma ReleasesSkipped(t: Truth, now: u64, j: nat, s: State)
    requires Accounted(t) && t.state.haveNext && j < |t.us| && forall i :: 0 <= i < |t.us| ==> t.us[j] <= t.us[i]
    requires s.pending == t.state.pending[..j] + t.state.pending[j + 1..] && s.haveNext
    requires s.next == Wrap16(t.us[j] + 1) && s.lost == Wrap32(t.lost + (t.us[j] - t.next))
    requires Pop(t.state, now) == (Some(t.state.pending[j]), s) && Popped(t, now) == ReleasedAt(t, j, s)
    ensures ReleasedOne(t, Popped(t, now), Pop(t.state, now).0)
  {
    ReleaseAccounted(t, j, s);
  }

  /** What a pop that skips gives, once the skip finds the entry at `j`. */
  lemma PopIs(s: State, now: u64, j: nat)
    requires s.pending != [] && Find(s.pending, s.next) == |s.pending| && !Waits(s, now)
    requires j == Find(s.pending, Skipped(s).next) < |s.pending|
    ensures Pop(s, now) == (Some(s.pending[j]), Removed(Skipped(s), j))
  {
  }

  /** Every pop keeps the books: whatever is released is the least number held, later
      than everything released before, and what lies between is counted as lost. */
  lemma PopAccounted(t: Truth, now: u64)
    requires Accounted(t)
    ensures Accounted(Popped(t, now))
    ensures
      var out := Pop(t.state, now).0;
      if out.Some? then ReleasedOne(t, Popped(t, now), out)
      else Popped(t, now).released == t.released && Popped(t, now).us == t.us
  {
    if t.state.pending != [] {
      if Find(t.state.pending, t.state.next) < |t.us| {
        PopDue(t, now);
      } else if !Waits(t.state, now) {
        PopSkips(t, now);
      }
    }
  }

  /** The branch marked as one that should not happen does not: once the gap is given up
      a packet always comes out. */
  lemma SkipAlwaysReleases(t: Truth, now: u64)
    requires Accounted(t) && t.state.pending != [] && !Waits(t.state, now)
    ensures Pop(t.state, now).0.Some?
  {
    var j := SkipFinds(t);
  }

  // ---- draining ------------------------------------------------------------------------------

  lemma {:induction false} OldestArrivedIs(pending: seq<Entry>)
    requires pending != []
    ensures forall i :: 0 <= i < |pending| ==> OldestArrived(pending) <= pending[i].arrived
    ensures exists i :: 0 <= i < |pending| && OldestArrived(pending) == pending[i].arrived
  {
    var n := |pending| - 1;
    if n > 0 {
      OldestArrivedIs(pending[..n]);
      assert forall i :: 0 <= i < n ==> pending[..n][i] == pending[i];
      var i :| 0 <= i < n && OldestArrived(pending[..n]) == pending[..n][i].arrived;
      assert OldestArrived(pending) == pending[if pending[n].arrived < pending[i].arrived then n else i].arrived;
    } else {
      assert OldestArrived(pending) == pending[0].arrived;
    }
  }

  /** A pop that releases nothing leaves the state alone, with fewer than 32 packets
      pending, all of them younger than 5 ms. */
  lemma NothingDue(t: Truth, now: u64)
    requires Accounted(t) && Pop(t.state, now).0 == None
    requires forall e <- t.state.pending :: e.arrived <= now
    ensures Pop(t.state, now).1 == t.state && |t.state.pending| < MAX_LATE
    ensures forall e <- t.state.pending :: now - e.arrived < MAX_WAIT_MS
  {
    if t.state.pending != [] {
      if !Waits(t.state, now) {
        SkipAlwaysReleases(t, now);
      } else {
        OldestArrivedIs(t.state.pending);
      }
    }
  }

  /** Pop until it says no, as the audio thread does. */
  function Drained(t: Truth, now: u64): Truth
    decreases |t.us|
  {
    if Pop(t.state, now).0 == None || |Popped(t, now).us| >= |t.us| then t
    else Drained(Popped(t, now), now)
  }

  lemma {:induction false} DrainedIs(t: Truth, now: u64)
    requires Accounted(t) && forall e <- t.state.pending :: e.arrived <= now
    ensures
      var d := Drained(t, now);
      && Accounted(d) && t.released <= d.released && |d.state.pending| < MAX_LATE
      && (forall e <- d.state.pending :: now - e.arrived < MAX_WAIT_MS)
      && Pop(d.state, now).0 == None
    decreases |t.us|
  {
    if Pop(t.state, now).0 == None {
      NothingDue(t, now);
    } else {
      PopAccounted(t, now);
      PopShrinks(t, now);
      DrainedIs(Popped(t, now), now);
    }
  }

  lemma PopShrinks(t: Truth, now: u64)
    requires Accounted(t) && Pop(t.state, now).0.Some?
    ensures |Popped(t, now).us| == |t.us| - 1
    ensures forall e :: e in Popped(t, now).state.pending ==> e in t.state.pending
  {
  }

  // ---- what each operation does, in unwrapped numbers ----------------------------------------

  /** A push keeps every packet but a late one and one whose number is pending; the first
      packet ever says where to begin. */
  lemma PushIs(t: Truth, u: int, data: seq<byte>, now: u64)
    requires Accounted(t) && InWindow(t, u)
    ensures
      var t1 := Pushed(t, u, data, now);
      var due := if t.state.haveNext then t.next else u;
      && t1.state.haveNext && t1.next == due && t1.released == t.released && t1.out == t.out && t1.lost == t.lost
      && if u < due || u in t.us then t1.us == t.us && t1.state.pending == t.state.pending
         else t1.us == t.us + [u] && t1.state.pending == t.state.pending + [Entry(Wrap16(u), now, data)]
  {
    var t1 := if t.state.haveNext then t else t.(first := u, next := u);
    SeqBeforeIsLess(u, t1.next);
    if u >= t1.next {
      FindIs(t.state.pending, t.us, t1.next, u);
      if u in t.us {
        var i :| 0 <= i < |t.us| && t.us[i] == u;
      }
    }
  }

  /** The packet at index `i` has gone from pending to released. */
  predicate TookOut(t: Truth, t1: Truth, i: nat)
  {
    && i < |t.us| && i < |t.state.pending|
    && t1.us == t.us[..i] + t.us[i + 1..]
    && t1.state.pending == t.state.pending[..i] + t.state.pending[i + 1..]
    && t1.released == t.released + [t.us[i]] && t1.out == t.out + [t.state.pending[i]]
  }

  /** What a pop at `now` must do; `i` is the packet released, if one is.  It releases the
      number due if it is held; else it waits while fewer than 32 packets are pending, all of
      them younger than 5 ms; else it releases the least number held and counts as lost what
      it skipped. */
  predicate PopRule(t: Truth, now: u64, out: Option<Entry>, t1: Truth, i: nat)
  {
    if t.us == [] || (t.next !in t.us && |t.us| < 32 && forall e <- t.state.pending :: now - e.arrived < 5) then
      out == None && t1 == t
    else
      && TookOut(t, t1, i) && out == Some(t.state.pending[i]) && (forall j :: 0 <= j < |t.us| ==> t.us[i] <= t.us[j])
      && t1.next == t.us[i] + 1 && t1.lost == t.lost + (t.us[i] - t.next)
  }

  lemma PopIsExactly(t: Truth, now: u64) returns (i: nat)
    requires Accounted(t) && forall e <- t.state.pending :: e.arrived <= now
    ensures PopRule(t, now, Pop(t.state, now).0, Popped(t, now), i)
  {
    i := 0;
    if t.us != [] {
      FindIs(t.state.pending, t.us, t.next, t.next);
      if t.next in t.us {
        i := PopTakesDue(t, now);
      } else if Waits(t.state, now) {
        WaitsIff(t, now);
      } else {
        WaitsIff(t, now);
        i := PopTakesOldest(t, now);
      }
    }
  }

  lemma WaitsIff(t: Truth, now: u64)
    requires |t.us| == |t.state.pending| > 0 && forall e <- t.state.pending :: e.arrived <= now
    ensures Waits(t.state, now) <==> |t.us| < 32 && forall e <- t.state.pending :: now - e.arrived < 5
  {
    OldestArrivedIs(t.state.pending);
    var i :| 0 <= i < |t.state.pending| && OldestArrived(t.state.pending) == t.state.pending[i].arrived;
    assert t.state.pending[i] in t.state.pending;
  }

  lemma PopTakesDue(t: Truth, now: u64) returns (i: nat)
    requires Accounted(t) && t.next in t.us
    ensures i < |t.us| && Pop(t.state, now).0 == Some(t.state.pending[i]) && TookOut(t, Popped(t, now), i)
    ensures t.us[i] == t.next
    ensures Popped(t, now).next == t.next + 1 && Popped(t, now).lost == t.lost
  {
    FindIs(t.state.pending, t.us, t.next, t.next);
    i := Find(t.state.pending, t.state.next);
  }

  lemma PopTakesOldest(t: Truth, now: u64) returns (i: nat)
    requires Accounted(t) && t.us != [] && t.next !in t.us && !Waits(t.state, now)
    ensures i < |t.us| && Pop(t.state, now).0 == Some(t.state.pending[i]) && TookOut(t, Popped(t, now), i)
    ensures forall j :: 0 <= j < |t.us| ==> t.us[i] <= t.us[j]
    ensures Popped(t, now).next == t.us[i] + 1 && Popped(t, now).lost == t.lost + (t.us[i] - t.next)
  {
    FindIs(t.state.pending, t.us, t.next, t.next);
    i := SkipFinds(t);
    PopIs(t.state, now, i);
  }

  // ---- whole runs ----------------------------------------------------------------------------

  /** The packet with number `u` and these contents is pending or was released. */
  predicate Kept(t: Truth, u: int, e: Entry)
  {
    || (exists k :: 0 <= k < |t.us| && k < |t.state.pending| && t.us[k] == u && t.state.pending[k] == e)
    || (exists k :: 0 <= k < |t.released| && k < |t.out| && t.released[k] == u && t.out[k] == e)
  }

  datatype Event = Arrives(u: int, data: seq<byte>, now: u64) | Polls(now: u64)

  function After(t: Truth, e: Event): Truth
  {
    match e
    case Arrives(u, data, now) => Pushed(t, u, data, now)
    case Polls(now) => Popped(t, now)
  }

  /** After the first `n` events. */
  function Run(es: seq<Event>, n: nat): Truth
    requires n <= |es|
  {
    if n == 0 then NOTHING else After(Run(es, n - 1), es[n - 1])
  }

  predicate RunInWindow(es: seq<Event>, n: nat)
    requires n <= |es|
  {
    n > 0 ==> RunInWindow(es, n - 1) && (es[n - 1].Arrives? ==> InWindow(Run(es, n - 1), es[n - 1].u))
  }

  /** For every run of pushes and pops: released numbers strictly increase, the pending
      ones lie ahead in the half-window, and what lies between the first number and the
      next one due is exactly what was released plus what was counted lost. */
  lemma {:induction false} RunAccounted(es: seq<Event>, n: nat)
    requires n <= |es| && RunInWindow(es, n)
    ensures Accounted(Run(es, n))
  {
    if n > 0 {
      RunAccounted(es, n - 1);
      match es[n - 1]
      case Arrives(u, data, now) => PushAccounted(Run(es, n - 1), u, data, now);
      case Polls(now) => PopAccounted(Run(es, n - 1), now);
    }
  }

  /** A packet that is neither late nor already pending when it arrives. */
  predicate Welcome(t: Truth, u: int)
  {
    t.state.haveNext ==> u >= t.next && u !in t.us
  }

  lemma PushKeeps(t: Truth, u: int, data: seq<byte>, now: u64, v: int, e: Entry)
    requires Accounted(t) && InWindow(t, u) && Kept(t, v, e)
    ensures Kept(Pushed(t, u, data, now), v, e)
  {
    PushIs(t, u, data, now);
    var t1 := Pushed(t, u, data, now);
    if k :| 0 <= k < |t.us| && t.us[k] == v && t.state.pending[k] == e {
      assert t1.us[k] == v && t1.state.pending[k] == e;
    }
  }

  lemma PopKeeps(t: Truth, now: u64, v: int, e: Entry)
    requires Accounted(t) && (forall e <- t.state.pending :: e.arrived <= now) && Kept(t, v, e)
    ensures Kept(Popped(t, now), v, e)
  {
    var i := PopIsExactly(t, now);
    if Popped(t, now) != t {
      TakingKeeps(t, Popped(t, now), i, v, e);
    }
  }

  lemma TakingKeeps(t: Truth, t1: Truth, i: nat, v: int, e: Entry)
    requires |t.us| == |t.state.pending| && |t.released| == |t.out| && TookOut(t, t1, i)
    ensures Kept(t, v, e) <==> Kept(t1, v, e)
  {
    if Kept(t, v, e) { KeptAfterTaking(t, t1, i, v, e); }
    if Kept(t1, v, e) { KeptBeforeTaking(t, t1, i, v, e); }
  }

  lemma KeptAfterTaking(t: Truth, t1: Truth, i: nat, v: int, e: Entry)
    requires |t.us| == |t.state.pending| && |t.released| == |t.out| && TookOut(t, t1, i) && Kept(t, v, e)
    ensures Kept(t1, v, e)
  {
    if k :| 0 <= k < |t.us| && t.us[k] == v && t.state.pending[k] == e {
      if k == i {
        assert t1.released[|t.released|] == v && t1.out[|t.out|] == e;
      } else {
        var l := if k < i then k else k - 1;
        assert t1.us[l] == v && t1.state.pending[l] == e;
      }
    } else {
      var k :| 0 <= k < |t.released| && t.released[k] == v && t.out[k] == e;
      assert t1.released[k] == v && t1.out[k] == e;
    }
  }

  lemma KeptBeforeTaking(t: Truth, t1: Truth, i: nat, v: int, e: Entry)
    requires |t.us| == |t.state.pending| && |t.released| == |t.out| && TookOut(t, t1, i) && Kept(t1, v, e)
    ensures Kept(t, v, e)
  {
    if k :| 0 <= k < |t1.us| && t1.us[k] == v && t1.state.pending[k] == e {
      var l := if k < i then k else k + 1;
      assert t.us[l] == v && t.state.pending[l] == e;
    } else {
      var k :| 0 <= k < |t1.released| && t1.released[k] == v && t1.out[k] == e;
      if k < |t.released| {
        assert t.released[k] == v && t.out[k] == e;
      } else {
        assert t.us[i] == v && t.state.pending[i] == e;
      }
    }
  }

  /** The clock does not run backwards. */
  predicate Clocked(es: seq<Event>)
  {
    forall i :: 0 < i < |es| ==> es[i - 1].now <= es[i].now
  }

  /** Nothing pending is younger than the last event. */
  lemma {:induction false} RunYounger(es: seq<Event>, n: nat)
    requires n < |es| && RunInWindow(es, n) && Clocked(es)
    ensures forall e <- Run(es, n).state.pending :: e.arrived <= es[n].now
  {
    if n > 0 {
      RunAccounted(es, n - 1);
      RunYounger(es, n - 1);
      YoungerAfter(Run(es, n - 1), es[n - 1]);
    }
  }

  lemma YoungerAfter(t: Truth, ev: Event)
    requires StepReady(t, ev) && forall p <- t.state.pending :: p.arrived <= ev.now
    ensures forall p <- After(t, ev).state.pending :: p.arrived <= ev.now
  {
    match ev
    case Arrives(u, data, now) => PushIs(t, u, data, now);
    case Polls(now) =>
      var i := PopIsExactly(t, now);
  }

  /** What every step of a run finds. */
  predicate StepReady(t: Truth, ev: Event)
  {
    && Accounted(t) && (ev.Arrives? ==> InWindow(t, ev.u))
    && (ev.Polls? ==> forall p <- t.state.pending :: p.arrived <= ev.now)
  }

  lemma RunReady(es: seq<Event>, n: nat)
    requires n < |es| && RunInWindow(es, n + 1) && Clocked(es)
    ensures StepReady(Run(es, n), es[n])
  {
    RunAccounted(es, n);
    RunYounger(es, n);
  }

  lemma StepKeepsKept(t: Truth, ev: Event, v: int, e: Entry)
    requires StepReady(t, ev) && Kept(t, v, e)
    ensures Kept(After(t, ev), v, e)
  {
    match ev
    case Arrives(u, data, now) => PushKeeps(t, u, data, now, v, e);
    case Polls(now) => PopKeeps(t, now, v, e);
  }

  lemma WelcomeStep(t: Truth, u: int, data: seq<byte>, now: u64)
    requires Accounted(t) && InWindow(t, u) && Welcome(t, u)
    ensures Kept(Pushed(t, u, data, now), u, Entry(Wrap16(u), now, data))
  {
    PushIs(t, u, data, now);
    var t1 := Pushed(t, u, data, now);
    assert t1.us[|t.us|] == u && t1.state.pending[|t.us|] == Entry(Wrap16(u), now, data);
  }

  /** On every run, a packet that is neither late nor pending when it arrives is from then on
      pending or released, with just the data it came with. */
  lemma {:induction false} WelcomeIsKept(es: seq<Event>, i: nat, n: nat)
    requires i < n <= |es| && RunInWindow(es, n) && Clocked(es) && es[i].Arrives?
    requires Welcome(Run(es, i), es[i].u)
    ensures Kept(Run(es, n), es[i].u, Entry(Wrap16(es[i].u), es[i].now, es[i].data))
    decreases n
  {
    RunReady(es, n - 1);
    if i == n - 1 {
      WelcomeStep(Run(es, i), es[i].u, es[i].data, es[i].now);
    } else {
      WelcomeIsKept(es, i, n - 1);
      StepKeepsKept(Run(es, n - 1), es[n - 1], es[i].u, Entry(Wrap16(es[i].u), es[i].now, es[i].data));
    }
  }

  /** What is kept after an event was kept before it, or the event is its welcome arrival. */
  lemma KeptOrArrives(t: Truth, ev: Event, u: int, e: Entry)
    requires StepReady(t, ev) && Kept(After(t, ev), u, e)
    ensures Kept(t, u, e) || (ev == Arrives(u, e.data, e.arrived) && e.seqNo == Wrap16(u) && Welcome(t, u))
  {
    match ev
    case Arrives(v, data, now) =>
      if !Kept(t, u, e) { NewlyKept(t, v, data, now, u, e); }
    case Polls(now) =>
      var k := PopIsExactly(t, now);
      if Popped(t, now) != t { TakingKeeps(t, Popped(t, now), k, u, e); }
  }

  /** And nothing else is: whatever is pending or was released came in such an arrival. */
  lemma {:induction false} KeptWasWelcome(es: seq<Event>, n: nat, u: int, e: Entry) returns (i: nat)
    requires n <= |es| && RunInWindow(es, n) && Clocked(es) && Kept(Run(es, n), u, e)
    ensures i < n && es[i] == Arrives(u, e.data, e.arrived) && e.seqNo == Wrap16(u) && Welcome(Run(es, i), u)
    decreases n
  {
    RunReady(es, n - 1);
    KeptOrArrives(Run(es, n - 1), es[n - 1], u, e);
    i := n - 1;
    if Kept(Run(es, n - 1), u, e) {
      i := KeptWasWelcome(es, n - 1, u, e);
    }
  }

  lemma NewlyKept(t: Truth, v: int, data: seq<byte>, now: u64, u: int, e: Entry)
    requires Accounted(t) && InWindow(t, v) && Kept(Pushed(t, v, data, now), u, e) && !Kept(t, u, e)
    ensures u == v && e == Entry(Wrap16(v), now, data) && Welcome(t, v)
  {
    PushIs(t, v, data, now);
    var t1 := Pushed(t, v, data, now);
    var k :| (0 <= k < |t1.us| && t1.us[k] == u && t1.state.pending[k] == e)
      || (0 <= k < |t1.released| && t1.released[k] == u && t1.out[k] == e);
  }
}
