/** The thumbnail cache: a main thread that looks pictures up and takes finished ones, a
    worker that fetches them, a bounded queue newest first, and an LRU eviction with
    byte accounting.  A step is what one thread does under the lock, or to data only it
    touches, so an interleaving is a sequence of steps. */
module Thumbs {
  import opened Serial

  const MAX_QUEUE := 48

  type Key = string

  /** `w` is 0 for a cached miss, which has no pixels. */
  datatype Thumb = Thumb(w: nat, bytes: nat, lastUse: u32)
  {
    predicate Ok() { w > 0 }

    predicate Sound() { Ok() || bytes == 0 }
  }

  datatype Job = Job(key: Key, url: string)

  datatype Done = Done(key: Key, thumb: Thumb)

  /** `taken` is what pump has swapped out and not stored yet. */
  datatype State = State(
    cache: map<Key, Thumb>, bytes: int, tick: u32, budget: nat,
    pending: set<Key>, jobs: seq<Job>, inFlight: Option<Job>, done: seq<Done>, queued: int,
    pumping: bool, taken: seq<Done>)

  function Start(budget: nat): State
  {
    State(map[], 0, 0, budget, {}, [], None, [], 0, false, [])
  }

  datatype Step =
    | Get(key: Key, url: string)
    | Tick
    | PumpTake
    | PumpStore
    | PumpFinish
    | WorkerTake
    | WorkerDone(thumb: Thumb)

  // ---- the order of eviction --------------------------------------------------------------

  /** std::string's order. */
  predicate TextBefore(a: string, b: string)
  {
    if b == "" then false
    else if a == "" then true
    else a[0] < b[0] || (a[0] == b[0] && TextBefore(a[1..], b[1..]))
  }

  lemma {:induction false} TextTotal(a: string, b: string)
    ensures TextBefore(a, b) || TextBefore(b, a) || a == b
    ensures !(TextBefore(a, b) && TextBefore(b, a)) && !(a == b && TextBefore(a, b))
    decreases a
  {
    if a != "" && b != "" && a[0] == b[0] {
      TextTotal(a[1..], b[1..]);
      assert a == [a[0]] + a[1..] && b == [b[0]] + b[1..];
    }
  }

  lemma {:induction false} TextTransitive(a: string, b: string, c: string)
    requires TextBefore(a, b) && TextBefore(b, c)
    ensures TextBefore(a, c)
    decreases a
  {
    if a != "" && a[0] == b[0] == c[0] {
      TextTransitive(a[1..], b[1..], c[1..]);
    }
  }

  /** Least recently used first, ties by key. */
  predicate Before(cache: map<Key, Thumb>, a: Key, b: Key)
    requires a in cache && b in cache
  {
    cache[a].lastUse < cache[b].lastUse || (cache[a].lastUse == cache[b].lastUse && TextBefore(a, b))
  }

  predicate AllIn(ks: seq<Key>, cache: map<Key, Thumb>)
  {
    forall k <- ks :: k in cache
  }

  function Insert(k: Key, ks: seq<Key>, cache: map<Key, Thumb>): (r: seq<Key>)
    requires k in cache && AllIn(ks, cache)
    ensures |r| == |ks| + 1 && forall q :: q in r <==> q == k || q in ks
  {
    if ks == [] || Before(cache, k, ks[0]) then [k] + ks
    else [ks[0]] + Insert(k, ks[1..], cache)
  }

  function Sort(ks: seq<Key>, cache: map<Key, Thumb>): (r: seq<Key>)
    requires AllIn(ks, cache)
    ensures |r| == |ks| && forall q :: q in r <==> q in ks
  {
    if ks == [] then [] else Insert(ks[0], Sort(ks[1..], cache), cache)
  }

  predicate Sorted(ks: seq<Key>, cache: map<Key, Thumb>)
    requires AllIn(ks, cache)
  {
    ks != [] ==> (forall q <- ks[1..] :: Before(cache, ks[0], q)) && Sorted(ks[1..], cache)
  }

  lemma BeforeTransitive(cache: map<Key, Thumb>, a: Key, b: Key, c: Key)
    requires a in cache && b in cache && c in cache
    requires Before(cache, a, b) && Before(cache, b, c)
    ensures Before(cache, a, c)
  {
    if cache[a].lastUse == cache[b].lastUse == cache[c].lastUse {
      TextTransitive(a, b, c);
    }
  }

  lemma {:induction false} InsertSorted(k: Key, ks: seq<Key>, cache: map<Key, Thumb>)
    requires k in cache && AllIn(ks, cache) && Sorted(ks, cache) && k !in ks
    ensures Sorted(Insert(k, ks, cache), cache)
  {
    var r := Insert(k, ks, cache);
    if ks == [] {
      assert r[1..] == [];
    } else if Before(cache, k, ks[0]) {
      assert r[1..] == ks;
      forall q | q in ks ensures Before(cache, k, q) {
        if q != ks[0] { BeforeTransitive(cache, k, ks[0], q); }
      }
    } else {
      TextTotal(k, ks[0]);
      InsertSorted(k, ks[1..], cache);
      assert r[1..] == Insert(k, ks[1..], cache);
    }
  }

  lemma {:induction false} SortSorted(ks: seq<Key>, cache: map<Key, Thumb>)
    requires AllIn(ks, cache) && Distinct(ks)
    ensures Sorted(Sort(ks, cache), cache)
  {
    if ks != [] {
      SortSorted(ks[1..], cache);
      assert ks[0] !in ks[1..];
      InsertSorted(ks[0], Sort(ks[1..], cache), cache);
    }
  }

  lemma NotBeforeBack(cache: map<Key, Thumb>, a: Key, b: Key)
    requires a in cache && b in cache && Before(cache, a, b)
    ensures !Before(cache, b, a) && a != b
  {
    TextTotal(a, b);
  }

  /** There is only one eviction order, whatever order the map is walked in. */
  lemma {:induction false} SortedUnique(s: seq<Key>, t: seq<Key>, cache: map<Key, Thumb>)
    requires AllIn(s, cache) && AllIn(t, cache) && Sorted(s, cache) && Sorted(t, cache)
    requires forall q :: q in s <==> q in t
    ensures s == t
  {
    EmptyTogether(s, t);
    if s != [] {
      assert s[0] in t && t[0] in s;
      if s[0] != t[0] {
        assert s[0] in t[1..] && t[0] in s[1..];
        NotBeforeBack(cache, s[0], t[0]);
      }
      forall q ensures q in s[1..] <==> q in t[1..] {
        if q in s[1..] { NotBeforeBack(cache, s[0], q); assert q in t; }
        if q in t[1..] { NotBeforeBack(cache, t[0], q); assert q in s; }
      }
      SortedUnique(s[1..], t[1..], cache);
    }
  }

  // ---- bytes -----------------------------------------------------------------------------------

  ghost function SumBytes(m: map<Key, Thumb>): nat
    decreases |m|
  {
    if m == map[] then 0
    else
      var k :| k in m;
      assert |m - {k}| < |m| by { assert m.Keys == (m - {k}).Keys + {k}; }
      m[k].bytes + SumBytes(m - {k})
  }

  lemma {:induction false} SumRemove(m: map<Key, Thumb>, k: Key)
    requires k in m
    ensures SumBytes(m) == m[k].bytes + SumBytes(m - {k})
    decreases |m|
  {
    var c :| c in m && SumBytes(m) == m[c].bytes + SumBytes(m - {c});
    if c != k {
      var mc, mk := m - {c}, m - {k};
      assert m.Keys == mc.Keys + {c} && m.Keys == mk.Keys + {k};
      SumRemove(mc, k);
      SumRemove(mk, c);
      assert mc - {k} == mk - {c};
    }
  }

  lemma SumInsert(m: map<Key, Thumb>, k: Key, t: Thumb)
    requires k !in m
    ensures SumBytes(m[k := t]) == SumBytes(m) + t.bytes
  {
    SumRemove(m[k := t], k);
    assert m[k := t] - {k} == m;
  }

  lemma SumUpdate(m: map<Key, Thumb>, k: Key, t: Thumb)
    requires k in m && t.bytes == m[k].bytes
    ensures SumBytes(m[k := t]) == SumBytes(m)
  {
    SumRemove(m, k);
    SumRemove(m[k := t], k);
    assert m[k := t] - {k} == m - {k};
  }

  // ---- eviction ----------------------------------------------------------------------------------

  /** A picture may go unless it is a cached miss or was painted this tick. */
  predicate MayGo(cache: map<Key, Thumb>, tick: u32, k: Key)
    requires k in cache
  {
    cache[k].Ok() && cache[k].lastUse != tick
  }

  function Evictable(cache: map<Key, Thumb>, tick: u32): set<Key>
  {
    set k | k in cache && MayGo(cache, tick, k)
  }

  ghost function Enumerate(ks: set<Key>): (r: seq<Key>)
    ensures Distinct(r) && forall q :: q in r <==> q in ks
  {
    if ks == {} then []
    else
      var k :| k in ks;
      var rest := Enumerate(ks - {k});
      assert k !in rest;
      [k] + rest
  }

  /** The pictures that may go, least recently used first. */
  ghost function Lru(cache: map<Key, Thumb>, tick: u32): (r: seq<Key>)
    ensures forall q :: q in r <==> q in Evictable(cache, tick)
  {
    Sort(Enumerate(Evictable(cache, tick)), cache)
  }

  function Target(budget: nat): nat { budget - budget / 10 }

  /** Drop pictures in this order until the target is met. */
  function EvictFrom(cache: map<Key, Thumb>, bytes: int, order: seq<Key>, target: nat): (map<Key, Thumb>, int)
  {
    if order == [] || bytes <= target || order[0] !in cache then (cache, bytes)
    else EvictFrom(cache - {order[0]}, bytes - cache[order[0]].bytes, order[1..], target)
  }

  function Minus(cache: map<Key, Thumb>, gone: seq<Key>): map<Key, Thumb>
  {
    if gone == [] then cache else Minus(cache - {gone[0]}, gone[1..])
  }

  lemma {:induction false} MinusIs(cache: map<Key, Thumb>, gone: seq<Key>)
    ensures forall q :: q in Minus(cache, gone) <==> q in cache && q !in gone
    ensures forall q :: q in Minus(cache, gone) ==> Minus(cache, gone)[q] == cache[q]
  {
    if gone != [] {
      MinusIs(cache - {gone[0]}, gone[1..]);
    }
  }

  /** Eviction removes the first `n` of the order: no fewer than needed, and it ends
      within the target or with nothing left that may go. */
  ghost predicate EvictedPrefix(cache: map<Key, Thumb>, order: seq<Key>, target: nat,
                                after: map<Key, Thumb>, n: nat)
  {
    && n <= |order| && after == Minus(cache, order[..n])
    && (forall i :: 0 <= i < n ==> SumBytes(Minus(cache, order[..i])) > target)
    && (n == |order| || SumBytes(after) <= target)
  }

  lemma {:induction false} EvictFromIs(cache: map<Key, Thumb>, order: seq<Key>, target: nat) returns (n: nat)
    requires AllIn(order, cache) && Distinct(order)
    ensures
      var r := EvictFrom(cache, SumBytes(cache), order, target);
      EvictedPrefix(cache, order, target, r.0, n) && r.1 == SumBytes(r.0)
  {
    if order == [] || SumBytes(cache) <= target {
      n := 0;
    } else {
      SumRemove(cache, order[0]);
      assert order[0] !in order[1..];
      var m := EvictFromIs(cache - {order[0]}, order[1..], target);
      n := m + 1;
      assert order[..n][1..] == order[1..][..m];
      forall i | 0 <= i < n ensures SumBytes(Minus(cache, order[..i])) > target {
        if i > 0 {
          assert order[..i][1..] == order[1..][..i - 1];
        }
      }
    }
  }

  // ---- the steps -----------------------------------------------------------------------------------

  function AfterGet(s: State, key: Key, url: string): State
  {
    if key in s.cache then s.(cache := s.cache[key := s.cache[key].(lastUse := s.tick)])
    else if url == "" || key == "" || key in s.pending then s
    else
      var jobs := [Job(key, url)] + s.jobs;
      if |jobs| > MAX_QUEUE then
        s.(pending := (s.pending + {key}) - {jobs[|jobs| - 1].key},
           jobs := jobs[..|jobs| - 1], queued := |jobs| - 1)
      else s.(pending := s.pending + {key}, jobs := jobs, queued := |jobs|)
  }

  function DoneKeys(ds: seq<Done>): (r: seq<Key>)
    ensures |r| == |ds| && forall i :: 0 <= i < |ds| ==> r[i] == ds[i].key
  {
    seq(|ds|, i requires 0 <= i < |ds| => ds[i].key)
  }

  function JobKeys(js: seq<Job>): (r: seq<Key>)
    ensures |r| == |js| && forall i :: 0 <= i < |js| ==> r[i] == js[i].key
  {
    seq(|js|, i requires 0 <= i < |js| => js[i].key)
  }

  function KeySet(ks: seq<Key>): set<Key> { set k | k in ks }

  ghost function AfterFinish(s: State): State
  {
    if s.bytes > s.budget then
      var (cache, bytes) := EvictFrom(s.cache, s.bytes, Lru(s.cache, s.tick), Target(s.budget));
      s.(cache := cache, bytes := bytes, pumping := false)
    else s.(pumping := false)
  }

  /** One step; one that is not enabled does nothing.  get, tick and pump run on the main
      thread, one at a time. */
  ghost function Next(s: State, step: Step): State
  {
    match step
    case Get(key, url) => if s.pumping then s else AfterGet(s, key, url)
    case Tick => if s.pumping then s else s.(tick := Add32(s.tick, 1))
    case PumpTake =>
      if s.pumping || s.done == [] then s
      else s.(pumping := true, taken := s.done, done := [], pending := s.pending - KeySet(DoneKeys(s.done)))
    case PumpStore =>
      if s.taken == [] then s
      else
        var d := s.taken[0];
        s.(bytes := s.bytes + d.thumb.bytes, taken := s.taken[1..],
           cache := s.cache[d.key := d.thumb.(lastUse := s.tick)])
    case PumpFinish => if s.pumping && s.taken == [] then AfterFinish(s) else s
    case WorkerTake =>
      if s.inFlight.Some? || s.jobs == [] then s
      else s.(inFlight := Some(s.jobs[0]), jobs := s.jobs[1..], queued := |s.jobs| - 1)
    case WorkerDone(thumb) =>
      if s.inFlight.None? || !thumb.Sound() then s
      else s.(inFlight := None, done := s.done + [Done(s.inFlight.value.key, thumb)])
  }

  // ---- what every step keeps ---------------------------------------------------------------------------

  function Queued(s: State): set<Key> { KeySet(JobKeys(s.jobs)) }

  function Working(s: State): set<Key>
  {
    match s.inFlight case None => {} case Some(j) => {j.key}
  }

  function Finished(s: State): set<Key> { KeySet(DoneKeys(s.done)) }

  /** Pending is exactly the disjoint union of queued, in-flight and finished. */
  predicate PendingExact(s: State)
  {
    && Distinct(JobKeys(s.jobs)) && Distinct(DoneKeys(s.done))
    && Queued(s) !! Working(s) && Queued(s) !! Finished(s) && Working(s) !! Finished(s)
    && s.pending == Queued(s) + Working(s) + Finished(s)
    && |s.jobs| <= MAX_QUEUE && s.queued == |s.jobs|
  }

  /** What pump holds is no longer pending and not yet in the cache. */
  predicate TakenApart(s: State)
  {
    && Distinct(DoneKeys(s.taken)) && (!s.pumping ==> s.taken == [])
    && s.cache.Keys !! s.pending
    && KeySet(DoneKeys(s.taken)) !! s.pending && KeySet(DoneKeys(s.taken)) !! s.cache.Keys
  }

  /** The byte count is the summed size of the cached pictures; misses have none. */
  ghost predicate BytesExact(s: State)
  {
    && s.bytes == SumBytes(s.cache)
    && (forall d <- s.done :: d.thumb.Sound()) && (forall d <- s.taken :: d.thumb.Sound())
    && (forall k :: k in s.cache ==> s.cache[k].Sound())
  }

  ghost predicate Inv(s: State)
  {
    PendingExact(s) && TakenApart(s) && BytesExact(s)
  }

  lemma KeySetFirst(ks: seq<Key>)
    requires ks != []
    ensures KeySet(ks) == {ks[0]} + KeySet(ks[1..])
    ensures Distinct(ks) ==> ks[0] !in KeySet(ks[1..]) && Distinct(ks[1..])
  {
  }

  lemma KeySetLast(ks: seq<Key>)
    requires ks != []
    ensures KeySet(ks) == KeySet(ks[..|ks| - 1]) + {ks[|ks| - 1]}
    ensures Distinct(ks) ==> ks[|ks| - 1] !in KeySet(ks[..|ks| - 1]) && Distinct(ks[..|ks| - 1])
  {
  }

  lemma KeySetAdd(ks: seq<Key>, k: Key)
    ensures KeySet([k] + ks) == {k} + KeySet(ks) && KeySet(ks + [k]) == KeySet(ks) + {k}
    ensures Distinct(ks) && k !in KeySet(ks) ==> Distinct([k] + ks) && Distinct(ks + [k])
  {
  }

  /** Queue keys after a new request, and after dropping the oldest one. */
  lemma NewJobKeys(js: seq<Job>, job: Job)
    requires Distinct(JobKeys(js)) && job.key !in KeySet(JobKeys(js))
    ensures
      var all := [job] + js;
      && Distinct(JobKeys(all)) && KeySet(JobKeys(all)) == {job.key} + KeySet(JobKeys(js))
      && var kept := all[..|js|];
         Distinct(JobKeys(kept)) && KeySet(JobKeys(kept)) == KeySet(JobKeys(all)) - {all[|js|].key}
         && all[|js|].key in KeySet(JobKeys(all))
  {
    var all := [job] + js;
    KeySetAdd(JobKeys(js), job.key);
    assert JobKeys(all) == [job.key] + JobKeys(js);
    KeySetLast(JobKeys(all));
    assert JobKeys(all[..|js|]) == JobKeys(all)[..|js|];
  }

  lemma GetHitKeeps(s: State, key: Key, url: string)
    requires Inv(s) && key in s.cache
    ensures Inv(AfterGet(s, key, url))
  {
    SumUpdate(s.cache, key, s.cache[key].(lastUse := s.tick));
    assert AfterGet(s, key, url).cache.Keys == s.cache.Keys;
  }

  lemma GetMissKeeps(s: State, key: Key, url: string)
    requires Inv(s) && !s.pumping && key !in s.cache && url != "" && key != "" && key !in s.pending
    ensures Inv(AfterGet(s, key, url))
  {
    NewJobKeys(s.jobs, Job(key, url));
    var s1 := AfterGet(s, key, url);
    var js := [Job(key, url)] + s.jobs;
    if |js| > MAX_QUEUE {
      var last := js[|s.jobs|].key;
      assert Queued(s1) == ({key} + Queued(s)) - {last};
      assert last !in Working(s) && last !in Finished(s);
    } else {
      assert Queued(s1) == {key} + Queued(s);
    }
    assert PendingExact(s1);
  }

  lemma GetKeeps(s: State, key: Key, url: string)
    requires Inv(s) && !s.pumping
    ensures Inv(AfterGet(s, key, url))
  {
    if key in s.cache {
      GetHitKeeps(s, key, url);
    } else if url != "" && key != "" && key !in s.pending {
      GetMissKeeps(s, key, url);
    }
  }

  lemma WorkerKeeps(s: State, step: Step)
    requires Inv(s) && (step.WorkerTake? || step.WorkerDone?)
    ensures Inv(Next(s, step))
  {
    match step
    case WorkerTake =>
      if s.inFlight.None? && s.jobs != [] {
        KeySetFirst(JobKeys(s.jobs));
        assert JobKeys(s.jobs[1..]) == JobKeys(s.jobs)[1..];
      }
    case WorkerDone(thumb) =>
      if s.inFlight.Some? && thumb.Sound() {
        var k := s.inFlight.value.key;
        KeySetAdd(DoneKeys(s.done), k);
        assert DoneKeys(s.done + [Done(k, thumb)]) == DoneKeys(s.done) + [k];
      }
  }

  lemma PumpTakeKeeps(s: State)
    requires Inv(s)
    ensures Inv(Next(s, PumpTake))
  {
    assert JobKeys([]) == [] && KeySet(DoneKeys([])) == {};
  }

  lemma PumpStoreKeeps(s: State)
    requires Inv(s)
    ensures Inv(Next(s, PumpStore))
  {
    if s.taken != [] {
      var d := s.taken[0];
      KeySetFirst(DoneKeys(s.taken));
      assert DoneKeys(s.taken[1..]) == DoneKeys(s.taken)[1..];
      SumInsert(s.cache, d.key, d.thumb.(lastUse := s.tick));
      assert Next(s, PumpStore).cache.Keys == s.cache.Keys + {d.key};
    }
  }

  lemma LruReady(s: State)
    ensures AllIn(Lru(s.cache, s.tick), s.cache) && Distinct(Lru(s.cache, s.tick))
    ensures Sorted(Lru(s.cache, s.tick), s.cache)
  {
    var ks := Enumerate(Evictable(s.cache, s.tick));
    assert AllIn(ks, s.cache);
    SortSorted(ks, s.cache);
    SortedDistinct(Lru(s.cache, s.tick), s.cache);
  }

  lemma {:induction false} SortedDistinct(ks: seq<Key>, cache: map<Key, Thumb>)
    requires AllIn(ks, cache) && Sorted(ks, cache)
    ensures Distinct(ks)
  {
    if ks != [] {
      SortedDistinct(ks[1..], cache);
      forall j | 0 < j < |ks| ensures ks[0] != ks[j] {
        assert ks[j] in ks[1..];
        NotBeforeBack(cache, ks[0], ks[j]);
      }
      forall i, j | 0 <= i < j < |ks| ensures ks[i] != ks[j] {
        if i > 0 { assert ks[i] == ks[1..][i - 1] && ks[j] == ks[1..][j - 1]; }
      }
    }
  }

  lemma PumpFinishKeeps(s: State)
    requires Inv(s)
    ensures Inv(Next(s, PumpFinish))
  {
    if s.pumping && s.taken == [] && s.bytes > s.budget {
      var order := Lru(s.cache, s.tick);
      LruReady(s);
      var n := EvictFromIs(s.cache, order, Target(s.budget));
      MinusIs(s.cache, order[..n]);
    }
  }

  /** Every step of either thread keeps the books: pending keys, the bounded queue, the
      bytes, and nothing cached that is still pending. */
  lemma StepKeeps(s: State, step: Step)
    requires Inv(s)
    ensures Inv(Next(s, step))
  {
    match step
    case Get(key, url) => if !s.pumping { GetKeeps(s, key, url); }
    case Tick =>
    case PumpTake => PumpTakeKeeps(s);
    case PumpStore => PumpStoreKeeps(s);
    case PumpFinish => PumpFinishKeeps(s);
    case WorkerTake => WorkerKeeps(s, step);
    case WorkerDone(_) => WorkerKeeps(s, step);
  }

  ghost function Run(budget: nat, steps: seq<Step>): State
  {
    if steps == [] then Start(budget) else Next(Run(budget, steps[..|steps| - 1]), steps[|steps| - 1])
  }

  /** In every interleaving of the two threads. */
  lemma {:induction false} RunKeeps(budget: nat, steps: seq<Step>)
    ensures Inv(Run(budget, steps))
  {
    if steps == [] {
      assert KeySet(JobKeys([])) == {} && KeySet(DoneKeys([])) == {};
    } else {
      RunKeeps(budget, steps[..|steps| - 1]);
      StepKeeps(Run(budget, steps[..|steps| - 1]), steps[|steps| - 1]);
    }
  }

  /** What finishing a pump over budget does: it drops the first `n` of the pictures not
      painted this tick, least recently used first, no more than it takes to come down
      to nine tenths of the budget, and keeps everything else. */
  lemma EvictionIs(s: State) returns (n: nat)
    requires Inv(s) && s.pumping && s.taken == [] && s.bytes > s.budget
    ensures
      var s1 := Next(s, PumpFinish);
      var order := Lru(s.cache, s.tick);
      && Sorted(order, s.cache) && EvictedPrefix(s.cache, order, Target(s.budget), s1.cache, n)
      && (forall q :: q in s1.cache <==> q in s.cache && q !in order[..n])
      && (forall q :: q in s1.cache ==> s1.cache[q] == s.cache[q])
      && (forall q :: q in s.cache && q !in s1.cache ==> s.cache[q].w > 0 && s.cache[q].lastUse != s.tick)
      && (s1.bytes <= s.budget - s.budget / 10
          || forall q :: q in s1.cache ==> s1.cache[q].w == 0 || s1.cache[q].lastUse == s1.tick)
  {
    var order := Lru(s.cache, s.tick);
    LruReady(s);
    n := EvictFromIs(s.cache, order, Target(s.budget));
    DroppedIs(s, order, n);
  }

  /** What is dropped may go, and if the whole order is dropped nothing that may go is left. */
  lemma DroppedIs(s: State, order: seq<Key>, n: nat)
    requires order == Lru(s.cache, s.tick) && n <= |order|
    ensures
      var left := Minus(s.cache, order[..n]);
      && (forall q :: q in left <==> q in s.cache && q !in order[..n])
      && (forall q :: q in left ==> left[q] == s.cache[q])
      && (forall q :: q in s.cache && q !in left ==> MayGo(s.cache, s.tick, q))
      && (n == |order| ==> forall q :: q in left ==> !MayGo(left, s.tick, q))
  {
    MinusIs(s.cache, order[..n]);
    assert forall q :: q in order[..n] ==> q in order;
    assert order[..|order|] == order;
  }

  // ---- last use, from the steps alone --------------------------------------------------------------------

  /** Ticks so far: none passes during a pump. */
  ghost function TicksOf(budget: nat, steps: seq<Step>): nat
  {
    if steps == [] then 0
    else
      var before := steps[..|steps| - 1];
      TicksOf(budget, before) + (if steps[|steps| - 1].Tick? && !Run(budget, before).pumping then 1 else 0)
  }

  /** In which tick a cached picture was last looked up or, if never since, stored. */
  ghost function UsedAt(budget: nat, steps: seq<Step>, q: Key): nat
  {
    if steps == [] then 0
    else
      var before := steps[..|steps| - 1];
      var s := Run(budget, before);
      match steps[|steps| - 1]
      case Get(key, _) => if key == q && !s.pumping then TicksOf(budget, before) else UsedAt(budget, before, q)
      case PumpStore =>
        if s.taken != [] && s.taken[0].key == q then TicksOf(budget, before) else UsedAt(budget, before, q)
      case _ => UsedAt(budget, before, q)
  }

  /** The cache's clock and its last uses are those, in 32 bits. */
  ghost predicate UsesFollow(budget: nat, steps: seq<Step>)
  {
    var s := Run(budget, steps);
    && s.tick == Wrap32(TicksOf(budget, steps))
    && forall q <- s.cache :: s.cache[q].lastUse == Wrap32(UsedAt(budget, steps, q))
  }

  /** In every interleaving the last use of a picture is when it was last looked up or stored. */
  lemma {:induction false} RunUsesFollow(budget: nat, steps: seq<Step>)
    ensures UsesFollow(budget, steps)
  {
    if steps != [] {
      var before := steps[..|steps| - 1];
      RunUsesFollow(budget, before);
      RunKeeps(budget, before);
      StepUses(budget, before, steps[|steps| - 1], steps);
    }
  }

  lemma StepUses(budget: nat, before: seq<Step>, step: Step, steps: seq<Step>)
    requires steps == before + [step] && steps[..|steps| - 1] == before
    requires UsesFollow(budget, before) && Inv(Run(budget, before))
    ensures UsesFollow(budget, steps)
  {
    match step
    case Tick => NextTick(TicksOf(budget, before));
    case PumpFinish => FinishSheds(Run(budget, before));
    case Get(key, url) => GetUses(budget, before, key, url, steps);
    case PumpStore => StoreUses(budget, before, steps);
    case _ =>
  }

  lemma GetUses(budget: nat, before: seq<Step>, key: Key, url: string, steps: seq<Step>)
    requires steps == before + [Get(key, url)] && steps[..|steps| - 1] == before
    requires UsesFollow(budget, before)
    ensures UsesFollow(budget, steps)
  {
  }

  lemma StoreUses(budget: nat, before: seq<Step>, steps: seq<Step>)
    requires steps == before + [PumpStore] && steps[..|steps| - 1] == before
    requires UsesFollow(budget, before)
    ensures UsesFollow(budget, steps)
  {
  }

  lemma NextTick(n: nat)
    ensures Add32(Wrap32(n), 1) == Wrap32(n + 1)
  {
  }

  /** Finishing a pump only ever takes pictures away, and none within the budget. */
  lemma FinishSheds(s: State)
    requires Inv(s)
    ensures s.bytes <= s.budget ==> Next(s, PumpFinish).cache == s.cache
    ensures forall q <- Next(s, PumpFinish).cache :: q in s.cache && Next(s, PumpFinish).cache[q] == s.cache[q]
    ensures Next(s, PumpFinish).tick == s.tick && (Next(s, PumpFinish).pumping <==> s.pumping && s.taken != [])
  {
    if s.pumping && s.taken == [] && s.bytes > s.budget {
      var n := EvictionIs(s);
    }
  }

  /** A picture looked up or stored in the current tick is never evicted, nor is a miss. */
  lemma UsedNowSurvives(budget: nat, steps: seq<Step>, q: Key)
    requires q in Run(budget, steps).cache
    requires UsedAt(budget, steps, q) == TicksOf(budget, steps) || Run(budget, steps).cache[q].w == 0
    ensures q in Run(budget, steps + [PumpFinish]).cache
  {
    RunUsesFollow(budget, steps);
    RunKeeps(budget, steps);
    assert (steps + [PumpFinish])[..|steps|] == steps;
    var s := Run(budget, steps);
    if s.pumping && s.taken == [] && s.bytes > s.budget {
      var n := EvictionIs(s);
    }
  }

  /** While fewer than 2^32 ticks have passed: eviction never takes a picture and leaves one
      that may go and was used before it. */
  lemma EvictsOldestUse(budget: nat, steps: seq<Step>, gone: Key, left: Key)
    requires TicksOf(budget, steps) < TWO32
    requires
      var s, s1 := Run(budget, steps), Run(budget, steps + [PumpFinish]);
      gone in s.cache && gone !in s1.cache && left in s1.cache && s1.cache[left].w > 0
    ensures UsedAt(budget, steps, left) == TicksOf(budget, steps)
         || UsedAt(budget, steps, gone) <= UsedAt(budget, steps, left)
  {
    RunUsesFollow(budget, steps);
    RunKeeps(budget, steps);
    assert (steps + [PumpFinish])[..|steps|] == steps;
    var s := Run(budget, steps);
    UsedBefore(budget, steps, gone);
    UsedBefore(budget, steps, left);
    SmallWrap(UsedAt(budget, steps, gone));
    SmallWrap(UsedAt(budget, steps, left));
    SmallWrap(TicksOf(budget, steps));
    FinishSheds(s);
    if s.pumping && s.taken == [] && s.bytes > s.budget && MayGo(s.cache, s.tick, left) {
      var n := EvictionIs(s);
      GoneBeforeLeft(s, n, gone, left);
    }
  }

  lemma {:induction false} UsedBefore(budget: nat, steps: seq<Step>, q: Key)
    ensures UsedAt(budget, steps, q) <= TicksOf(budget, steps)
  {
    if steps != [] {
      UsedBefore(budget, steps[..|steps| - 1], q);
    }
  }

  lemma GoneBeforeLeft(s: State, n: nat, gone: Key, left: Key)
    requires
      var order := Lru(s.cache, s.tick);
      && n <= |order| && AllIn(order, s.cache) && Sorted(order, s.cache)
      && gone in order[..n] && left in order && left !in order[..n]
    ensures Before(s.cache, gone, left)
  {
    var order := Lru(s.cache, s.tick);
    var i :| 0 <= i < n && order[i] == gone;
    var j :| 0 <= j < |order| && order[j] == left;
    assert forall k :: 0 <= k < n ==> order[k] in order[..n];
    SortedPairwise(order, s.cache, i, j);
  }

  lemma {:induction false} SortedPairwise(ks: seq<Key>, cache: map<Key, Thumb>, i: nat, j: nat)
    requires AllIn(ks, cache) && Sorted(ks, cache) && i < j < |ks|
    ensures Before(cache, ks[i], ks[j])
  {
    if i == 0 {
      assert ks[j] in ks[1..];
    } else {
      SortedPairwise(ks[1..], cache, i - 1, j - 1);
    }
  }

  /** Looking up changes nothing but the last use of a picture that is there; a picture that
      is neither there nor asked for becomes the first job, pushing out the oldest of 48;
      anything else changes nothing. */
  lemma GetIs(s: State, key: Key, url: string)
    requires Inv(s) && !s.pumping
    ensures
      var s1 := Next(s, Get(key, url));
      && s1.bytes == s.bytes && s1.tick == s.tick && s1.budget == s.budget && s1.done == s.done
      && s1.inFlight == s.inFlight && s1.taken == s.taken && !s1.pumping && s1.cache.Keys == s.cache.Keys
      && (forall q <- s.cache :: q != key ==> s1.cache[q] == s.cache[q])
      && (key in s.cache ==> s1.cache[key] == Thumb(s.cache[key].w, s.cache[key].bytes, s.tick))
      && if key in s.cache || url == "" || key == "" || key in s.pending then
           s1.jobs == s.jobs && s1.pending == s.pending
         else if |s.jobs| < 48 then s1.jobs == [Job(key, url)] + s.jobs && s1.pending == s.pending + {key}
         else s1.jobs == [Job(key, url)] + s.jobs[..47] && s1.pending == (s.pending - {s.jobs[47].key}) + {key}
  {
    if key !in s.cache && url != "" && key != "" && key !in s.pending {
      var jobs := [Job(key, url)] + s.jobs;
      assert |jobs| > 48 ==> jobs[..|jobs| - 1] == [Job(key, url)] + s.jobs[..47] && jobs[48] == s.jobs[47];
      assert |jobs| > 48 ==> JobKeys(s.jobs)[47] == s.jobs[47].key && s.jobs[47].key in KeySet(JobKeys(s.jobs));
    }
  }

  // ---- from the queue to the cache ---------------------------------------------------------------------

  /** The rest of pump's second loop. */
  ghost function StoreAll(s: State): State
    decreases |s.taken|
  {
    if s.taken == [] then s else StoreAll(Next(s, PumpStore))
  }

  /** Everything taken is stored under its key, used in this tick, and nothing else changes. */
  lemma {:induction false} StoreAllIs(s: State)
    requires Distinct(DoneKeys(s.taken))
    ensures
      var s1 := StoreAll(s);
      && s1 == s.(cache := s1.cache, bytes := s1.bytes, taken := [])
      && (forall d <- s.taken :: d.key in s1.cache && s1.cache[d.key] == Thumb(d.thumb.w, d.thumb.bytes, s.tick))
      && (forall q :: q !in KeySet(DoneKeys(s.taken)) ==>
            (q in s1.cache <==> q in s.cache) && (q in s.cache ==> s1.cache[q] == s.cache[q]))
    decreases |s.taken|
  {
    if s.taken != [] {
      var s1 := Next(s, PumpStore);
      DoneKeysFirst(s.taken);
      StoreAllIs(s1);
      assert forall d :: d in s.taken ==> d == s.taken[0] || d in s.taken[1..];
    }
  }

  lemma DoneKeysFirst(ds: seq<Done>)
    requires ds != [] && Distinct(DoneKeys(ds))
    ensures Distinct(DoneKeys(ds[1..])) && ds[0].key !in KeySet(DoneKeys(ds[1..]))
    ensures KeySet(DoneKeys(ds)) == {ds[0].key} + KeySet(DoneKeys(ds[1..]))
  {
    assert DoneKeys(ds)[1..] == DoneKeys(ds[1..]);
    KeySetFirst(DoneKeys(ds));
  }

  /** What the worker does to the newest job. */
  lemma WorkedIs(s: State, thumb: Thumb)
    requires Inv(s) && s.inFlight.None? && s.jobs != [] && thumb.Sound()
    ensures
      var worked := Next(Next(s, WorkerTake), WorkerDone(thumb));
      && Inv(worked)
      && worked == s.(jobs := s.jobs[1..], queued := |s.jobs| - 1, done := s.done + [Done(s.jobs[0].key, thumb)])
  {
    WorkerKeeps(s, WorkerTake);
    WorkerKeeps(Next(s, WorkerTake), WorkerDone(thumb));
  }

  /** What a pump stores. */
  lemma PumpStores(s: State)
    requires Inv(s) && !s.pumping && s.done != []
    ensures
      var s1 := StoreAll(Next(s, PumpTake));
      && s1 == s.(cache := s1.cache, bytes := s1.bytes, taken := [], done := [], pumping := true,
                  pending := s.pending - KeySet(DoneKeys(s.done)))
      && forall d <- s.done :: d.key in s1.cache && s1.cache[d.key] == Thumb(d.thumb.w, d.thumb.bytes, s.tick)
  {
    StoreAllIs(Next(s, PumpTake));
  }

  /** The newest job, once the worker has fetched it and pump has run, is in the cache with
      just what was fetched, or as a miss; and so is everything else that was finished. */
  lemma JobReachesCache(s: State, thumb: Thumb)
    requires Inv(s) && !s.pumping && s.inFlight.None? && s.jobs != [] && thumb.Sound()
    ensures
      var s1 := StoreAll(Next(Next(Next(s, WorkerTake), WorkerDone(thumb)), PumpTake));
      && s1.jobs == s.jobs[1..] && s1.inFlight == None && s1.done == [] && s1.pumping
      && s1.pending == s.pending - (KeySet(DoneKeys(s.done)) + {s.jobs[0].key})
      && s.jobs[0].key in s1.cache && s1.cache[s.jobs[0].key] == Thumb(thumb.w, thumb.bytes, s.tick)
      && forall d <- s.done :: d.key in s1.cache && s1.cache[d.key] == Thumb(d.thumb.w, d.thumb.bytes, s.tick)
  {
    var d := Done(s.jobs[0].key, thumb);
    WorkedIs(s, thumb);
    DoneKeysLast(s.done, d);
    PumpStores(Next(Next(s, WorkerTake), WorkerDone(thumb)));
    assert d in s.done + [d] && forall e :: e in s.done ==> e in s.done + [d];
  }

  lemma DoneKeysLast(ds: seq<Done>, d: Done)
    ensures KeySet(DoneKeys(ds + [d])) == KeySet(DoneKeys(ds)) + {d.key}
  {
    assert DoneKeys(ds + [d]) == DoneKeys(ds) + [d.key];
    KeySetAdd(DoneKeys(ds), d.key);
  }

  // ---- the program -------------------------------------------------------------------------------------

  class Cache {
    var cache: map<Key, Thumb>
    var bytes: int
    var tick: u32
    const budget: nat
    var pending: set<Key>
    var jobs: seq<Job>
    var inFlight: Option<Job>
    var done: seq<Done>
    var queued: int
    var pumping: bool
    var taken: seq<Done>

    function Value(): State
      reads this
    {
      State(cache, bytes, tick, budget, pending, jobs, inFlight, done, queued, pumping, taken)
    }

    constructor (budget: nat)
      ensures Value() == Start(budget)
    {
      cache, bytes, tick, this.budget := map[], 0, 0, budget;
      pending, jobs, inFlight, done, queued := {}, [], None, [], 0;
      pumping, taken := false, [];
    }

    /** get, on the main thread. */
    method Get(key: Key, url: string) returns (r: Option<Thumb>)
      requires !pumping
      modifies this
      ensures Value() == Next(old(Value()), Step.Get(key, url))
      ensures r == if key in cache then Some(cache[key]) else None
    {
      if key in cache {
        cache := cache[key := cache[key].(lastUse := tick)];
        return Some(cache[key]);
      }
      if url == "" || key == "" { return None; }
      if key !in pending {
        pending := pending + {key};
        jobs := [Job(key, url)] + jobs;
        if |jobs| > MAX_QUEUE {
          pending := pending - {jobs[|jobs| - 1].key};
          jobs := jobs[..|jobs| - 1];
        }
        queued := |jobs|;
      }
      return None;
    }

    method TickOnce()
      requires !pumping
      modifies this`tick
      ensures Value() == Next(old(Value()), Step.Tick)
    {
      tick := Add32(tick, 1);
    }

    /** The locked half of pump. */
    method TakeDone() returns (any: bool)
      requires !pumping
      modifies this
      ensures Value() == Next(old(Value()), Step.PumpTake) && any == pumping
    {
      if done == [] { return false; }
      taken, done := done, [];
      pumping := true;
      ErasePending();
      return true;
    }

    /** What was swapped out is no longer pending. */
    method ErasePending()
      modifies this`pending
      ensures pending == old(pending) - KeySet(DoneKeys(taken))
    {
      ghost var all := DoneKeys(taken);
      for i := 0 to |taken|
        invariant pending == old(pending) - KeySet(all[..i])
      {
        KeySetLast(all[..i + 1]);
        assert all[..i + 1][..i] == all[..i];
        pending := pending - {taken[i].key};
      }
      assert all[..|taken|] == all;
    }

    /** One turn of pump's second loop. */
    method StoreOne()
      requires taken != []
      modifies this`bytes, this`cache, this`taken
      ensures Value() == Next(old(Value()), Step.PumpStore)
    {
      var d := taken[0];
      bytes := bytes + d.thumb.bytes;
      cache := cache[d.key := d.thumb.(lastUse := tick)];
      taken := taken[1..];
    }

    method FinishPump()
      requires Inv(Value()) && pumping && taken == []
      modifies this`cache, this`bytes, this`pumping
      ensures Value() == Next(old(Value()), Step.PumpFinish)
    {
      if bytes > budget { Evict(); }
      pumping := false;
    }

    /** evict: collect, sort, drop until the target is met. */
    method Evict()
      requires Inv(Value())
      modifies this`cache, this`bytes
      ensures (cache, bytes) == EvictFrom(old(cache), old(bytes), Lru(old(cache), tick), Target(budget))
    {
      var order := Candidates();
      SameOrder(order, Value());
      LruReady(Value());
      DropInOrder(Sort(order, cache));
    }

    method DropInOrder(order: seq<Key>)
      requires AllIn(order, cache) && Distinct(order)
      modifies this`cache, this`bytes
      ensures (cache, bytes) == EvictFrom(old(cache), old(bytes), order, Target(budget))
    {
      var i := 0;
      while i < |order| && bytes > budget - budget / 10
        invariant 0 <= i <= |order|
        invariant AllIn(order[i..], cache)
        invariant EvictFrom(cache, bytes, order[i..], Target(budget))
               == EvictFrom(old(cache), old(bytes), order, Target(budget))
      {
        var rest := order[i..];
        assert rest[0] == order[i] && rest[1..] == order[i + 1..];
        assert order[i] !in order[i + 1..];
        bytes := bytes - cache[order[i]].bytes;
        cache := cache - {order[i]};
        i := i + 1;
      }
    }

    /** The pictures that may go, in whatever order the map is walked. */
    method Candidates() returns (order: seq<Key>)
      ensures AllIn(order, cache) && Distinct(order)
      ensures forall q :: q in order <==> q in Evictable(cache, tick)
    {
      order := [];
      var ks := cache.Keys;
      while ks != {}
        invariant ks <= cache.Keys && Distinct(order)
        invariant forall q :: q in order <==> q in cache.Keys - ks && MayGo(cache, tick, q)
        decreases |ks|
      {
        var k :| k in ks;
        assert k !in order;
        assert cache.Keys - (ks - {k}) == (cache.Keys - ks) + {k};
        if cache[k].Ok() && cache[k].lastUse != tick {
          order := order + [k];
        }
        ks := ks - {k};
      }
    }

    /** pump, when the worker does not get in between. */
    method Pump() returns (any: bool)
      requires Inv(Value()) && !pumping
      modifies this
      ensures Inv(Value()) && !pumping && any == (old(done) != [])
      ensures !any ==> Value() == old(Value())
      ensures any ==> done == [] && (bytes <= budget || forall k :: k in cache ==> !MayGo(cache, tick, k))
    {
      PumpTakeKeeps(Value());
      any := TakeDone();
      if !any { return; }
      while taken != []
        invariant Inv(Value()) && pumping && done == []
        decreases |taken|
      {
        PumpStoreKeeps(Value());
        StoreOne();
      }
      PumpFinishKeeps(Value());
      ghost var before := Value();
      FinishPump();
      if before.bytes > before.budget {
        ghost var n := EvictionIs(before);
      }
    }

    /** The worker takes the newest job. */
    method WorkerTake()
      requires inFlight.None? && jobs != []
      modifies this`inFlight, this`jobs, this`queued
      ensures Value() == Next(old(Value()), Step.WorkerTake)
    {
      inFlight := Some(jobs[0]);
      jobs := jobs[1..];
      queued := |jobs|;
    }

    /** The worker hands over what it fetched and decoded, or a miss. */
    method WorkerDone(thumb: Thumb)
      requires inFlight.Some? && thumb.Sound()
      modifies this`inFlight, this`done
      ensures Value() == Next(old(Value()), Step.WorkerDone(thumb))
    {
      done := done + [Done(inFlight.value.key, thumb)];
      inFlight := None;
    }
  }

  lemma SameOrder(order: seq<Key>, s: State)
    requires AllIn(order, s.cache) && Distinct(order)
    requires forall q :: q in order <==> q in Evictable(s.cache, s.tick)
    ensures Sort(order, s.cache) == Lru(s.cache, s.tick)
  {
    SortSorted(order, s.cache);
    LruReady(s);
    SortedUnique(Sort(order, s.cache), Lru(s.cache, s.tick), s.cache);
  }
}
