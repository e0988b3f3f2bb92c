/** The hand-off of access units from the network thread to the decode thread: a queue
    that is cleared whole when it overflows, and a wake-up generation read before the
    queue is asked.  Each step is what one thread does while holding one lock. */
module HandOff {
  import opened Serial

  const MAX_QUEUED := 16

  /** The network thread: outside receive, inside it (units may be emitted), done with it,
      having seen the queue non-empty, having bumped the generation. */
  datatype Producer = Idle | Receiving | Returned | Notifying | Signalling

  /** The decode thread: about to read the generation, about to ask the queue, told it is
      empty, blocked on the condition, decoding. */
  datatype Consumer = Starting | Asking(gen: nat) | Refused(gen: nat) | Blocked | Decoding

  /** What happened to units that left the queue, in the order of emission. */
  datatype Fate = Took(id: nat) | Cleared(from: nat, to: nat, overflow: bool)

  /** Units are numbered as emitted; `log` tells what became of those that left. */
  datatype State = State(queue: seq<nat>, emitted: nat, gen: nat,
                         producer: Producer, consumer: Consumer, log: seq<Fate>)

  const START := State([], 0, 0, Idle, Starting, [])

  datatype Step =
    | Enter | Emit | Leave | CheckQueue | Bump | Signal | SessionReset
    | ReadGen | Take | Sleep | WakeUp | Decoded

  /** A unit is emitted: on a full queue the whole backlog goes first. */
  function Pushed(s: State): State
  {
    if |s.queue| >= MAX_QUEUED then
      s.(queue := [s.emitted], emitted := s.emitted + 1,
         log := s.log + [Cleared(s.queue[0], s.emitted, true)])
    else s.(queue := s.queue + [s.emitted], emitted := s.emitted + 1)
  }

  function Next(s: State, step: Step): State
  {
    match step
    case Enter => if s.producer.Idle? then s.(producer := Receiving) else s
    case Emit => if s.producer.Receiving? then Pushed(s) else s
    case Leave => if s.producer.Receiving? then s.(producer := Returned) else s
    case CheckQueue =>
      if s.producer.Returned? then s.(producer := if s.queue == [] then Idle else Notifying) else s
    case Bump => if s.producer.Notifying? then s.(gen := s.gen + 1, producer := Signalling) else s
    case Signal =>
      if s.producer.Signalling? then
        s.(producer := Idle, consumer := if s.consumer.Blocked? then Starting else s.consumer)
      else s
    case SessionReset =>
      if s.producer.Idle? && s.queue != [] then
        s.(queue := [], log := s.log + [Cleared(s.queue[0], s.emitted, false)])
      else s
    case ReadGen => if s.consumer.Starting? then s.(consumer := Asking(s.gen)) else s
    case Take =>
      if !s.consumer.Asking? then s
      else if s.queue == [] then s.(consumer := Refused(s.consumer.gen))
      else s.(queue := s.queue[1..], consumer := Decoding, log := s.log + [Took(s.queue[0])])
    case Sleep =>
      if s.consumer.Refused? then
        s.(consumer := if s.gen == s.consumer.gen then Blocked else Starting)
      else s
    case WakeUp => if s.consumer.Blocked? then s.(consumer := Starting) else s
    case Decoded => if s.consumer.Decoding? then s.(consumer := Starting) else s
  }

  // ---- no lost wake-up --------------------------------------------------------------------

  /** The network thread has still to look at the queue and notify. */
  predicate OwesNotify(p: Producer) { !p.Idle? }

  predicate NotYetBumped(p: Producer) { p.Receiving? || p.Returned? || p.Notifying? }

  predicate WakeInv(s: State)
  {
    && (s.consumer.Asking? || s.consumer.Refused? ==> s.consumer.gen <= s.gen)
    && (s.consumer.Refused? && s.consumer.gen == s.gen && s.queue != [] ==> NotYetBumped(s.producer))
    && (s.consumer.Blocked? && s.queue != [] ==> OwesNotify(s.producer))
  }

  lemma StepKeepsWake(s: State, step: Step)
    requires WakeInv(s)
    ensures WakeInv(Next(s, step))
  {
  }

  function Run(steps: seq<Step>): State
  {
    if steps == [] then START else Next(Run(steps[..|steps| - 1]), steps[|steps| - 1])
  }

  /** In every interleaving: a decode thread blocked while a unit is queued is about to be
      notified. */
  lemma {:induction false} NoLostWakeUp(steps: seq<Step>)
    ensures WakeInv(Run(steps))
    ensures Run(steps).consumer.Blocked? && Run(steps).queue != [] ==> OwesNotify(Run(steps).producer)
  {
    if steps != [] {
      NoLostWakeUp(steps[..|steps| - 1]);
      StepKeepsWake(Run(steps[..|steps| - 1]), steps[|steps| - 1]);
    }
  }

  /** And that debt is paid: left to itself, the network thread's next few steps unblock
      the decode thread. */
  lemma DebtIsPaid(s: State)
    requires s.consumer.Blocked? && s.queue != [] && OwesNotify(s.producer)
    ensures
      var s4 := Next(Next(Next(Next(s, Leave), CheckQueue), Bump), Signal);
      s4.consumer.Starting? && s4.producer.Idle? && s4.queue == s.queue
  {
  }

  /** Reading the generation first is what makes it work: if the decode thread read it
      only after being refused, a unit could be left in the queue with nobody about to
      wake it. */
  function LateRead(s: State): State
  {
    if s.consumer.Refused? then s.(consumer := Refused(s.gen)) else s
  }

  lemma LateReadLosesWakeUp()
    ensures exists steps, more ::
      var s := Next(RunFrom(LateRead(Run(steps)), more), Sleep);
      s.consumer.Blocked? && s.queue != [] && s.producer.Idle?
  {
    var steps := UnitGoesUnnoticed();
    var s := LateRead(Run(steps));
    assert RunFrom(s, []) == s;
    assert Next(RunFrom(s, []), Sleep).consumer.Blocked?;
  }

  /** The decode thread is refused, and only then a unit is queued and notified. */
  lemma UnitGoesUnnoticed() returns (steps: seq<Step>)
    ensures Run(steps) == State([0], 1, 1, Idle, Refused(0), [])
  {
    steps := Then([], START, ReadGen);
    steps := Then(steps, START.(consumer := Asking(0)), Take);
    steps := Then(steps, START.(consumer := Refused(0)), Enter);
    steps := Then(steps, START.(consumer := Refused(0), producer := Receiving), Emit);
    assert [] + [0] == [0];
    steps := Then(steps, State([0], 1, 0, Receiving, Refused(0), []), Leave);
    steps := Then(steps, State([0], 1, 0, Returned, Refused(0), []), CheckQueue);
    steps := Then(steps, State([0], 1, 0, Notifying, Refused(0), []), Bump);
    steps := Then(steps, State([0], 1, 1, Signalling, Refused(0), []), Signal);
  }

  lemma Then(before: seq<Step>, s: State, a: Step) returns (steps: seq<Step>)
    requires Run(before) == s
    ensures steps == before + [a] && Run(steps) == Next(s, a)
  {
    steps := before + [a];
    assert steps[..|before|] == before;
  }

  function RunFrom(s: State, steps: seq<Step>): State
  {
    if steps == [] then s else Next(RunFrom(s, steps[..|steps| - 1]), steps[|steps| - 1])
  }

  // ---- what the decoder gets ------------------------------------------------------------------

  /** The log tells of 0, 1, ..., n - 1 in order, each once; an overflow cleared exactly
      sixteen. */
  predicate Tiles(log: seq<Fate>, n: nat)
  {
    if log == [] then n == 0
    else
      match log[|log| - 1]
      case Took(id) => n == id + 1 && Tiles(log[..|log| - 1], id)
      case Cleared(from, to, overflow) =>
        n == to && from < to && (overflow ==> to - from == 16) && Tiles(log[..|log| - 1], from)
  }

  /** The queue is the last units emitted, in order, at most sixteen; the log accounts for
      all before them. */
  predicate QueueInv(s: State)
  {
    && |s.queue| <= 16 && |s.queue| <= s.emitted
    && (forall i :: 0 <= i < |s.queue| ==> s.queue[i] == s.emitted - |s.queue| + i)
    && Tiles(s.log, s.emitted - |s.queue|)
  }

  lemma TilesAppend(log: seq<Fate>, f: Fate, n: nat, m: nat)
    requires Tiles(log, n)
    requires match f
             case Took(id) => id == n && m == n + 1
             case Cleared(from, to, overflow) => from == n < to == m && (overflow ==> to - from == 16)
    ensures Tiles(log + [f], m)
  {
    assert (log + [f])[..|log|] == log;
  }

  lemma EmitKeepsQueue(s: State)
    requires QueueInv(s)
    ensures QueueInv(Pushed(s))
  {
    if |s.queue| >= MAX_QUEUED {
      TilesAppend(s.log, Cleared(s.queue[0], s.emitted, true), s.emitted - |s.queue|, s.emitted);
    }
  }

  /** The whole backlog goes, or its first unit is taken. */
  lemma LeavesKeepQueue(s: State)
    requires QueueInv(s) && s.queue != []
    ensures Tiles(s.log + [Cleared(s.queue[0], s.emitted, false)], s.emitted)
    ensures Tiles(s.log + [Took(s.queue[0])], s.emitted - |s.queue[1..]|)
  {
    var n := s.emitted - |s.queue|;
    TilesAppend(s.log, Cleared(s.queue[0], s.emitted, false), n, s.emitted);
    TilesAppend(s.log, Took(s.queue[0]), n, n + 1);
  }

  lemma StepKeepsQueue(s: State, step: Step)
    requires QueueInv(s)
    ensures QueueInv(Next(s, step))
  {
    if s.queue != [] { LeavesKeepQueue(s); }
    EmitKeepsQueue(s);
  }

  /** In every interleaving the queue holds at most sixteen units and everything emitted
      before them was either taken, in order, or cleared with the whole backlog. */
  lemma {:induction false} NothingElseIsLost(steps: seq<Step>)
    ensures QueueInv(Run(steps))
  {
    if steps != [] {
      NothingElseIsLost(steps[..|steps| - 1]);
      StepKeepsQueue(Run(steps[..|steps| - 1]), steps[|steps| - 1]);
    }
  }

  /** Everything logged is below the count. */
  lemma {:induction false} TilesBelow(log: seq<Fate>, n: nat, i: nat)
    requires Tiles(log, n) && i < |log|
    ensures match log[i] case Took(id) => id < n case Cleared(from, to, _) => from < to <= n
    decreases |log|
  {
    if i < |log| - 1 {
      var m := match log[|log| - 1] case Took(id) => id case Cleared(from, _, _) => from;
      TilesBelow(log[..|log| - 1], m, i);
    }
  }

  /** Between two units the decoder takes one after the other, nothing else was emitted,
      or exactly what was emitted between them was cleared, backlog by backlog. */
  lemma {:induction false} GapsAreClears(log: seq<Fate>, n: nat, i: nat, j: nat)
    requires Tiles(log, n) && i < j < |log| && log[i].Took? && log[j].Took?
    requires forall k :: i < k < j ==> log[k].Cleared?
    ensures log[i].id < log[j].id
    ensures j == i + 1 ==> log[j].id == log[i].id + 1
    ensures j > i + 1 ==> log[i + 1].from == log[i].id + 1 && log[j - 1].to == log[j].id
    ensures forall k :: i < k && k + 1 < j ==> log[k].to == log[k + 1].from
    decreases |log|
  {
    var last := |log| - 1;
    var m := match log[last] case Took(id) => id case Cleared(from, _, _) => from;
    if j < last {
      GapsAreClears(log[..last], m, i, j);
    } else {
      ClearsChain(log[..last], m, i);
    }
  }

  /** From a taken unit on, clears follow one another without a hole up to `n`. */
  lemma {:induction false} ClearsChain(log: seq<Fate>, n: nat, i: nat)
    requires Tiles(log, n) && i < |log| && log[i].Took?
    requires forall k :: i < k < |log| ==> log[k].Cleared?
    ensures i + 1 == |log| ==> n == log[i].id + 1
    ensures i + 1 < |log| ==> log[i + 1].from == log[i].id + 1 && log[|log| - 1].to == n && log[i].id < n
    ensures forall k :: i < k && k + 1 < |log| ==> log[k].to == log[k + 1].from
    decreases |log|
  {
    var last := |log| - 1;
    if i < last {
      ClearsChain(log[..last], log[last].from, i);
      TilesBelow(log[..last], log[last].from, i);
    }
  }

  // ---- progress ---------------------------------------------------------------------------------

  /** What has to happen, in this order and with anything at all in between: the network
      thread leaves receive, looks, bumps and signals; the decode thread goes to sleep or not,
      finishes its unit, reads the generation and asks. */
  const ROUND: seq<Step> := [Leave, CheckQueue, Bump, Signal, Sleep, Decoded, ReadGen, Take]

  /** How much of that is in these steps. */
  function Stage(steps: seq<Step>): (k: nat)
    ensures k <= 8
  {
    if steps == [] then 0
    else
      var k := Stage(steps[..|steps| - 1]);
      if k < 8 && steps[|steps| - 1] == ROUND[k] then k + 1 else k
  }

  /** Units that have left the queue. */
  function Gone(s: State): int { s.emitted - |s.queue| }

  /** It was told that the queue is empty, and nobody has notified it since. */
  predicate Unwarned(s: State) { s.consumer.Refused? && s.consumer.gen == s.gen }

  /** The unit `u` has left the queue, or the threads have come this far towards it. */
  predicate AtStage(s: State, u: nat, k: nat)
  {
    || Gone(s) > u
    || (Gone(s) == u && s.queue != [] && WakeInv(s)
        && (k == 1 ==>
              && (s.consumer.Blocked? ==> s.producer.Returned? || s.producer.Notifying? || s.producer.Signalling?)
              && (Unwarned(s) ==> s.producer.Returned? || s.producer.Notifying?))
        && (k == 2 ==>
              && (s.consumer.Blocked? ==> s.producer.Notifying? || s.producer.Signalling?)
              && (Unwarned(s) ==> s.producer.Notifying?))
        && (k == 3 ==> (s.consumer.Blocked? ==> s.producer.Signalling?) && !Unwarned(s))
        && (k == 4 ==> !s.consumer.Blocked? && !Unwarned(s))
        && (k == 5 ==> !s.consumer.Blocked? && !s.consumer.Refused?)
        && (k == 6 ==> s.consumer.Starting? || s.consumer.Asking?)
        && (k == 7 ==> s.consumer.Asking?) && k < 8)
  }

  lemma StageKept(s: State, u: nat, k: nat, step: Step)
    requires k <= 8 && AtStage(s, u, k)
    ensures AtStage(Next(s, step), u, if k < 8 && step == ROUND[k] then k + 1 else k)
  {
  }

  lemma {:induction false} Progresses(s: State, u: nat, steps: seq<Step>)
    requires AtStage(s, u, 0)
    ensures AtStage(RunFrom(s, steps), u, Stage(steps))
  {
    if steps != [] {
      var before := steps[..|steps| - 1];
      Progresses(s, u, before);
      StageKept(RunFrom(s, before), u, Stage(before), steps[|steps| - 1]);
    }
  }

  /** From any point of any interleaving: once these eight steps have come in this order, no
      matter what else came between them and however the threads stood, the unit that was at
      the head of the queue is no longer in it.  So no schedule that keeps giving both
      threads their turn leaves a unit behind. */
  lemma HeadIsSettled(steps: seq<Step>, more: seq<Step>)
    requires Run(steps).queue != [] && Stage(more) == 8
    ensures Gone(RunFrom(Run(steps), more)) > Gone(Run(steps)) == Run(steps).queue[0]
  {
    NoLostWakeUp(steps);
    NothingElseIsLost(steps);
    Progresses(Run(steps), Run(steps).queue[0], more);
  }

  /** Somebody has been notified since the decode thread last read the generation. */
  predicate Notified(steps: seq<Step>)
  {
    steps != [] &&
    var s := Run(steps[..|steps| - 1]);
    match steps[|steps| - 1]
    case Bump => s.producer.Notifying? || Notified(steps[..|steps| - 1])
    case ReadGen => !s.consumer.Starting? && Notified(steps[..|steps| - 1])
    case _ => Notified(steps[..|steps| - 1])
  }

  /** In every interleaving a decode thread that found the queue empty goes to sleep exactly
      if nobody was notified since it read the generation: it does not spin. */
  lemma SleepsIff(steps: seq<Step>)
    requires Run(steps).consumer.Refused?
    ensures Next(Run(steps), Sleep).consumer == if Notified(steps) then Starting else Blocked
  {
    GenerationTells(steps);
  }

  lemma {:induction false} GenerationTells(steps: seq<Step>)
    ensures
      var s := Run(steps);
      s.consumer.Asking? || s.consumer.Refused? ==>
        s.consumer.gen <= s.gen && (s.consumer.gen < s.gen <==> Notified(steps))
  {
    if steps != [] {
      GenerationTells(steps[..|steps| - 1]);
    }
  }

  // ---- the queue itself ---------------------------------------------------------------------------

  /** The engine's queue of access units, each with its arrival time.  `shared` is the
      interleaving it takes part in, and `units` everything emitted in it. */
  class VideoQueue {
    var queue: seq<(seq<byte>, u64)>
    var overflows: u32
    ghost var shared: State
    ghost var units: seq<(seq<byte>, u64)>

    /** The queue holds the units whose numbers the interleaving has queued. */
    ghost predicate Valid()
      reads this
    {
      && QueueInv(shared) && |units| == shared.emitted
      && queue == units[|units| - |shared.queue|..]
    }

    constructor ()
      ensures Valid() && queue == [] && overflows == 0 && shared == START
    {
      queue, overflows := [], 0;
      shared, units := START, [];
      new;
      assert units[0..] == [];
    }

    /** The queue part of on_video: the unit in hand is queued even when the backlog before
        it had to go. */
    method Push(unit: seq<byte>, t: u64) returns (overflowed: bool)
      requires Valid() && shared.producer.Receiving?
      modifies this
      ensures Valid() && shared == Next(old(shared), Emit) && units == old(units) + [(unit, t)]
      ensures overflowed <==> |old(queue)| == 16
      ensures queue == (if overflowed then [] else old(queue)) + [(unit, t)]
      ensures overflows == if overflowed then Add32(old(overflows), 1) else old(overflows)
    {
      overflowed := false;
      if |queue| >= MAX_QUEUED {
        queue := [];
        overflows := Add32(overflows, 1);
        overflowed := true;
      }
      queue := queue + [(unit, t)];
      StepKeepsQueue(shared, Emit);
      shared, units := Next(shared, Emit), units + [(unit, t)];
    }

    method TakeAccessUnit() returns (r: Option<(seq<byte>, u64)>)
      requires Valid() && shared.consumer.Asking?
      modifies this`queue, this`shared
      ensures Valid() && shared == Next(old(shared), Take)
      ensures old(queue) == [] ==> r == None && queue == []
      ensures old(queue) != [] ==> r == Some(old(queue)[0]) && queue == old(queue)[1..]
      ensures r.Some? ==> r.value == units[old(shared).queue[0]]
    {
      StepKeepsQueue(shared, Take);
      shared := Next(shared, Take);
      if queue == [] { return None; }
      r := Some(queue[0]);
      queue := queue[1..];
    }

    /** A new session: the network thread drops whatever is queued. */
    method Clear()
      requires Valid() && shared.producer.Idle?
      modifies this`queue, this`shared
      ensures Valid() && shared == Next(old(shared), SessionReset) && queue == []
    {
      StepKeepsQueue(shared, SessionReset);
      shared := Next(shared, SessionReset);
      queue := [];
    }
  }
}
