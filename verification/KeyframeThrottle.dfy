/** The throttle on keyframe requests: 300 ms for the first ask, doubling while the
    assembler still waits for an IDR, capped at two seconds. */
module KeyframeThrottle {

  const FIRST_MS := 300
  const MOST_MS := 2000

  /** `backoff` is 0 until the first request of a session. */
  datatype State = State(lastRequest: nat, backoff: nat)

  const START := State(0, 0)

  function Interval(s: State, waiting: bool): nat
  {
    if !waiting || s.backoff == 0 then FIRST_MS else s.backoff
  }

  /** Is a request sent now? */
  predicate Sends(s: State, waiting: bool, now: nat)
  {
    now - s.lastRequest >= Interval(s, waiting)
  }

  function Request(s: State, waiting: bool, now: nat): State
  {
    if !Sends(s, waiting, now) then s
    else
      var doubled := Interval(s, waiting) * 2;
      State(now, if !waiting then FIRST_MS else if doubled < MOST_MS then doubled else MOST_MS)
  }

  class Throttle {
    var lastRequest: nat
    var backoff: nat

    function Value(): State
      reads this
    {
      State(lastRequest, backoff)
    }

    constructor ()
      ensures Value() == START
    {
      lastRequest, backoff := 0, 0;
    }

    /** The request that comes with the handshake goes out whatever the throttle says. */
    method Handshake(now: nat)
      modifies this`lastRequest
      ensures Value() == old(Value()).(lastRequest := now)
    {
      lastRequest := now;
    }

    /** A new session or a reconnect. */
    method Rearm()
      modifies this`backoff
      ensures Value() == old(Value()).(backoff := 0)
    {
      backoff := 0;
    }

    /** `ready`: there is a peer and its handshake is done. */
    method RequestKeyframe(ready: bool, waiting: bool, now: nat) returns (sent: bool)
      modifies this
      ensures sent <==> ready && Sends(old(Value()), waiting, now)
      ensures Value() == if ready then Request(old(Value()), waiting, now) else old(Value())
    {
      if !ready { return false; }
      var interval := if backoff != 0 then backoff else FIRST_MS;
      if !waiting { interval := FIRST_MS; }
      if now - lastRequest < interval { return false; }
      lastRequest := now;
      backoff := if waiting then (if interval * 2 < MOST_MS then interval * 2 else MOST_MS) else FIRST_MS;
      return true;
    }
  }

  // ---- whole runs --------------------------------------------------------------------------

  /** Somebody asks; the peer is lost; the back-off is forgotten; a new peer's handshake
      sends a request of its own. */
  datatype Event = Asked(waiting: bool, now: nat) | PeerLost | Rearmed | Handshaken(now: nat)

  /** A request that went out: when, to which peer, and was it the handshake's own? */
  datatype Sent = Sent(at: nat, peer: nat, handshake: bool)

  /** The state, whether a peer is ready, how many there have been, the clock, and every
      request sent. */
  datatype Run = Run(s: State, ready: bool, peers: nat, clock: nat, sent: seq<Sent>)

  const NOTHING := Run(START, false, 0, 0, [])

  predicate Goes(r: Run, waiting: bool, now: nat) { r.ready && Sends(r.s, waiting, now) }

  function Next(r: Run, e: Event): Run
  {
    match e
    case Asked(waiting, now) =>
      if !r.ready then r.(clock := now)
      else
        r.(s := Request(r.s, waiting, now), clock := now,
           sent := if Sends(r.s, waiting, now) then r.sent + [Sent(now, r.peers, false)] else r.sent)
    case PeerLost => r.(ready := false)
    case Rearmed => r.(s := r.s.(backoff := 0))
    case Handshaken(now) =>
      if r.ready then r.(clock := now)
      else
        Run(r.s.(lastRequest := now), true, r.peers + 1, now, r.sent + [Sent(now, r.peers + 1, true)])
  }

  function RunOf(es: seq<Event>): Run
  {
    if es == [] then NOTHING else Next(RunOf(es[..|es| - 1]), es[|es| - 1])
  }

  /** The clock does not run backwards. */
  predicate Monotone(es: seq<Event>)
  {
    es != [] ==>
      var e := es[|es| - 1];
      && Monotone(es[..|es| - 1])
      && (e.Asked? || e.Handshaken? ==> e.now >= RunOf(es[..|es| - 1]).clock)
  }

  /** Requests to one peer, its handshake's included, are 300 ms apart; so are any two of
      which the later is not a handshake's. */
  predicate Apart(sent: seq<Sent>)
  {
    forall i, j :: 0 <= i < j < |sent| && (sent[i].peer == sent[j].peer || !sent[j].handshake) ==>
      sent[j].at - sent[i].at >= FIRST_MS
  }

  predicate Inv(r: Run)
  {
    && (r.s.backoff == 0 || FIRST_MS <= r.s.backoff <= MOST_MS)
    && r.s.lastRequest <= r.clock && Apart(r.sent)
    && forall i :: 0 <= i < |r.sent| ==> r.sent[i].at <= r.s.lastRequest && r.sent[i].peer <= r.peers
  }

  lemma ApartAppend(sent: seq<Sent>, x: Sent)
    requires Apart(sent)
    requires forall i :: 0 <= i < |sent| ==>
      x.at - sent[i].at >= FIRST_MS || (x.handshake && sent[i].peer < x.peer)
    ensures Apart(sent + [x])
  {
  }

  /** On every run, whoever asks, however the gate moves and however often the peer is
      replaced: any two requests to one peer are at least 300 ms apart, and any two at all
      unless the later one is a new peer's handshake. */
  lemma {:induction false} RequestsApart(es: seq<Event>)
    requires Monotone(es)
    ensures Inv(RunOf(es))
  {
    if es != [] {
      var r := RunOf(es[..|es| - 1]);
      RequestsApart(es[..|es| - 1]);
      match es[|es| - 1]
      case Asked(waiting, now) => ApartAppendIf(r, Goes(r, waiting, now), Sent(now, r.peers, false));
      case Handshaken(now) => ApartAppendIf(r, !r.ready, Sent(now, r.peers + 1, true));
      case _ =>
    }
  }

  lemma ApartAppendIf(r: Run, goes: bool, x: Sent)
    requires Inv(r)
    requires goes ==> x.at - r.s.lastRequest >= FIRST_MS || (x.handshake && r.peers < x.peer)
    ensures goes ==> Apart(r.sent + [x])
  {
    if goes {
      ApartAppend(r.sent, x);
    }
  }

  /** The exception is real, at every distance: a new peer's handshake can send its request
      any time after one that was asked for. */
  lemma HandshakeIsNotThrottled(asked: nat, later: nat)
    requires FIRST_MS <= asked <= later
    ensures
      var es := [Handshaken(0), Asked(true, asked), PeerLost, Handshaken(later)];
      && Monotone(es)
      && RunOf(es).sent == [Sent(0, 1, true), Sent(asked, 1, false), Sent(later, 2, true)]
  {
    var e1, e2, e3, e4 := Handshaken(0), Asked(true, asked), PeerLost, Handshaken(later);
    OneMore([], e1, [e1]);
    OneMore([e1], e2, [e1, e2]);
    OneMore([e1, e2], e3, [e1, e2, e3]);
    OneMore([e1, e2, e3], e4, [e1, e2, e3, e4]);
    assert RunOf([e1]) == Run(State(0, 0), true, 1, 0, [Sent(0, 1, true)]);
    assert RunOf([e1, e2]).sent == [Sent(0, 1, true), Sent(asked, 1, false)];
  }

  lemma OneMore(before: seq<Event>, e: Event, es: seq<Event>)
    requires es == before + [e]
    ensures RunOf(es) == Next(RunOf(before), e)
    ensures Monotone(es) <==>
      Monotone(before) && (e.Asked? || e.Handshaken? ==> e.now >= RunOf(before).clock)
  {
    assert es[..|es| - 1] == before;
  }

  // ---- one blind stretch ---------------------------------------------------------------------

  /** From event `k` on the gate stays shut and the peer is neither lost nor re-armed, all
      within `t` ms of `start`: only requests while waiting, and the handshake that may
      open the stretch. */
  predicate Stretch(es: seq<Event>, k: nat, start: nat, t: nat)
  {
    forall j :: k <= j < |es| ==>
      && ((es[j].Asked? && es[j].waiting) || es[j].Handshaken?)
      && start <= es[j].now <= start + t
  }

  /** The interval after the k-th throttled request of a stretch is at least this. */
  function StretchInterval(k: nat): nat
    requires k >= 1
  {
    if k == 1 then 600 else if k == 2 then 1200 else 2000
  }

  /** So n requests take at least this long, if the handshake's is not among them ... */
  function Least(n: nat): nat
    requires n >= 1
  {
    if n == 1 then 0 else if n == 2 then 600 else 1800 + 2000 * (n - 3)
  }

  /** ... and this long if it is the first of them. */
  function LeastShaken(n: nat): nat
    requires n >= 1
  {
    if n == 1 then 0 else FIRST_MS + Least(n - 1)
  }

  /** What the requests of a stretch since `r0` have in common. */
  predicate InStretch(r0: Run, r: Run, start: nat, t: nat)
  {
    && r0.sent <= r.sent && (r.s.backoff == 0 || FIRST_MS <= r.s.backoff <= MOST_MS)
    && var n := |r.sent| - |r0.sent|;
       if n == 0 then r.ready == r0.ready
       else
         var first := r.sent[|r0.sent|];
         && r.ready && start <= first.at && r.s.lastRequest <= start + t
         && (first.handshake <==> !r0.ready)
         && if first.handshake
            then r.s.lastRequest - first.at >= LeastShaken(n) && (n > 1 ==> r.s.backoff >= StretchInterval(n - 1))
            else r.s.lastRequest - first.at >= Least(n) && r.s.backoff >= StretchInterval(n)
  }

  lemma StretchStep(r0: Run, r: Run, e: Event, start: nat, t: nat)
    requires InStretch(r0, r, start, t)
    requires (e.Asked? && e.waiting) || e.Handshaken?
    requires start <= e.now <= start + t
    ensures InStretch(r0, Next(r, e), start, t)
  {
  }

  lemma {:induction false} StretchKeeps(es: seq<Event>, k: nat, start: nat, t: nat)
    requires Monotone(es) && k <= |es| && Stretch(es, k, start, t)
    ensures InStretch(RunOf(es[..k]), RunOf(es), start, t)
  {
    if k == |es| {
      assert es[..k] == es;
      RequestsApart(es);
    } else {
      var before := es[..|es| - 1];
      assert before[..k] == es[..k];
      StretchKeeps(before, k, start, t);
      StretchStep(RunOf(es[..k]), RunOf(before), es[|es| - 1], start, t);
    }
  }

  /** Requests a stretch of `t` ms can send at most, the handshake's included ... */
  function MostIn(t: nat): nat
  {
    if t < 300 then 1 else if t < 900 then 2 else if t < 2100 then 3 else 4 + (t - 2100) / 2000
  }

  /** ... and if it starts with a peer whose handshake is done. */
  function MostThrottled(t: nat): nat
  {
    if t < 600 then 1 else if t < 1800 then 2 else 3 + (t - 1800) / 2000
  }

  /** On every run, an uninterrupted blind stretch of `t` ms sends at most `MostIn(t)`
      requests, the handshake's own included, and so at most 3 + t / 2000, whatever interval
      it started with and however often they are asked for. */
  lemma StretchBound(es: seq<Event>, k: nat, start: nat, t: nat)
    requires Monotone(es) && k <= |es| && Stretch(es, k, start, t)
    ensures
      var n := |RunOf(es).sent| - |RunOf(es[..k]).sent|;
      && 0 <= n <= MostIn(t) <= 3 + t / 2000
      && (RunOf(es[..k]).ready ==> n <= MostThrottled(t))
  {
    StretchKeeps(es, k, start, t);
  }

  /** A session that asks as early as it can: its handshake at 0, then at 300, 900, 2100 and
      every 2000 ms from there. */
  function Earliest(n: nat): (es: seq<Event>)
    ensures |es| == n
  {
    if n == 0 then []
    else if n == 1 then [Handshaken(0)]
    else Earliest(n - 1) + [Asked(true, LeastShaken(n))]
  }

  lemma MostInLeast(n: nat)
    requires n > 0
    ensures MostIn(LeastShaken(n)) == n
  {
  }

  lemma {:induction false} EarliestFits(n: nat, t: nat)
    requires n > 0 && LeastShaken(n) <= t
    ensures Stretch(Earliest(n), 0, 0, t)
  {
    if n > 1 {
      EarliestFits(n - 1, t);
    }
  }

  lemma {:induction false} EarliestRuns(n: nat)
    requires n > 0
    ensures
      var r := RunOf(Earliest(n));
      && Monotone(Earliest(n)) && |r.sent| == n && r.ready && r.clock == LeastShaken(n)
      && r.s == State(LeastShaken(n), if n == 1 then 0 else StretchInterval(n - 1))
  {
    if n == 1 {
      OneMore([], Handshaken(0), Earliest(n));
    } else {
      EarliestRuns(n - 1);
      OneMore(Earliest(n - 1), Asked(true, LeastShaken(n)), Earliest(n));
    }
  }

  /** The bound is met: every one of these is sent, in the time the bound needs for them. */
  lemma BoundIsMet(n: nat)
    requires n > 0
    ensures Monotone(Earliest(n)) && Stretch(Earliest(n), 0, 0, LeastShaken(n))
    ensures |RunOf(Earliest(n)).sent| == n == MostIn(LeastShaken(n))
    ensures RunOf(Earliest(n)).ready && RunOf(Earliest(n)).clock == LeastShaken(n)
    ensures RunOf(Earliest(n)).s == State(LeastShaken(n), if n == 1 then 0 else StretchInterval(n - 1))
  {
    MostInLeast(n);
    EarliestFits(n, LeastShaken(n));
    EarliestRuns(n);
  }

  // ---- from one stretch to the next -----------------------------------------------------------

  /** Requests sent while waiting since the last one sent while not, or since re-arming. */
  function Streak(es: seq<Event>): nat
  {
    if es == [] then 0
    else
      var before := Streak(es[..|es| - 1]);
      match es[|es| - 1]
      case Asked(waiting, now) =>
        if |RunOf(es).sent| == |RunOf(es[..|es| - 1]).sent| then before
        else if waiting then before + 1 else 0
      case Rearmed => 0
      case _ => before
  }

  /** On every run the next request of a blind stretch must wait 300 ms exactly when no
      blind request was sent since the last sighted one; the gate opening in between does
      not count, nor does a sighted request that the throttle refuses. */
  lemma {:induction false} NextIntervalIs(es: seq<Event>)
    ensures Interval(RunOf(es).s, true) == if Streak(es) == 0 then FIRST_MS else StretchInterval(Streak(es))
    ensures Interval(RunOf(es).s, true) == FIRST_MS <==> Streak(es) == 0
  {
    if es != [] {
      NextIntervalIs(es[..|es| - 1]);
    }
  }

  /** The last handshake came after the last loss of a peer. */
  predicate HasPeer(es: seq<Event>)
  {
    es != [] && (es[|es| - 1].Handshaken? || (!es[|es| - 1].PeerLost? && HasPeer(es[..|es| - 1])))
  }

  /** When the last request went out, whatever sent it. */
  function LastSent(sent: seq<Sent>): nat
  {
    if sent == [] then 0 else sent[|sent| - 1].at
  }

  lemma {:induction false} LastSentIs(es: seq<Event>)
    ensures RunOf(es).ready <==> HasPeer(es)
    ensures RunOf(es).s.lastRequest == LastSent(RunOf(es).sent)
  {
    if es != [] {
      LastSentIs(es[..|es| - 1]);
    }
  }

  /** On every run, what is asked for goes out exactly when there is a peer and the time
      since the last request is at least 300 ms, or, while waiting, 600, 1200 or 2000 ms
      once one, two or more blind requests were sent; a handshake sends one exactly when
      there is no peer; and nothing else sends any. */
  lemma SentIff(es: seq<Event>)
    requires es != []
    ensures
      var before := es[..|es| - 1];
      var n := |RunOf(es).sent| - |RunOf(before).sent|;
      && RunOf(before).sent <= RunOf(es).sent && 0 <= n <= 1
      && (n == 1 ==> (es[|es| - 1].Asked? || es[|es| - 1].Handshaken?) && LastSent(RunOf(es).sent) == es[|es| - 1].now)
      && match es[|es| - 1]
         case Asked(waiting, now) =>
           var streak := Streak(before);
           var interval :=
             if !waiting || streak == 0 then 300 else if streak == 1 then 600 else if streak == 2 then 1200 else 2000;
           n == 1 <==> HasPeer(before) && now - LastSent(RunOf(before).sent) >= interval
         case Handshaken(now) => n == 1 <==> !HasPeer(before)
         case _ => n == 0
  {
    LastSentIs(es[..|es| - 1]);
    NextIntervalIs(es[..|es| - 1]);
  }

  /** So a new stretch can start at the old interval: here the gate opens and nobody asks;
      the first ask of the next stretch would be refused for two seconds, not for 300 ms. */
  lemma OldIntervalCanLinger()
    ensures
      var r := RunOf(Earliest(4));
      r.s == State(2100, MOST_MS) && !Goes(r, true, 2100 + 300) && Goes(r, false, 2100 + 300)
  {
    BoundIsMet(4);
  }
}
