/** Per-domain rate limit and backoff around remote requests. */
module Throttle {
  import opened Wrappers
  import opened Numbers
  import opened Spacing

  type Time = real

  datatype Settings = Settings(ratePerMinute: nat, concurrency: nat, backoffBase: nat, backoffMax: nat)

  datatype DomainState = DomainState(lastRequest: Option<Time>, inflight: nat,
                                     backoffUntil: Option<Time>, failures: nat)

  const FRESH: DomainState := DomainState(None, 0, None, 0)

  /** Seconds between two requests; the rate is a positive whole number here. */
  function MinInterval(rate: nat): real
    requires rate > 0
  {
    60.0 / rate as real
  }

  /** `_domain_next_delay` */
  function NextDelay(cfg: Settings, s: DomainState, now: Time): real {
    var d0 := if s.backoffUntil.Some? && s.backoffUntil.value != 0.0 && now < s.backoffUntil.value
              then MaxReal(0.0, s.backoffUntil.value - now) else 0.0;
    var d1 := if cfg.ratePerMinute > 0 && s.lastRequest.Some?
                 && MinInterval(cfg.ratePerMinute) - (now - s.lastRequest.value) > 0.0
              then MaxReal(d0, MinInterval(cfg.ratePerMinute) - (now - s.lastRequest.value)) else d0;
    if cfg.concurrency > 0 && s.inflight >= cfg.concurrency then MaxReal(d1, 1.0) else d1
  }

  /** A request may start iff no backoff window, rate limit or full house stands in its way. */
  lemma MayStartIff(cfg: Settings, s: DomainState, now: Time)
    requires now >= 0.0
    ensures NextDelay(cfg, s, now) <= 0.0 <==>
              && (s.backoffUntil.Some? ==> now >= s.backoffUntil.value)
              && (cfg.ratePerMinute > 0 && s.lastRequest.Some? ==>
                    now - s.lastRequest.value >= 60.0 / cfg.ratePerMinute as real)
              && (cfg.concurrency > 0 ==> s.inflight < cfg.concurrency)
  {
  }

  /** Nothing but a full house stands in the way of a request at time `at`. */
  predicate TimeIsRight(cfg: Settings, s: DomainState, at: Time) {
    && (s.backoffUntil.Some? ==> at >= s.backoffUntil.value)
    && (cfg.ratePerMinute > 0 && s.lastRequest.Some? ==>
          at >= s.lastRequest.value + 60.0 / cfg.ratePerMinute as real)
  }

  /** The delay is the least wait after which the time is right, and at least a second while the house is
      full. */
  lemma DelayIsLeast(cfg: Settings, s: DomainState, now: Time)
    requires now >= 0.0
    ensures var d := NextDelay(cfg, s, now);
            var full := cfg.concurrency > 0 && s.inflight >= cfg.concurrency;
            && d >= 0.0 && TimeIsRight(cfg, s, now + d) && (full ==> d >= 1.0)
            && forall at :: now <= at < now + d ==> !TimeIsRight(cfg, s, at) || (full && at < now + 1.0)
  {
  }

  function Ceiling(cfg: Settings): nat {
    Max(cfg.backoffBase, cfg.backoffMax)
  }

  /** The delay before jitter of the k-th exponential failure in a row. */
  function Exponential(cfg: Settings, k: nat): nat
    requires k > 0
  {
    Min(Ceiling(cfg), cfg.backoffBase * Pow2(k - 1))
  }

  /** The jittered delay, capped. */
  function Jittered(delay: nat, maximum: nat, jitter: real): real {
    var scaled := delay as real * jitter;
    if scaled > maximum as real then maximum as real else scaled
  }

  lemma JitteredBounds(delay: nat, maximum: nat, jitter: real)
    requires delay <= maximum && 0.8 <= jitter <= 1.2
    ensures 0.8 * delay as real <= Jittered(delay, maximum, jitter) <= maximum as real
  {
    Scaled(delay as real, 0.8, jitter);
  }

  lemma ExponentialAtMostCeiling(cfg: Settings, k: nat)
    requires k > 0
    ensures Exponential(cfg, k) <= Ceiling(cfg)
  {
  }

  /** `_apply_domain_backoff`, in the order of the statements. */
  method ApplyBackoff(cfg: Settings, s: DomainState, now: Time, retryAfter: Option<nat>,
                      exponential: bool, jitter: real)
    returns (s': DomainState, delay: real)
    ensures (s', delay) == Backoff(cfg, s, now, retryAfter, exponential, jitter)
  {
    s' := s;
    var whole: int := cfg.backoffBase;
    var maximum := Ceiling(cfg);
    if exponential {
      s' := s'.(failures := s'.failures + 1);
      whole := Exponential(cfg, s'.failures);
    }
    if retryAfter.Some? && retryAfter.value > whole {
      whole := retryAfter.value;
    }
    if whole <= 0 {
      return s', 0.0;
    }
    if retryAfter.None? {
      delay := Jittered(whole, maximum, jitter);
    } else {
      delay := if whole > maximum then maximum as real else whole as real;
    }
    delay := MaxReal(retryAfter.GetOr(0) as real, delay);
    s' := s'.(backoffUntil := Some(now + delay));
  }

  /** What a failure does to the domain and how long it keeps others away. */
  function Backoff(cfg: Settings, s: DomainState, now: Time, retryAfter: Option<nat>,
                   exponential: bool, jitter: real): (DomainState, real)
  {
    var s1 := if exponential then s.(failures := s.failures + 1) else s;
    var own := if exponential then Exponential(cfg, s1.failures) else cfg.backoffBase;
    var asked := retryAfter.GetOr(0);
    if own == 0 && asked == 0 then (s1, 0.0)
    else
      var delay :=
        if retryAfter.Some? then (if asked > own then asked as real else own as real)
        else MaxReal(0.0, Jittered(own, Ceiling(cfg), jitter));
      (s1.(backoffUntil := Some(now + delay)), delay)
  }

  datatype FailureReport = FailureReport(at: Time, retryAfter: Option<nat>, jitter: real)

  /** Exponential failures one after the other, nothing succeeding in between. */
  function AfterFailures(cfg: Settings, s: DomainState, fs: seq<FailureReport>): DomainState {
    if fs == [] then s
    else
      var n := |fs| - 1;
      Backoff(cfg, AfterFailures(cfg, s, fs[..n]), fs[n].at, fs[n].retryAfter, true, fs[n].jitter).0
  }

  lemma {:induction false} FailuresCounted(cfg: Settings, s: DomainState, fs: seq<FailureReport>)
    ensures AfterFailures(cfg, s, fs).failures == s.failures + |fs|
  {
    if fs != [] {
      FailuresCounted(cfg, s, fs[..|fs| - 1]);
    }
  }

  /** A domain not heard of yet has made no request and has no failure, window or open request, so its first
      k failures count to k; ending what was never begun changes nothing. */
  lemma FirstFailures(cfg: Settings, fs: seq<FailureReport>)
    ensures AfterFailures(cfg, FRESH, fs).failures == |fs|
    ensures FRESH.lastRequest == None && FRESH.backoffUntil == None && FRESH.inflight == 0
    ensures Finish(FRESH) == FRESH
  {
    FailuresCounted(cfg, FRESH, fs);
  }

  /** The delay of the k-th exponential failure in a row after a success. */
  lemma BackoffAfterKFailures(cfg: Settings, s: DomainState, fs: seq<FailureReport>)
    requires s.failures == 0 && fs != []
    requires 0.8 <= fs[|fs| - 1].jitter <= 1.2
    ensures var k := |fs|;
            var f := fs[k - 1];
            var own := Exponential(cfg, k);
            var delay := Backoff(cfg, AfterFailures(cfg, s, fs[..k - 1]), f.at, f.retryAfter, true, f.jitter).1;
            && own <= cfg.backoffBase * Pow2(k - 1)
            && (own == cfg.backoffBase * Pow2(k - 1) || own == cfg.backoffMax || own == cfg.backoffBase)
            && (own < cfg.backoffBase * Pow2(k - 1) ==> own >= cfg.backoffMax && own >= cfg.backoffBase)
            && (f.retryAfter.None? ==>
                  0.8 * own as real <= delay && (delay <= cfg.backoffBase as real || delay <= cfg.backoffMax as real))
            && (f.retryAfter.Some? ==>
                  delay >= f.retryAfter.value as real && delay >= own as real
                  && (delay == f.retryAfter.value as real || delay == own as real))
  {
    var k := |fs|;
    FailuresCounted(cfg, s, fs[..k - 1]);
    ExponentialAtMostCeiling(cfg, k);
    JitteredBounds(Exponential(cfg, k), Ceiling(cfg), fs[k - 1].jitter);
  }

  /** A failure that does not count as exponential waits the base delay, whatever came before. */
  lemma BackoffWithoutCounting(cfg: Settings, s: DomainState, now: Time, retryAfter: Option<nat>, jitter: real)
    requires 0.8 <= jitter <= 1.2
    ensures var (s', delay) := Backoff(cfg, s, now, retryAfter, false, jitter);
            && s'.failures == s.failures
            && (delay > 0.0 ==> s'.backoffUntil == Some(now + delay))
            && (delay <= 0.0 ==> delay == 0.0 && s' == s)
            && (retryAfter.None? ==>
                  && 0.8 * cfg.backoffBase as real <= delay
                  && (delay <= cfg.backoffBase as real || delay <= cfg.backoffMax as real))
            && (retryAfter.Some? ==>
                  && delay >= retryAfter.value as real && delay >= cfg.backoffBase as real
                  && (delay == retryAfter.value as real || delay == cfg.backoffBase as real))
  {
    JitteredBounds(cfg.backoffBase, Ceiling(cfg), jitter);
  }

  /** Without Retry-After, a delay that is not cut off at the ceiling is the jitter times the delay asked
      for, and the domain is kept free until exactly then. */
  lemma BackoffIsJittered(cfg: Settings, s: DomainState, now: Time, jitter: real)
    requires 0.8 <= jitter <= 1.2
    ensures var (s', delay) := Backoff(cfg, s, now, None, true, jitter);
            var own := Exponential(cfg, s.failures + 1);
            && s'.failures == s.failures + 1 && s'.lastRequest == s.lastRequest && s'.inflight == s.inflight
            && (own > 0 ==> s'.backoffUntil == Some(now + delay))
            && (own == 0 ==> delay == 0.0 && s'.backoffUntil == s.backoffUntil)
            && (delay == own as real * jitter
                || (delay < own as real * jitter
                    && (delay == cfg.backoffMax as real || delay == cfg.backoffBase as real)
                    && delay >= cfg.backoffMax as real && delay >= cfg.backoffBase as real))
  {
  }

  lemma Scaled(x: real, a: real, b: real)
    requires 0.0 <= x && a <= b
    ensures a * x <= x * b
  {
  }

  // ---- Whole runs of one domain ----

  datatype Ending = Succeeds | Parked | Fails(retryAfter: Option<nat>, exponential: bool, jitter: real)

  /** One `index_target` call: when it asks, when its request ends, and how. */
  datatype Call = Call(now: Time, finish: Time, ending: Ending)

  datatype Event = Started(at: Time) | BackedOff(at: Time, until: Time)

  function Start(s: DomainState, now: Time): DomainState {
    s.(inflight := s.inflight + 1, lastRequest := Some(now))
  }

  function Finish(s: DomainState): DomainState {
    s.(inflight := if s.inflight > 0 then s.inflight - 1 else 0)
  }

  function Clear(s: DomainState): DomainState {
    s.(failures := 0, backoffUntil := None)
  }

  /** The state after one call, and what happened during it. A delayed call does nothing. */
  function DoCall(cfg: Settings, s: DomainState, c: Call): (DomainState, seq<Event>) {
    if NextDelay(cfg, s, c.now) > 0.0 then (s, [])
    else
      var s1 := Finish(Start(s, c.now));
      match c.ending
      case Succeeds => (Clear(s1), [Started(c.now)])
      case Parked => (s1, [Started(c.now)])
      case Fails(retryAfter, exponential, jitter) =>
        var (s2, delay) := Backoff(cfg, s1, c.finish, retryAfter, exponential, jitter);
        (s2, [Started(c.now)] + if delay > 0.0 then [BackedOff(c.finish, c.finish + delay)] else [])
  }

  /** One call, as the domain sees it: refused, it changes nothing; let through, it is the last request and
      leaves nothing in flight; a success forgets the failures and the window, an oversized listing neither. */
  lemma CallLeaves(cfg: Settings, s: DomainState, c: Call)
    requires s.inflight == 0 && 0.0 <= c.now <= c.finish
    ensures var (s', events) := DoCall(cfg, s, c);
            && (NextDelay(cfg, s, c.now) > 0.0 ==> s' == s && events == [])
            && (NextDelay(cfg, s, c.now) <= 0.0 ==>
                  && s'.lastRequest == Some(c.now) && s'.inflight == 0
                  && events != [] && events[0] == Started(c.now)
                  && (c.ending.Succeeds? ==> s'.failures == 0 && s'.backoffUntil == None && |events| == 1)
                  && (c.ending.Parked? ==>
                        s'.failures == s.failures && s'.backoffUntil == s.backoffUntil && |events| == 1)
                  && (c.ending.Fails? ==>
                        if s'.backoffUntil.Some? && s'.backoffUntil.value > c.finish
                        then events == [Started(c.now), BackedOff(c.finish, s'.backoffUntil.value)]
                        else |events| == 1))
  {
  }

  /** Calls one after the other on a clock that never goes back. */
  predicate InSequence(calls: seq<Call>) {
    && (forall i :: 0 <= i < |calls| ==> 0.0 <= calls[i].now <= calls[i].finish)
    && (forall i :: 0 <= i < |calls| - 1 ==> calls[i].finish <= calls[i + 1].now)
  }

  function RunCalls(cfg: Settings, calls: seq<Call>): (DomainState, seq<Event>) {
    if calls == [] then (FRESH, [])
    else
      var (s, events) := RunCalls(cfg, calls[..|calls| - 1]);
      var (s', more) := DoCall(cfg, s, calls[|calls| - 1]);
      (s', events + more)
  }

  /** Every start keeps its distance from the starts before it and out of the windows before it. */
  ghost predicate Respectful(cfg: Settings, events: seq<Event>) {
    && (cfg.ratePerMinute > 0 ==>
          forall i, j :: 0 <= i < j < |events| && events[i].Started? && events[j].Started? ==>
                           events[j].at - events[i].at >= 60.0 / cfg.ratePerMinute as real)
    && (forall i, j :: 0 <= i < j < |events| && events[i].BackedOff? && events[j].Started? ==>
                         events[j].at >= events[i].until)
  }

  /** What the domain state remembers about the events so far, at time `clock`. */
  ghost predicate Remembered(s: DomainState, events: seq<Event>, clock: Time) {
    && s.inflight == 0
    && (forall i :: 0 <= i < |events| && events[i].Started? ==>
                      s.lastRequest.Some? && events[i].at <= s.lastRequest.value <= clock)
    && (forall i :: 0 <= i < |events| && events[i].BackedOff? ==>
                      events[i].until <= clock || (s.backoffUntil.Some? && events[i].until <= s.backoffUntil.value))
  }

  lemma CallIsRespectful(cfg: Settings, s: DomainState, events: seq<Event>, clock: Time, c: Call)
    requires Remembered(s, events, clock) && Respectful(cfg, events) && 0.0 <= clock <= c.now <= c.finish
    ensures var (s', more) := DoCall(cfg, s, c);
            Remembered(s', events + more, c.finish) && Respectful(cfg, events + more)
  {
  }

  lemma {:induction false} RunIsRemembered(cfg: Settings, calls: seq<Call>)
    requires InSequence(calls)
    ensures var clock := if calls == [] then 0.0 else calls[|calls| - 1].finish;
            Remembered(RunCalls(cfg, calls).0, RunCalls(cfg, calls).1, clock)
    ensures Respectful(cfg, RunCalls(cfg, calls).1)
  {
    if calls != [] {
      var n := |calls| - 1;
      var before := calls[..n];
      RunIsRemembered(cfg, before);
      var clock := if before == [] then 0.0 else before[n - 1].finish;
      assert before != [] ==> calls[n - 1].finish <= calls[n - 1 + 1].now;
      var (s, events) := RunCalls(cfg, before);
      CallIsRespectful(cfg, s, events, clock, calls[n]);
    }
  }

  /** The starts of a run, in order. */
  function StartTimes(events: seq<Event>): seq<real> {
    if events == [] then []
    else StartTimes(events[..|events| - 1])
         + if events[|events| - 1].Started? then [events[|events| - 1].at] else []
  }

  lemma {:induction false} StartsSpaced(cfg: Settings, events: seq<Event>)
    requires cfg.ratePerMinute > 0 && Respectful(cfg, events)
    ensures Spaced(StartTimes(events), MinInterval(cfg.ratePerMinute))
    ensures StartTimes(events) != [] ==>
              exists i :: 0 <= i < |events| && events[i].Started?
                          && events[i].at == StartTimes(events)[|StartTimes(events)| - 1]
  {
    if events != [] {
      var n := |events| - 1;
      StartsSpaced(cfg, events[..n]);
    }
  }

  /** Over a whole run of sequential calls on one domain: no request starts inside a backoff window
      opened before it, starts are 60/rate seconds apart, and a window of W seconds holds at most
      W * rate / 60 + 1 of them. */
  lemma RunKeepsThrottle(cfg: Settings, calls: seq<Call>)
    requires InSequence(calls)
    ensures Respectful(cfg, RunCalls(cfg, calls).1)
    ensures RunCalls(cfg, calls).0.inflight == 0
    ensures cfg.ratePerMinute > 0 ==> Spaced(StartTimes(RunCalls(cfg, calls).1), 60.0 / cfg.ratePerMinute as real)
  {
    RunIsRemembered(cfg, calls);
    if cfg.ratePerMinute > 0 {
      StartsSpaced(cfg, RunCalls(cfg, calls).1);
    }
  }

  lemma StartsPerWindow(cfg: Settings, calls: seq<Call>, start: real, width: real, i: nat, j: nat)
    requires InSequence(calls) && cfg.ratePerMinute > 0
    requires i <= j < |StartTimes(RunCalls(cfg, calls).1)|
    requires start <= StartTimes(RunCalls(cfg, calls).1)[i]
    requires StartTimes(RunCalls(cfg, calls).1)[j] <= start + width
    ensures (j - i + 1) as real <= width / (60.0 / cfg.ratePerMinute as real) + 1.0
  {
    RunKeepsThrottle(cfg, calls);
    WindowBound(StartTimes(RunCalls(cfg, calls).1), MinInterval(cfg.ratePerMinute), start, width, i, j);
  }

  // ---- Several threads on one domain ----

  type Request = nat

  /** The bookkeeping half of a call, as single steps that other threads may come between. */
  datatype Half = Begin(request: Request, at: Time) | End(request: Request)

  /** The domain state and the requests begun and not yet ended; the `finally` ends each just once. */
  function Interleave(halves: seq<Half>): (DomainState, set<Request>) {
    if halves == [] then (FRESH, {})
    else
      var (s, open) := Interleave(halves[..|halves| - 1]);
      match halves[|halves| - 1]
      case Begin(r, at) => (Start(s, at), open + {r})
      case End(r) => (Finish(s), open - {r})
  }

  predicate Matched(halves: seq<Half>) {
    halves == [] || (
      var before := halves[..|halves| - 1];
      && Matched(before)
      && match halves[|halves| - 1]
         case Begin(r, _) => r !in Interleave(before).1
         case End(r) => r in Interleave(before).1)
  }

  /** Under any interleaving `inflight` counts the open requests, so clamping at zero never happens. */
  lemma {:induction false} InflightIsOpenRequests(halves: seq<Half>)
    requires Matched(halves)
    ensures Interleave(halves).0.inflight == |Interleave(halves).1|
  {
    if halves != [] {
      InflightIsOpenRequests(halves[..|halves| - 1]);
    }
  }

  // ---- The table of domains ----

  class DomainTable {
    var domains: map<string, DomainState>

    constructor ()
      ensures domains == map[]
    {
      domains := map[];
    }

    function StateOf(domain: string): DomainState
      reads this
    {
      if domain in domains then domains[domain] else FRESH
    }

    /** Every other domain is left as it was. */
    twostate predicate Only(domain: string)
      reads this
    {
      forall other :: other != domain ==> StateOf(other) == old(StateOf(other))
    }

    method Delay(cfg: Settings, domain: string, now: Time) returns (delay: real)
      modifies this
      ensures delay == NextDelay(cfg, StateOf(domain), now)
      ensures forall d :: StateOf(d) == old(StateOf(d))
    {
      if domain !in domains {
        domains := domains[domain := FRESH];
      }
      delay := NextDelay(cfg, domains[domain], now);
    }

    /** One call from the delay check to the end of its bookkeeping. */
    method RunCall(cfg: Settings, domain: string, c: Call) returns (started: bool)
      modifies this
      ensures started <==> NextDelay(cfg, old(StateOf(domain)), c.now) <= 0.0
      ensures StateOf(domain) == DoCall(cfg, old(StateOf(domain)), c).0
      ensures Only(domain)
    {
      var delay := Delay(cfg, domain, c.now);
      if delay > 0.0 {
        return false;
      }
      var s := StateOf(domain);
      s := Finish(s.(inflight := s.inflight + 1, lastRequest := Some(c.now)));
      match c.ending {
        case Succeeds => s := s.(failures := 0, backoffUntil := None);
        case Parked =>
        case Fails(retryAfter, exponential, jitter) =>
          var ignored;
          s, ignored := ApplyBackoff(cfg, s, c.finish, retryAfter, exponential, jitter);
      }
      domains := domains[domain := s];
      return true;
    }
  }
}
