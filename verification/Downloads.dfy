/** Downloads: a counting gate in front of a retry loop with doubling delays. */
module Downloads {
  import opened Wrappers
  import opened Numbers
  import Text

  // ---- The retry loop ----

  /** What one attempt comes to; an "ok" that leaves an empty file raises like any exception. */
  datatype Attempt =
    | Finished(size: nat)
    | Answered(status: Option<nat>, message: string)
    | Raised(message: string)

  datatype Outcome = Success(size: nat) | Failure(message: Option<string>)

  predicate Retryable(status: Option<nat>) {
    status.None? || status.value == 408 || status.value == 429 || 500 <= status.value <= 599
  }

  /** The text kept for an answered failure. */
  function ErrorText(status: Option<nat>, message: string): string {
    if status.None? || status.value == 0 then "Download failed"
    else if message != "" then message else "HTTP " + Text.Decimal(status.value)
  }

  /** Attempt number k (from 0) ends the call. */
  predicate Terminal(a: Attempt, k: int, maxRetries: int) {
    match a
    case Finished(size) => size > 0 || k >= maxRetries
    case Answered(status, _) => k >= maxRetries || !Retryable(status)
    case Raised(_) => k >= maxRetries
  }

  function RaisedText(k: nat, message: string): string {
    "Download attempt " + Text.Decimal(k + 1) + " failed: " + message
  }

  /** What the call returns when attempt k ends it. */
  function Report(a: Attempt, k: nat): Outcome {
    match a
    case Finished(size) =>
      if size > 0 then Success(size)
      else Failure(Some(RaisedText(k, "Download reported success but destination is empty")))
    case Answered(status, message) => Failure(Some(ErrorText(status, message)))
    case Raised(message) => Failure(Some(RaisedText(k, message)))
  }

  /** k is the first attempt that ends the call. */
  ghost predicate FirstTerminal(script: nat -> Attempt, maxRetries: nat, k: nat) {
    && k <= maxRetries
    && Terminal(script(k), k, maxRetries)
    && forall j: nat :: j < k ==> !Terminal(script(j), j, maxRetries)
  }

  /** `script` says what each attempt would come to. */
  method Download(script: nat -> Attempt, maxRetries: int, retryDelay: nat)
    returns (outcome: Outcome, attempts: nat, slept: nat)
    ensures maxRetries < 0 ==> outcome == Failure(None) && attempts == 0 && slept == 0
    ensures maxRetries >= 0 ==>
              && attempts > 0 && FirstTerminal(script, maxRetries, attempts - 1)
              && outcome == Report(script(attempts - 1), attempts - 1)
              && slept == retryDelay * (Pow2(attempts - 1) - 1)
  {
    attempts, slept := 0, 0;
    while attempts <= maxRetries
      invariant 0 <= attempts && (maxRetries >= 0 ==> attempts <= maxRetries)
      invariant maxRetries < 0 ==> attempts == 0
      invariant forall j: nat :: j < attempts ==> !Terminal(script(j), j, maxRetries)
      invariant slept == retryDelay * (Pow2(attempts) - 1)
      decreases maxRetries - attempts
    {
      var attempt := attempts;
      attempts := attempts + 1;
      match script(attempt) {
        case Finished(size) =>
          if size > 0 {
            return Success(size), attempts, slept;
          }
          if attempt >= maxRetries {
            return Report(script(attempt), attempt), attempts, slept;
          }
        case Answered(status, message) =>
          if !(attempt < maxRetries && Retryable(status)) {
            return Failure(Some(ErrorText(status, message))), attempts, slept;
          }
        case Raised(message) =>
          if attempt >= maxRetries {
            return Failure(Some(RaisedText(attempt, message))), attempts, slept;
          }
      }
      Doubling(retryDelay, attempt);
      slept := slept + retryDelay * Pow2(attempt);
    }
    return Failure(None), attempts, slept;
  }

  lemma Doubling(delay: nat, k: nat)
    ensures delay * (Pow2(k) - 1) + delay * Pow2(k) == delay * (Pow2(k + 1) - 1)
  {
  }

  /** A call never makes more than max_retries + 1 attempts nor waits longer than
      retry_delay * (2^max_retries - 1). */
  lemma WaitIsBounded(script: nat -> Attempt, maxRetries: nat, retryDelay: nat, attempts: nat)
    requires attempts > 0 && FirstTerminal(script, maxRetries, attempts - 1)
    ensures attempts <= maxRetries + 1
    ensures retryDelay * (Pow2(attempts - 1) - 1) <= retryDelay * (Pow2(maxRetries) - 1)
  {
    Pow2Grows(attempts - 1, maxRetries);
    Monotone(retryDelay, Pow2(attempts - 1) - 1, Pow2(maxRetries) - 1);
  }

  lemma Monotone(a: nat, b: int, c: int)
    requires b <= c
    ensures a * b <= a * c
  {
  }

  /** The call succeeds iff some attempt among the first max_retries + 1 succeeds and every attempt
      before it was worth retrying. */
  lemma SucceedsIff(script: nat -> Attempt, maxRetries: nat, k: nat)
    requires FirstTerminal(script, maxRetries, k)
    ensures Report(script(k), k).Success? <==>
              exists j: nat :: && j <= maxRetries && script(j).Finished? && script(j).size > 0
                               && forall i: nat :: i < j ==> !Terminal(script(i), i, maxRetries)
  {
  }

  /** A call that ends on an answered failure passes the transport's own message on iff there is a
      status code other than zero. */
  lemma MessageKeptIff(script: nat -> Attempt, maxRetries: nat, k: nat)
    requires FirstTerminal(script, maxRetries, k) && script(k).Answered?
    ensures var status, message := script(k).status, script(k).message;
            Report(script(k), k) == Failure(Some(message)) <==>
              message == "Download failed" || (message != "" && status.Some? && status.value != 0)
  {
  }

  /** What libcurl's errors come to: no status code, and a message of their own. */
  function CurlError(number: string, message: string): Attempt {
    Answered(None, "PycURL error " + number + ": " + message)
  }

  ghost predicate IsCurlError(a: Attempt) {
    exists number, message :: a == CurlError(number, message)
  }

  /** So a call that meets nothing but transport errors uses up all its attempts, and none of their
      messages is ever reported. */
  lemma TransportErrorsLoseTheirMessage(script: nat -> Attempt, maxRetries: nat, k: nat)
    requires FirstTerminal(script, maxRetries, k)
    requires forall j: nat :: j <= maxRetries ==> IsCurlError(script(j))
    ensures k == maxRetries
    ensures Report(script(k), k) == Failure(Some("Download failed"))
    ensures forall j: nat :: j <= maxRetries ==>
              script(j).Answered? && Report(script(k), k) != Failure(Some(script(j).message))
  {
    forall j: nat | j <= maxRetries ensures script(j).Answered? && script(j).message != "Download failed" {
      assert IsCurlError(script(j));
      assert script(j).message[0] == 'P';
    }
  }

  /** A failure the source tries again: no status code, 408, 429 or any 5xx. */
  predicate WorthRetrying(a: Attempt) {
    match a
    case Finished(size) => size == 0
    case Raised(_) => true
    case Answered(status, _) => status == None || status.value in {408, 429} || status.value / 100 == 5
  }

  /** The attempts of a call: all before the last are worth retrying, and the last is not, or is the last
      there may be. */
  lemma StopsIff(script: nat -> Attempt, maxRetries: nat, k: nat)
    ensures FirstTerminal(script, maxRetries, k) <==>
              && k <= maxRetries && (k == maxRetries || !WorthRetrying(script(k)))
              && forall j: nat :: j < k ==> WorthRetrying(script(j))
  {
  }

  /** What the caller is told about the attempt the call ended with. */
  lemma ReportMeans(a: Attempt, k: nat)
    ensures a.Finished? && a.size > 0 ==> Report(a, k) == Success(a.size)
    ensures a.Raised? ==>
              Report(a, k) == Failure(Some("Download attempt " + Text.Decimal(k + 1) + " failed: " + a.message))
    ensures a == Finished(0) ==>
              Report(a, k) == Failure(Some("Download attempt " + Text.Decimal(k + 1) + " failed: "
                                           + "Download reported success but destination is empty"))
    ensures a.Answered? && a.message == "" && a.status.Some? && a.status.value > 0 ==>
              Report(a, k) == Failure(Some("HTTP " + Text.Decimal(a.status.value)))
    ensures a.Answered? && (a.status == None || a.status == Some(0)) ==>
              Report(a, k) == Failure(Some("Download failed"))
  {
  }

  // ---- The gate ----

  type Thread = nat

  /** `inside` are the threads between admission and the `finally`. */
  datatype Gate = Gate(active: int, limit: int, inside: set<Thread>)

  datatype Step = Admit(thread: Thread) | Leave(thread: Thread) | SetLimit(limit: int)

  /** One atomic step under the download lock. */
  predicate Enabled(g: Gate, step: Step) {
    match step
    case Admit(t) => t !in g.inside && g.active < g.limit
    case Leave(t) => t in g.inside
    case SetLimit(_) => true
  }

  function After(g: Gate, step: Step): Gate {
    match step
    case Admit(t) => g.(active := g.active + 1, inside := g.inside + {t})
    case Leave(t) => g.(active := g.active - 1, inside := g.inside - {t})
    case SetLimit(n) => g.(limit := n)
  }

  predicate Possible(g: Gate, steps: seq<Step>)
    decreases |steps|
  {
    steps == [] || (Enabled(g, steps[0]) && Possible(After(g, steps[0]), steps[1..]))
  }

  function Play(g: Gate, steps: seq<Step>): Gate
    decreases |steps|
  {
    if steps == [] then g else Play(After(g, steps[0]), steps[1..])
  }

  /** The largest limit in force at any moment of the run. */
  function LargestLimit(limit: int, steps: seq<Step>): int
    decreases |steps|
  {
    if steps == [] then limit
    else Max(limit, LargestLimit(if steps[0].SetLimit? then steps[0].limit else limit, steps[1..]))
  }

  /** It is the largest of the limits: none was larger, and it was in force. */
  lemma {:induction false} LargestLimitIsMax(limit: int, steps: seq<Step>)
    ensures limit <= LargestLimit(limit, steps)
    ensures forall n :: SetLimit(n) in steps ==> n <= LargestLimit(limit, steps)
    ensures LargestLimit(limit, steps) == limit || SetLimit(LargestLimit(limit, steps)) in steps
    decreases |steps|
  {
    if steps != [] {
      assert steps == [steps[0]] + steps[1..];
      LargestLimitIsMax(if steps[0].SetLimit? then steps[0].limit else limit, steps[1..]);
    }
  }

  /** Under every interleaving the counter is the number of threads inside, and it never exceeds the
      largest limit ever set (or what was inside at the start). */
  lemma {:induction false} CounterIsOccupancy(g: Gate, steps: seq<Step>)
    requires g.active == |g.inside| && Possible(g, steps)
    ensures var end := Play(g, steps);
            end.active == |end.inside| && end.active <= Max(g.active, LargestLimit(g.limit, steps))
    decreases |steps|
  {
    if steps != [] {
      var g1 := After(g, steps[0]);
      assert g1.active == |g1.inside|;
      CounterIsOccupancy(g1, steps[1..]);
    }
  }

  /** From the start: never more threads inside than the largest limit, and none counted when all left. */
  lemma GateIsSafe(limit: int, steps: seq<Step>)
    requires Possible(Gate(0, limit, {}), steps)
    ensures var end := Play(Gate(0, limit, {}), steps);
            && 0 <= end.active == |end.inside| <= Max(0, LargestLimit(limit, steps))
            && (end.inside == {} <==> end.active == 0)
  {
    CounterIsOccupancy(Gate(0, limit, {}), steps);
  }

  /** Lowering the limit evicts nobody, but as long as the counter stays above the new limit every step
      since has been a departure. */
  lemma {:induction false} NobodyEntersAboveTheLimit(g: Gate, steps: seq<Step>)
    requires g.active == |g.inside| && Possible(g, steps)
    requires forall s :: s in steps ==> !s.SetLimit?
    requires Play(g, steps).active > g.limit
    ensures forall s :: s in steps ==> s.Leave?
    ensures Play(g, steps).active == g.active - |steps|
    decreases |steps|
  {
    if steps != [] {
      var g1 := After(g, steps[0]);
      assert steps[0] in steps && steps == [steps[0]] + steps[1..];
      if steps[0].Admit? {
        NoNewLimit(g.limit, steps[1..]);
        CounterIsOccupancy(g1, steps[1..]);
        assert false;
      }
      NobodyEntersAboveTheLimit(g1, steps[1..]);
    }
  }

  lemma {:induction false} NoNewLimit(limit: int, steps: seq<Step>)
    requires forall s :: s in steps ==> !s.SetLimit?
    ensures LargestLimit(limit, steps) == limit
    decreases |steps|
  {
    if steps != [] {
      assert steps[0] in steps;
      NoNewLimit(limit, steps[1..]);
    }
  }

  class Fetcher {
    var active: int
    var limit: int
    ghost var inside: set<Thread>

    ghost function AsGate(): Gate
      reads this
    {
      Gate(active, limit, inside)
    }

    ghost predicate Valid()
      reads this
    {
      active == |inside|
    }

    constructor (maxConcurrent: int)
      ensures Valid() && AsGate() == Gate(0, maxConcurrent, {})
    {
      active, limit, inside := 0, maxConcurrent, {};
    }

    /** One turn of the admission loop. */
    method TryAdmit(ghost thread: Thread) returns (admitted: bool)
      requires Valid() && thread !in inside
      modifies this
      ensures Valid()
      ensures admitted <==> Enabled(old(AsGate()), Admit(thread))
      ensures AsGate() == if admitted then After(old(AsGate()), Admit(thread)) else old(AsGate())
    {
      if active < limit {
        active := active + 1;
        inside := inside + {thread};
        return true;
      }
      return false;
    }

    /** The `finally` of a download. */
    method Release(ghost thread: Thread)
      requires Valid() && thread in inside
      modifies this
      ensures Valid() && AsGate() == After(old(AsGate()), Leave(thread))
    {
      active := active - 1;
      inside := inside - {thread};
    }

    method SetMaxConcurrent(maxConcurrent: int)
      requires Valid()
      modifies this`limit
      ensures Valid() && AsGate() == After(old(AsGate()), SetLimit(maxConcurrent))
    {
      limit := maxConcurrent;
    }

    method GetActiveDownloads() returns (n: int)
      requires Valid()
      ensures n == |inside|
    {
      n := active;
    }

    /** A whole call once admitted: whatever the attempts come to, the slot is given back. */
    method DownloadAdmitted(ghost thread: Thread, script: nat -> Attempt, maxRetries: int, retryDelay: nat)
      returns (outcome: Outcome)
      requires Valid() && thread in inside
      modifies this
      ensures Valid() && AsGate() == After(old(AsGate()), Leave(thread))
      ensures maxRetries >= 0 ==>
                exists k: nat :: FirstTerminal(script, maxRetries, k) && outcome == Report(script(k), k)
    {
      var attempts, slept;
      outcome, attempts, slept := Download(script, maxRetries, retryDelay);
      Release(thread);
    }
  }
}
