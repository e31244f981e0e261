/** When a target is due for a full reindex or a cheap check, and how far apart full reindexes are. */
module Cadence {
  import opened Wrappers
  import opened TargetTable
  import opened Indexing
  import opened Numbers
  import opened Spacing

  const DAY: real := 86400.0

  /** The settings that matter here, after `IndexingSettings.validate`. */
  datatype Settings = Settings(minFullDays: nat, maxFullDays: nat, allowEarly: bool, earlyNeedsHot: bool)

  /** At least a week between full reindexes, whatever the settings say. */
  function MinInterval(cfg: Settings): real {
    MaxReal(7.0 * DAY, cfg.minFullDays as real * DAY)
  }

  /** At most sixty days, but never less than the minimum. */
  function MaxInterval(cfg: Settings): real {
    MaxReal(MinInterval(cfg), MinReal(60.0 * DAY, cfg.maxFullDays as real * DAY))
  }

  /** The documented "every 7 to 60 days" holds for the two intervals iff the configured minimum is at
      most sixty days. */
  lemma DocumentedRangeIff(cfg: Settings)
    ensures DAY == 24.0 * 3600.0
    ensures 7.0 * DAY <= MinInterval(cfg) <= MaxInterval(cfg)
    ensures MinInterval(cfg) == if cfg.minFullDays <= 7 then 604800.0 else cfg.minFullDays as real * 86400.0
    ensures cfg.minFullDays <= cfg.maxFullDays && 7 <= cfg.maxFullDays <= 60 ==>
              MaxInterval(cfg) == cfg.maxFullDays as real * 86400.0
    ensures cfg.maxFullDays <= 7 || cfg.maxFullDays <= cfg.minFullDays ==> MaxInterval(cfg) == MinInterval(cfg)
    ensures cfg.maxFullDays >= 60 && cfg.minFullDays <= 60 ==> MaxInterval(cfg) == 60.0 * DAY
    ensures MaxInterval(cfg) <= 60.0 * DAY <==> cfg.minFullDays <= 60
  {
  }

  /** Seconds until something is due; `Always` is minus infinity. */
  datatype Due = Always | Within(seconds: real)

  function Sooner(a: Due, b: Due): Due {
    if a.Always? || b.Always? then Always else Within(MinReal(a.seconds, b.seconds))
  }

  datatype Budget = Budget(fullLeft: bool, cheapLeft: bool, resetIn: real)

  predicate Overdue(stamp: Option<Time>, now: Time, interval: real) {
    stamp.None? || now - stamp.value >= interval
  }

  /** A dirty target that the settings let in before the minimum interval is over. */
  predicate EarlyAllowed(cfg: Settings, row: Row, hotness: real) {
    row.needsFull && cfg.allowEarly && (!cfg.earlyNeedsHot || hotness > 0.0)
  }

  /** Why a full reindex is wanted, as one condition. */
  predicate WantsFull(cfg: Settings, row: Row, now: Time, hotness: real) {
    || Overdue(row.lastFull, now, MaxInterval(cfg))
    || (Overdue(row.lastFull, now, MinInterval(cfg)) && (row.needsFull || (cfg.allowEarly && hotness > 0.0)))
    || EarlyAllowed(cfg, row, hotness)
  }

  /** Neither a full reindex is wanted nor a cheap check due. */
  predicate NothingDue(cfg: Settings, row: Row, now: Time, hotness: real) {
    !WantsFull(cfg, row, now, hotness) && !Overdue(row.lastCheck, now, DAY)
  }

  /** Nothing is due but a full reindex that a hot target is let in for early on. */
  predicate OnlyForHot(cfg: Settings, row: Row, now: Time, hotness: real) {
    !Overdue(row.lastCheck, now, DAY) && cfg.allowEarly && hotness > 0.0 && Overdue(row.lastFull, now, MinInterval(cfg))
  }

  /** `d` seconds from now is when something comes due for the row as it is, and not before, unless the
      target is hot. */
  ghost predicate NextDueIn(cfg: Settings, row: Row, now: Time, hotness: real, d: real) {
    && d > 0.0 && !NothingDue(cfg, row, now + d, hotness)
    && (row.lastCheck.Some? ==> d <= DAY - (now - row.lastCheck.value))
    && forall time :: now <= time < now + d ==>
         NothingDue(cfg, row, time, hotness) || OnlyForHot(cfg, row, time, hotness)
  }

  /** The interval that counts towards the next full reindex of a row. */
  function Counting(cfg: Settings, row: Row, now: Time, hotness: real): real {
    if row.needsFull || (cfg.allowEarly && hotness > 0.0 && !Overdue(row.lastFull, now, MaxInterval(cfg))
                         && Overdue(row.lastFull, now, MinInterval(cfg)))
    then MinInterval(cfg) else MaxInterval(cfg)
  }

  /** The part that is about full reindexes. */
  method FullCadence(cfg: Settings, row: Row, now: Time, hotness: real) returns (fullDue: bool, due: Due)
    ensures fullDue <==> WantsFull(cfg, row, now, hotness)
    ensures due == if row.lastFull.None? then Always
                   else Within(Counting(cfg, row, now, hotness) - (now - row.lastFull.value))
  {
    var minInterval := MaxReal(7.0 * DAY, cfg.minFullDays as real * DAY);
    var maxInterval := MinReal(60.0 * DAY, cfg.maxFullDays as real * DAY);
    if maxInterval < minInterval {
      maxInterval := minInterval;
    }
    var age := if row.lastFull.Some? then now - row.lastFull.value else maxInterval + 1.0;
    fullDue := false;
    if row.needsFull || row.lastFull.None? {
      due := if row.lastFull.None? then Always else Within(minInterval - age);
      if row.lastFull.None? || age >= minInterval {
        fullDue := true;
      } else if cfg.allowEarly && (!cfg.earlyNeedsHot || hotness > 0.0) {
        fullDue := true;
      }
    } else if age >= maxInterval {
      fullDue := true;
      due := Within(maxInterval - age);
    } else if age >= minInterval && cfg.allowEarly && hotness > 0.0 {
      fullDue := true;
      due := Within(minInterval - age);
    } else {
      due := Within(maxInterval - age);
    }
  }

  lemma QuietUntil(cfg: Settings, row: Row, now: Time, hotness: real)
    requires NothingDue(cfg, row, now, hotness)
    ensures row.lastFull.Some? && row.lastCheck.Some?
    ensures NextDueIn(cfg, row, now, hotness,
                      MinReal(Counting(cfg, row, now, hotness) - (now - row.lastFull.value),
                              DAY - (now - row.lastCheck.value)))
  {
  }

  /** `should_reindex_with_budget`, in the order of its statements. */
  method ShouldReindex(cfg: Settings, target: Option<Row>, now: Time, hotness: real, budget: Budget)
    returns (decision: Option<Action>, nextDue: Due)
    ensures target.None? ==> decision == Some(Full)
    ensures target.Some? ==>
              var row := target.value;
              && (decision == Some(Full) <==>
                    !RetryPending(row, now) && WantsFull(cfg, row, now, hotness) && budget.fullLeft)
              && (decision == Some(Cheap) <==>
                    && !RetryPending(row, now) && !WantsFull(cfg, row, now, hotness)
                    && Overdue(row.lastCheck, now, DAY) && budget.cheapLeft)
    ensures decision.None? && budget.resetIn > 0.0 ==> nextDue.Within? && nextDue.seconds > 0.0
    ensures target.Some? && RetryPending(target.value, now) ==>
              decision == None && nextDue == Within(target.value.nextRetry.value - now)
    ensures target.Some? && !RetryPending(target.value, now) && decision.None?
            && !NothingDue(cfg, target.value, now, hotness) ==>
              nextDue == Within(budget.resetIn)
    ensures target.Some? && !RetryPending(target.value, now) && NothingDue(cfg, target.value, now, hotness) ==>
              decision == None && nextDue.Within? && NextDueIn(cfg, target.value, now, hotness, nextDue.seconds)
    ensures target.Some? && decision.Some? && target.value.lastFull.None? ==> nextDue == Always
    ensures target.Some? && decision.Some? && target.value.lastFull.Some? ==>
              var row := target.value;
              nextDue.Within? &&
              var untilFull := Counting(cfg, row, now, hotness) - (now - row.lastFull.value);
              var untilCheck := if row.lastCheck.Some? then DAY - (now - row.lastCheck.value) else -1.0;
              && nextDue.seconds <= untilFull && nextDue.seconds <= untilCheck
              && (nextDue.seconds == untilFull || nextDue.seconds == untilCheck)
  {
    if target.None? {
      return Some(Full), Always;
    }
    var row := target.value;
    if row.nextRetry.Some? && now < row.nextRetry.value {
      return None, Within(row.nextRetry.value - now);
    }
    hide WantsFull, Counting, NextDueIn, MaxInterval, MinInterval;
    var fullDue, due := FullCadence(cfg, row, now, hotness);
    var cheapAge := if row.lastCheck.Some? then now - row.lastCheck.value else DAY + 1.0;
    due := Sooner(due, Within(DAY - cheapAge));
    if fullDue {
      if !budget.fullLeft {
        return None, Within(budget.resetIn);
      }
      return Some(Full), due;
    }
    if cheapAge >= DAY {
      if !budget.cheapLeft {
        return None, Within(budget.resetIn);
      }
      return Some(Cheap), due;
    }
    QuietUntil(cfg, row, now, hotness);
    return None, due;
  }

  // ---- Runs of the scheduler over one target ----

  /** A full listing commit: when, and whether it was let in early. */
  datatype FullCommit = FullCommit(at: Time, early: bool)

  datatype Sched = Sched(row: Row, clock: Time, picked: Option<FullCommit>, fulls: seq<FullCommit>)

  datatype Step =
    | Tick(to: Time)
    | Pick(hotness: real)
    | CommitFull(etag: Option<string>, modified: Option<string>, hash: string)
    | CommitCheap(newEtag: Option<string>, newModified: Option<string>, newHash: Option<string>, changed: bool)
    | Fail(message: string, retryAt: Option<Time>)
    | MarkDirty

  function Files(row: Row): Target {
    Target(row, [])
  }

  /** The scheduler picks the target for a full pass only when it wants one; `picked` remembers that and
      whether the minimum interval was still running. Full listings are committed by picked passes only. */
  predicate Next(cfg: Settings, s: Sched, step: Step, s': Sched) {
    match step
    case Tick(to) => to >= s.clock && s' == s.(clock := to)
    case Pick(hotness) =>
      && !RetryPending(s.row, s.clock) && WantsFull(cfg, s.row, s.clock, hotness)
      && s' == s.(picked := Some(FullCommit(s.clock, !Overdue(s.row.lastFull, s.clock, MinInterval(cfg)))))
    case CommitFull(etag, modified, hash) =>
      && s.picked.Some?
      && s' == s.(row := Relisted(Files(s.row), [], etag, modified, hash, s.clock).row, picked := None,
                  fulls := s.fulls + [FullCommit(s.clock, s.picked.value.early)])
    case CommitCheap(etag, modified, hash, changed) =>
      s' == s.(row := Checked(Files(s.row), etag, modified, hash, changed, s.clock).row, picked := None)
    case Fail(message, retryAt) =>
      s' == s.(row := Failed(Files(s.row), message, retryAt, s.clock).row, picked := None)
    case MarkDirty => s' == s.(row := Marked(Files(s.row)).row)
  }

  predicate Init(s: Sched) {
    s.row == NewTarget(s.row.remoteUrl).row && s.picked.None? && s.fulls == []
  }

  ghost predicate Run(cfg: Settings, states: seq<Sched>, steps: seq<Step>) {
    && |states| == |steps| + 1
    && Init(states[0])
    && forall i :: 0 <= i < |steps| ==> Next(cfg, states[i], steps[i], states[i + 1])
  }

  /** Consecutive full commits are a minimum interval apart, or the later one was let in early. */
  ghost predicate SpacedOrEarly(cfg: Settings, fulls: seq<FullCommit>) {
    forall i :: 0 <= i < |fulls| - 1 ==>
                  fulls[i + 1].early || fulls[i + 1].at - fulls[i].at >= MinInterval(cfg)
  }

  ghost predicate Inv(cfg: Settings, s: Sched) {
    && SpacedOrEarly(cfg, s.fulls)
    && (s.fulls == [] <==> s.row.lastFull.None?)
    && (s.fulls != [] ==> s.row.lastFull == Some(s.fulls[|s.fulls| - 1].at) && s.row.lastFull.value <= s.clock)
    && (s.picked.Some? ==>
          && s.picked.value.at <= s.clock
          && (s.fulls != [] && !s.picked.value.early ==>
                s.picked.value.at - s.row.lastFull.value >= MinInterval(cfg)))
    && (!cfg.allowEarly ==> s.picked.Some? ==> !s.picked.value.early)
    && (!cfg.allowEarly ==> forall i :: 0 <= i < |s.fulls| ==> !s.fulls[i].early)
  }

  lemma InvStep(cfg: Settings, s: Sched, step: Step, s': Sched)
    requires Inv(cfg, s) && Next(cfg, s, step, s')
    ensures Inv(cfg, s')
  {
  }

  lemma {:induction false} RunIsSpaced(cfg: Settings, states: seq<Sched>, steps: seq<Step>, n: nat)
    requires Run(cfg, states, steps) && n < |states|
    ensures Inv(cfg, states[n]) && SpacedOrEarly(cfg, states[n].fulls)
  {
    if n > 0 {
      RunIsSpaced(cfg, states, steps, n - 1);
      InvStep(cfg, states[n - 1], steps[n - 1], states[n]);
    }
  }

  function Times(fulls: seq<FullCommit>): (times: seq<real>)
    ensures |times| == |fulls| && forall i :: 0 <= i < |fulls| ==> times[i] == fulls[i].at
  {
    seq(|fulls|, i requires 0 <= i < |fulls| => fulls[i].at)
  }

  /** With early reindexing off, full commits of one target are at least max(7, min) days apart. */
  lemma FullCommitsSpaced(cfg: Settings, states: seq<Sched>, steps: seq<Step>, n: nat)
    requires Run(cfg, states, steps) && n < |states| && !cfg.allowEarly
    ensures Spaced(Times(states[n].fulls), MinInterval(cfg))
  {
    RunIsSpaced(cfg, states, steps, n);
  }

  /** Hence a window of W seconds holds at most W / interval + 1 of them. */
  lemma FullCommitsPerWindow(cfg: Settings, states: seq<Sched>, steps: seq<Step>, n: nat,
                             start: real, width: real, i: nat, j: nat)
    requires Run(cfg, states, steps) && n < |states| && !cfg.allowEarly
    requires i <= j < |states[n].fulls|
    requires start <= states[n].fulls[i].at && states[n].fulls[j].at <= start + width
    ensures (j - i + 1) as real <= width / MinInterval(cfg) + 1.0
  {
    FullCommitsSpaced(cfg, states, steps, n);
    WindowBound(Times(states[n].fulls), MinInterval(cfg), start, width, i, j);
  }

  /** Picking is early exactly for a dirty target that the hotness condition lets in before its time. */
  lemma EarlyPickIff(cfg: Settings, s: Sched, hotness: real, s': Sched)
    requires Next(cfg, s, Pick(hotness), s')
    ensures s'.picked.value.early <==>
              EarlyAllowed(cfg, s.row, hotness) && !Overdue(s.row.lastFull, s.clock, MinInterval(cfg))
  {
  }

  /** Step k is the early pick behind what state n has picked: it found the target dirty and, if
      required, hot, while the minimum interval since the last full commit was running. */
  ghost predicate EarlyPick(cfg: Settings, states: seq<Sched>, steps: seq<Step>, k: nat, n: nat)
    requires |states| == |steps| + 1 && n < |states|
  {
    && k < n && steps[k].Pick?
    && states[k].row.needsFull && cfg.allowEarly && (cfg.earlyNeedsHot ==> steps[k].hotness > 0.0)
    && states[k].row.lastFull.Some? && states[k].clock - states[k].row.lastFull.value < MinInterval(cfg)
    && states[k].fulls == states[n].fulls
    && forall m :: k < m < n ==> !steps[m].Pick? && !steps[m].CommitFull?
  }

  /** Commit number i was made at step c, by the early pick k. */
  ghost predicate EarlyCommit(cfg: Settings, states: seq<Sched>, steps: seq<Step>, k: nat, c: nat, i: nat)
    requires |states| == |steps| + 1
  {
    c < |steps| && steps[c].CommitFull? && |states[c].fulls| == i && EarlyPick(cfg, states, steps, k, c)
  }

  /** An early pick that is still open goes back to the last pick step. */
  lemma {:induction false} OpenEarlyPick(cfg: Settings, states: seq<Sched>, steps: seq<Step>, n: nat)
    returns (k: nat)
    requires Run(cfg, states, steps) && n < |states|
    requires states[n].picked.Some? && states[n].picked.value.early
    ensures EarlyPick(cfg, states, steps, k, n)
  {
    var before, step := states[n - 1], steps[n - 1];
    assert Next(cfg, before, step, states[n]);
    if step.Pick? {
      EarlyPickIff(cfg, before, step.hotness, states[n]);
      k := n - 1;
    } else {
      k := OpenEarlyPick(cfg, states, steps, n - 1);
    }
  }

  /** Every early commit was made by its own early pick. */
  lemma {:induction false} EarlyHasReason(cfg: Settings, states: seq<Sched>, steps: seq<Step>, n: nat, i: nat)
    returns (k: nat, c: nat)
    requires Run(cfg, states, steps) && n < |states|
    requires i < |states[n].fulls| && states[n].fulls[i].early
    ensures c < n && EarlyCommit(cfg, states, steps, k, c, i)
  {
    var before, step := states[n - 1], steps[n - 1];
    assert Next(cfg, before, step, states[n]);
    if i < |before.fulls| {
      k, c := EarlyHasReason(cfg, states, steps, n - 1, i);
    } else {
      c := n - 1;
      k := OpenEarlyPick(cfg, states, steps, c);
    }
  }

  /** Where early reindexes need a hot target, a target that is never hot keeps the minimum interval. */
  lemma ColdTargetsAreSpaced(cfg: Settings, states: seq<Sched>, steps: seq<Step>, n: nat)
    requires Run(cfg, states, steps) && n < |states| && cfg.earlyNeedsHot
    requires forall k :: 0 <= k < |steps| && steps[k].Pick? ==> steps[k].hotness <= 0.0
    ensures Spaced(Times(states[n].fulls), MinInterval(cfg))
  {
    forall i | 0 <= i < |states[n].fulls| - 1
      ensures states[n].fulls[i + 1].at - states[n].fulls[i].at >= MinInterval(cfg)
    {
      if states[n].fulls[i + 1].at - states[n].fulls[i].at < MinInterval(cfg) {
        var k, c := CloseCommitsWereEarly(cfg, states, steps, n, i);
      }
    }
  }

  /** Two full commits closer than the minimum interval mean that the later one was made by a pick that
      found the target dirty and the hotness condition met within that interval. */
  lemma CloseCommitsWereEarly(cfg: Settings, states: seq<Sched>, steps: seq<Step>, n: nat, i: nat)
    returns (k: nat, c: nat)
    requires Run(cfg, states, steps) && n < |states| && i + 1 < |states[n].fulls|
    requires states[n].fulls[i + 1].at - states[n].fulls[i].at < MinInterval(cfg)
    ensures c < n && EarlyCommit(cfg, states, steps, k, c, i + 1)
  {
    RunIsSpaced(cfg, states, steps, n);
    k, c := EarlyHasReason(cfg, states, steps, n, i + 1);
  }

  /** With early reindexing on, a hot target that is marked dirty is listed in full twice within seven
      days, whatever the configured minimum. */
  lemma EarlyCommitsCanBeClose(cfg: Settings) returns (states: seq<Sched>, steps: seq<Step>)
    requires cfg.allowEarly
    ensures Run(cfg, states, steps) && |states[|steps|].fulls| == 2
    ensures states[|steps|].fulls[1].at - states[|steps|].fulls[0].at < 7.0 * DAY
    ensures !Spaced(Times(states[|steps|].fulls), MinInterval(cfg))
  {
    var commit := CommitFull(None, None, "");
    var s0 := Sched(NewTarget("").row, 0.0, None, []);
    var s1 := s0.(picked := Some(FullCommit(0.0, false)));
    var full := Relisted(Files(s0.row), [], None, None, "", 0.0).row;
    var s2 := s1.(row := full, picked := None, fulls := [FullCommit(0.0, false)]);
    var s3 := s2.(row := Marked(Files(full)).row);
    var s4 := s3.(picked := Some(FullCommit(0.0, true)));
    var s5 := s4.(row := full, picked := None, fulls := [FullCommit(0.0, false), FullCommit(0.0, true)]);
    states, steps := [s0, s1, s2, s3, s4, s5], [Pick(1.0), commit, MarkDirty, Pick(1.0), commit];
    assert Next(cfg, s0, Pick(1.0), s1) && Next(cfg, s1, commit, s2) && Next(cfg, s2, MarkDirty, s3);
    assert Next(cfg, s3, Pick(1.0), s4) && Next(cfg, s4, commit, s5);
    assert Times(s5.fulls)[1] - Times(s5.fulls)[0] == 0.0;
  }

  ghost predicate AlwaysSpaced(cfg: Settings) {
    forall states, steps, n: nat :: Run(cfg, states, steps) && n < |states| ==> SpacedAt(cfg, states[n])
  }

  ghost predicate SpacedAt(cfg: Settings, s: Sched) {
    Spaced(Times(s.fulls), MinInterval(cfg))
  }

  /** Full commits keep the minimum interval in every run iff early reindexing is off. */
  lemma AlwaysSpacedIff(cfg: Settings)
    ensures AlwaysSpaced(cfg) <==> !cfg.allowEarly
  {
    if cfg.allowEarly {
      var states, steps := EarlyCommitsCanBeClose(cfg);
      assert !SpacedAt(cfg, states[|steps|]);
    } else {
      forall states, steps, n: nat | Run(cfg, states, steps) && n < |states| ensures SpacedAt(cfg, states[n]) {
        FullCommitsSpaced(cfg, states, steps, n);
      }
    }
  }
}
