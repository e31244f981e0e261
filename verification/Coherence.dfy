/** One target as a protocol: an indexer that snapshots, fetches and commits, beside a remote that
    republishes and other threads that mark the target dirty at any moment. */
module Coherence {
  import opened Wrappers
  import opened ListingHash
  import opened TargetTable
  import opened Indexing

  /** A representation of the remote listing with its validators; "" means the header is absent. */
  datatype Resource = Resource(entries: seq<Entry>, etag: string, modified: string)

  datatype Phase =
    | Idle
    | Snapped(snap: Row, action: Option<Action>)
    | Fetched(snap: Row, action: Option<Action>, outcome: Outcome)
    | Failing

  /** `byEtag` and `byModified` remember which listing each validator ever stood for, `seen` what the
      remote held when it last answered, and `lastHashed` the listing whose hash was last written. */
  datatype World = World(target: Target, phase: Phase, clock: Time, remote: Resource,
                         byEtag: map<string, seq<Entry>>, byModified: map<string, seq<Entry>>,
                         seen: seq<Entry>, lastHashed: Option<seq<Entry>>)

  datatype Step =
    | Tick(to: Time)
    | MarkDirty
    | Publish(resource: Resource)
    | TakeSnapshot(requested: Option<Action>)
    | Fetch(answer: Outcome)
    | CommitStep(after: Target, verdict: Verdict, backoff: real)
    | RecordFailure(message: string, retryAt: Option<Time>)

  // ---- The remote ----

  /** What is assumed of listings: no modification time, which the HTML listing parser never sets, and no
      line break inside a path, which that parser would let through. */
  predicate Plain(entries: seq<Entry>) {
    Clean(entries) && forall e :: e in entries ==> e.modified.None?
  }

  /** A strong validator never stands for two listings. */
  predicate Remembers(history: map<string, seq<Entry>>, validator: string, entries: seq<Entry>) {
    validator != "" ==> validator in history && history[validator] == entries
  }

  function Remember(history: map<string, seq<Entry>>, validator: string, entries: seq<Entry>)
    : map<string, seq<Entry>>
  {
    if validator == "" then history else history[validator := entries]
  }

  predicate MayPublish(w: World, r: Resource) {
    && Plain(r.entries)
    && (r.etag in w.byEtag ==> Remembers(w.byEtag, r.etag, r.entries))
    && (r.modified in w.byModified ==> Remembers(w.byModified, r.modified, r.entries))
  }

  /** A 304 answers a conditional request whose validator still matches; If-Modified-Since counts only
      when no If-None-Match is sent. */
  predicate NothingNew(snap: Row, r: Resource) {
    if snap.etag.GetOr("") != "" then snap.etag.value == r.etag
    else snap.modified.GetOr("") != "" && snap.modified.value == r.modified
  }

  predicate Honest(snap: Row, r: Resource, answer: Outcome) {
    match answer
    case NotModified => NothingNew(snap, r)
    case Listing(entries, etag, modified) =>
      entries == r.entries && etag == Some(r.etag) && modified == Some(r.modified)
    case FetchError(message) => message != ""
    case HttpStatus(_) => true
  }

  /** What an honest remote may answer: any error that says something and any status, its listing with its
      validators, and "not modified" iff the validator sent still matches, If-None-Match before
      If-Modified-Since, as sections 13.1.2 and 13.1.3 of RFC 9110 have it. */
  lemma RemoteMayAnswer(snap: Row, r: Resource)
    ensures forall code :: Honest(snap, r, HttpStatus(code))
    ensures forall message :: Honest(snap, r, FetchError(message)) <==> message != ""
    ensures forall entries, etag, modified ::
              Honest(snap, r, Listing(entries, etag, modified)) <==>
                entries == r.entries && etag == Some(r.etag) && modified == Some(r.modified)
    ensures snap.etag.Some? && snap.etag.value != "" ==>
              (Honest(snap, r, NotModified) <==> r.etag == snap.etag.value)
    ensures (snap.etag == None || snap.etag == Some("")) && snap.modified.Some? && snap.modified.value != "" ==>
              (Honest(snap, r, NotModified) <==> r.modified == snap.modified.value)
    ensures (snap.etag == None || snap.etag == Some("")) && (snap.modified == None || snap.modified == Some("")) ==>
              !Honest(snap, r, NotModified)
  {
  }

  // ---- Runs ----

  ghost predicate Init(w: World) {
    && (exists url :: w.target == NewTarget(url))
    && w.phase == Idle
    && Plain(w.remote.entries)
    && Remembers(w.byEtag, w.remote.etag, w.remote.entries)
    && Remembers(w.byModified, w.remote.modified, w.remote.entries)
    && w.seen == [] && w.lastHashed == None
  }

  /** The commit got as far as the UPDATE that writes a new hash. */
  predicate HashWritten(env: Env, w: World, verdict: Verdict) {
    && w.phase.Fetched? && w.phase.outcome.Listing? && !TooBig(env, w.phase.outcome.entries)
    && match verdict
       case Succeeded(_) => true
       case Refused => false
       case Raised(done) =>
         done >= if PerformsFull(w.phase.action, w.phase.snap) then |w.phase.outcome.entries| + 2 else 1
  }

  ghost predicate Next(env: Env, w: World, step: Step, w': World) {
    match step
    case Tick(to) => to >= w.clock && w' == w.(clock := to)
    case MarkDirty => w' == w.(target := Marked(w.target))
    case Publish(r) =>
      && MayPublish(w, r)
      && w' == w.(remote := r, byEtag := Remember(w.byEtag, r.etag, r.entries),
                  byModified := Remember(w.byModified, r.modified, r.entries))
    case TakeSnapshot(action) =>
      && w.phase == Idle
      && (w.target.row.nextRetry.Some? ==> w.clock >= w.target.row.nextRetry.value)
      && w' == w.(phase := Snapped(w.target.row, action))
    case Fetch(answer) =>
      && w.phase.Snapped?
      && Honest(w.phase.snap, w.remote, answer)
      && w' == w.(phase := Fetched(w.phase.snap, w.phase.action, answer), seen := w.remote.entries)
    case CommitStep(after, verdict, backoff) =>
      && w.phase.Fetched?
      && Commits(env, w.target, after, w.phase.snap, w.phase.action, w.phase.outcome, backoff, w.clock, verdict)
      && w' == w.(target := after, phase := if verdict.Raised? then Failing else Idle,
                  lastHashed := if HashWritten(env, w, verdict) then Some(w.phase.outcome.entries) else w.lastHashed)
    case RecordFailure(message, retryAt) =>
      && w.phase == Failing
      && w' == w.(target := Failed(w.target, message, retryAt, w.clock), phase := Idle)
  }

  ghost predicate Run(env: Env, states: seq<World>, steps: seq<Step>) {
    && |states| == |steps| + 1
    && Init(states[0])
    && forall i :: 0 <= i < |steps| ==> Next(env, states[i], steps[i], states[i + 1])
  }

  // ---- What every state keeps ----

  function StoredLines(files: seq<FileRecord>): (lines: seq<string>)
    ensures |lines| == |files|
  {
    seq(|files|, i requires 0 <= i < |files| =>
      LineOf(files[i].path, files[i].isDir, files[i].size, files[i].modified.GetOr("")))
  }

  /** The stored listing, as a multiset of normalised entries. */
  function Stored(files: seq<FileRecord>): multiset<string> {
    multiset(StoredLines(files))
  }

  lemma RecordsKeepLines(env: Env, entries: seq<Entry>)
    requires Plain(entries)
    ensures StoredLines(Records(env, entries)) == Lines(entries)
  {
  }

  function HashOf(env: Env, entries: seq<Entry>): string {
    Digest(env.sha, Lines(entries))
  }

  /** A clear dirty flag vouches for the stored hash. */
  ghost predicate HashMatches(env: Env, t: Target) {
    !t.row.needsFull ==>
      && t.row.hash == Some(Digest(env.sha, StoredLines(t.files)))
      && CleanLines(StoredLines(t.files))
  }

  /** A stored validator is one the remote really used, for a listing with the stored hash. */
  ghost predicate ValidatorsMatch(env: Env, w: World) {
    var row := w.target.row;
    if row.etag.GetOr("") != "" then
      row.etag.value in w.byEtag && row.hash == Some(HashOf(env, w.byEtag[row.etag.value]))
    else if row.modified.GetOr("") != "" then
      row.modified.value in w.byModified && row.hash == Some(HashOf(env, w.byModified[row.modified.value]))
    else true
  }

  /** Nobody but the indexer writes the row, except for the dirty flag. */
  predicate SnapshotCurrent(w: World, snap: Row) {
    w.target.row == snap.(needsFull := w.target.row.needsFull) && (snap.needsFull ==> w.target.row.needsFull)
  }

  /** The stored hash is that of the listing last hashed. */
  ghost predicate HashIsOfLast(env: Env, w: World) {
    match w.lastHashed
    case None => w.target.row.hash == None
    case Some(entries) => Plain(entries) && w.target.row.hash == Some(HashOf(env, entries))
  }

  predicate AnswerIsTrue(w: World, snap: Row, outcome: Outcome) {
    match outcome
    case NotModified =>
      if snap.etag.GetOr("") != "" then Remembers(w.byEtag, snap.etag.value, w.seen)
      else snap.modified.GetOr("") != "" && Remembers(w.byModified, snap.modified.value, w.seen)
    case Listing(entries, etag, modified) =>
      && entries == w.seen && etag.Some? && modified.Some?
      && Remembers(w.byEtag, etag.value, entries) && Remembers(w.byModified, modified.value, entries)
    case FetchError(_) => true
    case HttpStatus(_) => true
  }

  ghost predicate RemoteOk(w: World) {
    && Plain(w.remote.entries) && Plain(w.seen)
    && Remembers(w.byEtag, w.remote.etag, w.remote.entries)
    && Remembers(w.byModified, w.remote.modified, w.remote.entries)
  }

  ghost predicate Inv(env: Env, w: World) {
    && RemoteOk(w)
    && (w.phase != Failing ==> HashMatches(env, w.target))
    && ValidatorsMatch(env, w)
    && HashIsOfLast(env, w)
    && (w.phase.Snapped? || w.phase.Fetched? ==> SnapshotCurrent(w, w.phase.snap))
    && (w.phase.Fetched? ==> AnswerIsTrue(w, w.phase.snap, w.phase.outcome))
  }

  lemma CommitKeepsHash(env: Env, w: World, after: Target, verdict: Verdict, backoff: real)
    requires Inv(env, w) && w.phase.Fetched?
    requires Commits(env, w.target, after, w.phase.snap, w.phase.action, w.phase.outcome, backoff, w.clock, verdict)
    requires !verdict.Raised?
    ensures HashMatches(env, after)
  {
    match w.phase.outcome {
      case Listing(entries, etag, modified) =>
        RecordsKeepLines(env, entries);
        CleanEntriesCleanLines(entries);
      case NotModified =>
      case FetchError(_) =>
      case HttpStatus(_) =>
    }
  }

  /** A commit, even a raised one, writes all three of validators and hash, or none. */
  lemma CommitWritesTogether(env: Env, w: World, after: Target, verdict: Verdict, backoff: real)
    requires Inv(env, w) && w.phase.Fetched?
    requires Commits(env, w.target, after, w.phase.snap, w.phase.action, w.phase.outcome, backoff, w.clock, verdict)
    ensures var row, row' := w.target.row, after.row;
            || (row'.etag == row.etag && row'.modified == row.modified && row'.hash == row.hash)
            || (&& w.phase.outcome.Listing?
                && row'.etag == w.phase.outcome.etag && row'.modified == w.phase.outcome.modified
                && row'.hash == Some(HashOf(env, w.seen)))
    ensures after.row.hash == if HashWritten(env, w, verdict) then Some(HashOf(env, w.seen)) else w.target.row.hash
  {
    hide Digest, Lines, Records, StoredLines;
    match w.phase.outcome {
      case Listing(entries, etag, modified) =>
      case NotModified =>
      case FetchError(_) =>
      case HttpStatus(_) =>
    }
  }

  lemma CommitKeepsValidators(env: Env, w: World, after: Target, verdict: Verdict, backoff: real, phase: Phase)
    requires Inv(env, w) && w.phase.Fetched?
    requires Commits(env, w.target, after, w.phase.snap, w.phase.action, w.phase.outcome, backoff, w.clock, verdict)
    ensures ValidatorsMatch(env, w.(target := after, phase := phase))
  {
    CommitWritesTogether(env, w, after, verdict, backoff);
  }

  lemma CommitKeepsInv(env: Env, w: World, after: Target, verdict: Verdict, backoff: real, w': World)
    requires Inv(env, w) && Next(env, w, CommitStep(after, verdict, backoff), w')
    ensures Inv(env, w')
  {
    hide Digest, Lines, Records, StoredLines, Commits;
    if !verdict.Raised? {
      CommitKeepsHash(env, w, after, verdict, backoff);
    }
    CommitKeepsValidators(env, w, after, verdict, backoff, w'.phase);
    CommitWritesTogether(env, w, after, verdict, backoff);
  }

  lemma InvStep(env: Env, w: World, step: Step, w': World)
    requires Inv(env, w) && Next(env, w, step, w')
    ensures Inv(env, w')
  {
    hide Digest, Lines, Records, StoredLines, Commits;
    match step {
      case CommitStep(after, verdict, backoff) =>
        CommitKeepsInv(env, w, after, verdict, backoff, w');
      case Fetch(answer) =>
      case Publish(r) =>
      case Tick(_) =>
      case MarkDirty =>
      case TakeSnapshot(_) =>
      case RecordFailure(_, _) =>
    }
  }

  lemma {:induction false} InvAlways(env: Env, states: seq<World>, steps: seq<Step>, n: nat)
    requires Run(env, states, steps) && n < |states|
    ensures Inv(env, states[n])
  {
    if n > 0 {
      InvAlways(env, states, steps, n - 1);
      InvStep(env, states[n - 1], steps[n - 1], states[n]);
    }
  }

  // ---- The main results ----

  /** In every run and at every moment between passes or inside one, a clear dirty flag means that the
      stored hash is the hash of the stored listing. Only while a raised commit has not yet been
      recorded as a failure may this be otherwise. */
  lemma ClearFlagMeansCoherent(env: Env, states: seq<World>, steps: seq<Step>, n: nat)
    requires Run(env, states, steps) && n < |states| && states[n].phase != Failing
    requires !states[n].target.row.needsFull
    ensures states[n].target.row.hash == Some(Digest(env.sha, StoredLines(states[n].target.files)))
  {
    InvAlways(env, states, steps, n);
  }

  /** A pass that succeeds and leaves the flag clear leaves exactly the listing the remote held when it
      answered, whichever of 200-full, 200-cheap or 304 it took. */
  lemma SuccessfulPassIsFresh(env: Env, states: seq<World>, steps: seq<Step>, n: nat)
    requires Injective(env.sha)
    requires Run(env, states, steps) && n < |steps|
    requires steps[n].CommitStep? && steps[n].verdict.Succeeded?
    requires !states[n + 1].target.row.needsFull
    ensures Stored(states[n + 1].target.files) == Normalised(states[n].seen)
  {
    InvAlways(env, states, steps, n);
    InvAlways(env, states, steps, n + 1);
    var w, t := states[n], states[n + 1].target;
    assert Next(env, w, steps[n], states[n + 1]);
    CommitMatchesSeen(env, w, t, steps[n].verdict, steps[n].backoff);
    CleanEntriesCleanLines(w.seen);
    DigestIffSameLines(env.sha, StoredLines(t.files), Lines(w.seen));
  }

  lemma CommitMatchesSeen(env: Env, w: World, after: Target, verdict: Verdict, backoff: real)
    requires Inv(env, w) && w.phase.Fetched? && verdict.Succeeded?
    requires Commits(env, w.target, after, w.phase.snap, w.phase.action, w.phase.outcome, backoff, w.clock, verdict)
    ensures after.row.hash == Some(HashOf(env, w.seen))
  {
  }

  /** `seen` is what the remote held at the last fetch step, and that step belongs to this pass. */
  lemma {:induction false} SeenWasRemote(env: Env, states: seq<World>, steps: seq<Step>, n: nat) returns (f: nat)
    requires Run(env, states, steps) && n < |states| && states[n].phase.Fetched?
    ensures f < n && steps[f].Fetch? && states[f].phase.Snapped?
    ensures states[f].phase.snap == states[n].phase.snap
    ensures states[n].seen == states[f].remote.entries
    ensures forall k :: f < k < n ==> !steps[k].Fetch? && !steps[k].CommitStep? && !steps[k].TakeSnapshot?
  {
    assert Next(env, states[n - 1], steps[n - 1], states[n]);
    if steps[n - 1].Fetch? {
      f := n - 1;
    } else {
      f := SeenWasRemote(env, states, steps, n - 1);
    }
  }

  /** Step f is the fetch that the commit at step n answers to. */
  predicate FetchOf(steps: seq<Step>, f: nat, n: nat) {
    f < n <= |steps| && steps[f].Fetch? && forall m :: f < m < n ==> !steps[m].Fetch? && !steps[m].CommitStep?
  }

  /** Between the fetch that step n answers to and step n, the remote published another listing. */
  ghost predicate RepublishedSinceFetch(states: seq<World>, steps: seq<Step>, n: nat)
    requires |states| == |steps| + 1 && n <= |steps|
  {
    exists f: nat, k: nat :: && FetchOf(steps, f, n) && f < k < n && steps[k].Publish?
                             && Normalised(steps[k].resource.entries) != Normalised(states[f].remote.entries)
  }

  /** The stored listing is the remote's current one, unless between the fetch of this pass and its
      commit the remote published another listing. */
  lemma SuccessfulPassAgreesWithRemote(env: Env, states: seq<World>, steps: seq<Step>, n: nat)
    requires Injective(env.sha)
    requires Run(env, states, steps) && n < |steps|
    requires steps[n].CommitStep? && steps[n].verdict.Succeeded?
    requires !states[n + 1].target.row.needsFull
    ensures || Stored(states[n + 1].target.files) == Normalised(states[n + 1].remote.entries)
            || RepublishedSinceFetch(states, steps, n)
  {
    assert Next(env, states[n], steps[n], states[n + 1]);
    SuccessfulPassIsFresh(env, states, steps, n);
    hide Commits, Digest, Lines, StoredLines, Records, Normalised;
    var f := SeenWasRemote(env, states, steps, n);
    assert FetchOf(steps, f, n);
    if forall k :: f < k < n && steps[k].Publish? ==>
                     Normalised(steps[k].resource.entries) == Normalised(states[f].remote.entries)
    {
      RemoteUnchanged(env, states, steps, f, n);
    }
  }

  lemma {:induction false} RemoteUnchanged(env: Env, states: seq<World>, steps: seq<Step>, f: nat, n: nat)
    requires Run(env, states, steps) && f < n < |states| && !steps[f].Publish?
    requires forall k :: f < k < n && steps[k].Publish? ==>
                           Normalised(steps[k].resource.entries) == Normalised(states[f].remote.entries)
    ensures Normalised(states[n].remote.entries) == Normalised(states[f].remote.entries)
  {
    hide Normalised, Lines, Digest;
    assert Next(env, states[n - 1], steps[n - 1], states[n]);
    if f < n - 1 {
      RemoteUnchanged(env, states, steps, f, n - 1);
    }
  }

  // ---- Inside a failing commit ----

  /** The old rows are gone and the UPDATE has not run. */
  predicate HalfWritten(env: Env, w: World, done: nat) {
    && w.phase.Fetched? && w.phase.outcome.Listing? && !TooBig(env, w.phase.outcome.entries)
    && PerformsFull(w.phase.action, w.phase.snap) && 1 <= done <= |w.phase.outcome.entries| + 1
  }

  /** The rows inserted so far happen to be the listing that was stored before. */
  predicate SameRowsAgain(w: World, done: nat)
    requires w.phase.Fetched? && w.phase.outcome.Listing? && 1 <= done <= |w.phase.outcome.entries| + 1
  {
    Normalised(w.phase.outcome.entries[..done - 1]) == Stored(w.target.files)
  }

  /** What a commit that raises after `done` operations leaves is coherent iff the flag was set, or the
      rows were not touched, or the UPDATE had run, or the rows inserted so far are the old ones. */
  lemma RaisedCommitCoherentIff(env: Env, w: World, after: Target, backoff: real, done: nat)
    requires Injective(env.sha) && Inv(env, w) && w.phase.Fetched?
    requires Commits(env, w.target, after, w.phase.snap, w.phase.action, w.phase.outcome, backoff, w.clock,
                     Raised(done))
    ensures HashMatches(env, after) <==>
              w.target.row.needsFull || !HalfWritten(env, w, done) || SameRowsAgain(w, done)
  {
    if HalfWritten(env, w, done) {
      var some := w.phase.outcome.entries[..done - 1];
      RecordsKeepLines(env, some);
      CleanEntriesCleanLines(some);
      assert after.files == Records(env, some);
      if !w.target.row.needsFull {
        DigestIffSameLines(env.sha, StoredLines(w.target.files), Lines(some));
      }
    } else {
      RaisedElsewhere(env, w, after, backoff, done);
    }
  }

  lemma RaisedElsewhere(env: Env, w: World, after: Target, backoff: real, done: nat)
    requires Inv(env, w) && w.phase.Fetched? && !HalfWritten(env, w, done)
    requires Commits(env, w.target, after, w.phase.snap, w.phase.action, w.phase.outcome, backoff, w.clock,
                     Raised(done))
    ensures HashMatches(env, after)
  {
    match w.phase.outcome {
      case Listing(entries, etag, modified) =>
        RecordsKeepLines(env, entries);
        CleanEntriesCleanLines(entries);
      case NotModified =>
      case FetchError(_) =>
      case HttpStatus(_) =>
    }
  }

  /** Where the failing phase comes from, and that only a mark can touch the row during it. */
  lemma {:induction false} FailingSince(env: Env, states: seq<World>, steps: seq<Step>, n: nat) returns (c: nat)
    requires Run(env, states, steps) && n < |states| && states[n].phase == Failing
    ensures c < n && steps[c].CommitStep? && steps[c].verdict.Raised? && states[c].phase.Fetched?
    ensures forall k :: c < k <= n ==> states[k].phase == Failing
    ensures states[n].target == steps[c].after || states[n].target == Marked(steps[c].after)
  {
    hide Commits;
    assert Next(env, states[n - 1], steps[n - 1], states[n]);
    if steps[n - 1].CommitStep? {
      c := n - 1;
    } else {
      c := FailingSince(env, states, steps, n - 1);
    }
  }

  /** The one exception to `ClearFlagMeansCoherent`, exactly: in every run, a state with a failure still
      to be recorded is coherent iff the flag is set by now, or the raised commit c left the old rows
      alone, or had run its UPDATE, or had put the old rows back. */
  lemma FailingMomentCoherentIff(env: Env, states: seq<World>, steps: seq<Step>, n: nat) returns (c: nat)
    requires Injective(env.sha)
    requires Run(env, states, steps) && n < |states| && states[n].phase == Failing
    ensures c < n && steps[c].CommitStep? && steps[c].verdict.Raised?
    ensures forall k :: c < k <= n ==> states[k].phase == Failing
    ensures HashMatches(env, states[n].target) <==>
              || states[n].target.row.needsFull
              || !HalfWritten(env, states[c], steps[c].verdict.done)
              || SameRowsAgain(states[c], steps[c].verdict.done)
  {
    c := FailingSince(env, states, steps, n);
    InvAlways(env, states, steps, c);
    assert Next(env, states[c], steps[c], states[c + 1]);
    RaisedCommitCoherentIff(env, states[c], steps[c].after, steps[c].backoff, steps[c].verdict.done);
    if HalfWritten(env, states[c], steps[c].verdict.done) {
      assert steps[c].after.row == states[c].target.row;
    }
  }

  /** A file as an HTML listing shows it. */
  function Linked(path: string): Entry {
    Entry(path, path, false, None, None, Some("https://host/" + path), None)
  }

  /** A new target beside a remote that holds `listing` under the strong validator "v". */
  function NewWorld(listing: seq<Entry>): World {
    World(NewTarget(""), Idle, 0.0, Resource(listing, "v", ""), map["v" := listing], map[], [], None)
  }

  /** The exception is real: after the old rows are deleted and before the failure is recorded, the
      flag can be clear while the hash belongs to a listing that is gone. */
  lemma FailingMomentCanDisagree(env: Env) returns (states: seq<World>, steps: seq<Step>)
    requires Injective(env.sha)
    ensures Run(env, states, steps)
    ensures var w := states[|steps|];
            && w.phase == Failing && !w.target.row.needsFull
            && w.target.row.hash != Some(Digest(env.sha, StoredLines(w.target.files)))
  {
    var listing := [Linked("disc.iso")];
    states, steps := FirstPass(env, listing);
    var t3 := FullyListed(env, listing);
    assert t3.files[..0] == Records(env, listing)[..0];
    states, steps := SecondPassFails(env, states, steps, listing);
    RecordsKeepLines(env, listing);
    OneIsNotNone(listing);
    var c := FailingMomentCoherentIff(env, states, steps, 6);
  }

  lemma OneMoreStep(env: Env, states: seq<World>, steps: seq<Step>, step: Step, w: World)
    requires Run(env, states, steps) && Next(env, states[|steps|], step, w)
    ensures Run(env, states + [w], steps + [step])
  {
  }

  lemma SecondPassFails(env: Env, states: seq<World>, steps: seq<Step>, listing: seq<Entry>)
    returns (states': seq<World>, steps': seq<Step>)
    requires Run(env, states, steps) && |states| == 4 && |steps| == 3 && |listing| == 1
    requires states[3] == NewWorld(listing).(target := FullyListed(env, listing), seen := listing,
                                             lastHashed := Some(listing))
    ensures Run(env, states', steps') && |states'| == 7 && |steps'| == 6
    ensures steps'[5].CommitStep? && steps'[5].verdict == Raised(1) && HalfWritten(env, states'[5], 1)
    ensures states'[5].target == states[3].target && states'[5].phase.outcome.entries == listing
    ensures states'[6].phase == Failing && states'[6].target == states[3].target.(files := [])
  {
    hide Digest, Run;
    var w3 := states[3];
    var answer := Answer(listing);
    var w4 := w3.(phase := Snapped(w3.target.row, Some(Full)));
    var w5 := w3.(phase := Fetched(w3.target.row, Some(Full), answer));
    var w6 := w5.(target := w3.target.(files := []), phase := Failing);
    OneMoreStep(env, states, steps, TakeSnapshot(Some(Full)), w4);
    OneMoreStep(env, states + [w4], steps + [TakeSnapshot(Some(Full))], Fetch(answer), w5);
    states', steps' := states + [w4] + [w5], steps + [TakeSnapshot(Some(Full))] + [Fetch(answer)];
    assert Next(env, w5, CommitStep(w6.target, Raised(1), 0.0), w6) by {
      assert Records(env, listing)[..0] == [];
    }
    OneMoreStep(env, states', steps', CommitStep(w6.target, Raised(1), 0.0), w6);
    states', steps' := states' + [w6], steps' + [CommitStep(w6.target, Raised(1), 0.0)];
  }

  lemma OneIsNotNone(listing: seq<Entry>)
    requires |listing| == 1
    ensures Normalised(listing[..0]) != Normalised(listing)
  {
  }

  function FullyListed(env: Env, listing: seq<Entry>): Target {
    Relisted(NewTarget(""), Records(env, listing), Some("v"), Some(""), HashOf(env, listing), 0.0)
  }

  function Answer(listing: seq<Entry>): Outcome {
    Listing(listing, Some("v"), Some(""))
  }

  /** A new target, a snapshot of it, and the first fetch. */
  lemma FirstFetch(env: Env, listing: seq<Entry>) returns (states: seq<World>, steps: seq<Step>)
    requires Plain(listing)
    ensures Run(env, states, steps) && |states| == 3 && |steps| == 2
    ensures var w := NewWorld(listing);
            states[2] == w.(phase := Fetched(w.target.row, Some(Full), Answer(listing)), seen := listing)
  {
    var w0 := NewWorld(listing);
    var w1 := w0.(phase := Snapped(w0.target.row, Some(Full)));
    var w2 := w0.(phase := Fetched(w0.target.row, Some(Full), Answer(listing)), seen := listing);
    assert Next(env, w0, TakeSnapshot(Some(Full)), w1) && Next(env, w1, Fetch(Answer(listing)), w2);
    states, steps := [w0, w1, w2], [TakeSnapshot(Some(Full)), Fetch(Answer(listing))];
  }

  /** The first full pass over one file, undisturbed. */
  lemma FirstPass(env: Env, listing: seq<Entry>) returns (states: seq<World>, steps: seq<Step>)
    requires |listing| == 1 && Plain(listing)
    ensures Run(env, states, steps) && |states| == 4 && |steps| == 3
    ensures states[3] == NewWorld(listing).(target := FullyListed(env, listing), seen := listing,
                                            lastHashed := Some(listing))
  {
    hide Run;
    states, steps := FirstFetch(env, listing);
    var t := FullyListed(env, listing);
    var w := states[2].(target := t, phase := Idle, lastHashed := Some(listing));
    OneMoreStep(env, states, steps, CommitStep(t, Succeeded(Full), 0.0), w);
    states, steps := states + [w], steps + [CommitStep(t, Succeeded(Full), 0.0)];
  }

  // ---- The dirty flag is sticky ----

  /** A full listing's UPDATE was run: the only step that clears the flag. */
  predicate FullUpdate(env: Env, w: World, step: Step) {
    && step.CommitStep? && HashWritten(env, w, step.verdict)
    && PerformsFull(w.phase.action, w.phase.snap)
  }

  lemma FlagAfterStep(env: Env, w: World, step: Step, w': World)
    requires Next(env, w, step, w') && w.target.row.needsFull
    ensures !w'.target.row.needsFull <==> FullUpdate(env, w, step)
  {
    hide Digest, Lines, StoredLines;
  }

  /** Once set, the flag survives every step other than the UPDATE of a freshly fetched full listing:
      cheap checks, 304 answers, failures and republishing included. */
  lemma {:induction false} DirtyUntilFullCommit(env: Env, states: seq<World>, steps: seq<Step>, from: nat, to: nat)
    requires Run(env, states, steps) && from <= to < |states|
    requires states[from].target.row.needsFull
    requires forall k :: from <= k < to ==> !FullUpdate(env, states[k], steps[k])
    ensures states[to].target.row.needsFull
  {
    hide FullUpdate;
    if from < to {
      DirtyUntilFullCommit(env, states, steps, from, to - 1);
      FlagAfterStep(env, states[to - 1], steps[to - 1], states[to]);
    }
  }

  /** In every run, a cheap 200 raises the flag exactly when the listing differs from the last one
      hashed; without such a listing the flag is up already. */
  lemma CheapCheckFlagsChange(env: Env, states: seq<World>, steps: seq<Step>, n: nat)
    requires Injective(env.sha) && Run(env, states, steps) && n < |steps|
    requires steps[n].CommitStep? && HashWritten(env, states[n], steps[n].verdict)
    requires !PerformsFull(states[n].phase.action, states[n].phase.snap)
    ensures var w := states[n];
            && (w.lastHashed.None? ==> w.target.row.needsFull)
            && (states[n + 1].target.row.needsFull <==>
                  || w.target.row.needsFull
                  || Normalised(w.phase.outcome.entries) != Normalised(w.lastHashed.value))
  {
    InvAlways(env, states, steps, n);
    var w := states[n];
    assert Next(env, w, steps[n], states[n + 1]);
    if w.lastHashed.Some? {
      HashIffSameListing(env.sha, w.phase.outcome.entries, w.lastHashed.value);
    }
  }

  // ---- A mark that lands while a pass is under way ----

  /** Until it commits, a pass keeps the snapshot it took. */
  lemma {:induction false} SamePass(env: Env, states: seq<World>, steps: seq<Step>, m: nat, c: nat)
    requires Run(env, states, steps) && m <= c < |states|
    requires states[m].phase.Snapped? || states[m].phase.Fetched?
    requires forall k :: m <= k < c ==> !steps[k].CommitStep?
    ensures states[c].phase.Snapped? || states[c].phase.Fetched?
    ensures states[c].phase.snap == states[m].phase.snap && states[c].phase.action == states[m].phase.action
  {
    if m < c {
      SamePass(env, states, steps, m, c - 1);
      assert Next(env, states[c - 1], steps[c - 1], states[c]);
    }
  }

  /** A mark that lands between the snapshot of a pass and its commit is erased by that commit iff the
      commit runs the UPDATE of a full listing. Whether it does was settled by the snapshot: marking does
      not turn a cheap pass into a full one. */
  lemma MarkDuringPassErasedIff(env: Env, states: seq<World>, steps: seq<Step>, m: nat, c: nat)
    requires Run(env, states, steps) && m < c < |steps|
    requires steps[m].MarkDirty? && (states[m].phase.Snapped? || states[m].phase.Fetched?)
    requires steps[c].CommitStep? && forall k :: m <= k < c ==> !steps[k].CommitStep?
    ensures states[c].target.row.needsFull
    ensures !states[c + 1].target.row.needsFull <==>
              && HashWritten(env, states[c], steps[c].verdict)
              && PerformsFull(states[m].phase.action, states[m].phase.snap)
  {
    SamePass(env, states, steps, m, c);
    assert Next(env, states[m], steps[m], states[m + 1]);
    DirtyUntilFullCommit(env, states, steps, m + 1, c);
    FlagAfterStep(env, states[c], steps[c], states[c + 1]);
  }

  /** It does happen: the remote changes and the target is marked after the fetch, and the commit leaves
      a clear flag over an outdated listing. */
  lemma MarkCanBeLost(env: Env) returns (states: seq<World>, steps: seq<Step>)
    ensures Run(env, states, steps) && |steps| == 5 && steps[3].MarkDirty? && states[3].phase.Fetched?
    ensures steps[4].CommitStep? && !states[5].target.row.needsFull
    ensures Stored(states[5].target.files) != Normalised(states[5].remote.entries)
  {
    hide Digest, Run, Next, Records, Lines;
    var listing := [Linked("disc.iso")];
    assert Plain(listing);
    states, steps := FirstFetch(env, listing);
    var w3, w4 := RepublishAndMark(env, listing, states[2]);
    OneMoreStep(env, states, steps, Publish(w3.remote), w3);
    states, steps := states + [w3], steps + [Publish(w3.remote)];
    OneMoreStep(env, states, steps, MarkDirty, w4);
    states, steps := states + [w4], steps + [MarkDirty];
    var w5 := CommitAfterMark(env, listing, w4);
    OneMoreStep(env, states, steps, CommitStep(w5.target, Succeeded(Full), 0.0), w5);
    states, steps := states + [w5], steps + [CommitStep(w5.target, Succeeded(Full), 0.0)];
  }

  lemma RepublishAndMark(env: Env, listing: seq<Entry>, w: World) returns (w': World, w'': World)
    requires var start := NewWorld(listing);
             w == start.(phase := Fetched(start.target.row, Some(Full), Answer(listing)), seen := listing)
    ensures Next(env, w, Publish(w'.remote), w') && Next(env, w', MarkDirty, w'')
    ensures w''.target == Marked(w.target) && w''.phase == w'.phase == w.phase && w''.clock == w.clock
    ensures w''.remote.entries == []
  {
    var r := Resource([], "w", "");
    w' := w.(remote := r, byEtag := w.byEtag["w" := []]);
    w'' := w'.(target := Marked(w.target));
  }

  lemma CommitAfterMark(env: Env, listing: seq<Entry>, w: World) returns (w': World)
    requires |listing| == 1 && Plain(listing) && w.remote.entries == [] && w.target == Marked(NewTarget(""))
    requires w.phase == Fetched(NewTarget("").row, Some(Full), Answer(listing)) && w.clock == 0.0
    ensures Next(env, w, CommitStep(w'.target, Succeeded(Full), 0.0), w') && !w'.target.row.needsFull
    ensures Stored(w'.target.files) != Normalised(w'.remote.entries)
  {
    hide Digest;
    w' := w.(target := FullyListed(env, listing), phase := Idle, lastHashed := Some(listing));
    RecordsKeepLines(env, listing);
    OneIsNotNone(listing);
    assert listing[..0] == [];
  }

  // ---- Row invariants ----

  ghost predicate RowOk(row: Row, clock: Time) {
    && (row.error.Some? ==> row.needsFull)
    && (row.nextRetry.Some? || row.errorAt.Some? ==> row.error.Some?)
    && (!row.needsFull ==> row.lastFull.Some?)
    && (row.lastFull.Some? ==> row.lastCheck.Some? && row.lastFull.value <= row.lastCheck.value)
    && (row.lastCheck.Some? ==> row.lastCheck.value <= clock)
  }

  /** Error, retry, dirty flag and time stamps agree in every state of every run, also while a commit
      has failed half-way. */
  lemma {:induction false} RowAlwaysOk(env: Env, states: seq<World>, steps: seq<Step>, n: nat)
    requires Run(env, states, steps) && n < |states|
    ensures RowOk(states[n].target.row, states[n].clock)
  {
    if n > 0 {
      RowAlwaysOk(env, states, steps, n - 1);
      RowStep(env, states[n - 1], steps[n - 1], states[n]);
    }
  }

  lemma RowStep(env: Env, w: World, step: Step, w': World)
    requires RowOk(w.target.row, w.clock) && Next(env, w, step, w')
    ensures RowOk(w'.target.row, w'.clock)
  {
    match step {
      case CommitStep(after, verdict, backoff) =>
        CommitKeepsRowOk(env, w.target, after, w.phase.snap, w.phase.action, w.phase.outcome, backoff, w.clock,
                         verdict);
      case RecordFailure(_, _) =>
      case Tick(_) =>
      case MarkDirty =>
      case Publish(_) =>
      case TakeSnapshot(_) =>
      case Fetch(_) =>
    }
  }

  lemma CommitKeepsRowOk(env: Env, t: Target, t': Target, snap: Row, action: Option<Action>,
                         outcome: Outcome, backoff: real, now: Time, verdict: Verdict)
    requires RowOk(t.row, now) && Commits(env, t, t', snap, action, outcome, backoff, now, verdict)
    ensures RowOk(t'.row, now)
  {
    hide Digest, Lines, Records;
    match outcome {
      case Listing(_, _, _) =>
      case NotModified =>
      case FetchError(_) =>
      case HttpStatus(_) =>
    }
  }
}
