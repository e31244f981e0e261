/** One pass of `index_target` over one target: snapshot the row, fetch, commit what was learned. */
module Indexing {
  import opened Wrappers
  import opened ListingHash
  import opened TargetTable
  import Text

  datatype Action = Full | Cheap

  /** What the listing fetcher reports. */
  datatype Outcome =
    | FetchError(message: string)
    | HttpStatus(code: nat)
    | NotModified
    | Listing(entries: seq<Entry>, etag: Option<string>, modified: Option<string>)

  /** What the pass takes from outside: the digest, the two parsers, the hint for an oversized listing, and
      the settings for one. */
  datatype Env = Env(sha: string -> string, parseModified: string -> Option<string>,
                     resolveUrl: string -> string, protocol: string, giantLimit: nat,
                     cooldownMinutes: nat, partitionHint: seq<Entry> -> string)

  function ToRecord(env: Env, e: Entry): FileRecord {
    FileRecord(PathOf(e),
               if e.url.GetOr("") != "" then e.url.value else env.resolveUrl(PathOf(e)),
               e.isDir, e.size,
               if e.modified.Some? then env.parseModified(e.modified.value) else None,
               e.checksum, env.protocol)
  }

  function Records(env: Env, entries: seq<Entry>): (records: seq<FileRecord>)
    ensures |records| == |entries|
    ensures forall i :: 0 <= i < |entries| ==> records[i] == ToRecord(env, entries[i])
  {
    seq(|entries|, i requires 0 <= i < |entries| => ToRecord(env, entries[i]))
  }

  /** `action == "full"`, or no action asked for and the snapshot calls for one. */
  function PerformsFull(action: Option<Action>, snap: Row): bool {
    action == Some(Full) || (action.None? && (snap.needsFull || snap.lastFull.None?))
  }

  function TooBig(env: Env, entries: seq<Entry>): bool {
    env.giantLimit > 0 && |entries| > env.giantLimit
  }

  /** An error without a text is not noticed: what came with it is taken for an empty listing. */
  function Effective(outcome: Outcome): Outcome {
    if outcome == FetchError("") then Listing([], None, None) else outcome
  }

  function PartitionMessage(env: Env, entries: seq<Entry>): string {
    Text.Strip("Partition required: listing has " + Text.Decimal(|entries|) + " entries (limit "
               + Text.Decimal(env.giantLimit) + "). " + env.partitionHint(entries))
  }

  /** When the target may be tried again after the throttle asked for a wait of `backoff` seconds. */
  function RetryAfter(backoff: real, now: Time): Option<Time> {
    if backoff > 0.0 then Some(now + backoff) else None
  }

  /** `Raised` is the database giving up after `done` operations. */
  datatype Verdict = Succeeded(performed: Action) | Refused | Raised(done: nat)

  /** How the commit half of a pass may turn target `t` into `t'`, given the row seen at the start
      and what the fetch said. */
  ghost predicate Commits(env: Env, t: Target, t': Target, snap: Row, action: Option<Action>,
                          outcome: Outcome, backoff: real, now: Time, verdict: Verdict)
  {
    match outcome
    case FetchError(message) =>
      verdict == Refused && RecordsFailure(t, t', message, RetryAfter(backoff, now), now)
    case HttpStatus(code) =>
      verdict == Refused && RecordsFailure(t, t', "HTTP " + Text.Decimal(code), RetryAfter(backoff, now), now)
    case NotModified =>
      var t1 := Checked(t, snap.etag, snap.modified, snap.hash, false, now);
      || (verdict == Succeeded(action.GetOr(Cheap)) && t' == t1)
      || (verdict.Raised? && verdict.done < 3 && t' == if verdict.done == 0 then t else t1)
    case Listing(entries, etag, modified) =>
      var hash := Digest(env.sha, Lines(entries));
      if TooBig(env, entries) then
        && verdict == Refused
        && RecordsFailure(t, t', PartitionMessage(env, entries),
                          RetryAfter(60.0 * env.cooldownMinutes as real, now), now)
      else if PerformsFull(action, snap) then
        var records := Records(env, entries);
        || (verdict == Succeeded(Full) && t' == Relisted(t, records, etag, modified, hash, now))
        || (&& verdict.Raised? && verdict.done < |records| + 4
            && t' == ListingAfter(t, records, etag, modified, hash, now, verdict.done))
      else
        var t1 := Checked(t, etag, modified, Some(hash), hash != snap.hash.GetOr(""), now);
        || (verdict == Succeeded(Cheap) && t' == t1)
        || (verdict.Raised? && verdict.done < 3 && t' == if verdict.done == 0 then t else t1)
  }

  /** Only target `id` may differ between two states of the table. */
  ghost predicate OnlyTouches(before: map<string, Target>, after: map<string, Target>, id: string) {
    && after.Keys == before.Keys + {id}
    && forall other :: other in before && other != id ==> after[other] == before[other]
  }

  /** From the fetch result to the database. `statements` bounds how many operations the database
      completes; `backoff` is what the domain throttle answers to a failure. */
  method Commit(db: IndexDatabase, env: Env, id: string, state: Row, action: Option<Action>,
                outcome: Outcome, backoff: real, now: Time, statements: nat)
    returns (verdict: Verdict)
    requires id in db.targets
    modifies db
    ensures OnlyTouches(old(db.targets), db.targets, id)
    ensures Commits(env, old(db.targets)[id], db.targets[id], state, action, Effective(outcome), backoff, now, verdict)
  {
    var result := outcome;
    if result.FetchError? && result.message == "" {
      result := Listing([], None, None);
    }
    match result {
      case FetchError(message) =>
        verdict := Refuse(db, id, message, if backoff > 0.0 then Some(now + backoff) else None, now);
      case HttpStatus(code) =>
        var message := "HTTP " + Text.Decimal(code);
        verdict := Refuse(db, id, message, if backoff > 0.0 then Some(now + backoff) else None, now);
      case NotModified =>
        var done := db.RecordCheapCheck(id, state.etag, state.modified, state.hash, false, now, statements);
        verdict := if done == 3 then Succeeded(action.GetOr(Cheap)) else Raised(done);
      case Listing(entries, etag, modified) =>
        verdict := CommitListing(db, env, id, state, action, entries, etag, modified, now, statements);
    }
  }

  /** The part of a pass that a listing came to. */
  method CommitListing(db: IndexDatabase, env: Env, id: string, state: Row, action: Option<Action>,
                       entries: seq<Entry>, etag: Option<string>, modified: Option<string>, now: Time,
                       statements: nat)
    returns (verdict: Verdict)
    requires id in db.targets
    modifies db
    ensures OnlyTouches(old(db.targets), db.targets, id)
    ensures forall backoff :: Commits(env, old(db.targets)[id], db.targets[id], state, action,
                                      Listing(entries, etag, modified), backoff, now, verdict)
  {
    if env.giantLimit > 0 && |entries| > env.giantLimit {
      var cooldown := 60.0 * env.cooldownMinutes as real;
      verdict := Refuse(db, id, PartitionMessage(env, entries),
                        if cooldown > 0.0 then Some(now + cooldown) else None, now);
      return;
    }
    var hash := Hash(env.sha, entries);
    if PerformsFull(action, state) {
      var done := db.UpdateListing(id, Records(env, entries), etag, modified, hash, now, statements);
      assert Records(env, entries)[..|entries|] == Records(env, entries);
      verdict := if done == |entries| + 4 then Succeeded(Full) else Raised(done);
    } else {
      var changed := hash != state.hash.GetOr("");
      var done := db.RecordCheapCheck(id, etag, modified, Some(hash), changed, now, statements);
      verdict := if done == 3 then Succeeded(Cheap) else Raised(done);
    }
  }

  method Refuse(db: IndexDatabase, id: string, message: string, retryAt: Option<Time>, now: Time)
    returns (verdict: Verdict)
    requires id in db.targets
    modifies db
    ensures verdict == Refused
    ensures OnlyTouches(old(db.targets), db.targets, id)
    ensures RecordsFailure(old(db.targets)[id], db.targets[id], message, retryAt, now)
  {
    db.MarkFailure(id, message, retryAt, now);
    verdict := Refused;
  }

  /** A pass that records nothing, for want of a database or of a descriptor for the target. */
  predicate UnrecordedSuccess(env: Env, outcome: Outcome) {
    var result := Effective(outcome);
    result.NotModified? || (result.Listing? && !TooBig(env, result.entries))
  }

  /** What went wrong in the database, and what the throttle answers to that. */
  datatype Breakdown = Breakdown(message: string, backoff: real)

  /** A pass that was let through ends as its commit says, with a failure recorded on top of one that
      raised. */
  ghost predicate PassEnds(env: Env, t: Target, t': Target, snap: Row, action: Option<Action>, outcome: Outcome,
                           backoff: real, broken: Breakdown, now: Time, success: bool, performed: Action)
  {
    var result := Effective(outcome);
    if success then Commits(env, t, t', snap, action, result, backoff, now, Succeeded(performed))
    else
      || Commits(env, t, t', snap, action, result, backoff, now, Refused)
      || exists half, done ::
           && Commits(env, t, half, snap, action, result, backoff, now, Raised(done))
           && RecordsFailure(half, t', broken.message, RetryAfter(broken.backoff, now), now)
  }

  /** Fetch result to row, with a failure recorded when the database raises. */
  method LetThrough(db: IndexDatabase, env: Env, id: string, state: Row, action: Option<Action>,
                    outcome: Outcome, backoff: real, broken: Breakdown, now: Time, statements: nat)
    returns (success: bool, performed: Action)
    requires id in db.targets
    modifies db
    ensures OnlyTouches(old(db.targets), db.targets, id)
    ensures PassEnds(env, old(db.targets)[id], db.targets[id], state, action, outcome, backoff, broken, now,
                     success, performed)
  {
    hide Commits, RecordsFailure;
    performed := action.GetOr(Full);
    var verdict := Commit(db, env, id, state, action, outcome, backoff, now, statements);
    success := verdict.Succeeded?;
    match verdict {
      case Succeeded(done) => performed := done;
      case Refused =>
      case Raised(done) =>
        ghost var half := db.targets[id];
        assert Commits(env, old(db.targets)[id], half, state, action, Effective(outcome), backoff, now, Raised(done));
        var retryAt := if broken.backoff > 0.0 then Some(now + broken.backoff) else None;
        verdict := Refuse(db, id, broken.message, retryAt, now);
        assert RecordsFailure(half, db.targets[id], broken.message, RetryAfter(broken.backoff, now), now);
    }
  }

  /** The whole pass with nothing running beside it. `delay` is what the domain throttle asks for; `db`
      is null when the pass has no row to work on. */
  method IndexTarget(db: IndexDatabase?, env: Env, id: string, url: string, action: Option<Action>,
                     outcome: Outcome, delay: real, backoff: real, broken: Breakdown, now: Time, statements: nat)
    returns (success: bool, performed: Action, ghost snap: Option<Row>)
    modifies if db == null then {} else {db}
    ensures db == null ==>
              && snap == None
              && (success <==>
                    && delay <= 0.0
                    && (|| outcome == NotModified || outcome == FetchError("")
                        || (outcome.Listing? && (env.giantLimit == 0 || |outcome.entries| <= env.giantLimit))))
              && performed == action.GetOr(if success && outcome.NotModified? then Cheap else Full)
    ensures db != null ==>
              var t := if id in old(db.targets) then WithUrl(old(db.targets)[id], url) else NewTarget(url);
              && OnlyTouches(old(db.targets), db.targets, id)
              && snap.Some? && snap.value == t.row.(remoteUrl := snap.value.remoteUrl)
              && (RetryPending(t.row, now) || delay > 0.0 ==> !success && db.targets[id] == t)
              && (!RetryPending(t.row, now) && delay <= 0.0 ==>
                    PassEnds(env, t, db.targets[id], snap.value, action, outcome, backoff, broken, now,
                             success, performed))
  {
    hide PassEnds;
    performed := action.GetOr(Full);
    if db == null {
      if delay > 0.0 {
        return false, performed, None;
      }
      success := UnrecordedSuccess(env, outcome);
      if outcome.NotModified? {
        performed := action.GetOr(Cheap);
      }
      return success, performed, None;
    }
    var state := db.EnsureTarget(id, url);
    snap := Some(state);
    if (state.nextRetry.Some? && now < state.nextRetry.value) || delay > 0.0 {
      return false, performed, snap;
    }
    success, performed := LetThrough(db, env, id, state, action, outcome, backoff, broken, now, statements);
  }

  // ---- What a pass leaves in the row ----

  /** The record stored for an entry. */
  ghost predicate Recorded(env: Env, e: Entry, rec: FileRecord) {
    && rec.path == (if e.path != "" then e.path else e.name)
    && (e.url.Some? && e.url.value != "" ==> rec.remoteUrl == e.url.value)
    && (e.url.None? || e.url.value == "" ==> rec.remoteUrl == env.resolveUrl(rec.path))
    && rec.isDir == e.isDir && rec.size == e.size && rec.checksum == e.checksum && rec.protocol == env.protocol
    && (e.modified.None? ==> rec.modified == None)
    && (e.modified.Some? ==> rec.modified == env.parseModified(e.modified.value))
  }

  ghost predicate NoError(row: Row) {
    row.error == None && row.errorAt == None && row.nextRetry == None
  }

  /** A successful full pass: one record for each entry in order, both stamps, the new validators and
      hash, a clear flag and no error. The URL stays. */
  lemma FullPassLeaves(env: Env, t: Target, t': Target, snap: Row, action: Option<Action>, entries: seq<Entry>,
                       etag: Option<string>, modified: Option<string>, backoff: real, now: Time)
    requires Commits(env, t, t', snap, action, Listing(entries, etag, modified), backoff, now, Succeeded(Full))
    ensures action == Some(Full) || (action == None && (snap.needsFull || snap.lastFull == None))
    ensures env.giantLimit == 0 || |entries| <= env.giantLimit
    ensures |t'.files| == |entries| && forall i :: 0 <= i < |entries| ==> Recorded(env, entries[i], t'.files[i])
    ensures t'.row.lastFull == t'.row.lastCheck == Some(now) && !t'.row.needsFull && NoError(t'.row)
    ensures t'.row.etag == etag && t'.row.modified == modified && t'.row.remoteUrl == t.row.remoteUrl
    ensures t'.row.hash == Some(Digest(env.sha, Lines(entries)))
  {
    hide Digest, Lines;
  }

  /** A successful cheap pass on a 200 keeps the rows, the stamp of the last full index and the URL; it
      takes over what validators came, and raises the flag iff the fingerprint is not the snapshot's. */
  lemma CheapPassLeaves(env: Env, t: Target, t': Target, snap: Row, action: Option<Action>, entries: seq<Entry>,
                        etag: Option<string>, modified: Option<string>, backoff: real, now: Time)
    requires Commits(env, t, t', snap, action, Listing(entries, etag, modified), backoff, now, Succeeded(Cheap))
    ensures action == Some(Cheap) || (action == None && !snap.needsFull && snap.lastFull.Some?)
    ensures env.giantLimit == 0 || |entries| <= env.giantLimit
    ensures t'.files == t.files && t'.row.lastFull == t.row.lastFull && t'.row.remoteUrl == t.row.remoteUrl
    ensures t'.row.lastCheck == Some(now) && NoError(t'.row)
    ensures t'.row.etag == (if etag.Some? then etag else t.row.etag)
    ensures t'.row.modified == (if modified.Some? then modified else t.row.modified)
    ensures var digest := Digest(env.sha, Lines(entries));
            && t'.row.hash == Some(digest)
            && (t'.row.needsFull <==>
                  || t.row.needsFull || (snap.hash == None && digest != "")
                  || (snap.hash.Some? && snap.hash != Some(digest)))
  {
    hide Digest, Lines;
    assert action.Some? ==> action.value.Full? || action.value.Cheap?;
  }

  /** A 304 leaves everything as the snapshot has it but the time of the check, and clears errors. */
  lemma NotModifiedLeaves(env: Env, t: Target, t': Target, snap: Row, action: Option<Action>, backoff: real,
                          now: Time, performed: Action)
    requires Commits(env, t, t', snap, action, NotModified, backoff, now, Succeeded(performed))
    requires snap.etag == t.row.etag && snap.modified == t.row.modified && snap.hash == t.row.hash
    ensures performed == (if action == Some(Full) then Full else Cheap)
    ensures t'.files == t.files && t'.row.lastCheck == Some(now) && NoError(t'.row)
    ensures t'.row.(lastCheck := t.row.lastCheck, error := t.row.error, errorAt := t.row.errorAt,
                    nextRetry := t.row.nextRetry) == t.row
  {
  }

  /** A refused pass and the row it leaves: its own message, shortened, and its own retry time. */
  lemma RefusedPassLeaves(env: Env, t: Target, t': Target, snap: Row, action: Option<Action>, outcome: Outcome,
                          backoff: real, now: Time)
    requires Commits(env, t, t', snap, action, outcome, backoff, now, Refused)
    ensures t'.row.needsFull && t'.row.errorAt == Some(now) && t'.row.error.Some? && |t'.row.error.value| <= 500
    ensures t'.files == t.files && t'.row.hash == t.row.hash && t'.row.etag == t.row.etag
    ensures outcome.FetchError? && |outcome.message| <= 500 ==> t'.row.error == Some(outcome.message)
    ensures outcome.HttpStatus? && |Text.Decimal(outcome.code)| <= 495 ==>
              t'.row.error == Some("HTTP " + Text.Decimal(outcome.code))
    ensures outcome.FetchError? || outcome.HttpStatus? ==>
              (backoff > 0.0 ==> t'.row.nextRetry == Some(now + backoff))
              && (backoff <= 0.0 ==> t'.row.nextRetry == None)
    ensures outcome.Listing? ==>
              && 0 < env.giantLimit < |outcome.entries|
              && (env.cooldownMinutes == 0 ==> t'.row.nextRetry == None)
              && (env.cooldownMinutes > 0 ==> t'.row.nextRetry == Some(now + env.cooldownMinutes as real * 60.0))
    ensures !outcome.NotModified?
  {
    if outcome.FetchError? && |outcome.message| <= 500 {
      KeptWhole(t'.row.error.value, outcome.message);
    }
    if outcome.HttpStatus? && |Text.Decimal(outcome.code)| <= 495 {
      KeptWhole(t'.row.error.value, "HTTP " + Text.Decimal(outcome.code));
    }
  }

  lemma KeptWhole(kept: string, message: string)
    requires kept <= message && |kept| == |message|
    ensures kept == message
  {
  }

  /** What is recorded for an oversized listing: its size, the limit, and the hint if there is one. */
  lemma PartitionMessageMeans(env: Env, entries: seq<Entry>)
    ensures var text := "Partition required: listing has " + Text.Decimal(|entries|) + " entries (limit "
                        + Text.Decimal(env.giantLimit) + ").";
            var hint := env.partitionHint(entries);
            && (hint == "" ==> PartitionMessage(env, entries) == text)
            && (hint != "" && !Text.IsSpace(hint[|hint| - 1]) ==> PartitionMessage(env, entries) == text + " " + hint)
  {
    var text := "Partition required: listing has " + Text.Decimal(|entries|) + " entries (limit "
                + Text.Decimal(env.giantLimit) + ").";
    var hint := env.partitionHint(entries);
    var whole := "Partition required: listing has " + Text.Decimal(|entries|) + " entries (limit "
                 + Text.Decimal(env.giantLimit) + "). " + hint;
    hide Text.Decimal;
    assert whole == text + " " + hint;
    assert whole[0] == 'P';
    if hint == "" {
      assert whole[|whole| - 1] == ' ' && whole[..|whole| - 1] == text;
      Text.StripShortens(text);
    } else if !Text.IsSpace(hint[|hint| - 1]) {
      assert whole[|whole| - 1] == hint[|hint| - 1];
      Text.StripShortens(whole);
    }
  }

  /** Errors, statuses and oversized listings are refused, and nothing else is; only a 304 or a listing can
      succeed or be broken off by the database. */
  lemma RefusedIff(env: Env, t: Target, t': Target, snap: Row, action: Option<Action>, outcome: Outcome,
                   backoff: real, now: Time, verdict: Verdict)
    requires Commits(env, t, t', snap, action, outcome, backoff, now, verdict)
    ensures verdict == Refused <==>
              || outcome.FetchError? || outcome.HttpStatus?
              || (outcome.Listing? && 0 < env.giantLimit < |outcome.entries|)
  {
  }

  /** A commit that the database broke off: before its first operation it leaves everything; a full one
      then has some first part of the records under the old row until its UPDATE, a cheap one the old
      records, and either has the whole new row from its UPDATE on. */
  lemma BrokenOffPassLeaves(env: Env, t: Target, t': Target, snap: Row, action: Option<Action>, outcome: Outcome,
                            backoff: real, now: Time, done: nat)
    requires Commits(env, t, t', snap, action, outcome, backoff, now, Raised(done))
    ensures done == 0 ==> t' == t
    ensures outcome.Listing? && action == Some(Full) && 0 < done <= |outcome.entries| + 1 ==>
              t'.row == t.row && |t'.files| == done - 1
              && forall i :: 0 <= i < done - 1 ==> Recorded(env, outcome.entries[i], t'.files[i])
    ensures outcome.Listing? && action == Some(Full) && done > |outcome.entries| + 1 ==>
              t'.row.lastFull == Some(now) && !t'.row.needsFull && |t'.files| == |outcome.entries|
    ensures outcome.NotModified? || action == Some(Cheap) ==> t'.files == t.files
    ensures (outcome.NotModified? || action == Some(Cheap)) && done > 0 ==>
              t'.row.lastCheck == Some(now) && NoError(t'.row) && t'.row.lastFull == t.row.lastFull
    ensures outcome.NotModified? || action == Some(Cheap) ==> done < 3
    ensures outcome.Listing? && action == Some(Full) ==> done < |outcome.entries| + 4
  {
    hide Digest, Lines;
  }

  /** An error whose text is empty counts as a listing of nothing: a full pass then succeeds and throws
      every stored row away. */
  lemma EmptyErrorWipesListing(env: Env, t: Target, t': Target, snap: Row, backoff: real, now: Time)
    requires Commits(env, t, t', snap, Some(Full), Effective(FetchError("")), backoff, now, Succeeded(Full))
    ensures t'.files == [] && !t'.row.needsFull && t'.row.error == None
    ensures forall outcome :: outcome != FetchError("") ==> Effective(outcome) == outcome
  {
  }
}
