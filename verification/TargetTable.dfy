/** The target rows and file rows of the index database, and the statements that change them. */
module TargetTable {
  import opened Wrappers

  type Time = real

  datatype Row = Row(remoteUrl: string,
                     lastFull: Option<Time>, lastCheck: Option<Time>, needsFull: bool,
                     etag: Option<string>, modified: Option<string>, hash: Option<string>,
                     error: Option<string>, errorAt: Option<Time>, nextRetry: Option<Time>)

  datatype FileRecord = FileRecord(path: string, remoteUrl: string, isDir: bool, size: Option<nat>,
                                   modified: Option<string>, checksum: Option<string>, protocol: string)

  /** One target: its row and the file rows that point at it. */
  datatype Target = Target(row: Row, files: seq<FileRecord>)

  datatype Kind = FullEvent | CheapEvent | ErrorEvent

  datatype Event = Event(target: string, kind: Kind, at: Time)

  function NewTarget(url: string): Target {
    Target(Row(url, None, None, true, None, None, None, None, None, None), [])
  }

  /** The row asks to be left alone until a later time. */
  predicate RetryPending(row: Row, now: Time) {
    row.nextRetry.Some? && now < row.nextRetry.value
  }

  /** COALESCE(latest, stored) */
  function Coalesce<T>(latest: Option<T>, stored: Option<T>): Option<T> {
    if latest.Some? then latest else stored
  }

  // ---- The new value of a target after each statement ----

  function Relisted(t: Target, records: seq<FileRecord>, etag: Option<string>, modified: Option<string>,
                    hash: string, now: Time): Target
  {
    Target(Row(t.row.remoteUrl, Some(now), Some(now), false, etag, modified, Some(hash), None, None, None),
           records)
  }

  function Checked(t: Target, etag: Option<string>, modified: Option<string>, hash: Option<string>,
                   changed: bool, now: Time): Target
  {
    t.(row := Row(t.row.remoteUrl, t.row.lastFull, Some(now), changed || t.row.needsFull,
                  Coalesce(etag, t.row.etag), Coalesce(modified, t.row.modified),
                  Coalesce(hash, t.row.hash), None, None, None))
  }

  function Truncated(message: string): string {
    if |message| <= 500 then message else message[..500]
  }

  function Failed(t: Target, message: string, retryAt: Option<Time>, now: Time): Target {
    t.(row := t.row.(error := Some(Truncated(message)), errorAt := Some(now), nextRetry := retryAt,
                     needsFull := true))
  }

  /** A failure recorded in the row's own columns: the first 500 characters of the message, the time, the
      retry time and the flag; every other column and the file rows stay. */
  ghost predicate RecordsFailure(t: Target, t': Target, message: string, retryAt: Option<Time>, now: Time) {
    var row, row' := t.row, t'.row;
    && row'.error.Some? && row'.error.value <= message
    && |row'.error.value| == (if |message| < 500 then |message| else 500)
    && row'.errorAt == Some(now) && row'.nextRetry == retryAt && row'.needsFull
    && row'.remoteUrl == row.remoteUrl && row'.lastFull == row.lastFull && row'.lastCheck == row.lastCheck
    && row'.etag == row.etag && row'.modified == row.modified && row'.hash == row.hash
    && t'.files == t.files
  }

  function Marked(t: Target): Target {
    t.(row := t.row.(needsFull := true))
  }

  function WithUrl(t: Target, url: string): Target {
    if url != "" && url != t.row.remoteUrl then t.(row := t.row.(remoteUrl := url)) else t
  }

  /** UNIQUE(target_id, path) */
  ghost predicate DistinctPaths(records: seq<FileRecord>) {
    forall i, j :: 0 <= i < j < |records| ==> records[i].path != records[j].path
  }

  /** The target after the first `done` operations of an `update_listing`: one DELETE, one INSERT per
      record, one UPDATE; the event row and the commit come last and leave the target alone. */
  function ListingAfter(t: Target, records: seq<FileRecord>, etag: Option<string>, modified: Option<string>,
                        hash: string, now: Time, done: nat): Target
  {
    if done == 0 then t
    else if done <= |records| + 1 then t.(files := records[..done - 1])
    else Relisted(t, records, etag, modified, hash, now)
  }

  class IndexDatabase {
    var targets: map<string, Target>
    var events: seq<Event>

    constructor ()
      ensures targets == map[] && events == []
    {
      targets := map[];
      events := [];
    }

    method EnsureTarget(id: string, url: string) returns (state: Row)
      modifies this
      ensures events == old(events)
      ensures id !in old(targets) ==> targets == old(targets)[id := NewTarget(url)]
      ensures id in old(targets) ==> targets == old(targets)[id := WithUrl(old(targets)[id], url)]
      ensures id !in old(targets) ==>
                && targets[id].files == [] && targets[id].row.needsFull && targets[id].row.remoteUrl == url
                && targets[id].row.lastFull == targets[id].row.lastCheck == None
                && targets[id].row.etag == targets[id].row.modified == targets[id].row.hash == None
                && targets[id].row.error == None && targets[id].row.errorAt == targets[id].row.nextRetry == None
      ensures id in old(targets) ==>
                && targets[id].files == old(targets)[id].files
                && targets[id].row == old(targets)[id].row.(remoteUrl := targets[id].row.remoteUrl)
                && targets[id].row.remoteUrl == if url != "" then url else old(targets)[id].row.remoteUrl
      ensures state == targets[id].row.(remoteUrl := state.remoteUrl)
      ensures state.remoteUrl == if url != "" then url else targets[id].row.remoteUrl
    {
      if id !in targets {
        targets := targets[id := NewTarget(url)];
      } else if url != "" && url != targets[id].row.remoteUrl {
        targets := targets[id := targets[id].(row := targets[id].row.(remoteUrl := url))];
      }
      var row := targets[id].row;
      state := row.(remoteUrl := if row.remoteUrl != "" then row.remoteUrl else url);
    }

    /** The backend raises after `statements` operations, a repeated path raises by itself, and `done`
        operations complete: delete, insert each record, update, insert the event, commit. */
    method UpdateListing(id: string, records: seq<FileRecord>, etag: Option<string>, modified: Option<string>,
                         hash: string, now: Time, statements: nat) returns (done: nat)
      requires id in targets
      modifies this
      ensures done <= statements && done <= |records| + 4
      ensures done > 0 ==> DistinctPaths(records[..if done <= |records| + 1 then done - 1 else |records|])
      ensures done < statements && done < |records| + 4 ==> 0 < done <= |records| && !DistinctPaths(records[..done])
      ensures targets == old(targets)[id := ListingAfter(old(targets)[id], records, etag, modified, hash, now, done)]
      ensures events == old(events) + if done >= |records| + 3 then [Event(id, FullEvent, now)] else []
    {
      done := ReplaceFiles(id, records, statements);
      if done <= |records| || done == statements {
        return;
      }
      assert records[..|records|] == records;
      targets := targets[id := Relisted(targets[id], targets[id].files, etag, modified, hash, now)];
      done := done + 1;
      if done == statements {
        return;
      }
      events := events + [Event(id, FullEvent, now)];
      done := done + 1;
      if done < statements {
        done := done + 1;
      }
    }

    /** The DELETE and the INSERTs. */
    method ReplaceFiles(id: string, records: seq<FileRecord>, statements: nat) returns (done: nat)
      requires id in targets
      modifies this`targets
      ensures done <= statements && done <= |records| + 1
      ensures done == 0 ==> targets == old(targets)
      ensures done > 0 ==>
                && DistinctPaths(records[..done - 1])
                && targets == old(targets)[id := old(targets)[id].(files := records[..done - 1])]
      ensures done < statements && done <= |records| ==> done > 0 && !DistinctPaths(records[..done])
    {
      ghost var before := targets[id];
      if statements == 0 {
        return 0;
      }
      targets := targets[id := targets[id].(files := [])];
      done := 1;
      while done <= |records| && done < statements
        invariant 1 <= done <= |records| + 1 && done <= statements
        invariant DistinctPaths(records[..done - 1])
        invariant targets == old(targets)[id := before.(files := records[..done - 1])]
      {
        var next := records[done - 1];
        assert records[..done] == records[..done - 1] + [next];
        if exists f :: f in targets[id].files && f.path == next.path {
          ghost var f :| f in records[..done - 1] && f.path == next.path;
          return;
        }
        targets := targets[id := targets[id].(files := targets[id].files + [next])];
        done := done + 1;
      }
    }

    /** As above: one UPDATE, one event row, one commit. */
    method RecordCheapCheck(id: string, etag: Option<string>, modified: Option<string>, hash: Option<string>,
                            changed: bool, now: Time, statements: nat) returns (done: nat)
      requires id in targets
      modifies this
      ensures done == if statements < 3 then statements else 3
      ensures done == 0 ==> targets == old(targets)
      ensures done > 0 ==>
                targets == old(targets)[id := Checked(old(targets)[id], etag, modified, hash, changed, now)]
      ensures events == old(events) + if done >= 2 then [Event(id, CheapEvent, now)] else []
    {
      if statements == 0 {
        return 0;
      }
      var row := targets[id].row;
      row := row.(lastCheck := Some(now),
                  etag := if etag.Some? then etag else row.etag,
                  modified := if modified.Some? then modified else row.modified,
                  hash := if hash.Some? then hash else row.hash,
                  needsFull := if changed then true else row.needsFull,
                  error := None, errorAt := None, nextRetry := None);
      targets := targets[id := targets[id].(row := row)];
      if statements == 1 {
        return 1;
      }
      events := events + [Event(id, CheapEvent, now)];
      done := if statements == 2 then 2 else 3;
    }

    method MarkFailure(id: string, message: string, retryAt: Option<Time>, now: Time)
      requires id in targets
      modifies this
      ensures targets == old(targets)[id := Failed(old(targets)[id], message, retryAt, now)]
      ensures RecordsFailure(old(targets)[id], targets[id], message, retryAt, now)
      ensures events == old(events) + [Event(id, ErrorEvent, now)]
    {
      var row := targets[id].row;
      row := row.(error := Some(Truncated(message)), errorAt := Some(now));
      row := row.(nextRetry := retryAt, needsFull := true);
      targets := targets[id := targets[id].(row := row)];
      events := events + [Event(id, ErrorEvent, now)];
    }

    /** Marking an unknown id changes no row. */
    method MarkNeedsFull(id: string)
      modifies this
      ensures events == old(events)
      ensures targets == if id in old(targets) then old(targets)[id := Marked(old(targets)[id])] else old(targets)
      ensures id in targets ==>
                && targets[id].row.needsFull && targets[id].files == old(targets)[id].files
                && targets[id].row == old(targets)[id].row.(needsFull := targets[id].row.needsFull)
    {
      if id in targets {
        targets := targets[id := targets[id].(row := targets[id].row.(needsFull := true))];
      }
    }
  }
}
