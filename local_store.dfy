/** The agent's durable record queue (`src/storage_manager.py`): two SQLite
    tables, `events` and `screenshots`, whose rows carry an `AUTOINCREMENT`
    id, a capture time and a `synced` flag. Rows are appended unsynced,
    listed oldest first in batches, flagged synced by id once a remote store
    has accepted them, and deleted only when both synced and older than the
    retention window. A table is a sequence of rows in id order (the order a
    table scan returns them in); the flag and the window are what keep a
    record from being lost before it has left the machine. */
module LocalStore {
  import opened Common
  import opened Json
  import Dates

  /** `Config.MAX_LOCAL_DAYS` */
  const MaxLocalDays := 7

  /** Default limits of `get_unsynced_events` and `get_unsynced_screenshots`. */
  const EventBatch := 100
  const ShotBatch := 50

  /** One row of either table; `P` is what the table stores besides the
      id, the time and the flag. */
  datatype Row<P> = Row(id: nat, timestamp: int, payload: P, synced: bool)

  /** `events(event_type, details)`; `details` is the JSON text written by
      `json.dumps`. */
  datatype EventPayload = EventPayload(eventType: string, details: string)

  /** `screenshots(filepath, filesize)` */
  datatype ShotPayload = ShotPayload(filepath: string, filesize: int)

  /** A listed event, its details decoded again. */
  datatype EventRecord = EventRecord(id: nat, timestamp: int, eventType: string, details: Json)

  /** A listed screenshot. */
  datatype ShotRecord = ShotRecord(id: nat, timestamp: int, filepath: string, filesize: int)

  // ------------------------------------------------------------------
  // Tables as values

  /** Ids strictly increase along the table and none exceeds the last one
      handed out (SQLite's `sqlite_sequence` entry, `last`). */
  ghost predicate TableOk<P>(rows: seq<Row<P>>, last: nat)
  {
    (forall i :: 0 <= i < |rows| ==> 1 <= rows[i].id <= last) &&
    (forall i, j :: 0 <= i < j < |rows| ==> rows[i].id < rows[j].id)
  }

  predicate Expired<P>(row: Row<P>, cutoff: int)
  {
    row.synced && row.timestamp < cutoff
  }

  function CountUnsynced<P>(rows: seq<Row<P>>): nat
  {
    if |rows| == 0 then 0
    else (if rows[0].synced then 0 else 1) + CountUnsynced(rows[1..])
  }

  /** `SELECT … WHERE synced = 0 LIMIT limit`: the first `limit` unsynced
      rows in table order. */
  function Unsynced<P>(rows: seq<Row<P>>, limit: nat): (batch: seq<Row<P>>)
    ensures |batch| <= limit && |batch| <= |rows|
    ensures forall x :: x in batch ==> x in rows && !x.synced
  {
    if |rows| == 0 || limit == 0 then []
    else if rows[0].synced then Unsynced(rows[1..], limit)
    else [rows[0]] + Unsynced(rows[1..], limit - 1)
  }

  /** `UPDATE … SET synced = 1 WHERE id IN (ids)`: every row whose id is
      listed is flagged, every other row is left as it was. */
  function Mark<P>(rows: seq<Row<P>>, ids: seq<nat>): (marked: seq<Row<P>>)
    ensures |marked| == |rows|
    ensures forall i :: 0 <= i < |rows| ==>
      marked[i].id == rows[i].id && marked[i].timestamp == rows[i].timestamp &&
      marked[i].payload == rows[i].payload &&
      (marked[i].synced <==> rows[i].synced || rows[i].id in ids)
  {
    if |rows| == 0 then []
    else [rows[0].(synced := rows[0].synced || rows[0].id in ids)] + Mark(rows[1..], ids)
  }

  /** `DELETE … WHERE timestamp < cutoff AND synced = 1` */
  function Evict<P>(rows: seq<Row<P>>, cutoff: int): (kept: seq<Row<P>>)
    ensures |kept| <= |rows|
    ensures forall x :: x in kept ==> x in rows && !Expired(x, cutoff)
    ensures forall x :: x in rows && !Expired(x, cutoff) ==> x in kept
  {
    if |rows| == 0 then []
    else if Expired(rows[0], cutoff) then Evict(rows[1..], cutoff)
    else [rows[0]] + Evict(rows[1..], cutoff)
  }

  /** `SELECT filepath FROM screenshots WHERE timestamp < cutoff AND synced = 1` */
  function ExpiredPaths(rows: seq<Row<ShotPayload>>, cutoff: int): (paths: seq<string>)
    ensures forall p :: p in paths <==> exists x :: x in rows && Expired(x, cutoff) && x.payload.filepath == p
  {
    if |rows| == 0 then []
    else
      var rest := ExpiredPaths(rows[1..], cutoff);
      assert forall x :: x in rows <==> x == rows[0] || x in rows[1..];
      if Expired(rows[0], cutoff) then [rows[0].payload.filepath] + rest else rest
  }

  function EventRecordOf(row: Row<EventPayload>, details: Json): EventRecord
  {
    EventRecord(row.id, row.timestamp, row.payload.eventType, details)
  }

  function ShotRecordOf(row: Row<ShotPayload>): ShotRecord
  {
    ShotRecord(row.id, row.timestamp, row.payload.filepath, row.payload.filesize)
  }

  function Ids<P>(rows: seq<Row<P>>): (ids: seq<nat>)
    ensures |ids| == |rows| && forall i :: 0 <= i < |rows| ==> ids[i] == rows[i].id
  {
    seq(|rows|, i requires 0 <= i < |rows| => rows[i].id)
  }

  function ShotRecordsOf(rows: seq<Row<ShotPayload>>): seq<ShotRecord>
  {
    seq(|rows|, i requires 0 <= i < |rows| => ShotRecordOf(rows[i]))
  }

  function EventRecordsOf(rows: seq<Row<EventPayload>>, logged: map<nat, Json>): seq<EventRecord>
    requires forall r :: r in rows ==> r.id in logged
  {
    seq(|rows|, i requires 0 <= i < |rows| => EventRecordOf(rows[i], logged[rows[i].id]))
  }

  /** One listed event as the JSON object `json.dumps` writes for it. */
  function EventJson(r: EventRecord): Json
  {
    JObj([Field("id", JInt(r.id)), Field("timestamp", JInt(r.timestamp)),
          Field("event_type", JStr(r.eventType)), Field("details", r.details)])
  }

  function EventsJson(events: seq<EventRecord>): (v: Json)
    ensures v.JArr? && |v.items| == |events|
  {
    JArr(seq(|events|, i requires 0 <= i < |events| => EventJson(events[i])))
  }

  // ------------------------------------------------------------------
  // Properties of the table operations

  /** A new row takes the next id, so the table stays in id order and no id
      is ever handed out twice, even after rows were deleted. */
  lemma AppendKeepsTable<P>(rows: seq<Row<P>>, last: nat, row: Row<P>)
    requires TableOk(rows, last) && row.id == last + 1
    ensures TableOk(rows + [row], last + 1)
    ensures forall x :: x in rows ==> x.id != row.id
  {
  }

  lemma {:induction false} UnsyncedLength<P>(rows: seq<Row<P>>, limit: nat)
    ensures |Unsynced(rows, limit)| == if limit < CountUnsynced(rows) then limit else CountUnsynced(rows)
  {
    if |rows| > 0 && limit > 0 {
      if rows[0].synced {
        UnsyncedLength(rows[1..], limit);
      } else {
        UnsyncedLength(rows[1..], limit - 1);
      }
    }
  }

  /** A batch shorter than the limit holds every unsynced row. */
  lemma {:induction false} UnsyncedComplete<P>(rows: seq<Row<P>>, limit: nat)
    requires |Unsynced(rows, limit)| < limit
    ensures forall x :: x in rows && !x.synced ==> x in Unsynced(rows, limit)
  {
    if |rows| > 0 {
      assert forall x :: x in rows ==> x == rows[0] || x in rows[1..];
      if rows[0].synced {
        UnsyncedComplete(rows[1..], limit);
      } else {
        UnsyncedComplete(rows[1..], limit - 1);
      }
    }
  }

  /** The batch is the oldest unsynced rows: an unsynced row left out of
      it has a larger id than every row in it. */
  lemma {:induction false} UnsyncedOldestFirst<P>(rows: seq<Row<P>>, last: nat, limit: nat, x: Row<P>, y: Row<P>)
    requires TableOk(rows, last)
    requires x in rows && !x.synced && x !in Unsynced(rows, limit)
    requires y in Unsynced(rows, limit)
    ensures y.id < x.id
  {
    assert TableOk(rows[1..], last);
    if x == rows[0] {
      assert rows[0].synced || limit == 0;
    } else if y == rows[0] {
      var k :| 0 <= k < |rows| && rows[k] == x;
    } else if rows[0].synced {
      UnsyncedOldestFirst(rows[1..], last, limit, x, y);
    } else {
      UnsyncedOldestFirst(rows[1..], last, limit - 1, x, y);
    }
  }

  /** A listing comes in ascending id order. */
  lemma {:induction false} UnsyncedAscending<P>(rows: seq<Row<P>>, last: nat, limit: nat)
    requires TableOk(rows, last)
    ensures var batch := Unsynced(rows, limit);
      forall i, j :: 0 <= i < j < |batch| ==> batch[i].id < batch[j].id
  {
    UnsyncedTable(rows, last, limit);
  }

  /** The listing is itself a well-formed table. */
  lemma {:induction false} UnsyncedTable<P>(rows: seq<Row<P>>, last: nat, limit: nat)
    requires TableOk(rows, last)
    ensures TableOk(Unsynced(rows, limit), last)
    decreases |rows|
  {
    if |rows| > 0 && limit > 0 {
      TailTable(rows, last);
      if rows[0].synced {
        UnsyncedTable(rows[1..], last, limit);
        assert Unsynced(rows, limit) == Unsynced(rows[1..], limit);
      } else {
        UnsyncedTable(rows[1..], last, limit - 1);
        KeepFirst(rows, last, limit);
      }
    }
  }

  /** An unsynced first row goes before a well-formed listing of the
      rows after it, and the result is a table. */
  lemma KeepFirst<P>(rows: seq<Row<P>>, last: nat, limit: nat)
    requires |rows| > 0 && limit > 0 && !rows[0].synced
    requires TableOk(rows, last)
    requires TableOk(Unsynced(rows[1..], limit - 1), last)
    ensures TableOk(Unsynced(rows, limit), last)
  {
    var rest := Unsynced(rows[1..], limit - 1);
    TailFacts(rows, last);
    forall x | x in rest
      ensures rows[0].id < x.id
    {
      assert x in rows[1..];
    }
    ConsKeepsTable(rows[0], rest, last);
  }

  /** Dropping the first row of a table leaves a table. */
  lemma TailTable<P>(rows: seq<Row<P>>, last: nat)
    requires TableOk(rows, last) && |rows| > 0
    ensures TableOk(rows[1..], last)
  {
    TailFacts(rows, last);
  }

  /** Dropping the first row of a table leaves a table whose ids all
      exceed the dropped one. */
  lemma TailFacts<P>(rows: seq<Row<P>>, last: nat)
    requires TableOk(rows, last) && |rows| > 0
    ensures TableOk(rows[1..], last) && 1 <= rows[0].id <= last
    ensures forall x :: x in rows[1..] ==> rows[0].id < x.id
  {
    forall x | x in rows[1..]
      ensures rows[0].id < x.id
    {
      var k :| 0 <= k < |rows[1..]| && rows[1..][k] == x;
      assert rows[k + 1] == x;
    }
  }

  /** Once its id is marked, a row is never listed again. */
  lemma MarkedNeverListed<P>(rows: seq<Row<P>>, ids: seq<nat>, limit: nat)
    ensures forall x :: x in Unsynced(Mark(rows, ids), limit) ==> x.id !in ids
  {
    var marked := Mark(rows, ids);
    forall x | x in Unsynced(marked, limit)
      ensures x.id !in ids
    {
      var i :| 0 <= i < |marked| && marked[i] == x;
    }
  }

  /** Marking the same ids twice is marking them once. */
  lemma MarkIdempotent<P>(rows: seq<Row<P>>, ids: seq<nat>)
    ensures Mark(Mark(rows, ids), ids) == Mark(rows, ids)
  {
  }

  /** Marking with no ids changes nothing (the early return of the source
      only saves the database round trip). */
  lemma MarkNothing<P>(rows: seq<Row<P>>)
    ensures Mark(rows, []) == rows
  {
  }

  lemma MarkKeepsTable<P>(rows: seq<Row<P>>, last: nat, ids: seq<nat>)
    requires TableOk(rows, last)
    ensures TableOk(Mark(rows, ids), last)
  {
  }

  /** Eviction never touches an unsynced row: the next batch is the same
      before and after it. */
  lemma {:induction false} EvictKeepsBatch<P>(rows: seq<Row<P>>, cutoff: int, limit: nat)
    ensures Unsynced(Evict(rows, cutoff), limit) == Unsynced(rows, limit)
  {
    if |rows| > 0 && limit > 0 {
      var rest := rows[1..];
      var kept := Evict(rest, cutoff);
      if Expired(rows[0], cutoff) {
        assert Evict(rows, cutoff) == kept;
        EvictKeepsBatch(rest, cutoff, limit);
      } else {
        var all := [rows[0]] + kept;
        assert Evict(rows, cutoff) == all;
        assert all[0] == rows[0] && all[1..] == kept;
        if rows[0].synced {
          EvictKeepsBatch(rest, cutoff, limit);
        } else {
          EvictKeepsBatch(rest, cutoff, limit - 1);
        }
      }
    }
  }

  /** Eviction keeps the rows it keeps in order, so the table stays valid. */
  lemma {:induction false} EvictKeepsTable<P>(rows: seq<Row<P>>, last: nat, cutoff: int)
    requires TableOk(rows, last)
    ensures TableOk(Evict(rows, cutoff), last)
  {
    if |rows| > 0 {
      var tail := rows[1..];
      EvictKeepsTable(tail, last, cutoff);
      var rest := Evict(tail, cutoff);
      if Expired(rows[0], cutoff) {
        assert Evict(rows, cutoff) == rest;
      } else {
        forall x | x in rest
          ensures rows[0].id < x.id
        {
          var k :| 0 <= k < |tail| && tail[k] == x;
          assert rows[k + 1] == x;
        }
        assert Evict(rows, cutoff) == [rows[0]] + rest;
        ConsKeepsTable(rows[0], rest, last);
      }
    }
  }

  lemma ConsKeepsTable<P>(row: Row<P>, rest: seq<Row<P>>, last: nat)
    requires TableOk(rest, last) && 1 <= row.id <= last
    requires forall x :: x in rest ==> row.id < x.id
    ensures TableOk([row] + rest, last)
  {
    var all := [row] + rest;
    forall i, j | 0 <= i < j < |all|
      ensures all[i].id < all[j].id
    {
      assert all[j] == rest[j - 1] && all[j] in rest;
      if i > 0 {
        assert all[i] == rest[i - 1];
      }
    }
    forall i | 0 <= i < |all|
      ensures 1 <= all[i].id <= last
    {
      if i > 0 {
        assert all[i] == rest[i - 1];
      }
    }
  }

  lemma EvictIdempotent<P>(rows: seq<Row<P>>, cutoff: int)
    ensures Evict(Evict(rows, cutoff), cutoff) == Evict(rows, cutoff)
  {
  }

  // ------------------------------------------------------------------
  // The local file system, as far as the queue uses it

  /** The agent's files, by path. */
  class LocalDisk {
    var files: map<string, Bytes>

    constructor(files: map<string, Bytes>)
      ensures this.files == files
    {
      this.files := files;
    }
  }

  // ------------------------------------------------------------------
  // The store

  class StorageManager {
    var events: seq<Row<EventPayload>>
    var screenshots: seq<Row<ShotPayload>>
    /** The `sqlite_sequence` counters: the last id handed out per table. */
    var eventSeq: nat
    var screenshotSeq: nat
    /** The details value each event was logged with, by id. */
    ghost var logged: map<nat, Json>

    ghost predicate Valid()
      reads this
    {
      TableOk(events, eventSeq) && TableOk(screenshots, screenshotSeq) &&
      forall r :: r in events ==> r.id in logged && r.payload.details == Encode(logged[r.id])
    }

    /** `_init_database` on a fresh database file: both tables empty. */
    constructor()
      ensures Valid()
      ensures events == [] && screenshots == [] && eventSeq == 0 && screenshotSeq == 0
    {
      events := [];
      screenshots := [];
      eventSeq := 0;
      screenshotSeq := 0;
      logged := map[];
    }

    /** `log_event`: the details are stored as their JSON text, the row
        unsynced, under the next id. */
    method LogEvent(eventType: string, details: Json, now: int)
      requires Valid()
      modifies this
      ensures Valid()
      ensures eventSeq == old(eventSeq) + 1
      ensures events == old(events) + [Row(eventSeq, now, EventPayload(eventType, Encode(details)), false)]
      ensures logged == old(logged)[eventSeq := details]
      ensures screenshots == old(screenshots) && screenshotSeq == old(screenshotSeq)
    {
      var row := Row(eventSeq + 1, now, EventPayload(eventType, Encode(details)), false);
      AppendKeepsTable(events, eventSeq, row);
      events := events + [row];
      eventSeq := eventSeq + 1;
      logged := logged[row.id := details];
    }

    /** `log_screenshot` */
    method LogScreenshot(filepath: string, filesize: int, now: int)
      requires Valid()
      modifies this
      ensures Valid()
      ensures screenshotSeq == old(screenshotSeq) + 1
      ensures screenshots == old(screenshots) + [Row(screenshotSeq, now, ShotPayload(filepath, filesize), false)]
      ensures events == old(events) && eventSeq == old(eventSeq) && logged == old(logged)
    {
      var row := Row(screenshotSeq + 1, now, ShotPayload(filepath, filesize), false);
      AppendKeepsTable(screenshots, screenshotSeq, row);
      screenshots := screenshots + [row];
      screenshotSeq := screenshotSeq + 1;
    }

    /** `get_unsynced_events`: the batch, each row's details decoded back to
        the value it was logged with. */
    method GetUnsyncedEvents(limit: nat) returns (records: seq<EventRecord>)
      requires Valid()
      ensures |records| == |Unsynced(events, limit)|
      ensures forall i :: 0 <= i < |records| ==>
        var row := Unsynced(events, limit)[i];
        row.id in logged && records[i] == EventRecordOf(row, logged[row.id])
    {
      var batch := Unsynced(events, limit);
      records := [];
      var i := 0;
      while i < |batch|
        invariant 0 <= i <= |batch| && |records| == i
        invariant forall k :: 0 <= k < i ==> batch[k].id in logged && records[k] == EventRecordOf(batch[k], logged[batch[k].id])
      {
        var row := batch[i];
        assert row in events;
        RoundTrip(logged[row.id]);
        var details := Decode(row.payload.details);
        records := records + [EventRecordOf(row, details.value)];
        i := i + 1;
      }
    }

    /** `get_unsynced_screenshots` */
    method GetUnsyncedScreenshots(limit: nat) returns (records: seq<ShotRecord>)
      ensures |records| == |Unsynced(screenshots, limit)|
      ensures forall i :: 0 <= i < |records| ==> records[i] == ShotRecordOf(Unsynced(screenshots, limit)[i])
    {
      var batch := Unsynced(screenshots, limit);
      records := [];
      var i := 0;
      while i < |batch|
        invariant 0 <= i <= |batch| && |records| == i
        invariant forall k :: 0 <= k < i ==> records[k] == ShotRecordOf(batch[k])
      {
        records := records + [ShotRecordOf(batch[i])];
        i := i + 1;
      }
    }

    /** `mark_events_synced` */
    method MarkEventsSynced(ids: seq<nat>)
      requires Valid()
      modifies this
      ensures Valid()
      ensures events == Mark(old(events), ids)
      ensures screenshots == old(screenshots) && eventSeq == old(eventSeq) && screenshotSeq == old(screenshotSeq)
      ensures logged == old(logged)
    {
      if |ids| == 0 {
        MarkNothing(events);
        return;
      }
      MarkKeepsTable(events, eventSeq, ids);
      events := Mark(events, ids);
    }

    /** `mark_screenshots_synced` */
    method MarkScreenshotsSynced(ids: seq<nat>)
      requires Valid()
      modifies this
      ensures Valid()
      ensures screenshots == Mark(old(screenshots), ids)
      ensures events == old(events) && eventSeq == old(eventSeq) && screenshotSeq == old(screenshotSeq)
      ensures logged == old(logged)
    {
      if |ids| == 0 {
        MarkNothing(screenshots);
        return;
      }
      MarkKeepsTable(screenshots, screenshotSeq, ids);
      screenshots := Mark(screenshots, ids);
    }

    /** `cleanup_old_data`: the files of expired screenshot rows are removed
        where they exist (a removal that fails, modelled by `undeletable`,
        is ignored), then expired rows of both tables are deleted. */
    method CleanupOldData(now: int, disk: LocalDisk, undeletable: set<string>)
      requires Valid()
      modifies this, disk
      ensures Valid()
      ensures var cutoff := now - MaxLocalDays * Dates.SecondsPerDay;
        events == Evict(old(events), cutoff) && screenshots == Evict(old(screenshots), cutoff) &&
        disk.files == old(disk.files) - (set p | p in ExpiredPaths(old(screenshots), cutoff) && p !in undeletable)
      ensures eventSeq == old(eventSeq) && screenshotSeq == old(screenshotSeq) && logged == old(logged)
    {
      var cutoff := now - MaxLocalDays * Dates.SecondsPerDay;
      var oldFiles := ExpiredPaths(screenshots, cutoff);
      var i := 0;
      while i < |oldFiles|
        invariant 0 <= i <= |oldFiles|
        invariant disk.files == old(disk.files) - (set p | p in oldFiles[..i] && p !in undeletable)
        invariant events == old(events) && screenshots == old(screenshots)
        invariant eventSeq == old(eventSeq) && screenshotSeq == old(screenshotSeq) && logged == old(logged)
      {
        var path := oldFiles[i];
        if path in disk.files && path !in undeletable {
          disk.files := disk.files - {path};
        }
        assert oldFiles[..i + 1] == oldFiles[..i] + [path];
        i := i + 1;
      }
      assert oldFiles[..i] == oldFiles;
      EvictKeepsTable(events, eventSeq, cutoff);
      EvictKeepsTable(screenshots, screenshotSeq, cutoff);
      events := Evict(events, cutoff);
      screenshots := Evict(screenshots, cutoff);
    }
  }
}
