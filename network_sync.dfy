/** The LAN sync driver (`client/network_sync.py`): each cycle fetches a
    batch of unsynced events and screenshots, packs them into one archive,
    posts it to the central server, flags every fetched id synced when the
    server answers 200, and runs the local retention sweep. */
module NetworkSync {
  import opened Common
  import opened Json
  import opened LocalStore
  import Dates

  /** What the HTTP post came back with: a response, or an exception
      (connection refused, time-out, retries exhausted). */
  datatype PostOutcome = Responded(status: int) | Raised

  // ------------------------------------------------------------------
  // The archive

  function ManifestName(stamp: string): string
  {
    "events_" + stamp + ".json"
  }

  /** The events member: present only when there are events. */
  function Manifest(events: seq<EventRecord>, stamp: string): Archive
  {
    if |events| == 0 then [] else [ZipEntry(ManifestName(stamp), EncodeBytes(EventsJson(events)))]
  }

  function ShotEntryName(filepath: string): string
  {
    "screenshots/" + Basename(filepath)
  }

  /** A screenshot saved as `os.path.join(folder, filename)` travels as
      the member `screenshots/<filename>`, whatever the folder. */
  lemma ShotEntryOfSavedPath(folder: string, filename: string)
    requires forall c :: c in filename ==> !IsSep(c)
    ensures ShotEntryName(folder + "\\" + filename) == "screenshots/" + filename
  {
    BasenameOfJoin(folder, '\\', filename);
  }

  /** One member per listed screenshot whose file exists, in list order. */
  function ShotEntries(shots: seq<ShotRecord>, files: map<string, Bytes>): Archive
  {
    if |shots| == 0 then []
    else
      var last := shots[|shots| - 1];
      ShotEntries(shots[..|shots| - 1], files) +
        (if last.filepath in files then [ZipEntry(ShotEntryName(last.filepath), files[last.filepath])] else [])
  }

  /** Some listed file exists but cannot be read into the archive. */
  predicate PackingFails(shots: seq<ShotRecord>, files: map<string, Bytes>, unreadable: set<string>)
  {
    exists i :: 0 <= i < |shots| && shots[i].filepath in files && shots[i].filepath in unreadable
  }

  /** `_create_zip_package`: the archive, or None when writing it raised. */
  function Package(events: seq<EventRecord>, shots: seq<ShotRecord>, files: map<string, Bytes>,
                   stamp: string, unreadable: set<string>): Option<Archive>
  {
    if PackingFails(shots, files, unreadable) then None
    else Some(Manifest(events, stamp) + ShotEntries(shots, files))
  }

  /** `upload_data`'s answer. */
  function UploadSucceeds(events: seq<EventRecord>, shots: seq<ShotRecord>, files: map<string, Bytes>,
                          stamp: string, unreadable: set<string>, post: PostOutcome): bool
  {
    if |events| == 0 && |shots| == 0 then false
    else if Package(events, shots, files, stamp, unreadable).None? then false
    else post == Responded(200)
  }

  // ------------------------------------------------------------------
  // Properties of the archive and of the success rule

  /** `e` is the member for the `i`-th listed screenshot. */
  predicate EntryOf(shots: seq<ShotRecord>, files: map<string, Bytes>, i: int, e: ZipEntry)
  {
    0 <= i < |shots| && shots[i].filepath in files &&
    e == ZipEntry(ShotEntryName(shots[i].filepath), files[shots[i].filepath])
  }

  /** A member for a screenshot is there iff its file exists, and it holds
      that file's bytes under `screenshots/<basename>`. */
  lemma {:induction false} ShotEntriesExact(shots: seq<ShotRecord>, files: map<string, Bytes>)
    ensures forall e :: e in ShotEntries(shots, files) ==> exists i :: EntryOf(shots, files, i, e)
    ensures forall i :: 0 <= i < |shots| && shots[i].filepath in files ==>
      ZipEntry(ShotEntryName(shots[i].filepath), files[shots[i].filepath]) in ShotEntries(shots, files)
  {
    if |shots| > 0 {
      var init := shots[..|shots| - 1];
      ShotEntriesExact(init, files);
      forall e | e in ShotEntries(shots, files)
        ensures exists i :: EntryOf(shots, files, i, e)
      {
        if e in ShotEntries(init, files) {
          var i :| EntryOf(init, files, i, e);
          assert shots[i] == init[i];
          assert EntryOf(shots, files, i, e);
        } else {
          assert EntryOf(shots, files, |shots| - 1, e);
        }
      }
      forall i | 0 <= i < |shots| && shots[i].filepath in files
        ensures ZipEntry(ShotEntryName(shots[i].filepath), files[shots[i].filepath]) in ShotEntries(shots, files)
      {
        if i < |init| {
          assert shots[i] == init[i];
        }
      }
    }
  }

  /** Screenshots whose file is missing are left out silently: the
      archive has one member per existing file. */
  lemma {:induction false} ShotEntriesCount(shots: seq<ShotRecord>, files: map<string, Bytes>)
    ensures |ShotEntries(shots, files)| == |set i | 0 <= i < |shots| && shots[i].filepath in files|
  {
    if |shots| > 0 {
      var n := |shots| - 1;
      var init := shots[..n];
      ShotEntriesCount(init, files);
      var before := set i | 0 <= i < n && init[i].filepath in files;
      var after := set i | 0 <= i < |shots| && shots[i].filepath in files;
      assert before == set i | 0 <= i < n && shots[i].filepath in files;
      if shots[n].filepath in files {
        assert after == before + {n};
      } else {
        assert after == before;
      }
    }
  }

  /** The archive holds the events member iff there are events, and that
      member decodes back to the listed events. */
  lemma PackageManifest(events: seq<EventRecord>, shots: seq<ShotRecord>, files: map<string, Bytes>,
                        stamp: string, unreadable: set<string>)
    requires Package(events, shots, files, stamp, unreadable).Some?
    ensures var archive := Package(events, shots, files, stamp, unreadable).value;
      (|events| > 0 <==> exists e :: e in archive && e.name == ManifestName(stamp)) &&
      forall e :: e in archive && e.name == ManifestName(stamp) ==> Decode(BytesText(e.data)) == Some(EventsJson(events))
  {
    var archive := Package(events, shots, files, stamp, unreadable).value;
    ShotEntriesExact(shots, files);
    forall e | e in ShotEntries(shots, files)
      ensures e.name != ManifestName(stamp)
    {
      var i :| EntryOf(shots, files, i, e);
      assert e.name[0] == 's' && ManifestName(stamp)[0] == 'e';
    }
    if |events| > 0 {
      assert archive[0] in archive;
    }
  }

  /** `upload_data` reports success iff there was something to send, every
      listed file that exists could be read, and the server answered
      exactly 200. */
  lemma UploadRule(events: seq<EventRecord>, shots: seq<ShotRecord>, files: map<string, Bytes>,
                   stamp: string, unreadable: set<string>, post: PostOutcome)
    ensures UploadSucceeds(events, shots, files, stamp, unreadable, post) <==>
      (|events| > 0 || |shots| > 0) &&
      (forall i :: 0 <= i < |shots| && shots[i].filepath in files ==> shots[i].filepath !in unreadable) &&
      post.Responded? && post.status == 200
  {
  }

  // ------------------------------------------------------------------
  // One cycle, on the tables

  /** A table after one cycle: the fetched batch flagged when the upload
      succeeded, then the retention sweep. */
  function AfterCycle<P>(rows: seq<Row<P>>, limit: nat, uploaded: bool, cutoff: int): seq<Row<P>>
  {
    Evict(Committed(rows, limit, uploaded), cutoff)
  }

  function Committed<P>(rows: seq<Row<P>>, limit: nat, uploaded: bool): seq<Row<P>>
  {
    if uploaded then Mark(rows, Ids(Unsynced(rows, limit))) else rows
  }

  /** Marking the fetched ids flags exactly the fetched rows (ids are
      unique in a table). */
  lemma MarkBatchExact<P>(rows: seq<Row<P>>, last: nat, limit: nat)
    requires TableOk(rows, last)
    ensures var marked := Mark(rows, Ids(Unsynced(rows, limit)));
      forall i :: 0 <= i < |rows| ==> (marked[i].synced <==> rows[i].synced || rows[i] in Unsynced(rows, limit))
  {
    var batch := Unsynced(rows, limit);
    var ids := Ids(batch);
    forall i | 0 <= i < |rows| && rows[i].id in ids
      ensures rows[i] in batch
    {
      var k :| 0 <= k < |batch| && ids[k] == rows[i].id;
      assert batch[k] in rows;
      var j :| 0 <= j < |rows| && rows[j] == batch[k];
      assert i == j;
    }
  }

  /** No record is lost: an unsynced row survives the cycle, still
      unsynced, unless it was in the batch and the upload succeeded. */
  lemma CycleKeepsUnsent<P>(rows: seq<Row<P>>, last: nat, limit: nat, uploaded: bool, cutoff: int, x: Row<P>)
    requires TableOk(rows, last)
    requires x in rows && !x.synced
    requires !(uploaded && x in Unsynced(rows, limit))
    ensures x in AfterCycle(rows, limit, uploaded, cutoff)
  {
    if uploaded {
      MarkBatchExact(rows, last, limit);
      var marked := Mark(rows, Ids(Unsynced(rows, limit)));
      var i :| 0 <= i < |rows| && rows[i] == x;
      assert marked[i] == x;
    }
  }

  /** On success, every fetched row is flagged and kept unless it is also
      past the retention window. */
  lemma CycleCommitsBatch<P>(rows: seq<Row<P>>, last: nat, limit: nat, cutoff: int, x: Row<P>)
    requires TableOk(rows, last)
    requires x in Unsynced(rows, limit)
    ensures x.timestamp >= cutoff ==> x.(synced := true) in AfterCycle(rows, limit, true, cutoff)
    ensures x !in AfterCycle(rows, limit, true, cutoff)
  {
    MarkBatchExact(rows, last, limit);
    var marked := Mark(rows, Ids(Unsynced(rows, limit)));
    var i :| 0 <= i < |rows| && rows[i] == x;
    assert marked[i] == x.(synced := true);
  }

  /** When the upload fails nothing is flagged: the next cycle fetches the
      same batch. */
  lemma FailedCycleRetries<P>(rows: seq<Row<P>>, limit: nat, cutoff: int)
    ensures Unsynced(AfterCycle(rows, limit, false, cutoff), limit) == Unsynced(rows, limit)
  {
    EvictKeepsBatch(rows, cutoff, limit);
  }

  /** A screenshot row whose file has vanished is flagged synced on a
      successful cycle although the archive carried nothing for it. */
  lemma MissingFileCommitted(rows: seq<Row<ShotPayload>>, last: nat, files: map<string, Bytes>, cutoff: int, x: Row<ShotPayload>)
    requires TableOk(rows, last)
    requires x in Unsynced(rows, ShotBatch) && x.payload.filepath !in files && x.timestamp >= cutoff
    ensures x.(synced := true) in AfterCycle(rows, ShotBatch, true, cutoff)
  {
    CycleCommitsBatch(rows, last, ShotBatch, cutoff, x);
  }

  // ------------------------------------------------------------------
  // The driver

  class NetworkSync {
    const storage: StorageManager
    const disk: LocalDisk
    /** `socket.gethostname()` */
    const computerId: string
    var running: bool

    constructor(storage: StorageManager, disk: LocalDisk, computerId: string)
      ensures this.storage == storage && this.disk == disk && this.computerId == computerId
      ensures !running
    {
      this.storage := storage;
      this.disk := disk;
      this.computerId := computerId;
      running := false;
    }

    /** `_create_zip_package`; `stamp` is the `%Y%m%d_%H%M%S` text of the
        clock, `unreadable` the existing files that cannot be read. */
    method CreateZipPackage(events: seq<EventRecord>, shots: seq<ShotRecord>, stamp: string, unreadable: set<string>)
      returns (archive: Option<Archive>)
      ensures archive == Package(events, shots, disk.files, stamp, unreadable)
    {
      var entries := Manifest(events, stamp);
      var i := 0;
      while i < |shots|
        invariant 0 <= i <= |shots|
        invariant entries == Manifest(events, stamp) + ShotEntries(shots[..i], disk.files)
        invariant forall k :: 0 <= k < i ==> !(shots[k].filepath in disk.files && shots[k].filepath in unreadable)
      {
        var filepath := shots[i].filepath;
        if filepath in disk.files {
          if filepath in unreadable {
            return None;
          }
          entries := entries + [ZipEntry(ShotEntryName(filepath), disk.files[filepath])];
        }
        assert shots[..i + 1][..i] == shots[..i];
        i := i + 1;
      }
      assert shots[..i] == shots;
      archive := Some(entries);
    }

    /** `upload_data` */
    method UploadData(events: seq<EventRecord>, shots: seq<ShotRecord>, stamp: string,
                      unreadable: set<string>, post: PostOutcome) returns (ok: bool)
      ensures ok == UploadSucceeds(events, shots, disk.files, stamp, unreadable, post)
    {
      if |events| == 0 && |shots| == 0 {
        return false;
      }
      var archive := CreateZipPackage(events, shots, stamp, unreadable);
      if archive.None? {
        return false;
      }
      ok := post == Responded(200);
    }

    /** One pass of `_sync_loop`'s body. `tempFails` says whether
        `tempfile.mkdtemp()` raises when `upload_data` asks for a
        temporary folder: that call sits outside every `try` of
        `_create_zip_package` and `upload_data`, so the exception ends the
        pass before the marking and before the local cleanup. */
    method SyncCycle(now: int, stamp: string, tempFails: bool, unreadable: set<string>, post: PostOutcome,
                     undeletable: set<string>) returns (uploaded: bool)
      requires storage.Valid()
      modifies storage, disk
      ensures storage.Valid()
      ensures forall r :: r in Unsynced(old(storage.events), EventBatch) ==> r.id in old(storage.logged)
      ensures var aborted := tempFails &&
        (|Unsynced(old(storage.events), EventBatch)| > 0 || |Unsynced(old(storage.screenshots), ShotBatch)| > 0);
        aborted ==> (!uploaded && storage.events == old(storage.events) &&
                     storage.screenshots == old(storage.screenshots) && disk.files == old(disk.files))
      ensures var cutoff := now - MaxLocalDays * Dates.SecondsPerDay;
        var eventBatch := Unsynced(old(storage.events), EventBatch);
        var shotBatch := Unsynced(old(storage.screenshots), ShotBatch);
        var aborted := tempFails && (|eventBatch| > 0 || |shotBatch| > 0);
        !aborted ==> (
          uploaded == UploadSucceeds(EventRecordsOf(eventBatch, old(storage.logged)), ShotRecordsOf(shotBatch),
                                     old(disk.files), stamp, unreadable, post) &&
          storage.events == AfterCycle(old(storage.events), EventBatch, uploaded, cutoff) &&
          storage.screenshots == AfterCycle(old(storage.screenshots), ShotBatch, uploaded, cutoff) &&
          disk.files == old(disk.files) -
            (set p | p in ExpiredPaths(Committed(old(storage.screenshots), ShotBatch, uploaded), cutoff) && p !in undeletable))
    {
      var events := storage.GetUnsyncedEvents(EventBatch);
      var shots := storage.GetUnsyncedScreenshots(ShotBatch);
      assert events == EventRecordsOf(Unsynced(storage.events, EventBatch), storage.logged);
      assert shots == ShotRecordsOf(Unsynced(storage.screenshots, ShotBatch));
      uploaded := false;
      if |events| > 0 || |shots| > 0 {
        if tempFails {
          return;
        }
        uploaded := UploadData(events, shots, stamp, unreadable, post);
        if uploaded {
          CommitFetched(events, shots);
        }
      }
      storage.CleanupOldData(now, disk, undeletable);
    }

    /** Lines 136-142 of the cycle: flag the ids of everything fetched. */
    method CommitFetched(events: seq<EventRecord>, shots: seq<ShotRecord>)
      requires storage.Valid()
      requires forall r :: r in Unsynced(storage.events, EventBatch) ==> r.id in storage.logged
      requires events == EventRecordsOf(Unsynced(storage.events, EventBatch), storage.logged)
      requires shots == ShotRecordsOf(Unsynced(storage.screenshots, ShotBatch))
      modifies storage
      ensures storage.Valid() && storage.logged == old(storage.logged)
      ensures storage.events == Committed(old(storage.events), EventBatch, true)
      ensures storage.screenshots == Committed(old(storage.screenshots), ShotBatch, true)
    {
      ghost var eventRows := Unsynced(storage.events, EventBatch);
      ghost var shotRows := Unsynced(storage.screenshots, ShotBatch);
      if |events| > 0 {
        var eventIds := seq(|events|, i requires 0 <= i < |events| => events[i].id);
        assert eventIds == Ids(eventRows);
        storage.MarkEventsSynced(eventIds);
      } else {
        MarkNothing(storage.events);
      }
      if |shots| > 0 {
        var shotIds := seq(|shots|, i requires 0 <= i < |shots| => shots[i].id);
        assert shotIds == Ids(shotRows);
        storage.MarkScreenshotsSynced(shotIds);
      } else {
        MarkNothing(storage.screenshots);
      }
    }

    /** `start`: a second call while running spawns nothing. */
    method Start() returns (spawned: bool)
      modifies this
      ensures running
      ensures spawned == !old(running)
    {
      if running {
        return false;
      }
      running := true;
      spawned := true;
    }
  }
}
