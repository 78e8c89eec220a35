/** The cloud sync driver (`src/firebase_sync.py`): events go up as one
    JSON file per cycle and are flagged synced only if that upload
    succeeds; screenshots go up one by one and only those that uploaded
    are flagged. The storage bucket is a map from remote key to bytes; a
    remote key in `rejected` is one whose upload raises. */
module FirebaseSync {
  import opened Common
  import opened Json
  import opened LocalStore

  /** The remote bucket. */
  class Bucket {
    var blobs: map<string, Bytes>

    constructor(blobs: map<string, Bytes>)
      ensures this.blobs == blobs
    {
      this.blobs := blobs;
    }
  }

  function EventsFileName(stamp: string): string
  {
    "events_" + stamp + ".json"
  }

  /** `os.path.join(Config.EVENTS_FOLDER, filename)`, with the Windows
      separator. */
  function EventsFilePath(folder: string, stamp: string): string
  {
    folder + "\\" + EventsFileName(stamp)
  }

  function EventsKey(stamp: string): string
  {
    "events/" + EventsFileName(stamp)
  }

  function ShotKey(filepath: string): string
  {
    "screenshots/" + Basename(filepath)
  }

  /** A screenshot saved as `os.path.join(folder, filename)` is stored
      under `screenshots/<filename>`, whatever the folder. */
  lemma ShotKeyOfSavedPath(folder: string, filename: string)
    requires forall c :: c in filename ==> !IsSep(c)
    ensures ShotKey(folder + "\\" + filename) == "screenshots/" + filename
  {
    BasenameOfJoin(folder, '\\', filename);
  }

  /** The upload of this screenshot succeeds: its file exists and the
      bucket accepts its key. */
  predicate Uploaded(shot: ShotRecord, files: map<string, Bytes>, rejected: set<string>)
  {
    shot.filepath in files && ShotKey(shot.filepath) !in rejected
  }

  /** `synced_ids` after the loop of `upload_screenshots`. */
  function UploadedIds(shots: seq<ShotRecord>, files: map<string, Bytes>, rejected: set<string>): (ids: seq<nat>)
    ensures forall id :: id in ids <==> exists k :: 0 <= k < |shots| && shots[k].id == id && Uploaded(shots[k], files, rejected)
  {
    if |shots| == 0 then []
    else
      var n := |shots| - 1;
      var init := UploadedIds(shots[..n], files, rejected);
      assert forall k :: 0 <= k < n ==> shots[..n][k] == shots[k];
      init + (if Uploaded(shots[n], files, rejected) then [shots[n].id] else [])
  }

  /** The bucket after the loop: each successful upload overwrites its key. */
  function BlobsAfter(blobs: map<string, Bytes>, shots: seq<ShotRecord>, files: map<string, Bytes>, rejected: set<string>): map<string, Bytes>
  {
    if |shots| == 0 then blobs
    else
      var n := |shots| - 1;
      var before := BlobsAfter(blobs, shots[..n], files, rejected);
      if Uploaded(shots[n], files, rejected) then before[ShotKey(shots[n].filepath) := files[shots[n].filepath]] else before
  }

  // ------------------------------------------------------------------
  // Properties

  /** Only `screenshots/<basename>` keys of uploaded screenshots are
      written, each holding the bytes of one such file, and every
      uploaded screenshot's key is present. */
  lemma {:induction false} BlobsAfterExact(blobs: map<string, Bytes>, shots: seq<ShotRecord>, files: map<string, Bytes>, rejected: set<string>)
    ensures var after := BlobsAfter(blobs, shots, files, rejected);
      (forall key :: key in after && (key !in blobs || after[key] != blobs[key]) ==>
        exists k :: 0 <= k < |shots| && Uploaded(shots[k], files, rejected) &&
          key == ShotKey(shots[k].filepath) && after[key] == files[shots[k].filepath]) &&
      (forall k :: 0 <= k < |shots| && Uploaded(shots[k], files, rejected) ==> ShotKey(shots[k].filepath) in after) &&
      blobs.Keys <= after.Keys
  {
    if |shots| > 0 {
      var n := |shots| - 1;
      BlobsAfterExact(blobs, shots[..n], files, rejected);
      assert forall k :: 0 <= k < n ==> shots[..n][k] == shots[k];
    }
  }

  /** `upload_screenshots` flags exactly the fetched rows whose upload
      succeeded; a missing or rejected file stays unsynced. */
  lemma ScreenshotCommitExact(rows: seq<Row<ShotPayload>>, last: nat, files: map<string, Bytes>, rejected: set<string>)
    requires TableOk(rows, last)
    ensures var batch := Unsynced(rows, ShotBatch);
      var marked := Mark(rows, UploadedIds(ShotRecordsOf(batch), files, rejected));
      forall i :: 0 <= i < |rows| ==>
        (marked[i].synced <==> rows[i].synced || (rows[i] in batch && Uploaded(ShotRecordOf(rows[i]), files, rejected)))
  {
    var batch := Unsynced(rows, ShotBatch);
    var shots := ShotRecordsOf(batch);
    var ids := UploadedIds(shots, files, rejected);
    forall i | 0 <= i < |rows| && rows[i].id in ids
      ensures rows[i] in batch && Uploaded(ShotRecordOf(rows[i]), files, rejected)
    {
      var k :| 0 <= k < |shots| && shots[k].id == rows[i].id && Uploaded(shots[k], files, rejected);
      assert batch[k] in rows;
      var j :| 0 <= j < |rows| && rows[j] == batch[k];
      assert i == j;
    }
    forall i | 0 <= i < |rows| && rows[i] in batch && Uploaded(ShotRecordOf(rows[i]), files, rejected)
      ensures rows[i].id in ids
    {
      var k :| 0 <= k < |batch| && batch[k] == rows[i];
      assert shots[k] == ShotRecordOf(rows[i]);
    }
  }

  // ------------------------------------------------------------------
  // The driver

  class FirebaseSync {
    const storage: StorageManager
    const disk: LocalDisk
    /** `Config.EVENTS_FOLDER` */
    const eventsFolder: string
    var bucket: Bucket?
    var initialized: bool
    var running: bool

    /** `__init__`: `connected` is the bucket `_initialize_firebase`
        obtained, or null when the SDK is missing, there are no
        credentials, or initialisation raised. */
    constructor(storage: StorageManager, disk: LocalDisk, eventsFolder: string, connected: Bucket?)
      ensures this.storage == storage && this.disk == disk && this.eventsFolder == eventsFolder
      ensures bucket == connected && initialized == (connected != null) && !running
    {
      this.storage := storage;
      this.disk := disk;
      this.eventsFolder := eventsFolder;
      bucket := connected;
      initialized := connected != null;
      running := false;
    }

    /** `upload_file` */
    method UploadFile(localPath: string, remotePath: string, rejected: set<string>) returns (ok: bool)
      modifies bucket
      ensures ok <==> initialized && bucket != null && localPath in disk.files && remotePath !in rejected
      ensures bucket != null ==>
        bucket.blobs == if ok then old(bucket.blobs)[remotePath := disk.files[localPath]] else old(bucket.blobs)
    {
      if !initialized || bucket == null {
        return false;
      }
      if localPath !in disk.files || remotePath in rejected {
        return false;
      }
      bucket.blobs := bucket.blobs[remotePath := disk.files[localPath]];
      ok := true;
    }

    /** `upload_events`: the batch is written to a local JSON file and that
        file uploaded; on success the ids are flagged and the file removed
        (`removeFails`: the removal raised, which is ignored). */
    method UploadEvents(stamp: string, rejected: set<string>, removeFails: bool)
      requires storage.Valid()
      modifies storage, disk, bucket
      ensures storage.Valid() && storage.logged == old(storage.logged)
      ensures storage.screenshots == old(storage.screenshots)
      ensures var batch := Unsynced(old(storage.events), EventBatch);
        var path := EventsFilePath(eventsFolder, stamp);
        (forall r :: r in batch ==> r.id in old(storage.logged)) &&
        if !initialized || |batch| == 0 then
          storage.events == old(storage.events) && disk.files == old(disk.files) &&
          (bucket != null ==> bucket.blobs == old(bucket.blobs))
        else
          var data := EncodeBytes(EventsJson(EventRecordsOf(batch, old(storage.logged))));
          var sent := bucket != null && EventsKey(stamp) !in rejected;
          storage.events == (if sent then Mark(old(storage.events), Ids(batch)) else old(storage.events)) &&
          disk.files == (if sent && !removeFails then old(disk.files) - {path} else old(disk.files)[path := data]) &&
          (bucket != null ==> bucket.blobs == if sent then old(bucket.blobs)[EventsKey(stamp) := data] else old(bucket.blobs))
    {
      if !initialized {
        return;
      }
      var events := storage.GetUnsyncedEvents(EventBatch);
      ghost var batch := Unsynced(storage.events, EventBatch);
      assert events == EventRecordsOf(batch, storage.logged);
      if |events| == 0 {
        return;
      }
      var localPath := EventsFilePath(eventsFolder, stamp);
      var data := EncodeBytes(EventsJson(events));
      assert data == EncodeBytes(EventsJson(EventRecordsOf(batch, old(storage.logged))));
      disk.files := disk.files[localPath := data];
      ghost var written := disk.files;
      var ok := UploadFile(localPath, EventsKey(stamp), rejected);
      assert ok <==> bucket != null && EventsKey(stamp) !in rejected;
      assert storage.events == old(storage.events);
      if ok {
        var eventIds := seq(|events|, i requires 0 <= i < |events| => events[i].id);
        assert eventIds == Ids(batch);
        storage.MarkEventsSynced(eventIds);
        assert disk.files == written;
        if !removeFails {
          assert written - {localPath} == old(disk.files) - {localPath};
          disk.files := disk.files - {localPath};
        }
      }
    }

    /** `upload_screenshots` */
    method UploadScreenshots(rejected: set<string>)
      requires storage.Valid()
      modifies storage, bucket
      ensures storage.Valid() && storage.logged == old(storage.logged)
      ensures storage.events == old(storage.events)
      ensures var shots := ShotRecordsOf(Unsynced(old(storage.screenshots), ShotBatch));
        if initialized && bucket != null then
          storage.screenshots == Mark(old(storage.screenshots), UploadedIds(shots, disk.files, rejected)) &&
          bucket.blobs == BlobsAfter(old(bucket.blobs), shots, disk.files, rejected)
        else
          storage.screenshots == old(storage.screenshots) && (bucket != null ==> bucket.blobs == old(bucket.blobs))
    {
      if !initialized {
        return;
      }
      var shots := storage.GetUnsyncedScreenshots(ShotBatch);
      assert shots == ShotRecordsOf(Unsynced(storage.screenshots, ShotBatch));
      var syncedIds := UploadEach(shots, rejected);
      if |syncedIds| > 0 {
        storage.MarkScreenshotsSynced(syncedIds);
      } else {
        MarkNothing(storage.screenshots);
      }
    }

    /** The loop of `upload_screenshots`: files that exist are uploaded in
        turn and the ids of those that went up collected. */
    method UploadEach(shots: seq<ShotRecord>, rejected: set<string>) returns (syncedIds: seq<nat>)
      requires initialized
      modifies bucket
      ensures bucket != null ==> syncedIds == UploadedIds(shots, disk.files, rejected)
      ensures bucket != null ==> bucket.blobs == BlobsAfter(old(bucket.blobs), shots, disk.files, rejected)
      ensures bucket == null ==> syncedIds == []
    {
      syncedIds := [];
      var i := 0;
      while i < |shots|
        invariant 0 <= i <= |shots|
        invariant bucket != null ==> syncedIds == UploadedIds(shots[..i], disk.files, rejected)
        invariant bucket != null ==> bucket.blobs == BlobsAfter(old(bucket.blobs), shots[..i], disk.files, rejected)
        invariant bucket == null ==> syncedIds == []
      {
        assert shots[..i + 1][..i] == shots[..i];
        var filepath := shots[i].filepath;
        if filepath in disk.files {
          var ok := UploadFile(filepath, ShotKey(filepath), rejected);
          if ok {
            syncedIds := syncedIds + [shots[i].id];
          }
        }
        i := i + 1;
      }
      assert shots[..i] == shots;
    }

    /** `start`: a second call while running spawns nothing. */
    method Start() returns (spawned: bool)
      modifies this
      ensures running && spawned == !old(running)
      ensures bucket == old(bucket) && initialized == old(initialized)
    {
      if running {
        return false;
      }
      running := true;
      spawned := true;
    }
  }
}
