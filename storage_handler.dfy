/** `StorageHandler` (`server/storage_handler.py`): the server's storage
    root, updated in place by uploads and by the retention sweep. */
module StorageHandling {
  import opened Common
  import opened Paths
  import opened Dates
  import opened ServerTree
  import opened Extraction
  import opened Retention
  import opened Inventory

  class StorageHandler {
    /** Everything under `ServerConfig.STORAGE_ROOT`. */
    var fs: Tree

    /** `__init__`: the storage root exists (`ensure_directories`). */
    constructor(fs: Tree)
      ensures this.fs == fs
    {
      this.fs := fs;
    }

    /** `save_upload`: `today` is the server's current date. */
    method SaveUpload(upload: Upload, computerId: string, today: Date) returns (ok: bool)
      requires Valid(today)
      modifies this
      ensures Outcome(ok, fs) == Extraction.SaveUpload(old(fs), upload, computerId, today)
    {
      var df := DateFolder(computerId, today);
      var made := MakeDirs(fs, df);
      if made.None? {
        return false;
      }
      fs := made.value;
      if upload.NotAZip? {
        return false;
      }
      var entries := upload.entries;
      var names := Names(entries);
      ghost var start := fs;
      var i := 0;
      while i < |names|
        invariant 0 <= i <= |names|
        invariant Run(start, df, names, entries) == Run(fs, df, names[i..], entries)
      {
        var name := names[i];
        assert names[i..][0] == name && names[i..][1..] == names[i + 1..];
        if !Skipped(name) {
          var dirs := MakeDirs(fs, Parent(df, name));
          if dirs.None? {
            return false;
          }
          fs := dirs.value;
          var target := Target(df, name);
          if target in fs && fs[target].Dir? {
            return false;
          }
          fs := fs[target := File(LastData(entries, name))];
        }
        i := i + 1;
      }
      return true;
    }

    /** `cleanup_old_data`: `now` is the server's current time. The root's
        and each computer folder's entries are visited in any order. */
    method CleanupOldData(now: int)
      modifies this
      ensures fs == Sweep(old(fs), Cutoff(now))
    {
      var cutoff := Cutoff(now);
      ghost var start := fs;
      var computers := set q | q in fs && |q| == 1 :: q[0];
      ghost var done: set<string> := {};
      PartialStart(start, cutoff);
      while computers != {}
        invariant fs == Partial(start, cutoff, done, "", {})
        invariant computers !! done
        invariant forall q :: q in start && |q| == 1 ==> q[0] in done || q[0] in computers
        decreases |computers|
      {
        var c :| c in computers;
        computers := computers - {c};
        if [c] in fs && fs[[c]].Dir? {
          PartialEnter(start, cutoff, done, c);
          var dates := set q | q in fs && |q| == 2 && q[0] == c :: q[1];
          ghost var doneD: set<string> := {};
          while dates != {}
            invariant fs == Partial(start, cutoff, done, c, doneD)
            invariant dates !! doneD
            invariant forall q :: q in start && |q| == 2 && q[0] == c ==> q[1] in doneD || q[1] in dates
            decreases |dates|
          {
            var d :| d in dates;
            dates := dates - {d};
            if [c, d] in fs && fs[[c, d]].Dir? {
              var parsed := Parse(d);
              if parsed.Some? && Midnight(parsed.value) < cutoff {
                PartialRemove(start, cutoff, done, c, doneD, d);
                fs := RemoveTree(fs, [c, d]);
              } else {
                PartialPass(start, cutoff, done, c, doneD, d);
              }
            } else {
              PartialPass(start, cutoff, done, c, doneD, d);
            }
            doneD := doneD + {d};
          }
          PartialFinish(start, cutoff, done, c, doneD);
          if !exists q :: q in fs && |q| == 2 && q[0] == c {
            fs := fs - {[c]};
          }
        } else {
          PartialSkip(start, cutoff, done, c);
        }
        done := done + {c};
      }
      PartialDone(start, cutoff, done);
    }

    /** The per-computer part of `get_statistics`: every entry below the
        computer folder is visited, and the regular files counted and
        weighed. */
    method UsageOf(c: string) returns (usage: Usage)
      ensures usage == UsageAt(fs, c)
    {
      var items := set q | q in fs && |q| >= 2 && q[0] == c;
      var fileCount := 0;
      var totalSize := 0;
      assert FilesIn(items) == FilesOf(fs, c);
      while items != {}
        invariant items <= fs.Keys
        invariant fileCount + |FilesIn(items)| == |FilesOf(fs, c)|
        invariant totalSize + TotalSize(fs, FilesIn(items)) == TotalSize(fs, FilesOf(fs, c))
        decreases |items|
      {
        var item :| item in items;
        if fs[item].File? {
          TotalSizeRemove(fs, FilesIn(items), item);
          assert FilesIn(items - {item}) == FilesIn(items) - {item};
          fileCount := fileCount + 1;
          totalSize := totalSize + |fs[item].data|;
        } else {
          assert FilesIn(items - {item}) == FilesIn(items);
        }
        items := items - {item};
      }
      usage := Usage(fileCount, totalSize);
    }

    /** The regular files among `items`. */
    ghost function FilesIn(items: set<Path>): set<Path>
      reads this
    {
      set q | q in items && q in fs && fs[q].File?
    }

    /** `get_statistics` without the rounding to megabytes. */
    method GetStatistics() returns (stats: Stats)
      ensures stats == Statistics(fs)
    {
      var entries := RootNames(fs);
      var total := 0;
      var computers: map<string, Usage> := map[];
      ghost var seen: set<string> := {};
      while entries != {}
        invariant entries !! seen
        invariant forall c :: c in RootNames(fs) ==> c in entries || c in seen
        invariant Gathered(fs, seen, total, computers)
        decreases |entries|
      {
        var c :| c in entries;
        entries := entries - {c};
        if [c] in fs && fs[[c]].Dir? {
          var usage := UsageOf(c);
          GatheredAdd(fs, seen, total, computers, c, usage);
          computers := computers[c := usage];
          total := total + 1;
        } else {
          GatheredSkip(fs, seen, total, computers, c);
        }
        seen := seen + {c};
      }
      StatisticsOf(fs, seen, total, computers);
      stats := Stats(total, computers);
    }
  }
}
