/** Where `StorageHandler.save_upload` puts an uploaded archive: the
    per-computer and per-day folders, the member filter, and the
    extraction pass, each as a function on the storage tree. */
module Extraction {
  import opened Common
  import opened Paths
  import opened Dates
  import opened ServerTree

  /** `_get_computer_folder`, relative to the storage root: an id without
      a single safe character maps to the root itself. */
  function ComputerFolder(computerId: string): (p: Path)
    ensures |p| <= 1 && SegPath(p)
    ensures p == [] <==> SafeId(computerId) == ""
  {
    if SafeId(computerId) == "" then []
    else
      SafeIdIsSegment(computerId);
      [SafeId(computerId)]
  }

  /** `_get_date_folder`: the computer folder plus today's `%Y-%m-%d`. */
  function DateFolder(computerId: string, today: Date): (df: Path)
    requires Valid(today)
    ensures 1 <= |df| <= 2 && SegPath(df)
    ensures df[..|df| - 1] == ComputerFolder(computerId) && df[|df| - 1] == Format(today)
  {
    FormatIsSegment(today);
    ComputerFolder(computerId) + [Format(today)]
  }

  /** What the server got: an archive, or bytes `zipfile` rejects. */
  datatype Upload = Zip(entries: Archive) | NotAZip

  /** `zip_ref.namelist()`: every entry's name, duplicates included. */
  function Names(entries: Archive): (names: seq<string>)
    ensures |names| == |entries|
    ensures forall i :: 0 <= i < |entries| ==> names[i] == entries[i].name
  {
    seq(|entries|, i requires 0 <= i < |entries| => entries[i].name)
  }

  /** `zip_ref.open(name)` reads the last entry of that name. */
  function LastData(entries: Archive, name: string): (data: Bytes)
    ensures (exists i :: 0 <= i < |entries| && entries[i].name == name) ==>
      exists i :: 0 <= i < |entries| && entries[i] == ZipEntry(name, data) &&
        forall j :: i < j < |entries| ==> entries[j].name != name
  {
    if |entries| == 0 then []
    else
      var n := |entries| - 1;
      if entries[n].name == name then entries[n].data
      else
        assert forall i :: 0 <= i < n ==> entries[..n][i] == entries[i];
        LastData(entries[..n], name)
  }

  /** `os.path.join(date_folder, os.path.normpath(member))` */
  function Target(df: Path, name: string): Path
  {
    df + NormComps(name)
  }

  /** `os.path.dirname` of the target; a member that normalizes to `.`
      targets the date folder itself. */
  function Parent(df: Path, name: string): Path
  {
    if |NormComps(name)| == 0 then df else df + NormComps(name)[..|NormComps(name)| - 1]
  }

  /** Whether the pass is still going, and the tree so far. */
  datatype Outcome = Outcome(ok: bool, fs: Tree)

  /** One member: skipped, or its folders made and its bytes written.
      `os.makedirs` fails on a file in the way; `open(target, 'wb')`
      fails on a folder and otherwise creates or overwrites. */
  function Step(fs: Tree, df: Path, name: string, data: Bytes): Outcome
  {
    if Skipped(name) then Outcome(true, fs)
    else
      match MakeDirs(fs, Parent(df, name))
      case None => Outcome(false, fs)
      case Some(made) =>
        var t := Target(df, name);
        if t in made && made[t].Dir? then Outcome(false, made)
        else Outcome(true, made[t := File(data)])
  }

  /** The member loop: the first exception ends it, keeping what was
      written so far. */
  function Run(fs: Tree, df: Path, names: seq<string>, entries: Archive): Outcome
    decreases |names|
  {
    if |names| == 0 then Outcome(true, fs)
    else
      var o := Step(fs, df, names[0], LastData(entries, names[0]));
      if !o.ok then o else Run(o.fs, df, names[1..], entries)
  }

  /** `save_upload`: the date folder is made before the archive is
      opened, so an unreadable archive still leaves the folders behind. */
  function SaveUpload(fs: Tree, upload: Upload, computerId: string, today: Date): Outcome
    requires Valid(today)
  {
    var df := DateFolder(computerId, today);
    match MakeDirs(fs, df)
    case None => Outcome(false, fs)
    case Some(made) =>
      match upload
      case NotAZip => Outcome(false, made)
      case Zip(entries) => Run(made, df, Names(entries), entries)
  }

  // ------------------------------------------------------------------
  // The member filter

  /** The names the loop does not skip, in order. */
  function KeptNames(names: seq<string>): (kept: seq<string>)
    ensures forall n :: n in kept <==> n in names && !Skipped(n)
    decreases |names|
  {
    if |names| == 0 then []
    else (if Skipped(names[0]) then [] else [names[0]]) + KeptNames(names[1..])
  }

  /** Skipping a member neither fails the upload nor stops the rest: the
      pass over all members is the pass over the kept ones. */
  lemma {:induction false} RunIgnoresSkipped(fs: Tree, df: Path, names: seq<string>, entries: Archive)
    ensures Run(fs, df, names, entries) == Run(fs, df, KeptNames(names), entries)
    decreases |names|
  {
    if |names| > 0 {
      var rest := names[1..];
      var kept := KeptNames(names);
      if Skipped(names[0]) {
        assert kept == KeptNames(rest);
        assert Run(fs, df, names, entries) == Run(fs, df, rest, entries);
        RunIgnoresSkipped(fs, df, rest, entries);
      } else {
        assert kept == [names[0]] + KeptNames(rest);
        assert kept[0] == names[0] && kept[1..] == KeptNames(rest);
        var o := Step(fs, df, names[0], LastData(entries, names[0]));
        if o.ok {
          RunIgnoresSkipped(o.fs, df, rest, entries);
        }
      }
    }
  }

  /** A kept member names a path strictly inside the date folder, every
      component of which is a plain segment. */
  lemma KeptTarget(df: Path, name: string)
    requires SegPath(df) && !Skipped(name) && NormComps(name) != []
    ensures var t := Target(df, name);
      |t| > |df| && t[..|df|] == df && SegPath(t) && Parent(df, name) == t[..|t| - 1]
  {
    KeptComps(name);
  }

  /** A member that normalizes to `.` names the date folder itself, which
      cannot be opened as a file: the upload fails. */
  lemma DotMemberFails(fs: Tree, df: Path, name: string, data: Bytes)
    requires |df| >= 1 && !Skipped(name) && NormPath(name) == "."
    ensures !Step(fs, df, name, data).ok
  {
    KeptComps(name);
    DotIffNoComps(name);
    assert Target(df, name) == df && Parent(df, name) == df;
    var made := MakeDirs(fs, df);
    if made.Some? {
      assert df[..|df|] == df;
      assert df in made.value && made.value[df].Dir?;
    }
  }

  // ------------------------------------------------------------------
  // What a pass may change

  /** Some kept member of `names` writes `q`. */
  ghost predicate Writes(df: Path, names: seq<string>, q: Path)
  {
    exists i :: 0 <= i < |names| && !Skipped(names[i]) && q == Target(df, names[i])
  }

  /** Some kept member of `names` writes `q` or makes it as a folder. */
  ghost predicate Touches(df: Path, names: seq<string>, q: Path)
  {
    exists i :: 0 <= i < |names| && !Skipped(names[i]) &&
      (q == Target(df, names[i]) || q in Prefixes(Parent(df, names[i])))
  }

  /** One member: nothing is removed, a folder stays a folder and a file
      stays a file; only the member's target can change, and only its
      target and folders can appear. */
  lemma StepFrame(fs: Tree, df: Path, name: string, data: Bytes)
    ensures var o := Step(fs, df, name, data);
      (forall q :: q in fs ==> q in o.fs && (o.fs[q].Dir? <==> fs[q].Dir?)) &&
      (forall q :: q in fs && o.fs[q] != fs[q] ==> !Skipped(name) && q == Target(df, name)) &&
      (forall q :: q in o.fs && q !in fs ==>
        !Skipped(name) && (q == Target(df, name) || q in Prefixes(Parent(df, name))))
  {
  }

  /** The same for the whole pass: an existing entry changes only where a
      member is written, and a new entry appears only where a member is
      written or a folder made. */
  lemma {:induction false} RunFrame(fs: Tree, df: Path, names: seq<string>, entries: Archive)
    ensures var after := Run(fs, df, names, entries).fs;
      (forall q :: q in fs ==> q in after && (after[q].Dir? <==> fs[q].Dir?)) &&
      (forall q :: q in fs && after[q] != fs[q] ==> Writes(df, names, q)) &&
      (forall q :: q in after && q !in fs ==> Touches(df, names, q))
    decreases |names|
  {
    if |names| > 0 {
      var name := names[0];
      var rest := names[1..];
      var o := Step(fs, df, name, LastData(entries, name));
      StepFrame(fs, df, name, LastData(entries, name));
      if !o.ok {
        assert Run(fs, df, names, entries) == o;
      } else {
        assert Run(fs, df, names, entries) == Run(o.fs, df, rest, entries);
        RunFrame(o.fs, df, rest, entries);
        var after := Run(o.fs, df, rest, entries).fs;
        forall q | q in fs && after[q] != fs[q]
          ensures Writes(df, names, q)
        {
          if after[q] != o.fs[q] {
            var i :| 0 <= i < |rest| && !Skipped(rest[i]) && q == Target(df, rest[i]);
            assert rest[i] == names[i + 1];
          }
        }
        forall q | q in after && q !in fs
          ensures Touches(df, names, q)
        {
          if q !in o.fs {
            var i :| 0 <= i < |rest| && !Skipped(rest[i]) &&
              (q == Target(df, rest[i]) || q in Prefixes(Parent(df, rest[i])));
            assert rest[i] == names[i + 1];
          }
        }
      }
    }
  }

  /** Under the date folder: strictly below it. */
  predicate Under(q: Path, df: Path)
  {
    |q| > |df| && q[..|df|] == df
  }

  /** What a kept member writes or makes is either one of the existing
      folders on the way to the date folder, or strictly under it and
      made of plain segments. */
  lemma TouchedUnder(fs: Tree, df: Path, name: string, q: Path)
    requires |df| >= 1 && SegPath(df) && AllDirs(fs, df) && !Skipped(name)
    requires q == Target(df, name) || q in Prefixes(Parent(df, name))
    ensures (q in fs && fs[q].Dir?) || (Under(q, df) && SegPath(q))
  {
    var comps := NormComps(name);
    if comps == [] {
      assert Target(df, name) == df && Parent(df, name) == df;
      assert df[..|df|] == df;
      assert q == df[..|q|];
      assert 1 <= |q| <= |df|;
    } else {
      KeptTarget(df, name);
      PrefixUnder(fs, df, Target(df, name), q);
    }
  }

  lemma PrefixUnder(fs: Tree, df: Path, t: Path, q: Path)
    requires AllDirs(fs, df) && |t| > |df| && t[..|df|] == df && SegPath(t)
    requires 1 <= |q| <= |t| && q == t[..|q|]
    ensures (q in fs && fs[q].Dir?) || (Under(q, df) && SegPath(q))
  {
    if |q| <= |df| {
      assert q == df[..|q|];
    } else {
      assert q[..|df|] == t[..|df|];
      assert forall k :: 0 <= k < |q| ==> q[k] == t[k];
    }
  }

  /** Path confinement: once the date folder exists, whatever the members
      are called and whether or not the pass fails, every entry it
      creates or changes lies strictly under the date folder and is made
      of plain segments only, and nothing is removed. */
  lemma RunConfined(fs: Tree, df: Path, names: seq<string>, entries: Archive)
    requires |df| >= 1 && SegPath(df) && AllDirs(fs, df)
    ensures var after := Run(fs, df, names, entries).fs;
      fs.Keys <= after.Keys &&
      forall q :: q in after && (q !in fs || after[q] != fs[q]) ==> Under(q, df) && SegPath(q)
  {
    var after := Run(fs, df, names, entries).fs;
    RunFrame(fs, df, names, entries);
    forall q | q in after && (q !in fs || after[q] != fs[q])
      ensures Under(q, df) && SegPath(q)
    {
      var i :| 0 <= i < |names| && !Skipped(names[i]) &&
        (q == Target(df, names[i]) || q in Prefixes(Parent(df, names[i])));
      TouchedUnder(fs, df, names[i], q);
    }
  }

  /** The same for a whole upload: besides the entries under the date
      folder, only the computer and date folders themselves can appear,
      and only as folders. */
  lemma SaveUploadConfined(fs: Tree, upload: Upload, computerId: string, today: Date)
    requires Valid(today)
    ensures var df := DateFolder(computerId, today);
      var after := SaveUpload(fs, upload, computerId, today).fs;
      fs.Keys <= after.Keys &&
      forall q :: q in after && (q !in fs || after[q] != fs[q]) ==>
        (Under(q, df) && SegPath(q)) || (q in Prefixes(df) && q !in fs && after[q] == Dir)
  {
    var df := DateFolder(computerId, today);
    var made := MakeDirs(fs, df);
    if made.Some? && upload.Zip? {
      var entries := upload.entries;
      RunConfined(made.value, df, Names(entries), entries);
    }
  }

  // ------------------------------------------------------------------
  // Re-extraction

  /** Every kept member already has its folders and a target that is not
      a folder. */
  ghost predicate Settled(g: Tree, df: Path, names: seq<string>)
  {
    forall i :: 0 <= i < |names| && !Skipped(names[i]) ==>
      NormComps(names[i]) != [] && AllDirs(g, Parent(df, names[i])) &&
      !(Target(df, names[i]) in g && g[Target(df, names[i])].Dir?)
  }

  /** The writes alone, in order, with no folder made and nothing failing. */
  function Write(g: Tree, df: Path, name: string, entries: Archive): Tree
  {
    if Skipped(name) then g else g[Target(df, name) := File(LastData(entries, name))]
  }

  function Over(g: Tree, df: Path, names: seq<string>, entries: Archive): Tree
    decreases |names|
  {
    if |names| == 0 then g else Over(Write(g, df, names[0], entries), df, names[1..], entries)
  }

  /** The bytes the last kept member writing `q` puts there, if any does. */
  function LastWrite(df: Path, names: seq<string>, entries: Archive, q: Path): Option<Bytes>
    decreases |names|
  {
    if |names| == 0 then None
    else
      var later := LastWrite(df, names[1..], entries, q);
      if later.Some? then later
      else if !Skipped(names[0]) && Target(df, names[0]) == q then Some(LastData(entries, names[0]))
      else None
  }

  lemma {:induction false} LastWriteSome(df: Path, names: seq<string>, entries: Archive, q: Path)
    ensures LastWrite(df, names, entries, q).Some? <==> Writes(df, names, q)
    decreases |names|
  {
    if |names| > 0 {
      LastWriteSome(df, names[1..], entries, q);
      if Writes(df, names[1..], q) {
        var i :| 0 <= i < |names[1..]| && !Skipped(names[1..][i]) && q == Target(df, names[1..][i]);
        assert names[1..][i] == names[i + 1];
      }
      if Writes(df, names, q) {
        var i :| 0 <= i < |names| && !Skipped(names[i]) && q == Target(df, names[i]);
        if i > 0 {
          assert names[1..][i - 1] == names[i];
        }
      }
    }
  }

  /** Replaying the writes leaves the last write to each target. */
  lemma {:induction false} OverValue(g: Tree, df: Path, names: seq<string>, entries: Archive)
    ensures var h := Over(g, df, names, entries);
      (forall q :: q in h <==> q in g || LastWrite(df, names, entries, q).Some?) &&
      (forall q :: q in h ==> h[q] == match LastWrite(df, names, entries, q)
                                     case Some(data) => File(data)
                                     case None => g[q])
    decreases |names|
  {
    if |names| > 0 {
      OverValue(Write(g, df, names[0], entries), df, names[1..], entries);
    }
  }

  /** A pass that succeeds leaves every target holding the bytes of the
      last member written there. */
  lemma {:induction false} RunValue(fs: Tree, df: Path, names: seq<string>, entries: Archive)
    requires |df| >= 1 && Run(fs, df, names, entries).ok
    ensures var after := Run(fs, df, names, entries).fs;
      forall q :: LastWrite(df, names, entries, q).Some? ==>
        q in after && after[q] == File(LastWrite(df, names, entries, q).value)
    decreases |names|
  {
    if |names| > 0 {
      var name := names[0];
      var rest := names[1..];
      var data := LastData(entries, name);
      var o := Step(fs, df, name, data);
      assert o.ok;
      assert Run(fs, df, names, entries) == Run(o.fs, df, rest, entries);
      RunValue(o.fs, df, rest, entries);
      RunFrame(o.fs, df, rest, entries);
      var after := Run(o.fs, df, rest, entries).fs;
      forall q | LastWrite(df, names, entries, q).Some?
        ensures q in after && after[q] == File(LastWrite(df, names, entries, q).value)
      {
        if LastWrite(df, rest, entries, q).None? {
          LastWriteSome(df, rest, entries, q);
          assert !Skipped(name) && Target(df, name) == q;
          StepWrites(fs, df, name, data);
        }
      }
    }
  }

  /** A kept member that went through has its folders, and its target
      holds its bytes. */
  lemma StepWrites(fs: Tree, df: Path, name: string, data: Bytes)
    requires |df| >= 1 && !Skipped(name) && Step(fs, df, name, data).ok
    ensures var o := Step(fs, df, name, data);
      NormComps(name) != [] && AllDirs(o.fs, Parent(df, name)) &&
      Target(df, name) in o.fs && o.fs[Target(df, name)] == File(data)
  {
    var made := MakeDirs(fs, Parent(df, name)).value;
    var t := Target(df, name);
    var p := Parent(df, name);
    assert p[..|p|] == p;
    assert t != p;
    var o := Step(fs, df, name, data);
    assert o.fs == made[t := File(data)];
    forall k | 1 <= k <= |p|
      ensures p[..k] in o.fs && o.fs[p[..k]].Dir?
    {
      assert p[..k] in made && made[p[..k]].Dir?;
      assert |p[..k]| < |t|;
    }
  }

  /** From a settled tree the pass cannot fail and only writes. */
  lemma {:induction false} SettledRun(g: Tree, df: Path, names: seq<string>, entries: Archive)
    requires Settled(g, df, names)
    ensures Run(g, df, names, entries) == Outcome(true, Over(g, df, names, entries))
    decreases |names|
  {
    if |names| > 0 {
      var name := names[0];
      var g1 := Write(g, df, name, entries);
      if !Skipped(name) {
        MakeDirsExisting(g, Parent(df, name));
        var t := Target(df, name);
        forall i | 0 <= i < |names[1..]| && !Skipped(names[1..][i])
          ensures AllDirs(g1, Parent(df, names[1..][i]))
        {
          assert names[1..][i] == names[i + 1];
          var p := Parent(df, names[i + 1]);
          forall k | 1 <= k <= |p|
            ensures p[..k] in g1 && g1[p[..k]].Dir?
          {
            assert p[..k] in g && g[p[..k]].Dir?;
          }
        }
      }
      assert Settled(g1, df, names[1..]) by {
        forall i | 0 <= i < |names[1..]| && !Skipped(names[1..][i])
          ensures NormComps(names[1..][i]) != []
          ensures !(Target(df, names[1..][i]) in g1 && g1[Target(df, names[1..][i])].Dir?)
        {
          assert names[1..][i] == names[i + 1];
        }
      }
      SettledRun(g1, df, names[1..], entries);
    }
  }

  /** A pass that succeeds leaves the tree settled for its own members. */
  lemma {:induction false} RunSettles(fs: Tree, df: Path, names: seq<string>, entries: Archive)
    requires |df| >= 1 && Run(fs, df, names, entries).ok
    ensures Settled(Run(fs, df, names, entries).fs, df, names)
    decreases |names|
  {
    if |names| > 0 {
      var name := names[0];
      var rest := names[1..];
      var data := LastData(entries, name);
      var o := Step(fs, df, name, data);
      assert o.ok;
      assert Run(fs, df, names, entries) == Run(o.fs, df, rest, entries);
      var after := Run(o.fs, df, rest, entries).fs;
      RunSettles(o.fs, df, rest, entries);
      RunFrame(o.fs, df, rest, entries);
      if !Skipped(name) {
        StepWrites(fs, df, name, data);
        var p := Parent(df, name);
        forall k | 1 <= k <= |p|
          ensures p[..k] in after && after[p[..k]].Dir?
        {
          assert p[..k] in o.fs && o.fs[p[..k]].Dir?;
        }
        assert o.fs[Target(df, name)].File?;
      }
      forall i | 1 <= i < |names| && !Skipped(names[i])
        ensures NormComps(names[i]) != [] && AllDirs(after, Parent(df, names[i])) &&
          !(Target(df, names[i]) in after && after[Target(df, names[i])].Dir?)
      {
        assert rest[i - 1] == names[i];
      }
    }
  }

  /** Extracting the same members again over the result of a successful
      pass succeeds and changes nothing: targets are overwritten with the
      same bytes. */
  lemma ExtractIdempotent(fs: Tree, df: Path, names: seq<string>, entries: Archive)
    requires |df| >= 1 && Run(fs, df, names, entries).ok
    ensures var after := Run(fs, df, names, entries).fs;
      Run(after, df, names, entries) == Outcome(true, after)
  {
    var after := Run(fs, df, names, entries).fs;
    RunSettles(fs, df, names, entries);
    SettledRun(after, df, names, entries);
    OverValue(after, df, names, entries);
    RunValue(fs, df, names, entries);
    var again := Over(after, df, names, entries);
    assert again.Keys == after.Keys;
    assert forall q :: q in after ==> again[q] == after[q];
    assert again == after;
  }

  /** Re-extraction: uploading the same archive for the same computer on
      the same day after a successful upload succeeds again and leaves
      the storage tree exactly as it was. */
  lemma SaveUploadIdempotent(fs: Tree, upload: Upload, computerId: string, today: Date)
    requires Valid(today) && SaveUpload(fs, upload, computerId, today).ok
    ensures var after := SaveUpload(fs, upload, computerId, today).fs;
      SaveUpload(after, upload, computerId, today) == Outcome(true, after)
  {
    var df := DateFolder(computerId, today);
    var made := MakeDirs(fs, df).value;
    var entries := upload.entries;
    var after := Run(made, df, Names(entries), entries).fs;
    RunFrame(made, df, Names(entries), entries);
    assert AllDirs(after, df) by {
      forall k | 1 <= k <= |df|
        ensures df[..k] in after && after[df[..k]].Dir?
      {
        assert df[..k] in made && made[df[..k]].Dir?;
      }
    }
    MakeDirsExisting(after, df);
    ExtractIdempotent(made, df, Names(entries), entries);
  }
}
