/** What `StorageHandler.get_statistics` reports, as integers: the number
    of computer folders, and for each the number of regular files under
    it and their total size in bytes. */
module Inventory {
  import opened ServerTree
  import opened Retention

  datatype Usage = Usage(fileCount: nat, sizeBytes: nat)

  datatype Stats = Stats(totalComputers: nat, computers: map<string, Usage>)

  /** The folders directly under the storage root. */
  function ComputerNames(fs: Tree): set<string>
  {
    set q | q in fs && |q| == 1 && fs[q].Dir? :: q[0]
  }

  /** The names of the root's entries (`Path(storage_root).iterdir()`). */
  function RootNames(fs: Tree): set<string>
  {
    set q | q in fs && |q| == 1 :: q[0]
  }

  /** Those of `names` that name a folder under the root. */
  function DirsAmong(fs: Tree, names: set<string>): set<string>
  {
    set c | c in names && [c] in fs && fs[[c]].Dir?
  }

  lemma DirsAmongRoot(fs: Tree)
    ensures DirsAmong(fs, RootNames(fs)) == ComputerNames(fs)
  {
    forall c | c in ComputerNames(fs)
      ensures c in DirsAmong(fs, RootNames(fs))
    {
      var q :| q in fs && |q| == 1 && fs[q].Dir? && q[0] == c;
      assert q == [c];
    }
  }

  /** `computer_folder.rglob('*')` filtered by `is_file()`. */
  function FilesOf(fs: Tree, c: string): set<Path>
  {
    set q | q in fs && |q| >= 2 && q[0] == c && fs[q].File?
  }

  function SizeAt(fs: Tree, q: Path): nat
  {
    if q in fs && fs[q].File? then |fs[q].data| else 0
  }

  ghost function Pick(keys: set<Path>): (q: Path)
    requires keys != {}
    ensures q in keys
  {
    var q :| q in keys; q
  }

  /** The total size of the files among `keys`. */
  ghost function TotalSize(fs: Tree, keys: set<Path>): nat
    decreases keys
  {
    if keys == {} then 0
    else
      var q := Pick(keys);
      SizeAt(fs, q) + TotalSize(fs, keys - {q})
  }

  /** The statistics of a tree. */
  ghost function Statistics(fs: Tree): Stats
  {
    Stats(|ComputerNames(fs)|,
          map c | c in ComputerNames(fs) :: Usage(|FilesOf(fs, c)|, TotalSize(fs, FilesOf(fs, c))))
  }

  /** The usage of computer folder `c`. */
  ghost function UsageAt(fs: Tree, c: string): Usage
  {
    Usage(|FilesOf(fs, c)|, TotalSize(fs, FilesOf(fs, c)))
  }

  /** Statistics gathered for the root entries in `seen`. */
  ghost predicate Gathered(fs: Tree, seen: set<string>, total: nat, computers: map<string, Usage>)
  {
    computers.Keys == DirsAmong(fs, seen) && total == |computers.Keys| &&
    forall c :: c in computers ==> computers[c] == UsageAt(fs, c)
  }

  lemma GatheredAdd(fs: Tree, seen: set<string>, total: nat, computers: map<string, Usage>, c: string, usage: Usage)
    requires Gathered(fs, seen, total, computers) && c !in seen
    requires [c] in fs && fs[[c]].Dir? && usage == UsageAt(fs, c)
    ensures Gathered(fs, seen + {c}, total + 1, computers[c := usage])
  {
    assert DirsAmong(fs, seen + {c}) == DirsAmong(fs, seen) + {c};
    assert c !in computers.Keys;
    assert computers[c := usage].Keys == computers.Keys + {c};
  }

  lemma GatheredSkip(fs: Tree, seen: set<string>, total: nat, computers: map<string, Usage>, c: string)
    requires Gathered(fs, seen, total, computers)
    requires !([c] in fs && fs[[c]].Dir?)
    ensures Gathered(fs, seen + {c}, total, computers)
  {
    assert DirsAmong(fs, seen + {c}) == DirsAmong(fs, seen);
  }

  /** Statistics gathered over every root entry are the statistics. */
  lemma StatisticsOf(fs: Tree, seen: set<string>, total: nat, computers: map<string, Usage>)
    requires RootNames(fs) <= seen && Gathered(fs, seen, total, computers)
    ensures Stats(total, computers) == Statistics(fs)
  {
    DirsAmongRoot(fs);
    assert DirsAmong(fs, seen) == DirsAmong(fs, RootNames(fs));
  }

  // ------------------------------------------------------------------
  // Properties

  /** The total does not depend on the order the files are visited in:
      any one of them can be taken out first. */
  lemma {:induction false} TotalSizeRemove(fs: Tree, keys: set<Path>, q: Path)
    requires q in keys
    ensures TotalSize(fs, keys) == SizeAt(fs, q) + TotalSize(fs, keys - {q})
    decreases |keys|
  {
    var p := Pick(keys);
    if p != q {
      TotalSizeRemove(fs, keys - {p}, q);
      TotalSizeRemove(fs, keys - {q}, p);
      assert keys - {p} - {q} == keys - {q} - {p};
    }
  }

  /** Fewer files never weigh more. */
  lemma {:induction false} TotalSizeSubset(fs: Tree, small: set<Path>, large: set<Path>)
    requires small <= large
    ensures TotalSize(fs, small) <= TotalSize(fs, large)
    decreases |large|
  {
    if small != large {
      var q :| q in large && q !in small;
      TotalSizeRemove(fs, large, q);
      TotalSizeSubset(fs, small, large - {q});
    }
  }

  /** Only the files' own bytes count, not where the other entries are. */
  lemma {:induction false} TotalSizeSame(fs: Tree, other: Tree, keys: set<Path>)
    requires forall q :: q in keys ==> SizeAt(fs, q) == SizeAt(other, q)
    ensures TotalSize(fs, keys) == TotalSize(other, keys)
    decreases |keys|
  {
    if keys != {} {
      var q := Pick(keys);
      TotalSizeSame(fs, other, keys - {q});
    }
  }

  /** The retention sweep never adds a computer, a file, or a byte to
      any computer's count. */
  lemma SweepShrinksUsage(fs: Tree, cutoff: int, c: string)
    ensures ComputerNames(Sweep(fs, cutoff)) <= ComputerNames(fs)
    ensures FilesOf(Sweep(fs, cutoff), c) <= FilesOf(fs, c)
    ensures TotalSize(Sweep(fs, cutoff), FilesOf(Sweep(fs, cutoff), c)) <= TotalSize(fs, FilesOf(fs, c))
  {
    var after := Sweep(fs, cutoff);
    var kept := FilesOf(after, c);
    TotalSizeSame(after, fs, kept);
    TotalSizeSubset(fs, kept, FilesOf(fs, c));
  }
}
