/** The server's retention sweep (`StorageHandler.cleanup_old_data`): a
    date folder `<computer>/<YYYY-MM-DD>` whose midnight lies before the
    cutoff is removed with everything in it, and a computer folder left
    with no entries is removed as well. Times are seconds on the
    proleptic Gregorian ordinal scale of `Dates`. */
module Retention {
  import opened Common
  import opened Dates
  import opened ServerTree

  /** `ServerConfig.RETENTION_DAYS` */
  const RetentionDays := 30

  /** `datetime.now() - timedelta(days=RETENTION_DAYS)` */
  function Cutoff(now: int): int
  {
    now - RetentionDays * SecondsPerDay
  }

  /** The folder name parses as `%Y-%m-%d` and its midnight is before
      the cutoff; a name `strptime` rejects is never expired. */
  predicate ExpiredName(name: string, cutoff: int)
  {
    match Parse(name)
    case Some(d) => Midnight(d) < cutoff
    case None => false
  }

  predicate IsDir(fs: Tree, p: Path)
  {
    p in fs && fs[p].Dir?
  }

  /** The sweep deletes the date folder `[c, d]`. */
  predicate Doomed(fs: Tree, c: string, d: string, cutoff: int)
  {
    IsDir(fs, [c]) && IsDir(fs, [c, d]) && ExpiredName(d, cutoff)
  }

  /** `q` is a doomed date folder or lies inside one (`shutil.rmtree`). */
  predicate InDoomed(fs: Tree, q: Path, cutoff: int)
  {
    |q| >= 2 && Doomed(fs, q[0], q[1], cutoff)
  }

  /** Every entry of the computer folder `[c]` is a doomed date folder, so
      none is left once they are gone. */
  predicate Emptied(fs: Tree, c: string, cutoff: int)
  {
    IsDir(fs, [c]) && forall q :: q in fs && |q| == 2 && q[0] == c ==> Doomed(fs, c, q[1], cutoff)
  }

  predicate Swept(fs: Tree, q: Path, cutoff: int)
  {
    InDoomed(fs, q, cutoff) || (|q| == 1 && Emptied(fs, q[0], cutoff))
  }

  /** The tree after the sweep. */
  function Sweep(fs: Tree, cutoff: int): (after: Tree)
    ensures after.Keys <= fs.Keys
    ensures forall q :: q in after ==> after[q] == fs[q]
  {
    map q | q in fs && !Swept(fs, q, cutoff) :: fs[q]
  }

  /** `shutil.rmtree(p)`: the folder and everything below it. */
  function RemoveTree(fs: Tree, p: Path): (after: Tree)
    ensures forall q :: q in after <==> q in fs && !(|q| >= |p| && q[..|p|] == p)
    ensures forall q :: q in after ==> after[q] == fs[q]
  {
    map q | q in fs && !(|q| >= |p| && q[..|p|] == p) :: fs[q]
  }

  /** Every folder below the root sits in a folder. */
  ghost predicate TreeOk(fs: Tree)
  {
    forall q :: q in fs && |q| >= 2 ==> IsDir(fs, q[..|q| - 1])
  }

  // ------------------------------------------------------------------
  // Properties of the sweep

  /** A date folder is removed exactly when its name parses and its
      midnight is before the cutoff; what is inside goes with it. */
  lemma ShardRemovedIffExpired(fs: Tree, c: string, d: string, q: Path, cutoff: int)
    requires IsDir(fs, [c]) && IsDir(fs, [c, d])
    requires q in fs && |q| >= 2 && q[0] == c && q[1] == d
    ensures q !in Sweep(fs, cutoff) <==> ExpiredName(d, cutoff)
  {
  }

  /** Entries directly in a computer folder that are files, or whose
      names do not parse as dates, are left as they are, and so is
      everything inside them. */
  lemma UnparsedKept(fs: Tree, q: Path, cutoff: int)
    requires q in fs && |q| >= 2
    requires Parse(q[1]).None? || !IsDir(fs, q[..2])
    ensures q in Sweep(fs, cutoff) && Sweep(fs, cutoff)[q] == fs[q]
  {
    assert q[..2] == [q[0], q[1]];
  }

  /** A computer folder is removed exactly when, after the date folders
      are gone, it has no entries left. */
  lemma ComputerRemovedIffEmpty(fs: Tree, c: string, cutoff: int)
    requires IsDir(fs, [c])
    ensures var after := Sweep(fs, cutoff);
      [c] !in after <==> !exists q :: q in after && |q| == 2 && q[0] == c
  {
    var after := Sweep(fs, cutoff);
    if [c] in after {
      assert !Emptied(fs, c, cutoff);
      var q :| q in fs && |q| == 2 && q[0] == c && !Doomed(fs, c, q[1], cutoff);
      assert q == [c, q[1]];
      assert q in after;
    }
  }

  /** Folders the sweep keeps still sit in folders it keeps. */
  lemma SweepKeepsTree(fs: Tree, cutoff: int)
    requires TreeOk(fs)
    ensures TreeOk(Sweep(fs, cutoff))
  {
    var after := Sweep(fs, cutoff);
    forall q | q in after && |q| >= 2
      ensures IsDir(after, q[..|q| - 1])
    {
      var p := q[..|q| - 1];
      assert q[..2] == [q[0], q[1]];
      if |p| >= 2 {
        assert p[0] == q[0] && p[1] == q[1];
      } else {
        assert p == [q[0]];
        assert q == [q[0], q[1]];
      }
    }
  }

  /** Sweeping again with the same cutoff removes nothing more. */
  lemma SweepIdempotent(fs: Tree, cutoff: int)
    ensures Sweep(Sweep(fs, cutoff), cutoff) == Sweep(fs, cutoff)
  {
    var after := Sweep(fs, cutoff);
    forall q | q in after
      ensures !Swept(after, q, cutoff)
    {
      if |q| == 1 && IsDir(fs, q) {
        var c := q[0];
        assert q == [c];
        assert !Emptied(fs, c, cutoff);
        var child :| child in fs && |child| == 2 && child[0] == c && !Doomed(fs, c, child[1], cutoff);
        assert child == [c, child[1]];
        assert child in after && !Doomed(after, c, child[1], cutoff);
      }
    }
    assert Sweep(after, cutoff) == after;
  }

  /** A date folder is kept by every sweep run within `RETENTION_DAYS`
      days of its own midnight. */
  lemma RecentShardKept(fs: Tree, c: string, day: Date, now: int)
    requires Valid(day) && [c, Format(day)] in fs
    requires now < Midnight(day) + RetentionDays * SecondsPerDay
    ensures [c, Format(day)] in Sweep(fs, Cutoff(now))
  {
    ParseFormat(day);
  }

  // ------------------------------------------------------------------
  // The sweep as the nested loops go: computers in `done` are finished;
  // of computer `c`, the date folders in `doneD` are.

  ghost predicate SweptSoFar(fs: Tree, q: Path, cutoff: int, done: set<string>, c: string, doneD: set<string>)
  {
    |q| >= 1 &&
    ((q[0] in done && Swept(fs, q, cutoff)) ||
     (|q| >= 2 && q[0] == c && q[1] in doneD && Doomed(fs, c, q[1], cutoff)))
  }

  ghost function Partial(fs: Tree, cutoff: int, done: set<string>, c: string, doneD: set<string>): Tree
  {
    map q | q in fs && !SweptSoFar(fs, q, cutoff, done, c, doneD) :: fs[q]
  }

  lemma PartialStart(fs: Tree, cutoff: int)
    ensures Partial(fs, cutoff, {}, "", {}) == fs
  {
  }

  lemma PartialEnter(fs: Tree, cutoff: int, done: set<string>, c: string)
    ensures Partial(fs, cutoff, done, c, {}) == Partial(fs, cutoff, done, "", {})
  {
  }

  /** Removing an expired date folder of the current computer. */
  lemma PartialRemove(fs: Tree, cutoff: int, done: set<string>, c: string, doneD: set<string>, d: string)
    requires c !in done && Doomed(fs, c, d, cutoff)
    ensures RemoveTree(Partial(fs, cutoff, done, c, doneD), [c, d]) == Partial(fs, cutoff, done, c, doneD + {d})
  {
    var before := Partial(fs, cutoff, done, c, doneD);
    var removed := RemoveTree(before, [c, d]);
    var next := Partial(fs, cutoff, done, c, doneD + {d});
    forall q
      ensures q in removed <==> q in next
    {
      if |q| >= 2 {
        assert (q[..2] == [c, d]) <==> (q[0] == c && q[1] == d);
      }
    }
    assert removed == next;
  }

  /** Passing over an entry of the current computer that is not doomed. */
  lemma PartialPass(fs: Tree, cutoff: int, done: set<string>, c: string, doneD: set<string>, d: string)
    requires !Doomed(fs, c, d, cutoff)
    ensures Partial(fs, cutoff, done, c, doneD) == Partial(fs, cutoff, done, c, doneD + {d})
  {
    assert forall q :: SweptSoFar(fs, q, cutoff, done, c, doneD) <==> SweptSoFar(fs, q, cutoff, done, c, doneD + {d});
  }

  /** Finishing a computer folder whose entries have all been visited:
      it is removed exactly when no entry is left. */
  lemma PartialFinish(fs: Tree, cutoff: int, done: set<string>, c: string, doneD: set<string>)
    requires c !in done
    requires forall q :: q in fs && |q| == 2 && q[0] == c ==> q[1] in doneD
    ensures var cur := Partial(fs, cutoff, done, c, doneD);
      var next := Partial(fs, cutoff, done + {c}, "", {});
      if IsDir(fs, [c]) && !exists q :: q in cur && |q| == 2 && q[0] == c then cur - {[c]} == next
      else cur == next
  {
    var cur := Partial(fs, cutoff, done, c, doneD);
    var next := Partial(fs, cutoff, done + {c}, "", {});
    forall q | q in fs && |q| >= 2 && q[0] == c && Doomed(fs, c, q[1], cutoff)
      ensures q[1] in doneD
    {
      assert [c, q[1]] in fs;
    }
    if IsDir(fs, [c]) && !exists q :: q in cur && |q| == 2 && q[0] == c {
      forall q | q in fs && |q| == 2 && q[0] == c
        ensures Doomed(fs, c, q[1], cutoff)
      {
        assert q !in cur;
      }
      assert Emptied(fs, c, cutoff);
      forall q
        ensures q in cur - {[c]} <==> q in next
      {
        if |q| == 1 && q[0] == c {
          assert q == [c];
        }
      }
      assert cur - {[c]} == next;
    } else if IsDir(fs, [c]) {
      var child :| child in cur && |child| == 2 && child[0] == c;
      assert !Doomed(fs, c, child[1], cutoff);
      assert !Emptied(fs, c, cutoff);
      assert cur == next;
    } else {
      assert cur == next;
    }
  }

  /** An entry of the root that is not a folder is passed over. */
  lemma PartialSkip(fs: Tree, cutoff: int, done: set<string>, c: string)
    requires !IsDir(fs, [c])
    ensures Partial(fs, cutoff, done, "", {}) == Partial(fs, cutoff, done + {c}, "", {})
  {
    assert forall q :: SweptSoFar(fs, q, cutoff, done, "", {}) <==> SweptSoFar(fs, q, cutoff, done + {c}, "", {});
  }

  /** Once every computer folder is finished the partial sweep is the
      sweep. */
  lemma PartialDone(fs: Tree, cutoff: int, done: set<string>)
    requires forall q :: q in fs && |q| == 1 ==> q[0] in done
    ensures Partial(fs, cutoff, done, "", {}) == Sweep(fs, cutoff)
  {
    forall q | q in fs && Swept(fs, q, cutoff)
      ensures q[0] in done
    {
      assert [q[0]] in fs;
    }
    assert Partial(fs, cutoff, done, "", {}) == Sweep(fs, cutoff);
  }
}
