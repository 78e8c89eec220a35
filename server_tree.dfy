/** The server's storage root as a value: a map from a path (its
    components, relative to the storage root) to a directory or a file
    holding bytes. The root itself is implicit and always a directory. */
module ServerTree {
  import opened Common
  import opened Paths

  type Path = seq<string>

  datatype Node = Dir | File(data: Bytes)

  type Tree = map<Path, Node>

  /** Every component names one entry literally. */
  predicate SegPath(p: Path)
  {
    forall i :: 0 <= i < |p| ==> Seg(p[i])
  }

  /** The folders `os.makedirs(p)` needs: `p` and each of its ancestors
      below the root. */
  function Prefixes(p: Path): (ps: set<Path>)
    ensures forall q :: q in ps <==> 1 <= |q| <= |p| && q == p[..|q|]
  {
    set k | 1 <= k <= |p| :: p[..k]
  }

  predicate AllDirs(fs: Tree, p: Path)
  {
    forall k :: 1 <= k <= |p| ==> p[..k] in fs && fs[p[..k]].Dir?
  }

  /** Some folder on the way is a file: `os.makedirs` raises. */
  predicate Blocked(fs: Tree, p: Path)
  {
    exists k :: 1 <= k <= |p| && p[..k] in fs && fs[p[..k]].File?
  }

  /** The missing folders of `p` created, from the top down. */
  function AddDirs(fs: Tree, p: Path): (r: Tree)
    requires !Blocked(fs, p)
    ensures AllDirs(r, p)
    ensures forall q :: q in fs ==> q in r && r[q] == fs[q]
    ensures forall q :: q in r && q !in fs ==> q in Prefixes(p) && r[q] == Dir
    decreases |p|
  {
    if |p| == 0 then fs
    else
      var up := p[..|p| - 1];
      assert forall k :: 1 <= k <= |up| ==> up[..k] == p[..k];
      var f := AddDirs(fs, up);
      assert p[..|p|] == p;
      AddLastFacts(fs, up, f, p);
      AddLast(f, p)
  }

  /** The last folder of `p`, once its ancestors are there. */
  function AddLast(f: Tree, p: Path): Tree
  {
    if p in f then f else f[p := Dir]
  }

  lemma AddLastFacts(fs: Tree, up: Path, f: Tree, p: Path)
    requires |p| >= 1 && up == p[..|p| - 1] && !(p in fs && fs[p].File?)
    requires AllDirs(f, up)
    requires forall q :: q in fs ==> q in f && f[q] == fs[q]
    requires forall q :: q in f && q !in fs ==> q in Prefixes(up) && f[q] == Dir
    ensures AllDirs(AddLast(f, p), p)
    ensures forall q :: q in fs ==> q in AddLast(f, p) && AddLast(f, p)[q] == fs[q]
    ensures forall q :: q in AddLast(f, p) && q !in fs ==> q in Prefixes(p) && AddLast(f, p)[q] == Dir
  {
    var r := AddLast(f, p);
    assert p in r && r[p].Dir?;
    forall k | 1 <= k <= |p|
      ensures p[..k] in r && r[p[..k]].Dir?
    {
      if k < |p| {
        assert p[..k] == up[..k];
        assert up[..k] in f && f[up[..k]].Dir?;
        assert |p[..k]| != |p|;
      } else {
        assert p[..k] == p;
      }
    }
    forall q | q in r && q !in fs
      ensures q in Prefixes(p)
    {
      if q != p {
        assert q in f;
        assert q == up[..|q|];
      }
    }
  }

  /** `os.makedirs(p, exist_ok=True)`: every missing folder on the way is
      created, existing ones are kept; a file on the way makes it fail
      without changing anything. */
  function MakeDirs(fs: Tree, p: Path): (r: Option<Tree>)
    ensures r.None? <==> Blocked(fs, p)
    ensures r.Some? ==> AllDirs(r.value, p)
    ensures r.Some? ==> forall q :: q in fs ==> q in r.value && r.value[q] == fs[q]
    ensures r.Some? ==> forall q :: q in r.value && q !in fs ==> q in Prefixes(p) && r.value[q] == Dir
  {
    if Blocked(fs, p) then None else Some(AddDirs(fs, p))
  }

  /** An existing folder chain is never a reason to fail, and nothing is
      created. */
  lemma MakeDirsExisting(fs: Tree, p: Path)
    requires AllDirs(fs, p)
    ensures MakeDirs(fs, p) == Some(fs)
  {
    var r := MakeDirs(fs, p);
    assert !Blocked(fs, p);
    forall q | q in Prefixes(p)
      ensures q in fs
    {
      assert q == p[..|q|];
    }
    assert r.value.Keys == fs.Keys;
    assert forall q :: q in fs ==> r.value[q] == fs[q];
    assert r.value == fs;
  }

  /** Creating the same folders a second time changes nothing. */
  lemma MakeDirsIdempotent(fs: Tree, p: Path)
    requires MakeDirs(fs, p).Some?
    ensures MakeDirs(MakeDirs(fs, p).value, p) == MakeDirs(fs, p)
  {
    MakeDirsExisting(MakeDirs(fs, p).value, p);
  }

  /** Folders are also created for every ancestor of `p`. */
  lemma AllDirsPrefix(fs: Tree, p: Path, k: nat)
    requires AllDirs(fs, p) && k <= |p|
    ensures AllDirs(fs, p[..k])
  {
    forall j | 1 <= j <= k
      ensures p[..k][..j] in fs && fs[p[..k][..j]].Dir?
    {
      assert p[..k][..j] == p[..j];
    }
  }
}
