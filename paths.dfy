/** The two string functions the server applies to names it is sent:
    the computer-id sanitizer of `StorageHandler._get_computer_folder`
    and POSIX `os.path.normpath`, which `save_upload` applies to every
    archive member name before deciding whether to extract it. */
module Paths {
  import opened Common

  // ------------------------------------------------------------------
  // The computer-id sanitizer

  predicate IsAlnum(c: char)
  {
    'a' <= c <= 'z' || 'A' <= c <= 'Z' || '0' <= c <= '9'
  }

  predicate SafeChar(c: char)
  {
    IsAlnum(c) || c == '-' || c == '_'
  }

  /** `"".join(c for c in computer_id if c.isalnum() or c in ('-', '_'))` */
  function SafeId(id: string): (safe: string)
    ensures |safe| <= |id|
    ensures forall i :: 0 <= i < |safe| ==> SafeChar(safe[i])
  {
    if |id| == 0 then ""
    else (if SafeChar(id[0]) then [id[0]] else "") + SafeId(id[1..])
  }

  /** A path segment the file system takes literally: not empty, not `.`
      or `..`, and free of `/`. */
  predicate Seg(s: string)
  {
    s != "" && s != "." && s != ".." && '/' !in s
  }

  /** The sanitizer keeps the safe characters of its input in order:
      sanitizing a concatenation sanitizes each part. */
  lemma {:induction false} SafeIdConcat(a: string, b: string)
    ensures SafeId(a + b) == SafeId(a) + SafeId(b)
    decreases |a|
  {
    if |a| > 0 {
      var head := if SafeChar(a[0]) then [a[0]] else "";
      assert (a + b)[0] == a[0];
      assert (a + b)[1..] == a[1..] + b;
      assert SafeId(a + b) == head + SafeId(a[1..] + b);
      assert SafeId(a) == head + SafeId(a[1..]);
      SafeIdConcat(a[1..], b);
      assert head + (SafeId(a[1..]) + SafeId(b)) == (head + SafeId(a[1..])) + SafeId(b);
    } else {
      assert a + b == b;
    }
  }

  /** Text made only of safe characters is left as it is. */
  lemma {:induction false} SafeIdKeepsSafe(id: string)
    requires forall i :: 0 <= i < |id| ==> SafeChar(id[i])
    ensures SafeId(id) == id
    decreases |id|
  {
    if |id| > 0 {
      SafeIdKeepsSafe(id[1..]);
    }
  }

  /** Sanitizing twice is sanitizing once. */
  lemma SafeIdIdempotent(id: string)
    ensures SafeId(SafeId(id)) == SafeId(id)
  {
    SafeIdKeepsSafe(SafeId(id));
  }

  /** A non-empty sanitized id names a single child of the storage root. */
  lemma SafeIdIsSegment(id: string)
    requires SafeId(id) != ""
    ensures Seg(SafeId(id))
  {
    var s := SafeId(id);
    assert !SafeChar('/') && !SafeChar('.');
    assert SafeChar(s[0]);
    assert "."[0] == '.' && ".."[0] == '.';
  }

  // ------------------------------------------------------------------
  // posixpath.normpath

  /** One turn of normpath's loop over the components. */
  function NormStep(acc: seq<string>, c: string, rooted: bool): seq<string>
  {
    if c == "" || c == "." then acc
    else if c != ".." || (!rooted && |acc| == 0) || (|acc| > 0 && acc[|acc| - 1] == "..") then acc + [c]
    else if |acc| > 0 then acc[..|acc| - 1]
    else acc
  }

  function NormFold(acc: seq<string>, comps: seq<string>, rooted: bool): seq<string>
    decreases |comps|
  {
    if |comps| == 0 then acc else NormFold(NormStep(acc, comps[0], rooted), comps[1..], rooted)
  }

  predicate Rooted(path: string)
  {
    StartsWith(path, "/")
  }

  /** The components normpath keeps. */
  function NormComps(path: string): seq<string>
  {
    NormFold([], Split(path, '/'), Rooted(path))
  }

  /** `os.path.normpath` on POSIX: two leading slashes are kept only when
      there are exactly two. */
  function NormPath(path: string): string
  {
    if path == "" then "."
    else
      var prefix :=
        if Rooted(path) && StartsWith(path, "//") && !StartsWith(path, "///") then "//"
        else if Rooted(path) then "/"
        else "";
      var r := prefix + Join(NormComps(path), '/');
      if r == "" then "." else r
  }

  /** `save_upload` skips a member whose normalized name starts with `..`
      or `/` (a text prefix: `..x` is skipped too). */
  predicate Skipped(name: string)
  {
    StartsWith(NormPath(name), "..") || StartsWith(NormPath(name), "/")
  }

  /** What normpath's output looks like: no empty or `.` components, and
      `..` only in a leading run, and never after a root. */
  ghost predicate Normal(comps: seq<string>, rooted: bool)
  {
    forall i :: 0 <= i < |comps| ==>
      comps[i] != "" && comps[i] != "." && '/' !in comps[i] &&
      (comps[i] == ".." ==> !rooted && forall j :: 0 <= j < i ==> comps[j] == "..")
  }

  lemma {:induction false} NormFoldNormal(acc: seq<string>, comps: seq<string>, rooted: bool)
    requires Normal(acc, rooted)
    requires forall i :: 0 <= i < |comps| ==> '/' !in comps[i]
    ensures Normal(NormFold(acc, comps, rooted), rooted)
    decreases |comps|
  {
    if |comps| > 0 {
      var next := NormStep(acc, comps[0], rooted);
      var c := comps[0];
      if c == "" || c == "." {
      } else if c != ".." || (!rooted && |acc| == 0) || (|acc| > 0 && acc[|acc| - 1] == "..") {
        if c == ".." {
          assert !rooted;
          if |acc| > 0 {
            assert acc[|acc| - 1] == "..";
          }
        }
      }
      NormFoldNormal(next, comps[1..], rooted);
    }
  }

  /** After normpath, `..` can only be a leading component, and none is
      left in a rooted path. */
  lemma NormCompsNormal(path: string)
    ensures Normal(NormComps(path), Rooted(path))
  {
    NormFoldNormal([], Split(path, '/'), Rooted(path));
  }

  lemma {:induction false} JoinStartsWithFirst(parts: seq<string>, sep: char)
    requires |parts| >= 1
    ensures StartsWith(Join(parts, sep), parts[0])
  {
    if |parts| > 1 {
      assert Join(parts, sep) == parts[0] + ([sep] + Join(parts[1..], sep));
    }
  }

  lemma RootedStaysRooted(name: string)
    ensures Rooted(name) ==> StartsWith(NormPath(name), "/")
  {
    if Rooted(name) {
      var prefix := if StartsWith(name, "//") && !StartsWith(name, "///") then "//" else "/";
      assert NormPath(name) == prefix + Join(NormComps(name), '/');
      assert NormPath(name)[0] == '/';
    }
  }

  lemma ParentFirstStaysParent(name: string)
    ensures !Rooted(name) && |NormComps(name)| >= 1 && NormComps(name)[0] == ".." ==> StartsWith(NormPath(name), "..")
  {
    var comps := NormComps(name);
    if !Rooted(name) && |comps| >= 1 && comps[0] == ".." && name != "" {
      JoinStartsWithFirst(comps, '/');
      assert |Join(comps, '/')| >= 2;
      assert "" + Join(comps, '/') == Join(comps, '/');
      assert NormPath(name) == Join(comps, '/');
    }
  }

  /** A member that is not skipped, and does not normalize to `.`, names a
      relative path whose components are all plain segments; splitting
      the normalized text on `/` gives exactly those components. */
  lemma KeptMember(name: string)
    requires !Skipped(name) && NormPath(name) != "."
    ensures !Rooted(name)
    ensures |NormComps(name)| >= 1
    ensures forall i :: 0 <= i < |NormComps(name)| ==> Seg(NormComps(name)[i])
    ensures Split(NormPath(name), '/') == NormComps(name)
  {
    var comps := NormComps(name);
    NormCompsNormal(name);
    RootedStaysRooted(name);
    assert NormPath(name) == Join(comps, '/');
    assert |comps| != 0;
    ParentFirstStaysParent(name);
    assert comps[0] != "..";
    forall i | 0 <= i < |comps|
      ensures Seg(comps[i])
    {
      assert comps[0] != "..";
    }
    SplitJoin(comps, '/');
  }

  /** A member that is not skipped is relative, and every component
      normpath keeps for it is a plain segment: no `..` survives. */
  lemma KeptComps(name: string)
    requires !Skipped(name)
    ensures !Rooted(name)
    ensures forall i :: 0 <= i < |NormComps(name)| ==> Seg(NormComps(name)[i])
  {
    var comps := NormComps(name);
    NormCompsNormal(name);
    RootedStaysRooted(name);
    ParentFirstStaysParent(name);
    if |comps| >= 1 {
      assert comps[0] != "..";
    }
  }

  /** A relative name normalizes to `.` exactly when no component is kept. */
  lemma DotIffNoComps(name: string)
    requires !Rooted(name)
    ensures NormPath(name) == "." <==> NormComps(name) == []
  {
    var comps := NormComps(name);
    NormCompsNormal(name);
    if name == "" {
      assert Split(name, '/') == [""];
      assert comps == NormFold([], [], false);
    } else if comps != [] {
      JoinStartsWithFirst(comps, '/');
      var j := Join(comps, '/');
      assert "" + j == j;
      assert j[..|comps[0]|] == comps[0];
      assert comps[0] != "" && comps[0] != ".";
      assert |comps[0]| >= 2 || comps[0][0] != '.';
      assert j != ".";
    }
  }

  /** A reference to a parent folder is skipped. */
  lemma SkipsParent()
    ensures Skipped("../x")
  {
    assert "../x" == ".." + ['/'] + "x";
    SplitAtSep("..", '/', "x");
    SplitNoSep("x", '/');
    assert NormComps("../x") == ["..", "x"];
    assert Join(["..", "x"], '/') == "../x";
  }

  /** An absolute name is skipped. */
  lemma SkipsAbsolute()
    ensures Skipped("/x")
  {
    RootedStaysRooted("/x");
  }

  /** A harmless name that merely starts with two dots is skipped too. */
  lemma SkipsDotDotPrefix()
    ensures Skipped("..x")
  {
    SplitNoSep("..x", '/');
    assert NormComps("..x") == ["..x"];
  }

  /** A name that climbs out and back in is kept, normalized. */
  lemma KeepsReentry()
    ensures !Skipped("a/../b") && NormPath("a/../b") == "b"
  {
    assert "a/../b" == "a" + ['/'] + "../b";
    assert "../b" == ".." + ['/'] + "b";
    SplitAtSep("a", '/', "../b");
    SplitAtSep("..", '/', "b");
    SplitNoSep("b", '/');
    assert NormComps("a/../b") == ["b"];
  }
}
