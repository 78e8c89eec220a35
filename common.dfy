/** Small shared vocabulary: optional values, bytes, Python's string
    helpers that the core uses on paths (`str.split`, `'/'.join`,
    `str.startswith`, Windows' `os.path.basename`) and the archive entry type that
    travels from the sync client to the server. */
module Common {

  datatype Option<+T> = None | Some(value: T)

  newtype Byte = x: int | 0 <= x < 256

  type Bytes = seq<Byte>

  /** One member of a ZIP archive: its stored name and its content. */
  datatype ZipEntry = ZipEntry(name: string, data: Bytes)

  type Archive = seq<ZipEntry>

  predicate IsDigit(c: char) { '0' <= c <= '9' }

  function DigitChar(d: nat): (c: char)
    requires d < 10
    ensures IsDigit(c) && c as int - '0' as int == d
  {
    ('0' as int + d) as char
  }

  function DigitVal(c: char): (d: nat)
    requires IsDigit(c)
    ensures d < 10 && DigitChar(d) == c
  {
    c as int - '0' as int
  }

  /** `s.startswith(p)` */
  predicate StartsWith(s: string, p: string)
  {
    |p| <= |s| && s[..|p|] == p
  }

  /** `s.split(sep)`: always at least one part; empty parts are kept. */
  function Split(s: string, sep: char): (parts: seq<string>)
    ensures |parts| >= 1
    ensures forall i :: 0 <= i < |parts| ==> sep !in parts[i]
    decreases |s|
  {
    if |s| == 0 then [""]
    else
      var rest := Split(s[1..], sep);
      if s[0] == sep then [""] + rest
      else [[s[0]] + rest[0]] + rest[1..]
  }

  /** `sep.join(parts)` */
  function Join(parts: seq<string>, sep: char): string
    decreases |parts|
  {
    if |parts| == 0 then ""
    else if |parts| == 1 then parts[0]
    else parts[0] + [sep] + Join(parts[1..], sep)
  }

  /** A path separator on Windows, where the client runs: `\\` or `/`. */
  predicate IsSep(c: char)
  {
    c == '/' || c == '\\'
  }

  /** The path without its drive: `ntpath` takes the first two characters
      as a drive when the second is a colon and the first is not a
      separator. */
  function DropDrive(path: string): (rest: string)
    ensures rest == path || (|path| >= 2 && path[1] == ':' && rest == path[2..])
  {
    if |path| >= 2 && path[1] == ':' && !IsSep(path[0]) then path[2..] else path
  }

  /** The text after the last separator of `path`. */
  function LastSegment(path: string): string
    decreases |path|
  {
    if |path| == 0 || IsSep(path[|path| - 1]) then ""
    else LastSegment(path[..|path| - 1]) + [path[|path| - 1]]
  }

  /** `os.path.basename` on Windows (`ntpath.basename`): the last segment
      of the path with its drive removed. */
  function Basename(path: string): string
  {
    LastSegment(DropDrive(path))
  }

  /** The last segment is the longest suffix that holds no separator. */
  lemma {:induction false} LastSegmentSpec(path: string)
    ensures var name := LastSegment(path);
      |name| <= |path| && name == path[|path| - |name|..] &&
      (forall c :: c in name ==> !IsSep(c)) &&
      (|name| < |path| ==> IsSep(path[|path| - |name| - 1]))
    decreases |path|
  {
    if |path| > 0 && !IsSep(path[|path| - 1]) {
      var init := path[..|path| - 1];
      var last := path[|path| - 1];
      var k := LastSegment(init);
      LastSegmentSpec(init);
      var name := LastSegment(path);
      assert name == k + [last];
      assert path[|path| - |name|..] == init[|init| - |k|..] + [last];
      forall c | c in name
        ensures !IsSep(c)
      {
        if c != last {
          assert c in k;
        }
      }
      if |name| < |path| {
        assert path[|path| - |name| - 1] == init[|init| - |k| - 1];
      }
    }
  }

  /** The basename holds no separator, and it is everything after the last
      separator once the drive is removed. */
  lemma BasenameSpec(path: string)
    ensures var name := Basename(path);
      var rest := DropDrive(path);
      (forall c :: c in name ==> !IsSep(c)) &&
      |name| <= |rest| && name == rest[|rest| - |name|..] &&
      (|name| == |rest| || IsSep(rest[|rest| - |name| - 1]))
  {
    LastSegmentSpec(DropDrive(path));
  }

  lemma {:induction false} SplitNoSep(a: string, sep: char)
    requires sep !in a
    ensures Split(a, sep) == [a]
    decreases |a|
  {
    if |a| > 0 {
      SplitNoSep(a[1..], sep);
      assert a == [a[0]] + a[1..];
    }
  }

  lemma {:induction false} SplitAtSep(a: string, sep: char, b: string)
    requires sep !in a
    ensures Split(a + [sep] + b, sep) == [a] + Split(b, sep)
    decreases |a|
  {
    var s := a + [sep] + b;
    if |a| == 0 {
      assert s[1..] == b;
    } else {
      assert s[1..] == a[1..] + [sep] + b;
      SplitAtSep(a[1..], sep, b);
      assert [a[0]] + a[1..] == a;
    }
  }

  /** Splitting a joined list gives the list back when no part holds the
      separator (the list must be non-empty: `"".split("/") == [""]`). */
  lemma {:induction false} SplitJoin(parts: seq<string>, sep: char)
    requires |parts| >= 1
    requires forall i :: 0 <= i < |parts| ==> sep !in parts[i]
    ensures Split(Join(parts, sep), sep) == parts
    decreases |parts|
  {
    if |parts| == 1 {
      SplitNoSep(parts[0], sep);
    } else {
      SplitJoin(parts[1..], sep);
      SplitAtSep(parts[0], sep, Join(parts[1..], sep));
      assert [parts[0]] + parts[1..] == parts;
    }
  }

  /** The basename of `os.path.join(dir, name)` is `name` when `name` has
      no separator, whichever separator the join put between them. */
  lemma BasenameOfJoin(dir: string, sep: char, name: string)
    requires IsSep(sep) && forall c :: c in name ==> !IsSep(c)
    ensures Basename(dir + [sep] + name) == name
  {
    var path := dir + [sep] + name;
    var rest := DropDrive(path);
    BasenameSpec(path);
    assert path[|path| - |name| - 1] == sep;
    assert |rest| > |name| && rest[|rest| - |name| - 1] == sep && rest[|rest| - |name|..] == name;
  }

  /** A drive-relative path such as `C:shot.jpg` loses its drive. */
  lemma DriveRelativeBasename(drive: char, name: string)
    requires !IsSep(drive) && forall c :: c in name ==> !IsSep(c)
    ensures Basename([drive, ':'] + name) == name
  {
    var path := [drive, ':'] + name;
    assert DropDrive(path) == name by {
      assert path[2..] == name;
    }
    BasenameSpec(path);
  }
}
