/**
  A model of the two accessors of Python's `pathlib.PurePosixPath` that the
  release tool relies on: `name` (the final path component) and `suffix`
  (the file extension of that component).

  Paths are strings whose components are separated by '/'. They are assumed
  to be the paths a directory listing yields (`directory / entry`): no
  trailing separator and no "." or ".." entry, so `name` is everything after
  the last '/'. `suffix` follows pathlib's rule: it starts at the last '.' of
  the name, provided that dot is neither the first nor the last character of
  the name; otherwise there is no suffix. Under that rule ".zip" on its own
  has no suffix.
 */
module PurePath {

  const Separator: char := '/'

  /** Index of the last occurrence of `c` in `s`, or -1 if there is none (Python's `str.rfind`). */
  function RFind(s: string, c: char): (r: int)
    ensures -1 <= r < |s|
  {
    if s == [] then -1
    else if s[|s| - 1] == c then |s| - 1
    else RFind(s[..|s| - 1], c)
  }

  /** `RFind` finds the last occurrence: `c` is there, and nowhere after it. */
  lemma {:induction false} RFindIsLast(s: string, c: char)
    ensures RFind(s, c) == -1 <==> c !in s
    ensures 0 <= RFind(s, c) ==> s[RFind(s, c)] == c
    ensures forall j :: RFind(s, c) < j < |s| ==> s[j] != c
  {
    if s != [] && s[|s| - 1] != c {
      RFindIsLast(s[..|s| - 1], c);
      assert s == s[..|s| - 1] + [s[|s| - 1]];
    }
  }

  /** The final component of `path`: everything after its last separator. */
  function Name(path: string): string
  {
    path[RFind(path, Separator) + 1..]
  }

  /** `Name` is the longest tail of the path that holds no separator. */
  lemma NameIsFinalComponent(path: string)
    ensures Separator !in Name(path)
    ensures |Name(path)| <= |path| && Name(path) == path[|path| - |Name(path)|..]
    ensures |Name(path)| < |path| ==> path[|path| - |Name(path)| - 1] == Separator
  {
    RFindIsLast(path, Separator);
  }

  /** The extension of a file name, dot included, or "" when it has none. */
  function Suffix(name: string): string
  {
    var i := RFind(name, '.');
    if 0 < i < |name| - 1 then name[i..] else ""
  }

  /**
    A suffix is either absent or a dot followed by at least one character
    that is not a dot, ending the name after at least one other character.
   */
  lemma SuffixShape(name: string)
    ensures var r := Suffix(name);
      r == "" || (2 <= |r| < |name| && r[0] == '.' && '.' !in r[1..] && r == name[|name| - |r|..])
  {
    RFindIsLast(name, '.');
  }

  /** The entry `entry` of directory `directory` is named `entry`. */
  lemma {:induction false} NameOfJoin(directory: string, entry: string)
    requires Separator !in entry
    ensures Name(directory + [Separator] + entry) == entry
  {
    var path := directory + [Separator] + entry;
    var i := RFind(path, Separator);
    RFindIsLast(path, Separator);
    assert path[|directory|] == Separator;
    assert forall j :: |directory| < j < |path| ==> path[j] == entry[j - |directory| - 1];
    assert i == |directory|;
    assert path[i + 1..] == entry;
  }

  /**
    A name has the suffix ".zip" exactly when it ends in ".zip" and has at
    least one character before that ending.
   */
  lemma {:induction false} ZipSuffix(name: string)
    ensures Suffix(name) == ".zip" <==> |name| > 4 && name[|name| - 4..] == ".zip"
  {
    SuffixShape(name);
    if |name| > 4 && name[|name| - 4..] == ".zip" {
      var n := |name|;
      var i := RFind(name, '.');
      RFindIsLast(name, '.');
      assert name[n - 4] == '.';
      assert name[n - 3] == 'z' && name[n - 2] == 'i' && name[n - 1] == 'p';
      assert i == n - 4;
    }
  }
}
