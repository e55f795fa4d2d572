/**
 * The two pieces of `pathlib` the script uses on a directory entry: the
 * final suffix of a name (`PurePath.suffix`) and the text of a child path
 * (`Path(directory) / name`, rendered by `as_posix`).
 */
module PurePath {
  import opened Text

  /** Python's `s.rfind(c)`: the last index holding `c`, or -1. */
  function RFind(s: string, c: char): (i: int)
    ensures -1 <= i < |s|
    ensures 0 <= i ==> s[i] == c
    ensures forall j :: i < j < |s| ==> s[j] != c
    decreases |s|
  {
    if |s| == 0 then -1
    else if s[|s| - 1] == c then |s| - 1
    else RFind(s[..|s| - 1], c)
  }

  /**
   * `PurePath.suffix`: the text from the last dot, provided that dot is
   * neither the first nor the last character of the name; otherwise empty.
   */
  function Suffix(name: string): (ext: string)
    ensures ext == "" <==>
      (|name| > 0 && name[|name| - 1] == '.') || (forall k :: 0 < k < |name| ==> name[k] != '.')
    ensures ext != "" ==> 2 <= |ext| < |name| && ext[0] == '.' && name[|name| - |ext|..] == ext
    ensures forall k :: 0 < k < |ext| ==> ext[k] != '.'
  {
    var i := RFind(name, '.');
    if 0 < i < |name| - 1 then name[i..] else ""
  }

  /** `(Path(directory) / name).as_posix()` for a directory given in normal form. */
  function JoinPath(directory: string, name: string): (path: string)
  {
    directory + "/" + name
  }

  /** A name `stem.ext` whose `ext` has no dot has suffix `.ext`, whatever the stem holds. */
  lemma SuffixOfStemAndExt(stem: string, ext: string)
    requires |stem| > 0 && |ext| > 0 && '.' !in ext
    ensures Suffix(stem + "." + ext) == "." + ext
  {
    var name := stem + "." + ext;
    var i := RFind(name, '.');
    assert name[|stem|] == '.';
    forall j | |stem| < j < |name| ensures name[j] != '.' {
      assert name[j] == ext[j - |stem| - 1];
    }
    assert i == |stem|;
    assert name[i..] == "." + ext;
  }

  /** Lower-casing a name lower-cases its suffix and nothing more. */
  lemma SuffixLower(name: string)
    ensures Suffix(Lower(name)) == Lower(Suffix(name))
  {
    var low := Lower(name);
    LowerKeeps(name, '.');
    var i, j := RFind(name, '.'), RFind(low, '.');
    assert i == j;
    if 0 < i < |name| - 1 {
      assert low[i..] == Lower(name[i..]);
    }
  }
}
