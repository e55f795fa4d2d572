/**
 * `find_files_with_extension(directory, extension)`: the entries of one
 * directory listing whose final suffix equals the requested extension,
 * ignoring case. The listing (`Path(directory).iterdir()`) is an input here,
 * a sequence of entry names in the order the operating system returned them.
 */
module Locator {
  import opened Text
  import opened PurePath

  /** The requested extension with a leading dot added when it has none. */
  function NormaliseExtension(extension: string): (ext: string)
    ensures |ext| > 0 && ext[0] == '.'
    ensures |extension| > 0 && extension[0] == '.' ==> ext == extension
    ensures |extension| <= |ext| <= |extension| + 1 && ext[|ext| - |extension|..] == extension
  {
    if |extension| > 0 && extension[0] == '.' then extension else "." + extension
  }

  /** The filter condition of the comprehension: suffixes compared after lower-casing. */
  predicate Matches(name: string, extension: string)
  {
    Lower(Suffix(name)) == Lower(NormaliseExtension(extension))
  }

  /** Python's list comprehension `[f(x) for x in xs if keep(x)]`. */
  function Comprehension<T, U>(xs: seq<T>, keep: T -> bool, f: T -> U): (ys: seq<U>)
    ensures |ys| <= |xs|
    decreases |xs|
  {
    if |xs| == 0 then []
    else (if keep(xs[0]) then [f(xs[0])] else []) + Comprehension(xs[1..], keep, f)
  }

  /** The paths of the directory entries whose suffix matches, in listing order. */
  function FindFilesWithExtension(directory: string, listing: seq<string>, extension: string): (found: seq<string>)
    ensures |found| <= |listing|
  {
    Comprehension(listing, n => Matches(n, extension), n => JoinPath(directory, n))
  }

  /** Some entry of the listing matches. */
  predicate AnyMatch(listing: seq<string>, extension: string)
  {
    exists k :: 0 <= k < |listing| && Matches(listing[k], extension)
  }

  /** Entry `k` is the first entry of the listing that matches. */
  predicate IsFirstMatch(listing: seq<string>, extension: string, k: int)
  {
    && 0 <= k < |listing|
    && Matches(listing[k], extension)
    && forall j :: 0 <= j < k ==> !Matches(listing[j], extension)
  }

  lemma {:induction false} ComprehensionSound<T, U>(xs: seq<T>, keep: T -> bool, f: T -> U, y: U)
    requires y in Comprehension(xs, keep, f)
    ensures exists i :: 0 <= i < |xs| && keep(xs[i]) && y == f(xs[i])
    decreases |xs|
  {
    if !(keep(xs[0]) && y == f(xs[0])) {
      ComprehensionSound(xs[1..], keep, f, y);
      var i :| 0 <= i < |xs[1..]| && keep(xs[1..][i]) && y == f(xs[1..][i]);
      assert xs[1..][i] == xs[i + 1];
    }
  }

  lemma {:induction false} ComprehensionComplete<T, U>(xs: seq<T>, keep: T -> bool, f: T -> U, i: int)
    requires 0 <= i < |xs| && keep(xs[i])
    ensures f(xs[i]) in Comprehension(xs, keep, f)
    decreases |xs|
  {
    if i > 0 {
      assert xs[1..][i - 1] == xs[i];
      ComprehensionComplete(xs[1..], keep, f, i - 1);
    }
  }

  lemma {:induction false} ComprehensionConcat<T, U>(a: seq<T>, b: seq<T>, keep: T -> bool, f: T -> U)
    ensures Comprehension(a + b, keep, f) == Comprehension(a, keep, f) + Comprehension(b, keep, f)
    decreases |a|
  {
    if |a| == 0 {
      assert a + b == b;
    } else {
      var head := if keep(a[0]) then [f(a[0])] else [];
      assert (a + b)[0] == a[0];
      assert (a + b)[1..] == a[1..] + b;
      assert Comprehension(a + b, keep, f) == head + Comprehension(a[1..] + b, keep, f);
      assert Comprehension(a, keep, f) == head + Comprehension(a[1..], keep, f);
      ComprehensionConcat(a[1..], b, keep, f);
    }
  }

  lemma {:induction false} ComprehensionFirst<T, U>(xs: seq<T>, keep: T -> bool, f: T -> U)
    ensures Comprehension(xs, keep, f) == [] <==> forall i :: 0 <= i < |xs| ==> !keep(xs[i])
    ensures Comprehension(xs, keep, f) != [] ==>
      exists k :: 0 <= k < |xs| && keep(xs[k]) && (forall j :: 0 <= j < k ==> !keep(xs[j]))
        && Comprehension(xs, keep, f)[0] == f(xs[k])
    decreases |xs|
  {
    if |xs| > 0 && !keep(xs[0]) {
      var tail := xs[1..];
      ComprehensionFirst(tail, keep, f);
      forall i | 0 < i < |xs| ensures xs[i] == tail[i - 1] { }
      if Comprehension(tail, keep, f) != [] {
        var k :| 0 <= k < |tail| && keep(tail[k]) && (forall j :: 0 <= j < k ==> !keep(tail[j]))
          && Comprehension(tail, keep, f)[0] == f(tail[k]);
        assert forall j :: 0 <= j < k + 1 ==> !keep(xs[j]);
      }
    }
  }

  /** Every returned path is the path of a matching entry of the listing. */
  lemma FindSound(directory: string, listing: seq<string>, extension: string, p: string)
    requires p in FindFilesWithExtension(directory, listing, extension)
    ensures exists n :: n in listing && Matches(n, extension) && p == JoinPath(directory, n)
  {
    ComprehensionSound(listing, n => Matches(n, extension), n => JoinPath(directory, n), p);
  }

  /** No matching entry is left out. */
  lemma FindComplete(directory: string, listing: seq<string>, extension: string, n: string)
    requires n in listing && Matches(n, extension)
    ensures JoinPath(directory, n) in FindFilesWithExtension(directory, listing, extension)
  {
    var i :| 0 <= i < |listing| && listing[i] == n;
    ComprehensionComplete(listing, n => Matches(n, extension), n => JoinPath(directory, n), i);
  }

  /**
   * The result is an ordered filter: the listing `a + b` yields the results
   * for `a` followed by those for `b`.
   */
  lemma FindConcat(directory: string, a: seq<string>, b: seq<string>, extension: string)
    ensures FindFilesWithExtension(directory, a + b, extension)
         == FindFilesWithExtension(directory, a, extension) + FindFilesWithExtension(directory, b, extension)
  {
    ComprehensionConcat(a, b, n => Matches(n, extension), n => JoinPath(directory, n));
  }

  /** The result is empty exactly when no entry of the listing matches. */
  lemma FindEmpty(directory: string, listing: seq<string>, extension: string)
    ensures FindFilesWithExtension(directory, listing, extension) == [] <==> !AnyMatch(listing, extension)
  {
    ComprehensionFirst(listing, n => Matches(n, extension), n => JoinPath(directory, n));
  }

  /** A non-empty result starts with the path of the first matching entry. */
  lemma FindFirst(directory: string, listing: seq<string>, extension: string)
    requires FindFilesWithExtension(directory, listing, extension) != []
    ensures exists k :: (IsFirstMatch(listing, extension, k)
      && FindFilesWithExtension(directory, listing, extension)[0] == JoinPath(directory, listing[k]))
  {
    ComprehensionFirst(listing, n => Matches(n, extension), n => JoinPath(directory, n));
  }

  /** Normalising is idempotent. */
  lemma NormaliseTwice(extension: string)
    ensures NormaliseExtension(NormaliseExtension(extension)) == NormaliseExtension(extension)
  {
  }

  /** Case is ignored on both sides: names and extensions equal up to case match alike. */
  lemma MatchIgnoresCase(name: string, name': string, extension: string, extension': string)
    requires Lower(name) == Lower(name') && Lower(extension) == Lower(extension')
    ensures Matches(name, extension) <==> Matches(name', extension')
  {
    SuffixLower(name);
    SuffixLower(name');
    LowerIdempotent(Suffix(name));
    LowerIdempotent(Suffix(name'));
    NormaliseLower(extension);
    NormaliseLower(extension');
    LowerIdempotent(NormaliseExtension(extension));
    LowerIdempotent(NormaliseExtension(extension'));
  }

  lemma NormaliseLower(extension: string)
    ensures NormaliseExtension(Lower(extension)) == Lower(NormaliseExtension(extension))
  {
    LowerKeeps(extension, '.');
    if !(|extension| > 0 && extension[0] == '.') {
      assert Lower("." + extension) == "." + Lower(extension);
    }
  }

  /**
   * A name with an empty suffix (`.vmdk`, `disk.`, `README`) never matches,
   * whatever extension is asked for.
   */
  lemma EmptySuffixNeverMatches(name: string, extension: string)
    requires Suffix(name) == ""
    ensures !Matches(name, extension)
  {
    assert |Lower(NormaliseExtension(extension))| > 0;
  }

  /**
   * An extension that normalises to a bare dot, or to text with a second dot
   * (`tar.gz`), matches nothing: a suffix is a dot and at least one more
   * character, with no dot after the first.
   */
  lemma UnmatchableExtension(directory: string, listing: seq<string>, extension: string)
    requires var ext := NormaliseExtension(extension);
      |ext| == 1 || exists k :: 0 < k < |ext| && ext[k] == '.'
    ensures FindFilesWithExtension(directory, listing, extension) == []
  {
    forall i | 0 <= i < |listing| ensures !Matches(listing[i], extension) {
      UnmatchableName(listing[i], extension);
    }
    FindEmpty(directory, listing, extension);
  }

  lemma UnmatchableName(name: string, extension: string)
    requires var ext := NormaliseExtension(extension);
      |ext| == 1 || exists k :: 0 < k < |ext| && ext[k] == '.'
    ensures !Matches(name, extension)
  {
    LowerKeeps(NormaliseExtension(extension), '.');
    LowerKeeps(Suffix(name), '.');
  }

  /** A one-entry listing yields that entry's path exactly when it matches. */
  lemma FindOne(directory: string, name: string, extension: string)
    ensures FindFilesWithExtension(directory, [name], extension)
         == if Matches(name, extension) then [JoinPath(directory, name)] else []
  {
    assert [name][1..] == [];
  }

  /** `stem.ext` matches when `.ext` and the normalised request agree up to case. */
  lemma StemAndExtMatch(stem: string, ext: string, extension: string)
    requires |stem| > 0 && |ext| > 0 && '.' !in ext
    ensures Matches(stem + "." + ext, extension) <==> Lower("." + ext) == Lower(NormaliseExtension(extension))
  {
    SuffixOfStemAndExt(stem, ext);
  }

  lemma UpperDiskMatches()
    ensures Matches("a.VMDK", "vmdk")
  {
    StemAndExtMatch("a", "VMDK", "vmdk");
    assert "a" + "." + "VMDK" == "a.VMDK";
    assert Lower(".VMDK") == ".vmdk";
  }

  lemma LowerDiskMatches()
    ensures Matches("b.vmdk", "vmdk")
  {
    StemAndExtMatch("b", "vmdk", "vmdk");
    assert "b" + "." + "vmdk" == "b.vmdk";
    assert Lower(".vmdk") == ".vmdk";
  }

  lemma TextDoesNotMatch()
    ensures !Matches("c.txt", "vmdk")
  {
    StemAndExtMatch("c", "txt", "vmdk");
    assert "c" + "." + "txt" == "c.txt";
    assert Lower(".txt") == ".txt";
    assert Lower(".vmdk") == ".vmdk";
  }

  lemma ComprehensionTwoOfThree<T, U>(x: T, y: T, z: T, keep: T -> bool, f: T -> U)
    requires keep(x) && keep(y) && !keep(z)
    ensures Comprehension([x, y, z], keep, f) == [f(x), f(y)]
  {
    assert [x, y, z][1..] == [y, z];
    assert [y, z][1..] == [z];
    assert [z][1..] == [];
    assert Comprehension([z], keep, f) == [];
    assert Comprehension([y, z], keep, f) == [f(y)];
  }

  /** Of three entries, the first two match and the third does not. */
  lemma FindTwoOfThree(directory: string, x: string, y: string, z: string, extension: string)
    requires Matches(x, extension) && Matches(y, extension) && !Matches(z, extension)
    ensures FindFilesWithExtension(directory, [x, y, z], extension) == [JoinPath(directory, x), JoinPath(directory, y)]
  {
    ComprehensionTwoOfThree(x, y, z, n => Matches(n, extension), n => JoinPath(directory, n));
  }

  /** The example listing `a.VMDK`, `b.vmdk`, `c.txt`: the two disks match `vmdk`, in order. */
  lemma FindExample(directory: string)
    ensures FindFilesWithExtension(directory, ["a.VMDK", "b.vmdk", "c.txt"], "vmdk")
         == [JoinPath(directory, "a.VMDK"), JoinPath(directory, "b.vmdk")]
  {
    UpperDiskMatches();
    LowerDiskMatches();
    TextDoesNotMatch();
    FindTwoOfThree(directory, "a.VMDK", "b.vmdk", "c.txt", "vmdk");
  }

  /** A hidden file `.vmdk` and a name `disk.` ending in a dot match no extension. */
  lemma DotNamesNeverMatch(extension: string)
    ensures !Matches(".vmdk", extension) && !Matches("disk.", extension)
  {
    assert forall k :: 0 < k < |".vmdk"| ==> ".vmdk"[k] != '.';
    EmptySuffixNeverMatches(".vmdk", extension);
    assert "disk."[|"disk."| - 1] == '.';
    EmptySuffixNeverMatches("disk.", extension);
  }

  /** Only the last suffix counts: `disk.vmdk.gz` does not match `vmdk`. */
  lemma OnlyLastSuffixCounts()
    ensures !Matches("disk.vmdk.gz", "vmdk")
  {
    StemAndExtMatch("disk.vmdk", "gz", "vmdk");
    assert "disk.vmdk" + "." + "gz" == "disk.vmdk.gz";
    assert Lower(".gz") == ".gz";
    assert Lower(".vmdk") == ".vmdk";
  }
}
