/**
 * `download_vm(url)`: the archive takes its name from the last
 * `/`-separated segment of the URL and is written into the work area under
 * that name. The HTTP transfer itself is not modelled.
 */
module Download {
  import opened Text
  import opened PurePath

  /**
   * `url.split('/')[-1]`: the text after the last `/` of the URL (the whole
   * URL when it has none). It holds no `/`, it is a tail of the URL, and it
   * is the longest such tail.
   */
  function ArchiveName(url: string): (name: string)
    ensures '/' !in name
    ensures |name| <= |url| && url[|url| - |name|..] == name
    ensures |name| == |url| || url[|url| - |name| - 1] == '/'
  {
    LastPieceIsTail(url, '/');
    var parts := Split(url, '/');
    parts[|parts| - 1]
  }

  /** The three facts above pin the archive name down: nothing else has them. */
  lemma ArchiveNameUnique(url: string, t: string)
    requires '/' !in t
    requires |t| <= |url| && url[|url| - |t|..] == t
    requires |t| == |url| || url[|url| - |t| - 1] == '/'
    ensures t == ArchiveName(url)
  {
  }

  /**
   * A URL that ends in `/` gives an empty archive name, so the download
   * target is the work area itself (`tempDir + "/"`).
   */
  lemma TrailingSlashGivesEmptyName(url: string)
    requires |url| > 0 && url[|url| - 1] == '/'
    ensures ArchiveName(url) == ""
  {
  }

  /** The name of a typical download link is its file name. */
  lemma ArchiveNameExample()
    ensures ArchiveName("https://download.vulnhub.com/kioptrix/Kioptrix_Level_1.rar") == "Kioptrix_Level_1.rar"
  {
    var url := "https://download.vulnhub.com/kioptrix/Kioptrix_Level_1.rar";
    var t := "Kioptrix_Level_1.rar";
    assert url == "https://download.vulnhub.com/kioptrix/" + t;
    ArchiveNameUnique(url, t);
  }

  /**
   * `f"{temp_dir}/{vm_archive}"`: the file the download writes. It lies
   * directly in the work area, and its own name is the archive name.
   */
  function DownloadTarget(tempDir: string, url: string): (path: string)
    ensures |path| > |tempDir| && path[..|tempDir| + 1] == tempDir + "/"
    ensures path[|tempDir| + 1..] == ArchiveName(url)
    ensures ArchiveName(path) == ArchiveName(url)
  {
    var name := ArchiveName(url);
    var path := JoinPath(tempDir, name);
    assert path[|path| - |name|..] == name;
    assert path[|path| - |name| - 1] == '/';
    ArchiveNameUnique(path, name);
    path
  }
}
