/**
 * `extract_vm(temp_directory, archiveFile)`: unpack the downloaded archive
 * into the work area, then take the first `.vmdk` entry and the first `.ovf`
 * entry of the work area's top-level listing. The archive library is a
 * parameter: given the archive's path, it either fails or leaves the work
 * area holding the listed entries.
 */
module Extract {
  import opened Wrappers
  import opened PurePath
  import opened Locator
  import opened Download

  /** What the archive library did: the work area's listing afterwards, or its error. */
  datatype ExtractionOutcome = Extracted(listing: seq<string>) | ExtractFailed(reason: string)

  /** The ways `extract_vm` fails: the library raised, or an `[0]` found an empty list. */
  datatype ExtractError = ExtractionError(reason: string) | NoDiskImage | NoDescriptor

  /** The pair `(vmdk_file, ovf_file)` that `extract_vm` returns. */
  datatype VmFiles = VmFiles(vmdk: string, ovf: string)

  const DiskExtension := "vmdk"
  const DescriptorExtension := "ovf"

  /**
   * The first disk image and the first descriptor of the listing. The disk is
   * looked up first, so an archive with neither fails for the disk.
   */
  function ExtractVm(tempDirectory: string, archiveFile: string, extract: string -> ExtractionOutcome)
    : (r: Result<VmFiles, ExtractError>)
    ensures var o := extract(JoinPath(tempDirectory, archiveFile));
      o.ExtractFailed? ==> r == Failure(ExtractionError(o.reason))
    ensures var o := extract(JoinPath(tempDirectory, archiveFile));
      r.Success? <==> o.Extracted? && AnyMatch(o.listing, DiskExtension) && AnyMatch(o.listing, DescriptorExtension)
    ensures var o := extract(JoinPath(tempDirectory, archiveFile));
      o.Extracted? && !AnyMatch(o.listing, DiskExtension) ==> r == Failure(NoDiskImage)
    ensures var o := extract(JoinPath(tempDirectory, archiveFile));
      (o.Extracted? && AnyMatch(o.listing, DiskExtension) && !AnyMatch(o.listing, DescriptorExtension))
      ==> r == Failure(NoDescriptor)
    ensures var o := extract(JoinPath(tempDirectory, archiveFile));
      r.Success? ==> exists k :: (IsFirstMatch(o.listing, DiskExtension, k)
        && r.value.vmdk == JoinPath(tempDirectory, o.listing[k]))
    ensures var o := extract(JoinPath(tempDirectory, archiveFile));
      r.Success? ==> exists k :: (IsFirstMatch(o.listing, DescriptorExtension, k)
        && r.value.ovf == JoinPath(tempDirectory, o.listing[k]))
  {
    match extract(JoinPath(tempDirectory, archiveFile))
    case ExtractFailed(reason) => Failure(ExtractionError(reason))
    case Extracted(listing) =>
      var vmdkFiles := FindFilesWithExtension(tempDirectory, listing, DiskExtension);
      var ovfFiles := FindFilesWithExtension(tempDirectory, listing, DescriptorExtension);
      FindEmpty(tempDirectory, listing, DiskExtension);
      FindEmpty(tempDirectory, listing, DescriptorExtension);
      if |vmdkFiles| == 0 then Failure(NoDiskImage)
      else if |ovfFiles| == 0 then Failure(NoDescriptor)
      else
        FindFirst(tempDirectory, listing, DiskExtension);
        FindFirst(tempDirectory, listing, DescriptorExtension);
        Success(VmFiles(vmdkFiles[0], ovfFiles[0]))
  }

  /**
   * The script hands `download_vm`'s result straight to `extract_vm`: the only
   * file the extraction reads is the one the download wrote.
   */
  lemma ExtractionReadsDownload(url: string, tempDir: string,
                                e1: string -> ExtractionOutcome, e2: string -> ExtractionOutcome)
    requires e1(DownloadTarget(tempDir, url)) == e2(DownloadTarget(tempDir, url))
    ensures ExtractVm(tempDir, ArchiveName(url), e1) == ExtractVm(tempDir, ArchiveName(url), e2)
  {
  }
}
