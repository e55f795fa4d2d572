# New-VulnhubVM: file location and command text

`New-VulnhubVM.py` fetches a Vulnhub virtual machine archive, unpacks it into
a temporary work area, picks out the VMware disk image (`.vmdk`) and the OVF
descriptor (`.ovf`), and drives Proxmox's `qm` tool to import and configure the
machine. This project models the deterministic part of that script in Dafny:

- **Download** — the archive is named after the last `/`-separated segment of
  the URL (`url.split('/')[-1]`) and written to `{temp_dir}/{vm_archive}`.
- **PurePath** — pathlib's `suffix` (the text from the last dot, only when that
  dot is neither the first nor the last character of the name) and the
  `as_posix` path of a directory entry.
- **Locator** — `find_files_with_extension`: a leading dot is added to the
  requested extension, then the listing is filtered, in order, to the entries
  whose suffix equals it ignoring case.
- **Extract** — `extract_vm`: the archive library is a function parameter;
  the result is the first disk image and the first descriptor of the work
  area's listing, or the error the script would raise (the library's error,
  or an `IndexError` for an empty list, disk looked up first).
- **Shell** and **QmCommands** — the `mkdir`, `rm` and `qm` command lines, each
  stated through the words `/bin/sh` hands to the command (a reference word
  scanner), plus the two structured `qm` option values (the boot volume
  `storage:VMID/vm-VMID-disk-1.qcow2` and the net spec
  `model=virtio,bridge=BRIDGE`) stated through the fields Proxmox reads out of
  them.
- **Text** and **Wrappers** — ASCII lower-casing, `str.split` with a
  one-character separator and its inverse `join`, `Option` and `Result`.

The model follows the code as written: the listing is the top level of the work area only (`iterdir`, no
recursion); directories whose name matches are returned like files (there is
no `is_file` test); no VMID is allocated (the status check at line 69 is
commented out); no file name is sanitised and no descriptor rewritten.

## Model

| member | source | states |
|---|---|---|
| Locator.NormaliseExtension | New-VulnhubVM.py:61-62 | the result starts with `.`; an extension already starting with `.` is unchanged; otherwise it is the extension with exactly one `.` in front |
| Locator.NormaliseTwice | New-VulnhubVM.py:61-62 | normalising twice equals normalising once |
| PurePath.Suffix | New-VulnhubVM.py:63 | the suffix is empty exactly when the name ends in `.` or has no `.` after its first character; otherwise it is the tail of the name from its last `.`, has at least one character after the dot, is shorter than the name, and holds no other `.` |
| PurePath.SuffixOfStemAndExt | New-VulnhubVM.py:63 | `stem.ext` with a non-empty stem and a dot-free non-empty `ext` has suffix `.ext` |
| PurePath.SuffixLower | New-VulnhubVM.py:63 | taking the suffix commutes with lower-casing |
| PurePath.JoinPath | New-VulnhubVM.py:34 | the `as_posix` path of an entry and the `f"{temp_dir}/..."` paths; no contract of its own, its meaning is given by the `Locator.FindSound` and `Download.DownloadTarget` rows |
| Locator.Matches | New-VulnhubVM.py:63 | the filter condition `file.suffix.lower() == extension.lower()`; no contract of its own, its meaning is given by the `Locator.MatchIgnoresCase` and `Locator.StemAndExtMatch` rows |
| Locator.Comprehension | New-VulnhubVM.py:63 | the list comprehension: the result is no longer than the input; `Locator.ComprehensionSound`, `ComprehensionComplete`, `ComprehensionConcat` and `ComprehensionFirst` prove it keeps exactly the kept elements, mapped, in order |
| Locator.FindFilesWithExtension | New-VulnhubVM.py:59-63 | the result has at most as many paths as the listing has entries |
| Locator.FindSound | New-VulnhubVM.py:63 | every returned path is `directory/name` for a listing entry `name` whose suffix matches |
| Locator.FindComplete | New-VulnhubVM.py:63 | every matching entry's path is in the result |
| Locator.FindConcat | New-VulnhubVM.py:63 | the result for listing `a + b` is the result for `a` followed by the result for `b` (an order-preserving filter) |
| Locator.FindOne | New-VulnhubVM.py:63 | a one-entry listing yields that entry's path exactly when the entry matches, and nothing otherwise |
| Locator.FindEmpty | New-VulnhubVM.py:63 | the result is empty exactly when no entry matches |
| Locator.FindFirst | New-VulnhubVM.py:63 | a non-empty result starts with the path of the first matching entry |
| Locator.MatchIgnoresCase | New-VulnhubVM.py:63 | names equal up to case, and extensions equal up to case, match alike |
| Locator.NormaliseLower | New-VulnhubVM.py:61-63 | normalising and lower-casing commute |
| Locator.EmptySuffixNeverMatches | New-VulnhubVM.py:63 | a name with an empty suffix matches no extension |
| Locator.DotNamesNeverMatch | New-VulnhubVM.py:63 | `.vmdk` and `disk.` match no extension |
| Locator.UnmatchableName | New-VulnhubVM.py:61-63 | an extension that normalises to a bare `.` or to text with a second `.` (`tar.gz`) matches no name |
| Locator.UnmatchableExtension | New-VulnhubVM.py:61-63 | for such an extension the result is empty whatever the listing |
| Locator.StemAndExtMatch | New-VulnhubVM.py:63 | `stem.ext` matches exactly when `.ext` equals the normalised extension up to case |
| Locator.UpperDiskMatches | New-VulnhubVM.py:63 | `a.VMDK` matches `vmdk` |
| Locator.LowerDiskMatches | New-VulnhubVM.py:63 | `b.vmdk` matches `vmdk` |
| Locator.TextDoesNotMatch | New-VulnhubVM.py:63 | `c.txt` does not match `vmdk` |
| Locator.FindTwoOfThree | New-VulnhubVM.py:63 | of three entries where the first two match and the third does not, the result is the paths of the first two, in order |
| Locator.FindExample | New-VulnhubVM.py:59-63 | the listing `a.VMDK`, `b.vmdk`, `c.txt` searched for `vmdk` gives the paths of `a.VMDK` and `b.vmdk`, in that order |
| Locator.OnlyLastSuffixCounts | New-VulnhubVM.py:63 | `disk.vmdk.gz` does not match `vmdk` |
| Text.Lower | New-VulnhubVM.py:63 | `str.lower` on ASCII: the result has the input's length and each character is the lower-case form of the input's character at that position |
| Text.Split | New-VulnhubVM.py:27 | `str.split` with one separator character: there is at least one piece and no piece holds the separator (with `Text.JoinSplit`, this fixes the pieces) |
| Text.JoinSplit | New-VulnhubVM.py:27 | joining the pieces of a split with the separator gives back the text |
| Text.SplitJoin | New-VulnhubVM.py:27 | splitting a join of separator-free pieces gives back the pieces |
| Text.LastPieceIsTail | New-VulnhubVM.py:27 | the last piece of a split is a tail of the text that is either all of it or preceded by the separator |
| Download.ArchiveName | New-VulnhubVM.py:27 | the archive name holds no `/`, is a tail of the URL, and is either the whole URL or preceded by a `/` |
| Download.ArchiveNameUnique | New-VulnhubVM.py:27 | any text with those three properties is the archive name |
| Download.TrailingSlashGivesEmptyName | New-VulnhubVM.py:27 | a URL ending in `/` gives the empty name |
| Download.ArchiveNameExample | New-VulnhubVM.py:27 | `https://download.vulnhub.com/kioptrix/Kioptrix_Level_1.rar` gives `Kioptrix_Level_1.rar` |
| Download.DownloadTarget | New-VulnhubVM.py:34 | the written file lies directly in the work area: `tempDir/` is its prefix and the rest of it is exactly the URL's archive name, which is also its own archive name |
| Extract.ExtractVm | New-VulnhubVM.py:46-55 | the library's failure is passed on; success exactly when the listing holds a disk image and a descriptor; no disk gives `NoDiskImage`, a disk but no descriptor gives `NoDescriptor`; on success the two paths are those of the first matching entries |
| Extract.ExtractionReadsDownload | New-VulnhubVM.py:34 | two archive libraries that agree on the downloaded file give the same extraction result, so extraction reads exactly the file the download wrote |
| Shell.ShellWordsOfRender | New-VulnhubVM.py:70-71 | a line written out from well-formed bare and double-quoted arguments, the first a bare command name (no `=`, not a reserved word), reaches the command as exactly those arguments |
| Shell.ScanRender | New-VulnhubVM.py:70-71 | scanning such a line appends exactly the argument texts to the words already found |
| Shell.ScanArg | New-VulnhubVM.py:70 | a bare plain word or a double-quoted text without `"`, `$`, backquote or backslash scans to its own text |
| QmCommands.MakeWorkAreaCommand | New-VulnhubVM.py:31 | for a plain work-area path, the shell runs `mkdir` with words `-p` and the path |
| QmCommands.CleanUpCommand | New-VulnhubVM.py:83-86 | for a plain path, the shell runs `rm` with words `-rf` and the path |
| QmCommands.CleanUpSplitsBlankPath | New-VulnhubVM.py:85 | the path is not quoted: `/tmp/a b` reaches `rm` as the two paths `/tmp/a` and `b` |
| QmCommands.ImportOvfCommand | New-VulnhubVM.py:70 | `qm` receives `importovf`, the VMID, the descriptor path as one word, the storage, `--format`, `qcow2` |
| QmCommands.ImportDiskCommand | New-VulnhubVM.py:71 | `qm` receives `importdisk`, the VMID, the disk path as one word, the storage, `--format`, `qcow2` |
| QmCommands.BootDiskRef | New-VulnhubVM.py:77 | the volume splits at `:` into the storage and a name that splits at `/` into the VMID and `vm-VMID-disk-1.qcow2` |
| QmCommands.QuotableBootDiskRef | New-VulnhubVM.py:77 | the volume can be double-quoted whenever the storage and VMID can |
| QmCommands.AttachBootDiskCommand | New-VulnhubVM.py:77 | `qm` receives `set`, the VMID, `-sata0` and the boot volume as one word |
| QmCommands.SetBootOrderCommand | New-VulnhubVM.py:78 | `qm` receives `set`, the VMID, `-boot` and `order=sata0` |
| QmCommands.BootsFromAttachedDisk | New-VulnhubVM.py:77-78 | the boot order names exactly the slot the disk is attached to |
| QmCommands.AttachNetworkCommand | New-VulnhubVM.py:79 | `qm` receives `set`, the VMID, `-net0` and the net spec as one word |
| QmCommands.NetSpec | New-VulnhubVM.py:79 | the net spec has two comma-separated fields, `model=virtio` and `bridge=BRIDGE` |

## Left out

- The HTTP transfer and the chunked write loop (New-VulnhubVM.py:32-36): network and file I/O. Only the name and path of the written file are modelled. For a URL ending in `/` that path is the work area itself (`Download.TrailingSlashGivesEmptyName`); the script's `open` then fails, its error path (New-VulnhubVM.py:38-42) cleans up and exits, and extraction is never reached. That failure path is not modelled.
- The archive library (`patoolib.extract_archive`): foreign code. It is a function parameter from the archive's path to either an error or the work area's listing afterwards.
- `Path(directory).iterdir()`: the listing is an input sequence of entry names, in the order the operating system returns them.
- Running the commands (`subprocess.run(..., shell=True)`) and whether they succeed: only the command lines, and the words the shell makes of them, are modelled.
- Shell: the word scanner covers only plain lines. Outside quotes it accepts letters, digits and `-_./:=,+@%`; any other character gives `None` rather than a model of expansion, globbing, redirection or escapes.
- QmCommands.MakeWorkAreaCommand: the words are stated only for plain arguments (a bare word of safe characters, a quoted text without `"`, `$`, backquote or backslash), because other inputs are outside the word scanner.
- QmCommands.CleanUpCommand: the words are stated only for plain arguments (a bare word of safe characters, a quoted text without `"`, `$`, backquote or backslash), because other inputs are outside the word scanner.
- QmCommands.ImportOvfCommand: the words are stated only for plain arguments (a bare word of safe characters, a quoted text without `"`, `$`, backquote or backslash), because other inputs are outside the word scanner.
- QmCommands.ImportDiskCommand: the words are stated only for plain arguments (a bare word of safe characters, a quoted text without `"`, `$`, backquote or backslash), because other inputs are outside the word scanner.
- QmCommands.AttachBootDiskCommand: the words are stated only for plain arguments (a bare word of safe characters, a quoted text without `"`, `$`, backquote or backslash), because other inputs are outside the word scanner.
- QmCommands.SetBootOrderCommand: the words are stated only for plain arguments (a bare word of safe characters, a quoted text without `"`, `$`, backquote or backslash), because other inputs are outside the word scanner.
- QmCommands.AttachNetworkCommand: the words are stated only for plain arguments (a bare word of safe characters, a quoted text without `"`, `$`, backquote or backslash), because other inputs are outside the word scanner.
- QmCommands.BootDiskRef: the fields are stated only when the storage holds no `:` and the VMID no `:` or `/`, because otherwise Proxmox's own parse of the value differs.
- QmCommands.NetSpec: the fields are stated only when the bridge holds no `,` or `=`, because otherwise Proxmox's own parse of the value differs.
- Shell.ShellWordsOfRender: stated only for a line whose first word is a bare command name; a first word that is an assignment (`A=b`) or a reserved word (`if`) is scanned like any other word, and what the shell does with it is not modelled. Every line the script builds starts with `mkdir`, `rm` or `qm`.
- `argparse`, the top-level sequence of calls, `tempfile`, `sys.exit` and the progress messages. The VMID is taken as text: when `--id` is omitted the script's f-strings write the text `None` where the VMID goes.
- `str.lower` is modelled for ASCII letters only; other characters are left unchanged.
- pathlib's normalisation of the directory text (repeated or trailing `/`): the work-area directory is taken as already normal, so a path is `directory + "/" + name`.
- PurePath.Suffix follows pathlib up to Python 3.13; Python 3.14 also treats a trailing `.` as a suffix.
