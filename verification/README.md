# A verified model of PyInstaller's build pipeline

PyInstaller turns a Python program into an application bundle. Between the module graph and the files on disk lie
several algorithms that work on tables of contents (TOC lists of destination, source and typecode), on byte strings and
on byte code. This project models those with the strongest invariants and proves what they are for.

| files | part of PyInstaller |
|---|---|
| `BundleSpec`, `BundleClassification`, `BundleGeometry`, `BundleInput`, `BundleConsistency`, `BundleOverlaps`, `BundlePaths`, `BundleViews`, `BundleLinks`, `BundleProcess`, `BundleTheorems`, `BundleOrder`, `BundleNames` | the layout of a macOS application bundle (`BUNDLE._process_bundle_toc`) |
| `Bytes`, `ArchiveToc`, `CArchive`, `ArchiveRequests` | the CArchive format: writer, reader, search for the cookie, and the bootloader's split of dependencies |
| `Splash` | the resources of the splash screen: the writer of the build and the reader of the bootloader |
| `Dedup`, `DedupMeaning`, `SymbolicLinks` | de-duplication of TOC lists and preservation of symbolic links |
| `BinaryDependencies`, `DependencyMeaning` | the worklist over binaries and the libraries that they import |
| `ByteScan`, `CallScan`, `CallRecovery`, `CallNumbers`, `CodeSearch` | the byte code scanner that finds calls with constant arguments, in a code object and all nested ones |
| `MergeHistory`, `Merge` | `MERGE`, which shares files between executables |
| `PostGraphHooks`, `PostGraphMeaning`, `HookCache` | the loop over post-graph hooks and the cache of hook scripts |
| `BinaryCache` | the cache of processed binaries |
| `Paths`, `Toc`, `FileTree`, `Ordering`, `Sequences`, `Reachability` | shared vocabulary |

`dafny verify dfyconfig.toml` checks everything.

## How the source is modelled

* The platform is POSIX. A path is the list of its components; an absolute path starts with the component `"/"`.
  `normpath`, `abspath`, `relpath` and joining are functions on such lists (`Paths`), so the text of a path appears only
  where the source looks at characters: the order of the final bundle TOC, and the suffix test of `MERGE`.
* Loops that update variables are methods with loops, and objects whose fields change are classes. Each such method is
  proved equal to a function, or to a description of the result, and the theorems are about those.
* Exceptions are `Result` values, missing values are `Option` values.
* The file system, `ldd`, `zlib`, `marshal`, `strip`, UPX and signing are parameters. What is assumed of them is a
  `requires` clause: decompressing inverts compressing, digests do not collide.
* Names in archives are byte strings; encoding text as UTF-8 and back is not part of the model.

## What is proved, and what turned out to be false

**Bundle layout.** Well-formed input means: destinations are proper relative paths, distinct, and not above one another;
no framework bundle lies inside another; the executable and the PKG are at the top; and replacing dots does not make two
sibling names equal (`DotsApart`). A dot becomes `__dot__`, and every other character stays (`SanitizedConcat`,
`SanitizedChar`); names without the text `__dot` are therefore told apart (`SanitizedInjective`), and a TOC in which no
component has this text meets the condition (`NoMarksWellFormed`). Without it, names such as `._dot__` and `__dot_.`
become equal (`Collision`). For well-formed input, bundle entries have distinct destinations and the final normalization
drops none. The rest depends on where collected symbolic links lie, and for each property the exact condition is proved:

* Nothing is collected at or below a file or link if and only if (`ConsistentExactly`)
  * no directory with binaries, without data, and with a symbolic link as its first entry lies inside a directory
    without data whose first entry is something else (`IsMixedInside`: the inner one is taken for mixed, and its content
    is linked below the link that stands for the outer one), and
  * no symbolic link lies in a directory without binaries and without a dot in its name whose parent is the top or is
    taken for mixed (`IsLinkedOver`: the link is placed below the very link that stands for the directory).

  Then every file is collected to exactly one place, and looking up its original path below `Contents/Frameworks` and
  below `Contents/Resources`, link by link, ends at that place. Links at the top level always meet the condition.
* Every order of the same entries gives the same final TOC if and only if each directory that holds binaries and a
  symbolic link also holds data (`OrderIsIrrelevant`). `LinkFirstExample` has two orders of the same entries, one with a
  consistent layout and one with an entry below a link.
* In a consistent layout, a collected symbolic link whose text names a file leads to that file in both trees if and only
  if each directory above the link that has a dot in its name holds binaries. Otherwise it is found in neither tree:
  such a directory is created without its dots, and nothing has its original name (`LinksShowTargets`,
  `LostLinkExample`).

**Archives.** Writing entries, putting the archive anywhere inside another file and reading it back gives the options in
order and, for each name, the bytes of the last entry under it. In terms of what was asked for: a script, module, link
or file is extracted under its normalized destination, unless that ends in NUL or a later entry takes the name
(`CollectedIsExtracted`). The bootloader splits the name of a dependency into the executable and the destination that it
was written for if and only if neither is empty or has a NUL, the executable's path has no colon, and both fit its
buffer (`DependencyRoundTrip`). The reader finds the right cookie exactly if the magic does not occur after it. A name
survives exactly if it does not end in NUL. The reader's check for a missing Python library name can never fire, because
the field always has 64 bytes (`LibraryNameNeverMissing`). What the build writes for the splash screen is what the
bootloader reads, except that the script is cut if it has more bytes than characters, because its length is written in
characters (`SplashRoundTrip`).

**TOC lists.** De-duplication is the unique list with the first entry of highest priority for every destination, in
order of first appearance; which typecode displaces which is stated without priorities (`TocLists`, `PyzLists`). It is
idempotent and may be done in stages on either side. Preserving symbolic links terminates on cyclic links. If the source
links are acyclic and what they lead to is collected, every chase of the new links from an entry runs along one and the
same path, which ends at an entry whose source is really the same file.

**Binary dependencies.** The growing worklist computes reachability: the libraries appended are exactly those that the
inputs need, directly or not, each once, and no binary is analyzed twice.

**Byte code.** The scan that tries every byte and restarts after a hit inside an instruction yields exactly the matches
of a scan over instructions. In code assembled from any instructions, with arguments of any width and any bytes in them,
the calls that are found are exactly those that the instructions make: the scan fails if and only if some call has a
name, variable or constant number that is out of range, and otherwise returns, in the order of the code, the dotted name
and the constants of each call whose argument count is right (`CallsMeaning`, `CallsInOrder`). The recursive search
returns a result for exactly the code object and all nested ones, and searches each once.

**MERGE.** An entry is kept if and only if no earlier one has its destination and its source and agrees with it on being
a symbolic link (`KeptMeaning`), and every reference leads to the executable that keeps the entry. The test for
self-references compares ends of strings, and is right only in part:

* Bare executables: an entry is dropped exactly if the owner's name ends with this one's (`BareRunDrops`), so `app`
  loses what only `myapp` keeps (`BareDropExample`). The test is right in every run over some executables if and only if
  no name of theirs ends with another (`BareRunsAreRight`).
* One directory for each executable: a reference of an executable to itself is never recognized, and the only entries
  dropped are lost ones, as `app/main` beside `myapp/main` (`FolderRunDrops`, `FolderDropExample`).

**Hooks.** The loop terminates, runs each hook at most once, and leaves only hooks of modules that are not in the graph.
The last hook to set the collection mode of a package wins (`ModesMeaning`). If hooks only add imports, the final graph
is the least one closed under imports and hidden imports, whatever the order.

**Cache of binaries.** In a run of calls that return normally, every result has the content that processing its source
gives at that time. A call that raises an exception keeps the cache consistent exactly if the index had no entry for the
file or the content is the one that was there (`FailureKeepsConsistency`). Strict architecture validation is not part of
the key: where processing finds the wrong architecture, a strict call raises an exception exactly if the index does not
list its content (`StrictnessFires`), that is, unless the last call that recorded something for its file was a lenient
one with the same source (`StrictnessIsForgotten`).

## Model

| member | source | states |
|---|---|---|
| BundleProcess.ClassifyOne | PyInstaller/building/osx.py:322-353 | one turn of the first loop computes the reclassification of all directories above an entry, innermost first, with a framework bundle standing for its files |
| BundleProcess.CrossLinkDirs | PyInstaller/building/osx.py:360-389 | the second loop appends a link for each directory of one kind whose parent is the top or mixed, in dictionary order |
| BundleProcess.LinkDottedDirs | PyInstaller/building/osx.py:401-423 | the third loop appends a link for each binary or mixed directory with a dot in its name |
| BundleProcess.PlaceFiles | PyInstaller/building/osx.py:428-490 | the fourth loop places every entry and adds its link in the other tree where one is due |
| BundleProcess.SanitizeToc | PyInstaller/building/osx.py:498-532 | the fifth loop rewrites the directories of all paths outside `Resources`, up to a framework bundle |
| BundleProcess.ProcessBundleToc | PyInstaller/building/osx.py:309-539 | the five loops, normalization and sorting give the final TOC that the theorems are about |
| BundleClassification.ClassifyMeaning | PyInstaller/building/osx.py:322-353 | the computed type of any directory, after any number of entries: framework if innermost for some entry, else binary, data or mixed by what lies below, except that a binary-only directory whose first entry is neither is mixed |
| BundleClassification.ClassificationIsDeclared | PyInstaller/building/osx.py:333-353 | the computed types agree with the content of the directories if and only if no binary-only directory starts with an entry of another kind |
| BundleOverlaps.ConsistentExactly | PyInstaller/building/osx.py:360-537 | for well-formed input, destinations are distinct and no entry lies at or below another, if and only if no directory is mixed inside one linked as a whole and no symbolic link lies below the link of its own directory |
| BundleViews.BothTreesShowFile | PyInstaller/building/osx.py:230-287 | each data file, binary and extension, in a framework or not, is at its one place, and its original path resolves to that place in both trees |
| BundleViews.OnlyTheFileIsShown | PyInstaller/building/osx.py:230-287 | looked up in either tree, that path leads nowhere else |
| BundleViews.FilesAreEntries | PyInstaller/building/osx.py:428-490 | the files in the bundle are exactly the entries that are not links, each at its place |
| BundleViews.PlacesDiffer | PyInstaller/building/osx.py:428-532 | the places of two entries are never equal nor above one another |
| BundleTheorems.NormalizationKeepsAll | PyInstaller/building/osx.py:536-537 | for any well-formed input, the final normalization changes nothing |
| BundleTheorems.FinalTocMeaning | PyInstaller/building/osx.py:536-539 | the final TOC is a permutation of the bundle entries, in strict order of their destinations, and collecting it gives the same tree |
| BundleTheorems.NoDotsInFrameworks | PyInstaller/building/osx.py:391-397 | for every input, a directory in `Frameworks` with a dot in its name is, or lies inside, a framework bundle |
| BundleTheorems.CrossLinksLand | PyInstaller/building/osx.py:146-153 | read from its sanitized place, the text of each link between the trees climbs to `Contents` and names the original path in the other tree |
| BundleTheorems.OriginalNamesResolve | PyInstaller/building/osx.py:391-423 | each directory with binaries is reached under its original name and is a directory without dots in its path |
| BundleOrder.OrderIsIrrelevant | PyInstaller/building/osx.py:492-498 | for well-formed input, every reordering gives the same final TOC if and only if each directory with binaries and a symbolic link holds data |
| BundleOverlaps.LinksAtTopArePlaceable | PyInstaller/building/osx.py:474-480 | without symbolic links below the top level the condition of a consistent layout holds |
| BundleOverlaps.LinkInDataDirOverlaps | PyInstaller/building/osx.py:461-480 | a symbolic link in a linked data directory without a dot in its name is placed below the link of that directory |
| BundleOverlaps.LinkInDataDirExample | PyInstaller/building/osx.py:461-480 | the smallest such TOC, for any names |
| BundleOverlaps.MixedInBinaryDirOverlaps | PyInstaller/building/osx.py:468-490 | a binary linked one by one below a directory that is linked as a whole lies below a link |
| BundleOrder.LinkFirstExample | PyInstaller/building/osx.py:344-345 | with a link first, the bundle overlaps; with the same link last, it is consistent, and the final TOC is another |
| BundleLinks.LinksShowTargets | PyInstaller/building/osx.py:271-275 | in a consistent layout, a link whose text names a content entry leads to the place of that entry, in both trees or in neither: in both if and only if each directory with a dot above it holds binaries |
| BundleNames.SanitizedConcat | PyInstaller/building/osx.py:522-526 | dots are replaced where they stand: the replacement of a text is that of its parts |
| BundleNames.SanitizedChar | PyInstaller/building/osx.py:30 | a dot becomes `__dot__`, any other character stays |
| BundleNames.SanitizedInjective | PyInstaller/building/osx.py:522-526 | names without the text `__dot` stay different |
| BundleNames.Collision | PyInstaller/building/osx.py:522-526 | names with such a text can become equal |
| BundleNames.NoMarksWellFormed | PyInstaller/building/osx.py:492-498 | if no component has the text `__dot`, replacing dots makes no siblings collide, so the input is well-formed |
| BundleNames.FilePlaceMeaning | PyInstaller/building/osx.py:428-526 | the tree of each entry by its typecode, and each component of its place: replaced exactly outside `Resources`, above the entry or its framework bundle |
| BundleNames.ProgramItems | PyInstaller/building/osx.py:431-452 | the program is placed once, its archive in `Resources` with the link `../Resources/name` beside the program |
| BundleLinks.LostLinkExample | PyInstaller/building/osx.py:401-423 | a well-formed TOC with a consistent layout whose link to a binary is found in neither tree |
| Bytes.FindMagicPattern | PyInstaller/archive/readers.py:113-138 | reading chunks from the back, for any chunk size of at least the pattern, finds the last occurrence in the whole file, or none |
| ArchiveToc.SerializeToc | PyInstaller/archive/writers.py:269-301 | the serialized TOC is the concatenation of the packed entries, or an error if a field does not fit |
| ArchiveToc.ParseToc | PyInstaller/archive/readers.py:140-166 | the loop over the data computes the recursive parse, errors included |
| ArchiveToc.TocRoundTrip | PyInstaller/archive/readers.py:140-166 | parsing what was serialized gives the options in order and the last entry for each name, and no other names |
| ArchiveToc.NameRoundTrip | PyInstaller/archive/readers.py:154-155 | a name is read as it was written if and only if it does not end in NUL |
| ArchiveToc.EntryShape | PyInstaller/archive/writers.py:277-298 | an entry is a multiple of 16 bytes and its name is followed by 1 to 16 NULs |
| ArchiveToc.EntryLayout | PyInstaller/archive/writers.py:288-298 | each field of an entry at its offset, numbers with the most significant byte first |
| ArchiveToc.SerializedAligned | PyInstaller/archive/writers.py:280-286 | the whole TOC is a multiple of 16 bytes |
| CArchive.CArchiveWriter.WriteEntry | PyInstaller/archive/writers.py:166-246 | one entry fails exactly if its tracked name was collected before; otherwise its blob is appended and described |
| CArchive.CArchiveWriter.WriteEntries | PyInstaller/archive/writers.py:138-142 | the loop fails exactly if two tracked entries share a normalized name; otherwise the file is the blobs in order |
| CArchive.CArchiveWriter.Write | PyInstaller/archive/writers.py:137-164 | the file is the assembled archive unless a duplicate or a field that does not fit stops it |
| CArchive.CArchiveReader.Open | PyInstaller/archive/readers.py:77-111 | the state after opening, or the error, is that of the specification |
| CArchive.CArchiveReader.Extract | PyInstaller/archive/readers.py:168-186 | what is extracted under a name, or the error, is that of the specification |
| CArchive.LibraryNameNeverMissing | PyInstaller/archive/readers.py:103-105 | no file makes the check of the library name fail |
| CArchive.CookieIsFound | PyInstaller/archive/readers.py:88-101 | the search stops at the archive's own cookie if and only if the magic does not occur after it |
| CArchive.LoadMeaning | PyInstaller/archive/readers.py:87-111 | what opening yields, or which error, once the last magic is found |
| CArchive.NoMagicMeaning | PyInstaller/archive/readers.py:88-91 | the magic is missing if and only if its eight bytes occur nowhere |
| ArchiveRequests.CookieLayout | PyInstaller/archive/writers.py:151-164 | the last 88 bytes of an archive field by field |
| ArchiveRequests.ListedMeaning | PyInstaller/archive/writers.py:166-246 | a name is listed if and only if an entry reads as it: other than an option, with its normalized destination or, for a dependency, `source:destination`; the last such entry is extracted |
| ArchiveRequests.CollectedIsExtracted | PyInstaller/archive/writers.py:174-237 | what each typecode collects is extracted under the normalized destination; its length, compression and code are listed |
| ArchiveRequests.OptionsAreRead | PyInstaller/archive/writers.py:169-172 | the options are the destinations of the option entries, in order |
| ArchiveRequests.DependencyRoundTrip | bootloader/src/pyi_multipkg.c:50-72 | the bootloader splits a dependency into what it was written for, exactly under a condition on both parts |
| ArchiveRequests.DuplicateMeaning | PyInstaller/archive/writers.py:185-203 | strict mode fails exactly if two entries other than options and Python code share a nonempty destination in the case of the file system |
| Bytes.DigitsReadBack | PyInstaller/depend/bytecode.py:212 | a number's digits, most significant first, read back as the number if and only if it fits |
| Bytes.FirstByteWeighs | PyInstaller/depend/bytecode.py:212 | the first byte weighs the most |
| CArchive.EndToEnd | PyInstaller/archive/readers.py:87-111 | an archive between any prefix and suffix is found, and every name extracts to the payload of the last entry written under it |
| Splash.Write | PyInstaller/archive/writers.py:360-423 | the sections follow a header that is written last, or a name or length does not fit its field |
| Splash.WalkNames | bootloader/src/pyi_splash.c:268-271 | the walk over the names computes the recursive split at NULs |
| Splash.NamesRoundTrip | PyInstaller/archive/writers.py:364-372 | the names are read as they were written if and only if none contains a NUL |
| Splash.NamesAreRead | bootloader/src/pyi_splash.c:268-271 | the walk over the names in the file gives the normalized names if and only if none contains a NUL |
| Splash.WritableMeaning | PyInstaller/archive/writers.py:398-420 | the resources can be written if and only if three names have at most 15 bytes and the numbers fit in 32 bits |
| Splash.HeaderLayout | PyInstaller/archive/writers.py:408-420 | each field of the header at its offset |
| Splash.SplashRoundTrip | bootloader/src/pyi_splash.c:94-148 | list of names and image are read as written; the script exactly if it has as many bytes as characters; each library name exactly if it contains no NUL |
| Dedup.NormalizeToc | PyInstaller/building/datastruct.py:342-374 | the loop with its insertion-ordered dictionary computes the specification |
| Dedup.NormalizedMeaning | PyInstaller/building/datastruct.py:342-374 | a list is the result if and only if it holds, for each destination in order of first appearance, the first entry of highest priority |
| DedupMeaning.TocLists | PyInstaller/building/datastruct.py:309-374 | the result entry by entry: options in order, then, in the order of their destinations, the entries that none for the same destination displaces, by typecode |
| DedupMeaning.PyzLists | PyInstaller/building/datastruct.py:330-374 | the same with modules of a higher optimization level displacing those of a lower one |
| Dedup.PyzKeepsHighestLevel | PyInstaller/building/datastruct.py:330-339 | of the entries for one module, one of the highest optimization level is kept |
| Dedup.NormalizedIdempotent | PyInstaller/building/datastruct.py:342-374 | normalizing twice is normalizing once |
| Dedup.NormalizedAbsorbsFront | PyInstaller/building/datastruct.py:342-374 | normalizing the first part beforehand makes no difference |
| Dedup.NormalizedAbsorbsBack | PyInstaller/building/datastruct.py:342-374 | normalizing the second part beforehand makes no difference |
| SymbolicLinks.TryPreservingSymbolicLink | PyInstaller/building/datastruct.py:416-459 | the loop terminates on any links and computes the search |
| SymbolicLinks.ProcessSymbolicLinks | PyInstaller/building/datastruct.py:377-413 | entry by entry, in order, the result is the preserved link or the entry itself |
| SymbolicLinks.PreservedMeaning | PyInstaller/building/datastruct.py:423-457 | a link is preserved if and only if following relative links, without repetition, meets a collected destination whose source is the same file, and it points to the first one |
| SymbolicLinks.FollowedMeaning | PyInstaller/building/datastruct.py:440-444 | following a link leads where its text leads from the directory of the link |
| SymbolicLinks.ChainMeaning | PyInstaller/building/datastruct.py:440-444 | each step reads the same text from the directory of the source and from that of the destination |
| SymbolicLinks.ReachedMeaning | PyInstaller/building/datastruct.py:423-438 | one more step is possible exactly from a link with a relative text that was not followed before |
| SymbolicLinks.ProcessedMeaning | PyInstaller/building/datastruct.py:388-411 | an entry is changed if and only if it is no symbolic link, has a source that is one, and a collected destination for the same file is reached; the first one is its new target |
| SymbolicLinks.NewLinkResolves | PyInstaller/building/datastruct.py:451-454 | read from its own directory, a new link leads to a collected destination |
| SymbolicLinks.ChaseEnds | PyInstaller/building/datastruct.py:377-459 | for acyclic links whose followed names are collected from the followed sources, every chase of new links is a part of one path, which ends; a chase that cannot go on has reached an unchanged entry for the same file |
| BinaryDependencies.SelectDestinationDirectory | PyInstaller/depend/bindepend.py:98-106 | the loop returns the rest of the path below the first ancestor, or the bare name |
| BinaryDependencies.DeepestIsSelected | PyInstaller/depend/bindepend.py:91-106 | on a list sorted by depth the deepest ancestor is used and joining it with the result gives the source |
| BinaryDependencies.SelectionIgnoresTies | PyInstaller/depend/bindepend.py:91-93 | how equally deep paths are ordered makes no difference |
| BinaryDependencies.NeedsMeaning | PyInstaller/depend/bindepend.py:149-163 | the libraries that a binary needs are those of its imports that are resolved and included |
| DependencyMeaning.NestedDestination | PyInstaller/depend/bindepend.py:98-103 | a library below a directory to preserve keeps its path from the deepest one |
| DependencyMeaning.TopLevelDestination | PyInstaller/depend/bindepend.py:177-184 | any other one is collected by its name, except that on macOS a framework is re-created from the last four components |
| DependencyMeaning.LinkMeaning | PyInstaller/depend/bindepend.py:187-208 | a top-level link is added if and only if the platform is not Windows, the library is in a directory, and no pattern suppresses the link |
| DependencyMeaning.SourcesMeaning | PyInstaller/depend/bindepend.py:133-144 | the sources analyzed are those of the entries that are no links |
| BinaryDependencies.DestinationIsTail | PyInstaller/depend/bindepend.py:170-183 | a library is always collected under the last components of its path |
| BinaryDependencies.CollectLibrary | PyInstaller/depend/bindepend.py:170-208 | a library is appended with its destination, and with a link at the top level where one is due |
| BinaryDependencies.AnalyzeDependencies | PyInstaller/depend/bindepend.py:122-208 | the input is a prefix, the rest is one block for each library reachable from the analyzed inputs, none twice, and each source is analyzed once |
| BinaryDependencies.LinksFollowLibraries | PyInstaller/depend/bindepend.py:192-208 | each appended link points to the destination of the library just before it |
| ByteScan.FindIter | PyInstaller/depend/bytecode.py:61-84 | restarting after odd matches terminates and yields exactly the leftmost matches of a scan over even offsets, for any matcher with non-empty matches |
| CallScan.GroupUnique | PyInstaller/depend/bytecode.py:152-187 | a group of extended arguments and one opcode matches in one way only |
| CallScan.MatchUnique | PyInstaller/depend/bytecode.py:152-187 | the greedy matcher finds a match if and only if the regular expression has one there, and it is the only one |
| CallScan.FunctionCalls | PyInstaller/depend/bytecode.py:252-290 | the loop computes the calls of all matches, and fails exactly if one of them does |
| CallRecovery.ArgumentRead | PyInstaller/depend/bytecode.py:201-212 | reading an instruction gives back its opcode and its argument bytes as a number, wherever it lies |
| CallNumbers.NumberRead | PyInstaller/depend/bytecode.py:201-212 | the number of an instruction is read back from its code, for every number and every width that holds it |
| CallNumbers.LongCode | PyInstaller/depend/bytecode.py:201-212 | a number of two bytes is led by EXTENDED_ARG and its more significant byte |
| CallNumbers.ValueMeaning | PyInstaller/depend/bytecode.py:215-240 | which table each opcode indexes, and when the index is out of range |
| CallNumbers.CallsMeaning | PyInstaller/depend/bytecode.py:252-290 | for code assembled from opcodes and numbers: the scan fails if and only if some call has a number out of range; otherwise a record is returned if and only if some call has its dotted name and passes its constants |
| CallNumbers.CallsInOrder | PyInstaller/depend/bytecode.py:257-290 | the records are in the order of the code, one for each such call |
| CallRecovery.LoadsRead | PyInstaller/depend/bytecode.py:243-249 | a run of instructions is split into its instructions and loads their values |
| CallRecovery.MatchInCode | PyInstaller/depend/bytecode.py:152-187 | a match begins at an opcode byte of an instruction if and only if a call begins with that instruction, and its groups are whole instructions |
| CallRecovery.CallsRecovered | PyInstaller/depend/bytecode.py:252-290 | for assembled code the result is what trying every instruction gives |
| CallRecovery.CallsFromMeaning | PyInstaller/depend/bytecode.py:253-290 | the scan fails exactly if some candidate does; otherwise it returns the calls of the candidates and nothing else |
| CallRecovery.CandidatesAreCalls | PyInstaller/depend/bytecode.py:152-187 | a candidate is exactly a name, its attributes, constants and a call |
| CallRecovery.NamedCallOutcome | PyInstaller/depend/bytecode.py:267-288 | what becomes of a call of a dotted name, for every opcode, argument count and list of constants |
| CallRecovery.ConstantCallIsReturned | PyInstaller/depend/bytecode.py:253-290 | a call with as many constants as its count says is returned with its dotted name and those constants |
| CallRecovery.UnpackedCallIsReturned | PyInstaller/depend/bytecode.py:267-276 | a call on an unpacked constant tuple is returned with the items of the tuple |
| CodeSearch.Memo.Search | PyInstaller/depend/bytecode.py:293-306 | results are added for exactly the nested code objects that have none, each by one search |
| CodeSearch.SearchRecursively | PyInstaller/depend/bytecode.py:293-306 | the result covers exactly the code object and all nested ones |
| CodeSearch.WithinMeaning | PyInstaller/depend/bytecode.py:301-303 | nested is what a chain of constants leads to |
| CodeSearch.CompleteInside | PyInstaller/depend/bytecode.py:299-305 | while constants are searched, everything known is known completely, except the code objects that are being searched |
| MergeHistory.KeptOnce | PyInstaller/building/api.py:1226-1277 | in a whole run every key is kept exactly once, by its first occurrence |
| MergeHistory.KeptMeaning | PyInstaller/building/api.py:1253-1279 | an entry is kept if and only if no earlier one has its destination and source and agrees on being a symbolic link; for every entry one such is kept |
| MergeHistory.KeptInOrder | PyInstaller/building/api.py:1248-1301 | the list of what is kept holds exactly the kept entries, in order |
| MergeHistory.ReferencedInOrder | PyInstaller/building/api.py:1248-1301 | the list of references holds exactly the references, in order |
| Merge.HistoryMeaning | PyInstaller/building/api.py:1229-1235 | the entries are met executable by executable, binaries before datas |
| MergeHistory.ReferenceLeadsToOwner | PyInstaller/building/api.py:1281-1299 | a reference joined to the directory of its executable and normalized is the path of the executable that keeps the entry |
| MergeHistory.TextEndsWith | PyInstaller/building/api.py:1289 | one path text ends with another exactly if the last components agree and the one before them ends with the first |
| MergeHistory.LooksLikeSelfMeaning | PyInstaller/building/api.py:1289 | when the suffix test succeeds, in terms of components, for any two executables below the output directory |
| MergeHistory.SelfReferenceRecognized | PyInstaller/building/api.py:1287-1295 | a reference of an executable to itself is recognized if and only if the executable lies directly in the output directory |
| MergeHistory.DroppedMeaning | PyInstaller/building/api.py:1279-1295 | an entry is dropped exactly if it repeats another and the suffix test succeeds |
| MergeHistory.BareRunDrops | PyInstaller/building/api.py:1287-1295 | bare executables: an entry is dropped exactly if it repeats one of an owner whose name ends with this one's |
| MergeHistory.BareRunsAreRight | PyInstaller/building/api.py:1287-1295 | in every run over bare executables exactly the entries are dropped that their own executable keeps, if and only if no name ends with another |
| MergeHistory.FolderRunDrops | PyInstaller/building/api.py:1287-1299 | one directory each: dropped exactly for another owner of the same file name in a directory whose name ends with this one's; self-references stay |
| MergeHistory.BareDropExample | PyInstaller/building/api.py:1289-1295 | an entry of `app` that only `myapp` keeps is dropped |
| MergeHistory.FolderDropExample | PyInstaller/building/api.py:1289-1295 | an entry of `app/main` that only `myapp/main` keeps is dropped |
| Merge.Merger.ProcessEntry | PyInstaller/building/api.py:1253-1299 | one turn of the loop keeps the dictionary and the set in agreement with the entries met and decides the entry's fate |
| Merge.Merger.ProcessToc | PyInstaller/building/api.py:1248-1301 | the two lists are the kept entries and the references, in order |
| Merge.MergeAll | PyInstaller/building/api.py:1216-1246 | after the run every analysis holds what its last turn kept, normalized, and the references for the rest, even if one analysis has several turns |
| PostGraphHooks.PostGraph.Pass | PyInstaller/depend/analysis.py:327-356 | one pass runs the hooks of importable modules and drops those of unimportable ones |
| PostGraphHooks.PostGraph.ProcessPostGraphHooks | PyInstaller/depend/analysis.py:301-363 | the loop terminates; each hook is run at most once and only when importable, is dropped, or remains with its module not in the graph; files, modes and suppressions are those of the hooks that ran |
| PostGraphMeaning.FilesMeaning | PyInstaller/depend/analysis.py:345-347 | each hook that ran adds its files, in the order of running |
| PostGraphMeaning.ModesMeaning | PyInstaller/depend/analysis.py:349-350 | a package has a collection mode exactly if a hook set one, and it is that of the last hook to set it |
| PostGraphMeaning.SuppressionMeaning | PyInstaller/depend/analysis.py:352-353 | a pattern is suppressed exactly if a hook that ran says so |
| PostGraphHooks.GraphGrows | PyInstaller/depend/imphook.py:530-551 | after every hook the graph is closed under imports, holds the hidden imports so far, and nothing without a reason |
| PostGraphHooks.FinalGraphIsLeast | PyInstaller/depend/analysis.py:309-317 | if hooks only import, the final graph is exactly what the initial one reaches by imports and hidden imports |
| PostGraphHooks.HookOrderIsIrrelevant | PyInstaller/depend/analysis.py:327-363 | two runs over the same hooks in any order end in the same graph |
| HookCache.ActiveIsFirst | PyInstaller/depend/imphook.py:127-137 | the first hook after sorting is the one of highest priority that was found first |
| HookCache.CacheMeaning | PyInstaller/depend/imphook.py:102-137 | a module has a hook exactly if some directory has a script for it, and it is the one of highest priority, the first such in the order of the directories |
| HookCache.Cache.constructor | PyInstaller/depend/imphook.py:92-137 | a module has a hook exactly if a script was found, and it is the active one |
| BinaryCache.Disk.ProcessCollectedBinary | PyInstaller/building/utils.py:107-340 | one call changes index and files, and returns, as the state machine says |
| BinaryCache.OptionsMeaning | PyInstaller/building/utils.py:133-168 | when a file is stripped and when it is compressed |
| BinaryCache.SourceMeaning | PyInstaller/building/utils.py:127-172 | the source itself is returned exactly if, after all rules, nothing is to be done |
| BinaryCache.KeyMeaning | PyInstaller/building/utils.py:174-207 | two calls share a file of the cache exactly if they agree on the effective options, the destination and, on macOS, the signing |
| BinaryCache.RaisesMeaning | PyInstaller/building/utils.py:209-334 | a call raises an exception exactly if it processes its source and that fails, or finds the wrong architecture in strict mode |
| BinaryCache.KeyDeterminesProcessing | PyInstaller/building/utils.py:174-201 | two calls with the same directory and file process the same content alike |
| BinaryCache.StepIsCurrent | PyInstaller/building/utils.py:203-340 | a normal call keeps the cache consistent and returns the content that processing the source gives |
| BinaryCache.RunIsConsistent | PyInstaller/building/utils.py:203-340 | the cache stays consistent over any run of normal calls |
| BinaryCache.RunIsCurrent | PyInstaller/building/utils.py:203-340 | every call of such a run returns the content that processing its source gives |
| BinaryCache.IndexedFilesExist | PyInstaller/building/utils.py:218-224 | from a consistent cache, a call raises an exception only because processing does, never because an indexed file is missing |
| BinaryCache.FailureKeepsConsistency | PyInstaller/building/utils.py:218-340 | a failing call keeps consistency if and only if the index had no entry or the same content was there |
| BinaryCache.StrictnessFires | PyInstaller/building/utils.py:203-232 | where processing finds the wrong architecture, a strict call raises an exception if and only if the index does not list this content |
| BinaryCache.StrictnessIsForgotten | PyInstaller/building/utils.py:312-340 | after any run, such a call returns normally if and only if the last call that recorded something for its file was a lenient one with this source |
| Paths.RelPathRoundTrip | PyInstaller/building/api.py:1281-1283 | from the start directory the relative path leads to the path it was computed for |
| Paths.NormPathRules | PyInstaller/building/datastruct.py:351-353 | empty components and "." vanish, a name cancels with the ".." behind it, a root starts over |
| Paths.AbsPathOfNormal | PyInstaller/building/datastruct.py:440-444 | normalizing a path does not change where it leads |
| Ordering.StringLessMeaning | PyInstaller/building/osx.py:536-537 | the order of texts: at the first difference, the end or the smaller character comes first |
| Paths.NormPathIdempotent | PyInstaller/building/datastruct.py:351-353 | normalizing yields a normal path and leaves exactly the normal paths alone |

## Left out

- BundleOverlaps.ConsistentExactly: asks that destinations are related to no other, that frameworks do not nest and that dots stay apart; the source does not check this, and entries that break it are collected over one another.
- BinaryDependencies.AnalyzeDependencies: asks for a finite set of libraries closed under imports, and for a list of symlink suppression patterns, because the source fails without one.
- MergeHistory.SelfReferenceRecognized: is about executables below the output directory whose paths consist of plain names; an empty executable path, for which `relpath` raises an exception, is excluded by a precondition.
- BinaryCache.Disk.ProcessCollectedBinary: keeps the index apart from the cached files, so a binary collected as `index.dat` is not modelled; the Python version and the machine are fixed, and UPX and strip do not change between calls.
- PostGraphHooks.FinalGraphIsLeast: the module graph is a set of names with a closure operator; hooks that remove references, and imports with side effects on other hooks, are covered only by the general result on the loop.
- CallScan.FunctionCalls: the dialect of Python 3.10 and earlier; filtering of CACHE and PUSH_NULL instructions and the shifted name indices of later versions are not modelled.
- CArchive.CArchiveWriter.Write: compiling scripts, reading source files and streaming compression are one function from a request to its payload; name encoding is not modelled.
- ArchiveToc.ParseToc: a name that is not valid UTF-8 is an exception in the source and a byte string here.
- Dedup.NormalizeToc: file systems without case and separators other than "/" are not modelled.
- BundleProcess.ProcessBundleToc: ties in the final sort, which only equal destinations could cause, are not ordered by source and typecode.
- HookCache.Cache.constructor: missing hook directories, and parsing the priority line of a script, are not modelled.
- `binary_dependency_analysis`: the warnings about missing libraries after the loop.
- ArchiveRequests.DependencyRoundTrip: the size of the bootloader's buffer is a parameter.
- Splash.Write: the image is a byte string, never a path to a file.
- CodeSearch.Memo.Search: code objects are compared by content, as finite trees.
- BundleViews.BothTreesShowFile: asks the same of its input as BundleOverlaps.ConsistentExactly, and a consistent layout.
- BundleLinks.LinksShowTargets: is about links outside framework bundles with a relative text in normal form that names a file; links to directories or to other links, and the links inside framework bundles, are not followed.
- BundleOrder.OrderIsIrrelevant: asks for a TOC without OPTION entries, which a bundle never has.
- `PKG.assemble` and `strip_paths_in_code`: they would only add easy members.
- `_safe_import_hook`, the deprecated `TOC` class, `ldd` and its relatives, hook scripts, configuration and user interface.
