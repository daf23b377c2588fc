# Packaging and integrity verification of o3de 3p packages

This project models, in Dafny, the engine that turns a folder of prebuilt third-party
files into a published package and checks a published package before it is trusted:

- **Content hasher** (`Hasher`): `ComputeHashOfFile` normalises the path, follows
  symbolic links one after another, records every target it visits, and gives up on a
  cycle instead of looping. Otherwise it hashes the bytes of the file it reaches.
- **Manifest codec** (`Text`, `Manifest`, `OrderedMap`):
  - `ParseSHA256SumsFile` reads a `SHA256SUMS` text line by line. It raises on a line
    without a space, on a file named twice, and on a hash that is not 64 characters.
  - Serialising writes `<hash> *<path>\n` per entry, in dictionary insertion order.
- **Descriptor reader** (`Descriptor`): `ReadPackageInfo` loads `PackageInfo.json` and
  requires non-empty `URL`, `PackageName`, `License` and `LicenseFile` fields.
  `GetPackageParts` names the four files of a published package.
- **Validator** (`Validator`):
  - `ValidatePackageLicense` checks the license file's presence and the SPDX identifier
    (or "custom").
  - `VerifyPackageImage` checks an extracted archive: the hash file and descriptor are
    present, the file sets match, the hashes match, no file is read-only (it makes such
    files writable on the way), and the license passes.
  - `FullyValidatePackage` checks a published folder: the parts exist, the archive hash
    file names the archive with its digest, and the archive extracts to a valid image.
- **Packager** (`Packager`, `Publication`, `Runs`, `SelfCheck`): `PackageUpFolder`
  makes the following steps.
  1. It checks the descriptor and the license.
  2. It hashes every globbed non-directory entry into the manifest.
  3. It writes three temporary files. Opening the `.tar.xz` archive creates it empty;
     the manifest is written while it is open; closing it gives it its bytes, the
     entries plus the manifest as `SHA256SUMS`; the archive's hash file comes last.
     Each archive member goes through `_NoReadOnlyTarFileFilter`.
  4. It removes the old parts, renames the temporaries into place and copies the
     descriptor.
  5. It validates what it published.

The file system is a map from relative paths to nodes: a regular file with bytes and a
mode, a symbolic link with its target, or a directory. Path functions
(`os.path.normpath`, `dirname`, `join`, `isabs`, `realpath`) are fields of a `PathOps`
value. Library routines whose internals are out of scope are fields of a `Tools` value:
SHA-256, xz-compressed tar writing and reading, UTF-8, the JSON parser, and the
iteration orders of sets and `os.walk`. The lemmas that need those routines to behave
(UTF-8 and tar round trips, an iteration that visits each element once) take that as
an explicit hypothesis. A Python exception that escapes a routine is modelled as a
value (`Raised`, `Aborted`, `Err`), not dropped.

`PackageUpFolder`, `VerifyPackageImage`, and the hashing, filtering and tar loops are
methods over state that they update in place:

- a `TarInfo` header that the filter updates;
- a `TarWriter` of members;
- an `ExtractedImage` whose files are made writable;
- an `OutputFolder` whose files are written, removed and renamed, with a ghost trace of
  what was done.

Each method is proved equal to a function: `Pack`, `CheckImage`, `FileHashes`,
`ArchiveOf`, `ValidatePackage`. The properties are lemmas about those functions.

Main results:

- `Manifest.SerialiseRoundTrip`: a serialised manifest parses back to the same mapping
  exactly when every hash is 64 characters.
- `Hasher.NoHashIffLoops`: the hasher gives no result exactly when the link chain
  loops.
- `Validator.ValidatePackageSound` and `Validator.VerifyImageValid`: both validations
  have independent, order-free characterisations.
- `Runs.ChecksComeFirst`: a package folder that fails a check is refused before any
  file is written and nothing is published.
- `Runs.PackEvents` and `Runs.PackFiles`: state what a successful run wrote, removed
  and renamed, in what order, and what the output folder holds afterwards.
- `SelfCheck.PackValid`: for a package folder of plain files that the glob lists in
  full, the validation at the end of `PackageUpFolder` accepts what it has just
  published. The hypotheses are listed under "Left out".

## Model

| member | source | states |
|---|---|---|
| Text.LStrip | o3de_package_scripts/common.py:131 | the result is a suffix of the input, and it starts with a non-whitespace character (or is empty) |
| Text.LStripCut | o3de_package_scripts/common.py:131 | the prefix that `LStrip` cuts off is made only of whitespace |
| Text.RStrip | o3de_package_scripts/common.py:131 | the result is a prefix of the input, and it ends with a non-whitespace character (or is empty) |
| Text.RStripCut | o3de_package_scripts/common.py:131 | the suffix that `RStrip` cuts off is made only of whitespace |
| Text.Strip | o3de_package_scripts/common.py:131 | `str.strip()`: no longer than the input, and neither end of the result is whitespace |
| Text.StripInfix | o3de_package_scripts/common.py:131 | `str.strip()` keeps the infix of the input that starts after its leading whitespace, and what it cuts off before and after that infix is only whitespace |
| Text.StripLine | o3de_package_scripts/common.py:131 | stripping a line that ends in a newline, with no whitespace at either end of its text, gives back that text |
| Text.Find | o3de_package_scripts/common.py:132-134 | `str.find`: -1 exactly when the character is absent; otherwise the index of its first occurrence |
| Text.FindUnique | o3de_package_scripts/common.py:132 | an index holding the character, with no earlier occurrence, is what `find` returns |
| Text.SplitLines | o3de_package_scripts/common.py:127-128 | `readlines()`: the lines concatenate back to the text; each line is non-empty; every line but the last ends in its only newline |
| Text.SplitOne | o3de_package_scripts/common.py:128 | a single newline-terminated line reads back as itself |
| Text.SplitConcat | o3de_package_scripts/common.py:128 | concatenating newline-terminated lines and splitting again gives the same lines (inverse of `Concat`) |
| Text.IsCustomCases | o3de_package_scripts/common.py:278 | `IsCustom`: a license tag lower-cases to `custom` exactly when it spells "custom" with each letter in either case |
| Manifest.Fields | o3de_package_scripts/common.py:131-136 | the fields of the stripped line: no space position exactly when the line has no space (then hash and name are empty); otherwise the hash is the text before the first space and the name the text from two characters after it, empty when the line ends first |
| Manifest.ParseSHA256SumsFile | o3de_package_scripts/common.py:121-146 | the loop over lines returns what `Parse` does |
| Manifest.ParseLinesStop | o3de_package_scripts/common.py:133-143 | a first line with no space, a repeated name, or a bad hash raises the error that names that line |
| Manifest.ParseLinesOk | o3de_package_scripts/common.py:130-145 | parsing succeeds exactly when every line is well formed and no name appears twice or was already recorded |
| Manifest.ParseLinesOnlyAccepted | o3de_package_scripts/common.py:138-143 | a successful parse had only well-formed lines with fresh names (one direction of `ParseLinesOk`) |
| Manifest.ParseLinesAcceptsAll | o3de_package_scripts/common.py:138-145 | well-formed lines with fresh names always parse (the other direction) |
| Manifest.ParseLinesValue | o3de_package_scripts/common.py:145 | the parsed mapping holds exactly the earlier entries plus each line's name, mapped to that line's hash |
| Manifest.ParseLinesSize | o3de_package_scripts/common.py:138-146 | a successful parse has one entry per line |
| Manifest.NameSetSize | o3de_package_scripts/common.py:138-139 | distinct names give as many names as lines |
| Manifest.ParseLinesCons | o3de_package_scripts/common.py:130-145 | a well-formed first line adds its entry and parsing resumes on the rest |
| Manifest.ParseLinesFirstError | o3de_package_scripts/common.py:130-145 | a failed parse fails at the first line that is not accepted, and reports the names recorded before it |
| Manifest.StripFormatted | o3de_package_scripts/pack_package.py:80 | stripping a written line gives `<hash> *<name>` |
| Manifest.FindFormatted | o3de_package_scripts/pack_package.py:80 | the first space of a written line ends the hash |
| Manifest.FormattedIsLine | o3de_package_scripts/pack_package.py:80 | a written line is one line ending in its newline |
| Manifest.FormattedHash | o3de_package_scripts/common.py:135 | the hash parsed from a written line is the hash written |
| Manifest.FormattedName | o3de_package_scripts/common.py:136 | the name parsed from a written line (after the space and `*`) is the name written |
| Manifest.FormattedLine | o3de_package_scripts/common.py:131-136 | all fields parsed from a written line |
| Manifest.SerialisedLines | o3de_package_scripts/pack_package.py:78-80 | reading the serialised manifest gives the written lines back |
| Manifest.SerialisedFields | o3de_package_scripts/pack_package.py:78-80 | the fields read from the serialised manifest are those of the written entries |
| Manifest.WrittenAccepted | o3de_package_scripts/common.py:142-143 | written entries are accepted exactly when every hash is 64 characters |
| Manifest.WrittenValue | o3de_package_scripts/common.py:145 | written entries that parse give back the manifest's mapping |
| Manifest.ParseWrittenFields | o3de_package_scripts/common.py:130-146 | written entries parse exactly when every hash is 64 characters, and then to the manifest's mapping |
| Manifest.SerialiseRoundTrip | o3de_package_scripts/pack_package.py:78-80 | the serialised manifest parses exactly when every hash has 64 characters, and then to exactly the manifest's mapping |
| Manifest.OneLine | o3de_package_scripts/common.py:128-136 | a newline-terminated line reads as a single record |
| Manifest.ParseOne | o3de_package_scripts/common.py:145 | one well-formed line parses to the one-entry mapping |
| Manifest.SingleLineRoundTrip | o3de_package_scripts/pack_package.py:109 | one written line with a 64-character hash parses to exactly that entry |
| OrderedMap.Empty | o3de_package_scripts/pack_package.py:61 | the empty dictionary |
| OrderedMap.Put | o3de_package_scripts/pack_package.py:75 | dictionary assignment: the mapping is updated at the key; a new key goes last in the order, an existing key keeps its place |
| Hasher.Lookup | o3de_package_scripts/common.py:171 | a path present in the tree is found as itself; a path is missing exactly when neither it nor anything below it exists |
| Hasher.LookupImplicit | o3de_package_scripts/common.py:171 | a path absent from the tree is missing or is a directory, and a directory exactly when something lies below it |
| Hasher.FewerUnvisited | o3de_package_scripts/common.py:165-169 | recording a new target shrinks the set of unvisited links (the loop terminates) |
| Hasher.WalkExtend | o3de_package_scripts/common.py:159-169 | following one more link extends the chain of visited targets |
| Hasher.ResolveExtends | o3de_package_scripts/common.py:158-169 | resolution only appends to the visited list |
| Hasher.ResolveKeepsWalk | o3de_package_scripts/common.py:158-169 | the visited list is a genuine walk along links with no repeats |
| Hasher.ResolveEnds | o3de_package_scripts/common.py:159-167 | resolution ends at the first path that is not a link, or at a link whose next target was already visited |
| Hasher.ResolveAlong | o3de_package_scripts/common.py:159-169 | resuming the loop from any prefix of a walk gives the same result |
| Hasher.ResolvesTo | o3de_package_scripts/common.py:159-169 | a walk that ends at a non-link is where resolution stops |
| Hasher.CyclesAt | o3de_package_scripts/common.py:165-167 | a walk whose next target repeats is reported as a cycle at that target |
| Hasher.ResolveCases | o3de_package_scripts/common.py:159-169 | resolution either reaches a non-link through a walk or finds the walk loops |
| Hasher.HashReached | o3de_package_scripts/common.py:159-176 | when the chain reaches a file, the hash is that file's |
| Hasher.HashLooped | o3de_package_scripts/common.py:165-167 | when the chain loops there is no hash |
| Hasher.NoHashIffLoops | o3de_package_scripts/common.py:158-176 | there is no hash exactly when some link chain from the path loops |
| Hasher.HashIsOfReached | o3de_package_scripts/common.py:159-176 | every hash that is given is the hash of the end of a link chain |
| Hasher.HashOfPlainFile | o3de_package_scripts/common.py:171-174 | a plain file hashes to the digest of its bytes |
| Hasher.HashThroughLink | o3de_package_scripts/common.py:159-174 | an absolute link to a file hashes to the digest of the file's bytes |
| Hasher.SelfLinkNoHash | o3de_package_scripts/common.py:165-167 | a link to itself gives no hash |
| Hasher.LinkPairNoHash | o3de_package_scripts/common.py:165-167 | two links pointing at each other give no hash |
| Hasher.ComputeHashOfFile | o3de_package_scripts/common.py:149-176 | the loop computes `HashOf` |
| Hasher.Open | o3de_package_scripts/common.py:171-172 | opening a regular file reads its bytes; opening a missing path raises `FileNotFoundError` |
| Hasher.PathExists | o3de_package_scripts/common.py:302 | `os.path.exists`: true for an existing non-link, false for a missing path; the path is taken by its literal spelling (see "## Left out") |
| Hasher.HashIsDigestOfOpen | o3de_package_scripts/common.py:149-176 | the hash is the digest of what opening the path reads; a cycle gives no hash; otherwise the open error |
| Hasher.ResolveSameLinks | o3de_package_scripts/common.py:159-169 | resolution depends only on the links and the directories of the tree |
| Hasher.ExistsSameLinks | o3de_package_scripts/common.py:302 | existence depends only on the links and directories |
| Hasher.LookupSameShape | o3de_package_scripts/common.py:171 | look-ups agree on kind between trees with the same links, and on bytes between trees with the same shape |
| Hasher.ReadsSameShape | o3de_package_scripts/common.py:149-176 | trees that differ only in file modes open, exist and hash alike |
| Descriptor.ReadPackageInfo | o3de_package_scripts/common.py:91-105 | a loaded descriptor carries every required field, present and non-empty; a failed open propagates its error |
| Descriptor.CheckFieldPasses | o3de_package_scripts/common.py:97-103 | `CheckField`: one required field passes exactly on an object where it is present, truthy and has a length; a failure is `KeyError` or `TypeError` |
| Descriptor.CheckFieldsNone | o3de_package_scripts/common.py:97-103 | the field checks pass exactly when every required field is present, truthy and has a length |
| Descriptor.CheckInfoOk | o3de_package_scripts/common.py:97-105 | a document is returned unchanged exactly when it is complete |
| Descriptor.CheckInfoErrors | o3de_package_scripts/common.py:97-103 | a rejected document raises `KeyError` or `TypeError`; a number, boolean or null raises `TypeError` |
| Descriptor.CheckFieldsKinds | o3de_package_scripts/common.py:97-103 | the field checks raise only `KeyError` or `TypeError` |
| Descriptor.MissingFieldKeyError | o3de_package_scripts/common.py:98-101 | the first required field that is missing or falsy raises `KeyError` |
| Descriptor.NoLengthTypeError | o3de_package_scripts/common.py:102 | a truthy number or boolean in a required field raises `TypeError` from `len` |
| Descriptor.TruthyLength | o3de_package_scripts/common.py:100-103 | a truthy value with a length is at least one long (the `len < 1` test never fires) |
| Descriptor.CheckFieldsSkip | o3de_package_scripts/common.py:97-103 | fields that pass can be skipped |
| Descriptor.PackageParts | o3de_package_scripts/common.py:108-118 | four distinct names, each extending the package name: the archive first and the descriptor copy last |
| Validator.LicenseOk | o3de_package_scripts/common.py:249-290 | `ValidatePackageLicense`: the license check returns `True` exactly when the descriptor loads, its license file exists and, with an SPDX list, the license is listed or "custom"; the license file name is looked up by its literal spelling (see "## Left out") |
| Validator.LicenseVerdict | o3de_package_scripts/common.py:246 | the image is valid exactly when the license check returned `True`; a refusal is reported as a license rejection |
| Validator.AccessOf | o3de_package_scripts/common.py:205 | a file found read-only is a regular file without the owner write bit |
| Validator.AccessOfCases | o3de_package_scripts/common.py:205-208 | `os.access(W_OK)` after following the link chain: a loop raises `SymlinkLoopError` and a missing target `FileNotFoundError`; read-only exactly when the chain ends at a regular file without the owner write bit, which is then the reported target; writable otherwise |
| Validator.WalkFilesListed | o3de_package_scripts/common.py:199-200 | `os.walk` lists every regular file of the image and never a directory |
| Validator.ScanStaysFailed | o3de_package_scripts/common.py:199-212 | after a broken link stops the walk, later files change nothing |
| Validator.CheckHashes | o3de_package_scripts/common.py:232-236 | the hash loop only raises or reports a hash mismatch |
| Validator.HashFiles | o3de_package_scripts/common.py:232-236 | the loop computes `CheckHashes` |
| Validator.CheckImage | o3de_package_scripts/common.py:179-246 | `VerifyPackageImage` only fails for image reasons, never for a published part |
| Validator.CheckListing | o3de_package_scripts/common.py:199-246 | the walk and comparisons only fail for image reasons |
| Validator.CheckContents | o3de_package_scripts/common.py:217-246 | the comparisons only fail for image reasons |
| Validator.VerifyImage | o3de_package_scripts/common.py:179-246 | the verdict only has image reasons |
| Validator.ExtractedImage.constructor | o3de_package_scripts/common.py:334-336 | the image holds the extracted tree |
| Validator.ExtractedImage.MakeWritable | o3de_package_scripts/common.py:199-215 | the walk leaves the image, the read-only flag and the failure as `Scan` describes |
| Validator.ExtractedImage.VerifyPackageImage | o3de_package_scripts/common.py:179-246 | returns `CheckImage`'s verdict and leaves the image as `CheckImage` says: read-only files made owner-writable |
| Validator.FirstMissing | o3de_package_scripts/common.py:300-304 | none missing exactly when every part exists; otherwise the first part that does not |
| Validator.FirstMissingAt | o3de_package_scripts/common.py:300-304 | the first index of a missing part gives the part reported |
| Validator.CheckArchive | o3de_package_scripts/common.py:306-329 | the archive stages never report a missing part |
| Validator.CheckArchiveSums | o3de_package_scripts/common.py:316-325 | the hash-file stage never reports a missing part |
| Validator.VerifyArchive | o3de_package_scripts/common.py:331-339 | verifying the extracted archive only fails for image reasons |
| Validator.FullyValidatePackage | o3de_package_scripts/common.py:294-339 | the method computes `ValidatePackage` |
| Validator.CheckHashesNone | o3de_package_scripts/common.py:232-236 | the hash loop finds nothing exactly when every file in the order is listed with a matching digest |
| Validator.ScanClean | o3de_package_scripts/common.py:199-215 | without read-only files the tree is unchanged; the walk is clean exactly when every file is writable |
| Validator.HashesValid | o3de_package_scripts/common.py:232-236 | whatever the set iteration order, the hash loop passes exactly when every named file has its digest |
| Validator.ContentsValid | o3de_package_scripts/common.py:217-246 | the comparisons pass exactly when the files are the named ones, each with its digest, and the license is accepted |
| Validator.OwnSumsMissing | o3de_package_scripts/common.py:214-225 | a hash file that lists `SHA256SUMS` itself is never satisfied: the walk leaves that name out of the files found, so it is reported among the missing files, unless the walk raises first |
| Validator.ListingValid | o3de_package_scripts/common.py:197-246 | after the parse, the image passes exactly when every listed file is writable and the comparisons pass |
| Validator.VerifyImageValid | o3de_package_scripts/common.py:179-246 | `VerifyPackageImage` accepts exactly a sound image (defined without any order) |
| Validator.VerifyArchiveSound | o3de_package_scripts/common.py:331-339 | the extraction stage passes exactly when the archive reads, untars and extracts to a valid image |
| Validator.ArchiveSumsSound | o3de_package_scripts/common.py:312-339 | the hash-file stage passes exactly when the archive hashed, the hash file is the one entry naming the archive with that digest, and the archive verifies |
| Validator.CheckArchiveSound | o3de_package_scripts/common.py:306-339 | with every part present, the archive stages pass exactly when the package is sound |
| Validator.ValidatePackageSound | o3de_package_scripts/common.py:294-339 | `FullyValidatePackage` accepts exactly a sound package: parts present, hash file naming the archive with its digest, archive extracting to a valid image |
| Validator.MissingPartFirst | o3de_package_scripts/common.py:300-304 | a missing part is reported exactly when some part is missing, and it is the first one |
| Validator.ValidatePackageSameShape | o3de_package_scripts/common.py:294-339 | the verdict does not depend on file modes in the output folder |
| Validator.ArchiveSameShape | o3de_package_scripts/common.py:306-339 | the archive stages do not depend on file modes |
| Validator.FirstMissingSame | o3de_package_scripts/common.py:300-304 | the first missing part depends only on which parts exist |
| Validator.AccessAfterChmod | o3de_package_scripts/common.py:207-208 | `chmod` with the owner write bit keeps the shape and makes the read-only file writable without breaking anything |
| Validator.StepKeepsWritable | o3de_package_scripts/common.py:204-212 | a walk step keeps the shape and leaves the file just visited and all earlier ones writable |
| Validator.ScanLeavesWritable | o3de_package_scripts/common.py:199-215 | a completed walk leaves every listed file writable and changes only modes |
| Validator.CheckImageAfter | o3de_package_scripts/common.py:179-246 | the check changes only modes; when the walk completes, every listed file is left writable |
| Packager.NoReadOnlyMode | o3de_package_scripts/pack_package.py:25-28 | the filtered mode keeps every bit, sets the three write bits and changes no other bit |
| Packager.NoReadOnlyIdempotent | o3de_package_scripts/pack_package.py:25-28 | filtering twice is filtering once |
| Packager.TarInfo.constructor | o3de_package_scripts/pack_package.py:96 | the header of a file carries its mode and bytes; the header of a link carries the link mode and target |
| Packager.NoReadOnlyTarFileFilter | o3de_package_scripts/pack_package.py:25-28 | the filter returns the header it was given with its mode filtered, and changes nothing else |
| Packager.MemberOf | o3de_package_scripts/pack_package.py:96 | the stored member has the owner write bit, and keeps the file's bytes or the link's target |
| Packager.TarWriter.constructor | o3de_package_scripts/pack_package.py:93 | a new archive has no members |
| Packager.TarWriter.Add | o3de_package_scripts/pack_package.py:96 | `tar.add` stores the filtered member under its name, replacing one of the same name |
| Packager.HashText | o3de_package_scripts/pack_package.py:80 | the hash as written is hash text, 64 characters exactly when the file had a digest |
| Packager.FileHashes | o3de_package_scripts/pack_package.py:61-76 | the manifest loop keeps a valid insertion-ordered dictionary |
| Packager.FileHashesRecords | o3de_package_scripts/pack_package.py:66-76 | exactly the non-directory hits are recorded, each with its hash; the loop raises exactly when one of them cannot be hashed, with that error |
| Packager.FileHashesOk | o3de_package_scripts/pack_package.py:66-76 | the recorded keys are the non-directory hits, with their hash text |
| Packager.FileHashesKeys | o3de_package_scripts/pack_package.py:66-76 | the recorded keys are exactly the non-directory hits |
| Packager.FileHashesValues | o3de_package_scripts/pack_package.py:74-75 | every recorded value is the hash text of its path |
| Packager.FileHashesErr | o3de_package_scripts/pack_package.py:74 | the loop raises exactly when a non-directory hit fails to hash, with that hash's error |
| Packager.FileHashesStaysErr | o3de_package_scripts/pack_package.py:67-76 | once raised, later hits change nothing |
| Packager.BuildManifest | o3de_package_scripts/pack_package.py:61-76 | the loop computes `FileHashes` |
| Packager.SerialiseManifest | o3de_package_scripts/pack_package.py:78-80 | the loop computes `Serialise` |
| Packager.NotDirNode | o3de_package_scripts/pack_package.py:69 | a hit that is not a directory is not a directory entry |
| Packager.AddedMembersAre | o3de_package_scripts/pack_package.py:95-96 | adding the recorded files gives one filtered member per file |
| Packager.ArchiveOf | o3de_package_scripts/pack_package.py:93-102 | the archive holds every recorded file as a filtered member, plus `SHA256SUMS` holding the manifest |
| Packager.WriteArchive | o3de_package_scripts/pack_package.py:93-102 | the tar loop adds the recorded files, then the output folder's manifest file under `SHA256SUMS`, and builds `ArchiveOf`: the recorded files as filtered members plus that manifest |
| Packager.RecordedFiles | o3de_package_scripts/pack_package.py:66-76 | every recorded path is a non-directory entry of the package folder |
| Packager.OutputFolder.constructor | o3de_package_scripts/pack_package.py:30 | the output folder starts as given, with nothing done to it |
| Packager.OutputFolder.Write | o3de_package_scripts/pack_package.py:99-100 | `open(…, "wb").write` as `WriteStep` describes |
| Packager.OutputFolder.Remove | o3de_package_scripts/pack_package.py:113-114 | the guarded `os.remove` as `RemoveStep` describes |
| Packager.WriteFileEffect | o3de_package_scripts/pack_package.py:99-100 | `WriteFile`: opening for writing raises only over a directory; otherwise the path holds the data, an existing regular file keeps its mode, a new one gets the umask mode, and every other path is unchanged |
| Packager.RemoveIfExistsEffect | o3de_package_scripts/pack_package.py:113-118 | `RemoveIfExists`: raises only on an existing directory; otherwise removes exactly the path, and only when it exists, leaving every other path unchanged |
| Packager.RenameFileEffect | o3de_package_scripts/pack_package.py:122-124 | `RenameFile`: a missing source raises `FileNotFoundError`, a directory at the destination `IsADirectoryError`; otherwise the destination holds the source's entry, the source is gone, and every other path is unchanged |
| Packager.OutputFolder.Rename | o3de_package_scripts/pack_package.py:122 | `os.rename` as `RenameStep` describes |
| Packager.OutputFolder.Copy | o3de_package_scripts/pack_package.py:125 | `shutil.copyfile` as `CopyStep` describes |
| Packager.OutputFolder.PackageUpFolder | o3de_package_scripts/pack_package.py:30-135 | the method's outcome, output folder and trace are those of `Pack` |
| Packager.OutputFolder.Publishing | o3de_package_scripts/pack_package.py:58-125 | writing, removing, renaming and copying as `Publish` describes |
| Packager.OutputFolder.Installing | o3de_package_scripts/pack_package.py:112-125 | removals then placement as `Install` describes |
| Packager.OutputFolder.Placing | o3de_package_scripts/pack_package.py:122-125 | renames then copy as `Place` describes |
| Packager.OutputFolder.WritingTemps | o3de_package_scripts/pack_package.py:93-110 | the archive opened empty, then the manifest, the archive's bytes and its hash file, as `WriteTemps` describes |
| Packager.OutputFolder.WritingManifest | o3de_package_scripts/pack_package.py:96-110 | the manifest, the archive's bytes and its hash file, as `WriteManifest` describes |
| Packager.OutputFolder.WritingPackage | o3de_package_scripts/pack_package.py:93-110 | the archive and its hash file as `WritePackage` describes |
| Packager.OutputFolder.WritingHashFile | o3de_package_scripts/pack_package.py:104-110 | the archive's hash file as `WriteHashFile` describes |
| Packager.OutputFolder.Removing | o3de_package_scripts/pack_package.py:112-120 | the three guarded removals as `RemoveParts` describes |
| Packager.OutputFolder.RemovingOne | o3de_package_scripts/pack_package.py:113-114 | one guarded removal, continuing the trace, as `RemoveStep` describes |
| Packager.OutputFolder.Renaming | o3de_package_scripts/pack_package.py:122-124 | the three renames as `RenameParts` describes |
| Publication.ManifestRoundTrip | o3de_package_scripts/pack_package.py:66-80 | the written manifest reads back as the recorded hashes exactly when no recorded file is caught in a link loop |
| Publication.ArchiveNameFits | o3de_package_scripts/pack_package.py:82 | the archive name stands on one manifest line |
| Publication.HashFileRoundTrip | o3de_package_scripts/pack_package.py:104-110 | the archive's hash file parses to exactly the one entry naming the archive with its digest |
| Publication.TouchedDistinct | o3de_package_scripts/pack_package.py:82-89 | the three temporary paths and the four part paths are seven different files |
| Publication.TempsDistinct | o3de_package_scripts/pack_package.py:87-89 | the three temporary paths differ |
| Publication.WriteManifestEffect | o3de_package_scripts/pack_package.py:96-110 | writing the manifest, the archive and its hash file changes only the three temporary paths: the manifest, the archive of the files plus that manifest, and the hash line of the archive's bytes |
| Publication.WithTempsCreated | o3de_package_scripts/pack_package.py:93 | the empty archive that opening creates is overwritten, and only its mode survives |
| Publication.WriteTempsEffect | o3de_package_scripts/pack_package.py:93-110 | `WriteTemps`: writing the temporaries changes only the three temporary paths: the manifest, the archive of the files plus that manifest, and the hash line of the archive's bytes |
| Publication.WritePackageEvents | o3de_package_scripts/pack_package.py:93-110 | the archive's bytes and its hash file are written, in that order, adding exactly those two paths |
| Publication.WriteManifestEvents | o3de_package_scripts/pack_package.py:96-110 | the manifest, the archive's bytes and the hash file are written in that order and are then present |
| Publication.WriteTempsEvents | o3de_package_scripts/pack_package.py:93-110 | `WriteTemps`: four writes in order (the archive created empty, the manifest, the archive's bytes, its hash file), after which the three temporaries are present |
| Publication.ArchiveOpenedFirst | o3de_package_scripts/pack_package.py:93 | `WriteTemps` raises `IsADirectoryError`, with no file written and no event recorded, exactly when the temporary archive path is a directory: the archive is opened before the manifest exists |
| Publication.RemoveStepEffect | o3de_package_scripts/pack_package.py:113-114 | a guarded removal removes at most its own path, and records it exactly when it removes it |
| Publication.RemovePartsEffect | o3de_package_scripts/pack_package.py:112-120 | only the three old parts may be removed and nothing else changes; at most three events are recorded, each the removal of one of those parts |
| Publication.RemovePartsEvents | o3de_package_scripts/pack_package.py:112-120 | the events are exactly the removals of the parts that were present and are gone, in the order archive, hash file, manifest |
| Publication.RemovePartsKeepsTemps | o3de_package_scripts/pack_package.py:112-120 | removing the old parts keeps the temporary files |
| Publication.RenamePartsEffect | o3de_package_scripts/pack_package.py:122-124 | the three renames move each temporary file onto its part, in order, and change nothing else |
| Publication.PlaceEffect | o3de_package_scripts/pack_package.py:122-125 | renames then the descriptor copy: the parts hold the temporaries and the descriptor, and nothing else changes |
| Publication.PlacedAfterRemoval | o3de_package_scripts/pack_package.py:112-125 | old parts removed before placement make no difference to the result |
| Publication.InstallEvents | o3de_package_scripts/pack_package.py:112-125 | some removals of old parts, then the three renames and the copy |
| Publication.InstallFiles | o3de_package_scripts/pack_package.py:112-125 | the parts hold the temporaries and the descriptor; every other file is as it was |
| Publication.PlacedTemps | o3de_package_scripts/pack_package.py:93-125 | placing the written temporaries gives the published package |
| Publication.PublishEvents | o3de_package_scripts/pack_package.py:93-125 | `Publish`: the four writes of the temporaries, then removals of old parts, then the three renames and the copy |
| Publication.PublishFiles | o3de_package_scripts/pack_package.py:93-125 | the output folder holds the archive, its hash file naming it with its digest, the manifest and the descriptor copy; no temporary; every other file unchanged and nothing else added |
| Runs.DeclaredName | o3de_package_scripts/pack_package.py:43 | a package name is only read from a descriptor that loaded |
| Runs.ChecksComeFirst | o3de_package_scripts/pack_package.py:33-82 | `Pack`: a package folder that fails a check (descriptor, license, hashing, string package name) is refused before any file is written, with no event and nothing published; a missing descriptor raises `FileNotFoundError` |
| Runs.LicenseRefusal | o3de_package_scripts/pack_package.py:39-41 | `False` from the license check is returned exactly when the descriptor exists and loads and its license is refused |
| Runs.PackPublishes | o3de_package_scripts/pack_package.py:43-132 | a package folder that passes the checks is published under its declared name and then validated |
| Runs.PackEvents | o3de_package_scripts/pack_package.py:93-132 | a run that reaches validation wrote the three temporaries (the archive created empty before the manifest, filled after it), removed some old parts, renamed the temporaries into place and copied the descriptor, in that order |
| Runs.PackFiles | o3de_package_scripts/pack_package.py:93-135 | a run that reaches validation leaves exactly the published package in the output folder and returns the validation of that folder |
| SelfCheck.PlainResolve | o3de_package_scripts/common.py:159 | in a tree without links, every path resolves to itself |
| SelfCheck.PlainOpen | o3de_package_scripts/common.py:171 | in a tree without links, exactly the present files open and exist |
| SelfCheck.ImageShape | o3de_package_scripts/pack_package.py:93-102 | the archive extracts to the recorded files with their bytes plus the manifest, all owner-writable plain files |
| SelfCheck.PlainHashes | o3de_package_scripts/pack_package.py:66-76 | a plain package folder records every file with the digest of its bytes |
| SelfCheck.ImageHashFile | o3de_package_scripts/common.py:186-195 | the extracted image's hash file decodes and parses to the recorded hashes |
| SelfCheck.ImageListing | o3de_package_scripts/common.py:199-236 | the extracted image's files are writable, are exactly the recorded ones, and each hashes to its recorded digest |
| SelfCheck.ImageLicense | o3de_package_scripts/common.py:249-290 | the license accepted in the package folder is accepted in the image |
| SelfCheck.PlainManifest | o3de_package_scripts/pack_package.py:37-80 | for a plain package folder that passes the checks, the manifest records every file with its digest and reads back as written |
| SelfCheck.ImageSound | o3de_package_scripts/common.py:179-246 | the image extracted from the published archive is sound |
| SelfCheck.PartsExist | o3de_package_scripts/common.py:300-304 | four published regular files exist |
| SelfCheck.HashFileReads | o3de_package_scripts/common.py:312-315 | the published hash file reads and parses to the archive's name and digest |
| SelfCheck.OutputSound | o3de_package_scripts/common.py:294-339 | an output folder with the four parts, the archive's hash file and a verifying archive passes `FullyValidatePackage` |
| SelfCheck.PackageSound | o3de_package_scripts/pack_package.py:132 | the package that a plain package folder publishes passes validation |
| SelfCheck.PackValid | o3de_package_scripts/pack_package.py:30-135 | a run that reaches validation reports the published package valid, provided: the package folder holds only regular files; it has no `SHA256SUMS` of its own; every file is among the glob results; every result is a path the manifest format can carry (non-empty, one line, no trailing whitespace); the declared package name has no newline; path normalisation changes nothing; and UTF-8, tar and the iteration orders behave |

The specification functions that carry no contract of their own are characterised by
the rows above:

- `Descriptor.CheckInfo`, `CheckFields`, `CheckField` (common.py 97-105):
  `CheckInfoOk`, `CheckInfoErrors`, `CheckFieldsNone`, `CheckFieldsKinds`, `CheckFieldPasses`.
- `Hasher.Step`, `Resolve`, `HashOf` (common.py 149-176): `ResolveKeepsWalk`,
  `ResolveEnds`, `ResolveCases`, `HashReached`, `HashLooped`, `NoHashIffLoops`,
  `HashIsDigestOfOpen`.
- `Manifest.Parse`, `ParseLines` (common.py 121-146): `ParseLinesStop`, `ParseLinesOk`,
  `ParseLinesValue`, `ParseLinesFirstError`; `Manifest.Serialise`, `FormatLine`,
  `FormatLines` (pack_package.py 78-80): `FormattedLine`, `SerialisedLines`,
  `SerialiseRoundTrip`, `SingleLineRoundTrip`.
- `Packager.ToMember` (pack_package.py 25-28, 96): `NoReadOnlyTarFileFilter`, `MemberOf`,
  `TarWriter.Add`.
- `Packager.WriteFile`, `RemoveIfExists`, `RenameFile` and the guarded steps built on them
  (pack_package.py 93-125): `WriteFileEffect`, `RemoveIfExistsEffect`, `RenameFileEffect`,
  `RemoveStepEffect`.
- `Packager.WriteTemps`, `WriteManifest`, `WritePackage`, `WriteHashFile` (pack_package.py
  93-110): `WriteTempsEffect`, `WriteTempsEvents`, `WriteManifestEffect`,
  `WriteManifestEvents`, `WritePackageEvents`.
- `Packager.RemoveParts`, `RenameParts`, `Place`, `Install` (pack_package.py 112-125):
  `RemovePartsEffect`, `RemovePartsEvents`, `RemovePartsKeepsTemps`, `RenamePartsEffect`, `PlaceEffect`,
  `InstallEvents`, `InstallFiles`; `Packager.Publish`: `PublishEvents`, `PublishFiles`.
- `Packager.Pack` (pack_package.py 30-135): `Runs.ChecksComeFirst`, `LicenseRefusal`,
  `PackPublishes`, `PackEvents`, `PackFiles`, `SelfCheck.PackValid`.
- `Validator.ValidatePackageLicense` (common.py 249-290): `LicenseOk`.
- `Validator.WalkFiles`, `ScanStep`, `Scan`, `ResolvesToDir` (common.py 199-215):
  `WalkFilesListed`, `AccessOfCases`, `ScanClean`, `ScanStaysFailed`, `StepKeepsWritable`,
  `ScanLeavesWritable`.
- `Validator.Extract` and `ValidatePackage` (common.py 294-339): `VerifyArchiveSound`,
  `ValidatePackageSound`, `MissingPartFirst`, `SelfCheck.ImageShape`.
- `Text.IsCustom` (common.py 278): `IsCustomCases`.

## Left out

- The command-line front end (`__main__`, `AddCommonArgs`, `PostArgParse`) is not modelled, nor the other scripts of the repository (building, uploading, bucket comparison). They sit outside the packaging and validation engine.
- `GetSPDXLicenseList` fetches a list over the network. It is an input instead: `spdx` is `None` when the list is unavailable, else the set of identifiers.
- All `print` output is not modelled, and neither are the messages inside exceptions. A verdict carries a `Reason` naming the failed check instead.
- SHA-256, xz compression, tar encoding, UTF-8 and JSON parsing are library routines. They are fields of `Tools`. Properties that need them to behave take that as a hypothesis (`Utf8RoundTrips`, `TarRoundTrips`, `OrdersEnumerate`).
- The iteration orders of Python sets and of `os.walk` are inputs (`setOrder`, `listOrder`). The order-free results assume they enumerate each element once.
- `os.path` functions are fields of `PathOps`, and trees are keyed by paths relative to their folder. Absolute paths, `pathlib.relative_to` and `as_posix` are not modelled.
- The operating system follows links in `open`, `os.path.exists`, `isdir`, `isfile` and `os.access`. The model approximates this with the hasher's own link resolution, and links are resolved only at the final path component.
- PathExists, LicenseOk: a path is looked up by its literal spelling. The operating system reads `.` and `..` segments, a doubled `/` and a trailing `/` after a directory as path structure; the model does not. A `LicenseFile` written `./LICENSE`, `zlib/../LICENSE`, `zlib//LICENSE` or `zlib/` (for an existing directory `zlib`) exists for `os.path.exists` (common.py lines 264-265) but not for `PathExists`. For such a descriptor, `ValidatePackageLicense` gives `False` where the program goes on to the SPDX test, so `VerifyImage` reports a license rejection for an image the program accepts, and `Pack` returns `LicenseRefused` (`Runs.LicenseRefusal`) where pack_package.py line 39 goes on and publishes.
- JSON floating-point numbers are not modelled: `JsonValue` has integer numbers only. In the descriptor checks a float behaves as an integer of the same truthiness: a non-zero one raises `TypeError` at `len`, and zero raises `KeyError` (common.py lines 96-103), so no verdict is lost.
- `readlines` is modelled as splitting after each `\n`. Universal-newline translation of `\r` and `\r\n` is not modelled.
- `glob(…, recursive=True)` is an input `hits`: the paths of the package folder that it lists.
- WriteFile, RenameFile: the folder that holds the path written or renamed to is not checked. The program raises `FileNotFoundError` when that folder is missing and `NotADirectoryError` when it is a file. Two ways to reach this: a `PackageName` with a `/` in it, such as `a/b`, which the descriptor checks accept, makes `temp/temp_package_a/b`, and `temp/temp_package_a` does not exist (pack_package.py line 93); or a `temp` entry that is a file. In these cases the model publishes, and `Runs.PackFiles` and `SelfCheck.PackValid` describe a publication and a `Valid` verdict that the program never produces.
- `os.makedirs` of the output and `temp` folders (pack_package.py lines 47-56) is not modelled: the trees are maps, so a parent folder need not exist. Those folders are created before the hash loop and before the package name is joined to a path, so a run refused there leaves them behind; the model records no event for them.
- AccessOf: `os.access(path, os.W_OK)` is modelled by the owner write bit `S_IWUSR` of the regular file the link chain reaches. This assumes the validating process owns the extracted files and is not root; run as root, `os.access` finds every file writable and the read-only check never fires.
- WriteTemps: the archive is created empty when it is opened and receives all its bytes in one write when it is closed. The bytes it holds while members are being added are not modelled, so a run stopped at the manifest write leaves an empty archive where the program leaves a partial one.
- Directory members of the archive are not modelled. `os.walk` and the manifest only see files.
- The removal of the temporary extraction folder is not modelled. The image is a fresh value that is dropped afterwards.
- Writes, renames and copies in the output folder replace the named entry. They do not follow a link at that name.
- The package, output and `temp` folders are disjoint in the model.
- A symbolic link archived by `tar.add` is given mode 0o777, as `os.lstat` reports on Linux.
- The mode of a newly created file under the umask is an input `newMode`.
- `tarfile` extraction is a map from member names: a later member of the same name replaces an earlier one, as when a package folder has its own `SHA256SUMS`.
- `extractall` does not apply the archive modes to links, and does not model ownership or timestamps.
- Relative link targets are joined to the directory of the ORIGINAL path in `ComputeHashOfFile`, as the code does (common.py lines 151 and 162). A description of the hasher that resolves against the current link's directory would differ on chains that cross directories, and the model follows the code.
- The code checks only that a hash is 64 characters long, not that it is hexadecimal. The model follows the code.
- A file caught in a link cycle is recorded with the text `None` in the manifest, which then cannot be parsed. The packager does not stop there, and the model follows the code.
- SelfCheck.PackValid: proved only under all of these hypotheses: the package folder holds only regular files (no links, no directory entries); it has no root `SHA256SUMS` file; every file of it is among the glob results; every glob result is non-empty, on one line and does not end in whitespace; the declared package name has no newline; `normpath` changes no path; and UTF-8 encoding, tar writing and the set and walk iteration orders behave (`Utf8RoundTrips`, `TarRoundTrips`, `OrdersEnumerate`). Links in the package folder and path functions in general are outside the hypothesis.
- SelfCheck.PackValid: the missing-`SHA256SUMS` hypothesis hides real behaviour. A package folder with its own root `SHA256SUMS` has that file recorded in the manifest (pack_package.py lines 69-75). In the archive, its member is then replaced by the manifest (line 102). `VerifyPackageImage` leaves `SHA256SUMS` out of the files it found (common.py line 214) but keeps it among the expected ones. So it reports it missing (lines 223-225), and the program rejects the package it has just published. `Validator.OwnSumsMissing` proves that step: a hash file that lists `SHA256SUMS` is never satisfied. The model does not prove the whole run for this case.
- Runs.PackEvents: characterises the events and files only of runs that reach validation. A run that raises while publishing is characterised only as stopped with that exception, and the partial output it leaves is not described further.
