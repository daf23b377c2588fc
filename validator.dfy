/**
 * Checking a package: its license (`ValidatePackageLicense`), an extracted package
 * image (`VerifyPackageImage`), and a published package folder as a whole
 * (`FullyValidatePackage`).
 */
module Validator {
  import opened Wrappers
  import opened Platform
  import opened OrderedMap
  import opened Text
  import opened Manifest
  import opened Hasher
  import opened Descriptor

  /** Why a package is not valid (the source prints these and returns `False`). */
  datatype Reason =
    | MissingFile(name: string)
    | BadHashFile(parseError: ParseError)
    | FilesMissing(missing: set<string>)
    | UnexpectedFiles(unexpected: set<string>)
    | HashMismatch(file: string)
    | ReadOnlyFiles
    | LicenseRejected
    | MissingPart(part: string)
    | BadArchiveHashFile(archiveParseError: ParseError)
    | NotOneEntry
    | ArchiveNotListed
    | ArchiveHashMismatch

  /** The reasons `VerifyPackageImage` gives, as opposed to the checks on the published parts. */
  predicate ImageReason(r: Reason) {
    !(r.MissingPart? || r.BadArchiveHashFile? || r.NotOneEntry? || r.ArchiveNotListed? || r.ArchiveHashMismatch?)
  }

  /** `True`, `False` with the reason printed, or an exception that escapes. */
  datatype Verdict =
    | Valid
    | Invalid(reason: Reason)
    | Raised(error: Exception)

  /** `stat.S_IWUSR`, the owner's write permission. */
  const UserWrite: bv32 := 0x80

  /**
   * `ValidatePackageLicense` on a folder: the descriptor must load (a missing file or a
   * `KeyError` gives `False`), the license file it names must exist, and when the SPDX
   * list of license identifiers is available the license must be one of them or
   * "custom" in any letter case.
   */
  function ValidatePackageLicense(t: Tree, ops: PathOps, tools: Tools, spdx: Option<set<string>>): (r: Result<bool, Exception>)
  {
    var info := ReadPackageInfo(t, ops, tools, DescriptorName);
    if info.Err? then
      if info.error == FileNotFoundError || info.error == KeyError then Ok(false) else Err(info.error)
    else
      assert FieldPresent(info.value.fields, RequiredFields[3]) && FieldPresent(info.value.fields, RequiredFields[2]);
      var licenseFile := info.value.fields["LicenseFile"];
      if !licenseFile.JString? then Err(TypeError)
      else if !PathExists(t, ops, licenseFile.s) then Ok(false)
      else if spdx.None? then Ok(true)
      else
        var tag := info.value.fields["License"];
        if tag.JString? && tag.s in spdx.value then Ok(true)
        else if !tag.JString? then Err(AttributeError)
        else Ok(IsCustom(tag.s))
  }

  /** A license the check accepts. */
  ghost predicate LicenseAccepted(t: Tree, ops: PathOps, tools: Tools, spdx: Option<set<string>>) {
    var info := ReadPackageInfo(t, ops, tools, DescriptorName);
    && info.Ok?
    && (assert FieldPresent(info.value.fields, RequiredFields[3]) && FieldPresent(info.value.fields, RequiredFields[2]);
        LicenseFieldsAccepted(t, ops, info.value.fields, spdx))
  }

  /** The descriptor's license fields as the check accepts them. */
  ghost predicate LicenseFieldsAccepted(t: Tree, ops: PathOps, fields: map<string, JsonValue>, spdx: Option<set<string>>)
    requires "LicenseFile" in fields && "License" in fields
  {
    && fields["LicenseFile"].JString?
    && PathExists(t, ops, fields["LicenseFile"].s)
    && (spdx.Some? ==>
          && fields["License"].JString?
          && (fields["License"].s in spdx.value || IsCustom(fields["License"].s)))
  }

  /** The license check passes exactly when the license is accepted. */
  lemma LicenseOk(t: Tree, ops: PathOps, tools: Tools, spdx: Option<set<string>>)
    ensures ValidatePackageLicense(t, ops, tools, spdx) == Ok(true) <==> LicenseAccepted(t, ops, tools, spdx)
  {
    var info := ReadPackageInfo(t, ops, tools, DescriptorName);
    if info.Ok? {
      assert FieldPresent(info.value.fields, RequiredFields[3]) && FieldPresent(info.value.fields, RequiredFields[2]);
    }
  }

  /** The license verdict as `VerifyPackageImage` returns it. */
  function LicenseVerdict(r: Result<bool, Exception>): (v: Verdict)
    ensures v == Valid <==> r == Ok(true)
    ensures v.Invalid? ==> v.reason == LicenseRejected
  {
    if r.Err? then Raised(r.error) else if r.value then Valid else Invalid(LicenseRejected)
  }

  /** `os.path.isdir` after following links from `p`. */
  predicate ResolvesToDir(t: Tree, ops: PathOps, p: string) {
    match Resolve(t, ops, ops.dirname(p), p, [])
    case Resolved(q, _) => Lookup(t, q) == Some(Dir)
    case Cyclic(_, _) => false
  }

  /** The files `os.walk` lists: regular files, and links that do not lead to a directory. */
  function WalkFiles(t: Tree, ops: PathOps): set<string> {
    set p | p in t && (t[p].File? || (t[p].Link? && !ResolvesToDir(t, ops, p)))
  }

  /** The walk lists every regular file and no directory; what it lists is in the tree. */
  lemma WalkFilesListed(t: Tree, ops: PathOps)
    ensures forall p | p in WalkFiles(t, ops) :: p in t && !t[p].Dir?
    ensures forall p | p in t && t[p].File? :: p in WalkFiles(t, ops)
  {
  }

  /** What `os.access(p, os.W_OK)` finds, following links from `p` to a regular file. */
  datatype Access =
    | Writable
    | ReadOnly(target: string)
    | Broken(error: Exception)

  function AccessOf(t: Tree, ops: PathOps, p: string): (a: Access)
    ensures a.ReadOnly? ==> a.target in t && t[a.target].File? && t[a.target].mode & UserWrite == 0
  {
    match Resolve(t, ops, ops.dirname(p), p, [])
    case Cyclic(_, _) => Broken(SymlinkLoopError)
    case Resolved(q, _) =>
      match Lookup(t, q)
      case None => Broken(FileNotFoundError)
      case Some(File(_, mode)) => if mode & UserWrite != 0 then Writable else ReadOnly(q)
      case Some(_) => Writable
  }

  /**
   * The three outcomes of the access test on the end of `p`'s link chain: a loop raises
   * `SymlinkLoopError` and a missing target `FileNotFoundError`; the file is read-only
   * exactly when the chain ends at a regular file without the owner write bit, which is
   * then the reported target; otherwise it is writable.
   */
  lemma AccessOfCases(t: Tree, ops: PathOps, p: string)
    ensures var a, r := AccessOf(t, ops, p), Resolve(t, ops, ops.dirname(p), p, []);
              && (a == Broken(SymlinkLoopError) <==> r.Cyclic?)
              && (a == Broken(FileNotFoundError) <==> r.Resolved? && Lookup(t, r.path).None?)
              && (a.ReadOnly? <==> r.Resolved? && r.path in t && t[r.path].File? && t[r.path].mode & UserWrite == 0)
              && (a.ReadOnly? ==> a.target == r.path)
              && (a == Writable <==> r.Resolved? && Lookup(t, r.path).Some? && !(r.path in t && t[r.path].File? && t[r.path].mode & UserWrite == 0))
  {
  }

  /** The state of the walk in `VerifyPackageImage`: the tree, whether a read-only file was seen, and an escaping error. */
  datatype ScanState = ScanState(tree: Tree, readOnly: bool, failure: Option<Exception>)

  /**
   * One listed file: a read-only file is made writable by its owner (`os.chmod` of
   * `st_mode | S_IWUSR`, through any link) and remembered; when the link is broken,
   * `os.stat` raises.
   */
  function ScanStep(s: ScanState, ops: PathOps, p: string): ScanState {
    if s.failure.Some? then s
    else
      match AccessOf(s.tree, ops, p)
      case Writable => s
      case ReadOnly(q) =>
        ScanState(s.tree[q := File(s.tree[q].data, s.tree[q].mode | UserWrite)], true, None)
      case Broken(e) => ScanState(s.tree, s.readOnly, Some(e))
  }

  /** The walk over the files in the order listed. */
  function Scan(t: Tree, ops: PathOps, order: seq<string>): ScanState {
    if order == [] then ScanState(t, false, None)
    else ScanStep(Scan(t, ops, order[..|order| - 1]), ops, order[|order| - 1])
  }

  /** The hash loop of `VerifyPackageImage` over `order`: the first file whose hash fails or differs decides. */
  function CheckHashes(t: Tree, ops: PathOps, sha: seq<byte> -> Digest, sums: map<string, string>, order: seq<string>): (r: Option<Verdict>)
    ensures r.Some? ==> r.value.Raised? || (r.value.Invalid? && r.value.reason.HashMismatch?)
  {
    if order == [] then None
    else
      var f := order[0];
      var h := HashOf(t, ops, sha, f);
      if h.Failed? then Some(Raised(h.error))
      else if f !in sums then Some(Raised(KeyError))
      else if !(h.Hashed? && h.digest == sums[f]) then Some(Invalid(HashMismatch(f)))
      else CheckHashes(t, ops, sha, sums, order[1..])
  }

  /** Once the walk has failed, later files change nothing. */
  lemma {:induction false} ScanStaysFailed(t: Tree, ops: PathOps, order: seq<string>, k: nat)
    requires k <= |order| && Scan(t, ops, order[..k]).failure.Some?
    ensures Scan(t, ops, order) == Scan(t, ops, order[..k])
    decreases |order| - k
  {
    if k < |order| {
      assert order[..k + 1][..k] == order[..k];
      ScanStaysFailed(t, ops, order, k + 1);
    } else {
      assert order[..k] == order;
    }
  }

  /** Hashes the files in `order`, stopping at the first that fails or differs from `sums`. */
  method HashFiles(t: Tree, ops: PathOps, sha: seq<byte> -> Digest, sums: map<string, string>, order: seq<string>)
    returns (bad: Option<Verdict>)
    ensures bad == CheckHashes(t, ops, sha, sums, order)
  {
    var j := 0;
    while j < |order|
      invariant 0 <= j <= |order|
      invariant CheckHashes(t, ops, sha, sums, order[j..]) == CheckHashes(t, ops, sha, sums, order)
    {
      var fileToHash := order[j];
      assert order[j..][0] == fileToHash;
      var actualHash := ComputeHashOfFile(t, ops, sha, fileToHash);
      if actualHash.Failed? {
        return Some(Raised(actualHash.error));
      }
      if fileToHash !in sums {
        return Some(Raised(KeyError));
      }
      if !(actualHash.Hashed? && actualHash.digest == sums[fileToHash]) {
        return Some(Invalid(HashMismatch(fileToHash)));
      }
      assert order[j..][1..] == order[j + 1..];
      j := j + 1;
    }
    return None;
  }

  /** Where `VerifyPackageImage` stops, and the tree as it leaves it. */
  datatype ImageCheck = ImageCheck(verdict: Verdict, after: Tree)

  /** `VerifyPackageImage` on an extracted package image. */
  function CheckImage(t: Tree, ops: PathOps, tools: Tools, spdx: Option<set<string>>): (c: ImageCheck)
    ensures c.verdict.Invalid? ==> ImageReason(c.verdict.reason)
  {
    if !IsRegularFile(t, ops, RootHashFileName) then ImageCheck(Invalid(MissingFile(RootHashFileName)), t)
    else if !IsRegularFile(t, ops, DescriptorName) then ImageCheck(Invalid(MissingFile(DescriptorName)), t)
    else
      var text := tools.utf8Decode(Open(t, ops, RootHashFileName).value);
      if text.None? then ImageCheck(Raised(UnicodeDecodeError), t)
      else
        var sums := Parse(text.value);
        if sums.Err? then ImageCheck(Invalid(BadHashFile(sums.error)), t)
        else CheckListing(t, ops, tools, spdx, sums.value)
  }

  /** `VerifyPackageImage` once the hash file has parsed into `sums`: the walk, then the comparisons. */
  function CheckListing(t: Tree, ops: PathOps, tools: Tools, spdx: Option<set<string>>, sums: map<string, string>): (c: ImageCheck)
    ensures c.verdict.Invalid? ==> ImageReason(c.verdict.reason)
  {
    var files := WalkFiles(t, ops);
    var scan := Scan(t, ops, tools.listOrder(files));
    if scan.failure.Some? then ImageCheck(Raised(scan.failure.value), scan.tree)
    else ImageCheck(CheckContents(scan.tree, scan.readOnly, ops, tools, spdx, sums, files - {RootHashFileName}), scan.tree)
  }

  /** The comparisons after the walk: missing files, unexpected files, hashes, read-only files, license. */
  function CheckContents(t: Tree, readOnly: bool, ops: PathOps, tools: Tools, spdx: Option<set<string>>,
                         sums: map<string, string>, actual: set<string>): (v: Verdict)
    ensures v.Invalid? ==> ImageReason(v.reason)
  {
    var expected := sums.Keys;
    if expected - actual != {} then Invalid(FilesMissing(expected - actual))
    else if actual - expected != {} then Invalid(UnexpectedFiles(actual - expected))
    else
      var bad := CheckHashes(t, ops, tools.sha256, sums, tools.setOrder(actual));
      if bad.Some? then bad.value
      else if readOnly then Invalid(ReadOnlyFiles)
      else LicenseVerdict(ValidatePackageLicense(t, ops, tools, spdx))
  }

  /**
   * A hash file that lists `SHA256SUMS` itself can never be satisfied: the walk leaves
   * that name out of the files it found, so it is reported missing (unless the walk
   * raises first).
   */
  lemma OwnSumsMissing(t: Tree, ops: PathOps, tools: Tools, spdx: Option<set<string>>, sums: map<string, string>)
    requires RootHashFileName in sums
    ensures var v := CheckListing(t, ops, tools, spdx, sums).verdict;
              v.Raised? || (v.Invalid? && v.reason.FilesMissing? && RootHashFileName in v.reason.missing)
  {
    var files := WalkFiles(t, ops);
    var scan := Scan(t, ops, tools.listOrder(files));
    if scan.failure.None? {
      var actual := files - {RootHashFileName};
      assert RootHashFileName in sums.Keys - actual;
      assert CheckListing(t, ops, tools, spdx, sums).verdict
          == CheckContents(scan.tree, scan.readOnly, ops, tools, spdx, sums, actual);
    }
  }

  /** The verdict of `VerifyPackageImage`. */
  function VerifyImage(t: Tree, ops: PathOps, tools: Tools, spdx: Option<set<string>>): (v: Verdict)
    ensures v.Invalid? ==> ImageReason(v.reason)
  {
    CheckImage(t, ops, tools, spdx).verdict
  }

  /** An extracted package image in a temporary folder; checking it may make its files writable. */
  class ExtractedImage {
    var tree: Tree

    constructor (t: Tree)
      ensures tree == t
    {
      tree := t;
    }

    /** The walk: makes each read-only file writable by its owner, and stops at a broken link. */
    method MakeWritable(ops: PathOps, listing: seq<string>) returns (foundReadOnly: bool, failure: Option<Exception>)
      modifies this
      ensures Scan(old(tree), ops, listing) == ScanState(tree, foundReadOnly, failure)
    {
      ghost var t := tree;
      foundReadOnly := false;
      var i := 0;
      while i < |listing|
        invariant 0 <= i <= |listing|
        invariant Scan(t, ops, listing[..i]) == ScanState(tree, foundReadOnly, None)
      {
        assert listing[..i + 1][..i] == listing[..i];
        var access := AccessOf(tree, ops, listing[i]);
        match access {
          case Writable =>
          case ReadOnly(q) =>
            tree := tree[q := File(tree[q].data, tree[q].mode | UserWrite)];
            foundReadOnly := true;
          case Broken(e) =>
            ScanStaysFailed(t, ops, listing, i + 1);
            return foundReadOnly, Some(e);
        }
        i := i + 1;
      }
      assert listing[..i] == listing;
      return foundReadOnly, None;
    }

    /** Checks the image, making every read-only file it meets writable on the way. */
    method VerifyPackageImage(ops: PathOps, tools: Tools, spdx: Option<set<string>>) returns (v: Verdict)
      modifies this
      ensures v == CheckImage(old(tree), ops, tools, spdx).verdict
      ensures tree == CheckImage(old(tree), ops, tools, spdx).after
    {
      var t := tree;
      if !IsRegularFile(t, ops, RootHashFileName) {
        return Invalid(MissingFile(RootHashFileName));
      }
      if !IsRegularFile(t, ops, DescriptorName) {
        return Invalid(MissingFile(DescriptorName));
      }
      var text := tools.utf8Decode(Open(t, ops, RootHashFileName).value);
      if text.None? {
        return Raised(UnicodeDecodeError);
      }
      var parsed := ParseSHA256SumsFile(text.value);
      if parsed.Err? {
        return Invalid(BadHashFile(parsed.error));
      }
      var packageSums := parsed.value;
      var files := WalkFiles(t, ops);
      var foundReadOnly, failure := MakeWritable(ops, tools.listOrder(files));
      if failure.Some? {
        return Raised(failure.value);
      }
      var actual := files - {RootHashFileName};
      var expected := packageSums.Keys;
      if expected - actual != {} {
        return Invalid(FilesMissing(expected - actual));
      }
      if actual - expected != {} {
        return Invalid(UnexpectedFiles(actual - expected));
      }
      var bad := HashFiles(tree, ops, tools.sha256, packageSums, tools.setOrder(actual));
      if bad.Some? {
        return bad.value;
      }
      if foundReadOnly {
        return Invalid(ReadOnlyFiles);
      }
      v := LicenseVerdict(ValidatePackageLicense(tree, ops, tools, spdx));
    }
  }

  /** The tree `extractall` creates from an archive: regular files with their modes, and links. */
  function Extract(a: Archive): (t: Tree)
    ensures t.Keys == a.Keys
    ensures forall n | n in a :: t[n] == if a[n].RegularMember? then File(a[n].data, a[n].mode) else Link(a[n].target)
  {
    map n | n in a :: if a[n].RegularMember? then File(a[n].data, a[n].mode) else Link(a[n].target)
  }

  /** The first of `parts` that does not exist, if any. */
  function FirstMissing(t: Tree, ops: PathOps, parts: seq<string>): (r: Option<string>)
    ensures r.None? <==> forall i | 0 <= i < |parts| :: PathExists(t, ops, parts[i])
    ensures r.Some? ==> exists k | 0 <= k < |parts| :: parts[k] == r.value && !PathExists(t, ops, parts[k])
                          && forall i | 0 <= i < k :: PathExists(t, ops, parts[i])
  {
    if parts == [] then None
    else if !PathExists(t, ops, parts[0]) then Some(parts[0])
    else
      var rest := FirstMissing(t, ops, parts[1..]);
      assert forall i | 1 <= i < |parts| :: parts[i] == parts[1..][i - 1];
      rest
  }

  /**
   * `FullyValidatePackage(package_folder, package_name)` on the folder's tree: every
   * part must exist; the archive's hash file must list exactly the archive, with the
   * archive's hash; the archive must extract to a valid package image.
   */
  function ValidatePackage(t: Tree, ops: PathOps, tools: Tools, spdx: Option<set<string>>, name: string): Verdict {
    var missing := FirstMissing(t, ops, PackageParts(name));
    if missing.Some? then Invalid(MissingPart(missing.value))
    else CheckArchive(t, ops, tools, spdx, name)
  }

  /** Once every part exists: hash the archive, then read and parse its hash file. */
  function CheckArchive(t: Tree, ops: PathOps, tools: Tools, spdx: Option<set<string>>, name: string): (v: Verdict)
    ensures v.Invalid? ==> !v.reason.MissingPart?
  {
    var hash := HashOf(t, ops, tools.sha256, name + PackageExtension);
    if hash.Failed? then Raised(hash.error)
    else
      var hashFile := Open(t, ops, name + PackageHashExtension);
      if hashFile.Err? then Raised(hashFile.error)
      else
        var text := tools.utf8Decode(hashFile.value);
        if text.None? then Raised(UnicodeDecodeError)
        else
          var sums := Parse(text.value);
          if sums.Err? then Invalid(BadArchiveHashFile(sums.error))
          else CheckArchiveSums(t, ops, tools, spdx, name, hash, sums.value)
  }

  /** The archive's hash file must hold one entry, naming the archive with its digest; then the archive is extracted and checked. */
  function CheckArchiveSums(t: Tree, ops: PathOps, tools: Tools, spdx: Option<set<string>>, name: string,
                            hash: HashResult, sums: map<string, string>): (v: Verdict)
    ensures v.Invalid? ==> !v.reason.MissingPart?
  {
    var archive := name + PackageExtension;
    if |sums| != 1 then Invalid(NotOneEntry)
    else if archive !in sums then Invalid(ArchiveNotListed)
    else if !(hash.Hashed? && hash.digest == sums[archive]) then Invalid(ArchiveHashMismatch)
    else VerifyArchive(t, ops, tools, spdx, archive)
  }

  /** Reads the archive, extracts it into a fresh image and checks the image. */
  function VerifyArchive(t: Tree, ops: PathOps, tools: Tools, spdx: Option<set<string>>, archive: string): (v: Verdict)
    ensures v.Invalid? ==> ImageReason(v.reason)
  {
    var bytes := Open(t, ops, archive);
    if bytes.Err? then Raised(bytes.error)
    else
      var members := tools.untarXz(bytes.value);
      if members.None? then Raised(TarReadError)
      else VerifyImage(Extract(members.value), ops, tools, spdx)
  }

  /** Validates a published package: parts, archive hash, then the extracted contents. */
  method FullyValidatePackage(t: Tree, ops: PathOps, tools: Tools, spdx: Option<set<string>>, name: string)
    returns (v: Verdict)
    ensures v == ValidatePackage(t, ops, tools, spdx, name)
  {
    var parts := PackageParts(name);
    for i := 0 to |parts|
      invariant forall j | 0 <= j < i :: PathExists(t, ops, parts[j])
    {
      if !PathExists(t, ops, parts[i]) {
        assert FirstMissing(t, ops, parts) == Some(parts[i]) by {
          FirstMissingAt(t, ops, parts, i);
        }
        return Invalid(MissingPart(parts[i]));
      }
    }
    var archivePath := name + PackageExtension;
    var hashResult := ComputeHashOfFile(t, ops, tools.sha256, archivePath);
    if hashResult.Failed? {
      return Raised(hashResult.error);
    }
    var hashFile := Open(t, ops, name + PackageHashExtension);
    if hashFile.Err? {
      return Raised(hashFile.error);
    }
    var text := tools.utf8Decode(hashFile.value);
    if text.None? {
      return Raised(UnicodeDecodeError);
    }
    var packageSums := ParseSHA256SumsFile(text.value);
    if packageSums.Err? {
      return Invalid(BadArchiveHashFile(packageSums.error));
    }
    if |packageSums.value| != 1 {
      return Invalid(NotOneEntry);
    }
    if archivePath !in packageSums.value {
      return Invalid(ArchiveNotListed);
    }
    if !(hashResult.Hashed? && hashResult.digest == packageSums.value[archivePath]) {
      return Invalid(ArchiveHashMismatch);
    }
    var bytes := Open(t, ops, archivePath);
    if bytes.Err? {
      return Raised(bytes.error);
    }
    var members := tools.untarXz(bytes.value);
    if members.None? {
      return Raised(TarReadError);
    }
    var image := new ExtractedImage(Extract(members.value));
    v := image.VerifyPackageImage(ops, tools, spdx);
  }

  /** The first missing part is the first index at which a part is missing. */
  lemma {:induction false} FirstMissingAt(t: Tree, ops: PathOps, parts: seq<string>, k: nat)
    requires k < |parts| && !PathExists(t, ops, parts[k])
    requires forall j | 0 <= j < k :: PathExists(t, ops, parts[j])
    ensures FirstMissing(t, ops, parts) == Some(parts[k])
  {
    if k > 0 {
      assert PathExists(t, ops, parts[0]);
      assert parts[1..][k - 1] == parts[k];
      forall j | 0 <= j < k - 1 ensures PathExists(t, ops, parts[1..][j]) {
        assert parts[1..][j] == parts[j + 1];
      }
      FirstMissingAt(t, ops, parts[1..], k - 1);
    }
  }

  /** A hash result that is a digest equal to `expected`. */
  predicate Matches(h: HashResult, expected: string) {
    h.Hashed? && h.digest == expected
  }

  /** The hash loop finds nothing exactly when every file is listed and hashes to its listed digest. */
  lemma {:induction false} CheckHashesNone(t: Tree, ops: PathOps, sha: seq<byte> -> Digest, sums: map<string, string>, order: seq<string>)
    ensures CheckHashes(t, ops, sha, sums, order).None? <==>
              forall i | 0 <= i < |order| :: order[i] in sums && Matches(HashOf(t, ops, sha, order[i]), sums[order[i]])
  {
    if order != [] {
      CheckHashesNone(t, ops, sha, sums, order[1..]);
      assert forall i | 1 <= i < |order| :: order[i] == order[1..][i - 1];
    }
  }

  /**
   * A walk that made no file writable left the tree as it was; the walk neither failed
   * nor met a read-only file exactly when every listed file was writable.
   */
  lemma {:induction false} ScanClean(t: Tree, ops: PathOps, order: seq<string>)
    ensures !Scan(t, ops, order).readOnly ==> Scan(t, ops, order).tree == t
    ensures Scan(t, ops, order) == ScanState(t, false, None) <==>
              forall i | 0 <= i < |order| :: AccessOf(t, ops, order[i]) == Writable
  {
    if order != [] {
      var pre := order[..|order| - 1];
      ScanClean(t, ops, pre);
      assert forall i | 0 <= i < |pre| :: pre[i] == order[i];
    }
  }

  /** An image whose hash file is a regular file, decodes, and parses. */
  ghost predicate HashFileParses(t: Tree, ops: PathOps, tools: Tools) {
    && IsRegularFile(t, ops, RootHashFileName)
    && IsRegularFile(t, ops, DescriptorName)
    && tools.utf8Decode(Open(t, ops, RootHashFileName).value).Some?
    && Parse(tools.utf8Decode(Open(t, ops, RootHashFileName).value).value).Ok?
  }

  /** The entries of the image's hash file. */
  ghost function ImageSums(t: Tree, ops: PathOps, tools: Tools): map<string, string>
    requires HashFileParses(t, ops, tools)
  {
    Parse(tools.utf8Decode(Open(t, ops, RootHashFileName).value).value).value
  }

  /**
   * A sound package image, independently of any order: its hash file parses; every
   * listed file is writable; the listed files other than the hash file are exactly the
   * ones it names, each with its digest; and its license is accepted.
   */
  ghost predicate SoundImage(t: Tree, ops: PathOps, tools: Tools, spdx: Option<set<string>>) {
    && HashFileParses(t, ops, tools)
    && (forall p | p in WalkFiles(t, ops) :: AccessOf(t, ops, p) == Writable)
    && WalkFiles(t, ops) - {RootHashFileName} == ImageSums(t, ops, tools).Keys
    && (forall f | f in ImageSums(t, ops, tools) :: Matches(HashOf(t, ops, tools.sha256, f), ImageSums(t, ops, tools)[f]))
    && LicenseAccepted(t, ops, tools, spdx)
  }

  /** When `order` lists the named files once each, the hash loop finds nothing exactly when every named file has its digest. */
  lemma HashesValid(t: Tree, ops: PathOps, sha: seq<byte> -> Digest, sums: map<string, string>, order: seq<string>)
    requires Enumerates(order, sums.Keys)
    ensures CheckHashes(t, ops, sha, sums, order).None? <==> forall f | f in sums :: Matches(HashOf(t, ops, sha, f), sums[f])
  {
    CheckHashesNone(t, ops, sha, sums, order);
    if CheckHashes(t, ops, sha, sums, order).None? {
      forall f | f in sums ensures Matches(HashOf(t, ops, sha, f), sums[f]) {
        assert f in order;
        var i :| 0 <= i < |order| && order[i] == f;
        assert order[i] in sums && Matches(HashOf(t, ops, sha, order[i]), sums[order[i]]);
      }
    }
    if forall f | f in sums :: Matches(HashOf(t, ops, sha, f), sums[f]) {
      forall i | 0 <= i < |order| ensures order[i] in sums && Matches(HashOf(t, ops, sha, order[i]), sums[order[i]]) {
        assert order[i] in sums.Keys;
      }
    }
  }

  /** After a clean walk, the comparisons pass exactly when the files are the named ones, with their digests, under an accepted license. */
  lemma ContentsValid(t: Tree, ops: PathOps, tools: Tools, spdx: Option<set<string>>, sums: map<string, string>, actual: set<string>)
    requires Enumerates(tools.setOrder(actual), actual)
    ensures CheckContents(t, false, ops, tools, spdx, sums, actual) == Valid <==>
              && actual == sums.Keys
              && (forall f | f in sums :: Matches(HashOf(t, ops, tools.sha256, f), sums[f]))
              && ValidatePackageLicense(t, ops, tools, spdx) == Ok(true)
  {
    if actual == sums.Keys {
      HashesValid(t, ops, tools.sha256, sums, tools.setOrder(actual));
    } else {
      assert sums.Keys - actual != {} || actual - sums.Keys != {};
    }
  }

  /** Once the hash file has parsed, the image is valid exactly when every listed file is writable and the comparisons pass. */
  lemma ListingValid(t: Tree, ops: PathOps, tools: Tools, spdx: Option<set<string>>, sums: map<string, string>)
    requires Enumerates(tools.listOrder(WalkFiles(t, ops)), WalkFiles(t, ops))
    ensures CheckListing(t, ops, tools, spdx, sums).verdict == Valid <==>
              && (forall p | p in WalkFiles(t, ops) :: AccessOf(t, ops, p) == Writable)
              && CheckContents(t, false, ops, tools, spdx, sums, WalkFiles(t, ops) - {RootHashFileName}) == Valid
  {
    var files := WalkFiles(t, ops);
    var listing := tools.listOrder(files);
    ScanClean(t, ops, listing);
    var scan := Scan(t, ops, listing);
    if CheckListing(t, ops, tools, spdx, sums).verdict == Valid {
      assert scan.failure.None? && !scan.readOnly;
      assert scan == ScanState(t, false, None);
      forall p | p in files ensures AccessOf(t, ops, p) == Writable {
        assert p in listing;
        var i :| 0 <= i < |listing| && listing[i] == p;
        assert AccessOf(t, ops, listing[i]) == Writable;
      }
    }
    if forall p | p in files :: AccessOf(t, ops, p) == Writable {
      forall i | 0 <= i < |listing| ensures AccessOf(t, ops, listing[i]) == Writable {
        assert listing[i] in files;
      }
      assert scan == ScanState(t, false, None);
    }
  }

  /** When sets are listed and iterated element by element, an image is valid exactly when it is sound. */
  lemma VerifyImageValid(t: Tree, ops: PathOps, tools: Tools, spdx: Option<set<string>>)
    requires OrdersEnumerate(tools)
    ensures VerifyImage(t, ops, tools, spdx) == Valid <==> SoundImage(t, ops, tools, spdx)
  {
    if HashFileParses(t, ops, tools) {
      var sums := ImageSums(t, ops, tools);
      var files := WalkFiles(t, ops);
      var actual := files - {RootHashFileName};
      assert CheckImage(t, ops, tools, spdx) == CheckListing(t, ops, tools, spdx, sums);
      assert Enumerates(tools.listOrder(files), files);
      assert Enumerates(tools.setOrder(actual), actual);
      ListingValid(t, ops, tools, spdx, sums);
      ContentsValid(t, ops, tools, spdx, sums, actual);
      LicenseOk(t, ops, tools, spdx);
    }
  }

  /** A map with one entry, for the key it holds, is that entry alone. */
  lemma SingleEntry(m: map<string, string>, k: string)
    requires |m| == 1 && k in m
    ensures m == map[k := m[k]]
  {
    var rest := m.Keys - {k};
    assert m.Keys == rest + {k};
    assert rest == {};
  }

  /**
   * A sound published package, independently of the order of the checks: every part
   * exists; the archive hashes to a digest; its hash file decodes and parses to the
   * single entry naming the archive with that digest; and the archive reads and
   * extracts to a valid package image.
   */
  ghost predicate SoundPackage(t: Tree, ops: PathOps, tools: Tools, spdx: Option<set<string>>, name: string) {
    var archive := name + PackageExtension;
    var hash := HashOf(t, ops, tools.sha256, archive);
    var hashFile := Open(t, ops, name + PackageHashExtension);
    var bytes := Open(t, ops, archive);
    && (forall i | 0 <= i < 4 :: PathExists(t, ops, PackageParts(name)[i]))
    && hash.Hashed?
    && hashFile.Ok?
    && tools.utf8Decode(hashFile.value).Some?
    && Parse(tools.utf8Decode(hashFile.value).value) == Ok(map[archive := hash.digest])
    && bytes.Ok?
    && tools.untarXz(bytes.value).Some?
    && VerifyImage(Extract(tools.untarXz(bytes.value).value), ops, tools, spdx) == Valid
  }

  /** The archive stage accepts exactly an archive that opens and extracts to a valid image. */
  lemma VerifyArchiveSound(t: Tree, ops: PathOps, tools: Tools, spdx: Option<set<string>>, archive: string)
    ensures VerifyArchive(t, ops, tools, spdx, archive) == Valid <==>
              && Open(t, ops, archive).Ok?
              && tools.untarXz(Open(t, ops, archive).value).Some?
              && VerifyImage(Extract(tools.untarXz(Open(t, ops, archive).value).value), ops, tools, spdx) == Valid
  {
  }

  /** The hash-file entries are accepted exactly when they are the single entry naming the archive with its digest. */
  lemma ArchiveSumsSound(t: Tree, ops: PathOps, tools: Tools, spdx: Option<set<string>>, name: string,
                         hash: HashResult, sums: map<string, string>)
    ensures CheckArchiveSums(t, ops, tools, spdx, name, hash, sums) == Valid <==>
              && hash.Hashed?
              && sums == map[name + PackageExtension := hash.digest]
              && VerifyArchive(t, ops, tools, spdx, name + PackageExtension) == Valid
  {
    var archive := name + PackageExtension;
    if |sums| == 1 && archive in sums {
      SingleEntry(sums, archive);
    }
    if hash.Hashed? && sums == map[archive := hash.digest] {
      assert |sums| == 1;
    }
  }

  /** Once every part exists, the package is accepted exactly when it is sound. */
  lemma CheckArchiveSound(t: Tree, ops: PathOps, tools: Tools, spdx: Option<set<string>>, name: string)
    ensures (forall i | 0 <= i < 4 :: PathExists(t, ops, PackageParts(name)[i])) ==>
              (CheckArchive(t, ops, tools, spdx, name) == Valid <==> SoundPackage(t, ops, tools, spdx, name))
  {
    var archive := name + PackageExtension;
    var hash := HashOf(t, ops, tools.sha256, archive);
    var hashFile := Open(t, ops, name + PackageHashExtension);
    VerifyArchiveSound(t, ops, tools, spdx, archive);
    if !hash.Failed? && hashFile.Ok? && tools.utf8Decode(hashFile.value).Some? {
      var sums := Parse(tools.utf8Decode(hashFile.value).value);
      if sums.Ok? {
        ArchiveSumsSound(t, ops, tools, spdx, name, hash, sums.value);
      }
    }
  }

  /** `FullyValidatePackage` accepts exactly the sound packages. */
  lemma ValidatePackageSound(t: Tree, ops: PathOps, tools: Tools, spdx: Option<set<string>>, name: string)
    ensures ValidatePackage(t, ops, tools, spdx, name) == Valid <==> SoundPackage(t, ops, tools, spdx, name)
  {
    CheckArchiveSound(t, ops, tools, spdx, name);
  }

  /**
   * A part that is missing is reported before anything is read: the package is rejected
   * for a missing part exactly when one is missing, and the part named is the first
   * missing one.
   */
  lemma MissingPartFirst(t: Tree, ops: PathOps, tools: Tools, spdx: Option<set<string>>, name: string)
    ensures var v := ValidatePackage(t, ops, tools, spdx, name);
              v.Invalid? && v.reason.MissingPart? <==> exists i | 0 <= i < 4 :: !PathExists(t, ops, PackageParts(name)[i])
    ensures var v := ValidatePackage(t, ops, tools, spdx, name);
              v.Invalid? && v.reason.MissingPart? ==>
                exists k | 0 <= k < 4 :: PackageParts(name)[k] == v.reason.part && !PathExists(t, ops, PackageParts(name)[k])
                  && forall i | 0 <= i < k :: PathExists(t, ops, PackageParts(name)[i])
  {
  }

  /** The verdict on a published package depends on the contents of its files, not on their permission bits. */
  lemma ValidatePackageSameShape(t1: Tree, t2: Tree, ops: PathOps, tools: Tools, spdx: Option<set<string>>, name: string)
    requires SameShape(t1, t2)
    ensures ValidatePackage(t1, ops, tools, spdx, name) == ValidatePackage(t2, ops, tools, spdx, name)
  {
    var parts := PackageParts(name);
    forall i | 0 <= i < 4 ensures PathExists(t1, ops, parts[i]) == PathExists(t2, ops, parts[i]) {
      ReadsSameShape(t1, t2, ops, tools.sha256, parts[i]);
    }
    assert FirstMissing(t1, ops, parts) == FirstMissing(t2, ops, parts) by {
      FirstMissingSame(t1, t2, ops, parts);
    }
    ArchiveSameShape(t1, t2, ops, tools, spdx, name);
  }

  /** The archive checks read the same bytes and hashes in trees of the same shape. */
  lemma ArchiveSameShape(t1: Tree, t2: Tree, ops: PathOps, tools: Tools, spdx: Option<set<string>>, name: string)
    requires SameShape(t1, t2)
    ensures CheckArchive(t1, ops, tools, spdx, name) == CheckArchive(t2, ops, tools, spdx, name)
  {
    var archive := name + PackageExtension;
    ReadsSameShape(t1, t2, ops, tools.sha256, archive);
    ReadsSameShape(t1, t2, ops, tools.sha256, name + PackageHashExtension);
    assert VerifyArchive(t1, ops, tools, spdx, archive) == VerifyArchive(t2, ops, tools, spdx, archive);
    var hash := HashOf(t1, ops, tools.sha256, archive);
    var hashFile := Open(t1, ops, name + PackageHashExtension);
    if !hash.Failed? && hashFile.Ok? && tools.utf8Decode(hashFile.value).Some? {
      var sums := Parse(tools.utf8Decode(hashFile.value).value);
      if sums.Ok? {
        assert CheckArchiveSums(t1, ops, tools, spdx, name, hash, sums.value) == CheckArchiveSums(t2, ops, tools, spdx, name, hash, sums.value);
      }
    }
  }

  /** The first missing part is the same in two trees where the same parts exist. */
  lemma {:induction false} FirstMissingSame(t1: Tree, t2: Tree, ops: PathOps, parts: seq<string>)
    requires forall i | 0 <= i < |parts| :: PathExists(t1, ops, parts[i]) == PathExists(t2, ops, parts[i])
    ensures FirstMissing(t1, ops, parts) == FirstMissing(t2, ops, parts)
  {
    if parts != [] {
      assert forall i | 0 <= i < |parts| - 1 :: parts[1..][i] == parts[i + 1];
      FirstMissingSame(t1, t2, ops, parts[1..]);
    }
  }

  /** Making `q` writable by its owner keeps writable paths writable, fixes the paths that led to `q`, and breaks nothing. */
  lemma AccessAfterChmod(t: Tree, ops: PathOps, q: string, p: string)
    requires q in t && t[q].File?
    ensures var u := t[q := File(t[q].data, t[q].mode | UserWrite)];
              && SameShape(t, u)
              && (AccessOf(t, ops, p) == Writable ==> AccessOf(u, ops, p) == Writable)
              && (AccessOf(t, ops, p) == ReadOnly(q) ==> AccessOf(u, ops, p) == Writable)
              && (AccessOf(u, ops, p).Broken? <==> AccessOf(t, ops, p).Broken?)
  {
    var u := t[q := File(t[q].data, t[q].mode | UserWrite)];
    assert SameShape(t, u);
    ResolveSameLinks(t, u, ops, ops.dirname(p), p, []);
    match Resolve(t, ops, ops.dirname(p), p, [])
    case Cyclic(_, _) =>
    case Resolved(r, _) => LookupSameShape(t, u, r);
  }

  /** One step of the walk keeps the files already walked writable, and makes the next one writable unless it is broken. */
  lemma StepKeepsWritable(s: ScanState, ops: PathOps, walked: seq<string>, p: string)
    requires s.failure.None?
    requires forall i | 0 <= i < |walked| :: AccessOf(s.tree, ops, walked[i]) == Writable
    ensures SameShape(s.tree, ScanStep(s, ops, p).tree)
    ensures ScanStep(s, ops, p).failure.None? ==>
              && AccessOf(ScanStep(s, ops, p).tree, ops, p) == Writable
              && forall i | 0 <= i < |walked| :: AccessOf(ScanStep(s, ops, p).tree, ops, walked[i]) == Writable
  {
    match AccessOf(s.tree, ops, p)
    case Writable =>
      assert SameShape(s.tree, s.tree);
    case ReadOnly(q) =>
      AccessAfterChmod(s.tree, ops, q, p);
      forall i | 0 <= i < |walked| ensures AccessOf(ScanStep(s, ops, p).tree, ops, walked[i]) == Writable {
        AccessAfterChmod(s.tree, ops, q, walked[i]);
      }
    case Broken(_) =>
      assert SameShape(s.tree, s.tree);
  }

  /** Trees of the same shape as a third have the same shape as each other. */
  lemma SameShapeTrans(t1: Tree, t2: Tree, t3: Tree)
    requires SameShape(t1, t2) && SameShape(t2, t3)
    ensures SameShape(t1, t3)
  {
  }

  /**
   * The walk does not stop at the first read-only file: once it has run to the end,
   * every listed file is writable, and it has changed no contents and no links.
   */
  lemma {:induction false} ScanLeavesWritable(t: Tree, ops: PathOps, order: seq<string>)
    ensures SameShape(t, Scan(t, ops, order).tree)
    ensures Scan(t, ops, order).failure.None? ==>
              forall i | 0 <= i < |order| :: AccessOf(Scan(t, ops, order).tree, ops, order[i]) == Writable
  {
    if order == [] {
      assert SameShape(t, t);
    } else {
      var pre := order[..|order| - 1];
      var p := order[|order| - 1];
      ScanLeavesWritable(t, ops, pre);
      var s := Scan(t, ops, pre);
      if s.failure.None? {
        StepKeepsWritable(s, ops, pre, p);
        SameShapeTrans(t, s.tree, ScanStep(s, ops, p).tree);
        assert forall i | 0 <= i < |pre| :: pre[i] == order[i];
      }
    }
  }

  /**
   * The image is changed only once its hash file has parsed; the change only makes files
   * writable; and when the walk has run to the end every file it lists is writable.
   */
  lemma CheckImageAfter(t: Tree, ops: PathOps, tools: Tools, spdx: Option<set<string>>)
    requires Enumerates(tools.listOrder(WalkFiles(t, ops)), WalkFiles(t, ops))
    ensures !HashFileParses(t, ops, tools) ==> CheckImage(t, ops, tools, spdx).after == t
    ensures SameShape(t, CheckImage(t, ops, tools, spdx).after)
    ensures HashFileParses(t, ops, tools) && !CheckImage(t, ops, tools, spdx).verdict.Raised? ==>
              forall p | p in WalkFiles(t, ops) :: AccessOf(CheckImage(t, ops, tools, spdx).after, ops, p) == Writable
  {
    var listing := tools.listOrder(WalkFiles(t, ops));
    ScanLeavesWritable(t, ops, listing);
    if HashFileParses(t, ops, tools) {
      assert CheckImage(t, ops, tools, spdx) == CheckListing(t, ops, tools, spdx, ImageSums(t, ops, tools));
      forall p | p in WalkFiles(t, ops) && Scan(t, ops, listing).failure.None?
        ensures AccessOf(Scan(t, ops, listing).tree, ops, p) == Writable
      {
        var i :| 0 <= i < |listing| && listing[i] == p;
      }
    } else {
      assert SameShape(t, t);
    }
  }
}
