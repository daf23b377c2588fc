/**
 * `PackageUpFolder` validates the package it has just published. For a package folder
 * of plain files whose descriptor and license pass the checks, and library routines that
 * behave (UTF-8 and tar round trips, set iteration visiting each element once), that
 * validation accepts the package.
 */
module SelfCheck {
  import opened Wrappers
  import opened Platform
  import opened OrderedMap
  import opened Manifest
  import opened Hasher
  import opened Descriptor
  import opened Validator
  import opened Packager
  import opened Publication
  import opened Runs

  /** A tree of regular files only: no links, no directory entries. */
  ghost predicate Plain(t: Tree) {
    forall p | p in t :: t[p].File?
  }

  /** In a plain tree a path leads to itself. */
  lemma PlainResolve(t: Tree, ops: PathOps, path: string)
    requires Plain(t)
    ensures Resolve(t, ops, ops.dirname(path), path, []) == Resolved(path, [])
  {
    assert !IsLink(t, Current(path, []));
  }

  /** In a plain tree exactly the files open, and `os.path.exists` is a look-up. */
  lemma PlainOpen(t: Tree, ops: PathOps, path: string)
    requires Plain(t)
    ensures Open(t, ops, path).Ok? <==> path in t
    ensures PathExists(t, ops, path) <==> Lookup(t, path).Some?
    ensures !ResolvesToDir(t, ops, path) || path !in t
  {
    PlainResolve(t, ops, path);
  }

  /** The tree extracted from the archive `PackageUpFolder` writes. */
  function ImageOf(src: Tree, out: Tree, tools: Tools, hashes: Dict<string, string>, name: string, newMode: bv32): Tree
    requires hashes.Valid()
    requires forall p | p in hashes.items :: p in src && !src[p].Dir?
  {
    Extract(ArchiveOf(src, hashes, ManifestNode(out, tools, hashes, name, newMode)))
  }

  /**
   * `image` holds the recorded files of `src` (the keys of `items`) and the manifest
   * bytes under `SHA256SUMS`, all of them plain files writable by their owner, each
   * recorded file with its contents in `src`.
   */
  ghost predicate HoldsFiles(image: Tree, src: Tree, items: map<string, string>, manifest: seq<byte>) {
    && image.Keys == items.Keys + {RootHashFileName}
    && Plain(image)
    && (forall p | p in image :: image[p].mode & UserWrite != 0)
    && RootHashFileName in image && image[RootHashFileName].data == manifest
    && (forall p | p in items :: p in src && p in image && src[p].File? && image[p].data == src[p].data)
  }

  /** The extracted archive of a plain folder holds the recorded files and the manifest. */
  lemma ImageShape(src: Tree, out: Tree, tools: Tools, hashes: Dict<string, string>, name: string, newMode: bv32)
    requires hashes.Valid()
    requires Plain(src) && RootHashFileName !in src
    requires forall p | p in hashes.items :: p in src
    ensures HoldsFiles(ImageOf(src, out, tools, hashes, name, newMode), src, hashes.items, tools.utf8Encode(Serialise(hashes)))
  {
    var manifest := ManifestNode(out, tools, hashes, name, newMode);
    var archive := ArchiveOf(src, hashes, manifest);
    forall p | p in archive ensures archive[p].RegularMember? && archive[p].mode & UserWrite != 0 {
      if p != RootHashFileName {
        assert archive[p] == MemberOf(src[p]);
      }
    }
  }

  /** Library routines that behave: UTF-8 and tar/LZMA round trips, and iteration visiting each element once. */
  ghost predicate Faithful(tools: Tools) {
    Utf8RoundTrips(tools) && TarRoundTrips(tools) && OrdersEnumerate(tools)
  }

  /**
   * A package folder of plain files, every one of them found by the glob, with names
   * that fit on a manifest line, no `SHA256SUMS` of its own, and paths that normalise to
   * themselves.
   */
  ghost predicate PlainPackage(src: Tree, ops: PathOps, hits: seq<string>) {
    && Plain(src)
    && RootHashFileName !in src
    && (forall p | p in src :: p in hits)
    && (forall i | 0 <= i < |hits| :: IsManifestPath(hits[i]))
    && (forall p: string :: ops.normpath(p) == p)
  }

  /** The manifest of a plain package folder records every file with the digest of its contents. */
  lemma PlainHashes(src: Tree, ops: PathOps, sha: seq<byte> -> Digest, hits: seq<string>)
    requires forall i | 0 <= i < |hits| :: hits[i] in src
    requires PlainPackage(src, ops, hits)
    requires FileHashes(src, ops, sha, hits).Ok?
    ensures var d := FileHashes(src, ops, sha, hits).value;
              && d.items.Keys == src.Keys
              && (forall p | p in d.items :: d.items[p] == sha(src[p].data) && HashOf(src, ops, sha, p).Hashed?)
  {
    FileHashesRecords(src, ops, sha, hits);
    var d := FileHashes(src, ops, sha, hits).value;
    forall p | p in src ensures p in d.items {
      PlainOpen(src, ops, p);
    }
    forall p | p in d.items ensures d.items[p] == sha(src[p].data) && HashOf(src, ops, sha, p).Hashed? {
      HashOfPlainFile(src, ops, sha, p);
    }
  }

  /** An image holding the files and a manifest that reads back as their entries has a hash file that parses to them. */
  lemma ImageHashFile(image: Tree, src: Tree, ops: PathOps, tools: Tools, hashes: Dict<string, string>)
    requires hashes.Valid()
    requires HoldsFiles(image, src, hashes.items, tools.utf8Encode(Serialise(hashes)))
    requires DescriptorName in hashes.items
    requires Utf8RoundTrips(tools)
    requires Parse(Serialise(hashes)) == Ok(hashes.items)
    ensures HashFileParses(image, ops, tools) && ImageSums(image, ops, tools) == hashes.items
  {
    PlainOpen(image, ops, RootHashFileName);
    PlainOpen(image, ops, DescriptorName);
    assert Open(image, ops, RootHashFileName) == Ok(tools.utf8Encode(Serialise(hashes)));
  }

  /**
   * In an image holding the files with their digests, every file is writable, the files
   * besides the hash file are the ones it names, and each has the digest it names.
   */
  lemma ImageListing(image: Tree, src: Tree, ops: PathOps, tools: Tools, items: map<string, string>, manifest: seq<byte>)
    requires HoldsFiles(image, src, items, manifest)
    requires RootHashFileName !in items
    requires forall p | p in items :: p in src && src[p].File? && items[p] == tools.sha256(src[p].data)
    requires forall p: string :: ops.normpath(p) == p
    requires HashFileParses(image, ops, tools) && ImageSums(image, ops, tools) == items
    ensures forall p | p in WalkFiles(image, ops) :: AccessOf(image, ops, p) == Writable
    ensures WalkFiles(image, ops) - {RootHashFileName} == ImageSums(image, ops, tools).Keys
    ensures forall f | f in ImageSums(image, ops, tools) ::
              Matches(HashOf(image, ops, tools.sha256, f), ImageSums(image, ops, tools)[f])
  {
    forall p | p in image ensures p in WalkFiles(image, ops) && AccessOf(image, ops, p) == Writable {
      PlainResolve(image, ops, p);
    }
    forall f | f in items ensures Matches(HashOf(image, ops, tools.sha256, f), items[f]) {
      HashOfPlainFile(image, ops, tools.sha256, f);
    }
  }

  /** Adding files to a tree keeps every path that existed in it. */
  lemma LookupGrows(small: Tree, large: Tree, p: string)
    requires small.Keys <= large.Keys
    requires Lookup(small, p).Some?
    ensures Lookup(large, p).Some?
  {
    if p !in small {
      var k :| k in small && Below(p, k);
      assert k in large;
    }
  }

  /** An image holding every file of a plain folder accepts the license as the folder does. */
  lemma ImageLicense(image: Tree, src: Tree, ops: PathOps, tools: Tools, spdx: Option<set<string>>,
                     items: map<string, string>, manifest: seq<byte>)
    requires HoldsFiles(image, src, items, manifest)
    requires Plain(src) && items.Keys == src.Keys
    requires LicenseAccepted(src, ops, tools, spdx)
    ensures LicenseAccepted(image, ops, tools, spdx)
  {
    PlainOpen(src, ops, DescriptorName);
    PlainOpen(image, ops, DescriptorName);
    assert Open(image, ops, DescriptorName) == Open(src, ops, DescriptorName);
    var info := ReadPackageInfo(src, ops, tools, DescriptorName);
    assert ReadPackageInfo(image, ops, tools, DescriptorName) == info;
    assert FieldPresent(info.value.fields, RequiredFields[3]);
    var licenseFile := info.value.fields["LicenseFile"].s;
    PlainOpen(src, ops, licenseFile);
    PlainOpen(image, ops, licenseFile);
    LookupGrows(src, image, licenseFile);
  }

  /**
   * What the checks establish about a plain package folder: its manifest records every
   * file with its digest, reads back as written and includes the descriptor, and its
   * license is accepted.
   */
  lemma PlainManifest(src: Tree, ops: PathOps, tools: Tools, spdx: Option<set<string>>, hits: seq<string>)
    requires forall i | 0 <= i < |hits| :: hits[i] in src
    requires PlainPackage(src, ops, hits)
    requires Admitted(src, ops, tools, spdx, hits)
    ensures var d := FileHashes(src, ops, tools.sha256, hits).value;
              && d.items.Keys == src.Keys && DescriptorName in d.items
              && (forall p | p in d.items :: d.items[p] == tools.sha256(src[p].data))
              && Parse(Serialise(d)) == Ok(d.items)
              && LicenseAccepted(src, ops, tools, spdx)
  {
    var d := FileHashes(src, ops, tools.sha256, hits).value;
    PlainHashes(src, ops, tools.sha256, hits);
    ManifestRoundTrip(src, ops, tools.sha256, hits);
    PlainOpen(src, ops, DescriptorName);
    LicenseOk(src, ops, tools, spdx);
  }

  /** An image holding the files of a plain folder, with a manifest that reads back, is sound: `VerifyPackageImage` accepts it. */
  lemma ImageSound(image: Tree, src: Tree, ops: PathOps, tools: Tools, spdx: Option<set<string>>, d: Dict<string, string>)
    requires d.Valid() && Faithful(tools)
    requires Plain(src) && RootHashFileName !in src
    requires forall p: string :: ops.normpath(p) == p
    requires HoldsFiles(image, src, d.items, tools.utf8Encode(Serialise(d)))
    requires d.items.Keys == src.Keys && DescriptorName in d.items
    requires forall p | p in d.items :: d.items[p] == tools.sha256(src[p].data)
    requires Parse(Serialise(d)) == Ok(d.items)
    requires LicenseAccepted(src, ops, tools, spdx)
    ensures SoundImage(image, ops, tools, spdx)
  {
    var manifest := tools.utf8Encode(Serialise(d));
    ImageHashFile(image, src, ops, tools, d);
    ImageListing(image, src, ops, tools, d.items, manifest);
    ImageLicense(image, src, ops, tools, spdx, d.items, manifest);
  }

  /** The four parts, each a plain file, exist. */
  lemma PartsExist(t: Tree, ops: PathOps, name: string)
    requires forall i | 0 <= i < 4 :: PackageParts(name)[i] in t && t[PackageParts(name)[i]].File?
    ensures forall i | 0 <= i < 4 :: PathExists(t, ops, PackageParts(name)[i])
  {
    forall i | 0 <= i < 4 ensures PathExists(t, ops, PackageParts(name)[i]) {
      assert !IsLink(t, PackageParts(name)[i]);
    }
  }

  /** The archive's hash file, written as one line naming the archive, reads back as the archive and its digest. */
  lemma HashFileReads(t: Tree, ops: PathOps, tools: Tools, name: string, bytes: seq<byte>)
    requires Utf8RoundTrips(tools) && '\n' !in name
    requires Holds(t, name + PackageHashExtension, tools.utf8Encode(HashLine(tools, name, bytes)))
    ensures var hashFile := Open(t, ops, name + PackageHashExtension);
              && hashFile.Ok?
              && tools.utf8Decode(hashFile.value) == Some(HashLine(tools, name, bytes))
              && Parse(HashLine(tools, name, bytes)) == Ok(map[name + PackageExtension := tools.sha256(bytes)])
  {
    HashFileRoundTrip(name, tools.sha256(bytes));
    assert HashText(Hashed(tools.sha256(bytes))) == tools.sha256(bytes);
  }

  /**
   * An output folder whose four parts are plain files, the archive's hash file naming it
   * with its digest and the archive extracting to an accepted image, passes
   * `FullyValidatePackage`.
   */
  lemma OutputSound(t: Tree, ops: PathOps, tools: Tools, spdx: Option<set<string>>, name: string,
                    bytes: seq<byte>, archive: Archive)
    requires Utf8RoundTrips(tools) && '\n' !in name
    requires forall p: string :: ops.normpath(p) == p
    requires Holds(t, name + PackageExtension, bytes)
    requires Holds(t, name + PackageHashExtension, tools.utf8Encode(HashLine(tools, name, bytes)))
    requires name + ContentHashExtension in t && t[name + ContentHashExtension].File?
    requires name + "." + DescriptorName in t && t[name + "." + DescriptorName].File?
    requires tools.untarXz(bytes) == Some(archive)
    requires VerifyImage(Extract(archive), ops, tools, spdx) == Valid
    ensures ValidatePackage(t, ops, tools, spdx, name) == Valid
  {
    assert PackageParts(name)[1] == name + PackageHashExtension && PackageParts(name)[2] == name + ContentHashExtension;
    PartsExist(t, ops, name);
    HashOfPlainFile(t, ops, tools.sha256, name + PackageExtension);
    HashFileReads(t, ops, tools, name, bytes);
    ValidatePackageSound(t, ops, tools, spdx, name);
  }

  /** The output folder holding what a plain package folder publishes passes `FullyValidatePackage`. */
  lemma PackageSound(t: Tree, src: Tree, out: Tree, ops: PathOps, tools: Tools, spdx: Option<set<string>>,
                     hits: seq<string>, name: string, newMode: bv32, descriptor: seq<byte>)
    requires forall i | 0 <= i < |hits| :: hits[i] in src
    requires PlainPackage(src, ops, hits) && Faithful(tools)
    requires Admitted(src, ops, tools, spdx, hits) && '\n' !in name
    requires (RecordedFiles(src, ops, tools.sha256, hits);
              PackageWritten(t, out, src, tools, FileHashes(src, ops, tools.sha256, hits).value, name, newMode, descriptor))
    ensures ValidatePackage(t, ops, tools, spdx, name) == Valid
  {
    var d := FileHashes(src, ops, tools.sha256, hits).value;
    RecordedFiles(src, ops, tools.sha256, hits);
    PlainManifest(src, ops, tools, spdx, hits);
    var archive := ArchiveOf(src, d, ManifestNode(out, tools, d, name, newMode));
    ImageShape(src, out, tools, d, name, newMode);
    ImageSound(Extract(archive), src, ops, tools, spdx, d);
    VerifyImageValid(Extract(archive), ops, tools, spdx);
    OutputSound(t, ops, tools, spdx, name, ArchiveBytes(src, out, tools, d, name, newMode), archive);
  }

  /**
   * `PackageUpFolder` on a plain package folder whose name fits on one line, with library
   * routines that behave, only ever reports a valid package: whenever it gets as far as
   * validating what it published, the verdict is `Valid`.
   */
  lemma PackValid(src: Tree, out: Tree, ops: PathOps, tools: Tools, spdx: Option<set<string>>,
                  hits: seq<string>, newMode: bv32)
    requires forall i | 0 <= i < |hits| :: hits[i] in src
    requires PlainPackage(src, ops, hits) && Faithful(tools)
    requires DeclaredName(src, ops, tools).Some? ==> '\n' !in DeclaredName(src, ops, tools).value
    ensures var run := Pack(src, out, ops, tools, spdx, hits, newMode);
              run.outcome.Published? ==> run.outcome.verdict == Valid
  {
    var run := Pack(src, out, ops, tools, spdx, hits, newMode);
    ChecksComeFirst(src, out, ops, tools, spdx, hits, newMode);
    if run.outcome.Published? {
      var name := DeclaredName(src, ops, tools).value;
      PackFiles(src, out, ops, tools, spdx, hits, newMode, name);
      PackageSound(run.files, src, out, ops, tools, spdx, hits, name, newMode, Open(src, ops, DescriptorName).value);
    }
  }
}
