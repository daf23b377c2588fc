/**
 * Whole runs of `PackageUpFolder`: which checks on the package folder stop it before any
 * file is written, and what a run that reaches validation has done.
 */
module Runs {
  import opened Wrappers
  import opened Platform
  import opened OrderedMap
  import opened Manifest
  import opened Hasher
  import opened Descriptor
  import opened Validator
  import opened Packager
  import opened Publication

  /** The `PackageName` of the package folder's descriptor, when it loads and the name is a string. */
  function DeclaredName(src: Tree, ops: PathOps, tools: Tools): (r: Option<string>)
    ensures r.Some? ==> ReadPackageInfo(src, ops, tools, DescriptorName).Ok?
  {
    var info := ReadPackageInfo(src, ops, tools, DescriptorName);
    if info.Err? then None
    else
      assert FieldPresent(info.value.fields, RequiredFields[1]);
      var packageName := info.value.fields["PackageName"];
      if packageName.JString? then Some(packageName.s) else None
  }

  /**
   * The package folder passes every check made before anything is written: the
   * descriptor exists and loads, its license is accepted, every file hashes, and the
   * package name is a string.
   */
  ghost predicate Admitted(src: Tree, ops: PathOps, tools: Tools, spdx: Option<set<string>>, hits: seq<string>)
    requires forall i | 0 <= i < |hits| :: hits[i] in src
  {
    && PathExists(src, ops, DescriptorName)
    && ReadPackageInfo(src, ops, tools, DescriptorName).Ok?
    && ValidatePackageLicense(src, ops, tools, spdx) == Ok(true)
    && FileHashes(src, ops, tools.sha256, hits).Ok?
    && DeclaredName(src, ops, tools).Some?
  }

  /**
   * A package folder that fails a check is refused before any file is written: the files
   * of the output folder are as they were, no event is recorded and nothing is
   * published. A missing descriptor aborts with `FileNotFoundError`.
   */
  lemma ChecksComeFirst(src: Tree, out: Tree, ops: PathOps, tools: Tools, spdx: Option<set<string>>,
                        hits: seq<string>, newMode: bv32)
    requires forall i | 0 <= i < |hits| :: hits[i] in src
    ensures var run := Pack(src, out, ops, tools, spdx, hits, newMode);
              && (!Admitted(src, ops, tools, spdx, hits) ==> run.files == out && run.events == [] && !run.outcome.Published?)
              && (!PathExists(src, ops, DescriptorName) ==> run.outcome == Aborted(FileNotFoundError))
  {
    var run := Pack(src, out, ops, tools, spdx, hits, newMode);
    if Admitted(src, ops, tools, spdx, hits) {
      var name := DeclaredName(src, ops, tools).value;
      var hashes := FileHashes(src, ops, tools.sha256, hits).value;
      RecordedFiles(src, ops, tools.sha256, hits);
      assert run == Finish(Publish(src, out, ops, tools, hashes, name, newMode), ops, tools, spdx, name);
    }
  }

  /** The license refusal is reported exactly when the descriptor exists and loads and its license is turned down. */
  lemma LicenseRefusal(src: Tree, out: Tree, ops: PathOps, tools: Tools, spdx: Option<set<string>>,
                       hits: seq<string>, newMode: bv32)
    requires forall i | 0 <= i < |hits| :: hits[i] in src
    ensures Pack(src, out, ops, tools, spdx, hits, newMode).outcome == LicenseRefused <==>
              && PathExists(src, ops, DescriptorName)
              && ReadPackageInfo(src, ops, tools, DescriptorName).Ok?
              && ValidatePackageLicense(src, ops, tools, spdx) == Ok(false)
  {
    if Admitted(src, ops, tools, spdx, hits) {
      PackPublishes(src, out, ops, tools, spdx, hits, newMode);
    }
  }

  /** A package folder that passes the checks is published under its declared name. */
  lemma PackPublishes(src: Tree, out: Tree, ops: PathOps, tools: Tools, spdx: Option<set<string>>,
                      hits: seq<string>, newMode: bv32)
    requires forall i | 0 <= i < |hits| :: hits[i] in src
    requires Admitted(src, ops, tools, spdx, hits)
    ensures (RecordedFiles(src, ops, tools.sha256, hits);
             var name := DeclaredName(src, ops, tools).value;
             Pack(src, out, ops, tools, spdx, hits, newMode)
               == Finish(Publish(src, out, ops, tools, FileHashes(src, ops, tools.sha256, hits).value, name, newMode),
                         ops, tools, spdx, name))
  {
    RecordedFiles(src, ops, tools.sha256, hits);
  }

  /**
   * A run on a package folder that passes the checks and reaches validation records the
   * four writes of the temporary files (the archive created empty, the manifest, the
   * archive's bytes, its hash file), some removals of old parts, the three renames and
   * the copy of the descriptor, in that order.
   */
  lemma PackEvents(src: Tree, out: Tree, ops: PathOps, tools: Tools, spdx: Option<set<string>>,
                   hits: seq<string>, newMode: bv32, name: string)
    requires forall i | 0 <= i < |hits| :: hits[i] in src
    requires Admitted(src, ops, tools, spdx, hits) && DeclaredName(src, ops, tools) == Some(name)
    requires ops.normpath(TempPackagePath(name)) == TempPackagePath(name)
    ensures var run := Pack(src, out, ops, tools, spdx, hits, newMode);
              run.outcome.Published? ==>
                && |run.events| >= 8
                && run.events[..4] == WriteEvents(name)
                && Removals(run.events[4..|run.events| - 4], PackageParts(name)[..3])
                && run.events[|run.events| - 4..] == PlaceEvents(name)
  {
    PackPublishes(src, out, ops, tools, spdx, hits, newMode);
    RecordedFiles(src, ops, tools.sha256, hits);
    var hashes := FileHashes(src, ops, tools.sha256, hits).value;
    PublishEvents(src, out, ops, tools, hashes, name, newMode);
  }

  /**
   * A run on a package folder that passes the checks and reaches validation leaves the
   * published package in the output folder and reports the verdict of validating it.
   */
  lemma PackFiles(src: Tree, out: Tree, ops: PathOps, tools: Tools, spdx: Option<set<string>>,
                  hits: seq<string>, newMode: bv32, name: string)
    requires forall i | 0 <= i < |hits| :: hits[i] in src
    requires Admitted(src, ops, tools, spdx, hits) && DeclaredName(src, ops, tools) == Some(name)
    requires ops.normpath(TempPackagePath(name)) == TempPackagePath(name)
    ensures var run := Pack(src, out, ops, tools, spdx, hits, newMode);
              run.outcome.Published? ==>
                && Open(src, ops, DescriptorName).Ok?
                && (RecordedFiles(src, ops, tools.sha256, hits);
                    PackageWritten(run.files, out, src, tools, FileHashes(src, ops, tools.sha256, hits).value,
                                   name, newMode, Open(src, ops, DescriptorName).value))
                && run.outcome.verdict == ValidatePackage(run.files, ops, tools, spdx, name)
  {
    PackPublishes(src, out, ops, tools, spdx, hits, newMode);
    RecordedFiles(src, ops, tools.sha256, hits);
    var hashes := FileHashes(src, ops, tools.sha256, hits).value;
    PublishFiles(src, out, ops, tools, hashes, name, newMode);
  }
}
