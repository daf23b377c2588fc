/**
 * What publishing does to the output folder: the manifest and the archive's hash file
 * read back as written, the temporary files are written, the old parts removed, the
 * temporaries renamed into place and the descriptor copied, in that order, and the
 * output folder ends up with exactly the four parts and nothing else changed.
 */
module Publication {
  import opened Wrappers
  import opened Platform
  import opened OrderedMap
  import opened Text
  import opened Manifest
  import opened Hasher
  import opened Descriptor
  import opened Validator
  import opened Packager

  /**
   * The manifest written for a package folder reads back as the recorded hashes
   * exactly when every recorded file has a digest: the `None` written for a file
   * caught in a link loop makes the manifest unreadable.
   */
  lemma ManifestRoundTrip(src: Tree, ops: PathOps, sha: seq<byte> -> Digest, hits: seq<string>)
    requires FileHashes(src, ops, sha, hits).Ok?
    requires forall i | 0 <= i < |hits| :: IsManifestPath(hits[i])
    ensures var d := FileHashes(src, ops, sha, hits).value;
              && (Parse(Serialise(d)).Ok? <==> forall p | p in d.items :: HashOf(src, ops, sha, p).Hashed?)
              && (Parse(Serialise(d)).Ok? ==> Parse(Serialise(d)).value == d.items)
  {
    FileHashesRecords(src, ops, sha, hits);
    var d := FileHashes(src, ops, sha, hits).value;
    forall k | k in d.items
      ensures IsManifestPath(k) && IsHashText(d.items[k])
      ensures |d.items[k]| == 64 <==> HashOf(src, ops, sha, k).Hashed?
    {
      assert k in hits;
      var i :| 0 <= i < |hits| && hits[i] == k;
    }
    SerialiseRoundTrip(d);
  }

  /** The name of the archive can stand in a manifest line whenever the package name is on one line. */
  lemma ArchiveNameFits(name: string)
    requires '\n' !in name
    ensures IsManifestPath(name + PackageExtension)
  {
    var a := name + PackageExtension;
    assert a[|a| - 1] == 'z';
    forall i | 0 <= i < |a| ensures a[i] != '\n' {
      if i < |name| {
        assert a[i] == name[i];
      }
    }
  }

  /** The archive's hash file reads back as the one entry naming the archive with its digest. */
  lemma HashFileRoundTrip(name: string, digest: Digest)
    requires '\n' !in name
    ensures Parse(FormatLine(name + PackageExtension, HashText(Hashed(digest))))
         == Ok(map[name + PackageExtension := digest])
  {
    ArchiveNameFits(name);
    SingleLineRoundTrip(name + PackageExtension, digest);
  }

  /** The temporary files: the manifest, the archive and the archive's hash file. */
  function Temps(name: string): seq<string> {
    [TempContentsPath(name), TempPackagePath(name), TempHashPath(name)]
  }

  /** The three temporary files are in `t`. */
  predicate HasTemps(t: Tree, name: string) {
    TempContentsPath(name) in t && TempPackagePath(name) in t && TempHashPath(name) in t
  }

  /** Every path publishing writes, renames or removes: the temporary files, then the four parts. */
  function Touched(name: string): seq<string> {
    Temps(name) + PackageParts(name)
  }

  /** A prefix and a suffix added to the same text give different strings when only one holds a `p`. */
  lemma NoShift(x: string, y: string, name: string)
    requires 'p' in x && 'p' !in y
    ensures x + name != name + y
  {
    assert multiset(x + name) == multiset(x) + multiset(name);
    assert multiset(name + y) == multiset(name) + multiset(y);
    assert multiset(x)['p'] > 0 && multiset(y)['p'] == 0;
    assert multiset(x + name)['p'] != multiset(name + y)['p'];
  }

  /** The seven paths publishing touches are different files. */
  lemma TouchedDistinct(name: string)
    ensures Distinct(Touched(name))
  {
    var x, y := "temp/temp_package_", ".tar.xz.SHA256SUMS";
    assert x[1] == 'e';
    assert x[8] == 'p';
    assert forall i | 0 <= i < |y| :: y[i] != 'p';
    NoShift(x, y, name);
    assert TempPackagePath(name) == x + name && name + PackageHashExtension == name + y;
  }

  /** The three temporary files are different files. */
  lemma TempsDistinct(name: string)
    ensures TempContentsPath(name) != TempPackagePath(name)
    ensures TempContentsPath(name) != TempHashPath(name)
    ensures TempPackagePath(name) != TempHashPath(name)
  {
    TouchedDistinct(name);
    assert Touched(name)[0] == TempContentsPath(name) && Touched(name)[1] == TempPackagePath(name);
    assert Touched(name)[2] == TempHashPath(name);
  }

  /** Writing one path leaves the mode another path would be written with as it was. */
  lemma WrittenModeElsewhere(t: Tree, path: string, other: string, node: Node, newMode: bv32)
    requires path != other
    ensures WrittenMode(t[other := node], path, newMode) == WrittenMode(t, path, newMode)
  {
  }

  /** The manifest file as written to the `temp` folder of `out`. */
  function ManifestNode(out: Tree, tools: Tools, hashes: Dict<string, string>, name: string, newMode: bv32): Node
    requires hashes.Valid()
  {
    File(tools.utf8Encode(Serialise(hashes)), WrittenMode(out, TempContentsPath(name), newMode))
  }

  /** The bytes of the archive published for the recorded files. */
  function ArchiveBytes(src: Tree, out: Tree, tools: Tools, hashes: Dict<string, string>, name: string, newMode: bv32): seq<byte>
    requires hashes.Valid()
    requires forall p | p in hashes.items :: p in src && !src[p].Dir?
  {
    tools.tarXz(ArchiveOf(src, hashes, ManifestNode(out, tools, hashes, name, newMode)))
  }

  /** The line of the archive's hash file: the archive's name with the digest of `bytes`. */
  function HashLine(tools: Tools, name: string, bytes: seq<byte>): string {
    FormatLine(name + PackageExtension, tools.sha256(bytes))
  }

  /**
   * Writing the manifest, the archive and its hash file replaces exactly the three
   * temporary paths: the manifest, the archive holding the files and that manifest, and
   * the archive's hash file, which holds the digest of the archive's bytes.
   */
  lemma WriteManifestEffect(src: Tree, out: Tree, ops: PathOps, tools: Tools, hashes: Dict<string, string>,
                            name: string, newMode: bv32)
    requires hashes.Valid()
    requires forall p | p in hashes.items :: p in src && !src[p].Dir?
    requires ops.normpath(TempPackagePath(name)) == TempPackagePath(name)
    ensures var w := WriteManifest(src, out, ops, tools, hashes, name, newMode);
              w.failure.None? ==> w.files == WithTemps(src, out, tools, hashes, name, newMode)
  {
    TempsDistinct(name);
    var w := WriteManifest(src, out, ops, tools, hashes, name, newMode);
    var s1 := WriteStep(Progress(out, [], None), TempContentsPath(name), tools.utf8Encode(Serialise(hashes)), newMode);
    if w.failure.None? {
      assert s1.failure.None?;
      assert s1.files == out[TempContentsPath(name) := ManifestNode(out, tools, hashes, name, newMode)];
      var bytes := ArchiveBytes(src, out, tools, hashes, name, newMode);
      var s2 := WriteStep(Progress(s1.files, [], None), TempPackagePath(name), bytes, newMode);
      assert w == Then(s1, WritePackage(src, s1.files, ops, tools, hashes, name, newMode));
      assert s2.failure.None?;
      WrittenModeElsewhere(out, TempPackagePath(name), TempContentsPath(name), s1.files[TempContentsPath(name)], newMode);
      var archiveNode := File(bytes, WrittenMode(out, TempPackagePath(name), newMode));
      assert s2.files == s1.files[TempPackagePath(name) := archiveNode];
      HashOfPlainFile(s2.files, ops, tools.sha256, TempPackagePath(name));
      WrittenModeElsewhere(out, TempHashPath(name), TempContentsPath(name), s1.files[TempContentsPath(name)], newMode);
      WrittenModeElsewhere(s1.files, TempHashPath(name), TempPackagePath(name), archiveNode, newMode);
    }
  }

  /**
   * Writing the temporary files replaces exactly the three temporary paths: the
   * manifest, the archive holding the files and that manifest, and the archive's hash
   * file, which holds the digest of the archive's bytes. The empty archive created first
   * is overwritten and keeps only its mode.
   */
  lemma WriteTempsEffect(src: Tree, out: Tree, ops: PathOps, tools: Tools, hashes: Dict<string, string>,
                         name: string, newMode: bv32)
    requires hashes.Valid()
    requires forall p | p in hashes.items :: p in src && !src[p].Dir?
    requires ops.normpath(TempPackagePath(name)) == TempPackagePath(name)
    ensures var w := WriteTemps(src, out, ops, tools, hashes, name, newMode);
              w.failure.None? ==> w.files == WithTemps(src, out, tools, hashes, name, newMode)
  {
    var w := WriteTemps(src, out, ops, tools, hashes, name, newMode);
    var s0 := WriteStep(Progress(out, [], None), TempPackagePath(name), [], newMode);
    if w.failure.None? {
      assert s0.failure.None?;
      assert w.files == WriteManifest(src, s0.files, ops, tools, hashes, name, newMode).files;
      WriteManifestEffect(src, s0.files, ops, tools, hashes, name, newMode);
      WithTempsCreated(src, out, tools, hashes, name, newMode);
    }
  }

  /** Creating the empty archive first changes nothing that writing the temporary files leaves. */
  lemma WithTempsCreated(src: Tree, out: Tree, tools: Tools, hashes: Dict<string, string>, name: string, newMode: bv32)
    requires hashes.Valid()
    requires forall p | p in hashes.items :: p in src && !src[p].Dir?
    ensures var created := out[TempPackagePath(name) := File([], WrittenMode(out, TempPackagePath(name), newMode))];
              WithTemps(src, created, tools, hashes, name, newMode) == WithTemps(src, out, tools, hashes, name, newMode)
  {
    TempsDistinct(name);
    var node := File([], WrittenMode(out, TempPackagePath(name), newMode));
    var created := out[TempPackagePath(name) := node];
    WrittenModeElsewhere(out, TempContentsPath(name), TempPackagePath(name), node, newMode);
    WrittenModeElsewhere(out, TempHashPath(name), TempPackagePath(name), node, newMode);
    assert ManifestNode(created, tools, hashes, name, newMode) == ManifestNode(out, tools, hashes, name, newMode);
  }

  /** Writing the archive and its hash file records two writes and adds those two files. */
  lemma WritePackageEvents(src: Tree, out: Tree, ops: PathOps, tools: Tools, hashes: Dict<string, string>,
                           name: string, newMode: bv32)
    requires hashes.Valid()
    requires forall p | p in hashes.items :: p in src && !src[p].Dir?
    requires TempContentsPath(name) in out && !out[TempContentsPath(name)].Dir?
    ensures var p := WritePackage(src, out, ops, tools, hashes, name, newMode);
              p.failure.None? ==>
                && p.events == [Wrote(TempPackagePath(name)), Wrote(TempHashPath(name))]
                && p.files.Keys == out.Keys + {TempPackagePath(name), TempHashPath(name)}
  {
    var p := WritePackage(src, out, ops, tools, hashes, name, newMode);
    var archive := ArchiveOf(src, hashes, out[TempContentsPath(name)]);
    var s2 := WriteStep(Progress(out, [], None), TempPackagePath(name), tools.tarXz(archive), newMode);
    if p.failure.None? {
      assert s2.failure.None?;
      var h := WriteHashFile(s2.files, ops, tools, name, newMode);
      assert p == Then(s2, h);
    }
  }

  /** Writing the manifest, the archive and its hash file records three writes, in order, and leaves the three files in place. */
  lemma WriteManifestEvents(src: Tree, out: Tree, ops: PathOps, tools: Tools, hashes: Dict<string, string>,
                            name: string, newMode: bv32)
    requires hashes.Valid()
    requires forall p | p in hashes.items :: p in src && !src[p].Dir?
    ensures var w := WriteManifest(src, out, ops, tools, hashes, name, newMode);
              w.failure.None? ==>
                && w.events == [Wrote(TempContentsPath(name)), Wrote(TempPackagePath(name)), Wrote(TempHashPath(name))]
                && HasTemps(w.files, name)
  {
    var w := WriteManifest(src, out, ops, tools, hashes, name, newMode);
    var s1 := WriteStep(Progress(out, [], None), TempContentsPath(name), tools.utf8Encode(Serialise(hashes)), newMode);
    if w.failure.None? {
      assert s1.failure.None?;
      assert s1.events == [Wrote(TempContentsPath(name))] && TempContentsPath(name) in s1.files;
      var pk := WritePackage(src, s1.files, ops, tools, hashes, name, newMode);
      WritePackageEvents(src, s1.files, ops, tools, hashes, name, newMode);
      assert w == Then(s1, pk);
    }
  }

  /**
   * The archive is opened before the manifest is written: when its path cannot be
   * opened for writing, the run raises `IsADirectoryError` and nothing is written.
   */
  lemma ArchiveOpenedFirst(src: Tree, out: Tree, ops: PathOps, tools: Tools, hashes: Dict<string, string>,
                           name: string, newMode: bv32)
    requires hashes.Valid()
    requires forall p | p in hashes.items :: p in src && !src[p].Dir?
    ensures var w := WriteTemps(src, out, ops, tools, hashes, name, newMode);
              Lookup(out, TempPackagePath(name)) == Some(Dir) <==>
                w.failure == Some(IsADirectoryError) && w.files == out && w.events == []
  {
    WriteFileEffect(out, TempPackagePath(name), [], newMode);
    var w := WriteTemps(src, out, ops, tools, hashes, name, newMode);
    if Lookup(out, TempPackagePath(name)) != Some(Dir) {
      var s0 := WriteStep(Progress(out, [], None), TempPackagePath(name), [], newMode);
      assert s0.events == [Wrote(TempPackagePath(name))];
      assert w.events[..1] == s0.events;
    }
  }

  /**
   * Writing the temporary files records four writes, in order: the archive created
   * empty, the manifest, the archive's bytes and its hash file; the three files are then
   * in place.
   */
  lemma WriteTempsEvents(src: Tree, out: Tree, ops: PathOps, tools: Tools, hashes: Dict<string, string>,
                         name: string, newMode: bv32)
    requires hashes.Valid()
    requires forall p | p in hashes.items :: p in src && !src[p].Dir?
    ensures var w := WriteTemps(src, out, ops, tools, hashes, name, newMode);
              w.failure.None? ==>
                && w.events == WriteEvents(name)
                && HasTemps(w.files, name)
  {
    var w := WriteTemps(src, out, ops, tools, hashes, name, newMode);
    var s0 := WriteStep(Progress(out, [], None), TempPackagePath(name), [], newMode);
    if w.failure.None? {
      assert s0.failure.None?;
      WriteManifestEvents(src, s0.files, ops, tools, hashes, name, newMode);
      assert w == Then(s0, WriteManifest(src, s0.files, ops, tools, hashes, name, newMode));
    }
  }

  /** `t` with some of `paths` removed and nothing else changed. */
  predicate RemovedSome(t: Tree, before: Tree, paths: set<string>) {
    && (forall k | k in t :: k in before && t[k] == before[k])
    && (forall k | k in before && k !in paths :: k in t)
  }

  /** Events that each remove one of `paths`: at most one per path. */
  predicate Removals(events: seq<Event>, paths: seq<string>) {
    && |events| <= |paths|
    && forall i | 0 <= i < |events| :: events[i].Removed? && events[i].path in paths
  }

  /** The removal of `p`, if `p` was in `before` and is gone from `after`. */
  function Gone(before: Tree, after: Tree, p: string): seq<Event> {
    if p in before && p !in after then [Removed(p)] else []
  }

  /** One removal takes away at most the path it names, and records it exactly when it does. */
  lemma RemoveStepEffect(s: Progress, ops: PathOps, path: string)
    requires s.failure.None?
    ensures var r := RemoveStep(s, ops, path);
              r.failure.None? ==>
                && RemovedSome(r.files, s.files, {path})
                && r.events == s.events + Gone(s.files, r.files, path)
  {
  }

  /**
   * Removing the old parts takes away some of the first three parts and nothing else,
   * recording the removal of each part that was there and is gone, in the order of the parts.
   */
  lemma RemovePartsEffect(t: Tree, ops: PathOps, name: string)
    ensures var rm := RemoveParts(Progress(t, [], None), ops, name);
              rm.failure.None? ==>
                && RemovedSome(rm.files, t, {name + PackageExtension, name + PackageHashExtension, name + ContentHashExtension})
                && Removals(rm.events, PackageParts(name)[..3])
  {
    var parts := PackageParts(name);
    var s0 := Progress(t, [], None);
    var s4 := RemoveStep(s0, ops, name + PackageExtension);
    var s5 := RemoveStep(s4, ops, name + PackageHashExtension);
    var s6 := RemoveStep(s5, ops, name + ContentHashExtension);
    if s6.failure.None? {
      RemoveStepEffect(s0, ops, name + PackageExtension);
      RemoveStepEffect(s4, ops, name + PackageHashExtension);
      RemoveStepEffect(s5, ops, name + ContentHashExtension);
      assert parts[..3] == [name + PackageExtension, name + PackageHashExtension, name + ContentHashExtension];
    }
  }

  /**
   * Removing the old parts records, in the order of the parts, the removal of each part
   * that was in the folder and is gone from it, and no other event.
   */
  lemma RemovePartsEvents(t: Tree, ops: PathOps, name: string)
    ensures var rm := RemoveParts(Progress(t, [], None), ops, name);
              rm.failure.None? ==>
                rm.events == Gone(t, rm.files, name + PackageExtension)
                             + Gone(t, rm.files, name + PackageHashExtension)
                             + Gone(t, rm.files, name + ContentHashExtension)
  {
    var parts := PackageParts(name);
    var p0, p1, p2 := name + PackageExtension, name + PackageHashExtension, name + ContentHashExtension;
    assert parts[1] == p1 && parts[2] == p2;
    assert p0 != p1 && p0 != p2 && p1 != p2;
    var s0 := Progress(t, [], None);
    var s4 := RemoveStep(s0, ops, p0);
    var s5 := RemoveStep(s4, ops, p1);
    var s6 := RemoveStep(s5, ops, p2);
    if s6.failure.None? {
      RemoveStepEffect(s0, ops, p0);
      RemoveStepEffect(s4, ops, p1);
      RemoveStepEffect(s5, ops, p2);
      GoneSame(t, t, s4.files, s6.files, p0);
      GoneSame(s4.files, t, s5.files, s6.files, p1);
      assert s6.events == Gone(t, s4.files, p0) + Gone(s4.files, s5.files, p1) + Gone(s5.files, s6.files, p2);
    }
  }

  /** `Gone` depends only on whether the path is in each tree. */
  lemma GoneSame(a: Tree, a': Tree, b: Tree, b': Tree, p: string)
    requires (p in a <==> p in a') && (p in b <==> p in b')
    ensures Gone(a, b, p) == Gone(a', b', p)
  {
  }

  /** Removing the old parts leaves the temporary files where they were. */
  lemma RemovePartsKeepsTemps(t: Tree, ops: PathOps, name: string)
    requires HasTemps(t, name)
    ensures var rm := RemoveParts(Progress(t, [], None), ops, name);
              rm.failure.None? ==> RemovedSome(rm.files, t, {name + PackageExtension, name + PackageHashExtension, name + ContentHashExtension})
                                   && HasTemps(rm.files, name)
                                   && Removals(rm.events, PackageParts(name)[..3])
  {
    RemovePartsEffect(t, ops, name);
    TouchedDistinct(name);
    assert Touched(name)[0] == TempContentsPath(name) && Touched(name)[1] == TempPackagePath(name);
    assert Touched(name)[2] == TempHashPath(name) && Touched(name)[3] == name + PackageExtension;
    assert Touched(name)[4] == name + PackageHashExtension && Touched(name)[5] == name + ContentHashExtension;
  }

  /** Renaming the temporary files moves each onto its part, replacing what was there. */
  lemma RenamePartsEffect(t: Tree, name: string)
    requires HasTemps(t, name)
    ensures var mv := RenameParts(Progress(t, [], None), name);
              mv.failure.None? ==>
                && mv.events == [Renamed(TempPackagePath(name), name + PackageExtension),
                                 Renamed(TempHashPath(name), name + PackageHashExtension),
                                 Renamed(TempContentsPath(name), name + ContentHashExtension)]
                && mv.files == (t - {TempPackagePath(name), TempHashPath(name), TempContentsPath(name)})
                                 [name + PackageExtension := t[TempPackagePath(name)]]
                                 [name + PackageHashExtension := t[TempHashPath(name)]]
                                 [name + ContentHashExtension := t[TempContentsPath(name)]]
  {
    TouchedDistinct(name);
    var tp, th, tc := TempPackagePath(name), TempHashPath(name), TempContentsPath(name);
    var p0, p1, p2 := name + PackageExtension, name + PackageHashExtension, name + ContentHashExtension;
    assert Touched(name)[1] == tp && Touched(name)[2] == th && Touched(name)[0] == tc;
    assert Touched(name)[3] == p0 && Touched(name)[4] == p1 && Touched(name)[5] == p2;
    var s7 := RenameStep(Progress(t, [], None), tp, p0);
    var s8 := RenameStep(s7, th, p1);
    var s9 := RenameStep(s8, tc, p2);
    if s9.failure.None? {
      assert s7.files == (t - {tp})[p0 := t[tp]];
      assert s8.files == (s7.files - {th})[p1 := t[th]];
      assert s9.files == (s8.files - {tc})[p2 := t[tc]];
      assert s9.files == (t - {tp, th, tc})[p0 := t[tp]][p1 := t[th]][p2 := t[tc]];
    }
  }

  /** The file at `path` in `t` is a regular file holding `data`. */
  predicate Holds(t: Tree, path: string, data: seq<byte>) {
    path in t && t[path].File? && t[path].data == data
  }

  /** The events of renaming the temporary files onto the parts and copying the descriptor, in order. */
  function PlaceEvents(name: string): seq<Event> {
    [Renamed(TempPackagePath(name), name + PackageExtension),
     Renamed(TempHashPath(name), name + PackageHashExtension),
     Renamed(TempContentsPath(name), name + ContentHashExtension),
     Copied(name + "." + DescriptorName)]
  }

  /**
   * `after` is `before` with the three temporary files moved onto the first three
   * parts, the fourth part holding `descriptor`, and every other file as it was.
   */
  ghost predicate PartsPlaced(after: Tree, before: Tree, descriptor: seq<byte>, name: string) {
    && HasTemps(before, name)
    && TempContentsPath(name) !in after && TempPackagePath(name) !in after && TempHashPath(name) !in after
    && name + PackageExtension in after && after[name + PackageExtension] == before[TempPackagePath(name)]
    && name + PackageHashExtension in after && after[name + PackageHashExtension] == before[TempHashPath(name)]
    && name + ContentHashExtension in after && after[name + ContentHashExtension] == before[TempContentsPath(name)]
    && Holds(after, name + "." + DescriptorName, descriptor)
    && (forall k | k in before && k !in Touched(name) :: k in after && after[k] == before[k])
    && (forall k | k in after :: k in before || k in PackageParts(name))
  }

  /** Placing the parts: renaming the temporary files onto the parts, then copying the descriptor. */
  lemma PlaceEffect(src: Tree, t: Tree, ops: PathOps, name: string, newMode: bv32)
    requires HasTemps(t, name)
    ensures var p := Place(src, t, ops, name, newMode);
              p.failure.None? ==>
                && Open(src, ops, DescriptorName).Ok?
                && p.events == PlaceEvents(name)
                && PartsPlaced(p.files, t, Open(src, ops, DescriptorName).value, name)
  {
    TouchedDistinct(name);
    var mv := RenameParts(Progress(t, [], None), name);
    var p := Place(src, t, ops, name, newMode);
    if p.failure.None? {
      RenamePartsEffect(t, name);
      var data := Open(src, ops, DescriptorName).value;
      var dest := name + "." + DescriptorName;
      assert p.files == mv.files[dest := File(data, WrittenMode(mv.files, dest, newMode))];
      assert Touched(name)[0] == TempContentsPath(name) && Touched(name)[1] == TempPackagePath(name);
      assert Touched(name)[2] == TempHashPath(name) && Touched(name)[3] == name + PackageExtension;
      assert Touched(name)[4] == name + PackageHashExtension && Touched(name)[5] == name + ContentHashExtension;
      assert Touched(name)[6] == dest;
    }
  }

  /** Removing parts beforehand changes nothing about what placing leaves behind. */
  lemma PlacedAfterRemoval(after: Tree, mid: Tree, before: Tree, descriptor: seq<byte>, name: string)
    requires PartsPlaced(after, mid, descriptor, name)
    requires RemovedSome(mid, before, {name + PackageExtension, name + PackageHashExtension, name + ContentHashExtension})
    ensures PartsPlaced(after, before, descriptor, name)
  {
    TouchedDistinct(name);
    assert forall i | 0 <= i < 3 :: Temps(name)[i] == Touched(name)[i];
    assert Touched(name)[3] == name + PackageExtension && Touched(name)[4] == name + PackageHashExtension;
    assert Touched(name)[5] == name + ContentHashExtension;
  }

  /** Replacing the parts: some old parts removed, then the temporary files renamed and the descriptor copied, in order. */
  lemma InstallEvents(src: Tree, t: Tree, ops: PathOps, name: string, newMode: bv32)
    requires HasTemps(t, name)
    ensures var r := Install(src, t, ops, name, newMode);
              r.failure.None? ==>
                && |r.events| >= 4
                && Removals(r.events[..|r.events| - 4], PackageParts(name)[..3])
                && r.events[|r.events| - 4..] == PlaceEvents(name)
  {
    var rm := RemoveParts(Progress(t, [], None), ops, name);
    var r := Install(src, t, ops, name, newMode);
    if r.failure.None? {
      assert rm.failure.None?;
      RemovePartsKeepsTemps(t, ops, name);
      PlaceEffect(src, rm.files, ops, name, newMode);
      var p := Place(src, rm.files, ops, name, newMode);
      assert r.events == rm.events + p.events;
      assert r.events[..|r.events| - 4] == rm.events;
    }
  }

  /** Replacing the parts leaves the temporary files moved onto them, the descriptor copied, and nothing else changed. */
  lemma InstallFiles(src: Tree, t: Tree, ops: PathOps, name: string, newMode: bv32)
    requires HasTemps(t, name)
    ensures var r := Install(src, t, ops, name, newMode);
              r.failure.None? ==>
                && Open(src, ops, DescriptorName).Ok?
                && PartsPlaced(r.files, t, Open(src, ops, DescriptorName).value, name)
  {
    var rm := RemoveParts(Progress(t, [], None), ops, name);
    var r := Install(src, t, ops, name, newMode);
    if r.failure.None? {
      assert rm.failure.None?;
      RemovePartsKeepsTemps(t, ops, name);
      PlaceEffect(src, rm.files, ops, name, newMode);
      assert r.files == Place(src, rm.files, ops, name, newMode).files;
      PlacedAfterRemoval(r.files, rm.files, t, Open(src, ops, DescriptorName).value, name);
    }
  }

  /**
   * The events of writing the temporary files, in order: opening the archive creates it,
   * then the manifest, the archive's bytes on closing, and its hash file.
   */
  function WriteEvents(name: string): seq<Event> {
    [Wrote(TempPackagePath(name)), Wrote(TempContentsPath(name)), Wrote(TempPackagePath(name)), Wrote(TempHashPath(name))]
  }

  /**
   * `t` is the output folder `out` once the package is published: the archive, its hash
   * file naming it with its digest, the manifest, and the copy of the descriptor; no
   * temporary file; every other file of `out` as it was, and nothing else.
   */
  ghost predicate PackageWritten(t: Tree, out: Tree, src: Tree, tools: Tools, hashes: Dict<string, string>,
                                 name: string, newMode: bv32, descriptor: seq<byte>)
    requires hashes.Valid()
    requires forall p | p in hashes.items :: p in src && !src[p].Dir?
  {
    var bytes := ArchiveBytes(src, out, tools, hashes, name, newMode);
    && Holds(t, name + PackageExtension, bytes)
    && Holds(t, name + PackageHashExtension, tools.utf8Encode(HashLine(tools, name, bytes)))
    && Holds(t, name + ContentHashExtension, tools.utf8Encode(Serialise(hashes)))
    && Holds(t, name + "." + DescriptorName, descriptor)
    && (forall i | 0 <= i < 3 :: Temps(name)[i] !in t)
    && (forall k | k in out && k !in Touched(name) :: k in t && t[k] == out[k])
    && (forall k | k in t :: k in out || k in PackageParts(name))
  }

  /** The three parts of a run's events: the writes, the removals, and the last four. */
  lemma SplitEvents(a: seq<Event>, b: seq<Event>)
    requires |a| == 4 && |b| >= 4
    ensures (a + b)[..4] == a
    ensures (a + b)[4..|a + b| - 4] == b[..|b| - 4]
    ensures (a + b)[|a + b| - 4..] == b[|b| - 4..]
  {
  }

  /** The temporary files as written to `out`. */
  function WithTemps(src: Tree, out: Tree, tools: Tools, hashes: Dict<string, string>, name: string, newMode: bv32): Tree
    requires hashes.Valid()
    requires forall p | p in hashes.items :: p in src && !src[p].Dir?
  {
    var bytes := ArchiveBytes(src, out, tools, hashes, name, newMode);
    out[TempContentsPath(name) := ManifestNode(out, tools, hashes, name, newMode)]
       [TempPackagePath(name) := File(bytes, WrittenMode(out, TempPackagePath(name), newMode))]
       [TempHashPath(name) := File(tools.utf8Encode(HashLine(tools, name, bytes)), WrittenMode(out, TempHashPath(name), newMode))]
  }

  /** Placing the parts in the folder with the temporary files gives the published package. */
  lemma PlacedTemps(t: Tree, out: Tree, src: Tree, tools: Tools, hashes: Dict<string, string>,
                    name: string, newMode: bv32, descriptor: seq<byte>)
    requires hashes.Valid()
    requires forall p | p in hashes.items :: p in src && !src[p].Dir?
    requires PartsPlaced(t, WithTemps(src, out, tools, hashes, name, newMode), descriptor, name)
    ensures PackageWritten(t, out, src, tools, hashes, name, newMode, descriptor)
  {
    TouchedDistinct(name);
    var w := WithTemps(src, out, tools, hashes, name, newMode);
    var bytes := ArchiveBytes(src, out, tools, hashes, name, newMode);
    assert w[TempPackagePath(name)].data == bytes;
    assert w[TempHashPath(name)].data == tools.utf8Encode(HashLine(tools, name, bytes));
    assert w[TempContentsPath(name)].data == tools.utf8Encode(Serialise(hashes));
    assert forall i | 0 <= i < 3 :: Temps(name)[i] == Touched(name)[i];
    forall k | k in out && k !in Touched(name) ensures k in t && t[k] == out[k] {
      assert k != TempContentsPath(name) && k != TempPackagePath(name) && k != TempHashPath(name);
      assert k in w && w[k] == out[k];
    }
    forall k | k in t ensures k in out || k in PackageParts(name) {
      assert k in w || k in PackageParts(name);
    }
  }

  /**
   * Publishing that raises nothing writes the three temporary files (the archive twice:
   * created empty, then filled), removes some of the old parts, then renames the
   * temporary files into place and copies the descriptor, in that order.
   */
  lemma PublishEvents(src: Tree, out: Tree, ops: PathOps, tools: Tools, hashes: Dict<string, string>,
                      name: string, newMode: bv32)
    requires hashes.Valid()
    requires forall p | p in hashes.items :: p in src && !src[p].Dir?
    requires ops.normpath(TempPackagePath(name)) == TempPackagePath(name)
    ensures var s := Publish(src, out, ops, tools, hashes, name, newMode);
              s.failure.None? ==>
                && |s.events| >= 8
                && s.events[..4] == WriteEvents(name)
                && Removals(s.events[4..|s.events| - 4], PackageParts(name)[..3])
                && s.events[|s.events| - 4..] == PlaceEvents(name)
  {
    var w := WriteTemps(src, out, ops, tools, hashes, name, newMode);
    var s := Publish(src, out, ops, tools, hashes, name, newMode);
    if s.failure.None? {
      WriteTempsEvents(src, out, ops, tools, hashes, name, newMode);
      InstallEvents(src, w.files, ops, name, newMode);
      var r := Install(src, w.files, ops, name, newMode);
      assert s.events == w.events + r.events;
      SplitEvents(w.events, r.events);
    }
  }

  /**
   * Publishing that raises nothing leaves the output folder holding the published
   * package: the archive, its hash file, the manifest and the copy of the descriptor.
   */
  lemma PublishFiles(src: Tree, out: Tree, ops: PathOps, tools: Tools, hashes: Dict<string, string>,
                     name: string, newMode: bv32)
    requires hashes.Valid()
    requires forall p | p in hashes.items :: p in src && !src[p].Dir?
    requires ops.normpath(TempPackagePath(name)) == TempPackagePath(name)
    ensures var s := Publish(src, out, ops, tools, hashes, name, newMode);
              s.failure.None? ==>
                && Open(src, ops, DescriptorName).Ok?
                && PackageWritten(s.files, out, src, tools, hashes, name, newMode, Open(src, ops, DescriptorName).value)
  {
    var w := WriteTemps(src, out, ops, tools, hashes, name, newMode);
    var s := Publish(src, out, ops, tools, hashes, name, newMode);
    if s.failure.None? {
      WriteTempsEvents(src, out, ops, tools, hashes, name, newMode);
      WriteTempsEffect(src, out, ops, tools, hashes, name, newMode);
      InstallFiles(src, w.files, ops, name, newMode);
      assert s.files == Install(src, w.files, ops, name, newMode).files;
      PlacedTemps(s.files, out, src, tools, hashes, name, newMode, Open(src, ops, DescriptorName).value);
    }
  }
}
