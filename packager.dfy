/**
 * `PackageUpFolder`: hashes the files of a package folder into a manifest, writes an
 * archive holding them and the manifest, the archive's own hash file and a copy of the
 * descriptor into the output folder, and then validates what it published.
 */
module Packager {
  import opened Wrappers
  import opened Platform
  import opened OrderedMap
  import opened Text
  import opened Manifest
  import opened Hasher
  import opened Descriptor
  import opened Validator

  const S_IWUSR: bv32 := 0x80
  const S_IWGRP: bv32 := 0x10
  const S_IWOTH: bv32 := 0x02

  /** The three write bits together. */
  const WriteBits: bv32 := 0x92

  /** The permission bits `os.lstat` reports for a symbolic link on Linux. */
  const LinkMode: bv32 := 0x1FF

  /**
   * The mode `_NoReadOnlyTarFileFilter` gives a member: every bit it had, the three write
   * bits, and no other change.
   */
  function NoReadOnlyMode(mode: bv32): (m: bv32)
    ensures m & mode == mode
    ensures m & S_IWUSR == S_IWUSR && m & S_IWGRP == S_IWGRP && m & S_IWOTH == S_IWOTH
    ensures m & !WriteBits == mode & !WriteBits
  {
    mode | S_IWUSR | S_IWGRP | S_IWOTH
  }

  /** Filtering a member twice changes nothing more than filtering it once. */
  lemma NoReadOnlyIdempotent(mode: bv32)
    ensures NoReadOnlyMode(NoReadOnlyMode(mode)) == NoReadOnlyMode(mode)
  {
  }

  /** What a tar header describes besides its mode. */
  datatype Content =
    | Regular(data: seq<byte>)
    | Symlink(target: string)

  /** The header `tarfile` builds from `os.lstat` of a file before adding it. */
  class TarInfo {
    var name: string
    var mode: bv32
    var content: Content

    /** The header for `node` under the member name `arcname`; a link is stored as a link. */
    constructor (arcname: string, node: Node)
      requires !node.Dir?
      ensures name == arcname
      ensures mode == if node.File? then node.mode else LinkMode
      ensures content == if node.File? then Regular(node.data) else Symlink(node.target)
    {
      name := arcname;
      if node.File? {
        mode := node.mode;
        content := Regular(node.data);
      } else {
        mode := LinkMode;
        content := Symlink(node.target);
      }
    }

    /** The member stored for this header. */
    function ToMember(): Member
      reads this
    {
      match content
      case Regular(data) => RegularMember(data, mode)
      case Symlink(target) => LinkMember(target, mode)
    }
  }

  /** `_NoReadOnlyTarFileFilter`: sets the three write bits of the header in place and hands it back. */
  method NoReadOnlyTarFileFilter(tarinfo: TarInfo) returns (r: TarInfo)
    modifies tarinfo
    ensures r == tarinfo
    ensures tarinfo.mode == NoReadOnlyMode(old(tarinfo.mode))
    ensures tarinfo.name == old(tarinfo.name) && tarinfo.content == old(tarinfo.content)
  {
    tarinfo.mode := tarinfo.mode | S_IWUSR | S_IWGRP | S_IWOTH;
    return tarinfo;
  }

  /** The member `tar.add` stores for a regular file or a link once the filter has run. */
  function MemberOf(node: Node): (m: Member)
    requires !node.Dir?
    ensures m.mode & S_IWUSR == S_IWUSR
    ensures node.File? ==> m == RegularMember(node.data, NoReadOnlyMode(node.mode))
    ensures node.Link? ==> m == LinkMember(node.target, NoReadOnlyMode(LinkMode))
  {
    if node.File? then RegularMember(node.data, NoReadOnlyMode(node.mode))
    else LinkMember(node.target, NoReadOnlyMode(LinkMode))
  }

  /** An archive being written: the members added so far, a later member replacing an earlier one of the same name. */
  class TarWriter {
    var members: Archive

    constructor ()
      ensures members == map[]
    {
      members := map[];
    }

    /** `tar.add(path, arcname=arcname, filter=_NoReadOnlyTarFileFilter)`. */
    method Add(t: Tree, path: string, arcname: string)
      requires path in t && !t[path].Dir?
      modifies this
      ensures members == old(members)[arcname := MemberOf(t[path])]
    {
      var info := new TarInfo(arcname, t[path]);
      info := NoReadOnlyTarFileFilter(info);
      members := members[info.name := info.ToMember()];
    }
  }

  /** The text `"{}".format(h)` gives for a hash: the digest, or `None` for a cyclic link. */
  function HashText(h: HashResult): (s: string)
    requires !h.Failed?
    ensures IsHashText(s)
    ensures |s| == 64 <==> h.Hashed?
  {
    if h.Hashed? then h.digest else "None"
  }

  /**
   * The manifest loop over the glob results `hits`, relative to the package folder: each
   * path that is not a directory is hashed and recorded under its path, and a hash that
   * raises ends the loop with that exception.
   */
  function FileHashes(src: Tree, ops: PathOps, sha: seq<byte> -> Digest, hits: seq<string>): (r: Result<Dict<string, string>, Exception>)
    ensures r.Ok? ==> r.value.Valid()
  {
    if hits == [] then Ok(Empty())
    else
      var prev := FileHashes(src, ops, sha, hits[..|hits| - 1]);
      var p := hits[|hits| - 1];
      if prev.Err? then prev
      else if ResolvesToDir(src, ops, p) then prev
      else
        var h := HashOf(src, ops, sha, p);
        if h.Failed? then Err(h.error) else Ok(Put(prev.value, p, HashText(h)))
  }

  /**
   * Only the glob results that are not directories are recorded, each under its own
   * path with the text of its hash; the loop raises exactly when one of them cannot be
   * hashed, and then with the exception that hash raised.
   */
  lemma FileHashesRecords(src: Tree, ops: PathOps, sha: seq<byte> -> Digest, hits: seq<string>)
    ensures var r := FileHashes(src, ops, sha, hits);
              && (r.Ok? ==> r.value.items.Keys == set p | p in hits && !ResolvesToDir(src, ops, p))
              && (r.Ok? ==> forall p | p in r.value.items :: !HashOf(src, ops, sha, p).Failed? &&
                                                             r.value.items[p] == HashText(HashOf(src, ops, sha, p)))
              && (r.Err? <==> exists p | p in hits :: !ResolvesToDir(src, ops, p) && HashOf(src, ops, sha, p).Failed?)
              && (r.Err? ==> exists p | p in hits :: HashOf(src, ops, sha, p) == Failed(r.error))
  {
    FileHashesOk(src, ops, sha, hits);
    FileHashesErr(src, ops, sha, hits);
  }

  /** A loop that raises nothing records the glob results that are not directories, each with the text of its hash. */
  lemma FileHashesOk(src: Tree, ops: PathOps, sha: seq<byte> -> Digest, hits: seq<string>)
    ensures var r := FileHashes(src, ops, sha, hits);
              && (r.Ok? ==> r.value.items.Keys == set p | p in hits && !ResolvesToDir(src, ops, p))
              && (r.Ok? ==> forall p | p in r.value.items :: !HashOf(src, ops, sha, p).Failed? &&
                                                             r.value.items[p] == HashText(HashOf(src, ops, sha, p)))
  {
    FileHashesKeys(src, ops, sha, hits);
    FileHashesValues(src, ops, sha, hits);
  }

  /** A loop that raises nothing records exactly the glob results that are not directories. */
  lemma {:induction false} FileHashesKeys(src: Tree, ops: PathOps, sha: seq<byte> -> Digest, hits: seq<string>)
    ensures var r := FileHashes(src, ops, sha, hits);
              r.Ok? ==> r.value.items.Keys == set p | p in hits && !ResolvesToDir(src, ops, p)
  {
    if hits != [] {
      var pre := hits[..|hits| - 1];
      var p := hits[|hits| - 1];
      assert hits == pre + [p];
      FileHashesKeys(src, ops, sha, pre);
      var r := FileHashes(src, ops, sha, hits);
      if r.Ok? {
        var prev := FileHashes(src, ops, sha, pre);
        assert prev.Ok?;
        var before := set q | q in pre && !ResolvesToDir(src, ops, q);
        if ResolvesToDir(src, ops, p) {
          assert r == prev;
          assert (set q | q in hits && !ResolvesToDir(src, ops, q)) == before;
        } else {
          assert r.value == Put(prev.value, p, HashText(HashOf(src, ops, sha, p)));
          assert r.value.items.Keys == prev.value.items.Keys + {p};
          assert (set q | q in hits && !ResolvesToDir(src, ops, q)) == before + {p};
        }
      }
    }
  }

  /** Each recorded path carries the text of its own hash. */
  lemma {:induction false} FileHashesValues(src: Tree, ops: PathOps, sha: seq<byte> -> Digest, hits: seq<string>)
    ensures var r := FileHashes(src, ops, sha, hits);
              r.Ok? ==> forall p | p in r.value.items :: !HashOf(src, ops, sha, p).Failed? &&
                                                         r.value.items[p] == HashText(HashOf(src, ops, sha, p))
  {
    if hits != [] {
      var pre := hits[..|hits| - 1];
      FileHashesValues(src, ops, sha, pre);
    }
  }

  /** The loop raises exactly when a glob result that is not a directory fails to hash, with that exception. */
  lemma {:induction false} FileHashesErr(src: Tree, ops: PathOps, sha: seq<byte> -> Digest, hits: seq<string>)
    ensures var r := FileHashes(src, ops, sha, hits);
              && (r.Err? <==> exists p | p in hits :: !ResolvesToDir(src, ops, p) && HashOf(src, ops, sha, p).Failed?)
              && (r.Err? ==> exists p | p in hits :: HashOf(src, ops, sha, p) == Failed(r.error))
  {
    if hits != [] {
      var pre := hits[..|hits| - 1];
      assert hits == pre + [hits[|hits| - 1]];
      FileHashesErr(src, ops, sha, pre);
    }
  }

  /** Once a hash has raised, later glob results change nothing. */
  lemma {:induction false} FileHashesStaysErr(src: Tree, ops: PathOps, sha: seq<byte> -> Digest, hits: seq<string>, k: nat)
    requires k <= |hits| && FileHashes(src, ops, sha, hits[..k]).Err?
    ensures FileHashes(src, ops, sha, hits) == FileHashes(src, ops, sha, hits[..k])
    decreases |hits| - k
  {
    if k < |hits| {
      assert hits[..k + 1][..k] == hits[..k];
      assert FileHashes(src, ops, sha, hits[..k + 1]) == FileHashes(src, ops, sha, hits[..k]);
      FileHashesStaysErr(src, ops, sha, hits, k + 1);
    } else {
      assert hits[..k] == hits;
    }
  }

  /** One more glob result: skipped when it is a directory, otherwise hashed and recorded unless hashing raises. */
  lemma FileHashesStep(src: Tree, ops: PathOps, sha: seq<byte> -> Digest, hits: seq<string>, i: nat)
    requires i < |hits|
    ensures var prev := FileHashes(src, ops, sha, hits[..i]);
            var h := HashOf(src, ops, sha, hits[i]);
              FileHashes(src, ops, sha, hits[..i + 1])
                == if prev.Err? || ResolvesToDir(src, ops, hits[i]) then prev
                   else if h.Failed? then Err(h.error)
                   else Ok(Put(prev.value, hits[i], HashText(h)))
  {
    assert hits[..i + 1][..i] == hits[..i];
  }

  /** The manifest loop of `PackageUpFolder`, filling `file_hashes` path by path. */
  method BuildManifest(src: Tree, ops: PathOps, sha: seq<byte> -> Digest, hits: seq<string>)
    returns (r: Result<Dict<string, string>, Exception>)
    ensures r == FileHashes(src, ops, sha, hits)
  {
    var fileHashes: Dict<string, string> := Empty();
    var i := 0;
    while i < |hits|
      invariant 0 <= i <= |hits|
      invariant FileHashes(src, ops, sha, hits[..i]) == Ok(fileHashes)
    {
      var path := hits[i];
      FileHashesStep(src, ops, sha, hits, i);
      if !ResolvesToDir(src, ops, path) {
        var hashResult := ComputeHashOfFile(src, ops, sha, path);
        if hashResult.Failed? {
          assert FileHashes(src, ops, sha, hits[..i + 1]) == Err(hashResult.error);
          FileHashesStaysErr(src, ops, sha, hits, i + 1);
          return Err(hashResult.error);
        }
        fileHashes := Put(fileHashes, path, HashText(hashResult));
      }
      assert FileHashes(src, ops, sha, hits[..i + 1]) == Ok(fileHashes);
      i := i + 1;
    }
    assert hits[..i] == hits;
    return Ok(fileHashes);
  }

  /** Joining one more string onto a concatenation. */
  lemma {:induction false} ConcatSnoc(ls: seq<string>, l: string)
    ensures Concat(ls + [l]) == Concat(ls) + l
  {
    if ls != [] {
      assert (ls + [l])[1..] == ls[1..] + [l];
      ConcatSnoc(ls[1..], l);
    }
  }

  /** The serialisation loop: `"{} *{}\n"` for each entry, appended in insertion order. */
  method SerialiseManifest(d: Dict<string, string>) returns (text: string)
    requires d.Valid()
    ensures text == Serialise(d)
  {
    var lines := FormatLines(d);
    text := "";
    for j := 0 to |d.keys|
      invariant text == Concat(lines[..j])
    {
      assert lines[..j + 1] == lines[..j] + [lines[j]];
      ConcatSnoc(lines[..j], lines[j]);
      text := text + FormatLine(d.keys[j], d.items[d.keys[j]]);
    }
    assert lines[..|d.keys|] == lines;
  }

  /** A glob result that is not a directory is a regular file or a link. */
  lemma NotDirNode(src: Tree, ops: PathOps, p: string)
    requires p in src && !ResolvesToDir(src, ops, p)
    ensures !src[p].Dir?
  {
  }

  /** The members for `keys`, added in order. */
  function AddedMembers(src: Tree, keys: seq<string>): (a: Archive)
    requires forall i | 0 <= i < |keys| :: keys[i] in src && !src[keys[i]].Dir?
  {
    if keys == [] then map[]
    else AddedMembers(src, keys[..|keys| - 1])[keys[|keys| - 1] := MemberOf(src[keys[|keys| - 1]])]
  }

  /** Adding members one by one stores each added file under its own name. */
  lemma {:induction false} AddedMembersAre(src: Tree, keys: seq<string>)
    requires forall i | 0 <= i < |keys| :: keys[i] in src && !src[keys[i]].Dir?
    ensures AddedMembers(src, keys).Keys == set p | p in keys
    ensures forall p | p in AddedMembers(src, keys) :: AddedMembers(src, keys)[p] == MemberOf(src[p])
  {
    if keys != [] {
      var pre := keys[..|keys| - 1];
      assert keys == pre + [keys[|keys| - 1]];
      AddedMembersAre(src, pre);
    }
  }

  /**
   * The archive `PackageUpFolder` writes: each recorded file under its relative path,
   * then the manifest file under `SHA256SUMS` at the root, which replaces any file of
   * that name.
   */
  function ArchiveOf(src: Tree, hashes: Dict<string, string>, manifest: Node): (a: Archive)
    requires hashes.Valid()
    requires forall p | p in hashes.items :: p in src && !src[p].Dir?
    requires !manifest.Dir?
    ensures a.Keys == hashes.items.Keys + {RootHashFileName}
    ensures a[RootHashFileName] == MemberOf(manifest)
    ensures forall p | p in hashes.items && p != RootHashFileName :: a[p] == MemberOf(src[p])
  {
    AddedMembersAre(src, hashes.keys);
    AddedMembers(src, hashes.keys)[RootHashFileName := MemberOf(manifest)]
  }

  /**
   * Adds the recorded files of the package folder in insertion order, then the manifest
   * file at `manifestPath` in the output folder `out`, under the name `SHA256SUMS`.
   */
  method WriteArchive(src: Tree, hashes: Dict<string, string>, out: Tree, manifestPath: string) returns (members: Archive)
    requires hashes.Valid()
    requires forall p | p in hashes.items :: p in src && !src[p].Dir?
    requires manifestPath in out && !out[manifestPath].Dir?
    ensures members == ArchiveOf(src, hashes, out[manifestPath])
  {
    var tar := new TarWriter();
    for j := 0 to |hashes.keys|
      invariant tar.members == AddedMembers(src, hashes.keys[..j])
    {
      var path := hashes.keys[j];
      assert hashes.keys[..j + 1][..j] == hashes.keys[..j];
      tar.Add(src, path, path);
    }
    assert hashes.keys[..|hashes.keys|] == hashes.keys;
    tar.Add(out, manifestPath, RootHashFileName);
    members := tar.members;
  }

  /** What publishing does to the output folder, in the order it happens. */
  datatype Event =
    | Wrote(path: string)
    | Removed(path: string)
    | Renamed(source: string, dest: string)
    | Copied(dest: string)

  /**
   * `open(path, "wb")` and writing `data`: a directory cannot be opened, an existing
   * regular file keeps its mode, and a new file gets `newMode`.
   */
  function WriteFile(t: Tree, path: string, data: seq<byte>, newMode: bv32): (r: Result<Tree, Exception>)
  {
    if Lookup(t, path) == Some(Dir) then Err(IsADirectoryError)
    else Ok(t[path := File(data, WrittenMode(t, path, newMode))])
  }

  /** The mode of a file once written: an existing regular file keeps its own. */
  function WrittenMode(t: Tree, path: string, newMode: bv32): bv32 {
    if path in t && t[path].File? then t[path].mode else newMode
  }

  /**
   * `if os.path.exists(path): os.remove(path)`: a path that exists after following links
   * is removed itself (a link, not its target); removing a directory raises.
   */
  function RemoveIfExists(t: Tree, ops: PathOps, path: string): (r: Result<(Tree, bool), Exception>)
  {
    if !PathExists(t, ops, path) then Ok((t, false))
    else if path in t && !t[path].Dir? then Ok((t - {path}, true))
    else Err(IsADirectoryError)
  }

  /**
   * `os.rename(source, dest)`: the entry moves, replacing a file or link at `dest`; a
   * missing source or a directory at `dest` raises.
   */
  function RenameFile(t: Tree, source: string, dest: string): (r: Result<Tree, Exception>)
  {
    if source !in t then Err(FileNotFoundError)
    else if source == dest then Ok(t)
    else if Lookup(t, dest) == Some(Dir) then Err(IsADirectoryError)
    else Ok((t - {source})[dest := t[source]])
  }

  /**
   * A write raises only when a directory stands at `path`; otherwise `path` holds the
   * data, an existing regular file keeps its mode, a new file gets `newMode`, and every
   * other path is as it was.
   */
  lemma WriteFileEffect(t: Tree, path: string, data: seq<byte>, newMode: bv32)
    ensures WriteFile(t, path, data, newMode).Err? <==> Lookup(t, path) == Some(Dir)
    ensures WriteFile(t, path, data, newMode).Err? ==> WriteFile(t, path, data, newMode).error == IsADirectoryError
    ensures WriteFile(t, path, data, newMode).Ok? ==>
              var r := WriteFile(t, path, data, newMode).value;
              && r.Keys == t.Keys + {path} && r[path].File? && r[path].data == data
              && r[path].mode == (if path in t && t[path].File? then t[path].mode else newMode)
              && forall k | k in t && k != path :: r[k] == t[k]
  {
  }

  /**
   * The guarded removal raises only on a directory that exists; otherwise it removes
   * exactly the path, and only when the path exists, leaving every other path as it was.
   */
  lemma RemoveIfExistsEffect(t: Tree, ops: PathOps, path: string)
    ensures RemoveIfExists(t, ops, path).Err? <==> PathExists(t, ops, path) && (path !in t || t[path].Dir?)
    ensures RemoveIfExists(t, ops, path).Err? ==> RemoveIfExists(t, ops, path).error == IsADirectoryError
    ensures RemoveIfExists(t, ops, path).Ok? ==>
              var (r, removed) := RemoveIfExists(t, ops, path).value;
              && (removed <==> PathExists(t, ops, path))
              && r.Keys == (if removed then t.Keys - {path} else t.Keys)
              && forall k | k in r :: r[k] == t[k]
  {
  }

  /**
   * A rename raises `FileNotFoundError` on a missing source and `IsADirectoryError` on a
   * directory at the destination; otherwise the destination holds the source's entry,
   * the source is gone and every other path is as it was.
   */
  lemma RenameFileEffect(t: Tree, source: string, dest: string)
    ensures RenameFile(t, source, dest).Ok? <==> source in t && (source == dest || Lookup(t, dest) != Some(Dir))
    ensures source !in t ==> RenameFile(t, source, dest) == Err(FileNotFoundError)
    ensures source in t && source != dest && Lookup(t, dest) == Some(Dir) ==> RenameFile(t, source, dest) == Err(IsADirectoryError)
    ensures RenameFile(t, source, dest).Ok? ==>
              var r := RenameFile(t, source, dest).value;
              && r.Keys == (t.Keys - {source}) + {dest} && r[dest] == t[source]
              && forall k | k in t && k != source && k != dest :: r[k] == t[k]
  {
  }

  /** The output folder part-way through publishing: its files, what was done to it, and the exception that stopped it. */
  datatype Progress = Progress(files: Tree, events: seq<Event>, failure: Option<Exception>)

  function WriteStep(s: Progress, path: string, data: seq<byte>, newMode: bv32): Progress {
    if s.failure.Some? then s
    else
      match WriteFile(s.files, path, data, newMode)
      case Err(e) => Progress(s.files, s.events, Some(e))
      case Ok(t) => Progress(t, s.events + [Wrote(path)], None)
  }

  /** A write continues the events before it. */
  lemma WriteStepFrom(f: Tree, events: seq<Event>, path: string, data: seq<byte>, newMode: bv32)
    ensures WriteStep(Progress(f, events, None), path, data, newMode)
         == Then(Progress(f, events, None), WriteStep(Progress(f, [], None), path, data, newMode))
  {
  }

  /** A removal continues the events before it. */
  lemma RemoveStepFrom(f: Tree, events: seq<Event>, ops: PathOps, path: string)
    ensures RemoveStep(Progress(f, events, None), ops, path)
         == Then(Progress(f, events, None), RemoveStep(Progress(f, [], None), ops, path))
  {
  }

  function RemoveStep(s: Progress, ops: PathOps, path: string): Progress {
    if s.failure.Some? then s
    else
      match RemoveIfExists(s.files, ops, path)
      case Err(e) => Progress(s.files, s.events, Some(e))
      case Ok((t, removed)) => Progress(t, s.events + (if removed then [Removed(path)] else []), None)
  }

  function RenameStep(s: Progress, source: string, dest: string): Progress {
    if s.failure.Some? then s
    else
      match RenameFile(s.files, source, dest)
      case Err(e) => Progress(s.files, s.events, Some(e))
      case Ok(t) => Progress(t, s.events + [Renamed(source, dest)], None)
  }

  function CopyStep(s: Progress, data: seq<byte>, dest: string, newMode: bv32): Progress {
    if s.failure.Some? then s
    else
      match WriteFile(s.files, dest, data, newMode)
      case Err(e) => Progress(s.files, s.events, Some(e))
      case Ok(t) => Progress(t, s.events + [Copied(dest)], None)
  }

  /** The temporary files, in the `temp` folder of the output folder. */
  function TempPackagePath(name: string): string {
    "temp/temp_package_" + name
  }

  function TempHashPath(name: string): string {
    "temp/temp_package_hash_" + name
  }

  function TempContentsPath(name: string): string {
    "temp/temp_package_contents_hash_" + name
  }

  /** How `PackageUpFolder` ends: an exception, `False` from the license check, or the verdict on what it published. */
  datatype PackOutcome =
    | Aborted(error: Exception)
    | LicenseRefused
    | Published(verdict: Verdict)

  /** The outcome, the output folder afterwards, and what was done to it. */
  datatype PackRun = PackRun(outcome: PackOutcome, files: Tree, events: seq<Event>)

  /** A run stopped by the exception recorded in `s`. */
  function Stopped(s: Progress): PackRun
    requires s.failure.Some?
  {
    PackRun(Aborted(s.failure.value), s.files, s.events)
  }

  /**
   * `PackageUpFolder(package_folder_path, output_folder)` on the package folder `src`
   * and the output folder `out`, with `hits` the glob of the package folder.
   */
  function Pack(src: Tree, out: Tree, ops: PathOps, tools: Tools, spdx: Option<set<string>>,
                hits: seq<string>, newMode: bv32): PackRun
    requires forall i | 0 <= i < |hits| :: hits[i] in src
  {
    if !PathExists(src, ops, DescriptorName) then PackRun(Aborted(FileNotFoundError), out, [])
    else
      var info := ReadPackageInfo(src, ops, tools, DescriptorName);
      if info.Err? then PackRun(Aborted(info.error), out, [])
      else
        var license := ValidatePackageLicense(src, ops, tools, spdx);
        if license.Err? then PackRun(Aborted(license.error), out, [])
        else if !license.value then PackRun(LicenseRefused, out, [])
        else
          var hashes := FileHashes(src, ops, tools.sha256, hits);
          if hashes.Err? then PackRun(Aborted(hashes.error), out, [])
          else
            assert FieldPresent(info.value.fields, RequiredFields[1]);
            var packageName := info.value.fields["PackageName"];
            if !packageName.JString? then PackRun(Aborted(TypeError), out, [])
            else
              RecordedFiles(src, ops, tools.sha256, hits);
              Finish(Publish(src, out, ops, tools, hashes.value, packageName.s, newMode), ops, tools, spdx, packageName.s)
  }

  /** The end of a run: the exception that stopped publishing, or the verdict on the published package. */
  function Finish(s: Progress, ops: PathOps, tools: Tools, spdx: Option<set<string>>, name: string): PackRun {
    if s.failure.Some? then Stopped(s)
    else PackRun(Published(ValidatePackage(s.files, ops, tools, spdx, name)), s.files, s.events)
  }

  /** The recorded files are regular files or links of the package folder. */
  lemma RecordedFiles(src: Tree, ops: PathOps, sha: seq<byte> -> Digest, hits: seq<string>)
    requires forall i | 0 <= i < |hits| :: hits[i] in src
    requires FileHashes(src, ops, sha, hits).Ok?
    ensures forall p | p in FileHashes(src, ops, sha, hits).value.items :: p in src && !src[p].Dir?
  {
    FileHashesRecords(src, ops, sha, hits);
    forall p | p in FileHashes(src, ops, sha, hits).value.items ensures p in src && !src[p].Dir? {
      NotDirNode(src, ops, p);
    }
  }

  /**
   * Writing the temporary files: opening the archive for writing creates it empty, the
   * manifest is written while it is open, and the archive receives its bytes when it is
   * closed; its hash file comes last.
   */
  function WriteTemps(src: Tree, out: Tree, ops: PathOps, tools: Tools, hashes: Dict<string, string>,
                      name: string, newMode: bv32): Progress
    requires hashes.Valid()
    requires forall p | p in hashes.items :: p in src && !src[p].Dir?
  {
    var s0 := WriteStep(Progress(out, [], None), TempPackagePath(name), [], newMode);
    if s0.failure.Some? then s0
    else Then(s0, WriteManifest(src, s0.files, ops, tools, hashes, name, newMode))
  }

  /** Writing the manifest into the open archive's folder, then the archive's bytes and its hash file. */
  function WriteManifest(src: Tree, out: Tree, ops: PathOps, tools: Tools, hashes: Dict<string, string>,
                         name: string, newMode: bv32): Progress
    requires hashes.Valid()
    requires forall p | p in hashes.items :: p in src && !src[p].Dir?
  {
    var s1 := WriteStep(Progress(out, [], None), TempContentsPath(name), tools.utf8Encode(Serialise(hashes)), newMode);
    if s1.failure.Some? then s1
    else Then(s1, WritePackage(src, s1.files, ops, tools, hashes, name, newMode))
  }

  /** Writing the archive, holding the files and the manifest written to `out`, then its hash file. */
  function WritePackage(src: Tree, out: Tree, ops: PathOps, tools: Tools, hashes: Dict<string, string>,
                        name: string, newMode: bv32): Progress
    requires hashes.Valid()
    requires forall p | p in hashes.items :: p in src && !src[p].Dir?
    requires TempContentsPath(name) in out && !out[TempContentsPath(name)].Dir?
  {
    var archive := ArchiveOf(src, hashes, out[TempContentsPath(name)]);
    var s2 := WriteStep(Progress(out, [], None), TempPackagePath(name), tools.tarXz(archive), newMode);
    if s2.failure.Some? then s2
    else Then(s2, WriteHashFile(s2.files, ops, tools, name, newMode))
  }

  /** Writing the hash file of the archive written to `out`: one line naming the archive. */
  function WriteHashFile(out: Tree, ops: PathOps, tools: Tools, name: string, newMode: bv32): Progress {
    var fileHash := HashOf(out, ops, tools.sha256, TempPackagePath(name));
    if fileHash.Failed? then Progress(out, [], Some(fileHash.error))
    else
      var hashLine := FormatLine(name + PackageExtension, HashText(fileHash));
      WriteStep(Progress(out, [], None), TempHashPath(name), tools.utf8Encode(hashLine), newMode)
  }

  /** Removing the old parts that exist. */
  function RemoveParts(s: Progress, ops: PathOps, name: string): Progress {
    var s4 := RemoveStep(s, ops, name + PackageExtension);
    var s5 := RemoveStep(s4, ops, name + PackageHashExtension);
    RemoveStep(s5, ops, name + ContentHashExtension)
  }

  /** Renaming the temporary files into place. */
  function RenameParts(s: Progress, name: string): Progress {
    var s7 := RenameStep(s, TempPackagePath(name), name + PackageExtension);
    var s8 := RenameStep(s7, TempHashPath(name), name + PackageHashExtension);
    RenameStep(s8, TempContentsPath(name), name + ContentHashExtension)
  }

  /**
   * Publishing under `name`: the temporary files, the removal of the old parts, the
   * renames, the descriptor copy last, then the validation of the output folder.
   */
  function Publish(src: Tree, out: Tree, ops: PathOps, tools: Tools, hashes: Dict<string, string>,
                   name: string, newMode: bv32): Progress
    requires hashes.Valid()
    requires forall p | p in hashes.items :: p in src && !src[p].Dir?
  {
    var w := WriteTemps(src, out, ops, tools, hashes, name, newMode);
    if w.failure.Some? then w
    else Then(w, Install(src, w.files, ops, name, newMode))
  }

  lemma AppendAssoc(a: seq<Event>, b: seq<Event>, c: seq<Event>)
    ensures (a + b) + c == a + (b + c)
  {
  }

  /** The steps of `b` after those of `a`. */
  function Then(a: Progress, b: Progress): Progress {
    Progress(b.files, a.events + b.events, b.failure)
  }

  /** Replacing the published parts of `out` by the temporary files and copying the descriptor. */
  function Install(src: Tree, out: Tree, ops: PathOps, name: string, newMode: bv32): Progress {
    var rm := RemoveParts(Progress(out, [], None), ops, name);
    if rm.failure.Some? then rm
    else Then(rm, Place(src, rm.files, ops, name, newMode))
  }

  /** Renaming the temporary files into place, then copying the descriptor. */
  function Place(src: Tree, out: Tree, ops: PathOps, name: string, newMode: bv32): Progress {
    var mv := RenameParts(Progress(out, [], None), name);
    if mv.failure.Some? then mv
    else
      var descriptor := Open(src, ops, DescriptorName);
      if descriptor.Err? then Progress(mv.files, mv.events, Some(descriptor.error))
      else CopyStep(mv, descriptor.value, name + "." + DescriptorName, newMode)
  }

  /** The output folder, changed file by file; `trace` records what was done to it. */
  class OutputFolder {
    var files: Tree
    ghost var trace: seq<Event>

    /** The mode a newly created file gets under the process's umask. */
    const newMode: bv32

    constructor (t: Tree, mode: bv32)
      ensures files == t && trace == [] && newMode == mode
    {
      files := t;
      trace := [];
      newMode := mode;
    }

    method Write(path: string, data: seq<byte>) returns (err: Option<Exception>)
      modifies this
      ensures Progress(files, trace, err) == WriteStep(Progress(old(files), old(trace), None), path, data, newMode)
    {
      var r := WriteFile(files, path, data, newMode);
      if r.Err? {
        return Some(r.error);
      }
      files := r.value;
      trace := trace + [Wrote(path)];
      return None;
    }

    method Remove(ops: PathOps, path: string) returns (err: Option<Exception>)
      modifies this
      ensures Progress(files, trace, err) == RemoveStep(Progress(old(files), old(trace), None), ops, path)
    {
      var r := RemoveIfExists(files, ops, path);
      if r.Err? {
        return Some(r.error);
      }
      files := r.value.0;
      if r.value.1 {
        trace := trace + [Removed(path)];
      }
      return None;
    }

    method Rename(source: string, dest: string) returns (err: Option<Exception>)
      modifies this
      ensures Progress(files, trace, err) == RenameStep(Progress(old(files), old(trace), None), source, dest)
    {
      var r := RenameFile(files, source, dest);
      if r.Err? {
        return Some(r.error);
      }
      files := r.value;
      trace := trace + [Renamed(source, dest)];
      return None;
    }

    /** `shutil.copyfile` of a file whose bytes are `data`. */
    method Copy(data: seq<byte>, dest: string) returns (err: Option<Exception>)
      modifies this
      ensures Progress(files, trace, err) == CopyStep(Progress(old(files), old(trace), None), data, dest, newMode)
    {
      var r := WriteFile(files, dest, data, newMode);
      if r.Err? {
        return Some(r.error);
      }
      files := r.value;
      trace := trace + [Copied(dest)];
      return None;
    }

    /**
     * Packs the package folder `src` into this output folder: the checks on the package
     * folder, the manifest, the temporary files, the replacement of the published
     * parts, the descriptor copy, and the validation of the result.
     */
    method PackageUpFolder(src: Tree, ops: PathOps, tools: Tools, spdx: Option<set<string>>, hits: seq<string>)
      returns (outcome: PackOutcome)
      requires forall i | 0 <= i < |hits| :: hits[i] in src
      modifies this
      ensures var run := Pack(src, old(files), ops, tools, spdx, hits, newMode);
                outcome == run.outcome && files == run.files && trace == old(trace) + run.events
    {
      if !PathExists(src, ops, DescriptorName) {
        return Aborted(FileNotFoundError);
      }
      var packageInfo := ReadPackageInfo(src, ops, tools, DescriptorName);
      if packageInfo.Err? {
        return Aborted(packageInfo.error);
      }
      var license := ValidatePackageLicense(src, ops, tools, spdx);
      if license.Err? {
        return Aborted(license.error);
      }
      if !license.value {
        return LicenseRefused;
      }
      // `files_to_add` holds the same paths as `file_hashes`, in the same order: the
      // tree is keyed by relative paths, so the archive loop below walks `file_hashes`.
      var hashes := BuildManifest(src, ops, tools.sha256, hits);
      if hashes.Err? {
        return Aborted(hashes.error);
      }
      var fileHashes := hashes.value;
      assert FieldPresent(packageInfo.value.fields, RequiredFields[1]);
      var packageName := packageInfo.value.fields["PackageName"];
      if !packageName.JString? {
        return Aborted(TypeError);
      }
      var name := packageName.s;
      RecordedFiles(src, ops, tools.sha256, hits);
      var err, s := Publishing(src, ops, tools, fileHashes, name);
      if err.Some? {
        return Aborted(err.value);
      }
      var verdict := FullyValidatePackage(files, ops, tools, spdx, name);
      return Published(verdict);
    }

    /** Publishes the package under `name`: the temporary files, then the replacement of the parts. */
    method Publishing(src: Tree, ops: PathOps, tools: Tools, fileHashes: Dict<string, string>, name: string)
      returns (err: Option<Exception>, ghost s: Progress)
      requires fileHashes.Valid()
      requires forall p | p in fileHashes.items :: p in src && !src[p].Dir?
      modifies this
      ensures s == Publish(src, old(files), ops, tools, fileHashes, name, newMode)
      ensures files == s.files && trace == old(trace) + s.events && err == s.failure
    {
      ghost var t0 := trace;
      var manifestText := SerialiseManifest(fileHashes);
      ghost var w;
      err, w := WritingTemps(src, ops, tools, fileHashes, manifestText, name);
      if err.Some? {
        return err, w;
      }
      ghost var i;
      err, i := Installing(src, ops, name);
      s := Then(w, i);
      AppendAssoc(t0, w.events, i.events);
    }

    /** Replaces the published parts by the temporary files and copies the descriptor. */
    method Installing(src: Tree, ops: PathOps, name: string) returns (err: Option<Exception>, ghost s: Progress)
      modifies this
      ensures s == Install(src, old(files), ops, name, newMode)
      ensures files == s.files && trace == old(trace) + s.events && err == s.failure
    {
      ghost var t0 := trace;
      ghost var rm;
      err, rm := Removing(ops, name);
      if err.Some? {
        return err, rm;
      }
      ghost var p;
      err, p := Placing(src, ops, name);
      s := Then(rm, p);
      AppendAssoc(t0, rm.events, p.events);
    }

    /** Renames the temporary files into place and copies the descriptor. */
    method Placing(src: Tree, ops: PathOps, name: string) returns (err: Option<Exception>, ghost s: Progress)
      modifies this
      ensures s == Place(src, old(files), ops, name, newMode)
      ensures files == s.files && trace == old(trace) + s.events && err == s.failure
    {
      err, s := Renaming(name);
      if err.Some? {
        return;
      }
      var descriptor := Open(src, ops, DescriptorName);
      if descriptor.Err? {
        s := Progress(s.files, s.events, Some(descriptor.error));
        return Some(descriptor.error), s;
      }
      AppendAssoc(old(trace), s.events, [Copied(name + "." + DescriptorName)]);
      err := Copy(descriptor.value, name + "." + DescriptorName);
      s := CopyStep(s, descriptor.value, name + "." + DescriptorName, newMode);
    }

    /** The temporary files: the archive opened empty, the manifest, then the archive's bytes and its hash file. */
    method WritingTemps(src: Tree, ops: PathOps, tools: Tools, fileHashes: Dict<string, string>, manifestText: string, name: string)
      returns (err: Option<Exception>, ghost s: Progress)
      requires fileHashes.Valid() && manifestText == Serialise(fileHashes)
      requires forall p | p in fileHashes.items :: p in src && !src[p].Dir?
      modifies this
      ensures s == WriteTemps(src, old(files), ops, tools, fileHashes, name, newMode)
      ensures files == s.files && trace == old(trace) + s.events && err == s.failure
    {
      WriteStepFrom(files, trace, TempPackagePath(name), [], newMode);
      err := Write(TempPackagePath(name), []);
      ghost var s0 := WriteStep(Progress(old(files), [], None), TempPackagePath(name), [], newMode);
      if err.Some? {
        return err, s0;
      }
      ghost var m;
      err, m := WritingManifest(src, ops, tools, fileHashes, manifestText, name);
      s := Then(s0, m);
      AppendAssoc(old(trace), s0.events, m.events);
    }

    /** The manifest, then the archive's bytes and its hash file. */
    method WritingManifest(src: Tree, ops: PathOps, tools: Tools, fileHashes: Dict<string, string>, manifestText: string, name: string)
      returns (err: Option<Exception>, ghost s: Progress)
      requires fileHashes.Valid() && manifestText == Serialise(fileHashes)
      requires forall p | p in fileHashes.items :: p in src && !src[p].Dir?
      modifies this
      ensures s == WriteManifest(src, old(files), ops, tools, fileHashes, name, newMode)
      ensures files == s.files && trace == old(trace) + s.events && err == s.failure
    {
      WriteStepFrom(files, trace, TempContentsPath(name), tools.utf8Encode(manifestText), newMode);
      err := Write(TempContentsPath(name), tools.utf8Encode(manifestText));
      ghost var s1 := WriteStep(Progress(old(files), [], None), TempContentsPath(name), tools.utf8Encode(manifestText), newMode);
      if err.Some? {
        return err, s1;
      }
      ghost var p;
      err, p := WritingPackage(src, ops, tools, fileHashes, name);
      s := Then(s1, p);
      AppendAssoc(old(trace), s1.events, p.events);
    }

    /** The archive, holding the files and the manifest written here, then its hash file. */
    method WritingPackage(src: Tree, ops: PathOps, tools: Tools, fileHashes: Dict<string, string>, name: string)
      returns (err: Option<Exception>, ghost s: Progress)
      requires fileHashes.Valid()
      requires forall p | p in fileHashes.items :: p in src && !src[p].Dir?
      requires TempContentsPath(name) in files && !files[TempContentsPath(name)].Dir?
      modifies this
      ensures s == WritePackage(src, old(files), ops, tools, fileHashes, name, newMode)
      ensures files == s.files && trace == old(trace) + s.events && err == s.failure
    {
      var members := WriteArchive(src, fileHashes, files, TempContentsPath(name));
      WriteStepFrom(files, trace, TempPackagePath(name), tools.tarXz(members), newMode);
      err := Write(TempPackagePath(name), tools.tarXz(members));
      ghost var s2 := WriteStep(Progress(old(files), [], None), TempPackagePath(name), tools.tarXz(members), newMode);
      if err.Some? {
        return err, s2;
      }
      ghost var h;
      err, h := WritingHashFile(ops, tools, name);
      s := Then(s2, h);
      AppendAssoc(old(trace), s2.events, h.events);
    }

    /** The hash file of the archive written here. */
    method WritingHashFile(ops: PathOps, tools: Tools, name: string) returns (err: Option<Exception>, ghost s: Progress)
      modifies this
      ensures s == WriteHashFile(old(files), ops, tools, name, newMode)
      ensures files == s.files && trace == old(trace) + s.events && err == s.failure
    {
      var fileHash := ComputeHashOfFile(files, ops, tools.sha256, TempPackagePath(name));
      if fileHash.Failed? {
        return Some(fileHash.error), Progress(files, [], Some(fileHash.error));
      }
      var newHashContents := FormatLine(name + PackageExtension, HashText(fileHash));
      WriteStepFrom(files, trace, TempHashPath(name), tools.utf8Encode(newHashContents), newMode);
      err := Write(TempHashPath(name), tools.utf8Encode(newHashContents));
      s := WriteStep(Progress(old(files), [], None), TempHashPath(name), tools.utf8Encode(newHashContents), newMode);
    }

    /** Removes the old parts that exist. */
    method Removing(ops: PathOps, name: string) returns (err: Option<Exception>, ghost s: Progress)
      modifies this
      ensures s == RemoveParts(Progress(old(files), [], None), ops, name)
      ensures files == s.files && trace == old(trace) + s.events && err == s.failure
    {
      s := Progress(files, [], None);
      err, s := RemovingOne(ops, name + PackageExtension, s, trace);
      if err.Some? {
        return;
      }
      err, s := RemovingOne(ops, name + PackageHashExtension, s, old(trace));
      if err.Some? {
        return;
      }
      err, s := RemovingOne(ops, name + ContentHashExtension, s, old(trace));
    }

    /** One removal, continuing the run `s` whose events follow `base` in the trace. */
    method RemovingOne(ops: PathOps, path: string, ghost s: Progress, ghost base: seq<Event>)
      returns (err: Option<Exception>, ghost next: Progress)
      requires s.failure.None? && files == s.files && trace == base + s.events
      modifies this
      ensures next == RemoveStep(s, ops, path)
      ensures files == next.files && trace == base + next.events && err == next.failure
    {
      RemoveStepFrom(files, trace, ops, path);
      RemoveStepFrom(files, s.events, ops, path);
      ghost var step := RemoveStep(Progress(files, [], None), ops, path);
      err := Remove(ops, path);
      next := RemoveStep(s, ops, path);
      AppendAssoc(base, s.events, step.events);
    }

    /** Renames the temporary files into place. */
    method Renaming(name: string) returns (err: Option<Exception>, ghost s: Progress)
      modifies this
      ensures s == RenameParts(Progress(old(files), [], None), name)
      ensures files == s.files && trace == old(trace) + s.events && err == s.failure
    {
      s := Progress(files, [], None);
      err := Rename(TempPackagePath(name), name + PackageExtension);
      s := RenameStep(s, TempPackagePath(name), name + PackageExtension);
      if err.Some? {
        return;
      }
      err := Rename(TempHashPath(name), name + PackageHashExtension);
      s := RenameStep(s, TempHashPath(name), name + PackageHashExtension);
      if err.Some? {
        return;
      }
      err := Rename(TempContentsPath(name), name + ContentHashExtension);
      s := RenameStep(s, TempContentsPath(name), name + ContentHashExtension);
    }
  }
}
