/**
 * `ComputeHashOfFile`: follow a chain of symbolic links to the file it ends at and
 * hash that file's bytes, giving no hash when the chain comes back to a path it has
 * already visited.
 */
module Hasher {
  import opened Wrappers
  import opened Platform
  import opened OrderedMap

  /** What a path names on disk. */
  datatype Node =
    | File(data: seq<byte>, mode: bv32)
    | Link(target: string)
    | Dir

  /**
   * A directory tree: path to node. A directory holding entries need not be listed:
   * it exists because some path lies below it.
   */
  type Tree = map<string, Node>

  /** `k` lies strictly below the directory `p`. */
  predicate Below(p: string, k: string) {
    |p| < |k| && k[..|p|] == p && k[|p|] == '/'
  }

  /** What `p` names in `t`, if anything. */
  function Lookup(t: Tree, p: string): (r: Option<Node>)
    ensures r.None? <==> p !in t && forall k | k in t :: !Below(p, k)
    ensures p in t ==> r == Some(t[p])
  {
    if p in t then Some(t[p])
    else if exists k | k in t :: Below(p, k) then Some(Dir)
    else None
  }

  /** A path that is not itself in the tree is either missing or a directory implied by what lies below it. */
  lemma LookupImplicit(t: Tree, p: string)
    requires p !in t
    ensures Lookup(t, p) == None || Lookup(t, p) == Some(Dir)
    ensures Lookup(t, p) == Some(Dir) <==> exists k | k in t :: Below(p, k)
  {
  }

  /** `os.path.islink`. */
  predicate IsLink(t: Tree, p: string) {
    p in t && t[p].Link?
  }

  /** The paths that are links. */
  function LinkPaths(t: Tree): set<string> {
    set p | p in t && t[p].Link?
  }

  /**
   * Where one link leads: an absolute target as it stands, a relative one joined to
   * `folder` (the directory of the path first asked for), then resolved and normalised.
   */
  function Step(t: Tree, ops: PathOps, folder: string, p: string): string
    requires IsLink(t, p)
  {
    var target := t[p].target;
    if ops.isabs(target) then target
    else ops.normpath(ops.realpath(ops.join(folder, target)))
  }

  /** The path reached after following the links recorded in `chain` from `start`. */
  function Current(start: string, chain: seq<string>): string {
    if chain == [] then start else chain[|chain| - 1]
  }

  /** Each element of `chain` is where the link before it leads, starting from `start`. */
  ghost predicate Walk(t: Tree, ops: PathOps, folder: string, start: string, chain: seq<string>) {
    forall i | 0 <= i < |chain| ::
      IsLink(t, Current(start, chain[..i])) && chain[i] == Step(t, ops, folder, Current(start, chain[..i]))
  }

  /** How following links ends: at a path that is not a link, or by coming back to a visited path. */
  datatype Resolution =
    | Resolved(path: string, chain: seq<string>)
    | Cyclic(chain: seq<string>, repeated: string)

  /** The paths a chain has visited. */
  function Visited(chain: seq<string>): set<string> {
    set x | x in chain
  }

  /** Visiting one more path leaves no more links unvisited, and fewer when it is an unvisited link. */
  lemma FewerUnvisited(links: set<string>, chain: seq<string>, r: string)
    ensures |links - Visited(chain + [r])| <= |links - Visited(chain)|
    ensures r in links && r !in chain ==> |links - Visited(chain + [r])| < |links - Visited(chain)|
  {
    var before, after := links - Visited(chain), links - Visited(chain + [r]);
    assert after == before - {r};
  }

  /**
   * The link-following loop of `ComputeHashOfFile`, continued from the links already
   * in `chain`.
   */
  function Resolve(t: Tree, ops: PathOps, folder: string, start: string, chain: seq<string>): (r: Resolution)
    decreases |LinkPaths(t) - Visited(chain)| + (if IsLink(t, Current(start, chain)) then 1 else 0)
  {
    var cur := Current(start, chain);
    if !IsLink(t, cur) then Resolved(cur, chain)
    else
      var next := Step(t, ops, folder, cur);
      if next in chain then Cyclic(chain, next)
      else
        FewerUnvisited(LinkPaths(t), chain, next);
        Resolve(t, ops, folder, start, chain + [next])
  }

  /** A walk stays a walk when the next link is followed. */
  lemma WalkExtend(t: Tree, ops: PathOps, folder: string, start: string, chain: seq<string>)
    requires Walk(t, ops, folder, start, chain) && IsLink(t, Current(start, chain))
    ensures Walk(t, ops, folder, start, chain + [Step(t, ops, folder, Current(start, chain))])
  {
    var ext := chain + [Step(t, ops, folder, Current(start, chain))];
    forall i | 0 <= i < |ext|
      ensures IsLink(t, Current(start, ext[..i])) && ext[i] == Step(t, ops, folder, Current(start, ext[..i]))
    {
      assert ext[..i] == if i < |chain| then chain[..i] else chain;
    }
  }

  /** `Resolve` only adds to the chain it continues from. */
  lemma {:induction false} ResolveExtends(t: Tree, ops: PathOps, folder: string, start: string, chain: seq<string>)
    ensures var r := Resolve(t, ops, folder, start, chain);
              |chain| <= |r.chain| && r.chain[..|chain|] == chain
    decreases |LinkPaths(t) - Visited(chain)| + (if IsLink(t, Current(start, chain)) then 1 else 0)
  {
    var cur := Current(start, chain);
    if IsLink(t, cur) {
      var next := Step(t, ops, folder, cur);
      if next !in chain {
        var ext := chain + [next];
        FewerUnvisited(LinkPaths(t), chain, next);
        ResolveExtends(t, ops, folder, start, ext);
        var r := Resolve(t, ops, folder, start, ext);
        assert r.chain[..|chain|] == r.chain[..|ext|][..|chain|];
      }
    }
  }

  /** Continuing from a walk without repeats, `Resolve` yields a walk without repeats. */
  lemma {:induction false} ResolveKeepsWalk(t: Tree, ops: PathOps, folder: string, start: string, chain: seq<string>)
    requires Walk(t, ops, folder, start, chain) && Distinct(chain)
    ensures Walk(t, ops, folder, start, Resolve(t, ops, folder, start, chain).chain)
    ensures Distinct(Resolve(t, ops, folder, start, chain).chain)
    decreases |LinkPaths(t) - Visited(chain)| + (if IsLink(t, Current(start, chain)) then 1 else 0)
  {
    var cur := Current(start, chain);
    if IsLink(t, cur) {
      var next := Step(t, ops, folder, cur);
      if next !in chain {
        WalkExtend(t, ops, folder, start, chain);
        DistinctAppend(chain, next);
        FewerUnvisited(LinkPaths(t), chain, next);
        ResolveKeepsWalk(t, ops, folder, start, chain + [next]);
      }
    }
  }

  /** `Resolve` stops at a path that is not a link, or at a link leading back into the chain. */
  lemma {:induction false} ResolveEnds(t: Tree, ops: PathOps, folder: string, start: string, chain: seq<string>)
    ensures var r := Resolve(t, ops, folder, start, chain);
              && (r.Resolved? ==> r.path == Current(start, r.chain) && !IsLink(t, r.path))
              && (r.Cyclic? ==> IsLink(t, Current(start, r.chain)) && r.repeated in r.chain
                                && r.repeated == Step(t, ops, folder, Current(start, r.chain)))
    decreases |LinkPaths(t) - Visited(chain)| + (if IsLink(t, Current(start, chain)) then 1 else 0)
  {
    var cur := Current(start, chain);
    if IsLink(t, cur) {
      var next := Step(t, ops, folder, cur);
      if next !in chain {
        FewerUnvisited(LinkPaths(t), chain, next);
        ResolveEnds(t, ops, folder, start, chain + [next]);
      }
    }
  }

  /** Along a walk without repeats, `Resolve` from any point of the walk ends the same way. */
  lemma {:induction false} ResolveAlong(t: Tree, ops: PathOps, folder: string, start: string, chain: seq<string>, k: nat)
    requires Walk(t, ops, folder, start, chain) && Distinct(chain) && k <= |chain|
    ensures Resolve(t, ops, folder, start, chain[..k]) == Resolve(t, ops, folder, start, chain)
    decreases |chain| - k
  {
    if k < |chain| {
      var pre := chain[..k];
      assert IsLink(t, Current(start, pre)) && chain[k] == Step(t, ops, folder, Current(start, pre));
      assert chain[k] !in pre;
      assert pre + [chain[k]] == chain[..k + 1];
      ResolveAlong(t, ops, folder, start, chain, k + 1);
    } else {
      assert chain[..k] == chain;
    }
  }

  /** A walk without repeats that ends at a path that is not a link is what `Resolve` finds. */
  lemma ResolvesTo(t: Tree, ops: PathOps, folder: string, start: string, chain: seq<string>)
    requires Walk(t, ops, folder, start, chain) && Distinct(chain) && !IsLink(t, Current(start, chain))
    ensures Resolve(t, ops, folder, start, []) == Resolved(Current(start, chain), chain)
  {
    ResolveAlong(t, ops, folder, start, chain, 0);
    assert chain[..0] == [];
  }

  /** A walk without repeats whose last link leads back into it is what `Resolve` reports as a cycle. */
  lemma CyclesAt(t: Tree, ops: PathOps, folder: string, start: string, chain: seq<string>)
    requires Walk(t, ops, folder, start, chain) && Distinct(chain) && IsLink(t, Current(start, chain))
    requires Step(t, ops, folder, Current(start, chain)) in chain
    ensures Resolve(t, ops, folder, start, []) == Cyclic(chain, Step(t, ops, folder, Current(start, chain)))
  {
    ResolveAlong(t, ops, folder, start, chain, 0);
    assert chain[..0] == [];
  }

  /** A walk without repeats that ends at a path that is not a link. */
  ghost predicate Reaches(t: Tree, ops: PathOps, folder: string, start: string, chain: seq<string>) {
    Walk(t, ops, folder, start, chain) && Distinct(chain) && !IsLink(t, Current(start, chain))
  }

  /** A walk without repeats whose last link leads back to a path already on it. */
  ghost predicate Loops(t: Tree, ops: PathOps, folder: string, start: string, chain: seq<string>) {
    && Walk(t, ops, folder, start, chain) && Distinct(chain) && IsLink(t, Current(start, chain))
    && Step(t, ops, folder, Current(start, chain)) in chain
  }

  /** Every resolution is one of the two: the links reach a non-link, or they loop. */
  lemma ResolveCases(t: Tree, ops: PathOps, folder: string, start: string)
    ensures var r := Resolve(t, ops, folder, start, []);
              && (r.Resolved? ==> Reaches(t, ops, folder, start, r.chain) && r.path == Current(start, r.chain))
              && (r.Cyclic? ==> Loops(t, ops, folder, start, r.chain))
  {
    ResolveKeepsWalk(t, ops, folder, start, []);
    ResolveEnds(t, ops, folder, start, []);
  }

  /** What `ComputeHashOfFile` gives: a digest, `None` for a cycle, or the exception `open` raises. */
  datatype HashResult =
    | Hashed(digest: Digest)
    | NoHash
    | Failed(error: Exception)

  /** Opening `p` for reading and hashing its bytes. */
  function HashAt(t: Tree, sha: seq<byte> -> Digest, p: string): HashResult {
    match Lookup(t, p)
    case None => Failed(FileNotFoundError)
    case Some(Dir) => Failed(IsADirectoryError)
    case Some(File(data, _)) => Hashed(sha(data))
    case Some(Link(_)) => Failed(FileNotFoundError)
  }

  /** The result of `ComputeHashOfFile(path)`. */
  function HashOf(t: Tree, ops: PathOps, sha: seq<byte> -> Digest, path: string): HashResult {
    var start := ops.normpath(path);
    match Resolve(t, ops, ops.dirname(start), start, [])
    case Cyclic(_, _) => NoHash
    case Resolved(p, _) => HashAt(t, sha, p)
  }


  /** Following the links from `path` to a path that is not a link opens and hashes that path. */
  lemma HashReached(t: Tree, ops: PathOps, sha: seq<byte> -> Digest, path: string, chain: seq<string>)
    requires Reaches(t, ops, ops.dirname(ops.normpath(path)), ops.normpath(path), chain)
    ensures HashOf(t, ops, sha, path) == HashAt(t, sha, Current(ops.normpath(path), chain))
  {
    ResolvesTo(t, ops, ops.dirname(ops.normpath(path)), ops.normpath(path), chain);
  }

  /** Links from `path` that loop give no hash. */
  lemma HashLooped(t: Tree, ops: PathOps, sha: seq<byte> -> Digest, path: string, chain: seq<string>)
    requires Loops(t, ops, ops.dirname(ops.normpath(path)), ops.normpath(path), chain)
    ensures HashOf(t, ops, sha, path) == NoHash
  {
    CyclesAt(t, ops, ops.dirname(ops.normpath(path)), ops.normpath(path), chain);
  }

  /** There is no hash exactly when the links from `path` loop. */
  lemma NoHashIffLoops(t: Tree, ops: PathOps, sha: seq<byte> -> Digest, path: string)
    ensures HashOf(t, ops, sha, path) == NoHash <==>
              exists chain :: Loops(t, ops, ops.dirname(ops.normpath(path)), ops.normpath(path), chain)
  {
    var start := ops.normpath(path);
    var folder := ops.dirname(start);
    ResolveCases(t, ops, folder, start);
    if exists chain :: Loops(t, ops, folder, start, chain) {
      var chain :| Loops(t, ops, folder, start, chain);
      HashLooped(t, ops, sha, path, chain);
    }
  }

  /** Otherwise the result is that of opening where the links lead. */
  lemma HashIsOfReached(t: Tree, ops: PathOps, sha: seq<byte> -> Digest, path: string)
    requires HashOf(t, ops, sha, path) != NoHash
    ensures exists chain :: Reaches(t, ops, ops.dirname(ops.normpath(path)), ops.normpath(path), chain) &&
              HashOf(t, ops, sha, path) == HashAt(t, sha, Current(ops.normpath(path), chain))
  {
    var start := ops.normpath(path);
    ResolveCases(t, ops, ops.dirname(start), start);
    var chain := Resolve(t, ops, ops.dirname(start), start, []).chain;
    assert Reaches(t, ops, ops.dirname(start), start, chain);
  }

  /** A path naming a regular file hashes to the digest of its bytes. */
  lemma HashOfPlainFile(t: Tree, ops: PathOps, sha: seq<byte> -> Digest, path: string)
    requires ops.normpath(path) in t && t[ops.normpath(path)].File?
    ensures HashOf(t, ops, sha, path) == Hashed(sha(t[ops.normpath(path)].data))
  {
    HashReached(t, ops, sha, path, []);
  }

  /** A link with an absolute target naming a regular file hashes to the digest of that file. */
  lemma HashThroughLink(t: Tree, ops: PathOps, sha: seq<byte> -> Digest, path: string)
    requires IsLink(t, ops.normpath(path))
    requires var target := t[ops.normpath(path)].target;
               ops.isabs(target) && target in t && t[target].File?
    ensures HashOf(t, ops, sha, path) == Hashed(sha(t[t[ops.normpath(path)].target].data))
  {
    var start := ops.normpath(path);
    var chain := [t[start].target];
    assert chain[..0] == [];
    assert Reaches(t, ops, ops.dirname(start), start, chain);
    HashReached(t, ops, sha, path, chain);
  }

  /** A link to itself gives no hash. */
  lemma SelfLinkNoHash(t: Tree, ops: PathOps, sha: seq<byte> -> Digest, path: string)
    requires IsLink(t, ops.normpath(path))
    requires Step(t, ops, ops.dirname(ops.normpath(path)), ops.normpath(path)) == ops.normpath(path)
    ensures HashOf(t, ops, sha, path) == NoHash
  {
    var start := ops.normpath(path);
    var chain := [start];
    assert chain[..0] == [];
    assert Loops(t, ops, ops.dirname(start), start, chain);
    HashLooped(t, ops, sha, path, chain);
  }

  /** Two links leading to each other give no hash. */
  lemma LinkPairNoHash(t: Tree, ops: PathOps, sha: seq<byte> -> Digest, path: string, other: string)
    requires var start := ops.normpath(path); var folder := ops.dirname(start);
               && start != other && IsLink(t, start) && IsLink(t, other)
               && Step(t, ops, folder, start) == other && Step(t, ops, folder, other) == start
    ensures HashOf(t, ops, sha, path) == NoHash
  {
    var start := ops.normpath(path);
    var chain := [other, start];
    assert chain[..0] == [] && chain[..1] == [other];
    assert Loops(t, ops, ops.dirname(start), start, chain);
    HashLooped(t, ops, sha, path, chain);
  }

  /** Follows the links from `path`, then hashes the file reached. */
  method ComputeHashOfFile(t: Tree, ops: PathOps, sha: seq<byte> -> Digest, path: string) returns (r: HashResult)
    ensures r == HashOf(t, ops, sha, path)
  {
    var filePath := ops.normpath(path);
    var originalFolder := ops.dirname(filePath);
    ghost var start := filePath;
    var pathsConsidered: seq<string> := [];
    while IsLink(t, filePath)
      invariant filePath == Current(start, pathsConsidered)
      invariant Resolve(t, ops, originalFolder, start, pathsConsidered) == Resolve(t, ops, originalFolder, start, [])
      decreases |LinkPaths(t) - Visited(pathsConsidered)| + (if IsLink(t, filePath) then 1 else 0)
    {
      var resolvedPath := t[filePath].target;
      if !ops.isabs(resolvedPath) {
        resolvedPath := ops.join(originalFolder, resolvedPath);
        resolvedPath := ops.realpath(resolvedPath);
        resolvedPath := ops.normpath(resolvedPath);
      }
      if resolvedPath in pathsConsidered {
        return NoHash;
      }
      FewerUnvisited(LinkPaths(t), pathsConsidered, resolvedPath);
      pathsConsidered := pathsConsidered + [resolvedPath];
      filePath := resolvedPath;
    }
    var node := Lookup(t, filePath);
    match node
    case None => r := Failed(FileNotFoundError);
    case Some(Dir) => r := Failed(IsADirectoryError);
    case Some(File(data, _)) => r := Hashed(sha(data));
    case Some(Link(_)) => r := Failed(FileNotFoundError);
  }

  /**
   * Reading the bytes of `path` with `open`: links are followed as above, a loop raises
   * `OSError` (too many levels of links), and what is reached must be a regular file.
   */
  function Open(t: Tree, ops: PathOps, path: string): (r: Result<seq<byte>, Exception>)
    ensures path in t && t[path].File? ==> r == Ok(t[path].data)
    ensures Lookup(t, path).None? ==> r == Err(FileNotFoundError)
  {
    match Resolve(t, ops, ops.dirname(path), path, [])
    case Cyclic(_, _) => Err(SymlinkLoopError)
    case Resolved(p, _) =>
      match Lookup(t, p)
      case None => Err(FileNotFoundError)
      case Some(Dir) => Err(IsADirectoryError)
      case Some(File(data, _)) => Ok(data)
      case Some(Link(_)) => Err(FileNotFoundError)
  }

  /** `os.path.exists`: following links from `path` reaches something that exists. */
  function PathExists(t: Tree, ops: PathOps, path: string): (b: bool)
    ensures Lookup(t, path).Some? && !IsLink(t, path) ==> b
    ensures Lookup(t, path).None? ==> !b
  {
    match Resolve(t, ops, ops.dirname(path), path, [])
    case Cyclic(_, _) => false
    case Resolved(p, _) => Lookup(t, p).Some?
  }

  /** `os.path.isfile`: following links from `path` reaches a regular file. */
  predicate IsRegularFile(t: Tree, ops: PathOps, path: string) {
    Open(t, ops, path).Ok?
  }

  /** Hashing is opening the normalised path and taking the digest, a loop giving no hash. */
  lemma HashIsDigestOfOpen(t: Tree, ops: PathOps, sha: seq<byte> -> Digest, path: string)
    ensures var read := Open(t, ops, ops.normpath(path));
              HashOf(t, ops, sha, path) ==
                if read.Ok? then Hashed(sha(read.value))
                else if read.error == SymlinkLoopError then NoHash
                else Failed(read.error)
  {
  }

  /**
   * Two trees with the same paths, the same kinds of node and the same link targets:
   * they differ at most in the contents and permission bits of regular files.
   */
  ghost predicate SameLinks(t1: Tree, t2: Tree) {
    && t1.Keys == t2.Keys
    && forall p | p in t1 ::
         && (t1[p].File? <==> t2[p].File?)
         && (t1[p].Link? <==> t2[p].Link?)
         && (t1[p].Link? ==> t1[p].target == t2[p].target)
  }

  /** Two trees that differ at most in the permission bits of regular files. */
  ghost predicate SameShape(t1: Tree, t2: Tree) {
    && SameLinks(t1, t2)
    && forall p | p in t1 && t1[p].File? :: t1[p].data == t2[p].data
  }

  /** Following links depends only on the links. */
  lemma {:induction false} ResolveSameLinks(t1: Tree, t2: Tree, ops: PathOps, folder: string, start: string, chain: seq<string>)
    requires SameLinks(t1, t2)
    ensures Resolve(t1, ops, folder, start, chain) == Resolve(t2, ops, folder, start, chain)
    decreases |LinkPaths(t1) - Visited(chain)| + (if IsLink(t1, Current(start, chain)) then 1 else 0)
  {
    var cur := Current(start, chain);
    assert IsLink(t1, cur) <==> IsLink(t2, cur);
    if IsLink(t1, cur) {
      var next := Step(t1, ops, folder, cur);
      assert next == Step(t2, ops, folder, cur);
      if next !in chain {
        FewerUnvisited(LinkPaths(t1), chain, next);
        ResolveSameLinks(t1, t2, ops, folder, start, chain + [next]);
      }
    }
  }

  /** Whether `os.path.exists` holds depends only on the links and the kinds of node. */
  lemma ExistsSameLinks(t1: Tree, t2: Tree, ops: PathOps, path: string)
    requires SameLinks(t1, t2)
    ensures PathExists(t1, ops, path) == PathExists(t2, ops, path)
  {
    ResolveSameLinks(t1, t2, ops, ops.dirname(path), path, []);
  }

  /** Looking a path up gives the same kind of node in trees with the same links. */
  lemma LookupSameShape(t1: Tree, t2: Tree, p: string)
    requires SameLinks(t1, t2)
    ensures Lookup(t1, p).None? <==> Lookup(t2, p).None?
    ensures Lookup(t1, p) == Some(Dir) <==> Lookup(t2, p) == Some(Dir)
    ensures Lookup(t1, p).Some? && Lookup(t1, p).value.File? <==> Lookup(t2, p).Some? && Lookup(t2, p).value.File?
    ensures SameShape(t1, t2) && Lookup(t1, p).Some? && Lookup(t1, p).value.File? ==>
              Lookup(t1, p).value.data == Lookup(t2, p).value.data
  {
  }

  /** Opening, testing for existence and hashing do not depend on permission bits. */
  lemma ReadsSameShape(t1: Tree, t2: Tree, ops: PathOps, sha: seq<byte> -> Digest, path: string)
    requires SameShape(t1, t2)
    ensures Open(t1, ops, path) == Open(t2, ops, path)
    ensures PathExists(t1, ops, path) == PathExists(t2, ops, path)
    ensures HashOf(t1, ops, sha, path) == HashOf(t2, ops, sha, path)
  {
    ResolveSameLinks(t1, t2, ops, ops.dirname(path), path, []);
    ResolveSameLinks(t1, t2, ops, ops.dirname(ops.normpath(path)), ops.normpath(path), []);
    match Resolve(t1, ops, ops.dirname(path), path, [])
    case Cyclic(_, _) =>
    case Resolved(p, _) => LookupSameShape(t1, t2, p);
    match Resolve(t1, ops, ops.dirname(ops.normpath(path)), ops.normpath(path), [])
    case Cyclic(_, _) =>
    case Resolved(p, _) => LookupSameShape(t1, t2, p);
  }
}
