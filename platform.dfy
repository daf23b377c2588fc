/**
 * What the integrity engine gets from its surroundings: bytes, SHA-256 digests,
 * parsed JSON, the exceptions Python raises, and the library routines it calls
 * (path manipulation, hashing, tar/LZMA, UTF-8, JSON) as uninterpreted functions.
 */
module Platform {
  import opened Wrappers

  newtype byte = x: int | 0 <= x < 256

  predicate IsHexDigit(c: char) {
    '0' <= c <= '9' || 'a' <= c <= 'f'
  }

  /** What `hashlib.sha256().hexdigest()` returns: 64 lower-case hexadecimal digits. */
  type Digest = s: string | |s| == 64 && forall i | 0 <= i < |s| :: IsHexDigit(s[i])
    witness seq(64, _ => '0')

  /** A JSON value as `json.load` returns it (integer numbers only; floating-point numbers are not modelled). */
  datatype JsonValue =
    | JNull
    | JBool(b: bool)
    | JNumber(n: int)
    | JString(s: string)
    | JArray(items: seq<JsonValue>)
    | JObject(fields: map<string, JsonValue>)

  /** The Python exceptions that can escape from the engine's functions. */
  datatype Exception =
    | FileNotFoundError
    | IsADirectoryError
    | SymlinkLoopError
    | KeyError
    | TypeError
    | AttributeError
    | UnicodeDecodeError
    | JsonDecodeError
    | TarReadError

  /** `os.path` routines, left uninterpreted. */
  datatype PathOps = PathOps(
    normpath: string -> string,
    dirname: string -> string,
    join: (string, string) -> string,
    isabs: string -> bool,
    realpath: string -> string)

  /**
   * A tar member with its permission bits (`tarinfo.mode`): a regular file with its
   * contents, or a symbolic link with its target as `os.readlink` gave it.
   */
  datatype Member =
    | RegularMember(data: seq<byte>, mode: bv32)
    | LinkMember(target: string, mode: bv32)

  /** A tar archive: member name to member. */
  type Archive = map<string, Member>

  /**
   * Library routines, left uninterpreted: hashing, tar/LZMA, UTF-8, `json.loads`, and
   * the order in which the interpreter iterates over a set of strings, and the order in
   * which `os.walk` lists the files of a tree.
   */
  datatype Tools = Tools(
    sha256: seq<byte> -> Digest,
    tarXz: Archive -> seq<byte>,
    untarXz: seq<byte> -> Option<Archive>,
    utf8Encode: string -> seq<byte>,
    utf8Decode: seq<byte> -> Option<string>,
    parseJson: string -> Option<JsonValue>,
    setOrder: set<string> -> seq<string>,
    listOrder: set<string> -> seq<string>)

  /** Encoding text and then decoding it gives the text back. */
  ghost predicate Utf8RoundTrips(tools: Tools) {
    forall s: string {:trigger tools.utf8Encode(s)} :: tools.utf8Decode(tools.utf8Encode(s)) == Some(s)
  }

  /** Extracting an archive that was written gives back the members that were added. */
  ghost predicate TarRoundTrips(tools: Tools) {
    forall a: Archive {:trigger tools.tarXz(a)} :: tools.untarXz(tools.tarXz(a)) == Some(a)
  }

  /** A sequence lists every element of a set exactly once. */
  predicate Enumerates(s: seq<string>, elems: set<string>) {
    && |s| == |elems|
    && (forall i | 0 <= i < |s| :: s[i] in elems)
    && (forall x | x in elems :: x in s)
  }

  /** Iterating over a set, and listing a tree, visit each element once. */
  ghost predicate OrdersEnumerate(tools: Tools) {
    && (forall elems: set<string> {:trigger tools.setOrder(elems)} :: Enumerates(tools.setOrder(elems), elems))
    && (forall elems: set<string> {:trigger tools.listOrder(elems)} :: Enumerates(tools.listOrder(elems), elems))
  }
}
