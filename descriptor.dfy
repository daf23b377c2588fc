/**
 * The package descriptor `PackageInfo.json` and the names of the files a published
 * package consists of.
 */
module Descriptor {
  import opened Wrappers
  import opened Platform
  import opened OrderedMap
  import opened Hasher

  const DescriptorName: string := "PackageInfo.json"
  const RootHashFileName: string := "SHA256SUMS"
  const PackageExtension: string := ".tar.xz"
  const PackageHashExtension: string := ".tar.xz.SHA256SUMS"
  const ContentHashExtension: string := ".tar.xz.content.SHA256SUMS"

  /** The fields every descriptor must carry, in the order they are checked. */
  const RequiredFields: seq<string> := ["URL", "PackageName", "License", "LicenseFile"]

  /** Python truthiness of a JSON value. */
  predicate Truthy(v: JsonValue) {
    match v
    case JNull => false
    case JBool(b) => b
    case JNumber(n) => n != 0
    case JString(s) => s != ""
    case JArray(items) => items != []
    case JObject(fields) => fields != map[]
  }

  /** `len(v)`, for the values that have one. */
  function Length(v: JsonValue): Option<nat> {
    match v
    case JString(s) => Some(|s|)
    case JArray(items) => Some(|items|)
    case JObject(fields) => Some(|fields|)
    case _ => None
  }

  /**
   * The check of one required field `f` on the loaded document: `f not in data`, then
   * `not data[f]`, then `len(data[f]) < 1`. On a document that is not an object the
   * membership test is Python's on lists and strings, and indexing them by a string
   * raises `TypeError`; on a number, a boolean or `null` the test itself raises it.
   */
  function CheckField(data: JsonValue, f: string): Option<Exception> {
    match data
    case JObject(fields) =>
      if f !in fields then Some(KeyError)
      else if !Truthy(fields[f]) then Some(KeyError)
      else if Length(fields[f]).None? then Some(TypeError)
      else if Length(fields[f]).value < 1 then Some(KeyError)
      else None
    case JArray(items) => if JString(f) in items then Some(TypeError) else Some(KeyError)
    case JString(s) => if Contains(s, f) then Some(TypeError) else Some(KeyError)
    case _ => Some(TypeError)
  }

  /**
   * One field check passes exactly on an object whose field is present, truthy and has
   * a length; any failure is `KeyError` or `TypeError`.
   */
  lemma CheckFieldPasses(data: JsonValue, f: string)
    ensures CheckField(data, f).None? <==> data.JObject? && FieldPresent(data.fields, f)
    ensures CheckField(data, f).Some? ==> CheckField(data, f).value in {KeyError, TypeError}
  {
    if data.JObject? && FieldPresent(data.fields, f) {
      TruthyLength(data.fields[f]);
    }
  }

  /** `f` occurs in `s` as a substring (Python's `f in s` on strings). */
  predicate Contains(s: string, f: string) {
    exists i | 0 <= i <= |s| - |f| :: OccursAt(s, f, i)
  }

  /** `f` occurs in `s` starting at index `i`. */
  predicate OccursAt(s: string, f: string, i: int) {
    0 <= i && i + |f| <= |s| && s[i..i + |f|] == f
  }

  /** The checks of `ReadPackageInfo` on the fields `fs`, in order; the first failure raises. */
  function CheckFields(data: JsonValue, fs: seq<string>): Option<Exception> {
    if fs == [] then None
    else if CheckField(data, fs[0]).Some? then CheckField(data, fs[0])
    else CheckFields(data, fs[1..])
  }

  /** A required field that is present, truthy and has a length. */
  predicate FieldPresent(fields: map<string, JsonValue>, f: string) {
    f in fields && Truthy(fields[f]) && Length(fields[f]).Some?
  }

  /** A document `ReadPackageInfo` accepts: an object carrying every required field. */
  predicate Complete(data: JsonValue) {
    data.JObject? && forall i | 0 <= i < |RequiredFields| :: FieldPresent(data.fields, RequiredFields[i])
  }

  /** `ReadPackageInfo` on the document as loaded: the document itself, or the exception raised. */
  function CheckInfo(data: JsonValue): Result<JsonValue, Exception> {
    var failure := CheckFields(data, RequiredFields);
    if failure.Some? then Err(failure.value) else Ok(data)
  }

  /** `ReadPackageInfo(path)`: open, decode as UTF-8, parse as JSON, then check the fields. */
  function ReadPackageInfo(t: Tree, ops: PathOps, tools: Tools, path: string): (r: Result<JsonValue, Exception>)
    ensures r.Ok? ==> Complete(r.value)
    ensures r.Err? && Open(t, ops, path).Err? ==> r.error == Open(t, ops, path).error
  {
    var bytes := Open(t, ops, path);
    if bytes.Err? then Err(bytes.error)
    else
      var text := tools.utf8Decode(bytes.value);
      if text.None? then Err(UnicodeDecodeError)
      else
        var data := tools.parseJson(text.value);
        if data.None? then Err(JsonDecodeError)
        else
          CheckInfoOk(data.value);
          CheckInfo(data.value)
  }

  /** A truthy value with a length is at least one long. */
  lemma TruthyLength(v: JsonValue)
    requires Truthy(v) && Length(v).Some?
    ensures Length(v).value >= 1
  {
  }

  /** The checks on fields `fs` pass exactly when each of them is present, truthy and has a length. */
  lemma {:induction false} CheckFieldsNone(data: JsonValue, fs: seq<string>)
    requires data.JObject?
    ensures CheckFields(data, fs).None? <==> forall i | 0 <= i < |fs| :: FieldPresent(data.fields, fs[i])
  {
    if fs != [] {
      CheckFieldsNone(data, fs[1..]);
      if FieldPresent(data.fields, fs[0]) {
        TruthyLength(data.fields[fs[0]]);
      }
      if forall i | 0 <= i < |fs| - 1 :: FieldPresent(data.fields, fs[1..][i]) {
        forall i | 1 <= i < |fs| ensures FieldPresent(data.fields, fs[i]) {
          assert fs[1..][i - 1] == fs[i];
        }
      }
      if forall i | 0 <= i < |fs| :: FieldPresent(data.fields, fs[i]) {
        forall i | 0 <= i < |fs| - 1 ensures FieldPresent(data.fields, fs[1..][i]) {
          assert fs[1..][i] == fs[i + 1];
        }
      }
    }
  }

  /** The document is accepted, unchanged, exactly when it is complete. */
  lemma CheckInfoOk(data: JsonValue)
    ensures CheckInfo(data).Ok? <==> Complete(data)
    ensures CheckInfo(data).Ok? ==> CheckInfo(data).value == data
  {
    if data.JObject? {
      CheckFieldsNone(data, RequiredFields);
    } else {
      assert CheckField(data, RequiredFields[0]).Some?;
    }
  }

  /** A rejected document raises `KeyError` or `TypeError`, and the latter always when it is a scalar. */
  lemma CheckInfoErrors(data: JsonValue)
    ensures CheckInfo(data).Err? ==> CheckInfo(data).error in {KeyError, TypeError}
    ensures data.JNull? || data.JBool? || data.JNumber? ==> CheckInfo(data) == Err(TypeError)
  {
    CheckFieldsKinds(data, RequiredFields);
  }

  /** Every failure of the field checks is `KeyError` or `TypeError`. */
  lemma {:induction false} CheckFieldsKinds(data: JsonValue, fs: seq<string>)
    ensures CheckFields(data, fs).Some? ==> CheckFields(data, fs).value in {KeyError, TypeError}
  {
    if fs != [] {
      CheckFieldsKinds(data, fs[1..]);
    }
  }

  /** A required field that is missing, or is `null`, `false`, `0` or empty, raises `KeyError` when all fields before it pass. */
  lemma MissingFieldKeyError(fields: map<string, JsonValue>, k: nat)
    requires k < |RequiredFields|
    requires forall i | 0 <= i < k :: FieldPresent(fields, RequiredFields[i])
    requires RequiredFields[k] !in fields || !Truthy(fields[RequiredFields[k]])
    ensures CheckInfo(JObject(fields)) == Err(KeyError)
  {
    var data := JObject(fields);
    var fs := RequiredFields;
    forall i | 0 <= i < k ensures CheckField(data, fs[i]).None? {
      TruthyLength(fields[fs[i]]);
    }
    assert CheckFields(data, fs[k..]) == Some(KeyError);
    CheckFieldsSkip(data, fs, k);
  }

  /** A required field holding a non-zero number or `true` raises `TypeError` when all fields before it pass. */
  lemma NoLengthTypeError(fields: map<string, JsonValue>, k: nat)
    requires k < |RequiredFields|
    requires forall i | 0 <= i < k :: FieldPresent(fields, RequiredFields[i])
    requires RequiredFields[k] in fields && Truthy(fields[RequiredFields[k]])
    requires fields[RequiredFields[k]].JNumber? || fields[RequiredFields[k]].JBool?
    ensures CheckInfo(JObject(fields)) == Err(TypeError)
  {
    var data := JObject(fields);
    var fs := RequiredFields;
    forall i | 0 <= i < k ensures CheckField(data, fs[i]).None? {
      TruthyLength(fields[fs[i]]);
    }
    assert CheckFields(data, fs[k..]) == Some(TypeError);
    CheckFieldsSkip(data, fs, k);
  }

  /** The field checks skip over a run of fields that all pass. */
  lemma {:induction false} CheckFieldsSkip(data: JsonValue, fs: seq<string>, k: nat)
    requires k <= |fs|
    requires forall i | 0 <= i < k :: CheckField(data, fs[i]).None?
    ensures CheckFields(data, fs) == CheckFields(data, fs[k..])
  {
    if k > 0 {
      assert CheckField(data, fs[0]).None?;
      forall i | 0 <= i < k - 1 ensures CheckField(data, fs[1..][i]).None? {
        assert fs[1..][i] == fs[i + 1];
      }
      CheckFieldsSkip(data, fs[1..], k - 1);
      assert fs[1..][k - 1..] == fs[k..];
    }
  }

  /** `GetPackageParts`: the four files of a published package, the descriptor copy last. */
  function PackageParts(name: string): (parts: seq<string>)
    ensures |parts| == 4
    ensures forall i | 0 <= i < 4 :: |parts[i]| > |name| && parts[i][..|name|] == name
    ensures Distinct(parts)
    ensures parts[0] == name + PackageExtension && parts[3] == name + "." + DescriptorName
  {
    var parts := [name + PackageExtension, name + PackageHashExtension, name + ContentHashExtension,
                  name + "." + DescriptorName];
    assert forall i | 0 <= i < 4 :: parts[i][..|name|] == name;
    assert parts[0][|name| + 7..] == [] && parts[1][|name| + 7..] != [] && parts[2][|name| + 7..] != [];
    assert parts[1][|name| + 8] == 'S' && parts[2][|name| + 8] == 'c';
    assert parts[3][|name| + 1] == 'P';
    assert parts[0][|name| + 1] == 't' && parts[1][|name| + 1] == 't' && parts[2][|name| + 1] == 't';
    parts
  }
}
