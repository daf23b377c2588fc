/**
 * The checksum-manifest format shared by the files inside and beside a package:
 * one `<hash> *<path>` line per file, in the style of GNU `sha256sum`.
 * `ParseSHA256SumsFile` reads it; `Serialise` writes it the way the packager does.
 */
module Manifest {
  import opened Wrappers
  import opened Text
  import opened OrderedMap

  /** The three ways a line can be rejected (`InvalidHashFormatException`). */
  datatype ParseError =
    | NoSeparator(line: string)
    | DuplicateName(name: string)
    | InvalidHash(line: string)

  /** The parts of one line the parser looks at. */
  datatype LineFields = LineFields(line: string, spacePos: int, hashCode: string, fileName: string)

  /**
   * Splits a line as the source does: strip it, find the first space, take the text
   * before it as the hash and the text from two characters after it as the file name
   * (the marker character in between is never inspected).
   */
  function Fields(raw: string): (f: LineFields)
    ensures f.line == Strip(raw) && -1 <= f.spacePos < |f.line|
    ensures f.spacePos < 0 <==> ' ' !in f.line
    ensures f.spacePos < 0 ==> f.hashCode == "" && f.fileName == ""
    ensures f.spacePos >= 0 ==> f.line[f.spacePos] == ' ' && f.hashCode == f.line[..f.spacePos] && ' ' !in f.hashCode
    ensures f.spacePos >= 0 && f.spacePos + 2 <= |f.line| ==> f.fileName == f.line[f.spacePos + 2..]
    ensures f.spacePos + 2 > |f.line| ==> f.fileName == ""
  {
    var line := Strip(raw);
    var p := Find(line, ' ');
    LineFields(line, p, if p < 0 then "" else line[..p], if p < 0 || p + 2 > |line| then "" else line[p + 2..])
  }

  /** A line the parser accepts, leaving aside duplicates. */
  predicate WellFormed(f: LineFields) {
    f.spacePos >= 0 && |f.hashCode| == 64 && f.fileName != ""
  }

  /** The loop of `ParseSHA256SumsFile` over the remaining lines, starting from the entries `sums`. */
  function ParseLines(fs: seq<LineFields>, sums: map<string, string>): Result<map<string, string>, ParseError>
  {
    if fs == [] then Ok(sums)
    else
      var f := fs[0];
      if f.spacePos < 0 then Err(NoSeparator(f.line))
      else if f.fileName in sums then Err(DuplicateName(f.fileName))
      else if f.hashCode == "" || f.fileName == "" || |f.hashCode| != 64 then Err(InvalidHash(f.line))
      else ParseLines(fs[1..], sums[f.fileName := f.hashCode])
  }

  /** The lines of a file as the parser splits them. */
  function LinesOf(text: string): (fs: seq<LineFields>)
    ensures |fs| == |SplitLines(text)|
    ensures forall i | 0 <= i < |fs| :: fs[i] == Fields(SplitLines(text)[i])
  {
    FieldsOf(SplitLines(text))
  }

  /** The fields of each of the lines `ls`. */
  function FieldsOf(ls: seq<string>): (fs: seq<LineFields>)
    ensures |fs| == |ls|
    ensures forall i | 0 <= i < |fs| :: fs[i] == Fields(ls[i])
  {
    seq(|ls|, i requires 0 <= i < |ls| => Fields(ls[i]))
  }

  /** What `ParseSHA256SumsFile` returns for a file holding `text`. */
  function Parse(text: string): Result<map<string, string>, ParseError> {
    ParseLines(LinesOf(text), map[])
  }

  /** Reads the lines of a manifest into a name-to-hash map, rejecting malformed lines. */
  method ParseSHA256SumsFile(text: string) returns (r: Result<map<string, string>, ParseError>)
    ensures r == Parse(text)
  {
    var lines := SplitLines(text);
    ghost var fs := LinesOf(text);
    var sums: map<string, string> := map[];
    var i := 0;
    while i < |lines|
      invariant 0 <= i <= |lines|
      invariant ParseLines(fs[i..], sums) == Parse(text)
    {
      var line := Strip(lines[i]);
      var spacePos := Find(line, ' ');
      assert fs[i] == Fields(lines[i]);
      assert fs[i].line == line && fs[i].spacePos == spacePos;
      ParseLinesAt(fs, i, sums);
      if spacePos == -1 {
        return Err(NoSeparator(line));
      }
      var hashCode := line[..spacePos];
      var fileName := if spacePos + 2 <= |line| then line[spacePos + 2..] else "";
      assert fs[i].hashCode == hashCode && fs[i].fileName == fileName;
      if fileName in sums {
        return Err(DuplicateName(fileName));
      }
      if hashCode == "" || fileName == "" || |hashCode| != 64 {
        return Err(InvalidHash(line));
      }
      sums := sums[fileName := hashCode];
      i := i + 1;
    }
    return Ok(sums);
  }

  /** Parsing from line `i` looks at that line, then goes on from the next one. */
  lemma ParseLinesAt(fs: seq<LineFields>, i: int, sums: map<string, string>)
    requires 0 <= i < |fs|
    ensures ParseLines(fs[i..], sums) ==
              if fs[i].spacePos < 0 then Err(NoSeparator(fs[i].line))
              else if fs[i].fileName in sums then Err(DuplicateName(fs[i].fileName))
              else if fs[i].hashCode == "" || fs[i].fileName == "" || |fs[i].hashCode| != 64 then Err(InvalidHash(fs[i].line))
              else ParseLines(fs[i + 1..], sums[fs[i].fileName := fs[i].hashCode])
  {
    assert fs[i..][0] == fs[i];
    assert fs[i..][1..] == fs[i + 1..];
  }

  /** The file names of the lines, in order. */
  function Names(fs: seq<LineFields>): (ns: seq<string>)
    ensures |ns| == |fs| && forall i | 0 <= i < |fs| :: ns[i] == fs[i].fileName
  {
    seq(|fs|, i requires 0 <= i < |fs| => fs[i].fileName)
  }

  /** The file names of the lines, as a set. */
  function NameSet(fs: seq<LineFields>): set<string> {
    set i | 0 <= i < |fs| :: fs[i].fileName
  }

  /** Every line is well formed and no file name repeats. */
  predicate Accepted(fs: seq<LineFields>) {
    (forall i | 0 <= i < |fs| :: WellFormed(fs[i])) && Distinct(Names(fs))
  }

  /** The error a rejected line produces: no space first, then a repeated name, then a bad hash. */
  function LineError(f: LineFields, seen: set<string>): ParseError {
    if f.spacePos < 0 then NoSeparator(f.line)
    else if f.fileName in seen then DuplicateName(f.fileName)
    else InvalidHash(f.line)
  }

  /** The parse stops at a rejected first line with that line's error. */
  lemma ParseLinesStop(fs: seq<LineFields>, sums: map<string, string>)
    requires fs != [] && !(WellFormed(fs[0]) && fs[0].fileName !in sums)
    ensures ParseLines(fs, sums) == Err(LineError(fs[0], sums.Keys))
  {
  }

  /** A successful parse accepted every line and saw no name twice. */
  lemma {:induction false} ParseLinesOnlyAccepted(fs: seq<LineFields>, sums: map<string, string>)
    requires ParseLines(fs, sums).Ok?
    ensures Accepted(fs) && forall i | 0 <= i < |fs| :: fs[i].fileName !in sums
  {
    if fs != [] {
      var f, rest := fs[0], fs[1..];
      if !(WellFormed(f) && f.fileName !in sums) {
        ParseLinesStop(fs, sums);
      }
      var sums' := sums[f.fileName := f.hashCode];
      ParseLinesOnlyAccepted(rest, sums');
      var ns, nr := Names(fs), Names(rest);
      forall i | 0 <= i < |fs| ensures WellFormed(fs[i]) && ns[i] !in sums {
        if i > 0 { assert fs[i] == rest[i - 1]; }
      }
      forall i, j | 0 <= i < j < |fs| ensures ns[i] != ns[j] {
        assert ns[j] == nr[j - 1];
        if i > 0 { assert ns[i] == nr[i - 1]; }
        else { assert nr[j - 1] !in sums'; }
      }
    }
  }

  /** Lines that are all well formed, with names new and distinct, parse. */
  lemma {:induction false} ParseLinesAcceptsAll(fs: seq<LineFields>, sums: map<string, string>)
    requires Accepted(fs) && forall i | 0 <= i < |fs| :: fs[i].fileName !in sums
    ensures ParseLines(fs, sums).Ok?
  {
    if fs != [] {
      var f, rest := fs[0], fs[1..];
      var sums' := sums[f.fileName := f.hashCode];
      var ns, nr := Names(fs), Names(rest);
      assert WellFormed(fs[0]);
      forall i | 0 <= i < |rest| ensures WellFormed(rest[i]) && nr[i] !in sums' {
        assert rest[i] == fs[i + 1];
        assert ns[0] != ns[i + 1];
      }
      forall i, j | 0 <= i < j < |rest| ensures nr[i] != nr[j] {
        assert nr[i] == ns[i + 1] && nr[j] == ns[j + 1];
      }
      ParseLinesAcceptsAll(rest, sums');
    }
  }

  /** The parse succeeds exactly when every line is well formed and every name is new. */
  lemma ParseLinesOk(fs: seq<LineFields>, sums: map<string, string>)
    ensures ParseLines(fs, sums).Ok? <==>
              Accepted(fs) && forall i | 0 <= i < |fs| :: fs[i].fileName !in sums
  {
    if ParseLines(fs, sums).Ok? {
      ParseLinesOnlyAccepted(fs, sums);
    }
    if Accepted(fs) && forall i | 0 <= i < |fs| :: fs[i].fileName !in sums {
      ParseLinesAcceptsAll(fs, sums);
    }
  }

  /** The names of a nonempty run of lines: the first line's name and those of the rest. */
  lemma NameSetCons(fs: seq<LineFields>)
    requires fs != []
    ensures NameSet(fs) == {fs[0].fileName} + NameSet(fs[1..])
  {
    var rest := fs[1..];
    forall x | x in NameSet(fs) ensures x in {fs[0].fileName} + NameSet(rest) {
      var i :| 0 <= i < |fs| && x == fs[i].fileName;
      if i > 0 { assert fs[i] == rest[i - 1]; }
    }
    forall x | x in NameSet(rest) ensures x in NameSet(fs) {
      var i :| 0 <= i < |rest| && x == rest[i].fileName;
      assert rest[i] == fs[i + 1];
    }
  }

  /** A successful parse holds the earlier entries plus one entry per line, name to hash. */
  lemma {:induction false} ParseLinesValue(fs: seq<LineFields>, sums: map<string, string>)
    requires ParseLines(fs, sums).Ok?
    ensures var m := ParseLines(fs, sums).value;
              && m.Keys == sums.Keys + NameSet(fs)
              && (forall k | k in sums :: m[k] == sums[k])
              && (forall i | 0 <= i < |fs| :: m[fs[i].fileName] == fs[i].hashCode)
  {
    if fs != [] {
      var f, rest := fs[0], fs[1..];
      if !(WellFormed(f) && f.fileName !in sums) {
        ParseLinesStop(fs, sums);
      }
      var sums' := sums[f.fileName := f.hashCode];
      assert ParseLines(fs, sums) == ParseLines(rest, sums');
      ParseLinesValue(rest, sums');
      NameSetCons(fs);
      var m := ParseLines(fs, sums).value;
      assert m[f.fileName] == sums'[f.fileName];
      forall i | 0 <= i < |fs| ensures m[fs[i].fileName] == fs[i].hashCode {
        if i > 0 { assert fs[i] == rest[i - 1]; }
      }
    }
  }

  /** Distinct names make as many names as lines. */
  lemma {:induction false} NameSetSize(fs: seq<LineFields>)
    requires Distinct(Names(fs))
    ensures |NameSet(fs)| == |fs|
  {
    if fs != [] {
      var ns, nr := Names(fs), Names(fs[1..]);
      forall i, j | 0 <= i < j < |nr| ensures nr[i] != nr[j] {
        assert nr[i] == ns[i + 1] && nr[j] == ns[j + 1];
      }
      NameSetSize(fs[1..]);
      NameSetCons(fs);
      forall i | 0 <= i < |fs| - 1 ensures fs[1..][i].fileName != fs[0].fileName {
        assert ns[0] != ns[i + 1];
      }
    }
  }

  /** A successful parse has one entry per line. */
  lemma ParseLinesSize(fs: seq<LineFields>)
    requires ParseLines(fs, map[]).Ok?
    ensures |ParseLines(fs, map[]).value| == |fs|
  {
    ParseLinesOk(fs, map[]);
    ParseLinesValue(fs, map[]);
    NameSetSize(fs);
    assert ParseLines(fs, map[]).value.Keys == NameSet(fs);
  }

  /** The lines before line `k` parse, and line `k` is then rejected. */
  predicate StopsAt(fs: seq<LineFields>, sums: map<string, string>, k: nat)
  {
    && k < |fs|
    && ParseLines(fs[..k], sums).Ok?
    && !(WellFormed(fs[k]) && fs[k].fileName !in ParseLines(fs[..k], sums).value)
  }

  /** Parsing one more line after the first is parsing the rest from the updated entries. */
  lemma ParseLinesCons(f: LineFields, fs: seq<LineFields>, sums: map<string, string>)
    requires WellFormed(f) && f.fileName !in sums
    ensures ParseLines([f] + fs, sums) == ParseLines(fs, sums[f.fileName := f.hashCode])
  {
    assert ([f] + fs)[1..] == fs;
  }

  /**
   * A failed parse stops at a line before which everything parsed and which is
   * rejected; the error is that line's, checked in the order the source checks.
   */
  lemma {:induction false} ParseLinesFirstError(fs: seq<LineFields>, sums: map<string, string>)
    requires ParseLines(fs, sums).Err?
    ensures exists k: nat :: StopsAt(fs, sums, k) &&
              ParseLines(fs, sums).error == LineError(fs[k], ParseLines(fs[..k], sums).value.Keys)
  {
    var f, rest := fs[0], fs[1..];
    assert fs[..0] == [];
    if WellFormed(f) && f.fileName !in sums {
      var sums' := sums[f.fileName := f.hashCode];
      assert ParseLines(fs, sums) == ParseLines(rest, sums');
      ParseLinesFirstError(rest, sums');
      var k: nat :| StopsAt(rest, sums', k) &&
               ParseLines(rest, sums').error == LineError(rest[k], ParseLines(rest[..k], sums').value.Keys);
      assert fs[..k + 1] == [f] + rest[..k];
      ParseLinesCons(f, rest[..k], sums);
      assert fs[k + 1] == rest[k];
      assert StopsAt(fs, sums, k + 1);
    } else {
      ParseLinesStop(fs, sums);
      assert StopsAt(fs, sums, 0);
    }
  }

  /** One manifest line as the packager writes it. */
  function FormatLine(name: string, hash: string): string {
    hash + " *" + name + "\n"
  }

  /** The manifest lines of a dictionary, in insertion order. */
  function FormatLines(d: Dict<string, string>): (ls: seq<string>)
    requires d.Valid()
    ensures |ls| == |d.keys|
    ensures forall i | 0 <= i < |ls| :: ls[i] == FormatLine(d.keys[i], d.items[d.keys[i]])
  {
    seq(|d.keys|, i requires 0 <= i < |d.keys| => FormatLine(d.keys[i], d.items[d.keys[i]]))
  }

  /** The manifest text written for `d`. */
  function Serialise(d: Dict<string, string>): string
    requires d.Valid()
  {
    Concat(FormatLines(d))
  }

  /** A path the format can carry: non-empty, on one line, not ending in whitespace. */
  predicate IsManifestPath(p: string) {
    p != [] && '\n' !in p && !IsSpace(p[|p| - 1])
  }

  /** A hash text the format can carry: non-empty and free of whitespace. */
  predicate IsHashText(h: string) {
    h != [] && forall i | 0 <= i < |h| :: !IsSpace(h[i])
  }

  lemma StripFormatted(name: string, hash: string)
    requires IsManifestPath(name) && IsHashText(hash)
    ensures Strip(FormatLine(name, hash)) == hash + " *" + name
  {
    var x := hash + " *" + name;
    assert FormatLine(name, hash) == x + "\n";
    assert x[0] == hash[0] && x[|x| - 1] == name[|name| - 1];
    StripLine(x);
  }

  lemma FindFormatted(name: string, hash: string)
    requires IsHashText(hash)
    ensures Find(hash + " *" + name, ' ') == |hash|
  {
    var x := hash + " *" + name;
    assert x[|hash|] == ' ' && x[..|hash|] == hash;
    FindUnique(x, ' ', |hash|);
  }

  lemma FormattedIsLine(name: string, hash: string)
    requires IsManifestPath(name) && IsHashText(hash)
    ensures IsLine(FormatLine(name, hash)) && FormatLine(name, hash)[|FormatLine(name, hash)| - 1] == '\n'
  {
    var x := hash + " *" + name;
    var l := FormatLine(name, hash);
    assert l[..|l| - 1] == x;
    forall i | 0 <= i < |x| ensures x[i] != '\n' {
      if i < |hash| { assert x[i] == hash[i]; }
      else if i >= |hash| + 2 { assert x[i] == name[i - |hash| - 2]; }
    }
  }

  lemma FormattedHash(name: string, hash: string)
    requires IsManifestPath(name) && IsHashText(hash)
    ensures Fields(FormatLine(name, hash)).hashCode == hash
  {
    StripFormatted(name, hash);
    FindFormatted(name, hash);
    assert (hash + " *" + name)[..|hash|] == hash;
  }

  lemma FormattedName(name: string, hash: string)
    requires IsManifestPath(name) && IsHashText(hash)
    ensures Fields(FormatLine(name, hash)).fileName == name
  {
    StripFormatted(name, hash);
    FindFormatted(name, hash);
    assert (hash + " *" + name)[|hash| + 2..] == name;
  }

  /** How the parser reads back a line written by `FormatLine`. */
  lemma FormattedLine(name: string, hash: string)
    requires IsManifestPath(name) && IsHashText(hash)
    ensures Fields(FormatLine(name, hash)) == LineFields(hash + " *" + name, |hash|, hash, name)
  {
    StripFormatted(name, hash);
    FindFormatted(name, hash);
    FormattedHash(name, hash);
    FormattedName(name, hash);
  }

  /** The parser's view of the lines `Serialise` writes for `d`. */
  function WrittenFields(d: Dict<string, string>): (fs: seq<LineFields>)
    requires d.Valid()
    ensures |fs| == |d.keys|
    ensures forall i | 0 <= i < |fs| ::
              fs[i] == LineFields(d.items[d.keys[i]] + " *" + d.keys[i], |d.items[d.keys[i]]|, d.items[d.keys[i]], d.keys[i])
  {
    seq(|d.keys|, i requires 0 <= i < |d.keys| =>
      LineFields(d.items[d.keys[i]] + " *" + d.keys[i], |d.items[d.keys[i]]|, d.items[d.keys[i]], d.keys[i]))
  }

  /** The serialised text splits back into the written lines. */
  lemma SerialisedLines(d: Dict<string, string>)
    requires d.Valid()
    requires forall k | k in d.items :: IsManifestPath(k) && IsHashText(d.items[k])
    ensures SplitLines(Serialise(d)) == FormatLines(d)
  {
    var ls := FormatLines(d);
    forall i | 0 <= i < |ls| ensures IsLine(ls[i]) && ls[i][|ls[i]| - 1] == '\n' {
      FormattedIsLine(d.keys[i], d.items[d.keys[i]]);
    }
    SplitConcat(ls);
  }

  /** The parser sees in the serialised text exactly the written fields. */
  lemma SerialisedFields(d: Dict<string, string>)
    requires d.Valid()
    requires forall k | k in d.items :: IsManifestPath(k) && IsHashText(d.items[k])
    ensures LinesOf(Serialise(d)) == WrittenFields(d)
  {
    SerialisedLines(d);
    WrittenLineFields(d);
  }

  /** The fields of the written lines are the written fields. */
  lemma WrittenLineFields(d: Dict<string, string>)
    requires d.Valid()
    requires forall k | k in d.items :: IsManifestPath(k) && IsHashText(d.items[k])
    ensures FieldsOf(FormatLines(d)) == WrittenFields(d)
  {
    var ls := FormatLines(d);
    forall i | 0 <= i < |ls| ensures Fields(ls[i]) == WrittenFields(d)[i] {
      FormattedLine(d.keys[i], d.items[d.keys[i]]);
    }
  }

  /** The written lines are acceptable exactly when every hash is 64 characters long. */
  lemma WrittenAccepted(d: Dict<string, string>)
    requires d.Valid()
    requires forall k | k in d.items :: k != ""
    ensures Accepted(WrittenFields(d)) <==> forall k | k in d.items :: |d.items[k]| == 64
  {
    var fs := WrittenFields(d);
    assert Names(fs) == d.keys;
    if forall k | k in d.items :: |d.items[k]| == 64 {
      forall i | 0 <= i < |fs| ensures WellFormed(fs[i]) {
        assert d.keys[i] in d.items;
      }
    }
    if Accepted(fs) {
      forall k | k in d.items ensures |d.items[k]| == 64 {
        var i :| 0 <= i < |d.keys| && d.keys[i] == k;
        assert WellFormed(fs[i]);
      }
    }
  }

  /** A successful parse of the written lines gives back the dictionary's entries. */
  lemma WrittenValue(d: Dict<string, string>)
    requires d.Valid()
    requires ParseLines(WrittenFields(d), map[]).Ok?
    ensures ParseLines(WrittenFields(d), map[]).value == d.items
  {
    var fs := WrittenFields(d);
    ParseLinesValue(fs, map[]);
    var m := ParseLines(fs, map[]).value;
    forall k | k in m ensures k in d.items {
      var i :| 0 <= i < |fs| && k == fs[i].fileName;
    }
    forall k | k in d.items ensures k in m && m[k] == d.items[k] {
      var i :| 0 <= i < |d.keys| && d.keys[i] == k;
      assert fs[i].fileName == k;
    }
  }

  /** Parsing the written fields: success exactly when all hashes are 64 long, giving back the entries. */
  lemma ParseWrittenFields(d: Dict<string, string>)
    requires d.Valid()
    requires forall k | k in d.items :: k != ""
    ensures ParseLines(WrittenFields(d), map[]).Ok? <==> forall k | k in d.items :: |d.items[k]| == 64
    ensures ParseLines(WrittenFields(d), map[]).Ok? ==> ParseLines(WrittenFields(d), map[]).value == d.items
  {
    ParseLinesOk(WrittenFields(d), map[]);
    WrittenAccepted(d);
    if ParseLines(WrittenFields(d), map[]).Ok? {
      WrittenValue(d);
    }
  }

  /**
   * Reading back what `Serialise` wrote: the parse succeeds exactly when every hash
   * is 64 characters long, and then gives back the dictionary's entries.
   */
  lemma SerialiseRoundTrip(d: Dict<string, string>)
    requires d.Valid()
    requires forall k | k in d.items :: IsManifestPath(k) && IsHashText(d.items[k])
    ensures Parse(Serialise(d)).Ok? <==> forall k | k in d.items :: |d.items[k]| == 64
    ensures Parse(Serialise(d)).Ok? ==> Parse(Serialise(d)).value == d.items
  {
    SerialisedFields(d);
    ParseWrittenFields(d);
  }

  /** A single terminated line is read as one line. */
  lemma OneLine(l: string)
    requires IsLine(l) && l[|l| - 1] == '\n'
    ensures LinesOf(l) == [Fields(l)]
  {
    SplitOne(l);
  }

  /** A single well-formed line parses to its one entry. */
  lemma ParseOne(f: LineFields)
    requires WellFormed(f)
    ensures ParseLines([f], map[]) == Ok(map[f.fileName := f.hashCode])
  {
    assert [f][1..] == [];
  }

  /** The one-line archive hash file reads back as its single entry. */
  lemma SingleLineRoundTrip(name: string, hash: string)
    requires IsManifestPath(name) && |hash| == 64 && IsHashText(hash)
    ensures Parse(FormatLine(name, hash)) == Ok(map[name := hash])
  {
    FormattedIsLine(name, hash);
    FormattedLine(name, hash);
    OneLine(FormatLine(name, hash));
    ParseOne(Fields(FormatLine(name, hash)));
  }
}
