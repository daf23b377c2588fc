/**
 * The few Python string operations the integrity engine relies on:
 * `str.strip()`, `str.find()`, `readlines()` and `str.lower()` (ASCII part).
 */
module Text {

  /** The characters for which Python's `str.isspace()` holds, i.e. what `strip()` removes. */
  predicate IsSpace(c: char) {
    || c == ' '
    || ('\t' <= c <= '\r')
    || ('\U{1c}' <= c <= '\U{1f}')
    || c == '\U{85}' || c == '\U{a0}' || c == '\U{1680}'
    || ('\U{2000}' <= c <= '\U{200a}')
    || c == '\U{2028}' || c == '\U{2029}' || c == '\U{202f}' || c == '\U{205f}' || c == '\U{3000}'
  }

  /** Removes leading whitespace. */
  function LStrip(s: string): (r: string)
    ensures |r| <= |s| && r == s[|s| - |r|..]
    ensures r == [] || !IsSpace(r[0])
  {
    if s != [] && IsSpace(s[0]) then LStrip(s[1..]) else s
  }

  /** Removes trailing whitespace. */
  function RStrip(s: string): (r: string)
    ensures |r| <= |s| && r == s[..|r|]
    ensures r == [] || !IsSpace(r[|r| - 1])
  {
    if s != [] && IsSpace(s[|s| - 1]) then RStrip(s[..|s| - 1]) else s
  }

  /** What `LStrip` cuts off is only whitespace. */
  lemma {:induction false} LStripCut(s: string)
    ensures forall k | 0 <= k < |s| - |LStrip(s)| :: IsSpace(s[k])
  {
    if s != [] && IsSpace(s[0]) {
      LStripCut(s[1..]);
      forall k | 1 <= k < |s| - |LStrip(s)| ensures IsSpace(s[k]) {
        assert s[k] == s[1..][k - 1];
      }
    }
  }

  /** What `RStrip` cuts off is only whitespace. */
  lemma {:induction false} RStripCut(s: string)
    ensures forall k | |RStrip(s)| <= k < |s| :: IsSpace(s[k])
  {
    if s != [] && IsSpace(s[|s| - 1]) {
      RStripCut(s[..|s| - 1]);
      forall k | |RStrip(s)| <= k < |s| - 1 ensures IsSpace(s[k]) {
        assert s[k] == s[..|s| - 1][k];
      }
    }
  }

  /** Python's `s.strip()`: whitespace removed at both ends. */
  function Strip(s: string): (r: string)
    ensures |r| <= |s|
    ensures r == [] || (!IsSpace(r[0]) && !IsSpace(r[|r| - 1]))
  {
    RStrip(LStrip(s))
  }

  /**
   * `Strip` keeps the infix of its input that starts after the leading whitespace, and
   * what it cuts off before and after that infix is only whitespace.
   */
  lemma StripInfix(s: string)
    ensures |s| - |LStrip(s)| + |Strip(s)| <= |s|
    ensures Strip(s) == s[|s| - |LStrip(s)|..|s| - |LStrip(s)| + |Strip(s)|]
    ensures forall k | 0 <= k < |s| - |LStrip(s)| :: IsSpace(s[k])
    ensures forall k | |s| - |LStrip(s)| + |Strip(s)| <= k < |s| :: IsSpace(s[k])
  {
    StripSlice(s);
    LStripCut(s);
    StripTail(s);
  }

  /** `Strip(s)` is the prefix of `LStrip(s)` that `RStrip` keeps. */
  lemma StripSlice(s: string)
    ensures |s| - |LStrip(s)| + |Strip(s)| <= |s|
    ensures Strip(s) == s[|s| - |LStrip(s)|..|s| - |LStrip(s)| + |Strip(s)|]
  {
    var l := LStrip(s);
    var r := RStrip(l);
    var i := |s| - |l|;
    assert l == s[i..] && r == l[..|r|] && Strip(s) == r;
    PrefixOfSuffix(s, i, |r|);
  }

  /** What `Strip` cuts off after the infix it keeps is only whitespace. */
  lemma StripTail(s: string)
    ensures forall k | |s| - |LStrip(s)| + |Strip(s)| <= k < |s| :: IsSpace(s[k])
  {
    var l := LStrip(s);
    RStripCut(l);
    SpaceTail(s, |s| - |l|, |RStrip(l)|);
  }

  /** Whitespace that ends the suffix of `s` from `i`, after its first `n` characters, ends `s`. */
  lemma SpaceTail(s: string, i: nat, n: nat)
    requires i + n <= |s|
    requires forall k | n <= k < |s| - i :: IsSpace(s[i..][k])
    ensures forall k | i + n <= k < |s| :: IsSpace(s[k])
  {
    forall k | i + n <= k < |s| ensures IsSpace(s[k]) {
      assert s[k] == s[i..][k - i];
    }
  }

  /** Taking `n` characters of the suffix from `i` is slicing from `i` to `i + n`. */
  lemma PrefixOfSuffix(s: string, i: nat, n: nat)
    requires i + n <= |s|
    ensures s[i..][..n] == s[i..i + n]
  {
  }

  /** Stripping a line that starts with a non-space and ends with one newline gives the line without it. */
  lemma StripLine(x: string)
    requires x != [] && !IsSpace(x[0]) && !IsSpace(x[|x| - 1])
    ensures Strip(x + "\n") == x
  {
    var s := x + "\n";
    assert LStrip(s) == s;
    assert s[..|s| - 1] == x;
    assert RStrip(x) == x;
  }

  /** Python's `s.find(c)`: the first index of `c` in `s`, or -1. */
  function Find(s: string, c: char): (r: int)
    ensures -1 <= r < |s|
    ensures r == -1 <==> c !in s
    ensures 0 <= r ==> s[r] == c && c !in s[..r]
  {
    if s == [] then -1
    else if s[0] == c then 0
    else
      var k := Find(s[1..], c);
      assert s == [s[0]] + s[1..];
      if k < 0 then -1
      else
        assert s[..k + 1] == [s[0]] + s[1..][..k];
        k + 1
  }

  /** Any index with the two properties of `Find`'s result is that result. */
  lemma FindUnique(s: string, c: char, k: nat)
    requires k < |s| && s[k] == c && c !in s[..k]
    ensures Find(s, c) == k
  {
    assert s[..k + 1][k] == c;
  }

  /** Concatenation of a list of strings (`''.join(ls)`). */
  function Concat(ls: seq<string>): string
  {
    if ls == [] then "" else ls[0] + Concat(ls[1..])
  }

  /** A line as `readlines()` yields it: non-empty, with a newline only as its last character. */
  predicate IsLine(l: string) {
    l != [] && '\n' !in l[..|l| - 1]
  }

  /** Every element is a line. */
  predicate AllLines(r: seq<string>) {
    forall i | 0 <= i < |r| :: IsLine(r[i])
  }

  /** Every element but the last ends with a newline. */
  predicate Terminated(r: seq<string>) {
    forall i | 0 <= i < |r| - 1 :: r[i] != [] && r[i][|r[i]| - 1] == '\n'
  }

  /**
   * `readlines()` on text whose only line separator is "\n": every line keeps its
   * terminating newline, and only the last line may lack one.
   */
  function SplitLines(s: string): (r: seq<string>)
    ensures Concat(r) == s
    ensures AllLines(r) && Terminated(r)
    decreases |s|
  {
    if s == [] then []
    else
      var k := Find(s, '\n');
      if k < 0 then
        LastLine(s);
        [s]
      else
        var rest := SplitLines(s[k + 1..]);
        var line := s[..k + 1];
        FirstLine(s, k);
        ConsLine(line, rest);
        [line] + rest
  }

  /** Text without a newline is one last line. */
  lemma LastLine(s: string)
    requires s != [] && '\n' !in s
    ensures Concat([s]) == s && AllLines([s]) && Terminated([s])
  {
    assert s[..|s| - 1] <= s;
  }

  /** Text cut after its first newline: a newline-terminated line, then the rest. */
  lemma FirstLine(s: string, k: nat)
    requires k < |s| && s[k] == '\n' && '\n' !in s[..k]
    ensures IsLine(s[..k + 1]) && s[..k + 1][k] == '\n'
    ensures s == s[..k + 1] + s[k + 1..]
  {
    assert s[..k + 1][..k] == s[..k];
  }

  /** A newline-terminated line in front of lines of the same kind. */
  lemma ConsLine(line: string, rest: seq<string>)
    requires IsLine(line) && line[|line| - 1] == '\n'
    requires AllLines(rest) && Terminated(rest)
    ensures Concat([line] + rest) == line + Concat(rest)
    ensures AllLines([line] + rest) && Terminated([line] + rest)
  {
    var r := [line] + rest;
    assert r[1..] == rest;
    assert forall i | 1 <= i < |r| :: r[i] == rest[i - 1];
  }

  /** A single newline-terminated line splits into itself. */
  lemma SplitOne(l: string)
    requires IsLine(l) && l[|l| - 1] == '\n'
    ensures SplitLines(l) == [l]
  {
    FindUnique(l, '\n', |l| - 1);
    assert l[|l|..] == [];
    assert l[..|l|] == l;
  }

  /** Splitting the concatenation of newline-terminated lines gives the lines back. */
  lemma {:induction false} SplitConcat(ls: seq<string>)
    requires forall i | 0 <= i < |ls| :: IsLine(ls[i]) && ls[i][|ls[i]| - 1] == '\n'
    ensures SplitLines(Concat(ls)) == ls
  {
    if ls != [] {
      var s := Concat(ls);
      var l := ls[0];
      assert s == l + Concat(ls[1..]);
      assert s[..|l| - 1] == l[..|l| - 1];
      FindUnique(s, '\n', |l| - 1);
      assert s[..|l|] == l;
      assert s[|l|..] == Concat(ls[1..]);
      SplitConcat(ls[1..]);
    }
  }

  /** ASCII part of `str.lower()`. */
  function LowerChar(c: char): char {
    if 'A' <= c <= 'Z' then (c as int + 32) as char else c
  }

  /**
   * `s.lower() == "custom"`. No character outside ASCII lower-cases to one of
   * the letters of "custom", so only the ASCII mapping matters for this test.
   */
  predicate IsCustom(s: string) {
    |s| == 6 && forall i | 0 <= i < 6 :: LowerChar(s[i]) == "custom"[i]
  }

  /** A name is `custom` exactly when it spells "custom" with each letter in either case. */
  lemma IsCustomCases(s: string)
    ensures IsCustom(s) <==> |s| == 6 && forall i | 0 <= i < 6 :: s[i] == "custom"[i] || s[i] == "CUSTOM"[i]
  {
    if |s| == 6 {
      forall i | 0 <= i < 6
        ensures LowerChar(s[i]) == "custom"[i] <==> s[i] == "custom"[i] || s[i] == "CUSTOM"[i]
      {
        assert "CUSTOM"[i] as int == "custom"[i] as int - 32;
      }
    }
  }
}
