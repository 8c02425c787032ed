/**
 * The handful of Python string operations the two programs rely on, with
 * Python's own semantics: `str.strip()`, `str.split(sep)` for a one-character
 * separator (and its `maxsplit=2` form), `s.split(pat, 1)[0]`, the substring
 * test `pat in s`, `int(s)` / `str(n)` on decimal integers, ASCII `lower()`,
 * and the POSIX `os.path.join` / `os.path.basename` used for resource paths.
 */
module Text {
  import opened Common

  /** Python's `str.isspace()` on one character (the characters `str.strip()` removes). */
  predicate IsSpace(c: char) {
    c == ' ' || ('\t' <= c <= '\r') || ('\U{1c}' <= c <= '\U{1f}') || c == '\U{85}' || c == '\U{a0}'
    || c == '\U{1680}' || ('\U{2000}' <= c <= '\U{200a}') || c == '\U{2028}' || c == '\U{2029}'
    || c == '\U{202f}' || c == '\U{205f}' || c == '\U{3000}'
  }

  /** Neither end of s is whitespace. */
  predicate IsStripped(s: string) {
    s == [] || (!IsSpace(s[0]) && !IsSpace(s[|s| - 1]))
  }

  function TrimStart(s: string): (r: string)
    ensures |r| <= |s| && r == s[|s| - |r|..]
    ensures forall k :: 0 <= k < |s| - |r| ==> IsSpace(s[k])
    ensures r == [] || !IsSpace(r[0])
  {
    if s != [] && IsSpace(s[0]) then TrimStart(s[1..]) else s
  }

  function TrimEnd(s: string): (r: string)
    ensures |r| <= |s| && r == s[..|r|]
    ensures forall k :: |r| <= k < |s| ==> IsSpace(s[k])
    ensures r == [] || !IsSpace(r[|r| - 1])
  {
    if s != [] && IsSpace(s[|s| - 1]) then TrimEnd(s[..|s| - 1]) else s
  }

  /** Python's `s.strip()`. */
  function Strip(s: string): (r: string)
    ensures IsStripped(r) && |r| <= |s|
    ensures IsStripped(s) ==> r == s
    ensures r == [] <==> forall k :: 0 <= k < |s| ==> IsSpace(s[k])
  {
    var t := TrimStart(s);
    assert IsStripped(s) && s != [] ==> t == s;
    var r := TrimEnd(t);
    assert r != [] ==> r[0] == t[0];
    assert t != [] ==> t[0] == s[|s| - |t|] && !IsSpace(s[|s| - |t|]);
    r
  }

  /** The pieces joined back with the separator (Python's `sep.join(parts)`). */
  function Join(parts: seq<string>, sep: char): string
    requires |parts| >= 1
  {
    if |parts| == 1 then parts[0] else Join(parts[..|parts| - 1], sep) + [sep] + parts[|parts| - 1]
  }

  /**
   * Python's `s.split(sep)` for a one-character separator: the unique list
   * of separator-free pieces that joins back to s.
   */
  function Split(s: string, sep: char): (r: seq<string>)
    ensures |r| >= 1
    ensures forall i :: 0 <= i < |r| ==> sep !in r[i]
    ensures Join(r, sep) == s
  {
    if s == [] then [""]
    else
      var p := Split(s[..|s| - 1], sep);
      var c := s[|s| - 1];
      assert s == s[..|s| - 1] + [c];
      if c == sep then
        var r := p + [""];
        assert r[..|r| - 1] == p;
        r
      else
        var r := p[..|p| - 1] + [p[|p| - 1] + [c]];
        assert |r| > 1 ==> r[..|r| - 1] == p[..|p| - 1];
        r
  }

  lemma {:induction false} SplitNoSep(t: string, sep: char)
    requires sep !in t
    ensures Split(t, sep) == [t]
    decreases |t|
  {
    if t != [] {
      SplitNoSep(t[..|t| - 1], sep);
      assert t == t[..|t| - 1] + [t[|t| - 1]];
    }
  }

  lemma {:induction false} SplitAppendPiece(s: string, t: string, sep: char)
    requires sep !in t
    ensures Split(s + [sep] + t, sep) == Split(s, sep) + [t]
    decreases |t|
  {
    if t == [] {
      assert s + [sep] + t == s + [sep];
      assert (s + [sep])[..|s|] == s;
    } else {
      var t' := t[..|t| - 1];
      SplitAppendPiece(s, t', sep);
      var u := s + [sep] + t;
      assert u[..|u| - 1] == s + [sep] + t';
      assert t == t' + [t[|t| - 1]];
    }
  }

  /** Splitting undoes joining, when no piece contains the separator. */
  lemma {:induction false} SplitJoin(parts: seq<string>, sep: char)
    requires |parts| >= 1
    requires forall i :: 0 <= i < |parts| ==> sep !in parts[i]
    ensures Split(Join(parts, sep), sep) == parts
    decreases |parts|
  {
    if |parts| == 1 {
      SplitNoSep(parts[0], sep);
    } else {
      var init := parts[..|parts| - 1];
      assert init + [parts[|parts| - 1]] == parts;
      SplitJoin(init, sep);
      SplitAppendPiece(Join(init, sep), parts[|parts| - 1], sep);
    }
  }

  lemma {:induction false} JoinAppend(a: seq<string>, b: seq<string>, sep: char)
    requires |a| >= 1 && |b| >= 1
    ensures Join(a + b, sep) == Join(a, sep) + [sep] + Join(b, sep)
    decreases |b|
  {
    if |b| == 1 {
      assert (a + b)[..|a + b| - 1] == a;
    } else {
      var b' := b[..|b| - 1];
      JoinAppend(a, b', sep);
      assert (a + b)[..|a + b| - 1] == a + b';
      assert b[..|b| - 1] == b';
    }
  }

  /** The first piece of a join begins the joined text, followed by the separator when more pieces follow. */
  lemma {:induction false} JoinPrefix(parts: seq<string>, sep: char)
    requires |parts| >= 1
    ensures |parts[0]| <= |Join(parts, sep)| && Join(parts, sep)[..|parts[0]|] == parts[0]
    ensures |parts| > 1 ==> |parts[0]| < |Join(parts, sep)| && Join(parts, sep)[|parts[0]|] == sep
    decreases |parts|
  {
    if |parts| > 1 {
      JoinPrefix(parts[..|parts| - 1], sep);
    }
  }

  /** The last piece of a join ends the joined text. */
  lemma JoinSuffix(parts: seq<string>, sep: char)
    requires |parts| >= 1
    ensures |parts[|parts| - 1]| <= |Join(parts, sep)|
    ensures Join(parts, sep)[|Join(parts, sep)| - |parts[|parts| - 1]|..] == parts[|parts| - 1]
  {
  }

  /**
   * Python's `s.split(sep, 2)`: at most three pieces; the third keeps any
   * further separators.
   */
  function SplitAtMost2(s: string, sep: char): (r: seq<string>)
    ensures 1 <= |r| <= 3
    ensures Join(r, sep) == s
    ensures forall i :: 0 <= i < |r| && i < 2 ==> sep !in r[i]
    ensures |r| < 3 ==> r == Split(s, sep)
  {
    var p := Split(s, sep);
    if |p| <= 3 then p
    else
      var r := [p[0], p[1], Join(p[2..], sep)];
      JoinAppend(p[..2], p[2..], sep);
      assert p[..2] + p[2..] == p;
      assert Join(p[..2], sep) == p[0] + [sep] + p[1] by {
        assert p[..2][..1] == [p[0]];
      }
      assert Join(r, sep) == Join(r[..2], sep) + [sep] + r[2] by {
        assert r[..2] == p[..2];
      }
      r
  }

  /** pat occurs in s starting at index i. */
  predicate OccursAt(s: string, pat: string, i: nat) {
    i + |pat| <= |s| && s[i..i + |pat|] == pat
  }

  /** An occurrence after the first character is an occurrence in the rest of the string. */
  lemma OccursShift(s: string, pat: string, i: nat)
    requires s != [] && i >= 1
    ensures OccursAt(s, pat, i) <==> OccursAt(s[1..], pat, i - 1)
  {
    if i + |pat| <= |s| {
      var here, there := s[i..i + |pat|], s[1..][i - 1..i - 1 + |pat|];
      forall k | 0 <= k < |pat| ensures here[k] == there[k] {
      }
      assert here == there;
    }
  }

  /** Python's `s.split(pat, 1)[0]`: the text before the first occurrence of pat, or all of s. */
  function BeforeFirst(s: string, pat: string): (r: string)
    requires pat != []
    ensures |r| <= |s| && r == s[..|r|]
    ensures forall i :: 0 <= i < |r| ==> !OccursAt(s, pat, i)
    ensures r == s || OccursAt(s, pat, |r|)
  {
    if |s| < |pat| then s
    else if s[..|pat|] == pat then []
    else
      var r' := BeforeFirst(s[1..], pat);
      var r := [s[0]] + r';
      assert forall i :: 0 <= i < |r| ==> !OccursAt(s, pat, i) by {
        forall i | 0 <= i < |r| ensures !OccursAt(s, pat, i) {
          if i > 0 {
            assert !OccursAt(s[1..], pat, i - 1);
            OccursShift(s, pat, i);
          }
        }
      }
      assert r == s || OccursAt(s, pat, |r|) by {
        if r' != s[1..] {
          OccursShift(s, pat, |r|);
        }
      }
      r
  }

  /** Python's `pat in s` for strings. */
  ghost predicate Contains(s: string, pat: string) {
    exists i: nat :: OccursAt(s, pat, i)
  }

  /** The same test, computed left to right. */
  function ContainsFrom(s: string, pat: string): bool
    decreases |s|
  {
    if |s| < |pat| then false
    else if s[..|pat|] == pat then true
    else ContainsFrom(s[1..], pat)
  }

  lemma {:induction false} ContainsFromMeansContains(s: string, pat: string)
    ensures ContainsFrom(s, pat) <==> Contains(s, pat)
    decreases |s|
  {
    if |s| < |pat| {
      assert forall i: nat :: !OccursAt(s, pat, i);
    } else if s[..|pat|] == pat {
      assert OccursAt(s, pat, 0);
    } else {
      ContainsFromMeansContains(s[1..], pat);
      if ContainsFrom(s[1..], pat) {
        var i: nat :| OccursAt(s[1..], pat, i);
        OccursShift(s, pat, i + 1);
      } else {
        forall i: nat | OccursAt(s, pat, i) ensures false {
          assert i != 0;
          OccursShift(s, pat, i);
        }
      }
    }
  }

  /** ASCII `str.lower()`: upper-case Latin letters become lower-case, nothing else changes. */
  function Lower(s: string): (r: string)
    ensures |r| == |s|
    ensures forall i :: 0 <= i < |s| ==> r[i] == LowerChar(s[i])
  {
    if s == [] then [] else [LowerChar(s[0])] + Lower(s[1..])
  }

  function LowerChar(c: char): char {
    if 'A' <= c <= 'Z' then (c as int + 32) as char else c
  }

  predicate IsDigit(c: char) {
    '0' <= c <= '9'
  }

  function DigitChar(d: nat): (c: char)
    requires d < 10
    ensures IsDigit(c) && DigitValue(c) == d
  {
    ('0' as int + d) as char
  }

  function DigitValue(c: char): (d: nat)
    requires IsDigit(c)
    ensures d < 10
  {
    c as int - '0' as int
  }

  /** Every character is an ASCII decimal digit. */
  predicate AllDigits(ds: string) {
    forall i :: 0 <= i < |ds| ==> IsDigit(ds[i])
  }

  /** The value of a string of decimal digits. */
  function DigitsValue(ds: string): nat
    requires AllDigits(ds)
  {
    if ds == [] then 0 else DigitsValue(ds[..|ds| - 1]) * 10 + DigitValue(ds[|ds| - 1])
  }

  /** Python's `str(n)` for n >= 0: decimal digits, no leading zeros. */
  function NatToString(n: nat): (s: string)
    ensures |s| >= 1 && AllDigits(s)
    ensures DigitsValue(s) == n
  {
    if n < 10 then
      var s := [DigitChar(n)];
      assert s[..0] == [];
      s
    else
      var p := NatToString(n / 10);
      var s := p + [DigitChar(n % 10)];
      assert s[..|s| - 1] == p;
      s
  }

  /** Python's `str(n)`. */
  function IntToString(n: int): (s: string)
    ensures s != [] && IsStripped(s) && IsDigit(s[|s| - 1])
    ensures forall i :: 0 <= i < |s| ==> IsDigit(s[i]) || s[i] == '-'
  {
    if n < 0 then "-" + NatToString(-n) else NatToString(n)
  }

  /**
   * Python's `int(s)` on decimal text: surrounding whitespace is ignored,
   * an optional sign, then at least one ASCII digit; anything else is a
   * ValueError, modelled as None.
   */
  function ParseInt(s: string): (r: Option<int>)
    ensures r.Some? ==> Strip(s) != []
  {
    SignedDigits(Strip(s))
  }

  /** An optional sign followed by at least one digit, and nothing else. */
  function SignedDigits(t: string): (r: Option<int>)
    ensures r.Some? ==> t != []
  {
    var body := if t != [] && (t[0] == '-' || t[0] == '+') then t[1..] else t;
    if body == [] || !AllDigits(body) then None
    else if t[0] == '-' then Some(-(DigitsValue(body) as int))
    else Some(DigitsValue(body))
  }

  /** Reading back what `str(n)` wrote gives n. */
  lemma IntToStringParses(n: int)
    ensures ParseInt(IntToString(n)) == Some(n)
  {
    var s := IntToString(n);
    assert Strip(s) == s;
    if n < 0 {
      assert s[1..] == NatToString(-n);
    }
  }

  /** Python's `os.path.basename` on a POSIX path: the text after the last '/'. */
  function Basename(p: string): (r: string)
    ensures '/' !in r
    ensures |r| <= |p| && r == p[|p| - |r|..]
    ensures |r| < |p| ==> p[|p| - |r| - 1] == '/'
  {
    if p == [] || p[|p| - 1] == '/' then []
    else
      var r := Basename(p[..|p| - 1]) + [p[|p| - 1]];
      r
  }

  /**
   * No line break inside s. Files are read in text mode with universal
   * newlines, so both '\n' and '\r' end a line.
   */
  predicate OneLine(s: string) {
    '\n' !in s && '\r' !in s
  }

  /** Python's `os.path.join("resource", name)` on POSIX: an absolute name replaces the folder. */
  function ResourcePath(name: string): (p: string)
    ensures name != [] && name[0] == '/' ==> p == name
    ensures (name == [] || name[0] != '/') ==> p == "resource/" + name
  {
    if name != [] && name[0] == '/' then name else "resource/" + name
  }

  lemma {:induction false} BasenameAfterSlash(d: string, name: string)
    requires d != [] && d[|d| - 1] == '/'
    requires '/' !in name
    ensures Basename(d + name) == name
    decreases |name|
  {
    if name == [] {
      assert d + name == d;
    } else {
      var p := d + name;
      assert p[..|p| - 1] == d + name[..|name| - 1];
      BasenameAfterSlash(d, name[..|name| - 1]);
      assert name == name[..|name| - 1] + [name[|name| - 1]];
    }
  }

  /** The board writer's basename undoes the reader's `os.path.join("resource", name)`. */
  lemma BasenameOfResourcePath(name: string)
    requires '/' !in name
    ensures Basename(ResourcePath(name)) == name
  {
    var d := "resource/";
    assert d[|d| - 1] == '/';
    assert name == [] || name[0] != '/' by {
      if name != [] { assert name[0] in name; }
    }
    BasenameAfterSlash(d, name);
  }
}
