/**
 * String primitives shared by the TypeScript and the Python code: the two
 * runtimes' whitespace sets, trimming, splitting on one character, joining,
 * prefixes and suffixes, ASCII upper-casing and repetition.
 */
module Text {

  /** Which language's standard library a string operation follows. */
  datatype Runtime = Js | Py

  /**
   * ECMAScript WhiteSpace and LineTerminator code points: what `trim()`,
   * the regular-expression class `\s` and `parseInt` skip.
   */
  predicate IsJsSpace(c: char) {
    var n := c as int;
    (0x09 <= n <= 0x0D) || n == 0x20 || n == 0xA0 || n == 0x1680
    || (0x2000 <= n <= 0x200A) || n == 0x2028 || n == 0x2029
    || n == 0x202F || n == 0x205F || n == 0x3000 || n == 0xFEFF
  }

  /** Python `str.isspace()`: what `strip()`, `split()` and `int()` skip. */
  predicate IsPySpace(c: char) {
    var n := c as int;
    (0x09 <= n <= 0x0D) || (0x1C <= n <= 0x1F) || n == 0x20 || n == 0x85
    || n == 0xA0 || n == 0x1680 || (0x2000 <= n <= 0x200A) || n == 0x2028
    || n == 0x2029 || n == 0x202F || n == 0x205F || n == 0x3000
  }

  predicate IsSpace(rt: Runtime, c: char) {
    match rt
    case Js => IsJsSpace(c)
    case Py => IsPySpace(c)
  }

  predicate NoSpace(rt: Runtime, s: string) {
    forall i :: 0 <= i < |s| ==> !IsSpace(rt, s[i])
  }

  predicate AllSpace(rt: Runtime, s: string) {
    forall i :: 0 <= i < |s| ==> IsSpace(rt, s[i])
  }

  /** Removes leading whitespace. */
  function TrimStart(rt: Runtime, s: string): string {
    if |s| > 0 && IsSpace(rt, s[0]) then TrimStart(rt, s[1..]) else s
  }

  /** Removes trailing whitespace. */
  function TrimEnd(rt: Runtime, s: string): string {
    if |s| > 0 && IsSpace(rt, s[|s| - 1]) then TrimEnd(rt, s[..|s| - 1]) else s
  }

  /** `s.trim()` in JavaScript, `s.strip()` in Python. */
  function Trim(rt: Runtime, s: string): string {
    TrimEnd(rt, TrimStart(rt, s))
  }

  /** `TrimStart` keeps the suffix after a run of whitespace, and that suffix starts with none. */
  lemma {:induction false} TrimStartShape(rt: Runtime, s: string)
    ensures var r := TrimStart(rt, s);
      && |r| <= |s| && r == s[|s| - |r|..]
      && (forall i :: 0 <= i < |s| - |r| ==> IsSpace(rt, s[i]))
      && (r == [] || !IsSpace(rt, r[0]))
  {
    if |s| > 0 && IsSpace(rt, s[0]) {
      TrimStartShape(rt, s[1..]);
      var r := TrimStart(rt, s[1..]);
      assert s[1..][|s| - 1 - |r|..] == s[|s| - |r|..];
      forall i | 1 <= i < |s| - |r|
        ensures IsSpace(rt, s[i])
      {
        assert s[i] == s[1..][i - 1];
      }
    }
  }

  /** `TrimEnd` keeps the prefix before a run of whitespace, and that prefix ends with none. */
  lemma {:induction false} TrimEndShape(rt: Runtime, s: string)
    ensures var r := TrimEnd(rt, s);
      && |r| <= |s| && r == s[..|r|]
      && (forall i :: |r| <= i < |s| ==> IsSpace(rt, s[i]))
      && (r == [] || !IsSpace(rt, r[|r| - 1]))
  {
    if |s| > 0 && IsSpace(rt, s[|s| - 1]) {
      TrimEndShape(rt, s[..|s| - 1]);
      var r := TrimEnd(rt, s[..|s| - 1]);
      assert s[..|s| - 1][..|r|] == s[..|r|];
      forall i | |r| <= i < |s| - 1
        ensures IsSpace(rt, s[i])
      {
        assert s[i] == s[..|s| - 1][i];
      }
    }
  }

  lemma {:induction false} TrimStartAllSpace(rt: Runtime, s: string)
    ensures AllSpace(rt, s) <==> TrimStart(rt, s) == []
  {
    if |s| > 0 {
      TrimStartAllSpace(rt, s[1..]);
      assert IsSpace(rt, s[0]) && AllSpace(rt, s[1..]) ==> AllSpace(rt, s) by {
        if IsSpace(rt, s[0]) && AllSpace(rt, s[1..]) {
          forall i | 1 <= i < |s|
            ensures IsSpace(rt, s[i])
          {
            assert s[i] == s[1..][i - 1];
          }
        }
      }
    }
  }

  /** Whitespace-only text trims to nothing. */
  lemma TrimAllSpace(rt: Runtime, s: string)
    requires AllSpace(rt, s)
    ensures TrimStart(rt, s) == [] && Trim(rt, s) == []
  {
    TrimStartAllSpace(rt, s);
  }

  /** Text without whitespace is its own trim. */
  lemma TrimNoSpace(rt: Runtime, s: string)
    requires NoSpace(rt, s)
    ensures TrimStart(rt, s) == s && Trim(rt, s) == s
  {
  }

  /** The longest prefix of `s` without whitespace. */
  function TokenPrefix(rt: Runtime, s: string): string {
    if |s| == 0 || IsSpace(rt, s[0]) then [] else [s[0]] + TokenPrefix(rt, s[1..])
  }

  lemma {:induction false} TokenPrefixShape(rt: Runtime, s: string)
    ensures var r := TokenPrefix(rt, s);
      && |r| <= |s| && r == s[..|r|] && NoSpace(rt, r)
      && (|r| < |s| ==> IsSpace(rt, s[|r|]))
  {
    if |s| > 0 && !IsSpace(rt, s[0]) {
      TokenPrefixShape(rt, s[1..]);
    }
  }

  lemma {:induction false} TokenPrefixNoSpace(rt: Runtime, s: string)
    requires NoSpace(rt, s)
    ensures TokenPrefix(rt, s) == s
  {
    if |s| > 0 {
      TokenPrefixNoSpace(rt, s[1..]);
    }
  }

  /** The index of the first occurrence of `c` in `s`. */
  function IndexOf(s: string, c: char): (i: nat)
    requires c in s
    ensures i < |s| && s[i] == c && c !in s[..i]
  {
    if s[0] == c then 0 else 1 + IndexOf(s[1..], c)
  }

  lemma IndexOfJoin(a: string, c: char, b: string)
    requires c !in a
    ensures c in a + [c] + b && IndexOf(a + [c] + b, c) == |a|
  {
    var s := a + [c] + b;
    assert s[|a|] == c;
    assert s[..|a|] == a;
  }

  /** The parts joined by `sep`: `parts.join(sep)` and `sep.join(parts)`. */
  lemma AppendAssoc<T>(a: seq<T>, b: seq<T>, c: seq<T>)
    ensures (a + b) + c == a + (b + c)
  {
  }

  function Join(parts: seq<string>, sep: string): string {
    if |parts| == 0 then ""
    else if |parts| == 1 then parts[0]
    else parts[0] + sep + Join(parts[1..], sep)
  }

  /** `sep.join` with no separator (`parts.join('')`). */
  function Concat(parts: seq<string>): string {
    Join(parts, "")
  }

  /**
   * `s.split(sep)` for a one-character separator, as in both languages:
   * never empty, no part contains the separator, and joining the parts
   * with it gives back `s`.
   */
  function Split(s: string, sep: char): (parts: seq<string>)
    ensures |parts| >= 1
    ensures forall i :: 0 <= i < |parts| ==> sep !in parts[i]
    ensures Join(parts, [sep]) == s
    ensures sep !in s ==> parts == [s]
    ensures sep in s ==> |parts| >= 2
    decreases |s|
  {
    if sep !in s then [s]
    else
      var i := IndexOf(s, sep);
      var rest := Split(s[i + 1..], sep);
      assert s == s[..i] + [sep] + s[i + 1..];
      [s[..i]] + rest
  }

  /** Splitting a join with a separator that occurs in no part gives the parts back. */
  lemma {:induction false} SplitJoin(parts: seq<string>, sep: char)
    requires |parts| >= 1
    requires forall i :: 0 <= i < |parts| ==> sep !in parts[i]
    ensures Split(Join(parts, [sep]), sep) == parts
  {
    if |parts| > 1 {
      var rest := parts[1..];
      var s := Join(parts, [sep]);
      assert s == parts[0] + [sep] + Join(rest, [sep]);
      IndexOfJoin(parts[0], sep, Join(rest, [sep]));
      assert s[..|parts[0]|] == parts[0];
      assert s[|parts[0]| + 1..] == Join(rest, [sep]);
      SplitJoin(rest, sep);
    }
  }

  /** A separator at the end of `s` adds one empty part. */
  lemma SplitSnoc(s: string, sep: char)
    ensures Split(s + [sep], sep) == Split(s, sep) + [""]
  {
    var parts := Split(s, sep) + [""];
    JoinSnoc(Split(s, sep), [sep], "");
    assert Join(parts, [sep]) == s + [sep];
    SplitJoin(parts, sep);
  }

  lemma {:induction false} JoinSnoc(parts: seq<string>, sep: string, x: string)
    requires |parts| >= 1
    ensures Join(parts + [x], sep) == Join(parts, sep) + sep + x
  {
    if |parts| > 1 {
      assert (parts + [x])[1..] == parts[1..] + [x];
      JoinSnoc(parts[1..], sep, x);
    }
  }

  lemma {:induction false} JoinAppend(a: seq<string>, b: seq<string>, sep: string)
    requires |a| >= 1 && |b| >= 1
    ensures Join(a + b, sep) == Join(a, sep) + sep + Join(b, sep)
  {
    if |a| > 1 {
      assert (a + b)[1..] == a[1..] + b;
      JoinAppend(a[1..], b, sep);
    }
  }

  /** Every character of a join comes from a part or from the separator. */
  lemma {:induction false} JoinChars(parts: seq<string>, sep: string, k: nat)
    requires k < |Join(parts, sep)|
    ensures (exists i, j :: 0 <= i < |parts| && 0 <= j < |parts[i]| && parts[i][j] == Join(parts, sep)[k])
         || Join(parts, sep)[k] in sep
  {
    if |parts| == 1 {
      assert parts[0][k] == Join(parts, sep)[k];
    } else if |parts| > 1 {
      var s := Join(parts, sep);
      if k < |parts[0]| {
        assert parts[0][k] == s[k];
      } else if k < |parts[0]| + |sep| {
        assert s[k] == sep[k - |parts[0]|];
      } else {
        var k' := k - |parts[0]| - |sep|;
        assert s[k] == Join(parts[1..], sep)[k'];
        JoinChars(parts[1..], sep, k');
        if s[k] !in sep {
          var i, j :| 0 <= i < |parts[1..]| && 0 <= j < |parts[1..][i]| && parts[1..][i][j] == s[k];
          assert parts[i + 1][j] == s[k];
        }
      }
    }
  }

  /** Every character of a part of `s.split(sep)` is a character of `s`. */
  lemma SplitChars(s: string, sep: char, i: nat, j: nat)
    requires i < |Split(s, sep)| && j < |Split(s, sep)[i]|
    ensures Split(s, sep)[i][j] in s
  {
    var parts := Split(s, sep);
    JoinPartChar(parts, [sep], i, j);
  }

  /** Where character `j` of part `i` sits in the join. */
  lemma {:induction false} JoinPartIndex(parts: seq<string>, sep: string, i: nat, j: nat) returns (k: nat)
    requires i < |parts| && j < |parts[i]|
    ensures k < |Join(parts, sep)| && Join(parts, sep)[k] == parts[i][j]
  {
    if |parts| == 1 {
      k := j;
    } else {
      var s := Join(parts, sep);
      var t := Join(parts[1..], sep);
      assert s == parts[0] + sep + t;
      if i == 0 {
        k := j;
        assert s[k] == parts[0][j];
      } else {
        assert parts[1..][i - 1] == parts[i];
        var k' := JoinPartIndex(parts[1..], sep, i - 1, j);
        k := |parts[0]| + |sep| + k';
        assert s[k] == t[k'];
      }
    }
  }

  lemma JoinPartChar(parts: seq<string>, sep: string, i: nat, j: nat)
    requires i < |parts| && j < |parts[i]|
    ensures parts[i][j] in Join(parts, sep)
  {
    var k := JoinPartIndex(parts, sep, i, j);
  }

  function SumLengths(parts: seq<string>): nat {
    if parts == [] then 0 else |parts[0]| + SumLengths(parts[1..])
  }

  /** The length of a join: the parts' lengths plus one separator between each two. */
  lemma {:induction false} JoinLength(parts: seq<string>, sep: string)
    requires |parts| >= 1
    ensures |Join(parts, sep)| == SumLengths(parts) + |sep| * (|parts| - 1)
  {
    if |parts| > 1 {
      JoinLength(parts[1..], sep);
    }
  }

  predicate StartsWith(s: string, prefix: string) {
    |prefix| <= |s| && s[..|prefix|] == prefix
  }

  predicate EndsWith(s: string, suffix: string) {
    |suffix| <= |s| && s[|s| - |suffix|..] == suffix
  }

  /** `c.repeat(n)`. */
  function Repeat(c: char, n: nat): (r: string)
    ensures |r| == n && forall i :: 0 <= i < n ==> r[i] == c
  {
    seq(n, _ => c)
  }

  predicate IsLowerAscii(c: char) {
    'a' <= c <= 'z'
  }

  function UpperChar(c: char): char {
    if IsLowerAscii(c) then (c as int - 32) as char else c
  }

  /** `toUpperCase()` / `upper()`, restricted to the ASCII letters. */
  function Upper(s: string): string {
    seq(|s|, i requires 0 <= i < |s| => UpperChar(s[i]))
  }

  predicate NoLower(s: string) {
    forall i :: 0 <= i < |s| ==> !IsLowerAscii(s[i])
  }

  lemma UpperNoLower(s: string)
    ensures NoLower(Upper(s))
  {
  }

  lemma UpperIdentity(s: string)
    requires NoLower(s)
    ensures Upper(s) == s
  {
  }

  /**
   * The text after the last character satisfying the delimiter choice
   * (`s.split(/[_-]/).pop()` when `dash` holds, `s.split("_")[-1]` otherwise).
   */
  function LastToken(s: string, dash: bool): (r: string)
    ensures |r| <= |s| && r == s[|s| - |r|..]
    ensures forall i :: 0 <= i < |r| ==> !IsDelimiter(r[i], dash)
    ensures |r| < |s| ==> IsDelimiter(s[|s| - |r| - 1], dash)
  {
    if |s| == 0 then ""
    else if IsDelimiter(s[|s| - 1], dash) then ""
    else LastToken(s[..|s| - 1], dash) + [s[|s| - 1]]
  }

  predicate IsDelimiter(c: char, dash: bool) {
    c == '_' || (dash && c == '-')
  }
}
