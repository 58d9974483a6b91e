/**
 * The handful of Python `str` operations the pipeline relies on: `isspace`,
 * `strip`, `split()` (on whitespace runs), `split(sep)`, `sep.join`, `lower`,
 * `startswith`, `endswith`, `in`, `replace(pat, "")`, `isdigit`, `isalnum`,
 * `int(...)` and `str(int)`.
 */
module Strings {
  import opened Wrappers

  /** Python's `str.isspace()` for one character: the characters that `strip()` and `split()` treat as whitespace. */
  predicate IsSpace(c: char) {
    || c == ' '
    || '\t' <= c <= '\r'
    || '\U{1c}' <= c <= '\U{1f}'
    || c == '\U{85}' || c == '\U{a0}' || c == '\U{1680}'
    || '\U{2000}' <= c <= '\U{200a}'
    || c == '\U{2028}' || c == '\U{2029}' || c == '\U{202f}' || c == '\U{205f}' || c == '\U{3000}'
  }

  predicate AllSpace(s: string) {
    forall i :: 0 <= i < |s| ==> IsSpace(s[i])
  }

  /** A non-empty run of non-whitespace characters, as `split()` produces. */
  predicate IsWord(w: string) {
    w != [] && forall i :: 0 <= i < |w| ==> !IsSpace(w[i])
  }

  /** True iff `s` has no whitespace at either end. */
  predicate IsStripped(s: string) {
    s == [] || (!IsSpace(s[0]) && !IsSpace(s[|s| - 1]))
  }

  // ---------------------------------------------------------------- strip

  function TrimStart(s: string): (r: string)
    ensures |r| <= |s|
    ensures r == [] || !IsSpace(r[0])
  {
    if s != [] && IsSpace(s[0]) then TrimStart(s[1..]) else s
  }

  /** What `lstrip()` keeps is a suffix of the string. */
  lemma {:induction false} TrimStartSuffix(s: string)
    ensures TrimStart(s) == s[|s| - |TrimStart(s)|..]
  {
    if s != [] && IsSpace(s[0]) {
      TrimStartSuffix(s[1..]);
    }
  }

  function TrimEnd(s: string): (r: string)
    ensures |r| <= |s| && r == s[..|r|]
    ensures r == [] || !IsSpace(r[|r| - 1])
  {
    if s != [] && IsSpace(s[|s| - 1]) then TrimEnd(s[..|s| - 1]) else s
  }

  /** What `lstrip()` drops is whitespace. */
  lemma {:induction false} TrimStartSpaces(s: string)
    ensures AllSpace(s[..|s| - |TrimStart(s)|])
  {
    if s != [] && IsSpace(s[0]) {
      TrimStartSpaces(s[1..]);
      var k := |s| - |TrimStart(s)|;
      assert forall i :: 1 <= i < k ==> s[..k][i] == s[1..][..k - 1][i - 1];
    }
  }

  /** What `rstrip()` drops is whitespace. */
  lemma {:induction false} TrimEndSpaces(s: string)
    ensures AllSpace(s[|TrimEnd(s)|..])
  {
    if s != [] && IsSpace(s[|s| - 1]) {
      var init := s[..|s| - 1];
      TrimEndSpaces(init);
      var k := |TrimEnd(s)|;
      assert forall i :: k <= i < |s| - 1 ==> s[i] == init[i];
    }
  }

  /** Python's `s.strip()`. */
  function Strip(s: string): string {
    TrimEnd(TrimStart(s))
  }

  /** `strip()` yields the empty string exactly when every character is whitespace. */
  lemma StripEmptyIff(s: string)
    ensures Strip(s) == [] <==> AllSpace(s)
  {
    var t := TrimStart(s);
    var k := |s| - |t|;
    TrimStartSuffix(s);
    TrimStartSpaces(s);
    TrimEndSpaces(t);
    if Strip(s) == [] {
      assert AllSpace(t[0..]);
      assert t == [];
      assert s[..k] == s;
    } else {
      assert t != [];
      assert t[0] == s[k] && !IsSpace(s[k]);
    }
  }

  /** The result of `strip()` has no whitespace at either end. */
  lemma StripIsStripped(s: string)
    ensures IsStripped(Strip(s))
  {
    var t := TrimStart(s);
    var r := TrimEnd(t);
    if r != [] {
      assert r[0] == t[0];
    }
  }

  /** `strip()` leaves a string with no whitespace at either end as it is. */
  lemma StripNoop(s: string)
    requires IsStripped(s)
    ensures Strip(s) == s
  {
  }

  // ---------------------------------------------------------------- lower

  /** ASCII upper-case letters map to lower case; every other character is kept. */
  function LowerChar(c: char): char {
    if 'A' <= c <= 'Z' then (c as int + 32) as char else c
  }

  /** Python's `s.lower()`, restricted to ASCII letters. */
  function Lower(s: string): (r: string)
    ensures |r| == |s|
    ensures forall i :: 0 <= i < |s| ==> r[i] == LowerChar(s[i])
  {
    seq(|s|, i requires 0 <= i < |s| => LowerChar(s[i]))
  }

  /** Lower-casing twice is lower-casing once, and the result has no ASCII upper-case letter. */
  lemma LowerIdempotent(s: string)
    ensures Lower(Lower(s)) == Lower(s)
    ensures forall i :: 0 <= i < |Lower(s)| ==> !('A' <= Lower(s)[i] <= 'Z')
  {
  }

  lemma LowerKeepsSpace(c: char)
    ensures IsSpace(LowerChar(c)) <==> IsSpace(c)
  {
  }

  lemma {:induction false} TrimStartLower(s: string)
    ensures TrimStart(Lower(s)) == Lower(TrimStart(s))
    decreases |s|
  {
    if s != [] {
      LowerKeepsSpace(s[0]);
      if IsSpace(s[0]) {
        assert Lower(s)[1..] == Lower(s[1..]);
        TrimStartLower(s[1..]);
      }
    }
  }

  lemma {:induction false} TrimEndLower(s: string)
    ensures TrimEnd(Lower(s)) == Lower(TrimEnd(s))
    decreases |s|
  {
    if s != [] {
      LowerKeepsSpace(s[|s| - 1]);
      if IsSpace(s[|s| - 1]) {
        assert Lower(s)[..|s| - 1] == Lower(s[..|s| - 1]);
        TrimEndLower(s[..|s| - 1]);
      }
    }
  }

  /** Lower-casing does not move the ends that `strip()` cuts. */
  lemma StripLower(s: string)
    ensures Strip(Lower(s)) == Lower(Strip(s))
    ensures |Strip(Lower(s))| == |Strip(s)|
  {
    TrimStartLower(s);
    TrimEndLower(TrimStart(s));
  }

  // ---------------------------------------------------------------- whitespace removal

  /** Every character of `s` that is not whitespace, in order. */
  function RemoveSpace(s: string): (r: string)
    ensures forall i :: 0 <= i < |r| ==> !IsSpace(r[i])
  {
    if s == [] then [] else (if IsSpace(s[0]) then [] else [s[0]]) + RemoveSpace(s[1..])
  }

  lemma {:induction false} RemoveSpaceAppend(a: string, b: string)
    ensures RemoveSpace(a + b) == RemoveSpace(a) + RemoveSpace(b)
  {
    if a == [] {
      assert a + b == b;
    } else {
      assert (a + b)[1..] == a[1..] + b;
      RemoveSpaceAppend(a[1..], b);
    }
  }

  lemma {:induction false} RemoveSpaceOfSpace(s: string)
    requires AllSpace(s)
    ensures RemoveSpace(s) == []
  {
    if s != [] {
      RemoveSpaceOfSpace(s[1..]);
    }
  }

  lemma {:induction false} RemoveSpaceOfWord(w: string)
    requires forall i :: 0 <= i < |w| ==> !IsSpace(w[i])
    ensures RemoveSpace(w) == w
  {
    if w != [] {
      RemoveSpaceOfWord(w[1..]);
    }
  }

  /** Lower-casing and removing whitespace commute. */
  lemma {:induction false} RemoveSpaceLower(s: string)
    ensures RemoveSpace(Lower(s)) == Lower(RemoveSpace(s))
  {
    if s != [] {
      LowerKeepsSpace(s[0]);
      assert Lower(s)[1..] == Lower(s[1..]);
      RemoveSpaceLower(s[1..]);
      var head := if IsSpace(s[0]) then [] else [s[0]];
      assert Lower(head + RemoveSpace(s[1..])) == Lower(head) + Lower(RemoveSpace(s[1..]));
    }
  }

  // ---------------------------------------------------------------- split() and join

  /** The longest prefix of `s` without whitespace. */
  function TakeWord(s: string): (w: string)
    ensures |w| <= |s| && w == s[..|w|]
    ensures forall i :: 0 <= i < |w| ==> !IsSpace(w[i])
    ensures |w| == |s| || IsSpace(s[|w|])
  {
    if s == [] || IsSpace(s[0]) then [] else [s[0]] + TakeWord(s[1..])
  }

  /** Python's `s.split()` with no argument: the maximal runs of non-whitespace characters. */
  function Words(s: string): seq<string>
    decreases |s|
  {
    var t := TrimStart(s);
    if t == [] then []
    else
      var w := TakeWord(t);
      assert w != [] by { assert !IsSpace(t[0]); }
      [w] + Words(t[|w|..])
  }

  /** Every part of `split()` is a non-empty run of non-whitespace characters. */
  lemma {:induction false} WordsAreWords(s: string)
    ensures forall k :: 0 <= k < |Words(s)| ==> IsWord(Words(s)[k])
    decreases |s|
  {
    var t := TrimStart(s);
    if t != [] {
      var w := TakeWord(t);
      assert w != [] by { assert !IsSpace(t[0]); }
      var rest := Words(t[|w|..]);
      WordsAreWords(t[|w|..]);
      assert Words(s) == [w] + rest;
      forall k | 0 <= k < |Words(s)| ensures IsWord(Words(s)[k]) {
        if k > 0 {
          assert Words(s)[k] == rest[k - 1];
        }
      }
    }
  }

  /** `split()` finds no word exactly when the string is all whitespace. */
  lemma WordsEmptyIff(s: string)
    ensures Words(s) == [] <==> AllSpace(s)
  {
    var t := TrimStart(s);
    var k := |s| - |t|;
    TrimStartSuffix(s);
    TrimStartSpaces(s);
    WordsUnfold(s);
    if t == [] {
      forall i | 0 <= i < |s| ensures IsSpace(s[i]) {
        assert s[i] == s[..k][i];
      }
    } else {
      assert t[0] == s[k];
    }
  }

  /** Python's `sep.join(parts)`. */
  function Join(sep: string, parts: seq<string>): string {
    if parts == [] then []
    else if |parts| == 1 then parts[0]
    else parts[0] + sep + Join(sep, parts[1..])
  }

  lemma JoinCons(sep: string, w: string, rest: seq<string>)
    ensures Join(sep, [w] + rest) == if rest == [] then w else w + sep + Join(sep, rest)
  {
    assert ([w] + rest)[1..] == rest;
  }

  /** Joining non-empty stripped parts with a separator gives a stripped string that starts with the first part. */
  lemma {:induction false} JoinStripped(sep: string, parts: seq<string>)
    requires forall k :: 0 <= k < |parts| ==> parts[k] != [] && IsStripped(parts[k])
    ensures parts != [] ==> Join(sep, parts) != [] && IsStripped(Join(sep, parts))
    ensures parts != [] ==> Join(sep, parts)[..|parts[0]|] == parts[0]
    decreases |parts|
  {
    if |parts| > 1 {
      var rest := parts[1..];
      assert forall k :: 0 <= k < |rest| ==> rest[k] == parts[k + 1];
      JoinStripped(sep, rest);
      var j := Join(sep, parts);
      assert j == parts[0] + sep + Join(sep, rest);
      assert j[|j| - 1] == Join(sep, rest)[|Join(sep, rest)| - 1];
    }
  }

  lemma WordsUnfold(s: string)
    ensures TrimStart(s) == [] ==> Words(s) == []
    ensures TrimStart(s) != [] ==>
      var t := TrimStart(s);
      var w := TakeWord(t);
      w != [] && Words(s) == [w] + Words(t[|w|..]) && |t[|w|..]| < |s|
  {
    var t := TrimStart(s);
    if t != [] {
      assert !IsSpace(t[0]);
    }
  }

  lemma RemoveSpaceTrimStart(s: string)
    ensures RemoveSpace(s) == RemoveSpace(TrimStart(s))
  {
    var t := TrimStart(s);
    var k := |s| - |t|;
    TrimStartSuffix(s);
    TrimStartSpaces(s);
    assert s == s[..k] + t;
    RemoveSpaceAppend(s[..k], t);
    RemoveSpaceOfSpace(s[..k]);
  }

  lemma RemoveSpaceWordThenRest(t: string)
    ensures RemoveSpace(t) == TakeWord(t) + RemoveSpace(t[|TakeWord(t)|..])
  {
    var w := TakeWord(t);
    assert t == w + t[|w|..];
    RemoveSpaceAppend(w, t[|w|..]);
    RemoveSpaceOfWord(w);
  }

  /** `"".join(s.split())` is `s` with all whitespace removed. */
  lemma {:induction false} JoinWordsRemovesSpace(s: string)
    ensures Join("", Words(s)) == RemoveSpace(s)
    decreases |s|
  {
    WordsUnfold(s);
    RemoveSpaceTrimStart(s);
    var t := TrimStart(s);
    if t != [] {
      var w := TakeWord(t);
      var rest := t[|w|..];
      var ws := Words(rest);
      RemoveSpaceWordThenRest(t);
      JoinWordsRemovesSpace(rest);
      JoinCons("", w, ws);
      assert Words(s) == [w] + ws;
      assert RemoveSpace(s) == w + RemoveSpace(rest);
      assert w + "" == w;
    }
  }

  lemma {:induction false} JoinWordsIsStripped(ws: seq<string>)
    requires forall k :: 0 <= k < |ws| ==> IsWord(ws[k])
    ensures IsStripped(Join(" ", ws))
    ensures ws != [] ==> Join(" ", ws) != []
  {
    if |ws| > 1 {
      JoinWordsIsStripped(ws[1..]);
      var j := Join(" ", ws[1..]);
      assert (ws[0] + " " + j)[0] == ws[0][0];
      assert (ws[0] + " " + j)[|ws[0] + " " + j| - 1] == j[|j| - 1];
    }
  }

  /**
   * Python's `" ".join(s.split()).strip()`: the words of `s` separated by
   * single spaces.
   */
  function NormalizeSpace(s: string): string {
    Strip(Join(" ", Words(s)))
  }

  /** The trailing `strip()` is a no-op, and the result has no outer whitespace. */
  lemma NormalizeSpaceIsJoin(s: string)
    ensures NormalizeSpace(s) == Join(" ", Words(s))
    ensures IsStripped(NormalizeSpace(s))
  {
    WordsAreWords(s);
    JoinWordsIsStripped(Words(s));
  }

  // ---------------------------------------------------------------- split(sep)

  /** Python's `s.split(c)` for a one-character separator. */
  function SplitOn(s: string, c: char): (parts: seq<string>)
    ensures |parts| >= 1
  {
    if s == [] then [[]]
    else
      var rest := SplitOn(s[1..], c);
      if s[0] == c then [[]] + rest else [[s[0]] + rest[0]] + rest[1..]
  }

  /** `split(c)` has a second part exactly when `c` occurs, and its first part is the text before the first `c`. */
  lemma {:induction false} SplitOnFirst(s: string, c: char)
    ensures |SplitOn(s, c)| >= 2 <==> c in s
    ensures var p := SplitOn(s, c)[0];
      |p| <= |s| && p == s[..|p|] && c !in p && (c in s ==> s[|p|] == c)
  {
    if s != [] {
      SplitOnFirst(s[1..], c);
    }
  }

  /** Joining the parts of `split(c)` with `c` gives back the string. */
  lemma {:induction false} SplitOnJoin(s: string, c: char)
    ensures Join([c], SplitOn(s, c)) == s
  {
    if s != [] {
      var rest := SplitOn(s[1..], c);
      SplitOnJoin(s[1..], c);
      if s[0] == c {
        JoinCons([c], [], rest);
        if |rest| == 1 {
          assert Join([c], rest) == rest[0];
        }
      } else {
        JoinCons([c], [s[0]] + rest[0], rest[1..]);
        if |rest| == 1 {
          assert rest == [rest[0]];
        } else {
          assert rest == [rest[0]] + rest[1..];
          JoinCons([c], rest[0], rest[1..]);
        }
      }
    }
  }

  /** The first part of `(a + c + b).split(c)` is `a` when `a` has no `c`. */
  lemma {:induction false} SplitOnPrefix(a: string, c: char, b: string)
    requires c !in a
    ensures SplitOn(a + [c] + b, c)[0] == a
  {
    var s := a + [c] + b;
    SplitOnFirst(s, c);
    var p := SplitOn(s, c)[0];
    assert s[|a|] == c;
    assert |p| == |a|;
    assert p == s[..|a|] == a;
  }

  // ---------------------------------------------------------------- prefixes and substrings

  /** Python's `s.startswith(p)`. */
  predicate StartsWith(s: string, p: string) {
    |p| <= |s| && s[..|p|] == p
  }

  /** Python's `s.endswith(p)`. */
  predicate EndsWith(s: string, p: string) {
    |p| <= |s| && s[|s| - |p|..] == p
  }

  /** Python's `sub in s`. */
  predicate Contains(s: string, sub: string)
    decreases |s|
  {
    StartsWith(s, sub) || (s != [] && Contains(s[1..], sub))
  }

  /** `sub in s` holds iff `sub` starts at some position of `s`. */
  lemma {:induction false} ContainsIff(s: string, sub: string)
    ensures Contains(s, sub) <==> exists i :: 0 <= i <= |s| && StartsWith(s[i..], sub)
    decreases |s|
  {
    if StartsWith(s, sub) {
      assert s[0..] == s;
    }
    if s != [] {
      ContainsIff(s[1..], sub);
      if exists i :: 0 <= i <= |s| && StartsWith(s[i..], sub) {
        var i :| 0 <= i <= |s| && StartsWith(s[i..], sub);
        if i > 0 {
          assert s[1..][i - 1..] == s[i..];
        } else {
          assert s[i..] == s;
        }
      }
      if Contains(s[1..], sub) {
        var i :| 0 <= i <= |s| - 1 && StartsWith(s[1..][i..], sub);
        assert s[1..][i..] == s[i + 1..];
      }
    } else {
      if exists i :: 0 <= i <= |s| && StartsWith(s[i..], sub) {
        var i :| 0 <= i <= |s| && StartsWith(s[i..], sub);
        assert i == 0 && s[i..] == s;
      }
    }
  }

  lemma ContainsAtEnd(x: string, m: string)
    ensures Contains(x + m, m)
  {
    assert (x + m)[|x|..] == m;
    assert StartsWith((x + m)[|x|..], m);
    ContainsIff(x + m, m);
  }

  lemma ContainsExtendRight(s: string, z: string, m: string)
    requires Contains(s, m)
    ensures Contains(s + z, m)
  {
    ContainsIff(s, m);
    var i :| 0 <= i <= |s| && StartsWith(s[i..], m);
    assert (s + z)[i..][..|m|] == s[i..][..|m|];
    assert StartsWith((s + z)[i..], m);
    ContainsIff(s + z, m);
  }

  lemma ContainsExtendLeft(x: string, s: string, m: string)
    requires Contains(s, m)
    ensures Contains(x + s, m)
  {
    ContainsIff(s, m);
    var i :| 0 <= i <= |s| && StartsWith(s[i..], m);
    assert (x + s)[|x| + i..] == s[i..];
    ContainsIff(x + s, m);
  }

  lemma TakeWordOfWord(w: string)
    requires IsWord(w)
    ensures TrimStart(w) == w && TakeWord(w) == w
  {
    var k := TakeWord(w);
    assert |k| == |w|;
  }

  /** `split()` of a single word is that word. */
  lemma WordsOfWord(w: string)
    requires IsWord(w)
    ensures Words(w) == [w]
  {
    TakeWordOfWord(w);
    WordsUnfold(w);
    assert w[|w|..] == [];
    WordsUnfold([]);
  }

  /** Every string contains itself. */
  lemma ContainsSelf(s: string)
    ensures Contains(s, s)
  {
    assert s[..|s|] == s;
  }

  /** Python's `s.replace(pat, "")` for a non-empty pattern: occurrences are removed left to right. */
  function RemoveAll(s: string, pat: string): (r: string)
    requires pat != []
    ensures |r| <= |s|
    decreases |s|
  {
    if StartsWith(s, pat) then RemoveAll(s[|pat|..], pat)
    else if s == [] then []
    else [s[0]] + RemoveAll(s[1..], pat)
  }

  /**
   * When the pattern's first character occurs nowhere else in it, and `s`
   * does not contain the pattern, `replace(pat, "")` of `s + pat` gives `s`
   * back: no occurrence straddles the boundary.
   */
  lemma {:induction false} RemoveAllSuffix(s: string, pat: string)
    requires pat != [] && forall k :: 0 < k < |pat| ==> pat[k] != pat[0]
    requires !Contains(s, pat)
    ensures RemoveAll(s + pat, pat) == s
    decreases |s|
  {
    var t := s + pat;
    if s == [] {
      assert t == pat && t[..|pat|] == pat;
      assert t[|pat|..] == [];
    } else {
      if |s| >= |pat| {
        assert t[..|pat|] == s[..|pat|];
      } else {
        assert t[|s|] == pat[0];
      }
      assert !StartsWith(t, pat);
      assert t[1..] == s[1..] + pat;
      RemoveAllSuffix(s[1..], pat);
      assert [s[0]] + s[1..] == s;
    }
  }

  // ---------------------------------------------------------------- digits and integers

  predicate IsDigit(c: char) {
    '0' <= c <= '9'
  }

  /** Python's `s.isdigit()` restricted to ASCII digits: false for the empty string. */
  predicate IsDigits(s: string) {
    |s| > 0 && forall i :: 0 <= i < |s| ==> IsDigit(s[i])
  }

  /** Python's `str.isalnum()` for one character, restricted to ASCII. */
  predicate IsAlnum(c: char) {
    IsDigit(c) || 'a' <= c <= 'z' || 'A' <= c <= 'Z'
  }

  function DigitValue(c: char): nat
    requires IsDigit(c)
  {
    c as int - '0' as int
  }

  /** The decimal value of a string of ASCII digits. */
  function DigitsValue(s: string): nat
    requires forall i :: 0 <= i < |s| ==> IsDigit(s[i])
  {
    if s == [] then 0 else 10 * DigitsValue(s[..|s| - 1]) + DigitValue(s[|s| - 1])
  }

  function DigitChar(d: nat): (c: char)
    requires d < 10
    ensures IsDigit(c) && DigitValue(c) == d
  {
    ('0' as int + d) as char
  }

  /** Python's `str(n)` for a non-negative integer. */
  function NatToString(n: nat): (r: string)
    ensures IsDigits(r)
  {
    if n < 10 then [DigitChar(n)] else NatToString(n / 10) + [DigitChar(n % 10)]
  }

  lemma {:induction false} NatToStringValue(n: nat)
    ensures DigitsValue(NatToString(n)) == n
  {
    if n >= 10 {
      var r := NatToString(n);
      assert r[..|r| - 1] == NatToString(n / 10);
      NatToStringValue(n / 10);
    }
  }

  /** Python's `str(i)` for an integer. */
  function IntToString(i: int): string {
    if i < 0 then "-" + NatToString(-i) else NatToString(i)
  }

  /**
   * Python's `int(s)` for a string: optional surrounding whitespace, an
   * optional sign, then one or more ASCII digits; anything else is a
   * `ValueError`, here `None`.
   */
  function ParseInt(s: string): Option<int> {
    var t := Strip(s);
    if t != [] && (t[0] == '-' || t[0] == '+') then
      if IsDigits(t[1..]) then
        var v: int := DigitsValue(t[1..]);
        Some(if t[0] == '-' then -v else v)
      else None
    else if IsDigits(t) then Some(DigitsValue(t))
    else None
  }

  /** `int(str(i)) == i`. */
  lemma ParseIntToString(i: int)
    ensures ParseInt(IntToString(i)) == Some(i)
  {
    var s := IntToString(i);
    var d := NatToString(if i < 0 then -i else i);
    NatToStringValue(if i < 0 then -i else i);
    assert IsStripped(s);
    StripNoop(s);
    if i < 0 {
      assert s[1..] == d;
    }
  }
}
