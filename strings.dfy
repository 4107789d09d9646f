/**
 * The PHP string primitives the upload layer relies on, stated on `seq<char>`:
 * `explode`/`implode` on a one-character separator, `str_replace` of one
 * character, `ltrim` with a character mask, `basename`, the extension part
 * of `pathinfo`, and decimal rendering of a natural number.
 */
module Strings {

  /** Index of the first occurrence of `c` in `s`, or `|s|` when there is none. */
  function IndexOf(s: string, c: char): (i: nat)
    ensures i <= |s|
    ensures i < |s| ==> s[i] == c
    ensures forall j :: 0 <= j < i ==> s[j] != c
  {
    if |s| == 0 then 0
    else if s[0] == c then 0
    else 1 + IndexOf(s[1..], c)
  }

  /** PHP `explode(sep, s)`: the pieces between separators, at least one. */
  function Split(s: string, sep: char): (parts: seq<string>)
    ensures |parts| >= 1
    ensures forall k :: 0 <= k < |parts| ==> sep !in parts[k]
    decreases |s|
  {
    var i := IndexOf(s, sep);
    if i == |s| then [s] else [s[..i]] + Split(s[i + 1..], sep)
  }

  /** PHP `implode(sep, parts)`. */
  function Join(parts: seq<string>, sep: char): string
  {
    if |parts| == 0 then ""
    else if |parts| == 1 then parts[0]
    else parts[0] + [sep] + Join(parts[1..], sep)
  }

  /** Joining the pieces of a split gives back the original string. */
  lemma {:induction false} JoinSplit(s: string, sep: char)
    ensures Join(Split(s, sep), sep) == s
    decreases |s|
  {
    var i := IndexOf(s, sep);
    if i < |s| {
      var rest := s[i + 1..];
      assert s[i] == sep;
      assert s == s[..i] + [sep] + rest;
      JoinSplit(rest, sep);
      assert Split(s, sep) == [s[..i]] + Split(rest, sep);
      JoinCons(s[..i], Split(rest, sep), sep);
    }
  }

  lemma JoinCons(a: string, tail: seq<string>, sep: char)
    requires |tail| >= 1
    ensures Join([a] + tail, sep) == a + [sep] + Join(tail, sep)
  {
    var parts := [a] + tail;
    assert parts[0] == a && parts[1..] == tail;
  }

  lemma IndexOfSeparated(a: string, sep: char, b: string)
    requires sep !in a
    ensures IndexOf(a + [sep] + b, sep) == |a|
  {
    var s := a + [sep] + b;
    assert s[|a|] == sep;
    assert forall j :: 0 <= j < |a| ==> s[j] == a[j] && s[j] != sep;
  }

  /** Splitting a join of separator-free pieces recovers the pieces. */
  lemma {:induction false} SplitJoin(parts: seq<string>, sep: char)
    requires |parts| >= 1
    requires forall k :: 0 <= k < |parts| ==> sep !in parts[k]
    ensures Split(Join(parts, sep), sep) == parts
  {
    if |parts| == 1 {
      var s := parts[0];
      assert forall j :: 0 <= j < |s| ==> s[j] != sep;
    } else {
      var rest := Join(parts[1..], sep);
      var s := parts[0] + [sep] + rest;
      assert Join(parts, sep) == s;
      IndexOfSeparated(parts[0], sep, rest);
      assert s[..|parts[0]|] == parts[0];
      assert s[|parts[0]| + 1..] == rest;
      SplitJoin(parts[1..], sep);
      assert [parts[0]] + parts[1..] == parts;
    }
  }

  /** PHP `str_replace(from, to, s)` for single characters. */
  function ReplaceChar(s: string, from: char, to: char): (r: string)
    ensures |r| == |s|
    ensures forall i :: 0 <= i < |s| ==> r[i] == (if s[i] == from then to else s[i])
  {
    if |s| == 0 then ""
    else [if s[0] == from then to else s[0]] + ReplaceChar(s[1..], from, to)
  }

  /** After replacing, `from` no longer occurs, and replacing again changes nothing. */
  lemma ReplaceCharRemoves(s: string, from: char, to: char)
    requires from != to
    ensures from !in ReplaceChar(s, from, to)
    ensures ReplaceChar(ReplaceChar(s, from, to), from, to) == ReplaceChar(s, from, to)
  {
    var r := ReplaceChar(s, from, to);
    assert forall i :: 0 <= i < |r| ==> r[i] != from;
    var rr := ReplaceChar(r, from, to);
    assert forall i :: 0 <= i < |r| ==> rr[i] == r[i];
  }

  /**
   * PHP `ltrim(s, mask)`: drops every leading character that occurs anywhere
   * in `mask` (a character set, not a prefix).
   */
  function LTrim(s: string, mask: string): (r: string)
    ensures |r| <= |s| && r == s[|s| - |r|..]
    ensures forall j :: 0 <= j < |s| - |r| ==> s[j] in mask
    ensures r == "" || r[0] !in mask
  {
    if |s| > 0 && s[0] in mask then
      var t := LTrim(s[1..], mask);
      LTrimStep(s, mask, t);
      t
    else s
  }

  /** Stripping one more mask character in front keeps the suffix properties. */
  lemma LTrimStep(s: string, mask: string, t: string)
    requires |s| > 0 && s[0] in mask
    requires |t| <= |s| - 1 && t == s[1..][|s| - 1 - |t|..]
    requires forall j :: 0 <= j < |s| - 1 - |t| ==> s[1..][j] in mask
    ensures t == s[|s| - |t|..]
    ensures forall j :: 0 <= j < |s| - |t| ==> s[j] in mask
  {
    assert forall j :: 1 <= j < |s| - |t| ==> s[j] == s[1..][j - 1];
  }

  /** The three properties of `LTrim` determine its result: any such suffix is it. */
  lemma {:induction false} LTrimUnique(s: string, mask: string, t: string)
    requires |t| <= |s| && t == s[|s| - |t|..]
    requires forall j :: 0 <= j < |s| - |t| ==> s[j] in mask
    requires t == "" || t[0] !in mask
    ensures LTrim(s, mask) == t
    decreases |s|
  {
    if |t| == |s| {
      assert t == s;
    } else {
      assert s[0] in mask;
      var rest := s[1..];
      assert t == rest[|rest| - |t|..];
      assert forall j :: 0 <= j < |rest| - |t| ==> rest[j] == s[j + 1];
      LTrimUnique(rest, mask, t);
    }
  }

  /** The longest suffix of `s` free of `c`: the text after the last `c`. */
  function AfterLast(s: string, c: char): (r: string)
    ensures |r| <= |s| && r == s[|s| - |r|..]
    ensures c !in r
    ensures |r| < |s| ==> s[|s| - |r| - 1] == c
  {
    if |s| == 0 then ""
    else if s[|s| - 1] == c then ""
    else AfterLast(s[..|s| - 1], c) + [s[|s| - 1]]
  }

  lemma AfterLastNone(s: string, c: char)
    requires c !in s
    ensures AfterLast(s, c) == s
  {
    assert forall k :: 0 <= k < |s| ==> s[k] != c;
  }

  lemma AfterLastSplit(a: string, c: char, b: string)
    requires c !in b
    ensures AfterLast(a + [c] + b, c) == b
  {
    var s := a + [c] + b;
    assert s[|s| - |b| - 1] == c;
    assert forall k :: |s| - |b| <= k < |s| ==> s[k] == b[k - (|s| - |b|)] && s[k] != c;
    assert s[|s| - |b|..] == b;
  }

  /** `s` with every trailing `c` removed. */
  function DropTrailing(s: string, c: char): (r: string)
    ensures |r| <= |s| && r == s[..|r|]
    ensures r == "" || r[|r| - 1] != c
    ensures forall j :: |r| <= j < |s| ==> s[j] == c
  {
    if |s| > 0 && s[|s| - 1] == c then DropTrailing(s[..|s| - 1], c) else s
  }

  /** PHP `basename(p)`: trailing slashes dropped, then the last component. */
  function Basename(p: string): string
  {
    AfterLast(DropTrailing(p, '/'), '/')
  }

  /** PHP `pathinfo(p, PATHINFO_EXTENSION)`: text after the last dot of the basename, or "". */
  function Extension(p: string): string
  {
    var b := Basename(p);
    if '.' in b then AfterLast(b, '.') else ""
  }

  /** A name made of a dot-free, slash-free stem, a dot and an extension has that extension. */
  lemma ExtensionOf(stem: string, ext: string)
    requires '/' !in stem && '/' !in ext && '.' !in ext
    ensures Extension(stem + "." + ext) == ext
  {
    var s := stem + "." + ext;
    assert s == stem + ['.'] + ext;
    assert '/' !in s;
    assert DropTrailing(s, '/') == s;
    AfterLastNone(s, '/');
    AfterLastSplit(stem, '.', ext);
    assert '.' in s;
  }

  /** The last component of `dir/name` is `name` when `name` is non-empty and slash-free. */
  lemma BasenameOfJoined(dir: string, name: string)
    requires name != "" && '/' !in name
    ensures Basename(dir + "/" + name) == name
  {
    var s := dir + "/" + name;
    assert s[|s| - 1] == name[|name| - 1];
    assert name[|name| - 1] in name;
    assert DropTrailing(s, '/') == s;
    assert s == dir + ['/'] + name;
    AfterLastSplit(dir, '/', name);
  }

  predicate IsDigit(c: char)
  {
    '0' <= c <= '9'
  }

  predicate AllDigits(s: string)
  {
    forall i :: 0 <= i < |s| ==> IsDigit(s[i])
  }

  function DigitChar(d: nat): (c: char)
    requires d < 10
    ensures IsDigit(c)
  {
    ('0' as int + d) as char
  }

  /** Decimal rendering of `n`, as PHP's string conversion of an integer. */
  function NatToString(n: nat): (s: string)
    ensures |s| >= 1 && AllDigits(s)
  {
    if n < 10 then [DigitChar(n)] else NatToString(n / 10) + [DigitChar(n % 10)]
  }

  /** The number a string of decimal digits denotes. */
  function DigitsValue(s: string): nat
    requires AllDigits(s)
  {
    if |s| == 0 then 0
    else DigitsValue(s[..|s| - 1]) * 10 + (s[|s| - 1] as int - '0' as int)
  }

  /** Reading back the decimal rendering gives the number. */
  lemma {:induction false} DigitsRoundTrip(n: nat)
    ensures DigitsValue(NatToString(n)) == n
  {
    if n >= 10 {
      DigitsRoundTrip(n / 10);
      var s := NatToString(n);
      assert s[..|s| - 1] == NatToString(n / 10);
    }
  }

  function Pow10(k: nat): nat
  {
    if k == 0 then 1 else 10 * Pow10(k - 1)
  }

  /** A number with k + 1 decimal digits renders as k + 1 characters. */
  lemma {:induction false} NatToStringLength(n: nat, k: nat)
    requires Pow10(k) <= n < Pow10(k + 1)
    ensures |NatToString(n)| == k + 1
  {
    if k > 0 {
      NatToStringLength(n / 10, k - 1);
    }
  }
}
