/**
 * The .NET string and number-text operations the mod relies on, stated over
 * `string` (a sequence of characters): Split on one character, Join, Trim,
 * StartsWith with and without case, IndexOf, and the ToString/TryParse pairs of
 * Int32, Int64 and Boolean. Floating-point text is left abstract: a `RealFormat`
 * pairs a printer with a parser, and properties that need a round trip ask for it
 * value by value.
 */
module Strings {
  import opened Wrappers

  newtype byte = b: int | 0 <= b < 256

  const INT32_MIN: int := -0x8000_0000
  const INT32_MAX: int := 0x7FFF_FFFF
  const INT64_MIN: int := -0x8000_0000_0000_0000
  const INT64_MAX: int := 0x7FFF_FFFF_FFFF_FFFF

  /** Tab, line feed, vertical tab, form feed, carriage return and space: the white
      space .NET number parsing skips, and the set this model's Trim removes. */
  const WhiteSpace: set<char> := {' ', '\t', '\n', '\U{000B}', '\U{000C}', '\r'}

  // ---------------------------------------------------------------- Split and Join

  /** String.Split(sep): the pieces between occurrences of `sep`, in order. The result
      is never empty (the empty string splits into one empty piece). */
  function Split(s: string, sep: char): (parts: seq<string>)
    ensures |parts| >= 1
    ensures forall i :: 0 <= i < |parts| ==> sep !in parts[i]
    decreases |s|
  {
    if s == [] then [[]]
    else
      var rest := Split(s[1..], sep);
      if s[0] == sep then [[]] + rest
      else [[s[0]] + rest[0]] + rest[1..]
  }

  /** String.Join(sep, parts). */
  function Join(parts: seq<string>, sep: string): string
  {
    if |parts| == 0 then []
    else if |parts| == 1 then parts[0]
    else parts[0] + sep + Join(parts[1..], sep)
  }

  lemma {:induction false} SplitWithoutSeparator(s: string, sep: char)
    requires sep !in s
    ensures Split(s, sep) == [s]
    decreases |s|
  {
    if s != [] {
      SplitWithoutSeparator(s[1..], sep);
      assert [s[0]] + s[1..] == s;
    }
  }

  lemma {:induction false} SplitAtFirstSeparator(p: string, sep: char, rest: string)
    requires sep !in p
    ensures Split(p + [sep] + rest, sep) == [p] + Split(rest, sep)
    decreases |p|
  {
    var s := p + [sep] + rest;
    if p == [] {
      assert s[1..] == rest;
    } else {
      assert s[1..] == p[1..] + [sep] + rest;
      SplitAtFirstSeparator(p[1..], sep, rest);
      assert [p[0]] + p[1..] == p;
    }
  }

  /** Splitting a join of separator-free pieces gives the pieces back. */
  lemma {:induction false} SplitJoin(parts: seq<string>, sep: char)
    requires |parts| >= 1
    requires forall i :: 0 <= i < |parts| ==> sep !in parts[i]
    ensures Split(Join(parts, [sep]), sep) == parts
    decreases |parts|
  {
    if |parts| == 1 {
      SplitWithoutSeparator(parts[0], sep);
    } else {
      SplitJoin(parts[1..], sep);
      SplitAtFirstSeparator(parts[0], sep, Join(parts[1..], [sep]));
      assert [parts[0]] + parts[1..] == parts;
    }
  }

  /** Two pieces without the separator, joined by it, split back into the two pieces. */
  lemma SplitPair(a: string, b: string, sep: char)
    requires sep !in a && sep !in b
    ensures Split(a + [sep] + b, sep) == [a, b]
  {
    var parts := [a, b];
    assert Join(parts, [sep]) == a + [sep] + b;
    SplitJoin(parts, sep);
  }

  /** A join starts with the first character of its first piece. */
  lemma JoinStart(parts: seq<string>, sep: string)
    requires |parts| >= 1 && parts[0] != []
    ensures Join(parts, sep) != [] && Join(parts, sep)[0] == parts[0][0]
  {
    if |parts| > 1 {
      assert Join(parts, sep) == parts[0] + (sep + Join(parts[1..], sep));
    }
  }

  /** A join ends with the last character of its last piece. */
  lemma {:induction false} JoinEnd(parts: seq<string>, sep: string)
    requires |parts| >= 1 && parts[|parts| - 1] != []
    ensures var j := Join(parts, sep); var l := parts[|parts| - 1];
            j != [] && j[|j| - 1] == l[|l| - 1]
    decreases |parts|
  {
    if |parts| > 1 {
      JoinEnd(parts[1..], sep);
    }
  }

  /** A character in neither the pieces nor the separator is not in their join. */
  lemma {:induction false} JoinAvoids(parts: seq<string>, sep: string, ch: char)
    requires ch !in sep
    requires forall i :: 0 <= i < |parts| ==> ch !in parts[i]
    ensures ch !in Join(parts, sep)
    decreases |parts|
  {
    if |parts| > 1 {
      JoinAvoids(parts[1..], sep, ch);
    }
  }

  // ---------------------------------------------------------------- Trim

  function TrimStart(s: string, cs: set<char>): (r: string)
    ensures |r| <= |s|
    ensures r == [] || r[0] !in cs
    ensures forall i :: 0 <= i < |s| - |r| ==> s[i] in cs
    decreases |s|
  {
    if s != [] && s[0] in cs then TrimStart(s[1..], cs) else s
  }

  /** What TrimStart keeps is a suffix of its input. */
  lemma {:induction false} TrimStartSuffix(s: string, cs: set<char>)
    ensures TrimStart(s, cs) == s[|s| - |TrimStart(s, cs)|..]
    decreases |s|
  {
    if s != [] && s[0] in cs {
      TrimStartSuffix(s[1..], cs);
    }
  }

  function TrimEnd(s: string, cs: set<char>): (r: string)
    ensures |r| <= |s| && r == s[..|r|]
    ensures r == [] || r[|r| - 1] !in cs
    ensures forall i :: |r| <= i < |s| ==> s[i] in cs
    decreases |s|
  {
    if s != [] && s[|s| - 1] in cs then TrimEnd(s[..|s| - 1], cs) else s
  }

  /** String.Trim(chars): drops the given characters from both ends. */
  function TrimSet(s: string, cs: set<char>): string
  {
    TrimEnd(TrimStart(s, cs), cs)
  }

  /** String.Trim(). */
  function Trim(s: string): string
  {
    TrimSet(s, WhiteSpace)
  }

  /** Neither end of `s` is one of `cs`. */
  predicate Bare(s: string, cs: set<char>)
  {
    s == [] || (s[0] !in cs && s[|s| - 1] !in cs)
  }

  lemma {:induction false} TrimStartDrops(a: string, t: string, cs: set<char>)
    requires forall i :: 0 <= i < |a| ==> a[i] in cs
    requires t == [] || t[0] !in cs
    ensures TrimStart(a + t, cs) == t
    decreases |a|
  {
    if a == [] {
      assert a + t == t;
    } else {
      assert (a + t)[1..] == a[1..] + t;
      TrimStartDrops(a[1..], t, cs);
    }
  }

  lemma {:induction false} TrimEndDrops(t: string, b: string, cs: set<char>)
    requires forall i :: 0 <= i < |b| ==> b[i] in cs
    requires t == [] || t[|t| - 1] !in cs
    ensures TrimEnd(t + b, cs) == t
    decreases |b|
  {
    if b == [] {
      assert t + b == t;
    } else {
      assert (t + b)[..|t + b| - 1] == t + b[..|b| - 1];
      TrimEndDrops(t, b[..|b| - 1], cs);
    }
  }

  /** Trimming removes padding made only of trimmed characters and nothing else. */
  /** Trimming adds no character. */
  lemma {:induction false} TrimStartAvoids(s: string, cs: set<char>, ch: char)
    requires ch !in s
    ensures ch !in TrimStart(s, cs)
    decreases |s|
  {
    if s != [] && s[0] in cs {
      TrimStartAvoids(s[1..], cs, ch);
    }
  }

  lemma TrimSetPadding(a: string, s: string, b: string, cs: set<char>)
    requires forall i :: 0 <= i < |a| ==> a[i] in cs
    requires forall i :: 0 <= i < |b| ==> b[i] in cs
    requires Bare(s, cs)
    ensures TrimSet(a + s + b, cs) == s
  {
    if s == [] {
      assert a + s + b == (a + b) + [];
      TrimStartDrops(a + b, [], cs);
    } else {
      assert a + s + b == a + (s + b);
      TrimStartDrops(a, s + b, cs);
      TrimEndDrops(s, b, cs);
    }
  }

  lemma TrimSetKeeps(s: string, cs: set<char>)
    requires Bare(s, cs)
    ensures TrimSet(s, cs) == s
  {
    assert [] + s + [] == s;
    TrimSetPadding([], s, [], cs);
  }

  lemma {:induction false} TrimStartAppend(s: string, ch: char, cs: set<char>)
    requires ch in cs
    ensures TrimStart(s + [ch], cs)
            == if TrimStart(s, cs) == [] then [] else TrimStart(s, cs) + [ch]
    decreases |s|
  {
    if s == [] {
      assert (s + [ch])[1..] == [];
    } else if s[0] in cs {
      assert (s + [ch])[1..] == s[1..] + [ch];
      TrimStartAppend(s[1..], ch, cs);
    }
  }

  /** A trailing trimmed character makes no difference to the trim. */
  lemma TrimSetTrailing(s: string, ch: char, cs: set<char>)
    requires ch in cs
    ensures TrimSet(s + [ch], cs) == TrimSet(s, cs)
  {
    TrimStartAppend(s, ch, cs);
    var t := TrimStart(s, cs);
    if t != [] {
      assert (t + [ch])[..|t|] == t;
    }
  }

  // ---------------------------------------------------------------- case and search

  function LowerChar(c: char): char
  {
    if 'A' <= c <= 'Z' then (c as int + 32) as char else c
  }

  function Lower(s: string): (r: string)
    ensures |r| == |s|
  {
    seq(|s|, i requires 0 <= i < |s| => LowerChar(s[i]))
  }

  predicate StartsWith(s: string, prefix: string)
  {
    |prefix| <= |s| && s[..|prefix|] == prefix
  }

  /** StartsWith(prefix, StringComparison.InvariantCultureIgnoreCase), with case folding
      limited to the letters A to Z. */
  predicate StartsWithIgnoreCase(s: string, prefix: string)
  {
    StartsWith(Lower(s), Lower(prefix))
  }

  /** `pat` occurs in `s` starting at position j. */
  predicate OccursAt(s: string, pat: string, j: int)
  {
    0 <= j <= |s| - |pat| && s[j..j + |pat|] == pat
  }

  /** String.IndexOf(pattern) for a non-empty pattern: the first position where the
      pattern occurs, or -1 when it does not occur. */
  function IndexOf(s: string, pat: string): (r: int)
    requires pat != []
    ensures r == -1 || OccursAt(s, pat, r)
    ensures r >= 0 ==> forall j :: 0 <= j < r ==> !OccursAt(s, pat, j)
    ensures r == -1 ==> forall j :: !OccursAt(s, pat, j)
    decreases |s|
  {
    if |s| < |pat| then -1
    else if s[..|pat|] == pat then 0
    else
      var k := IndexOf(s[1..], pat);
      forall j | 1 <= j
        ensures OccursAt(s, pat, j) <==> OccursAt(s[1..], pat, j - 1)
      {
        if 1 <= j <= |s| - |pat| {
          var u, v := s[j..j + |pat|], s[1..][j - 1..j - 1 + |pat|];
          assert forall k | 0 <= k < |pat| :: u[k] == v[k];
          assert u == v;
        }
      }
      if k < 0 then -1 else k + 1
  }

  // ---------------------------------------------------------------- integers

  predicate IsDigit(c: char)
  {
    '0' <= c <= '9'
  }

  predicate AllDigits(s: string)
  {
    forall i :: 0 <= i < |s| ==> IsDigit(s[i])
  }

  function DigitChar(d: int): char
    requires 0 <= d < 10
  {
    ('0' as int + d) as char
  }

  function DigitValue(c: char): int
    requires IsDigit(c)
  {
    c as int - '0' as int
  }

  /** The decimal digits of n, most significant first, without leading zeros. */
  function NatToString(n: nat): (s: string)
    ensures |s| >= 1 && AllDigits(s)
  {
    if n < 10 then [DigitChar(n)] else NatToString(n / 10) + [DigitChar(n % 10)]
  }

  /** Int32.ToString() and Int64.ToString(): an optional minus sign and the digits. */
  function IntToString(n: int): string
  {
    if n < 0 then "-" + NatToString(-n) else NatToString(n)
  }

  function DigitsValue(s: string): nat
    requires AllDigits(s)
  {
    if s == [] then 0 else DigitsValue(s[..|s| - 1]) * 10 + DigitValue(s[|s| - 1])
  }

  /** Int32.TryParse / Int64.TryParse with NumberStyles.Integer: optional white space
      around, an optional leading sign, one or more ASCII digits, and a value that fits
      the type's range [lo, hi]; anything else fails. */
  function TryParseInteger(s: string, lo: int, hi: int): (r: Option<int>)
    ensures r.Some? ==> lo <= r.value <= hi
  {
    var t := Trim(s);
    var signed := |t| > 0 && (t[0] == '-' || t[0] == '+');
    var digits := if signed then t[1..] else t;
    if digits == [] || !AllDigits(digits) then None
    else
      var v: int := if signed && t[0] == '-' then 0 - DigitsValue(digits) as int else DigitsValue(digits);
      if lo <= v <= hi then Some(v) else None
  }

  function ParseInt32(s: string): (r: Option<int>)
    ensures r.Some? ==> INT32_MIN <= r.value <= INT32_MAX
  {
    TryParseInteger(s, INT32_MIN, INT32_MAX)
  }

  function ParseInt64(s: string): (r: Option<int>)
    ensures r.Some? ==> INT64_MIN <= r.value <= INT64_MAX
  {
    TryParseInteger(s, INT64_MIN, INT64_MAX)
  }

  lemma {:induction false} DigitsOfNat(n: nat)
    ensures DigitsValue(NatToString(n)) == n
  {
    if n >= 10 {
      var s := NatToString(n);
      DigitsOfNat(n / 10);
      assert s[..|s| - 1] == NatToString(n / 10);
    }
  }

  /** Printed integers are clean tokens: non-empty, no white space, no separator. */
  lemma IntToStringPlain(n: int)
    ensures Plain(IntToString(n))
  {
    var m: nat := if n < 0 then -n else n;
    var s := IntToString(n);
    assert AllDigits(NatToString(m));
    assert forall i :: 0 <= i < |s| ==> s[i] == '-' || IsDigit(s[i]);
  }

  /** Parsing a printed integer gives it back whenever it fits the parsed type. */
  lemma IntToStringRoundTrip(n: int, lo: int, hi: int)
    requires lo <= n <= hi
    ensures TryParseInteger(IntToString(n), lo, hi) == Some(n)
  {
    var s := IntToString(n);
    var m: nat := if n < 0 then -n else n;
    DigitsOfNat(m);
    IntToStringPlain(n);
    TrimSetKeeps(s, WhiteSpace);
    if n < 0 {
      assert s[1..] == NatToString(m);
    }
  }

  /** A printed 32-bit integer parses back as an Int32. */
  lemma Int32RoundTrip(n: int)
    requires INT32_MIN <= n <= INT32_MAX
    ensures ParseInt32(IntToString(n)) == Some(n)
  {
    IntToStringRoundTrip(n, INT32_MIN, INT32_MAX);
  }

  /** A printed 64-bit integer parses back as an Int64. */
  lemma Int64RoundTrip(n: int)
    requires INT64_MIN <= n <= INT64_MAX
    ensures ParseInt64(IntToString(n)) == Some(n)
  {
    IntToStringRoundTrip(n, INT64_MIN, INT64_MAX);
  }

  // ---------------------------------------------------------------- booleans

  /** Boolean.ToString(). */
  function BoolToString(b: bool): string
  {
    if b then "True" else "False"
  }

  /** Boolean.TryParse: "true" or "false" in any letter case, white space allowed around. */
  function TryParseBool(s: string): Option<bool>
  {
    var t := Lower(Trim(s));
    if t == "true" then Some(true) else if t == "false" then Some(false) else None
  }

  lemma BoolToStringRoundTrip(b: bool)
    ensures TryParseBool(BoolToString(b)) == Some(b)
  {
    var s := BoolToString(b);
    TrimSetKeeps(s, WhiteSpace);
    if b {
      assert Lower(s) == "true";
    } else {
      assert Lower(s) == "false";
    }
  }

  // ---------------------------------------------------------------- real numbers

  /** Single/Double ToString() and TryParse(), left abstract. */
  datatype RealFormat = RealFormat(show: real -> string, parse: string -> Option<real>)

  predicate RoundTrips(fmt: RealFormat, r: real)
  {
    fmt.parse(fmt.show(r)) == Some(r)
  }

  /** A clean token: non-empty, no white space, and none of the separators the mod's
      text formats use (`;` `,` `=` `/`). */
  predicate Plain(s: string)
  {
    s != [] && forall i :: 0 <= i < |s| ==> s[i] !in WhiteSpace && s[i] !in ";,=/"
  }

  /** The printed form of `r` is a clean token that parses back to `r`. */
  predicate Exact(fmt: RealFormat, r: real)
  {
    RoundTrips(fmt, r) && Plain(fmt.show(r))
  }

  // ---------------------------------------------------------------- Encoding.ASCII

  /** Text every character of which is a 7-bit ASCII character. */
  predicate IsAscii(s: string)
  {
    forall i :: 0 <= i < |s| ==> s[i] as int < 128
  }

  const QUESTION_MARK: byte := 63

  /** Encoding.ASCII.GetBytes: one byte per character, and '?' for every character
      outside ASCII. */
  function AsciiBytes(s: string): (r: seq<byte>)
    ensures |r| == |s|
    ensures forall i :: 0 <= i < |s| ==>
              r[i] == if s[i] as int < 128 then s[i] as int as byte else QUESTION_MARK
  {
    seq(|s|, i requires 0 <= i < |s| => if s[i] as int < 128 then s[i] as int as byte else QUESTION_MARK)
  }

  /** Encoding.ASCII.GetString: one character per byte, and '?' for every byte above 127. */
  function AsciiString(bs: seq<byte>): (r: string)
    ensures |r| == |bs|
    ensures forall i :: 0 <= i < |bs| ==> r[i] == if bs[i] < 128 then bs[i] as int as char else '?'
  {
    seq(|bs|, i requires 0 <= i < |bs| => if bs[i] < 128 then bs[i] as int as char else '?')
  }

  /** Sending text through the encoding keeps every ASCII character and turns each other
      character into '?'. */
  lemma AsciiTransfer(s: string)
    ensures var r := AsciiString(AsciiBytes(s));
            |r| == |s| && forall i :: 0 <= i < |s| ==> r[i] == if s[i] as int < 128 then s[i] else '?'
  {
  }

  /** ASCII text comes through the encoding unchanged, and only ASCII text does. */
  lemma AsciiRoundTrip(s: string)
    ensures AsciiString(AsciiBytes(s)) == s <==> IsAscii(s)
  {
    var r := AsciiString(AsciiBytes(s));
    AsciiTransfer(s);
    if !IsAscii(s) {
      var i :| 0 <= i < |s| && s[i] as int >= 128;
      assert r[i] == '?' != s[i];
    }
  }

  lemma {:induction false} JoinAscii(parts: seq<string>, sep: string)
    requires IsAscii(sep)
    requires forall i :: 0 <= i < |parts| ==> IsAscii(parts[i])
    ensures IsAscii(Join(parts, sep))
    decreases |parts|
  {
    if |parts| > 1 {
      JoinAscii(parts[1..], sep);
    }
  }

  lemma IntToStringAscii(n: int)
    ensures IsAscii(IntToString(n))
  {
    var m: nat := if n < 0 then -n else n;
    var s := IntToString(n);
    assert AllDigits(NatToString(m));
    assert forall i :: 0 <= i < |s| ==> s[i] == '-' || IsDigit(s[i]);
  }
}
