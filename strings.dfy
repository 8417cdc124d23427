/** The Python string operations the modelled code relies on (`str.split` on one
    character, `str.join`, `str.replace`, `str(int)`, `int(str)`, `lower`,
    `zfill`, `strip`), with the round-trip facts the codecs need. */
module Strings {
  import opened Common

  predicate IsDigit(c: char) { '0' <= c <= '9' }

  /** Python truthiness of an optional string: present and non-empty. */
  predicate Truthy(s: Option<string>) {
    s.Some? && |s.value| > 0
  }

  /** Python `str.isdigit` restricted to ASCII: non-empty and only digits. */
  predicate IsDigits(s: string) {
    |s| > 0 && forall i :: 0 <= i < |s| ==> IsDigit(s[i])
  }

  predicate AllDigits(s: string) {
    forall i :: 0 <= i < |s| ==> IsDigit(s[i])
  }

  /** Python `str.isspace` on ASCII: the space, '\t' to '\r', and the
      separators '\x1c' to '\x1f'. */
  predicate IsSpace(c: char) {
    c == ' ' || '\t' <= c <= '\r' || '\U{001C}' <= c <= '\U{001F}'
  }

  predicate StartsWith(s: string, p: string) {
    |p| <= |s| && s[..|p|] == p
  }

  lemma StartsWithConcat(p: string, s: string)
    ensures StartsWith(p + s, p)
  {
    assert (p + s)[..|p|] == p;
  }

  predicate EndsWith(s: string, p: string) {
    |p| <= |s| && s[|s| - |p|..] == p
  }

  /** `t` occurs in `s` at position `i`. */
  predicate OccursAt(s: string, t: string, i: int) {
    0 <= i && i + |t| <= |s| && s[i..i + |t|] == t
  }

  /** Python `t in s`. */
  predicate Contains(s: string, t: string) {
    exists i | 0 <= i <= |s| - |t| :: OccursAt(s, t, i)
  }

  // ---------------------------------------------------------------------
  // split / join on a single separator character
  // ---------------------------------------------------------------------

  /** Number of occurrences of `c` in `s`. */
  function Count(s: string, c: char): nat
    decreases |s|
  {
    if |s| == 0 then 0 else (if s[0] == c then 1 else 0) + Count(s[1..], c)
  }

  /** A character that occurs in `s` is counted at least once. */
  lemma {:induction false} CountMember(s: string, c: char)
    requires c in s
    ensures Count(s, c) >= 1
    decreases |s|
  {
    if s[0] != c {
      assert s == [s[0]] + s[1..];
      CountMember(s[1..], c);
    }
  }

  /** Python `sep.join(parts)`. */
  function Join(parts: seq<string>, sep: char): string
    decreases |parts|
  {
    if |parts| == 0 then ""
    else if |parts| == 1 then parts[0]
    else parts[0] + [sep] + Join(parts[1..], sep)
  }

  /** Python `s.split(sep)` for a one-character separator: always at least one
      field, no field holds the separator, and joining the fields gives `s` back. */
  function Split(s: string, sep: char): (parts: seq<string>)
    ensures |parts| == Count(s, sep) + 1
    ensures forall k :: 0 <= k < |parts| ==> sep !in parts[k]
    ensures Join(parts, sep) == s
    decreases |s|
  {
    if |s| == 0 then [""]
    else
      var rest := Split(s[1..], sep);
      if s[0] == sep then [""] + rest
      else
        assert Join(rest, sep) == s[1..];
        [[s[0]] + rest[0]] + rest[1..]
  }

  lemma {:induction false} SplitNoSep(a: string, sep: char)
    requires sep !in a
    ensures Split(a, sep) == [a]
    decreases |a|
  {
    if |a| > 0 {
      SplitNoSep(a[1..], sep);
      assert [a[0]] + a[1..] == a;
    }
  }

  lemma {:induction false} SplitCons(a: string, r: string, sep: char)
    requires sep !in a
    ensures Split(a + [sep] + r, sep) == [a] + Split(r, sep)
    decreases |a|
  {
    var s := a + [sep] + r;
    if |a| == 0 {
      assert s[1..] == r;
    } else {
      assert s[1..] == a[1..] + [sep] + r;
      SplitCons(a[1..], r, sep);
      assert [a[0]] + a[1..] == a;
    }
  }

  /** Splitting a join gives the parts back when no part holds the separator. */
  lemma {:induction false} SplitJoin(parts: seq<string>, sep: char)
    requires |parts| >= 1
    requires forall k :: 0 <= k < |parts| ==> sep !in parts[k]
    ensures Split(Join(parts, sep), sep) == parts
    decreases |parts|
  {
    if |parts| == 1 {
      SplitNoSep(parts[0], sep);
    } else {
      SplitJoin(parts[1..], sep);
      SplitCons(parts[0], Join(parts[1..], sep), sep);
      assert [parts[0]] + parts[1..] == parts;
    }
  }

  /** Python `s.split(sep, 1)`: the text before the first separator and, when
      there is one, the rest after it. */
  function SplitOnce(s: string, sep: char): (r: (string, Option<string>))
    ensures r.1.None? <==> sep !in s
    ensures r.1.None? ==> r.0 == s
    ensures sep !in r.0
    ensures r.1.Some? ==> s == r.0 + [sep] + r.1.value
    decreases |s|
  {
    if |s| == 0 then ("", None)
    else if s[0] == sep then ("", Some(s[1..]))
    else
      var rest := SplitOnce(s[1..], sep);
      assert s == [s[0]] + s[1..];
      ([s[0]] + rest.0, rest.1)
  }

  lemma {:induction false} SplitOnceCons(a: string, r: string, sep: char)
    requires sep !in a
    ensures SplitOnce(a + [sep] + r, sep) == (a, Some(r))
    decreases |a|
  {
    var s := a + [sep] + r;
    if |a| == 0 {
      assert s[1..] == r;
    } else {
      assert s[1..] == a[1..] + [sep] + r;
      SplitOnceCons(a[1..], r, sep);
      assert [a[0]] + a[1..] == a;
    }
  }

  // ---------------------------------------------------------------------
  // search
  // ---------------------------------------------------------------------

  /** The first position at or after `i` where `pat` occurs. */
  function IndexFrom(s: string, pat: string, i: nat): (r: Option<nat>)
    requires |pat| > 0
    ensures r.Some? ==> i <= r.value && OccursAt(s, pat, r.value)
    ensures r.Some? ==> forall j :: i <= j < r.value ==> !OccursAt(s, pat, j)
    ensures r.None? ==> forall j :: i <= j ==> !OccursAt(s, pat, j)
    decreases |s| - i
  {
    if i + |pat| > |s| then None
    else if OccursAt(s, pat, i) then Some(i)
    else IndexFrom(s, pat, i + 1)
  }

  /** Python `s.split(pat, 1)`: the text before the first occurrence and, when
      there is one, the text after it. */
  function SplitFirst(s: string, pat: string): (r: (string, Option<string>))
    requires |pat| > 0
    ensures r.1.None? <==> !Contains(s, pat)
    ensures r.1.None? ==> r.0 == s
    ensures r.1.Some? ==> s == r.0 + pat + r.1.value && !Contains(r.0, pat)
  {
    match IndexFrom(s, pat, 0)
    case None => (s, None)
    case Some(k) =>
      assert s == s[..k] + pat + s[k + |pat|..];
      assert !Contains(s[..k], pat) by {
        forall j | 0 <= j <= k - |pat|
          ensures !OccursAt(s[..k], pat, j)
        {
          assert s[..k][j..j + |pat|] == s[j..j + |pat|];
          assert !OccursAt(s, pat, j);
        }
      }
      (s[..k], Some(s[k + |pat|..]))
  }

  /** Python `s.split(pat)[0]`. */
  function BeforeFirst(s: string, pat: string): string
    requires |pat| > 0
  {
    SplitFirst(s, pat).0
  }

  /** A pattern occurs in a suffix where it occurs, shifted, in the whole. */
  lemma OccursShift(a: string, b: string, pat: string, j: nat)
    ensures OccursAt(a + b, pat, |a| + j) == OccursAt(b, pat, j)
  {
    if j + |pat| <= |b| {
      assert (a + b)[|a| + j..|a| + j + |pat|] == b[j..j + |pat|];
    }
  }

  /** The first occurrence of a pattern is found after a prefix that cannot
      hold it, nor overlap it. */
  lemma SplitFirstAfter(a: string, b: string, pat: string)
    requires |pat| > 0
    requires forall j :: 0 <= j < |a| ==> !OccursAt(a + b, pat, j)
    ensures SplitFirst(a + b, pat).1 == SplitFirst(b, pat).1
    ensures SplitFirst(a + b, pat).0 == a + SplitFirst(b, pat).0
  {
    var s := a + b;
    forall j | 0 <= j
      ensures OccursAt(s, pat, |a| + j) == OccursAt(b, pat, j)
    {
      OccursShift(a, b, pat, j);
    }
    match IndexFrom(b, pat, 0)
    case None =>
      assert !Contains(s, pat) by {
        forall j | 0 <= j <= |s| - |pat|
          ensures !OccursAt(s, pat, j)
        {
          if j >= |a| {
            assert OccursAt(s, pat, |a| + (j - |a|)) == OccursAt(b, pat, j - |a|);
          }
        }
      }
    case Some(k) =>
      var m := IndexFrom(s, pat, 0);
      assert OccursAt(s, pat, |a| + k);
      assert m.Some?;
      assert m.value >= |a|;
      assert OccursAt(b, pat, m.value - |a|) by {
        assert OccursAt(s, pat, |a| + (m.value - |a|)) == OccursAt(b, pat, m.value - |a|);
      }
      assert m.value == |a| + k;
      assert s[..|a| + k] == a + b[..k];
      assert s[|a| + k + |pat|..] == b[k + |pat|..];
  }

  // ---------------------------------------------------------------------
  // replace
  // ---------------------------------------------------------------------

  /** Python `s.replace(pat, rep)` for a non-empty pattern: occurrences are
      replaced left to right without overlap. */
  function ReplaceAll(s: string, pat: string, rep: string): string
    requires |pat| > 0
    decreases |s|
  {
    if |s| < |pat| then s
    else if s[..|pat|] == pat then rep + ReplaceAll(s[|pat|..], pat, rep)
    else [s[0]] + ReplaceAll(s[1..], pat, rep)
  }

  /** Python `s.replace(pat, '')`, which leaves `s` alone for an empty pattern. */
  function RemoveAll(s: string, pat: string): string {
    if |pat| == 0 then s else ReplaceAll(s, pat, "")
  }

  /** Replacing a pattern that does not occur changes nothing. */
  lemma {:induction false} ReplaceAbsent(s: string, pat: string, rep: string)
    requires |pat| > 0
    requires !Contains(s, pat)
    ensures ReplaceAll(s, pat, rep) == s
    decreases |s|
  {
    if |s| >= |pat| {
      assert !OccursAt(s, pat, 0);
      assert !Contains(s[1..], pat) by {
        forall i | OccursAt(s[1..], pat, i)
          ensures false
        {
          assert s[1..][i..i + |pat|] == s[i + 1..i + 1 + |pat|];
          assert OccursAt(s, pat, i + 1);
        }
      }
      ReplaceAbsent(s[1..], pat, rep);
      assert [s[0]] + s[1..] == s;
    }
  }

  /** Removing a prefix that occurs nowhere else leaves exactly the rest. */
  lemma RemovePrefix(pat: string, body: string)
    requires !Contains(body, pat)
    ensures RemoveAll(pat + body, pat) == body
  {
    if |pat| > 0 {
      var s := pat + body;
      assert s[..|pat|] == pat;
      assert s[|pat|..] == body;
      ReplaceAbsent(body, pat, "");
    } else {
      assert OccursAt(body, pat, 0);
    }
  }

  /** A pattern without the separator occurs in `a + sep + r` only inside `a`
      or inside `r`. */
  lemma ConcatAvoids(a: string, r: string, sep: char, pat: string)
    requires sep !in pat
    requires !Contains(a, pat) && !Contains(r, pat)
    ensures !Contains(a + [sep] + r, pat)
  {
    var s := a + [sep] + r;
    forall i | 0 <= i <= |s| - |pat|
      ensures !OccursAt(s, pat, i)
    {
      if i + |pat| <= |a| {
        assert s[i..i + |pat|] == a[i..i + |pat|];
        assert !OccursAt(a, pat, i);
      } else if i > |a| {
        assert s[i..i + |pat|] == r[i - |a| - 1..i - |a| - 1 + |pat|];
        assert !OccursAt(r, pat, i - |a| - 1);
      } else {
        assert s[i..i + |pat|][|a| - i] == sep != pat[|a| - i];
      }
    }
  }

  /** A pattern holding a character outside the alphabet of `s` cannot occur in `s`. */
  lemma ForeignCharAvoids(s: string, pat: string, c: char)
    requires c in pat && c !in s
    ensures !Contains(s, pat)
  {
    var k :| 0 <= k < |pat| && pat[k] == c;
    forall i | 0 <= i <= |s| - |pat|
      ensures !OccursAt(s, pat, i)
    {
      assert s[i..i + |pat|][k] == s[i + k] != c;
    }
  }

  /** Replacing one character by one character rewrites each position on its own. */
  lemma {:induction false} ReplaceCharPointwise(s: string, a: char, c: char)
    ensures |ReplaceAll(s, [a], [c])| == |s|
    ensures forall i | 0 <= i < |s| :: ReplaceAll(s, [a], [c])[i] == (if s[i] == a then c else s[i])
    decreases |s|
  {
    if |s| >= 1 {
      ReplaceCharPointwise(s[1..], a, c);
      assert (s[..1] == [a]) == (s[0] == a);
    }
  }

  /** Removing a character that ends `x` as a run of copies leaves `x`. */
  lemma {:induction false} RemoveTrailingRun(x: string, a: char, n: nat)
    requires a !in x
    ensures RemoveAll(x + seq(n, _ => a), [a]) == x
    decreases |x| + n
  {
    var s := x + seq(n, _ => a);
    if |x| > 0 {
      assert s[..1] != [a] by { assert s[..1][0] == x[0]; }
      assert s[1..] == x[1..] + seq(n, _ => a);
      RemoveTrailingRun(x[1..], a, n);
      assert [x[0]] + x[1..] == x;
    } else if n > 0 {
      assert s[..1] == [a];
      assert s[1..] == x + seq(n - 1, _ => a);
      RemoveTrailingRun(x, a, n - 1);
    }
  }

  // ---------------------------------------------------------------------
  // integers as text
  // ---------------------------------------------------------------------

  function DigitChar(d: nat): char
    requires d < 10
  {
    (d + '0' as int) as char
  }

  function DigitValue(c: char): nat
    requires IsDigit(c)
  {
    c as int - '0' as int
  }

  /** Python `str(n)` for a natural number. */
  function NatToString(n: nat): (s: string)
    ensures IsDigits(s)
    decreases n
  {
    if n < 10 then [DigitChar(n)] else NatToString(n / 10) + [DigitChar(n % 10)]
  }

  /** The value of a string of decimal digits (leading zeros allowed). */
  function ParseNat(s: string): nat
    requires AllDigits(s)
    decreases |s|
  {
    if |s| == 0 then 0 else ParseNat(s[..|s| - 1]) * 10 + DigitValue(s[|s| - 1])
  }

  lemma {:induction false} ParseNatToString(n: nat)
    ensures ParseNat(NatToString(n)) == n
    decreases n
  {
    if n >= 10 {
      var s := NatToString(n);
      ParseNatToString(n / 10);
      assert s[..|s| - 1] == NatToString(n / 10);
    }
  }

  /** Distinct numbers render to distinct text. */
  lemma NatToStringInjective(m: nat, n: nat)
    requires NatToString(m) == NatToString(n)
    ensures m == n
  {
    ParseNatToString(m);
    ParseNatToString(n);
  }

  /** Python `str(i)` for an integer. */
  function IntToString(i: int): string {
    if i < 0 then "-" + NatToString(-i) else NatToString(i)
  }

  /** A decimal numeral as `int()` reads it: digits, with single
      underscores between digits. */
  predicate IsNumeral(s: string) {
    && |s| > 0 && IsDigit(s[0]) && IsDigit(s[|s| - 1])
    && (forall i | 0 <= i < |s| :: IsDigit(s[i]) || s[i] == '_')
    && (forall i | 0 <= i < |s| - 1 && s[i] == '_' :: s[i + 1] != '_')
  }

  /** The digits of a text, in order. */
  function DigitsOf(s: string): (r: string)
    ensures AllDigits(r) && |r| <= |s|
    decreases |s|
  {
    if |s| == 0 then []
    else DigitsOf(s[..|s| - 1]) + (if IsDigit(s[|s| - 1]) then [s[|s| - 1]] else [])
  }

  /** `int()` of a numeral with an optional sign and no surrounding
      whitespace. */
  function ParseSigned(s: string): Option<int> {
    if |s| > 1 && (s[0] == '-' || s[0] == '+') && IsNumeral(s[1..]) then
      var n := ParseNat(DigitsOf(s[1..])) as int;
      Some(if s[0] == '-' then -n else n)
    else if IsNumeral(s) then Some(ParseNat(DigitsOf(s)))
    else None
  }

  /** Python `int(s)`: surrounding whitespace is ignored, then an optional
      sign and a numeral. */
  function ParseInt(s: string): Option<int> {
    ParseSigned(Strip(s))
  }

  /** A text of digits only is its own digits. */
  lemma {:induction false} DigitsOfDigits(s: string)
    requires AllDigits(s)
    ensures DigitsOf(s) == s
    decreases |s|
  {
    if |s| > 0 {
      DigitsOfDigits(s[..|s| - 1]);
    }
  }

  /** Stripping a text that neither starts nor ends with whitespace keeps it. */
  lemma StripPlain(s: string)
    requires |s| == 0 || (!IsSpace(s[0]) && !IsSpace(s[|s| - 1]))
    ensures Strip(s) == s
  {
    assert TrimStart(s) == s;
  }

  /** A signed run of digits reads as its value. */
  lemma ParseSignedDigits(d: string)
    requires IsDigits(d)
    ensures ParseSigned(d) == Some(ParseNat(d) as int)
    ensures ParseSigned("-" + d) == Some(-(ParseNat(d) as int))
  {
    DigitsOfDigits(d);
    assert ("-" + d)[1..] == d;
  }

  /** `int(str(i)) == i`. */
  lemma ParseIntToString(i: int)
    ensures ParseInt(IntToString(i)) == Some(i)
  {
    var d := NatToString(if i < 0 then -i else i);
    assert IntToString(i) == if i < 0 then "-" + d else d;
    StripPlain(IntToString(i));
    ParseSignedDigits(d);
    ParseNatToString(if i < 0 then -i else i);
  }

  /** `int()` ignores whitespace around the text. */
  lemma ParseIntSpaces(s: string, c: char, e: char)
    requires IsSpace(c) && IsSpace(e)
    requires |s| == 0 || (!IsSpace(s[0]) && !IsSpace(s[|s| - 1]))
    ensures ParseInt([c] + s + [e]) == ParseInt(s)
  {
    var t := [c] + s + [e];
    assert t[1..] == s + [e];
    assert TrimStart(t) == TrimStart(s + [e]);
    if |s| == 0 {
      assert TrimStart([e]) == [e][1..];
      assert Strip(t) == [];
    } else {
      assert TrimStart(s + [e]) == s + [e];
      assert (s + [e])[..|s|] == s;
      assert TrimEnd(s + [e]) == TrimEnd(s);
      StripPlain(s);
    }
  }

  /** `int()` reads single underscores between digits. */
  lemma ParseIntUnderscore()
    ensures ParseInt("-1_0") == Some(-10)
  {
    StripPlain("-1_0");
    var n := "-1_0"[1..];
    assert n == "1_0";
    assert IsNumeral(n);
    assert DigitsOf(n) == "10" by {
      assert n[..2] == "1_" && n[..2][..1] == "1" && n[..2][..1][..0] == [];
    }
    assert ParseNat("10") == 10 by {
      assert "10"[..1] == "1" && "1"[..0] == [];
    }
  }

  /** `int()` refuses a doubled or leading underscore and a space after the
      sign. */
  lemma ParseIntRefuses()
    ensures ParseInt("1__0") == None && ParseInt("_1") == None && ParseInt("- 5") == None
  {
    StripPlain("1__0");
    assert "1__0"[1] == '_' && "1__0"[2] == '_';
    StripPlain("_1");
    StripPlain("- 5");
    assert "- 5"[1..][0] == ' ';
  }

  /** Every character of a rendered integer is a digit or '-'. */
  lemma IntToStringAlphabet(i: int, c: char)
    requires !IsDigit(c) && c != '-'
    ensures c !in IntToString(i)
  {
    var s := NatToString(if i < 0 then -i else i);
    assert c !in s by {
      forall k | 0 <= k < |s| ensures s[k] != c { }
    }
  }

  // ---------------------------------------------------------------------
  // case, padding, whitespace
  // ---------------------------------------------------------------------

  function LowerChar(c: char): char {
    if 'A' <= c <= 'Z' then (c as int + 32) as char else c
  }

  /** Python `s.lower()` on ASCII letters. */
  function Lower(s: string): string {
    seq(|s|, i requires 0 <= i < |s| => LowerChar(s[i]))
  }

  function Repeat(c: char, n: nat): (r: string)
    ensures |r| == n && forall i :: 0 <= i < n ==> r[i] == c
  {
    seq(n, _ => c)
  }

  /** Python `s.zfill(width)`: zeros go after a leading sign. */
  function ZFill(s: string, width: int): string {
    if |s| >= width then s
    else if |s| > 0 && (s[0] == '+' || s[0] == '-') then [s[0]] + Repeat('0', width - |s|) + s[1..]
    else Repeat('0', width - |s|) + s
  }

  /** `zfill` pads to the width, keeps an unsigned text as a suffix and
      only adds zeros in front of it. */
  lemma ZFillShape(s: string, width: int)
    ensures |ZFill(s, width)| == if |s| >= width then |s| else width
    ensures (|s| == 0 || (s[0] != '+' && s[0] != '-')) ==>
      EndsWith(ZFill(s, width), s) &&
      forall i :: 0 <= i < |ZFill(s, width)| - |s| ==> ZFill(s, width)[i] == '0'
  {
    var z := ZFill(s, width);
    if |s| < width && (|s| == 0 || (s[0] != '+' && s[0] != '-')) {
      assert z[|z| - |s|..] == s;
    }
  }

  /** `s.lstrip()` with the ASCII whitespace set. */
  function TrimStart(s: string): (r: string)
    ensures |r| <= |s|
    ensures |r| == 0 || !IsSpace(r[0])
    decreases |s|
  {
    if |s| > 0 && IsSpace(s[0]) then TrimStart(s[1..]) else s
  }

  /** What `lstrip` leaves is a suffix of the text, and only whitespace
      went before it. */
  lemma {:induction false} TrimStartSuffix(s: string)
    ensures TrimStart(s) == s[|s| - |TrimStart(s)|..]
    ensures forall i | 0 <= i < |s| - |TrimStart(s)| :: IsSpace(s[i])
    decreases |s|
  {
    if |s| > 0 && IsSpace(s[0]) {
      TrimStartSuffix(s[1..]);
      forall i | 0 <= i < |s| - |TrimStart(s)| ensures IsSpace(s[i]) {
        if i > 0 {
          assert s[i] == s[1..][i - 1];
        }
      }
    }
  }

  /** `s.rstrip()` with the ASCII whitespace set. */
  function TrimEnd(s: string): (r: string)
    ensures |r| <= |s|
    ensures |r| == 0 || !IsSpace(r[|r| - 1])
    decreases |s|
  {
    if |s| > 0 && IsSpace(s[|s| - 1]) then TrimEnd(s[..|s| - 1]) else s
  }

  /** What `rstrip` leaves is a prefix of the text, and only whitespace
      came after it. */
  lemma {:induction false} TrimEndPrefix(s: string)
    ensures TrimEnd(s) == s[..|TrimEnd(s)|]
    ensures forall i | |TrimEnd(s)| <= i < |s| :: IsSpace(s[i])
    decreases |s|
  {
    if |s| > 0 && IsSpace(s[|s| - 1]) {
      TrimEndPrefix(s[..|s| - 1]);
    }
  }

  /** Python `s.strip()` with the ASCII whitespace set. */
  function Strip(s: string): string {
    TrimEnd(TrimStart(s))
  }

  /** The stripped text is the window of the text that starts after the
      leading whitespace. */
  lemma StripWindow(s: string)
    ensures |s| - |TrimStart(s)| + |Strip(s)| <= |s|
    ensures forall k | 0 <= k < |Strip(s)| :: Strip(s)[k] == s[|s| - |TrimStart(s)| + k]
  {
    TrimStartSuffix(s);
    TrimEndPrefix(TrimStart(s));
  }

  /** Python `s.rstrip(c)`. */
  function RStrip(s: string, c: char): (r: string)
    ensures |r| <= |s| && r == s[..|r|]
    ensures |r| == 0 || r[|r| - 1] != c
    ensures forall i | |r| <= i < |s| :: s[i] == c
    decreases |s|
  {
    if |s| > 0 && s[|s| - 1] == c then RStrip(s[..|s| - 1], c) else s
  }

  // ---------------------------------------------------------------------
  // POSIX paths
  // ---------------------------------------------------------------------

  /** `os.path.basename`: the text after the last '/'. */
  function Basename(p: string): (r: string)
    ensures '/' !in r
    ensures |r| <= |p| && r == p[|p| - |r|..]
    decreases |p|
  {
    if |p| == 0 then ""
    else if p[|p| - 1] == '/' then ""
    else Basename(p[..|p| - 1]) + [p[|p| - 1]]
  }

  /** `os.path.join(folder, name)` for POSIX paths. */
  function PathJoin(folder: string, name: string): string {
    if |name| > 0 && name[0] == '/' then name
    else if |folder| == 0 || folder[|folder| - 1] == '/' then folder + name
    else folder + "/" + name
  }

  /** The name a path ends in is the basename of the path. */
  lemma {:induction false} BasenameOfSuffix(prefix: string, name: string)
    requires '/' !in name
    requires |prefix| == 0 || prefix[|prefix| - 1] == '/'
    ensures Basename(prefix + name) == name
    decreases |name|
  {
    if |name| == 0 {
      assert prefix + name == prefix;
    } else {
      var init := name[..|name| - 1];
      var last := name[|name| - 1];
      assert '/' !in init && last != '/' by {
        assert name == init + [last];
      }
      BasenameOfSuffix(prefix, init);
      assert prefix + name == (prefix + init) + [last] by {
        assert name == init + [last];
      }
      BasenameSnoc(prefix + init, last);
    }
  }

  /** A character other than '/' at the end of a path ends its basename. */
  lemma BasenameSnoc(q: string, c: char)
    requires c != '/'
    ensures Basename(q + [c]) == Basename(q) + [c]
  {
    assert (q + [c])[..|q|] == q;
  }

  /** A name without a '/' joined to a folder has that name as its basename. */
  lemma BasenameJoin(folder: string, name: string)
    requires '/' !in name
    ensures Basename(PathJoin(folder, name)) == name
  {
    assert |name| == 0 || name[0] != '/' by {
      if |name| > 0 {
        assert name[0] in name;
      }
    }
    if |folder| == 0 || folder[|folder| - 1] == '/' {
      BasenameOfSuffix(folder, name);
    } else {
      BasenameOfSuffix(folder + "/", name);
      assert folder + "/" + name == (folder + "/") + name;
    }
  }

  /** The position of the last `c` in `s`, if any. */
  function LastIndexOf(s: string, c: char): (r: Option<nat>)
    ensures r.Some? ==> r.value < |s| && s[r.value] == c && c !in s[r.value + 1..]
    ensures r.None? ==> c !in s
    decreases |s|
  {
    if |s| == 0 then None
    else if s[|s| - 1] == c then Some(|s| - 1)
    else
      var r := LastIndexOf(s[..|s| - 1], c);
      assert s == s[..|s| - 1] + [s[|s| - 1]];
      r
  }

  /** `os.path.splitext`: the extension runs from the last '.' of the last
      path component, unless only dots precede that '.' in the component. */
  function SplitExt(p: string): (r: (string, string))
    ensures r.0 + r.1 == p
    ensures r.1 == "" || (r.1[0] == '.' && '/' !in r.1 && '.' !in r.1[1..])
  {
    var name := Basename(p);
    var head := |p| - |name|;
    match LastIndexOf(name, '.')
    case None => (p, "")
    case Some(i) =>
      if forall k | 0 <= k < i :: name[k] == '.' then (p, "")
      else
        SuffixSplit(p, name, i);
        (p[..head + i], name[i..])
  }

  /** Cutting a path inside its last component: the front and the rest of
      the component make up the path, and the rest is a component tail. */
  lemma SuffixSplit(p: string, name: string, i: nat)
    requires |name| <= |p| && name == p[|p| - |name|..] && i < |name| && '/' !in name
    ensures p[..|p| - |name| + i] + name[i..] == p
    ensures name[i..][0] == name[i] && name[i..][1..] == name[i + 1..] && '/' !in name[i..]
  {
    var ext := name[i..];
    assert p[|p| - |name| + i..] == ext;
    forall k | 0 <= k < |ext| ensures ext[k] != '/' {
      assert ext[k] == name[i + k];
    }
  }
}
