/** Issue numbers read from file names: `process_issue_number`, which turns
    the issue text into one number, several numbers or none, and the
    normalisation of the values `extract_filename_data` found. Finding those
    values with regular expressions is not part of this model; they are
    inputs. */
module Files {
  import opened Common
  import opened Strings

  // ---------------------------------------------------------------------
  // Python float() on decimal text
  // ---------------------------------------------------------------------

  function Pow10(n: nat): (r: nat)
    ensures r >= 1
  {
    if n == 0 then 1 else 10 * Pow10(n - 1)
  }

  /** The text before the first exponent marker ('e' or 'E') and, when there
      is one, the text after it. */
  function SplitExponent(s: string): (r: (string, Option<string>))
    ensures 'e' !in r.0 && 'E' !in r.0
    ensures r.1.None? ==> r.0 == s
    ensures r.1.Some? ==> |r.0| < |s| && (s[|r.0|] == 'e' || s[|r.0|] == 'E') && s == r.0 + [s[|r.0|]] + r.1.value
    decreases |s|
  {
    if |s| == 0 then ("", None)
    else if s[0] == 'e' || s[0] == 'E' then ("", Some(s[1..]))
    else
      var rest := SplitExponent(s[1..]);
      assert s == [s[0]] + s[1..];
      ([s[0]] + rest.0, rest.1)
  }

  /** The value of `whole.frac` for digit strings. */
  function DecimalValue(whole: string, frac: string): real
    requires AllDigits(whole) && AllDigits(frac)
  {
    ParseNat(whole) as real + ParseNat(frac) as real / Pow10(|frac|) as real
  }

  /** The value of a mantissa: digits with at most one '.' and at least one
      digit. */
  function MantissaValue(mantissa: string): Option<real> {
    var (whole, frac) := SplitOnce(mantissa, '.');
    var fracText := if frac.Some? then frac.value else "";
    if !AllDigits(whole) || !AllDigits(fracText) || |whole| + |fracText| == 0 then None
    else Some(DecimalValue(whole, fracText))
  }

  /** The mantissa value times ten to the exponent. */
  function Scale(m: real, e: int): real {
    if e >= 0 then m * Pow10(e) as real else m / Pow10(-e) as real
  }

  /** The value of unsigned decimal notation: a mantissa and an optional
      exponent. */
  function UnsignedValue(body: string): Option<real> {
    var (mantissa, exponent) := SplitExponent(body);
    var m := MantissaValue(mantissa);
    var e := if exponent.Some? then ParseSigned(exponent.value) else Some(0);
    if m.None? || e.None? then None else Some(Scale(m.value, e.value))
  }

  /** Python `float(s)` on decimal notation: surrounding whitespace, an
      optional sign, the mantissa and an optional exponent; `None` where
      `float` raises `ValueError`. */
  function FloatValue(raw: string): Option<real> {
    SignedValue(Strip(raw))
  }

  /** Stripped text: an optional sign before unsigned notation. */
  function SignedValue(t: string): Option<real> {
    var negative := |t| > 0 && t[0] == '-';
    var body := if |t| > 0 && (t[0] == '-' || t[0] == '+') then t[1..] else t;
    var u := UnsignedValue(body);
    if u.None? then None else Some(if negative then -u.value else u.value)
  }

  // ---------------------------------------------------------------------
  // special issue-number notation
  // ---------------------------------------------------------------------

  /** `int((alphabet.index(c) + 1) / 0.26)` for the 26 letters. */
  const LetterCodes: seq<nat> :=
    [3, 7, 11, 15, 19, 23, 26, 30, 34, 38, 42, 46, 50, 53, 57, 61, 65, 69, 73, 76, 80, 84, 88, 92, 96, 100]

  predicate IsLetter(c: char) { 'a' <= c <= 'z' }

  /** The three digits a letter stands for. */
  function LetterCode(c: char): (r: string)
    requires IsLetter(c)
    ensures |r| == 3 && AllDigits(r)
    ensures ParseNat(r) == LetterCodes[c as int - 'a' as int]
  {
    var n := LetterCodes[c as int - 'a' as int];
    var hundreds, tens, ones := n / 100, n / 10 % 10, n % 10;
    var r := [DigitChar(hundreds), DigitChar(tens), DigitChar(ones)];
    assert r[..2][..1][..0] == [];
    assert ParseNat(r[..2][..1]) == hundreds;
    assert ParseNat(r[..2]) == hundreds * 10 + tens;
    r
  }

  /** One character of the conversion: a digit is kept; any other character
      first adds the '.' if there is none yet, then '½' adds '5', a
      lower-case letter its three-digit code, and anything else nothing. */
  function ConvertStep(acc: string, c: char): string {
    if IsDigit(c) then acc + [c]
    else
      (if '.' in acc then acc else acc + ".")
      + (if c == '½' then "5" else if IsLetter(c) then LetterCode(c) else "")
  }

  /** The conversion of a whole entry, character by character. */
  function Converted(entry: string): string
    decreases |entry|
  {
    if |entry| == 0 then "" else ConvertStep(Converted(entry[..|entry| - 1]), entry[|entry| - 1])
  }

  /** Digits with at most one '.'. */
  predicate DecimalText(s: string) {
    && (forall i | 0 <= i < |s| :: IsDigit(s[i]) || s[i] == '.')
    && (forall i, j | 0 <= i < j < |s| && s[i] == '.' :: s[j] != '.')
  }

  /** A conversion is digits with at most one '.'. */
  lemma {:induction false} ConvertedIsDecimal(entry: string)
    ensures DecimalText(Converted(entry))
    decreases |entry|
  {
    if |entry| > 0 {
      var acc := Converted(entry[..|entry| - 1]);
      ConvertedIsDecimal(entry[..|entry| - 1]);
      var c := entry[|entry| - 1];
      var r := Converted(entry);
      if !IsDigit(c) {
        var base := if '.' in acc then acc else acc + ".";
        var tail := if c == '½' then "5" else if IsLetter(c) then LetterCode(c) else "";
        assert r == base + tail;
        assert forall i | 0 <= i < |tail| :: IsDigit(tail[i]);
        forall i, j | 0 <= i < j < |r| && r[i] == '.' ensures r[j] != '.' {
          if j >= |base| {
            assert r[j] == tail[j - |base|];
          }
        }
      }
    }
  }

  /** An entry that starts with a run of digits converts to that run, then
      (when a non-digit follows) a '.' right after it. */
  lemma {:induction false} ConvertedKeepsLeadingDigits(digits: string, rest: string)
    requires AllDigits(digits)
    requires |rest| == 0 || !IsDigit(rest[0])
    ensures |Converted(digits + rest)| >= |digits|
    ensures Converted(digits + rest)[..|digits|] == digits
    ensures |rest| > 0 ==> |Converted(digits + rest)| > |digits| && Converted(digits + rest)[|digits|] == '.'
    decreases |rest|
  {
    if |rest| == 0 {
      ConvertedOfDigits(digits);
      assert digits + rest == digits;
    } else if |rest| == 1 {
      ConvertedOfDigits(digits);
      assert (digits + rest)[..|digits + rest| - 1] == digits;
      assert '.' !in digits;
    } else {
      var front := rest[..|rest| - 1];
      ConvertedKeepsLeadingDigits(digits, front);
      assert (digits + rest)[..|digits + rest| - 1] == digits + front;
    }
  }

  /** A run of digits converts to itself. */
  lemma {:induction false} ConvertedOfDigits(digits: string)
    requires AllDigits(digits)
    ensures Converted(digits) == digits
    decreases |digits|
  {
    if |digits| > 0 {
      ConvertedOfDigits(digits[..|digits| - 1]);
      assert digits[..|digits| - 1] + [digits[|digits| - 1]] == digits;
    }
  }

  // ---------------------------------------------------------------------
  // process_issue_number
  // ---------------------------------------------------------------------

  /** The result of `process_issue_number`: `None`, one float, or a tuple
      of two or more in input order. */
  datatype IssueNumber = NoIssueNumber | Single(value: real) | Several(values: seq<real>)

  /** The entries: the text split on '-' when it holds a '-' and does not
      start with one, else the whole text. */
  function Entries(s: string): (r: seq<string>)
    ensures |r| >= 1
  {
    if '-' in s && !(|s| > 0 && s[0] == '-') then Split(s, '-') else [s]
  }

  /** An entry with ',' read as '.' and trailing '.' removed. */
  function Cleaned(entry: string): string {
    RStrip(ReplaceAll(entry, ",", "."), '.')
  }

  /** The number an entry gives: its float value if it has one, else the
      float value of its conversion, else none. */
  function EntryValue(entry: string): Option<real> {
    var c := Cleaned(entry);
    var direct := FloatValue(c);
    if direct.Some? then direct else FloatValue(Converted(c))
  }

  /** The numbers of the entries that give one, in order. */
  function Values(entries: seq<string>): (r: seq<real>)
    ensures |r| <= |entries|
    decreases |entries|
  {
    if |entries| == 0 then []
    else
      var v := EntryValue(entries[|entries| - 1]);
      Values(entries[..|entries| - 1]) + (if v.Some? then [v.value] else [])
  }

  /** The shape of the result for the collected numbers. */
  function Shaped(values: seq<real>): (r: IssueNumber)
    ensures r == NoIssueNumber <==> |values| == 0
    ensures r.Single? <==> |values| == 1
    ensures r.Single? ==> r.value == values[0]
    ensures r.Several? ==> |values| >= 2 && r.values == values
  {
    if |values| == 0 then NoIssueNumber
    else if |values| == 1 then Single(values[0])
    else Several(values)
  }

  /** What `process_issue_number` returns for a text. */
  function IssueNumberOf(s: string): IssueNumber {
    Shaped(Values(Entries(s)))
  }

  /** The character loop of `process_issue_number` for an entry that is not
      already a number. */
  method ConvertEntry(entry: string) returns (converted: string)
    ensures converted == Converted(entry)
    ensures DecimalText(converted)
  {
    converted := "";
    var i := 0;
    while i < |entry|
      invariant 0 <= i <= |entry|
      invariant converted == Converted(entry[..i])
    {
      var c := entry[i];
      assert entry[..i + 1][..i] == entry[..i];
      if IsDigit(c) {
        converted := converted + [c];
      } else {
        if '.' !in converted {
          converted := converted + ".";
        }
        if c == '½' {
          converted := converted + "5";
        } else if IsLetter(c) {
          converted := converted + LetterCode(c);
        }
      }
      i := i + 1;
    }
    assert entry[..i] == entry;
    ConvertedIsDecimal(entry);
  }

  /** `process_issue_number`: every entry is cleaned and read as a float, or
      else converted and read; entries that give no number are skipped. */
  method ProcessIssueNumber(s: string) returns (r: IssueNumber)
    ensures r == IssueNumberOf(s)
  {
    var entries := Entries(s);
    var result: seq<real> := [];
    var k := 0;
    while k < |entries|
      invariant 0 <= k <= |entries|
      invariant result == Values(entries[..k])
    {
      assert entries[..k + 1][..k] == entries[..k];
      var entry := Cleaned(entries[k]);
      var direct := FloatValue(entry);
      if direct.Some? {
        result := result + [direct.value];
      } else {
        var converted := ConvertEntry(entry);
        var value := FloatValue(converted);
        if value.Some? {
          result := result + [value.value];
        }
      }
      k := k + 1;
    }
    assert entries[..k] == entries;
    r := Shaped(result);
  }

  /** Text that is only digits has no whitespace at its ends. */
  lemma StripDigits(s: string)
    requires IsDigits(s)
    ensures Strip(s) == s
  {
    assert TrimStart(s) == s;
  }

  /** `float` of a run of digits is its value. */
  lemma FloatOfDigits(d: string)
    requires IsDigits(d)
    ensures FloatValue(d) == Some(ParseNat(d) as real)
  {
    StripDigits(d);
    assert 'e' !in d && 'E' !in d && '.' !in d by {
      forall i | 0 <= i < |d| ensures d[i] != 'e' && d[i] != 'E' && d[i] != '.' {
        assert IsDigit(d[i]);
      }
    }
    NoExponent(d);
    FloatOfMantissa(d);
    MantissaOfDigits(d);
  }

  /** A run of digits is a mantissa worth its value. */
  lemma MantissaOfDigits(d: string)
    requires IsDigits(d) && '.' !in d
    ensures MantissaValue(d) == Some(ParseNat(d) as real)
  {
    assert SplitOnce(d, '.') == (d, None);
    assert DecimalValue(d, "") == ParseNat(d) as real by {
      assert ParseNat("") == 0 && Pow10(0) == 1;
    }
  }

  /** A plain number gives that number. */
  lemma PlainIssueNumber(d: string)
    requires IsDigits(d)
    ensures IssueNumberOf(d) == Single(ParseNat(d) as real)
  {
    assert '-' !in d && ',' !in d by {
      forall i | 0 <= i < |d| ensures d[i] != '-' && d[i] != ',' {
        assert IsDigit(d[i]);
      }
    }
    CleanedDigits(d);
    FloatOfDigits(d);
    assert Values([d]) == Values([]) + [ParseNat(d) as real];
  }

  /** A one-character text occurs only where its character does. */
  lemma ContainsOneChar(s: string, c: char)
    requires Contains(s, [c])
    ensures c in s
  {
    var i :| 0 <= i <= |s| - 1 && OccursAt(s, [c], i);
    assert s[i..i + 1][0] == s[i];
  }

  /** Cleaning leaves a run of digits alone. */
  lemma CleanedDigits(d: string)
    requires IsDigits(d)
    ensures Cleaned(d) == d
  {
    assert ',' !in d by {
      forall i | 0 <= i < |d| ensures d[i] != ',' {
        assert IsDigit(d[i]);
      }
    }
    if Contains(d, ",") {
      ContainsOneChar(d, ',');
      assert false;
    }
    ReplaceAbsent(d, ",", ".");
  }

  /** A range of two plain numbers is split into the two. */
  lemma RangeEntries(a: string, b: string)
    requires IsDigits(a) && IsDigits(b)
    ensures Entries(a + "-" + b) == [a, b]
  {
    assert '-' !in a && '-' !in b by {
      forall i | 0 <= i < |a| ensures a[i] != '-' { assert IsDigit(a[i]); }
      forall i | 0 <= i < |b| ensures b[i] != '-' { assert IsDigit(b[i]); }
    }
    var s := a + "-" + b;
    assert s[|a|] == '-';
    assert s == a + ['-'] + b;
    SplitCons(a, b, '-');
    SplitNoSep(b, '-');
  }

  /** A range of two plain numbers gives both, in order. */
  lemma IssueRange(a: string, b: string)
    requires IsDigits(a) && IsDigits(b)
    ensures IssueNumberOf(a + "-" + b) == Several([ParseNat(a) as real, ParseNat(b) as real])
  {
    RangeEntries(a, b);
    CleanedDigits(a);
    CleanedDigits(b);
    FloatOfDigits(a);
    FloatOfDigits(b);
    assert EntryValue(a) == Some(ParseNat(a) as real);
    assert EntryValue(b) == Some(ParseNat(b) as real);
    assert [a, b][..1] == [a];
    assert [a][..0] == [];
    assert Values([a]) == [ParseNat(a) as real];
    assert Values([a, b]) == [ParseNat(a) as real, ParseNat(b) as real];
  }

  /** Text without an exponent marker has no exponent part. */
  lemma NoExponent(s: string)
    requires 'e' !in s && 'E' !in s
    ensures SplitExponent(s) == (s, None)
  {
  }

  /** Text already stripped, without a sign and without an exponent reads
      as its mantissa. */
  lemma FloatOfMantissa(s: string)
    requires Strip(s) == s && SplitExponent(s) == (s, None)
    requires |s| == 0 || (s[0] != '-' && s[0] != '+')
    ensures FloatValue(s) == MantissaValue(s)
  {
    UnsignedOfMantissa(s);
    SignlessValue(s);
  }

  /** Text without a sign reads as unsigned notation. */
  lemma SignlessValue(t: string)
    requires |t| == 0 || (t[0] != '-' && t[0] != '+')
    ensures SignedValue(t) == UnsignedValue(t)
  {
  }

  /** Unsigned text without an exponent reads as its mantissa. */
  lemma UnsignedOfMantissa(s: string)
    requires SplitExponent(s) == (s, None)
    ensures UnsignedValue(s) == MantissaValue(s)
  {
    var m := MantissaValue(s);
    if m.Some? {
      assert Pow10(0) == 1;
      assert Scale(m.value, 0) == m.value;
    }
  }

  /** Decimal text reads as its mantissa. */
  lemma DecimalTextFloat(s: string)
    requires DecimalText(s)
    ensures FloatValue(s) == MantissaValue(s)
  {
    assert |s| == 0 || ((IsDigit(s[0]) || s[0] == '.') && (IsDigit(s[|s| - 1]) || s[|s| - 1] == '.'));
    StripPlain(s);
    assert 'e' !in s && 'E' !in s by {
      forall i | 0 <= i < |s| ensures s[i] != 'e' && s[i] != 'E' {
        assert IsDigit(s[i]) || s[i] == '.';
      }
    }
    NoExponent(s);
    FloatOfMantissa(s);
  }

  /** Decimal text has a mantissa value exactly when it holds a digit. */
  lemma DecimalTextMantissa(s: string)
    requires DecimalText(s)
    ensures MantissaValue(s).Some? <==> exists i | 0 <= i < |s| :: IsDigit(s[i])
  {
    var split := SplitOnce(s, '.');
    var whole := split.0;
    var fracText := if split.1.Some? then split.1.value else "";
    assert s == whole || s == whole + ['.'] + fracText;
    assert forall i | 0 <= i < |whole| :: whole[i] == s[i];
    assert AllDigits(whole) by {
      forall i | 0 <= i < |whole| ensures IsDigit(whole[i]) {
        assert s[i] == whole[i] && whole[i] != '.';
      }
    }
    if split.1.Some? {
      assert forall i | 0 <= i < |fracText| :: fracText[i] == s[|whole| + 1 + i];
      assert s[|whole|] == '.';
      assert AllDigits(fracText) by {
        forall i | 0 <= i < |fracText| ensures IsDigit(fracText[i]) {
          assert s[|whole| + 1 + i] == fracText[i];
          assert s[|whole| + 1 + i] != '.';
        }
      }
    }
    if exists i | 0 <= i < |s| :: IsDigit(s[i]) {
      var i :| 0 <= i < |s| && IsDigit(s[i]);
      assert i != |whole| || split.1.None?;
    }
    if |whole| > 0 {
      assert IsDigit(s[0]);
    } else if |fracText| > 0 {
      assert IsDigit(s[1]);
    }
  }

  /** A conversion reads as a number exactly when it holds a digit. */
  lemma ConvertedReads(entry: string)
    ensures FloatValue(Converted(entry)).Some? <==> exists i | 0 <= i < |Converted(entry)| :: IsDigit(Converted(entry)[i])
  {
    ConvertedIsDecimal(entry);
    DecimalTextFloat(Converted(entry));
    DecimalTextMantissa(Converted(entry));
  }

  // ---------------------------------------------------------------------
  // output of extract_filename_data
  // ---------------------------------------------------------------------

  /** The volume number found: none, the matched text, or the number 1
      taken when nothing was found. */
  datatype VolumeNumber = NoVolume | VolumeText(text: string) | VolumeInt(n: int)

  /** The issue number found: none, an empty match (kept as it is), or the
      result of `process_issue_number`. */
  datatype IssueField = NoIssue | EmptyIssue | ParsedIssue(number: IssueNumber)

  datatype YearField = NoYear | EmptyYear | Year(n: int)

  datatype FileData = FileData(
    series: Option<string>,
    year: YearField,
    volumeNumber: VolumeNumber,
    specialVersion: Option<string>,
    issueNumber: IssueField)

  /** A matched volume text of digits becomes its value, one made only of
      'i'/'I' becomes its length (a Roman numeral up to III), and any other
      text stays. */
  function NormalisedVolume(v: VolumeNumber): (r: VolumeNumber)
    ensures v.VolumeText? && IsDigits(v.text) ==> r == VolumeInt(ParseNat(v.text))
    ensures v.VolumeText? && !IsDigits(v.text) && (forall i | 0 <= i < |v.text| :: v.text[i] == 'i' || v.text[i] == 'I') ==>
      r == VolumeInt(|v.text|)
    ensures !v.VolumeText? ==> r == v
  {
    match v
    case VolumeText(s) =>
      CountAllOf(Lower(s), 'i');
      if IsDigits(s) then VolumeInt(ParseNat(s))
      else if Count(Lower(s), 'i') == |s| then
        VolumeInt(Count(Lower(s), 'i'))
      else VolumeText(s)
    case _ => v
  }

  /** A character counted once per position occurs at every position. */
  lemma {:induction false} CountAllOf(s: string, c: char)
    ensures Count(s, c) == |s| <==> forall i | 0 <= i < |s| :: s[i] == c
    decreases |s|
  {
    if |s| > 0 {
      CountAllOf(s[1..], c);
      assert Count(s[1..], c) <= |s[1..]| by {
        CountAtMost(s[1..], c);
      }
      if forall i | 0 <= i < |s| :: s[i] == c {
        assert forall i | 0 <= i < |s[1..]| :: s[1..][i] == c by {
          forall i | 0 <= i < |s[1..]| ensures s[1..][i] == c {
            assert s[1..][i] == s[i + 1];
          }
        }
      } else {
        var j :| 0 <= j < |s| && s[j] != c;
        if j > 0 {
          assert s[1..][j - 1] != c;
        }
      }
    }
  }

  lemma {:induction false} CountAtMost(s: string, c: char)
    ensures Count(s, c) <= |s|
    decreases |s|
  {
    if |s| > 0 {
      CountAtMost(s[1..], c);
    }
  }

  /** The end of `extract_filename_data`: with neither an issue number nor a
      special version the file is a TPB, and the series falls back to the
      stripped file name; the volume, issue and year get their final types.
      A non-numeric year raises `ValueError` in `int`. */
  function FileDataOf(series: Option<string>, year: Option<string>, volume: VolumeNumber,
                      specialVersion: Option<string>, issueNumber: Option<string>,
                      strippedFilename: string): (r: Result<FileData>)
    ensures r.Err? <==> year.Some? && |year.value| > 0 && ParseInt(year.value).None?
    ensures r.Ok? && issueNumber.None? && specialVersion.None? ==> r.value.specialVersion == Some("tpb")
    ensures r.Ok? && (issueNumber.Some? || specialVersion.Some?) ==> r.value.specialVersion == specialVersion
    ensures r.Ok? && issueNumber.None? && specialVersion.None? && !Truthy(series) ==>
      r.value.series == Some(Strip(ReplaceAll(strippedFilename, "  ", " ")))
    ensures r.Ok? && (issueNumber.Some? || specialVersion.Some? || Truthy(series)) ==> r.value.series == series
    ensures r.Ok? ==> r.value.volumeNumber == NormalisedVolume(volume)
    ensures r.Ok? && issueNumber.Some? && |issueNumber.value| > 0 ==>
      r.value.issueNumber == ParsedIssue(IssueNumberOf(issueNumber.value))
  {
    var tpb := issueNumber.None? && specialVersion.None?;
    var special := if tpb then Some("tpb") else specialVersion;
    var name := if tpb && !Truthy(series) then Some(Strip(ReplaceAll(strippedFilename, "  ", " "))) else series;
    var issue :=
      if issueNumber.None? then NoIssue
      else if |issueNumber.value| == 0 then EmptyIssue
      else ParsedIssue(IssueNumberOf(issueNumber.value));
    if year.Some? && |year.value| > 0 && ParseInt(year.value).None? then Err(ValueError)
    else
      var y := if year.None? then NoYear else if |year.value| == 0 then EmptyYear else Year(ParseInt(year.value).value);
      Ok(FileData(name, y, NormalisedVolume(volume), special, issue))
  }
}
