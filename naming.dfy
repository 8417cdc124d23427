/** The naming of volume folders and issue files: the values of the naming
    keys, the rendering of an issue range, the validation of a naming format,
    the numbering of colliding rename targets and the rename suggestions of a
    mass rename. */
module Naming {
  import opened Common
  import opened Strings

  // ---------------------------------------------------------------------
  // naming keys
  // ---------------------------------------------------------------------

  /** `SpecialVersion`. */
  datatype SpecialVersion = TPB | OneShot | HardCover | VolumeAsIssue | Cover | Metadata | Normal

  /** `full_sv_mapping.get` (long) or `short_sv_mapping.get`. */
  function SpecialVersionText(sv: SpecialVersion, long: bool): (r: Option<string>)
    ensures r.None? <==> sv == VolumeAsIssue || sv == Metadata || sv == Normal
    ensures r.Some? ==> |r.value| >= 2
  {
    match sv
    case HardCover => Some(if long then "Hard-Cover" else "HC")
    case OneShot => Some(if long then "One-Shot" else "OS")
    case TPB => Some("TPB")
    case Cover => Some("Cover")
    case _ => None
  }

  /** No two backslashes in a row. */
  predicate NoDoubleBackslash(s: string) {
    forall k | 0 <= k < |s| - 1 :: !(s[k] == '\\' && s[k + 1] == '\\')
  }

  /** Removing a character leaves none of it, and adds no character. */
  lemma {:induction false} RemoveCharGone(s: string, c: char)
    ensures c !in RemoveAll(s, [c])
    ensures forall x | x in RemoveAll(s, [c]) :: x in s
    decreases |s|
  {
    if |s| >= 1 {
      RemoveCharGone(s[1..], c);
      assert (s[..1] == [c]) == (s[0] == c);
    }
  }

  /** Removing the pair `\\` keeps only characters of the text, and keeps the
      first character of a text that does not start with a backslash. */
  lemma {:induction false} RemovePairChars(s: string)
    ensures forall x | x in RemoveAll(s, "\\\\") :: x in s
    ensures |s| > 0 && s[0] != '\\' ==> |RemoveAll(s, "\\\\")| > 0 && RemoveAll(s, "\\\\")[0] == s[0]
    decreases |s|
  {
    if |s| >= 2 {
      RemovePairChars(s[2..]);
      RemovePairChars(s[1..]);
      if s[..2] == "\\\\" {
        forall x | x in RemoveAll(s[2..], "\\\\") ensures x in s {
          assert x in s[2..];
        }
      } else {
        forall x | x in RemoveAll(s[1..], "\\\\") ensures x in s {
          assert x in s[1..];
        }
      }
    }
  }

  /** After removing every `\\` pair, left to right, no two backslashes are
      adjacent. */
  lemma {:induction false} RemovePairLeavesNoPair(s: string)
    ensures NoDoubleBackslash(RemoveAll(s, "\\\\"))
    decreases |s|
  {
    var r := RemoveAll(s, "\\\\");
    if |s| >= 2 {
      if s[..2] == "\\\\" {
        RemovePairLeavesNoPair(s[2..]);
      } else {
        var rest := RemoveAll(s[1..], "\\\\");
        RemovePairLeavesNoPair(s[1..]);
        assert r == [s[0]] + rest;
        if s[0] == '\\' {
          assert s[1] != '\\' by {
            assert s[..2] == [s[0], s[1]];
          }
          RemovePairChars(s[1..]);
          assert rest[0] == s[1];
        }
        forall k | 0 <= k < |r| - 1 ensures !(r[k] == '\\' && r[k + 1] == '\\') {
          if k > 0 {
            assert r[k] == rest[k - 1] && r[k + 1] == rest[k];
          }
        }
      }
    } else {
      assert r == s;
    }
  }

  /** `series_name`: the title without any '/' and without any `\\` pair. */
  function SeriesName(title: string): (r: string)
    ensures '/' !in r
    ensures NoDoubleBackslash(r)
  {
    var noSlash := RemoveAll(title, "/");
    RemoveCharGone(title, '/');
    RemovePairChars(noSlash);
    RemovePairLeavesNoPair(noSlash);
    RemoveAll(noSlash, "\\\\")
  }

  /** A title with no '/' and no `\\` pair keeps its name, single backslashes
      included. */
  lemma SeriesNameKeepsClean(title: string)
    requires '/' !in title && NoDoubleBackslash(title)
    ensures SeriesName(title) == title
  {
    ForeignCharAvoids(title, "/", '/');
    ReplaceAbsent(title, "/", "");
    assert !Contains(title, "\\\\") by {
      forall i | 0 <= i <= |title| - 2 ensures !OccursAt(title, "\\\\", i) {
        assert title[i..i + 2] == [title[i], title[i + 1]];
      }
    }
    ReplaceAbsent(title, "\\\\", "");
  }

  /** `clean_series_name`: a leading "The " or "A " moves to the end. */
  function CleanSeriesName(s: string): (r: string) {
    if StartsWith(s, "The ") then s[4..] + ", The"
    else if StartsWith(s, "A ") then s[2..] + ", A"
    else s
  }

  /** Cleaning only moves the article: the letters stay and one comma joins. */
  lemma CleanSeriesNameMoves(s: string)
    ensures var r := CleanSeriesName(s);
      if StartsWith(s, "The ") || StartsWith(s, "A ") then
        multiset(r) == multiset(s) + multiset{','} && (EndsWith(r, ", The") || EndsWith(r, ", A"))
      else r == s
  {
    var r := CleanSeriesName(s);
    if StartsWith(s, "The ") {
      assert s == "The" + " " + s[4..];
      assert r == s[4..] + ", " + "The";
      ArticleMoved("The", s[4..]);
      assert r[|r| - 5..] == ", The";
    } else if StartsWith(s, "A ") {
      assert s == "A" + " " + s[2..];
      assert r == s[2..] + ", " + "A";
      ArticleMoved("A", s[2..]);
      assert r[|r| - 3..] == ", A";
    }
  }

  /** Moving an article behind the rest of the name, after a comma, adds
      only the comma. */
  lemma ArticleMoved(article: string, rest: string)
    ensures multiset(rest + ", " + article) == multiset(article + " " + rest) + multiset{','}
  {
    assert rest + ", " + article == rest + [','] + [' '] + article;
    assert article + " " + rest == article + [' '] + rest;
  }

  /** The volume data the keys are made from (`VolumeData`). */
  datatype VolumeData = VolumeData(
    comicvineId: int, title: string, year: Option<int>, volumeNumber: int,
    publisher: Option<string>, specialVersion: SpecialVersion)

  /** The issue data the keys are made from; `releaseYear` is what
      `extract_year_from_date` makes of the date. */
  datatype IssueData = IssueData(
    comicvineId: int, issueNumber: Option<string>, title: Option<string>,
    date: Option<string>, releaseYear: Option<int>)

  /** The settings the keys read. */
  datatype NamingSettings = NamingSettings(longSpecialVersion: bool, volumePadding: int, issuePadding: int)

  /** `SVNamingKeys`. */
  datatype VolumeKeys = VolumeKeys(
    seriesName: string, cleanSeriesName: string, volumeNumber: string, comicvineId: int,
    year: Option<int>, publisher: Option<string>, specialVersion: Option<string>)

  /** `IssueNamingKeys`. */
  datatype IssueKeys = IssueKeys(
    volume: VolumeKeys, issueComicvineId: int, issueNumber: Option<string>,
    issueTitle: Option<string>, issueReleaseDate: Option<string>, issueReleaseYear: Option<int>)

  /** Python `x or ''` on an optional text. */
  function OrEmpty(s: Option<string>): string {
    if s.Some? then s.value else ""
  }

  /** `_get_volume_naming_keys`, with the special version optionally overridden. */
  function GetVolumeKeys(v: VolumeData, svOverride: Option<SpecialVersion>, settings: NamingSettings)
    : (r: VolumeKeys)
    ensures r.seriesName == SeriesName(v.title)
    ensures r.cleanSeriesName == CleanSeriesName(r.seriesName)
    ensures |r.volumeNumber| >= settings.volumePadding
    ensures r.volumeNumber == ZFill(IntToString(v.volumeNumber), settings.volumePadding)
    ensures r.specialVersion == SpecialVersionText(
      if svOverride.Some? then svOverride.value else v.specialVersion, settings.longSpecialVersion)
  {
    var series := SeriesName(v.title);
    var sv := if svOverride.Some? then svOverride.value else v.specialVersion;
    ZFillShape(IntToString(v.volumeNumber), settings.volumePadding);
    VolumeKeys(
      series, CleanSeriesName(series),
      ZFill(IntToString(v.volumeNumber), settings.volumePadding),
      v.comicvineId, v.year, v.publisher,
      SpecialVersionText(sv, settings.longSpecialVersion))
  }

  /** The volume number is zero-padded: its digits end the key and only zeros
      precede them. */
  lemma VolumeNumberPadded(v: VolumeData, settings: NamingSettings)
    requires v.volumeNumber >= 0
    ensures var n := GetVolumeKeys(v, None, settings).volumeNumber;
      EndsWith(n, IntToString(v.volumeNumber))
      && forall i | 0 <= i < |n| - |IntToString(v.volumeNumber)| :: n[i] == '0'
  {
    var s := IntToString(v.volumeNumber);
    assert s[0] != '+' && s[0] != '-' by {
      assert IsDigits(s);
      assert s[0] in s;
    }
    ZFillShape(s, settings.volumePadding);
  }

  /** The issue number key: the number (or '') zero-padded, `None` if empty. */
  function IssueNumberKey(n: Option<string>, padding: int): (r: Option<string>)
    ensures r.None? <==> |OrEmpty(n)| == 0 && padding <= 0
  {
    ZFillShape(OrEmpty(n), padding);
    var z := ZFill(OrEmpty(n), padding);
    if z == "" then None else Some(z)
  }

  /** An issue without a number gets as many zeros as the padding asks for. */
  lemma MissingIssueNumberIsZeros(padding: int)
    requires padding > 0
    ensures IssueNumberKey(None, padding) == Some(Repeat('0', padding))
    ensures IssueNumberKey(Some(""), padding) == Some(Repeat('0', padding))
  {
    assert ZFill("", padding) == Repeat('0', padding - 0) + "";
    assert Repeat('0', padding) + "" == Repeat('0', padding);
  }

  /** `_get_issue_naming_keys`. */
  function GetIssueKeys(v: VolumeData, issue: IssueData, settings: NamingSettings): (r: IssueKeys)
    ensures r.volume == GetVolumeKeys(v, None, settings)
    ensures r.issueNumber == IssueNumberKey(issue.issueNumber, settings.issuePadding)
    ensures r.issueTitle.None? <==> SeriesName(OrEmpty(issue.title)) == ""
    ensures r.issueTitle.Some? ==> '/' !in r.issueTitle.value && NoDoubleBackslash(r.issueTitle.value)
  {
    var title := SeriesName(OrEmpty(issue.title));
    IssueKeys(
      GetVolumeKeys(v, None, settings), issue.comicvineId,
      IssueNumberKey(issue.issueNumber, settings.issuePadding),
      if title == "" then None else Some(title),
      issue.date, issue.releaseYear)
  }

  /** Python `str` of an optional text: `None` prints as "None". */
  function PyStr(s: Option<string>): string {
    if s.Some? then s.value else "None"
  }

  /** The issue number of a file covering a range (`generate_issue_name`):
      both ends zero-padded, joined by " - ". */
  function RangeIssueNumber(first: Option<string>, lastNumber: string, padding: int): (r: string)
    ensures var a := ZFill(PyStr(first), padding); var b := ZFill(lastNumber, padding);
      r == a + " - " + b && |a| >= padding && |b| >= padding
  {
    ZFillShape(PyStr(first), padding);
    ZFillShape(lastNumber, padding);
    ZFill(PyStr(first), padding) + " - " + ZFill(lastNumber, padding)
  }

  /** Both ends of a range keep their numbers, after leading zeros only. */
  lemma RangeIssueNumberEnds(first: string, lastNumber: string, padding: int)
    requires |first| > 0 && IsDigit(first[0]) && |lastNumber| > 0 && IsDigit(lastNumber[0])
    ensures var a := ZFill(first, padding);
      var r := RangeIssueNumber(Some(first), lastNumber, padding);
      EndsWith(r, lastNumber) && StartsWith(r, a + " - ") && EndsWith(a, first)
      && forall i | 0 <= i < |a| - |first| :: a[i] == '0'
  {
    ZFillShape(first, padding);
    ZFillShape(lastNumber, padding);
    assert PyStr(Some(first)) == first;
    JoinedEnds(ZFill(first, padding), ZFill(lastNumber, padding), lastNumber);
  }

  /** Two texts joined by " - " open with the first and the separator and
      end as the second does. */
  lemma JoinedEnds(a: string, b: string, tail: string)
    requires EndsWith(b, tail)
    ensures EndsWith(a + " - " + b, tail) && StartsWith(a + " - " + b, a + " - ")
  {
    var r := a + " - " + b;
    assert r[|r| - |tail|..] == b[|b| - |tail|..];
    assert r[..|a| + 3] == a + " - ";
  }

  // ---------------------------------------------------------------------
  // rendering a format
  // ---------------------------------------------------------------------

  /** A parsed format string: literal characters and replacement fields. */
  datatype Piece = Text(c: char) | Field(name: string)

  /** The dataclass fields of `BaseNamingKeys`, `SVNamingKeys` and `IssueNamingKeys`. */
  const BaseKeyNames: seq<string> :=
    ["series_name", "clean_series_name", "volume_number", "comicvine_id", "year", "publisher"]
  const SpecialVersionKeyNames: seq<string> := BaseKeyNames + ["special_version"]
  const IssueKeyNames: seq<string> := SpecialVersionKeyNames +
    ["issue_comicvine_id", "issue_number", "issue_title", "issue_release_date", "issue_release_year"]

  /** `NAMING_MAPPING`: the keys each naming setting may use. */
  function KeysFor(settingKey: string): (r: Option<seq<string>>)
    ensures r.Some? <==> settingKey in {"volume_folder_naming", "file_naming", "file_naming_empty",
                                        "file_naming_special_version", "file_naming_vai"}
  {
    if settingKey == "volume_folder_naming" then Some(BaseKeyNames)
    else if settingKey == "file_naming_special_version" then Some(SpecialVersionKeyNames)
    else if settingKey in {"file_naming", "file_naming_empty", "file_naming_vai"} then Some(IssueKeyNames)
    else None
  }

  /** An optional int as `str` would print it. */
  function IntText(i: Option<int>): Option<string> {
    if i.Some? then Some(IntToString(i.value)) else None
  }

  /** The items of a `SVNamingKeys`, in field order. */
  function VolumeItems(k: VolumeKeys): (r: seq<(string, Option<string>)>)
    ensures |r| == |SpecialVersionKeyNames| && forall i | 0 <= i < |r| :: r[i].0 == SpecialVersionKeyNames[i]
  {
    [("series_name", Some(k.seriesName)), ("clean_series_name", Some(k.cleanSeriesName)),
     ("volume_number", Some(k.volumeNumber)), ("comicvine_id", Some(IntToString(k.comicvineId))),
     ("year", IntText(k.year)), ("publisher", k.publisher), ("special_version", k.specialVersion)]
  }

  /** The items of an `IssueNamingKeys`, in field order. */
  function IssueItems(k: IssueKeys): (r: seq<(string, Option<string>)>)
    ensures |r| == |IssueKeyNames| && forall i | 0 <= i < |r| :: r[i].0 == IssueKeyNames[i]
  {
    VolumeItems(k.volume) +
    [("issue_comicvine_id", Some(IntToString(k.issueComicvineId))), ("issue_number", k.issueNumber),
     ("issue_title", k.issueTitle), ("issue_release_date", k.issueReleaseDate),
     ("issue_release_year", IntText(k.issueReleaseYear))]
  }

  /** The mapping handed to `format_map`: every value that is `None` becomes
      'Unknown'. */
  function Rendered(items: seq<(string, Option<string>)>): (r: map<string, string>)
    ensures forall i | 0 <= i < |items| :: items[i].0 in r
    ensures forall key | key in r :: exists i | 0 <= i < |items| :: items[i].0 == key
    decreases |items|
  {
    if |items| == 0 then map[]
    else
      var last := items[|items| - 1];
      var r := Rendered(items[..|items| - 1])[last.0 := if last.1.Some? then last.1.value else "Unknown"];
      assert forall i | 0 <= i < |items| - 1 :: items[..|items| - 1][i] == items[i];
      r
  }

  /** Each key with a single item renders to its text, or to 'Unknown' when
      it has none. */
  lemma {:induction false} RenderedValue(items: seq<(string, Option<string>)>, i: nat)
    requires i < |items|
    requires forall j | 0 <= j < |items| && j != i :: items[j].0 != items[i].0
    ensures Rendered(items)[items[i].0] == if items[i].1.Some? then items[i].1.value else "Unknown"
    decreases |items|
  {
    if i < |items| - 1 {
      var init := items[..|items| - 1];
      assert init[i] == items[i];
      forall j | 0 <= j < |init| && j != i ensures init[j].0 != init[i].0 {
        assert init[j] == items[j];
      }
      RenderedValue(init, i);
    }
  }

  /** The text of a replacement field up to its '!' conversion or ':' spec,
      with Python's checks on the conversion. */
  function FieldName(content: string): (r: Result<string>)
    ensures r.Err? ==> r.error == ValueError
    ensures r.Ok? ==> |r.value| <= |content| && r.value == content[..|r.value|]
    ensures r.Ok? ==> ':' !in r.value && '!' !in r.value
    ensures ':' !in content && '!' !in content ==> r == Ok(content)
    decreases |content|
  {
    if |content| == 0 then Ok("")
    else if content[0] == ':' then Ok("")
    else if content[0] == '!' then
      if |content| == 1 || (|content| > 2 && content[2] != ':') then Err(ValueError) else Ok("")
    else
      match FieldName(content[1..])
      case Err(e) => Err(e)
      case Ok(rest) =>
        assert content[1..][..|rest|] == content[1..|rest| + 1];
        assert forall x | x in content[1..] :: x in content;
        assert [content[0]] + content[1..] == content;
        Ok([content[0]] + rest)
  }

  /** Prepend a piece to a parse that went well. */
  function Cons(p: Piece, rest: Result<seq<Piece>>): Result<seq<Piece>> {
    if rest.Ok? then Ok([p] + rest.value) else rest
  }

  /** The replacement field that opens `t` (the text after its '{'): its
      name and the text after its '}'. */
  function ParseField(t: string): (r: Result<(string, string)>)
    ensures r.Err? ==> r.error == ValueError
    ensures r.Ok? ==> |r.value.1| < |t| && t == t[..|t| - |r.value.1| - 1] + ['}'] + r.value.1
  {
    match SplitOnce(t, '}')
    case (_, None) => Err(ValueError)
    case (content, Some(rest)) =>
      if '{' in content then Err(ValueError)
      else
        match FieldName(content)
        case Err(e) => Err(e)
        case Ok(name) => Ok((name, rest))
  }

  /** `Formatter().parse` as far as naming formats need it: "{{" and "}}" are
      literal braces, "{...}" a field, and a lone brace is a `ValueError`. A
      '{' inside a field is refused as well (nested fields are not modelled). */
  function ParseFormat(s: string): (r: Result<seq<Piece>>)
    ensures r.Err? ==> r.error == ValueError
    decreases |s|
  {
    if |s| == 0 then Ok([])
    else if s[0] == '{' then
      if |s| >= 2 && s[1] == '{' then Cons(Text('{'), ParseFormat(s[2..]))
      else
        match ParseField(s[1..])
        case Err(e) => Err(e)
        case Ok((name, rest)) => Cons(Field(name), ParseFormat(rest))
    else if s[0] == '}' then
      if |s| >= 2 && s[1] == '}' then Cons(Text('}'), ParseFormat(s[2..])) else Err(ValueError)
    else Cons(Text(s[0]), ParseFormat(s[1..]))
  }

  /** A text without braces parses to its characters. */
  lemma {:induction false} ParsePlainText(s: string)
    requires '{' !in s && '}' !in s
    ensures ParseFormat(s) == Ok(Texts(s))
    decreases |s|
  {
    if |s| > 0 {
      assert s[0] in s;
      assert forall x | x in s[1..] :: x in s;
      ParsePlainText(s[1..]);
    }
  }

  /** The pieces of a literal text. */
  function Texts(s: string): (r: seq<Piece>)
    ensures |r| == |s| && forall i | 0 <= i < |s| :: r[i] == Text(s[i])
    decreases |s|
  {
    if |s| == 0 then [] else [Text(s[0])] + Texts(s[1..])
  }

  /** The names of the fields of a parse. */
  function FieldNames(pieces: seq<Piece>): (r: set<string>)
    ensures forall i | 0 <= i < |pieces| && pieces[i].Field? :: pieces[i].name in r
    decreases |pieces|
  {
    if |pieces| == 0 then {}
    else
      var rest := FieldNames(pieces[1..]);
      assert forall i | 1 <= i < |pieces| :: pieces[i] == pieces[1..][i - 1];
      (if pieces[0].Field? then {pieces[0].name} else {}) + rest
  }

  /** `format_map` over a parse: every field looks its name up, and a missing
      name raises `KeyError`. */
  function FormatMap(pieces: seq<Piece>, values: map<string, string>): (r: Result<string>)
    ensures r.Err? <==> exists i | 0 <= i < |pieces| :: pieces[i].Field? && pieces[i].name !in values
    ensures r.Err? ==> r.error == KeyError
    decreases |pieces|
  {
    if |pieces| == 0 then Ok("")
    else
      var head: Result<string> :=
        match pieces[0]
        case Text(c) => Ok([c])
        case Field(name) => if name in values then Ok(values[name]) else Err(KeyError);
      var rest := FormatMap(pieces[1..], values);
      assert forall i | 1 <= i < |pieces| :: pieces[i] == pieces[1..][i - 1];
      assert (exists i | 1 <= i < |pieces| :: pieces[i].Field? && pieces[i].name !in values)
        ==> exists i | 0 <= i < |pieces[1..]| :: pieces[1..][i].Field? && pieces[1..][i].name !in values;
      if head.Err? then head
      else if rest.Err? then rest
      else Ok(head.value + rest.value)
  }

  /** `check_format`: a format holding the platform's other separator is
      refused, and so is one with a field the setting's keys lack; an unknown
      setting raises `KeyError` and a malformed format `ValueError`. */
  function CheckFormat(format: string, settingKey: string, windows: bool): (r: Result<bool>)
    ensures (if windows then '/' else '\\') in format ==> r == Ok(false)
    ensures r == Ok(true) ==>
      ParseFormat(format).Ok? && KeysFor(settingKey).Some?
      && forall name | name in FieldNames(ParseFormat(format).value) :: name in KeysFor(settingKey).value
    ensures r.Err? ==> (r.error == ValueError && ParseFormat(format).Err?)
                       || (r.error == KeyError && KeysFor(settingKey).None?)
  {
    var sep := if windows then '/' else '\\';
    if sep in format then Ok(false)
    else
      match ParseFormat(format)
      case Err(e) => Err(e)
      case Ok(pieces) =>
        match KeysFor(settingKey)
        case None => Err(KeyError)
        case Some(keys) => Ok(forall name | name in FieldNames(pieces) :: name in keys)
  }

  /** A format that `check_format` accepts renders without a `KeyError` for
      any keys of its setting, each `None` written as 'Unknown'. */
  lemma CheckedFormatRenders(format: string, settingKey: string, windows: bool,
                             items: seq<(string, Option<string>)>)
    requires CheckFormat(format, settingKey, windows) == Ok(true)
    requires forall name | name in KeysFor(settingKey).value :: exists i | 0 <= i < |items| :: items[i].0 == name
    ensures FormatMap(ParseFormat(format).value, Rendered(items)).Ok?
  {
    var pieces := ParseFormat(format).value;
    forall i | 0 <= i < |pieces| && pieces[i].Field? ensures pieces[i].name in Rendered(items) {
      assert pieces[i].name in FieldNames(pieces);
      var j :| 0 <= j < |items| && items[j].0 == pieces[i].name;
    }
  }

  /** Every checked file or folder format renders for every volume and issue:
      folders and special versions from the volume keys, files from the issue
      keys. */
  lemma CheckedFormatsRender(format: string, settingKey: string, windows: bool,
                             v: VolumeData, issue: IssueData, settings: NamingSettings)
    requires CheckFormat(format, settingKey, windows) == Ok(true)
    ensures settingKey in {"volume_folder_naming", "file_naming_special_version"} ==>
      FormatMap(ParseFormat(format).value, Rendered(VolumeItems(GetVolumeKeys(v, None, settings)))).Ok?
    ensures settingKey in {"file_naming", "file_naming_empty", "file_naming_vai"} ==>
      FormatMap(ParseFormat(format).value, Rendered(IssueItems(GetIssueKeys(v, issue, settings)))).Ok?
  {
    var vi := VolumeItems(GetVolumeKeys(v, None, settings));
    var ii := IssueItems(GetIssueKeys(v, issue, settings));
    if settingKey in {"volume_folder_naming", "file_naming_special_version"} {
      forall name | name in KeysFor(settingKey).value ensures exists i | 0 <= i < |vi| :: vi[i].0 == name {
        assert name in SpecialVersionKeyNames;
        var i :| 0 <= i < |SpecialVersionKeyNames| && SpecialVersionKeyNames[i] == name;
        assert vi[i].0 == name;
      }
      CheckedFormatRenders(format, settingKey, windows, vi);
    }
    if settingKey in {"file_naming", "file_naming_empty", "file_naming_vai"} {
      forall name | name in KeysFor(settingKey).value ensures exists i | 0 <= i < |ii| :: ii[i].0 == name {
        var i :| 0 <= i < |IssueKeyNames| && IssueKeyNames[i] == name;
        assert ii[i].0 == name;
      }
      CheckedFormatRenders(format, settingKey, windows, ii);
    }
  }

  /** How a parse goes on at a replacement field. */
  lemma ParseFormatField(s: string)
    requires |s| > 0 && s[0] == '{' && !(|s| >= 2 && s[1] == '{')
    requires ParseField(s[1..]).Ok?
    ensures ParseFormat(s) == Cons(Field(ParseField(s[1..]).value.0), ParseFormat(ParseField(s[1..]).value.1))
  {
  }

  /** A format that is one plain field parses to that field. */
  lemma ParseSingleField(name: string)
    requires '{' !in name && '}' !in name && ':' !in name && '!' !in name
    ensures ParseFormat("{" + name + "}") == Ok([Field(name)])
  {
    var f := "{" + name + "}";
    assert f[0] == '{';
    assert f[1..] == name + ['}'] + "";
    SplitOnceCons(name, "", '}');
    assert !(|f| >= 2 && f[1] == '{') by {
      if |name| > 0 {
        assert f[1] == name[0];
        assert name[0] in name;
      }
    }
    assert ParseField(f[1..]) == Ok((name, ""));
    ParseFormatField(f);
    var empty: seq<Piece> := [];
    assert ParseFormat("") == Ok(empty);
    assert [Field(name)] + empty == [Field(name)];
  }

  /** `check_format` on a format that is one plain field accepts it exactly
      when the setting may use that key. */
  lemma SingleFieldCheck(name: string, settingKey: string, windows: bool)
    requires '{' !in name && '}' !in name && ':' !in name && '!' !in name
    requires '/' !in name && '\\' !in name
    requires KeysFor(settingKey).Some?
    ensures CheckFormat("{" + name + "}", settingKey, windows) == Ok(name in KeysFor(settingKey).value)
  {
    var f := "{" + name + "}";
    assert '/' !in f && '\\' !in f;
    ParseSingleField(name);
    assert FieldNames([Field(name)]) == {name};
  }

  // ---------------------------------------------------------------------
  // numbering colliding targets (`same_name_indexing`)
  // ---------------------------------------------------------------------

  /** The `index`-th variant of a target: " (index)" before its extension;
      variant 0 is the target itself. */
  function Numbered(after: string, index: nat): string {
    if index == 0 then after
    else SplitExt(after).0 + " (" + NatToString(index) + ")" + SplitExt(after).1
  }

  /** The middle of a concatenation of three texts. */
  lemma SliceMiddle(p: string, m: string, q: string)
    ensures (p + m + q)[|p|..|p| + |m|] == m
  {
  }

  /** Different numbers give different variants. */
  lemma NumberedInjective(after: string, i: nat, j: nat)
    requires Numbered(after, i) == Numbered(after, j)
    ensures i == j
  {
    var root := SplitExt(after).0;
    var ext := SplitExt(after).1;
    if i > 0 && j > 0 {
      var a := NatToString(i);
      var b := NatToString(j);
      assert Numbered(after, i) == (root + " (") + a + (")" + ext);
      assert Numbered(after, j) == (root + " (") + b + (")" + ext);
      assert |a| == |b|;
      SliceMiddle(root + " (", a, ")" + ext);
      SliceMiddle(root + " (", b, ")" + ext);
      NatToStringInjective(i, j);
    }
  }

  /** The variants numbered below `n`. */
  function Tried(after: string, n: nat): (r: set<string>)
    ensures |r| == n
    ensures forall m: nat :: Numbered(after, m) in r <==> m < n
    decreases n
  {
    if n == 0 then {}
    else
      var earlier := Tried(after, n - 1);
      var newest := Numbered(after, n - 1);
      var r := earlier + {newest};
      assert forall m: nat :: Numbered(after, m) in r <==> m < n by {
        forall m: nat ensures Numbered(after, m) in r <==> m < n {
          if m != n - 1 && Numbered(after, m) == newest {
            NumberedInjective(after, m, n - 1);
          }
        }
      }
      assert newest !in earlier;
      r
  }

  /** A subset is no larger than its superset. */
  lemma SubsetSize(a: set<string>, b: set<string>)
    requires a <= b
    ensures |a| <= |b|
  {
    assert b == a + (b - a);
  }

  /** The number of the variant the inner loop of `same_name_indexing` settles
      on, from the variant numbered `index` on: the first that is the file's
      own name or is free. */
  function ProbeIndex(before: string, after: string, taken: set<string>, index: nat): (n: nat)
    requires Tried(after, index) <= taken
    ensures n >= index
    ensures Numbered(after, n) == before || Numbered(after, n) !in taken
    ensures forall m: nat | index <= m < n :: Numbered(after, m) in taken && Numbered(after, m) != before
    decreases |taken| - index
  {
    var candidate := Numbered(after, index);
    if before != candidate && candidate in taken then
      ProbeStep(before, after, taken, index);
      ProbeIndex(before, after, taken, index + 1)
    else index
  }

  /** A taken variant that is not the file's own name extends the tried
      variants within the taken names. */
  lemma ProbeStep(before: string, after: string, taken: set<string>, index: nat)
    requires Tried(after, index) <= taken
    requires Numbered(after, index) in taken
    ensures Tried(after, index + 1) <= taken
    ensures index + 1 <= |taken|
  {
    assert Tried(after, index + 1) == Tried(after, index) + {Numbered(after, index)};
    SubsetSize(Tried(after, index + 1), taken);
  }

  /** The target `same_name_indexing` chooses for one planned rename: the
      first variant, counting from the target itself, that is the file's own
      name or is free. */
  function Chosen(before: string, after: string, taken: set<string>): (r: string)
    ensures r == before || r !in taken
  {
    Numbered(after, ProbeIndex(before, after, taken, 0))
  }

  /** The planned renames after the loop: each target replaced by its chosen
      variant, and each chosen variant taken from then on. */
  function ChooseAll(planned: seq<(string, string)>, taken: set<string>): (r: seq<(string, string)>)
    ensures |r| == |planned|
    decreases |planned|
  {
    if |planned| == 0 then []
    else
      var t := Chosen(planned[0].0, planned[0].1, taken);
      [(planned[0].0, t)] + ChooseAll(planned[1..], taken + {t})
  }

  /** Numbering changes targets only: the planned renames keep their files
      and their order. */
  lemma {:induction false} ChooseAllKeys(planned: seq<(string, string)>, taken: set<string>)
    ensures |ChooseAll(planned, taken)| == |planned|
    ensures forall k | 0 <= k < |planned| :: ChooseAll(planned, taken)[k].0 == planned[k].0
    decreases |planned|
  {
    if |planned| > 0 {
      var t := Chosen(planned[0].0, planned[0].1, taken);
      ChooseAllKeys(planned[1..], taken + {t});
    }
  }

  /** The renames that still move a file. */
  function DropUnchanged(renames: seq<(string, string)>): (r: seq<(string, string)>)
    ensures forall k | 0 <= k < |r| :: r[k].0 != r[k].1
    ensures forall x | x in r :: x in renames
    ensures forall x | x in renames && x.0 != x.1 :: x in r
    decreases |renames|
  {
    if |renames| == 0 then []
    else
      var rest := DropUnchanged(renames[1..]);
      assert forall x | x in renames && x != renames[0] :: x in renames[1..];
      if renames[0].0 != renames[0].1 then [renames[0]] + rest else rest
  }

  /** Each chosen target is the file's own name or was free. */
  ghost predicate FreeChoices(c: seq<(string, string)>, taken: set<string>) {
    forall k | 0 <= k < |c| :: c[k].1 == c[k].0 || c[k].1 !in taken
  }

  /** Each chosen target differs from every earlier choice unless it is the
      file's own name. */
  ghost predicate DistinctChoices(c: seq<(string, string)>) {
    forall i, j | 0 <= i < j < |c| :: c[j].1 == c[j].0 || c[j].1 != c[i].1
  }

  lemma {:induction false} ChooseAllFree(planned: seq<(string, string)>, taken: set<string>)
    ensures FreeChoices(ChooseAll(planned, taken), taken)
    decreases |planned|
  {
    if |planned| > 0 {
      var t := Chosen(planned[0].0, planned[0].1, taken);
      var c := ChooseAll(planned, taken);
      var rest := ChooseAll(planned[1..], taken + {t});
      assert c == [(planned[0].0, t)] + rest;
      ChooseAllFree(planned[1..], taken + {t});
      forall k | 0 < k < |c| ensures c[k].1 == c[k].0 || c[k].1 !in taken {
        assert c[k] == rest[k - 1];
      }
    }
  }

  lemma {:induction false} ChooseAllDistinct(planned: seq<(string, string)>, taken: set<string>)
    ensures DistinctChoices(ChooseAll(planned, taken))
    decreases |planned|
  {
    if |planned| > 0 {
      var t := Chosen(planned[0].0, planned[0].1, taken);
      var c := ChooseAll(planned, taken);
      var rest := ChooseAll(planned[1..], taken + {t});
      assert c == [(planned[0].0, t)] + rest;
      ChooseAllFree(planned[1..], taken + {t});
      ChooseAllDistinct(planned[1..], taken + {t});
      forall i, j | 0 <= i < j < |c| ensures c[j].1 == c[j].0 || c[j].1 != c[i].1 {
        assert c[j] == rest[j - 1];
        if i > 0 {
          assert c[i] == rest[i - 1];
        }
      }
    }
  }

  /** The renames `same_name_indexing` returns go to pairwise distinct targets,
      none of which existed or was taken before. */
  lemma IndexedTargetsFresh(planned: seq<(string, string)>, taken: set<string>)
    ensures var r := DropUnchanged(ChooseAll(planned, taken));
      (forall x | x in r :: x.1 !in taken)
      && forall x, y | x in r && y in r && x.1 == y.1 :: x == y
  {
    var c := ChooseAll(planned, taken);
    var r := DropUnchanged(c);
    ChooseAllFree(planned, taken);
    ChooseAllDistinct(planned, taken);
    forall x, y | x in r && y in r && x.1 == y.1 ensures x == y {
      var i :| 0 <= i < |c| && c[i] == x;
      var j :| 0 <= j < |c| && c[j] == y;
    }
  }

  /** The inner loop of `same_name_indexing` stops at the chosen variant. */
  lemma ProbeSettles(before: string, after: string, taken: set<string>, k: nat)
    requires Tried(after, k) <= taken
    requires ProbeIndex(before, after, taken, k) == ProbeIndex(before, after, taken, 0)
    requires Numbered(after, k) == before || Numbered(after, k) !in taken
    ensures Numbered(after, k) == Chosen(before, after, taken)
  {
  }

  /** One planned rename of the outer loop: its chosen target joins the
      renames done so far. */
  lemma ChooseAllStep(planned: seq<(string, string)>, i: nat, done: seq<(string, string)>,
                      initial: set<string>, taken: set<string>, t: string)
    requires i < |planned|
    requires ChooseAll(planned, initial) == done + ChooseAll(planned[i..], taken)
    requires t == Chosen(planned[i].0, planned[i].1, taken)
    ensures ChooseAll(planned, initial) == (done + [(planned[i].0, t)]) + ChooseAll(planned[i + 1..], taken + {t})
  {
    assert planned[i..][1..] == planned[i + 1..];
    ChooseAllUnfold(planned[i..], taken, t);
    var rest := ChooseAll(planned[i + 1..], taken + {t});
    assert done + ([(planned[i].0, t)] + rest) == (done + [(planned[i].0, t)]) + rest;
  }

  /** The first planned rename takes its chosen target before the rest. */
  lemma ChooseAllUnfold(planned: seq<(string, string)>, taken: set<string>, t: string)
    requires |planned| > 0
    requires t == Chosen(planned[0].0, planned[0].1, taken)
    ensures ChooseAll(planned, taken) == [(planned[0].0, t)] + ChooseAll(planned[1..], taken + {t})
  {
  }

  /** The inner loop of `same_name_indexing`: try the target, then its
      " (1)", " (2)", ... variants until one is the file's own name or free. */
  method NextFreeName(before: string, after: string, finalNames: set<string>) returns (newAfter: string)
    ensures newAfter == Chosen(before, after, finalNames)
  {
    newAfter := after;
    var index := 1;
    while before != newAfter && newAfter in finalNames
      invariant 1 <= index
      invariant newAfter == Numbered(after, index - 1)
      invariant Tried(after, index - 1) <= finalNames
      invariant ProbeIndex(before, after, finalNames, index - 1) == ProbeIndex(before, after, finalNames, 0)
      decreases |finalNames| + 1 - index
    {
      ProbeStep(before, after, finalNames, index - 1);
      newAfter := Numbered(after, index);
      index := index + 1;
    }
    ProbeSettles(before, after, finalNames, index - 1);
  }

  /** `same_name_indexing`: nothing changes when the volume folder does not
      exist; otherwise every target that collides with a file in the folder
      or with an earlier choice gets the first free " (n)" variant, and the
      renames that keep a file where it is are dropped. */
  method SameNameIndexing(folderExists: bool, filesInFolder: set<string>, planned: seq<(string, string)>)
    returns (result: seq<(string, string)>)
    ensures !folderExists ==> result == planned
    ensures folderExists ==> result == DropUnchanged(ChooseAll(planned, filesInFolder))
  {
    if !folderExists {
      return planned;
    }
    var finalNames := filesInFolder;
    var done: seq<(string, string)> := [];
    var i := 0;
    while i < |planned|
      invariant 0 <= i <= |planned|
      invariant ChooseAll(planned, filesInFolder) == done + ChooseAll(planned[i..], finalNames)
    {
      var before := planned[i].0;
      var after := planned[i].1;
      var newAfter := NextFreeName(before, after, finalNames);
      ChooseAllStep(planned, i, done, filesInFolder, finalNames, newAfter);
      done := done + [(before, newAfter)];
      finalNames := finalNames + {newAfter};
      i := i + 1;
    }
    assert planned[i..] == [];
    assert done + ChooseAll([], finalNames) == done;
    result := DropUnchanged(done);
  }

  // ---------------------------------------------------------------------
  // rename suggestions (`preview_mass_rename`)
  // ---------------------------------------------------------------------

  /** Where the body of a file's new name comes from. */
  datatype BodySource =
    | RangeBody(first: real, last: real)   // name of the issue range
    | IssueBody(issue: real, withStem: bool) // name of the issue, with the file's stem for metadata files
    | CoverBody                              // cover name of the volume
    | StemBody                               // the file's own stem

  /** The body of a file's new name, chosen by the issues the file covers,
      and whether it goes into a folder of its own (pages of an issue). */
  function PlanBody(issues: seq<real>, isMetadataFile: bool, isImage: bool): (r: (BodySource, bool))
    ensures r.1 <==> |issues| > 0 && isImage
    ensures |issues| > 1 ==> r.0 == RangeBody(issues[0], issues[|issues| - 1])
    ensures |issues| == 1 ==> r.0 == IssueBody(issues[0], isMetadataFile)
    ensures |issues| == 0 ==> r.0 == (if isImage then CoverBody else StemBody)
  {
    var body :=
      if |issues| > 1 then RangeBody(issues[0], issues[|issues| - 1])
      else if |issues| == 1 then IssueBody(issues[0], isMetadataFile)
      else if isImage then CoverBody
      else StemBody;
    (body, |issues| > 0 && isImage)
  }

  /** The path suggested for a file: its generated body, with the file's
      extension lowercased, in the volume folder. */
  function SuggestedPath(volumeFolder: string, body: string, file: string): string {
    PathJoin(volumeFolder, body + Lower(SplitExt(file).1))
  }

  /** The suggested path of each file, with its generated body. */
  function Proposed(volumeFolder: string, files: seq<(string, string)>): (r: seq<(string, string)>)
    ensures |r| == |files|
    ensures forall k | 0 <= k < |r| :: r[k] == (files[k].0, SuggestedPath(volumeFolder, files[k].1, files[k].0))
  {
    seq(|files|, k requires 0 <= k < |files| => (files[k].0, SuggestedPath(volumeFolder, files[k].1, files[k].0)))
  }

  /** The renames a preview proposes for files and their generated bodies,
      before numbering: only files whose suggested path differs from where
      they are. */
  function Suggestions(volumeFolder: string, files: seq<(string, string)>): (r: seq<(string, string)>)
    ensures forall x | x in r :: x.0 != x.1
    ensures forall x | x in r :: exists f | f in files :: x == (f.0, SuggestedPath(volumeFolder, f.1, f.0))
    ensures forall f | f in files && f.0 != SuggestedPath(volumeFolder, f.1, f.0) ::
      (f.0, SuggestedPath(volumeFolder, f.1, f.0)) in r
  {
    var p := Proposed(volumeFolder, files);
    assert forall x | x in p :: exists f | f in files :: x == (f.0, SuggestedPath(volumeFolder, f.1, f.0)) by {
      forall x | x in p ensures exists f | f in files :: x == (f.0, SuggestedPath(volumeFolder, f.1, f.0)) {
        var k :| 0 <= k < |p| && p[k] == x;
        assert files[k] in files;
      }
    }
    assert forall f | f in files :: (f.0, SuggestedPath(volumeFolder, f.1, f.0)) in p by {
      forall f | f in files ensures (f.0, SuggestedPath(volumeFolder, f.1, f.0)) in p {
        var k :| 0 <= k < |files| && files[k] == f;
        assert p[k] == (f.0, SuggestedPath(volumeFolder, f.1, f.0));
      }
    }
    DropUnchanged(p)
  }

  /** A file already at its suggested path is not renamed. */
  lemma {:induction false} SuggestionsSkipSettled(volumeFolder: string, files: seq<(string, string)>, i: nat)
    requires i < |files| && files[i].0 == SuggestedPath(volumeFolder, files[i].1, files[i].0)
    requires forall j | 0 <= j < |files| && j != i :: files[j].0 != files[i].0
    ensures forall x | x in Suggestions(volumeFolder, files) :: x.0 != files[i].0
  {
    var r := Suggestions(volumeFolder, files);
    forall x | x in r ensures x.0 != files[i].0 {
      var f :| f in files && x == (f.0, SuggestedPath(volumeFolder, f.1, f.0));
      var j :| 0 <= j < |files| && files[j] == f;
    }
  }
}
