/** The first search implementation (`backend/search.py`): title matching,
    the match verdict and rating of a result, the manual search over several
    query formats, and the automatic choice of results for a volume or an
    issue. The search engine, the blocklist and the database answers are
    parameters. */
module LegacySearch {
  import opened Common
  import opened Strings
  import Files
  import opened Ranking
  import opened Queries

  // ---------------------------------------------------------------------
  // title matching
  // ---------------------------------------------------------------------

  /** A character `\w` matches. */
  predicate IsWordChar(c: char) {
    IsDigit(c) || ('a' <= c <= 'z') || ('A' <= c <= 'Z') || c == '_'
  }

  /** The single characters `clean_title_regex_2` removes. */
  predicate IsRemovedChar(c: char) {
    c == '-' || c == '+' || c == ',' || c == '!' || c == ':'
  }

  /** The word "the" starts at `i`, with a word boundary on both sides. */
  predicate TheAt(s: string, i: nat) {
    && i + 3 <= |s| && s[i] == 't' && s[i + 1] == 'h' && s[i + 2] == 'e'
    && (i == 0 || !IsWordChar(s[i - 1]))
    && (i + 3 == |s| || !IsWordChar(s[i + 3]))
  }

  /** `clean_title_regex_2.sub('', s)` from position `i` on; the boundaries
      are those of the whole text. */
  function RemoveTokens(s: string, i: nat): (r: string)
    requires i <= |s|
    ensures forall k | 0 <= k < |r| :: !IsRemovedChar(r[k])
    decreases |s| - i
  {
    if i == |s| then ""
    else if IsRemovedChar(s[i]) then RemoveTokens(s, i + 1)
    else if TheAt(s, i) then RemoveTokens(s, i + 3)
    else [s[i]] + RemoveTokens(s, i + 1)
  }

  /** `strip_spaces.sub(' ', s)`: every run of whitespace becomes one
      space. */
  function Collapse(s: string): (r: string)
    ensures |s| == 0 <==> |r| == 0
    ensures |s| > 0 ==> (IsSpace(r[0]) <==> IsSpace(s[0]))
    decreases |s|
  {
    if |s| == 0 then ""
    else if IsSpace(s[0]) then [' '] + Collapse(TrimStart(s[1..]))
    else [s[0]] + Collapse(s[1..])
  }

  /** The cleaned form both titles are compared in. */
  function CleanTitle(t: string): string {
    Strip(Collapse(RemoveTokens(Lower(t), 0)))
  }

  /** `_check_matching_titles`. */
  predicate TitlesMatch(a: string, b: string) {
    CleanTitle(a) == CleanTitle(b)
  }

  /** Title matching is an equivalence: reflexive, symmetric, transitive. */
  lemma TitlesMatchEquivalence(a: string, b: string, c: string)
    ensures TitlesMatch(a, a)
    ensures TitlesMatch(a, b) ==> TitlesMatch(b, a)
    ensures TitlesMatch(a, b) && TitlesMatch(b, c) ==> TitlesMatch(a, c)
  {
  }

  /** A collapsed text keeps the characters of the text and single spaces,
      and no whitespace follows whitespace in it. */
  lemma {:induction false} CollapseShape(s: string)
    ensures forall k | 0 <= k < |Collapse(s)| :: Collapse(s)[k] == ' ' || Collapse(s)[k] in s
    ensures forall k | 0 <= k < |Collapse(s)| && IsSpace(Collapse(s)[k]) ::
      Collapse(s)[k] == ' ' && (k + 1 < |Collapse(s)| ==> !IsSpace(Collapse(s)[k + 1]))
    decreases |s|
  {
    if |s| > 0 {
      var c := Collapse(s);
      if IsSpace(s[0]) {
        var t := TrimStart(s[1..]);
        TrimStartSuffix(s[1..]);
        CollapseShape(t);
        forall k | 0 <= k < |c| ensures c[k] == ' ' || c[k] in s {
          if k > 0 {
            assert c[k] == Collapse(t)[k - 1];
            if c[k] != ' ' {
              assert c[k] in t;
              var m :| 0 <= m < |t| && t[m] == c[k];
              assert s[|s| - |t| + m] == c[k];
            }
          }
        }
      } else {
        CollapseShape(s[1..]);
        forall k | 0 <= k < |c| ensures c[k] == ' ' || c[k] in s {
          if k > 0 {
            assert c[k] == Collapse(s[1..])[k - 1];
            if c[k] != ' ' {
              var m :| 0 <= m < |s[1..]| && s[1..][m] == c[k];
              assert s[m + 1] == c[k];
            }
          }
        }
      }
    }
  }

  /** A cleaned title holds none of the removed characters, does not start
      or end with whitespace, and its only whitespace is single spaces. */
  lemma CleanTitleShape(t: string)
    ensures forall k | 0 <= k < |CleanTitle(t)| :: !IsRemovedChar(CleanTitle(t)[k])
    ensures |CleanTitle(t)| == 0 || (!IsSpace(CleanTitle(t)[0]) && !IsSpace(CleanTitle(t)[|CleanTitle(t)| - 1]))
    ensures forall k | 0 <= k < |CleanTitle(t)| && IsSpace(CleanTitle(t)[k]) ::
      CleanTitle(t)[k] == ' ' && (k + 1 < |CleanTitle(t)| ==> !IsSpace(CleanTitle(t)[k + 1]))
  {
    var r := RemoveTokens(Lower(t), 0);
    var c := Collapse(r);
    CollapseShape(r);
    forall k | 0 <= k < |c| ensures !IsRemovedChar(c[k]) {
      if c[k] != ' ' {
        var m :| 0 <= m < |r| && r[m] == c[k];
      }
    }
    StripShape(c);
  }

  /** Stripping keeps a text free of removed characters and of doubled or
      non-space whitespace, and leaves no whitespace at its ends. */
  lemma StripShape(c: string)
    requires forall k | 0 <= k < |c| :: !IsRemovedChar(c[k])
    requires forall k | 0 <= k < |c| && IsSpace(c[k]) :: c[k] == ' ' && (k + 1 < |c| ==> !IsSpace(c[k + 1]))
    ensures forall k | 0 <= k < |Strip(c)| :: !IsRemovedChar(Strip(c)[k])
    ensures |Strip(c)| == 0 || (!IsSpace(Strip(c)[0]) && !IsSpace(Strip(c)[|Strip(c)| - 1]))
    ensures forall k | 0 <= k < |Strip(c)| && IsSpace(Strip(c)[k]) ::
      Strip(c)[k] == ' ' && (k + 1 < |Strip(c)| ==> !IsSpace(Strip(c)[k + 1]))
  {
    var front := TrimStart(c);
    var out := TrimEnd(front);
    StripWindow(c);
    var a := |c| - |front|;
    forall k | 0 <= k < |out| ensures !IsRemovedChar(out[k]) {
      assert out[k] == c[a + k];
    }
    if |out| > 0 {
      assert out[0] == front[0];
    }
    forall k | 0 <= k < |out| && IsSpace(out[k])
      ensures out[k] == ' ' && (k + 1 < |out| ==> !IsSpace(out[k + 1]))
    {
      assert out[k] == c[a + k];
      if k + 1 < |out| {
        assert out[k + 1] == c[a + k + 1];
      }
    }
  }


  /** Behind a non-word character, a suffix has the same character and the
      same "the" token at each of its positions as on its own. */
  lemma TheAtShift(p: string, x: string, i: nat)
    requires |p| > 0 && !IsWordChar(p[|p| - 1]) && i < |x|
    ensures (p + x)[|p| + i] == x[i]
    ensures TheAt(p + x, |p| + i) <==> TheAt(x, i)
  {
    var s := p + x;
    assert s[|p| + i] == x[i];
    if i + 3 <= |x| {
      assert s[|p| + i + 1] == x[i + 1] && s[|p| + i + 2] == x[i + 2];
    }
    if i + 3 < |x| {
      assert s[|p| + i + 3] == x[i + 3];
    }
    if i > 0 {
      assert s[|p| + i - 1] == x[i - 1];
    } else {
      assert s[|p| - 1] == p[|p| - 1];
    }
  }

  /** The removal reads a suffix after a non-word character exactly as it
      reads that suffix on its own. */
  lemma {:induction false} RemoveTokensShift(p: string, x: string, i: nat)
    requires |p| > 0 && !IsWordChar(p[|p| - 1]) && i <= |x|
    ensures RemoveTokens(p + x, |p| + i) == RemoveTokens(x, i)
    decreases |x| - i
  {
    var s := p + x;
    if i < |x| {
      TheAtShift(p, x, i);
      if IsRemovedChar(x[i]) {
        RemoveTokensShift(p, x, i + 1);
      } else if TheAt(x, i) {
        RemoveTokensShift(p, x, i + 3);
      } else {
        RemoveTokensShift(p, x, i + 1);
      }
    }
  }

  /** Leading whitespace does not change what a collapsed text strips to. */
  lemma CollapseTrimStart(r: string)
    ensures TrimStart(Collapse(TrimStart(r))) == TrimStart(Collapse(r))
  {
    if |r| > 0 && IsSpace(r[0]) {
      assert TrimStart(r) == TrimStart(r[1..]);
      assert Collapse(r) == [' '] + Collapse(TrimStart(r[1..]));
      assert TrimStart([' '] + Collapse(TrimStart(r[1..]))) == TrimStart(Collapse(TrimStart(r[1..])));
    }
  }

  /** A leading "The " is ignored: "The X" matches "X". */
  lemma LeadingTheIgnored(a: string)
    ensures TitlesMatch("The " + a, a)
  {
    var la := Lower(a);
    var l := Lower("The " + a);
    assert l == "the " + la;
    assert TheAt(l, 0);
    assert !IsRemovedChar(l[3]) && !TheAt(l, 3);
    RemoveTokensShift("the ", la, 0);
    var r := RemoveTokens(la, 0);
    assert RemoveTokens(l, 0) == [' '] + r;
    assert Collapse([' '] + r) == [' '] + Collapse(TrimStart(r)) by {
      assert ([' '] + r)[1..] == r;
    }
    CollapseTrimStart(r);
  }

  // ---------------------------------------------------------------------
  // match verdict and rating
  // ---------------------------------------------------------------------

  /** `_check_match`: the blocklist, the title, the issue number and the
      year are checked in that order and the first failure gives the
      verdict. */
  function CheckMatch(r: SearchResult, title: string, calculated: Files.IssueNumber, year: Option<int>,
                      blocklisted: bool): (v: Verdict)
    ensures v.matched <==> v.reason.None?
    ensures blocklisted ==> v == Verdict(false, Some("Link is blocklisted"))
    ensures !blocklisted && !TitlesMatch(title, r.series) ==> v == Verdict(false, Some("Title doesn't match"))
    ensures v.matched <==>
      && !blocklisted && TitlesMatch(title, r.series)
      && (calculated == Files.NoIssueNumber || (calculated.Single? && r.issueNumber == calculated))
      && (year.None? || r.year.None? || year.value - 1 <= r.year.value <= year.value + 1)
  {
    if blocklisted then Verdict(false, Some("Link is blocklisted"))
    else if !TitlesMatch(title, r.series) then Verdict(false, Some("Title doesn't match"))
    else if !(calculated == Files.NoIssueNumber || (r.issueNumber.Single? && calculated == r.issueNumber)) then
      Verdict(false, Some("Issue number(s) don't match"))
    else if !(year.None? || r.year.None? || year.value - 1 <= r.year.value <= year.value + 1) then
      Verdict(false, Some("Year doesn't match"))
    else Verdict(true, None)
  }

  /** A range never matches a search for an issue, and neither does any
      result when the issue searched for is itself a range. */
  lemma RangesNeverMatch(r: SearchResult, title: string, calculated: Files.IssueNumber, year: Option<int>,
                         blocklisted: bool)
    requires calculated != Files.NoIssueNumber
    requires r.issueNumber.Several? || calculated.Several?
    ensures !CheckMatch(r, title, calculated, year, blocklisted).matched
  {
  }

  /** The fourth rating component: how well the result's issue number fits
      the issue searched for. A tuple is neither a float nor a string, so a
      range takes the last branch. */
  function IssueFit(r: SearchResult, target: Files.IssueNumber): seq<real> {
    if target != Files.NoIssueNumber then
      if r.issueNumber.Single? && target == r.issueNumber then [0.0]
      else if r.issueNumber == Files.NoIssueNumber && r.specialVersion.Some? then [2.0]
      else [3.0]
    else if r.issueNumber.Single? then [1.0]
    else []
  }

  /** `_sort_search_results`: the rating list a result is sorted by. */
  function Rating(c: Checked, title: string, year: Option<int>, target: Files.IssueNumber): (key: seq<real>)
    ensures |key| >= 2
    ensures key[0] == 0.0 <==> c.verdict.matched
    ensures key[1] == |WordsNotIn(Split(c.result.series, ' '), Split(title, ' '))| as real
    ensures |key| == 2 + (if year.Some? then 1 else 0) + |IssueFit(c.result, target)|
  {
    [if c.verdict.matched then 0.0 else 1.0, |WordsNotIn(Split(c.result.series, ' '), Split(title, ' '))| as real]
    + (if year.Some? then [if c.result.year == year then 0.0 else 1.0] else [])
    + IssueFit(c.result, target)
  }

  /** The key function the results are sorted with. */
  function RatingKey(title: string, year: Option<int>, target: Files.IssueNumber): Checked -> seq<real> {
    c => Rating(c, title, year, target)
  }

  /** Matches come before every result that does not match. */
  lemma MatchesFirst(a: Checked, b: Checked, title: string, year: Option<int>, target: Files.IssueNumber)
    requires a.verdict.matched && !b.verdict.matched
    ensures LexLe(Rating(a, title, year, target), Rating(b, title, year, target))
    ensures !LexLe(Rating(b, title, year, target), Rating(a, title, year, target))
  {
  }

  /** With the year searched for, a result of that year comes before one of
      another year that agrees with it in the first two components. */
  lemma SameYearFirst(a: Checked, b: Checked, title: string, y: int, target: Files.IssueNumber)
    requires a.verdict.matched == b.verdict.matched
    requires Rating(a, title, Some(y), target)[1] == Rating(b, title, Some(y), target)[1]
    requires a.result.year == Some(y) && b.result.year != Some(y)
    ensures !LexLe(Rating(b, title, Some(y), target), Rating(a, title, Some(y), target))
  {
    var ka := Rating(a, title, Some(y), target);
    var kb := Rating(b, title, Some(y), target);
    assert ka[2] == 0.0 && kb[2] == 1.0;
    assert kb[1..][1..] == kb[2..] && ka[1..][1..] == ka[2..];
    assert !LexLe(kb[2..], ka[2..]) by {
      assert kb[2..][0] == 1.0 && ka[2..][0] == 0.0;
    }
    assert !LexLe(kb[1..], ka[1..]);
  }

  // ---------------------------------------------------------------------
  // manual search
  // ---------------------------------------------------------------------

  /** `clean_title_regex_1.sub('', title)`: the title without '/' and ':'. */
  function QueryTitle(t: string): (r: string)
    ensures forall k | 0 <= k < |r| :: r[k] != '/' && r[k] != ':' && r[k] in t
    decreases |t|
  {
    if |t| == 0 then ""
    else (if t[0] == '/' || t[0] == ':' then "" else [t[0]]) + QueryTitle(t[1..])
  }

  /** The three query formats, for a volume or for an issue. */
  function LegacyFormats(forIssue: bool): (fs: seq<Template>)
    ensures |fs| == 3
    ensures forall f | f in fs :: YearBracketed(f) && |f| > 0 && f[0] == Field(TitleField)
    ensures forall f | f in fs :: forIssue <==> Field(IssueField) in f
  {
    if forIssue then IssueQueryFormats() else VolumeQueryFormats()
  }

  /** The formats of a volume search: none holds the issue field. */
  function VolumeQueryFormats(): (fs: seq<Template>)
    ensures |fs| == 3
    ensures forall k | 0 <= k < 3 :: YearBracketed(fs[k]) && |fs[k]| > 0 && fs[k][0] == Field(TitleField)
    ensures forall k | 0 <= k < 3 :: Field(IssueField) !in fs[k]
  {
    [[Field(TitleField), Text(" Vol. "), Field(VolumeField), Text(" "), Text("("), Field(YearField), Text(")")],
     [Field(TitleField), Text(" "), Text("("), Field(YearField), Text(")")],
     [Field(TitleField), Text(" Vol. "), Field(VolumeField)]]
  }

  /** The formats of an issue search: each holds the issue field. */
  function IssueQueryFormats(): (fs: seq<Template>)
    ensures |fs| == 3
    ensures forall k | 0 <= k < 3 :: YearBracketed(fs[k]) && |fs[k]| > 0 && fs[k][0] == Field(TitleField)
    ensures forall k | 0 <= k < 3 :: Field(IssueField) in fs[k]
  {
    [[Field(TitleField), Text(" #"), Field(IssueField), Text(" "), Text("("), Field(YearField), Text(")")],
     [Field(TitleField), Text(" Vol. "), Field(VolumeField), Text(" #"), Field(IssueField)],
     [Field(TitleField), Text(" #"), Field(IssueField)]]
  }

  /** Every result with its verdict. */
  function Checks(rs: seq<SearchResult>, title: string, calculated: Files.IssueNumber, year: Option<int>,
                  blocklisted: string -> bool): (cs: seq<Checked>)
    ensures |cs| == |rs|
    ensures forall i | 0 <= i < |rs| :: cs[i].result == rs[i]
  {
    seq(|rs|, i requires 0 <= i < |rs| => Check(rs[i], title, calculated, year, blocklisted))
  }

  /** One result with its verdict. */
  function Check(r: SearchResult, title: string, calculated: Files.IssueNumber, year: Option<int>,
                 blocklisted: string -> bool): (c: Checked)
    ensures c.result == r
  {
    Checked(r, CheckMatch(r, title, calculated, year, blocklisted(r.link)))
  }

  /** The loop that gives every merged result its verdict. */
  method CheckAll(merged: seq<SearchResult>, t: string, calculated: Files.IssueNumber, year: Option<int>,
                  blocklisted: string -> bool) returns (checked: seq<Checked>)
    ensures checked == Checks(merged, t, calculated, year, blocklisted)
  {
    checked := [];
    var j := 0;
    while j < |merged|
      invariant 0 <= j <= |merged|
      invariant |checked| == j
      invariant forall k | 0 <= k < j :: checked[k] == Check(merged[k], t, calculated, year, blocklisted)
    {
      checked := checked + [Check(merged[j], t, calculated, year, blocklisted)];
      j := j + 1;
    }
  }

  /** `manual_search`: the queries of the formats are searched in order,
      the results merged to one per link, each given its verdict, and the
      whole sorted by rating, results of equal rating in merged order. */
  method ManualSearch(title: string, volumeNumber: int, year: Option<int>, issueNumber: Option<string>,
                      search: string -> seq<SearchResult>, blocklisted: string -> bool)
    returns (results: seq<Checked>)
    ensures var t := QueryTitle(title);
            var calculated := if issueNumber.Some? then Files.IssueNumberOf(issueNumber.value) else Files.NoIssueNumber;
            var queries := FillFormats(LegacyFormats(issueNumber.Some?), QueryValues(t, volumeNumber, year, issueNumber));
            StablySorted(results, Checks(Dedup(Gathered(queries, search)), t, calculated, year, blocklisted), RatingKey(t, year, calculated))
  {
    var calculated := if issueNumber.Some? then Files.IssueNumberOf(issueNumber.value) else Files.NoIssueNumber;
    var t := QueryTitle(title);
    var queries := FillFormats(LegacyFormats(issueNumber.Some?), QueryValues(t, volumeNumber, year, issueNumber));
    var found := GatherResults(queries, search);
    var checked := CheckAll(Dedup(found), t, calculated, year, blocklisted);
    results := SortBy(checked, RatingKey(t, year, calculated));
    SortByStablySorts(checked, RatingKey(t, year, calculated));
  }

  // ---------------------------------------------------------------------
  // automatic search
  // ---------------------------------------------------------------------

  /** What an automatic search is for: a volume with the numbers of its
      open issues (monitored and without a file), or one issue. */
  datatype AutoTarget =
    | VolumeTarget(searchable: seq<real>)
    | IssueTarget(issueNumber: string, monitored: bool, hasFile: bool)

  /** A part as the selection keeps it: with an issue number, well shaped. */
  predicate IsPart(c: Checked) {
    c.result.issueNumber != Files.NoIssueNumber && WellShaped(c.result.issueNumber)
  }

  /** Every selected part is one. */
  predicate AllParts(parts: seq<Checked>) {
    forall k | 0 <= k < |parts| :: IsPart(parts[k])
  }

  /** The results of a search hold issue numbers as `process_issue_number`
      gives them. */
  predicate AllWellShaped(cs: seq<Checked>) {
    forall c | c in cs :: WellShaped(c.result.issueNumber)
  }

  /** The overlap test of a result's issue number against the selected
      parts as written: a range is compared by its two ends against a part
      that must be a range (subscripting a float part raises `TypeError`),
      a single number against a range by containment and against a single
      number by equality. `Ok(true)` when some part overlaps. */
  function ConflictAsWritten(parts: seq<Checked>, n: Files.IssueNumber): Result<bool>
    requires n != Files.NoIssueNumber && WellShaped(n)
    requires AllParts(parts)
    decreases |parts|
  {
    if |parts| == 0 then Ok(false)
    else
      var p := parts[0].result.issueNumber;
      assert IsPart(parts[0]);
      assert AllParts(parts[1..]) by {
        forall k | 0 <= k < |parts[1..]| ensures IsPart(parts[1..][k]) {
          assert parts[1..][k] == parts[k + 1];
        }
      }
      if n.Several? then
        if p.Single? then Err(TypeError)
        else if exists v | v in n.values :: p.values[0] <= v <= p.values[1] then Ok(true)
        else ConflictAsWritten(parts[1..], n)
      else if p.Several? then
        if p.values[0] <= n.value <= p.values[1] then Ok(true) else ConflictAsWritten(parts[1..], n)
      else if p.value == n.value then Ok(true)
      else ConflictAsWritten(parts[1..], n)
  }

  /** The volume-part selection as written, from the matches still to look
      at and the parts selected so far: a special version is returned on
      its own at once; a single issue that is not open is skipped, but a
      range is never skipped (`not filter(...)` is always false); a result
      that overlaps no part is added. */
  function PartsAsWritten(ms: seq<Checked>, searchable: seq<real>, parts: seq<Checked>): Result<seq<Checked>>
    requires AllWellShaped(ms)
    requires AllParts(parts)
    decreases |ms|
  {
    if |ms| == 0 then Ok(parts)
    else
      var m := ms[0];
      assert m in ms;
      assert AllWellShaped(ms[1..]) by {
        forall c | c in ms[1..] ensures WellShaped(c.result.issueNumber) {
          assert c in ms;
        }
      }
      var n := m.result.issueNumber;
      if m.result.specialVersion.Some? then Ok([m])
      else if n == Files.NoIssueNumber then PartsAsWritten(ms[1..], searchable, parts)
      else if n.Single? && n.value !in searchable then PartsAsWritten(ms[1..], searchable, parts)
      else
        match ConflictAsWritten(parts, n)
        case Err(e) => Err(e)
        case Ok(conflict) =>
          if conflict then PartsAsWritten(ms[1..], searchable, parts)
          else PartsAsWritten(ms[1..], searchable, parts + [m])
  }

  /** `auto_search` as written: nothing for an unmonitored volume, a volume
      with no open issue, or an unmonitored issue or one with a file; the
      first match for an issue; the volume-part selection for a volume. */
  method AutoSearchAsWritten(volumeMonitored: bool, target: AutoTarget, found: seq<Checked>)
    returns (r: Result<seq<Checked>>)
    requires AllWellShaped(found)
    ensures !volumeMonitored ==> r == Ok([])
    ensures volumeMonitored && target.VolumeTarget? && |target.searchable| == 0 ==> r == Ok([])
    ensures volumeMonitored && target.IssueTarget? && (!target.monitored || target.hasFile) ==> r == Ok([])
    ensures volumeMonitored && target.IssueTarget? && target.monitored && !target.hasFile ==>
      r == Ok(if |Matches(found)| > 0 then [Matches(found)[0]] else [])
    ensures volumeMonitored && target.VolumeTarget? && |target.searchable| > 0 ==>
      AllWellShaped(Matches(found)) && r == PartsAsWritten(Matches(found), target.searchable, [])
  {
    if !volumeMonitored {
      return Ok([]);
    }
    if target.IssueTarget? {
      if !target.monitored || target.hasFile {
        return Ok([]);
      }
      var ms := Matches(found);
      return Ok(if |ms| > 0 then [ms[0]] else []);
    }
    if |target.searchable| == 0 {
      return Ok([]);
    }
    var ms := Matches(found);
    assert AllWellShaped(ms) by {
      forall c | c in ms ensures WellShaped(c.result.issueNumber) {
        assert c in found;
      }
    }
    r := SelectPartsAsWritten(ms, target.searchable);
  }

  /** The loop over the matches that builds `volume_parts`, as written. */
  method SelectPartsAsWritten(ms: seq<Checked>, searchable: seq<real>) returns (r: Result<seq<Checked>>)
    requires AllWellShaped(ms)
    ensures r == PartsAsWritten(ms, searchable, [])
  {
    var parts: seq<Checked> := [];
    var i := 0;
    while i < |ms|
      invariant 0 <= i <= |ms|
      invariant AllWellShaped(ms[i..])
      invariant AllParts(parts)
      invariant PartsAsWritten(ms[i..], searchable, parts) == PartsAsWritten(ms, searchable, [])
    {
      var m := ms[i];
      assert ms[i..][0] == m && ms[i..][1..] == ms[i + 1..];
      assert m in ms[i..];
      var n := m.result.issueNumber;
      if m.result.specialVersion.Some? {
        return Ok([m]);
      }
      if n != Files.NoIssueNumber && !(n.Single? && n.value !in searchable) {
        var conflict := ConflictAsWritten(parts, n);
        if conflict.Err? {
          return Err(conflict.error);
        }
        if !conflict.value {
          AddPart(parts, m);
          parts := parts + [m];
        }
      }
      i := i + 1;
    }
    return Ok(parts);
  }

  /** A range that strictly contains a selected range overlaps it, but
      neither of its ends lies in that range, so the check as written lets
      both be selected. */
  lemma ContainingRangeSelectedAsWritten(a: Checked, b: Checked)
    requires a.result.specialVersion.None? && b.result.specialVersion.None?
    requires a.result.issueNumber == Files.Several([2.0, 3.0])
    requires b.result.issueNumber == Files.Several([1.0, 4.0])
    ensures PartsAsWritten([a, b], [1.0, 2.0, 3.0, 4.0], []) == Ok([a, b])
  {
    var s := [1.0, 2.0, 3.0, 4.0];
    var ms := [a, b];
    assert ms[1..] == [b];
    assert [b][1..] == [];
    assert a in ms && b in ms;
    assert PartsAsWritten([], s, [a, b]) == Ok([a, b]);
    assert !(exists v | v in [1.0, 4.0] :: 2.0 <= v <= 3.0);
    assert [a][1..] == [];
    assert ConflictAsWritten([a], b.result.issueNumber) == Ok(false) by {
      assert IsPart(a);
      assert ConflictAsWritten([], b.result.issueNumber) == Ok(false);
    }
    assert [a] + [b] == [a, b];
    assert PartsAsWritten([b], s, [a]) == Ok([a, b]);
    assert ConflictAsWritten([], a.result.issueNumber) == Ok(false);
    assert [] + [a] == [a];
  }

  /** A range that comes after a selected single issue makes the check as
      written subscript that float: `TypeError`. */
  lemma RangeAfterSingleRaises(a: Checked, b: Checked)
    requires a.result.specialVersion.None? && b.result.specialVersion.None?
    requires a.result.issueNumber == Files.Single(1.0)
    requires b.result.issueNumber == Files.Several([2.0, 3.0])
    ensures PartsAsWritten([a, b], [1.0, 2.0, 3.0], []) == Err(TypeError)
  {
    var s := [1.0, 2.0, 3.0];
    var ms := [a, b];
    assert ms[1..] == [b];
    assert a in ms && b in ms;
    assert 1.0 in s;
    assert ConflictAsWritten([], a.result.issueNumber) == Ok(false);
    assert [] + [a] == [a];
    assert ConflictAsWritten([a], b.result.issueNumber) == Err(TypeError) by {
      assert IsPart(a);
    }
    assert PartsAsWritten([b], s, [a]) == Err(TypeError);
  }

  /** A range none of whose issues is open is still selected. */
  lemma ClosedRangeSelectedAsWritten(a: Checked)
    requires a.result.specialVersion.None?
    requires a.result.issueNumber == Files.Several([5.0, 6.0])
    ensures PartsAsWritten([a], [1.0], []) == Ok([a])
  {
    assert [a][1..] == [];
    assert ConflictAsWritten([], a.result.issueNumber) == Ok(false);
    assert [] + [a] == [a];
    assert PartsAsWritten([], [1.0], [a]) == Ok([a]);
  }

  /** Two issue numbers cover a common issue (closed intervals, a single
      number covering just itself). */
  predicate Overlaps(a: Files.IssueNumber, b: Files.IssueNumber)
    requires a != Files.NoIssueNumber && WellShaped(a) && b != Files.NoIssueNumber && WellShaped(b)
  {
    Lo(a) <= Hi(b) && Lo(b) <= Hi(a)
  }

  /** A result is worth selecting when it covers an open issue. */
  predicate CoversOpenIssue(n: Files.IssueNumber, searchable: seq<real>)
    requires n != Files.NoIssueNumber && WellShaped(n)
  {
    exists s | s in searchable :: Lo(n) <= s <= Hi(n)
  }

  /** Some selected part overlaps the issue number. */
  predicate Conflicts(parts: seq<Checked>, n: Files.IssueNumber)
    requires n != Files.NoIssueNumber && WellShaped(n)
    requires AllParts(parts)
  {
    exists k | 0 <= k < |parts| :: Overlaps(parts[k].result.issueNumber, n)
  }

  /** No two selected parts overlap. */
  predicate Disjoint(parts: seq<Checked>)
    requires AllParts(parts)
  {
    forall i, j | 0 <= i < j < |parts| :: !Overlaps(parts[i].result.issueNumber, parts[j].result.issueNumber)
  }

  /** Some match is a special version. */
  predicate HasSpecial(ms: seq<Checked>) {
    exists k | 0 <= k < |ms| :: ms[k].result.specialVersion.Some?
  }

  /** The volume-part selection with the checks the comments describe: a
      range is kept only when it covers an open issue, and a result is
      added only when its interval meets no selected part's interval. The
      first special version is still returned on its own; otherwise the
      parts are matches in their order, each covering an open issue, no two
      overlapping, and every match with an issue number that covers an open
      issue and was left out overlaps a selected part. */
  method SelectParts(ms: seq<Checked>, searchable: seq<real>) returns (parts: seq<Checked>)
    requires AllWellShaped(ms)
    ensures HasSpecial(ms) ==> |parts| == 1 && parts[0] in ms && parts[0].result.specialVersion.Some?
    ensures HasSpecial(ms) ==> exists k | 0 <= k < |ms| ::
      (parts[0] == ms[k] && forall j | 0 <= j < k :: ms[j].result.specialVersion.None?)
    ensures !HasSpecial(ms) ==> forall p | p in parts :: p in ms && IsPart(p) && CoversOpenIssue(p.result.issueNumber, searchable)
    ensures !HasSpecial(ms) ==> AllParts(parts) && Disjoint(parts)
    ensures !HasSpecial(ms) ==> forall m | m in ms && IsPart(m) && CoversOpenIssue(m.result.issueNumber, searchable) ::
      m in parts || (AllParts(parts) && Conflicts(parts, m.result.issueNumber))
  {
    parts := [];
    var i := 0;
    while i < |ms|
      invariant 0 <= i <= |ms|
      invariant forall j | 0 <= j < i :: ms[j].result.specialVersion.None?
      invariant forall p | p in parts :: p in ms[..i] && IsPart(p) && CoversOpenIssue(p.result.issueNumber, searchable)
      invariant AllParts(parts) && Disjoint(parts)
      invariant forall j | 0 <= j < i && IsPart(ms[j]) && CoversOpenIssue(ms[j].result.issueNumber, searchable) ::
        ms[j] in parts || Conflicts(parts, ms[j].result.issueNumber)
    {
      var m := ms[i];
      assert m in ms;
      var n := m.result.issueNumber;
      if m.result.specialVersion.Some? {
        return [m];
      }
      if n != Files.NoIssueNumber && CoversOpenIssue(n, searchable) {
        var conflict := false;
        var k := 0;
        while k < |parts|
          invariant 0 <= k <= |parts|
          invariant conflict <==> exists q | 0 <= q < k :: Overlaps(parts[q].result.issueNumber, n)
        {
          if Overlaps(parts[k].result.issueNumber, n) {
            conflict := true;
          }
          k := k + 1;
        }
        if !conflict {
          ghost var before := parts;
          parts := parts + [m];
          KeepsDisjoint(before, m);
          KeepsConflicts(before, m);
        }
      }
      assert ms[..i + 1] == ms[..i] + [m];
      i := i + 1;
    }
    assert ms[..i] == ms;
    assert !HasSpecial(ms);
    forall m | m in ms && IsPart(m) && CoversOpenIssue(m.result.issueNumber, searchable)
      ensures m in parts || (AllParts(parts) && Conflicts(parts, m.result.issueNumber))
    {
      var j :| 0 <= j < |ms| && ms[j] == m;
    }
  }

  /** `auto_search` with the corrected part selection: the same early
      answers as written, and for a volume the parts SelectParts chooses
      among the matches, so no two of them cover a common issue. */
  method AutoSearch(volumeMonitored: bool, target: AutoTarget, found: seq<Checked>)
    returns (r: seq<Checked>)
    requires AllWellShaped(found)
    ensures !volumeMonitored ==> r == []
    ensures volumeMonitored && target.VolumeTarget? && |target.searchable| == 0 ==> r == []
    ensures volumeMonitored && target.IssueTarget? && (!target.monitored || target.hasFile) ==> r == []
    ensures volumeMonitored && target.IssueTarget? && target.monitored && !target.hasFile ==>
      r == (if |Matches(found)| > 0 then [Matches(found)[0]] else [])
    ensures volumeMonitored && target.VolumeTarget? && |target.searchable| > 0 && HasSpecial(Matches(found)) ==>
      |r| == 1 && r[0] in Matches(found) && r[0].result.specialVersion.Some?
    ensures volumeMonitored && target.VolumeTarget? && |target.searchable| > 0 && !HasSpecial(Matches(found)) ==>
      (forall p | p in r :: p in Matches(found) && IsPart(p) && CoversOpenIssue(p.result.issueNumber, target.searchable))
      && AllParts(r) && Disjoint(r)
  {
    if !volumeMonitored {
      return [];
    }
    if target.IssueTarget? {
      if !target.monitored || target.hasFile {
        return [];
      }
      var ms := Matches(found);
      return if |ms| > 0 then [ms[0]] else [];
    }
    if |target.searchable| == 0 {
      return [];
    }
    var ms := Matches(found);
    assert AllWellShaped(ms) by {
      forall c | c in ms ensures WellShaped(c.result.issueNumber) {
        assert c in found;
      }
    }
    r := SelectParts(ms, target.searchable);
  }

  /** Adding a part that overlaps none keeps the parts disjoint. */
  lemma KeepsDisjoint(parts: seq<Checked>, m: Checked)
    requires AllParts(parts)
    requires IsPart(m) && Disjoint(parts) && !Conflicts(parts, m.result.issueNumber)
    ensures AllParts(parts + [m])
    ensures Disjoint(parts + [m])
  {
    var ps := parts + [m];
    AddPart(parts, m);
    forall i, j | 0 <= i < j < |ps| ensures !Overlaps(ps[i].result.issueNumber, ps[j].result.issueNumber) {
      assert ps[i] == parts[i];
      if j < |parts| {
        assert ps[j] == parts[j];
      }
    }
  }

  /** A conflict with some parts is a conflict with more parts. */
  lemma KeepsConflicts(parts: seq<Checked>, m: Checked)
    requires AllParts(parts)
    requires IsPart(m)
    ensures AllParts(parts + [m])
    ensures forall n | n != Files.NoIssueNumber && WellShaped(n) && Conflicts(parts, n) :: Conflicts(parts + [m], n)
  {
    AddPart(parts, m);
    forall n | n != Files.NoIssueNumber && WellShaped(n) && Conflicts(parts, n) ensures Conflicts(parts + [m], n) {
      var k :| 0 <= k < |parts| && Overlaps(parts[k].result.issueNumber, n);
      assert (parts + [m])[k] == parts[k];
    }
  }

  /** A part appended to parts gives parts. */
  lemma AddPart(parts: seq<Checked>, m: Checked)
    requires AllParts(parts) && IsPart(m)
    ensures AllParts(parts + [m])
  {
    forall k | 0 <= k < |parts| + 1 ensures IsPart((parts + [m])[k]) {
      if k < |parts| {
        assert (parts + [m])[k] == parts[k];
      }
    }
  }
}
