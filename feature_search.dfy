/** The current search (`backend/features/search.py`): the rating a result
    is sorted by, the merge of several queries' results, the query formats
    of a manual search and the automatic choice of results. The search
    engine, the match test, the database answers and the issue-range
    helpers are parameters. */
module FeatureSearch {
  import opened Common
  import opened Strings
  import Files
  import opened Ranking
  import opened Queries

  /** `SpecialVersion`, an enum whose members compare equal to their
      value. */
  datatype SpecialVersion = TPB | OneShot | HardCover | VolumeAsIssue | Cover | Metadata | Normal

  /** The value of a member; `NORMAL` has `None`. */
  function Value(sv: SpecialVersion): (v: Option<string>)
    ensures v.None? <==> sv == Normal
  {
    match sv
    case TPB => Some("tpb")
    case OneShot => Some("one-shot")
    case HardCover => Some("hard-cover")
    case VolumeAsIssue => Some("volume-as-issue")
    case Cover => Some("cover")
    case Metadata => Some("metadata")
    case Normal => None
  }

  /** Distinct members have distinct values, so comparing a result's
      special version text with a member tells the member. */
  lemma ValueInjective(a: SpecialVersion, b: SpecialVersion)
    ensures Value(a) == Value(b) <==> a == b
  {
  }

  // ---------------------------------------------------------------------
  // _sort_search_results
  // ---------------------------------------------------------------------

  /** The third rating component: 3, one less when the result's volume
      number is the volume's, two less when the result's year is the
      issue's year, and otherwise one less when it lies between the
      volume's year minus one and the issue's year plus one. */
  function VolumeYearScore(r: SearchResult, volumeNumber: int, volumeYear: Option<int>, issueYear: Option<int>): (score: int)
    ensures 0 <= score <= 3
  {
    var volumeMatch := r.volumeNumber == OneVolume(volumeNumber);
    var exactYear := issueYear.Some? && r.year.Some? && issueYear.value == r.year.value;
    var nearYear :=
      volumeYear.Some? && issueYear.Some? && r.year.Some? && volumeYear.value - 1 <= r.year.value <= issueYear.value + 1;
    3 - (if volumeMatch then 1 else 0) - (if exactYear then 2 else if nearYear then 1 else 0)
  }

  /** The best score, 0, is given exactly to a result with the volume's
      number and the issue's year; a result of the issue's year scores
      below every result of another year with the same volume verdict. */
  lemma VolumeYearScoreOrder(a: SearchResult, b: SearchResult, volumeNumber: int, volumeYear: Option<int>, issueYear: Option<int>)
    ensures VolumeYearScore(a, volumeNumber, volumeYear, issueYear) == 0 <==>
      a.volumeNumber == OneVolume(volumeNumber) && issueYear.Some? && a.year == issueYear
    ensures (issueYear.Some? && a.year == issueYear && b.year != issueYear &&
             (a.volumeNumber == OneVolume(volumeNumber) <==> b.volumeNumber == OneVolume(volumeNumber))) ==>
      VolumeYearScore(a, volumeNumber, volumeYear, issueYear) < VolumeYearScore(b, volumeNumber, volumeYear, issueYear)
  {
  }

  /** The fourth rating component. With the issue searched for: 0 for that
      issue, `1 - 1/(end - start + 1)` for a range holding it and 3 for one
      that does not, 2 for a special version without an issue number, 3
      otherwise. Without it: `1/(end - start + 1)` for a range, which
      raises `ZeroDivisionError` when the end is one below the start, 1
      for a single issue and nothing without an issue number. */
  function IssueFit(r: SearchResult, target: Option<real>): Result<seq<real>>
    requires WellShaped(r.issueNumber)
  {
    var n := r.issueNumber;
    if target.Some? then
      if n.Single? && target.value == n.value then Ok([0.0])
      else if n.Several? then
        if n.values[0] <= target.value <= n.values[1] then Ok([1.0 - 1.0 / (n.values[1] - n.values[0] + 1.0)])
        else Ok([3.0])
      else if n == Files.NoIssueNumber && r.specialVersion.Some? then Ok([2.0])
      else Ok([3.0])
    else if n.Several? then
      if n.values[1] - n.values[0] + 1.0 == 0.0 then Err(ZeroDivisionError)
      else Ok([1.0 / (n.values[1] - n.values[0] + 1.0)])
    else if n.Single? then Ok([1.0])
    else Ok([])
  }

  /** The division fails only for a range whose end is one below its start
      and only when no issue is searched for. */
  lemma IssueFitFails(r: SearchResult, target: Option<real>)
    requires WellShaped(r.issueNumber)
    ensures IssueFit(r, target).Err? <==>
      target.None? && r.issueNumber.Several? && r.issueNumber.values[1] == r.issueNumber.values[0] - 1.0
    ensures IssueFit(r, target).Err? ==> IssueFit(r, target).error == ZeroDivisionError
  {
  }

  /** With an issue searched for, the fit is one number: the issue itself
      fits best, a range holding it fits below 1, a special version without
      an issue number fits 2, and nothing fits worse than 3. */
  lemma IssueFitOrder(r: SearchResult, c: real)
    requires WellShaped(r.issueNumber)
    ensures IssueFit(r, Some(c)).Ok? && |IssueFit(r, Some(c)).value| == 1
    ensures 0.0 <= IssueFit(r, Some(c)).value[0] <= 3.0
    ensures IssueFit(r, Some(c)).value[0] == 0.0 <==>
      (r.issueNumber == Files.Single(c) ||
       (r.issueNumber.Several? && r.issueNumber.values[0] == c && r.issueNumber.values[1] == c))
    ensures r.issueNumber.Several? && r.issueNumber.values[0] <= c <= r.issueNumber.values[1] ==>
      IssueFit(r, Some(c)).value[0] < 1.0
  {
    var n := r.issueNumber;
    if n.Several? && n.values[0] <= c <= n.values[1] {
      var len := n.values[1] - n.values[0] + 1.0;
      assert len >= 1.0;
      assert 0.0 < 1.0 / len <= 1.0;
      if 1.0 - 1.0 / len == 0.0 {
        assert len == 1.0;
      }
    }
  }

  /** Without an issue searched for, a well-ordered range fits in (0, 1], a
      longer range fits below a shorter one, and a single issue fits 1, so
      ranges come before single issues and longer ranges first. */
  lemma NoTargetRangesFirst(a: SearchResult, b: SearchResult)
    requires WellShaped(a.issueNumber) && WellShaped(b.issueNumber)
    requires a.issueNumber.Several? && a.issueNumber.values[0] <= a.issueNumber.values[1]
    ensures IssueFit(a, None).Ok? && 0.0 < IssueFit(a, None).value[0] <= 1.0
    ensures b.issueNumber.Single? ==> IssueFit(b, None) == Ok([1.0])
    ensures (b.issueNumber.Several? && b.issueNumber.values[0] <= b.issueNumber.values[1] &&
             b.issueNumber.values[1] - b.issueNumber.values[0] < a.issueNumber.values[1] - a.issueNumber.values[0]) ==>
      IssueFit(a, None).value[0] < IssueFit(b, None).value[0]
  {
    var la := a.issueNumber.values[1] - a.issueNumber.values[0] + 1.0;
    assert 0.0 < 1.0 / la <= 1.0;
    if b.issueNumber.Several? && b.issueNumber.values[0] <= b.issueNumber.values[1] {
      var lb := b.issueNumber.values[1] - b.issueNumber.values[0] + 1.0;
      if lb < la {
        ReciprocalAntitone(la, lb);
      }
    }
  }

  /** The larger of two positive numbers has the smaller reciprocal. */
  lemma ReciprocalAntitone(a: real, b: real)
    requires 0.0 < b < a
    ensures 1.0 / a < 1.0 / b
  {
    var x, y := 1.0 / a, 1.0 / b;
    assert x * a == 1.0 && y * b == 1.0;
    assert y > 0.0;
    assert y * b < y * a;
    if x >= y {
      assert x * a >= y * a;
    }
  }

  /** `_sort_search_results`: whether the result matches, how many of its
      series words the title lacks, the volume and year score and the issue
      fit. */
  function Rating(c: Checked, title: string, volumeNumber: int, volumeYear: Option<int>, issueYear: Option<int>,
                  target: Option<real>): (key: Result<seq<real>>)
    requires WellShaped(c.result.issueNumber)
  {
    match IssueFit(c.result, target)
    case Err(e) => Err(e)
    case Ok(fit) =>
      Ok([if c.verdict.matched then 0.0 else 1.0,
          |WordsNotIn(Split(c.result.series, ' '), Split(title, ' '))| as real,
          VolumeYearScore(c.result, volumeNumber, volumeYear, issueYear) as real] + fit)
  }

  /** A rating that is computed has three or four components: 0 first
      exactly for a match, then the number of series words missing from
      the title, then a score in 0..3, then the issue fit; it is not
      computed only when the issue fit divides by zero. */
  lemma RatingShape(c: Checked, title: string, volumeNumber: int, volumeYear: Option<int>, issueYear: Option<int>,
                    target: Option<real>)
    requires WellShaped(c.result.issueNumber)
    ensures Rating(c, title, volumeNumber, volumeYear, issueYear, target).Err? <==> IssueFit(c.result, target).Err?
    ensures Rating(c, title, volumeNumber, volumeYear, issueYear, target).Ok? ==>
      var key := Rating(c, title, volumeNumber, volumeYear, issueYear, target).value;
      && 3 <= |key| <= 4
      && (key[0] == 0.0 <==> c.verdict.matched)
      && key[1] == |WordsNotIn(Split(c.result.series, ' '), Split(title, ' '))| as real
      && 0.0 <= key[2] <= 3.0
      && key[3..] == IssueFit(c.result, target).value
  {
    match IssueFit(c.result, target) {
      case Err(_) =>
      case Ok(fit) =>
        assert |fit| <= 1;
    }
  }

  /** A match is sorted before every result that does not match. */
  lemma MatchesFirst(a: Checked, b: Checked, title: string, volumeNumber: int, volumeYear: Option<int>,
                     issueYear: Option<int>, target: Option<real>)
    requires WellShaped(a.result.issueNumber) && WellShaped(b.result.issueNumber)
    requires a.verdict.matched && !b.verdict.matched
    requires Rating(a, title, volumeNumber, volumeYear, issueYear, target).Ok?
    requires Rating(b, title, volumeNumber, volumeYear, issueYear, target).Ok?
    ensures LexLe(Rating(a, title, volumeNumber, volumeYear, issueYear, target).value,
                  Rating(b, title, volumeNumber, volumeYear, issueYear, target).value)
    ensures !LexLe(Rating(b, title, volumeNumber, volumeYear, issueYear, target).value,
                   Rating(a, title, volumeNumber, volumeYear, issueYear, target).value)
  {
  }

  // ---------------------------------------------------------------------
  // search_multiple_queries and manual_search
  // ---------------------------------------------------------------------

  /** `search_multiple_queries`: every query searched, the results merged
      to one per link. The merged results have distinct links, every link
      some query returned, and each is the last result with its link. */
  method SearchMultipleQueries(queries: seq<string>, search: string -> seq<SearchResult>)
    returns (results: seq<SearchResult>)
    ensures results == Dedup(Gathered(queries, search))
    ensures DistinctLinks(results)
    ensures forall link :: HasLink(results, link) <==> HasLink(Gathered(queries, search), link)
    ensures LastOfLinks(results, Gathered(queries, search))
  {
    var found := GatherResults(queries, search);
    results := Dedup(found);
    DedupSpec(found);
    forall link ensures HasLink(results, link) <==> HasLink(Gathered(queries, search), link) {
      assert HasLink(Dedup(found), link) <==> HasLink(found, link);
    }
  }

  /** A query format starting with the title whose years are bracketed. */
  predicate TitleFirst(f: Template) {
    YearBracketed(f) && |f| > 0 && f[0] == Field(TitleField)
  }

  /** The formats from the `k`-th on open with the title, have their years
      bracketed and, when `noIssue`, have no issue field, checked format by
      format and piece by piece. */
  predicate FormatsFrom(fs: seq<Template>, k: nat, noIssue: bool)
    decreases |fs| - k
  {
    k >= |fs|
    || (&& |fs[k]| > 0 && fs[k][0] == Field(TitleField) && BracketedFrom(fs[k], 0)
        && (noIssue ==> LacksFrom(fs[k], Field(IssueField), 0))
        && FormatsFrom(fs, k + 1, noIssue))
  }

  /** The format-by-format check establishes `TitleFirst` from `k` on. */
  lemma {:induction false} FormatsScan(fs: seq<Template>, k: nat, noIssue: bool)
    requires FormatsFrom(fs, k, noIssue)
    ensures forall j | k <= j < |fs| :: TitleFirst(fs[j]) && (noIssue ==> Field(IssueField) !in fs[j])
    decreases |fs| - k
  {
    if k < |fs| {
      BracketedScan(fs[k], 0);
      if noIssue {
        LacksScan(fs[k], Field(IssueField), 0);
      }
      FormatsScan(fs, k + 1, noIssue);
    }
  }

  /** The formats for a TPB volume. */
  function TpbFormats(): (fs: seq<Template>)
    ensures |fs| == 5 && fs[4] == [Field(TitleField)]
    ensures forall k | 0 <= k < 5 :: TitleFirst(fs[k]) && Field(IssueField) !in fs[k]
  {
    var fs :=
      [[Field(TitleField), Text(" Vol. "), Field(VolumeField), Text(" "), Text("("), Field(YearField), Text(")"), Text(" TPB")],
       [Field(TitleField), Text(" "), Text("("), Field(YearField), Text(")"), Text(" TPB")],
       [Field(TitleField), Text(" Vol. "), Field(VolumeField), Text(" TPB")],
       [Field(TitleField), Text(" Vol. "), Field(VolumeField)],
       [Field(TitleField)]];
    FormatsScan(fs, 0, true);
    fs
  }

  /** The formats for a volume-as-issue volume. */
  function VolumeAsIssueFormats(): (fs: seq<Template>)
    ensures |fs| == 2 && fs[1] == [Field(TitleField)]
    ensures forall k | 0 <= k < 2 :: TitleFirst(fs[k]) && Field(IssueField) !in fs[k]
  {
    var fs :=
      [[Field(TitleField), Text(" "), Text("("), Field(YearField), Text(")")],
       [Field(TitleField)]];
    FormatsScan(fs, 0, true);
    fs
  }

  /** The formats for a volume. */
  function VolumeFormats(): (fs: seq<Template>)
    ensures |fs| == 4 && fs[3] == [Field(TitleField)]
    ensures forall k | 0 <= k < 4 :: TitleFirst(fs[k]) && Field(IssueField) !in fs[k]
  {
    var fs :=
      [[Field(TitleField), Text(" Vol. "), Field(VolumeField), Text(" "), Text("("), Field(YearField), Text(")")],
       [Field(TitleField), Text(" "), Text("("), Field(YearField), Text(")")],
       [Field(TitleField), Text(" Vol. "), Field(VolumeField)],
       [Field(TitleField)]];
    FormatsScan(fs, 0, true);
    fs
  }

  /** The formats for an issue. */
  function IssueFormats(): (fs: seq<Template>)
    ensures |fs| == 4 && fs[3] == [Field(TitleField)]
    ensures forall k | 0 <= k < 4 :: TitleFirst(fs[k])
    ensures forall k | 0 <= k < 3 :: Field(IssueField) in fs[k]
  {
    var fs :=
      [[Field(TitleField), Text(" #"), Field(IssueField), Text(" "), Text("("), Field(YearField), Text(")")],
       [Field(TitleField), Text(" Vol. "), Field(VolumeField), Text(" #"), Field(IssueField)],
       [Field(TitleField), Text(" #"), Field(IssueField)],
       [Field(TitleField)]];
    FormatsScan(fs, 0, false);
    fs
  }

  /** The query formats of a manual search: by the special version of the
      volume, then by whether an issue is searched for. Every format opens
      with the title, the last is the bare title, and only an issue search
      of a volume that is neither TPB nor volume-as-issue puts the issue
      number in a query. */
  function FeatureFormats(sv: SpecialVersion, forIssue: bool): (fs: seq<Template>)
    ensures |fs| == (if sv == TPB then 5 else if sv == VolumeAsIssue then 2 else 4)
    ensures fs[|fs| - 1] == [Field(TitleField)]
    ensures forall k | 0 <= k < |fs| :: TitleFirst(fs[k])
    ensures forall k | 0 <= k < |fs| :: Field(IssueField) in fs[k] ==> forIssue && sv != TPB && sv != VolumeAsIssue
    ensures forIssue && sv != TPB && sv != VolumeAsIssue ==> Field(IssueField) in fs[0]
  {
    if sv == TPB then TpbFormats()
    else if sv == VolumeAsIssue then VolumeAsIssueFormats()
    else if !forIssue then VolumeFormats()
    else IssueFormats()
  }

  /** The volume fields a manual search reads. */
  datatype VolumeData = VolumeData(title: string, altTitle: Option<string>, volumeNumber: int, year: Option<int>,
                                   specialVersion: SpecialVersion)

  /** The issue fields a manual search reads. */
  datatype IssueData = IssueData(issueNumber: string, calculated: real)

  /** The issue number put in the queries: only for an issue of a volume
      that is not a special version. */
  function QueryIssue(v: VolumeData, issue: Option<IssueData>): Option<string> {
    if issue.Some? && v.specialVersion == Normal then Some(issue.value.issueNumber) else None
  }

  /** The calculated issue number the results are rated against, under the
      same condition. */
  function SearchTarget(v: VolumeData, issue: Option<IssueData>): Option<real> {
    if issue.Some? && v.specialVersion == Normal then Some(issue.value.calculated) else None
  }

  /** `title.replace(':', '')`. */
  function SearchTitle(t: string): string {
    RemoveAll(t, ":")
  }

  /** The search title holds no ':' and keeps a title without one. */
  lemma {:induction false} SearchTitleShape(t: string)
    ensures ':' !in SearchTitle(t)
    ensures ':' !in t ==> SearchTitle(t) == t
    decreases |t|
  {
    if |t| >= 1 {
      SearchTitleShape(t[1..]);
      assert (t[..1] == ":") == (t[0] == ':');
      if t[0] != ':' {
        assert SearchTitle(t) == [t[0]] + SearchTitle(t[1..]);
      }
    }
  }

  /** The queries searched for one title. */
  function TitleQueries(t: string, v: VolumeData, issue: Option<IssueData>): seq<string> {
    FillFormats(FeatureFormats(v.specialVersion, QueryIssue(v, issue).Some?),
                QueryValues(SearchTitle(t), v.volumeNumber, v.year, QueryIssue(v, issue)))
  }

  /** Every query of a title starts with the search title, and the last one
      is the search title itself. */
  lemma TitleQueriesShape(t: string, v: VolumeData, issue: Option<IssueData>)
    ensures |TitleQueries(t, v, issue)| > 0
    ensures forall i | 0 <= i < |TitleQueries(t, v, issue)| :: StartsWith(TitleQueries(t, v, issue)[i], SearchTitle(t))
    ensures TitleQueries(t, v, issue)[|TitleQueries(t, v, issue)| - 1] == SearchTitle(t)
  {
    var fs := FeatureFormats(v.specialVersion, QueryIssue(v, issue).Some?);
    var values := QueryValues(SearchTitle(t), v.volumeNumber, v.year, QueryIssue(v, issue));
    assert TitleQueries(t, v, issue) == FillFormats(fs, values);
    FormatsQueriesShape(fs, values);
  }

  /** The queries of formats that all open with the title and end with the
      bare title: each starts with the title, and the last is the title. */
  lemma FormatsQueriesShape(fs: seq<Template>, values: QueryValues)
    requires |fs| > 0 && fs[|fs| - 1] == [Field(TitleField)]
    requires forall k | 0 <= k < |fs| :: TitleFirst(fs[k])
    ensures |FillFormats(fs, values)| > 0
    ensures forall i | 0 <= i < |fs| :: StartsWith(FillFormats(fs, values)[i], values.title)
    ensures FillFormats(fs, values)[|fs| - 1] == values.title
  {
    assert forall f | f in fs :: YearBracketed(f) && |f| > 0 && f[0] == Field(TitleField) by {
      forall f | f in fs ensures YearBracketed(f) && |f| > 0 && f[0] == Field(TitleField) {
        var k :| 0 <= k < |fs| && fs[k] == f;
        assert TitleFirst(fs[k]);
      }
    }
    QueriesShape(fs, values);
    LastQueryIsTitle(fs, values);
  }

  /** A list of formats ending with the bare title ends with the title query. */
  lemma LastQueryIsTitle(fs: seq<Template>, values: QueryValues)
    requires |fs| > 0 && fs[|fs| - 1] == [Field(TitleField)]
    ensures FillFormats(fs, values)[|fs| - 1] == values.title
  {
    var last := fs[|fs| - 1];
    assert Render(last, values) == values.title + Render([], values);
    if values.year.None? {
      StripYearWithoutYear(last);
    }
  }

  /** The merged results of the queries of one title. */
  function Candidates(t: string, v: VolumeData, issue: Option<IssueData>, search: string -> seq<SearchResult>): seq<SearchResult> {
    Dedup(Gathered(TitleQueries(t, v, issue), search))
  }

  /** The first title, of the title and the alternative title, whose
      queries return something. */
  function FirstFound(titles: seq<Option<string>>, v: VolumeData, issue: Option<IssueData>,
                      search: string -> seq<SearchResult>): (t: Option<string>)
    ensures t.Some? ==> Some(t.value) in titles && |Candidates(t.value, v, issue, search)| > 0
    ensures t.None? ==> forall k | 0 <= k < |titles| && titles[k].Some? :: |Candidates(titles[k].value, v, issue, search)| == 0
    decreases |titles|
  {
    if |titles| == 0 then None
    else if titles[0].Some? && |Candidates(titles[0].value, v, issue, search)| > 0 then titles[0]
    else
      var rest := FirstFound(titles[1..], v, issue, search);
      assert forall k | 1 <= k < |titles| :: titles[k] == titles[1..][k - 1];
      rest
  }

  /** Every result with the verdict of the match test. */
  function Judged(rs: seq<SearchResult>, matcher: SearchResult -> Verdict): (cs: seq<Checked>)
    ensures |cs| == |rs|
    ensures forall i | 0 <= i < |rs| :: cs[i] == Checked(rs[i], matcher(rs[i]))
  {
    seq(|rs|, i requires 0 <= i < |rs| => Checked(rs[i], matcher(rs[i])))
  }

  /** The results hold issue numbers as `process_issue_number` gives them. */
  predicate AllWellShaped(cs: seq<Checked>) {
    forall k | 0 <= k < |cs| :: WellShaped(cs[k].result.issueNumber)
  }

  /** The rating parameters of one search. */
  datatype RatingContext = RatingContext(title: string, volumeNumber: int, volumeYear: Option<int>,
                                         issueYear: Option<int>, target: Option<real>)

  /** A result's rating in a context. */
  function RatingIn(c: Checked, ctx: RatingContext): Result<seq<real>>
    requires WellShaped(c.result.issueNumber)
  {
    Rating(c, ctx.title, ctx.volumeNumber, ctx.volumeYear, ctx.issueYear, ctx.target)
  }

  /** The key `list.sort` is given, for results whose rating is computed. */
  function SortKey(ctx: RatingContext): Checked -> seq<real> {
    (c: Checked) => if WellShaped(c.result.issueNumber) && RatingIn(c, ctx).Ok? then RatingIn(c, ctx).value else []
  }

  /** `r` is what sorting the results by their ratings gives: an error when
      some rating divides by zero, else the results in rating order, those
      of equal rating in the order they were found. */
  ghost predicate RankedFrom(r: Result<seq<Checked>>, cs: seq<Checked>, ctx: RatingContext)
    requires AllWellShaped(cs)
  {
    && (r.Err? <==> exists k | 0 <= k < |cs| :: RatingIn(cs[k], ctx).Err?)
    && (r.Err? ==> r.error == ZeroDivisionError)
    && (r.Ok? ==> StablySorted(r.value, cs, SortKey(ctx)))
  }

  /** `results.sort(key=...)`: every key is computed first, and the first
      that raises ends the sort. */
  method RankResults(cs: seq<Checked>, ctx: RatingContext) returns (r: Result<seq<Checked>>)
    requires AllWellShaped(cs)
    ensures RankedFrom(r, cs, ctx)
  {
    var i := 0;
    while i < |cs|
      invariant 0 <= i <= |cs|
      invariant forall k | 0 <= k < i :: RatingIn(cs[k], ctx).Ok?
    {
      var key := RatingIn(cs[i], ctx);
      if key.Err? {
        IssueFitFails(cs[i].result, ctx.target);
        return Err(key.error);
      }
      i := i + 1;
    }
    SortByStablySorts(cs, SortKey(ctx));
    return Ok(SortBy(cs, SortKey(ctx)));
  }

  /** The rating context of a search with a given title. */
  function ContextFor(t: string, v: VolumeData, issue: Option<IssueData>, yearOf: real -> Option<int>): RatingContext {
    var target := SearchTarget(v, issue);
    RatingContext(SearchTitle(t), v.volumeNumber, v.year, if target.Some? then yearOf(target.value) else None, target)
  }

  /** `manual_search`: the title, then the alternative title, is searched
      with the query formats; the first that returns anything has its
      results judged and sorted by rating, and nothing found gives an empty
      list. */
  method ManualSearch(v: VolumeData, issue: Option<IssueData>, search: string -> seq<SearchResult>,
                      matcher: SearchResult -> Verdict, yearOf: real -> Option<int>)
    returns (r: Result<seq<Checked>>)
    requires forall q, k | 0 <= k < |search(q)| :: WellShaped(search(q)[k].issueNumber)
    ensures FirstFound([Some(v.title), v.altTitle], v, issue, search).None? ==> r == Ok([])
    ensures FirstFound([Some(v.title), v.altTitle], v, issue, search).Some? ==>
      var t := FirstFound([Some(v.title), v.altTitle], v, issue, search).value;
      AllWellShaped(Judged(Candidates(t, v, issue, search), matcher)) &&
      RankedFrom(r, Judged(Candidates(t, v, issue, search), matcher), ContextFor(t, v, issue, yearOf))
  {
    var titles := [Some(v.title), v.altTitle];
    var chosen, found := SearchTitles(titles, v, issue, search);
    if chosen.None? {
      return Ok([]);
    }
    var t := chosen.value;
    var judged := Judged(found, matcher);
    CandidatesWellShaped(t, v, issue, search);
    r := RankResults(judged, ContextFor(t, v, issue, yearOf));
  }

  /** The title loop of `manual_search`: the queries of each title in turn
      until one returns results. */
  method SearchTitles(titles: seq<Option<string>>, v: VolumeData, issue: Option<IssueData>,
                      search: string -> seq<SearchResult>)
    returns (chosen: Option<string>, found: seq<SearchResult>)
    ensures chosen == FirstFound(titles, v, issue, search)
    ensures chosen.Some? ==> found == Candidates(chosen.value, v, issue, search) && |found| > 0
  {
    var i := 0;
    while i < |titles|
      invariant 0 <= i <= |titles|
      invariant FirstFound(titles[i..], v, issue, search) == FirstFound(titles, v, issue, search)
    {
      assert titles[i..][1..] == titles[i + 1..];
      if titles[i].Some? {
        var t := titles[i].value;
        found := SearchMultipleQueries(TitleQueries(t, v, issue), search);
        assert found == Candidates(t, v, issue, search);
        if |found| > 0 {
          return Some(t), found;
        }
      }
      i := i + 1;
    }
    assert titles[i..] == [];
    return None, [];
  }

  /** The merged results of a search whose results are well shaped are
      well shaped. */
  lemma CandidatesWellShaped(t: string, v: VolumeData, issue: Option<IssueData>, search: string -> seq<SearchResult>)
    requires forall q, k | 0 <= k < |search(q)| :: WellShaped(search(q)[k].issueNumber)
    ensures forall k | 0 <= k < |Candidates(t, v, issue, search)| :: WellShaped(Candidates(t, v, issue, search)[k].issueNumber)
  {
    var queries := TitleQueries(t, v, issue);
    var g := Gathered(queries, search);
    DedupSpec(g);
    forall k | 0 <= k < |Candidates(t, v, issue, search)| ensures WellShaped(Candidates(t, v, issue, search)[k].issueNumber) {
      assert Candidates(t, v, issue, search) == Dedup(g);
      var j :| 0 <= j < |g| && LastWithLink(g, j) && g[j] == Candidates(t, v, issue, search)[k];
      GatheredHolds(queries, search, g[j]);
      var q :| 0 <= q < |queries| && g[j] in search(queries[q]);
      var m :| 0 <= m < |search(queries[q])| && search(queries[q])[m] == g[j];
    }
  }

  // ---------------------------------------------------------------------
  // auto_search
  // ---------------------------------------------------------------------

  /** What an automatic search is for: a volume with the calculated numbers
      of its open issues, or one issue with its monitored flag and whether
      it has files. */
  datatype AutoTarget =
    | VolumeTarget(searchable: seq<real>)
    | IssueTarget(monitored: bool, hasFiles: bool)

  /** A chosen result and the `_issue_number` it was given, if any. */
  datatype Part = Part(entry: Checked, issueKey: Option<Files.IssueNumber>)

  /** The issue number a result would take as a volume part, and the
      issues it would cover: its own issue number; for a volume-as-issue
      volume, the volume number of a TPB result; a one-shot, hard-cover or
      TPB result of such a volume covers issue 1. `None` where the loop
      moves on. */
  function Candidate(sv: SpecialVersion, r: SearchResult, coveredRange: Files.IssueNumber -> seq<real>)
    : Option<(Files.IssueNumber, seq<real>)>
  {
    if r.issueNumber != Files.NoIssueNumber then Some((r.issueNumber, coveredRange(r.issueNumber)))
    else if sv == VolumeAsIssue && r.specialVersion == Value(TPB) then
      match r.volumeNumber
      case NoVolumeNumber => None
      case OneVolume(n) => Some((Files.Single(n as real), coveredRange(Files.Single(n as real))))
      case VolumeRange(a, b) =>
        Some((Files.Several([a as real, b as real]), coveredRange(Files.Several([a as real, b as real]))))
    else if (sv == OneShot || sv == HardCover || sv == TPB) && (r.specialVersion == Value(sv) || r.specialVersion == Value(TPB)) then
      Some((Files.Single(1.0), [1.0]))
    else None
  }

  /** A match may become a volume part: its special version fits the
      volume's, it has an issue number to go by and every issue it covers is
      open. */
  predicate Eligible(sv: SpecialVersion, c: Checked, searchable: seq<real>,
                     specialMatch: (SpecialVersion, Option<string>, Files.IssueNumber) -> bool,
                     coveredRange: Files.IssueNumber -> seq<real>)
  {
    && specialMatch(sv, c.result.specialVersion, c.result.issueNumber)
    && Candidate(sv, c.result, coveredRange).Some?
    && forall k | 0 <= k < |Candidate(sv, c.result, coveredRange).value.1| ::
         Candidate(sv, c.result, coveredRange).value.1[k] in searchable
  }

  /** The parts the volume loop may end with: eligible matches with the
      issue number they go by, no later part overlapping an earlier one,
      and every eligible match either chosen or overlapping a chosen part. */
  predicate IsSelection(parts: seq<Part>, ms: seq<Checked>, sv: SpecialVersion, searchable: seq<real>,
                        specialMatch: (SpecialVersion, Option<string>, Files.IssueNumber) -> bool,
                        coveredRange: Files.IssueNumber -> seq<real>,
                        overlapping: (Files.IssueNumber, Files.IssueNumber) -> bool)
  {
    && (forall k | 0 <= k < |parts| ::
          && parts[k].entry in ms
          && Eligible(sv, parts[k].entry, searchable, specialMatch, coveredRange)
          && parts[k].issueKey == Some(Candidate(sv, parts[k].entry.result, coveredRange).value.0))
    && (forall i, j | 0 <= i < j < |parts| :: !overlapping(parts[i].issueKey.value, parts[j].issueKey.value))
    && (forall m | m in ms && Eligible(sv, m, searchable, specialMatch, coveredRange) ::
          var key := Candidate(sv, m.result, coveredRange).value.0;
          Part(m, Some(key)) in parts || exists k | 0 <= k < |parts| :: overlapping(parts[k].issueKey.value, key))
  }

  /** Whether some part overlaps the issue number, searched part by part
      (the `for ... else` over the parts). */
  method AnyOverlap(parts: seq<Part>, key: Files.IssueNumber,
                    overlapping: (Files.IssueNumber, Files.IssueNumber) -> bool) returns (found: bool)
    requires forall k | 0 <= k < |parts| :: parts[k].issueKey.Some?
    ensures found <==> exists k | 0 <= k < |parts| :: overlapping(parts[k].issueKey.value, key)
  {
    var k := 0;
    while k < |parts|
      invariant 0 <= k <= |parts|
      invariant forall q | 0 <= q < k :: !overlapping(parts[q].issueKey.value, key)
    {
      if overlapping(parts[k].issueKey.value, key) {
        return true;
      }
      k := k + 1;
    }
    return false;
  }

  /** The loop over the matches that builds `volume_parts`. */
  method SelectParts(ms: seq<Checked>, sv: SpecialVersion, searchable: seq<real>,
                     specialMatch: (SpecialVersion, Option<string>, Files.IssueNumber) -> bool,
                     coveredRange: Files.IssueNumber -> seq<real>,
                     overlapping: (Files.IssueNumber, Files.IssueNumber) -> bool)
    returns (parts: seq<Part>)
    ensures IsSelection(parts, ms, sv, searchable, specialMatch, coveredRange, overlapping)
    ensures |parts| <= |ms|
  {
    parts := [];
    var i := 0;
    while i < |ms|
      invariant 0 <= i <= |ms|
      invariant IsSelection(parts, ms[..i], sv, searchable, specialMatch, coveredRange, overlapping)
      invariant |parts| <= i
    {
      ghost var before := parts;
      assert forall k | 0 <= k < |parts| :: parts[k].issueKey.Some?;
      parts := SelectOne(parts, ms[i], sv, searchable, specialMatch, coveredRange, overlapping);
      SelectionStep(before, parts, ms, i, sv, searchable, specialMatch, coveredRange, overlapping);
      i := i + 1;
    }
    assert ms[..i] == ms;
  }

  /** One turn of the volume loop: the match joins the parts when it is
      eligible and overlaps none of them. */
  method SelectOne(parts: seq<Part>, m: Checked, sv: SpecialVersion, searchable: seq<real>,
                   specialMatch: (SpecialVersion, Option<string>, Files.IssueNumber) -> bool,
                   coveredRange: Files.IssueNumber -> seq<real>,
                   overlapping: (Files.IssueNumber, Files.IssueNumber) -> bool)
    returns (after: seq<Part>)
    requires forall k | 0 <= k < |parts| :: parts[k].issueKey.Some?
    ensures Stepped(parts, after, m, sv, searchable, specialMatch, coveredRange, overlapping)
    ensures |after| <= |parts| + 1
  {
    after := parts;
    if Eligible(sv, m, searchable, specialMatch, coveredRange) {
      var key := Candidate(sv, m.result, coveredRange).value.0;
      var conflict := AnyOverlap(parts, key, overlapping);
      if !conflict {
        after := parts + [Part(m, Some(key))];
      }
    }
  }

  /** What one turn of the volume loop does with the match `m`: an ineligible
      match or one overlapping a chosen part leaves the parts as they are,
      any other is appended with its issue key. */
  predicate Stepped(before: seq<Part>, after: seq<Part>, m: Checked, sv: SpecialVersion, searchable: seq<real>,
                    specialMatch: (SpecialVersion, Option<string>, Files.IssueNumber) -> bool,
                    coveredRange: Files.IssueNumber -> seq<real>,
                    overlapping: (Files.IssueNumber, Files.IssueNumber) -> bool)
  {
    && (forall k | 0 <= k < |before| :: before[k].issueKey.Some?)
    && (!Eligible(sv, m, searchable, specialMatch, coveredRange) ==> after == before)
    && (Eligible(sv, m, searchable, specialMatch, coveredRange) ==>
          var key := Candidate(sv, m.result, coveredRange).value.0;
          if exists k | 0 <= k < |before| :: overlapping(before[k].issueKey.value, key) then after == before
          else after == before + [Part(m, Some(key))])
  }

  /** One turn of the volume loop keeps the selection a selection of the
      matches seen so far. */
  lemma SelectionStep(before: seq<Part>, after: seq<Part>, ms: seq<Checked>, i: nat, sv: SpecialVersion,
                      searchable: seq<real>,
                      specialMatch: (SpecialVersion, Option<string>, Files.IssueNumber) -> bool,
                      coveredRange: Files.IssueNumber -> seq<real>,
                      overlapping: (Files.IssueNumber, Files.IssueNumber) -> bool)
    requires i < |ms|
    requires IsSelection(before, ms[..i], sv, searchable, specialMatch, coveredRange, overlapping)
    requires Stepped(before, after, ms[i], sv, searchable, specialMatch, coveredRange, overlapping)
    ensures IsSelection(after, ms[..i + 1], sv, searchable, specialMatch, coveredRange, overlapping)
  {
    var seen := ms[..i + 1];
    assert seen == ms[..i] + [ms[i]];
    StepKeepsParts(before, after, ms[..i], ms[i], sv, searchable, specialMatch, coveredRange, overlapping);
    StepKeepsDisjoint(before, after, ms[i], sv, searchable, specialMatch, coveredRange, overlapping);
    StepCovers(before, after, ms[..i], ms[i], sv, searchable, specialMatch, coveredRange, overlapping);
  }

  /** After a turn every part is an eligible match seen so far, with its key. */
  lemma StepKeepsParts(before: seq<Part>, after: seq<Part>, ms: seq<Checked>, m: Checked, sv: SpecialVersion,
                       searchable: seq<real>,
                       specialMatch: (SpecialVersion, Option<string>, Files.IssueNumber) -> bool,
                       coveredRange: Files.IssueNumber -> seq<real>,
                       overlapping: (Files.IssueNumber, Files.IssueNumber) -> bool)
    requires forall k | 0 <= k < |before| ::
      && before[k].entry in ms
      && Eligible(sv, before[k].entry, searchable, specialMatch, coveredRange)
      && before[k].issueKey == Some(Candidate(sv, before[k].entry.result, coveredRange).value.0)
    requires Stepped(before, after, m, sv, searchable, specialMatch, coveredRange, overlapping)
    ensures forall k | 0 <= k < |after| ::
      && after[k].entry in ms + [m]
      && Eligible(sv, after[k].entry, searchable, specialMatch, coveredRange)
      && after[k].issueKey == Some(Candidate(sv, after[k].entry.result, coveredRange).value.0)
  {
    forall k | 0 <= k < |after|
      ensures after[k].entry in ms + [m]
    {
      if k < |before| {
        assert after[k] == before[k];
      }
    }
  }

  /** After a turn no two parts overlap. */
  lemma StepKeepsDisjoint(before: seq<Part>, after: seq<Part>, m: Checked, sv: SpecialVersion,
                          searchable: seq<real>,
                          specialMatch: (SpecialVersion, Option<string>, Files.IssueNumber) -> bool,
                          coveredRange: Files.IssueNumber -> seq<real>,
                          overlapping: (Files.IssueNumber, Files.IssueNumber) -> bool)
    requires forall k | 0 <= k < |before| :: before[k].issueKey.Some?
    requires forall i, j | 0 <= i < j < |before| :: !overlapping(before[i].issueKey.value, before[j].issueKey.value)
    requires Stepped(before, after, m, sv, searchable, specialMatch, coveredRange, overlapping)
    ensures forall k | 0 <= k < |after| :: after[k].issueKey.Some?
    ensures forall i, j | 0 <= i < j < |after| :: !overlapping(after[i].issueKey.value, after[j].issueKey.value)
  {
    forall a, b | 0 <= a < b < |after| ensures !overlapping(after[a].issueKey.value, after[b].issueKey.value) {
      if b >= |before| {
        assert after[a] == before[a];
      } else {
        assert after[a] == before[a] && after[b] == before[b];
      }
    }
  }

  /** After a turn every eligible match seen so far is a part or overlaps one. */
  lemma StepCovers(before: seq<Part>, after: seq<Part>, ms: seq<Checked>, m: Checked, sv: SpecialVersion,
                   searchable: seq<real>,
                   specialMatch: (SpecialVersion, Option<string>, Files.IssueNumber) -> bool,
                   coveredRange: Files.IssueNumber -> seq<real>,
                   overlapping: (Files.IssueNumber, Files.IssueNumber) -> bool)
    requires forall k | 0 <= k < |before| :: before[k].issueKey.Some?
    requires forall x | x in ms && Eligible(sv, x, searchable, specialMatch, coveredRange) ::
      var key := Candidate(sv, x.result, coveredRange).value.0;
      Part(x, Some(key)) in before || exists k | 0 <= k < |before| :: overlapping(before[k].issueKey.value, key)
    requires Stepped(before, after, m, sv, searchable, specialMatch, coveredRange, overlapping)
    ensures forall x | x in ms + [m] && Eligible(sv, x, searchable, specialMatch, coveredRange) ::
      var key := Candidate(sv, x.result, coveredRange).value.0;
      Part(x, Some(key)) in after || exists k | 0 <= k < |after| :: overlapping(after[k].issueKey.value, key)
  {
    forall x | x in ms + [m] && Eligible(sv, x, searchable, specialMatch, coveredRange)
      ensures var key := Candidate(sv, x.result, coveredRange).value.0;
        Part(x, Some(key)) in after || exists k | 0 <= k < |after| :: overlapping(after[k].issueKey.value, key)
    {
      var key := Candidate(sv, x.result, coveredRange).value.0;
      if x in ms {
        if Part(x, Some(key)) in before {
          assert before <= after;
        } else {
          var k :| 0 <= k < |before| && overlapping(before[k].issueKey.value, key);
          assert after[k] == before[k];
        }
      } else if after != before {
        assert after[|before|] == Part(x, Some(key));
      }
    }
  }

  /** `auto_search`: nothing for an unmonitored volume, a volume with no
      open issue, or an issue that is unmonitored or has files; the first
      match for an issue or for a volume of a special version other than
      volume-as-issue; otherwise the volume parts chosen among the
      matches. */
  method AutoSearch(volumeMonitored: bool, sv: SpecialVersion, target: AutoTarget, found: seq<Checked>,
                    specialMatch: (SpecialVersion, Option<string>, Files.IssueNumber) -> bool,
                    coveredRange: Files.IssueNumber -> seq<real>,
                    overlapping: (Files.IssueNumber, Files.IssueNumber) -> bool)
    returns (chosen: seq<Part>)
    ensures !volumeMonitored ==> chosen == []
    ensures target.VolumeTarget? && |target.searchable| == 0 ==> chosen == []
    ensures target.IssueTarget? && (!target.monitored || target.hasFiles) ==> chosen == []
    ensures (volumeMonitored && (target.IssueTarget? ==> target.monitored && !target.hasFiles) &&
             (target.IssueTarget? || (sv != Normal && sv != VolumeAsIssue)) &&
             !(target.VolumeTarget? && |target.searchable| == 0)) ==>
      chosen == (if |Matches(found)| > 0 then [Part(Matches(found)[0], None)] else [])
    ensures volumeMonitored && target.VolumeTarget? && |target.searchable| > 0 && (sv == Normal || sv == VolumeAsIssue) ==>
      IsSelection(chosen, Matches(found), sv, target.searchable, specialMatch, coveredRange, overlapping)
    ensures |chosen| <= |found|
  {
    if !volumeMonitored {
      return [];
    }
    if target.VolumeTarget? && |target.searchable| == 0 {
      return [];
    }
    if target.IssueTarget? && (!target.monitored || target.hasFiles) {
      return [];
    }
    var ms := Matches(found);
    if target.IssueTarget? || (Value(sv).Some? && sv != VolumeAsIssue) {
      return if |ms| > 0 then [Part(ms[0], None)] else [];
    }
    chosen := SelectParts(ms, sv, target.searchable, specialMatch, coveredRange, overlapping);
  }
}
