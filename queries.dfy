/** Search queries: a query format is literal text with named fields, filled
    in by `str.format`. A format is written here as its sequence of literal
    pieces and fields, with every bracket around the year a piece of its own,
    so that `f.replace('({year})', '')` removes a bracket, year, bracket
    triple of pieces. */
module Queries {
  import opened Common
  import opened Strings

  datatype FieldName = TitleField | VolumeField | YearField | IssueField

  datatype Piece = Text(text: string) | Field(name: FieldName)

  type Template = seq<Piece>

  /** The values `format` is called with. */
  datatype QueryValues = QueryValues(title: string, volumeNumber: int, year: Option<int>, issueNumber: Option<string>)

  /** Every year field of the format stands between a "(" and a ")". */
  predicate YearBracketed(t: Template) {
    forall i | 0 <= i < |t| && t[i] == Field(YearField) :: 0 < i < |t| - 1 && t[i - 1] == Text("(") && t[i + 1] == Text(")")
  }

  /** The check of `YearBracketed`, position by position from `i` on. */
  predicate BracketedFrom(t: Template, i: nat)
    decreases |t| - i
  {
    i >= |t|
    || ((t[i] == Field(YearField) ==> 0 < i < |t| - 1 && t[i - 1] == Text("(") && t[i + 1] == Text(")"))
        && BracketedFrom(t, i + 1))
  }

  /** The positional check establishes the bracketing from `i` on. */
  lemma {:induction false} BracketedScan(t: Template, i: nat)
    requires BracketedFrom(t, i)
    ensures forall j | i <= j < |t| && t[j] == Field(YearField) ::
      0 < j < |t| - 1 && t[j - 1] == Text("(") && t[j + 1] == Text(")")
    decreases |t| - i
  {
    if i < |t| {
      BracketedScan(t, i + 1);
    }
  }

  /** No piece from position `i` on is `p`. */
  predicate LacksFrom(t: Template, p: Piece, i: nat)
    decreases |t| - i
  {
    i >= |t| || (t[i] != p && LacksFrom(t, p, i + 1))
  }

  /** The positional check establishes that `p` is absent from `i` on. */
  lemma {:induction false} LacksScan(t: Template, p: Piece, i: nat)
    requires LacksFrom(t, p, i)
    ensures forall j | i <= j < |t| :: t[j] != p
    decreases |t| - i
  {
    if i < |t| {
      LacksScan(t, p, i + 1);
    }
  }

  /** `f.replace('({year})', '')`. */
  function StripYear(t: Template): (r: Template)
    ensures |r| <= |t|
    decreases |t|
  {
    if |t| == 0 then []
    else if |t| >= 3 && t[0] == Text("(") && t[1] == Field(YearField) && t[2] == Text(")") then StripYear(t[3..])
    else [t[0]] + StripYear(t[1..])
  }

  /** Stripping a format whose years are all bracketed leaves no year. */
  lemma {:induction false} StripYearRemovesYear(t: Template)
    requires YearBracketed(t)
    ensures Field(YearField) !in StripYear(t)
    decreases |t|
  {
    if |t| > 0 {
      if |t| >= 3 && t[0] == Text("(") && t[1] == Field(YearField) && t[2] == Text(")") {
        assert YearBracketed(t[3..]) by {
          forall i | 0 <= i < |t[3..]| && t[3..][i] == Field(YearField)
            ensures 0 < i < |t[3..]| - 1 && t[3..][i - 1] == Text("(") && t[3..][i + 1] == Text(")")
          {
            assert t[i + 3] == Field(YearField);
          }
        }
        StripYearRemovesYear(t[3..]);
      } else {
        assert t[0] != Field(YearField);
        assert YearBracketed(t[1..]) by {
          forall i | 0 <= i < |t[1..]| && t[1..][i] == Field(YearField)
            ensures 0 < i < |t[1..]| - 1 && t[1..][i - 1] == Text("(") && t[1..][i + 1] == Text(")")
          {
            assert t[i + 1] == Field(YearField);
          }
        }
        StripYearRemovesYear(t[1..]);
      }
    }
  }

  /** A format without a year is left as it is. */
  lemma {:induction false} StripYearWithoutYear(t: Template)
    requires Field(YearField) !in t
    ensures StripYear(t) == t
    decreases |t|
  {
    if |t| > 0 {
      assert Field(YearField) !in t[1..];
      StripYearWithoutYear(t[1..]);
      assert t == [t[0]] + t[1..];
    }
  }

  /** The text `format` puts in place of a field; Python renders `None` as
      "None". */
  function FieldText(name: FieldName, v: QueryValues): string {
    match name
    case TitleField => v.title
    case VolumeField => IntToString(v.volumeNumber)
    case YearField => if v.year.Some? then IntToString(v.year.value) else "None"
    case IssueField => if v.issueNumber.Some? then v.issueNumber.value else "None"
  }

  /** `format.format(title=..., volume_number=..., year=..., issue_number=...)`. */
  function Render(t: Template, v: QueryValues): string
    decreases |t|
  {
    if |t| == 0 then ""
    else
      (match t[0] case Text(s) => s case Field(name) => FieldText(name, v)) + Render(t[1..], v)
  }

  /** A format without a year renders the same whatever the year. */
  lemma {:induction false} RenderIgnoresYear(t: Template, v: QueryValues, year: Option<int>)
    requires Field(YearField) !in t
    ensures Render(t, v) == Render(t, v.(year := year))
    decreases |t|
  {
    if |t| > 0 {
      assert Field(YearField) !in t[1..];
      RenderIgnoresYear(t[1..], v, year);
    }
  }

  /** A format opening with the title renders to text opening with it. */
  lemma RenderStartsWithTitle(t: Template, v: QueryValues)
    requires |t| > 0 && t[0] == Field(TitleField)
    ensures StartsWith(Render(t, v), v.title)
  {
    var r := Render(t, v);
    assert r == v.title + Render(t[1..], v);
    assert r[..|v.title|] == v.title;
  }

  /** The formats filled in, after removing every bracketed year when the
      year is unknown. */
  function FillFormats(formats: seq<Template>, v: QueryValues): (qs: seq<string>)
    ensures |qs| == |formats|
  {
    seq(|formats|, i requires 0 <= i < |formats| =>
      Render(if v.year.None? then StripYear(formats[i]) else formats[i], v))
  }

  /** Every query opens with the title when every format does; with a year
      every format is filled in whole, and without one the queries are those
      of the formats with no year in them, so "None" is never put in place
      of the year. */
  lemma QueriesShape(formats: seq<Template>, v: QueryValues)
    requires forall f | f in formats :: YearBracketed(f) && |f| > 0 && f[0] == Field(TitleField)
    ensures forall i | 0 <= i < |formats| :: StartsWith(FillFormats(formats, v)[i], v.title)
    ensures v.year.Some? ==> forall i | 0 <= i < |formats| :: FillFormats(formats, v)[i] == Render(formats[i], v)
    ensures v.year.None? ==> forall i | 0 <= i < |formats| ::
      Field(YearField) !in StripYear(formats[i]) && FillFormats(formats, v)[i] == Render(StripYear(formats[i]), v)
  {
    forall i | 0 <= i < |formats| ensures StartsWith(FillFormats(formats, v)[i], v.title) {
      var f := formats[i];
      assert f in formats;
      if v.year.None? {
        assert StripYear(f) == [f[0]] + StripYear(f[1..]) by {
          assert !(f[0] == Text("("));
        }
        RenderStartsWithTitle(StripYear(f), v);
      } else {
        RenderStartsWithTitle(f, v);
      }
    }
    if v.year.None? {
      forall i | 0 <= i < |formats| ensures Field(YearField) !in StripYear(formats[i]) {
        assert formats[i] in formats;
        StripYearRemovesYear(formats[i]);
      }
    }
  }
}
