/** Search results and the two list operations both search modules apply to
    them: merging the results of several queries into one entry per link,
    and Python's `list.sort` with a rating list as the key. */
module Ranking {
  import opened Common
  import Files

  /** The volume number read from a result title: none, one number or a
      range. */
  datatype VolumeSpan = NoVolumeNumber | OneVolume(n: int) | VolumeRange(first: int, last: int)

  /** `SearchResultData`: the fields of a result title that the search
      decisions read, and the result's link. */
  datatype SearchResult = SearchResult(
    link: string,
    series: string,
    year: Option<int>,
    volumeNumber: VolumeSpan,
    specialVersion: Option<string>,
    issueNumber: Files.IssueNumber)

  /** An issue number as `process_issue_number` gives it: a tuple holds at
      least two numbers. */
  predicate WellShaped(n: Files.IssueNumber) {
    n.Several? ==> |n.values| >= 2
  }

  /** The first issue an issue number covers: the number itself, or the
      first element of a tuple. */
  function Lo(n: Files.IssueNumber): real
    requires n != Files.NoIssueNumber && WellShaped(n)
  {
    if n.Single? then n.value else n.values[0]
  }

  /** The last issue an issue number covers: the number itself, or the
      second element of a tuple. */
  function Hi(n: Files.IssueNumber): real
    requires n != Files.NoIssueNumber && WellShaped(n)
  {
    if n.Single? then n.value else n.values[1]
  }

  // ---------------------------------------------------------------------
  // Python's ordering of lists of numbers
  // ---------------------------------------------------------------------

  /** `a <= b` on lists: the first differing element decides, and a list
      that is a prefix of the other comes first. */
  predicate LexLe(a: seq<real>, b: seq<real>)
    decreases |a|
  {
    |a| == 0 || (|b| > 0 && (a[0] < b[0] || (a[0] == b[0] && LexLe(a[1..], b[1..]))))
  }

  /** Any two rating lists are ordered one way or the other. */
  lemma {:induction false} LexLeTotal(a: seq<real>, b: seq<real>)
    ensures LexLe(a, b) || LexLe(b, a)
    decreases |a|
  {
    if |a| > 0 && |b| > 0 && a[0] == b[0] {
      LexLeTotal(a[1..], b[1..]);
    }
  }

  /** The ordering is transitive. */
  lemma {:induction false} LexLeTrans(a: seq<real>, b: seq<real>, c: seq<real>)
    requires LexLe(a, b) && LexLe(b, c)
    ensures LexLe(a, c)
    decreases |a|
  {
    if |a| > 0 && a[0] == b[0] && b[0] == c[0] {
      LexLeTrans(a[1..], b[1..], c[1..]);
    }
  }

  /** Equal lists are ordered both ways, and lists ordered both ways are
      equal. */
  lemma {:induction false} LexLeAntisymmetric(a: seq<real>, b: seq<real>)
    ensures LexLe(a, b) && LexLe(b, a) <==> a == b
    decreases |a|
  {
    if |a| > 0 && |b| > 0 && a[0] == b[0] {
      LexLeAntisymmetric(a[1..], b[1..]);
      if a[1..] == b[1..] {
        assert a == [a[0]] + a[1..] && b == [b[0]] + b[1..];
      }
    }
  }

  // ---------------------------------------------------------------------
  // list.sort(key=...)
  // ---------------------------------------------------------------------

  /** Every element's key is at most every later element's key. */
  predicate SortedBy<T>(s: seq<T>, key: T -> seq<real>) {
    forall i, j | 0 <= i < j < |s| :: LexLe(key(s[i]), key(s[j]))
  }

  /** The element placed after every leading element whose key is at most
      its own, the step of a stable insertion sort. */
  function Insert<T>(s: seq<T>, x: T, key: T -> seq<real>): (r: seq<T>)
    ensures |r| == |s| + 1
    decreases |s|
  {
    if |s| == 0 then [x]
    else if LexLe(key(s[0]), key(x)) then [s[0]] + Insert(s[1..], x, key)
    else [x] + s
  }

  /** Insertion keeps every element and adds the new one. */
  lemma {:induction false} InsertPermutes<T>(s: seq<T>, x: T, key: T -> seq<real>)
    ensures multiset(Insert(s, x, key)) == multiset(s) + multiset{x}
    decreases |s|
  {
    if |s| > 0 && LexLe(key(s[0]), key(x)) {
      InsertPermutes(s[1..], x, key);
      assert s == [s[0]] + s[1..];
    }
  }

  /** Every element of an insertion is the new one or an old one. */
  lemma {:induction false} InsertElements<T>(s: seq<T>, x: T, key: T -> seq<real>)
    ensures forall i | 0 <= i < |Insert(s, x, key)| :: Insert(s, x, key)[i] == x || Insert(s, x, key)[i] in s
    decreases |s|
  {
    if |s| > 0 && LexLe(key(s[0]), key(x)) {
      InsertElements(s[1..], x, key);
      var r := Insert(s, x, key);
      forall i | 1 <= i < |r| ensures r[i] == x || r[i] in s {
        assert r[i] == Insert(s[1..], x, key)[i - 1];
      }
    }
  }

  /** Insertion into a sorted list gives a sorted list. */
  lemma {:induction false} InsertSorted<T>(s: seq<T>, x: T, key: T -> seq<real>)
    requires SortedBy(s, key)
    ensures SortedBy(Insert(s, x, key), key)
    decreases |s|
  {
    var r := Insert(s, x, key);
    if |s| == 0 {
    } else if LexLe(key(s[0]), key(x)) {
      var rest := Insert(s[1..], x, key);
      assert SortedBy(s[1..], key) by {
        forall i, j | 0 <= i < j < |s[1..]| ensures LexLe(key(s[1..][i]), key(s[1..][j])) {
          assert s[1..][i] == s[i + 1] && s[1..][j] == s[j + 1];
        }
      }
      InsertSorted(s[1..], x, key);
      InsertElements(s[1..], x, key);
      forall j | 1 <= j < |r| ensures LexLe(key(r[0]), key(r[j])) {
        assert r[j] == rest[j - 1];
        if rest[j - 1] != x {
          var k :| 0 <= k < |s[1..]| && s[1..][k] == rest[j - 1];
          assert s[k + 1] == rest[j - 1];
        }
      }
      forall i, j | 0 <= i < j < |r| ensures LexLe(key(r[i]), key(r[j])) {
        if i > 0 {
          assert r[i] == rest[i - 1] && r[j] == rest[j - 1];
        }
      }
    } else {
      LexLeTotal(key(s[0]), key(x));
      forall i, j | 0 <= i < j < |r| ensures LexLe(key(r[i]), key(r[j])) {
        if i == 0 {
          assert r[j] == s[j - 1];
          if j > 1 {
            LexLeTrans(key(x), key(s[0]), key(s[j - 1]));
          }
        } else {
          assert r[i] == s[i - 1] && r[j] == s[j - 1];
        }
      }
    }
  }

  /** `list.sort(key=key)`: the elements ordered by their keys, smallest
      first. */
  function SortBy<T>(s: seq<T>, key: T -> seq<real>): (r: seq<T>)
    ensures |r| == |s|
    ensures SortedBy(r, key)
    decreases |s|
  {
    if |s| == 0 then []
    else
      var front := SortBy(s[..|s| - 1], key);
      InsertSorted(front, s[|s| - 1], key);
      Insert(front, s[|s| - 1], key)
  }

  /** Sorting keeps every element, each as often as before. */
  lemma {:induction false} SortByPermutes<T>(s: seq<T>, key: T -> seq<real>)
    ensures multiset(SortBy(s, key)) == multiset(s)
    decreases |s|
  {
    if |s| > 0 {
      SortByPermutes(s[..|s| - 1], key);
      InsertPermutes(SortBy(s[..|s| - 1], key), s[|s| - 1], key);
      assert s == s[..|s| - 1] + [s[|s| - 1]];
    }
  }

  /** The elements whose key is `k`, in their order. */
  function WithKey<T>(s: seq<T>, key: T -> seq<real>, k: seq<real>): (r: seq<T>)
    ensures |r| <= |s|
    decreases |s|
  {
    if |s| == 0 then []
    else (if key(s[0]) == k then [s[0]] else []) + WithKey(s[1..], key, k)
  }

  /** `r` is `s` sorted stably by `key`: the same elements, in key order,
      and the elements of each key in the order `s` has them. */
  ghost predicate StablySorted<T>(r: seq<T>, s: seq<T>, key: T -> seq<real>) {
    && multiset(r) == multiset(s)
    && SortedBy(r, key)
    && forall k :: WithKey(r, key, k) == WithKey(s, key, k)
  }

  /** Appending an element appends it to the elements of its key. */
  lemma {:induction false} WithKeyAppend<T>(s: seq<T>, x: T, key: T -> seq<real>, k: seq<real>)
    ensures WithKey(s + [x], key, k) == WithKey(s, key, k) + (if key(x) == k then [x] else [])
    decreases |s|
  {
    if |s| > 0 {
      assert (s + [x])[1..] == s[1..] + [x];
      WithKeyAppend(s[1..], x, key, k);
    }
  }

  /** No element has the key, so none is picked. */
  lemma {:induction false} WithKeyNone<T>(s: seq<T>, key: T -> seq<real>, k: seq<real>)
    requires forall j | 0 <= j < |s| :: key(s[j]) != k
    ensures WithKey(s, key, k) == []
    decreases |s|
  {
    if |s| > 0 {
      WithKeyNone(s[1..], key, k);
    }
  }

  /** Insertion into a sorted list puts the new element behind every
      element of its key. */
  lemma {:induction false} InsertWithKey<T>(s: seq<T>, x: T, key: T -> seq<real>, k: seq<real>)
    requires SortedBy(s, key)
    ensures WithKey(Insert(s, x, key), key, k) == WithKey(s, key, k) + (if key(x) == k then [x] else [])
    decreases |s|
  {
    if |s| == 0 {
    } else if LexLe(key(s[0]), key(x)) {
      assert SortedBy(s[1..], key) by {
        forall i, j | 0 <= i < j < |s[1..]| ensures LexLe(key(s[1..][i]), key(s[1..][j])) {
          assert s[1..][i] == s[i + 1] && s[1..][j] == s[j + 1];
        }
      }
      InsertWithKey(s[1..], x, key, k);
      assert Insert(s, x, key)[1..] == Insert(s[1..], x, key);
    } else if key(x) == k {
      forall j | 0 <= j < |s| ensures key(s[j]) != k {
        if j > 0 {
          assert LexLe(key(s[0]), key(s[j]));
        } else {
          LexLeTotal(key(x), key(x));
        }
      }
      WithKeyNone(s, key, k);
      assert Insert(s, x, key)[1..] == s;
    } else {
      assert Insert(s, x, key)[1..] == s;
    }
  }

  /** The sort is stable: the elements of each key keep their order. */
  lemma {:induction false} SortByStable<T>(s: seq<T>, key: T -> seq<real>, k: seq<real>)
    ensures WithKey(SortBy(s, key), key, k) == WithKey(s, key, k)
    decreases |s|
  {
    if |s| > 0 {
      var front := s[..|s| - 1];
      SortByStable(front, key, k);
      InsertWithKey(SortBy(front, key), s[|s| - 1], key, k);
      WithKeyAppend(front, s[|s| - 1], key, k);
      assert s == front + [s[|s| - 1]];
    }
  }

  /** `SortBy` sorts stably. */
  lemma SortByStablySorts<T>(s: seq<T>, key: T -> seq<real>)
    ensures StablySorted(SortBy(s, key), s, key)
  {
    SortByPermutes(s, key);
    forall k ensures WithKey(SortBy(s, key), key, k) == WithKey(s, key, k) {
      SortByStable(s, key, k);
    }
  }

  // ---------------------------------------------------------------------
  // list({r['link']: r for r in results}.values())
  // ---------------------------------------------------------------------

  /** The position of the entry holding a link. */
  function LinkIndex(entries: seq<SearchResult>, link: string): (r: Option<nat>)
    ensures r.Some? ==> r.value < |entries| && entries[r.value].link == link
    ensures r.None? ==> forall i | 0 <= i < |entries| :: entries[i].link != link
    decreases |entries|
  {
    if |entries| == 0 then None
    else if entries[|entries| - 1].link == link then Some(|entries| - 1)
    else LinkIndex(entries[..|entries| - 1], link)
  }

  /** A dict assignment: a link already present keeps its place and gets
      the new result, a new link is added at the end. */
  function DictPut(entries: seq<SearchResult>, r: SearchResult): seq<SearchResult> {
    match LinkIndex(entries, r.link)
    case Some(i) => entries[i := r]
    case None => entries + [r]
  }

  /** The values of the dict built from the results in order. */
  function Dedup(results: seq<SearchResult>): seq<SearchResult>
    decreases |results|
  {
    if |results| == 0 then []
    else DictPut(Dedup(results[..|results| - 1]), results[|results| - 1])
  }

  /** No two results share a link. */
  predicate DistinctLinks(rs: seq<SearchResult>) {
    forall i, j | 0 <= i < j < |rs| :: rs[i].link != rs[j].link
  }

  /** Some result has the link. */
  predicate HasLink(rs: seq<SearchResult>, link: string) {
    exists i | 0 <= i < |rs| :: rs[i].link == link
  }

  /** `k` is the last position of `results` holding the link of `results[k]`. */
  predicate LastWithLink(results: seq<SearchResult>, k: int) {
    0 <= k < |results| && forall j | k < j < |results| :: results[j].link != results[k].link
  }

  /** Each of `out` is the last result of `results` with its link. */
  predicate LastOfLinks(out: seq<SearchResult>, results: seq<SearchResult>) {
    forall i | 0 <= i < |out| :: exists k | 0 <= k < |results| && LastWithLink(results, k) :: results[k] == out[i]
  }

  /** One merge step keeps the links of the earlier entries in place, and
      every entry is an earlier one or the new result. */
  lemma DictPutShape(d: seq<SearchResult>, r: SearchResult)
    ensures |DictPut(d, r)| >= |d|
    ensures forall m | 0 <= m < |d| :: DictPut(d, r)[m].link == d[m].link
    ensures forall m | 0 <= m < |DictPut(d, r)| :: DictPut(d, r)[m] == r || (m < |d| && DictPut(d, r)[m] == d[m])
    ensures HasLink(d, r.link) ==> |DictPut(d, r)| == |d|
    ensures !HasLink(d, r.link) ==> DictPut(d, r) == d + [r]
  {
    match LinkIndex(d, r.link) {
      case Some(m) =>
      case None =>
    }
  }

  /** The merged results have pairwise distinct links and hold exactly the
      links of the input. */
  lemma {:induction false} DedupSpec(results: seq<SearchResult>)
    ensures DistinctLinks(Dedup(results))
    ensures forall link :: HasLink(Dedup(results), link) <==> HasLink(results, link)
    ensures LastOfLinks(Dedup(results), results)
    decreases |results|
  {
    if |results| > 0 {
      var front := results[..|results| - 1];
      var r := results[|results| - 1];
      var d := Dedup(front);
      DedupSpec(front);
      var out := Dedup(results);
      assert out == DictPut(d, r);
      assert results == front + [r];
      DedupDistinctStep(d, r);
      DedupLinksStep(front, r, d);
      DedupKeepStep(d, r);
      DedupLastStep(front, r, d, out);
    }
  }

  /** One merge step keeps the links pairwise distinct. */
  lemma DedupDistinctStep(d: seq<SearchResult>, r: SearchResult)
    requires DistinctLinks(d)
    ensures DistinctLinks(DictPut(d, r))
  {
    var out := DictPut(d, r);
    DictPutShape(d, r);
    if !HasLink(d, r.link) {
      forall i, j | 0 <= i < j < |out| ensures out[i].link != out[j].link {
        if j == |d| {
          assert out[j] == r && out[i] == d[i];
        }
      }
    }
  }

  /** One merge step adds the link of the new result and no other. */
  lemma DedupLinksStep(front: seq<SearchResult>, r: SearchResult, d: seq<SearchResult>)
    requires forall link :: HasLink(d, link) <==> HasLink(front, link)
    ensures forall link :: HasLink(DictPut(d, r), link) <==> HasLink(front + [r], link)
  {
    var out, results := DictPut(d, r), front + [r];
    DictPutShape(d, r);
    forall link ensures HasLink(out, link) <==> HasLink(results, link) {
      if HasLink(results, link) {
        var k :| 0 <= k < |results| && results[k].link == link;
        if k < |front| {
          assert front[k].link == link;
          assert HasLink(d, link);
          var m :| 0 <= m < |d| && d[m].link == link;
          assert out[m].link == link;
        } else {
          match LinkIndex(d, r.link) {
            case Some(m) => assert out[m] == r;
            case None => assert out[|d|] == r;
          }
        }
      }
      if HasLink(out, link) {
        var m :| 0 <= m < |out| && out[m].link == link;
        if out[m] != r {
          assert d[m] == out[m];
          assert HasLink(front, link);
          var k :| 0 <= k < |front| && front[k].link == link;
          assert results[k].link == link;
        } else {
          assert results[|results| - 1].link == link;
        }
      }
    }
  }

  /** After one merge step, an entry that is not the new result is the
      earlier entry at its place, with a different link. */
  lemma DedupKeepStep(d: seq<SearchResult>, r: SearchResult)
    requires DistinctLinks(d)
    ensures var out := DictPut(d, r);
      forall m | 0 <= m < |out| :: out[m] == r || (m < |d| && out[m] == d[m] && d[m].link != r.link)
  {
    var out := DictPut(d, r);
    DictPutShape(d, r);
    forall m | 0 <= m < |out| && out[m] != r ensures m < |d| && out[m] == d[m] && d[m].link != r.link {
      match LinkIndex(d, r.link) {
        case Some(i) =>
          assert m != i;
          if m < i {
            assert d[m].link != d[i].link;
          } else {
            assert d[i].link != d[m].link;
          }
        case None =>
      }
    }
  }

  /** The last-with-link property survives one merge step. */
  lemma DedupLastStep(front: seq<SearchResult>, r: SearchResult, d: seq<SearchResult>, out: seq<SearchResult>)
    requires LastOfLinks(d, front)
    requires out == DictPut(d, r)
    requires forall m | 0 <= m < |out| :: out[m] == r || (m < |d| && out[m] == d[m] && d[m].link != r.link)
    ensures LastOfLinks(out, front + [r])
  {
    var results := front + [r];
    forall i | 0 <= i < |out| ensures exists k | 0 <= k < |results| && LastWithLink(results, k) :: results[k] == out[i] {
      if out[i] == r {
        assert LastWithLink(results, |results| - 1);
      } else {
        var k :| 0 <= k < |front| && LastWithLink(front, k) && front[k] == d[i];
        assert results[k] == front[k];
        assert LastWithLink(results, k);
      }
    }
  }

  // ---------------------------------------------------------------------
  // results of several queries, and their verdicts
  // ---------------------------------------------------------------------

  /** `{'match': ..., 'match_issue': ...}`. */
  datatype Verdict = Verdict(matched: bool, reason: Option<string>)

  /** A result updated with its verdict. */
  datatype Checked = Checked(result: SearchResult, verdict: Verdict)

  /** The words of the result's series that are not words of the title
      (both split on ' '). */
  function WordsNotIn(words: seq<string>, known: seq<string>): (r: seq<string>)
    ensures forall w | w in r :: w in words && w !in known
    ensures forall w | w in words && w !in known :: w in r
    decreases |words|
  {
    if |words| == 0 then []
    else (if words[0] in known then [] else [words[0]]) + WordsNotIn(words[1..], known)
  }

  /** The results of the queries one after the other. */
  function Gathered(queries: seq<string>, search: string -> seq<SearchResult>): seq<SearchResult>
    decreases |queries|
  {
    if |queries| == 0 then [] else Gathered(queries[..|queries| - 1], search) + search(queries[|queries| - 1])
  }

  /** The loop that runs the queries one after the other and collects
      their results. */
  method GatherResults(queries: seq<string>, search: string -> seq<SearchResult>) returns (found: seq<SearchResult>)
    ensures found == Gathered(queries, search)
  {
    found := [];
    var i := 0;
    while i < |queries|
      invariant 0 <= i <= |queries|
      invariant found == Gathered(queries[..i], search)
    {
      assert queries[..i + 1][..i] == queries[..i];
      found := found + search(queries[i]);
      i := i + 1;
    }
    assert queries[..i] == queries;
  }

  /** A result is gathered exactly when some query returns it. */
  lemma {:induction false} GatheredHolds(queries: seq<string>, search: string -> seq<SearchResult>, x: SearchResult)
    ensures x in Gathered(queries, search) <==> exists i | 0 <= i < |queries| :: x in search(queries[i])
    decreases |queries|
  {
    if |queries| > 0 {
      var front := queries[..|queries| - 1];
      GatheredHolds(front, search, x);
      if exists i | 0 <= i < |front| :: x in search(front[i]) {
        var i :| 0 <= i < |front| && x in search(front[i]);
        assert queries[i] == front[i];
      }
      if exists i | 0 <= i < |queries| :: x in search(queries[i]) {
        var i :| 0 <= i < |queries| && x in search(queries[i]);
        if i < |front| {
          assert front[i] == queries[i];
        }
      }
    }
  }

  /** The matching results in order (`filter(lambda r: r['match'], ...)`). */
  function Matches(cs: seq<Checked>): (ms: seq<Checked>)
    ensures forall m | m in ms :: m in cs && m.verdict.matched
    ensures forall c | c in cs && c.verdict.matched :: c in ms
    ensures |ms| <= |cs|
    decreases |cs|
  {
    if |cs| == 0 then []
    else (if cs[0].verdict.matched then [cs[0]] else []) + Matches(cs[1..])
  }
}
