/** The first download implementation (`backend/download.py`): which button
    of a download page names a supported source, which link groups of a page
    are wanted, how the wanted groups are arranged into alternative paths of
    non-conflicting downloads, the order those paths are tried in, the choice
    of the first path that works, and the removal of a queued download. The
    blocklist, the page scraping, the title parser and the network probe of a
    link are parameters. */
module LegacyDownload {
  import opened Common
  import opened Strings
  import Files
  import opened Ranking
  import LegacySearch

  // ---------------------------------------------------------------------
  // link classification (`_check_download_link`)
  // ---------------------------------------------------------------------

  /** `supported_source_strings`: per source its key and the button texts
      that name it, in the order of preference. */
  const SupportedSources: seq<seq<string>> :=
    [["mega", "mega link"],
     ["mediafire", "mediafire link"],
     ["zippyshare", "zippyshare link"],
     ["direct", "download now", "main server", "mirror download"]]

  /** `source_preference_order`: the first element of every tuple above. */
  const Preference: seq<string> := ["mega", "mediafire", "zippyshare", "direct"]

  /** The key of the first tuple that holds the button text. */
  function SourceFor(text: string, sources: seq<seq<string>>): (r: Option<string>)
    requires forall k | 0 <= k < |sources| :: |sources[k]| > 0
    ensures r.Some? <==> exists k | 0 <= k < |sources| :: text in sources[k]
    ensures r.Some? ==> exists k | 0 <= k < |sources| :: text in sources[k] && r.value == sources[k][0]
  {
    if |sources| == 0 then None
    else if text in sources[0] then Some(sources[0][0])
    else
      var r := SourceFor(text, sources[1..]);
      assert forall k | 1 <= k < |sources| :: sources[k] == sources[1..][k - 1];
      r
  }

  /** `_check_download_link`: the source a button with text `text` and
      target `link` leads to, or None for a missing, empty or blocklisted
      link and for a button text no source uses. */
  function CheckDownloadLink(text: string, link: Option<string>, blocklisted: string -> bool): (r: Option<string>)
    ensures r.Some? ==> link.Some? && link.value != "" && !blocklisted(link.value)
    ensures r.Some? ==> r.value in Preference
  {
    if link.None? || link.value == "" then None
    else if blocklisted(link.value) then None
    else SourceFor(text, SupportedSources)
  }

  /** The button texts of every source: a usable link is classified as the
      source whose texts hold the button text, and no other text is
      accepted. */
  lemma CheckDownloadLinkTable(text: string, link: Option<string>, blocklisted: string -> bool)
    requires link.Some? && link.value != "" && !blocklisted(link.value)
    ensures text in {"mega", "mega link"} ==> CheckDownloadLink(text, link, blocklisted) == Some("mega")
    ensures text in {"mediafire", "mediafire link"} ==> CheckDownloadLink(text, link, blocklisted) == Some("mediafire")
    ensures text in {"zippyshare", "zippyshare link"} ==> CheckDownloadLink(text, link, blocklisted) == Some("zippyshare")
    ensures text in {"direct", "download now", "main server", "mirror download"} ==>
      CheckDownloadLink(text, link, blocklisted) == Some("direct")
    ensures text !in {"mega", "mega link", "mediafire", "mediafire link", "zippyshare", "zippyshare link",
                      "direct", "download now", "main server", "mirror download"} ==>
      CheckDownloadLink(text, link, blocklisted) == None
  {
    SourceForFour(text, SupportedSources);
  }

  /** `SourceFor` over four tuples, unrolled. */
  lemma SourceForFour(text: string, s: seq<seq<string>>)
    requires |s| == 4 && forall k | 0 <= k < 4 :: |s[k]| > 0
    ensures SourceFor(text, s) ==
      if text in s[0] then Some(s[0][0])
      else if text in s[1] then Some(s[1][0])
      else if text in s[2] then Some(s[2][0])
      else if text in s[3] then Some(s[3][0])
      else None
  {
    var s1, s2, s3 := s[1..], s[2..], s[3..];
    assert s1[0] == s[1] && s1[1..] == s2;
    assert s2[0] == s[2] && s2[1..] == s3;
    assert s3[0] == s[3] && s3[1..] == [];
    assert SourceFor(text, s3) == if text in s[3] then Some(s[3][0]) else None;
    assert SourceFor(text, s2) == if text in s[2] then Some(s[2][0]) else SourceFor(text, s3);
    assert SourceFor(text, s1) == if text in s[1] then Some(s[1][0]) else SourceFor(text, s2);
  }

  // ---------------------------------------------------------------------
  // link rejection (`_purify_link`)
  // ---------------------------------------------------------------------

  /** What a link is downloaded with. */
  datatype Target = DirectTarget | MegaTarget

  /** The direct or mega link a page link resolves to. */
  datatype PureLink = PureLink(link: string, target: Target)

  /** `_purify_link`: a magnet link and a link that is not http(s) are
      rejected with reason 2 (source not supported); an http link is handed
      to `probe`, the network part that follows redirects and reads pages. */
  function PurifyLink(link: string, probe: string -> Result<PureLink>): (r: Result<PureLink>)
    ensures StartsWith(link, "magnet:?") ==> r == Err(LinkBroken(2))
    ensures !StartsWith(link, "http") ==> r == Err(LinkBroken(2))
    ensures r.Ok? ==> StartsWith(link, "http") && r == probe(link)
  {
    if StartsWith(link, "magnet:?") then Err(LinkBroken(2))
    else if StartsWith(link, "http") then probe(link)
    else Err(LinkBroken(2))
  }

  /** A link that is not http(s) is rejected without asking the network:
      any two probes give the same answer, and it is never resolved. */
  lemma PurifyLinkOffline(link: string, p: string -> Result<PureLink>, q: string -> Result<PureLink>)
    requires !StartsWith(link, "http")
    ensures PurifyLink(link, p) == PurifyLink(link, q)
    ensures PurifyLink(link, p).Err?
  {
  }

  // ---------------------------------------------------------------------
  // link groups and their admission
  // ---------------------------------------------------------------------

  /** What `extract_filename_data` reads from the title of a link group. */
  datatype GroupInfo = GroupInfo(
    series: string,
    volumeNumber: VolumeSpan,
    specialVersion: Option<string>,
    issueNumber: Files.IssueNumber)

  /** A wanted group: its parsed title and its links per source, the
      sources in preference order. */
  datatype Group = Group(info: GroupInfo, sources: seq<(string, seq<string>)>)

  /** One way of downloading the volume: groups that do not conflict. */
  type LinkPath = seq<Group>

  /** The special version of a group is truthy. */
  predicate IsSpecial(info: GroupInfo) {
    info.specialVersion.Some? && info.specialVersion.value != ""
  }

  /** The issue number of a group is truthy: issue 0 is falsy in Python. */
  predicate HasIssue(info: GroupInfo) {
    info.issueNumber.Several? || (info.issueNumber.Single? && info.issueNumber.value != 0.0)
  }

  /** A group is wanted when its series matches the volume title, its volume
      number is absent or the volume's, and it is a special version or has
      an issue number. */
  predicate Admitted(info: GroupInfo, title: string, volumeNumber: int) {
    LegacySearch.TitlesMatch(title, info.series)
    && (info.volumeNumber == NoVolumeNumber || info.volumeNumber == OneVolume(volumeNumber))
    && (IsSpecial(info) || HasIssue(info))
  }

  /** The sources of `m` that `names` lists, in the order of `names`. */
  function InOrder(m: map<string, seq<string>>, names: seq<string>): (r: seq<(string, seq<string>)>)
    ensures forall i | 0 <= i < |r| :: r[i].0 in m && r[i].1 == m[r[i].0] && r[i].0 in names
    ensures forall n | n in names && n in m :: exists i | 0 <= i < |r| :: r[i].0 == n
  {
    if |names| == 0 then []
    else
      var rest := InOrder(m, names[1..]);
      assert forall n | n in names[1..] :: n in names;
      assert forall n | n in names :: n == names[0] || n in names[1..];
      if names[0] in m then
        var r := [(names[0], m[names[0]])] + rest;
        assert forall i | 0 <= i < |rest| :: r[i + 1] == rest[i];
        assert r[0].0 == names[0];
        r
      else rest
  }

  /** The position of `x` in `names`, as `list.index` gives it. */
  function IndexIn(names: seq<string>, x: string): (r: nat)
    requires x in names
    ensures r < |names| && names[r] == x
  {
    if names[0] == x then 0 else 1 + IndexIn(names[1..], x)
  }

  /** No name occurs twice. */
  predicate Distinct(names: seq<string>) {
    forall a, b | 0 <= a < b < |names| :: names[a] != names[b]
  }

  /** The entries of `r` are sorted by the position of their names in
      `names`, strictly: no source comes twice. */
  predicate FollowsOrder(r: seq<(string, seq<string>)>, names: seq<string>) {
    (forall i | 0 <= i < |r| :: r[i].0 in names)
    && forall i, j | 0 <= i < j < |r| :: IndexIn(names, r[i].0) < IndexIn(names, r[j].0)
  }

  /** With distinct names, InOrder lists the sources in the names' order. */
  lemma {:induction false} InOrderFollows(m: map<string, seq<string>>, names: seq<string>)
    requires Distinct(names)
    ensures FollowsOrder(InOrder(m, names), names)
    decreases |names|
  {
    if |names| > 0 {
      var tail := names[1..];
      assert Distinct(tail) by {
        forall a, b | 0 <= a < b < |tail| ensures tail[a] != tail[b] {
          assert tail[a] == names[a + 1] && tail[b] == names[b + 1];
        }
      }
      InOrderFollows(m, tail);
      var rest := InOrder(m, tail);
      forall x | x in tail
        ensures x != names[0] && IndexIn(names, x) == 1 + IndexIn(tail, x)
      {
        var b := IndexIn(tail, x);
        assert names[b + 1] == x;
      }
      var r := InOrder(m, names);
      if names[0] in m {
        assert r == [(names[0], m[names[0]])] + rest;
        forall i | 0 <= i < |r| ensures r[i].0 in names {
          if i > 0 { assert r[i] == rest[i - 1]; }
        }
        forall i, j | 0 <= i < j < |r|
          ensures IndexIn(names, r[i].0) < IndexIn(names, r[j].0)
        {
          assert r[j] == rest[j - 1];
          if i > 0 { assert r[i] == rest[i - 1]; }
        }
      } else {
        assert r == rest;
        forall i, j | 0 <= i < j < |r|
          ensures IndexIn(names, r[i].0) < IndexIn(names, r[j].0)
        {
          assert r[i].0 in tail && r[j].0 in tail;
        }
      }
    }
  }

  /** The sources of a group, re-keyed in `source_preference_order`. */
  function OrderSources(m: map<string, seq<string>>): (r: seq<(string, seq<string>)>)
    requires forall k | k in m :: k in Preference
    ensures forall k | k in m :: exists i | 0 <= i < |r| :: r[i].0 == k
    ensures forall i | 0 <= i < |r| :: r[i].0 in m && r[i].1 == m[r[i].0]
    ensures FollowsOrder(r, Preference)
  {
    InOrderFollows(m, Preference);
    InOrder(m, Preference)
  }

  // ---------------------------------------------------------------------
  // conflicts between groups
  // ---------------------------------------------------------------------

  /** Two issue numbers cover a common issue. */
  predicate Clash(a: Files.IssueNumber, b: Files.IssueNumber) {
    a != Files.NoIssueNumber && WellShaped(a) && b != Files.NoIssueNumber && WellShaped(b)
    && LegacySearch.Overlaps(a, b)
  }

  /** The test of lines 348-368 between the issue number of a path entry
      and that of a new group: equal numbers, one number inside the other's
      range, or, for two ranges, one END of the new range inside the entry's
      range. */
  predicate ClashAsWritten(entry: Files.IssueNumber, g: Files.IssueNumber) {
    entry != Files.NoIssueNumber && WellShaped(entry) && g != Files.NoIssueNumber && WellShaped(g)
    && if entry.Single? then
         (if g.Single? then entry.value == g.value else Lo(g) <= entry.value <= Hi(g))
       else
         (if g.Single? then Lo(entry) <= g.value <= Hi(entry)
          else Lo(entry) <= Lo(g) <= Hi(entry) || Lo(entry) <= Hi(g) <= Hi(entry))
  }

  /** The test as written finds every conflict except one: a new range that
      strictly contains the entry's range. For ranges written low to high it
      finds nothing that is not a conflict. */
  lemma ClashAsWrittenMisses(entry: Files.IssueNumber, g: Files.IssueNumber)
    ensures Clash(entry, g) && !ClashAsWritten(entry, g) ==>
      entry.Several? && g.Several? && Lo(g) < Lo(entry) && Hi(entry) < Hi(g)
    ensures (ClashAsWritten(entry, g) && Lo(entry) <= Hi(entry) && Lo(g) <= Hi(g)) ==> Clash(entry, g)
  {
  }

  /** An entry of a path keeps a new group out of that path: it is a
      special version, or its issue number conflicts with the group's,
      with the corrected test or with the test as written. */
  predicate Blocks(entry: GroupInfo, g: GroupInfo, asWritten: bool) {
    IsSpecial(entry)
    || (if asWritten then ClashAsWritten(entry.issueNumber, g.issueNumber)
        else Clash(entry.issueNumber, g.issueNumber))
  }

  /** No entry of the path blocks the group. */
  predicate Takes(path: LinkPath, g: GroupInfo, asWritten: bool) {
    forall k | 0 <= k < |path| :: !Blocks(path[k].info, g, asWritten)
  }

  /** The index of the first path that takes the group. */
  function FirstTaking(paths: seq<LinkPath>, g: GroupInfo, asWritten: bool): (r: Option<nat>)
    ensures r.Some? ==> (r.value < |paths| && Takes(paths[r.value], g, asWritten)
      && forall q | 0 <= q < r.value :: !Takes(paths[q], g, asWritten))
    ensures r.None? ==> forall q | 0 <= q < |paths| :: !Takes(paths[q], g, asWritten)
  {
    if |paths| == 0 then None
    else if Takes(paths[0], g, asWritten) then Some(0)
    else match FirstTaking(paths[1..], g, asWritten)
      case None => None
      case Some(i) => Some(i + 1)
  }

  /** Where a non-special group goes: at the end of the first path that
      takes it, or into a path of its own after all others. */
  function Place(paths: seq<LinkPath>, g: Group, asWritten: bool): seq<LinkPath> {
    match FirstTaking(paths, g.info, asWritten)
      case Some(i) => paths[i := paths[i] + [g]]
      case None => paths + [[g]]
  }

  /** The paths after one more link group of the page: an unwanted group
      changes nothing, a special version starts a path of its own, and any
      other group is placed. */
  function AddGroup(paths: seq<LinkPath>, desc: string, links: map<string, seq<string>>,
                    title: string, volumeNumber: int, extract: string -> GroupInfo, asWritten: bool): seq<LinkPath>
    requires forall k | k in links :: k in Preference
  {
    var info := extract(desc);
    if !Admitted(info, title, volumeNumber) then paths
    else
      var g := Group(info, OrderSources(links));
      if IsSpecial(info) then paths + [[g]] else Place(paths, g, asWritten)
  }

  /** The link groups a page offers, by group title, in page order; every
      source key is one `_check_download_link` returns. */
  type Page = seq<(string, map<string, seq<string>>)>

  predicate KnownSources(page: Page) {
    forall i | 0 <= i < |page| :: forall k | k in page[i].1 :: k in Preference
  }

  /** The paths the groups of a page are arranged in, before sorting. */
  function BuildPaths(page: Page, title: string, volumeNumber: int, extract: string -> GroupInfo, asWritten: bool): seq<LinkPath>
    requires KnownSources(page)
  {
    if |page| == 0 then []
    else
      var front := page[..|page| - 1];
      assert KnownSources(front) by {
        forall i | 0 <= i < |front| ensures forall k | k in front[i].1 :: k in Preference {
          assert front[i] == page[i];
        }
      }
      var last := page[|page| - 1];
      AddGroup(BuildPaths(front, title, volumeNumber, extract, asWritten), last.0, last.1,
               title, volumeNumber, extract, asWritten)
  }

  // ---------------------------------------------------------------------
  // what the paths guarantee (corrected test)
  // ---------------------------------------------------------------------

  /** A path is non-empty; a special version is alone in its path; every
      other entry is wanted for an issue number and no two of them
      conflict. */
  predicate PathOk(p: LinkPath) {
    |p| > 0
    && (IsSpecial(p[0].info) ==> |p| == 1)
    && (forall k | 0 < k < |p| :: !IsSpecial(p[k].info))
    && (!IsSpecial(p[0].info) ==> forall k | 0 <= k < |p| :: HasIssue(p[k].info))
    && (forall i, j | 0 <= i < j < |p| :: !Clash(p[i].info.issueNumber, p[j].info.issueNumber))
  }

  predicate PathsOk(paths: seq<LinkPath>) {
    forall q | 0 <= q < |paths| :: PathOk(paths[q])
  }

  /** The path that takes a group stays well formed with it at its end. */
  lemma AppendOk(p: LinkPath, g: Group)
    requires PathOk(p) && Takes(p, g.info, false)
    requires !IsSpecial(g.info) && HasIssue(g.info)
    ensures PathOk(p + [g])
  {
    var p' := p + [g];
    assert !Blocks(p[0].info, g.info, false);
    forall i, j | 0 <= i < j < |p'|
      ensures !Clash(p'[i].info.issueNumber, p'[j].info.issueNumber)
    {
      if j == |p| {
        assert !Blocks(p[i].info, g.info, false);
      }
    }
  }

  /** Adding a group keeps every path well formed. */
  lemma AddGroupOk(paths: seq<LinkPath>, desc: string, links: map<string, seq<string>>,
                   title: string, volumeNumber: int, extract: string -> GroupInfo)
    requires forall k | k in links :: k in Preference
    requires PathsOk(paths)
    ensures PathsOk(AddGroup(paths, desc, links, title, volumeNumber, extract, false))
  {
    var info := extract(desc);
    if Admitted(info, title, volumeNumber) && !IsSpecial(info) {
      var g := Group(info, OrderSources(links));
      match FirstTaking(paths, info, false)
      case Some(i) =>
        AppendOk(paths[i], g);
      case None =>
    }
  }

  /** Every path built with the corrected test is well formed: no two
      downloads of a path cover a common issue, and a special version is
      downloaded on its own. */
  lemma {:induction false} BuildPathsOk(page: Page, title: string, volumeNumber: int, extract: string -> GroupInfo)
    requires KnownSources(page)
    ensures PathsOk(BuildPaths(page, title, volumeNumber, extract, false))
    decreases |page|
  {
    if |page| > 0 {
      var front := page[..|page| - 1];
      assert KnownSources(front) by {
        forall i | 0 <= i < |front| ensures forall k | k in front[i].1 :: k in Preference {
          assert front[i] == page[i];
        }
      }
      BuildPathsOk(front, title, volumeNumber, extract);
      var last := page[|page| - 1];
      AddGroupOk(BuildPaths(front, title, volumeNumber, extract, false), last.0, last.1, title, volumeNumber, extract);
    }
  }

  /** All the groups of the paths, path after path. */
  function Flatten(paths: seq<LinkPath>): seq<Group> {
    if |paths| == 0 then [] else paths[0] + Flatten(paths[1..])
  }

  lemma {:induction false} FlattenAppend(paths: seq<LinkPath>, p: LinkPath)
    ensures multiset(Flatten(paths + [p])) == multiset(Flatten(paths)) + multiset(p)
    decreases |paths|
  {
    if |paths| == 0 {
      assert Flatten([p]) == p + Flatten([]);
    } else {
      assert (paths + [p])[1..] == paths[1..] + [p];
      FlattenAppend(paths[1..], p);
    }
  }

  lemma {:induction false} FlattenUpdate(paths: seq<LinkPath>, i: nat, g: Group)
    requires i < |paths|
    ensures multiset(Flatten(paths[i := paths[i] + [g]])) == multiset(Flatten(paths)) + multiset{g}
    decreases |paths|
  {
    if i > 0 {
      assert paths[i := paths[i] + [g]][1..] == paths[1..][i - 1 := paths[1..][i - 1] + [g]];
      FlattenUpdate(paths[1..], i - 1, g);
    }
  }

  /** The wanted groups of a page, in page order, their sources ordered. */
  function Wanted(page: Page, title: string, volumeNumber: int, extract: string -> GroupInfo): seq<Group>
    requires KnownSources(page)
  {
    if |page| == 0 then []
    else
      var front := page[..|page| - 1];
      assert KnownSources(front) by {
        forall i | 0 <= i < |front| ensures forall k | k in front[i].1 :: k in Preference {
          assert front[i] == page[i];
        }
      }
      var last := page[|page| - 1];
      var info := extract(last.0);
      var rest := Wanted(front, title, volumeNumber, extract);
      if Admitted(info, title, volumeNumber) then rest + [Group(info, OrderSources(last.1))] else rest
  }

  /** Every wanted group lands in exactly one path, and nothing else does. */
  lemma {:induction false} BuildPathsKeepsGroups(page: Page, title: string, volumeNumber: int,
                                                 extract: string -> GroupInfo, asWritten: bool)
    requires KnownSources(page)
    ensures multiset(Flatten(BuildPaths(page, title, volumeNumber, extract, asWritten)))
            == multiset(Wanted(page, title, volumeNumber, extract))
    decreases |page|
  {
    if |page| > 0 {
      var front := page[..|page| - 1];
      assert KnownSources(front) by {
        forall i | 0 <= i < |front| ensures forall k | k in front[i].1 :: k in Preference {
          assert front[i] == page[i];
        }
      }
      BuildPathsKeepsGroups(front, title, volumeNumber, extract, asWritten);
      var before := BuildPaths(front, title, volumeNumber, extract, asWritten);
      var last := page[|page| - 1];
      var info := extract(last.0);
      if Admitted(info, title, volumeNumber) {
        var g := Group(info, OrderSources(last.1));
        if IsSpecial(info) {
          FlattenAppend(before, [g]);
        } else {
          match FirstTaking(before, info, asWritten)
          case Some(i) => FlattenUpdate(before, i, g);
          case None => FlattenAppend(before, [g]);
        }
      }
    }
  }

  /** The test as written lets a range join a path whose entry lies strictly
      inside it: with an entry for issues 2-3 in a path, a group for issues
      1-4 joins that path, so the path downloads issues 2 and 3 twice; the
      corrected test starts a new path for it. */
  lemma ContainingGroupJoinsAsWritten()
    ensures
      var e := Group(GroupInfo("x", NoVolumeNumber, None, Files.Several([2.0, 3.0])), []);
      var g := Group(GroupInfo("x", NoVolumeNumber, None, Files.Several([1.0, 4.0])), []);
      Place([[e]], g, true) == [[e, g]] && !PathOk([e, g])
      && Place([[e]], g, false) == [[e], [g]]
  {
    var e := Group(GroupInfo("x", NoVolumeNumber, None, Files.Several([2.0, 3.0])), []);
    var g := Group(GroupInfo("x", NoVolumeNumber, None, Files.Several([1.0, 4.0])), []);
    assert !Blocks(e.info, g.info, true);
    assert Takes([e], g.info, true);
    assert Blocks([e][0].info, g.info, false);
    assert Clash([e, g][0].info.issueNumber, [e, g][1].info.issueNumber);
    assert FirstTaking([[e]], g.info, true) == Some(0);
    assert [e] + [g] == [e, g];
    assert [[e]][0 := [e] + [g]] == [[e, g]];
    assert !Takes([[e]][0], g.info, false);
    assert FirstTaking([[e]], g.info, false) == None;
  }

  // ---------------------------------------------------------------------
  // the loops of `_process_extracted_get_comics_links` (corrected test)
  // ---------------------------------------------------------------------

  /** The inner loops over the paths and their entries: the first path no
      entry of which blocks the group. */
  method FindPath(paths: seq<LinkPath>, g: GroupInfo) returns (at: Option<nat>)
    ensures at == FirstTaking(paths, g, false)
  {
    var q := 0;
    while q < |paths|
      invariant 0 <= q <= |paths|
      invariant forall k | 0 <= k < q :: !Takes(paths[k], g, false)
    {
      var k := 0;
      var blocked := false;
      while k < |paths[q]| && !blocked
        invariant 0 <= k <= |paths[q]|
        decreases |paths[q]| - k, if blocked then 0 else 1
        invariant blocked ==> !Takes(paths[q], g, false)
        invariant !blocked ==> forall e | 0 <= e < k :: !Blocks(paths[q][e].info, g, false)
      {
        if Blocks(paths[q][k].info, g, false) {
          blocked := true;
        } else {
          k := k + 1;
        }
      }
      if !blocked {
        return Some(q);
      }
      q := q + 1;
    }
    return None;
  }

  /** `_sort_link_paths`: 0 for a path of a special version, else one over
      the number of entries (paths are never empty). */
  function PathKey(p: LinkPath): seq<real> {
    if |p| == 0 then [0.0]
    else if IsSpecial(p[0].info) then [0.0]
    else [1.0 / (|p| as real)]
  }

  /** One more group of the page is added to the paths of the groups before
      it. */
  lemma BuildPathsStep(page: Page, n: nat, title: string, volumeNumber: int, extract: string -> GroupInfo)
    requires n < |page| && KnownSources(page)
    ensures KnownSources(page[..n + 1])
    ensures BuildPaths(page[..n + 1], title, volumeNumber, extract, false) ==
      AddGroup(BuildPaths(page[..n], title, volumeNumber, extract, false), page[n].0, page[n].1,
               title, volumeNumber, extract, false)
  {
    var front := page[..n + 1];
    assert front[..n] == page[..n];
    assert KnownSources(front) by {
      forall i | 0 <= i < |front| ensures forall k | k in front[i].1 :: k in Preference {
        assert front[i] == page[i];
      }
    }
  }

  /** The body of the loop over the link groups: one group added to the
      paths built so far. */
  method AddOne(built: seq<LinkPath>, desc: string, links: map<string, seq<string>>,
                title: string, volumeNumber: int, extract: string -> GroupInfo)
    returns (r: seq<LinkPath>)
    requires forall k | k in links :: k in Preference
    ensures r == AddGroup(built, desc, links, title, volumeNumber, extract, false)
  {
    r := built;
    var info := extract(desc);
    if Admitted(info, title, volumeNumber) {
      var g := Group(info, OrderSources(links));
      if IsSpecial(info) {
        r := built + [[g]];
      } else {
        var at := FindPath(built, info);
        match at {
          case Some(i) => r := built[i := built[i] + [g]];
          case None => r := built + [[g]];
        }
      }
    }
  }

  /** `_process_extracted_get_comics_links`, with the corrected conflict
      test: the wanted groups of the page arranged into paths, sorted. */
  method ProcessExtracted(page: Page, title: string, volumeNumber: int, extract: string -> GroupInfo)
    returns (paths: seq<LinkPath>)
    requires KnownSources(page)
    ensures paths == SortBy(BuildPaths(page, title, volumeNumber, extract, false), PathKey)
  {
    var built: seq<LinkPath> := [];
    var n := 0;
    while n < |page|
      invariant 0 <= n <= |page|
      invariant KnownSources(page[..n])
      invariant built == BuildPaths(page[..n], title, volumeNumber, extract, false)
    {
      BuildPathsStep(page, n, title, volumeNumber, extract);
      built := AddOne(built, page[n].0, page[n].1, title, volumeNumber, extract);
      n := n + 1;
    }
    assert page[..|page|] == page;
    paths := SortBy(built, PathKey);
  }

  /** Sorting keeps the paths well formed. */
  lemma SortedPathsOk(paths: seq<LinkPath>)
    requires PathsOk(paths)
    ensures PathsOk(SortBy(paths, PathKey))
  {
    var r := SortBy(paths, PathKey);
    SortByPermutes(paths, PathKey);
    forall q | 0 <= q < |r| ensures PathOk(r[q]) {
      assert r[q] in multiset(paths);
      var k :| 0 <= k < |paths| && paths[k] == r[q];
    }
  }

  /** One over a count is antitone. */
  lemma ReciprocalOrder(a: nat, b: nat)
    requires 0 < a && 0 < b
    ensures 1.0 / (a as real) <= 1.0 / (b as real) <==> b <= a
  {
    var x := 1.0 / (a as real);
    var y := 1.0 / (b as real);
    assert x * (a as real) == 1.0;
    assert y * (b as real) == 1.0;
    assert x > 0.0 && y > 0.0;
    if b <= a {
      assert y * (a as real) >= y * (b as real);
      assert (y - x) * (a as real) >= 0.0;
    } else {
      assert x * (b as real) > x * (a as real);
      assert (x - y) * (b as real) > 0.0;
    }
  }

  /** In the sorted paths the special versions come first, and among the
      others a longer path comes before a shorter one. */
  lemma SortedPathsOrder(paths: seq<LinkPath>)
    requires PathsOk(paths) && SortedBy(paths, PathKey)
    ensures forall i, j | 0 <= i < j < |paths| :: IsSpecial(paths[j][0].info) ==> IsSpecial(paths[i][0].info)
    ensures forall i, j | 0 <= i < j < |paths| :: !IsSpecial(paths[i][0].info) ==> |paths[j]| <= |paths[i]|
  {
    forall i, j | 0 <= i < j < |paths|
      ensures IsSpecial(paths[j][0].info) ==> IsSpecial(paths[i][0].info)
      ensures !IsSpecial(paths[i][0].info) ==> |paths[j]| <= |paths[i]|
    {
      assert PathOk(paths[i]) && PathOk(paths[j]);
      assert LexLe(PathKey(paths[i]), PathKey(paths[j]));
      if !IsSpecial(paths[i][0].info) {
        assert 0.0 < 1.0 / (|paths[i]| as real);
        if !IsSpecial(paths[j][0].info) {
          ReciprocalOrder(|paths[i]|, |paths[j]|);
        }
      }
    }
  }

  /** What `_process_extracted_get_comics_links` promises: every wanted
      group is in exactly one path, the downloads of a path never cover an
      issue twice, a special version is alone in its path, and the special
      paths come first, then the longer paths. */
  lemma ProcessedPaths(page: Page, title: string, volumeNumber: int, extract: string -> GroupInfo)
    requires KnownSources(page)
    ensures var paths := SortBy(BuildPaths(page, title, volumeNumber, extract, false), PathKey);
      multiset(Flatten(paths)) == multiset(Wanted(page, title, volumeNumber, extract))
      && PathsOk(paths)
      && (forall i, j | 0 <= i < j < |paths| :: IsSpecial(paths[j][0].info) ==> IsSpecial(paths[i][0].info))
      && (forall i, j | 0 <= i < j < |paths| :: !IsSpecial(paths[i][0].info) ==> |paths[j]| <= |paths[i]|)
  {
    var built := BuildPaths(page, title, volumeNumber, extract, false);
    var paths := SortBy(built, PathKey);
    BuildPathsOk(page, title, volumeNumber, extract);
    BuildPathsKeepsGroups(page, title, volumeNumber, extract, false);
    SortedPathsOk(built);
    SortedPathsOrder(paths);
    SortByPermutes(built, PathKey);
    FlattenPermutes(built, paths);
  }

  /** Reordering the paths reorders their groups. */
  lemma {:induction false} FlattenPermutes(a: seq<LinkPath>, b: seq<LinkPath>)
    requires multiset(a) == multiset(b)
    ensures multiset(Flatten(a)) == multiset(Flatten(b))
    decreases |a|
  {
    if |a| == 0 {
      assert |b| == |multiset(b)| == 0;
    } else {
      var p := a[0];
      assert p in multiset(b);
      var k :| 0 <= k < |b| && b[k] == p;
      var b' := b[..k] + b[k + 1..];
      assert b == b[..k] + [p] + b[k + 1..];
      assert multiset(a[1..]) == multiset(b') by {
        assert a == [p] + a[1..];
        assert multiset(a) == multiset{p} + multiset(a[1..]);
        assert multiset(b) == multiset(b[..k]) + multiset{p} + multiset(b[k + 1..]);
        assert multiset(b') == multiset(b[..k]) + multiset(b[k + 1..]);
        forall x ensures multiset(a[1..])[x] == multiset(b')[x] {
          assert multiset(a)[x] == multiset{p}[x] + multiset(a[1..])[x];
          assert multiset(b)[x] == multiset(b[..k])[x] + multiset{p}[x] + multiset(b[k + 1..])[x];
        }
      }
      FlattenPermutes(a[1..], b');
      FlattenRemove(b, k);
    }
  }

  /** The groups of all paths but one, and those of that one. */
  lemma {:induction false} FlattenRemove(b: seq<LinkPath>, k: nat)
    requires k < |b|
    ensures multiset(Flatten(b)) == multiset(b[k]) + multiset(Flatten(b[..k] + b[k + 1..]))
    decreases |b|
  {
    if k > 0 {
      assert (b[..k] + b[k + 1..])[1..] == b[1..][..k - 1] + b[1..][k..];
      assert (b[..k] + b[k + 1..])[0] == b[0];
      FlattenRemove(b[1..], k - 1);
    } else {
      assert b[..k] + b[k + 1..] == b[1..];
    }
  }

  // ---------------------------------------------------------------------
  // `_test_paths`: the first path that works
  // ---------------------------------------------------------------------

  /** The file name a download of the group is given: the TPB name, the
      name of an issue range, or the name of the single issue. */
  datatype NameRequest = TpbName | IssueRangeName(first: real, last: real) | IssueName

  function NameFor(info: GroupInfo): NameRequest {
    if IsSpecial(info) then TpbName
    else if info.issueNumber.Several? && |info.issueNumber.values| >= 2 then
      IssueRangeName(info.issueNumber.values[0], info.issueNumber.values[1])
    else IssueName
  }

  /** A download that was set up: its name and the page link it came from. */
  datatype Chosen = Chosen(name: NameRequest, link: string)

  /** The links of a group, source after source. */
  function Links(sources: seq<(string, seq<string>)>): seq<string> {
    if |sources| == 0 then [] else Links(sources[..|sources| - 1]) + sources[|sources| - 1].1
  }

  lemma {:induction false} LinksAppend(a: seq<(string, seq<string>)>, b: seq<(string, seq<string>)>)
    ensures Links(a + b) == Links(a) + Links(b)
    decreases |b|
  {
    if |b| == 0 {
      assert a + b == a;
    } else {
      assert (a + b)[..|a + b| - 1] == a + b[..|b| - 1];
      LinksAppend(a, b[..|b| - 1]);
    }
  }

  /** Trying the links in order: the first one that can be set up, and the
      links found broken before it with the reason they were blocklisted
      for. `broken(l)` is the reason `_purify_link` or the download's set-up
      raised `LinkBroken` with, or None when a download could be set up. */
  function FirstWorking(links: seq<string>, broken: string -> Option<int>): (r: (Option<string>, seq<(string, int)>))
    ensures r.0.Some? ==> r.0.value in links && broken(r.0.value).None?
    ensures r.0.None? ==> forall k | 0 <= k < |links| :: broken(links[k]).Some?
    ensures forall k | 0 <= k < |r.1| :: r.1[k].0 in links && broken(r.1[k].0) == Some(r.1[k].1)
    ensures |r.1| <= |links|
  {
    if |links| == 0 then (None, [])
    else match broken(links[0])
      case None => (Some(links[0]), [])
      case Some(reason) =>
        var rest := FirstWorking(links[1..], broken);
        assert forall k | 1 <= k < |links| :: links[k] == links[1..][k - 1];
        (rest.0, [(links[0], reason)] + rest.1)
  }

  /** One more source adds its links at the end. */
  lemma LinksSnoc(sources: seq<(string, seq<string>)>, i: nat)
    requires i < |sources|
    ensures Links(sources[..i + 1]) == Links(sources[..i]) + sources[i].1
  {
    assert sources[..i + 1][..i] == sources[..i];
  }

  /** The links of the sources are those of the sources before `k` followed
      by those from `k` on. */
  lemma LinksSplit(sources: seq<(string, seq<string>)>, k: nat)
    requires k <= |sources|
    ensures Links(sources) == Links(sources[..k]) + Links(sources[k..])
  {
    assert sources[..k] + sources[k..] == sources;
    LinksAppend(sources[..k], sources[k..]);
  }

  /** Trying a run of broken links first changes only what is blocklisted. */
  lemma {:induction false} FirstWorkingSplit(xs: seq<string>, ys: seq<string>, broken: string -> Option<int>)
    requires FirstWorking(xs, broken).0.None?
    ensures FirstWorking(xs + ys, broken) ==
      (FirstWorking(ys, broken).0, FirstWorking(xs, broken).1 + FirstWorking(ys, broken).1)
    decreases |xs|
  {
    if |xs| == 0 {
      assert xs + ys == ys;
      assert FirstWorking(xs, broken).1 == [];
      assert [] + FirstWorking(ys, broken).1 == FirstWorking(ys, broken).1;
    } else {
      assert broken(xs[0]).Some?;
      var reason := broken(xs[0]).value;
      var front, back := FirstWorking(xs[1..], broken), FirstWorking(ys, broken);
      assert FirstWorking(xs, broken) == (front.0, [(xs[0], reason)] + front.1);
      FirstWorkingSplit(xs[1..], ys, broken);
      var rest := FirstWorking(xs[1..] + ys, broken);
      assert FirstWorking(xs + ys, broken) == (rest.0, [(xs[0], reason)] + rest.1) by {
        assert (xs + ys)[0] == xs[0];
        assert (xs + ys)[1..] == xs[1..] + ys;
      }
      ConsAssoc((xs[0], reason), front.1, back.1);
    }
  }

  /** An element in front of two joined sequences. */
  lemma ConsAssoc<T>(x: T, a: seq<T>, b: seq<T>)
    ensures [x] + (a + b) == ([x] + a) + b
  {
  }

  /** Links after a working one are never tried. */
  lemma {:induction false} FirstWorkingFound(xs: seq<string>, ys: seq<string>, broken: string -> Option<int>)
    requires FirstWorking(xs, broken).0.Some?
    ensures FirstWorking(xs + ys, broken) == FirstWorking(xs, broken)
    decreases |xs|
  {
    assert (xs + ys)[0] == xs[0];
    assert (xs + ys)[1..] == xs[1..] + ys;
    if broken(xs[0]).Some? {
      FirstWorkingFound(xs[1..], ys, broken);
    }
  }

  /** A broken link after broken ones adds itself to what is blocklisted. */
  lemma FirstWorkingBlocked(links: seq<string>, j: nat, broken: string -> Option<int>)
    requires j < |links| && FirstWorking(links[..j], broken).0.None? && broken(links[j]).Some?
    ensures FirstWorking(links[..j + 1], broken) ==
      (None, FirstWorking(links[..j], broken).1 + [(links[j], broken(links[j]).value)])
  {
    var l := links[j];
    FirstWorkingSplit(links[..j], [l], broken);
    assert links[..j + 1] == links[..j] + [l];
    assert [l][1..] == [] && [l][0] == l;
    assert FirstWorking([l][1..], broken) == (None, []);
    assert FirstWorking([l], broken) == (None, [(l, broken(l).value)] + []);
    assert [(l, broken(l).value)] + [] == [(l, broken(l).value)];
  }

  /** A working link after broken ones is the one found. */
  lemma FirstWorkingAt(links: seq<string>, j: nat, broken: string -> Option<int>)
    requires j < |links| && FirstWorking(links[..j], broken).0.None? && broken(links[j]).None?
    ensures FirstWorking(links, broken) == (Some(links[j]), FirstWorking(links[..j], broken).1)
  {
    assert links == links[..j] + links[j..];
    assert links[j..][0] == links[j];
    FirstWorkingSplit(links[..j], links[j..], broken);
    assert FirstWorking(links[..j], broken).1 + [] == FirstWorking(links[..j], broken).1;
  }

  /** The links of one more source, after sources whose links are all
      broken. */
  lemma SourceStep(sources: seq<(string, seq<string>)>, i: nat, broken: string -> Option<int>)
    requires i < |sources| && FirstWorking(Links(sources[..i]), broken).0.None?
    ensures FirstWorking(Links(sources[..i + 1]), broken) ==
      (FirstWorking(sources[i].1, broken).0,
       FirstWorking(Links(sources[..i]), broken).1 + FirstWorking(sources[i].1, broken).1)
  {
    LinksSnoc(sources, i);
    FirstWorkingSplit(Links(sources[..i]), sources[i].1, broken);
  }

  /** A source with a working link, after sources whose links are all
      broken, ends the search of the group. */
  lemma SourceFound(sources: seq<(string, seq<string>)>, i: nat, broken: string -> Option<int>)
    requires i < |sources| && FirstWorking(Links(sources[..i]), broken).0.None?
    requires FirstWorking(sources[i].1, broken).0.Some?
    ensures FirstWorking(Links(sources), broken) ==
      (FirstWorking(sources[i].1, broken).0,
       FirstWorking(Links(sources[..i]), broken).1 + FirstWorking(sources[i].1, broken).1)
  {
    var links := sources[i].1;
    LinksSplit(sources, i + 1);
    LinksSnoc(sources, i);
    FoundInMiddle(Links(sources[..i]), links, Links(sources[i + 1..]), broken);
  }

  /** A working link in the middle run of links is found after the broken
      links before it, and nothing after it is tried. */
  lemma FoundInMiddle(xs: seq<string>, ys: seq<string>, zs: seq<string>, broken: string -> Option<int>)
    requires FirstWorking(xs, broken).0.None? && FirstWorking(ys, broken).0.Some?
    ensures FirstWorking(xs + ys + zs, broken) ==
      (FirstWorking(ys, broken).0, FirstWorking(xs, broken).1 + FirstWorking(ys, broken).1)
  {
    assert xs + ys + zs == xs + (ys + zs);
    FirstWorkingFound(ys, zs, broken);
    FirstWorkingSplit(xs, ys + zs, broken);
  }

  /** The loop over the links of one source. */
  method TrySource(links: seq<string>, broken: string -> Option<int>)
    returns (found: Option<string>, blocked: seq<(string, int)>)
    ensures (found, blocked) == FirstWorking(links, broken)
  {
    blocked := [];
    var j := 0;
    while j < |links|
      invariant 0 <= j <= |links|
      invariant FirstWorking(links[..j], broken) == (None, blocked)
    {
      var l := links[j];
      match broken(l) {
        case Some(reason) =>
          FirstWorkingBlocked(links, j, broken);
          blocked := blocked + [(l, reason)];
        case None =>
          FirstWorkingAt(links, j, broken);
          return Some(l), blocked;
      }
      j := j + 1;
    }
    assert links[..j] == links;
    return None, blocked;
  }

  /** The loop over the sources of a group. */
  method TryGroup(sources: seq<(string, seq<string>)>, broken: string -> Option<int>)
    returns (found: Option<string>, blocked: seq<(string, int)>)
    ensures (found, blocked) == FirstWorking(Links(sources), broken)
  {
    blocked := [];
    var i := 0;
    while i < |sources|
      invariant 0 <= i <= |sources|
      invariant FirstWorking(Links(sources[..i]), broken) == (None, blocked)
    {
      var links := sources[i].1;
      var f, tried := TrySource(links, broken);
      SourceStep(sources, i, broken);
      if f.Some? {
        SourceFound(sources, i, broken);
        return f, blocked + tried;
      }
      blocked := blocked + tried;
      i := i + 1;
    }
    assert sources[..i] == sources;
    return None, blocked;
  }

  /** What trying one path gives: whether it was abandoned, the downloads
      set up before that point, and the links blocklisted on the way. */
  datatype PathRun = PathRun(abandoned: bool, downloads: seq<Chosen>, blocked: seq<(string, int)>)

  /** One path, group after group: a group with a working link adds a
      download, a special version without one abandons the path, any other
      group without one is skipped. */
  function RunPath(path: LinkPath, broken: string -> Option<int>): (r: PathRun)
    ensures forall k | 0 <= k < |r.downloads| :: broken(r.downloads[k].link).None?
    ensures forall k | 0 <= k < |r.blocked| :: broken(r.blocked[k].0) == Some(r.blocked[k].1)
    ensures |r.downloads| <= |path|
  {
    if |path| == 0 then PathRun(false, [], [])
    else
      var tried := FirstWorking(Links(path[0].sources), broken);
      if tried.0.Some? then
        var rest := RunPath(path[1..], broken);
        PathRun(rest.abandoned, [Chosen(NameFor(path[0].info), tried.0.value)] + rest.downloads, tried.1 + rest.blocked)
      else if IsSpecial(path[0].info) then PathRun(true, [], tried.1)
      else
        var rest := RunPath(path[1..], broken);
        PathRun(rest.abandoned, rest.downloads, tried.1 + rest.blocked)
  }

  /** A group whose links all fail, as `_test_paths` sees it. */
  predicate Dead(g: Group, broken: string -> Option<int>) {
    FirstWorking(Links(g.sources), broken).0.None?
  }

  /** A path is abandoned exactly when one of its special versions has no
      working link; dead groups without a special version are skipped. */
  lemma {:induction false} AbandonedIff(path: LinkPath, broken: string -> Option<int>)
    ensures RunPath(path, broken).abandoned <==>
      exists k | 0 <= k < |path| :: IsSpecial(path[k].info) && Dead(path[k], broken)
    decreases |path|
  {
    if |path| > 0 {
      AbandonedIff(path[1..], broken);
      assert forall k | 1 <= k < |path| :: path[k] == path[1..][k - 1];
      if !(IsSpecial(path[0].info) && Dead(path[0], broken)) {
        if exists k | 0 <= k < |path| :: IsSpecial(path[k].info) && Dead(path[k], broken) {
          var k :| 0 <= k < |path| && IsSpecial(path[k].info) && Dead(path[k], broken);
          assert k > 0 && path[1..][k - 1] == path[k];
        }
      }
    }
  }

  /** A run with downloads and blocked links found before it put in front. */
  function Prefixed(r: PathRun, downloads: seq<Chosen>, blocked: seq<(string, int)>): PathRun {
    PathRun(r.abandoned, downloads + r.downloads, blocked + r.blocked)
  }

  /** One turn of the path loop: trying group `k` carries the run of the
      path from `k` on over to the run from `k + 1` on, or ends the path. */
  lemma RunPathStep(path: LinkPath, k: nat, broken: string -> Option<int>,
                    downloads: seq<Chosen>, blocked: seq<(string, int)>,
                    found: Option<string>, tried: seq<(string, int)>)
    requires k < |path|
    requires (found, tried) == FirstWorking(Links(path[k].sources), broken)
    ensures found.Some? ==>
      Prefixed(RunPath(path[k..], broken), downloads, blocked) ==
      Prefixed(RunPath(path[k + 1..], broken), downloads + [Chosen(NameFor(path[k].info), found.value)], blocked + tried)
    ensures found.None? && !IsSpecial(path[k].info) ==>
      Prefixed(RunPath(path[k..], broken), downloads, blocked) ==
      Prefixed(RunPath(path[k + 1..], broken), downloads, blocked + tried)
    ensures found.None? && IsSpecial(path[k].info) ==>
      Prefixed(RunPath(path[k..], broken), downloads, blocked) == PathRun(true, downloads, blocked + tried)
  {
    assert path[k..][0] == path[k] && path[k..][1..] == path[k + 1..];
    var rest := RunPath(path[k + 1..], broken);
    assert blocked + (tried + rest.blocked) == blocked + tried + rest.blocked;
    if found.Some? {
      var c := Chosen(NameFor(path[k].info), found.value);
      assert downloads + ([c] + rest.downloads) == downloads + [c] + rest.downloads;
    } else if IsSpecial(path[k].info) {
      assert downloads + [] == downloads;
    }
  }

  /** The loop over the groups of one path. */
  method RunPathLoop(path: LinkPath, broken: string -> Option<int>)
    returns (abandoned: bool, downloads: seq<Chosen>, blocked: seq<(string, int)>)
    ensures PathRun(abandoned, downloads, blocked) == RunPath(path, broken)
  {
    downloads := [];
    blocked := [];
    var k := 0;
    assert Prefixed(RunPath(path[0..], broken), [], []) == RunPath(path, broken) by {
      assert path[0..] == path;
    }
    while k < |path|
      invariant 0 <= k <= |path|
      invariant RunPath(path, broken) == Prefixed(RunPath(path[k..], broken), downloads, blocked)
    {
      var g := path[k];
      var found, tried := TryGroup(g.sources, broken);
      RunPathStep(path, k, broken, downloads, blocked, found, tried);
      blocked := blocked + tried;
      if found.Some? {
        downloads := downloads + [Chosen(NameFor(g.info), found.value)];
      } else if IsSpecial(g.info) {
        return true, downloads, blocked;
      }
      k := k + 1;
    }
    assert path[k..] == [];
    assert downloads + [] == downloads && blocked + [] == blocked;
    return false, downloads, blocked;
  }

  /** `_test_paths` as a function: the downloads of the first path that is
      not abandoned, or none, and every link blocklisted up to there. */
  function TestPathsSpec(paths: seq<LinkPath>, broken: string -> Option<int>): (r: (seq<Chosen>, seq<(string, int)>))
    ensures forall k | 0 <= k < |r.0| :: broken(r.0[k].link).None?
    ensures forall k | 0 <= k < |r.1| :: broken(r.1[k].0) == Some(r.1[k].1)
  {
    if |paths| == 0 then ([], [])
    else
      var run := RunPath(paths[0], broken);
      if !run.abandoned then (run.downloads, run.blocked)
      else
        var rest := TestPathsSpec(paths[1..], broken);
        (rest.0, run.blocked + rest.1)
  }

  /** `_test_paths`: the paths in order until one is not abandoned. */
  method TestPaths(paths: seq<LinkPath>, broken: string -> Option<int>)
    returns (downloads: seq<Chosen>, blocked: seq<(string, int)>)
    ensures (downloads, blocked) == TestPathsSpec(paths, broken)
  {
    blocked := [];
    var q := 0;
    assert paths[0..] == paths;
    assert [] + TestPathsSpec(paths, broken).1 == TestPathsSpec(paths, broken).1;
    while q < |paths|
      invariant 0 <= q <= |paths|
      invariant TestPathsSpec(paths, broken) ==
        (TestPathsSpec(paths[q..], broken).0, blocked + TestPathsSpec(paths[q..], broken).1)
    {
      assert paths[q..][0] == paths[q] && paths[q..][1..] == paths[q + 1..];
      var abandoned, found, tried := RunPathLoop(paths[q], broken);
      ghost var before := blocked;
      blocked := blocked + tried;
      if !abandoned {
        return found, blocked;
      }
      assert before + (tried + TestPathsSpec(paths[q + 1..], broken).1)
          == blocked + TestPathsSpec(paths[q + 1..], broken).1;
      q := q + 1;
    }
    assert paths[q..] == [];
    assert blocked + [] == blocked;
    return [], blocked;
  }

  /** The downloads `_test_paths` returns are those of the first path not
      abandoned, and none when every path is abandoned. */
  lemma {:induction false} TestPathsFirstViable(paths: seq<LinkPath>, broken: string -> Option<int>)
    ensures (forall i | 0 <= i < |paths| :: RunPath(paths[i], broken).abandoned) ==>
      TestPathsSpec(paths, broken).0 == []
    ensures forall i | 0 <= i < |paths| ::
      (!RunPath(paths[i], broken).abandoned && forall j | 0 <= j < i :: RunPath(paths[j], broken).abandoned) ==>
        TestPathsSpec(paths, broken).0 == RunPath(paths[i], broken).downloads
    decreases |paths|
  {
    if |paths| > 0 {
      TestPathsFirstViable(paths[1..], broken);
      assert forall i | 1 <= i < |paths| :: paths[i] == paths[1..][i - 1];
      forall i | 0 <= i < |paths| &&
        !RunPath(paths[i], broken).abandoned && (forall j | 0 <= j < i :: RunPath(paths[j], broken).abandoned)
        ensures TestPathsSpec(paths, broken).0 == RunPath(paths[i], broken).downloads
      {
        if i > 0 {
          assert RunPath(paths[0], broken).abandoned;
          assert forall j | 0 <= j < i - 1 :: paths[1..][j] == paths[j + 1];
        }
      }
    }
  }

  // ---------------------------------------------------------------------
  // `DownloadHandler.remove`
  // ---------------------------------------------------------------------

  /** A queued download: its id and its state. */
  datatype QueuedDownload = QueuedDownload(id: int, state: DownloadState)

  /** The position of the first queued download with the id. */
  function FirstWithId(queue: seq<QueuedDownload>, id: int): (r: Option<nat>)
    ensures r.Some? ==> (r.value < |queue| && queue[r.value].id == id
      && forall k | 0 <= k < r.value :: queue[k].id != id)
    ensures r.None? ==> forall k | 0 <= k < |queue| :: queue[k].id != id
  {
    if |queue| == 0 then None
    else if queue[0].id == id then Some(0)
    else match FirstWithId(queue[1..], id)
      case None => None
      case Some(i) => Some(i + 1)
  }

  /** The queue after the removal of a download: the first entry with the
      id is stopped (marked canceled) when it is downloading, else taken out
      of the queue. */
  function AfterRemove(queue: seq<QueuedDownload>, id: int): seq<QueuedDownload> {
    match FirstWithId(queue, id)
      case None => queue
      case Some(i) =>
        if queue[i].state == Downloading then queue[i := queue[i].(state := Canceled)]
        else queue[..i] + queue[i + 1..]
  }

  /** The entries of other downloads, in queue order. */
  function Others(queue: seq<QueuedDownload>, id: int): seq<QueuedDownload> {
    if |queue| == 0 then []
    else if queue[0].id == id then Others(queue[1..], id)
    else [queue[0]] + Others(queue[1..], id)
  }

  lemma {:induction false} OthersAppend(a: seq<QueuedDownload>, b: seq<QueuedDownload>, id: int)
    ensures Others(a + b, id) == Others(a, id) + Others(b, id)
    decreases |a|
  {
    if |a| == 0 {
      assert a + b == b;
    } else {
      assert (a + b)[0] == a[0] && (a + b)[1..] == a[1..] + b;
      OthersAppend(a[1..], b, id);
    }
  }

  /** Removing a download leaves every other download where it was, and
      either stops the download (it stays, canceled) or takes one entry of
      it out. */
  lemma AfterRemoveSpec(queue: seq<QueuedDownload>, id: int)
    ensures Others(AfterRemove(queue, id), id) == Others(queue, id)
    ensures match FirstWithId(queue, id)
      case None => AfterRemove(queue, id) == queue
      case Some(i) =>
        if queue[i].state == Downloading then
          |AfterRemove(queue, id)| == |queue| && AfterRemove(queue, id)[i] == QueuedDownload(id, Canceled)
        else |AfterRemove(queue, id)| == |queue| - 1
  {
    match FirstWithId(queue, id)
    case None =>
    case Some(i) =>
      var r := AfterRemove(queue, id);
      assert queue == queue[..i] + [queue[i]] + queue[i + 1..];
      OthersAppend(queue[..i] + [queue[i]], queue[i + 1..], id);
      OthersAppend(queue[..i], [queue[i]], id);
      assert Others([queue[i]], id) == [] by {
        assert [queue[i]][1..] == [];
      }
      if queue[i].state == Downloading {
        assert r == queue[..i] + [queue[i].(state := Canceled)] + queue[i + 1..];
        OthersAppend(queue[..i] + [queue[i].(state := Canceled)], queue[i + 1..], id);
        OthersAppend(queue[..i], [queue[i].(state := Canceled)], id);
        assert Others([queue[i].(state := Canceled)], id) == [] by {
          assert [queue[i].(state := Canceled)][1..] == [];
        }
      } else {
        OthersAppend(queue[..i], queue[i + 1..], id);
      }
  }

  /** The download queue of the first implementation. */
  class DownloadHandler {
    /** The queued downloads, in order. */
    var queue: seq<QueuedDownload>
    /** The ids of the rows of the `download_queue` table. */
    var rows: set<int>

    constructor(rows0: set<int>)
      ensures queue == [] && rows == rows0
    {
      queue := [];
      rows := rows0;
    }

    /** `remove`: DownloadNotFound when no row had the id; otherwise the row
        is deleted and the first queued entry with the id is stopped or
        popped. */
    method Remove(id: int) returns (r: Result<()>)
      modifies this
      ensures id !in old(rows) ==> r == Err(DownloadNotFound) && rows == old(rows) && queue == old(queue)
      ensures id in old(rows) ==> r == Ok(()) && rows == old(rows) - {id} && queue == AfterRemove(old(queue), id)
    {
      if id !in rows {
        return Err(DownloadNotFound);
      }
      rows := rows - {id};
      var i := 0;
      while i < |queue|
        invariant 0 <= i <= |queue|
        invariant queue == old(queue)
        invariant forall k | 0 <= k < i :: queue[k].id != id
      {
        if queue[i].id == id {
          if queue[i].state == Downloading {
            queue := queue[i := queue[i].(state := Canceled)];
          } else {
            queue := queue[..i] + queue[i + 1..];
          }
          return Ok(());
        }
        i := i + 1;
      }
      return Ok(());
    }
  }
}
