/** The download queue of the newer downloader (`DownloadHandler`): which
    entry the download thread runs next, the duplicate guard of `add`, the
    text stored for the issues a download covers, looking up and removing
    entries, the outcome handling of a finished direct download, the polling
    loop of a torrent download and the selection of left-over files in the
    download folder. */
module DownloadQueue {
  import opened Common
  import opened Strings

  // ---------------------------------------------------------------------
  // entries
  // ---------------------------------------------------------------------

  /** The classes of queue entries the handler tells apart. MEGA downloads are
      direct downloads; torrent and usenet downloads are `ExternalDownload`s. */
  datatype Kind = Direct | Mega | Torrent | Usenet

  predicate IsExternal(k: Kind) {
    k == Torrent || k == Usenet
  }

  /** The issues a download covers: none known, one issue number or a range. */
  datatype Covered = NoIssues | OneIssue(number: real) | IssueRange(first: real, last: real)

  /** A queue entry, with the attributes the handler reads. */
  datatype Entry = Entry(
    id: int,
    kind: Kind,
    webLink: Option<string>,
    downloadLink: string,
    covered: Covered,
    state: DownloadState,
    files: seq<string>)

  /** The database hands out every id once. */
  predicate DistinctIds(q: seq<Entry>) {
    forall i, j | 0 <= i < j < |q| :: q[i].id != q[j].id
  }

  /** The position of the first entry with `id`, as the handler's loops find it. */
  function FindId(q: seq<Entry>, id: int): (r: Option<nat>)
    ensures r.Some? ==> r.value < |q| && q[r.value].id == id
    ensures r.Some? ==> forall j | 0 <= j < r.value :: q[j].id != id
    ensures r.None? ==> forall j | 0 <= j < |q| :: q[j].id != id
    decreases |q|
  {
    if |q| == 0 then None
    else if q[0].id == id then Some(0)
    else
      match FindId(q[1..], id)
      case None => None
      case Some(k) => Some(k + 1)
  }

  /** The first entry with the id is at `k` when no entry before it has the id. */
  lemma FindIdAt(q: seq<Entry>, id: int, k: nat)
    requires k < |q| && q[k].id == id
    requires forall j | 0 <= j < k :: q[j].id != id
    ensures FindId(q, id) == Some(k)
  {
  }

  /** `DownloadHandler.get_one`: the entry with the id, or `DownloadNotFound`. */
  function GetOne(q: seq<Entry>, id: int): (r: Result<Entry>)
    ensures r.Ok? <==> exists j | 0 <= j < |q| :: q[j].id == id
    ensures r.Ok? ==> r.value in q && r.value.id == id
    ensures r.Err? ==> r.error == DownloadNotFound
  {
    match FindId(q, id)
    case None => Err(DownloadNotFound)
    case Some(k) => Ok(q[k])
  }

  /** With distinct ids, `get_one` finds every entry by its own id. */
  lemma {:induction false} GetOneFindsEach(q: seq<Entry>, k: nat)
    requires DistinctIds(q) && k < |q|
    ensures GetOne(q, q[k].id) == Ok(q[k])
  {
    FindIdAt(q, q[k].id, k);
  }

  /** The entries of `q` that `keep` accepts, in order. */
  function Filter(q: seq<Entry>, keep: Entry -> bool): (r: seq<Entry>)
    ensures |r| <= |q|
    ensures forall x :: x in r <==> x in q && keep(x)
    ensures DistinctIds(q) ==> DistinctIds(r)
    decreases |q|
  {
    if |q| == 0 then []
    else
      var rest := Filter(q[1..], keep);
      if keep(q[0]) then
        assert DistinctIds(q) ==> forall x | x in rest :: x.id != q[0].id by {
          if DistinctIds(q) {
            forall x | x in rest ensures x.id != q[0].id {
              var j :| 0 <= j < |q[1..]| && q[1..][j] == x;
              assert q[j + 1] == x;
            }
          }
        }
        [q[0]] + rest
      else rest
  }

  /** The queue without the entry `id` (`self.queue.remove(download)`, with
      distinct ids). */
  function RemoveId(q: seq<Entry>, id: int): (r: seq<Entry>)
    ensures forall x :: x in r <==> x in q && x.id != id
    ensures DistinctIds(q) ==> DistinctIds(r)
  {
    Filter(q, (e: Entry) => e.id != id)
  }

  // ---------------------------------------------------------------------
  // `covered_issues` as stored in the database
  // ---------------------------------------------------------------------

  /** How Python writes a float as text (`str`) and reads text as a float
      (`float`, `None` where it raises `ValueError`). */
  datatype FloatText = FloatText(show: real -> string, read: string -> Option<real>)

  /** The two properties of `str` and `float` the stored text relies on:
      reading what was written gives the number back, and no comma is written. */
  ghost predicate Faithful(t: FloatText) {
    forall x: real :: t.read(t.show(x)) == Some(x) && ',' !in t.show(x)
  }

  /** The text `__prepare_downloads_for_queue` stores: a range as its two
      numbers joined by a comma, one issue as its number, nothing otherwise. */
  function EncodeCovered(c: Covered, t: FloatText): (r: Option<string>)
    ensures r.None? <==> c.NoIssues?
    ensures c.IssueRange? ==> ',' in r.value
  {
    match c
    case NoIssues => None
    case OneIssue(n) => Some(t.show(n))
    case IssueRange(a, b) =>
      var s := Join([t.show(a), t.show(b)], ',');
      assert [t.show(a), t.show(b)][1..] == [t.show(b)];
      assert Join([t.show(b)], ',') == t.show(b);
      assert s == t.show(a) + [','] + t.show(b);
      assert s[|t.show(a)|] == ',';
      Some(s)
  }

  /** `__load_downloads` reading the stored text back: nothing for `NULL`, the
      first two comma-separated numbers when there is a comma, else one number;
      a field that is not a number raises `ValueError`. */
  function DecodeCovered(text: Option<string>, t: FloatText): (r: Result<Covered>)
    ensures text.None? ==> r == Ok(NoIssues)
    ensures r.Err? ==> r.error == ValueError
    ensures r.Ok? && text.Some? ==> (r.value.IssueRange? <==> ',' in text.value)
  {
    match text
    case None => Ok(NoIssues)
    case Some(s) =>
      if ',' in s then
        var parts := Split(s, ',');
        CountMember(s, ',');
        match (t.read(parts[0]), t.read(parts[1]))
        case (Some(a), Some(b)) => Ok(IssueRange(a, b))
        case _ => Err(ValueError)
      else
        match t.read(s)
        case Some(n) => Ok(OneIssue(n))
        case None => Err(ValueError)
  }

  /** Stored covered issues read back as they were written. */
  lemma {:induction false} CoveredRoundTrip(c: Covered, t: FloatText)
    requires Faithful(t)
    ensures DecodeCovered(EncodeCovered(c, t), t) == Ok(c)
  {
    match c
    case NoIssues =>
    case OneIssue(n) =>
      assert t.read(t.show(n)) == Some(n) && ',' !in t.show(n);
    case IssueRange(a, b) =>
      assert ',' !in t.show(a) && ',' !in t.show(b);
      assert t.read(t.show(a)) == Some(a) && t.read(t.show(b)) == Some(b);
      SplitJoin([t.show(a), t.show(b)], ',');
  }

  // ---------------------------------------------------------------------
  // `_process_queue` and `link_in_queue`
  // ---------------------------------------------------------------------

  /** The position of the first entry that is not an `ExternalDownload`. */
  function FirstDirect(q: seq<Entry>): (r: Option<nat>)
    ensures r.Some? ==> r.value < |q| && !IsExternal(q[r.value].kind)
    ensures r.Some? ==> forall j | 0 <= j < r.value :: IsExternal(q[j].kind)
    ensures r.None? ==> forall j | 0 <= j < |q| :: IsExternal(q[j].kind)
    decreases |q|
  {
    if |q| == 0 then None
    else if !IsExternal(q[0].kind) then Some(0)
    else
      match FirstDirect(q[1..])
      case None => None
      case Some(k) => Some(k + 1)
  }

  /** The id of the entry the download thread runs after `_process_queue`,
      given the one it ran before. */
  function NextRunning(q: seq<Entry>, running: Option<int>): Option<int> {
    if |q| == 0 || running.Some? then running
    else
      match FirstDirect(q)
      case None => None
      case Some(k) => Some(q[k].id)
  }

  /** `_process_queue` keeps a running download, never starts an external
      download, starts the first direct entry when nothing runs, and may be
      called again without effect. */
  lemma {:induction false} NextRunningChoice(q: seq<Entry>, running: Option<int>)
    ensures running.Some? ==> NextRunning(q, running) == running
    ensures running.None? && NextRunning(q, running).Some? ==>
      exists k | 0 <= k < |q| :: q[k].id == NextRunning(q, running).value && !IsExternal(q[k].kind)
        && forall j | 0 <= j < k :: IsExternal(q[j].kind)
    ensures running.None? && NextRunning(q, running).None? ==>
      forall j | 0 <= j < |q| :: IsExternal(q[j].kind)
    ensures NextRunning(q, NextRunning(q, running)) == NextRunning(q, running)
  {
    if running.None? && |q| > 0 {
      match FirstDirect(q)
      case None =>
      case Some(k) =>
        assert q[k].id == NextRunning(q, running).value;
    }
  }

  /** An entry names the link as its web link or its download link. */
  predicate Mentions(e: Entry, link: string) {
    e.webLink == Some(link) || e.downloadLink == link
  }

  /** `link_in_queue`. */
  function LinkInQueue(q: seq<Entry>, link: string): (r: bool)
    ensures r <==> exists i | 0 <= i < |q| :: Mentions(q[i], link)
    decreases |q|
  {
    if |q| == 0 then false
    else
      var rest := LinkInQueue(q[1..], link);
      assert rest <==> exists i | 1 <= i < |q| :: Mentions(q[i], link) by {
        if rest {
          var i :| 0 <= i < |q[1..]| && Mentions(q[1..][i], link);
          assert q[i + 1] == q[1..][i];
        }
        if exists i | 1 <= i < |q| :: Mentions(q[i], link) {
          var i :| 1 <= i < |q| && Mentions(q[i], link);
          assert q[1..][i - 1] == q[i];
        }
      }
      Mentions(q[0], link) || rest
  }

  // ---------------------------------------------------------------------
  // adding
  // ---------------------------------------------------------------------

  /** Why a GetComics page gave no downloads (`FailReason`). */
  datatype FailReason = Broken | NoWorkingLinks | LimitReached | NoMatches

  /** What loading a GetComics page gave: its failure, or the downloads it
      offers (their ids not yet assigned). */
  datatype PageResult = PageFailed(reason: FailReason) | PageDownloads(downloads: seq<Entry>)

  /** The blocklist entry `add` records for a failed page, if any. */
  function BlocklistFor(reason: FailReason): (r: Option<BlocklistReason>)
    ensures r.Some? <==> reason == Broken || reason == NoWorkingLinks
    ensures reason == Broken ==> r == Some(LinkBrokenReason)
    ensures reason == NoWorkingLinks ==> r == Some(NoWorkingLinksReason)
  {
    match reason
    case Broken => Some(LinkBrokenReason)
    case NoWorkingLinks => Some(NoWorkingLinksReason)
    case _ => None
  }

  /** The largest row id of the `download_queue` table, 0 when it is empty.
      The table holds a row for exactly the entries of the queue: a row is
      inserted when its entry joins the queue, the queue is loaded from the
      table at start-up, and the row is deleted when its entry leaves. */
  function LastRowId(q: seq<Entry>): (m: int)
    ensures forall i | 0 <= i < |q| :: q[i].id <= m
    ensures |q| == 0 ==> m == 0
    ensures |q| > 0 ==> exists i | 0 <= i < |q| :: q[i].id == m
    decreases |q|
  {
    if |q| == 0 then 0
    else if |q| == 1 || q[0].id >= LastRowId(q[1..]) then q[0].id
    else LastRowId(q[1..])
  }

  /** The downloads as `__prepare_downloads_for_queue` leaves them: each gets
      the id SQLite's `lastrowid` reports for its insert, one more than the
      largest id present (the table has no AUTOINCREMENT, so the ids of
      deleted rows come back), in order, and starts queued. */
  function Prepared(ds: seq<Entry>, lastRowId: int): (r: seq<Entry>)
    ensures |r| == |ds|
    ensures forall k | 0 <= k < |r| :: r[k].id == lastRowId + k + 1 && r[k].state == Queued
    ensures forall k | 0 <= k < |r| :: r[k].webLink == ds[k].webLink && r[k].downloadLink == ds[k].downloadLink
  {
    seq(|ds|, k requires 0 <= k < |ds| => ds[k].(id := lastRowId + k + 1, state := Queued))
  }

  /** Once a page's downloads are in the queue, adding the page again is
      refused by the duplicate guard. */
  lemma {:induction false} AddedPageIsGuarded(q: seq<Entry>, link: string, ds: seq<Entry>, lastRowId: int)
    requires |ds| > 0
    requires forall k | 0 <= k < |ds| :: ds[k].webLink == Some(link)
    ensures LinkInQueue(q + Prepared(ds, lastRowId), link)
  {
    var r := Prepared(ds, lastRowId);
    assert (q + r)[|q|] == r[0];
    assert Mentions((q + r)[|q|], link);
  }

  // ---------------------------------------------------------------------
  // removing
  // ---------------------------------------------------------------------

  /** `stop()` leaves an entry canceled; one that was still queued leaves the
      queue at once unless it is a torrent, which only leaves its client. */
  predicate LeavesAtOnce(e: Entry) {
    e.state == Queued && e.kind != Torrent
  }

  /** The queue after `remove` found its entry at `k`. */
  function AfterRemove(q: seq<Entry>, k: nat): (r: seq<Entry>)
    requires k < |q|
    ensures LeavesAtOnce(q[k]) ==> |r| == |q| - 1 && forall j | k <= j < |r| :: r[j] == q[j + 1]
    ensures !LeavesAtOnce(q[k]) ==> |r| == |q| && r[k] == q[k].(state := Canceled)
    ensures !LeavesAtOnce(q[k]) ==> forall j | k < j < |r| :: r[j] == q[j]
    ensures forall j | 0 <= j < k :: r[j] == q[j]
  {
    if LeavesAtOnce(q[k]) then q[..k] + q[k + 1..]
    else q[k := q[k].(state := Canceled)]
  }

  /** `remove` keeps the ids distinct and hands out none. */
  lemma AfterRemoveIds(q: seq<Entry>, k: nat, bound: int)
    requires k < |q| && DistinctIds(q)
    requires forall j | 0 <= j < |q| :: q[j].id <= bound
    ensures DistinctIds(AfterRemove(q, k))
    ensures forall j | 0 <= j < |AfterRemove(q, k)| :: AfterRemove(q, k)[j].id <= bound
  {
    var r := AfterRemove(q, k);
    if LeavesAtOnce(q[k]) {
      forall a, b | 0 <= a < b < |r| ensures r[a].id != r[b].id {
        var a' := if a < k then a else a + 1;
        var b' := if b < k then b else b + 1;
        assert r[a] == q[a'] && r[b] == q[b'];
      }
      forall j | 0 <= j < |r| ensures r[j].id <= bound {
        assert r[j] == q[if j < k then j else j + 1];
      }
    } else {
      assert forall j | 0 <= j < |r| :: r[j].id == q[j].id;
    }
  }

  /** What `remove` leaves of each entry. */
  function Cancel(e: Entry): seq<Entry> {
    if LeavesAtOnce(e) then [] else [e.(state := Canceled)]
  }

  /** The queue after `remove_all`. */
  function CancelAll(q: seq<Entry>): seq<Entry>
    decreases |q|
  {
    if |q| == 0 then [] else Cancel(q[0]) + CancelAll(q[1..])
  }

  /** After `remove_all` every remaining entry is a canceled copy of one that
      was running or a queued torrent, and every such entry remains. */
  lemma {:induction false} CancelAllLeaves(q: seq<Entry>)
    ensures forall x | x in CancelAll(q) :: x.state == Canceled
    ensures forall x | x in CancelAll(q) :: exists e | e in q :: !LeavesAtOnce(e) && x == e.(state := Canceled)
    ensures forall e | e in q && !LeavesAtOnce(e) :: e.(state := Canceled) in CancelAll(q)
    decreases |q|
  {
    if |q| > 0 {
      CancelAllLeaves(q[1..]);
      assert CancelAll(q) == Cancel(q[0]) + CancelAll(q[1..]);
      forall e | e in q && !LeavesAtOnce(e) ensures e.(state := Canceled) in CancelAll(q) {
        if e != q[0] {
          assert e in q[1..];
        }
      }
    }
  }

  /** The ids `CancelAll` keeps are ids of the entries it was given. */
  lemma {:induction false} CancelAllIds(q: seq<Entry>)
    ensures forall x | x in CancelAll(q) :: exists j | 0 <= j < |q| :: q[j].id == x.id
    decreases |q|
  {
    if |q| > 0 {
      CancelAllIds(q[1..]);
      forall x | x in CancelAll(q) ensures exists j | 0 <= j < |q| :: q[j].id == x.id {
        if x in Cancel(q[0]) {
          assert q[0].id == x.id;
        } else {
          assert x in CancelAll(q[1..]);
          var j :| 0 <= j < |q[1..]| && q[1..][j].id == x.id;
          assert q[j + 1].id == x.id;
        }
      }
    }
  }

  /** One step of `remove_all`: with the entries from `m` on already removed,
      `remove` of entry `m - 1` finds it in place and removes it the same way. */
  lemma RemoveAllStep(snapshot: seq<Entry>, m: nat)
    requires 0 < m <= |snapshot| && DistinctIds(snapshot)
    ensures var q := snapshot[..m] + CancelAll(snapshot[m..]);
      FindId(q, snapshot[m - 1].id) == Some(m - 1)
      && AfterRemove(q, m - 1) == snapshot[..m - 1] + CancelAll(snapshot[m - 1..])
  {
    var tail := CancelAll(snapshot[m..]);
    var before := snapshot[..m - 1];
    var e := snapshot[m - 1];
    assert snapshot[..m] + tail == before + [e] + tail by {
      assert snapshot[..m] == before + [e];
    }
    assert CancelAll(snapshot[m - 1..]) == Cancel(e) + tail by {
      assert snapshot[m - 1..][1..] == snapshot[m..];
    }
    assert forall j | 0 <= j < |before| :: before[j].id != e.id by {
      forall j | 0 <= j < |before| ensures before[j].id != e.id {
        assert before[j] == snapshot[j];
      }
    }
    FindAfter(before, e, tail);
    RemoveInPlace(before, e, tail);
  }

  /** An entry whose id no entry before it has is found where it stands. */
  lemma FindAfter(before: seq<Entry>, e: Entry, after: seq<Entry>)
    requires forall j | 0 <= j < |before| :: before[j].id != e.id
    ensures FindId(before + [e] + after, e.id) == Some(|before|)
  {
    var q := before + [e] + after;
    forall j | 0 <= j < |before| ensures q[j].id != e.id {
      assert q[j] == before[j];
    }
    FindIdAt(q, e.id, |before|);
  }

  /** `remove` of an entry between two runs of entries puts its canceled
      copy, or nothing, in its place. */
  lemma RemoveInPlace(before: seq<Entry>, e: Entry, after: seq<Entry>)
    ensures AfterRemove(before + [e] + after, |before|) == before + (Cancel(e) + after)
  {
    var q := before + [e] + after;
    assert before + Cancel(e) + after == before + (Cancel(e) + after);
    assert q[|before|] == e;
    if LeavesAtOnce(e) {
      assert q[..|before|] == before;
      assert q[|before| + 1..] == after;
    } else {
      assert q[|before| := e.(state := Canceled)] == before + [e.(state := Canceled)] + after;
    }
  }

  // ---------------------------------------------------------------------
  // the end of a direct download (`__run_download`)
  // ---------------------------------------------------------------------

  /** The MEGA sweep as it should be: every MEGA entry other than `keep` leaves
      the queue. */
  function DropOtherMega(q: seq<Entry>, keep: int): (r: seq<Entry>)
    ensures DistinctIds(q) ==> DistinctIds(r)
  {
    Filter(q, (e: Entry) => !(e.kind == Mega && e.id != keep))
  }

  /** After the corrected sweep no other MEGA entry is left, and every other
      entry is. */
  lemma MegaSweepComplete(q: seq<Entry>, keep: int)
    ensures forall x | x in DropOtherMega(q, keep) :: x.kind == Mega ==> x.id == keep
    ensures forall x | x in q && (x.kind != Mega || x.id == keep) :: x in DropOtherMega(q, keep)
  {
  }

  /** The MEGA sweep as written: a `for` loop over `self.queue` that removes
      from `self.queue` while it iterates. `i` is the list iterator's index;
      after a removal the next entry slides into the slot the iterator has
      already passed. */
  function DropOtherMegaAsWritten(q: seq<Entry>, keep: int, i: nat): (r: seq<Entry>)
    ensures |r| <= |q|
    decreases |q| - i
  {
    if i >= |q| then q
    else if q[i].kind == Mega && q[i].id != keep then
      DropOtherMegaAsWritten(q[..i] + q[i + 1..], keep, i + 1)
    else DropOtherMegaAsWritten(q, keep, i + 1)
  }

  /** Three MEGA entries, the first one hitting its limit: the loop removes the
      second and then skips the third, which stays queued; the corrected sweep
      removes both. */
  lemma MegaSweepSkipsNeighbour()
    ensures var m1 := Entry(1, Mega, None, "m1", NoIssues, Downloading, []);
            var m2 := Entry(2, Mega, None, "m2", NoIssues, Queued, []);
            var m3 := Entry(3, Mega, None, "m3", NoIssues, Queued, []);
            DropOtherMegaAsWritten([m1, m2, m3], 1, 0) == [m1, m3]
            && DropOtherMega([m1, m2, m3], 1) == [m1]
  {
    var m1 := Entry(1, Mega, None, "m1", NoIssues, Downloading, []);
    var m2 := Entry(2, Mega, None, "m2", NoIssues, Queued, []);
    var m3 := Entry(3, Mega, None, "m3", NoIssues, Queued, []);
    var q := [m1, m2, m3];
    assert q[..1] + q[2..] == [m1, m3];
    assert DropOtherMegaAsWritten([m1, m3], 1, 2) == [m1, m3];
    assert DropOtherMegaAsWritten(q, 1, 1) == [m1, m3];
    assert DropOtherMegaAsWritten(q, 1, 0) == [m1, m3];
    var keep := (e: Entry) => !(e.kind == Mega && e.id != 1);
    assert Filter(q[2..], keep) == [];
    assert Filter(q[1..], keep) == [];
  }

  /** The state a direct download ends in: failed when the MEGA limit was
      reached, else the state `run()` left it in. */
  function Settled(endState: DownloadState, limitReached: bool): DownloadState {
    if limitReached then Failed else endState
  }

  /** The post-processing a finished direct download receives. */
  datatype PostProcessing = PostCanceled | PostFailed | PostShutdown | PostSuccess | NoPostProcessing

  function PostFor(s: DownloadState): (r: PostProcessing)
    ensures r == PostSuccess <==> s == Downloading
    ensures r == PostShutdown <==> s == ShuttingDown
    ensures r == PostCanceled <==> s == Canceled
    ensures r == PostFailed <==> s == Failed
  {
    match s
    case Canceled => PostCanceled
    case Failed => PostFailed
    case ShuttingDown => PostShutdown
    case Downloading => PostSuccess
    case _ => NoPostProcessing
  }

  /** The queue after the entry at `k` settled, before it leaves. */
  function AfterRun(q: seq<Entry>, k: nat, endState: DownloadState, limitReached: bool): (r: seq<Entry>)
    requires k < |q|
    ensures DistinctIds(q) ==> DistinctIds(r)
    ensures forall x | x in r :: x in q || (x.id == q[k].id && x.state == Settled(endState, limitReached))
  {
    var e := q[k].(state := Settled(endState, limitReached));
    var q1 := q[k := e];
    assert forall j | 0 <= j < |q1| :: q1[j].id == q[j].id;
    if limitReached then DropOtherMega(q1, q[k].id) else q1
  }

  // ---------------------------------------------------------------------
  // the torrent polling loop (`__run_torrent_download`)
  // ---------------------------------------------------------------------

  /** The `seeding_handling` setting. */
  datatype SeedingHandling = Complete | Copy

  /** What one pass of the polling loop does after `update_status`. */
  datatype TorrentAction =
    | CancelAndLeave       // remove from client with its files, canceled post-processing
    | FailAndLeave         // remove from client with its files, failed post-processing
    | ShutdownExit         // stop polling, keep the entry
    | CopyWhileSeeding     // seeding post-processing, polling goes on
    | ImportAndLeave(removeFromClient: bool)  // success post-processing
    | Wait

  /** The action ends the polling loop. */
  predicate Ends(a: TorrentAction) {
    a.CancelAndLeave? || a.FailAndLeave? || a.ShutdownExit? || a.ImportAndLeave?
  }

  /** The action takes the entry out of the queue. */
  predicate Leaves(a: TorrentAction) {
    a.CancelAndLeave? || a.FailAndLeave? || a.ImportAndLeave?
  }

  /** The `delete_files` argument of the action's `remove_from_client` call, if
      it makes one. */
  function ClientRemoval(a: TorrentAction): Option<bool> {
    match a
    case CancelAndLeave => Some(true)
    case FailAndLeave => Some(true)
    case ImportAndLeave(remove) => if remove then Some(false) else None
    case _ => None
  }

  /** One pass of the polling loop, chosen by the state the client reports. */
  function TorrentStep(s: DownloadState, handling: SeedingHandling, filesCopied: bool,
                       deleteCompleted: bool): (r: TorrentAction)
    ensures Leaves(r) <==> s == Canceled || s == Failed || s == Importing
    ensures r == ShutdownExit <==> s == ShuttingDown
    ensures r == CopyWhileSeeding <==> handling == Copy && s == Seeding && !filesCopied
    ensures ClientRemoval(r) == (if s == Canceled || s == Failed then Some(true)
                                 else if s == Importing && deleteCompleted then Some(false)
                                 else None)
    ensures r == Wait <==> !Ends(r) && r != CopyWhileSeeding
  {
    if s == Canceled then CancelAndLeave
    else if s == Failed then FailAndLeave
    else if s == ShuttingDown then ShutdownExit
    else if handling == Copy && s == Seeding && !filesCopied then CopyWhileSeeding
    else if s == Importing then ImportAndLeave(deleteCompleted)
    else Wait
  }

  /** The number of seeding post-processings among the actions. */
  function Copies(actions: seq<TorrentAction>): nat
    decreases |actions|
  {
    if |actions| == 0 then 0
    else Copies(actions[..|actions| - 1]) + (if actions[|actions| - 1] == CopyWhileSeeding then 1 else 0)
  }

  /** The actions of the first polls: each follows from its poll and from
      whether an earlier pass copied the files, and none before the last
      ends the loop. */
  predicate PolledSoFar(actions: seq<TorrentAction>, polled: seq<DownloadState>, handling: SeedingHandling,
                        deleteCompleted: bool) {
    && |actions| <= |polled|
    && (forall j | 0 <= j < |actions| ::
          actions[j] == TorrentStep(polled[j], handling, CopyWhileSeeding in actions[..j], deleteCompleted))
    && (forall j | 0 <= j < |actions| - 1 :: !Ends(actions[j]))
  }

  /** An action after actions none of which ends the loop leaves none before
      the last that ends it. */
  lemma NoEndsAppend(actions: seq<TorrentAction>, a: TorrentAction)
    requires forall j | 0 <= j < |actions| - 1 :: !Ends(actions[j])
    requires |actions| == 0 || !Ends(actions[|actions| - 1])
    ensures forall j | 0 <= j < |actions| :: !Ends((actions + [a])[j])
  {
  }

  /** One more pass of the polling loop: its action follows from the poll
      and from whether the files were copied before, and the copies grow by
      one exactly when it copies. */
  lemma TorrentActionsStep(actions: seq<TorrentAction>, polled: seq<DownloadState>, handling: SeedingHandling,
                           deleteCompleted: bool)
    requires PolledSoFar(actions, polled, handling, deleteCompleted) && |actions| < |polled|
    requires |actions| == 0 || !Ends(actions[|actions| - 1])
    ensures var a := TorrentStep(polled[|actions|], handling, CopyWhileSeeding in actions, deleteCompleted);
      var after := actions + [a];
      && PolledSoFar(after, polled, handling, deleteCompleted)
      && (CopyWhileSeeding in after <==> CopyWhileSeeding in actions || a == CopyWhileSeeding)
      && Copies(after) == Copies(actions) + (if a == CopyWhileSeeding then 1 else 0)
  {
    var a := TorrentStep(polled[|actions|], handling, CopyWhileSeeding in actions, deleteCompleted);
    NoEndsAppend(actions, a);
    StepsAppend(actions, a, polled, handling, deleteCompleted);
    CopiesAppend(actions, a);
  }

  /** The action of the next poll extends the actions that follow from the
      earlier polls. */
  lemma StepsAppend(actions: seq<TorrentAction>, a: TorrentAction, polled: seq<DownloadState>,
                    handling: SeedingHandling, deleteCompleted: bool)
    requires |actions| < |polled|
    requires forall j | 0 <= j < |actions| ::
      actions[j] == TorrentStep(polled[j], handling, CopyWhileSeeding in actions[..j], deleteCompleted)
    requires a == TorrentStep(polled[|actions|], handling, CopyWhileSeeding in actions, deleteCompleted)
    ensures forall j | 0 <= j < |actions| + 1 ::
      (actions + [a])[j] == TorrentStep(polled[j], handling, CopyWhileSeeding in (actions + [a])[..j], deleteCompleted)
  {
    var after := actions + [a];
    assert after[..|actions|] == actions;
    forall j | 0 <= j < |after|
      ensures after[j] == TorrentStep(polled[j], handling, CopyWhileSeeding in after[..j], deleteCompleted)
    {
      if j < |actions| {
        assert after[..j] == actions[..j];
      }
    }
  }

  /** The copies grow by one exactly when the new action copies. */
  lemma CopiesAppend(actions: seq<TorrentAction>, a: TorrentAction)
    ensures CopyWhileSeeding in actions + [a] <==> CopyWhileSeeding in actions || a == CopyWhileSeeding
    ensures Copies(actions + [a]) == Copies(actions) + (if a == CopyWhileSeeding then 1 else 0)
  {
    assert (actions + [a])[..|actions|] == actions;
  }

  /** The polling loop of `__run_torrent_download` over the states the client
      reports on successive polls: one action per poll until an action ends
      the loop; seeding post-processing runs at most once, and never when the
      whole torrent is post-processed at the end. */
  method TorrentActions(polled: seq<DownloadState>, handling: SeedingHandling, deleteCompleted: bool)
    returns (actions: seq<TorrentAction>)
    ensures |actions| <= |polled|
    ensures forall i | 0 <= i < |actions| ::
      actions[i] == TorrentStep(polled[i], handling, CopyWhileSeeding in actions[..i], deleteCompleted)
    ensures forall i | 0 <= i < |actions| - 1 :: !Ends(actions[i])
    ensures |actions| < |polled| ==> |actions| > 0 && Ends(actions[|actions| - 1])
    ensures Copies(actions) <= 1
    ensures handling == Complete ==> Copies(actions) == 0
  {
    actions := [];
    var filesCopied := false;
    var i := 0;
    while i < |polled| && (i == 0 || !Ends(actions[i - 1]))
      invariant |actions| == i && PolledSoFar(actions, polled, handling, deleteCompleted)
      invariant filesCopied == (CopyWhileSeeding in actions)
      invariant Copies(actions) == (if filesCopied then 1 else 0)
      invariant handling == Complete ==> !filesCopied
    {
      var a := TorrentStep(polled[i], handling, filesCopied, deleteCompleted);
      TorrentActionsStep(actions, polled, handling, deleteCompleted);
      if a == CopyWhileSeeding {
        filesCopied := true;
      }
      actions := actions + [a];
      i := i + 1;
    }
  }

  // ---------------------------------------------------------------------
  // the download folder (`empty_download_folder`)
  // ---------------------------------------------------------------------

  /** The basenames of the files, in order. */
  function Basenames(files: seq<string>): (r: seq<string>)
    ensures forall f | f in files :: Basename(f) in r
  {
    var r := seq(|files|, k requires 0 <= k < |files| => Basename(files[k]));
    assert forall f | f in files :: Basename(f) in r by {
      forall f | f in files ensures Basename(f) in r {
        var k :| 0 <= k < |files| && files[k] == f;
        assert r[k] == Basename(f);
      }
    }
    r
  }

  /** The basenames of every file of every queue entry. */
  function QueueFileNames(q: seq<Entry>): (r: seq<string>)
    ensures forall i, f | 0 <= i < |q| && f in q[i].files :: Basename(f) in r
    decreases |q|
  {
    if |q| == 0 then []
    else
      var rest := QueueFileNames(q[1..]);
      assert forall i, f | 1 <= i < |q| && f in q[i].files :: Basename(f) in rest by {
        forall i, f | 1 <= i < |q| && f in q[i].files ensures Basename(f) in rest {
          assert q[1..][i - 1] == q[i];
        }
      }
      Basenames(q[0].files) + rest
  }

  /** The paths `empty_download_folder` deletes: every name in the folder that
      is not the basename of a file of the queue, joined to the folder. */
  function GhostFiles(folder: string, inFolder: seq<string>, q: seq<Entry>): (r: seq<string>)
    ensures |r| <= |inFolder|
    ensures forall f | f in inFolder && f !in QueueFileNames(q) :: PathJoin(folder, f) in r
    ensures forall x | x in r :: exists f | f in inFolder :: f !in QueueFileNames(q) && x == PathJoin(folder, f)
    decreases |inFolder|
  {
    if |inFolder| == 0 then []
    else
      var rest := GhostFiles(folder, inFolder[1..], q);
      var f := inFolder[0];
      assert forall g | g in inFolder && g != f :: g in inFolder[1..];
      assert forall x | x in rest :: exists g | g in inFolder :: g !in QueueFileNames(q) && x == PathJoin(folder, g) by {
        forall x | x in rest ensures exists g | g in inFolder :: g !in QueueFileNames(q) && x == PathJoin(folder, g) {
          var g :| g in inFolder[1..] && g !in QueueFileNames(q) && x == PathJoin(folder, g);
          assert g in inFolder;
        }
      }
      if f !in QueueFileNames(q) then [PathJoin(folder, f)] + rest else rest
  }

  /** A file a queue entry writes into the download folder is never deleted
      as a ghost file, provided the folder's names hold no '/' (as `listdir`
      gives them). */
  lemma {:induction false} QueuedFileKept(folder: string, inFolder: seq<string>, q: seq<Entry>,
                                          i: nat, name: string)
    requires forall g | g in inFolder :: '/' !in g
    requires '/' !in name
    requires i < |q| && PathJoin(folder, name) in q[i].files
    ensures PathJoin(folder, name) !in GhostFiles(folder, inFolder, q)
  {
    BasenameJoin(folder, name);
    assert name in QueueFileNames(q);
    if PathJoin(folder, name) in GhostFiles(folder, inFolder, q) {
      var g :| g in inFolder && g !in QueueFileNames(q) && PathJoin(folder, name) == PathJoin(folder, g);
      BasenameJoin(folder, g);
      assert false;
    }
  }

  // ---------------------------------------------------------------------
  // the handler
  // ---------------------------------------------------------------------

  /** `DownloadHandler`: the queue of entries and the id of the entry the
      download thread runs. The rows of the `download_queue` table are the
      queue's entries, so the table's ids are the queue's ids. */
  class DownloadHandler {
    var queue: seq<Entry>
    var downloadingItem: Option<int>

    /** Entry ids are distinct, as the table's primary key is. */
    ghost predicate Valid()
      reads this
    {
      DistinctIds(queue)
    }

    constructor()
      ensures Valid()
      ensures queue == [] && downloadingItem == None
    {
      queue := [];
      downloadingItem := None;
    }

    /** `_process_queue`. */
    method ProcessQueue()
      modifies this
      ensures queue == old(queue)
      ensures downloadingItem == NextRunning(queue, old(downloadingItem))
    {
      if |queue| == 0 || downloadingItem.Some? {
        return;
      }
      var i := 0;
      while i < |queue| && IsExternal(queue[i].kind)
        invariant 0 <= i <= |queue|
        invariant forall j | 0 <= j < i :: IsExternal(queue[j].kind)
        invariant FirstDirect(queue).Some? ==> i <= FirstDirect(queue).value
      {
        i := i + 1;
      }
      if i < |queue| {
        downloadingItem := Some(queue[i].id);
      }
    }

    /** `add`: a link some entry already names changes nothing; a link that
        is not a GetComics page adds nothing; a page that fails adds nothing
        and may be blocklisted; otherwise the page's downloads join the queue
        with fresh ids and the queue is processed. */
    method Add(link: string, isGetComicsLink: bool, page: PageResult)
      returns (added: seq<Entry>, fail: Option<FailReason>, blocklisted: Option<BlocklistReason>)
      requires Valid()
      modifies this
      ensures Valid()
      ensures LinkInQueue(old(queue), link) ==>
        added == [] && fail == None && blocklisted == None
        && queue == old(queue) && downloadingItem == old(downloadingItem)
      ensures !LinkInQueue(old(queue), link) && isGetComicsLink && page.PageFailed? ==>
        added == [] && fail == Some(page.reason) && blocklisted == BlocklistFor(page.reason)
        && queue == old(queue) && downloadingItem == old(downloadingItem)
      ensures !LinkInQueue(old(queue), link) && !(isGetComicsLink && page.PageFailed?) ==>
        var pending := if isGetComicsLink then page.downloads else [];
        added == Prepared(pending, LastRowId(old(queue)))
        && queue == old(queue) + added
        && fail == None && blocklisted == None
        && downloadingItem == NextRunning(queue, old(downloadingItem))
    {
      added, fail, blocklisted := [], None, None;
      if LinkInQueue(queue, link) {
        return;
      }
      var pending: seq<Entry> := [];
      if isGetComicsLink {
        match page
        case PageFailed(reason) =>
          blocklisted := BlocklistFor(reason);
          fail := Some(reason);
          return;
        case PageDownloads(ds) =>
          pending := ds;
      }
      var last := LastRowId(queue);
      added := Prepared(pending, last);
      var q := queue + added;
      assert DistinctIds(q) by {
        forall i, j | 0 <= i < j < |q| ensures q[i].id != q[j].id {
          if j >= |queue| && i < |queue| {
            assert q[i].id <= last < q[j].id;
          }
        }
      }
      queue := q;
      ProcessQueue();
    }

    /** `remove`: an unknown id raises `DownloadNotFound`; otherwise the entry
        is canceled, leaves the queue at once when it was queued and is not a
        torrent, is removed from its client when it was a queued torrent, and
        is blocklisted iff asked. */
    method Remove(id: int, blocklist: bool)
      returns (r: Result<()>, blocklisted: Option<Entry>, removedFromClient: bool)
      requires Valid()
      modifies this
      ensures Valid()
      ensures downloadingItem == old(downloadingItem)
      ensures FindId(old(queue), id).None? ==>
        r == Err(DownloadNotFound) && queue == old(queue) && blocklisted == None && !removedFromClient
      ensures FindId(old(queue), id).Some? ==>
        var k := FindId(old(queue), id).value;
        var e := old(queue)[k];
        r == Ok(()) && queue == AfterRemove(old(queue), k)
        && removedFromClient == (e.state == Queued && e.kind == Torrent)
        && blocklisted == (if blocklist then Some(e.(state := Canceled)) else None)
    {
      var i := 0;
      while i < |queue| && queue[i].id != id
        invariant 0 <= i <= |queue|
        invariant forall j | 0 <= j < i :: queue[j].id != id
      {
        i := i + 1;
      }
      if i == |queue| {
        return Err(DownloadNotFound), None, false;
      }
      FindIdAt(queue, id, i);
      var prev := queue[i].state;
      var stopped := queue[i].(state := Canceled);
      removedFromClient := false;
      var q := AfterRemove(queue, i);
      AfterRemoveIds(queue, i, LastRowId(queue));
      if prev == Queued && stopped.kind == Torrent {
        removedFromClient := true;
      }
      queue := q;
      blocklisted := if blocklist then Some(stopped) else None;
      r := Ok(());
    }

    /** `remove_all`: `remove` of every entry, the last one first. */
    method RemoveAll()
      requires Valid()
      modifies this
      ensures Valid()
      ensures queue == CancelAll(old(queue))
      ensures downloadingItem == old(downloadingItem)
    {
      var snapshot := queue;
      var m := |snapshot|;
      assert snapshot[m..] == [];
      assert snapshot[..m] == snapshot;
      while m > 0
        invariant 0 <= m <= |snapshot|
        invariant Valid()
        invariant queue == snapshot[..m] + CancelAll(snapshot[m..])
        invariant downloadingItem == old(downloadingItem)
        invariant DistinctIds(snapshot)
      {
        RemoveAllStep(snapshot, m);
        var r, blocklisted, removedFromClient := Remove(snapshot[m - 1].id, false);
        m := m - 1;
      }
      assert snapshot[..0] == [] && snapshot[0..] == snapshot;
    }

    /** `__run_download` once `run()` returned (or raised that the MEGA limit
        was reached): the entry settles, a shutdown leaves everything in
        place; otherwise the entry leaves the queue, the download thread is
        freed and the queue is processed. A download that ends downloading is
        handed to post-processing as importing. Other MEGA entries leave the
        queue when the limit was reached; this is the corrected sweep (see
        `DropOtherMegaAsWritten`). */
    method RunDownload(id: int, endState: DownloadState, limitReached: bool)
      returns (post: PostProcessing, handed: Entry)
      requires Valid() && FindId(queue, id).Some?
      modifies this
      ensures Valid()
      ensures
        var k := FindId(old(queue), id).value;
        var settled := Settled(endState, limitReached);
        var q1 := AfterRun(old(queue), k, endState, limitReached);
        post == PostFor(settled)
        && handed == old(queue)[k].(state := if settled == Downloading then Importing else settled)
        && (settled == ShuttingDown ==> queue == q1 && downloadingItem == old(downloadingItem))
        && (settled != ShuttingDown ==> queue == RemoveId(q1, id) && downloadingItem == NextRunning(queue, None))
    {
      var k := FindId(queue, id).value;
      var entry := queue[k];
      var settled := Settled(endState, limitReached);
      var q1 := AfterRun(queue, k, endState, limitReached);
      queue := q1;
      post := PostFor(settled);
      handed := entry.(state := if settled == Downloading then Importing else settled);
      if settled == ShuttingDown {
        return;
      }
      queue := RemoveId(queue, id);
      downloadingItem := None;
      ProcessQueue();
    }

    /** `__run_torrent_download` over the states the client reports on
        successive polls: one action per poll until an action ends the loop;
        seeding post-processing runs at most once, and never when the whole
        torrent is post-processed at the end. The entry leaves the queue iff
        the last action says so. */
    method RunTorrentDownload(id: int, polled: seq<DownloadState>, handling: SeedingHandling,
                              deleteCompleted: bool)
      returns (actions: seq<TorrentAction>)
      requires Valid() && FindId(queue, id).Some?
      modifies this
      ensures Valid() && downloadingItem == old(downloadingItem)
      ensures |actions| <= |polled|
      ensures forall i | 0 <= i < |actions| ::
        actions[i] == TorrentStep(polled[i], handling, CopyWhileSeeding in actions[..i], deleteCompleted)
      ensures forall i | 0 <= i < |actions| - 1 :: !Ends(actions[i])
      ensures |actions| < |polled| ==> |actions| > 0 && Ends(actions[|actions| - 1])
      ensures Copies(actions) <= 1
      ensures handling == Complete ==> Copies(actions) == 0
      ensures |actions| > 0 && Leaves(actions[|actions| - 1]) ==> queue == RemoveId(old(queue), id)
      ensures !(|actions| > 0 && Leaves(actions[|actions| - 1])) ==> queue == old(queue)
    {
      actions := TorrentActions(polled, handling, deleteCompleted);
      if |actions| > 0 && Leaves(actions[|actions| - 1]) {
          queue := RemoveId(queue, id);
      }
    }
  }
}
