/** The SABnzbd usenet adapter: the connection probe `_connect` and its fixed
    reasons, the queue and history status tables, the queue-before-history
    lookup of `get_download`, and the `addurl` reply rules. */
module Sabnzbd {
  import opened Common
  import opened Strings
  import opened Numbers

  // ---------------------------------------------------------------------
  // Status tables
  // ---------------------------------------------------------------------

  /** `state_mapping.get(status, DOWNLOADING)`, a missing status read as 'Queued'. */
  function QueueState(status: Option<string>): (s: DownloadState)
    ensures s == Queued <==> status.None? || status == Some("Queued")
    ensures s == Paused <==> status == Some("Paused")
    ensures s == Failed <==> status == Some("Failed")
    ensures s == Importing <==> status == Some("Extracting") || status == Some("Moving")
    ensures s == Downloading <==>
      status.Some? && status.value !in {"Queued", "Paused", "Failed", "Extracting", "Moving"}
  {
    var st := if status.Some? then status.value else "Queued";
    if st == "Queued" then Queued
    else if st == "Paused" then Paused
    else if st == "Extracting" || st == "Moving" then Importing
    else if st == "Failed" then Failed
    else Downloading  // 'Downloading', 'Checking', 'Verifying', 'Repairing', 'Completed' and anything unmapped
  }

  /** A history slot: a missing status is read as 'Completed'. */
  function HistoryState(status: Option<string>): (s: DownloadState)
    ensures s == Downloading <==> status.None? || status == Some("Completed")
    ensures s == Failed <==> status == Some("Failed")
    ensures s == Importing <==> status.Some? && status.value != "Completed" && status.value != "Failed"
  {
    var st := if status.Some? then status.value else "Completed";
    if st == "Completed" then Downloading
    else if st == "Failed" then Failed
    else Importing
  }

  // ---------------------------------------------------------------------
  // Connection probe
  // ---------------------------------------------------------------------

  /** The JSON body of the `mode=queue` probe. */
  datatype ProbeBody = ProbeNotJson(detail: string) | ProbeData(error: Option<string>, hasQueue: bool)

  datatype ProbeReply = ProbeTransportError(detail: string) | ProbeReply(status: int, body: ProbeBody)

  /** `_connect`: a session, or the reason string returned instead. */
  datatype Connection = Connected | Refused(reason: string)

  function Connect(apiToken: Option<string>, reply: ProbeReply): (c: Connection)
    ensures c.Connected? <==>
      (Truthy(apiToken) && reply.ProbeReply? && reply.status == 200 && reply.body.ProbeData? &&
       reply.body.error.None? && reply.body.hasQueue)
    ensures !Truthy(apiToken) ==> c == Refused("API key is required for SABnzbd")
    ensures Truthy(apiToken) && reply.ProbeReply? && reply.status == 403 ==> c == Refused("Invalid API key")
    ensures Truthy(apiToken) && reply.ProbeReply? && reply.status != 403 && reply.status != 200 ==>
      c == Refused("Connection failed with status code " + IntToString(reply.status))
    ensures Truthy(apiToken) && reply.ProbeReply? && reply.status == 200 && reply.body.ProbeData? ==>
      (reply.body.error.Some? ==> c == Refused("SABnzbd error: " + reply.body.error.value)) &&
      (reply.body.error.None? && !reply.body.hasQueue ==> c == Refused("Invalid response from SABnzbd"))
    ensures Truthy(apiToken) && reply.ProbeTransportError? ==>
      c == Refused("Can't connect; invalid base URL: " + reply.detail)
  {
    if !Truthy(apiToken) then Refused("API key is required for SABnzbd")
    else match reply
      case ProbeTransportError(detail) => Refused("Can't connect; invalid base URL: " + detail)
      case ProbeReply(status, body) =>
        if status == 403 then Refused("Invalid API key")
        else if status != 200 then Refused("Connection failed with status code " + IntToString(status))
        else match body
          // the JSON decoding error is a `RequestException` and caught alike
          case ProbeNotJson(detail) => Refused("Can't connect; invalid base URL: " + detail)
          case ProbeData(error, hasQueue) =>
            if error.Some? then Refused("SABnzbd error: " + error.value)
            else if !hasQueue then Refused("Invalid response from SABnzbd")
            else Connected
  }

  /** `test` returns the reason of `_connect`, or `None` for a session. */
  function Test(apiToken: Option<string>, reply: ProbeReply): (r: Option<string>)
    ensures r.None? <==> Connect(apiToken, reply).Connected?
    ensures r.Some? ==> r.value == Connect(apiToken, reply).reason
  {
    match Connect(apiToken, reply)
    case Connected => None
    case Refused(reason) => Some(reason)
  }

  /** No request reaches SABnzbd without an API key. */
  lemma NoTokenNoProbe(apiToken: Option<string>, r1: ProbeReply, r2: ProbeReply)
    requires !Truthy(apiToken)
    ensures Connect(apiToken, r1) == Connect(apiToken, r2)
  {
  }

  // ---------------------------------------------------------------------
  // addurl
  // ---------------------------------------------------------------------

  /** The parameters of the `addurl` request. */
  datatype AddParams = AddParams(name: string, cat: string, nzbName: Option<string>)

  datatype AddBody = AddNotJson | AddData(status: Option<bool>, error: Option<string>, nzoIds: Option<seq<string>>)

  datatype AddReply = AddTransportError | AddReply(status: int, text: string, body: AddBody)

  predicate IsDirectLink(link: string) {
    StartsWith(Lower(link), "http")
  }

  function AddParamsOf(link: string, downloadName: Option<string>, usenetTag: string): (p: AddParams)
    ensures p.nzbName.Some? <==> Truthy(downloadName)
    ensures p.name == link
  {
    AddParams(link, usenetTag, if Truthy(downloadName) then downloadName else None)
  }

  /** The id returned for an accepted `addurl` reply. */
  function AddOutcome(reply: AddReply): (r: Result<string>)
    ensures r.Ok? ==> (reply.AddReply? && reply.status == 200 && reply.body.AddData? &&
                       reply.body.status == Some(true))
    ensures r.Ok? ==> (reply.body.nzoIds.None? && r.value == "unknown_id") ||
                      (reply.body.nzoIds.Some? && |reply.body.nzoIds.value| > 0 && r.value == reply.body.nzoIds.value[0])
    ensures reply.AddReply? && reply.status != 200 ==>
      r == Err(ExternalClientNotWorking("Failed to add download: " + reply.text))
    ensures reply.AddReply? && reply.status == 200 && reply.body.AddData? && reply.body.status != Some(true) ==>
      r == Err(ExternalClientNotWorking("Failed to add download: " +
        if reply.body.error.Some? then reply.body.error.value else "Unknown error"))
    ensures reply.AddReply? && reply.status == 200 && reply.body.AddData? && reply.body.status == Some(true) &&
            reply.body.nzoIds == Some([]) ==>
      r == Err(IndexError)
  {
    match reply
    case AddTransportError => Err(TransportError)
    case AddReply(status, text, body) =>
      if status != 200 then Err(ExternalClientNotWorking("Failed to add download: " + text))
      else match body
        case AddNotJson => Err(TransportError)
        case AddData(st, error, ids) =>
          if st != Some(true) then
            Err(ExternalClientNotWorking("Failed to add download: " + if error.Some? then error.value else "Unknown error"))
          else if ids.None? then Ok("unknown_id")
          else if |ids.value| == 0 then Err(IndexError)
          else Ok(ids.value[0])
  }

  // ---------------------------------------------------------------------
  // Queue and history lookup
  // ---------------------------------------------------------------------

  datatype QueueSlot = QueueSlot(nzoId: Option<string>, status: Option<string>, mbLeft: real, mb: real, speed: int)

  datatype HistorySlot = HistorySlot(nzoId: Option<string>, status: Option<string>, bytes: int)

  /** A listing reply; `slots` is absent when the body lacks the
      `queue`/`history` object or its `slots`. */
  datatype ListReply<S> = ListTransportError | ListReply(status: int, text: string, slots: Option<seq<S>>)

  /** The first index holding `id`, if any. */
  function FirstIndex(ids: seq<Option<string>>, id: string): (r: Option<nat>)
    ensures r.Some? ==> (r.value < |ids| && ids[r.value] == Some(id) &&
                         forall j :: 0 <= j < r.value ==> ids[j] != Some(id))
    ensures r.None? ==> forall j :: 0 <= j < |ids| ==> ids[j] != Some(id)
    decreases |ids|
  {
    if |ids| == 0 then None
    else if ids[0] == Some(id) then Some(0)
    else match FirstIndex(ids[1..], id)
      case None => None
      case Some(k) => Some(k + 1)
  }

  /** The scan over a slot list, stopping at the first slot with `id`. */
  method FindSlot(ids: seq<Option<string>>, id: string) returns (r: Option<nat>)
    ensures r == FirstIndex(ids, id)
  {
    var i := 0;
    while i < |ids|
      invariant 0 <= i <= |ids|
      invariant forall j :: 0 <= j < i ==> ids[j] != Some(id)
    {
      if ids[i] == Some(id) {
        FirstIndexIs(ids, id, i);
        return Some(i);
      }
      i := i + 1;
    }
    r := None;
  }

  lemma FirstIndexIs(ids: seq<Option<string>>, id: string, i: nat)
    requires i < |ids| && ids[i] == Some(id)
    requires forall j :: 0 <= j < i ==> ids[j] != Some(id)
    ensures FirstIndex(ids, id) == Some(i)
  {
    var r := FirstIndex(ids, id);
    assert r.Some?;
    assert !(r.value < i) && !(r.value > i);
  }

  function QueueIds(slots: seq<QueueSlot>): seq<Option<string>> {
    seq(|slots|, i requires 0 <= i < |slots| => slots[i].nzoId)
  }

  function HistoryIds(slots: seq<HistorySlot>): seq<Option<string>> {
    seq(|slots|, i requires 0 <= i < |slots| => slots[i].nzoId)
  }

  /** The record of a queue slot. */
  function QueueRecord(s: QueueSlot): (d: DownloadStatus)
    ensures s.mb <= 0.0 ==> d.progress == 0.0
    ensures 0.0 < s.mb && 0.0 <= s.mbLeft <= s.mb ==> 0.0 <= d.progress <= 100.0
    ensures 0.0 <= s.mb ==> d.size >= 0
    ensures d.state == QueueState(s.status) && d.speed == s.speed as real
  {
    var progress := if s.mb > 0.0 then (PercentBounds(s.mb - s.mbLeft, s.mb); Percent(s.mb - s.mbLeft, s.mb)) else 0.0;
    DownloadStatus(Trunc(s.mb * 1024.0 * 1024.0), progress, s.speed as real, QueueState(s.status))
  }

  /** The record of a history slot: complete, not moving. */
  function HistoryRecord(s: HistorySlot): (d: DownloadStatus)
    ensures d.progress == 100.0 && d.speed == 0.0 && d.size == s.bytes
    ensures d.state == HistoryState(s.status)
  {
    DownloadStatus(s.bytes, 100.0, 0.0, HistoryState(s.status))
  }

  function SlotsOf<S>(slots: Option<seq<S>>): seq<S> {
    if slots.Some? then slots.value else []
  }

  /** `get_download` after the connection: the queue first, then history,
      else `None`. */
  function Lookup(id: string, queue: ListReply<QueueSlot>, history: ListReply<HistorySlot>): (r: Result<PollResult>)
    ensures r != Ok(EmptyResult)
    ensures queue.ListReply? && queue.status == 200 && FirstIndex(QueueIds(SlotsOf(queue.slots)), id).Some? ==>
      r == Ok(Record(QueueRecord(SlotsOf(queue.slots)[FirstIndex(QueueIds(SlotsOf(queue.slots)), id).value])))
    ensures r == Ok(NoneResult) <==>
      queue.ListReply? && queue.status == 200 && FirstIndex(QueueIds(SlotsOf(queue.slots)), id).None? &&
      history.ListReply? && history.status == 200 && FirstIndex(HistoryIds(SlotsOf(history.slots)), id).None?
    ensures queue.ListReply? && queue.status != 200 ==>
      r == Err(ExternalClientNotWorking("Failed to get queue: " + queue.text))
    ensures queue.ListTransportError? ==> r == Err(TransportError)
    ensures queue.ListReply? && queue.status == 200 && FirstIndex(QueueIds(SlotsOf(queue.slots)), id).None? ==>
      && (history.ListTransportError? ==> r == Err(TransportError))
      && (history.ListReply? && history.status != 200 ==>
            r == Err(ExternalClientNotWorking("Failed to get history: " + history.text)))
      && (history.ListReply? && history.status == 200 && FirstIndex(HistoryIds(SlotsOf(history.slots)), id).Some? ==>
            r == Ok(Record(HistoryRecord(SlotsOf(history.slots)[FirstIndex(HistoryIds(SlotsOf(history.slots)), id).value]))))
  {
    match queue
    case ListTransportError => Err(TransportError)
    case ListReply(qs, qtext, qslots) =>
      if qs != 200 then Err(ExternalClientNotWorking("Failed to get queue: " + qtext))
      else match FirstIndex(QueueIds(SlotsOf(qslots)), id)
        case Some(i) => Ok(Record(QueueRecord(SlotsOf(qslots)[i])))
        case None =>
          match history
          case ListTransportError => Err(TransportError)
          case ListReply(hs, htext, hslots) =>
            if hs != 200 then Err(ExternalClientNotWorking("Failed to get history: " + htext))
            else match FirstIndex(HistoryIds(SlotsOf(hslots)), id)
              case Some(i) => Ok(Record(HistoryRecord(SlotsOf(hslots)[i])))
              case None => Ok(NoneResult)
  }

  /** An id in the queue is answered from the queue whatever history says. */
  lemma QueueShadowsHistory(id: string, queue: ListReply<QueueSlot>, h1: ListReply<HistorySlot>, h2: ListReply<HistorySlot>)
    requires queue.ListReply? && queue.status == 200
    requires exists j | 0 <= j < |SlotsOf(queue.slots)| :: SlotsOf(queue.slots)[j].nzoId == Some(id)
    ensures Lookup(id, queue, h1) == Lookup(id, queue, h2)
  {
    var j :| 0 <= j < |SlotsOf(queue.slots)| && SlotsOf(queue.slots)[j].nzoId == Some(id);
    assert QueueIds(SlotsOf(queue.slots))[j] == Some(id);
  }

  datatype DeleteParams = DeleteParams(mode: string, value: string, delFiles: int)

  // ---------------------------------------------------------------------
  // The client object
  // ---------------------------------------------------------------------

  class SabnzbdClient {
    const apiToken: Option<string>
    const usenetTag: string
    /** Whether `self.ssn` holds a session. */
    var connected: bool

    constructor (apiToken: Option<string>, usenetTag: string)
      ensures this.apiToken == apiToken && this.usenetTag == usenetTag && !connected
    {
      this.apiToken := apiToken;
      this.usenetTag := usenetTag;
      connected := false;
    }

    /** The lazy `_connect` at the head of every operation. */
    method EnsureConnected(probe: ProbeReply) returns (r: Result<()>)
      modifies this
      ensures old(connected) ==> r == Ok(()) && connected
      ensures !old(connected) ==>
        (Connect(apiToken, probe).Connected? ==> r == Ok(()) && connected) &&
        (Connect(apiToken, probe).Refused? ==>
          r == Err(ExternalClientNotWorking(Connect(apiToken, probe).reason)) && !connected)
    {
      if connected {
        return Ok(());
      }
      match Connect(apiToken, probe)
      case Refused(reason) =>
        r := Err(ExternalClientNotWorking(reason));
      case Connected =>
        connected := true;
        r := Ok(());
    }

    /** `add_download`: connect, refuse anything but an http(s) link, send
      `addurl`, classify the reply. */
    method AddDownload(link: string, downloadName: Option<string>, probe: ProbeReply, reply: AddReply)
      returns (r: Result<string>, sent: Option<AddParams>)
      modifies this
      ensures r.Ok? ==> connected && sent.Some? && IsDirectLink(link)
      ensures sent.Some? ==> sent.value == AddParamsOf(link, downloadName, usenetTag) && r == AddOutcome(reply)
      ensures (old(connected) || Connect(apiToken, probe).Connected?) && !IsDirectLink(link) ==>
        r == Err(ExternalClientNotWorking("Only direct NZB URLs are supported")) && sent.None?
      ensures !old(connected) && Connect(apiToken, probe).Refused? ==>
        r == Err(ExternalClientNotWorking(Connect(apiToken, probe).reason)) && sent.None?
      ensures connected == (old(connected) || Connect(apiToken, probe).Connected?)
    {
      var c := EnsureConnected(probe);
      if c.Err? {
        return Err(c.error), None;
      }
      if !IsDirectLink(link) {
        return Err(ExternalClientNotWorking("Only direct NZB URLs are supported")), None;
      }
      sent := Some(AddParamsOf(link, downloadName, usenetTag));
      r := AddOutcome(reply);
    }

    /** `get_download`: the scans stop at the first slot with the id. */
    method GetDownload(id: string, probe: ProbeReply, queue: ListReply<QueueSlot>, history: ListReply<HistorySlot>)
      returns (r: Result<PollResult>)
      modifies this
      ensures connected == (old(connected) || Connect(apiToken, probe).Connected?)
      ensures connected ==> r == Lookup(id, queue, history)
      ensures !connected ==> r == Err(ExternalClientNotWorking(Connect(apiToken, probe).reason))
    {
      var c := EnsureConnected(probe);
      if c.Err? {
        return Err(c.error);
      }
      if queue.ListTransportError? {
        return Err(TransportError);
      }
      if queue.status != 200 {
        return Err(ExternalClientNotWorking("Failed to get queue: " + queue.text));
      }
      var qslots := SlotsOf(queue.slots);
      var qi := FindSlot(QueueIds(qslots), id);
      if qi.Some? {
        return Ok(Record(QueueRecord(qslots[qi.value])));
      }
      if history.ListTransportError? {
        return Err(TransportError);
      }
      if history.status != 200 {
        return Err(ExternalClientNotWorking("Failed to get history: " + history.text));
      }
      var hslots := SlotsOf(history.slots);
      var hi := FindSlot(HistoryIds(hslots), id);
      if hi.Some? {
        return Ok(Record(HistoryRecord(hslots[hi.value])));
      }
      r := Ok(NoneResult);
    }

    /** `delete_download`: the same removal against queue and history. */
    method DeleteDownload(id: string, deleteFiles: bool, probe: ProbeReply)
      returns (r: Result<()>, sent: seq<DeleteParams>)
      modifies this
      ensures connected == (old(connected) || Connect(apiToken, probe).Connected?)
      ensures connected ==> (r == Ok(()) &&
                             sent == [DeleteParams("queue", id, if deleteFiles then 1 else 0),
                                      DeleteParams("history", id, if deleteFiles then 1 else 0)])
      ensures !connected ==> r.Err? && sent == []
    {
      var c := EnsureConnected(probe);
      if c.Err? {
        return Err(c.error), [];
      }
      var delFiles := if deleteFiles then 1 else 0;
      sent := [DeleteParams("queue", id, delFiles), DeleteParams("history", id, delFiles)];
      r := Ok(());
    }
  }
}
