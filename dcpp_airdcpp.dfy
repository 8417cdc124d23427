/** The AirDC++ adapter of the DC++ download type: the `prefix + a|b|c|tth|name`
    link codec, the bundle status table, the login classification and the
    per-bundle stall tracker `download_tths`. HTTP replies are inputs; the
    request a method would send is one of its outputs. */
module DcppAirDcpp {
  import opened Common
  import opened Strings
  import opened Numbers

  // ---------------------------------------------------------------------
  // Link codec
  // ---------------------------------------------------------------------

  datatype LinkComponents = LinkComponents(
    clientId: int, searchInstanceId: int, resultId: int, tth: string, defaultName: string)

  function LinkFields(c: LinkComponents): seq<string> {
    [IntToString(c.clientId), IntToString(c.searchInstanceId), IntToString(c.resultId), c.tth, c.defaultName]
  }

  /** `make_dcpp_link`: the prefix followed by the five fields joined by '|'. */
  function MakeDcppLink(prefix: string, c: LinkComponents): string {
    prefix + Join(LinkFields(c), '|')
  }

  /** `get_dcpp_link_components`: every occurrence of the prefix is removed, the
      rest must split into exactly five '|' fields, the first three integral;
      anything else is the `ValueError` of the unpacking or of `int()`. */
  function GetDcppLinkComponents(prefix: string, link: string): (r: Result<LinkComponents>)
    ensures r.Ok? ==> Count(RemoveAll(link, prefix), '|') == 4
    ensures r.Ok? ==> '|' !in r.value.tth && '|' !in r.value.defaultName
    ensures r.Err? ==> r.error == ValueError
    ensures var f := Split(RemoveAll(link, prefix), '|');
      r.Ok? <==> |f| == 5 && ParseInt(f[0]).Some? && ParseInt(f[1]).Some? && ParseInt(f[2]).Some?
  {
    var fields := Split(RemoveAll(link, prefix), '|');
    if |fields| != 5 then Err(ValueError)
    else
      match (ParseInt(fields[0]), ParseInt(fields[1]), ParseInt(fields[2]))
      case (Some(a), Some(b), Some(c)) => Ok(LinkComponents(a, b, c, fields[3], fields[4]))
      case _ => Err(ValueError)
  }

  /** A prefix the codec can strip: no '|', and a character that no rendered
      integer holds. */
  predicate ValidPrefix(prefix: string) {
    '|' !in prefix && exists k :: 0 <= k < |prefix| && !IsDigit(prefix[k]) && prefix[k] != '-'
  }

  /** Fields the codec can carry: tth and name hold neither '|' nor the prefix. */
  predicate Encodable(prefix: string, c: LinkComponents) {
    '|' !in c.tth && '|' !in c.defaultName && !Contains(c.tth, prefix) && !Contains(c.defaultName, prefix)
  }

  lemma IntFieldAvoidsPrefix(prefix: string, i: int)
    requires ValidPrefix(prefix)
    ensures !Contains(IntToString(i), prefix)
    ensures '|' !in IntToString(i)
  {
    var k :| 0 <= k < |prefix| && !IsDigit(prefix[k]) && prefix[k] != '-';
    IntToStringAlphabet(i, prefix[k]);
    ForeignCharAvoids(IntToString(i), prefix, prefix[k]);
    IntToStringAlphabet(i, '|');
  }

  /** Decoding a built link gives back the five fields. */
  lemma DcppLinkRoundTrip(prefix: string, c: LinkComponents)
    requires ValidPrefix(prefix) && Encodable(prefix, c)
    ensures GetDcppLinkComponents(prefix, MakeDcppLink(prefix, c)) == Ok(c)
  {
    var f := LinkFields(c);
    IntFieldAvoidsPrefix(prefix, c.clientId);
    IntFieldAvoidsPrefix(prefix, c.searchInstanceId);
    IntFieldAvoidsPrefix(prefix, c.resultId);
    assert Join(f[3..], '|') == f[3] + ['|'] + f[4] by {
      assert f[3..][1..] == [f[4]];
    }
    assert Join(f[2..], '|') == f[2] + ['|'] + Join(f[3..], '|') by {
      assert f[2..][1..] == f[3..];
    }
    assert Join(f[1..], '|') == f[1] + ['|'] + Join(f[2..], '|') by {
      assert f[1..][1..] == f[2..];
    }
    ConcatAvoids(f[3], f[4], '|', prefix);
    ConcatAvoids(f[2], f[3] + ['|'] + f[4], '|', prefix);
    ConcatAvoids(f[1], f[2] + ['|'] + (f[3] + ['|'] + f[4]), '|', prefix);
    ConcatAvoids(f[0], f[1] + ['|'] + (f[2] + ['|'] + (f[3] + ['|'] + f[4])), '|', prefix);
    RemovePrefix(prefix, Join(f, '|'));
    SplitJoin(f, '|');
    ParseIntToString(c.clientId);
    ParseIntToString(c.searchInstanceId);
    ParseIntToString(c.resultId);
  }

  // ---------------------------------------------------------------------
  // Status table
  // ---------------------------------------------------------------------

  /** `state_mapping.get(status.id, IMPORTING)`; `None` is a missing status id. */
  function StateOfStatus(statusId: Option<string>): (s: DownloadState)
    ensures s == Queued <==> statusId == Some("new") || statusId == Some("queued")
    ensures s == Failed <==> statusId == Some("download_error")
    ensures s != Queued && s != Failed ==> s == Importing
  {
    if statusId == Some("new") || statusId == Some("queued") then Queued
    else if statusId == Some("download_error") then Failed
    else Importing
  }

  // ---------------------------------------------------------------------
  // Login
  // ---------------------------------------------------------------------

  datatype Session = Session(headers: map<string, string>)

  /** The reply to `POST /api/v1/sessions/authorize`. `AuthTransportError` is a
      `RequestException`, which includes a body that is not JSON. */
  datatype AuthReply = AuthTransportError | AuthReply(status: int, authToken: Option<string>)

  /** `_login` returns a session or a reason string. */
  datatype LoginOutcome = LoggedIn(session: Session) | Refused(reason: string)

  const JsonHeaders: map<string, string> := map["Content-Type" := "application/json"]

  /** `_login`, in order: missing credentials, transport error, 412, 401, then a
      session with a Bearer header; a reply without `auth_token` raises `KeyError`. */
  function Login(username: Option<string>, password: Option<string>, reply: AuthReply): (r: Result<LoginOutcome>)
    ensures !(Truthy(username) && Truthy(password)) ==> r == Ok(Refused("No credentials provided"))
    ensures Truthy(username) && Truthy(password) && reply.AuthTransportError? ==>
      r == Ok(Refused("Can't connect; invalid base URL"))
    ensures Truthy(username) && Truthy(password) && reply.AuthReply? ==>
      (reply.status == 412 ==> r == Ok(Refused("API version unsupported"))) &&
      (reply.status == 401 ==> r == Ok(Refused("Can't authenticate")))
    ensures r.Ok? && r.value.LoggedIn? ==>
      reply.AuthReply? && reply.status != 412 && reply.status != 401 && reply.authToken.Some? &&
      r.value.session.headers == JsonHeaders["Authorization" := "Bearer " + reply.authToken.value]
    ensures r.Err? <==> (Truthy(username) && Truthy(password) && reply.AuthReply? &&
      reply.status != 412 && reply.status != 401 && reply.authToken.None?)
  {
    if !(Truthy(username) && Truthy(password)) then Ok(Refused("No credentials provided"))
    else match reply
      case AuthTransportError => Ok(Refused("Can't connect; invalid base URL"))
      case AuthReply(status, token) =>
        if status == 412 then Ok(Refused("API version unsupported"))
        else if status == 401 then Ok(Refused("Can't authenticate"))
        else if token.None? then Err(KeyError)
        else Ok(LoggedIn(Session(JsonHeaders["Authorization" := "Bearer " + token.value])))
  }

  /** The session after the lazy login every client operation starts with: an
      existing session is kept, a refusal raises `ExternalClientNotWorking`. */
  function SessionAfter(ssn: Option<Session>, username: Option<string>, password: Option<string>, reply: AuthReply): Result<Session> {
    if ssn.Some? then Ok(ssn.value)
    else match Login(username, password, reply)
      case Err(e) => Err(e)
      case Ok(Refused(reason)) => Err(ExternalClientNotWorking(reason))
      case Ok(LoggedIn(s)) => Ok(s)
  }

  /** `test`: `None` when a session could be made, else the reason. */
  function Test(username: Option<string>, password: Option<string>, reply: AuthReply): (r: Result<Option<string>>)
    ensures r.Ok? && r.value.None? <==> Login(username, password, reply).Ok? && Login(username, password, reply).value.LoggedIn?
    ensures r.Ok? && r.value.Some? ==>
      r.value.value in {"No credentials provided", "Can't connect; invalid base URL", "API version unsupported", "Can't authenticate"}
  {
    match Login(username, password, reply)
    case Err(e) => Err(e)
    case Ok(Refused(reason)) => Ok(Some(reason))
    case Ok(LoggedIn(_)) => Ok(None)
  }

  // ---------------------------------------------------------------------
  // Adding a download
  // ---------------------------------------------------------------------

  /** The reply to the download request: not a dict, or a dict with an optional
      `bundle_info.id` (rendered with `str`) and an optional `message`. */
  datatype AddReply = AddNotDict | AddDict(bundleId: Option<string>, message: Option<string>)

  datatype AddRequest = AddRequest(searchInstanceId: int, resultId: int, targetDirectory: string, targetName: Option<string>)

  /** The `target_name` sent: a given name is replaced by the link's last '|' field. */
  function TargetName(link: string, downloadName: Option<string>): (r: Option<string>)
    ensures r.None? <==> downloadName.None?
    ensures r.Some? ==> '|' !in r.value && EndsWith(link, r.value)
  {
    if downloadName.None? then None
    else
      var fields := Split(link, '|');
      LastFieldIsSuffix(fields, '|');
      Some(fields[|fields| - 1])
  }

  lemma {:induction false} LastFieldIsSuffix(parts: seq<string>, sep: char)
    requires |parts| >= 1
    ensures EndsWith(Join(parts, sep), parts[|parts| - 1])
    decreases |parts|
  {
    if |parts| > 1 {
      LastFieldIsSuffix(parts[1..], sep);
    }
  }

  /** The rename argument is ignored: any two given names send the same target name. */
  lemma RenameIgnored(link: string, a: string, b: string)
    ensures TargetName(link, Some(a)) == TargetName(link, Some(b))
  {
  }

  /** The add outcome: the bundle id, `DownloadLimitReached` for this client when
      the message mentions a download limit in any case, else `ExternalClientNotWorking`. */
  function AddOutcome(reply: AddReply, clientId: int): (r: Result<string>)
    ensures r.Ok? <==> reply.AddDict? && reply.bundleId.Some?
    ensures r.Ok? ==> r.value == reply.bundleId.value
    ensures r.Err? && r.error.DownloadLimitReached? <==>
      reply.AddDict? && reply.bundleId.None? && Contains(Lower(MessageText(reply.message)), "download limit")
    ensures r.Err? && r.error.DownloadLimitReached? ==> r.error == DownloadLimitReached(DcppSource, Some(clientId))
    ensures r.Err? && !r.error.DownloadLimitReached? ==> r.error == ExternalClientNotWorking("Failed to add DC++ download")
  {
    match reply
    case AddDict(Some(bundle), _) => Ok(bundle)
    case AddDict(None, message) =>
      if Contains(Lower(MessageText(message)), "download limit") then Err(DownloadLimitReached(DcppSource, Some(clientId)))
      else Err(ExternalClientNotWorking("Failed to add DC++ download"))
    case AddNotDict => Err(ExternalClientNotWorking("Failed to add DC++ download"))
  }

  function MessageText(message: Option<string>): string {
    if message.Some? then message.value else ""
  }

  // ---------------------------------------------------------------------
  // Polling a download
  // ---------------------------------------------------------------------

  /** The reply to `GET /api/v1/queue/bundles/<id>`: `NoBundle` is an empty or
      non-dict body; otherwise the optional fields of the bundle. */
  datatype BundleReply =
    | NoBundle
    | Bundle(size: Option<int>, downloadedBytes: Option<int>, speed: Option<real>, statusId: Option<string>)

  function OrZero(x: Option<int>): int {
    if x.Some? then x.value else 0
  }

  /** Size and progress: with a positive size the rounded percentage, otherwise
      size -1 and the raw byte count. */
  function SizeAndProgress(size: Option<int>, downloaded: Option<int>): (r: (int, real))
    ensures size.Some? && size.value > 0 ==> r.0 == size.value
    ensures size.Some? && size.value > 0 && 0 <= OrZero(downloaded) <= size.value ==> 0.0 <= r.1 <= 100.0
    ensures !(size.Some? && size.value > 0) ==> r == (-1, OrZero(downloaded) as real)
  {
    if size.Some? && size.value > 0 then
      PercentBounds(OrZero(downloaded) as real, size.value as real);
      (size.value, Percent(OrZero(downloaded) as real, size.value as real))
    else (-1, OrZero(downloaded) as real)
  }

  /** The stall rule applied to the mapped state: a failing bundle with no
      timestamp records `now` and reports downloading; with a timestamp it
      reports failed (the timeout check only re-assigns failed); a bundle that
      is not failing resets its entry. A failing bundle that was never
      registered raises `KeyError`. */
  function StallStep(tths: map<string, Option<int>>, id: string, mapped: DownloadState, now: real, timeout: int)
    : (r: Result<(map<string, Option<int>>, DownloadState)>)
    ensures r.Err? <==> mapped == Failed && id !in tths
    ensures r.Ok? ==> r.value.0.Keys == tths.Keys + {id}
    ensures r.Ok? ==> forall k :: k in tths && k != id ==> r.value.0[k] == tths[k]
    ensures r.Ok? && r.value.1 == Failed ==> id in tths && tths[id].Some? && r.value.0 == tths
  {
    if mapped == Failed then
      if id !in tths then Err(KeyError)
      else if tths[id].None? then Ok((tths[id := Some(Round(now))], Downloading))
      else if timeout != 0 && now - tths[id].value as real > timeout as real then Ok((tths, Failed))
      else Ok((tths, mapped))
    else Ok((tths[id := None], mapped))
  }

  /** The second consecutive failing poll of a registered bundle reports failed,
      whatever the times and the timeout. */
  lemma SecondFailureReportsFailed(tths: map<string, Option<int>>, id: string, now1: real, now2: real, t1: int, t2: int)
    requires id in tths
    ensures StallStep(tths, id, Failed, now1, t1).Ok?
    ensures StallStep(StallStep(tths, id, Failed, now1, t1).value.0, id, Failed, now2, t2).value.1 == Failed
  {
  }

  /** The first failing poll after a healthy one is reported as downloading. */
  lemma HealthyPollRearms(tths: map<string, Option<int>>, id: string, s: DownloadState, now1: real, now2: real, t1: int, t2: int)
    requires s != Failed
    ensures StallStep(StallStep(tths, id, s, now1, t1).value.0, id, Failed, now2, t2).value ==
      (tths[id := Some(Round(now2))], Downloading)
  {
    assert tths[id := None][id := Some(Round(now2))] == tths[id := Some(Round(now2))];
  }

  /** The timeout setting never changes the outcome. */
  lemma TimeoutIgnored(tths: map<string, Option<int>>, id: string, s: DownloadState, now: real, t1: int, t2: int)
    ensures StallStep(tths, id, s, now, t1) == StallStep(tths, id, s, now, t2)
  {
  }

  /** `get_download` after the lazy login, on the tracker map. */
  function PollBundle(tths: map<string, Option<int>>, id: string, reply: BundleReply, now: real, timeout: int)
    : (r: Result<(map<string, Option<int>>, PollResult)>)
    ensures reply.NoBundle? ==> r == Ok((tths, if id in tths then NoneResult else EmptyResult))
    ensures reply.Bundle? && r.Ok? ==> r.value.1.Record?
  {
    match reply
    case NoBundle => Ok((tths, if id in tths then NoneResult else EmptyResult))
    case Bundle(size, downloaded, speed, statusId) =>
      var (sz, progress) := SizeAndProgress(size, downloaded);
      match StallStep(tths, id, StateOfStatus(statusId), now, timeout)
      case Err(e) => Err(e)
      case Ok((m, state)) =>
        Ok((m, Record(DownloadStatus(sz, progress, if speed.Some? then speed.value else 0.0, state))))
  }

  /** A bundle this client added and that has disappeared polls as `None`; one
      it deleted polls as `{}`. */
  lemma AddThenDeleteVisibility(tths: map<string, Option<int>>, id: string, now: real, timeout: int)
    ensures PollBundle(tths[id := None], id, NoBundle, now, timeout).value.1 == NoneResult
    ensures PollBundle(tths - {id}, id, NoBundle, now, timeout).value.1 == EmptyResult
  {
  }

  // ---------------------------------------------------------------------
  // Search
  // ---------------------------------------------------------------------

  datatype Slots = Slots(total: Option<int>, free: Option<int>)

  datatype Hit = Hit(id: int, tth: string, name: string, size: Option<int>, slots: Option<Slots>)

  /** The search results reply: a bare list, or a dict with an optional "results". */
  datatype SearchReply = HitList(hits: seq<Hit>) | HitDict(results: Option<seq<Hit>>)

  datatype SearchResult = SearchResult(
    link: string, displayTitle: string, source: string, size: int, seeders: Option<int>, leechers: Option<int>)

  function Hits(reply: SearchReply): seq<Hit> {
    match reply
    case HitList(hits) => hits
    case HitDict(results) => if results.Some? then results.value else []
  }

  /** One formatted search hit; seeders are the total slots, leechers the free ones. */
  function FormatHit(prefix: string, clientId: int, title: string, instanceId: int, h: Hit): SearchResult {
    SearchResult(
      MakeDcppLink(prefix, LinkComponents(clientId, instanceId, h.id, h.tth, h.name)),
      h.name, title,
      if h.size.Some? then h.size.value else 0,
      if h.slots.Some? then h.slots.value.total else None,
      if h.slots.Some? then h.slots.value.free else None)
  }

  /** The formatted results, one per hit and in order; every link decodes back to
      this client, this search instance and the hit. */
  function FormatResults(prefix: string, clientId: int, title: string, instanceId: int, reply: SearchReply)
    : (rs: seq<SearchResult>)
    ensures |rs| == |Hits(reply)|
    ensures forall i :: 0 <= i < |rs| ==> rs[i].displayTitle == Hits(reply)[i].name && rs[i].source == title
    ensures ValidPrefix(prefix) ==> forall i :: 0 <= i < |rs| && Encodable(prefix, LinkComponents(clientId, instanceId, Hits(reply)[i].id, Hits(reply)[i].tth, Hits(reply)[i].name)) ==>
      GetDcppLinkComponents(prefix, rs[i].link) ==
        Ok(LinkComponents(clientId, instanceId, Hits(reply)[i].id, Hits(reply)[i].tth, Hits(reply)[i].name))
  {
    var hits := Hits(reply);
    var rs := seq(|hits|, i requires 0 <= i < |hits| => FormatHit(prefix, clientId, title, instanceId, hits[i]));
    if ValidPrefix(prefix) then
      assert forall i :: 0 <= i < |rs| && Encodable(prefix, LinkComponents(clientId, instanceId, hits[i].id, hits[i].tth, hits[i].name)) ==>
        GetDcppLinkComponents(prefix, rs[i].link) == Ok(LinkComponents(clientId, instanceId, hits[i].id, hits[i].tth, hits[i].name)) by {
        forall i | 0 <= i < |rs| && Encodable(prefix, LinkComponents(clientId, instanceId, hits[i].id, hits[i].tth, hits[i].name))
          ensures GetDcppLinkComponents(prefix, rs[i].link) == Ok(LinkComponents(clientId, instanceId, hits[i].id, hits[i].tth, hits[i].name))
        {
          DcppLinkRoundTrip(prefix, LinkComponents(clientId, instanceId, hits[i].id, hits[i].tth, hits[i].name));
        }
      }
      rs
    else rs
  }

  // ---------------------------------------------------------------------
  // The client object
  // ---------------------------------------------------------------------

  datatype DeleteRequest = DeleteRequest(downloadId: string, removeFinished: bool)

  class AirDcpp {
    const id: int
    const title: string
    const prefix: string
    const username: Option<string>
    const password: Option<string>
    var ssn: Option<Session>
    var downloadTths: map<string, Option<int>>

    constructor (id: int, title: string, prefix: string, username: Option<string>, password: Option<string>)
      ensures this.id == id && this.title == title && this.prefix == prefix
      ensures this.username == username && this.password == password
      ensures ssn == None && downloadTths == map[]
    {
      this.id := id;
      this.title := title;
      this.prefix := prefix;
      this.username := username;
      this.password := password;
      ssn := None;
      downloadTths := map[];
    }

    /** `login`, and the lazy login at the start of every operation. */
    method EnsureLogin(auth: AuthReply) returns (r: Result<Session>)
      modifies this
      ensures r == SessionAfter(old(ssn), username, password, auth)
      ensures ssn == if r.Ok? then Some(r.value) else old(ssn)
      ensures downloadTths == old(downloadTths)
    {
      if ssn.Some? {
        return Ok(ssn.value);
      }
      var result := Login(username, password, auth);
      match result {
        case Err(e) =>
          r := Err(e);
        case Ok(Refused(reason)) =>
          r := Err(ExternalClientNotWorking(reason));
        case Ok(LoggedIn(s)) =>
          ssn := Some(s);
          r := Ok(s);
      }
    }

    /** `add_download`: parse the link, log in, send the request and register
      the bundle id with no timestamp. */
    method AddDownload(link: string, targetFolder: string, downloadName: Option<string>, auth: AuthReply, reply: AddReply)
      returns (r: Result<string>, sent: Option<AddRequest>)
      modifies this
      ensures GetDcppLinkComponents(prefix, link).Err? ==>
        r == Err(ValueError) && sent.None? && ssn == old(ssn) && downloadTths == old(downloadTths)
      ensures GetDcppLinkComponents(prefix, link).Ok? && SessionAfter(old(ssn), username, password, auth).Err? ==>
        r == Err(SessionAfter(old(ssn), username, password, auth).error) && sent.None? && downloadTths == old(downloadTths)
      ensures GetDcppLinkComponents(prefix, link).Ok? && SessionAfter(old(ssn), username, password, auth).Ok? ==>
        var c := GetDcppLinkComponents(prefix, link).value;
        sent == Some(AddRequest(c.searchInstanceId, c.resultId, targetFolder, TargetName(link, downloadName))) &&
        r == AddOutcome(reply, id) &&
        downloadTths == if r.Ok? then old(downloadTths)[r.value := None] else old(downloadTths)
    {
      var name := TargetName(link, downloadName);
      var parsed := GetDcppLinkComponents(prefix, link);
      if parsed.Err? {
        return Err(parsed.error), None;
      }
      var session := EnsureLogin(auth);
      if session.Err? {
        return Err(session.error), None;
      }
      sent := Some(AddRequest(parsed.value.searchInstanceId, parsed.value.resultId, targetFolder, name));
      r := AddOutcome(reply, id);
      if r.Ok? {
        downloadTths := downloadTths[r.value := None];
      }
    }

    /** `get_download`: log in, then classify the bundle reply and run the stall rule. */
    method GetDownload(downloadId: string, auth: AuthReply, reply: BundleReply, now: real, timeout: int)
      returns (r: Result<PollResult>)
      modifies this
      ensures SessionAfter(old(ssn), username, password, auth).Err? ==>
        r == Err(SessionAfter(old(ssn), username, password, auth).error) && downloadTths == old(downloadTths)
      ensures SessionAfter(old(ssn), username, password, auth).Ok? ==>
        var p := PollBundle(old(downloadTths), downloadId, reply, now, timeout);
        r == (if p.Ok? then Ok(p.value.1) else Err(p.error)) &&
        downloadTths == if p.Ok? then p.value.0 else old(downloadTths)
    {
      var session := EnsureLogin(auth);
      if session.Err? {
        return Err(session.error);
      }
      if reply.NoBundle? {
        return Ok(if downloadId in downloadTths then NoneResult else EmptyResult);
      }
      var (size, progress) := SizeAndProgress(reply.size, reply.downloadedBytes);
      var state := StateOfStatus(reply.statusId);
      if state == Failed {
        if downloadId !in downloadTths {
          return Err(KeyError);
        }
        if downloadTths[downloadId].None? {
          downloadTths := downloadTths[downloadId := Some(Round(now))];
          state := Downloading;
        } else if timeout != 0 && now - downloadTths[downloadId].value as real > timeout as real {
          state := Failed;
        }
      } else {
        downloadTths := downloadTths[downloadId := None];
      }
      var speed := if reply.speed.Some? then reply.speed.value else 0.0;
      r := Ok(Record(DownloadStatus(size, progress, speed, state)));
    }

    /** `delete_download`: send the removal, then forget the id, raising
      `KeyError` after the request when it was never registered. */
    method DeleteDownload(downloadId: string, deleteFiles: bool, auth: AuthReply)
      returns (r: Result<()>, sent: Option<DeleteRequest>)
      modifies this
      ensures SessionAfter(old(ssn), username, password, auth).Err? ==>
        r == Err(SessionAfter(old(ssn), username, password, auth).error) && sent.None? && downloadTths == old(downloadTths)
      ensures SessionAfter(old(ssn), username, password, auth).Ok? ==>
        sent == Some(DeleteRequest(downloadId, deleteFiles)) &&
        (r.Err? <==> downloadId !in old(downloadTths)) && (r.Err? ==> r.error == KeyError) &&
        downloadTths == old(downloadTths) - {downloadId}
    {
      var session := EnsureLogin(auth);
      if session.Err? {
        return Err(session.error), None;
      }
      sent := Some(DeleteRequest(downloadId, deleteFiles));
      if downloadId !in downloadTths {
        return Err(KeyError), sent;
      }
      downloadTths := downloadTths - {downloadId};
      r := Ok(());
    }

    /** `AirDCPPSearch`: log in if needed, then format the hits of the search
      instance `instanceId`. */
    method Search(auth: AuthReply, instanceId: int, reply: SearchReply) returns (r: Result<seq<SearchResult>>)
      modifies this
      ensures SessionAfter(old(ssn), username, password, auth).Err? ==>
        r == Err(SessionAfter(old(ssn), username, password, auth).error)
      ensures SessionAfter(old(ssn), username, password, auth).Ok? ==>
        r == Ok(FormatResults(prefix, id, title, instanceId, reply))
      ensures downloadTths == old(downloadTths)
    {
      var session := EnsureLogin(auth);
      if session.Err? {
        return Err(session.error);
      }
      r := Ok(FormatResults(prefix, id, title, instanceId, reply));
    }
  }
}
