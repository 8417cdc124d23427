/** The qBittorrent adapter (Web API v2): the ordered state decision over a
    torrent's properties, the instance-wide `torrent_found` flag that decides
    between `{}` and `None` on a 404, and the classification of `test`. */
module QBittorrent {
  import opened Common
  import opened Strings
  import opened Numbers
  import opened Magnet

  /** The login form: both credentials when both are non-empty, else empty. */
  function LoginForm(username: Option<string>, password: Option<string>): (f: Option<(string, string)>)
    ensures f.Some? <==> Truthy(username) && Truthy(password)
    ensures f.Some? ==> f.value == (username.value, password.value)
  {
    if Truthy(username) && Truthy(password) then Some((username.value, password.value)) else None
  }

  /** ETA qBittorrent reports for a torrent that will never finish. */
  const InfiniteEta: int := 8640000

  /** The state chain: nothing downloaded is queued, no completion date is
      downloading, a finite ETA is seeding, and the rest is importing. */
  function StateOf(piecesHave: int, completionDate: int, eta: int): (s: DownloadState)
    ensures s == Queued <==> piecesHave <= 0
    ensures s == Downloading <==> piecesHave > 0 && completionDate == -1
    ensures s == Seeding <==> piecesHave > 0 && completionDate != -1 && eta != InfiniteEta
    ensures s == Importing <==> piecesHave > 0 && completionDate != -1 && eta == InfiniteEta
  {
    if piecesHave <= 0 then Queued
    else if completionDate == -1 then Downloading
    else if eta != InfiniteEta then Seeding
    else Importing
  }

  /** The fields of `/api/v2/torrents/properties` the adapter reads. */
  datatype Properties = Properties(piecesHave: int, completionDate: int, eta: int, totalSize: int,
                                   totalDownloaded: int, totalWasted: int, dlSpeed: int)

  /** A properties reply: a transport failure, a 404, readable properties, or
      a non-404 reply whose body is not the expected JSON object. */
  datatype PropsReply = PropsTransportError | PropsNotFound | PropsFound(props: Properties) | PropsUnreadable

  /** The record of a found torrent; a zero `total_size` divides by zero. */
  function StatusOf(p: Properties): (r: Result<DownloadStatus>)
    ensures r.Err? <==> p.totalSize == 0
    ensures r.Err? ==> r.error == ZeroDivisionError
    ensures r.Ok? ==> (r.value.size == p.totalSize && r.value.speed == p.dlSpeed as real &&
                       r.value.state == StateOf(p.piecesHave, p.completionDate, p.eta))
    ensures r.Ok? && 0 <= p.totalDownloaded - p.totalWasted <= p.totalSize ==> 0.0 <= r.value.progress <= 100.0
  {
    if p.totalSize == 0 then Err(ZeroDivisionError)
    else
      var part := (p.totalDownloaded - p.totalWasted) as real;
      var whole := p.totalSize as real;
      PercentBounds(part, whole);
      Ok(DownloadStatus(p.totalSize, Percent(part, whole), p.dlSpeed as real,
                        StateOf(p.piecesHave, p.completionDate, p.eta)))
  }

  /** One `get_download`: the new `torrent_found` flag and the outcome. Any
      reply other than a transport failure or a 404 sets the flag first. */
  function Poll(found: bool, reply: PropsReply): (r: (bool, Result<PollResult>))
    ensures r.0 == (found || reply.PropsFound? || reply.PropsUnreadable?)
    ensures reply.PropsNotFound? ==> r.1 == Ok(if found then NoneResult else EmptyResult)
    ensures r.1 == Ok(EmptyResult) <==> !found && reply.PropsNotFound?
    ensures reply.PropsFound? && reply.props.totalSize != 0 ==> r.1.Ok? && r.1.value.Record?
  {
    match reply
    case PropsTransportError => (found, Err(TransportError))
    case PropsNotFound => (found, Ok(if found then NoneResult else EmptyResult))
    case PropsUnreadable => (true, Err(KeyError))
    case PropsFound(p) =>
      match StatusOf(p)
      case Ok(rec) => (true, Ok(Record(rec)))
      case Err(e) => (true, Err(e))
  }

  /** The outcomes of a run of polls from an instance whose flag is `found`. */
  function Replay(found: bool, replies: seq<PropsReply>): (rs: seq<Result<PollResult>>)
    ensures |rs| == |replies|
    decreases |replies|
  {
    if |replies| == 0 then []
    else
      var (f, r) := Poll(found, replies[0]);
      [r] + Replay(f, replies[1..])
  }

  predicate Hit(reply: PropsReply) {
    reply.PropsFound? || reply.PropsUnreadable?
  }

  /** The flag is instance-wide: a 404 yields `{}` exactly while no earlier
      reply of any id has reached the properties, and `None` afterwards. */
  lemma {:induction false} NotFoundVerdict(found: bool, replies: seq<PropsReply>, i: nat)
    requires i < |replies| && replies[i].PropsNotFound?
    ensures Replay(found, replies)[i] ==
      Ok(if found || exists j | 0 <= j < i :: Hit(replies[j]) then NoneResult else EmptyResult)
    decreases i
  {
    var (f, r) := Poll(found, replies[0]);
    if i > 0 {
      NotFoundVerdict(f, replies[1..], i - 1);
      assert Replay(found, replies)[i] == Replay(f, replies[1..])[i - 1];
      if exists j | 0 <= j < i - 1 :: Hit(replies[1..][j]) {
        var j :| 0 <= j < i - 1 && Hit(replies[1..][j]);
        assert Hit(replies[j + 1]);
      }
      if exists j | 0 <= j < i :: Hit(replies[j]) {
        var j :| 0 <= j < i && Hit(replies[j]);
        if j > 0 {
          assert Hit(replies[1..][j - 1]);
        }
      }
    }
  }

  /** `add_download`: the id is the text between the first `urn:btih:` and
      the next '&' of the (possibly renamed) link; a link without the marker
      raises `IndexError` after the torrent was already submitted. */
  function AddedId(link: string, downloadName: Option<string>): (r: Result<string>)
    ensures r.Err? <==> !Contains(SentLink(link, downloadName), BtihMarker)
    ensures r.Err? ==> r.error == IndexError
    ensures r.Ok? ==> '&' !in r.value
  {
    match BtihOf(SentLink(link, downloadName))
    case None => Err(IndexError)
    case Some(h) => Ok(h)
  }

  function SentLink(link: string, downloadName: Option<string>): string {
    if downloadName.Some? then SubDn(link, downloadName.value) else link
  }

  /** Renaming never changes the id of a magnet link. */
  lemma AddedIdIsBtih(h: string, rest: string, downloadName: Option<string>)
    requires PlainHash(h) && (rest == "" || rest[0] == '&')
    ensures AddedId(MagnetPrefix + BtihMarker + h + rest, downloadName) == Ok(h)
  {
    if downloadName.Some? {
      RenameKeepsBtih(h, rest, downloadName.value);
    } else {
      BtihOfMagnet(h, rest);
    }
  }

  /** The reply to the login probe of `test`. */
  datatype LoginReply = LoginTransportError | LoginReply(status: int, setCookie: bool)

  /** `test`: `None` on success, else the reason. */
  function Test(reply: LoginReply): (r: Option<string>)
    ensures r.None? <==> reply.LoginReply? && reply.status < 400 && reply.setCookie
    ensures reply.LoginTransportError? ==> r == Some("Can't connect; invalid base URL")
    ensures reply.LoginReply? && reply.status == 404 ==> r == Some("Invalid base URL or version too low; at least v4.1")
    ensures reply.LoginReply? && reply.status >= 400 && reply.status != 404 ==> r == Some("Invalid instance; not Qbittorrent")
    ensures reply.LoginReply? && reply.status < 400 && !reply.setCookie ==> r == Some("Can't authenticate")
  {
    match reply
    case LoginTransportError => Some("Can't connect; invalid base URL")
    case LoginReply(status, cookie) =>
      if status == 404 then Some("Invalid base URL or version too low; at least v4.1")
      else if status >= 400 then Some("Invalid instance; not Qbittorrent")
      else if cookie then None
      else Some("Can't authenticate")
  }

  datatype AddRequest = AddRequest(urls: string, savePath: string, category: string)

  datatype DeleteRequest = DeleteRequest(hashes: string, deleteFiles: bool)

  class QBittorrentClient {
    const baseUrl: string
    /** The form posted to `/api/v2/auth/login` on construction. */
    const loginForm: Option<(string, string)>
    var torrentFound: bool

    constructor (baseUrl: string, username: Option<string>, password: Option<string>)
      ensures this.baseUrl == baseUrl && loginForm == LoginForm(username, password)
      ensures !torrentFound
    {
      this.baseUrl := baseUrl;
      loginForm := LoginForm(username, password);
      torrentFound := false;
    }

    /** `add_download`: the request is always sent; the id may then fail. */
    method AddDownload(link: string, targetFolder: string, downloadName: Option<string>, torrentTag: string)
      returns (r: Result<string>, sent: AddRequest)
      ensures sent == AddRequest(SentLink(link, downloadName), targetFolder, torrentTag)
      ensures r == AddedId(link, downloadName)
    {
      sent := AddRequest(SentLink(link, downloadName), targetFolder, torrentTag);
      r := AddedId(link, downloadName);
    }

    /** `get_download`. */
    method GetDownload(id: string, reply: PropsReply) returns (r: Result<PollResult>)
      modifies this
      ensures (torrentFound, r) == Poll(old(torrentFound), reply)
      ensures old(torrentFound) ==> torrentFound
    {
      var (f, result) := Poll(torrentFound, reply);
      torrentFound := f;
      r := result;
    }

    /** `delete_download`: one removal request, no local state. */
    method DeleteDownload(id: string, deleteFiles: bool) returns (sent: DeleteRequest)
      ensures sent.hashes == id && sent.deleteFiles == deleteFiles
    {
      sent := DeleteRequest(id, deleteFiles);
    }
  }
}
