/** The Transmission torrent client adapter: the status table, the CSRF
    session-id handshake of the Transmission RPC protocol (409 carrying
    `X-Transmission-Session-Id`), the RPC error mapping, and the per-hash stall
    tracker `torrent_hashes`. */
module Transmission {
  import opened Common
  import opened Strings
  import opened Numbers
  import opened Magnet

  // ---------------------------------------------------------------------
  // Status table and stall predicate
  // ---------------------------------------------------------------------

  /** A non-zero `error` is failed; otherwise `state_mapping.get(status, IMPORTING)`. */
  function StateOf(error: int, status: int): (s: DownloadState)
    ensures error != 0 ==> s == Failed
    ensures error == 0 ==>
      (s == Paused <==> status == 0) &&
      (s == Downloading <==> status == 1 || status == 2 || status == 4) &&
      (s == Queued <==> status == 3) &&
      (s == Seeding <==> status == 5 || status == 6) &&
      (s == Importing <==> !(0 <= status <= 6))
  {
    if error != 0 then Failed
    else if status == 0 then Paused
    else if status == 1 || status == 2 || status == 4 then Downloading
    else if status == 3 then Queued
    else if status == 5 || status == 6 then Seeding
    else Importing
  }

  /** Checking, waiting, or downloading at zero rate. */
  predicate PotentialStall(status: int, rateDownload: int) {
    status == 1 || status == 2 || status == 3 || (status == 4 && rateDownload == 0)
  }

  /** A potential stall of a torrent without error is always downloading or
      queued, so only an error excludes it from the stall clock. */
  lemma StallStates(status: int, rateDownload: int)
    requires PotentialStall(status, rateDownload)
    ensures StateOf(0, status) == Downloading || StateOf(0, status) == Queued
  {
  }

  /** The stall rule: a potential stall that is neither failed nor seeding
      starts the clock (reporting downloading) or, once the clock runs longer
      than a non-zero timeout, reports failed; everything else resets the clock. */
  function StallStep(hashes: map<string, Option<int>>, id: string, state: DownloadState,
                     status: int, rateDownload: int, now: real, timeout: int)
    : (r: (map<string, Option<int>>, DownloadState))
    ensures r.0.Keys == hashes.Keys + {id}
    ensures forall k :: k in hashes && k != id ==> r.0[k] == hashes[k]
    ensures r.1 == Failed <==>
      state == Failed ||
      (PotentialStall(status, rateDownload) && state != Seeding && id in hashes && hashes[id].Some? &&
       timeout != 0 && now - hashes[id].value as real > timeout as real)
    ensures !PotentialStall(status, rateDownload) ==> r.0[id].None? && r.1 == state
  {
    if PotentialStall(status, rateDownload) && state != Failed && state != Seeding then
      var ts := if id in hashes then hashes[id] else None;
      if ts.None? then (hashes[id := Some(Round(now))], Downloading)
      else if timeout != 0 && now - ts.value as real > timeout as real then (hashes, Failed)
      else (hashes, state)
    else (hashes[id := None], state)
  }

  /** A torrent stalled since the poll at `now1` is reported failed at `now2`
      exactly when the clock started at `now1` has run past the timeout. */
  lemma {:induction false} StallTimesOut(hashes: map<string, Option<int>>, id: string, status: int, rate: int,
                                         now1: real, now2: real, timeout: int)
    requires PotentialStall(status, rate)
    requires id !in hashes || hashes[id].None?
    ensures StallStep(hashes, id, StateOf(0, status), status, rate, now1, timeout).1 == Downloading
    ensures var m := StallStep(hashes, id, StateOf(0, status), status, rate, now1, timeout).0;
      StallStep(m, id, StateOf(0, status), status, rate, now2, timeout).1 == Failed <==>
      timeout != 0 && now2 - Round(now1) as real > timeout as real
  {
    StallStates(status, rate);
  }

  // ---------------------------------------------------------------------
  // Handshake and RPC
  // ---------------------------------------------------------------------

  /** The session: basic auth when both credentials are given, and the
      `X-Transmission-Session-Id` header once known. */
  datatype TSession = TSession(auth: Option<(string, string)>, sessionId: Option<string>)

  /** The reply to the `session-get` probe. */
  datatype Handshake = HandshakeTransportError | Handshake(status: int, sessionId: Option<string>)

  function AuthOf(username: Option<string>, password: Option<string>): Option<(string, string)> {
    if Truthy(username) && Truthy(password) then Some((username.value, password.value)) else None
  }

  function RpcUrl(baseUrl: string): string {
    baseUrl + "/transmission/rpc"
  }

  /** `_ensure_session_id`: a 409 must carry the session id; 401/403 are bad
      credentials; any other status of 400 or more, or a transport error, means
      the client is not working; a success keeps a session id if one is sent. */
  function EnsureSessionId(username: Option<string>, password: Option<string>, reply: Handshake): (r: Result<TSession>)
    ensures r.Ok? ==> r.value.auth == AuthOf(username, password)
    ensures r.Ok? ==> reply.Handshake? && (reply.status == 409 || reply.status < 400)
    ensures reply.Handshake? && reply.status == 409 ==>
      (r.Ok? <==> Truthy(reply.sessionId)) && (r.Ok? ==> r.value.sessionId == reply.sessionId)
    ensures r == Err(CredentialInvalid) <==> reply.Handshake? && (reply.status == 401 || reply.status == 403)
    ensures r.Err? ==> r.error == ClientNotWorking("") || r.error == CredentialInvalid
  {
    var auth := AuthOf(username, password);
    match reply
    case HandshakeTransportError => Err(ClientNotWorking(""))
    case Handshake(status, sid) =>
      if status == 409 then
        if Truthy(sid) then Ok(TSession(auth, sid)) else Err(ClientNotWorking(""))
      else if status == 401 || status == 403 then Err(CredentialInvalid)
      else if status >= 400 then Err(ClientNotWorking(""))
      else Ok(TSession(auth, if Truthy(sid) then sid else None))
  }

  /** The JSON body of an RPC reply; `NotJson` makes `r.json()` raise. */
  datatype RpcBody<A> = NotJson | RpcData(result: Option<string>, arguments: Option<A>)

  datatype RpcReply<A> = RpcTransportError | RpcReply(status: int, sessionId: Option<string>, body: RpcBody<A>)

  /** The classification of the reply `_rpc` ends with. A transport error here
      can only be the retry's, which `_rpc` does not catch. */
  function Outcome<A>(reply: RpcReply<A>, empty: A): (r: Result<A>)
    ensures r.Ok? <==> (reply.RpcReply? && reply.status < 400 && reply.status != 401 && reply.status != 403 &&
                        reply.body.RpcData? && reply.body.result == Some("success"))
    ensures r == Err(CredentialInvalid) <==> reply.RpcReply? && (reply.status == 401 || reply.status == 403)
    ensures r.Ok? ==> r.value == if reply.body.arguments.Some? then reply.body.arguments.value else empty
  {
    match reply
    case RpcTransportError => Err(TransportError)
    case RpcReply(status, _, body) =>
      if status == 401 || status == 403 then Err(CredentialInvalid)
      else if status >= 400 then Err(ClientNotWorking(""))
      else match body
        case NotJson => Err(TransportError)
        case RpcData(result, args) =>
          if result != Some("success") then Err(ClientNotWorking(""))
          else Ok(if args.Some? then args.value else empty)
  }

  /** `_rpc` on an established session: a 409 with a session id refreshes the
      header and retries exactly once; a 409 without one is `ClientNotWorking`. */
  function Rpc<A>(ssn: TSession, first: RpcReply<A>, retry: RpcReply<A>, empty: A): (r: (TSession, Result<A>))
    ensures r.0.auth == ssn.auth
    ensures r.0 != ssn ==> first.RpcReply? && first.status == 409 && r.0.sessionId == first.sessionId
    ensures first.RpcReply? && first.status == 409 && Truthy(first.sessionId) ==>
      r.0.sessionId == first.sessionId && r.1 == Outcome(retry, empty)
    ensures first.RpcReply? && first.status == 409 && !Truthy(first.sessionId) ==> r.1 == Err(ClientNotWorking(""))
  {
    match first
    case RpcTransportError => (ssn, Err(ClientNotWorking("")))
    case RpcReply(status, sid, _) =>
      if status == 409 then
        if !Truthy(sid) then (ssn, Err(ClientNotWorking("")))
        else (ssn.(sessionId := sid), Outcome(retry, empty))
      else (ssn, Outcome(first, empty))
  }

  /** The retry reply is only read after a 409. */
  lemma RetryOnlyAfterConflict<A>(ssn: TSession, first: RpcReply<A>, r1: RpcReply<A>, r2: RpcReply<A>, empty: A)
    requires !(first.RpcReply? && first.status == 409)
    ensures Rpc(ssn, first, r1, empty) == Rpc(ssn, first, r2, empty)
    ensures Rpc(ssn, first, r1, empty).0 == ssn
  {
  }

  /** There is no second retry: a 409 answering the retry is an error. */
  lemma RetriesOnce<A>(ssn: TSession, first: RpcReply<A>, retry: RpcReply<A>, empty: A)
    requires first.RpcReply? && first.status == 409 && Truthy(first.sessionId)
    requires retry.RpcReply? && retry.status == 409
    ensures Rpc(ssn, first, retry, empty).1 == Err(ClientNotWorking(""))
  {
  }

  /** `test`: the `session-get` exchange of `_rpc` on a fresh session, returning
      nothing on success and raising otherwise. */
  function Test(username: Option<string>, password: Option<string>, first: RpcReply<()>, retry: RpcReply<()>)
    : (r: Result<()>)
    ensures r.Ok? ==> (first.RpcReply? && first.status == 409 ==> Outcome(retry, ()).Ok?)
    ensures r.Ok? ==> (first.RpcReply? && first.status != 409 ==> Outcome(first, ()).Ok?)
    ensures r.Err? ==> r.error == ClientNotWorking("") || r.error == CredentialInvalid || r.error == TransportError
  {
    match first
    case RpcTransportError => Err(ClientNotWorking(""))
    case RpcReply(status, sid, _) =>
      if status == 409 then
        if !Truthy(sid) then Err(ClientNotWorking("")) else Outcome(retry, ())
      else Outcome(first, ())
  }

  /** `test` agrees with `_rpc` on a fresh session with the given credentials. */
  lemma TestIsRpc(username: Option<string>, password: Option<string>, first: RpcReply<()>, retry: RpcReply<()>)
    ensures Test(username, password, first, retry) == Rpc(TSession(AuthOf(username, password), None), first, retry, ()).1
  {
  }

  // ---------------------------------------------------------------------
  // torrent-add
  // ---------------------------------------------------------------------

  /** `torrent-added` / `torrent-duplicate` entries: `EmptyRef` is an empty dict. */
  datatype TorrentRef = EmptyRef | TorrentRef(hashString: Option<string>)

  datatype AddArgs = AddArgs(added: Option<TorrentRef>, duplicate: Option<TorrentRef>)

  const NoAddArgs: AddArgs := AddArgs(None, None)

  datatype AddRequest = AddRequest(filename: string, downloadDir: Option<string>)

  /** The link sent: with a download name, every `&dn=` value is replaced. */
  function SentLink(link: string, downloadName: Option<string>): string {
    if downloadName.Some? then SubDn(link, downloadName.value) else link
  }

  function TorrentAddRequest(link: string, targetFolder: string, downloadName: Option<string>): (q: AddRequest)
    ensures q.downloadDir.Some? <==> |targetFolder| > 0
  {
    AddRequest(SentLink(link, downloadName), if |targetFolder| > 0 then Some(targetFolder) else None)
  }

  predicate TruthyRef(r: Option<TorrentRef>) {
    r.Some? && r.value.TorrentRef?
  }

  /** The id of an added torrent: the hashString of `torrent-added`, else of
      `torrent-duplicate`, falling back to the magnet's info hash. */
  function AddedHash(sentLink: string, args: AddArgs): (r: Result<string>)
    ensures !TruthyRef(args.added) && !TruthyRef(args.duplicate) ==> r == Err(ClientNotWorking(""))
    ensures TruthyRef(args.added) && Truthy(args.added.value.hashString) ==> r == Ok(args.added.value.hashString.value)
    ensures !TruthyRef(args.added) && TruthyRef(args.duplicate) && Truthy(args.duplicate.value.hashString) ==>
      r == Ok(args.duplicate.value.hashString.value)
    ensures r.Err? ==> r.error == ClientNotWorking("")
  {
    var added := if TruthyRef(args.added) then args.added else args.duplicate;
    if !TruthyRef(added) then Err(ClientNotWorking(""))
    else if Truthy(added.value.hashString) then Ok(added.value.hashString.value)
    else match BtihOf(sentLink)
      case None => Err(ClientNotWorking(""))
      case Some(h) => Ok(h)
  }

  /** Without a hash in the reply the id is the info hash of the magnet link,
      whatever name it was renamed to. */
  lemma FallbackHashIsBtih(h: string, rest: string, downloadName: Option<string>, ref: TorrentRef)
    requires PlainHash(h) && (rest == "" || rest[0] == '&')
    requires ref.TorrentRef? && !Truthy(ref.hashString)
    ensures AddedHash(SentLink(MagnetPrefix + BtihMarker + h + rest, downloadName), AddArgs(Some(ref), None)) == Ok(h)
  {
    if downloadName.Some? {
      RenameKeepsBtih(h, rest, downloadName.value);
    } else {
      BtihOfMagnet(h, rest);
    }
  }

  // ---------------------------------------------------------------------
  // torrent-get
  // ---------------------------------------------------------------------

  /** One torrent of a `torrent-get` reply; missing fields are 0. */
  datatype Torrent = Torrent(error: int, status: int, rateDownload: int, percentDone: real, totalSize: int)

  datatype GetArgs = GetArgs(torrents: Option<seq<Torrent>>)

  const NoGetArgs: GetArgs := GetArgs(None)

  /** `get_download` after a successful RPC. */
  function PollTorrents(hashes: map<string, Option<int>>, id: string, torrents: seq<Torrent>, now: real, timeout: int)
    : (r: (map<string, Option<int>>, PollResult))
    ensures |torrents| == 0 ==> r == (hashes, if id in hashes then NoneResult else EmptyResult)
    ensures |torrents| > 0 ==> r.1.Record? && r.1.status.size == torrents[0].totalSize
    ensures |torrents| > 0 && 0.0 <= torrents[0].percentDone <= 1.0 ==> 0.0 <= r.1.status.progress <= 100.0
    ensures |torrents| > 0 && torrents[0].error != 0 ==> r.1.status.state == Failed
  {
    if |torrents| == 0 then (hashes, if id in hashes then NoneResult else EmptyResult)
    else
      var t := torrents[0];
      var (m, state) := StallStep(hashes, id, StateOf(t.error, t.status), t.status, t.rateDownload, now, timeout);
      PercentBounds(t.percentDone, 1.0);
      (m, Record(DownloadStatus(t.totalSize, Round2(t.percentDone * 100.0), t.rateDownload as real, state)))
  }

  function TorrentsOf(args: GetArgs): seq<Torrent> {
    if args.torrents.Some? then args.torrents.value else []
  }

  datatype RemoveRequest = RemoveRequest(id: string, deleteLocalData: bool)

  // ---------------------------------------------------------------------
  // The client object
  // ---------------------------------------------------------------------

  class TransmissionClient {
    const baseUrl: string
    const username: Option<string>
    const password: Option<string>
    var ssn: Option<TSession>
    var rpcUrl: Option<string>
    var torrentHashes: map<string, Option<int>>

    /** A session exists only together with its RPC url. */
    predicate Valid()
      reads this
    {
      ssn.Some? ==> rpcUrl == Some(RpcUrl(baseUrl))
    }

    constructor (baseUrl: string, username: Option<string>, password: Option<string>)
      ensures Valid()
      ensures this.baseUrl == baseUrl && this.username == username && this.password == password
      ensures ssn == None && rpcUrl == None && torrentHashes == map[]
    {
      this.baseUrl := baseUrl;
      this.username := username;
      this.password := password;
      ssn := None;
      rpcUrl := None;
      torrentHashes := map[];
    }

    /** `if not self.ssn: self.ssn = self._login(...)`. */
    method Login(hs: Handshake) returns (r: Result<()>)
      requires Valid()
      modifies this
      ensures Valid() && torrentHashes == old(torrentHashes)
      ensures old(ssn).Some? ==> r == Ok(()) && ssn == old(ssn) && rpcUrl == old(rpcUrl)
      ensures old(ssn).None? ==>
        var e := EnsureSessionId(username, password, hs);
        (e.Ok? ==> r == Ok(()) && ssn == Some(e.value) && rpcUrl == Some(RpcUrl(baseUrl))) &&
        (e.Err? ==> r == Err(e.error) && ssn == None && rpcUrl == old(rpcUrl))
    {
      if ssn.Some? {
        return Ok(());
      }
      var e := EnsureSessionId(username, password, hs);
      if e.Err? {
        return Err(e.error);
      }
      rpcUrl := Some(RpcUrl(baseUrl));
      ssn := Some(e.value);
      r := Ok(());
    }

    /** `_rpc` once a session exists; the session-id refresh is kept even
      when the retried call fails. */
    method Call<A>(first: RpcReply<A>, retry: RpcReply<A>, empty: A) returns (r: Result<A>)
      requires Valid() && ssn.Some?
      modifies this
      ensures Valid() && ssn.Some? && torrentHashes == old(torrentHashes) && rpcUrl == old(rpcUrl)
      ensures (ssn.value, r) == Rpc(old(ssn.value), first, retry, empty)
    {
      var (s, result) := Rpc(ssn.value, first, retry, empty);
      ssn := Some(s);
      r := result;
    }

    /** `add_download`. */
    method AddDownload(link: string, targetFolder: string, downloadName: Option<string>, hs: Handshake,
                       first: RpcReply<AddArgs>, retry: RpcReply<AddArgs>)
      returns (r: Result<string>, sent: Option<AddRequest>)
      requires Valid()
      modifies this
      ensures Valid()
      ensures old(ssn).None? && EnsureSessionId(username, password, hs).Err? ==>
        r == Err(EnsureSessionId(username, password, hs).error) && sent.None? && torrentHashes == old(torrentHashes)
      ensures old(ssn).Some? || EnsureSessionId(username, password, hs).Ok? ==>
        var s := if old(ssn).Some? then old(ssn.value) else EnsureSessionId(username, password, hs).value;
        var c := Rpc(s, first, retry, NoAddArgs);
        sent.Some? &&
        (c.1.Err? ==> r == Err(c.1.error)) &&
        (c.1.Ok? ==> r == AddedHash(SentLink(link, downloadName), c.1.value))
      ensures torrentHashes == if r.Ok? then old(torrentHashes)[r.value := None] else old(torrentHashes)
      ensures sent.Some? ==> sent.value == TorrentAddRequest(link, targetFolder, downloadName)
    {
      var login := Login(hs);
      if login.Err? {
        return Err(login.error), None;
      }
      sent := Some(TorrentAddRequest(link, targetFolder, downloadName));
      var result := Call(first, retry, NoAddArgs);
      if result.Err? {
        return Err(result.error), sent;
      }
      r := AddedHash(SentLink(link, downloadName), result.value);
      if r.Ok? {
        torrentHashes := torrentHashes[r.value := None];
      }
    }

    /** `get_download`. */
    method GetDownload(id: string, hs: Handshake, first: RpcReply<GetArgs>, retry: RpcReply<GetArgs>,
                       now: real, timeout: int)
      returns (r: Result<PollResult>)
      requires Valid()
      modifies this
      ensures Valid()
      ensures old(ssn).None? && EnsureSessionId(username, password, hs).Err? ==>
        r == Err(EnsureSessionId(username, password, hs).error) && torrentHashes == old(torrentHashes)
      ensures old(ssn).Some? || EnsureSessionId(username, password, hs).Ok? ==>
        var s := if old(ssn).Some? then old(ssn.value) else EnsureSessionId(username, password, hs).value;
        var c := Rpc(s, first, retry, NoGetArgs);
        (c.1.Err? ==> r == Err(c.1.error) && torrentHashes == old(torrentHashes)) &&
        (c.1.Ok? ==>
          var p := PollTorrents(old(torrentHashes), id, TorrentsOf(c.1.value), now, timeout);
          r == Ok(p.1) && torrentHashes == p.0)
    {
      var login := Login(hs);
      if login.Err? {
        return Err(login.error);
      }
      var result := Call(first, retry, NoGetArgs);
      if result.Err? {
        return Err(result.error);
      }
      var (m, poll) := PollTorrents(torrentHashes, id, TorrentsOf(result.value), now, timeout);
      torrentHashes := m;
      r := Ok(poll);
    }

    /** `delete_download`: remove on the client, then forget the hash if it
      was tracked; an unknown hash is not an error. */
    method DeleteDownload(id: string, deleteFiles: bool, hs: Handshake, first: RpcReply<()>, retry: RpcReply<()>)
      returns (r: Result<()>, sent: Option<RemoveRequest>)
      requires Valid()
      modifies this
      ensures Valid()
      ensures old(ssn).None? && EnsureSessionId(username, password, hs).Err? ==>
        r == Err(EnsureSessionId(username, password, hs).error) && sent.None?
      ensures old(ssn).Some? || EnsureSessionId(username, password, hs).Ok? ==>
        var s := if old(ssn).Some? then old(ssn.value) else EnsureSessionId(username, password, hs).value;
        sent == Some(RemoveRequest(id, deleteFiles)) && r == Rpc(s, first, retry, ()).1
      ensures torrentHashes == if r.Ok? then old(torrentHashes) - {id} else old(torrentHashes)
    {
      var login := Login(hs);
      if login.Err? {
        return Err(login.error), None;
      }
      sent := Some(RemoveRequest(id, deleteFiles));
      r := Call(first, retry, ());
      if r.Ok? && id in torrentHashes {
        torrentHashes := torrentHashes - {id};
      }
    }
  }
}
