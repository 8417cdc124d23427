/** The direct-download AirDC++ integration: the Web API client (base URL and
    request rules), the account login, the `airdcpp://S/R/F` link codec, the
    per-account token cache of `_get_client`, the progress loop of `download`
    and the search-instance lifecycle of `AirDCPPSearch`. */
module DirectAirDcpp {
  import opened Common
  import opened Strings
  import opened Numbers

  // ---------------------------------------------------------------------
  // Client and requests
  // ---------------------------------------------------------------------

  /** `AirDCPPClient.__init__`: exactly one '/' between the URL and `api/v1/`. */
  function BaseUrlOf(url: Option<string>): (r: Option<string>)
    ensures r.None? <==> !Truthy(url)
    ensures r.Some? && EndsWith(url.value, "/") ==> r.value == url.value + "api/v1/"
    ensures r.Some? && !EndsWith(url.value, "/") ==> r.value == url.value + "/api/v1/"
  {
    if !Truthy(url) then None
    else if EndsWith(url.value, "/") then Some(url.value + "api/v1/")
    else Some(url.value + "/api/v1/")
  }

  /** A trailing '/' on the configured URL makes no difference. */
  lemma BaseUrlSlashInsensitive(url: string)
    requires |url| > 0 && !EndsWith(url, "/")
    ensures BaseUrlOf(Some(url + "/")) == BaseUrlOf(Some(url))
  {
    var u := url + "/";
    assert u[|u| - 1..] == "/";
    assert url + "/" + "api/v1/" == url + "/api/v1/";
  }

  /** The Authorization header sent with every request. */
  function AuthHeader(token: Option<string>): (h: Option<string>)
    ensures h.Some? <==> Truthy(token)
    ensures h.Some? ==> h.value == "Bearer " + token.value
  {
    if Truthy(token) then Some("Bearer " + token.value) else None
  }

  /** A reply to `api_request`; a body of `None` is not JSON. */
  datatype ApiReply<B> = ApiTransportError | ApiReply(status: int, text: string, body: Option<B>)

  /** `api_request`: `empty` stands for the `{}` returned for a non-JSON body. */
  function ApiRequest<B>(baseUrl: Option<string>, httpMethod: string, reply: ApiReply<B>, empty: B): (r: Result<B>)
    ensures baseUrl.None? ==> r == Err(ClientNotWorking("AirDC++ URL not configured"))
    ensures baseUrl.Some? && httpMethod !in {"GET", "POST", "DELETE"} ==> r == Err(ValueError)
    ensures r.Ok? <==> (baseUrl.Some? && httpMethod in {"GET", "POST", "DELETE"} &&
                        reply.ApiReply? && reply.status < 400)
    ensures r.Ok? ==> r.value == if reply.body.Some? then reply.body.value else empty
    ensures baseUrl.Some? && httpMethod in {"GET", "POST", "DELETE"} && reply.ApiReply? && reply.status >= 400 ==>
      r == Err(ClientNotWorking("AirDC++ API error: " + IntToString(reply.status) + " " + reply.text))
  {
    if baseUrl.None? then Err(ClientNotWorking("AirDC++ URL not configured"))
    else if httpMethod != "GET" && httpMethod != "POST" && httpMethod != "DELETE" then Err(ValueError)
    else match reply
      case ApiTransportError => Err(TransportError)
      case ApiReply(status, text, body) =>
        if status >= 400 then Err(ClientNotWorking("AirDC++ API error: " + IntToString(status) + " " + text))
        else Ok(if body.Some? then body.value else empty)
  }

  /** `str(e)` for the exceptions whose text the code inspects; the text of
      other exceptions is not modelled and reads as "". */
  function Message(e: Error): string {
    match e
    case ClientNotWorking(m) => m
    case ExternalClientNotWorking(m) => m
    case IndexError => "list index out of range"
    case _ => ""
  }

  // ---------------------------------------------------------------------
  // Account login
  // ---------------------------------------------------------------------

  /** The body of `sessions/authorize`: a JSON object or some other JSON value. */
  datatype LoginBody = LoginDict(authToken: Option<string>) | LoginNotDict

  /** `AirDCPPAccount`: the token it stores on the client, every failure
      re-raised as `ClientNotWorking("Failed to login to AirDC++: ...")`. */
  function Account(baseUrl: Option<string>, username: Option<string>, password: Option<string>,
                   reply: ApiReply<LoginBody>): (r: Result<Option<string>>)
    ensures r.Err? ==> r.error.ClientNotWorking? && StartsWith(r.error.message, "Failed to login to AirDC++: ")
    ensures !(Truthy(username) && Truthy(password)) ==>
      r == Err(ClientNotWorking("Failed to login to AirDC++: " + "Username and password are required for AirDC++ login"))
    ensures r.Ok? <==> (Truthy(username) && Truthy(password) &&
                        ApiRequest(baseUrl, "POST", reply, LoginDict(None)).Ok? &&
                        ApiRequest(baseUrl, "POST", reply, LoginDict(None)).value.LoginDict?)
    ensures r.Ok? ==> r.value == ApiRequest(baseUrl, "POST", reply, LoginDict(None)).value.authToken
  {
    var failed := "Failed to login to AirDC++: ";
    StartsWithConcat(failed, "Username and password are required for AirDC++ login");
    StartsWithConcat(failed, "Invalid response format from AirDC++ login");
    if !(Truthy(username) && Truthy(password)) then
      Err(ClientNotWorking(failed + "Username and password are required for AirDC++ login"))
    else match ApiRequest(baseUrl, "POST", reply, LoginDict(None))
      case Err(e) => StartsWithConcat(failed, Message(e)); Err(ClientNotWorking(failed + Message(e)))
      case Ok(body) =>
        if body.LoginNotDict? then Err(ClientNotWorking(failed + "Invalid response format from AirDC++ login"))
        else Ok(body.authToken)
  }

  // ---------------------------------------------------------------------
  // The airdcpp:// link codec
  // ---------------------------------------------------------------------

  const LinkScheme: string := "airdcpp://"

  /** `create_airdcpp_link`. */
  function CreateLink(searchInstanceId: string, resultId: string, fileName: string): string {
    LinkScheme + searchInstanceId + "/" + resultId + "/" + fileName
  }

  /** The parse in `AirDCPP.__init__`: every scheme occurrence removed, then
      `split('/', 2)`; fewer than three parts is the `IndexError` that the
      constructor re-raises as `ClientNotWorking`. */
  function ParseLink(link: string): (r: Result<(string, string, string)>)
    ensures r.Ok? ==> '/' !in r.value.0 && '/' !in r.value.1
    ensures r.Ok? ==> RemoveAll(link, LinkScheme) == r.value.0 + "/" + r.value.1 + "/" + r.value.2
    ensures r.Err? <==> Count(RemoveAll(link, LinkScheme), '/') < 2
  {
    var body := RemoveAll(link, LinkScheme);
    var (s, rest) := SplitOnce(body, '/');
    if rest.None? then
      CountAbsent(body, '/');
      Err(ClientNotWorking("Failed to initialize AirDC++ download: " + Message(IndexError)))
    else
      var (r, f) := SplitOnce(rest.value, '/');
      CountConcat(s, rest.value, '/');
      if f.None? then
        CountAbsent(rest.value, '/');
        Err(ClientNotWorking("Failed to initialize AirDC++ download: " + Message(IndexError)))
      else
        CountConcat(r, f.value, '/');
        SlashJoin(body, s, rest.value, r, f.value);
        Ok((s, r, f.value))
  }

  /** Splitting twice on '/' leaves three pieces that join back with '/'. */
  lemma SlashJoin(body: string, s: string, rest: string, r: string, f: string)
    requires body == s + ['/'] + rest && rest == r + ['/'] + f
    ensures body == s + "/" + r + "/" + f
  {
  }

  lemma {:induction false} CountAbsent(s: string, c: char)
    requires c !in s
    ensures Count(s, c) == 0
    decreases |s|
  {
    if |s| > 0 {
      CountAbsent(s[1..], c);
    }
  }

  lemma {:induction false} CountConcat(a: string, b: string, c: char)
    requires c !in a
    ensures Count(a + [c] + b, c) == 1 + Count(b, c)
    decreases |a|
  {
    var s := a + [c] + b;
    if |a| == 0 {
      assert s[1..] == b;
    } else {
      assert s[1..] == a[1..] + [c] + b;
      CountConcat(a[1..], b, c);
    }
  }

  /** The link round-trip: ids without '/' and a body in which the scheme
      does not occur come back unchanged; the file name may hold '/'. */
  lemma LinkRoundTrip(s: string, r: string, f: string)
    requires '/' !in s && '/' !in r
    requires !Contains(s + "/" + r + "/" + f, LinkScheme)
    ensures ParseLink(CreateLink(s, r, f)) == Ok((s, r, f))
  {
    var body := s + "/" + r + "/" + f;
    assert CreateLink(s, r, f) == LinkScheme + body;
    RemovePrefix(LinkScheme, body);
    assert body == s + ['/'] + (r + "/" + f);
    SplitOnceCons(s, r + "/" + f, '/');
    assert r + "/" + f == r + ['/'] + f;
    SplitOnceCons(r, f, '/');
  }

  /** Parts that each avoid the scheme are not enough: the scheme can form
      across the separator between the result id and the file name. */
  lemma SchemeAcrossSeparator()
    ensures var body := "a" + "/" + "airdcpp:" + "/" + "/x";
      '/' !in "a" && '/' !in "airdcpp:" && !Contains("/x", LinkScheme) && OccursAt(body, LinkScheme, 2)
  {
    var body := "a" + "/" + "airdcpp:" + "/" + "/x";
    assert body[2..12] == LinkScheme;
    assert !Contains("/x", LinkScheme);
  }

  // ---------------------------------------------------------------------
  // The token cache of _get_client
  // ---------------------------------------------------------------------

  /** A stored AirDC++ credential; the URL is kept in the `api_key` field. */
  datatype Credential = Credential(apiKey: Option<string>, username: Option<string>, password: Option<string>,
                                   email: Option<string>)

  /** An authenticated client: its base URL and bearer token. */
  datatype Client = Client(baseUrl: Option<string>, token: Option<string>)

  /** The token cache key: the e-mail, or '' without one. */
  function CacheKey(c: Credential): string {
    if Truthy(c.email) then c.email.value else ""
  }

  function CachedToken(tokens: map<string, (Option<string>, int)>, key: string): (Option<string>, int) {
    if key in tokens then tokens[key] else (None, 0)
  }

  /** Lifetime of a cached AirDC++ token, in seconds. */
  const TokenLifetime: int := 3600

  /** `_get_client` over the credentials from index `i` on: the first with a
      token still valid at `now` is used as is; otherwise each logs in in
      turn, and the first success is cached until `round(now) + 3600`. */
  function PickClient(tokens: map<string, (Option<string>, int)>, creds: seq<Credential>,
                      logins: seq<ApiReply<LoginBody>>, now: real, i: nat)
    : (r: (map<string, (Option<string>, int)>, Option<Client>))
    requires |logins| == |creds| && i <= |creds|
    ensures r.1.None? ==> r.0 == tokens
    decreases |creds| - i
  {
    if i == |creds| then (tokens, None)
    else
      var c := creds[i];
      var cached := CachedToken(tokens, CacheKey(c));
      var base := BaseUrlOf(c.apiKey);
      if cached.1 as real > now then (tokens, Some(Client(base, cached.0)))
      else match Account(base, c.username, c.password, logins[i])
        case Ok(token) => (tokens[CacheKey(c) := (token, Round(now) + TokenLifetime)], Some(Client(base, token)))
        case Err(_) => PickClient(tokens, creds, logins, now, i + 1)
  }

  /** Only the slot of a credential from index `i` on can change. */
  lemma {:induction false} PickClientFrame(tokens: map<string, (Option<string>, int)>, creds: seq<Credential>,
                                           logins: seq<ApiReply<LoginBody>>, now: real, i: nat, key: string)
    requires |logins| == |creds| && i <= |creds|
    requires forall j :: i <= j < |creds| ==> CacheKey(creds[j]) != key
    ensures CachedToken(PickClient(tokens, creds, logins, now, i).0, key) == CachedToken(tokens, key)
    decreases |creds| - i
  {
    if i < |creds| {
      var c := creds[i];
      var base := BaseUrlOf(c.apiKey);
      var login := Account(base, c.username, c.password, logins[i]);
      if CachedToken(tokens, CacheKey(c)).1 as real > now {
        assert PickClient(tokens, creds, logins, now, i).0 == tokens;
      } else if login.Ok? {
        assert PickClient(tokens, creds, logins, now, i).0 == tokens[CacheKey(c) := (login.value, Round(now) + TokenLifetime)];
      } else {
        assert PickClient(tokens, creds, logins, now, i) == PickClient(tokens, creds, logins, now, i + 1);
        PickClientFrame(tokens, creds, logins, now, i + 1, key);
      }
    }
  }

  predicate LoginFails(c: Credential, reply: ApiReply<LoginBody>) {
    Account(BaseUrlOf(c.apiKey), c.username, c.password, reply).Err?
  }

  predicate ExpiresBetween(tokens: map<string, (Option<string>, int)>, c: Credential, now: real, later: real) {
    now < CachedToken(tokens, CacheKey(c)).1 as real <= later
  }

  predicate DistinctKeys(creds: seq<Credential>) {
    forall j, k :: 0 <= j < k < |creds| ==> CacheKey(creds[j]) != CacheKey(creds[k])
  }

  /** With one cache slot per credential, the client picked at `now` is
      picked again at any `later` before its token expires, provided no other
      cached token expires in between and the credentials that failed to log
      in fail again: the picked one is not logged in again. */
  lemma {:induction false} PickClientCached(tokens: map<string, (Option<string>, int)>, creds: seq<Credential>,
                                            logins: seq<ApiReply<LoginBody>>, logins2: seq<ApiReply<LoginBody>>,
                                            now: real, later: real, i: nat)
    requires |logins| == |creds| == |logins2| && i <= |creds|
    requires DistinctKeys(creds)
    requires now <= later < (Round(now) + TokenLifetime) as real
    requires forall j :: i <= j < |creds| ==> !ExpiresBetween(tokens, creds[j], now, later)
    requires forall j :: i <= j < |creds| && LoginFails(creds[j], logins[j]) ==> LoginFails(creds[j], logins2[j])
    requires PickClient(tokens, creds, logins, now, i).1.Some?
    ensures PickClient(PickClient(tokens, creds, logins, now, i).0, creds, logins2, later, i) ==
      PickClient(tokens, creds, logins, now, i)
    decreases |creds| - i
  {
    var c := creds[i];
    var cached := CachedToken(tokens, CacheKey(c));
    var base := BaseUrlOf(c.apiKey);
    var first := PickClient(tokens, creds, logins, now, i);
    if cached.1 as real > now {
      assert first == (tokens, Some(Client(base, cached.0)));
      assert !ExpiresBetween(tokens, c, now, later);
      assert PickClient(tokens, creds, logins2, later, i) == first;
    } else {
      var login := Account(base, c.username, c.password, logins[i]);
      if login.Ok? {
        var m := tokens[CacheKey(c) := (login.value, Round(now) + TokenLifetime)];
        assert first == (m, Some(Client(base, login.value)));
        assert CachedToken(m, CacheKey(c)) == (login.value, Round(now) + TokenLifetime);
        assert PickClient(m, creds, logins2, later, i) == first;
      } else {
        assert first == PickClient(tokens, creds, logins, now, i + 1);
        PickClientCached(tokens, creds, logins, logins2, now, later, i + 1);
        var m := first.0;
        PickClientFrame(tokens, creds, logins, now, i + 1, CacheKey(c));
        assert LoginFails(c, logins[i]);
        assert PickClient(m, creds, logins2, later, i) == PickClient(m, creds, logins2, later, i + 1);
      }
    }
  }

  /** The shared token cache `auth_tokens[AIRDCPP]`, keyed by e-mail. */
  class TokenCache {
    var tokens: map<string, (Option<string>, int)>

    constructor ()
      ensures tokens == map[]
    {
      tokens := map[];
    }

    /** `_get_client`: the loop over the stored credentials. */
    method GetClient(creds: seq<Credential>, logins: seq<ApiReply<LoginBody>>, now: real) returns (r: Option<Client>)
      requires |logins| == |creds|
      modifies this
      ensures (tokens, r) == PickClient(old(tokens), creds, logins, now, 0)
    {
      var i := 0;
      while i < |creds|
        invariant 0 <= i <= |creds|
        invariant PickClient(tokens, creds, logins, now, i) == PickClient(old(tokens), creds, logins, now, 0)
      {
        var c := creds[i];
        var cached := CachedToken(tokens, CacheKey(c));
        var base := BaseUrlOf(c.apiKey);
        if cached.1 as real > now {
          return Some(Client(base, cached.0));
        }
        var login := Account(base, c.username, c.password, logins[i]);
        if login.Ok? {
          tokens := tokens[CacheKey(c) := (login.value, Round(now) + TokenLifetime)];
          return Some(Client(base, login.value));
        }
        i := i + 1;
      }
      r := None;
    }
  }

  // ---------------------------------------------------------------------
  // The download loop
  // ---------------------------------------------------------------------

  /** The reply that starts the download. */
  datatype StartReply = StartError(error: Error) | StartNoBundle | StartBundle(bundleId: int)

  /** One poll of `queue/bundles/<id>`. */
  datatype BundleReply =
    | BundleError(error: Error)
    | BundleNotDict
    | Bundle(size: Option<int>, downloadedBytes: int, speed: Option<real>, statusId: Option<string>,
             statusDownloaded: bool)

  /** The fields the loop updates between polls. */
  datatype LoopState = LoopState(size: int, progress: real, speed: real, noProgressCount: nat)

  datatype StepOutcome = Continue(st: LoopState) | Stop(st: LoopState) | Raise(error: Error)

  predicate DoneStatus(statusId: Option<string>) {
    statusId == Some("downloaded") || statusId == Some("completed") || statusId == Some("shared")
  }

  /** The progress shown for a bundle: the rounded percentage, capped at 100,
      when the size is known; else 100 or 0 by the `downloaded` flag. */
  function ProgressOf(size: int, downloadedBytes: int, statusDownloaded: bool): (p: real)
    ensures p <= 100.0
    ensures size > 0 && downloadedBytes >= 0 ==> 0.0 <= p
    ensures size <= 0 ==> p == (if statusDownloaded then 100.0 else 0.0)
  {
    if size > 0 then
      var ratio := downloadedBytes as real / size as real * 100.0;
      assert downloadedBytes >= 0 ==> ratio >= 0.0;
      Round2NonNegative(ratio);
      Min(Percent(downloadedBytes as real, size as real), 100.0)
    else if statusDownloaded then 100.0
    else 0.0
  }

  /** One iteration of the loop. `last_size` is set to the current byte
      count before the stall check, so the check always sees no progress. */
  function Step(st: LoopState, reply: BundleReply): (o: StepOutcome)
    ensures o.Continue? ==> o.st.noProgressCount == st.noProgressCount + 1
    ensures (o.Continue? || o.Stop?) && st.progress <= 100.0 ==> o.st.progress <= 100.0
    ensures reply.Bundle? && DoneStatus(reply.statusId) ==> o.Stop? && o.st.progress == 100.0
  {
    match reply
    case BundleError(e) => Raise(e)
    case BundleNotDict => Stop(st)
    case Bundle(size, downloaded, speed, statusId, statusDownloaded) =>
      var newSize := if size.Some? then size.value else st.size;
      var progress := ProgressOf(newSize, downloaded, statusDownloaded);
      // without a reported speed, the speed is timed; the timing is not modelled
      var newSpeed := if speed.Some? then speed.value else st.speed;
      var count := st.noProgressCount + 1;
      if DoneStatus(statusId) then Stop(LoopState(newSize, 100.0, newSpeed, st.noProgressCount))
      else if count >= 10 && statusDownloaded then Stop(LoopState(newSize, 100.0, newSpeed, count))
      else Continue(LoopState(newSize, progress, newSpeed, count))
  }

  /** The loop over the polls it gets until `stop()`; running out of polls
      is the stop. */
  function Run(st: LoopState, polls: seq<BundleReply>): (r: (LoopState, Result<()>))
    ensures r.1.Ok? && st.progress <= 100.0 ==> r.0.progress <= 100.0
    decreases |polls|
  {
    if |polls| == 0 then (st, Ok(()))
    else match Step(st, polls[0])
      case Raise(e) => (st, Err(e))
      case Stop(st') => (st', Ok(()))
      case Continue(st') => Run(st', polls[1..])
  }

  /** Because the counter grows on every poll, a poll reporting the bundle
      as downloaded ends the loop by the tenth poll at the latest, however
      the byte count moves. */
  lemma {:induction false} StopsByTenthPoll(st: LoopState, polls: seq<BundleReply>)
    requires st.noProgressCount < 10
    requires 10 - st.noProgressCount <= |polls|
    requires forall j :: 0 <= j < |polls| ==> polls[j].Bundle? ==> polls[j].statusDownloaded
    requires polls[10 - st.noProgressCount - 1].Bundle?
    ensures Run(st, polls) == Run(st, polls[..10 - st.noProgressCount])
    ensures Run(st, polls).1.Ok? ==> EndsByBreak(st, polls)
    decreases 10 - st.noProgressCount
  {
    var k := 10 - st.noProgressCount;
    var q := polls[..k];
    assert q[0] == polls[0];
    match Step(st, polls[0])
    case Raise(_) =>
    case Stop(_) =>
    case Continue(st') =>
      assert polls[1..][..k - 1] == q[1..];
      StopsByTenthPoll(st', polls[1..]);
  }

  /** Whether the loop ends by a `break`: a poll that is not a dict, or one
      that finishes the download, before the polls run out. Running out of
      polls is `stop()` clearing `downloading`, which ends the loop without one. */
  function EndsByBreak(st: LoopState, polls: seq<BundleReply>): (b: bool)
    ensures b ==> |polls| > 0 && Run(st, polls).1.Ok?
    ensures |polls| > 0 && polls[0].Bundle? && DoneStatus(polls[0].statusId) ==> b
    ensures |polls| > 0 && polls[0].BundleNotDict? ==> b
    decreases |polls|
  {
    if |polls| == 0 then false
    else match Step(st, polls[0])
      case Raise(_) => false
      case Stop(_) => true
      case Continue(st') => EndsByBreak(st', polls[1..])
  }

  /** `str(e)` of the exception leaving `download`. */
  function DownloadFailure(e: Error): (r: Error)
    ensures r.DownloadLimitReached? <==> Contains(Lower(Message(e)), "download limit")
    ensures r.ClientNotWorking? ==> r.message == "Download failed: " + Message(e)
  {
    if Contains(Lower(Message(e)), "download limit") then DownloadLimitReached(AirDcppSource, None)
    else ClientNotWorking("Download failed: " + Message(e))
  }

  /** The text `AirDCPP.__init__` puts before any failure it re-raises. */
  const InitFailed: string := "Failed to initialize AirDC++ download: "

  /** The outcome of `AirDCPP.__init__` for a link and the client
      `_get_client` found: the link's parts and the client, a link with too
      few parts, or no client, each failure re-raised as `ClientNotWorking`. */
  function Init(link: string, client: Option<Client>): (r: Result<((string, string, string), Client)>)
    ensures r.Ok? <==> ParseLink(link).Ok? && client.Some?
    ensures r.Ok? ==> r.value.0 == ParseLink(link).value && r.value.1 == client.value
    ensures ParseLink(link).Err? ==> r == Err(ClientNotWorking(InitFailed + Message(IndexError)))
    ensures ParseLink(link).Ok? && client.None? ==>
      r == Err(ClientNotWorking(InitFailed + "AirDC++ client is not configured"))
  {
    match ParseLink(link)
    case Err(e) => Err(e)
    case Ok(parts) =>
      if client.None? then Err(ClientNotWorking(InitFailed + Message(ClientNotWorking("AirDC++ client is not configured"))))
      else Ok((parts, client.value))
  }

  class DirectDownload {
    const searchInstanceId: string
    const resultId: string
    const fileName: string
    const client: Client
    var size: int
    var progress: real
    var speed: real
    var downloading: bool

    /** The state `AirDCPP.__init__` leaves once the link is parsed and a
      client found; `OpenDownload` is the initialisation with its failures. */
    constructor (parts: (string, string, string), c: Client)
      ensures (searchInstanceId, resultId, fileName) == parts && client == c
      ensures size == 0 && progress == 0.0 && speed == 0.0 && !downloading
    {
      searchInstanceId := parts.0;
      resultId := parts.1;
      fileName := parts.2;
      client := c;
      size := 0;
      progress := 0.0;
      speed := 0.0;
      downloading := false;
    }

    /** `stop`. */
    method Stop()
      modifies this
      ensures !downloading && size == old(size) && progress == old(progress) && speed == old(speed)
    {
      downloading := false;
    }

    /** `download`: start the bundle, then poll until done or stopped; a
      normal end always reports 100%. The polls are those made before
      `stop()` is called: when they run out, `stop()` clears `downloading`
      and the loop ends without a `break`. */
    method Download(start: StartReply, polls: seq<BundleReply>) returns (r: Result<()>)
      modifies this
      ensures !start.StartBundle? ==> downloading
      ensures start.StartError? ==> r == Err(DownloadFailure(start.error))
      ensures start.StartNoBundle? ==> r == Err(DownloadFailure(ClientNotWorking("Failed to start download")))
      ensures start.StartBundle? ==>
        var st0 := LoopState(old(size), old(progress), old(speed), 0);
        var (st, res) := Run(st0, polls);
        (res.Err? ==> r == Err(DownloadFailure(res.error)) && downloading) &&
        (res.Ok? ==> r == Ok(()) && progress == 100.0 && size == st.size && speed == st.speed &&
                     downloading == EndsByBreak(st0, polls))
    {
      downloading := true;
      match start
      case StartError(e) =>
        return Err(DownloadFailure(e));
      case StartNoBundle =>
        return Err(DownloadFailure(ClientNotWorking("Failed to start download")));
      case StartBundle(_) =>
        var st := LoopState(size, progress, speed, 0);
        var i := 0;
        ghost var st0 := st;
        while i < |polls|
          invariant 0 <= i <= |polls|
          invariant Run(st0, polls) == Run(st, polls[i..])
          invariant EndsByBreak(st0, polls) == EndsByBreak(st, polls[i..])
          invariant st.size == size && st.progress == progress && st.speed == speed
          invariant downloading
        {
          assert polls[i..][1..] == polls[i + 1..];
          var o := Step(st, polls[i]);
          match o
          case Raise(e) =>
            return Err(DownloadFailure(e));
          case Stop(st') =>
            size, progress, speed := st'.size, st'.progress, st'.speed;
            break;
          case Continue(st') =>
            st := st';
            size, progress, speed := st'.size, st'.progress, st'.speed;
            i := i + 1;
        }
        if downloading && i == |polls| {
          Stop();
        }
        progress := 100.0;
        r := Ok(());
    }
  }

  /** `AirDCPP.__init__`: the link is parsed first, and only a link that
      parses goes on to `_get_client`, which may log in and so update the
      token cache; `Init` gives the outcome. */
  method OpenDownload(link: string, cache: TokenCache, creds: seq<Credential>,
                      logins: seq<ApiReply<LoginBody>>, now: real) returns (r: Result<DirectDownload>)
    requires |logins| == |creds|
    modifies cache
    ensures ParseLink(link).Err? ==> cache.tokens == old(cache.tokens)
    ensures var found := if ParseLink(link).Ok? then PickClient(old(cache.tokens), creds, logins, now, 0) else (old(cache.tokens), None);
      cache.tokens == found.0 &&
      (r.Err? ==> Init(link, found.1) == Err(r.error)) &&
      (r.Ok? ==> Init(link, found.1) == Ok(((r.value.searchInstanceId, r.value.resultId, r.value.fileName), r.value.client)) &&
                 fresh(r.value) && r.value.size == 0 && r.value.progress == 0.0 && r.value.speed == 0.0 && !r.value.downloading)
  {
    match ParseLink(link)
    case Err(e) =>
      return Err(e);
    case Ok(parts) =>
      var found := cache.GetClient(creds, logins, now);
      if found.None? {
        return Err(ClientNotWorking(InitFailed + "AirDC++ client is not configured"));
      }
      var d := new DirectDownload(parts, found.value);
      return Ok(d);
  }

  // ---------------------------------------------------------------------
  // AirDCPPSearch
  // ---------------------------------------------------------------------

  /** The reply creating a search instance: a JSON object or another value. */
  datatype InstanceBody = InstanceDict(id: Option<string>) | InstanceNotDict

  /** The results listing: a bare list, an object whose `results` is a list
      (`None` when absent or not a list), or some other JSON value. */
  datatype ResultsBody<H> = ResultsList(items: seq<H>) | ResultsDict(results: Option<seq<H>>) | ResultsOther

  /** The hits a results reply yields; failures yield none. */
  function HitsOf<H>(baseUrl: Option<string>, reply: ApiReply<ResultsBody<H>>): (hits: seq<H>)
    ensures ApiRequest(baseUrl, "GET", reply, ResultsDict(None)).Err? ==> hits == []
    ensures reply.ApiReply? && reply.status < 400 && baseUrl.Some? && reply.body.Some? ==>
      hits == match reply.body.value
        case ResultsList(items) => items
        case ResultsDict(results) => if results.Some? then results.value else []
        case ResultsOther => []
  {
    match ApiRequest(baseUrl, "GET", reply, ResultsDict(None))
    case Err(_) => []
    case Ok(body) =>
      match body
      case ResultsList(items) => items
      case ResultsDict(results) => if results.Some? then results.value else []
      case ResultsOther => []
  }

  class SearchSession<H> {
    const baseUrl: Option<string>
    var searchInstanceId: Option<string>

    constructor (url: Option<string>)
      ensures baseUrl == BaseUrlOf(url) && searchInstanceId == None
    {
      baseUrl := BaseUrlOf(url);
      searchInstanceId := None;
    }

    /** `create_search_instance`: the id of a JSON-object reply is stored
      (possibly `None`); any other outcome returns `None` and keeps the old id. */
    method CreateSearchInstance(reply: ApiReply<InstanceBody>) returns (r: Option<string>)
      modifies this
      ensures var q := ApiRequest(baseUrl, "POST", reply, InstanceDict(None));
        (q.Ok? && q.value.InstanceDict? ==> r == q.value.id && searchInstanceId == q.value.id) &&
        (!(q.Ok? && q.value.InstanceDict?) ==> r == None && searchInstanceId == old(searchInstanceId))
    {
      var q := ApiRequest(baseUrl, "POST", reply, InstanceDict(None));
      if q.Ok? && q.value.InstanceDict? {
        searchInstanceId := q.value.id;
        return q.value.id;
      }
      r := None;
    }

    /** `perform_search`: an instance is created on demand; without one, or
      on any failure, the result is empty. */
    method PerformSearch(create: ApiReply<InstanceBody>, start: ApiReply<()>, results: ApiReply<ResultsBody<H>>)
      returns (hits: seq<H>)
      modifies this
      ensures old(Truthy(searchInstanceId)) ==> searchInstanceId == old(searchInstanceId)
      ensures !old(Truthy(searchInstanceId)) ==>
        var q := ApiRequest(baseUrl, "POST", create, InstanceDict(None));
        searchInstanceId == if q.Ok? && q.value.InstanceDict? then q.value.id else old(searchInstanceId)
      ensures !Truthy(searchInstanceId) ==> hits == []
      ensures Truthy(searchInstanceId) ==>
        hits == if ApiRequest(baseUrl, "POST", start, ()).Err? then [] else HitsOf(baseUrl, results)
    {
      if !Truthy(searchInstanceId) {
        var _ := CreateSearchInstance(create);
      }
      if !Truthy(searchInstanceId) {
        return [];
      }
      if ApiRequest(baseUrl, "POST", start, ()).Err? {
        return [];
      }
      hits := HitsOf(baseUrl, results);
    }

    /** `close_search_instance`: forget the instance once its deletion succeeded. */
    method CloseSearchInstance(reply: ApiReply<()>)
      modifies this
      ensures searchInstanceId ==
        if Truthy(old(searchInstanceId)) && ApiRequest(baseUrl, "DELETE", reply, ()).Ok? then None
        else old(searchInstanceId)
    {
      if Truthy(searchInstanceId) && ApiRequest(baseUrl, "DELETE", reply, ()).Ok? {
        searchInstanceId := None;
      }
    }
  }
}
