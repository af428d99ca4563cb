/** The client of the store's lookup and search API (services/itunesService.ts).
    The network is a parameter `respond` giving the transport outcome of each request;
    `parse` stands for `JSON.parse` followed by the unchecked cast to the envelope type,
    `None` meaning that parsing threw. Each operation reports the request it issued, if
    any, beside its result, so that "no request is made" is a statement about the result. */
module ItunesService {
  import opened Wrappers
  import opened Strings
  import opened Types
  import Seqs

  /** A request to the API (before the relay prefix and URL encoding are applied). */
  datatype Request =
    | Lookup(id: string)             // /lookup?id=<id>&country=jp&entity=software
    | Search(term: string, limit: nat) // /search?term=<term>&country=jp&entity=software&limit=<limit>

  /** Number of results a name search asks for. */
  const SearchLimit: nat := 20

  datatype Response = Response(ok: bool, body: string)

  /** What `fetch` yields: a failure to reach the server, or a response. */
  datatype Transport = NetworkFailure | Delivered(response: Response)

  /** The errors the client throws. */
  datatype ServiceError =
    | NetworkError
    | ApiError
    | EmptyResponse
    | ParseError
    | InvalidUrl
    | NotFound
    | InvalidResponse

  /** The user-facing message each error carries. */
  function Message(e: ServiceError): string {
    match e
    case NetworkError => "ネットワークリクエストに失敗しました。インターネット接続を確認するか、後でもう一度お試しください。"
    case ApiError => "APIリクエストに失敗しました。"
    case EmptyResponse => "APIから空の応答を受け取りました。"
    case ParseError => "APIからの応答の解析に失敗しました。"
    case InvalidUrl => "無効なApp Store URLです。IDが見つかりません。"
    case NotFound => "開発者またはアプリが見つかりませんでした。"
    case InvalidResponse => "有効な開発者またはアプリ情報が見つかりませんでした。"
  }

  /** Each error carries its own message, so the alert tells the errors apart. */
  lemma MessageIdentifiesError(e1: ServiceError, e2: ServiceError)
    ensures Message(e1) == Message(e2) ==> e1 == e2
  {
    if Message(e1) == Message(e2) {
      assert |Message(e1)| == |Message(e2)|;
    }
  }

  /** An operation's issued request (if any) and its result. */
  datatype ServiceCall<T> = ServiceCall(issued: Option<Request>, result: Result<T, ServiceError>)

  // ---------------------------------------------------------------------------
  // Transport and response classification

  /** `handleApiResponse`: a non-success status is an API error whatever the body;
      then an empty body is an empty-response error; then a body that does not parse
      is a parse error; otherwise the parsed value is the result. */
  function HandleApiResponse<T>(resp: Response, parse: string -> Option<T>): (r: Result<T, ServiceError>)
    ensures r == Failure(ApiError) <==> !resp.ok
    ensures r == Failure(EmptyResponse) <==> resp.ok && resp.body == ""
    ensures r == Failure(ParseError) <==> resp.ok && resp.body != "" && parse(resp.body).None?
    ensures r.Success? <==> resp.ok && resp.body != "" && parse(resp.body).Some?
    ensures r.Success? ==> r.value == parse(resp.body).value
  {
    if !resp.ok then Failure(ApiError)
    else if resp.body == "" then Failure(EmptyResponse)
    else match parse(resp.body)
      case None => Failure(ParseError)
      case Some(v) => Success(v)
  }

  /** `fetchDataWithProxy`: a transport failure is a network error; a delivered
      response is classified by `HandleApiResponse`. */
  function FetchData<T>(req: Request, respond: Request -> Transport, parse: string -> Option<T>)
    : (r: Result<T, ServiceError>)
    ensures r == Failure(NetworkError) <==> respond(req).NetworkFailure?
    ensures respond(req).Delivered? ==> r == HandleApiResponse(respond(req).response, parse)
  {
    match respond(req)
    case NetworkFailure => Failure(NetworkError)
    case Delivered(resp) => HandleApiResponse(resp, parse)
  }

  // ---------------------------------------------------------------------------
  // Developer id in a store URL: the regular expression /\/id(\d+)/

  /** `/id` starts at index `i` and is immediately followed by a digit. */
  predicate IdMatchAt(s: string, i: nat) {
    i + 4 <= |s| && s[i..i + 3] == "/id" && IsDigit(s[i + 3])
  }

  /** The regular expression matches first at index `i`. */
  predicate LeftmostIdMatch(s: string, i: nat) {
    IdMatchAt(s, i) && forall j: nat :: j < i ==> !IdMatchAt(s, j)
  }

  function FirstIdMatch(s: string, i: nat): (r: Option<nat>)
    requires i <= |s|
    ensures r.Some? ==> i <= r.value && IdMatchAt(s, r.value)
    ensures r.Some? ==> forall j: nat :: i <= j < r.value ==> !IdMatchAt(s, j)
    ensures r.None? ==> forall j: nat :: i <= j ==> !IdMatchAt(s, j)
    decreases |s| - i
  {
    if IdMatchAt(s, i) then Some(i)
    else if i == |s| then None
    else FirstIdMatch(s, i + 1)
  }

  /** `url.match(/\/id(\d+)/)?.[1]`: the maximal digit run after the leftmost `/id`
      that is followed by a digit; `None` when no such `/id` exists. */
  function ExtractId(url: string): (r: Option<string>)
    ensures r.None? <==> forall i: nat :: !IdMatchAt(url, i)
    ensures r.Some? ==> |r.value| > 0 && AllDigits(r.value)
    ensures r.Some? ==> exists i: nat :: && LeftmostIdMatch(url, i)
                                         && i + 3 + |r.value| <= |url|
                                         && url[i + 3..i + 3 + |r.value|] == r.value
                                         && (i + 3 + |r.value| == |url| || !IsDigit(url[i + 3 + |r.value|]))
  {
    match FirstIdMatch(url, 0)
    case None => None
    case Some(i) =>
      var n := DigitRun(url, i + 3);
      assert n > 0 by { assert IsDigit(url[i + 3]); }
      var d := url[i + 3..i + 3 + n];
      assert LeftmostIdMatch(url, i);
      assert |d| == n;
      assert i + 3 + |d| <= |url| && url[i + 3..i + 3 + |d|] == d;
      Some(d)
  }

  /** A URL without `/id` followed by a digit yields no id: in particular one
      without the letter `d`. */
  lemma NoIdWithoutLetterD(s: string)
    requires 'd' !in s
    ensures forall i: nat :: !IdMatchAt(s, i)
  {
    forall i: nat
      ensures !IdMatchAt(s, i)
    {
      if i + 4 <= |s| {
        assert s[i..i + 3][2] == s[i + 2];
        assert s[i + 2] in s;
      }
    }
  }

  /** Appending text that starts with `/id` to a prefix without a match creates no
      match that starts inside the prefix. */
  lemma {:induction false} NoMatchInPrefix(prefix: string, tail: string)
    requires forall i: nat :: !IdMatchAt(prefix, i)
    requires |tail| >= 4 && tail[..3] == "/id"
    ensures forall j: nat :: j < |prefix| ==> !IdMatchAt(prefix + tail, j)
  {
    var url := prefix + tail;
    var p := |prefix|;
    forall j: nat | j < p
      ensures !IdMatchAt(url, j)
    {
      if j + 4 <= p {
        assert url[j..j + 3] == prefix[j..j + 3];
        assert url[j + 3] == prefix[j + 3];
        assert !IdMatchAt(prefix, j);
      } else if j == p - 3 {
        assert url[j + 3] == tail[..3][0];
      } else if j == p - 2 {
        assert url[j + 2] == tail[..3][0];
        assert url[j..j + 3][2] == url[j + 2];
      } else {
        assert url[j + 1] == tail[..3][0];
        assert url[j..j + 3][1] == url[j + 1];
      }
    }
  }

  /** The id is the digit run after the leftmost match, once that run's end is known. */
  lemma {:induction false} ExtractIdAt(url: string, p: nat, n: nat)
    requires IdMatchAt(url, p) && forall j: nat :: j < p ==> !IdMatchAt(url, j)
    requires p + 3 + n <= |url| && AllDigits(url[p + 3..p + 3 + n])
    requires p + 3 + n == |url| || !IsDigit(url[p + 3 + n])
    ensures ExtractId(url) == Some(url[p + 3..p + 3 + n])
  {
    var m := FirstIdMatch(url, 0);
    assert m.Some?;
    assert m.value == p;
    DigitRunExact(url, p + 3, n);
  }

  /** The digit run of a store URL: a prefix without a match, then `/id`, the digits,
      and anything not starting with a digit. */
  lemma {:induction false} ExtractIdAfterPrefix(prefix: string, digits: string, suffix: string)
    requires forall i: nat :: !IdMatchAt(prefix, i)
    requires |digits| > 0 && AllDigits(digits)
    requires suffix == "" || !IsDigit(suffix[0])
    ensures ExtractId(prefix + "/id" + digits + suffix) == Some(digits)
  {
    var tail := "/id" + digits + suffix;
    var url := prefix + tail;
    assert url == prefix + "/id" + digits + suffix;
    var p, n := |prefix|, |digits|;
    assert tail[..3] == "/id";
    NoMatchInPrefix(prefix, tail);
    assert url[p..p + 3] == "/id";
    assert url[p + 3] == digits[0];
    assert url[p + 3..p + 3 + n] == digits;
    assert p + 3 + n == |url| || url[p + 3 + n] == suffix[0];
    ExtractIdAt(url, p, n);
  }

  /** A store URL built from a developer id yields that id's decimal digits, the same
      ones `GetAppsByDeveloper` puts in its lookup request. */
  lemma ExtractIdOfDeveloperUrl(prefix: string, id: nat, suffix: string)
    requires forall i: nat :: !IdMatchAt(prefix, i)
    requires suffix == "" || !IsDigit(suffix[0])
    ensures ExtractId(prefix + "/id" + NatToDecimal(id) + suffix) == Some(IntToDecimal(id))
  {
    ExtractIdAfterPrefix(prefix, NatToDecimal(id), suffix);
  }

  /** An app URL of the store yields the id that follows `/id`. */
  lemma ExtractIdExample()
    ensures ExtractId("https://apps.apple.com/jp/app/foo" + "/id" + "123456789") == Some("123456789")
  {
    var prefix := "https://apps.apple.com/jp/app/foo";
    NoIdWithoutLetterD(prefix);
    ExtractIdAfterPrefix(prefix, "123456789", "");
    assert prefix + "/id" + "123456789" + "" == prefix + "/id" + "123456789";
  }

  /** A store URL without `/id` yields nothing. */
  lemma ExtractIdNoIdExample()
    ensures ExtractId("https://apps.apple.com/jp/app/foo") == None
  {
    NoIdWithoutLetterD("https://apps.apple.com/jp/app/foo");
  }

  // ---------------------------------------------------------------------------
  // Mapping lookup results

  predicate IsSoftware(r: LookupRecord) {
    r.SoftwareRecord?
  }

  /** Software results published by `artistId`. */
  function IsSoftwareBy(artistId: int): LookupRecord -> bool {
    (r: LookupRecord) => r.SoftwareRecord? && r.app.artistId == artistId
  }

  /** The records an app list came from. */
  function AsRecords(apps: seq<App>): (rs: seq<LookupRecord>)
    ensures |rs| == |apps|
    ensures forall i :: 0 <= i < |apps| ==> rs[i] == SoftwareRecord(apps[i])
  {
    seq(|apps|, i requires 0 <= i < |apps| => SoftwareRecord(apps[i]))
  }

  /** The software-tagged results, in the provider's order: wrapped back as records
      they are exactly the order-preserving filter of the results on `IsSoftware`. */
  function SoftwareApps(rs: seq<LookupRecord>): (apps: seq<App>)
    ensures AsRecords(apps) == Seqs.Filter(rs, IsSoftware)
    ensures forall a :: a in apps <==> SoftwareRecord(a) in rs
  {
    if |rs| == 0 then []
    else
      var rest := SoftwareApps(rs[1..]);
      var apps := if IsSoftware(rs[0]) then [rs[0].app] + rest else rest;
      SoftwareStep(rs, rest, apps);
      SoftwareMembers(apps, rs);
      apps
  }

  /** One step of the filter: the first record is kept exactly when it is software. */
  lemma SoftwareStep(rs: seq<LookupRecord>, rest: seq<App>, apps: seq<App>)
    requires |rs| > 0 && AsRecords(rest) == Seqs.Filter(rs[1..], IsSoftware)
    requires apps == if IsSoftware(rs[0]) then [rs[0].app] + rest else rest
    ensures AsRecords(apps) == Seqs.Filter(rs, IsSoftware)
  {
    Seqs.FilterStep(rs, IsSoftware);
    if IsSoftware(rs[0]) {
      AsRecordsCons(rs[0].app, rest);
    }
  }

  lemma AsRecordsCons(a: App, rest: seq<App>)
    ensures AsRecords([a] + rest) == [SoftwareRecord(a)] + AsRecords(rest)
  {
  }

  /** An app list that wraps back to the software filter of `rs` holds exactly the apps
      of `rs`'s software records. */
  lemma SoftwareMembers(apps: seq<App>, rs: seq<LookupRecord>)
    requires AsRecords(apps) == Seqs.Filter(rs, IsSoftware)
    ensures forall a :: a in apps <==> SoftwareRecord(a) in rs
  {
    forall a
      ensures a in apps <==> SoftwareRecord(a) in rs
    {
      if a in apps {
        var i :| 0 <= i < |apps| && apps[i] == a;
        assert AsRecords(apps)[i] == SoftwareRecord(a);
      }
      if SoftwareRecord(a) in rs {
        assert SoftwareRecord(a) in AsRecords(apps);
        var i :| 0 <= i < |apps| && AsRecords(apps)[i] == SoftwareRecord(a);
        assert apps[i] == a;
      }
    }
  }

  /** The first software-tagged result, if any. */
  function FirstSoftware(rs: seq<LookupRecord>): (r: Option<App>)
    ensures r.None? <==> forall i :: 0 <= i < |rs| ==> !rs[i].SoftwareRecord?
    ensures r.Some? ==> exists i :: 0 <= i < |rs| && rs[i] == SoftwareRecord(r.value)
                                    && forall j :: 0 <= j < i ==> !rs[j].SoftwareRecord?
  {
    if |rs| == 0 then None
    else if rs[0].SoftwareRecord? then Some(rs[0].app)
    else
      var r := FirstSoftware(rs[1..]);
      assert forall j :: 1 <= j < |rs| ==> rs[j] == rs[1..][j - 1];
      if r.Some? then
        var k :| 0 <= k < |rs[1..]| && rs[1..][k] == SoftwareRecord(r.value)
                 && forall j :: 0 <= j < k ==> !rs[1..][j].SoftwareRecord?;
        assert rs[k + 1] == SoftwareRecord(r.value);
        r
      else r
  }

  /** The icon backfilled for an artist: the 100px artwork of the first software result,
      or the empty string when there is none. */
  function RepresentativeIcon(rs: seq<LookupRecord>): (r: string)
    ensures (forall i :: 0 <= i < |rs| ==> !rs[i].SoftwareRecord?) ==> r == ""
    ensures (exists i :: 0 <= i < |rs| && rs[i].SoftwareRecord?) ==>
              exists i :: 0 <= i < |rs| && rs[i].SoftwareRecord? && r == rs[i].app.artworkUrl100
                          && forall j :: 0 <= j < i ==> !rs[j].SoftwareRecord?
  {
    match FirstSoftware(rs)
    case Some(app) => app.artworkUrl100
    case None => ""
  }

  /** The developer a lookup response describes. A zero `resultCount` is not-found; a
      non-zero count with no results, or a first result that is neither an artist nor
      software, is an invalid response. An artist gives its own id, name and link with
      the representative icon; software gives its publisher's id, name and page, and
      its own artwork. */
  function DeveloperFromLookup(data: LookupEnvelope): (r: Result<DeveloperInfo, ServiceError>)
    ensures data.resultCount == 0 ==> r == Failure(NotFound)
    ensures data.resultCount != 0 && |data.results| == 0 ==> r == Failure(InvalidResponse)
    ensures data.resultCount != 0 && |data.results| > 0 ==>
      match data.results[0]
      case ArtistRecord(a) =>
        r == Success(DeveloperInfo(a.artistId, a.artistName, a.artistLinkUrl, RepresentativeIcon(data.results)))
      case SoftwareRecord(app) =>
        r == Success(DeveloperInfo(app.artistId, app.artistName, app.artistViewUrl, app.artworkUrl100))
      case OtherRecord => r == Failure(InvalidResponse)
    ensures r.Failure? ==> r.error == NotFound || r.error == InvalidResponse
  {
    if data.resultCount == 0 then Failure(NotFound)
    else if |data.results| == 0 then Failure(InvalidResponse)
    else
      match data.results[0]
      case ArtistRecord(a) =>
        Success(DeveloperInfo(a.artistId, a.artistName, a.artistLinkUrl, RepresentativeIcon(data.results)))
      case SoftwareRecord(app) =>
        Success(DeveloperInfo(app.artistId, app.artistName, app.artistViewUrl, app.artworkUrl100))
      case OtherRecord => Failure(InvalidResponse)
  }

  /** For an artist-first response the icon is the first software result's artwork,
      or empty when the response holds no software. */
  lemma ArtistIconBackfill(data: LookupEnvelope)
    requires data.resultCount != 0 && |data.results| > 0 && data.results[0].ArtistRecord?
    ensures DeveloperFromLookup(data).Success?
    ensures var icon := DeveloperFromLookup(data).value.iconUrl;
            && ((forall i :: 0 <= i < |data.results| ==> !data.results[i].SoftwareRecord?) ==> icon == "")
            && (forall i :: 0 <= i < |data.results| && data.results[i].SoftwareRecord?
                  && (forall j :: 0 <= j < i ==> !data.results[j].SoftwareRecord?)
                  ==> icon == data.results[i].app.artworkUrl100)
  {
    var rs := data.results;
    var f := FirstSoftware(rs);
    if f.Some? {
      var k :| 0 <= k < |rs| && rs[k] == SoftwareRecord(f.value)
               && forall j :: 0 <= j < k ==> !rs[j].SoftwareRecord?;
      forall i | 0 <= i < |rs| && rs[i].SoftwareRecord? && (forall j :: 0 <= j < i ==> !rs[j].SoftwareRecord?)
        ensures rs[i].app.artworkUrl100 == f.value.artworkUrl100
      {
        assert i == k;
      }
    }
  }

  // ---------------------------------------------------------------------------
  // The three operations

  /** `getDeveloperInfoFromUrl`: without `/id<digit>` the URL is rejected before any
      request; otherwise one lookup request carries exactly the extracted digits and
      its response decides the result. */
  function ResolveFromUrl(url: string, respond: Request -> Transport, parse: string -> Option<LookupEnvelope>)
    : (r: ServiceCall<DeveloperInfo>)
    ensures r.issued.None? <==> ExtractId(url).None?
    ensures r.issued.None? ==> r.result == Failure(InvalidUrl)
    ensures r.issued.Some? ==> r.issued.value == Lookup(ExtractId(url).value)
    ensures r.issued.Some? ==>
      match FetchData(r.issued.value, respond, parse)
      case Failure(e) => r.result == Failure(e)
      case Success(data) => r.result == DeveloperFromLookup(data)
  {
    match ExtractId(url)
    case None => ServiceCall(None, Failure(InvalidUrl))
    case Some(id) =>
      var req := Lookup(id);
      match FetchData(req, respond, parse)
      case Failure(e) => ServiceCall(Some(req), Failure(e))
      case Success(data) => ServiceCall(Some(req), DeveloperFromLookup(data))
  }

  /** A lookup that succeeds with `resultCount` 0 is not-found, whatever the results. */
  lemma ResolveNotFound(url: string, respond: Request -> Transport, parse: string -> Option<LookupEnvelope>)
    requires ExtractId(url).Some?
    requires FetchData(Lookup(ExtractId(url).value), respond, parse).Success?
    requires FetchData(Lookup(ExtractId(url).value), respond, parse).value.resultCount == 0
    ensures ResolveFromUrl(url, respond, parse).result == Failure(NotFound)
  {
  }

  /** `searchAppsByName`: a blank term gives no results without a request; otherwise
      one search request for the term as typed, limited to 20 results, and the result
      is the software-tagged subsequence of its results. */
  function SearchAppsByName(term: string, respond: Request -> Transport, parse: string -> Option<LookupEnvelope>)
    : (r: ServiceCall<seq<App>>)
    ensures r.issued.None? <==> IsBlank(term)
    ensures r.issued.None? ==> r.result == Success([])
    ensures r.issued.Some? ==> r.issued.value == Search(term, SearchLimit)
    ensures r.issued.Some? ==>
      match FetchData(r.issued.value, respond, parse)
      case Failure(e) => r.result == Failure(e)
      case Success(data) => r.result.Success?
                            && AsRecords(r.result.value) == Seqs.Filter(data.results, IsSoftware)
  {
    if Trim(term) == "" then ServiceCall(None, Success([]))
    else
      var req := Search(term, SearchLimit);
      match FetchData(req, respond, parse)
      case Failure(e) => ServiceCall(Some(req), Failure(e))
      case Success(data) => ServiceCall(Some(req), Success(SoftwareApps(data.results)))
  }

  /** The app with its 512px artwork URL derived from the 100px one; every other
      field is kept. */
  function WithLargeArtwork(app: App): (r: App)
    ensures r.artworkUrl512 == ReplaceFirst(app.artworkUrl100, "100x100", "512x512")
    ensures r.(artworkUrl512 := app.artworkUrl512) == app
  {
    app.(artworkUrl512 := ReplaceFirst(app.artworkUrl100, "100x100", "512x512"))
  }

  /** The apps of `artistId` among lookup results, in the provider's order, each with
      only its 512px artwork URL rewritten. */
  function DeveloperApps(rs: seq<LookupRecord>, artistId: int): (apps: seq<App>)
    ensures var kept := Seqs.Filter(rs, IsSoftwareBy(artistId));
            && |apps| == |kept|
            && forall i :: 0 <= i < |apps| ==>
                 && kept[i].SoftwareRecord?
                 && apps[i] == WithLargeArtwork(kept[i].app)
    ensures forall i :: 0 <= i < |apps| ==> apps[i].artistId == artistId
  {
    var kept := Seqs.Filter(rs, IsSoftwareBy(artistId));
    KeptAreSoftwareBy(rs, artistId, kept);
    seq(|kept|, i requires 0 <= i < |kept| && kept[i].SoftwareRecord? => WithLargeArtwork(kept[i].app))
  }

  /** Everything the artist filter keeps is software by that artist. */
  lemma KeptAreSoftwareBy(rs: seq<LookupRecord>, artistId: int, kept: seq<LookupRecord>)
    requires kept == Seqs.Filter(rs, IsSoftwareBy(artistId))
    ensures forall i :: 0 <= i < |kept| ==> kept[i].SoftwareRecord? && kept[i].app.artistId == artistId
  {
    forall i | 0 <= i < |kept|
      ensures kept[i].SoftwareRecord? && kept[i].app.artistId == artistId
    {
      assert kept[i] in kept;
      assert IsSoftwareBy(artistId)(kept[i]);
    }
  }

  /** `getAppsByDeveloper`: one lookup request for the artist id in decimal; on success
      the developer's apps among the results. */
  function GetAppsByDeveloper(artistId: int, respond: Request -> Transport, parse: string -> Option<LookupEnvelope>)
    : (r: ServiceCall<seq<App>>)
    ensures r.issued == Some(Lookup(IntToDecimal(artistId)))
    ensures match FetchData(Lookup(IntToDecimal(artistId)), respond, parse)
            case Failure(e) => r.result == Failure(e)
            case Success(data) => r.result == Success(DeveloperApps(data.results, artistId))
  {
    var req := Lookup(IntToDecimal(artistId));
    match FetchData(req, respond, parse)
    case Failure(e) => ServiceCall(Some(req), Failure(e))
    case Success(data) => ServiceCall(Some(req), Success(DeveloperApps(data.results, artistId)))
  }
}
