/**
 * handleConvert of ConverterCard (src/components/ConverterCard.tsx): the three input
 * checks in their order, the request for the extracted id, and the mapping from the
 * conversion service's JSON reply to the converted file shown on the card. The network
 * call is a parameter from request URL to response.
 */
module Converter {
  import opened Wrappers
  import opened JsText
  import YouTubeUrl

  const Endpoint: string := "https://youtube-mp36.p.rapidapi.com/dl?id="

  /** The outcome of the input checks, in the order handleConvert performs them. */
  datatype Decision = EmptyUrl | InvalidUrl | NoVideoId | Request(videoId: string)

  /**
   * The checks: the trimmed input must be non-empty, the untrimmed input must match
   * the URL pattern, and an id must be extractable from it.
   */
  function Decide(url: string): (d: Decision)
    ensures d.Request? ==> YouTubeUrl.AcceptedUrl(url) && YouTubeUrl.IsVideoId(d.videoId)
                           && exists i: nat :: HasAt(url, i, d.videoId)
    ensures d == EmptyUrl <==> AllWhitespace(url)
    ensures d == InvalidUrl <==> !AllWhitespace(url) && !YouTubeUrl.AcceptedUrl(url)
    ensures d == NoVideoId <==> !AllWhitespace(url) && YouTubeUrl.AcceptedUrl(url) && YouTubeUrl.ExtractVideoId(url).None?
    ensures !AllWhitespace(url) && YouTubeUrl.AcceptedUrl(url) && YouTubeUrl.ExtractVideoId(url).Some?
            ==> d == Request(YouTubeUrl.ExtractVideoId(url).value)
  {
    if Trim(url) == [] then EmptyUrl
    else if !YouTubeUrl.IsValidYouTubeUrl(url) then InvalidUrl
    else match YouTubeUrl.ExtractVideoId(url)
      case None => NoVideoId
      case Some(id) =>
        YouTubeUrl.ExtractedIdOccurs(url);
        Request(id)
  }

  /** JSON values as `response.json()` produces them. */
  datatype Json =
    | JNull
    | JBool(b: bool)
    | JNumber(n: real)
    | JString(s: string)
    | JArray(items: seq<Json>)
    | JObject(fields: map<string, Json>)

  /** Property access on the reply: None stands for `undefined`. */
  function Field(v: Json, key: string): (r: Option<Json>)
    ensures r.Some? <==> v.JObject? && key in v.fields
  {
    if v.JObject? && key in v.fields then Some(v.fields[key]) else None
  }

  /** JavaScript truthiness of a possibly undefined value. */
  predicate Truthy(v: Option<Json>) {
    match v
    case None => false
    case Some(JNull) => false
    case Some(JBool(b)) => b
    case Some(JNumber(n)) => n != 0.0
    case Some(JString(s)) => s != ""
    case Some(_) => true
  }

  /** `value || fallback`: the value when truthy, else the fallback string. */
  function OrElse(v: Option<Json>, fallback: string): (r: Json)
    ensures Truthy(v) ==> Some(r) == v
    ensures !Truthy(v) ==> r == JString(fallback)
  {
    if Truthy(v) then v.value else JString(fallback)
  }

  datatype ConvertedFile = ConvertedFile(title: Json, duration: Json, link: Json, status: Json)

  /** An HTTP reply: its `ok` flag and its body, None when the body is not valid JSON. */
  datatype Response = Response(ok: bool, body: Option<Json>)

  /**
   * The reply mapped to the card's file: only an ok reply whose status is the string
   * "ok" and whose link is truthy gives a file; title and duration get their defaults.
   * Every other reply, a null body included, ends in the failure toast.
   */
  function MapResponse(response: Response): (file: Option<ConvertedFile>)
    ensures file.Some? <==> response.ok && response.body.Some?
                            && Field(response.body.value, "status") == Some(JString("ok"))
                            && Truthy(Field(response.body.value, "link"))
  {
    if !response.ok || response.body.None? then None
    else
      var data := response.body.value;
      if Field(data, "status") == Some(JString("ok")) && Truthy(Field(data, "link")) then
        Some(ConvertedFile(
          OrElse(Field(data, "title"), "YouTube Video"),
          OrElse(Field(data, "duration"), "Unknown"),
          Field(data, "link").value,
          JString("ok")))
      else None
  }

  /** A converted file always has a truthy title, duration and link, and status "ok". */
  lemma ConvertedFileIsComplete(response: Response)
    requires MapResponse(response).Some?
    ensures var f := MapResponse(response).value;
            Truthy(Some(f.title)) && Truthy(Some(f.duration)) && Truthy(Some(f.link)) && f.status == JString("ok")
            && Some(f.link) == Field(response.body.value, "link")
  {
  }

  /** The duration is the reply's own duration exactly when that is truthy, else "Unknown". */
  lemma DurationDefault(response: Response)
    requires MapResponse(response).Some?
    ensures var f := MapResponse(response).value;
            var t := Field(response.body.value, "duration");
            (Truthy(t) ==> Some(f.duration) == t) && (!Truthy(t) ==> f.duration == JString("Unknown"))
  {
  }

  /** The title is the reply's own title exactly when that is truthy, else "YouTube Video". */
  lemma TitleDefault(response: Response)
    requires MapResponse(response).Some?
    ensures var f := MapResponse(response).value;
            var t := Field(response.body.value, "title");
            (Truthy(t) ==> Some(f.title) == t) && (!Truthy(t) ==> f.title == JString("YouTube Video"))
  {
  }

  datatype Toast = Toast(title: string, description: string, destructive: bool)

  /** What one press of the convert button leaves behind. */
  datatype Outcome = Outcome(request: Option<string>, file: Option<ConvertedFile>, toast: Toast)

  /**
   * handleConvert. A rejected input shows its message and leaves the current file
   * alone; an accepted one clears it, asks the service for the id, and shows the file
   * or the failure message.
   */
  function HandleConvert(url: string, current: Option<ConvertedFile>, fetch: string -> Response): (o: Outcome)
    ensures o.request.None? <==> !Decide(url).Request?
    ensures o.request.None? ==> o.file == current && o.toast.destructive
    ensures o.request.Some? ==> o.request.value == Endpoint + Decide(url).videoId
                                && o.file == MapResponse(fetch(o.request.value))
                                && (o.toast.destructive <==> o.file.None?)
  {
    match Decide(url)
    case EmptyUrl => Outcome(None, current, Toast("Please enter a YouTube URL", "", true))
    case InvalidUrl => Outcome(None, current, Toast("Please enter a valid YouTube URL", "", true))
    case NoVideoId => Outcome(None, current, Toast("Could not extract video ID from URL", "", true))
    case Request(id) =>
      var requestUrl := Endpoint + id;
      match MapResponse(fetch(requestUrl))
      case Some(file) => Outcome(Some(requestUrl), Some(file), Toast("Conversion completed!", "Your MP3 is ready for download.", false))
      case None => Outcome(Some(requestUrl), None, Toast("Conversion failed", "Please try again later.", true))
  }

  /** The service is consulted only when every check passed: otherwise the reply cannot matter. */
  lemma RejectionIgnoresService(url: string, current: Option<ConvertedFile>, fetch1: string -> Response, fetch2: string -> Response)
    requires !Decide(url).Request?
    ensures HandleConvert(url, current, fetch1) == HandleConvert(url, current, fetch2)
  {
  }

  /**
   * The URL check is made on the untrimmed input, so input with leading white space
   * that is not blank passes the emptiness check and then fails the URL check.
   */
  lemma LeadingSpaceIsRejected(url: string)
    requires 0 < |url| && IsJsWhitespace(url[0])
    ensures Decide(url) == (if AllWhitespace(url) then EmptyUrl else InvalidUrl)
  {
    NoPatternAfterSpace(url);
  }

  /** No accepted URL starts with white space. */
  lemma NoPatternAfterSpace(url: string)
    requires 0 < |url| && IsJsWhitespace(url[0])
    ensures !YouTubeUrl.AcceptedUrl(url)
  {
    forall s, w, h | 0 <= s < |YouTubeUrl.Schemes| && 0 <= w < |YouTubeUrl.Subdomains| && 0 <= h < |YouTubeUrl.Hosts|
      ensures !YouTubeUrl.StartsWithPath(url, YouTubeUrl.Schemes[s] + YouTubeUrl.Subdomains[w] + YouTubeUrl.Hosts[h])
    {
      PatternHead(s, w, h);
      YouTubeUrl.NotAt(url, 0, YouTubeUrl.Schemes[s] + YouTubeUrl.Subdomains[w] + YouTubeUrl.Hosts[h] + "/");
    }
  }

  /** Every scheme, subdomain and host combination begins with a letter. */
  lemma PatternHead(s: nat, w: nat, h: nat)
    requires s < |YouTubeUrl.Schemes| && w < |YouTubeUrl.Subdomains| && h < |YouTubeUrl.Hosts|
    ensures var x := YouTubeUrl.Schemes[s] + YouTubeUrl.Subdomains[w] + YouTubeUrl.Hosts[h] + "/";
            0 < |x| && (x[0] == 'h' || x[0] == 'w' || x[0] == 'y')
  {
    var x := YouTubeUrl.Schemes[s] + YouTubeUrl.Subdomains[w] + YouTubeUrl.Hosts[h] + "/";
    if s > 0 {
      assert x[0] == YouTubeUrl.Schemes[s][0] == 'h';
    } else if w > 0 {
      assert x[0] == YouTubeUrl.Subdomains[w][0] == 'w';
    } else {
      assert x[0] == YouTubeUrl.Hosts[h][0] == 'y';
    }
  }

  /** "https://m.youtube.com/watch?v=dQw4w9WgXcQ", a link from the mobile site. */
  const MobileLink: string := "https://m." + "youtube.com/watch?v=" + "dQw4w9WgXcQ"

  /** A mobile link holds an extractable id ... */
  lemma MobileLinkHasId()
    ensures YouTubeUrl.ExtractVideoId(MobileLink) == Some("dQw4w9WgXcQ")
  {
    assert MobileLink + "" == MobileLink;
    YouTubeUrl.WatchLinkId("https://m.", "dQw4w9WgXcQ", "");
  }

  /** ... yet the URL check rejects it before any extraction. */
  lemma MobileLinkIsRejected()
    ensures Decide(MobileLink) == InvalidUrl
  {
    assert forall i :: 0 <= i < 8 ==> MobileLink[i] == "https://"[i];
    assert MobileLink[0..8] == "https://";
    assert HasAt(MobileLink, 0, "https://");
    assert YouTubeUrl.SchemeChoice(MobileLink) == 2;
    YouTubeUrl.NotAt(MobileLink, 8, "www.");
    assert YouTubeUrl.SubdomainChoice(MobileLink) == 0;
    YouTubeUrl.NotAt(MobileLink, 8, "youtube.com/");
    YouTubeUrl.NotAt(MobileLink, 8, "youtu.be/");
    YouTubeUrl.PrefixShift(MobileLink, "https://", "youtube.com/");
    YouTubeUrl.PrefixShift(MobileLink, "https://", "youtu.be/");
    assert "https://" + "" + "youtube.com" + "/" == "https://" + "youtube.com/";
    assert "https://" + "" + "youtu.be" + "/" == "https://" + "youtu.be/";
    assert !YouTubeUrl.IsValidYouTubeUrl(MobileLink);
    assert !IsJsWhitespace(MobileLink[0]);
  }

  /** A link to the site without a video passes the URL check but yields no id. */
  lemma ChannelLinkHasNoId()
    ensures Decide(ChannelLink) == NoVideoId
  {
    NoIdInChannelLink();
    ChannelLinkIsValid();
    assert !IsJsWhitespace(ChannelLink[0]);
    ValidWithoutId(ChannelLink);
  }

  /** Input that starts with a visible character and passes the URL check but has no id. */
  lemma ValidWithoutId(url: string)
    requires 0 < |url| && !IsJsWhitespace(url[0])
    requires YouTubeUrl.IsValidYouTubeUrl(url) && YouTubeUrl.ExtractVideoId(url).None?
    ensures Decide(url) == NoVideoId
  {
    assert !AllWhitespace(url);
  }

  lemma ChannelLinkIsValid()
    ensures YouTubeUrl.IsValidYouTubeUrl(ChannelLink)
  {
    YouTubeUrl.NotAt(ChannelLink, 0, "https://");
    YouTubeUrl.NotAt(ChannelLink, 0, "http://");
    assert YouTubeUrl.SchemeChoice(ChannelLink) == 0;
    YouTubeUrl.NotAt(ChannelLink, 0, "www.");
    assert YouTubeUrl.SubdomainChoice(ChannelLink) == 0;
    assert forall i :: 0 <= i < 12 ==> ChannelLink[i] == "youtube.com/"[i];
    assert ChannelLink[0..12] == "" + "" + "youtube.com" + "/";
  }

  /** "youtube.com/watch", the watch page without a video. */
  const ChannelLink: string := "youtube.com/" + "watch"

  lemma NoIdInChannelLink()
    ensures YouTubeUrl.ExtractVideoId(ChannelLink) == None
  {
    var text := ChannelLink;
    forall p: nat, i: nat ensures !YouTubeUrl.RegexMatch(text, p, i) {
      assert YouTubeUrl.IdAt(text, i) ==> i <= 6;
      if 1 <= p < |text| {
        YouTubeUrl.NotAt(text, p, "youtu.be/");
        YouTubeUrl.NotAt(text, p, "youtube.com/");
      }
    }
  }
}
