/** Version 1 of the DeviantArt source strategy of the sources service:
    checks the shape of a deviation or user URL held in a source's data map
    and, once the shape is right, asks the DeviantArt services for the ids
    it records back into the map. URI parsing and every remote service are
    parameters. */
module DeviantArtSource {
  import opened Wrappers
  import opened JavaStrings

  const BrokerId := "deviantart"
  const Protocol := "https://"
  const Domain := "deviantart.com"
  const WwwSubdomain := "www."
  const UrlField := "url"
  const DeviationArtPath := "art"
  const DeviationArtPathPosition := 2
  const UsernamePathPosition := 1
  const DeviationPathSegments := 4
  const UserPathSegments := 2
  const DeviationIdField := "deviation_id"
  const UserIdField := "user_id"
  const UsernameField := "username"

  const DeviationUrlRequired := "Deviation url is required."
  const DeviationUrlInvalid := "Deviation url is invalid."
  const DeviationNotFound := "Deviation not found."
  const UserUrlRequired := "User url is required."
  const UserUrlInvalid := "User url is invalid."
  const UserNotFound := "User not found."

  /** What `java.net.URI` exposes here: the host (null when the URI has no
      server authority) and the decoded path. */
  datatype Uri = Uri(host: Option<string>, path: string)

  /** The user record the DeviantArt API returns. */
  datatype DeviantArtUser = DeviantArtUser(userId: string, username: string)

  /** The collaborators of the strategy.
      - `parseUri`: `new URI(text)`, `None` for a `URISyntaxException`;
      - `scrapDeviationId`: the scraper, `None` for an `IOException`;
      - `providerToken`: the access token the identity provider holds for
        a broker id, in the application's realm;
      - `deviationFound`: whether `getDeviation(bearer, id)` returned non-null;
      - `getUser`: `getUser(bearer, username)`, `None` for null. */
  datatype Services = Services(
    parseUri: string -> Option<Uri>,
    scrapDeviationId: string -> Option<string>,
    providerToken: string -> string,
    deviationFound: (string, string) -> bool,
    getUser: (string, string) -> Option<DeviantArtUser>)

  /** `ValidationResult.valid(data)` / `ValidationResult.invalid(reason)`. */
  datatype ValidationResult = Valid(data: map<string, string>) | Invalid(reason: string)

  /** The url entry is absent or blank. */
  predicate UrlMissing(data: map<string, string>) {
    UrlField !in data || IsBlank(data[UrlField])
  }

  /** The host check: every "www." removed, the rest equals the domain
      ignoring case. */
  predicate HostAccepted(host: string) {
    EqualsIgnoreCase(Replace(host, WwwSubdomain, ""), Domain)
  }

  /** The checks shared by media and user URLs: present, parsable, with a
      host, on the DeviantArt domain. Yields the parsed URI. */
  function CheckedUri(data: map<string, string>, parseUri: string -> Option<Uri>,
                      required: string, invalid: string): (r: Result<Uri, string>)
    requires required != invalid
    ensures r.Success? <==>
              && !UrlMissing(data)
              && parseUri(data[UrlField]).Some?
              && parseUri(data[UrlField]).value.host.Some?
              && HostAccepted(parseUri(data[UrlField]).value.host.value)
    ensures r.Success? ==> r.value == parseUri(data[UrlField]).value
    ensures r.Failure? ==> (r.error == required <==> UrlMissing(data))
    ensures r.Failure? && !UrlMissing(data) ==> r.error == invalid
  {
    if UrlField !in data || IsBlank(data[UrlField]) then Failure(required)
    else match parseUri(data[UrlField])
      case None => Failure(invalid)
      case Some(uri) =>
        if uri.host.None? then Failure(invalid)
        else if !HostAccepted(uri.host.value) then Failure(invalid)
        else Success(uri)
  }

  /** The shape of a deviation URL: the checked URI whose path has at least
      four segments, the third being "art". Yields the path. */
  function DeviationPath(data: map<string, string>, parseUri: string -> Option<Uri>): (r: Result<string, string>)
    ensures r.Success? ==> var c := CheckedUri(data, parseUri, DeviationUrlRequired, DeviationUrlInvalid);
                           c.Success? && r.value == c.value.path
    ensures r.Success? ==> |SplitPath(r.value)| >= 4 && SplitPath(r.value)[2] == "art"
    ensures r.Success? <==> var c := CheckedUri(data, parseUri, DeviationUrlRequired, DeviationUrlInvalid);
                            && c.Success?
                            && |SplitPath(c.value.path)| >= DeviationPathSegments
                            && SplitPath(c.value.path)[DeviationArtPathPosition] == DeviationArtPath
    ensures r.Failure? ==> r.error == DeviationUrlRequired || r.error == DeviationUrlInvalid
    ensures UrlMissing(data) ==> r == Failure(DeviationUrlRequired)
    ensures r.Failure? && !UrlMissing(data) ==> r.error == DeviationUrlInvalid
  {
    match CheckedUri(data, parseUri, DeviationUrlRequired, DeviationUrlInvalid)
    case Failure(e) => Failure(e)
    case Success(uri) =>
      var path := SplitPath(uri.path);
      if |path| < DeviationPathSegments || path[DeviationArtPathPosition] != DeviationArtPath
      then Failure(DeviationUrlInvalid)
      else Success(uri.path)
  }

  /** The shape of a user URL: the checked URI whose path has at least two
      segments. Yields the second segment, the username. */
  function UsernameOf(data: map<string, string>, parseUri: string -> Option<Uri>): (r: Result<string, string>)
    ensures r.Success? ==> var c := CheckedUri(data, parseUri, UserUrlRequired, UserUrlInvalid);
                           c.Success? && |SplitPath(c.value.path)| >= 2 && r.value == SplitPath(c.value.path)[1]
    ensures r.Success? <==> var c := CheckedUri(data, parseUri, UserUrlRequired, UserUrlInvalid);
                            c.Success? && |SplitPath(c.value.path)| >= UserPathSegments
    ensures r.Failure? ==> r.error == UserUrlRequired || r.error == UserUrlInvalid
    ensures UrlMissing(data) ==> r == Failure(UserUrlRequired)
    ensures r.Failure? && !UrlMissing(data) ==> r.error == UserUrlInvalid
  {
    match CheckedUri(data, parseUri, UserUrlRequired, UserUrlInvalid)
    case Failure(e) => Failure(e)
    case Success(uri) =>
      var path := SplitPath(uri.path);
      if |path| < UserPathSegments then Failure(UserUrlInvalid)
      else Success(path[UsernamePathPosition])
  }

  /** The authorization header value sent to both DeviantArt services: the
      token of the "deviantart" broker behind the "Bearer " scheme. */
  function Bearer(services: Services): (r: string)
    ensures |r| == |"Bearer "| + |services.providerToken(BrokerId)|
    ensures r[..|"Bearer "|] == "Bearer " && r[|"Bearer "|..] == services.providerToken(BrokerId)
  {
    "Bearer " + services.providerToken(BrokerId)
  }

  /** `validateMedia`: the shape checks, then the scraper on the canonical
      URL, then the API lookup; on success the scraped id is recorded as
      "deviation_id" and every other entry is kept. */
  function ValidateMedia(data: map<string, string>, services: Services): (r: ValidationResult)
    ensures UrlMissing(data) ==> r == Invalid(DeviationUrlRequired)
    ensures DeviationPath(data, services.parseUri).Failure? ==>
              r == Invalid(DeviationPath(data, services.parseUri).error)
    ensures r.Valid? <==>
              && DeviationPath(data, services.parseUri).Success?
              && services.scrapDeviationId(Protocol + Domain + DeviationPath(data, services.parseUri).value).Some?
              && services.deviationFound(Bearer(services),
                   services.scrapDeviationId(Protocol + Domain + DeviationPath(data, services.parseUri).value).value)
    ensures r.Valid? ==>
              && r.data.Keys == data.Keys + {DeviationIdField}
              && r.data[DeviationIdField]
                 == services.scrapDeviationId(Protocol + Domain + DeviationPath(data, services.parseUri).value).value
              && (forall k :: k in data && k != DeviationIdField ==> r.data[k] == data[k])
    ensures r.Invalid? ==> r.reason in {DeviationUrlRequired, DeviationUrlInvalid, DeviationNotFound}
    ensures DeviationPath(data, services.parseUri).Success? && !r.Valid? ==> r == Invalid(DeviationNotFound)
  {
    match DeviationPath(data, services.parseUri)
    case Failure(e) => Invalid(e)
    case Success(path) =>
      match services.scrapDeviationId(Protocol + Domain + path)
      case None => Invalid(DeviationNotFound)
      case Some(deviationId) =>
        if !services.deviationFound(Bearer(services), deviationId) then Invalid(DeviationNotFound)
        else Valid(data[DeviationIdField := deviationId])
  }

  /** `validateUser`: the shape checks, then the API lookup of the
      username; on success "user_id" and "username" are recorded and every
      other entry is kept. */
  function ValidateUser(data: map<string, string>, services: Services): (r: ValidationResult)
    ensures UrlMissing(data) ==> r == Invalid(UserUrlRequired)
    ensures UsernameOf(data, services.parseUri).Failure? ==>
              r == Invalid(UsernameOf(data, services.parseUri).error)
    ensures r.Valid? <==>
              && UsernameOf(data, services.parseUri).Success?
              && services.getUser(Bearer(services), UsernameOf(data, services.parseUri).value).Some?
    ensures r.Valid? ==>
              var user := services.getUser(Bearer(services), UsernameOf(data, services.parseUri).value).value;
              && r.data.Keys == data.Keys + {UserIdField, UsernameField}
              && r.data[UserIdField] == user.userId
              && r.data[UsernameField] == user.username
              && (forall k :: k in data && k != UserIdField && k != UsernameField ==> r.data[k] == data[k])
    ensures r.Invalid? ==> r.reason in {UserUrlRequired, UserUrlInvalid, UserNotFound}
    ensures UsernameOf(data, services.parseUri).Success? && !r.Valid? ==> r == Invalid(UserNotFound)
  {
    match UsernameOf(data, services.parseUri)
    case Failure(e) => Invalid(e)
    case Success(username) =>
      match services.getUser(Bearer(services), username)
      case None => Invalid(UserNotFound)
      case Some(user) => Valid(data[UserIdField := user.userId][UsernameField := user.username])
  }

  /** `validateAttachment` is `validateMedia`: an attachment source names a
      deviation, and a valid one gains its "deviation_id". */
  function ValidateAttachment(data: map<string, string>, services: Services): (r: ValidationResult)
    ensures r == ValidateMedia(data, services)
    ensures r.Valid? ==> DeviationPath(data, services.parseUri).Success? && DeviationIdField in r.data
    ensures r.Invalid? ==> r.reason in {DeviationUrlRequired, DeviationUrlInvalid, DeviationNotFound}
  {
    ValidateMedia(data, services)
  }

  // ---------------------------------------------------------------------
  // Which collaborators matter
  // ---------------------------------------------------------------------

  /** Only `parseUri` decides a failed shape check: the scraper, the token
      and the API are never consulted then. */
  lemma MediaShapeFailureIgnoresServices(data: map<string, string>, s1: Services, s2: Services)
    requires s1.parseUri == s2.parseUri
    requires DeviationPath(data, s1.parseUri).Failure?
    ensures ValidateMedia(data, s1) == ValidateMedia(data, s2)
  {
  }

  /** The same for user URLs: the token and the API are not consulted. */
  lemma UserShapeFailureIgnoresServices(data: map<string, string>, s1: Services, s2: Services)
    requires s1.parseUri == s2.parseUri
    requires UsernameOf(data, s1.parseUri).Failure?
    ensures ValidateUser(data, s1) == ValidateUser(data, s2)
  {
  }

  /** The scraper is asked about one URL only: the path re-rooted at
      "https://deviantart.com", whatever host spelling the data used. */
  lemma ScraperSeesCanonicalUrl(data: map<string, string>, s1: Services, s2: Services)
    requires s1.parseUri == s2.parseUri && s1.providerToken(BrokerId) == s2.providerToken(BrokerId)
    requires s1.deviationFound == s2.deviationFound
    requires DeviationPath(data, s1.parseUri).Success?
    requires var url := Protocol + Domain + DeviationPath(data, s1.parseUri).value;
             s1.scrapDeviationId(url) == s2.scrapDeviationId(url)
    ensures ValidateMedia(data, s1) == ValidateMedia(data, s2)
  {
  }

  // ---------------------------------------------------------------------
  // The host check
  // ---------------------------------------------------------------------

  /** A host with no "w" is compared as it is. */
  lemma {:induction false} NoWwwInHost(host: string)
    requires forall i :: 0 <= i < |host| ==> host[i] != 'w'
    ensures Replace(host, WwwSubdomain, "") == host
  {
    forall i | 0 <= i < |host|
      ensures !OccursAt(WwwSubdomain, host, i)
    {
      if i + 4 <= |host| {
        assert host[i..i + 4][0] == host[i];
      }
    }
    ReplaceWithoutOccurrence(host, WwwSubdomain, "");
  }

  /** Any letter-case spelling of "deviantart.com" is accepted. */
  lemma DomainAcceptedInAnyCase(host: string)
    requires |host| == |Domain|
    requires forall i :: 0 <= i < |host| ==> ToLowerAscii(host[i]) == Domain[i]
    ensures HostAccepted(host)
  {
    forall i | 0 <= i < |host|
      ensures host[i] != 'w'
    {
      assert Domain[i] != 'w';
    }
    NoWwwInHost(host);
    forall i | 0 <= i < |host|
      ensures CharEqualsIgnoreCase(host[i], Domain[i])
    {
      CharEqualsIgnoreCaseIsLowerEquality(host[i], Domain[i]);
    }
  }

  /** A leading "www." never changes the verdict. */
  lemma WwwPrefixIgnored(host: string)
    ensures HostAccepted(WwwSubdomain + host) <==> HostAccepted(host)
  {
    ReplaceLeadingOccurrence(WwwSubdomain, host, "");
  }

  /** The removal is case-sensitive: "WWW.deviantart.com" is refused. */
  lemma UpperCaseWwwRefused()
    ensures !HostAccepted("WWW.deviantart.com")
  {
    var host := "WWW.deviantart.com";
    NoWwwInHost(host);
    assert |Replace(host, WwwSubdomain, "")| != |Domain|;
  }

  /** The removal is not anchored at the start: "www." inserted anywhere
      in "deviantart.com" is accepted. At 0 this is the usual spelling
      "www.deviantart.com"; at 11 it is "deviantart.www.com", a host under
      www.com. */
  lemma WwwAnywhereAccepted(k: nat)
    requires k <= |Domain|
    ensures HostAccepted(Domain[..k] + WwwSubdomain + Domain[k..])
  {
    var head := Domain[..k];
    var tail := Domain[k..];
    assert forall i :: 0 <= i < |Domain| ==> Domain[i] != 'w';
    assert forall i :: 0 <= i < |head| ==> head[i] != 'w';
    assert forall i :: 0 <= i < |tail| ==> tail[i] != 'w';
    ReplaceInnerWww(head, tail);
    AppendAssoc(head, WwwSubdomain, tail);
    assert head + tail == Domain;
    assert EqualsIgnoreCase(Domain, Domain);
  }

  /** "www." between two parts without "w" is removed. */
  lemma ReplaceInnerWww(head: string, tail: string)
    requires forall i :: 0 <= i < |head| ==> head[i] != 'w'
    requires forall i :: 0 <= i < |tail| ==> tail[i] != 'w'
    ensures Replace(head + (WwwSubdomain + tail), WwwSubdomain, "") == head + tail
  {
    NoWwwInHost(tail);
    ReplaceLeadingOccurrence(WwwSubdomain, tail, "");
    assert "" + tail == tail;
    ReplacePrefixWithoutW(head, WwwSubdomain + tail);
  }

  /** A prefix without "w" is copied through unchanged. */
  lemma ReplacePrefixWithoutW(head: string, tail: string)
    requires forall i :: 0 <= i < |head| ==> head[i] != 'w'
    ensures Replace(head + tail, WwwSubdomain, "") == head + Replace(tail, WwwSubdomain, "")
  {
    forall i | 0 <= i < |head|
      ensures !OccursAt(WwwSubdomain, head + tail, i)
    {
      assert (head + tail)[i] == head[i];
    }
    ReplaceCopiesHead(head, tail, WwwSubdomain, "");
  }

  // ---------------------------------------------------------------------
  // Examples
  // ---------------------------------------------------------------------

  /** "https://www.deviantart.com/<artist>/art/<title>" has the shape of a
      deviation URL, and its path is what reaches the scraper. */
  lemma DeviationUrlExample(data: map<string, string>, parseUri: string -> Option<Uri>,
                            artist: string, title: string)
    requires UrlField in data && !IsBlank(data[UrlField])
    requires HasNoSeparator(artist) && HasNoSeparator(title) && title != []
    requires parseUri(data[UrlField]) == Some(Uri(Some(WwwSubdomain + Domain), "/" + artist + "/art/" + title))
    ensures DeviationPath(data, parseUri) == Success("/" + artist + "/art/" + title)
  {
    WwwAnywhereAccepted(0);
    assert Domain[..0] + WwwSubdomain + Domain[0..] == WwwSubdomain + Domain;
    var art := DeviationArtPath;
    assert HasNoSeparator(art) by {
      assert art[0] == 'a' && art[1] == 'r' && art[2] == 't';
    }
    assert "/" + artist + "/art/" + title == "/" + artist + "/" + art + "/" + title;
    SplitThreeSegmentPath(artist, art, title);
  }

  /** "https://deviantart.com/<name>" names the user looked up. */
  lemma UserUrlExample(data: map<string, string>, parseUri: string -> Option<Uri>, name: string)
    requires UrlField in data && !IsBlank(data[UrlField])
    requires HasNoSeparator(name) && name != []
    requires parseUri(data[UrlField]) == Some(Uri(Some(Domain), "/" + name))
    ensures UsernameOf(data, parseUri) == Success(name)
  {
    DomainAcceptedInAnyCase(Domain);
    assert CheckedUri(data, parseUri, UserUrlRequired, UserUrlInvalid) == Success(Uri(Some(Domain), "/" + name));
    SplitOneSegmentPath(name);
  }

  /** A deviation path without the "art" segment is refused. */
  lemma GalleryPathRefused(data: map<string, string>, parseUri: string -> Option<Uri>,
                           artist: string, title: string)
    requires UrlField in data && !IsBlank(data[UrlField])
    requires HasNoSeparator(artist) && HasNoSeparator(title) && title != []
    requires parseUri(data[UrlField]) == Some(Uri(Some(Domain), "/" + artist + "/gallery/" + title))
    ensures DeviationPath(data, parseUri) == Failure(DeviationUrlInvalid)
  {
    DomainAcceptedInAnyCase(Domain);
    var path := "/" + artist + "/gallery/" + title;
    assert CheckedUri(data, parseUri, DeviationUrlRequired, DeviationUrlInvalid) == Success(Uri(Some(Domain), path));
    GallerySegments(artist, title);
  }

  /** The segments of a gallery path: its third is "gallery". */
  lemma GallerySegments(artist: string, title: string)
    requires HasNoSeparator(artist) && HasNoSeparator(title) && title != []
    ensures SplitPath("/" + artist + "/gallery/" + title) == ["", artist, "gallery", title]
  {
    var gallery := "gallery";
    assert HasNoSeparator(gallery) by {
      assert forall i :: 0 <= i < |gallery| ==> 'a' <= gallery[i] <= 'z';
    }
    var head := "/" + artist;
    assert "/gallery/" == "/" + gallery + "/";
    AppendAssoc(head, "/" + gallery, "/");
    AppendAssoc(head, "/", gallery);
    assert head + "/gallery/" + title == head + "/" + gallery + "/" + title;
    SplitThreeSegmentPath(artist, gallery, title);
  }
}
