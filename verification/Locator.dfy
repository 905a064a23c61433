/**
 Agent locators and their normal forms: building one from a URL, displaying it, and parsing what was
 displayed.
 */
module Locator {
  import opened Wrappers
  import opened Text

  datatype A2ABinding = Slim | Grpc | Jsonrpc | HttpJson {
    function UriScheme(): Bytes {
      match this
      case Slim => "slim"
      case Grpc => "grpc"
      case Jsonrpc => "jsonrpc"
      case HttpJson => "http+json"
    }

    function ProtocolBinding(): Bytes {
      match this
      case Slim => "SLIMRPC"
      case Grpc => "GRPC"
      case Jsonrpc => "JSONRPC"
      case HttpJson => "HTTP+JSON"
    }
  }

  datatype A2ALocator = A2ALocator(binding: A2ABinding, url: Bytes)

  datatype LocatorError = EmptyLocator | Unrecognized(raw: Bytes)

  const HTTP: Bytes := "http://"
  const HTTPS: Bytes := "https://"
  const SLIM: Bytes := "slim://"

  // --- Pieces of a URL -----------------------------------------------------------------------

  predicate HasHttp(s: Bytes) {
    StartsWith(s, HTTP) || StartsWith(s, HTTPS)
  }

  function StripPrefix(s: Bytes, prefix: Bytes): Bytes {
    if StartsWith(s, prefix) then s[|prefix|..] else s
  }

  function StripHttpScheme(s: Bytes): Bytes {
    if StartsWith(s, HTTPS) then s[|HTTPS|..] else StripPrefix(s, HTTP)
  }

  /** The text before the first slash. */
  function FirstSegment(s: Bytes): (h: Bytes)
    ensures '/' !in h
  {
    s[..IndexOf(s, '/')]
  }

  function StripSlimScheme(url: Bytes): Bytes {
    var rest := if StartsWith(url, SLIM) then url[|SLIM|..] else StripPrefix(url, "SLIM://");
    FirstSegment(StripHttpScheme(rest))
  }

  /** `trim_start_matches('/')`. */
  function DropSlashes(s: Bytes): (t: Bytes)
    ensures |t| <= |s| && t == s[|s| - |t|..] && (t == "" || t[0] != '/')
  {
    if s != "" && s[0] == '/' then DropSlashes(s[1..]) else s
  }

  /** `trim_end_matches('/')`. */
  function TrimSlashes(s: Bytes): (t: Bytes)
    ensures |t| <= |s| && t == s[..|t|] && (t == "" || t[|t| - 1] != '/')
  {
    if s != "" && s[|s| - 1] == '/' then TrimSlashes(s[..|s| - 1]) else s
  }

  // --- Building ------------------------------------------------------------------------------

  function SlimNodeUri(raw: Bytes): Bytes {
    SLIM + StripSlimScheme(Trim(raw))
  }

  function NormalizeHttpUrl(raw: Bytes): Bytes {
    var url := Trim(raw);
    if HasHttp(url) then TrimSlashes(url) else HTTP + TrimSlashes(url)
  }

  function New(binding: A2ABinding, url: Bytes): A2ALocator {
    A2ALocator(binding, if binding == Slim then SlimNodeUri(url) else NormalizeHttpUrl(url))
  }

  /** `http_origin`, without the TLS variant nobody asks for. */
  function HttpOrigin(host: Bytes): Bytes {
    var h := DropSlashes(host);
    if HasHttp(h) then h else HTTP + h
  }

  // --- Parsing and displaying ----------------------------------------------------------------

  /** `strip_scheme_ci` succeeds. */
  predicate HasSchemeIgnoringCase(s: Bytes, scheme: Bytes) {
    |scheme| <= |s| && forall k :: 0 <= k < |scheme| ==> Lower(s[k]) == Lower(scheme[k])
  }

  function ParseWithHint(raw: Bytes, hint: Option<A2ABinding>): Result<A2ALocator, LocatorError> {
    var text := Trim(raw);
    if text == "" then Err(EmptyLocator) else
    var locator := ParseText(text, hint);
    if locator.None? then Err(Unrecognized(raw)) else Ok(locator.value)
  }

  function ParseText(text: Bytes, hint: Option<A2ABinding>): Option<A2ALocator> {
    if HasSchemeIgnoringCase(text, SLIM) then Some(New(Slim, text[|SLIM|..]))
    else if HasSchemeIgnoringCase(text, "grpc://") then Some(New(Grpc, HttpOrigin(text[7..])))
    else if HasSchemeIgnoringCase(text, "jsonrpc://") then Some(New(Jsonrpc, HttpOrigin(text[10..])))
    else if HasSchemeIgnoringCase(text, "http+json://") then Some(New(HttpJson, HttpOrigin(text[12..])))
    else if HasSchemeIgnoringCase(text, "http-json://") then Some(New(HttpJson, HttpOrigin(text[12..])))
    else if HasHttp(text) then Some(New(if hint.Some? then hint.value else Grpc, text))
    else if hint.Some? then Some(New(hint.value, text))
    else None
  }

  function DisplayUri(l: A2ALocator): Bytes {
    if l.binding == Slim then SlimNodeUri(l.url)
    else if StartsWith(l.url, HTTPS) then l.binding.ProtocolBinding() + " " + l.url
    else l.binding.UriScheme() + "://" + StripHttpScheme(l.url)
  }

  // --- Prefixes ------------------------------------------------------------------------------

  lemma StartsWithOwn(prefix: Bytes, s: Bytes)
    ensures StartsWith(prefix + s, prefix) && (prefix + s)[|prefix|..] == s
  {
  }

  lemma DiffersAt(s: Bytes, prefix: Bytes, at: nat)
    requires at < |prefix| && (at >= |s| || s[at] != prefix[at])
    ensures !StartsWith(s, prefix)
  {
    assert |prefix| <= |s| ==> s[..|prefix|][at] == s[at];
  }

  /** A text without slashes starts with no scheme. */
  lemma NoScheme(h: Bytes)
    requires '/' !in h
    ensures !StartsWith(h, SLIM) && !StartsWith(h, "SLIM://") && !HasHttp(h)
  {
    DiffersAt(h, SLIM, 5);
    DiffersAt(h, "SLIM://", 5);
    DiffersAt(h, HTTP, 5);
    DiffersAt(h, HTTPS, 6);
  }

  lemma HttpIsNotHttps(s: Bytes)
    ensures !StartsWith(HTTP + s, HTTPS)
  {
    DiffersAt(HTTP + s, HTTPS, 4);
  }

  lemma {:induction false} WholeSegment(h: Bytes)
    requires '/' !in h
    ensures FirstSegment(h) == h
  {
  }

  lemma {:induction false} SegmentBefore(h: Bytes, path: Bytes)
    requires '/' !in h
    ensures FirstSegment(h + "/" + path) == h
  {
    IndexOfAppend(h, '/', path);
    assert h + ['/'] + path == h + "/" + path;
    assert (h + "/" + path)[..|h|] == h;
  }

  // --- SLIM nodes ----------------------------------------------------------------------------

  /** A node's own URI is its normal form. */
  lemma {:induction false} SlimNode(h: Bytes)
    requires '/' !in h && NoWhite(h)
    ensures SlimNodeUri(h) == SLIM + h && SlimNodeUri(SLIM + h) == SLIM + h
  {
    NoScheme(h);
    WholeSegment(h);
    NothingToTrimInNoWhite(h);
    NoWhiteBehind(SLIM, h);
    NothingToTrimInNoWhite(SLIM + h);
    StartsWithOwn(SLIM, h);
  }

  /** What is left of a URL without white space has none, nor slashes. */
  lemma {:induction false} NodeHasNoWhite(url: Bytes)
    requires NoWhite(url)
    ensures NoWhite(StripSlimScheme(url)) && '/' !in StripSlimScheme(url)
  {
    var rest := if StartsWith(url, SLIM) then url[|SLIM|..] else StripPrefix(url, "SLIM://");
    NoWhiteWithin(url, |url| - |rest|, |url|);
    assert rest == url[|url| - |rest|..|url|];
    var host := StripHttpScheme(rest);
    assert host == rest[|rest| - |host|..|rest|];
    NoWhiteWithin(rest, |rest| - |host|, |rest|);
    NoWhiteWithin(host, 0, IndexOf(host, '/'));
    assert host[..IndexOf(host, '/')] == host[0..IndexOf(host, '/')];
  }

  lemma {:induction false} HttpSpelling(rest: Bytes, scheme: Bytes)
    requires NoWhite(rest) && (scheme == HTTP || scheme == HTTPS)
    ensures SlimNodeUri(scheme + rest) == SLIM + FirstSegment(rest)
  {
    NoWhiteBehind(scheme, rest);
    NothingToTrimInNoWhite(scheme + rest);
    StartsWithOwn(scheme, rest);
    DiffersAt(scheme + rest, SLIM, 0);
    DiffersAt(scheme + rest, "SLIM://", 0);
    if scheme == HTTP {
      HttpIsNotHttps(rest);
    }
  }

  lemma {:induction false} SlimSpelling(rest: Bytes)
    requires NoWhite(rest) && !HasHttp(rest)
    ensures SlimNodeUri(SLIM + rest) == SLIM + FirstSegment(rest)
  {
    NoWhiteBehind(SLIM, rest);
    NothingToTrimInNoWhite(SLIM + rest);
    StartsWithOwn(SLIM, rest);
  }

  /** The scheme a node was given with, and whatever follows its first slash, do not matter. */
  lemma {:induction false} NodeSpellings(h: Bytes, path: Bytes)
    requires '/' !in h && NoWhite(h) && NoWhite(h + "/" + path)
    ensures SlimNodeUri(h) == SLIM + h
    ensures SlimNodeUri(HTTP + h) == SLIM + h && SlimNodeUri(HTTPS + h) == SLIM + h
    ensures SlimNodeUri(HTTP + (h + "/" + path)) == SLIM + h && SlimNodeUri(HTTPS + (h + "/" + path)) == SLIM + h
    ensures !HasHttp(h + "/" + path) ==> SlimNodeUri(SLIM + (h + "/" + path)) == SLIM + h
  {
    var rest := h + "/" + path;
    SegmentBefore(h, path);
    WholeSegment(h);
    SlimNode(h);
    HttpSpelling(rest, HTTP);
    HttpSpelling(rest, HTTPS);
    HttpSpelling(h, HTTP);
    HttpSpelling(h, HTTPS);
    if !HasHttp(rest) {
      SlimSpelling(rest);
    }
  }

  /** The ways an endpoint is written: a host, or a host behind one of three schemes. */
  datatype NodeScheme = Bare | Http | Https | SlimUri {
    function Text(): Bytes {
      match this case Bare => "" case Http => HTTP case Https => HTTPS case SlimUri => SLIM
    }
  }

  function SpellNode(scheme: NodeScheme, host: Bytes, path: Option<Bytes>): Bytes {
    scheme.Text() + (host + if path.Some? then "/" + path.value else "")
  }

  /** A host is one word: no slashes, no white space, and no colon at its end. */
  predicate HostWord(host: Bytes) {
    host != "" && '/' !in host && NoWhite(host) && host[|host| - 1] != ':'
  }

  predicate PathText(path: Option<Bytes>) {
    path.Some? ==> NoWhite(path.value)
  }

  /** A prefix that ends in `://` reaches the first slash behind a word only if the word ends in a colon. */
  lemma WordIsNoScheme(host: Bytes, tail: Bytes, prefix: Bytes, colon: nat)
    requires host != "" && '/' !in host && host[|host| - 1] != ':' && (tail == "" || tail[0] == '/')
    requires |prefix| == colon + 3 && prefix[colon] == ':' && prefix[colon + 1] == '/' && '/' !in prefix[..colon]
    ensures !StartsWith(host + tail, prefix)
  {
    var s := host + tail;
    if |host| <= colon {
      assert prefix[..colon + 1] == prefix[..colon] + [':'];
      assert prefix[|host|] == prefix[..colon + 1][|host|];
      DiffersAt(s, prefix, |host|);
    } else if |host| == colon + 1 {
      assert s[colon] == host[|host| - 1];
      DiffersAt(s, prefix, colon);
    } else {
      assert s[colon + 1] == host[colon + 1] && host[colon + 1] in host;
      DiffersAt(s, prefix, colon + 1);
    }
  }

  lemma WordHasNoScheme(host: Bytes, tail: Bytes)
    requires host != "" && '/' !in host && host[|host| - 1] != ':' && (tail == "" || tail[0] == '/')
    ensures !HasHttp(host + tail) && !StartsWith(host + tail, SLIM) && !StartsWith(host + tail, "SLIM://")
  {
    WordIsNoScheme(host, tail, HTTP, 4);
    WordIsNoScheme(host, tail, HTTPS, 5);
    WordIsNoScheme(host, tail, SLIM, 4);
    WordIsNoScheme(host, tail, "SLIM://", 4);
  }

  lemma {:induction false} BareSpelling(rest: Bytes)
    requires NoWhite(rest) && !HasHttp(rest) && !StartsWith(rest, SLIM) && !StartsWith(rest, "SLIM://")
    ensures SlimNodeUri(rest) == SLIM + FirstSegment(rest)
  {
    NothingToTrimInNoWhite(rest);
  }

  lemma HostWithPath(host: Bytes, path: Option<Bytes>)
    requires HostWord(host) && PathText(path)
    ensures var rest := host + if path.Some? then "/" + path.value else "";
            && NoWhite(rest) && rest != "" && FirstSegment(rest) == host
            && !HasHttp(rest) && !StartsWith(rest, SLIM) && !StartsWith(rest, "SLIM://")
  {
    var tail := if path.Some? then "/" + path.value else "";
    WordHasNoScheme(host, tail);
    hide HasHttp, StartsWith;
    if path.Some? {
      NoWhiteBehind("/", path.value);
      SegmentBefore(host, path.value);
      assert host + tail == host + "/" + path.value;
    } else {
      WholeSegment(host);
      assert host + tail == host;
    }
    NoWhiteJoined(host, tail);
  }

  /** However it is written, it is the same node. */
  lemma {:induction false} EverySpellingIsTheNode(scheme: NodeScheme, host: Bytes, path: Option<Bytes>)
    requires HostWord(host) && PathText(path)
    ensures SlimNodeUri(SpellNode(scheme, host, path)) == SLIM + host
    ensures NoWhite(SpellNode(scheme, host, path)) && SpellNode(scheme, host, path) != ""
  {
    hide SlimNodeUri, HasHttp, StartsWith, NoWhite, FirstSegment;
    HostWithPath(host, path);
    var rest := host + if path.Some? then "/" + path.value else "";
    match scheme
    case Bare =>
      BareSpelling(rest);
      assert "" + rest == rest;
    case Http =>
      HttpSpelling(rest, HTTP);
      NoWhiteBehind(HTTP, rest);
    case Https =>
      HttpSpelling(rest, HTTPS);
      NoWhiteBehind(HTTPS, rest);
    case SlimUri =>
      SlimSpelling(rest);
      NoWhiteBehind(SLIM, rest);
  }

  // --- HTTP URLs -----------------------------------------------------------------------------

  lemma {:induction false} TrimSlashesBehind(prefix: Bytes, s: Bytes)
    ensures TrimSlashes(prefix + s) == if TrimSlashes(s) == "" then TrimSlashes(prefix) else prefix + TrimSlashes(s)
    decreases |s|
  {
    if s == "" {
      assert prefix + s == prefix;
    } else {
      assert (prefix + s)[..|prefix + s| - 1] == prefix + s[..|s| - 1];
      TrimSlashesBehind(prefix, s[..|s| - 1]);
    }
  }

  lemma TrimmedTwice(s: Bytes)
    ensures TrimSlashes(TrimSlashes(s)) == TrimSlashes(s)
  {
  }

  lemma {:induction false} BareScheme()
    ensures TrimSlashes(HTTP) == "http:" && TrimSlashes(HTTPS) == "https:"
  {
    assert HTTP[..6] == "http:/" && "http:/"[..5] == "http:";
    assert HTTPS[..7] == "https:/" && "https:/"[..6] == "https:";
    assert TrimSlashes("http:/") == TrimSlashes("http:") == "http:";
    assert TrimSlashes("https:/") == TrimSlashes("https:") == "https:";
  }

  /** There is something besides a scheme and slashes. */
  predicate HasHost(url: Bytes) {
    TrimSlashes(StripHttpScheme(url)) != ""
  }

  /** A scheme and a host without trailing slash is a normal form. */
  lemma {:induction false} NormalForm(scheme: Bytes, host: Bytes)
    requires (scheme == HTTP || scheme == HTTPS) && NoWhite(host) && host != "" && TrimSlashes(host) == host
    ensures NormalizeHttpUrl(scheme + host) == scheme + host
  {
    NoWhiteBehind(scheme, host);
    NothingToTrimInNoWhite(scheme + host);
    StartsWithOwn(scheme, host);
    TrimSlashesBehind(scheme, host);
  }

  lemma HostIsWithin(url: Bytes)
    requires NoWhite(url)
    ensures NoWhite(TrimSlashes(StripHttpScheme(url)))
  {
    var rest := StripHttpScheme(url);
    assert rest == url[|url| - |rest|..|url|];
    NoWhiteWithin(url, |url| - |rest|, |url|);
    NoWhiteWithin(rest, 0, |TrimSlashes(rest)|);
    assert rest[0..|TrimSlashes(rest)|] == TrimSlashes(rest);
  }

  /** What normalizing gives, by the scheme the URL has. */
  lemma {:induction false} NormalizeIs(url: Bytes)
    requires NoWhite(url)
    ensures var host := TrimSlashes(StripHttpScheme(url));
            var n := NormalizeHttpUrl(url);
            && NoWhite(host)
            && (host != "" ==> n == (if StartsWith(url, HTTPS) then HTTPS else HTTP) + host)
            && (host == "" ==>
                  n == if StartsWith(url, HTTPS) then "https:" else if StartsWith(url, HTTP) then "http:" else HTTP)
  {
    hide NoWhite, NormalizeHttpUrl;
    BareScheme();
    NormalizeTrims(url);
    HostIsWithin(url);
    var rest := StripHttpScheme(url);
    if StartsWith(url, HTTPS) {
      assert url == HTTPS + rest;
      TrimSlashesBehind(HTTPS, rest);
    } else if StartsWith(url, HTTP) {
      assert url == HTTP + rest;
      TrimSlashesBehind(HTTP, rest);
    }
  }

  lemma NormalizeTrims(url: Bytes)
    requires NoWhite(url)
    ensures NormalizeHttpUrl(url) == if HasHttp(url) then TrimSlashes(url) else HTTP + TrimSlashes(url)
  {
    NothingToTrimInNoWhite(url);
  }

  lemma {:induction false} HostlessIsNotNormal(n: Bytes)
    requires NamesNoHost(n)
    ensures NormalizeHttpUrl(n) != n
  {
    NoHostHasNoWhite(n);
    NormalizeIs(n);
    if n == HTTP {
      HttpIsNotHttps("");
      assert HTTP + "" == HTTP && StripHttpScheme(n) == "";
    } else {
      assert !HasHttp(n) && StripHttpScheme(n) == n && TrimSlashes(n) == n;
    }
  }

  /** Building a locator from its own URL changes nothing exactly when the URL names a host. */
  lemma {:induction false} NormalizeTwiceExact(url: Bytes)
    requires NoWhite(url)
    ensures NormalizeHttpUrl(NormalizeHttpUrl(url)) == NormalizeHttpUrl(url) <==> HasHost(url)
  {
    NormalizeIs(url);
    var host := TrimSlashes(StripHttpScheme(url));
    if host != "" {
      TrimmedTwice(StripHttpScheme(url));
      NormalForm(if StartsWith(url, HTTPS) then HTTPS else HTTP, host);
    } else {
      HostlessIsNotNormal(NormalizeHttpUrl(url));
    }
  }

  lemma {:induction false} NewTwice(binding: A2ABinding, url: Bytes)
    requires NoWhite(url)
    ensures New(binding, New(binding, url).url) == New(binding, url) <==> binding == Slim || HasHost(url)
  {
    if binding == Slim {
      NothingToTrimInNoWhite(url);
      NodeHasNoWhite(url);
      SlimNode(StripSlimScheme(url));
    } else {
      NormalizeTwiceExact(url);
    }
  }

  function Slashes(n: nat): (s: Bytes)
    ensures |s| == n && forall k :: 0 <= k < n ==> s[k] == '/'
  {
    if n == 0 then "" else Slashes(n - 1) + "/"
  }

  /** The ways a URL is written; without scheme it is taken for plain HTTP. */
  datatype UrlScheme = NoScheme | Plain | Secure {
    function Text(): Bytes {
      match this case NoScheme => "" case Plain => HTTP case Secure => HTTPS
    }

    function Normal(): Bytes {
      if this == Secure then HTTPS else HTTP
    }
  }

  /** A URL behind a scheme or none, and with any number of slashes behind it. */
  function SpellUrl(scheme: UrlScheme, url: Bytes, slashes: nat): Bytes {
    scheme.Text() + (url + Slashes(slashes))
  }

  /** A URL written without scheme: no white space, and an end that is neither slash nor colon. */
  predicate UrlWord(url: Bytes) {
    url != "" && NoWhite(url) && !HasHttp(url) && url[|url| - 1] != '/' && url[|url| - 1] != ':'
  }

  lemma {:induction false} SlashesComeOff(url: Bytes, n: nat)
    requires url != "" && url[|url| - 1] != '/'
    ensures TrimSlashes(url + Slashes(n)) == url
    decreases n
  {
    if n == 0 {
      assert url + Slashes(0) == url;
    } else {
      var s := url + Slashes(n);
      assert s[|s| - 1] == '/' && s[..|s| - 1] == url + Slashes(n - 1);
      SlashesComeOff(url, n - 1);
    }
  }

  /** Slashes behind such a text do not make it start with a scheme. */
  lemma SlashesMakeNoScheme(url: Bytes, n: nat, prefix: Bytes)
    requires url != "" && url[|url| - 1] != '/' && url[|url| - 1] != ':' && !StartsWith(url, prefix)
    requires |prefix| >= 3 && prefix[|prefix| - 3..] == "://" && '/' !in prefix[..|prefix| - 3]
    ensures !StartsWith(url + Slashes(n), prefix)
  {
    var s, m := url + Slashes(n), |prefix|;
    assert prefix[m - 3] == prefix[m - 3..][0] == ':' && prefix[m - 2] == prefix[m - 3..][1]
        && prefix[m - 1] == prefix[m - 3..][2];
    if |url| >= m {
      assert s[..m] == url[..m];
    } else if |url| < m - 2 {
      assert |url| < m - 3 ==> prefix[|url|] == prefix[..m - 3][|url|] && prefix[|url|] in prefix[..m - 3];
      DiffersAt(s, prefix, |url|);
    } else {
      assert s[|url| - 1] == url[|url| - 1];
      DiffersAt(s, prefix, |url| - 1);
    }
  }

  lemma NoSchemeBeforeSlashes(url: Bytes, slashes: nat)
    requires UrlWord(url)
    ensures !HasHttp(url + Slashes(slashes))
  {
    hide NoWhite, Slashes;
    SlashesMakeNoScheme(url, slashes, HTTP);
    SlashesMakeNoScheme(url, slashes, HTTPS);
  }

  /** However many slashes follow, it is the same URL; plain and secure are two. */
  lemma {:induction false} EverySpellingIsTheUrl(scheme: UrlScheme, url: Bytes, slashes: nat)
    requires UrlWord(url)
    ensures NormalizeHttpUrl(SpellUrl(scheme, url, slashes)) == scheme.Normal() + url
    ensures NoWhite(SpellUrl(scheme, url, slashes)) && SpellUrl(scheme, url, slashes) != ""
  {
    var rest := url + Slashes(slashes);
    SlashesComeOff(url, slashes);
    VisibleHasNoWhite(Slashes(slashes));
    NoWhiteJoined(url, Slashes(slashes));
    hide NoWhite, NormalizeHttpUrl, HasHttp, TrimSlashes;
    match scheme
    case NoScheme =>
      NoSchemeBeforeSlashes(url, slashes);
      assert "" + rest == rest;
      NormalizedWithoutScheme(rest);
    case Plain =>
      NoWhiteBehind(HTTP, rest);
      NormalizedWithScheme(rest);
    case Secure =>
      NoWhiteBehind(HTTPS, rest);
      NormalizedSecurely(rest);
  }

  lemma {:induction false} NormalizedWithScheme(rest: Bytes)
    requires NoWhite(HTTP + rest) && TrimSlashes(rest) != ""
    ensures NormalizeHttpUrl(HTTP + rest) == HTTP + TrimSlashes(rest)
  {
    HttpIsNotHttps(rest);
    StartsWithOwn(HTTP, rest);
    NormalizeIs(HTTP + rest);
  }

  lemma {:induction false} NormalizedSecurely(rest: Bytes)
    requires NoWhite(HTTPS + rest) && TrimSlashes(rest) != ""
    ensures NormalizeHttpUrl(HTTPS + rest) == HTTPS + TrimSlashes(rest)
  {
    StartsWithOwn(HTTPS, rest);
    NormalizeIs(HTTPS + rest);
  }

  /** A plain URL is no secure one. */
  lemma SchemesApart(a: Bytes, b: Bytes)
    ensures HTTP + a != HTTPS + b
  {
    assert (HTTP + a)[4] == ':' && (HTTPS + b)[4] == 's';
  }

  lemma NormalizedWithoutScheme(rest: Bytes)
    requires NoWhite(rest) && !HasHttp(rest)
    ensures NormalizeHttpUrl(rest) == HTTP + TrimSlashes(rest)
  {
    NothingToTrimInNoWhite(rest);
  }

  lemma VisibleHasNoWhite(s: Bytes)
    requires Visible(s)
    ensures NoWhite(s)
  {
    NoWhiteBehind(s, "");
    assert s + "" == s;
  }

  // --- Display and parse ---------------------------------------------------------------------

  lemma SchemeDiffers(s: Bytes, scheme: Bytes, at: nat)
    requires at < |scheme| && (at >= |s| || Lower(s[at]) != Lower(scheme[at]))
    ensures !HasSchemeIgnoringCase(s, scheme)
  {
  }

  lemma OwnScheme(scheme: Bytes, s: Bytes)
    ensures HasSchemeIgnoringCase(scheme + s, scheme) && (scheme + s)[|scheme|..] == s
  {
  }

  function Scheme(binding: A2ABinding): Bytes {
    match binding
    case Slim => SLIM
    case Grpc => "grpc://"
    case Jsonrpc => "jsonrpc://"
    case HttpJson => "http+json://"
  }

  lemma SchemeIs(binding: A2ABinding)
    ensures Scheme(binding) == binding.UriScheme() + "://" && Visible(Scheme(binding))
  {
  }

  lemma {:induction false} ParseOwnText(binding: A2ABinding, x: Bytes)
    ensures ParseText(Scheme(binding) + x, None)
            == Some(if binding == Slim then New(Slim, x) else New(binding, HttpOrigin(x)))
  {
    hide New, HttpOrigin;
    var text := Scheme(binding) + x;
    OwnScheme(Scheme(binding), x);
    if binding != Slim {
      SchemeDiffers(text, SLIM, 0);
    }
    if binding.Jsonrpc? || binding.HttpJson? {
      SchemeDiffers(text, "grpc://", 0);
    }
    if binding.HttpJson? {
      SchemeDiffers(text, "jsonrpc://", 0);
    }
  }

  lemma {:induction false} ParseOwnScheme(binding: A2ABinding, x: Bytes)
    requires NoWhite(x)
    ensures ParseWithHint(binding.UriScheme() + "://" + x, None)
            == Ok(if binding == Slim then New(Slim, x) else New(binding, HttpOrigin(x)))
  {
    SchemeIs(binding);
    hide Scheme, A2ABinding.UriScheme, ParseText, New, HttpOrigin, Trim, NoWhite;
    NoWhiteBehind(Scheme(binding), x);
    NothingToTrimInNoWhite(Scheme(binding) + x);
    ParseOwnText(binding, x);
  }

  /** Plain text, and a host right behind the scheme that is not itself an HTTP URL. */
  predicate PlainHost(url: Bytes) {
    StartsWith(url, HTTP) && var x := url[|HTTP|..]; x != "" && x[0] != '/' && !HasHttp(x)
  }

  lemma {:induction false} NormalizedIsShort(url: Bytes)
    requires NoWhite(url) && HasHttp(url)
    ensures |NormalizeHttpUrl(url)| <= |url|
  {
    NothingToTrimInNoWhite(url);
  }

  /** Putting the scheme back in front of anything but a plain host gives a different URL. */
  lemma {:induction false} OriginDiffers(url: Bytes)
    requires NoWhite(url) && StartsWith(url, HTTP) && !PlainHost(url) && url != HTTP
    ensures NormalizeHttpUrl(HttpOrigin(url[|HTTP|..])) != url
  {
    var x := url[|HTTP|..];
    var h := DropSlashes(x);
    NoWhiteWithin(url, |url| - |h|, |url|);
    assert h == url[|url| - |h|..|url|];
    NoWhiteBehind(HTTP, h);
    StartsWithOwn(HTTP, h);
    hide NormalizeHttpUrl;
    NormalizedIsShort(HttpOrigin(x));
  }

  lemma {:induction false} OriginOfHost(url: Bytes)
    requires PlainHost(url)
    ensures HttpOrigin(url[|HTTP|..]) == url
  {
    assert HTTP + url[|HTTP|..] == url;
  }

  predicate NamesNoHost(n: Bytes) {
    n == "http:" || n == "https:" || n == HTTP
  }

  lemma NoHostHasNoWhite(n: Bytes)
    requires NamesNoHost(n)
    ensures NoWhite(n)
  {
    VisibleHasNoWhite(n);
  }

  /** Every normal form is its own, or is one of the three that name no host. */
  lemma {:induction false} NormalForms(url: Bytes)
    requires NoWhite(url)
    ensures var n := NormalizeHttpUrl(url);
            NoWhite(n) && (NormalizeHttpUrl(n) == n || NamesNoHost(n))
  {
    if HasHost(url) {
      NormalizeTwiceExact(url);
      HostNormalHasNoWhite(url);
    } else {
      HostlessNormal(url);
      NoHostHasNoWhite(NormalizeHttpUrl(url));
    }
  }

  lemma {:induction false} HostNormalHasNoWhite(url: Bytes)
    requires NoWhite(url) && HasHost(url)
    ensures NoWhite(NormalizeHttpUrl(url))
  {
    hide NormalizeHttpUrl, StripHttpScheme, TrimSlashes, NoWhite, StartsWith;
    NormalizeIs(url);
    var host := TrimSlashes(StripHttpScheme(url));
    NoWhiteBehind(HTTPS, host);
    NoWhiteBehind(HTTP, host);
  }

  lemma {:induction false} HostlessNormal(url: Bytes)
    requires NoWhite(url) && !HasHost(url)
    ensures NamesNoHost(NormalizeHttpUrl(url))
  {
    NormalizeIs(url);
  }

  lemma {:induction false} NothingToTrimBehind(word: Bytes, url: Bytes)
    requires word != "" && ' ' < word[0] <= '~' && NoWhite(url) && |url| >= 3
    ensures Trim(word + " " + url) == word + " " + url
  {
    var text := word + " " + url;
    assert text[0] == word[0];
    assert text[|text| - 1..] == url[|url| - 1..];
    assert text[|text| - 2..] == url[|url| - 2..];
    assert text[|text| - 3..] == url[|url| - 3..];
    NothingToTrim(text);
  }

  lemma NoUri(text: Bytes, colon: nat)
    requires Trim(text) == text && colon < |text| && text[colon] == ' '
    requires || (text[0] == 'G' && colon == 4)
             || (text[0] == 'J' && colon == 7)
             || (text[0] == 'H' && colon == 9 && text[4] == '+')
    ensures ParseWithHint(text, None).Err?
  {
    SchemeDiffers(text, SLIM, 0);
    SchemeDiffers(text, "grpc://", if colon == 4 then 4 else 0);
    SchemeDiffers(text, "jsonrpc://", if colon == 7 then 7 else 0);
    SchemeDiffers(text, "http+json://", if colon == 9 then 9 else 0);
    SchemeDiffers(text, "http-json://", if colon == 9 then 4 else 0);
    DiffersAt(text, HTTP, 0);
    DiffersAt(text, HTTPS, 0);
  }

  /** An HTTPS locator is displayed as a binding name and a URL, which is no locator URI. */
  lemma {:induction false} HttpsDisplayIsNoUri(binding: A2ABinding, url: Bytes)
    requires binding != Slim && NoWhite(url) && StartsWith(url, HTTPS)
    ensures ParseWithHint(binding.ProtocolBinding() + " " + url, None).Err?
  {
    var word := binding.ProtocolBinding();
    var text := word + " " + url;
    assert forall k :: 0 <= k < |word| ==> text[k] == word[k];
    assert text[|word|] == ' ';
    NothingToTrimBehind(word, url);
    NoUri(text, |word|);
  }

  lemma {:induction false} SlimRoundTrip(url: Bytes)
    requires NoWhite(url)
    ensures ParseWithHint(DisplayUri(New(Slim, url)), None) == Ok(New(Slim, url))
  {
    hide StripSlimScheme, SlimNodeUri, ParseWithHint, NoWhite;
    SlimUrl(url);
    var h := StripSlimScheme(url);
    SlimNode(h);
    SchemeIs(Slim);
    ParseOwnScheme(Slim, h);
  }

  lemma {:induction false} SlimUrl(url: Bytes)
    requires NoWhite(url)
    ensures New(Slim, url).url == SLIM + StripSlimScheme(url)
    ensures '/' !in StripSlimScheme(url) && NoWhite(StripSlimScheme(url))
  {
    NothingToTrimInNoWhite(url);
    NodeHasNoWhite(url);
  }

  lemma {:induction false} OriginExact(n: Bytes)
    requires NoWhite(n) && !StartsWith(n, HTTPS) && (NormalizeHttpUrl(n) == n || NamesNoHost(n))
    ensures NormalizeHttpUrl(HttpOrigin(StripHttpScheme(n))) == n <==> PlainHost(n)
  {
    if PlainHost(n) {
      OriginOfHost(n);
      PlainIsNormal(n);
    } else if NamesNoHost(n) {
      NoHostOriginDiffers(n);
    } else {
      NormalHasHttp(n);
      OriginDiffers(n);
    }
  }

  lemma {:induction false} UnicastRoundTrip(binding: A2ABinding, n: Bytes)
    requires binding != Slim && NoWhite(n) && (NormalizeHttpUrl(n) == n || NamesNoHost(n))
    ensures ParseWithHint(DisplayUri(A2ALocator(binding, n)), None) == Ok(A2ALocator(binding, n)) <==> PlainHost(n)
  {
    hide ParseWithHint, NormalizeHttpUrl, HttpOrigin;
    if StartsWith(n, HTTPS) {
      HttpsDisplayIsNoUri(binding, n);
      DiffersAt(n, HTTP, 4);
    } else {
      var x := StripHttpScheme(n);
      NoWhiteWithin(n, |n| - |x|, |n|);
      assert x == n[|n| - |x|..|n|];
      ParseOwnScheme(binding, x);
      OriginExact(n);
    }
  }

  lemma PlainIsNormal(n: Bytes)
    requires PlainHost(n) && (NormalizeHttpUrl(n) == n || NamesNoHost(n))
    ensures NormalizeHttpUrl(n) == n
  {
  }

  lemma {:induction false} NoHostOriginDiffers(n: Bytes)
    requires NamesNoHost(n)
    ensures NormalizeHttpUrl(HttpOrigin(StripHttpScheme(n))) != n
  {
    if n == HTTP {
      HttpIsNotHttps("");
      assert HTTP + "" == HTTP && StripHttpScheme(n) == "";
      HostlessIsNotNormal(HTTP);
    } else {
      assert !HasHttp(n) && StripHttpScheme(n) == n && DropSlashes(n) == n;
      NoHostHasNoWhite(n);
      assert TrimSlashes(n) == n;
      NormalForm(HTTP, n);
    }
  }

  lemma NormalHasHttp(n: Bytes)
    requires NoWhite(n) && NormalizeHttpUrl(n) == n
    ensures HasHttp(n)
  {
    NothingToTrimInNoWhite(n);
    if !HasHttp(n) {
      StartsWithOwn(HTTP, TrimSlashes(n));
    }
  }

  /** Parsing what is displayed gives back the locator: any SLIM node, and any other locator exactly
      when it is plain text and its host is not itself an HTTP URL. */
  lemma {:induction false} DisplayParseExact(binding: A2ABinding, url: Bytes)
    requires NoWhite(url)
    ensures var l := New(binding, url);
            ParseWithHint(DisplayUri(l), None) == Ok(l) <==> binding == Slim || PlainHost(l.url)
  {
    if binding == Slim {
      SlimRoundTrip(url);
    } else {
      NormalForms(url);
      UnicastRoundTrip(binding, NormalizeHttpUrl(url));
    }
  }
}
