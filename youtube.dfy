/** Canonicalisation of a discovered YouTube link (`extract_youtube_watch_url`)
    and the fix-up of relative iframe sources that precedes it. */
module YouTube {
  import opened Outcomes
  import opened Strings

  const EmbedMarker := "youtube.com/embed/"
  const WatchMarker := "youtube.com/watch"
  const WatchPrefix := "https://www.youtube.com/watch?v="

  /** The canonical watch-page URL of a video id. */
  function WatchUrl(id: string): string {
    WatchPrefix + id
  }

  /** The id of an embed URL: the text after the last `youtube.com/embed/`,
      cut at the first `?` and then at the first `/`. Equivalently, the
      longest prefix of that text holding neither `?` nor `/`. */
  function EmbedId(u: string): (id: string)
    ensures id <= AfterLast(u, EmbedMarker)
    ensures '?' !in id && '/' !in id
    ensures |id| < |AfterLast(u, EmbedMarker)| ==> AfterLast(u, EmbedMarker)[|id|] in {'?', '/'}
  {
    var tail := AfterLast(u, EmbedMarker);
    var beforeQuery := BeforeChar(tail, '?');
    var id := BeforeChar(beforeQuery, '/');
    assert |id| < |beforeQuery| ==> tail[|id|] == beforeQuery[|id|];
    id
  }

  predicate IsAsciiLetter(c: char) {
    ('a' <= c <= 'z') || ('A' <= c <= 'Z')
  }

  /** The characters `urlsplit` allows in a scheme name. */
  predicate IsSchemeChar(c: char) {
    IsAsciiLetter(c) || ('0' <= c <= '9') || c == '+' || c == '-' || c == '.'
  }

  /** What `urlsplit` leaves after taking off a leading `scheme:`. */
  function AfterScheme(u: string): (rest: string)
    ensures rest == u || (|rest| < |u| && rest == u[|u| - |rest|..])
  {
    var head := BeforeChar(u, ':');
    if 0 < |head| < |u| && IsAsciiLetter(u[0]) && forall k :: 0 <= k < |head| ==> IsSchemeChar(head[k])
    then u[|head| + 1..]
    else u
  }

  /** The network location `urlsplit` finds: present when the text after the
      scheme starts with `//`, and running up to the first `/`, `?` or `#`. */
  function Netloc(u: string): Option<string> {
    var rest := AfterScheme(u);
    if "//" <= rest then Some(BeforeAny(rest[2..], {'/', '?', '#'})) else None
  }

  /** `urlparse(u)` raises ValueError ("Invalid IPv6 URL") when the network
      location holds one square bracket without the other. */
  predicate UrlSplitRaises(u: string) {
    Netloc(u).Some? && (('[' in Netloc(u).value) != (']' in Netloc(u).value))
  }

  /** `urlparse(u).query`: the text after the first `?` and before the first
      `#`. Neither a scheme name nor a network location can hold `?` or `#`,
      so the search can run over the whole URL. */
  function Query(u: string): string {
    match AfterChar(BeforeChar(u, '#'), '?')
    case Some(q) => q
    case None => ""
  }

  /** The pair `name=value` as `parse_qs` splits it: at its first `=`. */
  predicate GivesValue(pair: string, name: string, value: string) {
    AfterChar(pair, '=') == Some(value) && BeforeChar(pair, '=') == name
  }

  /** The pair gives `name` a non-blank value. */
  predicate NamesNonBlank(pair: string, name: string) {
    AfterChar(pair, '=').Some? && AfterChar(pair, '=').value != "" && BeforeChar(pair, '=') == name
  }

  /** `parse_qs(q).get(name, [""])[0]` over the `&`-separated pairs of a query:
      the first non-blank value given to `name`. Pairs without `=` and pairs
      with an empty value are skipped, as `parse_qs` does by default. */
  function FirstValue(pairs: seq<string>, name: string): (r: Option<string>)
    ensures r.Some? ==> r.value != "" && exists k :: 0 <= k < |pairs| && GivesValue(pairs[k], name, r.value)
    ensures r.Some? ==> exists k :: 0 <= k < |pairs| && GivesValue(pairs[k], name, r.value)
                                   && forall j :: 0 <= j < k ==> !NamesNonBlank(pairs[j], name)
    ensures r.None? ==> forall k, v :: 0 <= k < |pairs| && v != "" ==> !GivesValue(pairs[k], name, v)
    ensures r.None? <==> forall k :: 0 <= k < |pairs| ==> !NamesNonBlank(pairs[k], name)
  {
    if pairs == [] then None
    else if NamesNonBlank(pairs[0], name) then AfterChar(pairs[0], '=')
    else
      var rest := FirstValue(pairs[1..], name);
      FirstValueLater(pairs, name, rest);
      rest
  }

  /** When the first pair gives `name` no value, the first value in the
      other pairs is the first value in all of them. */
  lemma FirstValueLater(pairs: seq<string>, name: string, rest: Option<string>)
    requires pairs != [] && !NamesNonBlank(pairs[0], name)
    requires rest.Some? ==> rest.value != "" && exists k :: 0 <= k < |pairs[1..]| && GivesValue(pairs[1..][k], name, rest.value)
                                                         && forall j :: 0 <= j < k ==> !NamesNonBlank(pairs[1..][j], name)
    requires rest.None? <==> forall k :: 0 <= k < |pairs[1..]| ==> !NamesNonBlank(pairs[1..][k], name)
    ensures rest.Some? ==> exists k :: 0 <= k < |pairs| && GivesValue(pairs[k], name, rest.value)
                                     && forall j :: 0 <= j < k ==> !NamesNonBlank(pairs[j], name)
    ensures rest.None? <==> forall k :: 0 <= k < |pairs| ==> !NamesNonBlank(pairs[k], name)
  {
    if rest.Some? {
      var k :| 0 <= k < |pairs[1..]| && GivesValue(pairs[1..][k], name, rest.value)
               && forall j :: 0 <= j < k ==> !NamesNonBlank(pairs[1..][j], name);
      assert pairs[k + 1] == pairs[1..][k];
      assert NamesNonBlank(pairs[k + 1], name);
      forall j | 0 <= j < k + 1 ensures !NamesNonBlank(pairs[j], name) {
        if j > 0 {
          assert pairs[j] == pairs[1..][j - 1];
        }
      }
    } else {
      forall k | 0 <= k < |pairs| ensures !NamesNonBlank(pairs[k], name) {
        if k > 0 {
          assert pairs[k] == pairs[1..][k - 1];
        }
      }
    }
  }

  /** The value of query parameter `name` of `u`, as the bot reads it. */
  function QueryParam(u: string, name: string): Option<string> {
    FirstValue(SplitOn(Query(u), '&'), name)
  }

  /** `extract_youtube_watch_url` of modules/rss/rss.py: an embed URL becomes
      the watch URL of its id; a watch URL with a non-blank `v` is rebuilt
      from it; anything else, and any URL `urlparse` rejects (the exception
      is caught), comes back unchanged. */
  function ExtractWatchUrl(u: string): (r: string)
    ensures r == u || WatchPrefix <= r
    ensures Contains(u, EmbedMarker) ==> r == WatchUrl(EmbedId(u))
    ensures !Contains(u, EmbedMarker) && !Contains(u, WatchMarker) ==> r == u
    ensures !Contains(u, EmbedMarker) && Contains(u, WatchMarker) ==>
      r == (if !UrlSplitRaises(u) && QueryParam(u, "v").Some? then WatchUrl(QueryParam(u, "v").value) else u)
  {
    if Contains(u, EmbedMarker) then WatchUrl(EmbedId(u))
    else if Contains(u, WatchMarker) then
      if UrlSplitRaises(u) then u
      else
        match QueryParam(u, "v")
        case Some(v) => WatchUrl(v)
        case None => u
    else u
  }

  /** `extract_youtube_watch_url` of module/rss/rss.py: the same rules without
      the exception guard, so a URL `urlparse` rejects raises ValueError. */
  function LegacyExtractWatchUrl(u: string): (r: Result<string>)
    ensures r.Raised? <==> !Contains(u, EmbedMarker) && Contains(u, WatchMarker) && UrlSplitRaises(u)
    ensures r.Returned? ==> r.value == ExtractWatchUrl(u)
    ensures r.Raised? ==> ExtractWatchUrl(u) == u
  {
    if Contains(u, EmbedMarker) then Returned(WatchUrl(EmbedId(u)))
    else if Contains(u, WatchMarker) then
      if UrlSplitRaises(u) then Raised(ValueError)
      else
        match QueryParam(u, "v")
        case Some(v) => Returned(WatchUrl(v))
        case None => Returned(u)
    else Returned(u)
  }

  /** The fix-up of a relative iframe `src`: `//host/...` gets `https:`,
      `/path` gets `https://www.youtube.com`, anything else is kept. */
  function FixRelative(src: string): (r: string)
    ensures "//" <= src ==> r == "https:" + src
    ensures "/" <= src && !("//" <= src) ==> r == "https://www.youtube.com" + src
    ensures !("/" <= src) ==> r == src
  {
    if "//" <= src then "https:" + src
    else if "/" <= src then "https://www.youtube.com" + src
    else src
  }

  /** The fixed-up URL never starts with `/`, ends with the original `src`,
      and fixing it again changes nothing. */
  lemma FixRelativeIdempotent(src: string)
    ensures !("/" <= FixRelative(src))
    ensures FixRelative(src) == FixRelative(src)[..|FixRelative(src)| - |src|] + src
    ensures FixRelative(FixRelative(src)) == FixRelative(src)
  {
    var r := FixRelative(src);
    if "/" <= src {
      assert r[0] == 'h';
    }
    assert r == r[..|r| - |src|] + src;
  }

  /** A watch URL never contains `youtube.com/embed/` when its id holds no `/`:
      the marker's two slashes are six apart, and no two slashes of the
      prefix are. */
  lemma NoEmbedMarkerInWatchUrl(id: string)
    requires '/' !in id
    ensures !Contains(WatchUrl(id), EmbedMarker)
  {
    var s := WatchUrl(id);
    forall i: nat
      ensures !OccursAt(s, EmbedMarker, i)
    {
      if i + 18 <= |s| {
        if i >= 15 {
          assert s[i + 17] == id[i + 17 - 32];
        } else {
          assert s[i + 11] == WatchPrefix[i + 11] && s[i + 17] == WatchPrefix[i + 17];
        }
        assert s[i + 11] != '/' || s[i + 17] != '/';
        assert s[i..i + 18][11] == s[i + 11] && s[i..i + 18][17] == s[i + 17];
      }
    }
  }

  /** A video id that survives a trip through the watch URL's query string. */
  predicate IsPlainId(id: string) {
    '/' !in id && '?' !in id && '#' !in id && '&' !in id
  }

  /** `urlsplit` takes a well-formed scheme name and its colon off the front. */
  lemma AfterSchemeOf(scheme: string, rest: string)
    requires scheme != [] && IsAsciiLetter(scheme[0]) && ':' !in scheme
    requires forall k :: 0 <= k < |scheme| ==> IsSchemeChar(scheme[k])
    ensures AfterScheme(scheme + ":" + rest) == rest
  {
    var u := scheme + ":" + rest;
    assert (scheme + ":")[..|scheme|] == scheme;
    BeforeCharInFront(scheme + ":", rest, ':', |scheme|);
    assert u[|scheme| + 1..] == rest;
  }

  lemma HttpsIsScheme(scheme: string)
    requires scheme == "https"
    ensures scheme != [] && IsAsciiLetter(scheme[0]) && ':' !in scheme
    ensures forall k :: 0 <= k < |scheme| ==> IsSchemeChar(scheme[k])
  {
  }

  lemma WatchUrlParts(id: string)
    ensures WatchUrl(id) == "https" + ":" + ("//" + "www.youtube.com" + ("/watch?v=" + id))
  {
  }

  lemma AfterSchemeParts(id: string)
    ensures "//www.youtube.com/watch?v=" + id == "//" + "www.youtube.com" + ("/watch?v=" + id)
  {
  }

  lemma WatchUrlScheme(id: string)
    ensures AfterScheme(WatchUrl(id)) == "//www.youtube.com/watch?v=" + id
  {
    HttpsIsScheme("https");
    WatchUrlParts(id);
    AfterSchemeParts(id);
    AfterSchemeOf("https", "//" + "www.youtube.com" + ("/watch?v=" + id));
  }

  /** The network location runs from after `//` up to the first stop character. */
  lemma NetlocOf(u: string, host: string, tail: string)
    requires AfterScheme(u) == "//" + host + tail
    requires forall j :: 0 <= j < |host| ==> host[j] !in {'/', '?', '#'}
    requires tail != [] && tail[0] in {'/', '?', '#'}
    ensures Netloc(u) == Some(host)
  {
    var rest := AfterScheme(u);
    assert rest[..2] == "//";
    assert rest[2..] == host + tail;
    BeforeAnyAt(host + tail, {'/', '?', '#'}, |host|);
    assert (host + tail)[..|host|] == host;
  }

  lemma HostHasNoStops(host: string)
    requires host == "www.youtube.com"
    ensures forall j :: 0 <= j < |host| ==> host[j] !in {'/', '?', '#'}
  {
  }

  lemma WatchUrlNetloc(id: string)
    ensures Netloc(WatchUrl(id)) == Some("www.youtube.com")
  {
    WatchUrlScheme(id);
    AfterSchemeParts(id);
    HostHasNoStops("www.youtube.com");
    NetlocOf(WatchUrl(id), "www.youtube.com", "/watch?v=" + id);
  }

  /** `urlparse` accepts a watch URL: its scheme is `https` and its network
      location `www.youtube.com`. */
  lemma WatchUrlSplits(id: string)
    ensures !UrlSplitRaises(WatchUrl(id))
  {
    WatchUrlNetloc(id);
    HostHasNoBrackets("www.youtube.com");
  }

  lemma HostHasNoBrackets(host: string)
    requires host == "www.youtube.com"
    ensures '[' !in host && ']' !in host
  {
  }

  /** The query is what follows the first `?` when no `#` comes before it. */
  lemma QueryOf(front: string, q: string)
    requires '?' !in front && '#' !in front && '#' !in q
    ensures Query(front + "?" + q) == q
  {
    var u := front + "?" + q;
    assert '#' !in u;
    BeforeCharAbsent(u, '#');
    assert (front + "?")[..|front|] == front;
    BeforeCharInFront(front + "?", q, '?', |front|);
    assert u[|front| + 1..] == q;
  }

  lemma WatchPageHasNoStops(front: string)
    requires front == "https://www.youtube.com/watch"
    ensures '?' !in front && '#' !in front
  {
  }

  lemma WatchUrlQueryString(id: string)
    requires '#' !in id
    ensures Query(WatchUrl(id)) == "v=" + id
  {
    WatchPageHasNoStops("https://www.youtube.com/watch");
    assert WatchUrl(id) == "https://www.youtube.com/watch" + "?" + ("v=" + id);
    QueryOf("https://www.youtube.com/watch", "v=" + id);
  }

  /** The `v` value read back from `WatchUrl(id)` is `id` (none when blank). */
  lemma WatchUrlQuery(id: string)
    requires IsPlainId(id)
    ensures QueryParam(WatchUrl(id), "v") == if id == "" then None else Some(id)
  {
    WatchUrlQueryString(id);
    var q := "v=" + id;
    BeforeCharAbsent(q, '&');
    assert SplitOn(q, '&') == [q];
    BeforeCharInFront("v=", id, '=', 1);
    assert AfterChar(q, '=') == Some(id);
  }

  /** Canonical watch URLs are fixed points: the `v` value read back from
      `WatchUrl(id)` is `id`, so the URL is rebuilt unchanged (and an empty
      id leaves it unchanged by the pass-through rule). */
  lemma WatchUrlIsFixedPoint(id: string)
    requires IsPlainId(id)
    ensures ExtractWatchUrl(WatchUrl(id)) == WatchUrl(id)
  {
    var s := WatchUrl(id);
    NoEmbedMarkerInWatchUrl(id);
    assert s[12..29] == WatchPrefix[12..29] == WatchMarker;
    ContainsAt(s, WatchMarker, 12);
    WatchUrlSplits(id);
    WatchUrlQuery(id);
  }

  /** Canonicalising twice is canonicalising once, for every embed URL whose
      id is plain. */
  lemma EmbedCanonicalIdempotent(u: string)
    requires Contains(u, EmbedMarker) && IsPlainId(EmbedId(u))
    ensures ExtractWatchUrl(ExtractWatchUrl(u)) == ExtractWatchUrl(u)
  {
    WatchUrlIsFixedPoint(EmbedId(u));
  }
}
