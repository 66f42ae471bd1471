/** The search for an embedded YouTube player on an article page, shared by
    `process_video_content` (modules/rss/rss.py), the inline video step of
    module/rss/rss.py and `/sendnews` (bot.py). */
module VideoDiscovery {
  import opened Outcomes
  import opened Strings
  import opened Html

  /** The content containers tried in order before the whole document. */
  const MainSelectors: seq<string> := [".news-body", ".entry-content", "article", "main", "#content", ".content"]

  /** The attribute filter of the iframe search: a non-empty `src` holding
      `youtube.com` or `youtube-nocookie.com`. */
  predicate IsVideoSrc(src: Option<string>) {
    src.Some? && src.value != "" && (Contains(src.value, "youtube.com") || Contains(src.value, "youtube-nocookie.com"))
  }

  /** `find("iframe", src=...)["src"]`: the `src` of the first matching iframe. */
  function FirstVideo(frames: seq<Iframe>): (r: Option<string>)
    ensures r.None? <==> forall k :: 0 <= k < |frames| ==> !IsVideoSrc(frames[k].src)
    ensures r.Some? ==> exists k :: 0 <= k < |frames| && frames[k].src == r && IsVideoSrc(r)
                         && forall j :: 0 <= j < k ==> !IsVideoSrc(frames[j].src)
  {
    if frames == [] then None
    else if IsVideoSrc(frames[0].src) then frames[0].src
    else
      var r := FirstVideo(frames[1..]);
      assert forall k :: 1 <= k < |frames| ==> frames[k] == frames[1..][k - 1];
      r
  }

  /** The match inside the first element a selector picks, if any. */
  function BlockVideo(page: Page, selector: string): Option<string> {
    match page.selectOne(selector)
    case None => None
    case Some(block) => FirstVideo(block)
  }

  /** The match of the first selector whose container holds one. */
  function FirstBlockVideo(page: Page, selectors: seq<string>): Option<string> {
    if selectors == [] then None
    else if BlockVideo(page, selectors[0]).Some? then BlockVideo(page, selectors[0])
    else FirstBlockVideo(page, selectors[1..])
  }

  /** The `src` of the iframe the bot picks: from the containers first, the
      whole document only when no container holds a match. */
  function VideoSrc(page: Page): Option<string> {
    if FirstBlockVideo(page, MainSelectors).Some? then FirstBlockVideo(page, MainSelectors)
    else FirstVideo(page.iframes)
  }

  /** The selector loop and document fallback, as the source runs them. */
  method FindVideoIframe(page: Page) returns (src: Option<string>)
    ensures src == VideoSrc(page)
  {
    src := None;
    var i := 0;
    while i < |MainSelectors|
      invariant 0 <= i <= |MainSelectors|
      invariant src.None?
      invariant FirstBlockVideo(page, MainSelectors) == FirstBlockVideo(page, MainSelectors[i..])
    {
      var block := page.selectOne(MainSelectors[i]);
      if block.Some? {
        src := FirstVideo(block.value);
        if src.Some? {
          assert src == FirstBlockVideo(page, MainSelectors[i..]);
          break;
        }
      }
      assert MainSelectors[i..][1..] == MainSelectors[i + 1..];
      i := i + 1;
    }
    if src.None? {
      src := FirstVideo(page.iframes);
    }
  }

  /** The first selector with a match decides, whatever later containers
      and the rest of the document hold. */
  lemma {:induction false} FirstBlockVideoAt(page: Page, selectors: seq<string>, j: nat)
    requires j < |selectors| && BlockVideo(page, selectors[j]).Some?
    requires forall i :: 0 <= i < j ==> BlockVideo(page, selectors[i]).None?
    ensures FirstBlockVideo(page, selectors) == BlockVideo(page, selectors[j])
  {
    if j > 0 {
      FirstBlockVideoAt(page, selectors[1..], j - 1);
    }
  }

  /** No container match exactly when every selector finds nothing. */
  lemma {:induction false} FirstBlockVideoNone(page: Page, selectors: seq<string>)
    ensures FirstBlockVideo(page, selectors).None? <==> forall i :: 0 <= i < |selectors| ==> BlockVideo(page, selectors[i]).None?
  {
    if selectors != [] {
      FirstBlockVideoNone(page, selectors[1..]);
      assert forall i :: 1 <= i < |selectors| ==> selectors[i] == selectors[1..][i - 1];
    }
  }

  /** Selection order: the chosen `src` is the first match of the first
      container (in `MainSelectors` order) holding one. */
  lemma VideoSrcPrefersContainers(page: Page, j: nat)
    requires j < |MainSelectors| && BlockVideo(page, MainSelectors[j]).Some?
    requires forall i :: 0 <= i < j ==> BlockVideo(page, MainSelectors[i]).None?
    ensures VideoSrc(page) == BlockVideo(page, MainSelectors[j])
  {
    FirstBlockVideoAt(page, MainSelectors, j);
  }

  /** The whole document is searched only when no container has a match. */
  lemma VideoSrcFallsBack(page: Page)
    ensures (forall i :: 0 <= i < |MainSelectors| ==> BlockVideo(page, MainSelectors[i]).None?)
            ==> VideoSrc(page) == FirstVideo(page.iframes)
    ensures (exists i :: 0 <= i < |MainSelectors| && BlockVideo(page, MainSelectors[i]).Some?)
            ==> VideoSrc(page) == FirstBlockVideo(page, MainSelectors) && VideoSrc(page).Some?
  {
    FirstBlockVideoNone(page, MainSelectors);
  }

  /** Whatever is chosen passes the filter, and nothing is chosen only when
      no container and no iframe of the document passes it. */
  lemma VideoSrcMatches(page: Page)
    ensures VideoSrc(page).Some? ==> IsVideoSrc(VideoSrc(page))
    ensures VideoSrc(page).None? <==>
      (forall i :: 0 <= i < |MainSelectors| ==> BlockVideo(page, MainSelectors[i]).None?)
      && forall k :: 0 <= k < |page.iframes| ==> !IsVideoSrc(page.iframes[k].src)
  {
    FirstBlockVideoNone(page, MainSelectors);
    FirstBlockVideoMatches(page, MainSelectors);
  }

  lemma {:induction false} FirstBlockVideoMatches(page: Page, selectors: seq<string>)
    ensures FirstBlockVideo(page, selectors).Some? ==> IsVideoSrc(FirstBlockVideo(page, selectors))
  {
    if selectors != [] && BlockVideo(page, selectors[0]).None? {
      FirstBlockVideoMatches(page, selectors[1..]);
    }
  }
}
