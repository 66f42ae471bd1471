/** `format_rss_entry`: the caption of a news post and the picture that goes
    with it, in the current version (modules/rss/rss.py) and the older one
    (module/rss/rss.py). */
module Format {
  import opened Outcomes
  import opened Strings
  import opened Html
  import opened Feeds
  import opened Thumbnails

  const MaxSummary := 300
  const AnnHost := "animenewsnetwork.com"

  /** What `format_rss_entry` returns: `(msg, thumbnail_url, link)`. */
  datatype Formatted = Formatted(msg: string, thumbnail: Option<string>, link: string)

  /** The triple returned when formatting raised. */
  const FormatError := Formatted("Error formatting news", None, "")

  function EntryTitle(e: Entry): string {
    e.title.GetOr("No Title")
  }

  /** The caption of the follow-up video post. */
  function VideoCaption(e: Entry): string {
    if e.title.Some? then "<b><blockquote>" + e.title.value + "</blockquote></b>" else "Premiered Video"
  }

  /** A summary longer than 300 characters is cut to 300 and gets `...`. */
  function Truncate(s: string): (r: string)
    ensures |r| <= MaxSummary + 3
    ensures |s| <= MaxSummary ==> r == s
    ensures |s| > MaxSummary ==> |r| == MaxSummary + 3 && r[..MaxSummary] == s[..MaxSummary] && r[MaxSummary..] == "..."
  {
    if |s| > MaxSummary then s[..MaxSummary] + "..." else s
  }

  /** Truncating an already truncated summary changes nothing. */
  lemma TruncateIdempotent(s: string)
    ensures Truncate(Truncate(s)) == Truncate(s)
  {
    if |s| > MaxSummary {
      var r := Truncate(s);
      assert r[..MaxSummary] + "..." == r;
    }
  }

  /** The summary after cleaning: a non-empty raw summary has its markup
      removed by `getText` (BeautifulSoup's `get_text`, not modelled), is
      stripped and truncated; an empty one stays empty. */
  function CleanSummary(raw: string, getText: string -> string): (r: string)
    ensures raw == "" ==> r == ""
    ensures |r| <= MaxSummary + 3
    ensures r != "" ==> !IsSpace(r[0])
  {
    if raw == "" then "" else Truncate(Strip(getText(raw)))
  }

  function TitleBlock(title: string): string {
    "<b><blockquote>" + title + "</blockquote></b>\n"
  }

  const SummaryOpen := "<b><blockquote expandable><i>"
  const SummaryClose := "</i></blockquote></b>\n"

  function LinkBlock(link: string): string {
    "<b><blockquote><a href='" + link + "'>Read Full News</a></blockquote></b>"
  }

  /** The caption: title block, the summary block only for a non-empty
      summary, and the link block. */
  function Message(title: string, summary: string, link: string): (r: string)
    ensures TitleBlock(title) <= r
    ensures |TitleBlock(title)| + |LinkBlock(link)| <= |r| && r[|r| - |LinkBlock(link)|..] == LinkBlock(link)
    ensures summary == "" <==> |r| == |TitleBlock(title)| + |LinkBlock(link)|
  {
    var middle := if summary != "" then SummaryOpen + summary + SummaryClose else "";
    var r := TitleBlock(title) + middle + LinkBlock(link);
    assert r[..|TitleBlock(title)|] == TitleBlock(title);
    assert r[|r| - |LinkBlock(link)|..] == LinkBlock(link);
    r
  }

  /** Reads the summary back out of a caption built for `title` and `link`. */
  function RecoverSummary(msg: string, title: string, link: string): string {
    var head := |TitleBlock(title)|;
    var tail := |LinkBlock(link)|;
    if head + tail + |SummaryOpen| + |SummaryClose| <= |msg|
    then msg[head + |SummaryOpen|..|msg| - tail - |SummaryClose|]
    else ""
  }

  /** The summary shown is exactly the summary given: the caption keeps it
      whole and can be read back. */
  lemma RecoverSummaryOfMessage(title: string, summary: string, link: string)
    ensures RecoverSummary(Message(title, summary, link), title, link) == summary
  {
    var msg := Message(title, summary, link);
    if summary != "" {
      assert msg == TitleBlock(title) + SummaryOpen + summary + SummaryClose + LinkBlock(link);
      var lo := |TitleBlock(title)| + |SummaryOpen|;
      assert msg[lo..lo + |summary|] == summary;
    }
  }

  /** The thumbnail carried by the feed itself (`media_thumbnail[0]['url']`
      when the list is present and non-empty); a first item without `url`
      raises KeyError. */
  function FeedThumbnail(e: Entry): (r: Result<Option<string>>)
    ensures r.Raised? <==> e.mediaThumbnail.Some? && |e.mediaThumbnail.value| > 0 && e.mediaThumbnail.value[0].None?
    ensures r.Raised? ==> r.error == KeyError
    ensures r.Returned? && r.value.Some? ==> e.mediaThumbnail.Some? && |e.mediaThumbnail.value| > 0 && r.value == e.mediaThumbnail.value[0]
  {
    match e.mediaThumbnail
    case None => Returned(None)
    case Some(items) =>
      if |items| == 0 then Returned(None)
      else if items[0].None? then Raised(KeyError)
      else Returned(items[0])
  }

  /** The thumbnail of a post: the feed's own, and only when that is missing
      or empty for an Anime News Network link, the picture found on the page
      at the entry's `guid` (else its link). */
  function Thumbnail(e: Entry, fetch: string -> Option<Page>): (r: Result<Option<string>>)
    ensures r.Raised? <==> FeedThumbnail(e).Raised?
    ensures r.Returned? ==> r.value == FeedThumbnail(e).value || r.value == AnnImage(fetch(GuidOrLink(e)))
  {
    match FeedThumbnail(e)
    case Raised(err) => Raised(err)
    case Returned(own) =>
      if Contains(LinkOf(e), AnnHost) && !Truthy(own) then Returned(AnnImage(fetch(GuidOrLink(e))))
      else Returned(own)
  }

  /** Thumbnail priority: a non-empty feed thumbnail always wins, and the
      article page is not consulted unless the link is an Anime News Network
      link lacking one; the result then does not depend on the fetch. */
  lemma ThumbnailPriority(e: Entry, fetch1: string -> Option<Page>, fetch2: string -> Option<Page>)
    ensures FeedThumbnail(e).Returned? && Truthy(FeedThumbnail(e).value) ==> Thumbnail(e, fetch1) == FeedThumbnail(e)
    ensures !Contains(LinkOf(e), AnnHost) || (FeedThumbnail(e).Returned? && Truthy(FeedThumbnail(e).value))
            ==> Thumbnail(e, fetch1) == Thumbnail(e, fetch2)
    ensures Thumbnail(e, fetch1) != Thumbnail(e, fetch2) ==>
            Contains(LinkOf(e), AnnHost) && Thumbnail(e, fetch1) == Returned(AnnImage(fetch1(GuidOrLink(e))))
    ensures Contains(LinkOf(e), AnnHost) && FeedThumbnail(e).Returned? && !Truthy(FeedThumbnail(e).value)
            ==> Thumbnail(e, fetch1) == Returned(AnnImage(fetch1(GuidOrLink(e))))
  {
  }

  /** `format_rss_entry` of modules/rss/rss.py: a KeyError while reading the
      thumbnail is caught and yields `FormatError`; otherwise the caption
      of the title (default `No Title`), the cleaned summary and the link. */
  function FormatEntry(e: Entry, fetch: string -> Option<Page>, getText: string -> string): (r: Formatted)
    ensures r == FormatError <==> FeedThumbnail(e).Raised?
    ensures r != FormatError ==>
      && r.link == LinkOf(e)
      && Thumbnail(e, fetch) == Returned(r.thumbnail)
      && r.msg == Message(EntryTitle(e), CleanSummary(e.summary.GetOr(""), getText), LinkOf(e))
  {
    match Thumbnail(e, fetch)
    case Raised(_) => FormatError
    case Returned(thumb) =>
      var r := Formatted(Message(EntryTitle(e), CleanSummary(e.summary.GetOr(""), getText), LinkOf(e)), thumb, LinkOf(e));
      assert r.msg[0] == '<';
      r
  }

  /** A summary that is empty after cleaning (markup or blanks only) leaves
      the summary block out; any other summary appears, cleaned and
      truncated, in the caption. */
  lemma SummaryBlockShown(e: Entry, fetch: string -> Option<Page>, getText: string -> string)
    requires FeedThumbnail(e).Returned?
    ensures var r := FormatEntry(e, fetch, getText);
            RecoverSummary(r.msg, EntryTitle(e), LinkOf(e)) == CleanSummary(e.summary.GetOr(""), getText)
  {
    assert FormatEntry(e, fetch, getText) != FormatError by {
      assert FormatEntry(e, fetch, getText).msg[0] == '<';
    }
    RecoverSummaryOfMessage(EntryTitle(e), CleanSummary(e.summary.GetOr(""), getText), LinkOf(e));
  }

  // The older module/rss/rss.py.

  const LegacySummaryOpen := "<b><blockquote expandable><i>"
  const LegacySummaryClose := "</i></blockquote expandable>\n"

  function LegacyLinkBlock(link: string): string {
    "<b><blockquote><a href='" + link + "'>Read Full News</a></b></blockquote>"
  }

  /** The older caption: the summary block is always present and holds the
      raw summary. */
  function LegacyMessage(title: string, summary: string, link: string): (r: string)
    ensures TitleBlock(title) + LegacySummaryOpen <= r
    ensures |r| == |TitleBlock(title)| + |LegacySummaryOpen| + |summary| + |LegacySummaryClose| + |LegacyLinkBlock(link)|
  {
    var r := TitleBlock(title) + LegacySummaryOpen + summary + LegacySummaryClose + LegacyLinkBlock(link);
    assert r[..|TitleBlock(title) + LegacySummaryOpen|] == TitleBlock(title) + LegacySummaryOpen;
    r
  }

  /** The summary read back from an older caption. */
  function RecoverLegacySummary(msg: string, title: string, link: string): string {
    var lo := |TitleBlock(title)| + |LegacySummaryOpen|;
    var hi := |msg| - |LegacySummaryClose| - |LegacyLinkBlock(link)|;
    if lo <= hi then msg[lo..hi] else ""
  }

  /** The older caption carries the summary verbatim: no markup removal,
      no stripping, no truncation. */
  lemma RecoverLegacySummaryOfMessage(title: string, summary: string, link: string)
    ensures RecoverLegacySummary(LegacyMessage(title, summary, link), title, link) == summary
  {
    var msg := LegacyMessage(title, summary, link);
    var lo := |TitleBlock(title)| + |LegacySummaryOpen|;
    assert msg == TitleBlock(title) + LegacySummaryOpen + summary + LegacySummaryClose + LegacyLinkBlock(link);
    assert msg[lo..lo + |summary|] == summary;
  }

  /** `media_thumbnail[0]['url']` whenever the key is present: an empty list
      raises IndexError, a first item without `url` raises KeyError. */
  function LegacyFeedThumbnail(e: Entry): (r: Result<Option<string>>)
    ensures r.Raised? <==> e.mediaThumbnail.Some? && (|e.mediaThumbnail.value| == 0 || e.mediaThumbnail.value[0].None?)
  {
    match e.mediaThumbnail
    case None => Returned(None)
    case Some(items) =>
      if |items| == 0 then Raised(IndexError)
      else if items[0].None? then Raised(KeyError)
      else Returned(items[0])
  }

  /** The two versions read the feed thumbnail alike, except that the older
      one raises on an empty list where the current one finds none. */
  lemma LegacyFeedThumbnailAgrees(e: Entry)
    ensures LegacyFeedThumbnail(e).Raised? <==> FeedThumbnail(e).Raised? || e.mediaThumbnail == Some([])
    ensures LegacyFeedThumbnail(e).Returned? ==> LegacyFeedThumbnail(e) == FeedThumbnail(e)
    ensures e.mediaThumbnail == Some([]) ==> LegacyFeedThumbnail(e) == Raised(IndexError) && FeedThumbnail(e) == Returned(None)
  {
  }

  /** `format_rss_entry` of module/rss/rss.py: no exception handler, so the
      thumbnail errors propagate to the caller. */
  function LegacyFormatEntry(e: Entry, fetch: string -> Option<Page>): (r: Result<Formatted>)
    ensures r.Raised? <==> LegacyFeedThumbnail(e).Raised?
    ensures r.Returned? ==>
      && r.value.link == LinkOf(e)
      && r.value.msg == LegacyMessage(EntryTitle(e), e.summary.GetOr(""), LinkOf(e))
      && (r.value.thumbnail == LegacyFeedThumbnail(e).value || r.value.thumbnail == AnnImage(fetch(GuidOrLink(e))))
  {
    match LegacyFeedThumbnail(e)
    case Raised(err) => Raised(err)
    case Returned(own) =>
      var thumb := if Contains(LinkOf(e), AnnHost) && !Truthy(own) then AnnImage(fetch(GuidOrLink(e))) else own;
      Returned(Formatted(LegacyMessage(EntryTitle(e), e.summary.GetOr(""), LinkOf(e)), thumb, LinkOf(e)))
  }

  /** The older version's thumbnail priority: a non-empty feed thumbnail
      wins; failing that, an Anime News Network link gets the picture from
      its page; any other link keeps what the feed had. */
  lemma LegacyThumbnailPriority(e: Entry, fetch: string -> Option<Page>)
    requires LegacyFormatEntry(e, fetch).Returned?
    ensures var r := LegacyFormatEntry(e, fetch).value;
            && (Truthy(LegacyFeedThumbnail(e).value) ==> r.thumbnail == LegacyFeedThumbnail(e).value)
            && (!Contains(LinkOf(e), AnnHost) ==> r.thumbnail == LegacyFeedThumbnail(e).value)
            && (Contains(LinkOf(e), AnnHost) && !Truthy(LegacyFeedThumbnail(e).value) ==> r.thumbnail == AnnImage(fetch(GuidOrLink(e))))
  {
  }
}
