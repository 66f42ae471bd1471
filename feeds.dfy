/** Feed entries as `feedparser` delivers them: every field may be missing. */
module Feeds {
  import opened Outcomes

  datatype Entry = Entry(
    id: Option<string>,
    title: Option<string>,
    summary: Option<string>,
    link: Option<string>,
    guid: Option<string>,
    /** `media_thumbnail`: a list of dictionaries, each with or without a `url` key. */
    mediaThumbnail: Option<seq<Option<string>>>)

  /** The result of `feedparser.parse(url)`: its entries, newest first, or
      an exception. */
  datatype Feed = Parsed(entries: seq<Entry>) | Unreadable

  /** `entry.get('id', entry.get('link'))`: the provider id, else the link,
      else None (which the ledger stores and matches like any other key). */
  function EntryId(e: Entry): (r: Option<string>)
    ensures e.id.Some? ==> r == e.id
    ensures e.id.None? ==> r == e.link
    ensures r.None? <==> e.id.None? && e.link.None?
    ensures r == e.id || r == e.link
  {
    if e.id.Some? then e.id else e.link
  }

  /** `feed.entries[0]` when the feed has entries: the only entry a poll looks at. */
  function Latest(f: Feed): (r: Option<Entry>)
    ensures r.Some? <==> f.Parsed? && |f.entries| > 0
    ensures r.Some? ==> r.value == f.entries[0]
    ensures r.Some? ==> r.value in f.entries
  {
    if f.Parsed? && |f.entries| > 0 then Some(f.entries[0]) else None
  }

  /** Only the newest entry matters: feeds that agree on it poll alike,
      whatever older entries follow. */
  lemma LatestIgnoresOlder(e: Entry, older1: seq<Entry>, older2: seq<Entry>)
    ensures Latest(Parsed([e] + older1)) == Latest(Parsed([e] + older2)) == Some(e)
  {
  }

  /** The link of an entry, `''` when missing. */
  function LinkOf(e: Entry): string {
    e.link.GetOr("")
  }

  /** `entry.get('guid', link)`: the page the Anime News Network lookup fetches. */
  function GuidOrLink(e: Entry): string {
    e.guid.GetOr(LinkOf(e))
  }
}
