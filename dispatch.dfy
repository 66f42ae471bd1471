/** The polling pipeline of modules/rss/rss.py: `fetch_and_send_news`,
    `process_video_content`, `download_and_send_video` and `news_feed_loop`.
    Each step is a function on `Snapshot`; each method runs the step on a
    `Runtime` and is proved to end in the state that function gives. */
module Dispatch {
  import opened Outcomes
  import opened Strings
  import opened Html
  import opened Feeds
  import opened Channels
  import opened YouTube
  import opened VideoDiscovery
  import opened Thumbnails
  import opened Format
  import opened World

  /** Seconds `news_feed_loop` sleeps after a cycle. */
  const PollDelay := 300

  /** The `outtmpl` of `download_and_send_video`. */
  const VideoTemplate := "/tmp/ytvideo_%(id)s.%(ext)s"

  /** The post for a formatted entry: a photo with the caption when there
      is a thumbnail, else a text message without link preview. */
  function PrimaryCall(chat: Value, f: Formatted): (c: Call)
    ensures Truthy(f.thumbnail) ==> c == SendPhoto(chat, f.thumbnail.value, f.msg)
    ensures !Truthy(f.thumbnail) ==> c == SendMessage(chat, f.msg, true)
    ensures c.chat == chat && !c.SendVideo?
    ensures c.SendPhoto? <==> Truthy(f.thumbnail)
    ensures c.SendPhoto? ==> c.caption == f.msg && c.photo != "" && Some(c.photo) == f.thumbnail
    ensures c.SendMessage? ==> c.text == f.msg && c.noPreview
  {
    if Truthy(f.thumbnail) then SendPhoto(chat, f.thumbnail.value, f.msg) else SendMessage(chat, f.msg, true)
  }

  /** `download_and_send_video`: the video is posted only if the reported
      file exists, and an existing file is removed whatever happened. */
  function DownloadStep(s: Snapshot, env: Env, chat: Value, e: Entry, url: string): (r: Snapshot)
    ensures r.ledger == s.ledger && r.settings == s.settings
    ensures r.files <= s.files
    ensures env.download(url, VideoTemplate).Downloaded? && env.download(url, VideoTemplate).path != ""
            ==> env.download(url, VideoTemplate).path !in r.files
    ensures r.calls == s.calls || (env.download(url, VideoTemplate).Downloaded? &&
      r.calls == s.calls + [SendVideo(chat, env.download(url, VideoTemplate).path, VideoCaption(e))])
  {
    match env.download(url, VideoTemplate)
    case DownloadFailed => s
    case Downloaded(path, onDisk) =>
      var landed := if onDisk && path != "" then s.files + {path} else s.files;
      if path != "" && path in landed then
        s.(calls := s.calls + [SendVideo(chat, path, VideoCaption(e))], files := landed - {path})
      else s.(files := landed)
  }

  /** `process_video_content`: find the player on the article page, turn its
      `src` into a watch URL and hand it to the download step. */
  function VideoStep(s: Snapshot, env: Env, chat: Value, e: Entry, link: string): (r: Snapshot)
    ensures r.ledger == s.ledger && r.settings == s.settings && r.files <= s.files
    ensures s.calls <= r.calls && |r.calls| <= |s.calls| + 1
    ensures |r.calls| > |s.calls| ==> r.calls[|s.calls|].SendVideo?
  {
    match env.fetch(link)
    case None => s
    case Some(page) =>
      match VideoSrc(page)
      case None => s
      case Some(src) => DownloadStep(s, env, chat, e, ExtractWatchUrl(FixRelative(src)))
  }

  /** The video is posted exactly when the downloader reported a non-empty
      path and a file is there (just downloaded, or left from before); that
      file is then gone; a failed download changes nothing. */
  lemma DownloadPostsOnlyExisting(s: Snapshot, env: Env, chat: Value, e: Entry, url: string)
    ensures env.download(url, VideoTemplate).DownloadFailed? ==> DownloadStep(s, env, chat, e, url) == s
    ensures var d := env.download(url, VideoTemplate);
            var r := DownloadStep(s, env, chat, e, url);
            |r.calls| > |s.calls| <==> d.Downloaded? && d.path != "" && (d.onDisk || d.path in s.files)
    ensures var d := env.download(url, VideoTemplate);
            d.Downloaded? && d.path != "" ==> DownloadStep(s, env, chat, e, url).files == s.files - {d.path}
  {
  }

  /** No page, or a page without a video player, means no video step at all. */
  lemma NoPlayerNoVideo(s: Snapshot, env: Env, chat: Value, e: Entry, link: string)
    requires env.fetch(link).None? || VideoSrc(env.fetch(link).value).None?
    ensures VideoStep(s, env, chat, e, link) == s
  {
  }

  /** One source of `fetch_and_send_news`: only the newest entry counts; it
      is posted when its id is not in the ledger, and recorded only when the
      post went through; the video step follows the record. */
  function SourceStep(s: Snapshot, env: Env, chat: Value, url: string): (r: Snapshot)
    ensures r.settings == s.settings && r.files <= s.files
    ensures s.ledger <= r.ledger && |r.ledger| <= |s.ledger| + 1
    ensures s.calls <= r.calls
  {
    match Latest(env.feed(url))
    case None => s
    case Some(e) =>
      var id := EntryId(e);
      if id in SentIds(s.ledger) then s
      else
        var f := FormatEntry(e, env.fetch, env.getText);
        var call := PrimaryCall(chat, f);
        var sent := s.(calls := s.calls + [call]);
        if !env.accepts(call) then sent
        else VideoStep(sent.(ledger := s.ledger + [Record(id, e.title.GetOr(""), f.link)]), env, chat, e, f.link)
  }

  /** The sources in order, each one's failures contained in its own step. */
  function Sources(s: Snapshot, env: Env, chat: Value, urls: seq<string>): (r: Snapshot)
    ensures r.settings == s.settings && r.files <= s.files
    ensures s.ledger <= r.ledger && s.calls <= r.calls
  {
    if urls == [] then s
    else SourceStep(Sources(s, env, chat, urls[..|urls| - 1]), env, chat, urls[|urls| - 1])
  }

  /** One call of `fetch_and_send_news`. */
  function Cycle(s: Snapshot, env: Env, urls: seq<string>): (r: Snapshot)
    ensures r.settings == s.settings && r.files <= s.files
    ensures s.ledger <= r.ledger && s.calls <= r.calls
  {
    match ConfiguredChannel(s.settings)
    case None => s
    case Some(v) => Sources(s, env, ResolveChannel(v), urls)
  }

  /** Consecutive cycles of `news_feed_loop`, one environment per cycle. */
  function Cycles(s: Snapshot, envs: seq<Env>, urls: seq<string>): (r: Snapshot)
    ensures r.settings == s.settings && r.files <= s.files
    ensures s.ledger <= r.ledger && s.calls <= r.calls
  {
    if envs == [] then s
    else Cycle(Cycles(s, envs[..|envs| - 1], urls), envs[|envs| - 1], urls)
  }

  method DownloadAndSendVideo(rt: Runtime, env: Env, chat: Value, e: Entry, url: string)
    modifies rt
    ensures rt.State() == DownloadStep(old(rt.State()), env, chat, e, url)
  {
    var outcome := env.download(url, VideoTemplate);
    if outcome.Downloaded? {
      var path := outcome.path;
      if outcome.onDisk && path != "" {
        rt.Land(path);
      }
      if path != "" && path in rt.files {
        var _ := rt.Send(env, SendVideo(chat, path, VideoCaption(e)));
        // the `finally` clause: the file still exists, so it is removed
        rt.Remove(path);
      }
    }
  }

  method ProcessVideoContent(rt: Runtime, env: Env, chat: Value, e: Entry, link: string)
    modifies rt
    ensures rt.State() == VideoStep(old(rt.State()), env, chat, e, link)
  {
    var page := env.fetch(link);
    if page.Some? {
      var src := FindVideoIframe(page.value);
      if src.Some? {
        var url := ExtractWatchUrl(FixRelative(src.value));
        DownloadAndSendVideo(rt, env, chat, e, url);
      }
    }
  }

  /** The body of the loop over sources, for one source. */
  method ProcessSource(rt: Runtime, env: Env, chat: Value, url: string)
    modifies rt
    ensures rt.State() == SourceStep(old(rt.State()), env, chat, url)
  {
    var latest := Latest(env.feed(url));
    if latest.Some? {
      var e := latest.value;
      var id := EntryId(e);
      if id !in SentIds(rt.ledger) {
        var f := FormatEntry(e, env.fetch, env.getText);
        var ok := rt.Send(env, PrimaryCall(chat, f));
        if ok {
          rt.Insert(Record(id, e.title.GetOr(""), f.link));
          ProcessVideoContent(rt, env, chat, e, f.link);
        }
      }
    }
  }

  method FetchAndSendNews(rt: Runtime, env: Env, urls: seq<string>)
    modifies rt
    ensures rt.State() == Cycle(old(rt.State()), env, urls)
  {
    var configured := ConfiguredChannel(rt.settings);
    if configured.None? {
      return;
    }
    var chat := ResolveChannel(configured.value);
    var i := 0;
    while i < |urls|
      invariant 0 <= i <= |urls|
      invariant rt.State() == Sources(old(rt.State()), env, chat, urls[..i])
    {
      SourcesSnoc(old(rt.State()), env, chat, urls, i);
      ProcessSource(rt, env, chat, urls[i]);
      i := i + 1;
    }
    assert urls[..i] == urls;
  }

  lemma SourcesSnoc(s: Snapshot, env: Env, chat: Value, urls: seq<string>, i: nat)
    requires i < |urls|
    ensures Sources(s, env, chat, urls[..i + 1]) == SourceStep(Sources(s, env, chat, urls[..i]), env, chat, urls[i])
  {
    assert urls[..i + 1][..i] == urls[..i];
  }

  /** `news_feed_loop` over as many cycles as there are environments; it
      returns the delay slept after each cycle. */
  method NewsFeedLoop(rt: Runtime, envs: seq<Env>, urls: seq<string>) returns (delays: seq<int>)
    modifies rt
    ensures rt.State() == Cycles(old(rt.State()), envs, urls)
    ensures |delays| == |envs| && forall k :: 0 <= k < |delays| ==> delays[k] == PollDelay
  {
    delays := [];
    var i := 0;
    while i < |envs|
      invariant 0 <= i <= |envs|
      invariant rt.State() == Cycles(old(rt.State()), envs[..i], urls)
      invariant |delays| == i && forall k :: 0 <= k < i ==> delays[k] == PollDelay
    {
      assert envs[..i + 1][..i] == envs[..i];
      FetchAndSendNews(rt, envs[i], urls);
      delays := delays + [PollDelay];
      i := i + 1;
    }
    assert envs[..i] == envs;
  }

  /** With no channel configured, no cycle fetches, posts or records anything. */
  lemma {:induction false} NoChannelNothingHappens(s: Snapshot, envs: seq<Env>, urls: seq<string>)
    requires ConfiguredChannel(s.settings).None?
    ensures Cycles(s, envs, urls) == s
  {
    if envs != [] {
      NoChannelNothingHappens(s, envs[..|envs| - 1], urls);
    }
  }

  /** An empty or unreadable feed, or a newest entry already in the ledger,
      leaves the state as it was: nothing is posted. */
  lemma KnownEntrySkipped(s: Snapshot, env: Env, chat: Value, url: string)
    requires Latest(env.feed(url)).None? || EntryId(Latest(env.feed(url)).value) in SentIds(s.ledger)
    ensures SourceStep(s, env, chat, url) == s
  {
  }

  /** A record is written only for the newest entry of the feed, only when
      its id was absent, and only after its post was issued and accepted. */
  lemma RecordOnlyAfterAcceptedPost(s: Snapshot, env: Env, chat: Value, url: string)
    requires |SourceStep(s, env, chat, url).ledger| > |s.ledger|
    ensures Latest(env.feed(url)).Some?
    ensures var e := Latest(env.feed(url)).value;
            var f := FormatEntry(e, env.fetch, env.getText);
            var r := SourceStep(s, env, chat, url);
            && EntryId(e) !in SentIds(s.ledger)
            && r.ledger == s.ledger + [Record(EntryId(e), e.title.GetOr(""), f.link)]
            && |s.calls| < |r.calls| && r.calls[|s.calls|] == PrimaryCall(chat, f)
            && env.accepts(PrimaryCall(chat, f))
  {
  }

  /** An accepted post is recorded, and the video step after it never takes
      the record back. */
  lemma AcceptedPostIsRecorded(s: Snapshot, env: Env, chat: Value, url: string)
    requires Latest(env.feed(url)).Some?
    requires EntryId(Latest(env.feed(url)).value) !in SentIds(s.ledger)
    requires env.accepts(PrimaryCall(chat, FormatEntry(Latest(env.feed(url)).value, env.fetch, env.getText)))
    ensures var e := Latest(env.feed(url)).value;
            var f := FormatEntry(e, env.fetch, env.getText);
            SourceStep(s, env, chat, url).ledger == s.ledger + [Record(EntryId(e), e.title.GetOr(""), f.link)]
  {
  }

  /** When the chat service rejects every call, no cycle records anything. */
  lemma {:induction false} RejectedPostsRecordNothing(s: Snapshot, env: Env, chat: Value, urls: seq<string>)
    requires forall c :: !env.accepts(c)
    ensures Sources(s, env, chat, urls).ledger == s.ledger
  {
    if urls != [] {
      RejectedPostsRecordNothing(s, env, chat, urls[..|urls| - 1]);
    }
  }

  /** Every step keeps entry ids unique in the ledger. */
  lemma SourceStepKeepsIdsUnique(s: Snapshot, env: Env, chat: Value, url: string)
    requires NoDuplicateIds(s.ledger)
    ensures NoDuplicateIds(SourceStep(s, env, chat, url).ledger)
  {
    var r := SourceStep(s, env, chat, url);
    if |r.ledger| > |s.ledger| {
      RecordOnlyAfterAcceptedPost(s, env, chat, url);
      AppendFreshId(s.ledger, r.ledger[|s.ledger|]);
    } else {
      assert r.ledger == s.ledger;
    }
  }

  lemma {:induction false} SourcesKeepIdsUnique(s: Snapshot, env: Env, chat: Value, urls: seq<string>)
    requires NoDuplicateIds(s.ledger)
    ensures NoDuplicateIds(Sources(s, env, chat, urls).ledger)
  {
    if urls != [] {
      SourcesKeepIdsUnique(s, env, chat, urls[..|urls| - 1]);
      SourceStepKeepsIdsUnique(Sources(s, env, chat, urls[..|urls| - 1]), env, chat, urls[|urls| - 1]);
    }
  }

  /** No entry id is ever recorded twice, over any number of cycles. */
  lemma {:induction false} CyclesKeepIdsUnique(s: Snapshot, envs: seq<Env>, urls: seq<string>)
    requires NoDuplicateIds(s.ledger)
    ensures NoDuplicateIds(Cycles(s, envs, urls).ledger)
  {
    if envs != [] {
      var before := Cycles(s, envs[..|envs| - 1], urls);
      CyclesKeepIdsUnique(s, envs[..|envs| - 1], urls);
      var last := envs[|envs| - 1];
      if ConfiguredChannel(before.settings).Some? {
        SourcesKeepIdsUnique(before, last, ResolveChannel(ConfiguredChannel(before.settings).value), urls);
      }
    }
  }

  lemma {:induction false} SourcesAppend(s: Snapshot, env: Env, chat: Value, a: seq<string>, b: seq<string>)
    ensures Sources(s, env, chat, a + b) == Sources(Sources(s, env, chat, a), env, chat, b)
  {
    if b != [] {
      assert (a + b)[..|a + b| - 1] == a + b[..|b| - 1];
      assert (a + b)[|a + b| - 1] == b[|b| - 1];
      SourcesAppend(s, env, chat, a, b[..|b| - 1]);
    } else {
      assert a + b == a;
    }
  }

  /** Sources are isolated: a source whose feed cannot be read (or is empty)
      is as if it were not listed, and the sources after it still run. */
  lemma UnreadableSourceSkipped(s: Snapshot, env: Env, chat: Value, a: seq<string>, u: string, b: seq<string>)
    requires Latest(env.feed(u)).None?
    ensures Sources(s, env, chat, a + [u] + b) == Sources(s, env, chat, a + b)
  {
    SourcesAppend(s, env, chat, a + [u], b);
    SourcesAppend(s, env, chat, a, b);
    assert (a + [u])[..|a + [u]| - 1] == a;
  }

  /** Every listed source whose feed has entries has its newest entry's id
      in the ledger. */
  predicate AllKnown(ledger: seq<Record>, feed: string -> Feed, urls: seq<string>) {
    forall k :: 0 <= k < |urls| && Latest(feed(urls[k])).Some? ==> EntryId(Latest(feed(urls[k])).value) in SentIds(ledger)
  }

  lemma {:induction false} SourcesRecordAll(s: Snapshot, env: Env, chat: Value, urls: seq<string>)
    requires forall c :: env.accepts(c)
    ensures AllKnown(Sources(s, env, chat, urls).ledger, env.feed, urls)
  {
    if urls != [] {
      var init := urls[..|urls| - 1];
      var before := Sources(s, env, chat, init);
      SourcesRecordAll(s, env, chat, init);
      SourceStepRecords(before, env, chat, urls[|urls| - 1]);
      forall k | 0 <= k < |urls| && Latest(env.feed(urls[k])).Some?
        ensures EntryId(Latest(env.feed(urls[k])).value) in SentIds(Sources(s, env, chat, urls).ledger)
      {
        if k < |init| {
          assert urls[k] == init[k];
        }
      }
    }
  }

  /** With every post accepted, a step keeps the ids already sent and adds
      the id of its source's newest entry. */
  lemma SourceStepRecords(s: Snapshot, env: Env, chat: Value, url: string)
    requires forall c :: env.accepts(c)
    ensures SentIds(s.ledger) <= SentIds(SourceStep(s, env, chat, url).ledger)
    ensures Latest(env.feed(url)).Some? ==> EntryId(Latest(env.feed(url)).value) in SentIds(SourceStep(s, env, chat, url).ledger)
  {
    var after := SourceStep(s, env, chat, url);
    assert after.ledger == s.ledger + after.ledger[|s.ledger|..];
    SentIdsGrow(s.ledger, after.ledger[|s.ledger|..]);
    if Latest(env.feed(url)).Some? && EntryId(Latest(env.feed(url)).value) !in SentIds(s.ledger) {
      var e := Latest(env.feed(url)).value;
      assert after.ledger[|s.ledger|].entryId == EntryId(e);
    }
  }

  lemma {:induction false} SourcesQuiet(s: Snapshot, env: Env, chat: Value, urls: seq<string>)
    requires AllKnown(s.ledger, env.feed, urls)
    ensures Sources(s, env, chat, urls) == s
  {
    if urls != [] {
      var init := urls[..|urls| - 1];
      assert forall k :: 0 <= k < |init| ==> init[k] == urls[k];
      SourcesQuiet(s, env, chat, init);
      KnownEntrySkipped(s, env, chat, urls[|urls| - 1]);
    }
  }

  /** Deduplication: once a cycle has had all its posts accepted, a later
      cycle that sees the same feeds posts nothing and changes nothing. */
  lemma SecondCycleQuiet(s: Snapshot, env: Env, later: Env, urls: seq<string>)
    requires forall c :: env.accepts(c)
    requires later.feed == env.feed
    ensures Cycle(Cycle(s, env, urls), later, urls) == Cycle(s, env, urls)
  {
    var mid := Cycle(s, env, urls);
    match ConfiguredChannel(s.settings)
    case None =>
    case Some(v) =>
      SourcesRecordAll(s, env, ResolveChannel(v), urls);
      SourcesQuiet(mid, later, ResolveChannel(v), urls);
  }
}
