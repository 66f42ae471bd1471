/** The older polling pipeline of module/rss/rss.py: the same dedup rule,
    but exceptions from a feed or from formatting escape the cycle (and end
    the loop), and the inline video step neither checks nor removes the
    downloaded file. */
module LegacyDispatch {
  import opened Outcomes
  import opened Html
  import opened Feeds
  import opened Channels
  import opened YouTube
  import opened VideoDiscovery
  import opened Format
  import opened World
  import opened Dispatch

  /** Seconds the older `news_feed_loop` sleeps between cycles. */
  const LegacyDelay := 10

  /** The fixed `outtmpl` of the older video step. */
  const LegacyTemplate := "/tmp/ytvideo.%(ext)s"

  /** A state reached, and whether an exception escaped on the way. */
  datatype Run = Run(state: Snapshot, raised: bool)

  /** The inline video step: every failure is caught; the reported path is
      posted without an existence check and never removed. */
  function LegacyVideoStep(s: Snapshot, env: Env, chat: Value, e: Entry, link: string): (r: Snapshot)
    ensures r.ledger == s.ledger && r.settings == s.settings && s.files <= r.files
    ensures s.calls <= r.calls && |r.calls| <= |s.calls| + 1
  {
    match env.fetch(link)
    case None => s
    case Some(page) =>
      match VideoSrc(page)
      case None => s
      case Some(src) =>
        match LegacyExtractWatchUrl(FixRelative(src))
        case Raised(_) => s
        case Returned(url) =>
          match env.download(url, LegacyTemplate)
          case DownloadFailed => s
          case Downloaded(path, onDisk) =>
            var landed := if onDisk && path != "" then s.files + {path} else s.files;
            s.(calls := s.calls + [SendVideo(chat, path, VideoCaption(e))], files := landed)
  }

  /** No page, or a page without a video player, means no video step at all. */
  lemma LegacyNoPlayerNoVideo(s: Snapshot, env: Env, chat: Value, e: Entry, link: string)
    requires env.fetch(link).None? || VideoSrc(env.fetch(link).value).None?
    ensures LegacyVideoStep(s, env, chat, e, link) == s
  {
  }

  /** One source of the older `fetch_and_send_news`: an unreadable feed and
      a formatting error raise; a rejected post is caught. */
  function LegacySourceStep(s: Snapshot, env: Env, chat: Value, url: string): (r: Run)
    ensures r.raised ==> r.state == s
    ensures r.state.settings == s.settings && s.ledger <= r.state.ledger && |r.state.ledger| <= |s.ledger| + 1
    ensures s.calls <= r.state.calls
  {
    match env.feed(url)
    case Unreadable => Run(s, true)
    case Parsed(entries) =>
      if |entries| == 0 then Run(s, false)
      else
        var e := entries[0];
        var id := EntryId(e);
        if id in SentIds(s.ledger) then Run(s, false)
        else
          match LegacyFormatEntry(e, env.fetch)
          case Raised(_) => Run(s, true)
          case Returned(f) =>
            var call := PrimaryCall(chat, f);
            var sent := s.(calls := s.calls + [call]);
            if !env.accepts(call) then Run(sent, false)
            else Run(LegacyVideoStep(sent.(ledger := s.ledger + [Record(id, e.title.GetOr(""), f.link)]), env, chat, e, f.link), false)
  }

  /** The sources in order, up to and including the first that raises. */
  function LegacySources(s: Snapshot, env: Env, chat: Value, urls: seq<string>): (r: Run)
    ensures r.state.settings == s.settings && s.ledger <= r.state.ledger && s.calls <= r.state.calls
  {
    if urls == [] then Run(s, false)
    else
      var prev := LegacySources(s, env, chat, urls[..|urls| - 1]);
      if prev.raised then prev else LegacySourceStep(prev.state, env, chat, urls[|urls| - 1])
  }

  /** One call of the older `fetch_and_send_news`. */
  function LegacyCycle(s: Snapshot, env: Env, urls: seq<string>): (r: Run)
    ensures r.state.settings == s.settings && s.ledger <= r.state.ledger && s.calls <= r.state.calls
  {
    match ConfiguredChannel(s.settings)
    case None => Run(s, false)
    case Some(v) => LegacySources(s, env, ResolveChannel(v), urls)
  }

  /** Cycles of the older loop: the first cycle that raises ends it. */
  function LegacyCycles(s: Snapshot, envs: seq<Env>, urls: seq<string>): (r: Run)
    ensures r.state.settings == s.settings && s.ledger <= r.state.ledger && s.calls <= r.state.calls
  {
    if envs == [] then Run(s, false)
    else
      var prev := LegacyCycles(s, envs[..|envs| - 1], urls);
      if prev.raised then prev else LegacyCycle(prev.state, envs[|envs| - 1], urls)
  }

  /** Once a source has raised, the sources after it are never reached. */
  lemma {:induction false} LegacySourcesStopped(s: Snapshot, env: Env, chat: Value, urls: seq<string>, i: nat)
    requires i <= |urls| && LegacySources(s, env, chat, urls[..i]).raised
    ensures LegacySources(s, env, chat, urls) == LegacySources(s, env, chat, urls[..i])
    decreases |urls| - i
  {
    if i < |urls| {
      var init := urls[..|urls| - 1];
      assert init[..i] == urls[..i];
      LegacySourcesStopped(s, env, chat, init, i);
    } else {
      assert urls[..i] == urls;
    }
  }

  /** No isolation: an unreadable feed ends the cycle with an exception and
      every later source is skipped (compare `Dispatch.UnreadableSourceSkipped`). */
  lemma LegacyUnreadableFeedStopsCycle(s: Snapshot, env: Env, chat: Value, a: seq<string>, u: string, b: seq<string>)
    requires !LegacySources(s, env, chat, a).raised && env.feed(u).Unreadable?
    ensures LegacySources(s, env, chat, a + [u] + b) == Run(LegacySources(s, env, chat, a).state, true)
  {
    var urls := a + [u] + b;
    assert urls[..|a| + 1] == a + [u];
    assert (a + [u])[..|a|] == a;
    LegacySourcesStopped(s, env, chat, urls, |a| + 1);
  }

  /** With no channel configured, nothing is fetched and nothing raises. */
  lemma LegacyNoChannelNothingHappens(s: Snapshot, env: Env, urls: seq<string>)
    requires ConfiguredChannel(s.settings).None?
    ensures LegacyCycle(s, env, urls) == Run(s, false)
  {
  }

  /** A record is written only for an entry whose id was absent, after its
      post was accepted. */
  lemma LegacyRecordOnlyAfterAcceptedPost(s: Snapshot, env: Env, chat: Value, url: string)
    requires |LegacySourceStep(s, env, chat, url).state.ledger| > |s.ledger|
    ensures env.feed(url).Parsed? && |env.feed(url).entries| > 0
    ensures var e := env.feed(url).entries[0];
            var r := LegacySourceStep(s, env, chat, url).state;
            && EntryId(e) !in SentIds(s.ledger)
            && LegacyFormatEntry(e, env.fetch).Returned?
            && var f := LegacyFormatEntry(e, env.fetch).value;
               && r.ledger == s.ledger + [Record(EntryId(e), e.title.GetOr(""), f.link)]
               && |s.calls| < |r.calls| && r.calls[|s.calls|] == PrimaryCall(chat, f)
               && env.accepts(PrimaryCall(chat, f))
  {
  }

  lemma LegacySourceStepKeepsIdsUnique(s: Snapshot, env: Env, chat: Value, url: string)
    requires NoDuplicateIds(s.ledger)
    ensures NoDuplicateIds(LegacySourceStep(s, env, chat, url).state.ledger)
  {
    var r := LegacySourceStep(s, env, chat, url).state;
    if |r.ledger| > |s.ledger| {
      LegacyRecordOnlyAfterAcceptedPost(s, env, chat, url);
      AppendFreshId(s.ledger, r.ledger[|s.ledger|]);
    } else {
      assert r.ledger == s.ledger;
    }
  }

  /** The older pipeline never records an id twice either. */
  lemma {:induction false} LegacySourcesKeepIdsUnique(s: Snapshot, env: Env, chat: Value, urls: seq<string>)
    requires NoDuplicateIds(s.ledger)
    ensures NoDuplicateIds(LegacySources(s, env, chat, urls).state.ledger)
  {
    if urls != [] {
      var prev := LegacySources(s, env, chat, urls[..|urls| - 1]);
      LegacySourcesKeepIdsUnique(s, env, chat, urls[..|urls| - 1]);
      if !prev.raised {
        LegacySourceStepKeepsIdsUnique(prev.state, env, chat, urls[|urls| - 1]);
      }
    }
  }

  /** When the chat service rejects every call, nothing is recorded. */
  lemma {:induction false} LegacyRejectedPostsRecordNothing(s: Snapshot, env: Env, chat: Value, urls: seq<string>)
    requires forall c :: !env.accepts(c)
    ensures LegacySources(s, env, chat, urls).state.ledger == s.ledger
  {
    if urls != [] {
      LegacyRejectedPostsRecordNothing(s, env, chat, urls[..|urls| - 1]);
    }
  }

  /** The downloaded file is posted whether or not it exists, and a file
      that landed stays on disk (compare `Dispatch.DownloadStep`, which
      removes it). */
  lemma LegacyVideoFileLeaks(s: Snapshot, env: Env, chat: Value, e: Entry, link: string, path: string, onDisk: bool)
    requires env.fetch(link).Some? && VideoSrc(env.fetch(link).value).Some?
    requires LegacyExtractWatchUrl(FixRelative(VideoSrc(env.fetch(link).value).value)).Returned?
    requires env.download(LegacyExtractWatchUrl(FixRelative(VideoSrc(env.fetch(link).value).value)).value, LegacyTemplate)
             == Downloaded(path, onDisk)
    ensures LegacyVideoStep(s, env, chat, e, link).calls == s.calls + [SendVideo(chat, path, VideoCaption(e))]
    ensures onDisk && path != "" ==> path in LegacyVideoStep(s, env, chat, e, link).files
  {
  }

  method LegacyFetchAndSendNews(rt: Runtime, env: Env, urls: seq<string>) returns (raised: bool)
    modifies rt
    ensures Run(rt.State(), raised) == LegacyCycle(old(rt.State()), env, urls)
  {
    var configured := ConfiguredChannel(rt.settings);
    if configured.None? {
      return false;
    }
    var chat := ResolveChannel(configured.value);
    raised := false;
    var i := 0;
    while i < |urls| && !raised
      invariant 0 <= i <= |urls|
      invariant LegacySources(old(rt.State()), env, chat, urls[..i]) == Run(rt.State(), raised)
    {
      assert urls[..i + 1][..i] == urls[..i];
      raised := LegacyProcessSource(rt, env, chat, urls[i]);
      i := i + 1;
    }
    if raised {
      LegacySourcesStopped(old(rt.State()), env, chat, urls, i);
    } else {
      assert urls[..i] == urls;
    }
  }

  /** One pass of the older loop body, for one source. */
  method LegacyProcessSource(rt: Runtime, env: Env, chat: Value, url: string) returns (raised: bool)
    modifies rt
    ensures Run(rt.State(), raised) == LegacySourceStep(old(rt.State()), env, chat, url)
  {
    raised := false;
    var feed := env.feed(url);
    if feed.Unreadable? {
      return true;
    }
    if |feed.entries| > 0 {
      var e := feed.entries[0];
      var id := EntryId(e);
      if id !in SentIds(rt.ledger) {
        var formatted := LegacyFormatEntry(e, env.fetch);
        if formatted.Raised? {
          return true;
        }
        var f := formatted.value;
        var ok := rt.Send(env, PrimaryCall(chat, f));
        if ok {
          rt.Insert(Record(id, e.title.GetOr(""), f.link));
          LegacyInlineVideo(rt, env, chat, e, f.link);
        }
      }
    }
  }

  /** The video part of the older loop body, after the record is written. */
  method LegacyInlineVideo(rt: Runtime, env: Env, chat: Value, e: Entry, link: string)
    modifies rt
    ensures rt.State() == LegacyVideoStep(old(rt.State()), env, chat, e, link)
  {
    var page := env.fetch(link);
    if page.Some? {
      var src := FindVideoIframe(page.value);
      if src.Some? {
        var url := LegacyExtractWatchUrl(FixRelative(src.value));
        if url.Returned? {
          var outcome := env.download(url.value, LegacyTemplate);
          if outcome.Downloaded? {
            if outcome.onDisk && outcome.path != "" {
              rt.Land(outcome.path);
            }
            var _ := rt.Send(env, SendVideo(chat, outcome.path, VideoCaption(e)));
          }
        }
      }
    }
  }

  /** The older `news_feed_loop`: it sleeps 10 seconds after each cycle and
      has no handler, so the first cycle that raises ends the loop. */
  method LegacyNewsFeedLoop(rt: Runtime, envs: seq<Env>, urls: seq<string>) returns (delays: seq<int>, crashed: bool)
    modifies rt
    ensures Run(rt.State(), crashed) == LegacyCycles(old(rt.State()), envs, urls)
    ensures forall k :: 0 <= k < |delays| ==> delays[k] == LegacyDelay
    ensures crashed ==> |delays| < |envs|
    ensures !crashed ==> |delays| == |envs|
    ensures crashed ==> !LegacyCycles(old(rt.State()), envs[..|delays|], urls).raised
                        && LegacyCycles(old(rt.State()), envs[..|delays| + 1], urls).raised
  {
    delays := [];
    crashed := false;
    var i := 0;
    while i < |envs| && !crashed
      invariant 0 <= i <= |envs|
      invariant LegacyCycles(old(rt.State()), envs[..i], urls) == Run(rt.State(), crashed)
      invariant forall k :: 0 <= k < |delays| ==> delays[k] == LegacyDelay
      invariant if crashed then |delays| == i - 1 else |delays| == i
      invariant crashed ==> !LegacyCycles(old(rt.State()), envs[..i - 1], urls).raised
    {
      assert envs[..i + 1][..i] == envs[..i];
      crashed := LegacyFetchAndSendNews(rt, envs[i], urls);
      if !crashed {
        delays := delays + [LegacyDelay];
      }
      i := i + 1;
    }
    if crashed {
      assert envs[..|delays| + 1] == envs[..i];
      LegacyCyclesStopped(old(rt.State()), envs, i, urls);
    } else {
      assert envs[..i] == envs;
    }
  }

  /** Once a cycle has raised, later cycles never run. */
  lemma {:induction false} LegacyCyclesStopped(s: Snapshot, envs: seq<Env>, i: nat, urls: seq<string>)
    requires i <= |envs| && LegacyCycles(s, envs[..i], urls).raised
    ensures LegacyCycles(s, envs, urls) == LegacyCycles(s, envs[..i], urls)
    decreases |envs| - i
  {
    if i < |envs| {
      var init := envs[..|envs| - 1];
      assert init[..i] == envs[..i];
      LegacyCyclesStopped(s, init, i, urls);
    } else {
      assert envs[..i] == envs;
    }
  }
}
