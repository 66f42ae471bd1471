/** The admin commands of bot.py: `/news` (`connect_news`) stores the
    destination channel; `/sendnews` (`sendnews_cmd`) posts one chosen
    entry of a feed by hand, outside the ledger. */
module Commands {
  import opened Outcomes
  import opened Strings
  import opened Numbers
  import opened Html
  import opened Feeds
  import opened Channels
  import opened YouTube
  import opened VideoDiscovery
  import opened Format
  import opened World
  import opened Dispatch

  const Denied := "<b><blockquote>You do not have permission to use this command.</b></blockquote>"
  const AskChannel := "<b><blockquote>Please provide a channel ID or username.</b></blockquote>"
  const Usage := "<b><blockquote>Usage: /sendnews {rss link} {task position}</b></blockquote>"
  const BadPosition := "<b><blockquote>Task position must be a positive integer.</b></blockquote>"
  const NoChannel := "<b><blockquote>No news channel configured. Use /news to set one.</b></blockquote>"
  const NoNewsThere := "<b><blockquote>No news found at that position.</b></blockquote>"
  const SentOk := "<b><blockquote>News sent successfully!</b></blockquote>"

  function ChannelSet(display: string): string {
    "<b><blockquote>News channel set to: " + display + "</b></blockquote>"
  }

  function SendError(reason: string): string {
    "<b><blockquote>Error sending news: " + reason + "</b></blockquote>"
  }

  /** A reply in the chat the command came from. */
  function Reply(chat: int, text: string): Call {
    SendMessage(IntVal(chat), text, false)
  }

  /** `connect_news`. A `-100...` input that `int()` rejects raises inside
      the handler: nothing is stored and no reply is sent. */
  function ConnectNewsStep(s: Snapshot, admins: set<int>, user: int, chat: int, text: string): (r: Snapshot)
    ensures r.ledger == s.ledger && r.files == s.files && s.calls <= r.calls
    ensures r.settings != s.settings ==>
      && user in admins
      && NormalizeChannel(ChannelInput(text)).Returned?
      && r.settings == SetChannel(s.settings, NormalizeChannel(ChannelInput(text)).value)
  {
    if user !in admins then s.(calls := s.calls + [Reply(chat, Denied)])
    else if |Words(text)| == 1 then s.(calls := s.calls + [Reply(chat, AskChannel)])
    else
      match NormalizeChannel(ChannelInput(text))
      case Raised(_) => s
      case Returned(v) =>
        s.(settings := SetChannel(s.settings, v), calls := s.calls + [Reply(chat, ChannelSet(Display(v)))])
  }

  /** The admin gate and the missing-argument prompt: the caller is told,
      and the config is not touched. */
  lemma ConnectNewsRefuses(s: Snapshot, admins: set<int>, user: int, chat: int, text: string)
    requires user !in admins || |Words(text)| == 1
    ensures ConnectNewsStep(s, admins, user, chat, text)
            == s.(calls := s.calls + [Reply(chat, if user !in admins then Denied else AskChannel)])
  {
  }

  /** After a successful `/news`, every later polling cycle posts to exactly
      the channel stored, and the reply shows it. */
  lemma ConnectNewsTargetsCycles(s: Snapshot, admins: set<int>, user: int, chat: int, text: string)
    requires user in admins && |Words(text)| != 1
    requires NormalizeChannel(ChannelInput(text)).Returned?
    ensures var v := NormalizeChannel(ChannelInput(text)).value;
            var r := ConnectNewsStep(s, admins, user, chat, text);
            && ConfiguredChannel(r.settings) == Some(v)
            && ResolveChannel(ConfiguredChannel(r.settings).value) == v
            && r.calls == s.calls + [Reply(chat, ChannelSet(Display(v)))]
  {
    ResolveNormalized(ChannelInput(text));
  }

  method ConnectNews(rt: Runtime, env: Env, admins: set<int>, user: int, chat: int, text: string)
    modifies rt
    ensures rt.State() == ConnectNewsStep(old(rt.State()), admins, user, chat, text)
  {
    if user !in admins {
      var _ := rt.Send(env, Reply(chat, Denied));
      return;
    }
    if |Words(text)| == 1 {
      var _ := rt.Send(env, Reply(chat, AskChannel));
      return;
    }
    var channel := NormalizeChannel(ChannelInput(text));
    if channel.Raised? {
      return;
    }
    rt.Configure(SetChannel(rt.settings, channel.value));
    var _ := rt.Send(env, Reply(chat, ChannelSet(Display(channel.value))));
  }

  /** `int(arg) - 1`, rejected unless it is at least 0. */
  function Position(arg: string): (r: Option<nat>)
    ensures r.Some? <==> ParseInt(arg).Some? && ParseInt(arg).value >= 1
    ensures r.Some? ==> r.value + 1 == ParseInt(arg).value
  {
    match ParseInt(arg)
    case Some(n) => if n - 1 < 0 then None else Some(n - 1)
    case None => None
  }

  /** Positions typed as decimal numbers: `n` selects index `n - 1`, and
      anything below 1 is refused. */
  lemma PositionOfNumber(n: int)
    ensures Position(IntToString(n)) == if n >= 1 then Some(n - 1) else None
  {
    ParseIntToString(n);
  }

  /** The `outtmpl` of `/sendnews`: named after the position. */
  function ManualTemplate(position: nat): string {
    "/tmp/ytvideo_" + IntToString(position) + ".%(ext)s"
  }

  /** Different positions download to different paths. */
  lemma ManualTemplateDistinct(p: nat, q: nat)
    requires ManualTemplate(p) == ManualTemplate(q)
    ensures p == q
  {
    var t := ManualTemplate(p);
    var a, b := "/tmp/ytvideo_", ".%(ext)s";
    assert IntToString(p) == t[|a|..|t| - |b|];
    assert IntToString(q) == t[|a|..|t| - |b|];
    ParseIntToString(p);
    ParseIntToString(q);
  }

  /** The download part of `/sendnews`: the reported path is posted
      without an existence check, and in `finally` an existing file is
      removed. */
  function ManualDownloadStep(s: Snapshot, env: Env, target: Value, e: Entry, url: string, position: nat): (r: Snapshot)
    ensures r.ledger == s.ledger && r.settings == s.settings && r.files <= s.files
    ensures s.calls <= r.calls && |r.calls| <= |s.calls| + 1
  {
    match env.download(url, ManualTemplate(position))
    case DownloadFailed => s
    case Downloaded(path, onDisk) =>
      var landed := if onDisk && path != "" then s.files + {path} else s.files;
      s.(calls := s.calls + [SendVideo(target, path, VideoCaption(e))],
         files := if path != "" && path in landed then landed - {path} else landed)
  }

  /** The video part of `/sendnews`, with any failure caught. */
  function ManualVideoStep(s: Snapshot, env: Env, target: Value, e: Entry, link: string, position: nat): (r: Snapshot)
    ensures r.ledger == s.ledger && r.settings == s.settings && r.files <= s.files
    ensures s.calls <= r.calls
  {
    match env.fetch(link)
    case None => s
    case Some(page) =>
      match VideoSrc(page)
      case None => s
      case Some(src) => ManualDownloadStep(s, env, target, e, ExtractWatchUrl(FixRelative(src)), position)
  }

  /** The closing reply of `/sendnews`; if it is rejected, the handler's
      `except` answers with the error instead. */
  function AcknowledgeStep(s: Snapshot, env: Env, chat: int): (r: Snapshot)
    ensures r.ledger == s.ledger && r.settings == s.settings && r.files == s.files
    ensures s.calls <= r.calls && |r.calls| > |s.calls| && r.calls[|s.calls|] == Reply(chat, SentOk)
  {
    var ok := Reply(chat, SentOk);
    if env.accepts(ok) then s.(calls := s.calls + [ok])
    else s.(calls := s.calls + [ok, Reply(chat, SendError(env.describe(ok)))])
  }

  /** The posting part of `/sendnews`: the post, then the video, then the
      success reply; a rejected post is answered with the error. */
  function PostEntry(s: Snapshot, env: Env, chat: int, target: Value, e: Entry, position: nat): (r: Snapshot)
    ensures r.ledger == s.ledger && r.settings == s.settings && r.files <= s.files
    ensures |s.calls| < |r.calls| && s.calls <= r.calls
    ensures r.calls[|s.calls|] == PrimaryCall(target, FormatEntry(e, env.fetch, env.getText))
  {
    var f := FormatEntry(e, env.fetch, env.getText);
    var primary := PrimaryCall(target, f);
    var sent := s.(calls := s.calls + [primary]);
    if !env.accepts(primary) then sent.(calls := sent.calls + [Reply(chat, SendError(env.describe(primary)))])
    else AcknowledgeStep(ManualVideoStep(sent, env, target, e, f.link, position), env, chat)
  }

  /** What `/sendnews` does once its arguments are read: check the config,
      read the feed, and post `entries[position]` when there is one. An
      unreadable feed raises out of the handler. */
  function DeliverStep(s: Snapshot, env: Env, chat: int, link: string, position: nat): (r: Snapshot)
    ensures r.ledger == s.ledger && r.settings == s.settings && r.files <= s.files
    ensures s.calls <= r.calls
  {
    match ConfiguredChannel(s.settings)
    case None => s.(calls := s.calls + [Reply(chat, NoChannel)])
    case Some(v) =>
      match env.feed(link)
      case Unreadable => s
      case Parsed(entries) =>
        if position >= |entries| then s.(calls := s.calls + [Reply(chat, NoNewsThere)])
        else PostEntry(s, env, chat, ResolveChannel(v), entries[position], position)
  }

  /** `sendnews_cmd`: the admin gate, the argument count and the position,
      in the order the handler checks them; the entry is posted with no
      look at the ledger. */
  function SendNewsStep(s: Snapshot, env: Env, admins: set<int>, user: int, chat: int, text: string): (r: Snapshot)
    ensures r.ledger == s.ledger && r.settings == s.settings && r.files <= s.files
    ensures s.calls <= r.calls
  {
    if user !in admins then s.(calls := s.calls + [Reply(chat, Denied)])
    else
      var args := SplitMax(text, 2);
      if |args| < 3 then s.(calls := s.calls + [Reply(chat, Usage)])
      else
        match Position(args[2])
        case None => s.(calls := s.calls + [Reply(chat, BadPosition)])
        case Some(position) => DeliverStep(s, env, chat, args[1], position)
  }

  /** A command with fewer than three words gets the usage text and
      nothing else happens. */
  lemma SendNewsUsage(s: Snapshot, env: Env, admins: set<int>, user: int, chat: int, text: string)
    requires user in admins && |Words(text)| < 3
    ensures SendNewsStep(s, env, admins, user, chat, text) == s.(calls := s.calls + [Reply(chat, Usage)])
  {
    SplitMaxLength(text, 2);
  }

  /** Entry selection: position `p` posts `entries[p]` to the configured
      channel, as the first call the command makes. */
  lemma SendNewsSelectsEntry(s: Snapshot, env: Env, admins: set<int>, user: int, chat: int, text: string)
    requires user in admins && |SplitMax(text, 2)| == 3
    requires Position(SplitMax(text, 2)[2]).Some? && ConfiguredChannel(s.settings).Some?
    requires env.feed(SplitMax(text, 2)[1]).Parsed?
    requires Position(SplitMax(text, 2)[2]).value < |env.feed(SplitMax(text, 2)[1]).entries|
    ensures var e := env.feed(SplitMax(text, 2)[1]).entries[Position(SplitMax(text, 2)[2]).value];
            var target := ResolveChannel(ConfiguredChannel(s.settings).value);
            var r := SendNewsStep(s, env, admins, user, chat, text);
            |s.calls| < |r.calls| && r.calls[|s.calls|] == PrimaryCall(target, FormatEntry(e, env.fetch, env.getText))
  {
  }

  /** A position past the end of the feed (or an empty feed) gets "No news
      found" and posts nothing. */
  lemma SendNewsOutOfRange(s: Snapshot, env: Env, admins: set<int>, user: int, chat: int, text: string)
    requires user in admins && |SplitMax(text, 2)| == 3
    requires Position(SplitMax(text, 2)[2]).Some? && ConfiguredChannel(s.settings).Some?
    requires env.feed(SplitMax(text, 2)[1]).Parsed?
    requires Position(SplitMax(text, 2)[2]).value >= |env.feed(SplitMax(text, 2)[1]).entries|
    ensures SendNewsStep(s, env, admins, user, chat, text) == s.(calls := s.calls + [Reply(chat, NoNewsThere)])
  {
  }

  /** A position that is not an integer of at least 1 is refused before
      anything is fetched. */
  lemma SendNewsBadPosition(s: Snapshot, env: Env, admins: set<int>, user: int, chat: int, text: string)
    requires user in admins && |SplitMax(text, 2)| == 3
    requires ParseInt(SplitMax(text, 2)[2]).None? || ParseInt(SplitMax(text, 2)[2]).value < 1
    ensures SendNewsStep(s, env, admins, user, chat, text) == s.(calls := s.calls + [Reply(chat, BadPosition)])
  {
  }

  lemma ManualVideoIgnoresLedger(s: Snapshot, env: Env, target: Value, e: Entry, link: string, position: nat, other: seq<Record>)
    ensures ManualVideoStep(s.(ledger := other), env, target, e, link, position)
            == ManualVideoStep(s, env, target, e, link, position).(ledger := other)
  {
    match env.fetch(link)
    case None =>
    case Some(page) =>
      match VideoSrc(page)
      case None =>
      case Some(src) =>
        var url := ExtractWatchUrl(FixRelative(src));
        assert ManualDownloadStep(s.(ledger := other), env, target, e, url, position)
               == ManualDownloadStep(s, env, target, e, url, position).(ledger := other);
  }

  lemma PostEntryIgnoresLedger(s: Snapshot, env: Env, chat: int, target: Value, e: Entry, position: nat, other: seq<Record>)
    ensures PostEntry(s.(ledger := other), env, chat, target, e, position)
            == PostEntry(s, env, chat, target, e, position).(ledger := other)
  {
    var f := FormatEntry(e, env.fetch, env.getText);
    var primary := PrimaryCall(target, f);
    var sent := s.(calls := s.calls + [primary]);
    assert s.(ledger := other).(calls := s.calls + [primary]) == sent.(ledger := other);
    ManualVideoIgnoresLedger(sent, env, target, e, f.link, position, other);
  }

  lemma DeliverIgnoresLedger(s: Snapshot, env: Env, chat: int, link: string, position: nat, other: seq<Record>)
    ensures DeliverStep(s.(ledger := other), env, chat, link, position) == DeliverStep(s, env, chat, link, position).(ledger := other)
  {
    if ConfiguredChannel(s.settings).Some? && env.feed(link).Parsed? && position < |env.feed(link).entries| {
      PostEntryIgnoresLedger(s, env, chat, ResolveChannel(ConfiguredChannel(s.settings).value),
                             env.feed(link).entries[position], position, other);
    }
  }

  /** `/sendnews` bypasses deduplication: what it does does not depend on
      the ledger, and it leaves the ledger as it found it. */
  lemma SendNewsIgnoresLedger(s: Snapshot, env: Env, admins: set<int>, user: int, chat: int, text: string, other: seq<Record>)
    ensures SendNewsStep(s.(ledger := other), env, admins, user, chat, text)
            == SendNewsStep(s, env, admins, user, chat, text).(ledger := other)
  {
    var args := SplitMax(text, 2);
    if user in admins && |args| >= 3 && Position(args[2]).Some? {
      DeliverIgnoresLedger(s, env, chat, args[1], Position(args[2]).value, other);
    }
  }

  method ManualDownload(rt: Runtime, env: Env, target: Value, e: Entry, url: string, position: nat)
    modifies rt
    ensures rt.State() == ManualDownloadStep(old(rt.State()), env, target, e, url, position)
  {
    var outcome := env.download(url, ManualTemplate(position));
    if outcome.Downloaded? {
      var path := outcome.path;
      if outcome.onDisk && path != "" {
        rt.Land(path);
      }
      var _ := rt.Send(env, SendVideo(target, path, VideoCaption(e)));
      // the `finally` clause
      if path != "" && path in rt.files {
        rt.Remove(path);
      }
    }
  }

  method ManualVideo(rt: Runtime, env: Env, target: Value, e: Entry, link: string, position: nat)
    modifies rt
    ensures rt.State() == ManualVideoStep(old(rt.State()), env, target, e, link, position)
  {
    var page := env.fetch(link);
    if page.Some? {
      var src := FindVideoIframe(page.value);
      if src.Some? {
        ManualDownload(rt, env, target, e, ExtractWatchUrl(FixRelative(src.value)), position);
      }
    }
  }

  method Acknowledge(rt: Runtime, env: Env, chat: int)
    modifies rt
    ensures rt.State() == AcknowledgeStep(old(rt.State()), env, chat)
  {
    var ok := rt.Send(env, Reply(chat, SentOk));
    if !ok {
      var _ := rt.Send(env, Reply(chat, SendError(env.describe(Reply(chat, SentOk)))));
    }
  }

  method Post(rt: Runtime, env: Env, chat: int, target: Value, e: Entry, position: nat)
    modifies rt
    ensures rt.State() == PostEntry(old(rt.State()), env, chat, target, e, position)
  {
    var f := FormatEntry(e, env.fetch, env.getText);
    var primary := PrimaryCall(target, f);
    var ok := rt.Send(env, primary);
    if !ok {
      var _ := rt.Send(env, Reply(chat, SendError(env.describe(primary))));
      return;
    }
    ManualVideo(rt, env, target, e, f.link, position);
    Acknowledge(rt, env, chat);
  }

  method Deliver(rt: Runtime, env: Env, chat: int, link: string, position: nat)
    modifies rt
    ensures rt.State() == DeliverStep(old(rt.State()), env, chat, link, position)
  {
    var configured := ConfiguredChannel(rt.settings);
    if configured.None? {
      var _ := rt.Send(env, Reply(chat, NoChannel));
      return;
    }
    var feed := env.feed(link);
    if feed.Unreadable? {
      return;
    }
    if position >= |feed.entries| {
      var _ := rt.Send(env, Reply(chat, NoNewsThere));
      return;
    }
    Post(rt, env, chat, ResolveChannel(configured.value), feed.entries[position], position);
  }

  method SendNews(rt: Runtime, env: Env, admins: set<int>, user: int, chat: int, text: string)
    modifies rt
    ensures rt.State() == SendNewsStep(old(rt.State()), env, admins, user, chat, text)
  {
    if user !in admins {
      var _ := rt.Send(env, Reply(chat, Denied));
      return;
    }
    var args := SplitMax(text, 2);
    if |args| < 3 {
      var _ := rt.Send(env, Reply(chat, Usage));
      return;
    }
    var position := Position(args[2]);
    if position.None? {
      var _ := rt.Send(env, Reply(chat, BadPosition));
      return;
    }
    Deliver(rt, env, chat, args[1], position.value);
  }
}
