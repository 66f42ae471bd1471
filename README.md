# AnimeNewsBot news pipeline, modelled in Dafny

AnimeNewsBot polls RSS feeds and posts the newest entry of each feed to a
Telegram channel. A post is a photo or a text message with an HTML caption,
followed by the article's embedded YouTube video when one can be found and
downloaded. A MongoDB collection `sent_news` records what was posted, so an
entry is posted once. Two admin commands complete the bot: `/news` sets the
channel and `/sendnews` posts a chosen entry by hand.

The model covers three Python files:

- `modules/rss/rss.py`, the current pipeline that `bot.py` imports;
- `module/rss/rss.py`, an older variant of it;
- the `/news` and `/sendnews` handlers of `bot.py`.

The modules, in dependency order:

- `Outcomes` holds `Option`, `Result` and the Python exceptions the code
  raises or catches (`ValueError`, `IndexError`, `KeyError`, a feed error).
- `Strings` and `Numbers` hold the Python built-ins the code relies on:
  `in`, `split`, `split(maxsplit=…)`, `strip`, `join`, `startswith`,
  `int()` and `str()`.
- `YouTube` holds `extract_youtube_watch_url` (both versions) and the fix-up
  of relative iframe sources. It includes the parts of `urlparse` and
  `parse_qs` that the function uses.
- `Html` is a parsed page reduced to what the bot looks up. `VideoDiscovery`
  is the container-then-document iframe search. `Thumbnails` is
  `get_ann_image`.
- `Feeds` and `Format` hold feed entries and `format_rss_entry` (both
  versions).
- `Channels` covers how `/news` normalises and stores the channel, and how
  the dispatchers read it back with `int()`.
- `World` holds the chat calls, the ledger records and the `Env` of outside
  answers. It also holds the `Runtime` class, which has the four pieces of
  mutable state as fields: the ledger, the config document, the log of chat
  calls and the scratch files.
- `Dispatch` is `fetch_and_send_news`, `process_video_content`,
  `download_and_send_video` and `news_feed_loop` of the current pipeline.
  `LegacyDispatch` is the older pipeline.
- `Commands` holds `connect_news` and `sendnews_cmd`.

Each imperative operation is a method that changes a `Runtime`. Each such
method is proved to end in the state given by a function on `Snapshot`
values. Lemmas about those functions state the pipeline's guarantees:

- with no channel configured, nothing happens;
- only `entries[0]` of a feed is considered;
- an entry is recorded only after its post was accepted, and never twice;
- a rejected post records nothing;
- a source whose feed cannot be read does not stop the sources after it;
- after a cycle whose posts were all accepted, a cycle over the same feeds
  posts nothing;
- the downloaded video file is removed;
- `/sendnews` neither reads nor writes the ledger.

For the older pipeline, the lemmas state where it differs: an unreadable
feed ends the cycle and the loop, and the downloaded file stays on disk.

Outside answers are parameters in `Env`: feed contents, page contents,
BeautifulSoup's `get_text`, the result of `yt_dlp`, and whether the chat
service accepts a call. The ledger, config, call log and scratch files are
fields of `Runtime`.

Behaviour of the code that the model keeps as it is:

- An entry with neither `id` nor `link` gets the key `None`. The ledger
  stores and matches `None` like any other id, so such an entry is posted
  once and then skipped like a known one.
- `get_ann_image` looks only at the page's first `<img>`, not at the first
  valid one (`Thumbnails.OnlyFirstImgExamined`).
- An image is valid when its URL starts with `http`, not when it is an
  absolute HTTP(S) URL.
- A page fetch that returns a body is parsed whatever its status code. Only
  an exception counts as "nothing found".
- The current `news_feed_loop` never takes its 60-second backoff.
  `fetch_and_send_news` catches every exception itself, so every cycle is
  followed by 300 seconds (`Dispatch.NewsFeedLoop`).
- The older loop has no handler at all. Its first failing cycle ends it
  (`LegacyDispatch.LegacyNewsFeedLoop`).
- Some admin-command failures raise out of the handler with no reply:
  - `/news` with a `-100…` argument that `int()` rejects;
  - `/sendnews` on a feed that cannot be read.

  A failing formatting step in the current pipeline yields the caption
  "Error formatting news". That caption is posted and the entry recorded
  like any other.

## Model

| member | source | states |
|---|---|---|
| Strings.FirstIndexFrom | modules/rss/rss.py:13 | the index found is an occurrence of the pattern and no earlier one exists; none means no occurrence at all (`p in s`) |
| Strings.BeforeChar | modules/rss/rss.py:14 | `s.split(c)[0]` is a prefix of `s` free of `c`, followed in `s` by `c` when shorter |
| Strings.AfterChar | modules/rss/rss.py:18 | absent exactly when `c` is absent; otherwise `s` is the text before, `c`, and the result |
| Strings.AfterLast | modules/rss/rss.py:14 | `s.split(p)[-1]` is a suffix of `s` without `p`, preceded by `p` when `p` occurs, all of `s` otherwise |
| Strings.AfterLastStep | modules/rss/rss.py:14 | the text after the last occurrence in the rest after the first occurrence is the text after the last occurrence in the whole |
| Strings.SplitOn | modules/rss/rss.py:18 | `s.split(c)` has at least one piece, no piece contains `c`, and joining with `c` gives `s` back |
| Strings.TrimLeft | bot.py:90 | a suffix of the input with only whitespace removed, not starting with whitespace, and the input itself when it does not start with whitespace |
| Strings.TrimRight | bot.py:90 | a prefix of the input with only whitespace removed, not ending with whitespace, and the input itself when it does not end with whitespace |
| Strings.Strip | modules/rss/rss.py:238 | `s.strip()` is a slice of `s` with only whitespace around it, has no whitespace at either end, and is `s` itself when `s` has none |
| Strings.StripAround | modules/rss/rss.py:238 | stripping whitespace, a core with non-space ends, and whitespace gives back exactly the core |
| Strings.StripKeepsFirst | bot.py:90 | a string that does not start with whitespace keeps its first character through `strip()` |
| Strings.Word | bot.py:86 | the leading run of non-space characters, followed by a space when shorter than the input |
| Strings.SplitMax | bot.py:114 | `split(maxsplit=n)` gives at most n+1 pieces, each non-empty and not starting with whitespace, the first n of them whole words |
| Strings.SplitMaxWords | bot.py:114 | with at most n pieces they are the words of `s`; with n+1, the first n are its first n words and the last is a tail of `s` holding exactly the remaining words |
| Strings.SplitMaxLength | bot.py:114-115 | `split(maxsplit=n)` has as many pieces as `s` has words, capped at n+1 |
| Strings.Words | bot.py:86 | `split()` gives only runs of non-space characters |
| Strings.WordsSpell | bot.py:86 | `s` is exactly its words, in order, with whitespace around and between them and a non-empty gap between two words |
| Strings.WordsOfJoin | bot.py:90 | splitting words joined by single spaces gives back the same words |
| Numbers.ParseInt | bot.py:121 | `int(s)` succeeds only on a non-blank input, and gives a negative value only when the stripped input starts with `-` |
| Numbers.ParseIntOfDigits | bot.py:121 | `int()` of optional whitespace, an optional sign, decimal digits and optional whitespace is the signed value of the digits |
| Numbers.NatToString | bot.py:94 | `str(n)` of a natural is decimal digits without a leading zero |
| Numbers.IntToString | bot.py:94 | `str(n)` starts with `-` exactly when `n` is negative |
| Numbers.DigitsValueOfNatToString | bot.py:94 | the digits of `str(n)` have the value `n` |
| Numbers.ParseIntToString | bot.py:92-94 | `int(str(n)) == n` for every integer |
| YouTube.EmbedId | modules/rss/rss.py:14 | the video id is the longest prefix, free of `?` and `/`, of the text after the last `youtube.com/embed/` |
| YouTube.AfterScheme | modules/rss/rss.py:17 | what `urlparse` leaves after a leading scheme is the whole URL or a proper suffix of it |
| YouTube.Netloc | modules/rss/rss.py:17 | definition: the network location that `urlparse` reads after `//` |
| YouTube.UrlSplitRaises | modules/rss/rss.py:17 | definition: `urlparse` raises ValueError when the network location holds exactly one of `[` and `]` |
| YouTube.Query | modules/rss/rss.py:17 | definition: the query is the text after the first `?`, with any `#` fragment cut off |
| YouTube.QueryParam | modules/rss/rss.py:18 | definition: `parse_qs(query).get(name, [None])[0]` is the first non-blank value of the name among the `&`-separated pairs |
| YouTube.FirstValue | modules/rss/rss.py:18 | the first `v=` pair with a non-blank value gives the result: it comes from some pair, every earlier pair names no non-blank `v`, and none is found exactly when no pair gives one |
| YouTube.ExtractWatchUrl | modules/rss/rss.py:10-24 | embed URLs become the watch URL of their id; watch URLs with a non-blank `v` (that `urlparse` accepts) are rebuilt from it; everything else, failures included, is returned unchanged |
| YouTube.LegacyExtractWatchUrl | module/rss/rss.py:9-18 | the same result as the current version, except that it raises ValueError exactly for a watch URL `urlparse` rejects, where the current version returns the input |
| YouTube.FixRelative | modules/rss/rss.py:122-125 | `//…` gets `https:`, other `/…` gets `https://www.youtube.com`, anything else is kept; the `//` rule wins |
| YouTube.FixRelativeIdempotent | modules/rss/rss.py:122-125 | a fixed-up URL never starts with `/`, ends with the original, and a second fix-up changes nothing |
| YouTube.NoEmbedMarkerInWatchUrl | modules/rss/rss.py:13-15 | a watch URL whose id has no `/` never contains `youtube.com/embed/` |
| YouTube.AfterSchemeOf | modules/rss/rss.py:17 | `urlparse` strips a well-formed scheme and its colon |
| YouTube.NetlocOf | modules/rss/rss.py:17 | the network location runs from after `//` to the first `/`, `?` or `#` |
| YouTube.QueryOf | modules/rss/rss.py:17 | the query is what follows the first `?` when no `#` precedes it |
| YouTube.WatchUrlScheme | modules/rss/rss.py:17 | a watch URL has scheme `https` and continues with `//www.youtube.com/watch?v=` and the id |
| YouTube.WatchUrlNetloc | modules/rss/rss.py:17 | the network location of a watch URL is `www.youtube.com` |
| YouTube.WatchUrlSplits | modules/rss/rss.py:17 | `urlparse` never rejects a watch URL |
| YouTube.WatchUrlQueryString | modules/rss/rss.py:17 | the query of a watch URL whose id has no `#` is `v=` and the id |
| YouTube.WatchUrlQuery | modules/rss/rss.py:17-18 | the `v` read back from a watch URL with a plain id is that id, or none when the id is blank |
| YouTube.WatchUrlIsFixedPoint | modules/rss/rss.py:16-20 | a canonical watch URL with a plain id is returned unchanged |
| YouTube.EmbedCanonicalIdempotent | modules/rss/rss.py:13-20 | canonicalising an embed URL with a plain id twice gives the same as once |
| VideoDiscovery.IsVideoSrc | modules/rss/rss.py:113 | definition: the iframe filter accepts a non-empty `src` containing `youtube.com` or `youtube-nocookie.com` |
| VideoDiscovery.BlockVideo | modules/rss/rss.py:111-113 | definition: the first matching iframe inside the element a selector picks, none when the selector picks nothing |
| VideoDiscovery.FirstBlockVideo | modules/rss/rss.py:110-115 | definition: the selector loop with its early break, stopping at the first container that has a match |
| VideoDiscovery.VideoSrc | modules/rss/rss.py:105-120 | definition: the container search, then the whole-document fallback |
| VideoDiscovery.FirstVideo | modules/rss/rss.py:113 | the `src` of the first iframe passing the YouTube filter; none exactly when no iframe passes |
| VideoDiscovery.FindVideoIframe | modules/rss/rss.py:105-118 | the selector loop with its early break, then the document fallback, yields the chosen `src` |
| VideoDiscovery.FirstBlockVideoAt | modules/rss/rss.py:109-115 | the first selector whose container holds a match decides |
| VideoDiscovery.FirstBlockVideoNone | modules/rss/rss.py:109-115 | no container match exactly when every selector finds nothing |
| VideoDiscovery.FirstBlockVideoMatches | modules/rss/rss.py:113-115 | a container match passes the YouTube filter |
| VideoDiscovery.VideoSrcPrefersContainers | modules/rss/rss.py:105-115 | the chosen `src` is the first match of the first container, in selector order, that has one |
| VideoDiscovery.VideoSrcFallsBack | modules/rss/rss.py:117-118 | the whole document is searched exactly when no container has a match |
| VideoDiscovery.VideoSrcMatches | modules/rss/rss.py:113-120 | whatever is chosen passes the filter; nothing is chosen exactly when no container and no document iframe passes it |
| Thumbnails.PreferredSrc | modules/rss/rss.py:197 | a truthy `data-src` wins, otherwise `src`; the result is truthy exactly when one of them is |
| Thumbnails.IsValidImg | modules/rss/rss.py:182-183 | definition: `is_valid_img` accepts a truthy URL starting with `http` that does not contain `spacer.gif` |
| Thumbnails.IsValidImgExamples | modules/rss/rss.py:182-183 | relative, `data:`, empty and spacer images are refused, and text that merely starts with `http` is accepted |
| Thumbnails.AnnImage | modules/rss/rss.py:180-216 | `get_ann_image` returns only images `is_valid_img` accepts, and nothing when the fetch failed |
| Thumbnails.FirstValid | modules/rss/rss.py:192-211 | the first valid candidate of a priority list: the result is a candidate, every earlier candidate is invalid, and none is found exactly when no candidate is valid |
| Thumbnails.AnnImageIsFirstValid | modules/rss/rss.py:192-211 | the chain is figure image, then `og:image`, then first `<img>`, each taken only when valid |
| Thumbnails.OnlyFirstImgExamined | modules/rss/rss.py:206-211 | a page whose first `<img>` is a spacer yields nothing even when its second `<img>` is valid |
| Thumbnails.DataSrcPreferred | modules/rss/rss.py:197 | a non-empty `data-src` is used; an empty one falls through to `src` |
| Feeds.EntryId | modules/rss/rss.py:50 | the ledger key is `id`, falling back to `link`; it is absent exactly when the entry has neither |
| Feeds.Latest | modules/rss/rss.py:45-49 | the entry considered is one of the feed's entries, the first; there is one exactly when the feed was read and has entries |
| Feeds.LatestIgnoresOlder | modules/rss/rss.py:49 | entries after the first never change which entry is considered |
| Feeds.LinkOf | modules/rss/rss.py:223 | definition: `entry.link`, or the empty string when the entry has none |
| Feeds.GuidOrLink | modules/rss/rss.py:232 | definition: `entry.get('guid', link)`, the page searched for an Anime News Network image |
| Format.Truncate | modules/rss/rss.py:240-241 | at most 303 characters; unchanged up to 300; otherwise the first 300 and `...` |
| Format.EntryTitle | modules/rss/rss.py:221 | definition: `entry.title`, or `No Title` when the entry has none |
| Format.VideoCaption | modules/rss/rss.py:152 | definition: the title in bold quote tags, or `Premiered Video` when the entry has none |
| Format.TruncateIdempotent | modules/rss/rss.py:240-241 | truncating twice is truncating once |
| Format.CleanSummary | modules/rss/rss.py:236-241 | an empty summary stays empty; a cleaned summary is at most 303 characters and does not start with whitespace |
| Format.Message | modules/rss/rss.py:244-247 | the caption starts with the title block, ends with the link block, and has nothing between them exactly when the summary is empty |
| Format.RecoverSummaryOfMessage | modules/rss/rss.py:244-247 | the summary can be read back whole from the caption |
| Format.FeedThumbnail | modules/rss/rss.py:226-228 | KeyError exactly when the list is non-empty and its first item lacks `url`; otherwise that url, or none |
| Format.Thumbnail | modules/rss/rss.py:226-233 | raises exactly when the feed thumbnail does; otherwise gives the feed's thumbnail or the page image found at the guid |
| Format.ThumbnailPriority | modules/rss/rss.py:226-233 | a truthy feed thumbnail wins; the page is consulted only for an Anime News Network link without one, and then its image is the thumbnail |
| Format.FormatEntry | modules/rss/rss.py:218-253 | the error triple exactly when the thumbnail raised; otherwise the caption of title (default `No Title`), cleaned summary and link, with the chosen thumbnail |
| Format.SummaryBlockShown | modules/rss/rss.py:236-247 | the summary block of a post holds exactly the cleaned summary, so a blank summary leaves it out |
| Format.LegacyMessage | module/rss/rss.py:138-142 | the older caption always has the summary block, right after the title block |
| Format.RecoverLegacySummaryOfMessage | module/rss/rss.py:138-142 | the older caption carries the raw summary verbatim |
| Format.LegacyFeedThumbnail | module/rss/rss.py:132 | raises exactly when `media_thumbnail` is present and empty or its first item lacks `url` |
| Format.LegacyFeedThumbnailAgrees | module/rss/rss.py:132 | the two versions agree on the feed thumbnail except for an empty list, where only the older one raises (IndexError) |
| Format.LegacyFormatEntry | module/rss/rss.py:128-143 | raises exactly when the feed thumbnail does; otherwise the older caption with the raw summary and link |
| Format.LegacyThumbnailPriority | module/rss/rss.py:132-136 | in the older version too, a truthy feed thumbnail wins, a non-Anime News Network link keeps the feed thumbnail, and an Anime News Network link without one takes the page image |
| Channels.ChannelInput | bot.py:90 | the argument is the words after the command joined by single spaces: its words are exactly those words and it has no whitespace at either end |
| Channels.NormalizeChannel | bot.py:92-97 | a `-100…` input is stored as `int()` of it, or raises ValueError; any other input is stored with `@` prefixed exactly when it lacks one |
| Channels.Display | bot.py:92-97 | definition: the text of the reply, `str()` of an integer channel or the handle itself |
| Channels.NormalizeHandleIdempotent | bot.py:95-97 | normalising a stored handle again gives the same handle |
| Channels.NormalizeIntDisplay | bot.py:92-94 | the displayed integer channel normalises back to the same integer |
| Channels.ResolveChannel | modules/rss/rss.py:34-38 | stored integers are kept; a stored string becomes the integer `int()` gives when it accepts the string, and is kept as it is otherwise |
| Channels.ParseIntRejectsHandle | modules/rss/rss.py:35-38 | `int()` rejects any `@` handle |
| Channels.ResolveNormalized | modules/rss/rss.py:34-38 | the dispatchers send to exactly the value `/news` stored |
| Channels.ConfiguredChannel | modules/rss/rss.py:29-30 | there is a channel exactly when the config document exists and has `news_channel`, and it is that field's value |
| Channels.ConfiguredChannelReadsOnlyChannel | modules/rss/rss.py:29-34 | changing any other field of the config document does not change the channel read |
| Channels.SetChannel | bot.py:99-103 | the upsert creates the document if needed, sets `news_channel` and keeps every other field |
| Channels.SetChannelLastWins | bot.py:99-103 | two `/news` upserts leave the config as the second alone would, and the channel read back is the second |
| World.AppendFreshId | modules/rss/rss.py:57-80 | recording an id the ledger lacks keeps ids unique and adds exactly that id |
| World.SentIdsGrow | modules/rss/rss.py:76-80 | a ledger that only grew keeps every id it held |
| World.Runtime.Send | modules/rss/rss.py:62-73 | a chat call is logged, and the result says whether the service accepted it |
| World.Runtime.Insert | modules/rss/rss.py:76-80 | `insert_one` appends the record and changes nothing else |
| World.Runtime.Remove | modules/rss/rss.py:165 | `os.remove` deletes the path and changes nothing else |
| World.Runtime.Land | modules/rss/rss.py:148-149 | a download puts its file on disk and changes nothing else |
| World.Runtime.Configure | bot.py:99-103 | the config document is replaced and nothing else changes |
| Dispatch.PrimaryCall | modules/rss/rss.py:62-73 | the post goes to the channel and is never a video; it is a photo exactly when the thumbnail is truthy, with that thumbnail and the caption, and otherwise a text message of the caption without preview |
| Dispatch.DownloadStep | modules/rss/rss.py:135-167 | only the video can be posted, the ledger is untouched, and a downloaded file is gone afterwards |
| Dispatch.DownloadPostsOnlyExisting | modules/rss/rss.py:147-165 | a failed download changes nothing; a video is posted exactly when a non-empty path was reported and the file exists; that path is gone afterwards |
| Dispatch.VideoStep | modules/rss/rss.py:95-133 | the video step leaves ledger and config alone, adds no files and posts at most one video |
| Dispatch.NoPlayerNoVideo | modules/rss/rss.py:97-120 | a page that cannot be fetched, or has no YouTube iframe, leaves the state unchanged |
| Dispatch.SourceStep | modules/rss/rss.py:41-90 | one source adds at most one record, keeps older records and calls, and leaves no files behind |
| Dispatch.SourceStepRecords | modules/rss/rss.py:57-80 | with every post accepted, one source keeps the ids already sent and adds its newest entry's id |
| Dispatch.Sources | modules/rss/rss.py:40-90 | the loop over sources only appends to ledger and call log and never adds files |
| Dispatch.Cycle | modules/rss/rss.py:26-93 | a cycle only appends to ledger and call log, keeps the config and never adds files |
| Dispatch.Cycles | modules/rss/rss.py:169-178 | any number of cycles only append to ledger and call log, keep the config and never add files |
| Dispatch.DownloadAndSendVideo | modules/rss/rss.py:135-167 | the download step, with its existence check and `finally` cleanup, ends in the state `DownloadStep` gives |
| Dispatch.ProcessVideoContent | modules/rss/rss.py:95-133 | the page search and download end in the state `VideoStep` gives |
| Dispatch.ProcessSource | modules/rss/rss.py:41-90 | one pass of the source loop ends in the state `SourceStep` gives |
| Dispatch.FetchAndSendNews | modules/rss/rss.py:26-93 | the config check and source loop end in the state `Cycle` gives |
| Dispatch.NewsFeedLoop | modules/rss/rss.py:169-178 | the loop runs `Cycles`, and every cycle is followed by a 300-second sleep |
| Dispatch.NoChannelNothingHappens | modules/rss/rss.py:29-32 | with no channel configured, no number of cycles changes anything |
| Dispatch.KnownEntrySkipped | modules/rss/rss.py:45-57 | an empty or unreadable feed, or a newest entry already recorded, changes nothing |
| Dispatch.RecordOnlyAfterAcceptedPost | modules/rss/rss.py:57-80 | a new record is for the newest entry, whose id was absent, and follows its accepted post |
| Dispatch.AcceptedPostIsRecorded | modules/rss/rss.py:76-84 | an accepted post is recorded, and the video step never removes the record |
| Dispatch.RejectedPostsRecordNothing | modules/rss/rss.py:60-87 | if every post is rejected, nothing is recorded |
| Dispatch.SourceStepKeepsIdsUnique | modules/rss/rss.py:57-80 | one source never records an id twice |
| Dispatch.SourcesKeepIdsUnique | modules/rss/rss.py:40-90 | the loop over sources never records an id twice |
| Dispatch.CyclesKeepIdsUnique | modules/rss/rss.py:169-178 | no number of cycles records an id twice |
| Dispatch.SourcesAppend | modules/rss/rss.py:40 | running sources `a + b` is running `a`, then `b` |
| Dispatch.UnreadableSourceSkipped | modules/rss/rss.py:41-90 | an unreadable or empty source acts as if it were not listed; later sources still run |
| Dispatch.SourcesRecordAll | modules/rss/rss.py:57-80 | when every post is accepted, each source's newest entry ends up in the ledger |
| Dispatch.SourcesQuiet | modules/rss/rss.py:45-57 | when every newest entry is already recorded, the sources change nothing |
| Dispatch.SecondCycleQuiet | modules/rss/rss.py:26-93 | after a cycle whose posts were all accepted, a cycle over the same feeds changes nothing |
| LegacyDispatch.LegacyVideoStep | module/rss/rss.py:50-91 | the older video step keeps the ledger, never removes files and posts at most one video |
| LegacyDispatch.LegacyNoPlayerNoVideo | module/rss/rss.py:50-91 | in the older version too, a page that cannot be fetched, or has no YouTube iframe, leaves the state unchanged |
| LegacyDispatch.LegacySourceStep | module/rss/rss.py:31-93 | one source adds at most one record, and an exception leaves the state as it was |
| LegacyDispatch.LegacySources | module/rss/rss.py:31-93 | the older loop over sources only appends to ledger and call log |
| LegacyDispatch.LegacyCycle | module/rss/rss.py:20-93 | an older cycle only appends to ledger and call log and keeps the config |
| LegacyDispatch.LegacyCycles | module/rss/rss.py:95-98 | older cycles only append to ledger and call log and keep the config |
| LegacyDispatch.LegacySourcesStopped | module/rss/rss.py:31-32 | once a source raised, the sources after it are never reached |
| LegacyDispatch.LegacyUnreadableFeedStopsCycle | module/rss/rss.py:31-33 | an unreadable feed ends the cycle with an exception; later sources are skipped |
| LegacyDispatch.LegacyNoChannelNothingHappens | module/rss/rss.py:21-23 | with no channel configured, nothing is fetched and nothing raises |
| LegacyDispatch.LegacyRecordOnlyAfterAcceptedPost | module/rss/rss.py:39-47 | a new record is for the newest entry, whose id was absent, after its formatted post was accepted |
| LegacyDispatch.LegacySourceStepKeepsIdsUnique | module/rss/rss.py:39-47 | one older source never records an id twice |
| LegacyDispatch.LegacySourcesKeepIdsUnique | module/rss/rss.py:31-47 | the older loop never records an id twice |
| LegacyDispatch.LegacyRejectedPostsRecordNothing | module/rss/rss.py:41-93 | if every post is rejected, nothing is recorded |
| LegacyDispatch.LegacyVideoFileLeaks | module/rss/rss.py:75-89 | the downloaded path is posted whether or not the file exists, and a file that landed stays on disk |
| LegacyDispatch.LegacyFetchAndSendNews | module/rss/rss.py:20-93 | the older config check and source loop end in the state `LegacyCycle` gives, raising when it does |
| LegacyDispatch.LegacyProcessSource | module/rss/rss.py:31-93 | one pass of the older loop ends in the state `LegacySourceStep` gives |
| LegacyDispatch.LegacyInlineVideo | module/rss/rss.py:50-91 | the inline video part ends in the state `LegacyVideoStep` gives |
| LegacyDispatch.LegacyNewsFeedLoop | module/rss/rss.py:95-98 | the loop runs `LegacyCycles` and sleeps 10 seconds after each completed cycle; when it stops, the cycles before the last one did not raise and the last one did |
| LegacyDispatch.LegacyCyclesStopped | module/rss/rss.py:95-98 | once a cycle raised, later cycles never run |
| Commands.ConnectNewsStep | bot.py:79-104 | `/news` leaves ledger and files alone and changes the config only for an admin, to the normalised channel |
| Commands.ConnectNewsRefuses | bot.py:83-88 | a non-admin, or a command without argument, gets the denial or the prompt and the config is unchanged |
| Commands.ConnectNewsTargetsCycles | bot.py:90-104 | after a successful `/news`, the config holds the normalised channel, the dispatchers send there, and the reply shows it |
| Commands.ConnectNews | bot.py:79-104 | the handler ends in the state `ConnectNewsStep` gives |
| Commands.Position | bot.py:119-126 | a position exactly when `int()` accepts the argument with a value of at least 1, and it is that value minus 1 |
| Commands.PositionOfNumber | bot.py:119-126 | a typed number `n` selects index `n - 1`; anything below 1 is refused |
| Commands.SendNewsUsage | bot.py:114-117 | an admin's `/sendnews` with fewer than two arguments gets only the usage reply |
| Commands.ManualTemplate | bot.py:189 | definition: the download path is named after the position |
| Commands.ManualTemplateDistinct | bot.py:189 | different positions download to different paths |
| Commands.ManualDownloadStep | bot.py:187-206 | the manual download posts at most one video, keeps the ledger, and leaves no file behind |
| Commands.ManualVideoStep | bot.py:162-208 | the manual video part keeps ledger and config and never adds files |
| Commands.AcknowledgeStep | bot.py:209-211 | the first call is the success reply in the command's chat; ledger, config and files are untouched |
| Commands.PostEntry | bot.py:148-211 | the first call is the post of the chosen entry; ledger and config are untouched |
| Commands.DeliverStep | bot.py:128-146 | after the arguments are read, the command keeps ledger and config and never adds files |
| Commands.SendNewsStep | bot.py:106-211 | `/sendnews` never changes ledger or config and never adds files |
| Commands.SendNewsSelectsEntry | bot.py:140-146 | position `p` posts `entries[p]` to the configured channel as the first call |
| Commands.SendNewsOutOfRange | bot.py:141-143 | a position past the end, or an empty feed, gets "No news found" and nothing else |
| Commands.SendNewsBadPosition | bot.py:119-126 | an argument that is not an integer of at least 1 is refused before anything is read |
| Commands.ManualVideoIgnoresLedger | bot.py:162-208 | the video part neither depends on the ledger nor changes it |
| Commands.PostEntryIgnoresLedger | bot.py:146-211 | the posting part neither depends on the ledger nor changes it |
| Commands.DeliverIgnoresLedger | bot.py:128-211 | delivery neither depends on the ledger nor changes it |
| Commands.SendNewsIgnoresLedger | bot.py:106-211 | `/sendnews` bypasses deduplication: it neither depends on the ledger nor changes it |
| Commands.ManualDownload | bot.py:194-206 | the download with its `finally` cleanup ends in the state `ManualDownloadStep` gives |
| Commands.ManualVideo | bot.py:162-208 | the page search and download end in the state `ManualVideoStep` gives |
| Commands.Acknowledge | bot.py:209-211 | the closing reply ends in the state `AcknowledgeStep` gives |
| Commands.Post | bot.py:148-211 | posting ends in the state `PostEntry` gives |
| Commands.Deliver | bot.py:128-146 | the config and feed checks end in the state `DeliverStep` gives |
| Commands.SendNews | bot.py:106-211 | the handler ends in the state `SendNewsStep` gives |

## Left out

- Network, parsing and downloads are outside answers (`Env`), not modelled behaviour: `feedparser.parse`, aiohttp fetches, BeautifulSoup parsing and CSS selectors, `get_text`, and `yt_dlp` with its format selection and cookie file.
- A page is only what the bot reads from it (`Html.Page`). `select_one` is given as the iframes inside the first matching element.
- `parse_qs` is modelled on `&`-separated raw pairs. Percent and `+` decoding, the `;` separator and field limits are not modelled.
- Of `urlsplit`'s checks, only the unbalanced-bracket ValueError is modelled. The stripping of control characters, tabs and newlines, and the validation of bracketed hosts, are not.
- Strings.SplitMax: its contract states only the shape of the pieces. Which pieces they are is stated by `Strings.SplitMaxWords` and `Strings.SplitMaxLength`.
- Strings.Words: its contract states only that every piece is a word. That the words are all of `s`, in order, is stated by `Strings.WordsSpell`.
- `int()` is modelled for ASCII digits only. Python also accepts other Unicode decimal digits.
- Numbers.ParseInt: its contract states only when `int()` can succeed and when the result can be negative. Its value on whitespace, sign and digits is stated by `Numbers.ParseIntOfDigits`, and `int(str(n)) == n` by `Numbers.ParseIntToString`.
- Thumbnails.AnnImage: its contract states only that a returned image is valid. The fallback order is stated by `Thumbnails.AnnImageIsFirstValid`.
- Format.Thumbnail: its contract states only where the thumbnail can come from. The priority of the feed thumbnail over the page image is stated by `Format.ThumbnailPriority`.
- Format.LegacyFormatEntry: its contract states only where the thumbnail can come from. Which of the two it is, is stated by `Format.LegacyThumbnailPriority`.
- Format.CleanSummary: `get_text` is a parameter, so the contract says nothing about which markup is removed.
- A chat call's outcome depends only on the call. The same call cannot succeed once and fail later within one cycle.
- The text of a rejected call's exception is a parameter (`Env.describe`).
- Failures of `os.remove` are caught and printed by the source. The model takes removal to succeed.
- Only the path that `prepare_filename` reports is tracked. A merged output written under another name is not.
- `print` logging is not modelled.
- feedparser fills an entry's `id` from the feed's `guid` element. The model keeps `guid` and `id` as independent fields of `Entry`, so it also admits entries whose two fields differ.
- The `hasattr(db, 'sent_news')` collection set-up has no observable effect and is not modelled.
- `news_feed_loop` runs forever. The model runs one cycle per given `Env`, and sleeps are returned as numbers.
- Concurrency is not modelled: asyncio tasks and threads, `to_thread`, and two processes racing between the ledger check and the insert.
- The `/start` handler, `send_message_to_user`, `escape_markdown_v2`, the unused `sent_news_entries` set and the webhook health endpoint in webhook.py are not modelled. They hold no pipeline logic.
- Replies of the admin commands are logged as calls. A reply that is rejected ends the handler in the source as well, so nothing further is modelled for it.
