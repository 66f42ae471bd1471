/** What the bot's pipelines act on: the outside world they consult (feeds,
    pages, the downloader, the chat service) and the state they change (the
    `sent_news` ledger, the config document, the chat-call log and the
    scratch files). */
module World {
  import opened Outcomes
  import opened Html
  import opened Feeds
  import opened Channels

  /** A call to the chat service, as the bot issues it. */
  datatype Call =
    | SendPhoto(chat: Value, photo: string, caption: string)
    | SendMessage(chat: Value, text: string, noPreview: bool)
    | SendVideo(chat: Value, video: string, caption: string)

  /** A `sent_news` document. */
  datatype Record = Record(entryId: Option<string>, title: string, link: string)

  /** The outcome of `yt_dlp` on a URL: an exception, or the path
      `prepare_filename` reports and whether a file landed at that path. */
  datatype Download = DownloadFailed | Downloaded(path: string, onDisk: bool)

  /** The world as one polling cycle (or one command) sees it. Each function
      stands for a call whose result the bot cannot predict. */
  datatype Env = Env(
    /** `feedparser.parse(url)`. */
    feed: string -> Feed,
    /** An aiohttp GET of a page, parsed by BeautifulSoup; None when it raised. */
    fetch: string -> Option<Page>,
    /** BeautifulSoup's `get_text()` on an HTML fragment. */
    getText: string -> string,
    /** `yt_dlp` run on a URL with an output-name template. */
    download: (string, string) -> Download,
    /** Whether the chat service accepts a call (false: the call raised). */
    accepts: Call -> bool,
    /** The text of the exception a rejected call raised. */
    describe: Call -> string)

  /** The state the pipelines change, as a value. */
  datatype Snapshot = Snapshot(
    ledger: seq<Record>,
    settings: Option<map<string, Value>>,
    calls: seq<Call>,
    files: set<string>)

  /** The entry ids the ledger holds (`find_one({"entry_id": id})` finds a
      document exactly for these). */
  function SentIds(ledger: seq<Record>): set<Option<string>> {
    set k | 0 <= k < |ledger| :: ledger[k].entryId
  }

  /** No entry id is recorded twice. */
  predicate NoDuplicateIds(ledger: seq<Record>) {
    forall i, j :: 0 <= i < j < |ledger| ==> ledger[i].entryId != ledger[j].entryId
  }

  /** Recording a record whose id the ledger lacks keeps ids unique. */
  lemma AppendFreshId(ledger: seq<Record>, r: Record)
    requires NoDuplicateIds(ledger) && r.entryId !in SentIds(ledger)
    ensures NoDuplicateIds(ledger + [r])
    ensures SentIds(ledger + [r]) == SentIds(ledger) + {r.entryId}
  {
    var l := ledger + [r];
    forall i | 0 <= i < |ledger|
      ensures l[i].entryId != r.entryId
    {
      assert ledger[i].entryId in SentIds(ledger);
    }
    forall x | x in SentIds(ledger) ensures x in SentIds(l) {
      var k :| 0 <= k < |ledger| && ledger[k].entryId == x;
      assert l[k] == ledger[k];
    }
    assert l[|ledger|] == r;
  }

  /** A ledger that only grew still holds every id it held. */
  lemma SentIdsGrow(ledger: seq<Record>, more: seq<Record>)
    ensures SentIds(ledger) <= SentIds(ledger + more)
  {
    forall x | x in SentIds(ledger) ensures x in SentIds(ledger + more) {
      var k :| 0 <= k < |ledger| && ledger[k].entryId == x;
      assert (ledger + more)[k] == ledger[k];
    }
  }

  /** The MongoDB collections, the Telegram client's record of calls, and
      the scratch files of the host. */
  class Runtime {
    var ledger: seq<Record>
    var settings: Option<map<string, Value>>
    var calls: seq<Call>
    var files: set<string>

    constructor (settings: Option<map<string, Value>>)
      ensures State() == Snapshot([], settings, [], {})
    {
      this.ledger := [];
      this.settings := settings;
      this.calls := [];
      this.files := {};
    }

    function State(): Snapshot
      reads this
    {
      Snapshot(ledger, settings, calls, files)
    }

    /** Issues a chat call; the service decides whether it goes through. */
    method Send(env: Env, call: Call) returns (ok: bool)
      modifies this
      ensures State() == old(State()).(calls := old(calls) + [call])
      ensures ok == env.accepts(call)
    {
      calls := calls + [call];
      ok := env.accepts(call);
    }

    /** `sent_news.insert_one(record)`. */
    method Insert(r: Record)
      modifies this
      ensures State() == old(State()).(ledger := old(ledger) + [r])
    {
      ledger := ledger + [r];
    }

    /** `os.remove(path)`. */
    method Remove(path: string)
      modifies this
      ensures State() == old(State()).(files := old(files) - {path})
    {
      files := files - {path};
    }

    /** A download writing its file. */
    method Land(path: string)
      modifies this
      ensures State() == old(State()).(files := old(files) + {path})
    {
      files := files + {path};
    }

    /** `global_settings.update_one(..., upsert=True)`. */
    method Configure(s: Option<map<string, Value>>)
      modifies this
      ensures State() == old(State()).(settings := s)
    {
      settings := s;
    }
  }
}
