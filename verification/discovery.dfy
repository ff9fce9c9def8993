/** Discovery of recent uploads, `fetch_new_videos` in collector.py: for
    every active channel, the newest page of its uploads playlist is listed
    and each video not yet stored is fetched, filtered by duration, resolved
    and inserted as a pending row, one commit per video. */
module Discovery {
  import opened Wrappers
  import opened Records
  import opened Catalog
  import opened Resolver

  /** `maxResults=10`: discovery looks at the newest page only. */
  const RecentPageSize: nat := 10

  /** The ids of the newest page of a channel's uploads; `None` when the
      listing call raises or one of its items has no video id. */
  function RecentIds(list: ListUploads, channel: Channel): Option<seq<VideoId>> {
    match list(channel.uploadsPlaylistId, None, RecentPageSize)
    case None => None
    case Some(page) => PageIds(page.items)
  }

  /** The snippet discovery reads, `video.get('snippet', {})`. */
  function DetailSnippet(response: DetailResponse): Snippet
    requires AcceptedShort(response)
  {
    response.items[0].snippet.GetOr(EmptySnippet)
  }

  /** What a discovered row holds: it is pending with no analysis yet, it
      belongs to the channel being scanned, its video passed the duration
      filter, and it carries the resolved text, the snippet's title (or the
      untitled placeholder) and its publish time. */
  predicate DiscoveredRow(row: VideoRecord, id: VideoId, channel: Channel,
                          fetch: FetchDetails, listThreads: ListThreads)
  {
    && AcceptedShort(fetch(id))
    && var snippet := DetailSnippet(fetch(id));
       && row.status == Pending && row.aiTitle.None? && row.aiIngredients.None?
       && row.channelId == channel.channelId
       && row.description == Resolve(id, snippet, channel.recipeSource, listThreads).text
       && row.title == snippet.title.GetOr(UntitledVideo)
       && row.publishedAt == snippet.publishedAt
  }

  /** The store after a scan, and the ids whose details were requested. */
  datatype Progress = Progress(store: Store, fetched: seq<VideoId>)

  /** The per-video loop of one channel, with the resolver called as its
      three-parameter definition requires. */
  function DiscoverIds(store: Store, channel: Channel, ids: seq<VideoId>,
                       fetch: FetchDetails, listThreads: ListThreads): (r: Progress)
    // Rows already stored are kept as they are; nothing is ever removed.
    ensures Extends(store, r.store)
    // A video already stored is skipped before its details are requested.
    ensures forall id :: id in r.fetched ==> id in ids && id !in store
    // Every new row comes from this page and passed the filters.
    ensures forall id :: id in Inserted(store, r.store) ==>
              id in ids && DiscoveredRow(r.store[id], id, channel, fetch, listThreads)
    decreases |ids|
  {
    if ids == [] then Progress(store, [])
    else
      var id := ids[0];
      if id in store then DiscoverIds(store, channel, ids[1..], fetch, listThreads)
      else
        var response := fetch(id);
        var after :=
          if AcceptedShort(response) then
            var snippet := DetailSnippet(response);
            var text := Resolve(id, snippet, channel.recipeSource, listThreads).text;
            store[id := PendingRow(channel.channelId, snippet.title.GetOr(UntitledVideo), text, snippet.publishedAt)]
          else store;
        var rest := DiscoverIds(after, channel, ids[1..], fetch, listThreads);
        assert forall x :: x in ids[1..] ==> x in ids;
        assert AcceptedShort(response) ==> DiscoveredRow(after[id], id, channel, fetch, listThreads);
        Progress(rest.store, [id] + rest.fetched)
  }

  /** Every listed id that is not stored is fetched, and every one whose
      details name a short is stored afterwards. */
  lemma {:induction false} DiscoverIdsCompletes(store: Store, channel: Channel, ids: seq<VideoId>,
                                                fetch: FetchDetails, listThreads: ListThreads)
    ensures var r := DiscoverIds(store, channel, ids, fetch, listThreads);
            && (forall id :: id in ids && id !in store ==> id in r.fetched)
            && (forall id :: id in ids && id !in store && AcceptedShort(fetch(id)) ==> id in r.store)
    decreases |ids|
  {
    if ids != [] {
      var id := ids[0];
      var r := DiscoverIds(store, channel, ids, fetch, listThreads);
      assert forall x :: x in ids && x != id ==> x in ids[1..];
      if id in store {
        DiscoverIdsCompletes(store, channel, ids[1..], fetch, listThreads);
      } else {
        var response := fetch(id);
        var after :=
          if AcceptedShort(response) then
            var snippet := DetailSnippet(response);
            var text := Resolve(id, snippet, channel.recipeSource, listThreads).text;
            store[id := PendingRow(channel.channelId, snippet.title.GetOr(UntitledVideo), text, snippet.publishedAt)]
          else store;
        var rest := DiscoverIds(after, channel, ids[1..], fetch, listThreads);
        assert r == Progress(rest.store, [id] + rest.fetched);
        DiscoverIdsCompletes(after, channel, ids[1..], fetch, listThreads);
        assert after.Keys <= store.Keys + {id};
      }
    }
  }

  /** The per-video loop as collector.py writes it: the resolver is called
      with two arguments while it takes three, which raises a `TypeError`
      that the per-video handler catches and rolls back. No row is ever
      added. */
  function DiscoverIdsAsWritten(store: Store, channel: Channel, ids: seq<VideoId>,
                                fetch: FetchDetails): (r: Progress)
    ensures r.store == store
    ensures forall id :: id in r.fetched ==> id in ids && id !in store
    decreases |ids|
  {
    if ids == [] then Progress(store, [])
    else
      var id := ids[0];
      if id in store then DiscoverIdsAsWritten(store, channel, ids[1..], fetch)
      else
        // For an accepted short the call with a missing argument raises
        // before a row is built; every other outcome skips the video too.
        var rest := DiscoverIdsAsWritten(store, channel, ids[1..], fetch);
        Progress(rest.store, [id] + rest.fetched)
  }

  /** One short video, one channel that reads descriptions: the corrected
      loop stores it, the loop as written does not. */
  lemma AsWrittenDropsShortVideo()
    ensures var channel := Channel("UCx", "x", "UUx", true, DescriptionSource);
            var snippet := Snippet(Some("title"), Some("재료: 양파"), Some("2024-01-01T00:00:00Z"), None);
            var fetch: FetchDetails := (id: VideoId) => Details([VideoDetail(Some(snippet), Some(60))]);
            var listThreads: ListThreads := (id: VideoId) => ThreadCallFailed;
            && "v" !in DiscoverIdsAsWritten(map[], channel, ["v"], fetch).store
            && "v" in DiscoverIds(map[], channel, ["v"], fetch, listThreads).store
            && DiscoverIds(map[], channel, ["v"], fetch, listThreads).store["v"].description == "재료: 양파"
  {
    var channel := Channel("UCx", "x", "UUx", true, DescriptionSource);
    var snippet := Snippet(Some("title"), Some("재료: 양파"), Some("2024-01-01T00:00:00Z"), None);
    var fetch: FetchDetails := (id: VideoId) => Details([VideoDetail(Some(snippet), Some(60))]);
    var listThreads: ListThreads := (id: VideoId) => ThreadCallFailed;
    assert AcceptedShort(fetch("v"));
    var row := DiscoverIds(map[], channel, ["v"], fetch, listThreads).store["v"];
    assert row.description == Resolve("v", snippet, DescriptionSource, listThreads).text;
  }

  /** The outcome of a run: the committed store, the detail requests, and
      whether an exception outside the per-video handler ended the run. */
  datatype RunResult = RunResult(store: Store, fetched: seq<VideoId>, aborted: bool)

  /** Every row `after` holds beyond `store` is a discovered row of one of
      the channels. */
  predicate RowsFrom(store: Store, after: Store, channels: seq<Channel>, fetch: FetchDetails, listThreads: ListThreads) {
    forall id :: id in Inserted(store, after) ==>
      exists c :: c in channels && DiscoveredRow(after[id], id, c, fetch, listThreads)
  }

  /** Every short listed on a channel's newest page that `store` lacked is
      held by `after`. */
  predicate ShortsStored(store: Store, after: Store, channels: seq<Channel>, list: ListUploads, fetch: FetchDetails) {
    forall c, id ::
      (c in channels && RecentIds(list, c).Some? && id in RecentIds(list, c).value
       && id !in store && AcceptedShort(fetch(id))) ==> id in after
  }

  /** The channel loop: a failing listing call, or a listed item without a
      video id, raises into the run's outer handler and ends the run; the
      rows committed before stay. */
  function DiscoverChannels(store: Store, channels: seq<Channel>, list: ListUploads,
                            fetch: FetchDetails, listThreads: ListThreads): (r: RunResult)
    ensures Extends(store, r.store)
    ensures forall id :: id in r.fetched ==> id !in store
    ensures RowsFrom(store, r.store, channels, fetch, listThreads)
    // The run ends early exactly when some channel's listing raises.
    ensures r.aborted <==> exists c :: c in channels && RecentIds(list, c).None?
    decreases |channels|
  {
    if channels == [] then RunResult(store, [], false)
    else
      match RecentIds(list, channels[0])
      case None => RunResult(store, [], true)
      case Some(ids) =>
        var here := DiscoverIds(store, channels[0], ids, fetch, listThreads);
        var rest := DiscoverChannels(here.store, channels[1..], list, fetch, listThreads);
        RowsStep(store, here.store, rest.store, channels, fetch, listThreads);
        AbortStep(channels, list);
        RunResult(rest.store, here.fetched + rest.fetched, rest.aborted)
  }

  /** The inductive step of the channel loop's row statement. */
  lemma RowsStep(store: Store, mid: Store, final: Store, channels: seq<Channel>,
                 fetch: FetchDetails, listThreads: ListThreads)
    requires channels != [] && Extends(store, mid) && Extends(mid, final)
    requires forall id :: id in Inserted(store, mid) ==> DiscoveredRow(mid[id], id, channels[0], fetch, listThreads)
    requires RowsFrom(mid, final, channels[1..], fetch, listThreads)
    ensures RowsFrom(store, final, channels, fetch, listThreads)
  {
    forall id | id in Inserted(store, final)
      ensures exists c :: c in channels && DiscoveredRow(final[id], id, c, fetch, listThreads)
    {
      if id in mid {
        assert channels[0] in channels;
      } else {
        var c :| c in channels[1..] && DiscoveredRow(final[id], id, c, fetch, listThreads);
        assert c in channels;
      }
    }
  }

  /** The inductive step of the channel loop's abort statement. */
  lemma AbortStep(channels: seq<Channel>, list: ListUploads)
    requires channels != [] && RecentIds(list, channels[0]).Some?
    ensures (exists c :: c in channels && RecentIds(list, c).None?) <==>
            (exists c :: c in channels[1..] && RecentIds(list, c).None?)
  {
    if c :| c in channels && RecentIds(list, c).None? {
      InTail(channels, c);
    }
    assert forall c :: c in channels[1..] ==> c in channels;
  }

  /** The inductive step of `DiscoverChannelsCompletes`. */
  lemma CompleteStep(store: Store, mid: Store, final: Store, channels: seq<Channel>,
                     list: ListUploads, fetch: FetchDetails)
    requires channels != [] && RecentIds(list, channels[0]).Some?
    requires store.Keys <= mid.Keys <= final.Keys
    requires forall id :: id in RecentIds(list, channels[0]).value && id !in store && AcceptedShort(fetch(id)) ==> id in mid
    requires ShortsStored(mid, final, channels[1..], list, fetch)
    ensures ShortsStored(store, final, channels, list, fetch)
  {
    forall c, id | c in channels && RecentIds(list, c).Some? && id in RecentIds(list, c).value
                   && id !in store && AcceptedShort(fetch(id))
      ensures id in final
    {
      if c != channels[0] && id !in mid {
        InTail(channels, c);
      }
    }
  }

  /** A run that was not cut short stores every listed, unstored short of
      every channel. */
  lemma {:induction false} DiscoverChannelsCompletes(store: Store, channels: seq<Channel>, list: ListUploads,
                                                     fetch: FetchDetails, listThreads: ListThreads)
    ensures var r := DiscoverChannels(store, channels, list, fetch, listThreads);
            !r.aborted ==> ShortsStored(store, r.store, channels, list, fetch)
    decreases |channels|
  {
    var r := DiscoverChannels(store, channels, list, fetch, listThreads);
    if channels != [] && !r.aborted {
      var ids := RecentIds(list, channels[0]).value;
      var here := DiscoverIds(store, channels[0], ids, fetch, listThreads);
      var rest := DiscoverChannels(here.store, channels[1..], list, fetch, listThreads);
      assert r.store == rest.store && r.aborted == rest.aborted;
      DiscoverIdsCompletes(store, channels[0], ids, fetch, listThreads);
      DiscoverChannelsCompletes(here.store, channels[1..], list, fetch, listThreads);
      CompleteStep(store, here.store, rest.store, channels, list, fetch);
    }
  }

  /** The channels after the first one whose listing raises are never
      scanned: the run equals the run over the channels before it, cut
      short. */
  lemma {:induction false} AbortSkipsLaterChannels(store: Store, channels: seq<Channel>, k: nat, list: ListUploads,
                                                   fetch: FetchDetails, listThreads: ListThreads)
    requires k < |channels| && RecentIds(list, channels[k]).None?
    requires forall j :: 0 <= j < k ==> RecentIds(list, channels[j]).Some?
    ensures var r := DiscoverChannels(store, channels, list, fetch, listThreads);
            var before := DiscoverChannels(store, channels[..k], list, fetch, listThreads);
            r.aborted && r.store == before.store && r.fetched == before.fetched
    decreases k
  {
    if k > 0 {
      var ids := RecentIds(list, channels[0]).value;
      var here := DiscoverIds(store, channels[0], ids, fetch, listThreads);
      assert channels[..k][0] == channels[0];
      assert channels[..k][1..] == channels[1..][..k - 1];
      AbortSkipsLaterChannels(here.store, channels[1..], k - 1, list, fetch, listThreads);
    }
  }

  /** `fetch_new_videos`, with the resolver called correctly. */
  function DiscoverRecent(store: Store, table: seq<Channel>, list: ListUploads,
                          fetch: FetchDetails, listThreads: ListThreads): (r: RunResult)
    ensures Extends(store, r.store)
    ensures forall id :: id in r.fetched ==> id !in store
    // Every new row is a pending short of an active channel of the table.
    ensures forall id :: id in Inserted(store, r.store) ==>
              exists c :: c in table && c.isActive && DiscoveredRow(r.store[id], id, c, fetch, listThreads)
  {
    DiscoverChannels(store, ActiveChannels(table), list, fetch, listThreads)
  }

  /** Over the table: the run ends early exactly when an active channel's
      listing raises, and otherwise every listed, unstored short of every
      active channel is stored. */
  lemma DiscoverRecentCompletes(store: Store, table: seq<Channel>, list: ListUploads,
                                fetch: FetchDetails, listThreads: ListThreads)
    ensures var r := DiscoverRecent(store, table, list, fetch, listThreads);
            && (r.aborted <==> exists c :: c in table && c.isActive && RecentIds(list, c).None?)
            && (!r.aborted ==> forall c, id ::
                  (c in table && c.isActive && RecentIds(list, c).Some? && id in RecentIds(list, c).value
                   && id !in store && AcceptedShort(fetch(id))) ==> id in r.store)
  {
    var active := ActiveChannels(table);
    DiscoverChannelsCompletes(store, active, list, fetch, listThreads);
    var r := DiscoverRecent(store, table, list, fetch, listThreads);
    assert r == DiscoverChannels(store, active, list, fetch, listThreads);
    assert forall c :: c in active <==> c in table && c.isActive;
  }
}
