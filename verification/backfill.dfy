/** The full backfill, `backfill_all_shorts` in backfill_videos.py: every
    page of every active channel's uploads playlist is walked; the short
    videos of a page that are not stored yet are collected into a batch, and
    the batch is committed once per page. */
module Backfill {
  import opened Wrappers
  import opened Text
  import opened Records
  import opened Catalog
  import opened Resolver

  /** `maxResults=50`. */
  const BackfillPageSize: nat := 50

  /** The pages a walk processed (their video ids), the page tokens it
      requested, in order, and whether a listing exception ended it. */
  datatype Walk = Walk(pages: seq<seq<VideoId>>, requests: seq<Option<string>>, aborted: bool)

  /** The listing's answer to one page request of the walk. */
  function Listed(list: ListUploads, playlist: PlaylistId, token: Option<string>): Option<Page> {
    list(playlist, token, BackfillPageSize)
  }

  /** The request for `token` was answered with a page whose ids are `ids`,
      and there was at least one. */
  predicate ProcessedPage(list: ListUploads, playlist: PlaylistId, token: Option<string>, ids: seq<VideoId>) {
    && Listed(list, playlist, token).Some?
    && PageIds(Listed(list, playlist, token).value.items) == Some(ids)
    && ids != []
  }

  /** The request for `token` was answered with a page whose next-page token
      is `next`, and it was non-empty. */
  predicate Chained(list: ListUploads, playlist: PlaylistId, token: Option<string>, next: Option<string>) {
    Listed(list, playlist, token).Some? && next == Listed(list, playlist, token).value.nextPageToken && NonEmpty(next)
  }

  /** The request for `token` raised, or an item of its page had no id. */
  predicate Raised(list: ListUploads, playlist: PlaylistId, token: Option<string>) {
    Listed(list, playlist, token).None? || PageIds(Listed(list, playlist, token).value.items).None?
  }

  /** The request for `token` was answered with a page that lists no
      video. */
  predicate EmptyPage(list: ListUploads, playlist: PlaylistId, token: Option<string>) {
    Listed(list, playlist, token).Some? && PageIds(Listed(list, playlist, token).value.items) == Some([])
  }

  /** The request for `token` was answered with a page whose next-page
      token is absent or empty. */
  predicate LastPage(list: ListUploads, playlist: PlaylistId, token: Option<string>) {
    Listed(list, playlist, token).Some? && !NonEmpty(Listed(list, playlist, token).value.nextPageToken)
  }

  /** The page loop of one channel, starting from `token`. It stops on a page
      without ids, after a page whose next-page token is absent or empty, or
      when `budget` further pages have been requested; a failing listing call,
      or an item without its video id, raises out of the loop. */
  function WalkPages(list: ListUploads, playlist: PlaylistId, token: Option<string>, budget: nat): (w: Walk)
    ensures |w.requests| >= 1 && w.requests[0] == token
    ensures |w.pages| <= |w.requests| <= |w.pages| + 1 && |w.requests| <= budget + 1
    // Every processed page is the non-empty id list of the listing's answer
    // to the matching request ...
    ensures forall i :: 0 <= i < |w.pages| ==> ProcessedPage(list, playlist, w.requests[i], w.pages[i])
    // ... and each request after the first carries the non-empty next-page
    // token of the answer to the one before.
    ensures forall i :: 1 <= i < |w.requests| ==> Chained(list, playlist, w.requests[i - 1], w.requests[i])
    // The walk aborts exactly when its last request raised.
    ensures w.aborted <==> |w.requests| == |w.pages| + 1 && Raised(list, playlist, w.requests[|w.pages|])
    // Otherwise the walk stops on a page without ids, ...
    ensures !w.aborted && |w.requests| == |w.pages| + 1 ==> EmptyPage(list, playlist, w.requests[|w.pages|])
    // ... or after a processed page that names no next page, or once the
    // budget is spent.
    ensures |w.requests| == |w.pages| ==>
              LastPage(list, playlist, w.requests[|w.pages| - 1]) || |w.requests| == budget + 1
    decreases budget
  {
    match Listed(list, playlist, token)
    case None => Walk([], [token], true)
    case Some(page) =>
      match PageIds(page.items)
      case None => Walk([], [token], true)
      case Some(ids) =>
        if ids == [] then Walk([], [token], false)
        else if !NonEmpty(page.nextPageToken) || budget == 0 then Walk([ids], [token], false)
        else
          var rest := WalkPages(list, playlist, page.nextPageToken, budget - 1);
          ConsWalk(list, playlist, token, ids, rest);
          Walk([ids] + rest.pages, [token] + rest.requests, rest.aborted)
  }

  /** The walk's page and request facts carry over when one processed page
      is put in front of a walk that starts from that page's next token. */
  lemma ConsWalk(list: ListUploads, playlist: PlaylistId, token: Option<string>, ids: seq<VideoId>, rest: Walk)
    requires ProcessedPage(list, playlist, token, ids)
    requires |rest.requests| >= 1 && Chained(list, playlist, token, rest.requests[0])
    requires |rest.pages| <= |rest.requests| <= |rest.pages| + 1
    requires forall i :: 0 <= i < |rest.pages| ==> ProcessedPage(list, playlist, rest.requests[i], rest.pages[i])
    requires forall i :: 1 <= i < |rest.requests| ==> Chained(list, playlist, rest.requests[i - 1], rest.requests[i])
    ensures var w := Walk([ids] + rest.pages, [token] + rest.requests, rest.aborted);
            && (forall i :: 0 <= i < |w.pages| ==> ProcessedPage(list, playlist, w.requests[i], w.pages[i]))
            && (forall i :: 1 <= i < |w.requests| ==> Chained(list, playlist, w.requests[i - 1], w.requests[i]))
            && (|rest.requests| == |rest.pages| + 1 ==> w.requests[|w.pages|] == rest.requests[|rest.pages|])
            && (|rest.requests| == |rest.pages| ==> w.requests[|w.pages| - 1] == rest.requests[|rest.pages| - 1])
  {
    var w := Walk([ids] + rest.pages, [token] + rest.requests, rest.aborted);
    assert forall i :: 1 <= i < |w.requests| ==> w.requests[i] == rest.requests[i - 1];
    assert forall i :: 1 <= i < |w.pages| ==> w.pages[i] == rest.pages[i - 1];
  }

  /** A row queued for the page's commit. */
  datatype Entry = Entry(id: VideoId, row: VideoRecord)

  /** The ids of a batch, in order. */
  function Ids(batch: seq<Entry>): (r: seq<VideoId>)
    ensures |r| == |batch| && forall k :: 0 <= k < |batch| ==> r[k] == batch[k].id
  {
    seq(|batch|, k requires 0 <= k < |batch| => batch[k].id)
  }

  predicate DistinctIds(batch: seq<Entry>) {
    forall i, j :: 0 <= i < j < |batch| ==> batch[i].id != batch[j].id
  }

  /** The batch may be committed: no id twice, none already stored. */
  predicate Fresh(store: Store, batch: seq<Entry>) {
    DistinctIds(batch) && forall k :: 0 <= k < |batch| ==> batch[k].id !in store
  }

  /** The row backfill builds for one video, or `None` when the video is
      skipped: the detail call raised or came back empty, the duration is
      missing or over the limit, or the snippet, its title or its publish
      time is missing (a `KeyError` the per-video handler catches). */
  function BackfillRow(id: VideoId, channel: Channel, response: DetailResponse,
                       listThreads: ListThreads): (r: Option<VideoRecord>)
    ensures r.Some? <==>
              && AcceptedShort(response)
              && response.items[0].snippet.Some?
              && response.items[0].snippet.value.title.Some?
              && response.items[0].snippet.value.publishedAt.Some?
    // A built row awaits analysis, belongs to the channel and carries the
    // resolved text with the snippet's own title and publish time.
    ensures r.Some? ==>
              var snippet := response.items[0].snippet.value;
              && r.value.status == Pending && r.value.aiTitle.None? && r.value.aiIngredients.None?
              && r.value.channelId == channel.channelId
              && r.value.description == Resolve(id, snippet, channel.recipeSource, listThreads).text
              && Some(r.value.title) == snippet.title
              && r.value.publishedAt == snippet.publishedAt
  {
    if !AcceptedShort(response) then None
    else
      match response.items[0].snippet
      case None => None
      case Some(snippet) =>
        var text := Resolve(id, snippet, channel.recipeSource, listThreads).text;
        if snippet.title.None? || snippet.publishedAt.None? then None
        else Some(PendingRow(channel.channelId, snippet.title.value, text, snippet.publishedAt))
  }

  /** The row each video id yields, or `None` when it is skipped. */
  type RowBuilder = VideoId -> Option<VideoRecord>

  /** The row builder of one channel. */
  function ChannelRows(channel: Channel, fetch: FetchDetails, listThreads: ListThreads): RowBuilder {
    (id: VideoId) => BackfillRow(id, channel, fetch(id), listThreads)
  }

  /** A page's batch, and the video ids whose details were requested while
      building it, in order. */
  datatype Batch = Batch(entries: seq<Entry>, fetched: seq<VideoId>)

  /** Every entry `entries` adds after `queued` is a new video of the page
      `ids`, with the row built for it. */
  predicate AddedFrom(store: Store, ids: seq<VideoId>, queued: seq<Entry>, entries: seq<Entry>, rows: RowBuilder) {
    forall k :: |queued| <= k < |entries| ==>
      entries[k].id in ids && entries[k].id !in store && rows(entries[k].id) == Some(entries[k].row)
  }

  /** The rows a page adds to `queued`, skipping every id that is stored
      or already queued before its details are requested. */
  function PageBatchFrom(store: Store, ids: seq<VideoId>, queued: seq<Entry>, rows: RowBuilder): (b: Batch)
    ensures |queued| <= |b.entries| <= |queued| + |ids| && b.entries[..|queued|] == queued
    ensures AddedFrom(store, ids, queued, b.entries, rows)
    ensures Fresh(store, queued) ==> Fresh(store, b.entries)
    // Details are requested only for listed videos that are not stored.
    ensures forall id :: id in b.fetched ==> id in ids && id !in store
    decreases |ids|
  {
    if ids == [] then Batch(queued, [])
    else
      var id := ids[0];
      assert forall x :: x in ids[1..] ==> x in ids;
      if id in store || id in Ids(queued) then PageBatchFrom(store, ids[1..], queued, rows)
      else
        var rest :=
          match rows(id)
          case None => PageBatchFrom(store, ids[1..], queued, rows)
          case Some(row) => PageBatchFrom(store, ids[1..], queued + [Entry(id, row)], rows);
        Batch(rest.entries, [id] + rest.fetched)
  }

  /** Every video of the page that yields a row ends stored or queued, and a
      page with nothing new adds nothing. */
  lemma {:induction false} PageBatchCovers(store: Store, ids: seq<VideoId>, queued: seq<Entry>, rows: RowBuilder)
    ensures var b := PageBatchFrom(store, ids, queued, rows);
            && (forall x :: x in Ids(queued) ==> x in Ids(b.entries))
            && (forall id :: id in ids && rows(id).Some? ==> id in store || id in Ids(b.entries))
            && ((forall id :: id in ids ==> id in store || rows(id).None?) ==> b.entries == queued)
    decreases |ids|
  {
    if ids != [] {
      var id := ids[0];
      assert forall x :: x in ids[1..] ==> x in ids;
      if id in store || id in Ids(queued) || rows(id).None? {
        PageBatchCovers(store, ids[1..], queued, rows);
      } else {
        var next := queued + [Entry(id, rows(id).value)];
        PageBatchCovers(store, ids[1..], next, rows);
        assert Ids(next) == Ids(queued) + [id];
      }
    }
  }

  /** Every listed video that is not stored is queued already or has its
      details requested. */
  lemma {:induction false} PageBatchFetches(store: Store, ids: seq<VideoId>, queued: seq<Entry>, rows: RowBuilder)
    ensures forall id :: id in ids && id !in store ==>
              id in Ids(queued) || id in PageBatchFrom(store, ids, queued, rows).fetched
    decreases |ids|
  {
    if ids != [] {
      var id := ids[0];
      assert forall x :: x in ids && x != id ==> x in ids[1..];
      if id in store || id in Ids(queued) {
        PageBatchFetches(store, ids[1..], queued, rows);
      } else {
        var next := if rows(id).None? then queued else queued + [Entry(id, rows(id).value)];
        var rest := PageBatchFrom(store, ids[1..], next, rows);
        assert PageBatchFrom(store, ids, queued, rows).fetched == [id] + rest.fetched;
        PageBatchFetches(store, ids[1..], next, rows);
        assert Ids(next) <= Ids(queued) + [id];
      }
    }
  }

  /** The new-video batch of one page, with the duplicate check looking at
      the rows already queued as well as the store. */
  function PageBatch(store: Store, ids: seq<VideoId>, rows: RowBuilder): (b: Batch)
    ensures Fresh(store, b.entries) && |b.entries| <= |ids|
    ensures forall k :: 0 <= k < |b.entries| ==> b.entries[k].id in ids && rows(b.entries[k].id) == Some(b.entries[k].row)
    ensures forall id :: id in ids && rows(id).Some? ==> id in store || id in Ids(b.entries)
    ensures (forall id :: id in ids ==> id in store || rows(id).None?) ==> b.entries == []
    // The existence check comes first: details are requested for exactly
    // the listed videos that are not stored.
    ensures forall id :: id in b.fetched <==> id in ids && id !in store
  {
    PageBatchCovers(store, ids, [], rows);
    PageBatchFetches(store, ids, [], rows);
    assert Ids([]) == [];
    PageBatchFrom(store, ids, [], rows)
  }

  /** The batch as backfill_videos.py builds it: the existence check only
      queries the store, so a page that lists a video twice queues it
      twice. */
  function PageBatchAsWritten(store: Store, ids: seq<VideoId>, rows: RowBuilder): (b: Batch)
    ensures forall k :: 0 <= k < |b.entries| ==>
              b.entries[k].id in ids && b.entries[k].id !in store && rows(b.entries[k].id) == Some(b.entries[k].row)
    ensures forall id :: id in b.fetched <==> id in ids && id !in store
    decreases |ids|
  {
    if ids == [] then Batch([], [])
    else
      var id := ids[0];
      var rest := PageBatchAsWritten(store, ids[1..], rows);
      assert forall x :: x in ids && x != id ==> x in ids[1..];
      if id in store then rest
      else
        match rows(id)
        case None => Batch(rest.entries, [id] + rest.fetched)
        case Some(row) => Batch([Entry(id, row)] + rest.entries, [id] + rest.fetched)
  }

  /** The last entry of a fresh batch is new to the store and to the
      entries before it, and those entries form a fresh batch too. */
  lemma FreshLast(store: Store, batch: seq<Entry>)
    requires Fresh(store, batch) && batch != []
    ensures var n := |batch| - 1;
            && Fresh(store, batch[..n])
            && batch[n].id !in store
            && batch[n].id !in Ids(batch[..n])
            && Ids(batch) == Ids(batch[..n]) + [batch[n].id]
  {
    var n := |batch| - 1;
    var prefix := batch[..n];
    assert forall k :: 0 <= k < n ==> prefix[k] == batch[k];
    forall k | 0 <= k < n ensures Ids(prefix)[k] != batch[n].id {
      assert Ids(prefix)[k] == batch[k].id;
    }
  }

  /** The store after adding a fresh batch, entry by entry. */
  function AddEntries(store: Store, batch: seq<Entry>): (r: Store)
    requires Fresh(store, batch)
    ensures Extends(store, r)
    ensures forall x :: x in r <==> x in store || x in Ids(batch)
    ensures |r| == |store| + |batch|
    decreases |batch|
  {
    if batch == [] then store
    else
      var n := |batch| - 1;
      FreshLast(store, batch);
      AddEntries(store, batch[..n])[batch[n].id := batch[n].row]
  }

  /** Each entry of the batch is stored under its id. */
  lemma {:induction false} AddEntriesStoresRows(store: Store, batch: seq<Entry>)
    requires Fresh(store, batch)
    ensures forall k :: 0 <= k < |batch| ==>
              batch[k].id in AddEntries(store, batch) && AddEntries(store, batch)[batch[k].id] == batch[k].row
    decreases |batch|
  {
    if batch != [] {
      var n := |batch| - 1;
      var prefix := batch[..n];
      FreshLast(store, batch);
      AddEntriesStoresRows(store, prefix);
      var m := AddEntries(store, prefix);
      forall k | 0 <= k < n
        ensures batch[k].id in m && m[batch[k].id] == batch[k].row && batch[k].id != batch[n].id
      {
        assert prefix[k] == batch[k];
      }
      StoresStep(m, batch);
    }
  }

  /** The inductive step of `AddEntriesStoresRows`, on its own. */
  lemma StoresStep(m: Store, batch: seq<Entry>)
    requires batch != []
    requires forall k :: 0 <= k < |batch| - 1 ==>
               batch[k].id in m && m[batch[k].id] == batch[k].row && batch[k].id != batch[|batch| - 1].id
    ensures var r := m[batch[|batch| - 1].id := batch[|batch| - 1].row];
            forall k :: 0 <= k < |batch| ==> batch[k].id in r && r[batch[k].id] == batch[k].row
  {
  }

  /** `session.add_all(batch); session.commit()`: the primary key refuses a
      batch that repeats an id or names a stored one, and the commit raises. */
  function Commit(store: Store, batch: seq<Entry>): (r: Option<Store>)
    ensures r.Some? <==> Fresh(store, batch)
    ensures r.Some? ==> && Extends(store, r.value)
                        && forall x :: x in r.value <==> x in store || x in Ids(batch)
  {
    if Fresh(store, batch) then Some(AddEntries(store, batch)) else None
  }

  /** The batch as written queues a video that a page lists twice twice. */
  lemma AsWrittenQueuesRepeatTwice(rows: RowBuilder, id: VideoId, row: VideoRecord)
    requires rows(id) == Some(row)
    ensures PageBatchAsWritten(map[], [id, id], rows).entries == [Entry(id, row), Entry(id, row)]
  {
    var twice := [id, id];
    assert twice[1..] == [id] && [id][1..] == [];
    assert PageBatchAsWritten(map[], [], rows) == Batch([], []);
    assert PageBatchAsWritten(map[], [id], rows) == Batch([Entry(id, row)], [id]);
  }

  /** The corrected batch finds the second listing among the queued ids. */
  lemma CorrectedQueuesRepeatOnce(rows: RowBuilder, id: VideoId, row: VideoRecord)
    requires rows(id) == Some(row)
    ensures PageBatch(map[], [id, id], rows).entries == [Entry(id, row)]
  {
    var entry := Entry(id, row);
    var twice := [id, id];
    assert twice[1..] == [id] && [id][1..] == [];
    assert Ids([entry]) == [id];
    assert PageBatchFrom(map[], [], [entry], rows) == Batch([entry], []);
    assert PageBatchFrom(map[], [id], [entry], rows) == Batch([entry], []);
    assert Ids([]) == [];
    var queued: seq<Entry> := [];
    assert queued + [entry] == [entry];
  }

  /** A page that lists one short video twice: the batch as written queues
      it twice and its commit raises, which ends the whole run; the
      corrected batch queues it once and commits. */
  lemma AsWrittenRepeatedIdFailsCommit()
    ensures var channel := Channel("UCx", "x", "UUx", true, DescriptionSource);
            var snippet := Snippet(Some("title"), Some("재료"), Some("2024-01-01T00:00:00Z"), None);
            var fetch: FetchDetails := (id: VideoId) => Details([VideoDetail(Some(snippet), Some(60))]);
            var listThreads: ListThreads := (id: VideoId) => ThreadCallFailed;
            var rows := ChannelRows(channel, fetch, listThreads);
            && Commit(map[], PageBatchAsWritten(map[], ["v", "v"], rows).entries).None?
            && var fixed := Commit(map[], PageBatch(map[], ["v", "v"], rows).entries);
               fixed.Some? && fixed.value.Keys == {"v"}
  {
    var channel := Channel("UCx", "x", "UUx", true, DescriptionSource);
    var snippet := Snippet(Some("title"), Some("재료"), Some("2024-01-01T00:00:00Z"), None);
    var fetch: FetchDetails := (id: VideoId) => Details([VideoDetail(Some(snippet), Some(60))]);
    var listThreads: ListThreads := (id: VideoId) => ThreadCallFailed;
    var rows := ChannelRows(channel, fetch, listThreads);
    var row := BackfillRow("v", channel, fetch("v"), listThreads);
    assert rows("v") == row;
    assert row.Some?;
    var entry := Entry("v", row.value);
    AsWrittenQueuesRepeatTwice(rows, "v", row.value);
    var asWritten := [entry, entry];
    assert asWritten[0].id == asWritten[1].id;
    CorrectedQueuesRepeatOnce(rows, "v", row.value);
    assert Ids([entry]) == ["v"];
    assert AddEntries(map[], [entry]).Keys == {"v"};
  }

  /** Every video of the page that yields a row is stored. */
  predicate PageCovered(store: Store, ids: seq<VideoId>, rows: RowBuilder) {
    forall id :: id in ids && rows(id).Some? ==> id in store
  }

  /** Every video of the walked pages that yields a row is stored. */
  predicate Covered(store: Store, pages: seq<seq<VideoId>>, rows: RowBuilder) {
    forall page :: page in pages ==> PageCovered(store, page, rows)
  }

  /** The outcome of one page: the store after its commit and the number of
      rows saved. */
  datatype PageOutcome = PageOutcome(store: Store, saved: nat, fetched: seq<VideoId>)

  /** One page: its batch, committed when it is not empty. */
  function CommitPage(store: Store, ids: seq<VideoId>, rows: RowBuilder): (p: PageOutcome)
    ensures Extends(store, p.store)
    ensures |p.store| == |store| + p.saved && p.saved <= |ids|
    ensures forall id :: id in Inserted(store, p.store) ==> id in ids && rows(id) == Some(p.store[id])
    ensures PageCovered(p.store, ids, rows)
    ensures PageCovered(store, ids, rows) ==> p.store == store && p.saved == 0
    // Details are requested for exactly the listed videos not yet stored.
    ensures forall id :: id in p.fetched <==> id in ids && id !in store
  {
    var b := PageBatch(store, ids, rows);
    var batch := b.entries;
    if batch == [] then PageOutcome(store, 0, b.fetched)
    else
      var after := AddEntries(store, batch);
      AddEntriesStoresRows(store, batch);
      assert forall id :: id in Inserted(store, after) ==> exists k :: 0 <= k < |batch| && batch[k].id == id by {
        forall id | id in Inserted(store, after) ensures exists k :: 0 <= k < |batch| && batch[k].id == id {
          var k :| 0 <= k < |batch| && Ids(batch)[k] == id;
        }
      }
      PageOutcome(after, |batch|, b.fetched)
  }

  predicate AllPositive(s: seq<nat>) {
    forall k :: 0 <= k < |s| ==> s[k] > 0
  }

  function PrependPositive(x: nat, s: seq<nat>): (r: seq<nat>)
    requires x > 0 && AllPositive(s)
    ensures r == [x] + s && AllPositive(r)
  {
    assert forall k :: 0 < k <= |s| ==> ([x] + s)[k] == s[k - 1];
    [x] + s
  }

  /** The per-channel counters and the sizes of the commits made. */
  datatype Tally = Tally(store: Store, processed: nat, saved: nat, commits: seq<nat>, fetched: seq<VideoId>)

  /** The pages of one channel, one batch and at most one commit each. */
  function BackfillPages(store: Store, pages: seq<seq<VideoId>>, rows: RowBuilder): (t: Tally)
    ensures Extends(store, t.store)
    // Every id listed is counted as processed; only new rows count as saved.
    ensures t.saved <= t.processed
    ensures |t.store| == |store| + t.saved
    // Only non-empty batches are committed, at most one per page.
    ensures |t.commits| <= |pages| && AllPositive(t.commits)
    // No video stored before the channel's pages is fetched again.
    ensures forall id :: id in t.fetched ==> id !in store
    decreases |pages|
  {
    if pages == [] then Tally(store, 0, 0, [], [])
    else
      var p := CommitPage(store, pages[0], rows);
      var rest := BackfillPages(p.store, pages[1..], rows);
      var commits := if p.saved == 0 then rest.commits else PrependPositive(p.saved, rest.commits);
      Tally(rest.store, |pages[0]| + rest.processed, p.saved + rest.saved, commits, p.fetched + rest.fetched)
  }

  /** Every row added between `store` and `after` is a video listed on one
      of `pages`, with the row `rows` builds for it. */
  predicate ListedRows(store: Store, after: Store, pages: seq<seq<VideoId>>, rows: RowBuilder) {
    forall id :: id in Inserted(store, after) ==>
      (exists page :: page in pages && id in page) && rows(id) == Some(after[id])
  }

  /** The inductive step of `PagesInsertOnlyListedRows`, on its own. */
  lemma InsertStep(store: Store, mid: Store, final: Store, pages: seq<seq<VideoId>>, rows: RowBuilder)
    requires pages != [] && Extends(store, mid) && Extends(mid, final)
    requires forall id :: id in Inserted(store, mid) ==> id in pages[0] && rows(id) == Some(mid[id])
    requires ListedRows(mid, final, pages[1..], rows)
    ensures ListedRows(store, final, pages, rows)
  {
    forall id | id in Inserted(store, final)
      ensures (exists page :: page in pages && id in page) && rows(id) == Some(final[id])
    {
      if id in mid {
        assert pages[0] in pages;
      } else {
        var page :| page in pages[1..] && id in page;
        assert page in pages;
      }
    }
  }

  /** Every row a channel's pages add is a video listed on one of them,
      with the row built for it. */
  lemma {:induction false} PagesInsertOnlyListedRows(store: Store, pages: seq<seq<VideoId>>, rows: RowBuilder)
    ensures ListedRows(store, BackfillPages(store, pages, rows).store, pages, rows)
    decreases |pages|
  {
    if pages != [] {
      var p := CommitPage(store, pages[0], rows);
      var rest := BackfillPages(p.store, pages[1..], rows);
      assert BackfillPages(store, pages, rows).store == rest.store;
      PagesInsertOnlyListedRows(p.store, pages[1..], rows);
      InsertStep(store, p.store, rest.store, pages, rows);
    }
  }

  /** The inductive step of `PagesCoverListedRows`, on its own. */
  lemma CoverStep(mid: Store, final: Store, pages: seq<seq<VideoId>>, rows: RowBuilder)
    requires pages != [] && Extends(mid, final)
    requires PageCovered(mid, pages[0], rows) && Covered(final, pages[1..], rows)
    ensures Covered(final, pages, rows)
  {
    forall page | page in pages
      ensures PageCovered(final, page, rows)
    {
      if page != pages[0] {
        InTail(pages, page);
      }
    }
  }

  /** After a channel's pages every video of them that yields a row is
      stored. */
  lemma {:induction false} PagesCoverListedRows(store: Store, pages: seq<seq<VideoId>>, rows: RowBuilder)
    ensures Covered(BackfillPages(store, pages, rows).store, pages, rows)
    decreases |pages|
  {
    if pages != [] {
      var p := CommitPage(store, pages[0], rows);
      var rest := BackfillPages(p.store, pages[1..], rows);
      assert BackfillPages(store, pages, rows).store == rest.store;
      PagesCoverListedRows(p.store, pages[1..], rows);
      CoverStep(p.store, rest.store, pages, rows);
    }
  }

  /** Pages whose videos that yield a row are all stored already change
      nothing and save nothing. */
  lemma {:induction false} CoveredPagesChangeNothing(store: Store, pages: seq<seq<VideoId>>, rows: RowBuilder)
    requires Covered(store, pages, rows)
    ensures BackfillPages(store, pages, rows).store == store
    ensures BackfillPages(store, pages, rows).saved == 0
    decreases |pages|
  {
    if pages != [] {
      assert pages[0] in pages;
      assert forall page :: page in pages[1..] ==> page in pages;
      CoveredPagesChangeNothing(store, pages[1..], rows);
    }
  }

  /** The store after a run, the video ids whose details were requested,
      and whether an exception ended the run. */
  datatype BackfillRun = BackfillRun(store: Store, fetched: seq<VideoId>, aborted: bool)

  /** The walk of one channel's uploads, from the first page. */
  function ChannelWalk(list: ListUploads, channel: Channel, budget: nat): Walk {
    WalkPages(list, channel.uploadsPlaylistId, None, budget)
  }

  /** The channel loop: a walk that raised ends the whole run after the
      pages before it were committed. */
  function BackfillChannels(store: Store, channels: seq<Channel>, list: ListUploads,
                            fetch: FetchDetails, listThreads: ListThreads, budget: nat): (r: BackfillRun)
    ensures Extends(store, r.store)
    ensures forall id :: id in r.fetched ==> id !in store
    // The run is cut short exactly when some channel's walk raises.
    ensures r.aborted <==> exists c :: c in channels && ChannelWalk(list, c, budget).aborted
    decreases |channels|
  {
    if channels == [] then BackfillRun(store, [], false)
    else
      var w := ChannelWalk(list, channels[0], budget);
      var t := BackfillPages(store, w.pages, ChannelRows(channels[0], fetch, listThreads));
      if w.aborted then
        assert channels[0] in channels;
        BackfillRun(t.store, t.fetched, true)
      else
        var rest := BackfillChannels(t.store, channels[1..], list, fetch, listThreads, budget);
        WalkAbortStep(channels, list, budget);
        BackfillRun(rest.store, t.fetched + rest.fetched, rest.aborted)
  }

  /** The inductive step of the channel loop's abort statement. */
  lemma WalkAbortStep(channels: seq<Channel>, list: ListUploads, budget: nat)
    requires channels != [] && !ChannelWalk(list, channels[0], budget).aborted
    ensures (exists c :: c in channels && ChannelWalk(list, c, budget).aborted) <==>
            (exists c :: c in channels[1..] && ChannelWalk(list, c, budget).aborted)
  {
    if c :| c in channels && ChannelWalk(list, c, budget).aborted {
      InTail(channels, c);
    }
    assert forall c :: c in channels[1..] ==> c in channels;
  }

  /** No channel before the `j`-th one had its walk raise: the run reached
      the `j`-th channel. */
  predicate Reached(list: ListUploads, channels: seq<Channel>, j: nat, budget: nat) {
    forall i :: 0 <= i < j && i < |channels| ==> !ChannelWalk(list, channels[i], budget).aborted
  }

  /** Coverage survives adding rows. */
  lemma CoveredExtends(store: Store, bigger: Store, pages: seq<seq<VideoId>>, rows: RowBuilder)
    requires Covered(store, pages, rows) && Extends(store, bigger)
    ensures Covered(bigger, pages, rows)
  {
  }

  /** Every channel reached has every video of its walked pages that yields
      a row stored in `store`. */
  predicate CoversReached(store: Store, channels: seq<Channel>, list: ListUploads,
                          fetch: FetchDetails, listThreads: ListThreads, budget: nat) {
    forall j :: 0 <= j < |channels| && Reached(list, channels, j, budget) ==>
      Covered(store, ChannelWalk(list, channels[j], budget).pages, ChannelRows(channels[j], fetch, listThreads))
  }

  /** The inductive step of `ChannelsCoverWalkedPages`, on its own. */
  lemma CoverChannelsStep(final: Store, channels: seq<Channel>, list: ListUploads,
                          fetch: FetchDetails, listThreads: ListThreads, budget: nat)
    requires channels != []
    requires Covered(final, ChannelWalk(list, channels[0], budget).pages, ChannelRows(channels[0], fetch, listThreads))
    requires !ChannelWalk(list, channels[0], budget).aborted ==>
               CoversReached(final, channels[1..], list, fetch, listThreads, budget)
    ensures CoversReached(final, channels, list, fetch, listThreads, budget)
  {
    forall j | 1 <= j < |channels| && Reached(list, channels, j, budget)
      ensures Covered(final, ChannelWalk(list, channels[j], budget).pages, ChannelRows(channels[j], fetch, listThreads))
    {
      assert channels[1..][j - 1] == channels[j];
      assert Reached(list, channels[1..], j - 1, budget) by {
        forall i | 0 <= i < j - 1
          ensures !ChannelWalk(list, channels[1..][i], budget).aborted
        {
          assert channels[1..][i] == channels[i + 1];
        }
      }
    }
  }

  /** Every channel the run reaches, the one whose walk raised included, has
      every video of its walked pages that yields a row stored. */
  lemma {:induction false} ChannelsCoverWalkedPages(store: Store, channels: seq<Channel>, list: ListUploads,
                                                    fetch: FetchDetails, listThreads: ListThreads, budget: nat)
    ensures CoversReached(BackfillChannels(store, channels, list, fetch, listThreads, budget).store,
                          channels, list, fetch, listThreads, budget)
    decreases |channels|
  {
    if channels != [] {
      var w := ChannelWalk(list, channels[0], budget);
      var rows := ChannelRows(channels[0], fetch, listThreads);
      var t := BackfillPages(store, w.pages, rows);
      var r := BackfillChannels(store, channels, list, fetch, listThreads, budget);
      PagesCoverListedRows(store, w.pages, rows);
      if !w.aborted {
        var rest := BackfillChannels(t.store, channels[1..], list, fetch, listThreads, budget);
        assert r.store == rest.store;
        CoveredExtends(t.store, r.store, w.pages, rows);
        ChannelsCoverWalkedPages(t.store, channels[1..], list, fetch, listThreads, budget);
      } else {
        assert r.store == t.store;
      }
      CoverChannelsStep(r.store, channels, list, fetch, listThreads, budget);
    }
  }

  /** Every row `after` holds beyond `store` is the row backfill builds for
      that video in one of the channels. */
  predicate BuiltRows(store: Store, after: Store, channels: seq<Channel>, fetch: FetchDetails, listThreads: ListThreads) {
    forall id :: id in Inserted(store, after) ==>
      exists c :: c in channels && BackfillRow(id, c, fetch(id), listThreads) == Some(after[id])
  }

  /** The inductive step of `ChannelsInsertOnlyBuiltRows`, on its own. */
  lemma BuiltStep(store: Store, mid: Store, final: Store, channels: seq<Channel>,
                  fetch: FetchDetails, listThreads: ListThreads)
    requires channels != [] && Extends(store, mid) && Extends(mid, final)
    requires forall id :: id in Inserted(store, mid) ==>
               ChannelRows(channels[0], fetch, listThreads)(id) == Some(mid[id])
    requires BuiltRows(mid, final, channels[1..], fetch, listThreads)
    ensures BuiltRows(store, final, channels, fetch, listThreads)
  {
    forall id | id in Inserted(store, final)
      ensures exists c :: c in channels && BackfillRow(id, c, fetch(id), listThreads) == Some(final[id])
    {
      if id in mid {
        assert ChannelRows(channels[0], fetch, listThreads)(id) == BackfillRow(id, channels[0], fetch(id), listThreads);
        assert channels[0] in channels;
      } else {
        var c :| c in channels[1..] && BackfillRow(id, c, fetch(id), listThreads) == Some(final[id]);
        assert c in channels;
      }
    }
  }

  /** Every row a run adds is the row backfill builds for that video in one
      of the channels walked. */
  lemma {:induction false} ChannelsInsertOnlyBuiltRows(store: Store, channels: seq<Channel>, list: ListUploads,
                                                       fetch: FetchDetails, listThreads: ListThreads, budget: nat)
    ensures BuiltRows(store, BackfillChannels(store, channels, list, fetch, listThreads, budget).store,
                      channels, fetch, listThreads)
    decreases |channels|
  {
    if channels != [] {
      var w := ChannelWalk(list, channels[0], budget);
      var rows := ChannelRows(channels[0], fetch, listThreads);
      var t := BackfillPages(store, w.pages, rows);
      var r := BackfillChannels(store, channels, list, fetch, listThreads, budget);
      PagesInsertOnlyListedRows(store, w.pages, rows);
      if !w.aborted {
        var rest := BackfillChannels(t.store, channels[1..], list, fetch, listThreads, budget);
        assert r.store == rest.store;
        ChannelsInsertOnlyBuiltRows(t.store, channels[1..], list, fetch, listThreads, budget);
        BuiltStep(store, t.store, r.store, channels, fetch, listThreads);
      } else {
        assert r.store == t.store;
        BuiltStep(store, t.store, t.store, channels, fetch, listThreads);
      }
    }
  }

  /** `backfill_all_shorts` over the active channels of the table. */
  function BackfillAll(store: Store, table: seq<Channel>, list: ListUploads,
                       fetch: FetchDetails, listThreads: ListThreads, budget: nat): (r: BackfillRun)
    ensures Extends(store, r.store)
    // Every new row is a short of an active channel of the table, built
    // by the backfill's rules.
    ensures forall id :: id in Inserted(store, r.store) ==>
              exists c :: c in table && c.isActive && BackfillRow(id, c, fetch(id), listThreads) == Some(r.store[id])
    ensures forall id :: id in r.fetched ==> id !in store
  {
    var channels := ActiveChannels(table);
    ChannelsInsertOnlyBuiltRows(store, channels, list, fetch, listThreads, budget);
    BackfillChannels(store, channels, list, fetch, listThreads, budget)
  }

  /** Over the table: the run is cut short exactly when an active channel's
      walk raises, and otherwise every video of every active channel's
      walked pages that yields a row is stored. */
  lemma BackfillAllCovers(store: Store, table: seq<Channel>, list: ListUploads,
                          fetch: FetchDetails, listThreads: ListThreads, budget: nat)
    ensures var r := BackfillAll(store, table, list, fetch, listThreads, budget);
            && (r.aborted <==> exists c :: c in table && c.isActive && ChannelWalk(list, c, budget).aborted)
            && (!r.aborted ==> forall c :: c in table && c.isActive ==>
                  Covered(r.store, ChannelWalk(list, c, budget).pages, ChannelRows(c, fetch, listThreads)))
  {
    var active := ActiveChannels(table);
    var r := BackfillAll(store, table, list, fetch, listThreads, budget);
    assert r == BackfillChannels(store, active, list, fetch, listThreads, budget);
    assert forall c :: c in active <==> c in table && c.isActive;
    if !r.aborted {
      ChannelsCoverWalkedPages(store, active, list, fetch, listThreads, budget);
      UnbrokenRunCoversAll(r.store, active, list, fetch, listThreads, budget);
    }
  }

  /** When no channel's walk raises, every channel is reached. */
  lemma UnbrokenRunCoversAll(final: Store, channels: seq<Channel>, list: ListUploads,
                             fetch: FetchDetails, listThreads: ListThreads, budget: nat)
    requires CoversReached(final, channels, list, fetch, listThreads, budget)
    requires forall c :: c in channels ==> !ChannelWalk(list, c, budget).aborted
    ensures forall c :: c in channels ==>
              Covered(final, ChannelWalk(list, c, budget).pages, ChannelRows(c, fetch, listThreads))
  {
    forall c | c in channels
      ensures Covered(final, ChannelWalk(list, c, budget).pages, ChannelRows(c, fetch, listThreads))
    {
      var j :| 0 <= j < |channels| && channels[j] == c;
      assert Reached(list, channels, j, budget) by {
        forall i | 0 <= i < j && i < |channels|
          ensures !ChannelWalk(list, channels[i], budget).aborted
        {
          assert channels[i] in channels;
        }
      }
    }
  }

  /** Re-running over any store that extends a run's result, with the
      provider answering the same, changes nothing. */
  lemma {:induction false} RerunOverExtension(store: Store, bigger: Store, channels: seq<Channel>, list: ListUploads,
                                             fetch: FetchDetails, listThreads: ListThreads, budget: nat)
    ensures Extends(BackfillChannels(store, channels, list, fetch, listThreads, budget).store, bigger) ==>
              BackfillChannels(bigger, channels, list, fetch, listThreads, budget).store == bigger
    decreases |channels|
  {
    if channels != [] && Extends(BackfillChannels(store, channels, list, fetch, listThreads, budget).store, bigger) {
      var w := ChannelWalk(list, channels[0], budget);
      var rows := ChannelRows(channels[0], fetch, listThreads);
      var t := BackfillPages(store, w.pages, rows);
      var first := BackfillChannels(store, channels, list, fetch, listThreads, budget).store;
      assert Extends(t.store, first);
      PagesCoverListedRows(store, w.pages, rows);
      assert Covered(bigger, w.pages, rows);
      CoveredPagesChangeNothing(bigger, w.pages, rows);
      if !w.aborted {
        RerunOverExtension(t.store, bigger, channels[1..], list, fetch, listThreads, budget);
      }
    }
  }

  /** Backfill is idempotent: running it again over its own result, with the
      provider answering the same, inserts nothing. */
  lemma RerunInsertsNothing(store: Store, table: seq<Channel>, list: ListUploads,
                            fetch: FetchDetails, listThreads: ListThreads, budget: nat)
    ensures var first := BackfillAll(store, table, list, fetch, listThreads, budget).store;
            BackfillAll(first, table, list, fetch, listThreads, budget).store == first
  {
    var first := BackfillAll(store, table, list, fetch, listThreads, budget).store;
    RerunOverExtension(store, first, ActiveChannels(table), list, fetch, listThreads, budget);
  }
}
