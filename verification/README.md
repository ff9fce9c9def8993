# Recipe-ingestion pipeline: a Dafny model of its decision logic

The system collects short cooking videos from registered YouTube channels.
For each video it picks a text to analyse: the description or the pinned
comment, depending on the channel's `recipe_source`. It then asks a language
model to turn that text into a structured recipe (`title`, `main` and `sauce`
ingredient lists), stores the result in SQLite, and serves keyword search and
random recommendations over the analysed videos.

This project models the decision logic of that pipeline:

- **Resolver** (`resolver.dfy`): which text is analysed. The fallback chain is
  the embedded top-level comment, then the comment-thread listing, then the
  description, then `''`. backfill_videos.py:45-147 carries a copy of
  collector.py:51-153 that is identical line for line, so one definition
  models both, and the two agree on every input.
- **Structuring wrapper** (`structuring.dfy`): up to three attempts, a clamped
  exponential wait, and cleaning of code fences from the reply.
- **Analysis pass** (`analysis.dfy`): reconciling the structured result and
  the `pending`/`failed`/`completed` state machine of a video row. A
  completed row does not always have a title: collector.py:402 stores
  `result_json.get('title')`, which is NULL when the reply has no `title` key
  or a null one (`Analysis.CompletedRowMayLackTitle`). A row with a NULL title
  never passes the search filter (`Search.EligibleWhere`).
- **Discovery** (`discovery.dfy`): the newest ten uploads of each active
  channel. As written, the resolver call at collector.py:323 raises on every
  new short, so discovery stores nothing (see "## Findings").
  `Discovery.DiscoverIdsAsWritten` models that loop. `Discovery.DiscoverIds`
  and every run-level member built on it model the loop with the call
  corrected.
- **Backfill** (`backfill.dfy`): every page of every active channel's uploads,
  with one batch commit per page. As written, a page that lists a video twice
  makes the commit fail and ends the run (see "## Findings").
  `Backfill.PageBatchAsWritten` models that batch. `Backfill.PageBatch`, and
  every page- and run-level member built on it, model the batch that also
  skips ids already queued.
- **Search and recommendations** (`search.dfy`): the `WHERE` clauses under
  SQL three-valued logic, the keyword's AND-of-ORs, the ordering, the limits
  and the search log.
- **Channel registration** (`registration.dfy`): the rules of
  `add_new_channel`.

The external services are parameters of the model:

- The YouTube calls (uploads listing, video details, comment-thread listing)
  are functions from request to response (`catalog.dfy`). A call that raises
  is its own value.
- The language-model call is a function of the text and the attempt number.
- `json.loads` and `json.dumps` are an abstract decoder and encoder. Decoded
  values have Python's truthiness (`json.dfy`).
- The database is a map from video id to row (`Records.Store`). The channels
  table is a sequence.

## Model

| member | source | states |
|---|---|---|
| Resolver.ThreadText | collector.py:51-97 | The thread listing yields text exactly when the call succeeds, returns a thread, and the first thread's top-level comment text is present and non-empty, and the text is then that comment's; a raised call, no thread, or an empty text yields nothing |
| Resolver.Resolve | collector.py:99-153 | A description channel gets the description (`''` when absent or null) and no comment call. A pinned-comment channel gets a non-empty embedded comment with no extra call; otherwise exactly one thread call for this video, its text when it has one, else the description. The result is always a string, never more than one call is made, and only for this video |
| Resolver.PinnedFollowsFallbackChain | collector.py:109-140 | For a pinned-comment channel the text is the first non-empty entry of: embedded comment, thread listing, description; `''` when none has text |
| Structuring.Clean | collector.py:247 | After strip, removal of "```json" and removal of "```", no triple backtick is left; a reply with no backtick and no surrounding whitespace passes through unchanged |
| Text.RemoveFencesLeavesNone | collector.py:247 | Removing every "```" left to right never joins backticks into a new fence |
| Structuring.BackoffWait | collector.py:158 | The wait after attempt n is `2^(n-1)` when that lies between 4 and 10 seconds, 4 when it is below and 10 when it is above |
| Structuring.FirstSuccess | collector.py:158-254 | The wrapper's outcome is the first attempt among 1..3 that returns a decoded value, with its number; it is none only when all three attempts failed |
| Structuring.Structure | collector.py:158-254 | The retry loop calls the model at most three times and stops at the first success, returning its value. Failure is reported only after exactly three failed attempts. The wait between attempts k and k+1 is the clamped wait of attempt k, which for both waits of a three-attempt run is the 4-second minimum. The loop agrees with `FirstSuccess` |
| Analysis.Reconcile | collector.py:385-396 | A falsy result becomes the `분석 실패` object. A truthy non-object raises. An object with an ingredient list is unchanged. On one without, only the title changes, to `분석 실패`, and `main`/`sauce` and every other key are kept |
| Analysis.ReconcileIdempotent | collector.py:385-396 | Reconciling a reconciled result changes nothing |
| Analysis.ReconcileMatchesTypedRule | collector.py:385-396 | On a well-formed `{title, main, sauce}` result the dictionary code forces the title to `분석 실패` exactly when both lists are empty and changes nothing else |
| Analysis.AnalyzeRow | collector.py:375-428 | A row ends `failed`, with `AI 통신 오류` as title and payload title, exactly when every attempt failed or reconciliation raised. Otherwise it ends `completed`, with the reconciled object's title and its serialisation. No other column changes |
| Analysis.CompletedRowMayLackTitle | collector.py:402 | A reply with ingredients but no `title` key completes the row with a NULL `ai_title` |
| Analysis.ProcessPending | collector.py:362-432 | Only `pending` and `failed` rows are analysed, each with its own outcome. Completed rows and the key set are untouched. The result equals the order-independent reference pass |
| Analysis.PassFollowsStateMachine | collector.py:362-432 | Every status change is `pending`/`failed` to `completed`/`failed`, and a completed row stays completed and unchanged on the next pass |
| Catalog.PageIds | collector.py:280 | A page yields its ids in order exactly when every item has one; otherwise the comprehension raises |
| Records.ActiveChannels | collector.py:265 | Exactly the active channels of the table are scanned |
| Records.ActiveChannelsOfOne | collector.py:265 | A single table row is scanned exactly when it is active |
| Records.ActiveChannelsOfAppend | collector.py:265 | The scanned channels keep the table's order: those of a concatenation are those of the first part followed by those of the second |
| Discovery.DiscoverIds | collector.py:289-344 | With the resolver called correctly: stored ids are skipped before any detail call, stored rows never change, and every new row is a listed video of at most 180 s. Each new row is `pending` with no analysis, belongs to the channel, and has the resolved text, the snippet title (or `제목 없음`) and its publish time |
| Discovery.DiscoverIdsCompletes | collector.py:289-344 | With the resolver called correctly: every listed id that is not stored has its details requested, and every such id whose details name a video of at most 180 s is stored afterwards |
| Discovery.DiscoverIdsAsWritten | collector.py:323 | With the two-argument resolver call, every accepted short raises a `TypeError`, which the per-video handler catches, so the store is never changed |
| Discovery.AsWrittenDropsShortVideo | collector.py:323 | One 60-second video of a description channel is stored by the corrected loop with its description, and is not stored by the loop as written |
| Discovery.DiscoverChannels | collector.py:270-351 | With the resolver called correctly, over the channels the run is cut short exactly when some channel's listing call raises or lists an item without an id, with earlier commits kept. Every new row is a discovered row of one of the channels, and no stored id is fetched |
| Discovery.DiscoverChannelsCompletes | collector.py:270-351 | With the resolver called correctly: a run that was not cut short stores every listed, unstored short of every channel |
| Discovery.AbortSkipsLaterChannels | collector.py:270-351 | With the resolver called correctly: the channels after the first one whose listing raises are never scanned: the run's store and fetched ids equal those of the run over the channels before it |
| Discovery.DiscoverRecent | collector.py:258-351 | With the resolver called correctly: every row discovery adds belongs to an active channel of the table and satisfies the discovery rules; no existing row changes and no stored id is fetched |
| Discovery.DiscoverRecentCompletes | collector.py:258-351 | With the resolver called correctly, over the table the run ends early exactly when an active channel's listing raises, and otherwise every listed, unstored short of every active channel is stored |
| Backfill.WalkPages | backfill_videos.py:175-248 | The first request has no token, and each later request carries the previous answer's non-empty next-page token. Every processed page is the non-empty id list of its answer. The walk aborts exactly when its last request raised; otherwise it ended on a page without ids, after a page with no next-page token, or with the page budget spent |
| Backfill.BackfillRow | backfill_videos.py:207-236 | A row is built exactly when the details arrived with a duration of at most 180 s and a snippet with title and publish time; it is `pending`, of the channel, with the resolved text |
| Backfill.PageBatch | backfill_videos.py:199-236 | With the batch that also checks queued ids: the page's batch never repeats an id or names a stored one. Every entry is a listed video with its built row, every listed video that yields a row ends stored or queued, and a page with nothing new yields an empty batch. Details are requested for exactly the listed videos that are not stored |
| Backfill.PageBatchAsWritten | backfill_videos.py:204 | The batch as written checks only the store, so every entry is new to the store but ids may repeat within the page; details are requested for exactly the listed videos that are not stored |
| Backfill.AsWrittenRepeatedIdFailsCommit | backfill_videos.py:204-241 | A page listing one short twice makes the as-written batch's commit fail on the primary key, while the corrected batch commits that one row |
| Backfill.AsWrittenQueuesRepeatTwice | backfill_videos.py:204-240 | A page listing a short twice queues it twice in the as-written batch |
| Backfill.CorrectedQueuesRepeatOnce | backfill_videos.py:204-240 | The corrected batch queues that short once |
| Backfill.AddEntries | backfill_videos.py:240-241 | Adding a fresh batch keeps every stored row, a video id is stored afterwards exactly when it was stored before or is one of the batch's ids, and the store grows by exactly the batch size |
| Backfill.AddEntriesStoresRows | backfill_videos.py:240-241 | After a fresh batch is added, every entry's row is stored under its own video id |
| Backfill.Commit | backfill_videos.py:239-241 | The commit succeeds exactly when the batch repeats no id and names no stored id, and then the new keys are exactly the batch's ids |
| Backfill.CommitPage | backfill_videos.py:238-242 | With the batch that also checks queued ids: one page commits only new built rows of its own videos, afterwards covers every listed video that yields a row, changes nothing when its videos are already covered, and requests details for exactly its listed videos that are not stored |
| Backfill.BackfillPages | backfill_videos.py:199-248 | With the batch that also checks queued ids: over a channel's pages, saved never exceeds processed, the store grows by exactly the saved count, each commit is non-empty, at most one per page, and no stored video's details are requested |
| Backfill.PagesInsertOnlyListedRows | backfill_videos.py:202-242 | With the batch that also checks queued ids: every row a channel's pages add is a video listed on one of them, with the row built for it |
| Backfill.PagesCoverListedRows | backfill_videos.py:202-242 | With the batch that also checks queued ids: after a channel's pages, every listed video that yields a row is stored |
| Backfill.CoveredPagesChangeNothing | backfill_videos.py:204-205 | With the batch that also checks queued ids: pages whose videos are all stored already change nothing and save nothing |
| Backfill.BackfillChannels | backfill_videos.py:173-248 | With the batch that also checks queued ids: over the channels, stored rows never change, no stored video's details are requested, and the run is cut short exactly when some channel's page walk raises |
| Backfill.ChannelsCoverWalkedPages | backfill_videos.py:173-248 | With the batch that also checks queued ids: every channel the run reaches, the one whose walk raised included, has every video of its walked pages that yields a row stored |
| Backfill.ChannelsInsertOnlyBuiltRows | backfill_videos.py:173-242 | With the batch that also checks queued ids: every row a run adds is the row backfill builds for that video in one of the channels walked |
| Backfill.BackfillAll | backfill_videos.py:163-258 | With the batch that also checks queued ids: only active channels are walked, stored rows are never changed, every new row is the built row of an active channel's video, and no stored video's details are requested |
| Backfill.BackfillAllCovers | backfill_videos.py:163-258 | With the batch that also checks queued ids: the run is cut short exactly when an active channel's walk raises; otherwise every video of every active channel's walked pages that yields a row is stored |
| Backfill.RerunOverExtension | backfill_videos.py:204-205 | With the batch that also checks queued ids: re-running over any store that extends a run's result, with the provider answering the same, changes nothing |
| Backfill.RerunInsertsNothing | backfill_videos.py:204-205 | With the batch that also checks queued ids: a second backfill over the first one's result inserts nothing |
| Search.NotEqual3 | server.py:175-176 | `ai_title != literal` is NULL on a NULL title and true only for a present, different title |
| Search.Like3 | server.py:196-197 | `contains(term)` is true only for a present column whose ASCII-case-folded text contains the folded term |
| Search.EligibleWhere | server.py:172-176 | A row with a NULL `ai_title` never passes the eligibility filter |
| Search.Terms | server.py:184-188 | The keyword's terms are its whitespace-separated words, each non-empty and space-free; an absent or empty keyword has none |
| Search.TermsOfJoinedWords | server.py:184-188 | A keyword made of non-empty, space-free words joined by single spaces has exactly those words as its terms |
| Search.TermsWhereIsAll | server.py:191-202 | The AND of the per-term ORs holds exactly when every term occurs in the title or in the ingredients; with no term there is no condition |
| Search.SearchWhereMeans | server.py:168-202 | The whole `WHERE` clause holds exactly for rows that are eligible (completed, titled, not a sentinel), in the filtered channel when the filter is non-empty, and that match every term |
| Search.BlankKeywordAddsNothing | server.py:184-202 | An absent or whitespace-only keyword filters exactly like no keyword |
| Search.AddingTermNarrows | server.py:191-202 | Appending a term to the keyword never admits a row the shorter keyword rejected |
| Search.ChannelNameOf | server.py:168-171 | The joined channel name is present exactly when the video's channel is in the table, and is that channel's name |
| Search.TextLeTotal | server.py:205 | Text order on publish times is total |
| Search.TextLeTransitive | server.py:205 | Text order on publish times is transitive |
| Search.LatestExists | server.py:205 | Every non-empty set of rows has a latest one, NULL publish times sorting last |
| Search.SelectLatest | server.py:205 | The selection takes `min(limit, pool size)` distinct rows of the pool, latest first; no row left out is later than a row taken |
| Search.SearchRecipes | server.py:145-232 | At most 50 distinct matching rows (exactly that many when available), latest first, each eligible, in the channel and matching every term; no match left out is later than one shown. The log row's `result_count` equals the list length; a failed log commit is rolled back and the list is the same |
| Search.Recommend | server.py:100-132 | `min(3, eligible joined rows)` distinct eligible rows of channels in the table, each with its channel name |
| Registration.DefaultUploadsId | add_channel.py:53 | The default uploads id is `UU` followed by the channel id from its third character on, just `UU` for an id shorter than two |
| Registration.DefaultUploadsIdInjective | add_channel.py:53 | Distinct `UC…` ids get distinct default uploads ids |
| Registration.UploadsChoice | add_channel.py:54-59 | A blank answer yields the default id; any other yields the answer stripped of surrounding whitespace |
| Registration.TypedUploadsIdKept | add_channel.py:54-59 | An answer already stripped and non-blank is used unchanged |
| Registration.SourceChoice | add_channel.py:64-71 | `recipe_source` is `pinned_comment` exactly when the stripped choice is `2`, `description` otherwise |
| Registration.NewChannel | add_channel.py:49-80 | The new row is active, with stripped id and name, the chosen uploads id and source |
| Registration.AddChannel | add_channel.py:83-93 | The insert commits exactly when it repeats neither the channel id nor the uploads id; otherwise it is rolled back and the table is unchanged |
| Registration.AddChannelKeepsKeys | init_db.py:28-30 | Registration keeps both key constraints, and a registered channel is one the collectors scan |
| Text.WordsEmptyIffBlank | server.py:188 | `split()` yields no words exactly when the keyword is blank |
| Text.WordsOfJoin | server.py:188 | Splitting `a + " " + b` yields the words of `a` followed by those of `b` |
| Text.WordsOfWord | server.py:188 | `split()` of one non-empty, space-free word is that word alone |
| Text.WordsOfJoinWords | server.py:188 | `split()` of non-empty, space-free words joined by single spaces gives back those words |

## Left out

- The YouTube and Gemini client setup, credentials, logging, `print` and
  `input`. These are I/O. The answers typed at the terminal are the
  `Answers` datatype.
- The wording and the extraction rules of the prompt. These are
  language-model behaviour, not code.
- Tenacity's sleeping. The length of each wait is modelled; no time passes.
- ISO 8601 duration parsing. The duration arrives as whole seconds, or as
  absent when the key is missing or does not parse.
- JSON text parsing and serialisation, including `ensure_ascii`. They are
  parameters. Non-finite numbers are not represented.
- Nested dictionaries that are present but empty are read as absent. On every
  path the pipeline takes they behave the same.
- A snippet key that is present with a null value is read as absent; the
  provider does not send one. In the code a null has other effects:
  - For the title of a discovered video, a null would reach the non-null
    `title` column, and the insert would be rolled back.
  - In backfill, a null title would reach the same column
    (backfill_videos.py:227). The page commit at line 241 would then fail,
    and the except at line 256 would end the whole run.
  - In backfill, a null `publishedAt` would be stored as a NULL
    `published_at` (backfill_videos.py:229). `Backfill.BackfillRow` skips
    such a video instead.
  - In discovery, a null `snippet` would raise on `.get` in the resolver.
    The raise is caught at collector.py:341 and nothing is stored.
    `Discovery.DetailSnippet` reads it as an empty snippet and stores the
    row under the title `제목 없음`.
- SQLAlchemy session mechanics. The store is a map with a per-video commit
  (discovery, analysis) or a per-page commit (backfill).
- The `%` and `_` wildcards inside a search term. `LIKE` is modelled as
  ASCII-case-insensitive containment, which is SQLite's default.
- `func.random()`. `Search.Recommend` leaves open which rows it returns.
- The FastAPI layer: routing, HTML, the `min_length=1` check on the keyword,
  the duplicate `/api/channels` route, `get_channels` and `log_click`.
- Analysis.AnalyzeRow: a title that decodes to something other than a string
  is modelled as a NULL `ai_title`. This holds for an absent or null title
  only. A number or boolean would be stored by SQLite as its text. A list or
  object would make the commit at collector.py:432 raise; that commit is
  outside the per-row `try` (collector.py:375-428), so the pass would end
  there.
- Backfill.WalkPages: the page loop carries a page budget so that it
  terminates. The number of pages a channel can have beyond that budget is
  not modelled.
- Backfill.BackfillRow: the thread-listing calls made while resolving a video
  that is then skipped for a missing title or publish time are not recorded.
- init_db.py, database.py, check_models.py and check_logs.py are not part of
  this model, apart from the column names, defaults and key constraints.

## Findings

| source | as written | input that shows it | evidently intended | confidence | as-written member | corrected member |
|---|---|---|---|---|---|---|
| collector.py:323 | `get_text_to_analyze(snippet_data, channel.recipe_source)` passes two arguments to a three-parameter function. The `TypeError` is caught at line 341, so discovery never inserts a row | any video of at most 180 s that is not stored yet, e.g. a 60 s video of a description channel | `get_text_to_analyze(video_id, snippet_data, channel.recipe_source)`, as backfill_videos.py:221 calls it | high (not executed) | Discovery.DiscoverIdsAsWritten, Discovery.AsWrittenDropsShortVideo | Discovery.DiscoverIds |
| backfill_videos.py:204 | The existence check queries only the store, not the ids already queued in the page's batch (added at line 240). A page that lists a video twice queues it twice, and the batch commit fails on the primary key, which ends the whole backfill | one page whose items list the same short video id twice | skip ids already queued in the page's batch as well | medium (not executed) | Backfill.PageBatchAsWritten, Backfill.AsWrittenRepeatedIdFailsCommit | Backfill.PageBatch |
