/** The read side of the service, `search_recipes` and
    `get_recommendations` in server.py: which analysed rows may be shown,
    how a keyword and a channel filter narrow them, the order and the
    limits, and the search log. The database is SQLite, so the filters are
    evaluated under SQL's three-valued logic, `LIKE` ignores ASCII case, and
    NULL sorts below every text. */
module Search {
  import opened Wrappers
  import opened Text
  import opened Records

  /** `.limit(50)` on search. */
  const SearchLimit: nat := 50

  /** `.limit(3)` on recommendations. */
  const RecommendationLimit: nat := 3

  // ---------------------------------------------------------------------
  // SQL conditions

  /** The value of an SQL condition. */
  datatype Sql = SqlTrue | SqlFalse | SqlNull

  function And3(a: Sql, b: Sql): (r: Sql)
    ensures r == SqlTrue <==> a == SqlTrue && b == SqlTrue
  {
    match (a, b)
    case (SqlFalse, _) => SqlFalse
    case (_, SqlFalse) => SqlFalse
    case (SqlNull, _) => SqlNull
    case (_, SqlNull) => SqlNull
    case _ => SqlTrue
  }

  function Or3(a: Sql, b: Sql): (r: Sql)
    ensures r == SqlTrue <==> a == SqlTrue || b == SqlTrue
  {
    match (a, b)
    case (SqlTrue, _) => SqlTrue
    case (_, SqlTrue) => SqlTrue
    case (SqlNull, _) => SqlNull
    case (_, SqlNull) => SqlNull
    case _ => SqlFalse
  }

  function FromBool(b: bool): Sql {
    if b then SqlTrue else SqlFalse
  }

  /** `column != literal` on a nullable text column. */
  function NotEqual3(column: Option<string>, literal: string): (r: Sql)
    ensures r == SqlNull <==> column.None?
    ensures r == SqlTrue <==> column.Some? && column.value != literal
  {
    match column
    case None => SqlNull
    case Some(text) => FromBool(text != literal)
  }

  /** SQLite's default `LIKE` folds the 26 ASCII letters and nothing else. */
  function AsciiLower(c: char): char {
    if 'A' <= c <= 'Z' then (c as int + 32) as char else c
  }

  function FoldAscii(s: string): (r: string)
    ensures |r| == |s| && forall k :: 0 <= k < |s| ==> r[k] == AsciiLower(s[k])
  {
    seq(|s|, k requires 0 <= k < |s| => AsciiLower(s[k]))
  }

  /** `term` occurs in `text`, as `text LIKE '%term%'` decides it. */
  predicate LikeContains(text: string, term: string) {
    Contains(FoldAscii(text), FoldAscii(term))
  }

  /** `column.contains(term)` on a nullable text column. */
  function Like3(column: Option<string>, term: string): (r: Sql)
    ensures r == SqlTrue <==> column.Some? && LikeContains(column.value, term)
    ensures r == SqlNull <==> column.None?
  {
    match column
    case None => SqlNull
    case Some(text) => FromBool(LikeContains(text, term))
  }

  // ---------------------------------------------------------------------
  // The filters, as the queries state them

  /** `analysis_status == 'completed'` and neither sentinel title. */
  function EligibleWhere(v: VideoRecord): (r: Sql)
    // A NULL title makes both inequalities NULL, which is not true.
    ensures v.aiTitle.None? ==> r != SqlTrue
  {
    And3(FromBool(v.status == Completed),
         And3(NotEqual3(v.aiTitle, AnalysisFailedTitle), NotEqual3(v.aiTitle, CommunicationErrorTitle)))
  }

  /** `or_(ai_title.contains(term), ai_ingredients.contains(term))`. */
  function TermWhere(v: VideoRecord, term: string): Sql {
    Or3(Like3(v.aiTitle, term), Like3(v.aiIngredients, term))
  }

  /** `and_(*and_conditions)` over the terms; no condition when there is no
      term. */
  function TermsWhere(v: VideoRecord, terms: seq<string>): Sql
    decreases |terms|
  {
    if terms == [] then SqlTrue else And3(TermWhere(v, terms[0]), TermsWhere(v, terms[1..]))
  }

  /** `if channel_id: query.filter(Video.channel_id == channel_id)`. */
  function ChannelWhere(v: VideoRecord, channelFilter: Option<string>): Sql {
    if NonEmpty(channelFilter) then FromBool(v.channelId == channelFilter.value) else SqlTrue
  }

  /** `if keyword: keyword.split()`: the search terms; none when the keyword
      is absent or empty. */
  function Terms(keyword: Option<string>): (terms: seq<string>)
    ensures forall i :: 0 <= i < |terms| ==> terms[i] != [] && NoSpace(terms[i])
  {
    if NonEmpty(keyword) then Words(keyword.value) else []
  }

  /** The whole `WHERE` clause of a search. */
  function SearchWhere(v: VideoRecord, keyword: Option<string>, channelFilter: Option<string>): Sql {
    And3(EligibleWhere(v), And3(ChannelWhere(v, channelFilter), TermsWhere(v, Terms(keyword))))
  }

  // ---------------------------------------------------------------------
  // The filters as two-valued predicates

  /** A row the service may show: completed, with a title that is present
      and is neither sentinel. */
  predicate Eligible(v: VideoRecord) {
    && v.status == Completed
    && v.aiTitle.Some?
    && v.aiTitle.value != AnalysisFailedTitle
    && v.aiTitle.value != CommunicationErrorTitle
  }

  /** The term occurs in the title or in the serialised ingredients. */
  predicate TermMatches(v: VideoRecord, term: string) {
    || (v.aiTitle.Some? && LikeContains(v.aiTitle.value, term))
    || (v.aiIngredients.Some? && LikeContains(v.aiIngredients.value, term))
  }

  /** Every term matches. */
  predicate MatchesAll(v: VideoRecord, terms: seq<string>) {
    forall i :: 0 <= i < |terms| ==> TermMatches(v, terms[i])
  }

  /** A non-empty channel filter names the row's channel. */
  predicate InChannel(v: VideoRecord, channelFilter: Option<string>) {
    NonEmpty(channelFilter) ==> v.channelId == channelFilter.value
  }

  lemma {:induction false} TermsWhereIsAll(v: VideoRecord, terms: seq<string>)
    ensures TermsWhere(v, terms) == SqlTrue <==> MatchesAll(v, terms)
    decreases |terms|
  {
    if terms != [] {
      TermsWhereIsAll(v, terms[1..]);
      assert forall i :: 1 <= i < |terms| ==> terms[i] == terms[1..][i - 1];
    }
  }

  /** The query keeps exactly the eligible rows of the filtered channel that
      match every term: NULL never satisfies a condition. */
  lemma SearchWhereMeans(v: VideoRecord, keyword: Option<string>, channelFilter: Option<string>)
    ensures SearchWhere(v, keyword, channelFilter) == SqlTrue <==>
              Eligible(v) && InChannel(v, channelFilter) && MatchesAll(v, Terms(keyword))
  {
    TermsWhereIsAll(v, Terms(keyword));
  }

  /** The terms of words typed with single spaces between them are those
      words, in order. */
  lemma TermsOfJoinedWords(ws: seq<string>)
    requires ws != [] && forall i :: 0 <= i < |ws| ==> ws[i] != [] && NoSpace(ws[i])
    ensures Terms(Some(JoinWords(ws))) == ws
  {
    WordsOfJoinWords(ws);
    assert Words("") == [];
  }

  /** An absent, empty or blank keyword adds no keyword condition. */
  lemma BlankKeywordAddsNothing(v: VideoRecord, keyword: Option<string>, channelFilter: Option<string>)
    requires keyword.None? || AllSpace(keyword.value)
    ensures SearchWhere(v, keyword, channelFilter) == SearchWhere(v, None, channelFilter)
  {
    if keyword.Some? {
      WordsEmptyIffBlank(keyword.value);
    }
  }

  /** Adding a term to a keyword never admits a row the shorter keyword
      rejected. */
  lemma AddingTermNarrows(v: VideoRecord, keyword: string, term: string, channelFilter: Option<string>)
    ensures SearchWhere(v, Some(keyword + " " + term), channelFilter) == SqlTrue ==>
            SearchWhere(v, Some(keyword), channelFilter) == SqlTrue
  {
    SearchWhereMeans(v, Some(keyword + " " + term), channelFilter);
    SearchWhereMeans(v, Some(keyword), channelFilter);
    WordsOfJoin(keyword, term);
    var all := Words(keyword + " " + term);
    assert Terms(Some(keyword + " " + term)) == all;
    if keyword != [] {
      assert Terms(Some(keyword)) == Words(keyword);
      assert forall i :: 0 <= i < |Words(keyword)| ==> Words(keyword)[i] == all[i];
    }
  }

  // ---------------------------------------------------------------------
  // The join with the channels table

  /** The video's channel is in the table: the inner join keeps the row. */
  predicate Joined(table: seq<Channel>, v: VideoRecord) {
    exists c :: c in table && c.channelId == v.channelId
  }

  /** The joined channel's name. The table's primary key makes the channel
      unique; the first one is taken. */
  function ChannelNameOf(table: seq<Channel>, channelId: ChannelId): (r: Option<string>)
    ensures r.Some? <==> exists c :: c in table && c.channelId == channelId
    ensures r.Some? ==> exists c :: c in table && c.channelId == channelId && c.channelName == r.value
  {
    if table == [] then None
    else if table[0].channelId == channelId then Some(table[0].channelName)
    else ChannelNameOf(table[1..], channelId)
  }

  /** One entry of the response: `video_id`, `title` (the analysed title),
      `ai_ingredients` and `channel_name`. */
  datatype ResultRow = ResultRow(videoId: VideoId, title: Option<string>, aiIngredients: Option<string>,
                                 channelName: string)

  function RowOf(store: Store, table: seq<Channel>, id: VideoId): ResultRow
    requires id in store && Joined(table, store[id])
  {
    var v := store[id];
    ResultRow(id, v.aiTitle, v.aiIngredients, ChannelNameOf(table, v.channelId).value)
  }

  /** The rows a search can return. */
  function Matching(store: Store, table: seq<Channel>, keyword: Option<string>,
                    channelFilter: Option<string>): set<VideoId>
  {
    set id | id in store && Joined(table, store[id]) && SearchWhere(store[id], keyword, channelFilter) == SqlTrue
  }

  // ---------------------------------------------------------------------
  // `order_by(published_at.desc())`

  /** Text order: code point by code point, a prefix first. UTF-8 byte
      order, which SQLite compares, is the same order. */
  predicate TextLe(a: string, b: string)
    decreases |a|
  {
    a == [] || (b != [] && (a[0] < b[0] || (a[0] == b[0] && TextLe(a[1..], b[1..]))))
  }

  lemma {:induction false} TextLeTotal(a: string, b: string)
    ensures TextLe(a, b) || TextLe(b, a)
    decreases |a|
  {
    if a != [] && b != [] && a[0] == b[0] {
      TextLeTotal(a[1..], b[1..]);
    }
  }

  lemma {:induction false} TextLeTransitive(a: string, b: string, c: string)
    requires TextLe(a, b) && TextLe(b, c)
    ensures TextLe(a, c)
    decreases |a|
  {
    if a != [] && b != [] && c != [] && a[0] == b[0] && b[0] == c[0] {
      TextLeTransitive(a[1..], b[1..], c[1..]);
    }
  }

  /** NULL sorts below every text. */
  predicate KeyLe(a: Option<string>, b: Option<string>) {
    a.None? || (b.Some? && TextLe(a.value, b.value))
  }

  function PublishedAt(store: Store, id: VideoId): Option<string>
    requires id in store
  {
    store[id].publishedAt
  }

  /** Every finite, non-empty set of rows has a latest one. */
  lemma {:induction false} LatestExists(store: Store, ids: set<VideoId>)
    requires ids != {} && ids <= store.Keys
    ensures exists m :: m in ids && forall x :: x in ids ==> KeyLe(PublishedAt(store, x), PublishedAt(store, m))
    decreases |ids|
  {
    var x :| x in ids;
    var rest := ids - {x};
    if rest == {} {
      forall y | y in ids ensures y == x {
        assert y == x || y in rest;
      }
      assert KeyLe(PublishedAt(store, x), PublishedAt(store, x)) by {
        if PublishedAt(store, x).Some? { TextLeTotal(PublishedAt(store, x).value, PublishedAt(store, x).value); }
      }
    } else {
      LatestExists(store, rest);
      var m :| m in rest && forall y :: y in rest ==> KeyLe(PublishedAt(store, y), PublishedAt(store, m));
      var kx, km := PublishedAt(store, x), PublishedAt(store, m);
      if KeyLe(kx, km) {
        assert forall y :: y in ids ==> KeyLe(PublishedAt(store, y), km);
      } else {
        assert km.Some? ==> kx.Some? && TextLe(km.value, kx.value) by {
          if km.Some? && kx.Some? { TextLeTotal(km.value, kx.value); }
        }
        forall y | y in ids ensures KeyLe(PublishedAt(store, y), kx) {
          if y != x {
            var ky := PublishedAt(store, y);
            assert KeyLe(ky, km);
            if ky.Some? { TextLeTransitive(ky.value, km.value, kx.value); }
          } else if kx.Some? {
            TextLeTotal(kx.value, kx.value);
          }
        }
      }
    }
  }

  /** A latest row of a non-empty set. */
  method PickLatest(store: Store, ids: set<VideoId>) returns (m: VideoId)
    requires ids != {} && ids <= store.Keys
    ensures m in ids && forall x :: x in ids ==> KeyLe(PublishedAt(store, x), PublishedAt(store, m))
  {
    LatestExists(store, ids);
    m :| m in ids && forall x :: x in ids ==> KeyLe(PublishedAt(store, x), PublishedAt(store, m));
  }

  // ---------------------------------------------------------------------
  // The endpoints

  /** The `limit` latest rows of `pool`, latest first: the selection
      `order_by(published_at.desc()).limit(limit)` makes. Among rows with the
      same publish time the order is left open. */
  method SelectLatest(store: Store, pool: set<VideoId>, limit: nat) returns (picked: seq<VideoId>)
    requires pool <= store.Keys
    ensures |picked| == if |pool| < limit then |pool| else limit
    ensures forall i :: 0 <= i < |picked| ==> picked[i] in pool
    ensures forall i, j :: 0 <= i < j < |picked| ==> picked[i] != picked[j]
    ensures forall i, j :: 0 <= i < j < |picked| ==>
              KeyLe(PublishedAt(store, picked[j]), PublishedAt(store, picked[i]))
    // No row left out is later than a row taken.
    ensures forall id, i :: id in pool && id !in picked && 0 <= i < |picked| ==>
              KeyLe(PublishedAt(store, id), PublishedAt(store, picked[i]))
  {
    var remaining := pool;
    picked := [];
    while |picked| < limit && remaining != {}
      invariant remaining <= pool
      invariant |remaining| == |pool| - |picked|
      invariant |picked| <= limit
      invariant forall i :: 0 <= i < |picked| ==> picked[i] in pool && picked[i] !in remaining
      invariant forall id :: id in pool && id !in remaining ==> id in picked
      invariant forall i, j :: 0 <= i < j < |picked| ==> picked[i] != picked[j]
      invariant forall i, j :: 0 <= i < j < |picked| ==>
                  KeyLe(PublishedAt(store, picked[j]), PublishedAt(store, picked[i]))
      invariant forall id, i :: id in remaining && 0 <= i < |picked| ==>
                  KeyLe(PublishedAt(store, id), PublishedAt(store, picked[i]))
      decreases |remaining|
    {
      var latest := PickLatest(store, remaining);
      picked := picked + [latest];
      remaining := remaining - {latest};
    }
  }

  /** A row of the `search_logs` table. */
  datatype SearchLogEntry = SearchLogEntry(sessionId: Option<string>, keyword: Option<string>,
                                           channelFilter: Option<string>, resultCount: nat)

  /** `search_recipes`: the matching rows, latest first, at most
      `SearchLimit` of them; then one search-log row, whose commit may fail
      (`logCommits` false), in which case it is rolled back and the results
      are returned all the same. */
  method SearchRecipes(store: Store, table: seq<Channel>, keyword: Option<string>,
                       channelFilter: Option<string>, sessionId: Option<string>,
                       logs: seq<SearchLogEntry>, logCommits: bool)
    returns (results: seq<ResultRow>, logsAfter: seq<SearchLogEntry>)
    // As many rows as match, up to the limit, each matching once.
    ensures var matching := Matching(store, table, keyword, channelFilter);
            |results| == if |matching| < SearchLimit then |matching| else SearchLimit
    ensures forall i :: 0 <= i < |results| ==>
              && results[i].videoId in Matching(store, table, keyword, channelFilter)
              && results[i] == RowOf(store, table, results[i].videoId)
    ensures forall i, j :: 0 <= i < j < |results| ==> results[i].videoId != results[j].videoId
    // Every row shown is eligible, of the filtered channel, and matches
    // every term of the keyword.
    ensures forall i :: 0 <= i < |results| ==>
              var v := store[results[i].videoId];
              Eligible(v) && InChannel(v, channelFilter) && MatchesAll(v, Terms(keyword))
    // Latest first, and no matching row left out is later than one shown.
    ensures forall i, j :: 0 <= i < j < |results| ==>
              KeyLe(PublishedAt(store, results[j].videoId), PublishedAt(store, results[i].videoId))
    ensures forall id, i :: id in Matching(store, table, keyword, channelFilter) && 0 <= i < |results| &&
                            (forall j :: 0 <= j < |results| ==> results[j].videoId != id) ==>
              KeyLe(PublishedAt(store, id), PublishedAt(store, results[i].videoId))
    // The log row counts exactly the rows returned.
    ensures logsAfter == if logCommits then logs + [SearchLogEntry(sessionId, keyword, channelFilter, |results|)]
                         else logs
  {
    var matching := Matching(store, table, keyword, channelFilter);
    var picked := SelectLatest(store, matching, SearchLimit);
    results := seq(|picked|, i requires 0 <= i < |picked| => RowOf(store, table, picked[i]));
    assert forall i :: 0 <= i < |results| ==> results[i].videoId == picked[i];
    forall id, i | id in matching && 0 <= i < |results| && (forall j :: 0 <= j < |results| ==> results[j].videoId != id)
      ensures KeyLe(PublishedAt(store, id), PublishedAt(store, results[i].videoId))
    {
      assert id !in picked;
    }
    forall i | 0 <= i < |results|
      ensures var v := store[results[i].videoId];
              Eligible(v) && InChannel(v, channelFilter) && MatchesAll(v, Terms(keyword))
    {
      SearchWhereMeans(store[results[i].videoId], keyword, channelFilter);
    }
    logsAfter := if logCommits then logs + [SearchLogEntry(sessionId, keyword, channelFilter, |results|)] else logs;
  }

  /** The rows recommendations draw from. */
  function Recommendable(store: Store, table: seq<Channel>): set<VideoId> {
    set id | id in store && Joined(table, store[id]) && EligibleWhere(store[id]) == SqlTrue
  }

  /** `get_recommendations`: `RecommendationLimit` eligible rows in random
      order, or all of them when there are fewer. Which rows is left open. */
  method Recommend(store: Store, table: seq<Channel>) returns (results: seq<ResultRow>)
    ensures var pool := Recommendable(store, table);
            |results| == if |pool| < RecommendationLimit then |pool| else RecommendationLimit
    ensures forall i :: 0 <= i < |results| ==>
              && results[i].videoId in Recommendable(store, table)
              && Eligible(store[results[i].videoId])
              && results[i] == RowOf(store, table, results[i].videoId)
    ensures forall i, j :: 0 <= i < j < |results| ==> results[i].videoId != results[j].videoId
  {
    var pool := Recommendable(store, table);
    var remaining := pool;
    results := [];
    while |results| < RecommendationLimit && remaining != {}
      invariant remaining <= pool
      invariant |remaining| == |pool| - |results|
      invariant |results| <= RecommendationLimit
      invariant forall i :: 0 <= i < |results| ==>
                  && results[i].videoId in pool && results[i].videoId !in remaining
                  && results[i] == RowOf(store, table, results[i].videoId)
      invariant forall i, j :: 0 <= i < j < |results| ==> results[i].videoId != results[j].videoId
      decreases |remaining|
    {
      var pick :| pick in remaining;
      results := results + [RowOf(store, table, pick)];
      remaining := remaining - {pick};
    }
    forall i | 0 <= i < |results|
      ensures Eligible(store[results[i].videoId])
    {
      var v := store[results[i].videoId];
      assert EligibleWhere(v) == SqlTrue;
    }
  }
}
