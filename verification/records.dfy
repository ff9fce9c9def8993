/** The persisted rows (the `channels` and `videos` tables) and the business
    constants the pipeline shares: the short-form threshold, the two
    sentinel titles and the recipe-source values. */
module Records {
  import opened Wrappers

  type VideoId = string
  type ChannelId = string
  type PlaylistId = string

  /** Only videos at most this many seconds long are ingested. */
  const ShortFormLimitSeconds: int := 180

  /** The title the structuring model is told to return, and that
      reconciliation forces, when no ingredient list was found. */
  const AnalysisFailedTitle: string := "분석 실패"

  /** The title written when the structuring call itself could not be
      completed. */
  const CommunicationErrorTitle: string := "AI 통신 오류"

  const PinnedCommentSource: string := "pinned_comment"
  const DescriptionSource: string := "description"

  /** The title discovery stores when the snippet carries none. */
  const UntitledVideo: string := "제목 없음"

  datatype Status = Pending | Completed | Failed

  /** A row of the `channels` table. `recipeSource` is a free string column;
      the pipeline only ever compares it with `PinnedCommentSource`. */
  datatype Channel = Channel(
    channelId: ChannelId,
    channelName: string,
    uploadsPlaylistId: PlaylistId,
    isActive: bool,
    recipeSource: string)

  /** A row of the `videos` table, keyed by its video id in `Store`.
      `description` holds the resolved analysis text; `aiIngredients` holds
      the serialised structured result. */
  datatype VideoRecord = VideoRecord(
    channelId: ChannelId,
    title: string,
    description: string,
    publishedAt: Option<string>,
    status: Status,
    aiTitle: Option<string>,
    aiIngredients: Option<string>)

  type Store = map<VideoId, VideoRecord>

  /** The row discovery and backfill insert: awaiting analysis, with no
      structured result yet. */
  function PendingRow(channelId: ChannelId, title: string, text: string,
                      publishedAt: Option<string>): VideoRecord
  {
    VideoRecord(channelId, title, text, publishedAt, Pending, None, None)
  }

  /** The rows of `after` that `before` did not hold. */
  function Inserted(before: Store, after: Store): set<VideoId> {
    after.Keys - before.Keys
  }

  /** `after` keeps every row of `before` exactly as it was. */
  predicate Extends(before: Store, after: Store) {
    && before.Keys <= after.Keys
    && forall id :: id in before ==> after[id] == before[id]
  }

  /** An element of a sequence other than its head is in its tail. */
  lemma InTail<T>(s: seq<T>, x: T)
    requires x in s && x != s[0]
    ensures x in s[1..]
  {
    var i :| 0 <= i < |s| && s[i] == x;
    assert s[1..][i - 1] == x;
  }

  /** `filter_by(is_active=True)`, in the table's order. */
  function ActiveChannels(table: seq<Channel>): (r: seq<Channel>)
    ensures forall k :: 0 <= k < |r| ==> r[k] in table && r[k].isActive
    ensures forall c :: c in table && c.isActive ==> c in r
  {
    if table == [] then []
    else if table[0].isActive then [table[0]] + ActiveChannels(table[1..])
    else ActiveChannels(table[1..])
  }

  /** One row of the table is scanned exactly when it is active. */
  lemma ActiveChannelsOfOne(c: Channel)
    ensures ActiveChannels([c]) == if c.isActive then [c] else []
  {
  }

  /** The query keeps the table's order: the active channels of a
      concatenation are those of each part, in turn. */
  lemma {:induction false} ActiveChannelsOfAppend(a: seq<Channel>, b: seq<Channel>)
    ensures ActiveChannels(a + b) == ActiveChannels(a) + ActiveChannels(b)
    decreases |a|
  {
    if a == [] {
      assert a + b == b;
    } else {
      assert (a + b)[0] == a[0];
      assert (a + b)[1..] == a[1..] + b;
      ActiveChannelsOfAppend(a[1..], b);
    }
  }
}
