/** The shapes of the video provider's responses that the pipeline reads.
    A field the response may omit is an `Option`; a call that raises is its
    own constructor. Nested dictionaries that are present but empty behave
    like absent ones on every path the pipeline takes, so they are not
    distinguished. */
module Catalog {
  import opened Wrappers
  import opened Records

  /** `topLevelComment.snippet`. */
  datatype CommentSnippet = CommentSnippet(textDisplay: Option<string>)

  /** A `topLevelComment` object. */
  datatype Comment = Comment(snippet: Option<CommentSnippet>)

  /** A video's `snippet`, as the per-video detail call returns it. */
  datatype Snippet = Snippet(
    title: Option<string>,
    description: Option<string>,
    publishedAt: Option<string>,
    topLevelComment: Option<Comment>)

  const EmptySnippet: Snippet := Snippet(None, None, None, None)

  /** One comment thread of the comment-thread listing. */
  datatype ThreadSnippet = ThreadSnippet(topLevelComment: Option<Comment>)
  datatype Thread = Thread(snippet: Option<ThreadSnippet>)

  datatype ThreadResponse = ThreadCallFailed | Threads(items: seq<Thread>)

  /** One entry of the detail call's `items`; `durationSeconds` is the parsed
      `contentDetails.duration`, absent when the key is missing or does not
      parse. */
  datatype VideoDetail = VideoDetail(snippet: Option<Snippet>, durationSeconds: Option<int>)

  datatype DetailResponse = DetailCallFailed | Details(items: seq<VideoDetail>)

  /** A playlist entry; `videoId` is `contentDetails.videoId`. */
  datatype PlaylistItem = PlaylistItem(videoId: Option<VideoId>)

  datatype Page = Page(items: seq<PlaylistItem>, nextPageToken: Option<string>)

  /** The uploads listing: playlist id, page token and page size to a page, or
      `None` when the call raises. */
  type ListUploads = (PlaylistId, Option<string>, nat) -> Option<Page>

  /** The per-video detail call. */
  type FetchDetails = VideoId -> DetailResponse

  /** The comment-thread listing (top thread, by relevance, plain text). */
  type ListThreads = VideoId -> ThreadResponse

  /** The id list a page's items yield, `[item['contentDetails']['videoId']
      for item in items]`: `None` when some item lacks its id, which
      raises. */
  function PageIds(items: seq<PlaylistItem>): (r: Option<seq<VideoId>>)
    ensures r.Some? <==> forall k :: 0 <= k < |items| ==> items[k].videoId.Some?
    ensures r.Some? ==> |r.value| == |items|
                        && forall k :: 0 <= k < |items| ==> r.value[k] == items[k].videoId.value
  {
    if items == [] then Some([])
    else
      match (items[0].videoId, PageIds(items[1..]))
      case (Some(id), Some(rest)) => Some([id] + rest)
      case (_, _) => None
  }

  /** The detail response names a video whose duration parses and is at most
      the short-form limit. */
  predicate AcceptedShort(response: DetailResponse) {
    && response.Details?
    && |response.items| > 0
    && response.items[0].durationSeconds.Some?
    && response.items[0].durationSeconds.value <= ShortFormLimitSeconds
  }
}
