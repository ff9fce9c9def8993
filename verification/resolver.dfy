/** The source-text resolver: which text of a video is handed to the
    structuring model. Both ingestion scripts carry a copy of the same
    resolver; it is modelled once. The comment-thread listing is a parameter,
    and the result records every call made to it. */
module Resolver {
  import opened Wrappers
  import opened Text
  import opened Records
  import opened Catalog

  /** The text to analyse, and the video ids the comment-thread listing was
      called for while choosing it. */
  datatype Resolution = Resolution(text: string, lookups: seq<VideoId>)

  /** `snippet.get('description', '')`, with `None` read as `''`. */
  function DescriptionText(snippet: Snippet): string {
    snippet.description.GetOr("")
  }

  /** `comment.snippet.textDisplay`, when every level is present. */
  function CommentText(comment: Option<Comment>): Option<string> {
    match comment
    case Some(Comment(Some(CommentSnippet(text)))) => text
    case _ => None
  }

  /** The pinned-comment text of the thread listing: the first thread's
      top-level comment text; `None` when the call raised, there is no
      thread, or the text is absent or empty. */
  function ThreadText(response: ThreadResponse): (r: Option<string>)
    ensures r.Some? ==> r.value != ""
    // A text is returned only from a successful call with a thread, and it
    // is the text of the first thread's top-level comment ...
    ensures r.Some? ==> && response.Threads? && |response.items| > 0
                        && response.items[0].snippet.Some?
                        && r == CommentText(response.items[0].snippet.value.topLevelComment)
    // ... and that text is returned whenever it is present and non-empty.
    ensures response.Threads? && |response.items| > 0 && response.items[0].snippet.Some?
            && NonEmpty(CommentText(response.items[0].snippet.value.topLevelComment)) ==>
              r == CommentText(response.items[0].snippet.value.topLevelComment)
  {
    match response
    case ThreadCallFailed => None
    case Threads(items) =>
      if items == [] then None
      else
        var text := match items[0].snippet
                    case Some(thread) => CommentText(thread.topLevelComment)
                    case None => None;
        if NonEmpty(text) then text else None
  }

  /** `get_text_to_analyze(video_id, snippet, recipe_source)`. */
  function Resolve(videoId: VideoId, snippet: Snippet, recipeSource: string,
                   listThreads: ListThreads): (r: Resolution)
    // A description channel reads the description, or '' when it is absent,
    // and never consults the comments.
    ensures recipeSource != PinnedCommentSource ==>
              r.text == DescriptionText(snippet) && r.lookups == []
    // A non-empty comment embedded in the snippet wins, with no extra call.
    ensures recipeSource == PinnedCommentSource && NonEmpty(CommentText(snippet.topLevelComment)) ==>
              r.text == CommentText(snippet.topLevelComment).value && r.lookups == []
    // Otherwise the thread listing is called exactly once, for this video,
    // and its text is used when it yields one; the description is the last
    // resort.
    ensures recipeSource == PinnedCommentSource && !NonEmpty(CommentText(snippet.topLevelComment)) ==>
              && r.lookups == [videoId]
              && (ThreadText(listThreads(videoId)).Some? ==> r.text == ThreadText(listThreads(videoId)).value)
              && (ThreadText(listThreads(videoId)).None? ==> r.text == DescriptionText(snippet))
    // At most one call, and only for the video being resolved.
    ensures |r.lookups| <= 1 && forall k :: 0 <= k < |r.lookups| ==> r.lookups[k] == videoId
  {
    if recipeSource == PinnedCommentSource then
      var fromSnippet :=
        match snippet.topLevelComment
        case Some(comment) =>
          (match comment.snippet
           case Some(inner) =>
             if NonEmpty(inner.textDisplay) then Resolution(inner.textDisplay.value, [])
             else Resolution("", [videoId])
           case None => Resolution("", [videoId]))
        case None => Resolution("", [videoId]);
      var found :=
        if fromSnippet.lookups == [] then Some(fromSnippet.text)
        else ThreadText(listThreads(videoId));
      if NonEmpty(found) then Resolution(found.value, fromSnippet.lookups)
      else Resolution(DescriptionText(snippet), fromSnippet.lookups)
    else
      Resolution(DescriptionText(snippet), [])
  }

  /** The first candidate that is present and non-empty, or `fallback`. */
  function FirstNonEmpty(candidates: seq<Option<string>>, fallback: string): (r: string)
    ensures r == fallback || exists k :: 0 <= k < |candidates| && candidates[k] == Some(r) && r != ""
  {
    if candidates == [] then fallback
    else if NonEmpty(candidates[0]) then candidates[0].value
    else FirstNonEmpty(candidates[1..], fallback)
  }

  /** For a pinned-comment channel the resolved text is the first non-empty
      entry of the chain: embedded comment, thread listing, description,
      and `''` when none of them has text. */
  lemma PinnedFollowsFallbackChain(videoId: VideoId, snippet: Snippet, listThreads: ListThreads)
    ensures Resolve(videoId, snippet, PinnedCommentSource, listThreads).text ==
            FirstNonEmpty([CommentText(snippet.topLevelComment),
                           ThreadText(listThreads(videoId)),
                           snippet.description], "")
  {
    var chain := [CommentText(snippet.topLevelComment),
                  ThreadText(listThreads(videoId)),
                  snippet.description];
    assert chain[1..][1..] == [snippet.description];
    assert FirstNonEmpty([snippet.description], "") == DescriptionText(snippet) by {
      assert [snippet.description][1..] == [];
    }
  }
}
