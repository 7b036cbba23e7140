/** The post list (`src/components/Feed/PostList.tsx`): relative time
    labels, the comment box guard, the single expanded comment section and
    the comment counter. */
module PostList {
  import opened PostTypes
  import opened Text
  import opened Seqs
  import Feed

  // ---------------------------------------------------------------------------
  // Relative time
  // ---------------------------------------------------------------------------

  datatype TimeUnit = Minutes | Hours | Days

  /** A relative age: how many whole units have passed. */
  datatype Age = Age(amount: int, unit: TimeUnit)

  const MillisPerMinute: int := 60000
  const MillisPerHour: int := 3600000
  const MillisPerDay: int := 86400000

  /** The bucketing of `formatTimestamp` for a difference of `diff`
      milliseconds: whole minutes below an hour, whole hours below a day,
      whole days beyond. Each count is a floor of the one before it, as with
      `Math.floor` (Dafny's `/` with a positive divisor is the floor). */
  function Bucket(diff: int): (a: Age)
    ensures a.unit == Minutes <==> diff < MillisPerHour
    ensures a.unit == Hours <==> MillisPerHour <= diff < MillisPerDay
    ensures a.unit == Days <==> MillisPerDay <= diff
    ensures a.unit == Minutes ==> a.amount == diff / MillisPerMinute
    ensures a.unit == Hours ==> a.amount == diff / MillisPerHour && 1 <= a.amount <= 23
    ensures a.unit == Days ==> a.amount == diff / MillisPerDay && a.amount >= 1
    ensures diff >= 0 ==> a.amount >= 0
  {
    var minutes := diff / 60000;
    var hours := minutes / 60;
    var days := hours / 24;
    if minutes < 60 then Age(minutes, Minutes)
    else if hours < 24 then Age(hours, Hours)
    else Age(days, Days)
  }

  /** The bucket is monotone in the difference: an older item never shows a
      smaller unit, nor a smaller count in the same unit. */
  lemma BucketMonotone(d1: int, d2: int)
    requires d1 <= d2
    ensures Bucket(d1).unit == Bucket(d2).unit ==> Bucket(d1).amount <= Bucket(d2).amount
    ensures Bucket(d2).unit == Minutes ==> Bucket(d1).unit == Minutes
    ensures Bucket(d1).unit == Days ==> Bucket(d2).unit == Days
  {
  }

  function Suffix(u: TimeUnit): string {
    match u
    case Minutes => "m ago"
    case Hours => "h ago"
    case Days => "d ago"
  }

  /** `formatTimestamp(date)` with the clock reading `now` passed in: the
      age in whole minutes below an hour, in whole hours below a day, and in
      whole days from a day on, each followed by its unit and "ago". */
  function FormatTimestamp(now: int, timestamp: int): (r: string)
    ensures var d := now - timestamp;
      && (d < MillisPerHour ==> r == IntToString(d / MillisPerMinute) + "m ago")
      && (MillisPerHour <= d < MillisPerDay ==> r == IntToString(d / MillisPerHour) + "h ago")
      && (MillisPerDay <= d ==> r == IntToString(d / MillisPerDay) + "d ago")
  {
    var a := Bucket(now - timestamp);
    IntToString(a.amount) + Suffix(a.unit)
  }

  /** The label is the count followed by the unit's suffix: the count reads
      back from the text and the suffix names the unit. */
  lemma FormatTimestampReadsBack(now: int, timestamp: int)
    ensures var s := FormatTimestamp(now, timestamp);
      && |s| > 5
      && s[|s| - 5..] == Suffix(Bucket(now - timestamp).unit)
      && s[..|s| - 5] == IntToString(Bucket(now - timestamp).amount)
      && ParseInt(s[..|s| - 5]) == Bucket(now - timestamp).amount
  {
    var a := Bucket(now - timestamp);
    var s := FormatTimestamp(now, timestamp);
    assert s[..|s| - 5] == IntToString(a.amount);
    IntRoundTrip(a.amount);
  }

  // ---------------------------------------------------------------------------
  // Comment box
  // ---------------------------------------------------------------------------

  /** The arguments of one `onComment` call. */
  datatype CommentCall = CommentCall(postId: string, content: string)

  /** The comment text after a press on "send", and the call it made, if any. */
  datatype CommentBox = CommentBox(text: string, call: Option<CommentCall>)

  /** `handleSubmitComment`: when the text holds a non-whitespace character,
      pass it on untrimmed and clear the box; otherwise do nothing. */
  function SubmitComment(commentText: string, postId: string): (r: CommentBox)
    ensures r.call.Some? <==> exists i :: 0 <= i < |commentText| && !IsWhitespace(commentText[i])
    ensures r.call.Some? ==> r.call.value == CommentCall(postId, commentText) && r.text == []
    ensures r.call.None? ==> r.text == commentText
  {
    HasTextIff(commentText);
    if HasText(commentText) then CommentBox([], Some(CommentCall(postId, commentText)))
    else CommentBox(commentText, None)
  }

  /** A second press right after a successful send sends nothing. */
  lemma SubmitCommentOnce(commentText: string, postId: string, otherPost: string)
    requires SubmitComment(commentText, postId).call.Some?
    ensures SubmitComment(SubmitComment(commentText, postId).text, otherPost).call.None?
  {
  }

  /** The number shown next to the comment icon, `comments?.length || 0`:
      a zero length is falsy and falls back to 0, so the fallback never
      changes the number and the count is the number of comments. */
  function CommentCount(p: Post): (n: nat)
    ensures n == |p.comments|
  {
    var length := |p.comments|;
    if length != 0 then length else 0
  }

  /** A successful send, handled by the feed, raises the shown comment count
      of each post with that id by exactly one and leaves the others alone. */
  lemma SentCommentCounted(posts: seq<Post>, commentText: string, postId: string,
                           commentId: string, timestamp: int)
    requires SubmitComment(commentText, postId).call.Some?
    ensures var call := SubmitComment(commentText, postId).call.value;
      var after := Feed.AddComment(posts, call.postId, commentId, call.content, timestamp);
      forall i :: 0 <= i < |posts| ==>
        CommentCount(after[i]) == CommentCount(posts[i]) + (if posts[i].id == postId then 1 else 0)
  {
  }

  // ---------------------------------------------------------------------------
  // Expanded comment section
  // ---------------------------------------------------------------------------

  /** The comment button: pressing it on the expanded post collapses it,
      pressing it on any other post expands that one instead. */
  function ToggleExpanded(expanded: Option<string>, postId: string): (r: Option<string>)
    ensures r.None? <==> expanded == Some(postId)
    ensures r.Some? ==> r.value == postId
  {
    if expanded == Some(postId) then None else Some(postId)
  }

  /** Whether a post renders its comment section. */
  predicate ShowsComments(expanded: Option<string>, p: Post) {
    expanded == Some(p.id)
  }

  function Ids(posts: seq<Post>): seq<string> {
    seq(|posts|, i requires 0 <= i < |posts| => posts[i].id)
  }

  /** At most one post shows its comments when post ids are distinct. */
  lemma AtMostOneExpanded(expanded: Option<string>, posts: seq<Post>)
    requires NoDup(Ids(posts))
    ensures forall i, j ::
      (0 <= i < |posts| && 0 <= j < |posts| &&
       ShowsComments(expanded, posts[i]) && ShowsComments(expanded, posts[j])) ==> i == j
  {
    forall i, j | 0 <= i < |posts| && 0 <= j < |posts|
      && ShowsComments(expanded, posts[i]) && ShowsComments(expanded, posts[j])
      ensures i == j
    {
      assert Ids(posts)[i] == Ids(posts)[j];
    }
  }

  /** Two presses on the same post restore the state if that post was open
      or nothing was, and close everything otherwise. */
  lemma ToggleExpandedTwice(expanded: Option<string>, postId: string)
    ensures ToggleExpanded(ToggleExpanded(expanded, postId), postId)
         == if expanded == Some(postId) || expanded.None? then expanded else None
  {
  }
}
