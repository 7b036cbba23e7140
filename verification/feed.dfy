/** The feed screen (`src/components/Feed/FeedScreen.tsx`): the derived view
    of the post list (search, tag filter, sort) and the copy-on-write
    mutations behind the create, vote, save and comment buttons. */
module Feed {
  import opened PostTypes
  import opened Text
  import opened Seqs

  // ---------------------------------------------------------------------------
  // Filters
  // ---------------------------------------------------------------------------

  /** The search test: the lower-cased content contains the lower-cased
      query, or some lower-cased tag does. Read positionally: the lower-cased
      query occurs at some index of the lower-cased content or of a
      lower-cased tag. */
  predicate MatchesSearch(p: Post, query: string): (r: bool)
    ensures r <==> ((exists i :: OccursAt(Lower(p.content), Lower(query), i))
                    || (exists t, i :: t in p.tags && OccursAt(Lower(t), Lower(query), i)))
  {
    var q := Lower(query);
    ContainsIff(Lower(p.content), q);
    TagsContainIff(p.tags, q);
    Contains(Lower(p.content), q) || exists t :: t in p.tags && Contains(Lower(t), q)
  }

  /** Some lower-cased tag contains `q` iff `q` occurs at a position of some
      lower-cased tag. */
  lemma TagsContainIff(tags: seq<string>, q: string)
    ensures (exists t :: t in tags && Contains(Lower(t), q))
        <==> exists t, i :: t in tags && OccursAt(Lower(t), q, i)
  {
    forall t | t in tags {
      ContainsIff(Lower(t), q);
    }
  }

  function Searching(query: string): Post -> bool {
    (p: Post) => MatchesSearch(p, query)
  }

  /** The search step; an empty query (falsy in JavaScript) filters nothing. */
  function SearchFilter(posts: seq<Post>, query: string): (r: seq<Post>)
    ensures query == [] ==> r == posts
    ensures query != [] ==> forall p :: p in r <==> p in posts && MatchesSearch(p, query)
    ensures IsSubsequence(r, posts)
  {
    if query == [] then
      assert IsSubsequence(posts, posts) by {
        FilterAll(posts, p => true);
        FilterIsSubsequence(posts, p => true);
      }
      posts
    else
      FilterIsSubsequence(posts, Searching(query));
      Filter(posts, Searching(query))
  }

  function Tagged(tag: string): Post -> bool {
    (p: Post) => tag in p.tags
  }

  /** The tag step: with a selected tag (neither null nor empty), keep the
      posts whose tags include it exactly; otherwise filter nothing. */
  function TagFilter(posts: seq<Post>, selectedTag: Option<string>): (r: seq<Post>)
    ensures (selectedTag.None? || selectedTag.value == []) ==> r == posts
    ensures selectedTag.Some? && selectedTag.value != [] ==>
      forall p :: p in r <==> p in posts && selectedTag.value in p.tags
    ensures IsSubsequence(r, posts)
  {
    if selectedTag.Some? && selectedTag.value != [] then
      FilterIsSubsequence(posts, Tagged(selectedTag.value));
      Filter(posts, Tagged(selectedTag.value))
    else
      assert IsSubsequence(posts, posts) by {
        FilterAll(posts, p => true);
        FilterIsSubsequence(posts, p => true);
      }
      posts
  }

  /** Whether a post survives both filters. */
  predicate Visible(p: Post, query: string, selectedTag: Option<string>) {
    && (query == [] || MatchesSearch(p, query))
    && (selectedTag.None? || selectedTag.value == [] || selectedTag.value in p.tags)
  }

  function VisibleIn(query: string, selectedTag: Option<string>): Post -> bool {
    (p: Post) => Visible(p, query, selectedTag)
  }

  /** The two filter steps in a row are one filter by `Visible`. */
  lemma FiltersCombine(posts: seq<Post>, query: string, selectedTag: Option<string>)
    ensures TagFilter(SearchFilter(posts, query), selectedTag) == Filter(posts, VisibleIn(query, selectedTag))
  {
    var vis := VisibleIn(query, selectedTag);
    var tagOn := selectedTag.Some? && selectedTag.value != [];
    if query == [] && !tagOn {
      FilterAll(posts, vis);
    } else if query == [] {
      FilterExt(posts, Tagged(selectedTag.value), vis);
    } else if !tagOn {
      FilterExt(posts, Searching(query), vis);
    } else {
      FilterFilter(posts, Searching(query), Tagged(selectedTag.value), vis);
    }
  }

  // ---------------------------------------------------------------------------
  // The view
  // ---------------------------------------------------------------------------

  /** The key each sort mode orders by, largest first. The trending score is
      a floating-point formula over the wall clock; the model receives it as
      an integer ranking function. */
  function SortKey(sortBy: SortOption, trendingScore: Post -> int): Post -> int {
    match sortBy
    case Top => NetScore
    case Trending => trendingScore
    case Newest => CreatedAt
  }

  /** `filteredAndSortedPosts`: a copy of the posts, filtered by search and
      tag, then stably sorted by the mode's key in descending order. The
      result is a permutation of the visible posts, sorted by the key. */
  function VisiblePosts(posts: seq<Post>, query: string, selectedTag: Option<string>,
                        sortBy: SortOption, trendingScore: Post -> int): (r: seq<Post>)
    ensures multiset(r) == multiset(Filter(posts, VisibleIn(query, selectedTag)))
    ensures SortedDesc(r, SortKey(sortBy, trendingScore))
  {
    FiltersCombine(posts, query, selectedTag);
    SortDesc(TagFilter(SearchFilter(posts, query), selectedTag), SortKey(sortBy, trendingScore))
  }

  /** Posts with equal keys keep their relative input order in the view. */
  lemma VisiblePostsStable(posts: seq<Post>, query: string, selectedTag: Option<string>,
                           sortBy: SortOption, trendingScore: Post -> int, k: int)
    ensures Filter(VisiblePosts(posts, query, selectedTag, sortBy, trendingScore), KeyIs(SortKey(sortBy, trendingScore), k))
         == Filter(Filter(posts, VisibleIn(query, selectedTag)), KeyIs(SortKey(sortBy, trendingScore), k))
  {
    FiltersCombine(posts, query, selectedTag);
    SortStable(Filter(posts, VisibleIn(query, selectedTag)), SortKey(sortBy, trendingScore), k);
  }

  /** A post appears in the view exactly when it is in the list and passes
      both filters, and as often as it occurs in the list. */
  lemma VisibleMembership(posts: seq<Post>, query: string, selectedTag: Option<string>,
                          sortBy: SortOption, trendingScore: Post -> int, p: Post)
    ensures p in VisiblePosts(posts, query, selectedTag, sortBy, trendingScore)
        <==> p in posts && Visible(p, query, selectedTag)
    ensures multiset(VisiblePosts(posts, query, selectedTag, sortBy, trendingScore))[p]
         == if Visible(p, query, selectedTag) then multiset(posts)[p] else 0
  {
    FilterMultiset(posts, VisibleIn(query, selectedTag));
    var r := VisiblePosts(posts, query, selectedTag, sortBy, trendingScore);
    assert p in r <==> p in multiset(r);
    assert p in posts <==> p in multiset(posts);
  }

  /** The filtered list, before sorting, is a subsequence of the posts. */
  lemma FilteredIsSubsequence(posts: seq<Post>, query: string, selectedTag: Option<string>)
    ensures IsSubsequence(Filter(posts, VisibleIn(query, selectedTag)), posts)
  {
    FilterIsSubsequence(posts, VisibleIn(query, selectedTag));
  }

  /** Under `newest` creation times never increase along the view. */
  lemma NewestOrder(posts: seq<Post>, query: string, selectedTag: Option<string>, trendingScore: Post -> int)
    ensures var r := VisiblePosts(posts, query, selectedTag, Newest, trendingScore);
      forall i, j :: 0 <= i < j < |r| ==> r[i].timestamp >= r[j].timestamp
  {
    var r := VisiblePosts(posts, query, selectedTag, Newest, trendingScore);
    forall i, j | 0 <= i < j < |r| ensures r[i].timestamp >= r[j].timestamp {
      assert CreatedAt(r[i]) >= CreatedAt(r[j]);
    }
  }

  /** Under `top` net scores never increase along the view. */
  lemma TopOrder(posts: seq<Post>, query: string, selectedTag: Option<string>, trendingScore: Post -> int)
    ensures var r := VisiblePosts(posts, query, selectedTag, Top, trendingScore);
      forall i, j :: 0 <= i < j < |r| ==> r[i].upvotes - r[i].downvotes >= r[j].upvotes - r[j].downvotes
  {
    var r := VisiblePosts(posts, query, selectedTag, Top, trendingScore);
    forall i, j | 0 <= i < j < |r| ensures r[i].upvotes - r[i].downvotes >= r[j].upvotes - r[j].downvotes {
      assert NetScore(r[i]) >= NetScore(r[j]);
    }
  }

  /** An empty post list gives an empty view, whatever the filters. */
  lemma EmptyFeed(query: string, selectedTag: Option<string>, sortBy: SortOption, trendingScore: Post -> int)
    ensures VisiblePosts([], query, selectedTag, sortBy, trendingScore) == []
  {
  }

  /** The view is fully determined by its ordering promises: any sequence
      that is sorted by the mode's key and keeps every key class in input
      order is the view. */
  lemma VisiblePostsUnique(posts: seq<Post>, query: string, selectedTag: Option<string>,
                           sortBy: SortOption, trendingScore: Post -> int, v: seq<Post>)
    requires SortedDesc(v, SortKey(sortBy, trendingScore))
    requires forall k :: Filter(v, KeyIs(SortKey(sortBy, trendingScore), k))
                      == Filter(Filter(posts, VisibleIn(query, selectedTag)), KeyIs(SortKey(sortBy, trendingScore), k))
    ensures v == VisiblePosts(posts, query, selectedTag, sortBy, trendingScore)
  {
    var key := SortKey(sortBy, trendingScore);
    var filtered := Filter(posts, VisibleIn(query, selectedTag));
    FiltersCombine(posts, query, selectedTag);
    SortDescCharacterized(filtered, v, key);
  }

  /** The search ignores the case of the query. */
  lemma SearchIgnoresQueryCase(p: Post, query: string)
    ensures MatchesSearch(p, query) <==> MatchesSearch(p, Lower(query))
  {
    LowerIdempotent(query);
  }

  /** Two queries that differ only in the case of their ASCII letters select
      the same posts. */
  lemma SearchSameUpToCase(p: Post, q1: string, q2: string)
    requires Lower(q1) == Lower(q2)
    ensures MatchesSearch(p, q1) <==> MatchesSearch(p, q2)
  {
  }

  /** A partial, differently cased query finds a post through its tag: the
      query "comm" matches a post tagged "Community". */
  lemma PartialQueryMatchesTag(p: Post)
    requires "Community" in p.tags
    ensures MatchesSearch(p, "comm")
  {
    assert Lower("Community") == "community";
    assert Lower("comm") == "comm";
    assert OccursAt(Lower("Community"), Lower("comm"), 0);
  }

  /** The tag filter matches whole tags only: a post tagged only
      "Supporter" is dropped when "Support" is selected. */
  lemma TagFilterIsExact(p: Post)
    requires p.tags == ["Supporter"]
    ensures TagFilter([p], Some("Support")) == []
  {
    assert "Support" != "Supporter";
    assert !Tagged("Support")(p);
  }

  // ---------------------------------------------------------------------------
  // Mutations
  // ---------------------------------------------------------------------------

  /** The author every new post and comment is attributed to. */
  const CurrentUser: string := "Current User"

  /** `posts.map(post => post.id === postId ? update(post) : post)`. */
  function UpdateWhere(posts: seq<Post>, postId: string, update: Post -> Post): (r: seq<Post>)
    ensures |r| == |posts|
    ensures forall i :: 0 <= i < |posts| ==>
      r[i] == if posts[i].id == postId then update(posts[i]) else posts[i]
  {
    if posts == [] then []
    else [if posts[0].id == postId then update(posts[0]) else posts[0]]
         + UpdateWhere(posts[1..], postId, update)
  }

  /** `handleCreatePost`: the new post, with no votes, no comments and not
      saved, goes in front of the unchanged list. The id and the creation
      time are supplied by the caller. */
  function CreatePost(posts: seq<Post>, id: string, content: string, timestamp: int,
                      tags: seq<string>, mediaUrls: seq<string>): (r: seq<Post>)
    ensures |r| == |posts| + 1 && r[1..] == posts
    ensures r[0].id == id && r[0].content == content && r[0].author == CurrentUser
    ensures r[0].timestamp == timestamp && r[0].tags == tags && r[0].mediaUrls == Some(mediaUrls)
    ensures r[0].upvotes == 0 && r[0].downvotes == 0 && r[0].comments == [] && !r[0].saved
  {
    [Post(id, content, CurrentUser, timestamp, 0, 0, tags, Some(mediaUrls), [], false)] + posts
  }

  function AddUpvote(p: Post): Post {
    p.(upvotes := p.upvotes + 1)
  }

  function AddDownvote(p: Post): Post {
    p.(downvotes := p.downvotes + 1)
  }

  function FlipSaved(p: Post): Post {
    p.(saved := !p.saved)
  }

  function AppendComment(c: Comment): Post -> Post {
    (p: Post) => p.(comments := p.comments + [c])
  }

  /** `handleUpvote`: every post with the id gains one upvote; nothing else
      changes. */
  function Upvote(posts: seq<Post>, postId: string): (r: seq<Post>)
    ensures |r| == |posts|
    ensures forall i :: 0 <= i < |r| ==>
      && r[i].upvotes == posts[i].upvotes + (if posts[i].id == postId then 1 else 0)
      && r[i].(upvotes := posts[i].upvotes) == posts[i]
  {
    UpdateWhere(posts, postId, AddUpvote)
  }

  /** `handleDownvote`: every post with the id gains one downvote; nothing
      else changes. */
  function Downvote(posts: seq<Post>, postId: string): (r: seq<Post>)
    ensures |r| == |posts|
    ensures forall i :: 0 <= i < |r| ==>
      && r[i].downvotes == posts[i].downvotes + (if posts[i].id == postId then 1 else 0)
      && r[i].(downvotes := posts[i].downvotes) == posts[i]
  {
    UpdateWhere(posts, postId, AddDownvote)
  }

  /** `handleSave`: the saved flag flips on the posts with the id and only
      there; nothing else changes. */
  function ToggleSave(posts: seq<Post>, postId: string): (r: seq<Post>)
    ensures |r| == |posts|
    ensures forall i :: 0 <= i < |r| ==>
      && (r[i].saved != posts[i].saved <==> posts[i].id == postId)
      && r[i].(saved := posts[i].saved) == posts[i]
  {
    UpdateWhere(posts, postId, FlipSaved)
  }

  /** The comment `handleComment` builds: no votes, by the current user. */
  function NewComment(commentId: string, content: string, timestamp: int): Comment {
    Comment(commentId, content, CurrentUser, timestamp, 0, 0)
  }

  /** `handleComment`: every post with the id gets the new comment at the end
      of its comments; nothing else changes. */
  function AddComment(posts: seq<Post>, postId: string, commentId: string,
                      content: string, timestamp: int): (r: seq<Post>)
    ensures |r| == |posts|
    ensures forall i :: 0 <= i < |r| ==>
      && r[i].comments == posts[i].comments
           + (if posts[i].id == postId then [NewComment(commentId, content, timestamp)] else [])
      && r[i].(comments := posts[i].comments) == posts[i]
  {
    UpdateWhere(posts, postId, AppendComment(NewComment(commentId, content, timestamp)))
  }

  /** A vote moves the net score of each matching post by one and leaves the
      others alone. */
  lemma VotesMoveNetScore(posts: seq<Post>, postId: string)
    ensures forall i :: 0 <= i < |posts| ==>
      NetScore(Upvote(posts, postId)[i]) == NetScore(posts[i]) + (if posts[i].id == postId then 1 else 0)
    ensures forall i :: 0 <= i < |posts| ==>
      NetScore(Downvote(posts, postId)[i]) == NetScore(posts[i]) - (if posts[i].id == postId then 1 else 0)
  {
  }

  /** Votes on any two posts can be applied in either order. */
  lemma VotesCommute(posts: seq<Post>, a: string, b: string)
    ensures Upvote(Downvote(posts, a), b) == Downvote(Upvote(posts, b), a)
  {
    var x, y := Upvote(Downvote(posts, a), b), Downvote(Upvote(posts, b), a);
    assert |x| == |y|;
    forall i | 0 <= i < |x| ensures x[i] == y[i] {
    }
  }

  /** Saving twice restores the list. */
  lemma ToggleSaveTwice(posts: seq<Post>, postId: string)
    ensures ToggleSave(ToggleSave(posts, postId), postId) == posts
  {
    var r := ToggleSave(ToggleSave(posts, postId), postId);
    assert |r| == |posts|;
    forall i | 0 <= i < |r| ensures r[i] == posts[i] {
    }
  }

  // ---------------------------------------------------------------------------
  // Mutations seen through the view
  // ---------------------------------------------------------------------------

  /** Filtering commutes with an update that does not change the filter's
      verdict. */
  lemma {:induction false} FilterUpdateCommute(s: seq<Post>, keep: Post -> bool, postId: string, update: Post -> Post)
    requires forall p :: keep(update(p)) == keep(p)
    ensures Filter(UpdateWhere(s, postId, update), keep) == UpdateWhere(Filter(s, keep), postId, update)
  {
    if s != [] {
      var x, t := s[0], s[1..];
      var ux := if x.id == postId then update(x) else x;
      var ut := UpdateWhere(t, postId, update);
      FilterUpdateCommute(t, keep, postId, update);
      assert UpdateWhere(s, postId, update) == [ux] + ut;
      FilterCons(ux, ut, keep);
      assert keep(ux) == keep(x);
      if keep(x) {
        var ft := Filter(t, keep);
        assert Filter(s, keep) == [x] + ft;
        assert ([x] + ft)[0] == x && ([x] + ft)[1..] == ft;
        assert UpdateWhere([x] + ft, postId, update) == [ux] + UpdateWhere(ft, postId, update);
      } else {
        assert Filter(s, keep) == Filter(t, keep);
      }
    }
  }

  /** Sorting commutes with an update that does not change the sort key. */
  lemma SortUpdateCommute(s: seq<Post>, key: Post -> int, postId: string, update: Post -> Post)
    requires forall p :: key(update(p)) == key(p)
    ensures SortDesc(UpdateWhere(s, postId, update), key) == UpdateWhere(SortDesc(s, key), postId, update)
  {
    var sorted := SortDesc(s, key);
    var v := UpdateWhere(sorted, postId, update);
    forall i, j | 0 <= i < j < |v| ensures key(v[i]) >= key(v[j]) {
      assert key(v[i]) == key(sorted[i]);
      assert key(v[j]) == key(sorted[j]);
    }
    forall k ensures Filter(v, KeyIs(key, k)) == Filter(UpdateWhere(s, postId, update), KeyIs(key, k)) {
      FilterUpdateCommute(sorted, KeyIs(key, k), postId, update);
      FilterUpdateCommute(s, KeyIs(key, k), postId, update);
      SortStable(s, key, k);
    }
    SortDescCharacterized(UpdateWhere(s, postId, update), v, key);
  }

  /** An update that keeps visibility and the sort key can be applied to the
      list or to the view with the same result: the view is not reordered. */
  lemma ViewCommutesWithUpdate(posts: seq<Post>, query: string, selectedTag: Option<string>,
                               sortBy: SortOption, trendingScore: Post -> int,
                               postId: string, update: Post -> Post)
    requires forall p :: Visible(update(p), query, selectedTag) == Visible(p, query, selectedTag)
    requires forall p :: SortKey(sortBy, trendingScore)(update(p)) == SortKey(sortBy, trendingScore)(p)
    ensures VisiblePosts(UpdateWhere(posts, postId, update), query, selectedTag, sortBy, trendingScore)
         == UpdateWhere(VisiblePosts(posts, query, selectedTag, sortBy, trendingScore), postId, update)
  {
    var vis := VisibleIn(query, selectedTag);
    var key := SortKey(sortBy, trendingScore);
    FiltersCombine(posts, query, selectedTag);
    FiltersCombine(UpdateWhere(posts, postId, update), query, selectedTag);
    FilterUpdateCommute(posts, vis, postId, update);
    SortUpdateCommute(Filter(posts, vis), key, postId, update);
  }

  /** Saving a post updates it in place in the `newest` and `top` views
      without reordering them. */
  lemma SaveKeepsView(posts: seq<Post>, query: string, selectedTag: Option<string>,
                      sortBy: SortOption, trendingScore: Post -> int, postId: string)
    requires sortBy != Trending
    ensures VisiblePosts(ToggleSave(posts, postId), query, selectedTag, sortBy, trendingScore)
         == ToggleSave(VisiblePosts(posts, query, selectedTag, sortBy, trendingScore), postId)
  {
    var key := SortKey(sortBy, trendingScore);
    forall p ensures key(FlipSaved(p)) == key(p) {
      if sortBy == Top {
        assert NetScore(FlipSaved(p)) == NetScore(p);
      } else {
        assert CreatedAt(FlipSaved(p)) == CreatedAt(p);
      }
    }
    ViewCommutesWithUpdate(posts, query, selectedTag, sortBy, trendingScore, postId, FlipSaved);
  }

  /** Commenting on a post updates it in place in the `newest` and `top`
      views without reordering them. */
  lemma CommentKeepsView(posts: seq<Post>, query: string, selectedTag: Option<string>,
                         sortBy: SortOption, trendingScore: Post -> int,
                         postId: string, commentId: string, content: string, timestamp: int)
    requires sortBy != Trending
    ensures VisiblePosts(AddComment(posts, postId, commentId, content, timestamp), query, selectedTag, sortBy, trendingScore)
         == AddComment(VisiblePosts(posts, query, selectedTag, sortBy, trendingScore), postId, commentId, content, timestamp)
  {
    var key := SortKey(sortBy, trendingScore);
    var append := AppendComment(NewComment(commentId, content, timestamp));
    forall p ensures key(append(p)) == key(p) {
      if sortBy == Top {
        assert NetScore(append(p)) == NetScore(p);
      } else {
        assert CreatedAt(append(p)) == CreatedAt(p);
      }
    }
    ViewCommutesWithUpdate(posts, query, selectedTag, sortBy, trendingScore, postId, append);
  }

  /** Votes do not reorder the `newest` view. */
  lemma VotesKeepNewestView(posts: seq<Post>, query: string, selectedTag: Option<string>,
                            trendingScore: Post -> int, postId: string)
    ensures VisiblePosts(Upvote(posts, postId), query, selectedTag, Newest, trendingScore)
         == Upvote(VisiblePosts(posts, query, selectedTag, Newest, trendingScore), postId)
    ensures VisiblePosts(Downvote(posts, postId), query, selectedTag, Newest, trendingScore)
         == Downvote(VisiblePosts(posts, query, selectedTag, Newest, trendingScore), postId)
  {
    ViewCommutesWithUpdate(posts, query, selectedTag, Newest, trendingScore, postId, AddUpvote);
    ViewCommutesWithUpdate(posts, query, selectedTag, Newest, trendingScore, postId, AddDownvote);
  }

  /** A newly created post that passes the filters and is at least as recent
      as every existing post heads the `newest` view, in front of the
      previous view. */
  lemma CreatedPostLeadsNewest(posts: seq<Post>, query: string, selectedTag: Option<string>,
                               trendingScore: Post -> int, id: string, content: string,
                               timestamp: int, tags: seq<string>, mediaUrls: seq<string>)
    requires forall p :: p in posts ==> p.timestamp <= timestamp
    requires Visible(CreatePost(posts, id, content, timestamp, tags, mediaUrls)[0], query, selectedTag)
    ensures VisiblePosts(CreatePost(posts, id, content, timestamp, tags, mediaUrls), query, selectedTag, Newest, trendingScore)
         == [CreatePost(posts, id, content, timestamp, tags, mediaUrls)[0]]
            + VisiblePosts(posts, query, selectedTag, Newest, trendingScore)
  {
    var all := CreatePost(posts, id, content, timestamp, tags, mediaUrls);
    var np := all[0];
    var vis := VisibleIn(query, selectedTag);
    assert all == [np] + posts;
    FiltersCombine(all, query, selectedTag);
    FiltersCombine(posts, query, selectedTag);
    FilterCons(np, posts, vis);
    SortDescLeader(np, Filter(posts, vis), CreatedAt);
  }
}
