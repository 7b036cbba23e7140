# Feed model

A Dafny model of the feed of a small React Native social app. Users write
posts, tag them, vote, save and comment on them. The feed screen holds the
post list in memory and derives the visible view from it. A search query
matches post content and tags without regard to case. A selected tag must
match exactly. The view is then sorted newest-first, by net score (`top`),
or by a trending score. The compose form builds new posts, and the post
list renders relative ages and the comment box.

The model is functional: posts, comments and form states are immutable
datatypes, and every handler is a pure function from the old state to the
new one, matching the copy-on-write `setState` calls of the app.

Modules:

- `PostTypes` (`post.dfy`): `Post`, `Comment`, `SortOption`, the offered tags, net score.
- `Text` (`text.dfy`): ASCII lower-casing, substring search (`includes`), `trim` with the ECMAScript whitespace set, and decimal rendering of integers.
- `Seqs` (`seqs.dfy`): `filter`, subsequences, and the stable descending sort that `Array.prototype.sort` performs with a `key(b) - key(a)` comparator.
- `Feed` (`feed.dfy`): the view derivation and the create, vote, save and comment handlers.
- `Compose` (`compose.dfy`): the compose form, `toggleTag`, images and the submit guard.
- `PostList` (`post_list.dfy`): relative time labels, the comment submit guard, the expanded comment section and the comment counter.

Clock readings, new ids and the trending score are parameters. Ids are not
assumed unique. Sequences are values, so deriving the view cannot change the
post list, just as the app sorts a copy (`[...posts]`) and not the state.
A timestamp in the future gives a negative difference, which renders as a
negative number of minutes (`-1m ago`); the model keeps that behaviour.

Three behaviours of the code worth knowing:

- Creating a post does not check the content itself. The blank-content check sits in the compose form's submit handler.
- Voting, saving or commenting with an unknown id is a silent no-op, not an error.
- "No tag selected" is either `null` or the empty string, because the code tests JavaScript truthiness.

## Model

| member | source | states |
|---|---|---|
| `Feed.MatchesSearch` | src/components/Feed/FeedScreen.tsx:21-24 | A post matches a query iff the lower-cased query occurs at some position of the lower-cased content or of some lower-cased tag. |
| `Feed.SearchFilter` | src/components/Feed/FeedScreen.tsx:20-25 | An empty query keeps the list as is. Otherwise a post is kept iff its lower-cased content or one of its lower-cased tags contains the lower-cased query. The result is a subsequence of the input. |
| `Feed.TagFilter` | src/components/Feed/FeedScreen.tsx:28-32 | A null or empty tag keeps the list. Otherwise a post is kept iff its tags contain the tag exactly. The result is a subsequence of the input. |
| `Feed.FiltersCombine` | src/components/Feed/FeedScreen.tsx:17-32 | The search step followed by the tag step equals a single filter by the `Visible` predicate. |
| `Feed.VisiblePosts` | src/components/Feed/FeedScreen.tsx:16-51 | The view is a permutation of the visible posts. It is sorted in descending order of the mode's key. |
| `Feed.VisiblePostsStable` | src/components/Feed/FeedScreen.tsx:34-51 | Within each key value, the view keeps the input order of the visible posts, because the sort is stable. |
| `Feed.VisibleMembership` | src/components/Feed/FeedScreen.tsx:17-32 | A post is in the view iff it is in the list and passes both filters. It appears there as many times as in the list. |
| `Feed.FilteredIsSubsequence` | src/components/Feed/FeedScreen.tsx:17-32 | The filtered list, before sorting, is a subsequence of the posts. |
| `Feed.NewestOrder` | src/components/Feed/FeedScreen.tsx:46-50 | Under `newest`, timestamps never increase along the view. |
| `Feed.TopOrder` | src/components/Feed/FeedScreen.tsx:36-39 | Under `top`, upvotes minus downvotes never increases along the view. |
| `Feed.EmptyFeed` | src/components/Feed/FeedScreen.tsx:16-51 | An empty post list yields an empty view for any query, tag and mode. |
| `Feed.VisiblePostsUnique` | src/components/Feed/FeedScreen.tsx:34-51 | A sequence that is sorted by the mode's key and keeps each key class in input order is the view. So a stable sort fixes the output. |
| `Feed.SearchIgnoresQueryCase` | src/components/Feed/FeedScreen.tsx:22-23 | Lower-casing the query does not change which posts match. |
| `Feed.SearchSameUpToCase` | src/components/Feed/FeedScreen.tsx:22-23 | Two queries with the same lower-cased form match exactly the same posts. |
| `Feed.PartialQueryMatchesTag` | src/components/Feed/FeedScreen.tsx:23 | The query "comm" matches every post tagged "Community": the match is by lower-cased substring. |
| `Feed.TagFilterIsExact` | src/components/Feed/FeedScreen.tsx:28-31 | Selecting "Support" drops a post tagged only "Supporter": the tag filter compares whole tags. |
| `Feed.UpdateWhere` | src/components/Feed/FeedScreen.tsx:79-83 | The id-matched `map` keeps the length and position of every post. A post with the id is replaced by the update of it. Every other post is kept as it was. |
| `Feed.CreatePost` | src/components/Feed/FeedScreen.tsx:61-76 | The new post goes at index 0 with the given id, content, time, tags and media. It has zero votes, no comments and is not saved. The old list follows unchanged, so the length grows by one. |
| `Feed.Upvote` | src/components/Feed/FeedScreen.tsx:78-84 | Each post with the id gains exactly one upvote. No other field, no other post, the length and the order change. |
| `Feed.Downvote` | src/components/Feed/FeedScreen.tsx:86-92 | Each post with the id gains exactly one downvote. Nothing else changes. |
| `Feed.ToggleSave` | src/components/Feed/FeedScreen.tsx:94-100 | `saved` flips exactly on the posts with the id. Nothing else changes. |
| `Feed.AddComment` | src/components/Feed/FeedScreen.tsx:102-121 | Each post with the id gets one zero-vote comment by the current user, appended at the end of its comments. Nothing else changes. |
| `Feed.VotesMoveNetScore` | src/components/Feed/FeedScreen.tsx:78-92 | An upvote raises the net score of each matching post by one. A downvote lowers it by one. Other posts keep their score. |
| `Feed.VotesCommute` | src/components/Feed/FeedScreen.tsx:78-92 | An upvote and a downvote give the same list in either order. |
| `Feed.ToggleSaveTwice` | src/components/Feed/FeedScreen.tsx:94-100 | Saving twice with the same id restores the list. |
| `Feed.FilterUpdateCommute` | src/components/Feed/FeedScreen.tsx:21-31 | Filtering commutes with the id-matched `map` when the update does not change the filter's verdict. |
| `Feed.SortUpdateCommute` | src/components/Feed/FeedScreen.tsx:37-50 | The stable sort commutes with the id-matched `map` when the update does not change the sort key. |
| `Feed.ViewCommutesWithUpdate` | src/components/Feed/FeedScreen.tsx:16-51 | An update that keeps visibility and the sort key gives the same result on the list as on the view. |
| `Feed.SaveKeepsView` | src/components/Feed/FeedScreen.tsx:94-100 | Under `newest` and `top`, saving changes the post in place in the view. The view is not reordered. |
| `Feed.CommentKeepsView` | src/components/Feed/FeedScreen.tsx:102-121 | Under `newest` and `top`, commenting changes the post in place in the view. The view is not reordered. |
| `Feed.VotesKeepNewestView` | src/components/Feed/FeedScreen.tsx:78-92 | Under `newest`, votes change posts in place without reordering the view. |
| `Feed.CreatedPostLeadsNewest` | src/components/Feed/FeedScreen.tsx:61-76 | A new visible post that is at least as recent as every other post heads the `newest` view. The previous view follows it. |
| `Seqs.SortDesc` | src/components/Feed/FeedScreen.tsx:37-39 | The sort returns a permutation of its input, sorted by descending key. |
| `Seqs.SortStable` | src/components/Feed/FeedScreen.tsx:46-50 | Elements with equal keys keep their input order, as the stable ECMAScript sort promises. |
| `Seqs.SortedStableUnique` | src/components/Feed/FeedScreen.tsx:36-50 | Two sorted sequences that agree on the order of every key class are equal. |
| `Seqs.SortDescCharacterized` | src/components/Feed/FeedScreen.tsx:36-50 | The sort's result is the only sorted sequence that keeps every key class in input order. |
| `Seqs.FilterMultiset` | src/components/Feed/FeedScreen.tsx:21-24 | A filter keeps every occurrence of a kept element and no occurrence of a dropped one. |
| `Seqs.FilterIsSubsequence` | src/components/Feed/FeedScreen.tsx:29-31 | A filter's result is a subsequence of its input. |
| `Text.ContainsIff` | src/components/Feed/FeedScreen.tsx:22-23 | `includes` holds iff the needle occurs at some position of the text. |
| `Text.HasTextIff` | src/components/Feed/CreatePost.tsx:18 | `trim()` is non-empty iff the text has a character that is not JavaScript whitespace. |
| `Text.IntRoundTrip` | src/components/Feed/PostList.tsx:29-31 | Parsing the decimal rendering of an integer gives the integer back. |
| `Compose.Submit` | src/components/Feed/CreatePost.tsx:17-25 | Submit fires iff the content has a non-whitespace character. It then passes content, tags and media unchanged and resets the form to empty and collapsed. Otherwise the form is unchanged. |
| `Compose.SubmitOnce` | src/components/Feed/CreatePost.tsx:17-25 | A second submit right after a successful one does not fire. |
| `Compose.Focus` | src/components/Feed/CreatePost.tsx:49 | Focusing the text field expands the form. Nothing else changes. |
| `Compose.FocusKeepsSubmission` | src/components/Feed/CreatePost.tsx:17-25 | Focusing before a press on "Post" does not change what is sent. A send still resets to the empty form, and a blank form stays open. |
| `Compose.ToggleTag` | src/components/Feed/CreatePost.tsx:27-33 | The tag's membership flips and no other tag's does. A present tag is removed everywhere and the others keep their order and counts. An absent tag is appended at the end. |
| `Compose.ToggleTagTwice` | src/components/Feed/CreatePost.tsx:27-33 | Toggling an absent tag twice restores the selection. |
| `Compose.ToggleTagNoDup` | src/components/Feed/CreatePost.tsx:27-33 | A selection without duplicates stays without duplicates. |
| `Compose.ToggleTagBounded` | src/components/Feed/CreatePost.tsx:59-66 | Toggling only the offered tags keeps the selection among them. It is never longer than the eight offered tags. |
| `Compose.AddImage` | src/components/Feed/CreatePost.tsx:36-38 | One placeholder URL is appended at the end. The rest of the form is unchanged. |
| `Compose.DropIndex` | src/components/Feed/CreatePost.tsx:89 | Filtering out position `index` drops exactly that entry when the index is in range, keeping the others in order. Otherwise the list is unchanged. |
| `Compose.RemoveImage` | src/components/Feed/CreatePost.tsx:89 | An in-range remove shortens the image list by one. An out-of-range one leaves the form as it was. Nothing but the image list changes. |
| `Compose.RemoveUndoesAddImage` | src/components/Feed/CreatePost.tsx:36-38 | Removing the image at the position just filled by an add gives back the original form. |
| `Compose.RemoveMedia` | src/components/Feed/CreatePost.tsx:89 | For an in-range index, exactly that URL is removed and the others keep their order. An out-of-range index changes nothing. The result agrees with `Compose.RemoveImage`. |
| `PostList.Bucket` | src/components/Feed/PostList.tsx:24-31 | The unit is minutes below one hour, hours below one day, and days from one day on. So exactly one branch applies. The count is the floored quotient of the difference by that unit. Hours lie in 1..23 and days are at least 1. A non-negative difference gives a non-negative count. |
| `PostList.BucketMonotone` | src/components/Feed/PostList.tsx:24-31 | A larger difference never gives a smaller unit, nor a smaller count within the same unit. |
| `PostList.FormatTimestamp` | src/components/Feed/PostList.tsx:22-32 | Below an hour the label is the floored minutes plus `m ago`. Below a day it is the floored hours plus `h ago`. From a day on it is the floored days plus `d ago`. |
| `PostList.FormatTimestampReadsBack` | src/components/Feed/PostList.tsx:22-32 | The label is the count's decimal text followed by `m ago`, `h ago` or `d ago`. The count parses back from the text. |
| `PostList.SubmitComment` | src/components/Feed/PostList.tsx:34-39 | Submitting calls `onComment` with the post id and the untrimmed text iff the text has a non-whitespace character, and then clears the box. Otherwise there is no call and the text is unchanged. |
| `PostList.SubmitCommentOnce` | src/components/Feed/PostList.tsx:34-39 | A second submit right after a successful one makes no call. |
| `PostList.CommentCount` | src/components/Feed/PostList.tsx:112 | The fallback to 0 for a falsy length never changes the number: the count shown is the number of comments. |
| `PostList.SentCommentCounted` | src/components/Feed/PostList.tsx:112 | After a sent comment reaches the feed, the shown comment count of each post with that id rises by exactly one. The counts of other posts do not change. |
| `PostList.ToggleExpanded` | src/components/Feed/PostList.tsx:109 | Pressing on the expanded post collapses everything. Pressing on another post makes it the one expanded post. |
| `PostList.AtMostOneExpanded` | src/components/Feed/PostList.tsx:127 | When post ids are distinct, at most one post shows its comment section. |
| `PostList.ToggleExpandedTwice` | src/components/Feed/PostList.tsx:109 | Two presses on the same post restore the state if that post was open or nothing was open. Otherwise they close everything. |

## Left out

- Trending score (src/components/Feed/FeedScreen.tsx:40-45, 55-59): it uses floating-point `Math.pow(hoursOld + 2, 1.8)` and reads the wall clock. The model takes it as an integer-valued ranking function. Only sortedness and stability are stated for it. Those lemmas rely on the score being one fixed function. The code instead reads a fresh `new Date()` at every comparison (FeedScreen.tsx:42-43, 56). For a post dated more than two hours ahead, `Math.pow` of a negative base gives `NaN`. Either can make the comparator inconsistent, and then the ECMAScript sort order is implementation-defined.
- `SortOption` allows only three values, so the `default` branch of the sort is reached only by `newest`. No separate "unrecognised mode" exists in the model.
- `Date.now()` ids and `new Date()` timestamps are inputs of `Feed.CreatePost` and `Feed.AddComment`. The clock of `formatTimestamp` is the `now` parameter of `PostList.FormatTimestamp`.
- `Feed.AddComment` takes one comment id and one timestamp per call. The code reads `Date.now()` and `new Date()` inside the `map` callback (FeedScreen.tsx:110, 113), once per matching post. So with several posts sharing the id and a clock that ticks between callbacks, their comments can get different ids and times, whereas the model gives them all the same comment.
- `toLowerCase` is modelled for ASCII letters only. Other characters are left as they are.
- Invalid `Date` values, which give `NaN` times and comparator results, are not modelled. Timestamps are integer milliseconds.
- Vote counts are unbounded naturals. JavaScript number precision limits are not modelled.
- `PostList.AtMostOneExpanded` assumes distinct ids. With colliding `Date.now()` ids, every post sharing the expanded id shows its comments, because the render test compares ids.
- The optional chaining in the comment counter's `comments?.length` is not modelled: `comments` is a required field of `Post`, so it is never absent.
- Text-field edits (`onChangeText`), the share modal, the header, the image picker, post details, navigation, authentication and all rendering and styles are presentation or glue with no logic to model.
