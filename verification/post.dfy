/** The records of `src/types/post.ts`. Timestamps are JavaScript `Date`
    values read as integer milliseconds (`getTime()`); vote counts are
    non-negative. */
module PostTypes {

  /** A value that may be absent (`?:` fields, `| null` state). */
  datatype Option<T> = None | Some(value: T)

  datatype Comment = Comment(
    id: string,
    content: string,
    author: string,
    timestamp: int,
    upvotes: nat,
    downvotes: nat)

  datatype Post = Post(
    id: string,
    content: string,
    author: string,
    timestamp: int,
    upvotes: nat,
    downvotes: nat,
    tags: seq<string>,
    mediaUrls: Option<seq<string>>,
    comments: seq<Comment>,
    saved: bool)

  datatype SortOption = Newest | Top | Trending

  /** The tags a post can be given in the compose form, in display order. */
  const AvailableTags: seq<string> :=
    ["Community", "Events", "Support", "Discussion", "News", "Resource", "Question", "Social"]

  /** Net score: upvotes minus downvotes, possibly negative. */
  function NetScore(p: Post): int {
    p.upvotes - p.downvotes
  }

  /** Creation time in milliseconds, the key of the `newest` order. */
  function CreatedAt(p: Post): int {
    p.timestamp
  }
}
