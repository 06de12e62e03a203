/**
 * The arithmetic of the tagged-comments archive page: the posts the tagged
 * comments belong to, in first-appearance order, the number of comments per
 * post, and the comments shown under each post.
 */
module TaggedArchive {
  import opened Php

  /** A tagged comment, as far as the grouping looks at it. */
  datatype Comment = Comment(commentId: int, postId: int)

  function PostIds(comments: seq<Comment>): (ps: seq<int>)
    ensures |ps| == |comments|
    ensures forall i :: 0 <= i < |comments| ==> ps[i] == comments[i].postId
  {
    MapSeq((c: Comment) => c.postId, comments)
  }

  /** The number of comments on post `p`. */
  function CountOn(comments: seq<Comment>, p: int): nat
    decreases |comments|
  {
    if comments == [] then 0
    else CountOn(comments[..|comments| - 1], p) + (if comments[|comments| - 1].postId == p then 1 else 0)
  }

  /** The comments on post `p`, in their original order. */
  function CommentsOn(comments: seq<Comment>, p: int): (r: seq<Comment>)
    ensures |r| == CountOn(comments, p)
    ensures forall i :: 0 <= i < |r| ==> r[i].postId == p && r[i] in comments
    ensures forall c :: c in comments && c.postId == p ==> c in r
    decreases |comments|
  {
    if comments == [] then []
    else
      var init, last := comments[..|comments| - 1], comments[|comments| - 1];
      assert comments == init + [last];
      var front := CommentsOn(init, p);
      if last.postId == p then front + [last] else front
  }

  /** The posts of the comments, each once, in the order the loop meets them. */
  function PostsWith(comments: seq<Comment>): seq<int>
    decreases |comments|
  {
    if comments == [] then []
    else
      var front := PostsWith(comments[..|comments| - 1]);
      var p := comments[|comments| - 1].postId;
      if p in front then front else front + [p]
  }

  /** The loop's list of posts is `array_unique` of the comments' post IDs. */
  lemma {:induction false} PostsWithUnique(comments: seq<Comment>)
    ensures PostsWith(comments) == Unique(PostIds(comments))
    decreases |comments|
  {
    if comments != [] {
      var init, last := comments[..|comments| - 1], comments[|comments| - 1];
      PostsWithUnique(init);
      assert comments == init + [last];
      assert PostIds(comments) == PostIds(init) + [last.postId];
      UniqueSnoc(PostIds(init), last.postId);
    }
  }

  /**
   * The loop of comment_tagger_get_tagged_comments_content (and its
   * CommentPress twin) that builds `$posts_with` and `$post_comment_counts`.
   */
  method GroupByPost(comments: seq<Comment>) returns (postsWith: seq<int>, counts: map<int, int>)
    ensures postsWith == Unique(PostIds(comments))
    ensures forall p :: p in counts <==> p in postsWith
    ensures forall p :: p in counts ==> counts[p] == CountOn(comments, p)
  {
    postsWith, counts := [], map[];
    for i := 0 to |comments|
      invariant postsWith == PostsWith(comments[..i])
      invariant forall p :: p in counts <==> p in postsWith
      invariant forall p :: CountOn(comments[..i], p) == if p in counts then counts[p] else 0
    {
      assert comments[..i + 1][..i] == comments[..i];
      var p := comments[i].postId;
      if p !in postsWith {
        postsWith := postsWith + [p];
      }
      if p !in counts {
        counts := counts[p := 1];
      } else {
        counts := counts[p := counts[p] + 1];
      }
    }
    assert comments[..|comments|] == comments;
    PostsWithUnique(comments);
  }

  /** The loop that picks the comments to show under post `postId`. */
  method CommentsToShow(allComments: seq<Comment>, postId: int) returns (shown: seq<Comment>)
    ensures shown == CommentsOn(allComments, postId)
  {
    shown := [];
    for i := 0 to |allComments|
      invariant shown == CommentsOn(allComments[..i], postId)
    {
      assert allComments[..i + 1][..i] == allComments[..i];
      if allComments[i].postId == postId {
        shown := shown + [allComments[i]];
      }
    }
    assert allComments[..|allComments|] == allComments;
  }

  /** The sum of the per-post counts over the posts `ps`. */
  function Total(ps: seq<int>, comments: seq<Comment>): nat
    decreases |ps|
  {
    if ps == [] then 0 else CountOn(comments, ps[0]) + Total(ps[1..], comments)
  }

  lemma {:induction false} TotalSnoc(ps: seq<int>, comments: seq<Comment>, c: Comment)
    requires NoDuplicates(ps)
    ensures Total(ps, comments + [c]) == Total(ps, comments) + (if c.postId in ps then 1 else 0)
    decreases |ps|
  {
    assert (comments + [c])[..|comments|] == comments;
    if ps != [] {
      TotalSnoc(ps[1..], comments, c);
      assert c.postId in ps <==> c.postId == ps[0] || c.postId in ps[1..];
    }
  }

  /** Over distinct posts that cover every comment, the counts add up to the number of comments. */
  lemma {:induction false} TotalCovers(ps: seq<int>, comments: seq<Comment>)
    requires NoDuplicates(ps)
    requires forall i :: 0 <= i < |comments| ==> comments[i].postId in ps
    ensures Total(ps, comments) == |comments|
    decreases |comments|
  {
    if comments == [] {
      TotalEmpty(ps);
    } else {
      var init := comments[..|comments| - 1];
      TotalCovers(ps, init);
      TotalSnoc(ps, init, comments[|comments| - 1]);
      assert init + [comments[|comments| - 1]] == comments;
    }
  }

  lemma {:induction false} TotalEmpty(ps: seq<int>)
    ensures Total(ps, []) == 0
    decreases |ps|
  {
    if ps != [] {
      TotalEmpty(ps[1..]);
    }
  }

  /** The per-post counts of the archive page add up to the number of tagged comments. */
  lemma CountsAddUp(comments: seq<Comment>)
    ensures Total(Unique(PostIds(comments)), comments) == |comments|
  {
    TotalCovers(Unique(PostIds(comments)), comments);
  }
}
