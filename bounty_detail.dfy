/** The handlers of the post detail screen (`src/screens/BountyDetail.jsx`): adding a comment,
    changing the status and soft-deleting, each rebuilding the collection and storing it. */
module BountyDetail {
  import opened Text
  import opened Store
  import opened PostList

  /** What a handler did: the screen had no post to act on, the input was ignored, or the
      collection was replaced. */
  datatype Outcome = NotFound | Ignored | Applied

  /** The per-post update of `addComment`. */
  function CommentAdded(c: Comment): Post -> Post {
    (p: Post) => p.(comments := p.comments + [c])
  }

  /** The per-post update of `changeStatus(nextStatus)`. */
  function StatusSet(nextStatus: string): Post -> Post {
    (p: Post) => p.(status := nextStatus)
  }

  /** The per-post update of `softDelete`. */
  function SoftDeleted(p: Post): Post {
    p.(deleted := true, status := "closed")
  }

  /** `addComment`: text that trims to nothing is ignored; otherwise a comment with the trimmed
      text and the clock reading `now` as its id goes at the end of the post's comments. */
  method AddComment(store: PostStore, id: int, text: string, now: int) returns (outcome: Outcome)
    modifies store
    ensures !IsShown(old(store.posts), id) ==> outcome == NotFound && store.posts == old(store.posts)
    ensures IsShown(old(store.posts), id) && Trim(text) == [] ==> outcome == Ignored && store.posts == old(store.posts)
    ensures IsShown(old(store.posts), id) && Trim(text) != [] ==>
              outcome == Applied
              && store.posts == ReplaceById(old(store.posts), id, CommentAdded(Comment(now, Trim(text))))
  {
    var posts := store.posts;
    if !IsShown(posts, id) {
      return NotFound;
    }
    var trimmed := Trim(text);
    if trimmed == [] {
      return Ignored;
    }
    store.SetPosts(ReplaceById(posts, id, CommentAdded(Comment(now, trimmed))));
    outcome := Applied;
  }

  /** `changeStatus(nextStatus)`: any status, from any status. */
  method ChangeStatus(store: PostStore, id: int, nextStatus: string) returns (outcome: Outcome)
    modifies store
    ensures !IsShown(old(store.posts), id) ==> outcome == NotFound && store.posts == old(store.posts)
    ensures IsShown(old(store.posts), id) ==>
              outcome == Applied && store.posts == ReplaceById(old(store.posts), id, StatusSet(nextStatus))
  {
    var posts := store.posts;
    if !IsShown(posts, id) {
      return NotFound;
    }
    store.SetPosts(ReplaceById(posts, id, StatusSet(nextStatus)));
    outcome := Applied;
  }

  /** `softDelete`: the post stays in the collection, marked deleted and closed. */
  method SoftDelete(store: PostStore, id: int) returns (outcome: Outcome)
    modifies store
    ensures !IsShown(old(store.posts), id) ==> outcome == NotFound && store.posts == old(store.posts)
    ensures IsShown(old(store.posts), id) ==>
              outcome == Applied && store.posts == ReplaceById(old(store.posts), id, SoftDeleted)
  {
    var posts := store.posts;
    if !IsShown(posts, id) {
      return NotFound;
    }
    store.SetPosts(ReplaceById(posts, id, SoftDeleted));
    outcome := Applied;
  }

  /** A comment lands at the end of the post's comments, the earlier ones untouched, and nothing
      else about any post changes. */
  lemma AddCommentAppends(posts: seq<Post>, id: int, c: Comment, i: int)
    requires 0 <= i < |posts|
    ensures var r := ReplaceById(posts, id, CommentAdded(c));
            |r| == |posts|
            && (posts[i].id == id ==>
                  r[i].comments == posts[i].comments + [c] && r[i] == posts[i].(comments := r[i].comments))
            && (posts[i].id != id ==> r[i] == posts[i])
  {
  }

  /** The status becomes `nextStatus` whatever it was, and nothing else changes. */
  lemma ChangeStatusSets(posts: seq<Post>, id: int, nextStatus: string, i: int)
    requires 0 <= i < |posts|
    ensures var r := ReplaceById(posts, id, StatusSet(nextStatus));
            |r| == |posts|
            && (posts[i].id == id ==> r[i].status == nextStatus && r[i] == posts[i].(status := nextStatus))
            && (posts[i].id != id ==> r[i] == posts[i])
  {
  }

  /** Soft-deleting twice is soft-deleting once. */
  lemma SoftDeleteIdempotent(posts: seq<Post>, id: int)
    ensures ReplaceById(ReplaceById(posts, id, SoftDeleted), id, SoftDeleted) == ReplaceById(posts, id, SoftDeleted)
  {
    var once := ReplaceById(posts, id, SoftDeleted);
    var twice := ReplaceById(once, id, SoftDeleted);
    forall i | 0 <= i < |posts| ensures twice[i] == once[i] {
      assert once[i].id == posts[i].id;
    }
  }

  /** After a soft delete the detail screen for that id shows "not found", so no handler can
      reach the post again. */
  lemma SoftDeleteHides(posts: seq<Post>, id: int)
    ensures !IsShown(ReplaceById(posts, id, SoftDeleted), id)
  {
    FindAfterReplace(posts, id, SoftDeleted);
  }

  /** Comments and status changes leave a shown post shown. */
  lemma UpdatesKeepPostShown(posts: seq<Post>, id: int, c: Comment, nextStatus: string)
    requires IsShown(posts, id)
    ensures IsShown(ReplaceById(posts, id, CommentAdded(c)), id)
    ensures IsShown(ReplaceById(posts, id, StatusSet(nextStatus)), id)
  {
    FindAfterReplace(posts, id, CommentAdded(c));
    FindAfterReplace(posts, id, StatusSet(nextStatus));
  }
}
