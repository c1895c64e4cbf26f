/** The two collection idioms the post screens share: looking a post up by the id in the route
    (`posts.find((p) => String(p.id) === String(id))`) and replacing the post with that id
    (`posts.map((p) => p.id === post.id ? ... : p)`). */
module PostList {
  import opened Wrappers
  import opened Store
  import Seqs

  function IdIs(id: int): Post -> bool {
    (p: Post) => p.id == id
  }

  /** The post a detail or edit screen shows: the first with the route's id. */
  function FindPost(posts: seq<Post>, id: int): (r: Option<Post>)
    ensures r.None? <==> forall i :: 0 <= i < |posts| ==> posts[i].id != id
    ensures r.Some? ==> exists i :: 0 <= i < |posts| && posts[i] == r.value && r.value.id == id
                                    && forall j :: 0 <= j < i ==> posts[j].id != id
  {
    match Seqs.FirstIndex(posts, IdIs(id))
    case None => None
    case Some(i) => Some(posts[i])
  }

  /** The guard `if (!post || post.deleted)`: the screen has a live post to act on. */
  predicate IsShown(posts: seq<Post>, id: int) {
    var found := FindPost(posts, id);
    found.Some? && !found.value.deleted
  }

  /** `posts.map((p) => p.id === id ? update(p) : p)`: every post with that id is passed through
      `update`, every other post is kept, and the order is unchanged. */
  function ReplaceById(posts: seq<Post>, id: int, update: Post -> Post): (r: seq<Post>)
    ensures |r| == |posts|
    ensures forall i :: 0 <= i < |posts| && posts[i].id == id ==> r[i] == update(posts[i])
    ensures forall i :: 0 <= i < |posts| && posts[i].id != id ==> r[i] == posts[i]
  {
    Seqs.Map(posts, (p: Post) => if p.id == id then update(p) else p)
  }

  /** `update` gives a post with id `id` back with that id. */
  ghost predicate KeepsId(update: Post -> Post, id: int) {
    forall p: Post :: p.id == id ==> update(p).id == id
  }

  /** An id-preserving replacement changes no id, so the screen finds the replaced version of the
      same post afterwards. */
  lemma FindAfterReplace(posts: seq<Post>, id: int, update: Post -> Post)
    requires KeepsId(update, id)
    ensures forall i :: 0 <= i < |posts| ==> ReplaceById(posts, id, update)[i].id == posts[i].id
    ensures FindPost(ReplaceById(posts, id, update), id)
         == if FindPost(posts, id).Some? then Some(update(FindPost(posts, id).value)) else None
  {
    var r := ReplaceById(posts, id, update);
    assert forall i :: 0 <= i < |posts| ==> r[i].id == posts[i].id;
    var found := FindPost(posts, id);
    if found.Some? {
      var i :| 0 <= i < |posts| && posts[i] == found.value && found.value.id == id
               && forall j :: 0 <= j < i ==> posts[j].id != id;
      var after := FindPost(r, id);
      var k :| 0 <= k < |r| && r[k] == after.value && after.value.id == id
               && forall j :: 0 <= j < k ==> r[j].id != id;
      assert k == i;
    }
  }
}
