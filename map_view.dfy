/** The map screen (`src/screens/MapView.jsx`): the posts that can be pinned, the search over
    their location and title, the map's centre and the two empty-state flags. */
module MapView {
  import opened Text
  import opened Store
  import Seqs

  /** Both coordinates are finite numbers. */
  predicate HasCoords(p: Post) {
    p.lat.Some? && p.lng.Some?
  }

  /** `postsWithCoords`: the posts with both coordinates, in store order. Deleted posts are not
      excluded. */
  function PostsWithCoords(posts: seq<Post>): (r: seq<Post>)
    ensures |r| <= |posts|
    ensures forall i :: 0 <= i < |r| ==> r[i] in posts && HasCoords(r[i])
  {
    Seqs.Filter(posts, HasCoords)
  }

  /** The pin search: the lower-cased location or title contains `q`. */
  predicate LocationOrTitleHas(q: string, p: Post) {
    Contains(ToLower(p.location), q) || Contains(ToLower(p.title), q)
  }

  function PlaceMatches(q: string): Post -> bool {
    (p: Post) => LocationOrTitleHas(q, p)
  }

  /** `query.trim().toLowerCase()`. */
  function PinQuery(query: string): string {
    ToLower(Trim(query))
  }

  /** `visible`: every pinned post for a blank query, otherwise those whose location or title
      contains the trimmed, lower-cased query. */
  function Visible(posts: seq<Post>, query: string): (r: seq<Post>)
    ensures |r| <= |posts|
    ensures forall i :: 0 <= i < |r| ==> r[i] in posts && HasCoords(r[i])
  {
    var q := PinQuery(query);
    if q == [] then PostsWithCoords(posts) else Seqs.Filter(PostsWithCoords(posts), PlaceMatches(q))
  }

  /** `defaultCenter`: the map's fixed centre when nothing is visible. */
  const DefaultCenter: (real, real) := (43.075, -89.4)

  /** `center`: the first visible post's coordinates, or the default centre. */
  function Center(posts: seq<Post>, query: string): (c: (real, real))
    ensures Visible(posts, query) == [] ==> c == DefaultCenter
    ensures Visible(posts, query) != [] ==>
              exists p :: p in posts && HasCoords(p) && p == Visible(posts, query)[0] && c == (p.lat.value, p.lng.value)
  {
    var visible := Visible(posts, query);
    if |visible| > 0 then
      var first := visible[0];
      assert first in PostsWithCoords(posts) by {
        VisibleOfBlankQuery(posts, query);
        Seqs.SubsequenceMembers(visible, PostsWithCoords(posts));
      }
      PinnedMembership(posts, first);
      (first.lat.value, first.lng.value)
    else DefaultCenter
  }

  /** `noPostsPinned`. */
  predicate NoPostsPinned(posts: seq<Post>) {
    |PostsWithCoords(posts)| == 0
  }

  /** The map has no pin exactly when no stored post has both coordinates. */
  lemma NoPostsPinnedMeaning(posts: seq<Post>)
    ensures NoPostsPinned(posts) <==> forall i :: 0 <= i < |posts| ==> !HasCoords(posts[i])
  {
    if !NoPostsPinned(posts) {
      PinnedMembership(posts, PostsWithCoords(posts)[0]);
    }
  }

  /** `noSearchResults`: a non-blank query finds nothing. */
  predicate NoSearchResults(posts: seq<Post>, query: string) {
    Trim(query) != [] && |Visible(posts, query)| == 0
  }

  /** A post is pinned exactly when it is in the store and has both coordinates; pins keep store
      order. */
  lemma PinnedMembership(posts: seq<Post>, p: Post)
    ensures p in PostsWithCoords(posts) <==> p in posts && HasCoords(p)
    ensures Seqs.IsSubsequence(PostsWithCoords(posts), posts)
  {
    Seqs.FilterIsSubsequence(posts, HasCoords);
    if p in posts && HasCoords(p) {
      var i :| 0 <= i < |posts| && posts[i] == p;
    }
  }

  /** For a blank query the search shows every pin; it always keeps a subsequence of the pins. */
  lemma VisibleOfBlankQuery(posts: seq<Post>, query: string)
    ensures AllSpace(query) ==> Visible(posts, query) == PostsWithCoords(posts)
    ensures Seqs.IsSubsequence(Visible(posts, query), PostsWithCoords(posts))
  {
    TrimEmptyIff(query);
    if PinQuery(query) == [] {
      Seqs.SubsequenceReflexive(PostsWithCoords(posts));
    } else {
      Seqs.FilterIsSubsequence(PostsWithCoords(posts), PlaceMatches(PinQuery(query)));
    }
  }

  /** For a non-blank query the search shows exactly the pins whose location or title contains
      the trimmed, lower-cased query. */
  lemma VisibleMembership(posts: seq<Post>, query: string, p: Post)
    requires !AllSpace(query)
    ensures p in Visible(posts, query) <==> p in PostsWithCoords(posts) && LocationOrTitleHas(PinQuery(query), p)
  {
    TrimEmptyIff(query);
    var pinned := PostsWithCoords(posts);
    if p in pinned && LocationOrTitleHas(PinQuery(query), p) {
      var i :| 0 <= i < |pinned| && pinned[i] == p;
    }
  }

  /** The "no results" message appears exactly when the query is not blank and no pinned post's
      location or title contains it. */
  lemma NoSearchResultsMeaning(posts: seq<Post>, query: string)
    ensures NoSearchResults(posts, query) <==>
              !AllSpace(query) && forall p :: p in PostsWithCoords(posts) ==> !LocationOrTitleHas(PinQuery(query), p)
  {
    TrimEmptyIff(query);
    if !AllSpace(query) {
      forall p | p in PostsWithCoords(posts) && LocationOrTitleHas(PinQuery(query), p)
        ensures |Visible(posts, query)| > 0
      {
        VisibleMembership(posts, query, p);
      }
      if |Visible(posts, query)| > 0 {
        var p := Visible(posts, query)[0];
        VisibleMembership(posts, query, p);
      }
    }
  }

  /** With nothing pinned, a non-blank query also shows the "no results" message. */
  lemma NothingPinnedNothingFound(posts: seq<Post>, query: string)
    requires NoPostsPinned(posts) && !AllSpace(query)
    ensures NoSearchResults(posts, query)
    ensures Center(posts, query) == DefaultCenter
  {
    TrimEmptyIff(query);
    VisibleOfBlankQuery(posts, query);
  }

  /** Unlike the feed, the map keeps soft-deleted posts: one with coordinates is still pinned. */
  lemma DeletedPostsStayPinned(posts: seq<Post>, p: Post)
    requires p in posts && p.deleted && HasCoords(p)
    ensures p in PostsWithCoords(posts)
  {
    PinnedMembership(posts, p);
  }
}
