/** The first prototype's single screen (`src/App.tsx`): a fixed list of mock posts filtered by a
    type selector and a search over title and description. */
module AppPrototype {
  import opened Wrappers
  import opened Text
  import opened Store
  import Seqs

  /** The type selector: `'all'` or the one type shown. */
  predicate MatchesFilter(filter: string, post: Post) {
    filter == "all" || post.postType == filter
  }

  /** The search: an empty query lets all through; otherwise the lower-cased query occurs in the
      lower-cased title or description. The location is not searched. */
  predicate MatchesSearch(query: string, post: Post) {
    query == [] || Contains(ToLower(post.title), ToLower(query)) || Contains(ToLower(post.description), ToLower(query))
  }

  predicate AppMatches(filter: string, query: string, post: Post) {
    MatchesFilter(filter, post) && MatchesSearch(query, post)
  }

  function AppCriteria(filter: string, query: string): Post -> bool {
    (p: Post) => AppMatches(filter, query, p)
  }

  /** `filteredPosts` of the prototype. */
  function AppFilteredPosts(posts: seq<Post>, filter: string, query: string): (r: seq<Post>)
    ensures |r| <= |posts|
    ensures forall i :: 0 <= i < |r| ==> r[i] in posts && AppMatches(filter, query, r[i])
  {
    Seqs.Filter(posts, AppCriteria(filter, query))
  }

  /** A listing with only the fields the prototype's `Post` interface has. */
  function Listing(id: int, title: string, postType: string, price: Option<Num>, description: string,
                   status: string, tags: seq<string>, location: string): Post {
    Post(id, title, postType, price, description, status, tags, location, [], [], false, None, None, None, None)
  }

  /** `mockPosts`: four listings with ids 1 to 4 in order, two sale or free items and two
      bounties, none of them deleted. */
  function MockPosts(): (r: seq<Post>)
    ensures |r| == 4
    ensures forall i :: 0 <= i < |r| ==> r[i].id == i + 1 && !r[i].deleted
    ensures forall i :: 0 <= i < |r| ==> (r[i].postType == "bounty" <==> i >= 2)
  {
    [
    Listing(1, "Office Chair - Like New", "sale", Some(Int(25)),
            "Comfortable office chair, barely used. Great condition!", "open", ["furniture", "office"], "Lakeshore Dorms"),
    Listing(2, "Free Bookshelf", "free", None,
            "Small bookshelf, free to good home. Pick up only.", "open", ["furniture", "free"], "Southeast Dorms"),
    Listing(3, "Need Help Moving Boxes", "bounty", Some(Int(30)),
            "Looking for someone to help move boxes from apartment to storage unit. Should take about 2 hours.",
            "open", ["moving", "help"], "Downtown"),
    Listing(4, "IKEA Desk Assembly", "bounty", Some(Int(20)),
            "Need someone to assemble a desk. Tools provided, just need the help!", "claimed", ["assembly", "furniture"],
            "Near Campus")
    ]
  }

  /** A post is listed exactly when it is in the list and passes the selector and the search; the
      listing keeps the list's order. */
  lemma AppMembership(posts: seq<Post>, filter: string, query: string, p: Post)
    ensures p in AppFilteredPosts(posts, filter, query) <==> p in posts && AppMatches(filter, query, p)
    ensures Seqs.IsSubsequence(AppFilteredPosts(posts, filter, query), posts)
  {
    Seqs.FilterIsSubsequence(posts, AppCriteria(filter, query));
    if p in posts && AppMatches(filter, query, p) {
      var i :| 0 <= i < |posts| && posts[i] == p;
    }
  }

  /** With `'all'` and an empty query every post is listed. */
  lemma AppShowsAllInitially(posts: seq<Post>)
    ensures AppFilteredPosts(posts, "all", "") == posts
  {
    Seqs.FilterKeepsAll(posts, AppCriteria("all", ""));
  }

  /** The search never looks at the location: moving a post elsewhere does not change whether it
      is listed. */
  lemma AppIgnoresLocation(filter: string, query: string, p: Post, location: string)
    ensures AppMatches(filter, query, p.(location := location)) == AppMatches(filter, query, p)
  {
  }

  /** Only a step of `MockBounties`: `filter` over four elements of which the last two pass. */
  lemma KeepLastTwo(s: seq<Post>, keep: Post -> bool)
    requires |s| == 4 && !keep(s[0]) && !keep(s[1]) && keep(s[2]) && keep(s[3])
    ensures Seqs.Filter(s, keep) == [s[2], s[3]]
  {
    assert s[3..][1..] == [];
    assert Seqs.Filter(s[3..], keep) == [s[3]];
    assert s[2..][1..] == s[3..];
    assert Seqs.Filter(s[2..], keep) == [s[2], s[3]];
    assert s[1..][1..] == s[2..];
    assert Seqs.Filter(s[1..], keep) == [s[2], s[3]];
  }

  /** On the mock data the Bounties selector lists posts 3 and 4, in that order. */
  lemma MockBounties()
    ensures AppFilteredPosts(MockPosts(), "bounty", "") == [MockPosts()[2], MockPosts()[3]]
  {
    var s := MockPosts();
    var keep := AppCriteria("bounty", "");
    assert !keep(s[0]) && !keep(s[1]) && keep(s[2]) && keep(s[3]);
    KeepLastTwo(s, keep);
  }
}
