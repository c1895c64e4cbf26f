/** The home feed (`src/screens/BountyFeed.jsx`): the live posts that pass the channel tab, the
    status selector, the reward bounds, the tag list and the search box, in store order. */
module BountyFeed {
  import opened Wrappers
  import opened Text
  import opened Store
  import Seqs

  /** The feed's filter state: the channel tab, the status selector, the two reward inputs, the
      comma-separated tag input and the search text. */
  datatype FeedFilters = FeedFilters(
    channel: string,
    status: string,
    min: NumField,
    max: NumField,
    tags: string,
    searchQuery: string)

  /** The state the screen starts in: every tab and selector on "all", every input empty. */
  const Initial := FeedFilters("all", "all", Blank, Blank, "", "")

  /** The channel tab: bounties, pre-owned items (`sale` or `free`), activities, or any other
      value, which lets every type through. */
  predicate MatchesChannel(channel: string, post: Post) {
    if channel == "bounty" then post.postType == "bounty"
    else if channel == "resale" then post.postType == "sale" || post.postType == "free"
    else if channel == "activity" then post.postType == "activity"
    else true
  }

  predicate MatchesStatus(status: string, post: Post) {
    status == "all" || post.status == status
  }

  /** `post.price ?? 0`: a post without a price counts as free; a NaN price stays NaN. */
  function EffectivePrice(post: Post): Num {
    match post.price
    case None => Int(0)
    case Some(n) => n
  }

  /** `price >= bound` and `price <= bound` on numbers: any comparison with NaN is false. */
  predicate AtLeast(price: Num, bound: Num) {
    price.Int? && bound.Int? && price.n >= bound.n
  }

  predicate AtMost(price: Num, bound: Num) {
    price.Int? && bound.Int? && price.n <= bound.n
  }

  /** An empty bound input puts no bound; a filled one is inclusive. */
  predicate MatchesPrice(min: NumField, max: NumField, post: Post) {
    (min.Blank? || AtLeast(EffectivePrice(post), min.number))
    && (max.Blank? || AtMost(EffectivePrice(post), max.number))
  }

  function LowerTrim(t: string): string {
    ToLower(Trim(t))
  }

  /** `tags.split(',').map((t) => t.trim().toLowerCase()).filter(Boolean)`. */
  function WantedTags(tags: string): (r: seq<string>)
    ensures forall k :: 0 <= k < |r| ==> r[k] != [] && IsLower(r[k])
  {
    var pieces := Split(tags, ',');
    var lowered := Seqs.Map(pieces, LowerTrim);
    var r := Seqs.Filter(lowered, NonEmpty);
    forall k | 0 <= k < |r| ensures IsLower(r[k]) {
      var j :| 0 <= j < |lowered| && lowered[j] == r[k];
      ToLowerIsLower(Trim(pieces[j]));
    }
    r
  }

  /** The tags the filter asks for are exactly the entries of the filter text, in order,
      lower-cased: trimming before lower-casing drops the same pieces as trimming alone. */
  lemma WantedTagsAreEntries(tags: string)
    ensures WantedTags(tags) == Seqs.Map(ParseList(tags), ToLower)
  {
    LowerEntries(Split(tags, ','));
  }

  lemma {:induction false} LowerEntries(pieces: seq<string>)
    ensures Seqs.Filter(Seqs.Map(pieces, LowerTrim), NonEmpty) == Seqs.Map(Entries(pieces), ToLower)
  {
    if pieces != [] {
      var rest := pieces[1..];
      LowerEntries(rest);
      var lowered, trimmed := Seqs.Map(pieces, LowerTrim), Seqs.Map(pieces, Trim);
      assert lowered[1..] == Seqs.Map(rest, LowerTrim);
      assert trimmed[1..] == Seqs.Map(rest, Trim);
      assert NonEmpty(lowered[0]) == NonEmpty(trimmed[0]);
      if NonEmpty(trimmed[0]) {
        assert Entries(pieces) == [trimmed[0]] + Entries(rest);
        assert Seqs.Map([trimmed[0]] + Entries(rest), ToLower)[1..] == Seqs.Map(Entries(rest), ToLower);
      }
    }
  }

  /** Some tag of the post, lower-cased, is `t`. */
  predicate HasTag(post: Post, t: string) {
    exists j :: 0 <= j < |post.tags| && ToLower(post.tags[j]) == t
  }

  /** Every wanted tag is among the post's tags, ignoring case; no wanted tags lets all through. */
  predicate MatchesTags(wanted: seq<string>, post: Post) {
    forall k :: 0 <= k < |wanted| ==> HasTag(post, wanted[k])
  }

  /** The lower-cased, untrimmed query occurs in the lower-cased title, description or location;
      an empty query lets all through. */
  predicate MatchesSearch(query: string, post: Post) {
    var q := ToLower(query);
    q == [] || Contains(ToLower(post.title), q) || Contains(ToLower(post.description), q)
    || Contains(ToLower(post.location), q)
  }

  /** The predicate passed to the second `filter`, with the wanted tags computed once. */
  predicate Matches(f: FeedFilters, wanted: seq<string>, post: Post) {
    MatchesChannel(f.channel, post) && MatchesStatus(f.status, post) && MatchesPrice(f.min, f.max, post)
    && MatchesTags(wanted, post) && MatchesSearch(f.searchQuery, post)
  }

  function Criteria(f: FeedFilters, wanted: seq<string>): Post -> bool {
    (p: Post) => Matches(f, wanted, p)
  }

  predicate IsLive(p: Post) {
    !p.deleted
  }

  /** `filteredPosts`: the posts not deleted, then those passing every filter. */
  function FilteredPosts(posts: seq<Post>, f: FeedFilters): (r: seq<Post>)
    ensures |r| <= |posts|
    ensures forall i :: 0 <= i < |r| ==> r[i] in posts && !r[i].deleted && Matches(f, WantedTags(f.tags), r[i])
  {
    Seqs.Filter(Seqs.Filter(posts, IsLive), Criteria(f, WantedTags(f.tags)))
  }

  /** A post is in the feed exactly when it is in the store, not deleted, and passes every filter. */
  lemma FeedMembership(posts: seq<Post>, f: FeedFilters, p: Post)
    ensures p in FilteredPosts(posts, f) <==> p in posts && !p.deleted && Matches(f, WantedTags(f.tags), p)
  {
    var live := Seqs.Filter(posts, IsLive);
    if p in posts && !p.deleted {
      var i :| 0 <= i < |posts| && posts[i] == p;
      assert p in live;
    }
    if p in live {
      var i :| 0 <= i < |live| && live[i] == p;
      assert IsLive(live[i]);
    }
  }

  /** The feed lists store posts in store order, and only those. */
  lemma FeedIsSubsequence(posts: seq<Post>, f: FeedFilters)
    ensures Seqs.IsSubsequence(FilteredPosts(posts, f), posts)
  {
    var live := Seqs.Filter(posts, IsLive);
    Seqs.FilterIsSubsequence(posts, IsLive);
    Seqs.FilterIsSubsequence(live, Criteria(f, WantedTags(f.tags)));
    Seqs.SubsequenceTransitive(FilteredPosts(posts, f), live, posts);
  }

  /** Applying the same filters to the feed changes nothing. */
  lemma FeedIdempotent(posts: seq<Post>, f: FeedFilters)
    ensures FilteredPosts(FilteredPosts(posts, f), f) == FilteredPosts(posts, f)
  {
    var r := FilteredPosts(posts, f);
    forall i | 0 <= i < |r| ensures IsLive(r[i]) && Matches(f, WantedTags(f.tags), r[i]) {
      FeedMembership(posts, f, r[i]);
    }
    Seqs.FilterKeepsAll(r, IsLive);
    Seqs.FilterKeepsAll(r, Criteria(f, WantedTags(f.tags)));
  }

  /** With the initial filters the feed is every post that is not deleted. */
  lemma InitialShowsAllLive(posts: seq<Post>)
    ensures FilteredPosts(posts, Initial) == Seqs.Filter(posts, IsLive)
  {
    assert Split("", ',') == [[]];
    assert Seqs.Map([[]], LowerTrim) == [[]];
    assert WantedTags("") == [];
    var live := Seqs.Filter(posts, IsLive);
    forall i | 0 <= i < |live| ensures Matches(Initial, [], live[i]) {
    }
    Seqs.FilterKeepsAll(live, Criteria(Initial, []));
  }

  /** `WantedTags` of two inputs joined by a comma is the wanted tags of each, in turn. */
  lemma WantedTagsConcat(a: string, b: string)
    ensures WantedTags(a + [','] + b) == WantedTags(a) + WantedTags(b)
  {
    SplitConcat(a, ',', b);
    var pa, pb := Split(a, ','), Split(b, ',');
    Seqs.MapConcat(pa, pb, LowerTrim);
    Seqs.FilterConcat(Seqs.Map(pa, LowerTrim), Seqs.Map(pb, LowerTrim), NonEmpty);
  }

  /** Typing more tags after a comma can only narrow the feed: it keeps a subsequence of what it
      showed before. */
  lemma MoreTagsNarrow(posts: seq<Post>, f: FeedFilters, more: string)
    ensures Seqs.IsSubsequence(FilteredPosts(posts, f.(tags := f.tags + [','] + more)), FilteredPosts(posts, f))
  {
    var g := f.(tags := f.tags + [','] + more);
    var w, extra := WantedTags(f.tags), WantedTags(more);
    WantedTagsConcat(f.tags, more);
    assert WantedTags(g.tags) == w + extra;
    var live := Seqs.Filter(posts, IsLive);
    forall i | 0 <= i < |live| ensures Matches(g, w + extra, live[i]) ==> Matches(f, w, live[i]) {
      assert forall k :: 0 <= k < |w| ==> (w + extra)[k] == w[k];
    }
    Seqs.FilterMonotone(live, Criteria(g, w + extra), Criteria(f, w));
  }

  /** The search ignores case: a query and its lower-cased form select the same posts. */
  lemma SearchIgnoresCase(query: string, post: Post)
    ensures MatchesSearch(query, post) == MatchesSearch(ToLower(query), post)
  {
    ToLowerIsLower(query);
    ToLowerOfLower(ToLower(query));
  }

  /** A post without a price is bounded like a post priced 0, and with both bounds filled in as
      integers the test is `min <= price <= max`, bounds included. */
  lemma PriceBoundsMeaning(min: NumField, max: NumField, post: Post)
    ensures post.price.None? ==> MatchesPrice(min, max, post) == MatchesPrice(min, max, post.(price := Some(Int(0))))
    ensures MatchesPrice(Blank, Blank, post)
    ensures forall lo: int, hi: int, n: int :: post.price == Some(Int(n)) ==>
              (MatchesPrice(Entered(Int(lo)), Entered(Int(hi)), post) <==> lo <= n <= hi)
    ensures min.Entered? && min.number.NaN? ==> !MatchesPrice(min, max, post)
    ensures max.Entered? && max.number.NaN? ==> !MatchesPrice(min, max, post)
  {
  }

  /** The tag filter is conjunctive: with two tag lists joined by a comma, a post passes exactly
      when it passes each list on its own. */
  lemma TagsConjunctive(a: string, b: string, post: Post)
    ensures MatchesTags(WantedTags(a + [','] + b), post) <==> MatchesTags(WantedTags(a), post) && MatchesTags(WantedTags(b), post)
  {
    WantedTagsConcat(a, b);
    MatchesTagsConcat(WantedTags(a), WantedTags(b), post);
  }

  lemma MatchesTagsConcat(wa: seq<string>, wb: seq<string>, post: Post)
    ensures MatchesTags(wa + wb, post) <==> MatchesTags(wa, post) && MatchesTags(wb, post)
  {
    assert forall k :: 0 <= k < |wa| ==> (wa + wb)[k] == wa[k];
    assert forall k :: 0 <= k < |wb| ==> (wa + wb)[|wa| + k] == wb[k];
  }

  /** With the pre-owned tab and reward bounds 20 to 30, a sale post priced 25 is listed and a
      bounty post rewarding 30 is not: the tab takes only `sale` and `free`. */
  lemma ResaleWithinBounds(sale: Post, bounty: Post)
    requires sale.postType == "sale" && sale.price == Some(Int(25)) && !sale.deleted
    requires bounty.postType == "bounty" && bounty.price == Some(Int(30)) && !bounty.deleted
    ensures FilteredPosts([sale, bounty], FeedFilters("resale", "all", Entered(Int(20)), Entered(Int(30)), "", "")) == [sale]
  {
    var f := FeedFilters("resale", "all", Entered(Int(20)), Entered(Int(30)), "", "");
    var posts := [sale, bounty];
    assert Split("", ',') == [[]];
    assert Seqs.Map([[]], LowerTrim) == [[]];
    assert WantedTags("") == [];
    assert posts[1..] == [bounty] && [bounty][1..] == [];
    assert Seqs.Filter(posts, IsLive) == posts;
    var keep := Criteria(f, []);
    assert keep(sale) && !keep(bounty);
    assert Seqs.Filter([bounty], keep) == [];
  }
}
