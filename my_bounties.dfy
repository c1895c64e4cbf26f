/** The "My Bounties" screen (`src/screens/MyBounties.jsx`): the live bounty posts grouped by
    status into an object that starts with the four standard statuses, and the check whether any
    of the four standard groups has a post. */
module MyBounties {
  import opened Store
  import Seqs

  /** `p.type === 'bounty' && !p.deleted`. */
  predicate IsActiveBounty(p: Post) {
    p.postType == "bounty" && !p.deleted
  }

  /** The posts the loop visits, in store order. */
  function Active(posts: seq<Post>): seq<Post> {
    Seqs.Filter(posts, IsActiveBounty)
  }

  function StatusIs(status: string): Post -> bool {
    (p: Post) => p.status == status
  }

  /** What the group for `status` holds once the loop is done: the active bounties with that
      status, in store order. */
  function Bucket(posts: seq<Post>, status: string): seq<Post> {
    Seqs.Filter(Active(posts), StatusIs(status))
  }

  /** `order`: the four statuses the screen lists, in the order it lists them. */
  const StatusOrder: seq<string> := ["open", "claimed", "completed", "closed"]

  /** The keys `result` starts with. */
  const StandardKeys: set<string> := {"open", "claimed", "completed", "closed"}

  function Statuses(s: seq<Post>): set<string> {
    set i | 0 <= i < |s| :: s[i].status
  }

  /** `grouped` is the object the memo returns: the four standard keys and every status some
      active bounty has, each mapped to its bucket. */
  ghost predicate IsGrouping(posts: seq<Post>, grouped: map<string, seq<Post>>) {
    grouped.Keys == StandardKeys + Statuses(Active(posts))
    && forall k :: k in grouped ==> grouped[k] == Bucket(posts, k)
  }

  lemma {:induction false} FilterNone(s: seq<Post>, keep: Post -> bool)
    requires forall i :: 0 <= i < |s| ==> !keep(s[i])
    ensures Seqs.Filter(s, keep) == []
  {
    if s != [] {
      FilterNone(s[1..], keep);
    }
  }

  /** The loop's invariant after visiting `seen`: the four standard keys and every status seen,
      each mapped to the seen posts of that status, in order. */
  ghost predicate GroupedSoFar(seen: seq<Post>, grouped: map<string, seq<Post>>) {
    grouped.Keys == StandardKeys + Statuses(seen)
    && forall k :: k in grouped ==> grouped[k] == Seqs.Filter(seen, StatusIs(k))
  }

  /** One turn of the loop body: the group of the post's status, created empty if missing, with
      the post pushed onto it. */
  function Push(grouped: map<string, seq<Post>>, p: Post): map<string, seq<Post>> {
    var bucket := if p.status in grouped then grouped[p.status] else [];
    grouped[p.status := bucket + [p]]
  }

  lemma StatusesSnoc(seen: seq<Post>, p: Post)
    ensures Statuses(seen + [p]) == Statuses(seen) + {p.status}
  {
    var next := seen + [p];
    assert forall j :: 0 <= j < |seen| ==> next[j] == seen[j];
    assert next[|seen|] == p;
  }

  lemma FilterSnoc(seen: seq<Post>, p: Post, k: string)
    ensures Seqs.Filter(seen + [p], StatusIs(k)) == Seqs.Filter(seen, StatusIs(k)) + (if p.status == k then [p] else [])
  {
    Seqs.FilterConcat(seen, [p], StatusIs(k));
    assert [p][1..] == [];
  }

  /** A status not among the keys has no post among those seen. */
  lemma UnseenStatus(seen: seq<Post>, grouped: map<string, seq<Post>>, status: string)
    requires GroupedSoFar(seen, grouped) && status !in grouped
    ensures Seqs.Filter(seen, StatusIs(status)) == []
  {
    forall j | 0 <= j < |seen| ensures !StatusIs(status)(seen[j]) {
      assert seen[j].status in Statuses(seen);
    }
    FilterNone(seen, StatusIs(status));
  }

  /** One turn of the loop keeps the invariant. */
  lemma PushKeepsGrouping(seen: seq<Post>, p: Post, grouped: map<string, seq<Post>>)
    requires GroupedSoFar(seen, grouped)
    ensures GroupedSoFar(seen + [p], Push(grouped, p))
  {
    var next, after := seen + [p], Push(grouped, p);
    StatusesSnoc(seen, p);
    if p.status !in grouped {
      UnseenStatus(seen, grouped, p.status);
    }
    forall k | k in after ensures after[k] == Seqs.Filter(next, StatusIs(k)) {
      FilterSnoc(seen, p, k);
    }
  }

  /** The `forEach` over the active bounties: a missing group is created empty, then the post is
      pushed onto the group of its status. */
  method GroupEach(active: seq<Post>) returns (grouped: map<string, seq<Post>>)
    ensures GroupedSoFar(active, grouped)
  {
    grouped := map["open" := [], "claimed" := [], "completed" := [], "closed" := []];
    StartGrouping(active, grouped);
    var i := 0;
    while i < |active|
      invariant 0 <= i <= |active|
      invariant GroupedSoFar(active[..i], grouped)
    {
      var p := active[i];
      TakeOneMore(active, i);
      PushKeepsGrouping(active[..i], p, grouped);
      var bucket := if p.status in grouped then grouped[p.status] else [];
      grouped := grouped[p.status := bucket + [p]];
      i := i + 1;
    }
    assert active[..|active|] == active;
  }

  /** `grouped`: the active bounties, grouped by status. */
  method GroupByStatus(posts: seq<Post>) returns (grouped: map<string, seq<Post>>)
    ensures IsGrouping(posts, grouped)
  {
    grouped := GroupEach(Active(posts));
  }

  lemma TakeOneMore(s: seq<Post>, i: int)
    requires 0 <= i < |s|
    ensures s[..i + 1] == s[..i] + [s[i]]
  {
  }

  /** Before the loop: the four empty standard groups, nothing seen. */
  lemma StartGrouping(active: seq<Post>, grouped: map<string, seq<Post>>)
    requires grouped == map["open" := [], "claimed" := [], "completed" := [], "closed" := []]
    ensures GroupedSoFar(active[..0], grouped)
  {
    assert active[..0] == [];
    assert Statuses([]) == {};
  }

  /** The groups partition the active bounties by status: a post is in group `k` exactly when it
      is an active bounty with status `k`, and every active bounty's status is a key. */
  lemma GroupingPartition(posts: seq<Post>, grouped: map<string, seq<Post>>, p: Post)
    requires IsGrouping(posts, grouped)
    ensures forall k :: k in grouped ==> (p in grouped[k] <==> p in posts && IsActiveBounty(p) && p.status == k)
    ensures p in posts && IsActiveBounty(p) ==> p.status in grouped
  {
    var active := Active(posts);
    if p in posts && IsActiveBounty(p) {
      var i :| 0 <= i < |posts| && posts[i] == p;
      assert p in active;
      var j :| 0 <= j < |active| && active[j] == p;
      assert p.status in Statuses(active);
    }
    forall k | k in grouped && p in grouped[k] ensures p in posts && IsActiveBounty(p) {
      var b := grouped[k];
      var j :| 0 <= j < |b| && b[j] == p;
      assert p in active;
      var m :| 0 <= m < |active| && active[m] == p;
    }
    forall k | k in grouped && p in posts && IsActiveBounty(p) && p.status == k ensures p in grouped[k] {
      assert p in active;
      var m :| 0 <= m < |active| && active[m] == p;
    }
  }

  /** Each group lists its posts in store order. */
  lemma BucketInStoreOrder(posts: seq<Post>, status: string)
    ensures Seqs.IsSubsequence(Bucket(posts, status), posts)
  {
    Seqs.FilterIsSubsequence(posts, IsActiveBounty);
    Seqs.FilterIsSubsequence(Active(posts), StatusIs(status));
    Seqs.SubsequenceTransitive(Bucket(posts, status), Active(posts), posts);
  }

  predicate Distinct(keys: seq<string>) {
    forall i, j :: 0 <= i < j < |keys| ==> keys[i] != keys[j]
  }

  /** The total size of the groups for `keys`. */
  function BucketSizes(active: seq<Post>, keys: seq<string>): nat {
    if keys == [] then 0 else |Seqs.Filter(active, StatusIs(keys[0]))| + BucketSizes(active, keys[1..])
  }

  /** How many of `keys` equal `s`. */
  function Occurrences(keys: seq<string>, s: string): nat {
    if keys == [] then 0 else (if keys[0] == s then 1 else 0) + Occurrences(keys[1..], s)
  }

  lemma {:induction false} OccursOnce(keys: seq<string>, s: string)
    requires Distinct(keys) && s in keys
    ensures Occurrences(keys, s) == 1
  {
    if keys[0] != s {
      OccursOnce(keys[1..], s);
    } else {
      NotOccurring(keys[1..], s);
    }
  }

  lemma {:induction false} NotOccurring(keys: seq<string>, s: string)
    requires s !in keys
    ensures Occurrences(keys, s) == 0
  {
    if keys != [] {
      NotOccurring(keys[1..], s);
    }
  }

  /** Adding one post in front adds one to the group of its status and nothing to the others. */
  lemma {:induction false} BucketSizesCons(p: Post, rest: seq<Post>, keys: seq<string>)
    ensures BucketSizes([p] + rest, keys) == Occurrences(keys, p.status) + BucketSizes(rest, keys)
  {
    if keys != [] {
      BucketSizesCons(p, rest, keys[1..]);
      assert ([p] + rest)[1..] == rest;
    }
  }

  /** Over any list of distinct statuses that covers every active bounty, for instance the keys
      of `grouped`, the group sizes add up to the number of active bounties. */
  lemma {:induction false} GroupSizesSum(active: seq<Post>, keys: seq<string>)
    requires Distinct(keys)
    requires forall i :: 0 <= i < |active| ==> active[i].status in keys
    ensures BucketSizes(active, keys) == |active|
  {
    if active == [] {
      EmptyBuckets(keys);
    } else {
      var rest := active[1..];
      assert active == [active[0]] + rest;
      GroupSizesSum(rest, keys);
      BucketSizesCons(active[0], rest, keys);
      OccursOnce(keys, active[0].status);
    }
  }

  /** The sizes of the groups `grouped` has for `keys`, a missing group counting as empty. */
  function GroupTotal(grouped: map<string, seq<Post>>, keys: seq<string>): nat {
    if keys == [] then 0
    else (if keys[0] in grouped then |grouped[keys[0]]| else 0) + GroupTotal(grouped, keys[1..])
  }

  /** Over the keys of the object the loop builds, listed once each, the group sizes add up to
      the number of active bounties: every live bounty lands in exactly one group. */
  lemma GroupingSizesSum(posts: seq<Post>, grouped: map<string, seq<Post>>, keys: seq<string>)
    requires IsGrouping(posts, grouped)
    requires Distinct(keys)
    requires forall k :: k in grouped <==> k in keys
    ensures GroupTotal(grouped, keys) == |Active(posts)|
  {
    var active := Active(posts);
    GroupTotalOfBuckets(posts, grouped, keys);
    forall i | 0 <= i < |active| ensures active[i].status in keys {
      assert active[i].status in Statuses(active);
    }
    GroupSizesSum(active, keys);
  }

  lemma {:induction false} GroupTotalOfBuckets(posts: seq<Post>, grouped: map<string, seq<Post>>, keys: seq<string>)
    requires IsGrouping(posts, grouped)
    requires forall i :: 0 <= i < |keys| ==> keys[i] in grouped
    ensures GroupTotal(grouped, keys) == BucketSizes(Active(posts), keys)
  {
    if keys != [] {
      GroupTotalOfBuckets(posts, grouped, keys[1..]);
    }
  }

  lemma {:induction false} EmptyBuckets(keys: seq<string>)
    ensures BucketSizes([], keys) == 0
  {
    if keys != [] {
      EmptyBuckets(keys[1..]);
    }
  }

  function BucketIsFull(grouped: map<string, seq<Post>>): string -> bool {
    (k: string) => k in grouped && |grouped[k]| > 0
  }

  /** `order.some((k) => (grouped[k] || []).length > 0)`. */
  function HasAnyPosts(grouped: map<string, seq<Post>>): bool {
    Seqs.AnyOf(StatusOrder, BucketIsFull(grouped))
  }

  /** The screen shows groups exactly when some live bounty has one of the four standard
      statuses; bounties whose status is anything else get a group that is never listed. */
  lemma HasAnyPostsMeaning(posts: seq<Post>, grouped: map<string, seq<Post>>)
    requires IsGrouping(posts, grouped)
    ensures HasAnyPosts(grouped) <==> exists i :: 0 <= i < |posts| && IsActiveBounty(posts[i]) && posts[i].status in StatusOrder
  {
    if HasAnyPosts(grouped) {
      var k :| 0 <= k < |StatusOrder| && BucketIsFull(grouped)(StatusOrder[k]);
      var p := grouped[StatusOrder[k]][0];
      GroupingPartition(posts, grouped, p);
      var i :| 0 <= i < |posts| && posts[i] == p;
    }
    if exists i :: 0 <= i < |posts| && IsActiveBounty(posts[i]) && posts[i].status in StatusOrder {
      var i :| 0 <= i < |posts| && IsActiveBounty(posts[i]) && posts[i].status in StatusOrder;
      var p := posts[i];
      GroupingPartition(posts, grouped, p);
      var k :| 0 <= k < |StatusOrder| && StatusOrder[k] == p.status;
      assert BucketIsFull(grouped)(StatusOrder[k]);
    }
  }
}
