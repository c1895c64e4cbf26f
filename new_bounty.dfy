/** The submit handler of the new-post form (`src/screens/NewBounty.jsx`): validation, the next
    id, parsing of the tag and image lists, construction of the post and its appending. */
module NewBounty {
  import opened Wrappers
  import opened Text
  import opened Store
  import opened PostList

  /** The form's state: its text inputs, with the price input read as a number field. */
  datatype PostForm = PostForm(
    title: string,
    postType: string,
    price: NumField,
    description: string,
    location: string,
    tagsInput: string,
    imageUrls: string)

  /** The two messages the form shows instead of submitting. */
  datatype FormError = MissingTitleOrDescription | InvalidReward

  /** `Number.isNaN(n) || n < 0`. */
  predicate IsBadReward(n: Num) {
    n.NaN? || n.n < 0
  }

  /** The checks `handleSubmit` makes before building a post, in order. The edit form makes the
      same checks. */
  function Validate(form: PostForm): Option<FormError> {
    if Trim(form.title) == [] || Trim(form.description) == [] then Some(MissingTitleOrDescription)
    else if form.postType == "bounty" && form.price.Entered? && IsBadReward(form.price.number) then Some(InvalidReward)
    else None
  }

  /** Validation fails exactly on a blank title or description, or on a bounty whose price input
      is filled in but is NaN or negative; other types accept any price input. */
  lemma ValidateMeaning(form: PostForm)
    ensures Validate(form) == Some(MissingTitleOrDescription) <==> AllSpace(form.title) || AllSpace(form.description)
    ensures Validate(form) == Some(InvalidReward) <==>
              !AllSpace(form.title) && !AllSpace(form.description)
              && form.postType == "bounty" && form.price.Entered? && IsBadReward(form.price.number)
    ensures form.postType != "bounty" ==> Validate(form) != Some(InvalidReward)
  {
    TrimEmptyIff(form.title);
    TrimEmptyIff(form.description);
  }

  /** `price === '' ? undefined : Number(price)`. */
  function FieldPrice(price: NumField): (r: Option<Num>)
    ensures r.None? <==> price.Blank?
  {
    match price
    case Blank => None
    case Entered(n) => Some(n)
  }

  /** `Math.max(...posts.map((p) => p.id))`. */
  function MaxId(posts: seq<Post>): (m: int)
    requires |posts| > 0
    ensures forall i :: 0 <= i < |posts| ==> posts[i].id <= m
    ensures exists i :: 0 <= i < |posts| && posts[i].id == m
  {
    if |posts| == 1 then posts[0].id
    else
      var rest := MaxId(posts[1..]);
      assert forall i :: 1 <= i < |posts| ==> posts[i] == posts[1..][i - 1];
      if posts[0].id >= rest then posts[0].id else rest
  }

  /** `posts.length ? Math.max(...ids) + 1 : 1`: larger than every id in use, so not one of them. */
  function NextId(posts: seq<Post>): (r: int)
    ensures forall i :: 0 <= i < |posts| ==> posts[i].id < r
    ensures |posts| == 0 ==> r == 1
    ensures |posts| > 0 ==> exists i :: 0 <= i < |posts| && posts[i].id == r - 1
  {
    if |posts| == 0 then 1 else MaxId(posts) + 1
  }

  /** The post `handleSubmit` builds: open, no comments, no author, no coordinates. */
  function NewPost(posts: seq<Post>, form: PostForm): (p: Post)
    ensures forall i :: 0 <= i < |posts| ==> posts[i].id < p.id
    ensures p.status == "open" && p.comments == []
    ensures p.title == Trim(form.title) && p.description == Trim(form.description) && p.location == Trim(form.location)
    ensures IsTrimmed(p.title) && IsTrimmed(p.description) && IsTrimmed(p.location)
    ensures p.postType == form.postType && (p.price.None? <==> form.price.Blank?)
    ensures p.tags == ParseList(form.tagsInput) && p.images == ParseList(form.imageUrls)
    ensures forall k :: 0 <= k < |p.tags| ==> IsEntry(p.tags[k])
    ensures forall k :: 0 <= k < |p.images| ==> IsEntry(p.images[k])
    ensures !p.deleted && p.authorId.None? && p.updatedAt.None? && p.lat.None? && p.lng.None?
  {
    Post(
      id := NextId(posts),
      title := Trim(form.title),
      postType := form.postType,
      price := FieldPrice(form.price),
      description := Trim(form.description),
      status := "open",
      tags := ParseList(form.tagsInput),
      location := Trim(form.location),
      images := ParseList(form.imageUrls),
      comments := [],
      deleted := false,
      authorId := None,
      updatedAt := None,
      lat := None,
      lng := None)
  }

  /** The collection after a submit: unchanged on a validation error, otherwise the old posts
      followed by exactly one new one. */
  function Submit(posts: seq<Post>, form: PostForm): (r: Result<seq<Post>, FormError>)
    ensures r.Failure? <==> Validate(form).Some?
    ensures r.Failure? ==> r.error == Validate(form).value
    ensures r.Success? ==> |r.value| == |posts| + 1 && r.value[..|posts|] == posts
                           && r.value[|posts|] == NewPost(posts, form)
  {
    match Validate(form)
    case Some(e) => Failure(e)
    case None =>
      var next := posts + [NewPost(posts, form)];
      assert next[..|posts|] == posts;
      Success(next)
  }

  /** No two posts share an id. */
  ghost predicate DistinctIds(posts: seq<Post>) {
    forall i, j :: 0 <= i < j < |posts| ==> posts[i].id != posts[j].id
  }

  /** Appending a post whose id exceeds every id in use keeps ids distinct, and the new post is
      the one its id finds. */
  lemma AppendFreshId(posts: seq<Post>, p: Post)
    requires DistinctIds(posts)
    requires forall i :: 0 <= i < |posts| ==> posts[i].id < p.id
    ensures DistinctIds(posts + [p])
    ensures FindPost(posts + [p], p.id) == Some(p)
  {
    FindAppended(posts, p);
  }

  /** Looking up an id larger than every stored one, after appending the post that has it, finds
      that post, whether or not the stored ids are distinct. */
  lemma FindAppended(posts: seq<Post>, p: Post)
    requires forall i :: 0 <= i < |posts| ==> posts[i].id < p.id
    ensures FindPost(posts + [p], p.id) == Some(p)
  {
    var next := posts + [p];
    assert forall k :: 0 <= k < |posts| ==> next[k] == posts[k];
    var found := FindPost(next, p.id);
    assert next[|posts|] == p;
    var i :| 0 <= i < |next| && next[i] == found.value && found.value.id == p.id;
    assert i == |posts|;
  }

  /** Creating a post keeps ids distinct, and the route to the new id finds the new post. */
  lemma SubmitKeepsIdsDistinct(posts: seq<Post>, form: PostForm)
    requires DistinctIds(posts)
    requires Submit(posts, form).Success?
    ensures DistinctIds(Submit(posts, form).value)
    ensures FindPost(Submit(posts, form).value, NextId(posts)) == Some(NewPost(posts, form))
  {
    var p := NewPost(posts, form);
    assert Submit(posts, form).value == posts + [p];
    AppendFreshId(posts, p);
  }

  /** `handleSubmit`: validates, then appends the new post and returns its id, to which the screen
      navigates. */
  method HandleSubmit(store: PostStore, form: PostForm) returns (r: Result<int, FormError>)
    modifies store
    ensures Validate(form).Some? ==> r == Failure(Validate(form).value) && store.posts == old(store.posts)
    ensures Validate(form).None? ==>
              r == Success(NextId(old(store.posts)))
              && store.posts == old(store.posts) + [NewPost(old(store.posts), form)]
  {
    var posts := store.posts;
    var error := Validate(form);
    if error.Some? {
      return Failure(error.value);
    }
    var newPost := NewPost(posts, form);
    store.SetPosts(posts + [newPost]);
    r := Success(newPost.id);
  }
}
