/** The edit screen (`src/screens/EditBounty.jsx`): the form pre-filled from the post, the
    not-found and permission guards, and the submit handler that validates like the new-post
    form and merges the inputs into the post in place of its old version. */
module EditBounty {
  import opened Wrappers
  import opened Text
  import opened Store
  import opened PostList
  import opened NewBounty

  /** Why an edit is refused: the post is missing or removed, the user is not its author, or the
      form fails the new-post checks. */
  datatype EditError = PostNotFound | NotAuthor | InvalidForm(reason: FormError)

  /** `user && user.id === post.authorId`: someone is logged in and is the recorded author. A
      post without an author can be edited by nobody. */
  predicate CanEdit(user: Option<User>, post: Post) {
    user.Some? && post.authorId == Some(user.value.id)
  }

  /** `post.price !== undefined ? String(post.price) : ''`, read back as a number field. */
  function PrefillPrice(price: Option<Num>): (f: NumField)
    ensures FieldPrice(f) == price
  {
    match price
    case None => Blank
    case Some(n) => Entered(n)
  }

  /** The form state the effect sets from the post: its texts, its type (`'bounty'` when empty)
      and its tag and image lists joined by `", "`. */
  function PrefillForm(post: Post): (r: PostForm)
    ensures FieldPrice(r.price) == post.price
    ensures r.postType != []
  {
    PostForm(
      title := post.title,
      postType := if post.postType == [] then "bounty" else post.postType,
      price := PrefillPrice(post.price),
      description := post.description,
      location := post.location,
      tagsInput := Join(post.tags, ", "),
      imageUrls := Join(post.images, ", "))
  }

  /** `{...post, title, type, price, description, tags, location, images, updatedAt}`: the form's
      fields overwrite the post's, parsed as on creation; id, status, comments, author, the
      deleted flag and the coordinates are kept. */
  function Edited(post: Post, form: PostForm, now: string): (p: Post)
    ensures p.id == post.id && p.status == post.status && p.comments == post.comments
    ensures p.authorId == post.authorId && p.deleted == post.deleted && p.lat == post.lat && p.lng == post.lng
    ensures p.title == Trim(form.title) && p.description == Trim(form.description) && p.location == Trim(form.location)
    ensures p.postType == form.postType && p.price == FieldPrice(form.price)
    ensures p.tags == ParseList(form.tagsInput) && p.images == ParseList(form.imageUrls)
    ensures p.updatedAt == Some(now)
  {
    post.(
      title := Trim(form.title),
      postType := form.postType,
      price := FieldPrice(form.price),
      description := Trim(form.description),
      tags := ParseList(form.tagsInput),
      location := Trim(form.location),
      images := ParseList(form.imageUrls),
      updatedAt := Some(now))
  }

  function EditedAs(post: Post, form: PostForm, now: string): Post -> Post {
    (p: Post) => Edited(post, form, now)
  }

  /** The posts after submitting the edit form of post `id`: the guards in the order the screen
      applies them, then every post with the found post's id replaced by the merged post. */
  function SubmitEdit(posts: seq<Post>, id: int, user: Option<User>, form: PostForm, now: string)
    : (r: Result<seq<Post>, EditError>)
    ensures r == Failure(PostNotFound) <==> !IsShown(posts, id)
    ensures r == Failure(NotAuthor) <==> IsShown(posts, id) && !CanEdit(user, FindPost(posts, id).value)
    ensures r.Failure? && r.error.InvalidForm? <==>
              IsShown(posts, id) && CanEdit(user, FindPost(posts, id).value) && Validate(form).Some?
    ensures r.Failure? && r.error.InvalidForm? ==> r.error.reason == Validate(form).value
    ensures r.Success? ==>
              |r.value| == |posts|
              && (forall i :: 0 <= i < |posts| && posts[i].id == id ==>
                    r.value[i] == Edited(FindPost(posts, id).value, form, now))
              && (forall i :: 0 <= i < |posts| && posts[i].id != id ==> r.value[i] == posts[i])
  {
    var found := FindPost(posts, id);
    if found.None? || found.value.deleted then Failure(PostNotFound)
    else if !CanEdit(user, found.value) then Failure(NotAuthor)
    else match Validate(form)
      case Some(e) => Failure(InvalidForm(e))
      case None => Success(ReplaceById(posts, found.value.id, EditedAs(found.value, form, now)))
  }

  /** After a successful edit the screen for the same id shows the merged post, still live. */
  lemma EditThenFind(posts: seq<Post>, id: int, user: Option<User>, form: PostForm, now: string)
    requires SubmitEdit(posts, id, user, form, now).Success?
    ensures FindPost(SubmitEdit(posts, id, user, form, now).value, id)
         == Some(Edited(FindPost(posts, id).value, form, now))
    ensures IsShown(SubmitEdit(posts, id, user, form, now).value, id)
  {
    var found := FindPost(posts, id).value;
    FindAfterReplace(posts, id, EditedAs(found, form, now));
  }

  /** Saving the pre-filled form unchanged only stamps `updatedAt`, provided the post holds what
      the forms themselves store: trimmed texts, a non-empty type, and tags and images in the
      form `ParseList` returns. */
  lemma UnchangedEditKeepsPost(post: Post, now: string)
    requires IsTrimmed(post.title) && IsTrimmed(post.description) && IsTrimmed(post.location)
    requires post.postType != []
    requires forall k :: 0 <= k < |post.tags| ==> IsEntry(post.tags[k])
    requires forall k :: 0 <= k < |post.images| ==> IsEntry(post.images[k])
    ensures Edited(post, PrefillForm(post), now) == post.(updatedAt := Some(now))
  {
    TrimOfTrimmed(post.title);
    TrimOfTrimmed(post.description);
    TrimOfTrimmed(post.location);
    ParseListJoin(post.tags);
    ParseListJoin(post.images);
  }

  /** A post the new-post form created records no author, so every attempt to edit it is
      refused, whoever is logged in. */
  lemma CreatedPostsAreNotEditable(posts: seq<Post>, form: PostForm, user: Option<User>, edit: PostForm, now: string)
    requires Submit(posts, form).Success?
    ensures SubmitEdit(Submit(posts, form).value, NextId(posts), user, edit, now) == Failure(NotAuthor)
  {
    var p := NewPost(posts, form);
    assert Submit(posts, form).value == posts + [p];
    FindAppended(posts, p);
  }

  /** `handleSubmit` on the edit screen: on success the store holds the edited collection and the
      screen navigates to the post's id; on any refusal the store is unchanged. */
  method HandleSubmit(store: PostStore, id: int, user: Option<User>, form: PostForm, now: string)
    returns (r: Result<int, EditError>)
    modifies store
    ensures SubmitEdit(old(store.posts), id, user, form, now).Failure? ==>
              r == Failure(SubmitEdit(old(store.posts), id, user, form, now).error) && store.posts == old(store.posts)
    ensures SubmitEdit(old(store.posts), id, user, form, now).Success? ==>
              r == Success(id) && store.posts == SubmitEdit(old(store.posts), id, user, form, now).value
  {
    var posts := store.posts;
    var found := FindPost(posts, id);
    if found.None? || found.value.deleted {
      return Failure(PostNotFound);
    }
    var post := found.value;
    if !CanEdit(user, post) {
      return Failure(NotAuthor);
    }
    var error := Validate(form);
    if error.Some? {
      return Failure(InvalidForm(error.value));
    }
    store.SetPosts(ReplaceById(posts, post.id, EditedAs(post, form, now)));
    r := Success(post.id);
  }
}
