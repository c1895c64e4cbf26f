/** The two stores of `src/store.jsx`: the post collection (`PostsProvider`) and the account
    registry with its session (`AuthProvider`), with the records they hold. */
module Store {
  import opened Wrappers
  import opened Text
  import Seqs

  /** A JavaScript number as far as this model follows one: an integer, or the NaN that
      `Number(...)` yields for text that is not a number. */
  datatype Num = Int(n: int) | NaN

  /** A text input that holds a number: either exactly `''`, or some other text together with
      what `Number(...)` makes of it. */
  datatype NumField = Blank | Entered(number: Num)

  /** A comment as `addComment` creates it: an id taken from the clock and the text. */
  datatype Comment = Comment(id: int, text: string)

  /** A post. `price`, `authorId` and `updatedAt` may be undefined; `lat` and `lng` are present
      exactly when `Number(p.lat)` and `Number(p.lng)` are finite. A missing `deleted` is `false`,
      a missing `location`, `tags`, `images` or `comments` is empty. */
  datatype Post = Post(
    id: int,
    title: string,
    postType: string,
    price: Option<Num>,
    description: string,
    status: string,
    tags: seq<string>,
    location: string,
    images: seq<string>,
    comments: seq<Comment>,
    deleted: bool,
    authorId: Option<string>,
    updatedAt: Option<string>,
    lat: Option<real>,
    lng: Option<real>)

  /** A registered account; the password is kept as given. */
  datatype User = User(id: string, username: string, email: string, password: string, createdAt: string)

  /** The two errors the registry throws. */
  datatype AuthError = UsernameExists | InvalidCredentials

  /** The post collection every screen reads and replaces wholesale through `setPosts`. */
  class PostStore {
    var posts: seq<Post>

    /** The collection starts from whatever was loaded (saved posts or the mock data). */
    constructor (initial: seq<Post>)
      ensures posts == initial
    {
      posts := initial;
    }

    /** `setPosts(next)`. */
    method SetPosts(next: seq<Post>)
      modifies this
      ensures posts == next
    {
      posts := next;
    }
  }

  /** The comparison `register`, `login` and `isUsernameTaken` make between a stored account and
      a typed name: the stored name lower-cased against the typed name trimmed and lower-cased. */
  predicate SameUsername(u: User, username: string) {
    ToLower(u.username) == ToLower(Trim(username))
  }

  /** The test of `isUsernameTaken`/`usernameExists` on one stored account. */
  function NameIs(username: string): User -> bool {
    u => SameUsername(u, username)
  }

  /** `isUsernameTaken(username)`, which is also the `usernameExists` test of `register`. */
  function IsUsernameTaken(users: seq<User>, username: string): (taken: bool)
    ensures taken <==> exists i :: 0 <= i < |users| && SameUsername(users[i], username)
  {
    Seqs.AnyOf(users, NameIs(username))
  }

  /** What `login` accepts: the name as above and the password exactly. */
  predicate Credentials(u: User, username: string, password: string) {
    SameUsername(u, username) && u.password == password
  }

  /** The test of the `users.find(...)` in `login`. */
  function CredentialsAre(username: string, password: string): User -> bool {
    u => Credentials(u, username, password)
  }

  /** Index `i` holds the first account that accepts these credentials. */
  predicate IsFirstMatch(users: seq<User>, username: string, password: string, i: int) {
    0 <= i < |users| && Credentials(users[i], username, password)
    && forall j :: 0 <= j < i ==> !Credentials(users[j], username, password)
  }

  /** The `users.find(...)` of `login`. */
  function FindUser(users: seq<User>, username: string, password: string): (r: Option<User>)
    ensures r.None? <==> forall i :: 0 <= i < |users| ==> !Credentials(users[i], username, password)
    ensures r.Some? ==> exists i :: IsFirstMatch(users, username, password, i) && users[i] == r.value
  {
    match Seqs.FirstIndex(users, CredentialsAre(username, password))
    case None => None
    case Some(i) =>
      assert IsFirstMatch(users, username, password, i);
      Some(users[i])
  }

  /** The account `register` builds (`id` and `createdAt` come from the clock and a random source). */
  function NewUser(username: string, email: string, password: string, id: string, createdAt: string): (r: User)
    ensures IsTrimmed(r.username) && IsTrimmed(r.email)
    ensures r.username == [] <==> AllSpace(username)
    ensures r.password == password
  {
    TrimEmptyIff(username);
    User(id, Trim(username), Trim(email), password, createdAt)
  }

  /** No two accounts share a name up to lower-casing. */
  ghost predicate UniqueUsernames(users: seq<User>) {
    forall i, j :: 0 <= i < j < |users| ==> ToLower(users[i].username) != ToLower(users[j].username)
  }

  /** A registration that the name check lets through keeps account names unique. */
  lemma RegisterKeepsUnique(users: seq<User>, username: string, email: string, password: string, id: string, createdAt: string)
    requires UniqueUsernames(users)
    requires !IsUsernameTaken(users, username)
    ensures UniqueUsernames(users + [NewUser(username, email, password, id, createdAt)])
  {
    var all := users + [NewUser(username, email, password, id, createdAt)];
    forall i, j | 0 <= i < j < |all| ensures ToLower(all[i].username) != ToLower(all[j].username) {
      if j == |users| {
        assert !SameUsername(users[i], username);
      }
    }
  }

  /** After a successful registration, logging in with the same name and password finds the new
      account, whatever the accounts before it. */
  lemma LoginAfterRegister(users: seq<User>, username: string, email: string, password: string, id: string, createdAt: string)
    requires !IsUsernameTaken(users, username)
    ensures FindUser(users + [NewUser(username, email, password, id, createdAt)], username, password)
         == Some(NewUser(username, email, password, id, createdAt))
  {
    var u := NewUser(username, email, password, id, createdAt);
    var all := users + [u];
    assert all[|users|] == u && Credentials(u, username, password);
    var found := FindUser(all, username, password);
    var i :| IsFirstMatch(all, username, password, i) && all[i] == found.value;

  }

  /** With unique names, the account `login` finds is the only one of that name. */
  lemma LoginFindsTheNamedAccount(users: seq<User>, username: string, password: string, i: int)
    requires UniqueUsernames(users)
    requires FindUser(users, username, password).Some?
    requires 0 <= i < |users| && SameUsername(users[i], username)
    ensures FindUser(users, username, password) == Some(users[i])
  {
  }

  /** The account registry and the session of `AuthProvider`. */
  class AuthStore {
    var users: seq<User>
    var user: Option<User>

    ghost predicate Valid()
      reads this
    {
      UniqueUsernames(users)
    }

    /** No saved accounts and no saved session: the fallbacks `[]` and `null`. */
    constructor ()
      ensures Valid() && users == [] && user == None
    {
      users := [];
      user := None;
    }

    /** `register(username, email, password)`; `id` and `createdAt` stand for the clock and the
        random source it reads. */
    method Register(username: string, email: string, password: string, id: string, createdAt: string)
      returns (r: Result<User, AuthError>)
      requires Valid()
      modifies this
      ensures Valid()
      ensures r.Failure? <==> old(IsUsernameTaken(users, username))
      ensures r.Failure? ==> r.error == UsernameExists && users == old(users) && user == old(user)
      ensures r.Success? ==> r.value == NewUser(username, email, password, id, createdAt)
      ensures r.Success? ==> users == old(users) + [r.value] && user == Some(r.value)
    {
      var existing := users;
      if IsUsernameTaken(existing, username) {
        return Failure(UsernameExists);
      }
      var newUser := NewUser(username, email, password, id, createdAt);
      RegisterKeepsUnique(existing, username, email, password, id, createdAt);
      users := existing + [newUser];
      user := Some(newUser);
      r := Success(newUser);
      assert users == existing + [newUser];
    }

    /** `login(username, password)`: same error for an unknown name and a wrong password. */
    method Login(username: string, password: string) returns (r: Result<User, AuthError>)
      modifies this`user
      ensures r.Failure? <==> forall i :: 0 <= i < |users| ==> !Credentials(users[i], username, password)
      ensures r.Failure? ==> r.error == InvalidCredentials && user == old(user)
      ensures r.Success? ==> exists i :: IsFirstMatch(users, username, password, i) && users[i] == r.value
      ensures r.Success? ==> user == Some(r.value)
    {
      var registered := users;
      var found := FindUser(registered, username, password);
      if found.None? {
        return Failure(InvalidCredentials);
      }
      user := found;
      r := Success(found.value);
      assert users == registered;
    }

    /** `logout()`. */
    method Logout()
      modifies this`user
      ensures user == None
    {
      user := None;
    }
  }
}
