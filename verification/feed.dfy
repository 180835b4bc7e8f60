/** The global feed (`getAll`): the newest posts, each joined to its author's
    public fields and a blurred placeholder of the author's image. Every failure
    on the way fails the whole feed; there is never a partial list. */
module Feed {
  import opened Wrappers
  import opened Errors
  import opened Users
  import opened Store

  /** The feed reads at most this many posts, and asks the directory for at
      most this many users. */
  const FeedPageSize: nat := 100

  const FeedQuery: PostQuery := PostQuery(FeedPageSize)

  /** Fetches an image and derives its base64 placeholder; `None` when the
      fetch or the decoding fails. */
  type Placeholder = string -> Option<string>

  /** A public user with its image placeholder attached. */
  datatype BlurredUser = BlurredUser(id: UserId, username: Option<string>, imageUrl: string, blurredDataUrl: string)

  /** The author part of a feed item: like `BlurredUser`, but the username is
      known to be present. */
  datatype Author = Author(id: UserId, username: string, imageUrl: string, blurredDataUrl: string)

  /** A feed item: every field of the post, plus its author. */
  datatype FeedItem = FeedItem(post: Post, author: Author)

  /** The directory query of the feed: the author id of every fetched post, in
      post order and with repetitions, capped at `FeedPageSize` users. */
  function AuthorsQuery(posts: seq<Post>): (q: UserQuery)
    ensures q.ByIds? && q.limit == FeedPageSize
    ensures |q.userIds| == |posts|
    ensures forall i :: 0 <= i < |posts| ==> q.userIds[i] == posts[i].authorId
  {
    ByIds(seq(|posts|, i requires 0 <= i < |posts| => posts[i].authorId), FeedPageSize)
  }

  /** An id is asked for exactly when some fetched post names it as author:
      no author is dropped and no other id is added. */
  lemma AuthorsQueryCoversExactlyPostAuthors(posts: seq<Post>, id: UserId)
    ensures id in AuthorsQuery(posts).userIds <==> exists i :: 0 <= i < |posts| && posts[i].authorId == id
  {
  }

  /** One placeholder; any failure becomes the same PARSE_ERROR. */
  function ToBase64(imageUrl: string, placeholder: Placeholder): (r: Result<string, ApiError>)
    ensures r.Success? <==> placeholder(imageUrl).Some?
    ensures r.Success? ==> r.value == placeholder(imageUrl).value
    ensures r.Failure? ==> r.error == BlurFailed
  {
    match placeholder(imageUrl)
    case Some(b) => Success(b)
    case None => Failure(BlurFailed)
  }

  function WithBlur(u: ClientUser, blurredDataUrl: string): BlurredUser {
    BlurredUser(u.id, u.username, u.imageUrl, blurredDataUrl)
  }

  predicate AllConvertible(users: seq<ClientUser>, placeholder: Placeholder) {
    forall i :: 0 <= i < |users| ==> placeholder(users[i].imageUrl).Some?
  }

  /** Computes one placeholder per user and attaches the i-th to the i-th
      user; all of them must succeed. */
  function AttachBlur(users: seq<ClientUser>, placeholder: Placeholder): (r: Result<seq<BlurredUser>, ApiError>)
    ensures r.Success? <==> AllConvertible(users, placeholder)
    ensures r.Failure? ==> r.error == BlurFailed
    ensures r.Success? ==> |r.value| == |users|
    ensures r.Success? ==> forall i :: 0 <= i < |users| ==>
              r.value[i] == WithBlur(users[i], placeholder(users[i].imageUrl).value)
  {
    if users == [] then Success([])
    else
      var head :- ToBase64(users[0].imageUrl, placeholder);
      var tail :- AttachBlur(users[1..], placeholder);
      Success([WithBlur(users[0], head)] + tail)
  }

  /** The position of the first user with the given id, as a linear `find`
      would meet it. */
  function FirstWithId(users: seq<BlurredUser>, id: UserId): (k: Option<nat>)
    ensures k.Some? ==> k.value < |users| && users[k.value].id == id
    ensures k.Some? ==> forall j :: 0 <= j < k.value ==> users[j].id != id
    ensures k.None? <==> forall j :: 0 <= j < |users| ==> users[j].id != id
  {
    if users == [] then None
    else if users[0].id == id then Some(0)
    else match FirstWithId(users[1..], id)
      case None => None
      case Some(k) => Some(k + 1)
  }

  /** A username counts only if it is present and not empty. */
  predicate Truthy(username: Option<string>) {
    username.Some? && username.value != ""
  }

  /** The first user with id `id` exists and has a username. */
  predicate HasNamedAuthor(users: seq<BlurredUser>, id: UserId) {
    var k := FirstWithId(users, id);
    k.Some? && Truthy(users[k.value].username)
  }

  function NamedAuthor(u: BlurredUser): Author
    requires Truthy(u.username)
  {
    Author(u.id, u.username.value, u.imageUrl, u.blurredDataUrl)
  }

  /** `a` is built from the first user with id `id`. */
  predicate IsFirstAuthor(users: seq<BlurredUser>, id: UserId, a: Author) {
    HasNamedAuthor(users, id) && a == NamedAuthor(users[FirstWithId(users, id).value])
  }

  /** Joins one post to its author. */
  function JoinPost(post: Post, users: seq<BlurredUser>): (r: Result<FeedItem, ApiError>)
    ensures r.Success? <==> HasNamedAuthor(users, post.authorId)
    ensures r.Failure? ==> r.error == AuthorNotFound
    ensures r.Success? ==> r.value.post == post && IsFirstAuthor(users, post.authorId, r.value.author)
  {
    match FirstWithId(users, post.authorId)
    case None => Failure(AuthorNotFound)
    case Some(k) =>
      if Truthy(users[k].username) then Success(FeedItem(post, NamedAuthor(users[k])))
      else Failure(AuthorNotFound)
  }

  predicate AllAuthorsNamed(posts: seq<Post>, users: seq<BlurredUser>) {
    forall i :: 0 <= i < |posts| ==> HasNamedAuthor(users, posts[i].authorId)
  }

  /** Joins every post to its author, keeping the order of the posts. One post
      without a named author fails the whole join. */
  function JoinPosts(posts: seq<Post>, users: seq<BlurredUser>): (r: Result<seq<FeedItem>, ApiError>)
    ensures r.Success? <==> AllAuthorsNamed(posts, users)
    ensures r.Failure? ==> r.error == AuthorNotFound
    ensures r.Success? ==> |r.value| == |posts|
    ensures r.Success? ==> forall i :: 0 <= i < |posts| ==>
              && r.value[i].post == posts[i]
              && r.value[i].author.id == posts[i].authorId
              && r.value[i].author.username != ""
              && IsFirstAuthor(users, posts[i].authorId, r.value[i].author)
  {
    if posts == [] then Success([])
    else
      var item :- JoinPost(posts[0], users);
      var rest :- JoinPosts(posts[1..], users);
      Success([item] + rest)
  }

  /** `users[j]` is the first user of a directory answer with id `id`. */
  ghost predicate FirstUserWith(users: seq<User>, id: UserId, j: int) {
    0 <= j < |users| && users[j].id == id && forall l :: 0 <= l < j ==> users[l].id != id
  }

  /** Declarative reading of the author check: some user of the directory's
      answer has id `id`, and the first such user has a non-empty username. */
  ghost predicate NamedInDirectory(users: seq<User>, id: UserId) {
    && (exists j :: 0 <= j < |users| && users[j].id == id)
    && forall j :: FirstUserWith(users, id, j) ==> Truthy(users[j].username)
  }

  /** The `getAll` procedure: fetch the newest posts, ask the directory for
      their authors, blur every returned user's image, join. */
  function GetAll(findMany: FindMany, directory: Directory, placeholder: Placeholder): (r: Result<seq<FeedItem>, ApiError>)
    ensures findMany(FeedQuery).Failure? ==> r == Failure(Upstream(findMany(FeedQuery).error))
    ensures findMany(FeedQuery).Success? ==>
              var answer := directory(AuthorsQuery(findMany(FeedQuery).value));
              && (answer.Failure? ==> r == Failure(Upstream(answer.error)))
              && (answer.Success? && (exists j :: 0 <= j < |answer.value| && placeholder(answer.value[j].imageUrl).None?) ==>
                    r == Failure(BlurFailed))
    ensures r.Failure? ==> r.error.Upstream? || r.error == BlurFailed || r.error == AuthorNotFound
    ensures r.Success? ==> findMany(FeedQuery).Success?
    ensures r.Success? ==>
              var posts := findMany(FeedQuery).value;
              && |r.value| == |posts|
              && forall i :: 0 <= i < |posts| ==>
                   && r.value[i].post == posts[i]
                   && r.value[i].author.id == posts[i].authorId
                   && r.value[i].author.username != ""
                   && placeholder(r.value[i].author.imageUrl) == Some(r.value[i].author.blurredDataUrl)
  {
    var posts :- Forward(findMany(FeedQuery));
    var users :- Forward(directory(AuthorsQuery(posts)));
    var blurred :- AttachBlur(FilterUsers(users), placeholder);
    JoinPosts(posts, blurred)
  }

  /** The feed's posts, with the author part dropped. */
  function PostsOf(items: seq<FeedItem>): (posts: seq<Post>)
    ensures |posts| == |items|
    ensures forall i :: 0 <= i < |items| ==> posts[i] == items[i].post
  {
    seq(|items|, i requires 0 <= i < |items| => items[i].post)
  }

  /** Dropping the authors from a successful feed gives back exactly the posts
      the store returned: one item per post, same order, post fields intact. */
  lemma FeedRecoversFetchedPosts(findMany: FindMany, directory: Directory, placeholder: Placeholder)
    ensures var r := GetAll(findMany, directory, placeholder);
            r.Success? ==> PostsOf(r.value) == findMany(FeedQuery).value
  {
  }

  /** When the store keeps its query contract over the table `rows`, a
      successful feed has at most `FeedPageSize` items, newest first, and shows
      only posts of the table. */
  lemma FeedBoundedAndOrdered(rows: seq<Post>, findMany: FindMany, directory: Directory, placeholder: Placeholder)
    requires findMany(FeedQuery).Success? ==> AnswersQuery(rows, FeedQuery, findMany(FeedQuery).value)
    ensures var r := GetAll(findMany, directory, placeholder);
            r.Success? ==>
              && |r.value| <= FeedPageSize
              && NewestFirst(PostsOf(r.value))
              && forall i :: 0 <= i < |r.value| ==> r.value[i].post in rows
  {
    var r := GetAll(findMany, directory, placeholder);
    if r.Success? {
      var posts := findMany(FeedQuery).value;
      FeedRecoversFetchedPosts(findMany, directory, placeholder);
      forall i | 0 <= i < |r.value|
        ensures r.value[i].post in rows
      {
        assert posts[i] in multiset(posts);
      }
    }
  }

  /** The join agrees with the declarative author check when the blurred users
      carry the ids and usernames of the directory's answer, in its order. */
  lemma FirstMatchAgrees(users: seq<User>, blurred: seq<BlurredUser>, id: UserId)
    requires |blurred| == |users|
    requires forall j :: 0 <= j < |users| ==> blurred[j].id == users[j].id && blurred[j].username == users[j].username
    ensures HasNamedAuthor(blurred, id) <==> NamedInDirectory(users, id)
    ensures FirstWithId(blurred, id).Some? ==> FirstUserWith(users, id, FirstWithId(blurred, id).value)
  {
    match FirstWithId(blurred, id)
    case None =>
    case Some(k) =>
      assert FirstUserWith(users, id, k);
      forall j | FirstUserWith(users, id, j)
        ensures j == k
      {
      }
  }

  /** Once the store, the directory and every placeholder have answered, the
      feed succeeds exactly when every post's author is named in the
      directory's answer, and otherwise fails with "Author not found!". */
  lemma FeedSucceedsIffAuthorsNamed(findMany: FindMany, directory: Directory, placeholder: Placeholder)
    requires findMany(FeedQuery).Success?
    requires directory(AuthorsQuery(findMany(FeedQuery).value)).Success?
    requires var users := directory(AuthorsQuery(findMany(FeedQuery).value)).value;
             forall j :: 0 <= j < |users| ==> placeholder(users[j].imageUrl).Some?
    ensures var posts := findMany(FeedQuery).value;
            var users := directory(AuthorsQuery(posts)).value;
            var r := GetAll(findMany, directory, placeholder);
            && (r.Success? <==> forall i :: 0 <= i < |posts| ==> NamedInDirectory(users, posts[i].authorId))
            && (r.Failure? ==> r.error == AuthorNotFound)
  {
    var posts := findMany(FeedQuery).value;
    var users := directory(AuthorsQuery(posts)).value;
    var clients := FilterUsers(users);
    assert AllConvertible(clients, placeholder);
    var blurred := AttachBlur(clients, placeholder).value;
    forall id: UserId
      ensures HasNamedAuthor(blurred, id) <==> NamedInDirectory(users, id)
    {
      FirstMatchAgrees(users, blurred, id);
    }
  }

  /** Every author of a successful feed is the first user with that id in the
      directory's answer, seen through the projection, with that user's own
      placeholder attached. */
  lemma FeedAuthorIsFirstDirectoryMatch(findMany: FindMany, directory: Directory, placeholder: Placeholder)
    requires findMany(FeedQuery).Success?
    requires directory(AuthorsQuery(findMany(FeedQuery).value)).Success?
    ensures var posts := findMany(FeedQuery).value;
            var users := directory(AuthorsQuery(posts)).value;
            var r := GetAll(findMany, directory, placeholder);
            r.Success? ==> forall i :: 0 <= i < |posts| ==> exists j ::
              && FirstUserWith(users, posts[i].authorId, j)
              && r.value[i].author.id == users[j].id
              && Some(r.value[i].author.username) == users[j].username
              && r.value[i].author.imageUrl == users[j].imageUrl
              && placeholder(users[j].imageUrl) == Some(r.value[i].author.blurredDataUrl)
  {
    var posts := findMany(FeedQuery).value;
    var users := directory(AuthorsQuery(posts)).value;
    var r := GetAll(findMany, directory, placeholder);
    if r.Success? {
      var clients := FilterUsers(users);
      var blurred := AttachBlur(clients, placeholder).value;
      forall i | 0 <= i < |posts|
        ensures exists j ::
              && FirstUserWith(users, posts[i].authorId, j)
              && r.value[i].author.id == users[j].id
              && Some(r.value[i].author.username) == users[j].username
              && r.value[i].author.imageUrl == users[j].imageUrl
              && placeholder(users[j].imageUrl) == Some(r.value[i].author.blurredDataUrl)
      {
        FirstMatchAgrees(users, blurred, posts[i].authorId);
        var j := FirstWithId(blurred, posts[i].authorId).value;
        assert FirstUserWith(users, posts[i].authorId, j);
      }
    }
  }

  /** Joins two partial feeds the way the join of their concatenation does:
      the first failure wins, otherwise the item lists are concatenated. */
  function Append(a: Result<seq<FeedItem>, ApiError>, b: Result<seq<FeedItem>, ApiError>): Result<seq<FeedItem>, ApiError> {
    if a.Failure? then a else if b.Failure? then b else Success(a.value + b.value)
  }

  /** The join treats every post on its own: joining a batch equals joining
      its two halves and appending, so a bad post anywhere fails any batch
      that contains it. */
  lemma {:induction false} JoinPostsSplits(a: seq<Post>, b: seq<Post>, users: seq<BlurredUser>)
    ensures JoinPosts(a + b, users) == Append(JoinPosts(a, users), JoinPosts(b, users))
  {
    if a == [] {
      assert a + b == b;
      if JoinPosts(b, users).Success? {
        assert [] + JoinPosts(b, users).value == JoinPosts(b, users).value;
      }
    } else {
      assert (a + b)[0] == a[0];
      assert (a + b)[1..] == a[1..] + b;
      JoinPostsSplits(a[1..], b, users);
      var head := JoinPost(a[0], users);
      if head.Success? {
        var tail := JoinPosts(a[1..], users);
        if tail.Success? && JoinPosts(b, users).Success? {
          assert [head.value] + (tail.value + JoinPosts(b, users).value)
              == ([head.value] + tail.value) + JoinPosts(b, users).value;
        }
      }
    }
  }
}
