/** The gated write (`createPosts`): validate the content, ask the rate limiter
    about the caller, and only on a yes store one post written by the caller.
    The post table is a sequence of rows; a call maps it to its next state. */
module CreatePost {
  import opened Wrappers
  import opened Errors
  import opened Users
  import opened Store
  import opened Validation

  /** The rate limiter's `limit(key).success` for this call. Its window state
      lives in an external store, so each call is given its own decision
      function. It may fail. */
  type Limiter = UserId -> Result<bool, Fault>

  /** What a call leaves behind: its response, the post table after it, and
      the keys it asked the rate limiter about, in order. */
  datatype CreateOutcome = CreateOutcome(response: Result<Post, ApiError>, table: seq<Post>, limiterKeys: seq<UserId>)

  /** The `createPosts` procedure for the signed-in user `userId`. `stamp` is
      what the database assigns to a new row, or its failure. */
  function CreatePosts(
    table: seq<Post>, userId: UserId, content: Text, isEmoji: EmojiCheck,
    limiter: Limiter, stamp: Result<Stamp, Fault>): (o: CreateOutcome)
    // invalid content is refused before the limiter or the table is touched
    ensures !ValidContent(content, isEmoji) ==>
              o.response == Failure(InvalidInput(ContentIssues(content, isEmoji))) && o.table == table && o.limiterKeys == []
    // otherwise the limiter is asked once, about the caller and nobody else
    ensures ValidContent(content, isEmoji) ==> o.limiterKeys == [userId]
    ensures ValidContent(content, isEmoji) && limiter(userId).Failure? ==>
              o.response == Failure(Upstream(limiter(userId).error)) && o.table == table
    ensures ValidContent(content, isEmoji) && limiter(userId) == Success(false) ==>
              o.response == Failure(PostLimitExceeded) && o.table == table
    // a failed row create ends the call with the database's own fault
    ensures ValidContent(content, isEmoji) && limiter(userId) == Success(true) && stamp.Failure? ==>
              o.response == Failure(Upstream(stamp.error)) && o.table == table
    // "Post limit exceeded" means the limiter said no, and nothing else
    ensures o.response == Failure(PostLimitExceeded) <==>
              ValidContent(content, isEmoji) && limiter(userId) == Success(false)
    // a post is written exactly when the content is valid, the caller is
    // admitted and the database accepts the row
    ensures o.response.Success? <==>
              ValidContent(content, isEmoji) && limiter(userId) == Success(true) && stamp.Success?
    ensures o.response.Success? ==>
              && o.response.value.authorId == userId
              && o.response.value.content == content
              && o.response.value.id == stamp.value.id
              && o.response.value.createdAt == stamp.value.createdAt
              && o.table == table + [o.response.value]
    ensures o.response.Failure? ==> o.table == table
  {
    match ValidateContent(content, isEmoji)
    case Failure(e) => CreateOutcome(Failure(e), table, [])
    case Success(valid) =>
      match limiter(userId)
      case Failure(f) => CreateOutcome(Failure(Upstream(f)), table, [userId])
      case Success(admitted) =>
        if !admitted then CreateOutcome(Failure(PostLimitExceeded), table, [userId])
        else
          match stamp
          case Failure(f) => CreateOutcome(Failure(Upstream(f)), table, [userId])
          case Success(s) =>
            var post := Post(s.id, s.createdAt, valid, userId);
            CreateOutcome(Success(post), table + [post], [userId])
  }

  /** The call depends on the limiter only through its answer for the caller:
      no client-supplied value can steer which quota is charged. */
  lemma CreateDependsOnlyOnCallersQuota(
    table: seq<Post>, userId: UserId, content: Text, isEmoji: EmojiCheck,
    limiter1: Limiter, limiter2: Limiter, stamp: Result<Stamp, Fault>)
    requires limiter1(userId) == limiter2(userId)
    ensures CreatePosts(table, userId, content, isEmoji, limiter1, stamp)
         == CreatePosts(table, userId, content, isEmoji, limiter2, stamp)
  {
  }

  /** Every stored post has content the schema accepts, and ids are unique. */
  ghost predicate WellFormedTable(table: seq<Post>, isEmoji: EmojiCheck) {
    && (forall i :: 0 <= i < |table| ==> ValidContent(table[i].content, isEmoji))
    && (forall i, j :: 0 <= i < j < |table| ==> table[i].id != table[j].id)
  }

  /** Writing through `createPosts` keeps the table well formed, given that
      the database hands out an id not yet in use. */
  lemma CreatePreservesWellFormedTable(
    table: seq<Post>, userId: UserId, content: Text, isEmoji: EmojiCheck,
    limiter: Limiter, stamp: Result<Stamp, Fault>)
    requires WellFormedTable(table, isEmoji)
    requires stamp.Success? ==> forall i :: 0 <= i < |table| ==> table[i].id != stamp.value.id
    ensures WellFormedTable(CreatePosts(table, userId, content, isEmoji, limiter, stamp).table, isEmoji)
  {
  }

  /** One `createPosts` call: the signed-in caller, the submitted content, the
      limiter's decision function for this call and the database's row stamp. */
  datatype Request = Request(userId: UserId, content: Text, limiter: Limiter, stamp: Result<Stamp, Fault>)

  /** The table after running the calls one after the other. */
  function Replay(table: seq<Post>, requests: seq<Request>, isEmoji: EmojiCheck): seq<Post>
    decreases |requests|
  {
    if requests == [] then table
    else
      var q := requests[0];
      Replay(CreatePosts(table, q.userId, q.content, isEmoji, q.limiter, q.stamp).table, requests[1..], isEmoji)
  }

  /** The calls by `user` whose content is valid and that the limiter admitted. */
  function Admitted(requests: seq<Request>, user: UserId, isEmoji: EmojiCheck): nat
    decreases |requests|
  {
    if requests == [] then 0
    else
      var q := requests[0];
      (if q.userId == user && ValidContent(q.content, isEmoji) && q.limiter(user) == Success(true) then 1 else 0)
      + Admitted(requests[1..], user, isEmoji)
  }

  /** The number of posts written by `user`. */
  function CountBy(table: seq<Post>, user: UserId): nat {
    if table == [] then 0
    else (if table[0].authorId == user then 1 else 0) + CountBy(table[1..], user)
  }

  lemma {:induction false} CountByAppend(s: seq<Post>, t: seq<Post>, user: UserId)
    ensures CountBy(s + t, user) == CountBy(s, user) + CountBy(t, user)
  {
    if s == [] {
      assert s + t == t;
    } else {
      assert (s + t)[1..] == s[1..] + t;
      CountByAppend(s[1..], t, user);
    }
  }

  /** Over any run of calls, rows are only ever appended, and the posts of a
      user grow by at most the number of times the limiter admitted that user:
      whatever bound the limiter keeps carries over to the table. */
  lemma {:induction false} ReplayGrowthBoundedByAdmissions(
    table: seq<Post>, requests: seq<Request>, user: UserId, isEmoji: EmojiCheck)
    ensures var after := Replay(table, requests, isEmoji);
            && |table| <= |after|
            && after[..|table|] == table
            && CountBy(table, user) <= CountBy(after, user) <= CountBy(table, user) + Admitted(requests, user, isEmoji)
    decreases |requests|
  {
    if requests != [] {
      var q := requests[0];
      var next := CreatePosts(table, q.userId, q.content, isEmoji, q.limiter, q.stamp).table;
      ReplayGrowthBoundedByAdmissions(next, requests[1..], user, isEmoji);
      if next != table {
        var post := next[|table|];
        assert next == table + [post];
        CountByAppend(table, [post], user);
        assert CountBy([post], user) == (if post.authorId == user then 1 else 0);
      }
      var after := Replay(table, requests, isEmoji);
      assert after[..|table|] == after[..|next|][..|table|];
    }
  }
}
