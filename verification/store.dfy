/** The post table and the query interface the feed reads it through. */
module Store {
  import opened Wrappers
  import opened Errors
  import opened Users

  /** One UTF-16 code unit: JavaScript string lengths count these. */
  newtype CodeUnit = x: int | 0 <= x < 0x1_0000

  type Text = seq<CodeUnit>

  /** A stored post. `id` and `createdAt` are assigned by the database. */
  datatype Post = Post(id: string, createdAt: int, content: Text, authorId: UserId)

  /** The values the database assigns to a new row: a fresh id and the
      creation time. */
  datatype Stamp = Stamp(id: string, createdAt: int)

  /** A `findMany` over the post table ordered by `createdAt` descending,
      returning at most `take` rows. */
  datatype PostQuery = PostQuery(take: nat)

  /** The database's `findMany`; it may fail. */
  type FindMany = PostQuery -> Result<seq<Post>, Fault>

  predicate NewestFirst(posts: seq<Post>) {
    forall i, j :: 0 <= i < j < |posts| ==> posts[i].createdAt >= posts[j].createdAt
  }

  function Min(a: nat, b: nat): nat {
    if a <= b then a else b
  }

  /** What the database promises of an answer to `query` over the table `rows`:
      as many rows as the cap and the table allow, newest first, drawn from the
      table, and no row left out is newer than a row returned. */
  predicate AnswersQuery(rows: seq<Post>, query: PostQuery, answer: seq<Post>) {
    && |answer| == Min(query.take, |rows|)
    && NewestFirst(answer)
    && multiset(answer) <= multiset(rows)
    && forall i, j :: 0 <= i < |rows| && 0 <= j < |answer| && rows[i] !in answer ==>
         rows[i].createdAt <= answer[j].createdAt
  }
}
