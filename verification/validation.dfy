/** The input schema of `createPosts`: a string that passes the emoji check and
    is between 1 and 200 code units long. The schema reports every failed check,
    in the order the checks are declared. */
module Validation {
  import opened Wrappers
  import opened Errors
  import opened Store

  const MinContentLength: nat := 1
  const MaxContentLength: nat := 200
  const EmojiMessage: string := "Enter valid emoji"

  /** The schema library's emoji test, whose pattern is not part of this model. */
  type EmojiCheck = Text -> bool

  predicate ValidContent(content: Text, isEmoji: EmojiCheck) {
    MinContentLength <= |content| <= MaxContentLength && isEmoji(content)
  }

  /** The position of a check in the schema's declaration: emoji, then the
      minimum, then the maximum. */
  function Rank(issue: Issue): nat {
    match issue
    case NotEmoji(_) => 0
    case TooSmall(_) => 1
    case TooBig(_) => 2
  }

  /** The issues the schema reports for `content`: each failed check once, in
      declaration order. */
  function ContentIssues(content: Text, isEmoji: EmojiCheck): (issues: seq<Issue>)
    ensures NotEmoji(EmojiMessage) in issues <==> !isEmoji(content)
    ensures TooSmall(MinContentLength) in issues <==> |content| < MinContentLength
    ensures TooBig(MaxContentLength) in issues <==> |content| > MaxContentLength
    ensures forall k :: 0 <= k < |issues| ==>
              issues[k] in {NotEmoji(EmojiMessage), TooSmall(MinContentLength), TooBig(MaxContentLength)}
    ensures forall i, j :: 0 <= i < j < |issues| ==> Rank(issues[i]) < Rank(issues[j])
    ensures issues == [] <==> ValidContent(content, isEmoji)
  {
    (if isEmoji(content) then [] else [NotEmoji(EmojiMessage)])
    + (if |content| < MinContentLength then [TooSmall(MinContentLength)] else [])
    + (if |content| > MaxContentLength then [TooBig(MaxContentLength)] else [])
  }

  /** Parses the input of `createPosts`: the content itself when every check
      passes, otherwise a BAD_REQUEST rejection listing the failed checks. */
  function ValidateContent(content: Text, isEmoji: EmojiCheck): (r: Result<Text, ApiError>)
    ensures r.Success? <==> ValidContent(content, isEmoji)
    ensures r.Success? ==> r.value == content
    ensures r.Failure? ==> r.error.InvalidInput? && r.error.issues != []
    ensures r.Failure? ==> (NotEmoji(EmojiMessage) in r.error.issues <==> !isEmoji(content))
    ensures r.Failure? ==> (TooSmall(MinContentLength) in r.error.issues <==> |content| < MinContentLength)
    ensures r.Failure? ==> (TooBig(MaxContentLength) in r.error.issues <==> |content| > MaxContentLength)
  {
    var issues := ContentIssues(content, isEmoji);
    if issues == [] then Success(content) else Failure(InvalidInput(issues))
  }
}
