/** The profile lookup (`getUserByUsername`): one directory query by username,
    the first user found, projected to its public fields. */
module Profile {
  import opened Wrappers
  import opened Errors
  import opened Users

  /** The directory query for `username`: exactly that one name. */
  function UsernameQuery(username: string): (q: UserQuery)
    ensures q.ByUsernames? && q.usernames == [username]
  {
    ByUsernames([username])
  }

  /** The `getUserByUsername` procedure. Any string is accepted as a username. */
  function GetUserByUsername(username: string, directory: Directory): (r: Result<ClientUser, ApiError>)
    ensures var answer := directory(UsernameQuery(username));
            && (answer.Failure? ==> r == Failure(Upstream(answer.error)))
            && (answer == Success([]) ==> r == Failure(UserNotFound))
            && (r.Success? <==> answer.Success? && |answer.value| > 0)
            && (r.Success? ==>
                  && r.value.id == answer.value[0].id
                  && r.value.username == answer.value[0].username
                  && r.value.imageUrl == answer.value[0].imageUrl)
  {
    var users :- Forward(directory(UsernameQuery(username)));
    if |users| == 0 then Failure(UserNotFound) else Success(FilterUser(users[0]))
  }

  /** The lookup asks the directory nothing but the one-name query: two
      directories that answer it alike give the same result. */
  lemma LookupConsultsOnlyUsernameQuery(username: string, directory1: Directory, directory2: Directory)
    requires directory1(UsernameQuery(username)) == directory2(UsernameQuery(username))
    ensures GetUserByUsername(username, directory1) == GetUserByUsername(username, directory2)
  {
  }

  /** The first user of the answer decides the result; whatever follows it is
      ignored. */
  lemma FirstMatchWins(username: string, directory: Directory, first: User, rest: seq<User>)
    requires directory(UsernameQuery(username)) == Success([first] + rest)
    ensures GetUserByUsername(username, directory) == Success(FilterUser(first))
  {
  }
}
