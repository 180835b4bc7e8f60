/** Users as the identity provider returns them, the projection that decides
    what of a user may reach a client, and the directory's query interface. */
module Users {
  import opened Wrappers
  import opened Errors

  type UserId = string

  /** A user record of the identity provider. Next to the three public fields
      it carries private ones (names, e-mail addresses) that the routers must
      not hand to clients. A username may be absent. */
  datatype User = User(
    id: UserId,
    username: Option<string>,
    imageUrl: string,
    firstName: Option<string>,
    lastName: Option<string>,
    emailAddresses: seq<string>)

  /** The public shape of a user: exactly `{id, username, imageUrl}`. */
  datatype ClientUser = ClientUser(id: UserId, username: Option<string>, imageUrl: string)

  /** Projects a user to its public fields. Total: it accepts every user and
      passes the username through as it is, absent or empty included. */
  function FilterUser(user: User): (c: ClientUser)
    ensures c.id == user.id
    ensures c.username == user.username
    ensures c.imageUrl == user.imageUrl
  {
    ClientUser(user.id, user.username, user.imageUrl)
  }

  /** Two users look the same to a client exactly when they agree on the three
      public fields: nothing private leaks into the projection and nothing
      public is lost. */
  lemma FilterUserKeepsExactlyPublicFields(u: User, v: User)
    ensures FilterUser(u) == FilterUser(v)
        <==> u.id == v.id && u.username == v.username && u.imageUrl == v.imageUrl
  {
  }

  /** Applies the projection to every user of a directory answer, in order. */
  function FilterUsers(users: seq<User>): (cs: seq<ClientUser>)
    ensures |cs| == |users|
    ensures forall i :: 0 <= i < |users| ==> cs[i] == FilterUser(users[i])
  {
    seq(|users|, i requires 0 <= i < |users| => FilterUser(users[i]))
  }

  /** The two ways the routers query the directory: by a list of usernames,
      or by a list of user ids with a cap on the number of users returned. */
  datatype UserQuery =
    | ByUsernames(usernames: seq<string>)
    | ByIds(userIds: seq<UserId>, limit: nat)

  /** The identity provider's user list call; it may fail. */
  type Directory = UserQuery -> Result<seq<User>, Fault>
}
