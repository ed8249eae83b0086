/** The user account and its public projection: the response form leaves
    out the password hash and the last-update timestamp. */
module UserModel {
  import opened Wrappers

  /** A row of the `users` table. */
  datatype User = User(
    id: int,
    username: string,
    passwordHash: string,
    email: Option<string>,
    createdAt: int,
    updatedAt: int)

  /** The only form of a user that leaves the service. It has no field for
      the password hash or the last-update time. */
  datatype UserResponse = UserResponse(
    id: int,
    username: string,
    email: Option<string>,
    createdAt: int)

  /** `User::to_response`: borrows the user and copies the public fields. */
  function ToResponse(user: User): (r: UserResponse)
    ensures r.id == user.id && r.username == user.username
    ensures r.email == user.email && r.createdAt == user.createdAt
  {
    UserResponse(user.id, user.username, user.email, user.createdAt)
  }

  /** `impl From<User> for UserResponse`: consumes the user and moves the
      public fields. */
  function FromUser(user: User): (r: UserResponse)
    ensures r.id == user.id && r.username == user.username
    ensures r.email == user.email && r.createdAt == user.createdAt
  {
    match user
    case User(id, username, _, email, createdAt, _) => UserResponse(id, username, email, createdAt)
  }

  /** Both conversions give the same response. */
  lemma ConversionsAgree(user: User)
    ensures FromUser(user) == ToResponse(user)
  {
  }

  /** The response reveals nothing of the password hash or the update time:
      users that differ only in those give equal responses. */
  lemma ResponseHidesSecrets(user: User, otherHash: string, otherUpdate: int)
    ensures ToResponse(user.(passwordHash := otherHash, updatedAt := otherUpdate)) == ToResponse(user)
  {
  }

  /** The response determines every field it carries: two users with the
      same response agree on id, username, email and creation time. */
  lemma ResponseKeepsPublicFields(a: User, b: User)
    ensures ToResponse(a) == ToResponse(b)
        <==> a.id == b.id && a.username == b.username && a.email == b.email && a.createdAt == b.createdAt
  {
  }
}
