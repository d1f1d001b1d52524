/** The user entity: immutable once built, with a password check and a
    password-free public view. */
module Users {
  import opened Wrappers
  import opened Tasks

  datatype User = User(
    id: string,
    email: string,
    password: string,
    createdAt: Timestamp,
    lastLogin: Timestamp)

  datatype UserProps = UserProps(
    id: Option<string>,
    email: string,
    password: string,
    createdAt: Option<Timestamp>,
    lastLogin: Option<Timestamp>)

  /** What `toJSON` returns: no password field exists in it. */
  datatype PublicUser = PublicUser(
    id: string,
    email: string,
    createdAt: Timestamp,
    lastLogin: Timestamp)

  /** `new User(props)`, with `now` for `new Date()` and `freshId` for
      `crypto.randomUUID()`. */
  function NewUser(props: UserProps, now: Timestamp, freshId: string): User {
    User(
      IdOr(props.id, freshId),
      props.email,
      props.password,
      if props.createdAt.Some? then props.createdAt.value else now,
      if props.lastLogin.Some? then props.lastLogin.value else now)
  }

  /** The defaults the constructor fills in, and the fields it copies. */
  lemma NewUserDefaults(props: UserProps, now: Timestamp, freshId: string)
    ensures var u := NewUser(props, now, freshId);
      && (props.id.None? || props.id.value == "" ==> u.id == freshId)
      && (props.id.Some? && props.id.value != "" ==> u.id == props.id.value)
      && u.email == props.email && u.password == props.password
      && (props.createdAt.None? ==> u.createdAt == now)
      && (props.lastLogin.None? ==> u.lastLogin == now)
  {
  }

  /** `user.verifyPassword(candidate)`. */
  function VerifyPassword(u: User, candidate: string): bool {
    u.password == candidate
  }

  /** `user.toJSON()`. */
  function ToJSON(u: User): PublicUser {
    PublicUser(u.id, u.email, u.createdAt, u.lastLogin)
  }

  /** A new user accepts exactly the password it was built with. */
  lemma NewUserAcceptsOnlyItsPassword(props: UserProps, now: Timestamp, freshId: string, candidate: string)
    ensures VerifyPassword(NewUser(props, now, freshId), candidate) <==> candidate == props.password
  {
  }

  /** The public view carries every field but the password, and two users
      that differ only in their password have the same public view. */
  lemma ToJSONOmitsPassword(u: User, other: string)
    ensures var j := ToJSON(u);
      j.id == u.id && j.email == u.email && j.createdAt == u.createdAt && j.lastLogin == u.lastLogin
    ensures ToJSON(u.(password := other)) == ToJSON(u)
  {
  }

  /** The user `login` rebuilds from the public view of `u`, a password and a
      new last-login time. */
  function Refreshed(u: User, password: string, lastLogin: Timestamp, now: Timestamp): User {
    var j := ToJSON(u);
    NewUser(UserProps(Some(j.id), j.email, password, Some(j.createdAt), Some(lastLogin)), now, j.id)
  }

  /** Rebuilding a user from its public view and its own password changes only
      `lastLogin`; the rebuilt user accepts exactly the same password. */
  lemma RefreshedKeepsIdentity(u: User, lastLogin: Timestamp, now: Timestamp, candidate: string)
    ensures Refreshed(u, u.password, lastLogin, now) == u.(lastLogin := lastLogin)
    ensures VerifyPassword(Refreshed(u, u.password, lastLogin, now), candidate) <==> candidate == u.password
  {
  }
}
