/**
 * Values shared by the client stores and components: the user record the
 * server returns, a dashboard tag, the `{code, msg, data}` envelope of every
 * API reply, the settled state of a promise, and a navigation request.
 */
module ClientTypes {
  /** The `User` record of the client API (its two timestamps are not modelled). */
  datatype User = User(
    id: nat,
    uuid: string,
    username: string,
    email: string,
    openid: string,
    avatar: string,
    address: string,
    signature: string,
    roleId: int,
    register: string,
    freeze: bool)

  /** A tab of the dashboard tag bar. */
  datatype Tag = Tag(title: string, name: string)

  /** The body of every API reply. */
  datatype Envelope<T> = Envelope(code: int, msg: string, data: T)

  /** How an awaited promise settled: with a value, or by rejecting. */
  datatype Settled<T> = Fulfilled(value: T) | Rejected

  /** What a component asked the router to do. `Back` is `navigate(-1)`. */
  datatype Nav = Go(path: string) | Back

  /** The role id of an administrator. */
  const AdminRole: int := 2

  /** Whether a user counts as logged in: any role other than 0. */
  predicate IsLoggedIn(u: User)
  {
    u.roleId != 0
  }

  /** Whether a user is an administrator; every administrator is logged in. */
  predicate IsAdmin(u: User)
    ensures IsAdmin(u) ==> IsLoggedIn(u)
  {
    u.roleId == AdminRole
  }
}
