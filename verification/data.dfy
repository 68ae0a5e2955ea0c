/** The records kept in the service's single document store (users, likes, matches)
    and the HTTP failures the routes raise. */
module Data {

  /** A submitted profile, as the `/profile` route stores it. The optional `bio` and
      `photo` fields default to the empty string and are kept as plain strings. */
  datatype Profile = Profile(
    tgId: int,
    name: string,
    age: int,
    city: string,
    bio: string,
    gender: string,
    photo: string)

  /** One entry of the interest ledger: `fromId` acted on `toId` with `action`.
      The action is a free string ("like", "nope", "super" by convention, never checked). */
  datatype LikeAction = LikeAction(fromId: int, toId: int, action: string)

  /** One match record, in the orientation it was created (the liker is `user1`). */
  datatype MatchRecord = MatchRecord(user1: int, user2: int)

  /** The whole stored document: profiles keyed by user id, the append-only ledger of
      actions and the list of match records. */
  datatype Document = Document(
    users: map<int, Profile>,
    likes: seq<LikeAction>,
    matches: seq<MatchRecord>)

  /** The document a fresh installation starts from. */
  const EmptyDocument := Document(map[], [], [])

  /** An HTTP error raised by a route. */
  datatype Failure = Failure(status: int, detail: string)

  const UserNotFound := Failure(404, "User not found")
  const RegisterFirst := Failure(404, "Register first")

  datatype Result<T> = Ok(value: T) | Err(failure: Failure)

  datatype Option<T> = None | Some(value: T)

  /** The counters returned by the `/stats` route. */
  datatype Stats = Stats(likes: int, matches: int, views: int)

  /** Every profile is stored under its own id, which is what the `/profile` route does. */
  ghost predicate KeyedById(users: map<int, Profile>)
  {
    forall k :: k in users ==> users[k].tgId == k
  }
}
