/** Records of the backend tables the client reads and writes (`profiles`,
    `likes`, `matches`, `messages`), and the "other participant" rule that
    both the match list and the conversation list use.
    A column the backend leaves null is modelled as the empty string: in the
    source both are falsy and neither equals any of the filter constants.
    The exception is `age`, whose null (and `NaN`) is `None`. */
module Rows {

  type UserId = string

  /** The only location the application writes and the discovery query accepts. */
  const Leon: string := "León, Guanajuato"

  datatype Option<T> = None | Some(value: T)

  /** The two swipe decisions: the source's `'like'` and `'dislike'` strings. */
  datatype Action = Like | Dislike

  /** A row of `profiles`, keyed by `user_id`. */
  datatype Profile = Profile(
    id: UserId,
    email: string,
    name: string,
    age: Option<int>,
    gender: string,
    seeking: string,
    bio: string,
    interests: string,
    location: string)

  /** A row of `likes`: a directed like (`isLike`) or dislike from `user` to `target`. */
  datatype LikeRow = LikeRow(user: UserId, target: UserId, isLike: bool)

  /** A row of `matches`. */
  datatype MatchRow = MatchRow(user1: UserId, user2: UserId)

  /** A row of `messages` as the conversation query returns it: the sender
      and receiver columns already joined with their `profiles` rows, so the
      ids are the joined profiles' ids. `createdAt` is in milliseconds. */
  datatype Message = Message(sender: Profile, receiver: Profile, content: string, createdAt: int)

  /** Profile ids are unique in a table keyed by `user_id`. */
  predicate DistinctIds(rows: seq<Profile>)
  {
    forall i, j :: 0 <= i < j < |rows| ==> rows[i].id != rows[j].id
  }

  /** The counterpart of `me` on a two-party record (`user1`/`user2` of a
      match, `sender`/`receiver` of a message): the second party when `me`
      is the first one, otherwise the first party. */
  function OtherParty(me: UserId, first: UserId, second: UserId): (r: UserId)
    ensures r == first || r == second
    ensures me == first ==> r == second
    ensures me == second && first != second ==> r == first
    ensures (me == first || me == second) && first != second ==> r != me
  {
    if first == me then second else first
  }

  /** The other user of a match, as the match list picks it. */
  function MatchPartner(me: UserId, m: MatchRow): (r: UserId)
    ensures (me == m.user1 || me == m.user2) && m.user1 != m.user2 ==>
              r != me && {me, r} == {m.user1, m.user2}
  {
    OtherParty(me, m.user1, m.user2)
  }
}
