/** The point and match counters of the game controller, over an abstract
    user table `id -> (points, matches)`. */
module Game {
  import opened Wrappers

  type UserId = string

  datatype UserStats = UserStats(points: int, matches: int)

  type UserTable = map<UserId, UserStats>

  /** The reply of `addPoint` / `addMatch`: 200 carries the updated user. */
  datatype CounterReply = BadRequest | NotFound | Internal | Updated(user: UserStats)

  function CounterCode(r: CounterReply): int {
    match r
    case BadRequest => 400
    case NotFound => 404
    case Internal => 500
    case Updated(_) => 200
  }

  /** A reply together with the table it leaves behind. */
  datatype Outcome = Outcome(reply: CounterReply, users: UserTable)

  /** Add `dPoints` and `dMatches` to one existing user's counters. */
  function Bump(users: UserTable, id: UserId, dPoints: int, dMatches: int): (t: UserTable)
    requires id in users
    ensures t.Keys == users.Keys
    ensures t[id] == UserStats(users[id].points + dPoints, users[id].matches + dMatches)
    ensures forall u :: u in users && u != id ==> t[u] == users[u]
  {
    users[id := UserStats(users[id].points + dPoints, users[id].matches + dMatches)]
  }

  /** `addPoint`, with its record-not-found branch answering 404. */
  function AddPoint(users: UserTable, userId: Option<string>, points: int): (o: Outcome)
    ensures !Truthy(userId) ==> o == Outcome(BadRequest, users)
    ensures Truthy(userId) && userId.value !in users ==> o == Outcome(NotFound, users)
    ensures Truthy(userId) && userId.value in users ==>
              && o.users == Bump(users, userId.value, points, 0)
              && o.reply == Updated(o.users[userId.value])
  {
    if !Truthy(userId) then Outcome(BadRequest, users)
    else if userId.value !in users then Outcome(NotFound, users)
    else
      var t := Bump(users, userId.value, points, 0);
      Outcome(Updated(t[userId.value]), t)
  }

  /** `addPoint` as written: its record-not-found branch logs `userId`, which
      is declared inside the `try` block and so is out of scope in `catch`; the
      handler throws there and chooses no reply (None). */
  function AddPointAsWritten(users: UserTable, userId: Option<string>, points: int): (o: Option<Outcome>)
    ensures o.None? <==> Truthy(userId) && userId.value !in users
  {
    if Truthy(userId) && userId.value !in users then None
    else Some(AddPoint(users, userId, points))
  }

  /** The discrepancy: for an unknown user the corrected handler answers 404
      and leaves the table alone, while the handler as written never answers. */
  lemma AddPointUnknownUser(users: UserTable, id: UserId, points: int)
    requires id != "" && id !in users
    ensures AddPointAsWritten(users, Some(id), points).None?
    ensures AddPoint(users, Some(id), points) == Outcome(NotFound, users)
    ensures CounterCode(AddPoint(users, Some(id), points).reply) == 404
  {
  }

  /** `addMatch`: it has no record-not-found branch, so an unknown user falls
      into the generic 500 reply. */
  function AddMatch(users: UserTable, userId: Option<string>): (o: Outcome)
    ensures !Truthy(userId) ==> o == Outcome(BadRequest, users)
    ensures Truthy(userId) && userId.value !in users ==> o == Outcome(Internal, users)
    ensures Truthy(userId) && userId.value in users ==>
              && o.users == Bump(users, userId.value, 0, 1)
              && o.reply == Updated(o.users[userId.value])
  {
    if !Truthy(userId) then Outcome(BadRequest, users)
    else if userId.value !in users then Outcome(Internal, users)
    else
      var t := Bump(users, userId.value, 0, 1);
      Outcome(Updated(t[userId.value]), t)
  }

  /** The reply of `getUserPointsAndMatch`: only the two counters. */
  datatype StatsReply = Stats(points: int, matches: int) | StatsNotFound

  function StatsCode(r: StatsReply): int {
    if r.Stats? then 200 else 404
  }

  function StatsOf(users: UserTable, id: UserId): (r: StatsReply)
    ensures r.StatsNotFound? <==> id !in users
    ensures r.Stats? ==> r == Stats(users[id].points, users[id].matches)
  {
    if id in users then Stats(users[id].points, users[id].matches) else StatsNotFound
  }

  /** `addPoint` changes only that user's points, by exactly `points`. */
  lemma AddPointOnlyAddsPoints(users: UserTable, id: UserId, points: int)
    requires id != "" && id in users
    ensures var o := AddPoint(users, Some(id), points);
            && CounterCode(o.reply) == 200
            && o.users.Keys == users.Keys
            && o.users[id].points == users[id].points + points
            && o.users[id].matches == users[id].matches
            && forall u :: u in users && u != id ==> o.users[u] == users[u]
  {
  }

  /** `addMatch` changes only that user's matches, by exactly one. */
  lemma AddMatchOnlyCountsMatch(users: UserTable, id: UserId)
    requires id != "" && id in users
    ensures var o := AddMatch(users, Some(id));
            && CounterCode(o.reply) == 200
            && o.users.Keys == users.Keys
            && o.users[id].matches == users[id].matches + 1
            && o.users[id].points == users[id].points
            && forall u :: u in users && u != id ==> o.users[u] == users[u]
  {
  }

  /** Two successive `addPoint(u, 1)` show up as +2 in the stats read-back,
      with the match count unchanged. */
  lemma TwoPointsReadBack(users: UserTable, id: UserId)
    requires id != "" && id in users
    ensures var once := AddPoint(users, Some(id), 1).users;
            var twice := AddPoint(once, Some(id), 1).users;
            StatsOf(twice, id) == Stats(users[id].points + 2, users[id].matches)
  {
    var once := AddPoint(users, Some(id), 1).users;
    assert once[id].points == users[id].points + 1;
    var twice := AddPoint(once, Some(id), 1).users;
    assert twice[id] == UserStats(users[id].points + 2, users[id].matches);
  }
}
