/** The friend-request rules of the friends controller, over an abstract
    request table. */
module Friends {
  import opened Wrappers

  type UserId = string

  datatype RequestStatus = Pending | Accepted

  datatype FriendRequest = FriendRequest(senderId: UserId, receiverId: UserId, status: RequestStatus)

  /** The reply of `sendRequest`.  The flags of the 400 reply say which id is
      missing, those of the 404 reply which user does not exist. */
  datatype SendResult =
    | MissingFields(senderMissing: bool, receiverMissing: bool)
    | UserNotFound(senderUnknown: bool, receiverUnknown: bool)
    | AlreadyExists(status: RequestStatus)
    | Created(request: FriendRequest)

  function StatusCode(r: SendResult): int {
    match r
    case MissingFields(_, _) => 400
    case UserNotFound(_, _) => 404
    case AlreadyExists(_) => 409
    case Created(_) => 201
  }

  /** The request joins `a` and `b`, in either direction. */
  predicate Between(q: FriendRequest, a: UserId, b: UserId) {
    (q.senderId == a && q.receiverId == b) || (q.senderId == b && q.receiverId == a)
  }

  /** `findFirst` with the two-direction filter: the first matching request. */
  function FindBetween(reqs: seq<FriendRequest>, a: UserId, b: UserId): (r: Option<FriendRequest>)
    ensures r.None? <==> forall k :: 0 <= k < |reqs| ==> !Between(reqs[k], a, b)
    ensures r.Some? ==> exists k :: 0 <= k < |reqs| && reqs[k] == r.value && Between(reqs[k], a, b)
                                    && forall m :: 0 <= m < k ==> !Between(reqs[m], a, b)
  {
    if reqs == [] then None
    else if Between(reqs[0], a, b) then Some(reqs[0])
    else
      var rest := FindBetween(reqs[1..], a, b);
      assert forall k :: 0 <= k < |reqs[1..]| ==> reqs[1..][k] == reqs[k + 1];
      if rest.Some? then
        ghost var k :| 0 <= k < |reqs[1..]| && reqs[1..][k] == rest.value && Between(reqs[1..][k], a, b)
                       && forall m :: 0 <= m < k ==> !Between(reqs[1..][m], a, b);
        assert reqs[k + 1] == rest.value && forall m :: 0 <= m < k + 1 ==> !Between(reqs[m], a, b);
        rest
      else
        rest
  }

  /** `sendRequest`'s decision, in its order of checks: missing ids (400),
      unknown users (404), an existing request either way (409), else the new
      pending request (201). */
  function SendRequestOutcome(users: set<UserId>, reqs: seq<FriendRequest>,
                              senderId: Option<string>, receiverId: Option<string>): (r: SendResult)
    ensures r.MissingFields? <==> !Truthy(senderId) || !Truthy(receiverId)
    ensures r.MissingFields? ==> r.senderMissing == !Truthy(senderId) && r.receiverMissing == !Truthy(receiverId)
    ensures r.UserNotFound? <==> Truthy(senderId) && Truthy(receiverId)
                                 && (senderId.value !in users || receiverId.value !in users)
    ensures r.UserNotFound? ==> r.senderUnknown == (senderId.value !in users)
                                && r.receiverUnknown == (receiverId.value !in users)
    ensures r.AlreadyExists? <==> Truthy(senderId) && Truthy(receiverId)
                                  && senderId.value in users && receiverId.value in users
                                  && exists k :: 0 <= k < |reqs| && Between(reqs[k], senderId.value, receiverId.value)
    ensures r.AlreadyExists? ==> exists k :: 0 <= k < |reqs| && Between(reqs[k], senderId.value, receiverId.value)
                                             && reqs[k].status == r.status
    ensures r.Created? ==> r.request == FriendRequest(senderId.value, receiverId.value, Pending)
  {
    if !Truthy(senderId) || !Truthy(receiverId) then
      MissingFields(!Truthy(senderId), !Truthy(receiverId))
    else if senderId.value !in users || receiverId.value !in users then
      UserNotFound(senderId.value !in users, receiverId.value !in users)
    else
      match FindBetween(reqs, senderId.value, receiverId.value)
      case Some(existing) => AlreadyExists(existing.status)
      case None => Created(FriendRequest(senderId.value, receiverId.value, Pending))
  }

  /** At most one request per unordered pair of users. */
  predicate PairUnique(reqs: seq<FriendRequest>) {
    forall i, j :: 0 <= i < j < |reqs| ==> !Between(reqs[j], reqs[i].senderId, reqs[i].receiverId)
  }

  /** The table after a reply: one request appended on 201, untouched otherwise. */
  function AfterSend(reqs: seq<FriendRequest>, r: SendResult): (t: seq<FriendRequest>)
    ensures reqs <= t
    ensures |t| == |reqs| + 1 <==> r.Created?
    ensures !r.Created? ==> t == reqs
    ensures r.Created? ==> t[|reqs|] == r.request
  {
    if r.Created? then reqs + [r.request] else reqs
  }

  /** The handler keeps at most one request per unordered pair. */
  lemma SendKeepsPairUnique(users: set<UserId>, reqs: seq<FriendRequest>,
                            senderId: Option<string>, receiverId: Option<string>)
    requires PairUnique(reqs)
    ensures PairUnique(AfterSend(reqs, SendRequestOutcome(users, reqs, senderId, receiverId)))
  {
    var r := SendRequestOutcome(users, reqs, senderId, receiverId);
    if r.Created? {
      var reqs' := reqs + [r.request];
      forall i, j | 0 <= i < j < |reqs'|
        ensures !Between(reqs'[j], reqs'[i].senderId, reqs'[i].receiverId)
      {
        if j == |reqs| {
          assert !Between(reqs[i], r.request.senderId, r.request.receiverId);
        }
      }
    }
  }

  /** After a successful A→B, a further A→B and a B→A both meet 409 with the
      new request's pending status, and nothing is added. */
  lemma SecondRequestConflicts(users: set<UserId>, reqs: seq<FriendRequest>, a: UserId, b: UserId)
    requires SendRequestOutcome(users, reqs, Some(a), Some(b)).Created?
    ensures var reqs' := AfterSend(reqs, SendRequestOutcome(users, reqs, Some(a), Some(b)));
            && SendRequestOutcome(users, reqs', Some(a), Some(b)) == AlreadyExists(Pending)
            && SendRequestOutcome(users, reqs', Some(b), Some(a)) == AlreadyExists(Pending)
  {
    var reqs' := reqs + [FriendRequest(a, b, Pending)];
    assert reqs'[|reqs|] == FriendRequest(a, b, Pending);
    assert forall k :: 0 <= k < |reqs| ==> reqs'[k] == reqs[k];
    assert forall k :: 0 <= k < |reqs| ==> !Between(reqs[k], a, b);
    assert FindBetween(reqs', a, b) == Some(FriendRequest(a, b, Pending));
    assert FindBetween(reqs', b, a) == Some(FriendRequest(a, b, Pending)) by {
      assert forall k :: 0 <= k < |reqs| ==> !Between(reqs[k], b, a);
    }
  }

  /** `getFriendRequests`: the requests sent by `id`, in table order. */
  function SentBy(reqs: seq<FriendRequest>, id: UserId): (r: seq<FriendRequest>)
    ensures |r| <= |reqs|
    ensures forall q :: q in r <==> q in reqs && q.senderId == id
    ensures multiset(r) <= multiset(reqs)
  {
    if reqs == [] then []
    else
      assert reqs == [reqs[0]] + reqs[1..];
      if reqs[0].senderId == id then [reqs[0]] + SentBy(reqs[1..], id)
      else SentBy(reqs[1..], id)
  }
}
