/** The backend's tables as one in-memory store, with each request handler of
    the friends, game and question controllers as a method that returns the
    HTTP status and reply and updates the tables. */
module Backend {
  import opened Wrappers
  import F = Friends
  import G = Game
  import Q = Questions

  class Store {
    var users: G.UserTable
    var requests: seq<F.FriendRequest>
    var questions: Q.QuestionTable

    /** The uniqueness the handlers maintain when requests are served one at
        a time: one friend request per unordered pair, one stored question per
        text. */
    ghost predicate Valid()
      reads this
    {
      F.PairUnique(requests) && Q.UniqueTexts(questions)
    }

    /** The store over the database's current contents. */
    constructor (initialUsers: G.UserTable, initialRequests: seq<F.FriendRequest>, initialQuestions: Q.QuestionTable)
      requires F.PairUnique(initialRequests) && Q.UniqueTexts(initialQuestions)
      ensures Valid()
      ensures users == initialUsers && requests == initialRequests && questions == initialQuestions
    {
      users := initialUsers;
      requests := initialRequests;
      questions := initialQuestions;
    }

    // ----- friends controller

    method SendRequest(senderId: Option<string>, receiverId: Option<string>) returns (status: int, res: F.SendResult)
      requires Valid()
      modifies this`requests
      ensures Valid()
      ensures res == F.SendRequestOutcome(users.Keys, old(requests), senderId, receiverId)
      ensures status == F.StatusCode(res)
      ensures requests == F.AfterSend(old(requests), res)
      ensures users == old(users) && questions == old(questions)
    {
      F.SendKeepsPairUnique(users.Keys, requests, senderId, receiverId);
      if !Truthy(senderId) || !Truthy(receiverId) {
        return 400, F.MissingFields(!Truthy(senderId), !Truthy(receiverId));
      }
      var sender, receiver := senderId.value, receiverId.value;
      if sender !in users || receiver !in users {
        return 404, F.UserNotFound(sender !in users, receiver !in users);
      }
      var existing := F.FindBetween(requests, sender, receiver);
      if existing.Some? {
        return 409, F.AlreadyExists(existing.value.status);
      }
      var created := F.FriendRequest(sender, receiver, F.Pending);
      requests := requests + [created];
      return 201, F.Created(created);
    }

    method GetFriendRequests(id: F.UserId) returns (status: int, res: seq<F.FriendRequest>)
      ensures status == 200
      ensures forall q :: q in res <==> q in requests && q.senderId == id
      ensures res == F.SentBy(requests, id)
    {
      return 200, F.SentBy(requests, id);
    }

    // ----- game controller

    method AddPoint(userId: Option<string>, points: int) returns (status: int, reply: G.CounterReply)
      modifies this`users
      ensures G.AddPoint(old(users), userId, points) == G.Outcome(reply, users)
      ensures status == G.CounterCode(reply)
      ensures requests == old(requests) && questions == old(questions)
    {
      if !Truthy(userId) {
        return 400, G.BadRequest;
      }
      var id := userId.value;
      if id !in users {
        return 404, G.NotFound;
      }
      var updated := G.UserStats(users[id].points + points, users[id].matches);
      users := users[id := updated];
      return 200, G.Updated(updated);
    }

    method AddMatch(userId: Option<string>) returns (status: int, reply: G.CounterReply)
      modifies this`users
      ensures G.AddMatch(old(users), userId) == G.Outcome(reply, users)
      ensures status == G.CounterCode(reply)
      ensures requests == old(requests) && questions == old(questions)
    {
      if !Truthy(userId) {
        return 400, G.BadRequest;
      }
      var id := userId.value;
      if id !in users {
        return 500, G.Internal;
      }
      var updated := G.UserStats(users[id].points, users[id].matches + 1);
      users := users[id := updated];
      return 200, G.Updated(updated);
    }

    method GetUserPointsAndMatch(id: G.UserId) returns (status: int, reply: G.StatsReply)
      ensures reply == G.StatsOf(users, id)
      ensures status == 200 <==> id in users
      ensures status == G.StatsCode(reply)
    {
      if id !in users {
        return 404, G.StatsNotFound;
      }
      return 200, G.Stats(users[id].points, users[id].matches);
    }

    // ----- question controller

    method SaveExternalQuestion(q: Q.ExternalQuestion) returns (status: int, res: Q.SaveResult)
      requires Valid()
      modifies this`questions
      ensures Valid()
      ensures res == Q.SaveOutcome(old(questions), q)
      ensures status == Q.SaveCode(res)
      ensures questions == Q.AfterSave(old(questions), res)
      ensures users == old(users) && requests == old(requests)
    {
      Q.SaveKeepsUniqueTexts(questions, q);
      if Q.HasText(questions, q.question) {
        return 409, Q.QuestionExists;
      }
      var row := Q.ToStored(q);
      questions := questions + [row];
      return 201, Q.Saved(row);
    }

    method GetAllQuestions() returns (status: int, res: Q.QuestionTable)
      ensures status == 200 && res == questions
    {
      return 200, questions;
    }
  }
}
