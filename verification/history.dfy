/** The conversation-history endpoint of controllers/chatController.js: the
    messages between the caller and one contact, in either direction, in
    ascending timestamp order. */
module History {
  import opened Common
  import opened Relay

  /** A value in a JSON reply body. */
  datatype Field = Flag(flag: bool) | Text(text: string) | List(list: seq<Message>) | Null

  /** A status code and a JSON object. */
  datatype Reply = Reply(status: nat, body: map<string, Field>)

  /** `sendResponse(res, status, success, data, message = null)`: the body is
      `{ success, ...data, message }`, so `message` always wins, a `success`
      key in `data` would override the flag, and every other key of `data` is
      kept. */
  function SendResponse(status: nat, success: bool, data: map<string, Field>, message: Option<string>): (r: Reply)
    ensures r.status == status
    ensures r.body.Keys == data.Keys + {"success", "message"}
    ensures r.body["message"] == (if message.Some? then Text(message.value) else Null)
    ensures r.body["success"] == (if "success" in data then data["success"] else Flag(success))
    ensures forall k :: k in data && k != "success" && k != "message" ==> r.body[k] == data[k]
  {
    var message := match message case Some(m) => Text(m) case None => Null;
    Reply(status, (map["success" := Flag(success)] + data)["message" := message])
  }

  /** A message belongs to the conversation of `me` and `contact` when it went
      from one to the other, in either direction. */
  predicate Between(m: Message, me: UserId, contact: UserId)
  {
    (m.sender == me && m.receiver == contact) || (m.sender == contact && m.receiver == me)
  }

  /** Putting in front an element no later than any element of an ordered
      sequence keeps it ordered. */
  lemma PrependKeepsTimeOrder(x: Message, s: seq<Message>)
    requires TimeOrdered(s)
    requires forall m :: m in s ==> x.timestamp <= m.timestamp
    ensures TimeOrdered([x] + s)
  {
    var r := [x] + s;
    forall i, j | 0 <= i < j < |r|
      ensures r[i].timestamp <= r[j].timestamp
    {
      assert r[j] == s[j - 1];
      if i > 0 {
        assert r[i] == s[i - 1];
      }
    }
  }

  /** The `$or` query: the messages of the conversation, in log order. */
  function Conversation(log: seq<Message>, me: UserId, contact: UserId): (r: seq<Message>)
    ensures forall m :: m in r <==> m in log && Between(m, me, contact)
    ensures forall m :: multiset(r)[m] == if Between(m, me, contact) then multiset(log)[m] else 0
  {
    if log == [] then []
    else
      var rest := Conversation(log[1..], me, contact);
      assert log == [log[0]] + log[1..];
      if Between(log[0], me, contact) then [log[0]] + rest else rest
  }

  /** Filtering an ordered log gives an ordered conversation. */
  lemma {:induction false} ConversationKeepsTimeOrder(log: seq<Message>, me: UserId, contact: UserId)
    requires TimeOrdered(log)
    ensures TimeOrdered(Conversation(log, me, contact))
  {
    if log != [] {
      assert TimeOrdered(log[1..]);
      ConversationKeepsTimeOrder(log[1..], me, contact);
      var rest := Conversation(log[1..], me, contact);
      if Between(log[0], me, contact) {
        forall m | m in rest
          ensures log[0].timestamp <= m.timestamp
        {
          var j :| 0 <= j < |log[1..]| && log[1..][j] == m;
          assert log[j + 1] == m;
        }
        PrependKeepsTimeOrder(log[0], rest);
      }
    }
  }

  /** Inserts `x` before the first element whose timestamp is not smaller, so
      that among equal timestamps earlier log entries stay first. */
  function Insert(x: Message, s: seq<Message>): (r: seq<Message>)
    ensures multiset(r) == multiset(s) + multiset{x}
  {
    if s == [] || x.timestamp <= s[0].timestamp then [x] + s
    else
      assert s == [s[0]] + s[1..];
      [s[0]] + Insert(x, s[1..])
  }

  /** Every element of an ordered sequence is no earlier than its first. */
  lemma HeadIsEarliest(s: seq<Message>, m: Message)
    requires TimeOrdered(s) && m in s
    ensures s[0].timestamp <= m.timestamp
  {
    var j :| 0 <= j < |s| && s[j] == m;
  }

  /** Inserting into an ordered sequence keeps it ordered. */
  lemma {:induction false} InsertKeepsTimeOrder(x: Message, s: seq<Message>)
    requires TimeOrdered(s)
    ensures TimeOrdered(Insert(x, s))
  {
    if s == [] || x.timestamp <= s[0].timestamp {
      forall m | m in s ensures x.timestamp <= m.timestamp {
        HeadIsEarliest(s, m);
      }
      PrependKeepsTimeOrder(x, s);
    } else {
      var tail := Insert(x, s[1..]);
      assert TimeOrdered(s[1..]);
      InsertKeepsTimeOrder(x, s[1..]);
      forall m | m in tail ensures s[0].timestamp <= m.timestamp {
        assert m in multiset(tail);
        if m != x {
          assert m in multiset(s[1..]);
          assert m in s;
          HeadIsEarliest(s, m);
        }
      }
      PrependKeepsTimeOrder(s[0], tail);
    }
  }

  /** `.sort({ timestamp: 1 })`: a stable insertion sort on the timestamp. */
  function SortByTimestamp(s: seq<Message>): (r: seq<Message>)
    ensures TimeOrdered(r)
    ensures multiset(r) == multiset(s)
  {
    if s == [] then []
    else
      assert s == [s[0]] + s[1..];
      InsertKeepsTimeOrder(s[0], SortByTimestamp(s[1..]));
      Insert(s[0], SortByTimestamp(s[1..]))
  }

  /** `getMessages`: a missing contact id is a 400 before the store is
      touched; a failing query is a 500 carrying the store's error message;
      otherwise a 200 with the sorted conversation. */
  function GetMessages(log: seq<Message>, me: UserId, contactId: Option<string>, failure: Option<string>): (r: Reply)
    ensures "success" in r.body && "message" in r.body
    ensures r.body["success"] == Flag(r.status == 200)
    ensures r.status == 200 <==> Truthy(contactId) && failure.None?
    ensures !Truthy(contactId) ==>
              r == Reply(400, map["success" := Flag(false), "message" := Text("Contact ID is required")])
    ensures Truthy(contactId) && failure.Some? ==>
              r == Reply(500, map["success" := Flag(false), "message" := Text("Server error: " + failure.value)])
    ensures r.status == 200 ==>
      && r.body.Keys == {"success", "messages", "message"}
      && r.body["message"] == Text("Messages retrieved successfully")
      && r.body["messages"].List?
      && var found := r.body["messages"].list;
      && TimeOrdered(found)
      && (forall m :: m in found <==> m in log && Between(m, me, contactId.value))
      && (forall m :: multiset(found)[m] == if Between(m, me, contactId.value) then multiset(log)[m] else 0)
  {
    if !Truthy(contactId) then
      var r := SendResponse(400, false, map[], Some("Contact ID is required"));
      assert r.body == map["success" := Flag(false), "message" := Text("Contact ID is required")];
      r
    else
      match failure
      case Some(e) =>
        var r := SendResponse(500, false, map[], Some("Server error: " + e));
        assert r.body == map["success" := Flag(false), "message" := Text("Server error: " + e)];
        r
      case None =>
        var found := SortByTimestamp(Conversation(log, me, contactId.value));
        assert forall m :: m in found <==> m in multiset(found);
        SendResponse(200, true, map["messages" := List(found)], Some("Messages retrieved successfully"))
  }

  /** The 400 reply for a missing contact id does not depend on the log. */
  lemma MissingContactDoesNotReadLog(log1: seq<Message>, log2: seq<Message>, me: UserId, contactId: Option<string>, failure: Option<string>)
    requires !Truthy(contactId)
    ensures GetMessages(log1, me, contactId, failure) == GetMessages(log2, me, contactId, failure)
  {
  }

  /** A conversation without messages is a 200 with an empty list, not an error. */
  lemma EmptyConversationIsOk(log: seq<Message>, me: UserId, contact: UserId)
    requires contact != ""
    requires forall k :: 0 <= k < |log| ==> !Between(log[k], me, contact)
    ensures var r := GetMessages(log, me, Some(contact), None);
            r.status == 200 && r.body["messages"] == List([])
  {
  }

  /** Timestamps strictly increase along the sequence. */
  predicate StrictlyTimeOrdered(s: seq<Message>)
  {
    forall i, j :: 0 <= i < j < |s| ==> s[i].timestamp < s[j].timestamp
  }

  /** With distinct timestamps, only the first element of an ordered sequence
      can carry a timestamp no later than the first's. */
  lemma FirstIsOnlyEarliest(a: seq<Message>, m: Message)
    requires StrictlyTimeOrdered(a) && a != [] && m in a && m.timestamp <= a[0].timestamp
    ensures m == a[0]
  {
    var j :| 0 <= j < |a| && a[j] == m;
  }

  /** Sequences with equal multisets and equal heads have tails with equal
      multisets. */
  lemma TailsAgree(a: seq<Message>, b: seq<Message>)
    requires a != [] && b != [] && a[0] == b[0] && multiset(a) == multiset(b)
    ensures multiset(a[1..]) == multiset(b[1..])
  {
    assert a == [a[0]] + a[1..] && b == [b[0]] + b[1..];
    assert multiset(a) == multiset{a[0]} + multiset(a[1..]);
    assert multiset(b) == multiset{b[0]} + multiset(b[1..]);
    forall m ensures multiset(a[1..])[m] == multiset(b[1..])[m] {
      assert multiset(a)[m] == multiset{a[0]}[m] + multiset(a[1..])[m];
      assert multiset(b)[m] == multiset{b[0]}[m] + multiset(b[1..])[m];
    }
  }

  /** Two timestamp-ordered arrangements of the same messages are equal when
      the timestamps are distinct: ascending order by timestamp then leaves no
      freedom. */
  lemma {:induction false} OrderedArrangementIsUnique(a: seq<Message>, b: seq<Message>)
    requires StrictlyTimeOrdered(a) && TimeOrdered(b)
    requires multiset(a) == multiset(b)
    ensures a == b
    decreases |a|
  {
    assert |a| == |multiset(a)| == |multiset(b)| == |b|;
    if a != [] {
      assert b[0] in multiset(a) && a[0] in multiset(b);
      HeadIsEarliest(b, a[0]);
      FirstIsOnlyEarliest(a, b[0]);
      TailsAgree(a, b);
      assert StrictlyTimeOrdered(a[1..]) && TimeOrdered(b[1..]);
      OrderedArrangementIsUnique(a[1..], b[1..]);
      assert a == [a[0]] + a[1..] && b == [b[0]] + b[1..];
    }
  }

  /** Putting in front an element strictly earlier than every element of a
      strictly ordered sequence keeps it strictly ordered. */
  lemma PrependKeepsStrictOrder(x: Message, s: seq<Message>)
    requires StrictlyTimeOrdered(s)
    requires forall m :: m in s ==> x.timestamp < m.timestamp
    ensures StrictlyTimeOrdered([x] + s)
  {
    var r := [x] + s;
    forall i, j | 0 <= i < j < |r|
      ensures r[i].timestamp < r[j].timestamp
    {
      assert r[j] == s[j - 1];
      if i > 0 {
        assert r[i] == s[i - 1];
      }
    }
  }

  /** Filtering a log with strictly increasing timestamps keeps them strictly
      increasing. */
  lemma {:induction false} ConversationKeepsStrictOrder(log: seq<Message>, me: UserId, contact: UserId)
    requires StrictlyTimeOrdered(log)
    ensures StrictlyTimeOrdered(Conversation(log, me, contact))
  {
    if log != [] {
      assert StrictlyTimeOrdered(log[1..]);
      ConversationKeepsStrictOrder(log[1..], me, contact);
      var rest := Conversation(log[1..], me, contact);
      if Between(log[0], me, contact) {
        forall m | m in rest
          ensures log[0].timestamp < m.timestamp
        {
          var j :| 0 <= j < |log[1..]| && log[1..][j] == m;
          assert log[j + 1] == m;
        }
        PrependKeepsStrictOrder(log[0], rest);
      }
    }
  }

  /** When no two messages share a timestamp, any reply the sort can give is
      the conversation in the order the messages were stored. */
  lemma HistoryFollowsLogOrder(log: seq<Message>, me: UserId, contact: UserId)
    requires StrictlyTimeOrdered(log) && contact != ""
    ensures GetMessages(log, me, Some(contact), None).body["messages"] == List(Conversation(log, me, contact))
  {
    var c := Conversation(log, me, contact);
    var found := GetMessages(log, me, Some(contact), None).body["messages"].list;
    ConversationKeepsStrictOrder(log, me, contact);
    assert multiset(c) == multiset(found);
    OrderedArrangementIsUnique(c, found);
  }
}
