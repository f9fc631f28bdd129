/** Messages in the hosted-database variant: sending, marking as read, and
    the merged message list a user sees. */
module Messages {
  import opened Seqs
  import opened Records

  /** The identifiers present in a list of messages. */
  ghost function Ids(s: seq<Message>): set<string>
  {
    set x | x in s :: x.id
  }

  /** No two messages of the list share an identifier. */
  ghost predicate UniqueIds(s: seq<Message>)
  {
    forall i, j :: 0 <= i < j < |s| ==> s[i].id != s[j].id
  }

  lemma IdsSnoc(init: seq<Message>, last: Message)
    ensures Ids(init + [last]) == Ids(init) + {last.id}
  {
    var s := init + [last];
    assert s[|init|] in s;
    forall id | id in Ids(s) ensures id in Ids(init) + {last.id} {
      var x :| x in s && x.id == id;
      if x != last { assert x in init; }
    }
    forall id | id in Ids(init) ensures id in Ids(s) {
      var x :| x in init && x.id == id;
      assert x in s;
    }
  }

  lemma UniqueSnoc(init: seq<Message>, last: Message)
    ensures UniqueIds(init + [last]) <==> UniqueIds(init) && last.id !in Ids(init)
  {
    var s := init + [last];
    if UniqueIds(s) {
      assert forall i, j :: 0 <= i < j < |init| ==> init[i] == s[i] && init[j] == s[j];
      assert forall k :: 0 <= k < |init| ==> s[k].id != s[|init|].id;
    }
    if UniqueIds(init) && last.id !in Ids(init) {
      forall i, j | 0 <= i < j < |s|
        ensures s[i].id != s[j].id
      {
        assert s[i] == init[i];
        if j == |init| {
          assert init[i] in init;
        } else {
          assert s[j] == init[j];
        }
      }
    }
  }

  /** A list has unique identifiers exactly when it has as many identifiers
      as messages. */
  lemma {:induction false} UniqueIdsCount(s: seq<Message>)
    ensures |Ids(s)| <= |s|
    ensures UniqueIds(s) <==> |Ids(s)| == |s|
    decreases |s|
  {
    if |s| == 0 {
      assert Ids(s) == {};
    } else {
      var init, last := s[..|s| - 1], s[|s| - 1];
      assert s == init + [last];
      IdsSnoc(init, last);
      UniqueSnoc(init, last);
      UniqueIdsCount(init);
    }
  }

  /** Two lists with the same elements, counted with multiplicity, hold the
      same identifiers. */
  lemma SameIdsWhenPermuted(a: seq<Message>, b: seq<Message>)
    requires multiset(a) == multiset(b)
    ensures Ids(a) == Ids(b)
  {
    forall x | x in a ensures x in b { assert x in multiset(a); }
    forall x | x in b ensures x in a { assert x in multiset(b); }
  }

  /** The fields a message is created from. */
  datatype Draft = Draft(senderId: string, senderName: string, recipientId: string, content: string,
                         attachment: Option<Attachment>)

  /** Stores a new message: it gets a fresh identifier and the current time,
      is unread, and an attachment now points at its uploaded copy.  A
      text-only message is stored without an attachment field. */
  function SendMessage(messages: seq<Message>, d: Draft, freshId: string, now: int, uploadedUrl: string): (r: seq<Message>)
    ensures |r| == |messages| + 1 && r[..|messages|] == messages
    ensures var m := r[|messages|];
            && m.id == freshId && m.timestamp == now && !m.read
            && m.senderId == d.senderId && m.senderName == d.senderName
            && m.recipientId == d.recipientId && m.content == d.content
            && m.attachment.Some? == d.attachment.Some?
            && (m.attachment.Some? ==> m.attachment.value == d.attachment.value.(data := uploadedUrl))
  {
    var attachment := if d.attachment.Some? then Some(d.attachment.value.(data := uploadedUrl)) else None;
    messages + [Message(freshId, d.senderId, d.senderName, d.recipientId, d.content, attachment, now, false)]
  }

  /** The send as the hosted-database code writes it: the new document always
      carries an `attachment` field, which is `undefined` for a text-only
      message, and the database client, set up without
      `ignoreUndefinedProperties`, refuses such a field.  A text-only send
      therefore fails and stores nothing; a send with a file stores what
      `SendMessage` stores. */
  function SendMessageAsWritten(messages: seq<Message>, d: Draft, freshId: string, now: int, uploadedUrl: string): (r: Option<seq<Message>>)
    ensures r.None? <==> d.attachment.None?
    ensures r.Some? ==> r.value == SendMessage(messages, d, freshId, now, uploadedUrl)
  {
    if d.attachment.None? then None
    else Some(SendMessage(messages, d, freshId, now, uploadedUrl))
  }

  /** A plain greeting with no file is lost by the send as written, while
      the corrected send stores it as the one new message. */
  lemma TextOnlySendLost()
    ensures var d := Draft("teacher01", "Guru", "admin01", "Halo", None);
            && SendMessageAsWritten([], d, "m1", 0, "").None?
            && SendMessage([], d, "m1", 0, "") == [Message("m1", "teacher01", "Guru", "admin01", "Halo", None, 0, false)]
  {
  }

  /** Whether `m` is an unread message from `senderId` to `recipientId`. */
  predicate UnreadBetween(m: Message, senderId: string, recipientId: string)
  {
    m.senderId == senderId && m.recipientId == recipientId && !m.read
  }

  /** Marks every unread message from `senderId` to `recipientId` as read. */
  function MarkMessagesAsRead(messages: seq<Message>, senderId: string, recipientId: string): (r: seq<Message>)
    ensures |r| == |messages|
    ensures forall i :: 0 <= i < |r| ==> r[i].(read := messages[i].read) == messages[i]
    ensures forall i :: 0 <= i < |r| ==> (r[i].read <==> messages[i].read || UnreadBetween(messages[i], senderId, recipientId))
  {
    seq(|messages|, i requires 0 <= i < |messages| =>
          if UnreadBetween(messages[i], senderId, recipientId) then messages[i].(read := true) else messages[i])
  }

  /** After marking, nothing from the sender to the recipient is unread, and
      marking again changes nothing. */
  lemma MarkMessagesAsReadSettles(messages: seq<Message>, senderId: string, recipientId: string)
    ensures var r := MarkMessagesAsRead(messages, senderId, recipientId);
            && (forall m :: m in r ==> !UnreadBetween(m, senderId, recipientId))
            && MarkMessagesAsRead(r, senderId, recipientId) == r
  {
  }

  /** The `users` document named `userId` exists and has the teacher role. */
  predicate IsTeacherAccount(users: seq<User>, userId: string)
  {
    match FindIndex(users, (u: User) => u.id == userId)
    case Some(i) => users[i].role == Teacher
    case None => false
  }

  /** Whether `m` belongs in the list of `userId`: sent by the user,
      addressed to the user, or a broadcast when the user is a teacher. */
  predicate Relevant(m: Message, userId: string, teacher: bool)
  {
    m.senderId == userId || m.recipientId == userId || (teacher && m.recipientId == AllTeachers)
  }

  /** `Map.set`: a known identifier keeps its position and takes the new
      message; a new identifier is appended. */
  function MapSet(acc: seq<Message>, m: Message): (r: seq<Message>)
    ensures Ids(r) == Ids(acc) + {m.id}
    ensures UniqueIds(acc) ==> UniqueIds(r)
    ensures forall x :: x in r ==> x in acc || x == m
  {
    match FindIndex(acc, (x: Message) => x.id == m.id)
    case Some(k) =>
      var r := acc[k := m];
      assert forall i :: 0 <= i < |r| ==> r[i].id == acc[i].id;
      assert Ids(r) == Ids(acc) + {m.id} by {
        forall id | id in Ids(acc) ensures id in Ids(r) {
          var i :| 0 <= i < |acc| && acc[i].id == id;
          assert r[i] in r;
        }
        forall id | id in Ids(r) ensures id in Ids(acc) {
          var i :| 0 <= i < |r| && r[i].id == id;
          assert acc[i] in acc;
        }
      }
      r
    case None =>
      var r := acc + [m];
      assert Ids(r) == Ids(acc) + {m.id} by {
        assert r[|acc|] in r;
        forall id | id in Ids(r) ensures id in Ids(acc) + {m.id} {
          var i :| 0 <= i < |r| && r[i].id == id;
          if i < |acc| { assert acc[i] in acc; }
        }
        forall id | id in Ids(acc) ensures id in Ids(r) {
          var i :| 0 <= i < |acc| && acc[i].id == id;
          assert r[i] in r;
        }
      }
      r
  }

  /** Setting each message of `ms` in turn, starting from `acc`. */
  function MapSetAll(acc: seq<Message>, ms: seq<Message>): (r: seq<Message>)
    ensures Ids(r) == Ids(acc) + Ids(ms)
    ensures UniqueIds(acc) ==> UniqueIds(r)
    ensures forall x :: x in r ==> x in acc || x in ms
    decreases |ms|
  {
    if |ms| == 0 then acc
    else
      var n := |ms| - 1;
      var init := ms[..n];
      assert ms == init + [ms[n]];
      assert Ids(ms) == Ids(init) + {ms[n].id} by {
        forall id | id in Ids(ms) ensures id in Ids(init) + {ms[n].id} {
          var i :| 0 <= i < |ms| && ms[i].id == id;
          if i < n { assert init[i] in init; }
        }
      }
      MapSet(MapSetAll(acc, init), ms[n])
  }

  /** The messages a user sees: sent, received and, for a teacher,
      broadcasts, each identifier once, in ascending timestamp order. */
  function GetMessagesForUser(messages: seq<Message>, users: seq<User>, userId: string): (r: seq<Message>)
    ensures UniqueIds(r)
    ensures SortedBy(r, (m: Message) => m.timestamp)
    ensures forall x :: x in r ==> x in messages && Relevant(x, userId, IsTeacherAccount(users, userId))
    ensures forall x :: x in messages && Relevant(x, userId, IsTeacherAccount(users, userId)) ==> x.id in Ids(r)
  {
    var teacher := IsTeacherAccount(users, userId);
    var sent := Filter(messages, (m: Message) => m.senderId == userId);
    var received := Filter(messages, (m: Message) => m.recipientId == userId);
    var broadcast := if teacher then Filter(messages, (m: Message) => m.recipientId == AllTeachers) else [];
    var merged := MapSetAll([], sent + received + broadcast);
    var r := SortBy(merged, (m: Message) => m.timestamp);
    MergedMessages(messages, userId, teacher, sent, received, broadcast, merged);
    SameIdsWhenPermuted(r, merged);
    UniqueIdsCount(r);
    UniqueIdsCount(merged);
    forall x | x in r ensures x in merged { assert x in multiset(r); }
    r
  }

  /** The merged list holds the relevant messages and only those. */
  lemma MergedMessages(messages: seq<Message>, userId: string, teacher: bool,
                       sent: seq<Message>, received: seq<Message>, broadcast: seq<Message>, merged: seq<Message>)
    requires sent == Filter(messages, (m: Message) => m.senderId == userId)
    requires received == Filter(messages, (m: Message) => m.recipientId == userId)
    requires broadcast == if teacher then Filter(messages, (m: Message) => m.recipientId == AllTeachers) else []
    requires merged == MapSetAll([], sent + received + broadcast)
    ensures UniqueIds(merged)
    ensures forall x :: x in merged ==> x in messages && Relevant(x, userId, teacher)
    ensures forall x :: x in messages && Relevant(x, userId, teacher) ==> x.id in Ids(merged)
  {
    FilterMembership(messages, (m: Message) => m.senderId == userId);
    FilterMembership(messages, (m: Message) => m.recipientId == userId);
    FilterMembership(messages, (m: Message) => m.recipientId == AllTeachers);
    var all := sent + received + broadcast;
    assert Ids([]) == {};
    forall x | x in messages && Relevant(x, userId, teacher)
      ensures x.id in Ids(merged)
    {
      assert x in all;
    }
  }

  /** With unique identifiers in the collection, the list a user sees holds
      exactly the relevant messages. */
  lemma MessagesForUserExact(messages: seq<Message>, users: seq<User>, userId: string)
    requires UniqueIds(messages)
    ensures forall x :: x in GetMessagesForUser(messages, users, userId) <==>
              x in messages && Relevant(x, userId, IsTeacherAccount(users, userId))
  {
    var r := GetMessagesForUser(messages, users, userId);
    forall x | x in messages && Relevant(x, userId, IsTeacherAccount(users, userId))
      ensures x in r
    {
      var y :| y in r && y.id == x.id;
      var i :| 0 <= i < |messages| && messages[i] == x;
      var j :| 0 <= j < |messages| && messages[j] == y;
      assert !(i < j) && !(j < i);
    }
  }

  /** Broadcasts reach teachers only. */
  lemma BroadcastOnlyForTeachers(messages: seq<Message>, users: seq<User>, userId: string)
    requires userId != AllTeachers && !IsTeacherAccount(users, userId)
    ensures forall x :: x in GetMessagesForUser(messages, users, userId) ==>
              x.senderId == userId || x.recipientId == userId
  {
  }
}
