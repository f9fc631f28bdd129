/** The decision logic of the admin dashboard: which conversation is shown,
    who has unread messages, when messages are marked as read, how reports
    are ordered, and the guards on sending, account updates and attached
    files. */
module AdminView {
  import opened Seqs
  import opened Text
  import opened Records
  import opened Messages

  /** The identifier of the one main administrator. */
  const MainAdminId: string := "admin01"

  predicate IsMainAdmin(userId: string)
  {
    userId == MainAdminId
  }

  /** The tab actually shown: only the main administrator may stay on the
      `admins` tab; anyone else is moved to `teachers`. */
  function EffectiveTab(userId: string, activeTab: string): (tab: string)
    ensures tab == "admins" ==> IsMainAdmin(userId)
    ensures !IsMainAdmin(userId) && activeTab == "admins" ==> tab == "teachers"
    ensures IsMainAdmin(userId) || activeTab != "admins" ==> tab == activeTab
  {
    if !IsMainAdmin(userId) && activeTab == "admins" then "teachers" else activeTab
  }

  /** Applying the tab rule again changes nothing. */
  lemma EffectiveTabSettles(userId: string, activeTab: string)
    ensures EffectiveTab(userId, EffectiveTab(userId, activeTab)) == EffectiveTab(userId, activeTab)
  {
  }

  /** A correspondent is selected: the selection is present and not empty. */
  predicate Selected(sel: Option<string>)
  {
    sel.Some? && sel.value != ""
  }

  /** Whether `m` passes between `userId` and `other`, in either direction. */
  predicate Between(m: Message, userId: string, other: string)
  {
    (m.senderId == userId && m.recipientId == other) || (m.senderId == other && m.recipientId == userId)
  }

  /** The conversation shown for the selection: nothing without a selection,
      every broadcast (in list order) for the broadcast entry, and otherwise
      the messages between the user and the selected account by ascending
      timestamp. */
  function FilteredMessages(messages: seq<Message>, userId: string, sel: Option<string>): (r: seq<Message>)
    ensures !Selected(sel) ==> r == []
    ensures Selected(sel) && sel.value == AllTeachers ==>
              && SubsequenceOf(r, messages)
              && (forall m :: m in r <==> m in messages && m.recipientId == AllTeachers)
              && KeepsCounts(r, messages, (m: Message) => m.recipientId == AllTeachers)
    ensures Selected(sel) && sel.value != AllTeachers ==>
              && SortedBy(r, (m: Message) => m.timestamp)
              && multiset(r) == multiset(Filter(messages, (m: Message) => Between(m, userId, sel.value)))
              && forall m :: m in r <==> m in messages && Between(m, userId, sel.value)
  {
    if !Selected(sel) then []
    else if sel.value == AllTeachers then
      var p := (m: Message) => m.recipientId == AllTeachers;
      FilterMembership(messages, p);
      FilterIsSubsequence(messages, p);
      FilterMultiplicity(messages, p);
      Filter(messages, p)
    else
      var p := (m: Message) => Between(m, userId, sel.value);
      FilterMembership(messages, p);
      var f := Filter(messages, p);
      var r := SortBy(f, (m: Message) => m.timestamp);
      assert forall m :: m in r <==> m in multiset(f);
      r
  }

  /** The senders of messages to `userId` that are still unread. */
  function UnreadSenders(messages: seq<Message>, userId: string): (senders: set<string>)
    ensures forall m :: m in messages && m.recipientId == userId && !m.read ==> m.senderId in senders
    ensures forall s :: s in senders ==> exists m :: m in messages && UnreadBetween(m, s, userId)
  {
    set m | m in messages && m.recipientId == userId && !m.read :: m.senderId
  }

  /** Marking the messages from `s` to `userId` as read takes exactly `s` out
      of the unread senders. */
  lemma MarkReadClearsSender(messages: seq<Message>, s: string, userId: string)
    ensures UnreadSenders(MarkMessagesAsRead(messages, s, userId), userId) == UnreadSenders(messages, userId) - {s}
  {
    var r := MarkMessagesAsRead(messages, s, userId);
    forall x | x in UnreadSenders(r, userId)
      ensures x in UnreadSenders(messages, userId) - {s}
    {
      var m :| m in r && UnreadBetween(m, x, userId);
      var i :| 0 <= i < |r| && r[i] == m;
      assert messages[i] in messages;
    }
    forall x | x in UnreadSenders(messages, userId) - {s}
      ensures x in UnreadSenders(r, userId)
    {
      var m :| m in messages && UnreadBetween(m, x, userId);
      var i :| 0 <= i < |messages| && messages[i] == m;
      assert r[i] in r;
    }
  }

  /** A mark-as-read request goes out only for a selected, non-broadcast
      correspondent who has unread messages for the user. */
  function ShouldMarkRead(sel: Option<string>, unreadSenders: set<string>): bool
  {
    sel.Some? && sel.value != "" && sel.value != AllTeachers && sel.value in unreadSenders
  }

  /** For a specific non-broadcast correspondent, the request goes out
      exactly when marking would change the user's messages. */
  lemma ShouldMarkReadIffChanges(messages: seq<Message>, userId: string, sel: Option<string>)
    requires Selected(sel) && sel.value != AllTeachers
    ensures ShouldMarkRead(sel, UnreadSenders(messages, userId)) <==> MarkMessagesAsRead(messages, sel.value, userId) != messages
  {
    var r := MarkMessagesAsRead(messages, sel.value, userId);
    if sel.value in UnreadSenders(messages, userId) {
      var m :| m in messages && UnreadBetween(m, sel.value, userId);
      var i :| 0 <= i < |messages| && messages[i] == m;
      assert r[i].read != messages[i].read;
    } else {
      forall i | 0 <= i < |messages| ensures r[i] == messages[i] {
        assert messages[i] in messages;
      }
    }
  }

  /** Once the request has been made and the messages refetched, no further
      request follows for the same selection.  The request is taken to be
      the hosted API's `markMessagesAsRead`, and the refetch its
      `getMessagesForUser`. */
  lemma MarkReadRequestStops(messages: seq<Message>, userId: string, sel: Option<string>)
    requires ShouldMarkRead(sel, UnreadSenders(messages, userId))
    ensures !ShouldMarkRead(sel, UnreadSenders(MarkMessagesAsRead(messages, sel.value, userId), userId))
  {
    MarkReadClearsSender(messages, sel.value, userId);
  }

  /** A message just sent to `recipientId` makes its sender an unread
      sender in the recipient's list.  The send is taken to be the hosted
      API's `sendMessage`, and the recipient's list its `getMessagesForUser`. */
  lemma SentMessageIsUnread(messages: seq<Message>, users: seq<User>, d: Draft, freshId: string, now: int, url: string)
    requires freshId !in Ids(messages)
    ensures var r := SendMessage(messages, d, freshId, now, url);
            d.senderId in UnreadSenders(GetMessagesForUser(r, users, d.recipientId), d.recipientId)
  {
    var r := SendMessage(messages, d, freshId, now, url);
    var m := r[|messages|];
    assert m in r;
    var seen := GetMessagesForUser(r, users, d.recipientId);
    var y :| y in seen && y.id == m.id;
    assert y == m;
  }

  /** Reports, newest submission first. */
  function SortReports(reports: seq<AdminReport>): (r: seq<AdminReport>)
    ensures multiset(r) == multiset(reports)
    ensures forall i, j :: 0 <= i < j < |r| ==> r[i].submittedAt >= r[j].submittedAt
  {
    var r := SortBy(reports, (x: AdminReport) => -x.submittedAt);
    assert forall i, j :: 0 <= i < j < |r| ==> -r[i].submittedAt <= -r[j].submittedAt;
    r
  }

  /** What pressing send does. */
  datatype SendOutcome = Ignored | NeedRecipient | Send(d: Draft)

  /** Sending: blank text without a file is ignored silently; otherwise a
      missing recipient is reported; otherwise the text is sent as typed. */
  function HandleSendMessage(userId: string, userName: string, text: string,
                             attachment: Option<Attachment>, sel: Option<string>): (r: SendOutcome)
    ensures r.Ignored? <==> IsBlank(text) && attachment.None?
    ensures r.NeedRecipient? <==> !(IsBlank(text) && attachment.None?) && !Selected(sel)
    ensures r.Send? ==> r.d == Draft(userId, userName, sel.value, text, attachment)
  {
    TrimEmptyIffBlank(text);
    if Trim(text) == "" && attachment.None? then Ignored
    else if !Selected(sel) then NeedRecipient
    else Send(Draft(userId, userName, sel.value, text, attachment))
  }

  /** A message with text or a file always leaves once a recipient is
      chosen. */
  lemma SendGoesOutWhenComplete(userId: string, userName: string, text: string,
                                attachment: Option<Attachment>, recipient: string)
    requires recipient != "" && (!IsBlank(text) || attachment.Some?)
    ensures HandleSendMessage(userId, userName, text, attachment, Some(recipient)).Send?
  {
  }

  /** The body of an account update. */
  datatype AccountPayload = AccountPayload(name: string, username: string, password: Option<string>)

  datatype AccountOutcome = PasswordMismatch | Update(payload: AccountPayload)

  /** Updating one's own account: a non-empty new password must equal its
      confirmation; an empty one leaves the password out of the update. */
  function HandleAccountUpdate(name: string, username: string, password: string, confirm: string): (r: AccountOutcome)
    ensures r.PasswordMismatch? <==> password != "" && password != confirm
    ensures r.Update? ==> r.payload.name == name && r.payload.username == username
    ensures r.Update? ==> (r.payload.password.Some? <==> password != "")
    ensures r.Update? && r.payload.password.Some? ==> r.payload.password.value == password == confirm
  {
    if password != "" && password != confirm then PasswordMismatch
    else Update(AccountPayload(name, username, if password != "" then Some(password) else None))
  }

  /** The largest file that may be attached: five mebibytes. */
  const MaxAttachmentBytes: nat := 5 * 1024 * 1024

  /** Whether a chosen file of `size` bytes is accepted as attachment. */
  function AcceptAttachment(size: nat): bool
  {
    !(size > MaxAttachmentBytes)
  }

  /** A file of exactly five mebibytes is accepted; one byte more is not. */
  lemma AttachmentLimitBoundary()
    ensures AcceptAttachment(5 * 1024 * 1024) && !AcceptAttachment(5 * 1024 * 1024 + 1)
    ensures forall a: nat, b: nat :: a <= b && AcceptAttachment(b) ==> AcceptAttachment(a)
  {
  }
}
