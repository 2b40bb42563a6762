/** NotificationsService: turns interaction events into notification rows
    for the post's author, lists them, marks one as read and counts the
    unread ones. */
module Notifications {
  import opened Errors
  import opened Ids
  import opened Queries
  import opened Events

  datatype NotificationType = Like | Comment
  datatype NotificationStatus = Pending | Sent | Read

  /** The jsonb metadata column: `{ interactionId, content }`. */
  datatype Metadata = Metadata(interactionId: string, content: Option<string>)

  /** A row of the notifications table. */
  datatype Notification = Notification(
    id: string,
    userId: string,          // the recipient: the author of the post
    actorId: string,
    postId: string,
    kind: NotificationType,
    status: NotificationStatus,
    message: string,
    metadata: Metadata,
    createdAt: int)

  function CreatedAt(n: Notification): int
  {
    n.createdAt
  }

  /** The enum column accepts exactly the two values of NotificationType. */
  function ParseType(s: string): (t: Option<NotificationType>)
    ensures t == Some(Like) <==> s == "like"
    ensures t == Some(Comment) <==> s == "comment"
    ensures t.None? <==> s != "like" && s != "comment"
  {
    if s == "like" then Some(Like)
    else if s == "comment" then Some(Comment)
    else None
  }

  /** What the database answers when `event.type as NotificationType` is not an enum value. */
  function InvalidType(s: string): (m: string)
    ensures |m| == |InvalidTypePrefix| + |s| + 1
    ensures m[..|InvalidTypePrefix|] == InvalidTypePrefix && m[|InvalidTypePrefix|..|m| - 1] == s
  {
    InvalidTypePrefix + s + "\""
  }

  const InvalidTypePrefix := "invalid input value for enum notifications_type_enum: \""

  const NotFoundMessage := "Notification not found"
  /** How much of a comment the message quotes. */
  const ExcerptLength: nat := 50
  const LikeMessage := "User liked your post"
  const CommentMessage := "User commented on your post"
  const QuotePrefix := "User commented on your post: \""

  function Action(kind: string): (a: string)
    ensures a == "liked" <==> kind == "like"
    ensures a == "commented on" <==> kind != "like"
  {
    if kind == "like" then "liked" else "commented on"
  }

  /** `content.substring(0, 50)`, followed by an ellipsis when something was cut off. */
  function Excerpt(c: string): (r: string)
    ensures |r| <= ExcerptLength + 3
  {
    c[..Min(ExcerptLength, |c|)] + (if |c| > ExcerptLength then "..." else "")
  }

  /** `generateNotificationMessage(event)`. Content counts only when it is a
      non-empty string (JavaScript truthiness) on an event of type comment. */
  function GenerateNotificationMessage(event: InteractionEvent): (m: string)
    ensures |m| <= |QuotePrefix| + ExcerptLength + 4
  {
    var action := Action(event.kind);
    if event.kind == "comment" && event.content.Some? && event.content.value != [] then
      "User " + action + " your post: \"" + Excerpt(event.content.value) + "\""
    else
      "User " + action + " your post"
  }

  /** A like reads "User liked your post", whatever content it carries. */
  lemma LikeMessageIsFixed(event: InteractionEvent)
    requires event.kind == "like"
    ensures GenerateNotificationMessage(event) == LikeMessage
  {
  }

  /** Every type other than like uses the verb "commented on"; with no content
      to quote (absent or empty, or a type other than comment) nothing follows. */
  lemma UnquotedMessage(event: InteractionEvent)
    requires event.kind != "like"
    requires event.kind != "comment" || event.content.None? || event.content.value == []
    ensures GenerateNotificationMessage(event) == CommentMessage
  {
  }

  /** A comment with content is quoted after the fixed prefix. */
  lemma QuotedMessage(event: InteractionEvent)
    requires event.kind == "comment" && event.content.Some? && event.content.value != []
    ensures GenerateNotificationMessage(event) == QuotePrefix + Excerpt(event.content.value) + "\""
  {
    assert "User " + Action(event.kind) + " your post: \"" == QuotePrefix;
  }

  /** A comment of at most 50 characters is quoted whole, with no ellipsis, so
      the content can be read back from the message. */
  lemma ShortCommentQuotedWhole(event: InteractionEvent)
    requires event.kind == "comment" && event.content.Some?
    requires 0 < |event.content.value| <= ExcerptLength
    ensures GenerateNotificationMessage(event) == QuotePrefix + event.content.value + "\""
    ensures
      var m := GenerateNotificationMessage(event);
      m[|QuotePrefix|..|m| - 1] == event.content.value
  {
    var c := event.content.value;
    assert Excerpt(c) == c;
    QuotedMessage(event);
    var m := GenerateNotificationMessage(event);
    assert m[|QuotePrefix|..|m| - 1] == c;
  }

  /** A comment longer than 50 characters is quoted by its first 50 characters
      and an ellipsis. */
  lemma LongCommentTruncated(event: InteractionEvent)
    requires event.kind == "comment" && event.content.Some?
    requires |event.content.value| > ExcerptLength
    ensures GenerateNotificationMessage(event) == QuotePrefix + event.content.value[..ExcerptLength] + "...\""
    ensures |GenerateNotificationMessage(event)| == |QuotePrefix| + ExcerptLength + 4
  {
    QuotedMessage(event);
  }

  /** `findOne({ where: { id, userId } })`: the position of that user's row with that id. */
  function FindNotification(rows: seq<Notification>, id: string, userId: string): (r: Option<nat>)
    ensures r.Some? ==> r.value < |rows| && rows[r.value].id == id && rows[r.value].userId == userId
    ensures r.None? <==> forall i :: 0 <= i < |rows| ==> !(rows[i].id == id && rows[i].userId == userId)
  {
    if rows == [] then None
    else if rows[0].id == id && rows[0].userId == userId then Some(0)
    else
      match FindNotification(rows[1..], id, userId)
      case None => None
      case Some(i) => Some(i + 1)
  }

  /** `where: { userId }`. */
  function ForUser(rows: seq<Notification>, userId: string): (r: seq<Notification>)
    ensures forall i :: 0 <= i < |r| ==> r[i].userId == userId
    ensures forall n :: multiset(r)[n] == if n.userId == userId then multiset(rows)[n] else 0
  {
    Filter(rows, (n: Notification) => n.userId == userId)
  }

  /** `where: { userId, status: SENT }`: what getUnreadCount counts. */
  function SentTo(rows: seq<Notification>, userId: string): (r: seq<Notification>)
    ensures forall i :: 0 <= i < |r| ==> r[i].userId == userId && r[i].status == Sent
    ensures forall n :: multiset(r)[n] == if n.userId == userId && n.status == Sent then multiset(rows)[n] else 0
  {
    Filter(rows, (n: Notification) => n.userId == userId && n.status == Sent)
  }

  ghost predicate NoneSent(rows: seq<Notification>)
  {
    forall i :: 0 <= i < |rows| ==> rows[i].status != Sent
  }

  /** When no row has status sent, the unread count of every user is zero. */
  lemma NothingSentCountsZero(rows: seq<Notification>, userId: string)
    requires NoneSent(rows)
    ensures |SentTo(rows, userId)| == 0
  {
    var r := SentTo(rows, userId);
    assert forall x: Notification :: multiset(r)[x] == 0;
    assert multiset(r) == multiset{};
  }

  class NotificationsService {
    /** The notifications table, in storage order. */
    var notifications: seq<Notification>
    /** How many notification ids the table has handed out. */
    var nextId: nat

    /** Ids are fresh, and no row is ever in status sent: creation writes
        pending and markAsRead writes read, and nothing else writes a status. */
    ghost predicate Valid()
      reads this
    {
      && (forall i :: 0 <= i < |notifications| ==> |notifications[i].id| <= nextId)
      && NoneSent(notifications)
    }

    constructor ()
      ensures Valid() && notifications == []
    {
      notifications := [];
      nextId := 0;
    }

    /** `createNotification(event)`: appends one pending notification for the
        post's author, with no deduplication; an event type outside the enum
        is refused by the database. */
    method CreateNotification(event: InteractionEvent, now: int) returns (r: Result<Notification>)
      requires Valid()
      modifies this
      ensures Valid()
      ensures ParseType(event.kind).None? ==>
        r == Err(QueryFailed(InvalidType(event.kind))) && unchanged(this)
      ensures ParseType(event.kind).Some? ==>
        && r.Ok?
        && r.value == Notification(r.value.id, event.ownerId, event.actorId, event.postId,
                                   ParseType(event.kind).value, Pending, GenerateNotificationMessage(event),
                                   Metadata(event.id, event.content), now)
        && (forall i :: 0 <= i < |old(notifications)| ==> old(notifications)[i].id != r.value.id)
        && notifications == old(notifications) + [r.value]
    {
      var kind := ParseType(event.kind);
      if kind.None? {
        r := Err(QueryFailed(InvalidType(event.kind)));
        return;
      }
      var notification := Notification(FreshId(nextId), event.ownerId, event.actorId, event.postId,
                                        kind.value, Pending, GenerateNotificationMessage(event),
                                        Metadata(event.id, event.content), now);
      nextId := nextId + 1;
      notifications := notifications + [notification];
      r := Ok(notification);
    }

    /** `getNotifications(userId, limit = 20, offset = 0)`: the user's
        notifications, newest first, from position offset on, at most limit. */
    method GetNotifications(userId: string, limit: nat := 20, offset: nat := 0) returns (r: seq<Notification>)
      ensures r == FindPage(SortNewestFirst(ForUser(notifications, userId), CreatedAt), offset, limit)
      ensures limit > 0 ==> |r| <= limit
      ensures |r| == if offset >= |ForUser(notifications, userId)| then 0
                     else if limit == 0 then |ForUser(notifications, userId)| - offset
                     else Min(limit, |ForUser(notifications, userId)| - offset)
      ensures forall i :: 0 <= i < |r| ==> r[i].userId == userId
      ensures NewestFirst(r, CreatedAt)
      ensures multiset(r) <= multiset(notifications)
    {
      var sorted := SortNewestFirst(ForUser(notifications, userId), CreatedAt);
      var take := if limit == 0 then |sorted| else limit;
      r := FindPage(sorted, offset, limit);
      SelectionPage(notifications, (n: Notification) => n.userId == userId, CreatedAt, offset, take);
    }

    /** `markAsRead(notificationId, userId)`: sets the status of that user's
        notification to read and nothing else; a notification of another user
        is not found. */
    method MarkAsRead(notificationId: string, userId: string) returns (r: Result<Notification>)
      requires Valid()
      modifies this
      ensures Valid() && nextId == old(nextId)
      ensures FindNotification(old(notifications), notificationId, userId).None? ==>
        r == Err(InternalError(NotFoundMessage)) && unchanged(this)
      ensures FindNotification(old(notifications), notificationId, userId).Some? ==>
        var k := FindNotification(old(notifications), notificationId, userId).value;
        && r == Ok(old(notifications)[k].(status := Read))
        && notifications == old(notifications)[k := old(notifications)[k].(status := Read)]
        && (old(notifications)[k].status == Read ==> notifications == old(notifications))
    {
      var found := FindNotification(notifications, notificationId, userId);
      if found.None? {
        r := Err(InternalError(NotFoundMessage));
        return;
      }
      var notification := notifications[found.value];
      notification := notification.(status := Read);
      notifications := notifications[found.value := notification];
      r := Ok(notification);
    }

    /** `getUnreadCount(userId)`: the number of the user's notifications in
        status sent, which no operation ever sets, so it is always zero. */
    method GetUnreadCount(userId: string) returns (count: nat)
      requires Valid()
      ensures count == |SentTo(notifications, userId)|
      ensures count == 0
    {
      count := |SentTo(notifications, userId)|;
      NothingSentCountsZero(notifications, userId);
    }
  }
}
