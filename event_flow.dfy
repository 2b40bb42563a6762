/** How the two services meet on the interaction topic: every event the
    interactions service sends is one the notifications service can store,
    addressed to the post's author, with the message its type calls for. */
module EventFlow {
  import opened Errors
  import I = Interactions
  import N = Notifications
  import P = Posts
  import opened Events

  /** The type the notifications service stores for an event of this interaction type. */
  function NotificationTypeOf(t: I.InteractionType): N.NotificationType
  {
    match t
    case Like => N.Like
    case Comment => N.Comment
  }

  /** The enum cast never fails on an event the interactions service sent. */
  lemma EmittedTypeAccepted(x: I.Interaction, ownerId: string)
    ensures N.ParseType(I.EventOf(x, ownerId).kind) == Some(NotificationTypeOf(x.kind))
  {
  }

  /** A like's event produces "User liked your post". */
  lemma LikeEventMessage(x: I.Interaction, ownerId: string)
    requires x.kind == I.Like
    ensures N.GenerateNotificationMessage(I.EventOf(x, ownerId)) == N.LikeMessage
  {
    N.LikeMessageIsFixed(I.EventOf(x, ownerId));
  }

  /** A stored comment always has something to quote, so its event's message
      quotes the trimmed comment. */
  lemma CommentEventMessage(x: I.Interaction, ownerId: string)
    requires I.WellFormed(x) && x.kind == I.Comment
    ensures N.GenerateNotificationMessage(I.EventOf(x, ownerId)) == N.QuotePrefix + N.Excerpt(x.content.value) + "\""
  {
    N.QuotedMessage(I.EventOf(x, ownerId));
  }

  /** The consumer passes each event to createNotification. The notification
      created from the event of a stored interaction goes to the post's
      author, names the interacting user as actor and keeps the interaction's
      id and content as metadata. */
  method HandleInteractionEvent(service: N.NotificationsService, x: I.Interaction, ownerId: string, now: int)
    returns (r: Result<N.Notification>)
    requires service.Valid() && I.WellFormed(x)
    modifies service
    ensures service.Valid()
    ensures r.Ok?
    ensures r.value.userId == ownerId && r.value.actorId == x.userId && r.value.postId == x.postId
    ensures r.value.kind == NotificationTypeOf(x.kind) && r.value.status == N.Pending
    ensures r.value.metadata == N.Metadata(x.id, x.content)
    ensures service.notifications == old(service.notifications) + [r.value]
  {
    EmittedTypeAccepted(x, ownerId);
    r := service.CreateNotification(I.EventOf(x, ownerId), now);
  }

  /** Liking a post and then unliking it gives back the interactions table and
      the post, apart from the update-date column; the like's event stays sent. */
  method LikeThenUnlike(service: I.InteractionsService, postId: string, userId: string, t1: int, t2: int)
    requires service.Valid() && postId in service.postsService.posts
    requires I.FindInteraction(service.interactions, userId, postId, I.Like).None?
    modifies service, service.postsService
    ensures service.Valid()
    ensures service.interactions == old(service.interactions)
    ensures service.postsService.posts == old(service.postsService.posts)[postId := old(service.postsService.posts)[postId].(updatedAt := t2)]
    ensures |service.events| == |old(service.events)| + 1
    ensures service.events[..|old(service.events)|] == old(service.events)
    ensures
      var e := service.events[|old(service.events)|];
      && e.kind == "like" && e.ownerId == old(service.postsService.posts)[postId].authorId
      && e.actorId == userId && e.postId == postId && e.content.None? && e.createdAt == t1
  {
    ghost var rows := service.interactions;
    ghost var posts := service.postsService.posts;
    ghost var post := posts[postId];
    ghost var once := P.Adjusted(post, P.LikesCount, 1, t1);
    var liked := service.LikePost(postId, userId, t1);
    assert service.postsService.posts == posts[postId := once];
    assert liked.Ok? && liked.value.kind == I.Like && liked.value.userId == userId && liked.value.postId == postId;
    assert service.interactions == rows + [liked.value];
    I.UnlikeUndoesLike(rows, liked.value);
    var unliked := service.UnlikePost(postId, userId, t2);
    assert service.postsService.posts == posts[postId := once][postId := P.Adjusted(once, P.LikesCount, -1, t2)];
    P.IncrementThenDecrement(post, P.LikesCount, t1, t2);
    Overwrite(posts, postId, once, post.(updatedAt := t2));
  }

  /** A second update of a key hides the first. */
  lemma Overwrite<K, V>(m: map<K, V>, k: K, a: V, b: V)
    ensures m[k := a][k := b] == m[k := b]
  {
  }

  /** The same event delivered twice is stored twice: createNotification does
      not deduplicate. */
  method ReplayAppendsTwice(service: N.NotificationsService, event: InteractionEvent, t1: int, t2: int)
    returns (first: Result<N.Notification>, second: Result<N.Notification>)
    requires service.Valid() && N.ParseType(event.kind).Some?
    modifies service
    ensures service.Valid()
    ensures first.Ok? && second.Ok? && first.value.id != second.value.id
    ensures first.value.metadata == second.value.metadata && first.value.message == second.value.message
    ensures service.notifications == old(service.notifications) + [first.value, second.value]
  {
    first := service.CreateNotification(event, t1);
    ghost var middle := service.notifications;
    assert middle[|middle| - 1] == first.value;
    second := service.CreateNotification(event, t2);
    assert service.notifications == middle + [second.value];
  }
}
