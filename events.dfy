/** The envelope that crosses from the post service to the notification
    service on the interaction topic: one message per event, keyed by postId. */
module Events {
  import opened Errors

  datatype InteractionEvent = InteractionEvent(
    id: string,             // the id of the interaction that caused it
    ownerId: string,        // the post's author, who is to be notified
    actorId: string,        // the user who liked or commented
    postId: string,
    kind: string,           // "like" or "comment" when the post service sends it
    content: Option<string>,
    createdAt: int)
}
