# debook interactions and notifications, in Dafny

debook is a small social back end in two NestJS services. The post service
(`api-service`) stores posts and the likes and comments on them, keeps a like
counter and a comment counter on every post, and publishes one event per like
or comment on a Kafka topic. The notification service consumes those events.
It turns each one into a notification for the post's author, lists a user's
notifications, marks one as read and counts the unread ones. Every request to
the notification service passes a guard that demands a version-4 UUID in the
`x-user-id` header.

This project models that core and proves properties of the model:

- `posts.dfy`, module `Posts`: the posts table and `PostsService`, a class
  over a `map` from id to row.
- `interactions.dfy`, module `Interactions`: `InteractionsService`, a class
  holding the interactions table, the log of events sent to the topic and a
  reference to the `PostsService` whose counters it moves. Its invariant
  `Valid()` holds the rules the database and the service keep between them:
  - the unique constraint on (user, post, type);
  - the foreign key from interactions to posts;
  - every post's counters equal the number of its likes and comments;
  - every stored comment is trimmed and non-empty.
- `notifications.dfy`, module `Notifications`: the message format and
  `NotificationsService`, a class over the notifications table.
- `mock_auth.dfy`, module `MockAuth`: the header guard. The regular
  expression is modelled as an anchored pattern of fixed-count character
  classes, with a matcher that follows the `i` flag. The positional reading
  of the pattern (which character may stand where) is proved from that
  matcher.
- `event_flow.dfy`, module `EventFlow`: how the two services meet on the
  topic.
- Shared modules:
  - `errors.dfy`: results and the HTTP exceptions;
  - `ids.dfy`: fresh ids;
  - `events.dfy`: the event envelope;
  - `queries.dfy`: `where`, `order: { createdAt: 'DESC' }` and `skip`/`take`
    over a table held as a sequence;
  - `js_text.dfy`: `String.prototype.trim`.

Environment inputs are parameters of the operations. The database clock
becomes a `now: int` argument. Generated UUIDs are strings drawn from a
counter (`Ids.FreshId`) and are fresh by construction. The Kafka topic is a
sequence of events that the interactions service appends to.

Every operation that can fail returns a `Result`. In the model the thrown
exception is an `Err` value, and each failing case is stated to change
nothing.

## Model

| member | source | states |
|---|---|---|
| Queries.Filter | api-service/src/interactions/interactions.service.ts:142-149 | the rows kept are exactly the rows that satisfy the condition, each as often as in the table |
| Queries.SortNewestFirst | api-service/src/interactions/interactions.service.ts:150 | the result is newest first by the key and is a permutation of its input |
| Queries.Page | notification-service/src/notifications/notifications.service.ts:55-56 | skip then take: the length is min(take, n - skip), or 0 past the end, and row i is input row skip + i |
| Queries.FindPage | notification-service/src/notifications/notifications.service.ts:52-57 | `find` with skip and take: the rows from skip on, at most take of them, and all of them when take is 0 |
| Queries.PageOfSorted | notification-service/src/notifications/notifications.service.ts:52-57 | a page of a newest-first sequence is newest first and a sub-multiset of it |
| Queries.WholePage | api-service/src/interactions/interactions.service.ts:151 | a first page no smaller than the rows is all of them |
| Queries.SelectionPage | notification-service/src/notifications/notifications.service.ts:52-57 | a page of the sorted selection holds only rows that satisfy the condition, newest first, each row of the table at most as often as in it |
| JsText.TrimStart | api-service/src/interactions/interactions.service.ts:115 | the result is a suffix; everything removed is whitespace; it does not start with whitespace |
| JsText.TrimEnd | api-service/src/interactions/interactions.service.ts:115 | the result is a prefix; everything removed is whitespace; it does not end with whitespace |
| JsText.Trim | api-service/src/interactions/interactions.service.ts:115 | the result is a slice with only whitespace around it and no whitespace at its ends |
| JsText.TrimEmptyIff | api-service/src/interactions/interactions.service.ts:98 | `trim().length === 0` exactly when the text is whitespace only |
| JsText.TrimIdempotent | api-service/src/interactions/interactions.service.ts:115 | trimming twice gives the same as trimming once |
| JsText.TrimStartPadding | api-service/src/interactions/interactions.service.ts:115 | leading whitespace is exactly what the left trim removes |
| JsText.TrimEndPadding | api-service/src/interactions/interactions.service.ts:115 | trailing whitespace is exactly what the right trim removes |
| JsText.TrimPadding | api-service/src/interactions/interactions.service.ts:115 | trim of padding, text and padding gives the text back, when the text's ends are not whitespace |
| JsText.TrimPaddedComment | api-service/src/interactions/interactions.service.spec.ts:265-290 | `"  Test comment with spaces  "` trims to `"Test comment with spaces"` |
| Posts.Adjusted | api-service/src/posts/posts.service.ts:44-58 | one counter moves by delta; the other counter, id, content, author and creation time stay; the update time is set |
| Posts.IncrementThenDecrement | api-service/src/posts/posts.service.ts:44-58 | +1 then -1 on the same field gives the row back, apart from its update time |
| Posts.PostsService.Create | api-service/src/posts/posts.service.ts:16-29 | adds one post under a fresh id with the given content and author, both counters 0 and both timestamps now; no other row changes |
| Errors.PostNotFound | api-service/src/posts/posts.service.ts:37 | `Post with ID ${id} not found`, from which the id can be read back |
| Posts.PostsService.FindOne | api-service/src/posts/posts.service.ts:31-42 | the stored row, or NotFound "Post with ID <id> not found" |
| Posts.PostsService.IncrementCounter | api-service/src/posts/posts.service.ts:44-50 | that post's field gains 1 and every other row stays; an unknown id changes nothing |
| Posts.PostsService.DecrementCounter | api-service/src/posts/posts.service.ts:52-58 | that post's field loses 1, below zero too, and every other row stays; an unknown id changes nothing |
| Posts.PostsService.GetPostWithCounters | api-service/src/posts/posts.service.ts:60-84 | the stored row with its counters and timestamps, or NotFound |
| Posts.PostsService.Exists | api-service/src/posts/posts.service.ts:86-94 | true exactly when a post with that id is stored |
| Interactions.FindInteraction | api-service/src/interactions/interactions.service.ts:34-36 | the position of a row with that user, post and type, or nothing exactly when there is none |
| Interactions.AddKeepsAgreement | api-service/src/interactions/interactions.service.ts:51-55 | saving an interaction and adding one to its counter keeps every counter equal to its count |
| Interactions.RemoveKeepsAgreement | api-service/src/interactions/interactions.service.ts:87-90 | removing an interaction and taking one from its counter keeps every counter equal to its count |
| Interactions.NewPostKeepsAgreement | api-service/src/posts/posts.service.ts:16-29 | a new post with zero counters keeps every counter equal to its count |
| Interactions.AppendKeepsUnique | api-service/src/interactions/entities/interaction.entity/interaction.entity.ts:18 | a row that matches no stored row keeps (user, post, type) unique |
| Interactions.RemoveKeepsUnique | api-service/src/interactions/entities/interaction.entity/interaction.entity.ts:18 | removing a row keeps (user, post, type) unique |
| Interactions.UnlikeUndoesLike | api-service/src/interactions/interactions.service.ts:74-93 | after a like, the unlike finds the row just appended, and removing it gives back the table as it was |
| Interactions.EventOf | api-service/src/interactions/interactions.service.ts:125-133 | the event carries the interaction's id, post and time, the post's author as owner and the interacting user as actor; its type is "like" or "comment" as the interaction's; a like's event has no content and a comment's carries the stored content |
| Interactions.CommentBody | api-service/src/interactions/interactions.service.ts:98-101 | nothing exactly when the content is absent or whitespace only; otherwise `content.trim()`, which is non-empty and has no whitespace at its ends |
| Interactions.Selected | api-service/src/interactions/interactions.service.ts:142-147 | the rows of that post, and of that type when one is given, each as often as in the table |
| Interactions.InteractionsService.SaveAndEmit | api-service/src/interactions/interactions.service.ts:51-67 | a fresh row is appended, its counter gains one, and one event goes to the post's author; the invariant holds |
| Interactions.InteractionsService.LikePost | api-service/src/interactions/interactions.service.ts:25-71 | NotFound and nothing changed for a missing post. Conflict "User has already liked this post" and nothing changed for a second like. Otherwise it appends one content-free like, adds one to likesCount, and appends the event {id, ownerId = author, actorId = user, postId, like} |
| Interactions.InteractionsService.UnlikePost | api-service/src/interactions/interactions.service.ts:74-93 | NotFound "Like not found" and nothing changed without a like. Otherwise it removes exactly that row and takes one from likesCount. It sends no event and never looks the post up |
| Interactions.InteractionsService.RemoveAndDecrement | api-service/src/interactions/interactions.service.ts:87-90 | the row goes, its counter loses one, and the invariant holds |
| Interactions.InteractionsService.CommentOnPost | api-service/src/interactions/interactions.service.ts:95-137 | BadRequest "Comment content is required" and nothing changed for absent or blank content, before any lookup. Then NotFound, then the database's unique violation for a second comment. Otherwise it stores the trimmed content, adds one to commentsCount and sends an event carrying the trimmed content to the author |
| Interactions.InteractionsService.SaveComment | api-service/src/interactions/interactions.service.ts:103-136 | the same three outcomes for text that is already trimmed |
| Interactions.InteractionsService.GetPostInteractions | api-service/src/interactions/interactions.service.ts:139-157 | at most 50 rows, all of that post and of that type when one is given, newest first, all from the table. When no more than 50 match, they are all there |
| Notifications.ParseType | notification-service/src/migrations/1767522252537-NotificationSchema.ts:33-34 | the enum column admits exactly "like" and "comment" |
| Notifications.Action | notification-service/src/notifications/notifications.service.ts:40 | the verb is "liked" exactly for type like and "commented on" for every other type |
| Notifications.Excerpt | notification-service/src/notifications/notifications.service.ts:43 | at most 53 characters: `substring(0, 50)` plus an ellipsis |
| Notifications.GenerateNotificationMessage | notification-service/src/notifications/notifications.service.ts:38-47 | no message is longer than the quoting prefix plus 54 characters |
| Notifications.LikeMessageIsFixed | notification-service/src/notifications/notifications.service.ts:40-46 | a like's message is "User liked your post", whatever its content |
| Notifications.UnquotedMessage | notification-service/src/notifications/notifications.service.ts:40-46 | any type other than like, when there is no content to quote, gives "User commented on your post" |
| Notifications.QuotedMessage | notification-service/src/notifications/notifications.service.ts:42-43 | a comment with content reads `User commented on your post: "` + excerpt + `"` |
| Notifications.ShortCommentQuotedWhole | notification-service/src/notifications/notifications.service.spec.ts:210-238 | content of 1 to 50 characters is quoted whole, with no ellipsis, and can be read back out of the message |
| Notifications.LongCommentTruncated | notification-service/src/notifications/notifications.service.spec.ts:106-137 | content of 51 or more characters is quoted as its first 50 characters and `...`; the message then has its maximum length |
| Notifications.InvalidType | notification-service/src/notifications/notifications.service.ts:23 | the database's refusal of a value outside the enum names that value between quotes |
| Notifications.FindNotification | notification-service/src/notifications/notifications.service.ts:67-69 | the position of a row with that id and that owner, or nothing exactly when there is none |
| Notifications.ForUser | notification-service/src/notifications/notifications.service.ts:53 | only rows of that user, each as often as in the table |
| Notifications.SentTo | notification-service/src/notifications/notifications.service.ts:90-93 | only rows of that user in status sent, each as often as in the table |
| Notifications.NothingSentCountsZero | notification-service/src/notifications/notifications.service.ts:89-94 | when no row is in status sent, every user's count of sent rows is 0 |
| Notifications.NotificationsService.CreateNotification | notification-service/src/notifications/notifications.service.ts:16-36 | appends exactly one row with a fresh id: recipient = owner, actor, post, type, the generated message, metadata {interactionId, content} and status pending. Old rows stay. A type outside the enum fails and changes nothing |
| Notifications.NotificationsService.GetNotifications | notification-service/src/notifications/notifications.service.ts:49-62 | that user's rows newest first, from offset on, at most limit when limit is positive and all of them when it is 0, with the length that implies; the defaults are 20 and 0 |
| Notifications.NotificationsService.MarkAsRead | notification-service/src/notifications/notifications.service.ts:64-84 | "Notification not found" and nothing changed unless a row has that id and that owner. Otherwise only that row's status becomes read, and a read row is left as it was |
| Notifications.NotificationsService.GetUnreadCount | notification-service/src/notifications/notifications.service.ts:86-99 | the number of the user's rows in status sent, which is always 0 |
| MockAuth.ClassMatches | notification-service/src/common/guards/mock-auth.guard.ts:13 | under `i` a letter matches when it or its other ASCII case is in the class; any other character only when it is itself in the class |
| MockAuth.Matches | notification-service/src/common/guards/mock-auth.guard.ts:13 | an anchored match takes exactly as many characters as the pattern's expansion |
| MockAuth.MatchesExpand | notification-service/src/common/guards/mock-auth.guard.ts:13 | an anchored fixed-count pattern matches exactly the strings as long as its expansion whose every character matches the class at its position |
| MockAuth.MatchesIgnoresCase | notification-service/src/common/guards/mock-auth.guard.ts:13 | under the `i` flag a string matches exactly when its lower-cased form does |
| MockAuth.LowerCase | notification-service/src/common/guards/mock-auth.guard.ts:13 | same length, each character ASCII lower-cased |
| MockAuth.ExpandCovered | notification-service/src/common/guards/mock-auth.guard.ts:13 | a table of term offsets fixes the class at every position of the expansion |
| MockAuth.ExpandUuidV4 | notification-service/src/common/guards/mock-auth.guard.ts:13 | the pattern expands to 36 positions: dashes at 8, 13, 18, 23, version 4 at 14, variant at 19, hex elsewhere |
| MockAuth.IsUuidV4 | notification-service/src/common/guards/mock-auth.guard.ts:13-14 | `uuidRegex.test(userId)`; every accepted id is 36 characters long |
| MockAuth.HexClassMatches | notification-service/src/common/guards/mock-auth.guard.ts:13 | `[0-9a-f]` under `i` matches exactly the hexadecimal digits of either case |
| MockAuth.VariantClassMatches | notification-service/src/common/guards/mock-auth.guard.ts:13 | `[89ab]` under `i` matches exactly 8, 9, a, b, A, B |
| MockAuth.UuidV4Positions | notification-service/src/common/guards/mock-auth.guard.ts:13-16 | accepted exactly when the length is 36, '-' is at 8, 13, 18 and 23, '4' is at 14, a variant digit is at 19, and a hexadecimal digit is everywhere else |
| MockAuth.UuidV4VersionAndVariant | notification-service/src/common/guards/mock-auth.guard.ts:13 | every accepted id has version digit 4 and a variant digit of RFC 9562 section 5.4 |
| MockAuth.UuidV4IgnoresCase | notification-service/src/common/guards/mock-auth.guard.ts:13 | accepted exactly when the ASCII lower-cased form is accepted |
| MockAuth.EmptyIsNotUuidV4 | notification-service/src/common/guards/mock-auth.guard.ts:9-16 | the empty string is refused by the pattern too |
| MockAuth.VersionOneRefused | notification-service/src/common/guards/mock-auth.guard.ts:13 | a well-formed version-1 UUID is refused |
| MockAuth.Authenticate | notification-service/src/common/guards/mock-auth.guard.ts:5-20 | lets in exactly the requests whose header holds an accepted id, as that user. A missing or empty header gets "x-user-id header is required"; any other refused value gets "Invalid user ID format. Please use a valid UUID." |
| MockAuth.CanActivate | notification-service/src/common/guards/mock-auth.guard.ts:5-20 | refuses with that error and leaves the request alone, or sets `request.user = {id}` and returns true |
| EventFlow.EmittedTypeAccepted | notification-service/src/notifications/notifications.service.ts:23 | every event type the post service sends is an admissible notification type |
| EventFlow.LikeEventMessage | notification-service/src/notifications/notifications.service.ts:40-46 | the event of a like yields "User liked your post" |
| EventFlow.CommentEventMessage | api-service/src/interactions/interactions.service.ts:125-133 | the event of a stored comment always has content to quote, and its message quotes the trimmed comment |
| EventFlow.HandleInteractionEvent | notification-service/src/kafka/kafka-consumer.service.ts:107-118 | the event of any stored interaction becomes one pending notification for the post's author, with the interacting user as actor and the interaction's id and content as metadata |
| EventFlow.LikeThenUnlike | api-service/src/interactions/interactions.service.spec.ts:101-191 | like then unlike gives back the interactions table and the post, apart from its update time; the earlier events stay and one like event is added, from the user to the post's author, without content, stamped with the like's time |
| EventFlow.ReplayAppendsTwice | notification-service/src/notifications/notifications.service.ts:16-36 | the same event delivered twice is stored twice, under two ids, with the same message and metadata |

## Left out

- The Kafka producer and consumer are left out: connecting, the subscribe
  retry loop, JSON encoding and decoding, delivery, partitions and ordering,
  and the health check. Emission is an append to `events`. Consumption is
  `EventFlow.HandleInteractionEvent` applied to one event. A failed publish
  is not modelled: `emitInteractionEvent` rethrows, so `likePost` and
  `commentOnPost` then answer 500 after the row is saved and the counter
  raised, while the model always appends the event.
- Controllers, modules, `main.ts`, the TypeORM configuration and the DTO
  validation decorators are left out; they are routing and framework glue.
- Migrations are not modelled as DDL. They are the source of the invariants:
  - the unique triple;
  - the foreign key;
  - zero counter defaults;
  - the enum values;
  - status pending.
- Logging is left out; it does not affect state.
- Concurrency and crash windows are left out. Each operation runs to the end
  before the next starts. This leaves out two things: a crash between the
  write, the counter update and the publish, and two requests racing past the
  like pre-check.
- `sharesCount` is left out. It appears in the counter-field type of
  `posts.service.ts` but has no column.
- Posts.Adjusted: the counters are unbounded integers, so 32-bit column
  overflow is not modelled.
- Posts.IncrementThenDecrement: increment followed by decrement restores the
  row except for `updatedAt`. TypeORM's `increment`/`decrement` go through
  its update builder, which also sets the update-date column.
- Interactions.InteractionsService.CommentOnPost: the service itself does not
  check for an earlier comment by the same user on the same post. The insert
  then violates the unique constraint, which the model states as
  `QueryFailed` with nothing changed.
- Notifications.NotificationsService.CreateNotification: an event whose type
  is not "like" or "comment" fails at the enum column with `QueryFailed`.
  `event.type as NotificationType` is only a compile-time cast.
- Notifications.NotificationsService.GetNotifications: `limit` and `offset`
  are natural numbers; negative query values are not modelled. A `limit` of
  0 is falsy for TypeORM, which then adds no LIMIT clause, so the model
  returns every row of the user from `offset` on; this follows TypeORM's
  query building, which is not part of this model. Rows with
  equal `createdAt` come in the order `SortNewestFirst` picks. The stated
  guarantees (newest first, only the user's rows, the length) hold for
  every order of ties.
- Notifications.NotificationsService.GetUnreadCount: it counts status sent,
  and nothing in these services ever writes sent. Creation writes pending and
  markAsRead writes read. The model therefore proves the count is always 0,
  which is the behaviour as written.
- Notifications.Excerpt: `substring` counts UTF-16 code units, but the model
  cuts after 50 characters of a `seq<char>`. The two differ only for
  characters outside the Basic Multilingual Plane.
- JsText.Trim: the whitespace set is ECMAScript's WhiteSpace and
  LineTerminator as listed in `IsWhitespace`. It is not derived from the
  Unicode database.
- MockAuth.ClassMatches: under `i` a character matches when it or its ASCII
  case partner is in the class. Non-ASCII case folding is not modelled; the
  guard's classes are ASCII only. A header repeated into an array value is
  not modelled; headers map names to single strings.
- Ids that are not UUID text are not refused. The api-service routes pass
  `postId` and `id` through without a UUID pipe. Postgres then rejects such
  a value in a WHERE clause on a `uuid` column, and the client gets a 500
  (`QueryFailedError`). The model treats every id as a string that is simply
  stored or not. This affects Posts.PostsService.FindOne,
  Posts.PostsService.GetPostWithCounters, Posts.PostsService.Exists,
  Interactions.InteractionsService.LikePost,
  Interactions.InteractionsService.UnlikePost,
  Interactions.InteractionsService.CommentOnPost and
  Interactions.InteractionsService.GetPostInteractions: for a malformed id
  they give NotFound, `false` or `[]` where the source fails the query.
- Generated UUIDs are left out. Ids are `FreshId(n)` strings, which are
  unique but not UUID text. The database clock is the `now` parameter.
