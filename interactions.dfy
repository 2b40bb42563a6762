/** InteractionsService: likes, unlikes and comments on posts. Each operation
    checks its conditions first and then either fails and changes nothing, or
    writes the interactions table, moves one counter of the post and, for a
    like or a comment, appends one event to the interaction topic. */
module Interactions {
  import opened Errors
  import opened Ids
  import opened Queries
  import opened JsText
  import opened Posts
  import opened Events

  datatype InteractionType = Like | Comment

  /** The value the enum is stored and sent as. */
  function TypeName(t: InteractionType): string
  {
    match t
    case Like => "like"
    case Comment => "comment"
  }

  /** The post counter an interaction of that kind is counted in. */
  function CounterOf(t: InteractionType): CounterField
  {
    match t
    case Like => LikesCount
    case Comment => CommentsCount
  }

  /** A row of the interactions table. */
  datatype Interaction = Interaction(
    id: string,
    userId: string,
    postId: string,
    kind: InteractionType,
    content: Option<string>,
    createdAt: int)

  function CreatedAt(x: Interaction): int
  {
    x.createdAt
  }

  const AlreadyLiked := "User has already liked this post"
  const LikeNotFound := "Like not found"
  const ContentRequired := "Comment content is required"
  /** What the database answers when a second row with the same
      (userId, postId, type) is inserted. */
  const UniqueViolation := "duplicate key value violates unique constraint \"UNQ_interactions_user_post_type\""
  /** `take: 50` in getPostInteractions. */
  const PageSize: nat := 50

  predicate Matches(x: Interaction, userId: string, postId: string, kind: InteractionType)
  {
    x.userId == userId && x.postId == postId && x.kind == kind
  }

  /** `findOne({ where: { userId, postId, type } })`: the position of a matching row. */
  function FindInteraction(rows: seq<Interaction>, userId: string, postId: string, kind: InteractionType): (r: Option<nat>)
    ensures r.Some? ==> r.value < |rows| && Matches(rows[r.value], userId, postId, kind)
    ensures r.None? <==> forall i :: 0 <= i < |rows| ==> !Matches(rows[i], userId, postId, kind)
  {
    if rows == [] then None
    else if Matches(rows[0], userId, postId, kind) then Some(0)
    else
      match FindInteraction(rows[1..], userId, postId, kind)
      case None => None
      case Some(i) => Some(i + 1)
  }

  /** The unique constraint on (userId, postId, type). */
  ghost predicate UniqueTriples(rows: seq<Interaction>)
  {
    forall i, j :: 0 <= i < j < |rows| ==> !Matches(rows[j], rows[i].userId, rows[i].postId, rows[i].kind)
  }

  /** Text with something in it and no whitespace at either end, as trim leaves it. */
  ghost predicate Trimmed(c: string)
  {
    c != [] && !IsWhitespace(c[0]) && !IsWhitespace(c[|c| - 1])
  }

  /** A like carries no content; a comment carries non-empty, trimmed content. */
  ghost predicate WellFormed(x: Interaction)
  {
    match x.kind
    case Like => x.content == None
    case Comment => x.content.Some? && Trimmed(x.content.value)
  }

  /** Every row is well formed and has an id of at most n characters, so
      FreshId(n) is not among them. */
  ghost predicate RowsWellFormed(rows: seq<Interaction>, n: nat)
  {
    forall i :: 0 <= i < |rows| ==> |rows[i].id| <= n && WellFormed(rows[i])
  }

  /** The number of rows of that kind on that post. */
  function CountOf(rows: seq<Interaction>, postId: string, kind: InteractionType): nat
  {
    if rows == [] then 0
    else (if rows[0].postId == postId && rows[0].kind == kind then 1 else 0) + CountOf(rows[1..], postId, kind)
  }

  lemma {:induction false} CountOfConcat(a: seq<Interaction>, b: seq<Interaction>, postId: string, kind: InteractionType)
    ensures CountOf(a + b, postId, kind) == CountOf(a, postId, kind) + CountOf(b, postId, kind)
  {
    if a == [] {
      assert a + b == b;
    } else {
      assert (a + b)[1..] == a[1..] + b;
      CountOfConcat(a[1..], b, postId, kind);
    }
  }

  lemma {:induction false} CountOfAbsent(rows: seq<Interaction>, postId: string, kind: InteractionType)
    requires forall i :: 0 <= i < |rows| ==> rows[i].postId != postId
    ensures CountOf(rows, postId, kind) == 0
  {
    if rows != [] {
      CountOfAbsent(rows[1..], postId, kind);
    }
  }

  /** The counters are caches of the interactions table: every post's counters
      equal the number of its likes and of its comments, and every interaction
      belongs to a stored post (the foreign key). */
  ghost predicate CountersAgree(posts: map<string, Post>, rows: seq<Interaction>)
  {
    && (forall i :: 0 <= i < |rows| ==> rows[i].postId in posts)
    && (forall id | id in posts ::
          posts[id].likesCount == CountOf(rows, id, Like) && posts[id].commentsCount == CountOf(rows, id, Comment))
  }

  /** Saving an interaction and incrementing its counter keeps the counters in agreement. */
  lemma AddKeepsAgreement(posts: map<string, Post>, rows: seq<Interaction>, x: Interaction, now: int)
    requires CountersAgree(posts, rows) && x.postId in posts
    ensures CountersAgree(posts[x.postId := Adjusted(posts[x.postId], CounterOf(x.kind), 1, now)], rows + [x])
  {
    var posts' := posts[x.postId := Adjusted(posts[x.postId], CounterOf(x.kind), 1, now)];
    forall id, t | id in posts'
      ensures CountOf(rows + [x], id, t) == CountOf(rows, id, t) + (if x.postId == id && x.kind == t then 1 else 0)
    {
      CountOfConcat(rows, [x], id, t);
      assert [x][1..] == [];
    }
  }

  /** Removing an interaction and decrementing its counter keeps the counters in agreement. */
  lemma RemoveKeepsAgreement(posts: map<string, Post>, rows: seq<Interaction>, k: nat, now: int)
    requires CountersAgree(posts, rows) && k < |rows|
    ensures
      var x := rows[k];
      CountersAgree(posts[x.postId := Adjusted(posts[x.postId], CounterOf(x.kind), -1, now)], rows[..k] + rows[k + 1..])
  {
    var x := rows[k];
    var rest := rows[..k] + rows[k + 1..];
    assert rows == rows[..k] + [x] + rows[k + 1..];
    forall i | 0 <= i < |rest| ensures rest[i].postId in posts {
      if i < k { assert rest[i] == rows[i]; } else { assert rest[i] == rows[i + 1]; }
    }
    forall id, t | id in posts
      ensures CountOf(rows, id, t) == CountOf(rest, id, t) + (if x.postId == id && x.kind == t then 1 else 0)
    {
      CountOfRemove(rows, k, id, t);
    }
  }

  /** Removing row k takes away one from the count of its post and kind, and nothing from the others. */
  lemma CountOfRemove(rows: seq<Interaction>, k: nat, postId: string, kind: InteractionType)
    requires k < |rows|
    ensures CountOf(rows, postId, kind) ==
      CountOf(rows[..k] + rows[k + 1..], postId, kind) + (if rows[k].postId == postId && rows[k].kind == kind then 1 else 0)
  {
    var x := rows[k];
    assert rows == rows[..k] + [x] + rows[k + 1..];
    CountOfConcat(rows[..k] + [x], rows[k + 1..], postId, kind);
    CountOfConcat(rows[..k], [x], postId, kind);
    CountOfConcat(rows[..k], rows[k + 1..], postId, kind);
    assert [x][1..] == [];
  }

  /** A post created by PostsService.Create (a fresh id, both counters 0) keeps
      the counters in agreement. */
  lemma NewPostKeepsAgreement(posts: map<string, Post>, rows: seq<Interaction>, p: Post)
    requires CountersAgree(posts, rows) && p.id !in posts
    requires p.likesCount == 0 && p.commentsCount == 0
    ensures CountersAgree(posts[p.id := p], rows)
  {
    CountOfAbsent(rows, p.id, Like);
    CountOfAbsent(rows, p.id, Comment);
  }

  /** Saving a row that matches no stored row keeps the unique constraint. */
  lemma AppendKeepsUnique(rows: seq<Interaction>, x: Interaction)
    requires UniqueTriples(rows)
    requires FindInteraction(rows, x.userId, x.postId, x.kind).None?
    ensures UniqueTriples(rows + [x])
  {
    var rows' := rows + [x];
    forall i, j | 0 <= i < j < |rows'|
      ensures !Matches(rows'[j], rows'[i].userId, rows'[i].postId, rows'[i].kind)
    {
      if j == |rows| {
        assert !Matches(rows[i], x.userId, x.postId, x.kind);
      } else {
        assert rows'[i] == rows[i] && rows'[j] == rows[j];
      }
    }
  }

  /** Removing a row keeps the unique constraint. */
  lemma RemoveKeepsUnique(rows: seq<Interaction>, k: nat)
    requires UniqueTriples(rows) && k < |rows|
    ensures UniqueTriples(rows[..k] + rows[k + 1..])
  {
    var rest := rows[..k] + rows[k + 1..];
    forall i, j | 0 <= i < j < |rest|
      ensures !Matches(rest[j], rest[i].userId, rest[i].postId, rest[i].kind)
    {
      var i' := if i < k then i else i + 1;
      var j' := if j < k then j else j + 1;
      assert rest[i] == rows[i'] && rest[j] == rows[j'];
    }
  }

  /** Unliking right after a like finds the row the like appended, and removing
      it gives back the table as it was: like then unlike restores the table. */
  lemma {:induction false} UnlikeUndoesLike(rows: seq<Interaction>, x: Interaction)
    requires FindInteraction(rows, x.userId, x.postId, Like).None? && x.kind == Like
    ensures FindInteraction(rows + [x], x.userId, x.postId, Like) == Some(|rows|)
    ensures (rows + [x])[..|rows|] + (rows + [x])[|rows| + 1..] == rows
  {
    if rows != [] {
      assert (rows + [x])[1..] == rows[1..] + [x];
      UnlikeUndoesLike(rows[1..], x);
    }
  }

  /** The event sent for a saved interaction, addressed to the post's author:
      the interaction's id, type and creation time, with the user who made it
      as actor; a comment's event also carries its content. */
  function EventOf(x: Interaction, ownerId: string): (e: InteractionEvent)
    ensures e.id == x.id && e.ownerId == ownerId && e.actorId == x.userId && e.postId == x.postId
    ensures e.createdAt == x.createdAt
    ensures e.kind == "like" <==> x.kind == Like
    ensures e.kind == "comment" <==> x.kind == Comment
    ensures x.kind == Like ==> e.content.None?
    ensures x.kind == Comment ==> e.content == x.content
  {
    var content := if x.kind == Like then None else x.content;
    InteractionEvent(x.id, ownerId, x.userId, x.postId, TypeName(x.kind), content, x.createdAt)
  }

  /** The content a comment is saved with: the trimmed text, or nothing when
      `!content || content.trim().length === 0` rejects it. */
  function CommentBody(content: Option<string>): (r: Option<string>)
    ensures r.None? <==> content.None? || forall i :: 0 <= i < |content.value| ==> IsWhitespace(content.value[i])
    ensures r.Some? ==> r.value == Trim(content.value) && Trimmed(r.value)
  {
    if content.None? then None
    else
      TrimEmptyIff(content.value);
      if Trim(content.value) == [] then None else Some(Trim(content.value))
  }

  /** The rows `where: { postId }`, and `type` as well when one is given. */
  function Selected(rows: seq<Interaction>, postId: string, kind: Option<InteractionType>): (r: seq<Interaction>)
    ensures forall i :: 0 <= i < |r| ==> r[i].postId == postId && (kind.None? || r[i].kind == kind.value)
    ensures forall x :: multiset(r)[x] ==
                        (if x.postId == postId && (kind.None? || x.kind == kind.value) then multiset(rows)[x] else 0)
  {
    Filter(rows, (x: Interaction) => x.postId == postId && (kind.None? || x.kind == kind.value))
  }

  class InteractionsService {
    /** The interactions table, in storage order. */
    var interactions: seq<Interaction>
    /** Every event sent to the interaction topic, oldest first. */
    var events: seq<InteractionEvent>
    /** How many interaction ids the table has handed out. */
    var nextId: nat
    const postsService: PostsService

    ghost predicate Valid()
      reads this, postsService
    {
      && postsService.Valid()
      && UniqueTriples(interactions)
      && RowsWellFormed(interactions, nextId)
      && CountersAgree(postsService.posts, interactions)
    }

    constructor (postsService: PostsService)
      requires postsService.Valid()
      requires forall id | id in postsService.posts ::
        postsService.posts[id].likesCount == 0 && postsService.posts[id].commentsCount == 0
      ensures Valid() && this.postsService == postsService
      ensures interactions == [] && events == []
    {
      this.postsService := postsService;
      interactions := [];
      events := [];
      nextId := 0;
    }

    /** Saves a new interaction (it matches no stored row), moves its post's
        counter and sends its event to the post's author. */
    method SaveAndEmit(x: Interaction, ownerId: string)
      requires Valid() && x.id == FreshId(nextId) && WellFormed(x) && x.postId in postsService.posts
      requires ownerId == postsService.posts[x.postId].authorId
      requires FindInteraction(interactions, x.userId, x.postId, x.kind).None?
      modifies this, postsService
      ensures Valid() && nextId == old(nextId) + 1
      ensures forall i :: 0 <= i < |old(interactions)| ==> old(interactions)[i].id != x.id
      ensures interactions == old(interactions) + [x]
      ensures events == old(events) + [EventOf(x, ownerId)]
      ensures postsService.posts ==
        old(postsService.posts)[x.postId := Adjusted(old(postsService.posts)[x.postId], CounterOf(x.kind), 1, x.createdAt)]
    {
      AppendKeepsUnique(interactions, x);
      AddKeepsAgreement(postsService.posts, interactions, x, x.createdAt);
      interactions := interactions + [x];
      nextId := nextId + 1;
      postsService.IncrementCounter(x.postId, CounterOf(x.kind), x.createdAt);
      events := events + [EventOf(x, ownerId)];
    }

    /** `likePost(postId, userId)`. */
    method LikePost(postId: string, userId: string, now: int) returns (r: Result<Interaction>)
      requires Valid()
      modifies this, postsService
      ensures Valid()
      ensures postId !in old(postsService.posts) ==>
        r == Err(NotFound(PostNotFound(postId))) && unchanged(this, postsService)
      ensures postId in old(postsService.posts) && FindInteraction(old(interactions), userId, postId, Like).Some? ==>
        r == Err(Conflict(AlreadyLiked)) && unchanged(this, postsService)
      ensures postId in old(postsService.posts) && FindInteraction(old(interactions), userId, postId, Like).None? ==>
        && r.Ok?
        && r.value == Interaction(r.value.id, userId, postId, Like, None, now)
        && (forall i :: 0 <= i < |old(interactions)| ==> old(interactions)[i].id != r.value.id)
        && interactions == old(interactions) + [r.value]
        && postsService.posts ==
             old(postsService.posts)[postId := Adjusted(old(postsService.posts)[postId], LikesCount, 1, now)]
        && events == old(events) + [EventOf(r.value, old(postsService.posts)[postId].authorId)]
    {
      var postExists := postsService.FindOne(postId);
      if postExists.Err? {
        r := Err(postExists.error);
        return;
      }
      var existing := FindInteraction(interactions, userId, postId, Like);
      if existing.Some? {
        r := Err(Conflict(AlreadyLiked));
        return;
      }
      var saved := Interaction(FreshId(nextId), userId, postId, Like, None, now);
      SaveAndEmit(saved, postExists.value.authorId);
      r := Ok(saved);
    }

    /** `unlikePost(postId, userId)`; never looks the post up and sends no event. */
    method UnlikePost(postId: string, userId: string, now: int) returns (r: Result<()>)
      requires Valid()
      modifies this, postsService
      ensures Valid() && events == old(events) && nextId == old(nextId)
      ensures FindInteraction(old(interactions), userId, postId, Like).None? ==>
        r == Err(NotFound(LikeNotFound)) && unchanged(this, postsService)
      ensures FindInteraction(old(interactions), userId, postId, Like).Some? ==>
        var k := FindInteraction(old(interactions), userId, postId, Like).value;
        && r.Ok?
        && interactions == old(interactions)[..k] + old(interactions)[k + 1..]
        && postId in old(postsService.posts)
        && postsService.posts ==
             old(postsService.posts)[postId := Adjusted(old(postsService.posts)[postId], LikesCount, -1, now)]
    {
      var interaction := FindInteraction(interactions, userId, postId, Like);
      if interaction.None? {
        r := Err(NotFound(LikeNotFound));
        return;
      }
      RemoveAndDecrement(interaction.value, now);
      r := Ok(());
    }

    /** `remove` of the k-th row, then one less on its post's counter. */
    method RemoveAndDecrement(k: nat, now: int)
      requires Valid() && k < |interactions|
      modifies this, postsService
      ensures Valid() && events == old(events) && nextId == old(nextId)
      ensures interactions == old(interactions)[..k] + old(interactions)[k + 1..]
      ensures old(interactions)[k].postId in old(postsService.posts)
      ensures
        var x := old(interactions)[k];
        postsService.posts ==
          old(postsService.posts)[x.postId := Adjusted(old(postsService.posts)[x.postId], CounterOf(x.kind), -1, now)]
    {
      var x := interactions[k];
      RemoveKeepsUnique(interactions, k);
      RemoveKeepsAgreement(postsService.posts, interactions, k, now);
      interactions := interactions[..k] + interactions[k + 1..];
      postsService.DecrementCounter(x.postId, CounterOf(x.kind), now);
    }

    /** `commentOnPost(postId, userId, content)`; content is absent when the
        caller passed null or undefined. */
    method CommentOnPost(postId: string, userId: string, content: Option<string>, now: int)
      returns (r: Result<Interaction>)
      requires Valid()
      modifies this, postsService
      ensures Valid()
      ensures CommentBody(content).None? ==>
        r == Err(BadRequest(ContentRequired)) && unchanged(this, postsService)
      ensures CommentBody(content).Some? && postId !in old(postsService.posts) ==>
        r == Err(NotFound(PostNotFound(postId))) && unchanged(this, postsService)
      ensures (CommentBody(content).Some? && postId in old(postsService.posts)
               && FindInteraction(old(interactions), userId, postId, Comment).Some?) ==>
        r == Err(QueryFailed(UniqueViolation)) && unchanged(this, postsService)
      ensures (CommentBody(content).Some? && postId in old(postsService.posts)
               && FindInteraction(old(interactions), userId, postId, Comment).None?) ==>
        && r.Ok?
        && r.value == Interaction(r.value.id, userId, postId, Comment, CommentBody(content), now)
        && (forall i :: 0 <= i < |old(interactions)| ==> old(interactions)[i].id != r.value.id)
        && interactions == old(interactions) + [r.value]
        && postsService.posts ==
             old(postsService.posts)[postId := Adjusted(old(postsService.posts)[postId], CommentsCount, 1, now)]
        && events == old(events) + [EventOf(r.value, old(postsService.posts)[postId].authorId)]
    {
      var body := CommentBody(content);
      if body.None? {
        r := Err(BadRequest(ContentRequired));
        return;
      }
      r := SaveComment(postId, userId, body.value, now);
    }

    /** The part of `commentOnPost` after the content check, for trimmed text. */
    method SaveComment(postId: string, userId: string, text: string, now: int) returns (r: Result<Interaction>)
      requires Valid() && Trimmed(text)
      modifies this, postsService
      ensures Valid()
      ensures postId !in old(postsService.posts) ==>
        r == Err(NotFound(PostNotFound(postId))) && unchanged(this, postsService)
      ensures (postId in old(postsService.posts) && FindInteraction(old(interactions), userId, postId, Comment).Some?) ==>
        r == Err(QueryFailed(UniqueViolation)) && unchanged(this, postsService)
      ensures (postId in old(postsService.posts) && FindInteraction(old(interactions), userId, postId, Comment).None?) ==>
        && r.Ok?
        && r.value == Interaction(r.value.id, userId, postId, Comment, Some(text), now)
        && (forall i :: 0 <= i < |old(interactions)| ==> old(interactions)[i].id != r.value.id)
        && interactions == old(interactions) + [r.value]
        && postsService.posts ==
             old(postsService.posts)[postId := Adjusted(old(postsService.posts)[postId], CommentsCount, 1, now)]
        && events == old(events) + [EventOf(r.value, old(postsService.posts)[postId].authorId)]
    {
      var post := postsService.FindOne(postId);
      if post.Err? {
        r := Err(post.error);
        return;
      }
      if FindInteraction(interactions, userId, postId, Comment).Some? {
        // No pre-check in the service: the database refuses the insert.
        r := Err(QueryFailed(UniqueViolation));
        return;
      }
      var saved := Interaction(FreshId(nextId), userId, postId, Comment, Some(text), now);
      SaveAndEmit(saved, post.value.authorId);
      r := Ok(saved);
    }

    /** `getPostInteractions(postId, type?)`: the newest 50 interactions of the
        post, of that type when one is given. */
    method GetPostInteractions(postId: string, kind: Option<InteractionType>) returns (r: seq<Interaction>)
      ensures r == Page(SortNewestFirst(Selected(interactions, postId, kind), CreatedAt), 0, PageSize)
      ensures |r| == Min(PageSize, |Selected(interactions, postId, kind)|)
      ensures forall i :: 0 <= i < |r| ==> r[i].postId == postId && (kind.Some? ==> r[i].kind == kind.value)
      ensures NewestFirst(r, CreatedAt)
      ensures multiset(r) <= multiset(interactions)
      ensures |Selected(interactions, postId, kind)| <= PageSize ==>
        multiset(r) == multiset(Selected(interactions, postId, kind))
    {
      var selected := Selected(interactions, postId, kind);
      var sorted := SortNewestFirst(selected, CreatedAt);
      r := Page(sorted, 0, PageSize);
      SelectionPage(interactions, (x: Interaction) => x.postId == postId && (kind.None? || x.kind == kind.value), CreatedAt, 0, PageSize);
      if |selected| <= PageSize {
        WholePage(sorted, PageSize);
      }
    }
  }
}
