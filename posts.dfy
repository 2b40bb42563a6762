/** The posts table and PostsService: create a post, look one up, and move
    its like and comment counters by one. */
module Posts {
  import opened Errors
  import opened Ids

  /** The request body of `POST /posts`. */
  datatype CreatePostDto = CreatePostDto(content: string)

  /** A row of the posts table; the timestamps are the database clock's readings. */
  datatype Post = Post(
    id: string,
    content: string,
    authorId: string,
    likesCount: int,
    commentsCount: int,
    createdAt: int,
    updatedAt: int)

  /** The counter columns the services move. */
  datatype CounterField = LikesCount | CommentsCount

  function Other(field: CounterField): CounterField
  {
    match field
    case LikesCount => CommentsCount
    case CommentsCount => LikesCount
  }

  function Counter(p: Post, field: CounterField): int
  {
    match field
    case LikesCount => p.likesCount
    case CommentsCount => p.commentsCount
  }

  /** The row after `UPDATE posts SET field = field + delta`, which also stamps
      the update-date column with the time of the update. */
  function Adjusted(p: Post, field: CounterField, delta: int, now: int): (q: Post)
    ensures Counter(q, field) == Counter(p, field) + delta
    ensures Counter(q, Other(field)) == Counter(p, Other(field))
    ensures q.id == p.id && q.content == p.content && q.authorId == p.authorId
    ensures q.createdAt == p.createdAt && q.updatedAt == now
  {
    match field
    case LikesCount => p.(likesCount := p.likesCount + delta, updatedAt := now)
    case CommentsCount => p.(commentsCount := p.commentsCount + delta, updatedAt := now)
  }

  /** Adding one and then taking one from the same counter gives back the row,
      apart from the update-date column, which holds the time of the second update. */
  lemma IncrementThenDecrement(p: Post, field: CounterField, t1: int, t2: int)
    ensures Adjusted(Adjusted(p, field, 1, t1), field, -1, t2) == p.(updatedAt := t2)
  {
  }

  class PostsService {
    /** The posts table, keyed by primary key. */
    var posts: map<string, Post>
    /** How many ids the table has handed out. */
    var nextId: nat

    ghost predicate Valid()
      reads this
    {
      forall id | id in posts :: posts[id].id == id && |id| <= nextId
    }

    constructor ()
      ensures Valid() && posts == map[]
    {
      posts := map[];
      nextId := 0;
    }

    /** `create(createPostDto, authorId)`: saves one new post whose counters
        start at the column default 0 and whose timestamps are both now. */
    method Create(createPostDto: CreatePostDto, authorId: string, now: int) returns (post: Post)
      requires Valid()
      modifies this
      ensures Valid()
      ensures post == Post(post.id, createPostDto.content, authorId, 0, 0, now, now)
      ensures post.id !in old(posts) && posts == old(posts)[post.id := post]
    {
      var id := FreshId(nextId);
      nextId := nextId + 1;
      post := Post(id, createPostDto.content, authorId, 0, 0, now, now);
      posts := posts[id := post];
    }

    /** `findOne(id)`: the stored post, or NotFound. */
    method FindOne(id: string) returns (r: Result<Post>)
      ensures id in posts ==> r == Ok(posts[id])
      ensures id !in posts ==> r == Err(NotFound(PostNotFound(id)))
    {
      if id in posts {
        r := Ok(posts[id]);
      } else {
        r := Err(NotFound(PostNotFound(id)));
      }
    }

    /** `incrementCounter(postId, field)`: one more on that counter of that post;
        an id with no row updates nothing. */
    method IncrementCounter(postId: string, field: CounterField, now: int)
      requires Valid()
      modifies this
      ensures Valid() && nextId == old(nextId)
      ensures postId in old(posts) ==>
        posts == old(posts)[postId := Adjusted(old(posts)[postId], field, 1, now)]
      ensures postId !in old(posts) ==> posts == old(posts)
    {
      if postId in posts {
        posts := posts[postId := Adjusted(posts[postId], field, 1, now)];
      }
    }

    /** `decrementCounter(postId, field)`: one less on that counter of that post,
        with no floor at zero; an id with no row updates nothing. */
    method DecrementCounter(postId: string, field: CounterField, now: int)
      requires Valid()
      modifies this
      ensures Valid() && nextId == old(nextId)
      ensures postId in old(posts) ==>
        posts == old(posts)[postId := Adjusted(old(posts)[postId], field, -1, now)]
      ensures postId !in old(posts) ==> posts == old(posts)
    {
      if postId in posts {
        posts := posts[postId := Adjusted(posts[postId], field, -1, now)];
      }
    }

    /** `getPostWithCounters(id)`: the id, content, author, both counters and
        both timestamps of the post, or NotFound. */
    method GetPostWithCounters(id: string) returns (r: Result<Post>)
      ensures id in posts ==> r.Ok? && r.value == posts[id]
      ensures id !in posts ==> r == Err(NotFound(PostNotFound(id)))
    {
      if id in posts {
        var p := posts[id];
        r := Ok(Post(p.id, p.content, p.authorId, p.likesCount, p.commentsCount, p.createdAt, p.updatedAt));
      } else {
        r := Err(NotFound(PostNotFound(id)));
      }
    }

    /** `exists(id)`: whether counting the rows with that id gives more than zero. */
    method Exists(id: string) returns (b: bool)
      ensures b <==> id in posts
    {
      var rows := set k | k in posts.Keys && k == id;
      assert id in posts ==> rows == {id};
      b := |rows| > 0;
    }
  }
}
