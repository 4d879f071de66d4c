/** The records the posting app keeps and the pure list operations its handlers
    apply to the post collection: building a post or a comment from the form
    fields, `filter` by id (delete), `findIndex` by id and the comment append. */
module Posts {
  import opened Text

  datatype Option<T> = None | Some(value: T)

  /** A reply; its id is the creation time in milliseconds. */
  datatype Comment = Comment(id: int, name: string, text: string, timestamp: string)

  /** A published entry; its id is the creation time in milliseconds and its
      comments are kept in the order they were added. */
  datatype Post = Post(id: int, username: string, content: string, timestamp: string, comments: seq<Comment>)

  /** A text field as the handlers store it: non-empty and trimmed. */
  predicate StoredText(s: string) {
    s != [] && Trimmed(s)
  }

  predicate CommentWellFormed(c: Comment) {
    StoredText(c.name) && StoredText(c.text)
  }

  predicate PostWellFormed(p: Post) {
    StoredText(p.username) && StoredText(p.content) && forall c <- p.comments :: CommentWellFormed(c)
  }

  /** Every stored post and comment has a non-empty, trimmed name and text. */
  predicate WellFormed(posts: seq<Post>) {
    forall p <- posts :: PostWellFormed(p)
  }

  /** Newest first: ids (creation times) strictly decrease along the collection,
      which also makes them unique. */
  ghost predicate NewestFirst(posts: seq<Post>) {
    forall i, j :: 0 <= i < j < |posts| ==> posts[i].id > posts[j].id
  }

  /** No post in the collection carries this id. */
  predicate Absent(posts: seq<Post>, postId: int) {
    forall p <- posts :: p.id != postId
  }

  /** Post k is the first one whose id is postId. */
  predicate FirstWithId(posts: seq<Post>, k: int, postId: int) {
    0 <= k < |posts| && posts[k].id == postId && forall j :: 0 <= j < k ==> posts[j].id != postId
  }

  /** `a` is `b` with some elements left out, the rest in their original order. */
  ghost predicate IsSubsequence<T>(a: seq<T>, b: seq<T>)
    decreases |b|
  {
    if a == [] then true
    else if b == [] then false
    else if a[0] == b[0] then IsSubsequence(a[1..], b[1..])
    else IsSubsequence(a, b[1..])
  }

  /** The submit handler's validation and record construction: the content
      field is trimmed and rejected when blank; the username field is trimmed
      and defaults to "Anonymous"; the new post has no comments. */
  function ComposePost(id: int, usernameField: string, editorField: string, timestamp: string): (r: Option<Post>)
    ensures r.None? <==> Blank(editorField)
    ensures r.Some? ==> PostWellFormed(r.value) && r.value.comments == []
    ensures r.Some? ==> r.value.id == id && r.value.timestamp == timestamp
    ensures r.Some? ==> r.value.content == Trim(editorField) && r.value.username == NameOrAnonymous(usernameField)
  {
    var content := Trim(editorField);
    if content == [] then None
    else Some(Post(id, NameOrAnonymous(usernameField), content, timestamp, []))
  }

  /** The post-comment handler's validation and record construction: the text
      is trimmed and rejected when blank; the name defaults to "Anonymous". */
  function ComposeComment(id: int, nameField: string, textField: string, timestamp: string): (r: Option<Comment>)
    ensures r.None? <==> Blank(textField)
    ensures r.Some? ==> CommentWellFormed(r.value)
    ensures r.Some? ==> r.value.id == id && r.value.timestamp == timestamp
    ensures r.Some? ==> r.value.text == Trim(textField) && r.value.name == NameOrAnonymous(nameField)
  {
    var text := Trim(textField);
    if text == [] then None
    else Some(Comment(id, NameOrAnonymous(nameField), text, timestamp))
  }

  /** `posts.filter(post => post.id !== postId)`: exactly the posts whose id
      differs, each as often as before, in their original relative order. */
  function WithoutId(posts: seq<Post>, postId: int): (r: seq<Post>)
    ensures Absent(r, postId)
    ensures forall p :: multiset(r)[p] == if p.id == postId then 0 else multiset(posts)[p]
    ensures IsSubsequence(r, posts)
  {
    if posts == [] then []
    else
      var rest := WithoutId(posts[1..], postId);
      assert posts == [posts[0]] + posts[1..];
      if posts[0].id != postId then
        assert ([posts[0]] + rest)[1..] == rest;
        [posts[0]] + rest
      else
        assert rest != [] ==> rest[0] != posts[0] by {
          if rest != [] { assert rest[0] in rest; }
        }
        rest
  }

  /** `posts.findIndex(post => post.id === postId)`: the index of the first
      post with that id, or -1 when there is none. */
  function FindIndex(posts: seq<Post>, postId: int): (i: int)
    ensures -1 <= i < |posts|
    ensures i == -1 <==> Absent(posts, postId)
    ensures i != -1 ==> FirstWithId(posts, i, postId)
  {
    if posts == [] then -1
    else if posts[0].id == postId then 0
    else
      var j := FindIndex(posts[1..], postId);
      assert Absent(posts[1..], postId) ==> Absent(posts, postId) by {
        assert posts == [posts[0]] + posts[1..];
      }
      if j == -1 then -1 else j + 1
  }

  /** The state effect of the post-comment handler once the comment is built:
      the first post with that id gains the comment at the end of its list;
      every other post, and every other field, is unchanged. Without such a
      post nothing changes. */
  function AppendComment(posts: seq<Post>, postId: int, c: Comment): (r: seq<Post>)
    ensures |r| == |posts|
    ensures Absent(posts, postId) ==> r == posts
    ensures forall k :: 0 <= k < |posts| ==>
      r[k] == if FirstWithId(posts, k, postId) then posts[k].(comments := posts[k].comments + [c]) else posts[k]
  {
    var i := FindIndex(posts, postId);
    if i == -1 then posts
    else posts[i := posts[i].(comments := posts[i].comments + [c])]
  }

  /** Deleting an id that no post carries leaves the collection unchanged. */
  lemma {:induction false} WithoutAbsentId(posts: seq<Post>, postId: int)
    requires Absent(posts, postId)
    ensures WithoutId(posts, postId) == posts
  {
    if posts != [] {
      assert posts[0] in posts;
      assert Absent(posts[1..], postId) by {
        forall p | p in posts[1..] ensures p.id != postId {
          assert p in posts;
        }
      }
      WithoutAbsentId(posts[1..], postId);
      assert posts == [posts[0]] + posts[1..];
    }
  }

  /** Deleting the same id twice is deleting it once. */
  lemma WithoutIdIdempotent(posts: seq<Post>, postId: int)
    ensures WithoutId(WithoutId(posts, postId), postId) == WithoutId(posts, postId)
  {
    WithoutAbsentId(WithoutId(posts, postId), postId);
  }

  /** Deleting a freshly created post restores the collection it was added to,
      provided its id was not already in use. */
  lemma DeleteUndoesCreate(posts: seq<Post>, p: Post)
    requires Absent(posts, p.id)
    ensures WithoutId([p] + posts, p.id) == posts
  {
    assert ([p] + posts)[1..] == posts;
    WithoutAbsentId(posts, p.id);
  }

  /** A post whose id is newer than every stored one keeps the collection
      newest first when put at the front. */
  lemma CreateKeepsNewestFirst(posts: seq<Post>, p: Post)
    requires NewestFirst(posts)
    requires forall q <- posts :: q.id < p.id
    ensures NewestFirst([p] + posts)
  {
    forall i, j | 0 <= i < j < |[p] + posts| ensures ([p] + posts)[i].id > ([p] + posts)[j].id {
      if i == 0 { assert posts[j - 1] in posts; }
    }
  }

  /** A well-formed post put at the front keeps the collection well formed. */
  lemma CreateKeepsWellFormed(posts: seq<Post>, p: Post)
    requires WellFormed(posts) && PostWellFormed(p)
    ensures WellFormed([p] + posts)
  {
  }

  /** Deletion keeps the collection newest first. */
  lemma {:induction false} WithoutIdKeepsNewestFirst(posts: seq<Post>, postId: int)
    requires NewestFirst(posts)
    ensures NewestFirst(WithoutId(posts, postId))
  {
    if posts != [] {
      var rest := WithoutId(posts[1..], postId);
      WithoutIdKeepsNewestFirst(posts[1..], postId);
      if posts[0].id != postId {
        forall q | q in rest ensures q.id < posts[0].id {
          assert multiset(rest)[q] > 0;
          assert q in posts[1..];
          var k :| 0 <= k < |posts[1..]| && posts[1..][k] == q;
          assert posts[k + 1] == q;
        }
        CreateKeepsNewestFirst(rest, posts[0]);
      }
    }
  }

  /** Deletion keeps the collection well formed. */
  lemma WithoutIdKeepsWellFormed(posts: seq<Post>, postId: int)
    requires WellFormed(posts)
    ensures WellFormed(WithoutId(posts, postId))
  {
    var r := WithoutId(posts, postId);
    forall p | p in r ensures PostWellFormed(p) {
      assert multiset(r)[p] > 0;
    }
  }

  /** Adding a comment changes no id, so the collection stays newest first. */
  lemma AppendCommentKeepsNewestFirst(posts: seq<Post>, postId: int, c: Comment)
    requires NewestFirst(posts)
    ensures NewestFirst(AppendComment(posts, postId, c))
  {
    var r := AppendComment(posts, postId, c);
    forall i, j | 0 <= i < j < |r| ensures r[i].id > r[j].id {
      assert r[i].id == posts[i].id && r[j].id == posts[j].id;
    }
  }

  /** Adding a well-formed comment keeps the collection well formed. */
  lemma AppendCommentKeepsWellFormed(posts: seq<Post>, postId: int, c: Comment)
    requires WellFormed(posts) && CommentWellFormed(c)
    ensures WellFormed(AppendComment(posts, postId, c))
  {
    var r := AppendComment(posts, postId, c);
    forall p | p in r ensures PostWellFormed(p) {
      var k :| 0 <= k < |r| && r[k] == p;
      assert posts[k] in posts;
    }
  }
}
