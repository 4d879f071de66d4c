/** The posting app's application state: the in-memory `posts` array that the
    handlers mutate, and the snapshot of it kept in browser storage under the
    key "blogPosts". */
module Store {
  import opened Text
  import opened Posts

  /** What the post-comment handler did to the state. */
  datatype CommentOutcome = Added | EmptyText | PostNotFound

  class PostStore {
    /** The collection the handlers work on, newest first. */
    var posts: seq<Post>
    /** The stored snapshot: None while nothing has been saved. */
    var saved: Option<seq<Post>>

    /** Reloading the page shows exactly the current collection: the snapshot
        is the collection, or nothing is stored and the collection is empty.
        Every successful write re-establishes it; a rejected write leaves the
        collection ahead of the snapshot until the next successful one. */
    ghost predicate Valid()
      reads this
    {
      match saved
      case None => posts == []
      case Some(snapshot) => snapshot == posts
    }

    /** Start-up (`loadPosts`): the collection is the stored snapshot when
        there is one, and empty otherwise. */
    constructor Load(stored: Option<seq<Post>>)
      ensures Valid()
      ensures saved == stored
      ensures stored.None? ==> posts == []
      ensures stored.Some? ==> posts == stored.value
    {
      saved := stored;
      posts := if stored.Some? then stored.value else [];
    }

    /** `savePosts`: the snapshot is overwritten with the current collection.
        `storageAccepts` says whether `localStorage.setItem` succeeds; when it
        throws (storage full or disabled) the old snapshot stays in place. */
    method Save(storageAccepts: bool)
      modifies this`saved
      ensures saved == if storageAccepts then Some(posts) else old(saved)
      ensures storageAccepts ==> Valid()
    {
      if storageAccepts {
        saved := Some(posts);
      }
    }

    /** The submit handler. The id and the display timestamp stand for
        `Date.now()` and the formatted clock; a blank content field is rejected
        (the alert) with no state change. Otherwise the new post goes to the
        front, the older posts follow in order, and the snapshot is written
        (or, when storage rejects the write, the handler stops there with the
        collection already changed). */
    method CreatePost(usernameField: string, editorField: string, now: int, timestamp: string, storageAccepts: bool)
      returns (created: Option<Post>)
      modifies this
      ensures created.None? <==> Blank(editorField)
      ensures created.None? ==> posts == old(posts) && saved == old(saved)
      ensures created.Some? ==> posts == [created.value] + old(posts)
      ensures created.Some? ==> saved == if storageAccepts then Some(posts) else old(saved)
      ensures created.Some? ==> created.value.id == now && created.value.timestamp == timestamp && created.value.comments == []
      ensures created.Some? ==> created.value.content == Trim(editorField) && created.value.username == NameOrAnonymous(usernameField)
      ensures (created.Some? && storageAccepts) || (created.None? && old(Valid())) ==> Valid()
      ensures WellFormed(old(posts)) ==> WellFormed(posts)
      ensures NewestFirst(old(posts)) && (forall q <- old(posts) :: q.id < now) ==> NewestFirst(posts)
    {
      created := ComposePost(now, usernameField, editorField, timestamp);
      if created.None? {
        return;
      }
      var post := created.value;
      assert post.id == now;
      if WellFormed(posts) {
        CreateKeepsWellFormed(posts, post);
      }
      if NewestFirst(posts) && (forall q <- posts :: q.id < now) {
        CreateKeepsNewestFirst(posts, post);
      }
      posts := [post] + posts;
      Save(storageAccepts);
      assert posts == [post] + old(posts);
    }

    /** The delete branch of the click handler. `confirmed` is the user's
        answer to the confirmation prompt; on "cancel" nothing changes.
        Otherwise the collection keeps exactly the posts whose id differs
        (unchanged when none matches) and the snapshot is written, also when
        the id was absent. */
    method DeletePost(postId: int, confirmed: bool, storageAccepts: bool)
      modifies this
      ensures !confirmed ==> posts == old(posts) && saved == old(saved)
      ensures confirmed ==> posts == WithoutId(old(posts), postId)
      ensures confirmed ==> saved == if storageAccepts then Some(posts) else old(saved)
      ensures confirmed ==> Absent(posts, postId)
      ensures confirmed && Absent(old(posts), postId) ==> posts == old(posts)
      ensures (confirmed && storageAccepts) || (!confirmed && old(Valid())) ==> Valid()
      ensures WellFormed(old(posts)) ==> WellFormed(posts)
      ensures NewestFirst(old(posts)) ==> NewestFirst(posts)
    {
      if !confirmed {
        return;
      }
      if Absent(posts, postId) {
        WithoutAbsentId(posts, postId);
      }
      if WellFormed(posts) {
        WithoutIdKeepsWellFormed(posts, postId);
      }
      if NewestFirst(posts) {
        WithoutIdKeepsNewestFirst(posts, postId);
      }
      posts := WithoutId(posts, postId);
      Save(storageAccepts);
    }

    /** The post-comment branch of the click handler. The id and the display
        timestamp stand for `Date.now()` and the formatted clock. A blank text
        is ignored; a post id no longer in the collection changes nothing and
        writes nothing. Otherwise the first post with that id gains the comment
        at the end of its list, nothing else changes, and the snapshot is
        written. */
    method AddComment(postId: int, nameField: string, textField: string, now: int, timestamp: string, storageAccepts: bool)
      returns (outcome: CommentOutcome)
      modifies this
      ensures outcome == EmptyText <==> Blank(textField)
      ensures outcome == PostNotFound <==> !Blank(textField) && Absent(old(posts), postId)
      ensures outcome != Added ==> posts == old(posts) && saved == old(saved)
      ensures outcome == Added ==> saved == if storageAccepts then Some(posts) else old(saved)
      ensures outcome == Added ==>
        posts == AppendComment(old(posts), postId, Comment(now, NameOrAnonymous(nameField), Trim(textField), timestamp))
      ensures (outcome == Added && storageAccepts) || (outcome != Added && old(Valid())) ==> Valid()
      ensures WellFormed(old(posts)) ==> WellFormed(posts)
      ensures NewestFirst(old(posts)) ==> NewestFirst(posts)
    {
      var composed := ComposeComment(now, nameField, textField, timestamp);
      if composed.None? {
        return EmptyText;
      }
      var comment := composed.value;
      var postIndex := FindIndex(posts, postId);
      if postIndex == -1 {
        return PostNotFound;
      }
      if WellFormed(posts) {
        AppendCommentKeepsWellFormed(posts, postId, comment);
      }
      if NewestFirst(posts) {
        AppendCommentKeepsNewestFirst(posts, postId, comment);
      }
      var post := posts[postIndex];
      posts := posts[postIndex := post.(comments := post.comments + [comment])];
      Save(storageAccepts);
      outcome := Added;
    }
  }

  /** Start-up with nothing stored, then three submissions: a blank name
      becomes "Anonymous", whitespace-only content is rejected, and the
      newer post comes first. */
  method CreateSession(hello: string, blank: string, hi: string)
    requires StoredText(hello) && StoredText(hi) && Blank(blank)
  {
    var store := new PostStore.Load(None);
    TrimOfTrimmed(hello);
    TrimOfTrimmed(hi);
    var first := store.CreatePost("", hello, 1, "9:00 AM", true);
    assert first == Some(Post(1, Anonymous, hello, "9:00 AM", []));
    var rejected := store.CreatePost("Ali", blank, 2, "9:01 AM", true);
    assert rejected == None;
    var second := store.CreatePost("Sara", hi, 3, "9:02 AM", true);
    assert store.posts == [second.value, first.value];
  }

  /** A comment with a blank name on a stored post is appended under
      "Anonymous"; one on a deleted post changes nothing. */
  method CommentSession(post: Post, nice: string)
    requires post.comments == [] && StoredText(nice)
  {
    var store := new PostStore.Load(Some([post]));
    TrimOfTrimmed(nice);
    assert FirstWithId(store.posts, 0, post.id);
    var outcome := store.AddComment(post.id, "", nice, 4, "9:03 AM", true);
    assert outcome == Added;
    assert store.posts[0].comments == [Comment(4, Anonymous, nice, "9:03 AM")];
    store.DeletePost(post.id, true, true);
    assert store.posts == [];
    outcome := store.AddComment(post.id, "", nice, 5, "9:04 AM", true);
    assert outcome == PostNotFound;
  }

  /** A deleted post does not come back when the page is reloaded. */
  method ReloadSession(stored: Option<seq<Post>>, postId: int) {
    var store := new PostStore.Load(stored);
    store.DeletePost(postId, true, true);
    var reloaded := new PostStore.Load(store.saved);
    assert Absent(reloaded.posts, postId);
  }

  /** When storage rejects the write, the new post is in the collection but a
      reload shows the collection as it was before; the next successful write
      stores the whole collection, that post included. */
  method FailedSaveSession(stored: Option<seq<Post>>, hello: string, hi: string)
    requires StoredText(hello) && StoredText(hi)
  {
    var store := new PostStore.Load(stored);
    var before := store.posts;
    var first := store.CreatePost("", hello, 1, "9:00 AM", false);
    assert store.posts == [first.value] + before;
    var reloaded := new PostStore.Load(store.saved);
    assert reloaded.posts == before;
    var second := store.CreatePost("", hi, 2, "9:01 AM", true);
    reloaded := new PostStore.Load(store.saved);
    assert reloaded.posts == [second.value, first.value] + before;
  }
}
