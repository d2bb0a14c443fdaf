/**
 * The views of `posts/views.py` that carry rules: who may follow whom, what
 * the follow feed holds, who may edit a post, and whose name a new post or
 * comment carries. Each mutating view keeps `Store.Valid()`, so no sequence of
 * requests creates a duplicate or a self-directed follow edge.
 */
module PostsViews {
  import opened Optional
  import opened Models

  /**
   * The cleaned fields of a submitted `PostForm`: `text` is the value after the
   * form field strips surrounding whitespace, which is what the required check
   * tests and what `form.save()` writes. `checked` stands for the validation
   * other than the required text.
   */
  datatype PostForm = PostForm(text: string, group: Option<nat>, image: Option<string>, checked: bool)

  /** The cleaned field of a submitted `CommentForm`, with `text` and `checked` as above. */
  datatype CommentForm = CommentForm(text: string, checked: bool)

  /** `form.is_valid()`: a bound form (None is an unbound one) whose text is not empty. */
  predicate PostFormValid(data: Option<PostForm>) {
    data.Some? && data.value.checked && data.value.text != ""
  }

  predicate CommentFormValid(data: Option<CommentForm>) {
    data.Some? && data.value.checked && data.value.text != ""
  }

  /** `request.user == post.author`; the anonymous user is nobody's author. */
  predicate IsAuthor(req: Requester, p: Post) {
    req.Authenticated? && req.user.pk == p.author
  }

  /** The post after `form.save()` on the instance: an image is replaced only when one is uploaded. */
  function Edited(p: Post, f: PostForm): (r: Post)
    ensures r.pk == p.pk && r.author == p.author
    ensures r.text == f.text && r.group == f.group
    ensures r.image == if f.image.Some? then f.image else p.image
  {
    p.(text := f.text, group := f.group, image := if f.image.Some? then f.image else p.image)
  }

  // ---------------------------------------------------------------------------
  // Read-only queries
  // ---------------------------------------------------------------------------

  /** `is_following(user, author)`. */
  function IsFollowing(follows: seq<Follow>, req: Requester, author: User): (r: bool)
    ensures r <==> req.Authenticated? && Follow(req.user.pk, author.pk) in follows
  {
    if req.Authenticated? then |Matching(follows, Follow(req.user.pk, author.pk))| > 0 else false
  }

  /** `Post.objects.filter(author__following__user=user)`, in table order. */
  function FollowFeed(posts: seq<Post>, follows: seq<Follow>, user: UserId): (r: seq<Post>)
    ensures forall p :: multiset(r)[p] == if Follow(user, p.author) in follows then multiset(posts)[p] else 0
    ensures forall p :: p in r <==> p in posts && Follow(user, p.author) in follows
  {
    if posts == [] then []
    else
      assert posts == [posts[0]] + posts[1..];
      (if Follow(user, posts[0].author) in follows then [posts[0]] else []) + FollowFeed(posts[1..], follows, user)
  }

  /** `follow_index`: None when `@login_required` redirects to the login page. */
  function FollowIndex(posts: seq<Post>, follows: seq<Follow>, req: Requester): (r: Option<seq<Post>>)
    ensures r.None? <==> req.Anonymous?
    ensures r.Some? ==> forall p :: p in r.value <==> p in posts && Follow(req.user.pk, p.author) in follows
  {
    if req.Anonymous? then None else Some(FollowFeed(posts, follows, req.user.pk))
  }

  /** A user who follows nobody gets an empty feed. */
  lemma FeedEmptyWithoutFollows(posts: seq<Post>, follows: seq<Follow>, user: UserId)
    requires forall f :: f in follows ==> f.user != user
    ensures FollowFeed(posts, follows, user) == []
  {
  }

  /** The feed of `user` depends only on the edges that start at `user`. */
  lemma {:induction false} FeedDependsOnOwnEdges(posts: seq<Post>, f1: seq<Follow>, f2: seq<Follow>, user: UserId)
    requires forall a :: Follow(user, a) in f1 <==> Follow(user, a) in f2
    ensures FollowFeed(posts, f1, user) == FollowFeed(posts, f2, user)
  {
    if posts != [] {
      FeedDependsOnOwnEdges(posts[1..], f1, f2, user);
    }
  }

  /** Another user's follow or unfollow never changes this user's feed. */
  lemma {:induction false} FeedIgnoresOthers(posts: seq<Post>, follows: seq<Follow>, e: Follow, user: UserId)
    requires e.user != user
    ensures FollowFeed(posts, GetOrCreate(follows, e), user) == FollowFeed(posts, follows, user)
    ensures FollowFeed(posts, Without(follows, e), user) == FollowFeed(posts, follows, user)
  {
    FeedDependsOnOwnEdges(posts, GetOrCreate(follows, e), follows, user);
    FeedDependsOnOwnEdges(posts, Without(follows, e), follows, user);
  }

  /** After following `author`, every post of `author` is in the follower's feed; after unfollowing, none is. */
  lemma FeedAfterFollow(posts: seq<Post>, follows: seq<Follow>, user: UserId, author: UserId)
    ensures forall p :: p in posts && p.author == author ==> p in FollowFeed(posts, GetOrCreate(follows, Follow(user, author)), user)
    ensures forall p :: p in posts && p.author == author ==> p !in FollowFeed(posts, Without(follows, Follow(user, author)), user)
  {
  }

  // ---------------------------------------------------------------------------
  // Views that change the tables
  // ---------------------------------------------------------------------------

  lemma PostPksGrow(posts: seq<Post>, p: Post)
    ensures PostPks(posts + [p]) == PostPks(posts) + {p.pk}
  {
    assert forall q :: q in posts + [p] <==> q in posts || q == p;
  }

  lemma PostPksKept(posts: seq<Post>, i: nat, p: Post)
    requires i < |posts| && p.pk == posts[i].pk
    ensures PostPks(posts[i := p]) == PostPks(posts)
  {
    forall k | k in PostPks(posts) ensures k in PostPks(posts[i := p]) {
      var q :| q in posts && q.pk == k;
      var j :| 0 <= j < |posts| && posts[j] == q;
      assert posts[i := p][j].pk == k;
    }
  }

  /** `new_post`: a valid submission becomes a post whose author is the requester. */
  method NewPost(db: Store, req: Requester, isPost: bool, data: Option<PostForm>) returns (outcome: Outcome)
    requires db.Valid() && db.Registered(req)
    modifies db
    ensures db.Valid()
    ensures outcome == if req.Anonymous? then LoginRedirect
                       else if isPost && PostFormValid(data) then Redirect
                       else Render
    ensures db.posts == if outcome == Redirect
                        then old(db.posts) + [Post(old(db.nextPostPk), req.user.pk, data.value.text, data.value.group, data.value.image)]
                        else old(db.posts)
    ensures db.nextPostPk == if outcome == Redirect then old(db.nextPostPk) + 1 else old(db.nextPostPk)
    ensures db.users == old(db.users) && db.comments == old(db.comments) && db.follows == old(db.follows)
    ensures db.nextCommentPk == old(db.nextCommentPk)
  {
    if req.Anonymous? {
      return LoginRedirect;
    }
    if !isPost || !PostFormValid(data) {
      return Render;
    }
    var post := Post(db.nextPostPk, req.user.pk, data.value.text, data.value.group, data.value.image);
    UserPkIn(db.users, req.user);
    PostPksGrow(db.posts, post);
    db.posts := db.posts + [post];
    db.nextPostPk := db.nextPostPk + 1;
    outcome := Redirect;
  }

  /** `post_edit`: only the post's author changes it, and only with a valid form. */
  method PostEdit(db: Store, req: Requester, username: string, postId: PostId, data: Option<PostForm>)
    returns (outcome: Outcome)
    requires db.Valid() && db.Registered(req)
    modifies db
    ensures db.Valid()
    ensures match FindPost(old(db.posts), db.users, username, postId)
      case None => outcome == NotFound && db.posts == old(db.posts)
      case Some(i) =>
        if !IsAuthor(req, old(db.posts)[i]) then outcome == Redirect && db.posts == old(db.posts)
        else if PostFormValid(data) then outcome == Redirect && db.posts == old(db.posts)[i := Edited(old(db.posts)[i], data.value)]
        else outcome == Render && db.posts == old(db.posts)
    ensures db.users == old(db.users) && db.comments == old(db.comments) && db.follows == old(db.follows)
    ensures db.nextPostPk == old(db.nextPostPk) && db.nextCommentPk == old(db.nextCommentPk)
  {
    var found := FindPost(db.posts, db.users, username, postId);
    if found.None? {
      return NotFound;
    }
    var i := found.value;
    if !IsAuthor(req, db.posts[i]) {
      return Redirect;
    }
    if !PostFormValid(data) {
      return Render;
    }
    var edited := Edited(db.posts[i], data.value);
    PostPksKept(db.posts, i, edited);
    db.posts := db.posts[i := edited];
    outcome := Redirect;
  }

  /** `add_comment`: a valid comment is attached to the post, with the requester as its author. */
  method AddComment(db: Store, req: Requester, username: string, postId: PostId, data: Option<CommentForm>)
    returns (outcome: Outcome)
    requires db.Valid() && db.Registered(req)
    modifies db
    ensures db.Valid()
    ensures var found := FindPost(db.posts, db.users, username, postId);
      && outcome == (if req.Anonymous? then LoginRedirect
                     else if data.None? then Redirect
                     else if found.None? then NotFound
                     else if CommentFormValid(data) then Redirect
                     else Render)
      && db.comments == (if outcome == Redirect && data.Some?
                         then old(db.comments) + [Comment(old(db.nextCommentPk), db.posts[found.value].pk, req.user.pk, data.value.text)]
                         else old(db.comments))
      && db.nextCommentPk == (if db.comments == old(db.comments) then old(db.nextCommentPk) else old(db.nextCommentPk) + 1)
    ensures db.users == old(db.users) && db.posts == old(db.posts) && db.follows == old(db.follows)
    ensures db.nextPostPk == old(db.nextPostPk)
  {
    if req.Anonymous? {
      return LoginRedirect;
    }
    if data.None? {
      return Redirect;
    }
    var found := FindPost(db.posts, db.users, username, postId);
    if found.None? {
      return NotFound;
    }
    if !CommentFormValid(data) {
      return Render;
    }
    var comment := Comment(db.nextCommentPk, db.posts[found.value].pk, req.user.pk, data.value.text);
    UserPkIn(db.users, req.user);
    assert db.posts[found.value] in db.posts;
    db.comments := db.comments + [comment];
    db.nextCommentPk := db.nextCommentPk + 1;
    outcome := Redirect;
  }

  /** `profile_follow`: adds the edge requester -> author unless the username is the requester's own. */
  method ProfileFollow(db: Store, req: Requester, username: string) returns (outcome: Outcome)
    requires db.Valid() && db.Registered(req)
    modifies db
    ensures db.Valid()
    ensures outcome == if req.Anonymous? then LoginRedirect
                       else if FindUser(db.users, username).None? then NotFound
                       else Redirect
    ensures db.follows == if outcome == Redirect && username != req.user.username
                          then GetOrCreate(old(db.follows), Follow(req.user.pk, FindUser(db.users, username).value.pk))
                          else old(db.follows)
    ensures outcome == Redirect && username != req.user.username ==>
      var e := Follow(req.user.pk, FindUser(db.users, username).value.pk);
      && multiset(db.follows)[e] == 1
      && forall x :: x != e ==> multiset(db.follows)[x] == multiset(old(db.follows))[x]
    ensures db.users == old(db.users) && db.posts == old(db.posts) && db.comments == old(db.comments)
    ensures db.nextPostPk == old(db.nextPostPk) && db.nextCommentPk == old(db.nextCommentPk)
  {
    if req.Anonymous? {
      return LoginRedirect;
    }
    var follower := req.user;
    var following := FindUser(db.users, username);
    if following.None? {
      return NotFound;
    }
    if username != follower.username {
      var e := Follow(follower.pk, following.value.pk);
      UserPkIn(db.users, follower);
      UserPkIn(db.users, following.value);
      FollowTwiceLeavesOne(db.follows, e);
      db.follows := GetOrCreate(db.follows, e);
    }
    outcome := Redirect;
  }

  /** `profile_unfollow`: deletes every requester -> author edge and no other. */
  method ProfileUnfollow(db: Store, req: Requester, username: string) returns (outcome: Outcome)
    requires db.Valid() && db.Registered(req)
    modifies db
    ensures db.Valid()
    ensures outcome == if req.Anonymous? then LoginRedirect
                       else if FindUser(db.users, username).None? then NotFound
                       else Redirect
    ensures db.follows == if outcome == Redirect
                          then Without(old(db.follows), Follow(req.user.pk, FindUser(db.users, username).value.pk))
                          else old(db.follows)
    ensures outcome == Redirect ==> Follow(req.user.pk, FindUser(db.users, username).value.pk) !in db.follows
    ensures db.users == old(db.users) && db.posts == old(db.posts) && db.comments == old(db.comments)
    ensures db.nextPostPk == old(db.nextPostPk) && db.nextCommentPk == old(db.nextCommentPk)
  {
    if req.Anonymous? {
      return LoginRedirect;
    }
    var follower := req.user;
    var following := FindUser(db.users, username);
    if following.None? {
      return NotFound;
    }
    WithoutKeepsNoDuplicates(db.follows, Follow(follower.pk, following.value.pk));
    db.follows := Without(db.follows, Follow(follower.pk, following.value.pk));
    outcome := Redirect;
  }
}
