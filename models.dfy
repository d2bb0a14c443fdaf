/**
 * The persisted rows the views read and write (users, posts, comments and
 * follow edges), the queryset operations the views apply to them, and the
 * `Store` that holds the four tables.
 *
 * A row that refers to another row holds its primary key. The views compare
 * users by primary key, as Django's model equality does.
 */
module Models {
  import opened Optional

  type UserId = nat
  type PostId = nat

  datatype User = User(pk: UserId, username: string)

  datatype Post = Post(pk: PostId, author: UserId, text: string, group: Option<nat>, image: Option<string>)

  datatype Comment = Comment(pk: nat, post: PostId, author: UserId, text: string)

  /** A directed follow edge: `user` reads the feed of `author`. */
  datatype Follow = Follow(user: UserId, author: UserId)

  /** The `request.user` of a view: the anonymous user or a signed-in one. */
  datatype Requester = Anonymous | Authenticated(user: User)

  /** How a view ends, with the templates and URLs left out. */
  datatype Outcome =
    | LoginRedirect   // `@login_required` sent an anonymous requester to the login page
    | NotFound        // `get_object_or_404` found no row
    | Redirect        // the view redirected
    | Render          // the view rendered a page (a form to fill in or to correct)

  ghost predicate NoDuplicates<T>(s: seq<T>) {
    forall i, j :: 0 <= i < j < |s| ==> s[i] != s[j]
  }

  lemma {:induction false} NoDuplicatesCount<T>(s: seq<T>, x: T)
    requires NoDuplicates(s)
    ensures multiset(s)[x] == if x in s then 1 else 0
  {
    if s != [] {
      assert s == [s[0]] + s[1..];
      assert NoDuplicates(s[1..]) by {
        forall i, j | 0 <= i < j < |s[1..]| ensures s[1..][i] != s[1..][j] {
          assert s[1..][i] == s[i + 1] && s[1..][j] == s[j + 1];
        }
      }
      NoDuplicatesCount(s[1..], x);
      if x == s[0] {
        assert x !in s[1..] by {
          forall k | 0 <= k < |s[1..]| ensures s[1..][k] != x {
            assert s[1..][k] == s[k + 1];
          }
        }
      }
    }
  }

  // ---------------------------------------------------------------------------
  // Lookups and querysets
  // ---------------------------------------------------------------------------

  /** `get_object_or_404(User, username=username)`, with None for the 404. */
  function FindUser(users: seq<User>, username: string): (r: Option<User>)
    ensures r.Some? ==> r.value in users && r.value.username == username
    ensures r.None? <==> forall u :: u in users ==> u.username != username
  {
    if users == [] then None
    else if users[0].username == username then Some(users[0])
    else FindUser(users[1..], username)
  }

  /**
   * `get_object_or_404(Post, author__username=username, pk=post_id)`: the
   * position of the post with that key whose author has that username.
   */
  function FindPost(posts: seq<Post>, users: seq<User>, username: string, postId: PostId): (r: Option<nat>)
    ensures r.Some? ==>
      r.value < |posts| && posts[r.value].pk == postId && User(posts[r.value].author, username) in users
    ensures r.None? <==> forall p :: p in posts ==> !(p.pk == postId && User(p.author, username) in users)
  {
    if posts == [] then None
    else if posts[0].pk == postId && User(posts[0].author, username) in users then Some(0)
    else
      match FindPost(posts[1..], users, username, postId)
      case None => None
      case Some(i) => Some(i + 1)
  }

  /** `Follow.objects.filter(user=e.user, author=e.author)`: every edge equal to `e`. */
  function Matching(follows: seq<Follow>, e: Follow): (r: seq<Follow>)
    ensures forall x :: x in r ==> x == e
    ensures |r| == multiset(follows)[e]
    ensures |r| > 0 <==> e in follows
  {
    if follows == [] then []
    else
      assert follows == [follows[0]] + follows[1..];
      (if follows[0] == e then [e] else []) + Matching(follows[1..], e)
  }

  /** The follow table after `.delete()` of the edges equal to `e`. */
  function Without(follows: seq<Follow>, e: Follow): (r: seq<Follow>)
    ensures multiset(r) == multiset(follows)[e := 0]
    ensures forall x :: x in r <==> x in follows && x != e
    ensures e !in follows ==> r == follows
  {
    if follows == [] then []
    else
      assert follows == [follows[0]] + follows[1..];
      (if follows[0] == e then [] else [follows[0]]) + Without(follows[1..], e)
  }

  /** Deleting edges keeps a duplicate-free table duplicate-free. */
  lemma {:induction false} WithoutKeepsNoDuplicates(follows: seq<Follow>, e: Follow)
    requires NoDuplicates(follows)
    ensures NoDuplicates(Without(follows, e))
  {
    if follows != [] {
      var tail := follows[1..];
      assert NoDuplicates(tail) by {
        forall i, j | 0 <= i < j < |tail| ensures tail[i] != tail[j] {
          assert tail[i] == follows[i + 1] && tail[j] == follows[j + 1];
        }
      }
      WithoutKeepsNoDuplicates(tail, e);
      if follows[0] != e {
        assert follows[0] !in Without(tail, e);
        var r := Without(follows, e);
        assert r == [follows[0]] + Without(tail, e);
      }
    }
  }

  /** The follow table after `Follow.objects.get_or_create(...)` for the edge `e`. */
  function GetOrCreate(follows: seq<Follow>, e: Follow): (r: seq<Follow>)
    ensures e in r
    ensures forall x :: x in r <==> x in follows || x == e
    ensures forall x :: x != e ==> multiset(r)[x] == multiset(follows)[x]
  {
    if e in follows then follows else follows + [e]
  }

  /** Calling the follow twice leaves exactly one copy of the edge, and every other edge as it was. */
  lemma FollowTwiceLeavesOne(follows: seq<Follow>, e: Follow)
    requires NoDuplicates(follows)
    ensures GetOrCreate(GetOrCreate(follows, e), e) == GetOrCreate(follows, e)
    ensures NoDuplicates(GetOrCreate(follows, e))
    ensures multiset(GetOrCreate(follows, e))[e] == 1
  {
    if e !in follows {
      AppendKeepsNoDuplicates(follows, e);
    }
    NoDuplicatesCount(GetOrCreate(follows, e), e);
  }

  lemma AppendKeepsNoDuplicates<T>(s: seq<T>, x: T)
    requires NoDuplicates(s) && x !in s
    ensures NoDuplicates(s + [x])
  {
    var r := s + [x];
    forall i, j | 0 <= i < j < |r| ensures r[i] != r[j] {
      if j == |s| {
        assert r[i] == s[i];
      }
    }
  }

  /** Following an author the user did not follow, then unfollowing, restores the table. */
  lemma {:induction false} FollowThenUnfollow(follows: seq<Follow>, e: Follow)
    requires e !in follows
    ensures Without(GetOrCreate(follows, e), e) == follows
  {
    if follows == [] {
      assert GetOrCreate(follows, e) == [e];
    } else {
      assert GetOrCreate(follows, e) == [follows[0]] + GetOrCreate(follows[1..], e);
      FollowThenUnfollow(follows[1..], e);
    }
  }

  /** Unfollowing twice has the effect of unfollowing once. */
  lemma UnfollowIdempotent(follows: seq<Follow>, e: Follow)
    ensures Without(Without(follows, e), e) == Without(follows, e)
  {
  }

  // ---------------------------------------------------------------------------
  // The tables and their invariant
  // ---------------------------------------------------------------------------

  function UserPks(users: seq<User>): (r: set<UserId>) {
    set u | u in users :: u.pk
  }

  function PostPks(posts: seq<Post>): (r: set<PostId>) {
    set p | p in posts :: p.pk
  }

  lemma UserPkIn(users: seq<User>, u: User)
    requires u in users
    ensures u.pk in UserPks(users)
  {
  }

  /** Primary keys and usernames are unique. */
  ghost predicate UsersValid(users: seq<User>) {
    forall i, j :: 0 <= i < j < |users| ==> users[i].pk != users[j].pk && users[i].username != users[j].username
  }

  /** At most one edge per pair, no user follows themself, and both ends are users. */
  ghost predicate FollowsValid(follows: seq<Follow>, users: seq<User>) {
    && NoDuplicates(follows)
    && forall f :: f in follows ==> f.user != f.author && f.user in UserPks(users) && f.author in UserPks(users)
  }

  ghost predicate PostsValid(posts: seq<Post>, users: seq<User>, nextPk: PostId) {
    && (forall i, j :: 0 <= i < j < |posts| ==> posts[i].pk != posts[j].pk)
    && forall p :: p in posts ==> p.pk < nextPk && p.author in UserPks(users) && p.text != ""
  }

  ghost predicate CommentsValid(comments: seq<Comment>, posts: seq<Post>, users: seq<User>, nextPk: nat) {
    && (forall i, j :: 0 <= i < j < |comments| ==> comments[i].pk != comments[j].pk)
    && forall c :: c in comments ==>
         c.pk < nextPk && c.post in PostPks(posts) && c.author in UserPks(users) && c.text != ""
  }

  /** The database: the four tables and the primary keys the next rows get. */
  class Store {
    var users: seq<User>
    var posts: seq<Post>
    var comments: seq<Comment>
    var follows: seq<Follow>
    var nextPostPk: PostId
    var nextCommentPk: nat

    ghost predicate Valid()
      reads this
    {
      && UsersValid(users)
      && FollowsValid(follows, users)
      && PostsValid(posts, users, nextPostPk)
      && CommentsValid(comments, posts, users, nextCommentPk)
    }

    /** A signed-in requester is a row of the user table. */
    ghost predicate Registered(req: Requester)
      reads this
    {
      req.Authenticated? ==> req.user in users
    }

    constructor (users: seq<User>)
      requires UsersValid(users)
      ensures Valid()
      ensures this.users == users && posts == [] && comments == [] && follows == []
    {
      this.users := users;
      posts, comments, follows := [], [], [];
      nextPostPk, nextCommentPk := 1, 1;
    }
  }
}
