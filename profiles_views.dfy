/**
 * `profiles/views.py`: a second version of the follow and unfollow views,
 * which asks the follow table whether the edge exists and creates it only
 * when it does not.
 */
module ProfilesViews {
  import opened Models

  /** `profile_follow`: query the edge requester -> author, then create it if absent and not self-directed. */
  method ProfileFollow(db: Store, req: Requester, username: string) returns (outcome: Outcome)
    requires db.Valid() && db.Registered(req)
    modifies db
    ensures db.Valid()
    ensures outcome == if req.Anonymous? then LoginRedirect
                       else if FindUser(db.users, username).None? then NotFound
                       else Redirect
    ensures outcome == Redirect ==>
      var e := Follow(req.user.pk, FindUser(db.users, username).value.pk);
      && (username != req.user.username ==> e in db.follows)
      && db.follows == if username != req.user.username && e !in old(db.follows)
                       then old(db.follows) + [e]
                       else old(db.follows)
    ensures outcome != Redirect ==> db.follows == old(db.follows)
    ensures db.users == old(db.users) && db.posts == old(db.posts) && db.comments == old(db.comments)
    ensures db.nextPostPk == old(db.nextPostPk) && db.nextCommentPk == old(db.nextCommentPk)
  {
    if req.Anonymous? {
      return LoginRedirect;
    }
    var follower := req.user;
    var following := FindUser(db.users, username);
    if following.None? {
      return NotFound;
    }
    var e := Follow(follower.pk, following.value.pk);
    var existing := Matching(db.follows, e);
    if username != follower.username && |existing| == 0 {
      UserPkIn(db.users, follower);
      UserPkIn(db.users, following.value);
      AppendKeepsNoDuplicates(db.follows, e);
      db.follows := db.follows + [e];
    }
    outcome := Redirect;
  }

  /** `profile_unfollow`: query the edges requester -> author and delete them all. */
  method ProfileUnfollow(db: Store, req: Requester, username: string) returns (outcome: Outcome)
    requires db.Valid() && db.Registered(req)
    modifies db
    ensures db.Valid()
    ensures outcome == if req.Anonymous? then LoginRedirect
                       else if FindUser(db.users, username).None? then NotFound
                       else Redirect
    ensures outcome == Redirect ==>
      var e := Follow(req.user.pk, FindUser(db.users, username).value.pk);
      && e !in db.follows
      && multiset(db.follows) == multiset(old(db.follows))[e := 0]
      && (e !in old(db.follows) ==> db.follows == old(db.follows))
    ensures outcome != Redirect ==> db.follows == old(db.follows)
    ensures db.users == old(db.users) && db.posts == old(db.posts) && db.comments == old(db.comments)
    ensures db.nextPostPk == old(db.nextPostPk) && db.nextCommentPk == old(db.nextCommentPk)
  {
    if req.Anonymous? {
      return LoginRedirect;
    }
    var follower := req.user;
    var following := FindUser(db.users, username);
    if following.None? {
      return NotFound;
    }
    // the queryset filter(user=follower, author=following), then its delete()
    var e := Follow(follower.pk, following.value.pk);
    WithoutKeepsNoDuplicates(db.follows, e);
    db.follows := Without(db.follows, e);
    outcome := Redirect;
  }

  /** The two versions of the follow view leave the same table. */
  lemma FollowVariantsAgree(follows: seq<Follow>, e: Follow)
    ensures GetOrCreate(follows, e) == if |Matching(follows, e)| == 0 then follows + [e] else follows
  {
  }
}
