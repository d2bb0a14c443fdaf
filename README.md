# live_poster: comment-count wording and the follow graph, in Dafny

live_poster is a blog in Django. Users write posts, comment on them and follow
other authors. This project models the two parts of it whose behaviour can be
stated exactly.

- **`comments_numb`** (module `UserFilters`, `user_filters.dfy`) is the
  template filter that writes a comment count in Russian: "нет комментариев",
  "21 комментарий", "3 комментария", "15 комментариев". It is modelled branch
  for branch as `CommentsNumb` over Python `int`s. Python's `%` by 10 agrees
  with Dafny's `%` for every sign. `f'{value}'` is `Show`, which is proved to
  read back as the value. The filter is compared with the Russian plural
  categories of the Unicode CLDR rules (`RussianCategory`).
- **The follow graph and ownership rules** (modules `Models`, `PostsViews`,
  `ProfilesViews`). A `Store` holds the users, posts, comments and follow
  edges as sequences of rows. The views of `posts/views.py` and
  `profiles/views.py` are methods that update it in place. `Store.Valid()` is
  the table invariant:
  - at most one edge per (follower, author) pair, and no user follows themself;
  - primary keys and usernames are unique;
  - every row refers to existing rows;
  - post and comment texts are not empty.

  Every view requires `Valid()` and ensures it again. So "no duplicate edge,
  no self-edge" is proved, not assumed. Each view also states its whole new
  state: what it adds or deletes and that the other tables are unchanged.
  The queryset operations the views use are functions with their own
  contracts:
  - `FindUser` and `FindPost` are `get_object_or_404`;
  - `Matching` is `filter(...)`;
  - `Without` is `filter(...).delete()`;
  - `GetOrCreate` is `get_or_create`;
  - `FollowFeed` is the `follow_index` join.

`@login_required` is modelled by the `Requester`: an `Anonymous` requester
gets `LoginRedirect` and nothing changes. A signed-in requester must be a row
of the user table (`Store.Registered`). Form validation is an input. A
submitted form is `Some(fields)`; an unbound or empty one is `None`. A form's
`text` is its cleaned value: Django's `CharField` strips surrounding
whitespace, then tests that the text is not empty, and `form.save()` writes
the stripped text. The `checked` field of a form stands for every check
other than "text is not empty".

Four places where the code behaves differently from what one might expect:
- The self-follow test compares username strings, not users
  (posts/views.py:135, profiles/views.py:29). With unique usernames the
  effect is the same, and `ProfileFollow` proves that no self-edge appears.
- Unfollow deletes every matching edge, not "the edge if present"
  (posts/views.py:144-145).
- `post_edit` carries no `@login_required`. An anonymous requester gets the
  same silent redirect as any other non-author, but only after the post
  lookup, so an unknown post still gives not-found (posts/views.py:81-85).
- `add_comment` with an empty POST redirects before it looks the post up. An
  empty POST for a post that does not exist therefore redirects instead of
  giving not-found (posts/views.py:107-109).

## Model

| member | source | states |
|---|---|---|
| `UserFilters.Show` | users/templatetags/user_filters.py:21-25 | the text `f'{value}'` writes: at least one character, no space, starting with a minus sign or a digit |
| `UserFilters.CommentsNumb` | users/templatetags/user_filters.py:16-25 | the if/elif chain branch for branch; its properties are the lemmas below |
| `UserFilters.OnlyZeroHasNoComments` | users/templatetags/user_filters.py:18-19 | the phrase is "нет комментариев" exactly when the value is 0 |
| `UserFilters.NounChoice` | users/templatetags/user_filters.py:17-25 | 10-19 take "комментариев"; a nonzero value ending in 0 or 5-9 takes "комментариев"; outside 10-19, last digit 1 takes "комментарий" and 2-4 take "комментария", each after the number and a space |
| `UserFilters.Samples` | users/templatetags/user_filters.py:16-25 | the exact phrases for 0, 1, 11 and 21 |
| `UserFilters.HundredsSamples` | users/templatetags/user_filters.py:20-25 | 101 and 111 give "комментарий", 112 gives "комментария": only 10-19 are treated as teens |
| `UserFilters.CountedPhrase` | users/templatetags/user_filters.py:20-25 | for every nonzero value the phrase is its decimal rendering, a space, and one of the three nouns |
| `UserFilters.ShowRoundTrip` | users/templatetags/user_filters.py:21-25 | the number written by `f'{value}'` reads back as the value |
| `UserFilters.ShowInjective` | users/templatetags/user_filters.py:21-25 | different values are written differently |
| `UserFilters.ReadCountInverse` | users/templatetags/user_filters.py:16-25 | every phrase reads back as the count it was made from, zero included |
| `UserFilters.SuffixByLastDigit` | users/templatetags/user_filters.py:17-25 | from 20 on, two values with the same last digit get the same words after the number |
| `UserFilters.SuffixPeriodic` | users/templatetags/user_filters.py:17-25 | from 20 on, v and v + 10 get the same words after the number |
| `UserFilters.MatchesCldrUnlessHundredTeen` | users/templatetags/user_filters.py:20-25 | a positive count gets the noun of its Russian plural category if and only if its last two digits are not 11-14 past one hundred |
| `UserFilters.HundredElevenMisdeclined` | users/templatetags/user_filters.py:20-23 | 111 is written "111 комментарий" although its plural category is "many" |
| `UserFilters.CorrectedFollowsCldr` | users/templatetags/user_filters.py:16-25 | the filter with the 11-14 test on the last two digits gives every positive count the noun of its plural category |
| `UserFilters.CorrectedAgreesBelowHundred` | users/templatetags/user_filters.py:16-25 | below 100 the corrected filter writes what the original writes |
| `Models.FindUser` | posts/views.py:134 | finds a user with that username, or reports that none exists |
| `Models.FindPost` | posts/views.py:82 | finds the post with that key whose author has that username, or reports that none exists |
| `Models.Matching` | profiles/views.py:28 | the filtered queryset holds only the edge asked for, as many times as the table holds it; it is empty exactly when the edge is absent |
| `Models.Without` | posts/views.py:144-145 | deleting the filtered edges removes every copy of that edge and keeps every other edge with its multiplicity; without that edge the table is unchanged |
| `Models.WithoutKeepsNoDuplicates` | posts/views.py:144-145 | deleting edges from a duplicate-free table leaves it duplicate-free |
| `Models.GetOrCreate` | posts/views.py:136 | afterwards the edge is present, nothing else is added, and every other edge keeps its multiplicity |
| `Models.FollowTwiceLeavesOne` | posts/views.py:136 | on a duplicate-free table, following once or twice leaves the same table, free of duplicates, with exactly one copy of the edge |
| `Models.FollowThenUnfollow` | posts/views.py:131-146 | following a new author and then unfollowing restores the table exactly |
| `Models.UnfollowIdempotent` | posts/views.py:144-145 | unfollowing twice is unfollowing once |
| `Models.NoDuplicatesCount` | posts/views.py:136 | in a duplicate-free table each edge occurs once or not at all |
| `PostsViews.IsAuthor` | posts/views.py:84 | `request.user == post.author`: a signed-in requester whose key is the post's author key; never the anonymous user |
| `PostsViews.Edited` | posts/views.py:87-99 | `form.save()` on the instance keeps the post's key and author, takes text and group from the form, and replaces the image only when one is uploaded |
| `PostsViews.IsFollowing` | posts/views.py:74-78 | true exactly when the requester is signed in and the edge requester -> author exists; false for the anonymous user whatever the edges |
| `PostsViews.FollowFeed` | posts/views.py:123-127 | the feed holds exactly the posts whose author the user follows, each as often as the post table holds it |
| `PostsViews.FollowIndex` | posts/views.py:121-128 | anonymous requesters are sent to log in; a signed-in requester gets exactly the posts of followed authors |
| `PostsViews.FeedEmptyWithoutFollows` | posts/views.py:123-127 | a user with no outgoing edge gets an empty feed |
| `PostsViews.FeedDependsOnOwnEdges` | posts/views.py:123-127 | two tables with the same edges out of a user give that user the same feed |
| `PostsViews.FeedIgnoresOthers` | posts/views.py:123-146 | another user's follow or unfollow leaves this user's feed unchanged |
| `PostsViews.FeedAfterFollow` | posts/views.py:123-146 | after following an author all of that author's posts are in the feed; after unfollowing none are |
| `PostsViews.NewPost` | posts/views.py:28-45 | anonymous: sent to log in, nothing changes; a valid POST appends one post whose author is the requester, with a fresh key; otherwise nothing changes; the other tables never change |
| `PostsViews.PostEdit` | posts/views.py:81-101 | unknown post: not found; a requester who is not the author changes nothing; the author with a valid form replaces text, group and (if uploaded) image of that post only |
| `PostsViews.AddComment` | posts/views.py:104-118 | anonymous: sent to log in; empty POST: redirect with no change; unknown post: not found; a valid form appends one comment on that post whose author is the requester |
| `PostsViews.ProfileFollow` | posts/views.py:131-137 | unknown username: not found, no change; own username: no change; otherwise the table holds the edge exactly once and every other edge as before |
| `PostsViews.ProfileUnfollow` | posts/views.py:140-146 | unknown username: not found, no change; otherwise every requester -> author edge is deleted and no other |
| `ProfilesViews.ProfileFollow` | profiles/views.py:24-31 | unknown username: not found before any edge is read; the edge is appended only when it is absent and the username is not the requester's; afterwards it is present |
| `ProfilesViews.ProfileUnfollow` | profiles/views.py:33-39 | unknown username: not found; otherwise all requester -> author edges go, every other edge keeps its multiplicity, and with no such edge the table is unchanged |
| `ProfilesViews.FollowVariantsAgree` | profiles/views.py:28-30 | the check-then-create of this version leaves the same table as `get_or_create` |

## Findings

| source | as written | input that shows it | evidently intended | confidence | as-written member | corrected member |
|---|---|---|---|---|---|---|
| users/templatetags/user_filters.py:20 | only 10 ≤ value ≤ 19 is treated as a teen; the last two digits are not tested | 111 gives "111 комментарий", 112 gives "112 комментария" | a count whose last two digits are 11-14 takes "комментариев" ("111 комментариев"), as the Russian plural rules require | high that Russian grammar is broken for these counts; not executed | `UserFilters.HundredElevenMisdeclined` | `UserFilters.CorrectedFollowsCldr` |

`UserFilters.CommentsNumb` is the filter as written, and every property in
the table above is proved of it. `UserFilters.CommentsNumbCldr` is the
corrected filter. It differs only in testing `value % 100` against 11-14.
`CorrectedAgreesBelowHundred` shows that it writes the same as the original
for every count below 100.

## Left out

- Pagination (`paginator_render`, posts/views.py:149-155): it calls Django's `Paginator.get_page`, whose clamping is library code. Feeds are modelled as whole lists.
- `addclass` (users/templatetags/user_filters.py:8-9): a call into Django's widget rendering.
- `follow_index` of profiles/views.py (lines 14-22): `Follow.objects.get` returns one row, and a row has no `select_related`. The view cannot run, so there is nothing to model.
- The read-only views `index`, `group_posts`, `profile` and `post_view` (posts/views.py:15-71): they only fetch and paginate. Only their use of `is_following` is modelled.
- Form validation: the group lookup and the image-format check are the `checked` input of a form. A form bound only by an uploaded file (empty POST with files) is treated as unbound.
- Whitespace stripping of the text fields is Django library code. The model receives the text already stripped (`PostForm.text`, `CommentForm.text`), so it does not capture that " hi " is saved as "hi".
- `profiles/views.py` imports `Follow` from its own app's models (line 6), while `posts/views.py` uses the posts app's `Follow`. Both variants are modelled on the one `Store.follows` table; if the two models are distinct tables, an edge made through `profiles/views.py` would not reach the posts `follow_index` feed.
- Clearing an image through the form's clear box is not modelled. An edit without an upload keeps the image.
- The groups table: a post's group is an optional key whose existence the form checks.
- Post ordering (newest first) is defined in the models file, which is not part of this model. The feed keeps the post table's order.
- The page cache and its expiry are time-based framework behaviour.
- Templates, redirect targets, HTTP status codes, the 404/500 handlers (posts/views.py:158-168), admin registration and URL routing. A view's result is only one of `LoginRedirect`, `NotFound`, `Redirect` and `Render`.
- The user table is read-only here. Sign-up and authentication belong to the identity provider; `@login_required` is the `Requester` case split.
- Follow rows' own primary keys are not modelled. An edge is its (user, author) pair.
- `get_or_create` raises on a table that already holds two copies of the edge. Under `Store.Valid()` that cannot happen, so the error is not modelled.
- The `follow_index` join yields a post once per matching edge. `FollowFeed` yields it once, which is the same thing on a duplicate-free table.
- Concurrency: each view runs as one atomic step. Requests do not interleave.
- `comments_numb` on values that are not `int` (floats, strings) is not modelled.
