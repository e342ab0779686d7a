/**
 * The older relational feed store: the USER, POST, LIKE_OR_DISLIKE and
 * COMMENT tables of the first schema, which has no post text and no update
 * time. It builds the nine-field PostView of the older contract.
 *
 * As in MySns, every statement is assumed to succeed, `fold` is the
 * collation of the text columns, and the upload time the database fills in
 * for a new row is the parameter `now`.
 */
module LegacyMySns {
  import opened JavaLang
  import opened SnsPort
  import opened Ordering
  import opened SqlText
  import MySns

  /** A POST row of the first schema: User_id, File_path, File_name,
      Upload_time. */
  datatype PostRow = PostRow(userId: int, filePath: Option<string>, fileName: Option<string>, uploadTime: Timestamp)

  /** The LIKE_OR_DISLIKE table, keyed by its (User_id, Post_id) pair. */
  type Likes = map<(int, int), Reaction>

  /** NONE is never stored: it is the absence of a row. */
  predicate NoNoneRows(likes: Likes) {
    forall k :: k in likes ==> likes[k] != NONE
  }

  /** The e-mail address register stores: the given one, or a generated
      `user<millis>@example.com` when it is null or empty. */
  function StoredEmail(email: Option<string>, millis: nat): (e: string)
    ensures email.Some? && email.value != [] ==> e == email.value
    ensures email.None? || email.value == [] ==>
              e == "user" + DecimalString(millis) + "@example.com" && e != []
  {
    if email.None? || email.value == [] then "user" + DecimalString(millis) + "@example.com"
    else email.value
  }

  /** Definition of the posts the join with USER keeps: those whose author
      row exists. */
  function Joined(users: map<int, MySns.UserRow>, posts: map<int, PostRow>): (ids: set<int>)
    ensures forall id :: id in ids <==> id in posts && posts[id].userId in users
  {
    set id | id in posts && posts[id].userId in users
  }

  /** `ORDER BY p.Upload_time DESC`. */
  function UploadRank(posts: map<int, PostRow>): int -> int {
    id => if id in posts then posts[id].uploadTime else 0
  }

  /** The post ids an `ORDER BY p.Upload_time DESC LIMIT ?` query over `rows`
      returns; posts with the same upload time come out highest id first,
      one of the orders the database may use. A negative LIMIT is an SQL
      error, caught into an empty list. */
  function Page(rows: set<int>, posts: map<int, PostRow>, limit: int): (ids: seq<int>)
    requires rows <= posts.Keys
    ensures |ids| == if limit <= 0 then 0 else if limit < |rows| then limit else |rows|
    ensures forall i :: 0 <= i < |ids| ==> ids[i] in rows
    ensures forall i, j :: 0 <= i < j < |ids| ==> posts[ids[i]].uploadTime >= posts[ids[j]].uploadTime
    ensures forall x, i :: x in rows && x !in ids && 0 <= i < |ids| ==> posts[x].uploadTime <= posts[ids[i]].uploadTime
  {
    var ids := TopN(rows, UploadRank(posts), limit);
    assert forall i, j :: 0 <= i < j < |ids| ==> Above(ids[i], ids[j], UploadRank(posts));
    assert forall x, i :: x in rows && x !in ids && 0 <= i < |ids| ==> Above(ids[i], x, UploadRank(posts));
    ids
  }

  /** One result row of the feed query. `IFNULL(SUM(CASE WHEN l.L_or_D=?
      THEN 1 END), 0)` over the post's LEFT JOIN rows counts the rows of that
      type, 0 when there is none; the state subquery reads the viewer's row,
      'NONE' through IFNULL when there is none. */
  function View(users: map<int, MySns.UserRow>, posts: map<int, PostRow>, likes: Likes, id: int, viewer: int): LegacyPostView
    requires id in posts && posts[id].userId in users
  {
    var p := posts[id];
    LegacyPostView(
      id, p.userId, users[p.userId].name, p.filePath, p.fileName, p.uploadTime,
      MySns.RowCount(likes, id, LIKE), MySns.RowCount(likes, id, DISLIKE), MySns.MyState(likes, viewer, id))
  }

  /** One result row of the search query: no counts and no state. */
  function BareView(users: map<int, MySns.UserRow>, posts: map<int, PostRow>, id: int): (v: LegacyPostView)
    requires id in posts && posts[id].userId in users
    ensures v.likeCount == 0 && v.dislikeCount == 0 && v.myState == NONE
  {
    var p := posts[id];
    LegacyPostView(id, p.userId, users[p.userId].name, p.filePath, p.fileName, p.uploadTime, 0, 0, NONE)
  }

  /** Definition of the search filter `p.File_name LIKE ? OR u.Name LIKE ?`: the post's
      text is not looked at. */
  function SearchRows(users: map<int, MySns.UserRow>, posts: map<int, PostRow>, pattern: string, fold: char -> char): (ids: set<int>)
    ensures ids <= Joined(users, posts)
    ensures forall id :: id in ids <==> (id in Joined(users, posts) &&
              (LikeNullable(posts[id].fileName, pattern, fold) || Like(pattern, users[posts[id].userId].name, fold)))
  {
    set id | id in Joined(users, posts) &&
      (LikeNullable(posts[id].fileName, pattern, fold) || Like(pattern, users[posts[id].userId].name, fold))
  }

  /** One result row of the comment query. */
  function CommentRowView(users: map<int, MySns.UserRow>, comments: map<int, MySns.CommentRow>, id: int): LegacyCommentView
    requires id in comments && comments[id].userId in users
  {
    var c := comments[id];
    LegacyCommentView(id, c.postId, c.userId, users[c.userId].name, c.text)
  }

  /** The `while (rs.next())` loop of listRecent: one view per result row,
      in result order. */
  method ReadFeedRows(users: map<int, MySns.UserRow>, posts: map<int, PostRow>, likes: Likes, ids: seq<int>, viewer: int)
    returns (list: seq<LegacyPostView>)
    requires forall k :: 0 <= k < |ids| ==> ids[k] in posts && posts[ids[k]].userId in users
    ensures |list| == |ids|
    ensures forall i :: 0 <= i < |ids| ==> list[i] == View(users, posts, likes, ids[i], viewer)
  {
    list := [];
    var i := 0;
    while i < |ids|
      invariant 0 <= i <= |ids|
      invariant |list| == i
      invariant forall k :: 0 <= k < i ==> list[k] == View(users, posts, likes, ids[k], viewer)
    {
      list := list + [View(users, posts, likes, ids[i], viewer)];
      i := i + 1;
    }
  }

  /** The `while (rs.next())` loop of search. */
  method ReadSearchRows(users: map<int, MySns.UserRow>, posts: map<int, PostRow>, ids: seq<int>)
    returns (list: seq<LegacyPostView>)
    requires forall k :: 0 <= k < |ids| ==> ids[k] in posts && posts[ids[k]].userId in users
    ensures |list| == |ids|
    ensures forall i :: 0 <= i < |ids| ==> list[i] == BareView(users, posts, ids[i])
  {
    list := [];
    var i := 0;
    while i < |ids|
      invariant 0 <= i <= |ids|
      invariant |list| == i
      invariant forall k :: 0 <= k < i ==> list[k] == BareView(users, posts, ids[k])
    {
      list := list + [BareView(users, posts, ids[i])];
      i := i + 1;
    }
  }

  /** The `while (rs.next())` loop of listComments. */
  method ReadCommentRows(users: map<int, MySns.UserRow>, comments: map<int, MySns.CommentRow>, ids: seq<int>)
    returns (list: seq<LegacyCommentView>)
    requires forall k :: 0 <= k < |ids| ==> ids[k] in comments && comments[ids[k]].userId in users
    ensures |list| == |ids|
    ensures forall i :: 0 <= i < |ids| ==> list[i] == CommentRowView(users, comments, ids[i])
  {
    list := [];
    var i := 0;
    while i < |ids|
      invariant 0 <= i <= |ids|
      invariant |list| == i
      invariant forall k :: 0 <= k < i ==> list[k] == CommentRowView(users, comments, ids[k])
    {
      list := list + [CommentRowView(users, comments, ids[i])];
      i := i + 1;
    }
  }

  /** The storage step toggleReaction picks from the current and the next
      state. */
  datatype Action = Insert | Delete | Update | NoChange

  /** Insert only from NONE to a reaction, delete only from a reaction to
      NONE, update between two reactions, nothing from NONE to NONE. */
  function ActionFor(current: Reaction, next: Reaction): (a: Action)
    ensures a == Insert <==> current == NONE && next != NONE
    ensures a == Delete <==> current != NONE && next == NONE
    ensures a == Update <==> current != NONE && next != NONE
    ensures a == NoChange <==> current == NONE && next == NONE
  {
    if current == NONE && next != NONE then Insert
    else if current != NONE then (if next == NONE then Delete else Update)
    else NoChange
  }

  class MySnsPort {
    const fold: char -> char
    var users: map<int, MySns.UserRow>
    var posts: map<int, PostRow>
    var likes: Likes
    var comments: map<int, MySns.CommentRow>
    var nextUserId: int
    var nextPostId: int
    var nextCommentId: int

    /** Every assigned id is below its counter, and no row says NONE. */
    ghost predicate Valid()
      reads this
    {
      && (forall id :: id in users ==> id < nextUserId)
      && (forall id :: id in posts ==> id < nextPostId)
      && (forall id :: id in comments ==> id < nextCommentId)
      && NoNoneRows(likes)
    }

    /** A port on a connection to a database in the given state. */
    constructor (fold: char -> char, users: map<int, MySns.UserRow>, posts: map<int, PostRow>,
                 likes: Likes, comments: map<int, MySns.CommentRow>,
                 nextUserId: int, nextPostId: int, nextCommentId: int)
      requires forall id :: id in users ==> id < nextUserId
      requires forall id :: id in posts ==> id < nextPostId
      requires forall id :: id in comments ==> id < nextCommentId
      requires NoNoneRows(likes)
      ensures Valid()
      ensures this.fold == fold && this.users == users && this.posts == posts
      ensures this.likes == likes && this.comments == comments
      ensures this.nextUserId == nextUserId && this.nextPostId == nextPostId
      ensures this.nextCommentId == nextCommentId
    {
      this.fold := fold;
      this.users := users;
      this.posts := posts;
      this.likes := likes;
      this.comments := comments;
      this.nextUserId := nextUserId;
      this.nextPostId := nextPostId;
      this.nextCommentId := nextCommentId;
    }

    /** register: a null or empty e-mail address is replaced by a generated
        one built from the clock reading `millis`; then one USER row is
        inserted, with no duplicate test of its own. */
    method Register(username: string, email: Option<string>, password: string, millis: nat) returns (r: Option<UserView>)
      requires Valid()
      modifies this
      ensures Valid()
      ensures posts == old(posts) && likes == old(likes) && comments == old(comments)
      ensures nextPostId == old(nextPostId) && nextCommentId == old(nextCommentId)
      ensures r == Some(UserView(old(nextUserId), username))
      ensures old(nextUserId) !in old(users)
      ensures users == old(users)[old(nextUserId) := MySns.UserRow(username, StoredEmail(email, millis), password)]
      ensures nextUserId == old(nextUserId) + 1
    {
      var stored := StoredEmail(email, millis);
      users := users[nextUserId := MySns.UserRow(username, stored, password)];
      r := Some(UserView(nextUserId, username));
      nextUserId := nextUserId + 1;
    }

    /** listRecent: the joined posts, latest upload first, at most `limit`,
        with their LIKE and DISLIKE row counts and the viewer's state. */
    method ListRecent(requesterId: int, limit: int) returns (list: seq<LegacyPostView>)
      ensures var ids := Page(Joined(users, posts), posts, limit);
        && |list| == |ids|
        && forall i :: 0 <= i < |ids| ==> list[i] == View(users, posts, likes, ids[i], requesterId)
    {
      var ids := Page(Joined(users, posts), posts, limit);
      list := ReadFeedRows(users, posts, likes, ids, requesterId);
    }

    /** search: the joined posts whose file name or author name is LIKE
        `%keyword%`, latest upload first, at most `limit`, each reported with
        zero counts and state NONE. */
    method Search(requesterId: int, keyword: Option<string>, limit: int) returns (list: seq<LegacyPostView>)
      ensures var ids := Page(SearchRows(users, posts, MySns.SearchPattern(keyword), fold), posts, limit);
        && |list| == |ids|
        && forall i :: 0 <= i < |ids| ==> list[i] == BareView(users, posts, ids[i])
    {
      var ids := Page(SearchRows(users, posts, MySns.SearchPattern(keyword), fold), posts, limit);
      list := ReadSearchRows(users, posts, ids);
    }

    /** createPost(userId, filePath, fileName): one POST row with the next
        Post_id. */
    method CreatePost(userId: int, filePath: Option<string>, fileName: Option<string>, now: Timestamp)
      requires Valid()
      modifies this
      ensures Valid()
      ensures users == old(users) && likes == old(likes) && comments == old(comments)
      ensures nextUserId == old(nextUserId) && nextCommentId == old(nextCommentId)
      ensures old(nextPostId) !in old(posts)
      ensures posts == old(posts)[old(nextPostId) := PostRow(userId, filePath, fileName, now)]
      ensures nextPostId == old(nextPostId) + 1
    {
      posts := posts[nextPostId := PostRow(userId, filePath, fileName, now)];
      nextPostId := nextPostId + 1;
    }

    /** toggleReaction: `next` is NONE when the current state (NONE without
        a row) equals the requested type and the requested type otherwise;
        then the row is inserted, deleted or updated as ActionFor says, and
        `next` is returned. */
    method ToggleReaction(userId: int, postId: int, requested: Reaction) returns (next: Reaction)
      requires Valid()
      modifies this
      ensures Valid()
      ensures users == old(users) && posts == old(posts) && comments == old(comments)
      ensures nextUserId == old(nextUserId) && nextPostId == old(nextPostId) && nextCommentId == old(nextCommentId)
      ensures next == Toggled(MySns.MyState(old(likes), userId, postId), requested)
      ensures var key, current := (userId, postId), MySns.MyState(old(likes), userId, postId);
        match ActionFor(current, next)
        case Insert => key !in old(likes) && likes == old(likes)[key := next]
        case Delete => key in old(likes) && likes == old(likes) - {key}
        case Update => key in old(likes) && likes == old(likes)[key := next]
        case NoChange => likes == old(likes)
    {
      var key := (userId, postId);
      var current := MySns.MyState(likes, userId, postId);
      next := Toggled(current, requested);
      if current == NONE && next != NONE {
        likes := likes[key := next];
      } else if current != NONE {
        if next == NONE {
          likes := likes - {key};
        } else {
          likes := likes[key := next];
        }
      }
    }

    /** listComments: the post's comments whose author row exists, oldest
        first. */
    method ListComments(postId: int) returns (list: seq<LegacyCommentView>)
      ensures var ids := MySns.Thread(MySns.PostComments(users, comments, postId), comments);
        && |list| == |ids|
        && forall i :: 0 <= i < |ids| ==> list[i] == CommentRowView(users, comments, ids[i])
    {
      var ids := MySns.Thread(MySns.PostComments(users, comments, postId), comments);
      list := ReadCommentRows(users, comments, ids);
    }

    /** addComment: one COMMENT row with the next Comment_id. */
    method AddComment(userId: int, postId: int, text: string, now: Timestamp)
      requires Valid()
      modifies this
      ensures Valid()
      ensures users == old(users) && posts == old(posts) && likes == old(likes)
      ensures nextUserId == old(nextUserId) && nextPostId == old(nextPostId)
      ensures old(nextCommentId) !in old(comments)
      ensures comments == old(comments)[old(nextCommentId) := MySns.CommentRow(userId, postId, text, now)]
      ensures nextCommentId == old(nextCommentId) + 1
    {
      comments := comments[nextCommentId := MySns.CommentRow(userId, postId, text, now)];
      nextCommentId := nextCommentId + 1;
    }
  }
}
