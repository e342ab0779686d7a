/**
 * The relational feed store: the USER, POST, REACTION and COMMENT tables as
 * maps keyed by their primary keys, and each SQL statement the backend
 * issues as the operation on those maps it denotes.
 *
 * Every statement is assumed to succeed; the paths where a SQLException is
 * caught are not part of this model. Text comparison in `=` and `LIKE`
 * follows the columns' collation, the parameter `fold` (see SqlText).
 * `NOW()` is the parameter `now`.
 */
module MySns {
  import opened JavaLang
  import opened SnsPort
  import opened Ordering
  import opened SqlText

  /** A USER row: Name, Email, Password. */
  datatype UserRow = UserRow(name: string, email: string, password: string)

  /** A POST row: User_id, File_path, File_name, Post_context, Upload_time,
      Update_time. */
  datatype PostRow = PostRow(
    userId: int,
    filePath: Option<string>,
    fileName: Option<string>,
    context: Option<string>,
    uploadTime: Timestamp,
    updateTime: Option<Timestamp>)

  /** A COMMENT row: User_id, Post_id, Comment, Upload_time. */
  datatype CommentRow = CommentRow(userId: int, postId: int, text: string, uploadTime: Timestamp)

  /** The REACTION table, keyed by its (User_id, Post_id) pair. */
  type Reactions = map<(int, int), Reaction>

  /* ---------- Accounts ---------- */

  /** Definition of the rows `WHERE Name=? AND Password=?` selects; the
      ensures spells out membership for callers. */
  function NameLogins(users: map<int, UserRow>, name: string, password: string, fold: char -> char): (ids: set<int>)
    ensures forall id :: id in ids <==> (id in users && SqlEquals(users[id].name, name, fold)
              && SqlEquals(users[id].password, password, fold))
  {
    set id | id in users && SqlEquals(users[id].name, name, fold) && SqlEquals(users[id].password, password, fold)
  }

  /** Definition of the rows `WHERE Email=? AND Password=?` selects. */
  function EmailLogins(users: map<int, UserRow>, email: string, password: string, fold: char -> char): (ids: set<int>)
    ensures forall id :: id in ids <==> (id in users && SqlEquals(users[id].email, email, fold)
              && SqlEquals(users[id].password, password, fold))
  {
    set id | id in users && SqlEquals(users[id].email, email, fold) && SqlEquals(users[id].password, password, fold)
  }

  /** The duplicate test `WHERE Name=? OR Email=?` finds a row. */
  predicate Taken(users: map<int, UserRow>, name: string, email: string, fold: char -> char) {
    exists id :: id in users && (SqlEquals(users[id].name, name, fold) || SqlEquals(users[id].email, email, fold))
  }

  /** No two accounts share a name or an e-mail address under the collation. */
  predicate UniqueAccounts(users: map<int, UserRow>, fold: char -> char) {
    forall a, b :: a in users && b in users && a != b ==>
      !SqlEquals(users[a].name, users[b].name, fold) && !SqlEquals(users[a].email, users[b].email, fold)
  }

  /** With unique names a name-and-password login selects at most one row. */
  lemma NameLoginUnique(users: map<int, UserRow>, name: string, password: string, fold: char -> char, a: int, b: int)
    requires UniqueAccounts(users, fold)
    requires a in NameLogins(users, name, password, fold) && b in NameLogins(users, name, password, fold)
    ensures a == b
  {
    assert SqlEquals(users[a].name, users[b].name, fold);
  }

  /** With unique e-mail addresses an e-mail login selects at most one row. */
  lemma EmailLoginUnique(users: map<int, UserRow>, email: string, password: string, fold: char -> char, a: int, b: int)
    requires UniqueAccounts(users, fold)
    requires a in EmailLogins(users, email, password, fold) && b in EmailLogins(users, email, password, fold)
    ensures a == b
  {
    assert SqlEquals(users[a].email, users[b].email, fold);
  }

  /** A name just registered is taken for every later registration,
      whatever e-mail address it comes with. */
  lemma RegisteredNameTaken(users: map<int, UserRow>, id: int, row: UserRow, email: string, fold: char -> char)
    ensures Taken(users[id := row], row.name, email, fold)
  {
    assert id in users[id := row] && SqlEquals(users[id := row][id].name, row.name, fold);
  }

  /** Adding an account that passed the duplicate test keeps names and
      e-mail addresses unique. */
  lemma InsertKeepsUnique(users: map<int, UserRow>, id: int, row: UserRow, fold: char -> char)
    requires UniqueAccounts(users, fold)
    requires id !in users
    requires !Taken(users, row.name, row.email, fold)
    ensures UniqueAccounts(users[id := row], fold)
  {
    var u := users[id := row];
    forall a, b | a in u && b in u && a != b
      ensures !SqlEquals(u[a].name, u[b].name, fold) && !SqlEquals(u[a].email, u[b].email, fold)
    {
      if a == id {
        assert !(SqlEquals(users[b].name, row.name, fold) || SqlEquals(users[b].email, row.email, fold));
      } else if b == id {
        assert !(SqlEquals(users[a].name, row.name, fold) || SqlEquals(users[a].email, row.email, fold));
      }
    }
  }

  /* ---------- Feed ---------- */

  /** Definition of the posts `FROM POST p JOIN USER u ON p.User_id = u.User_id` yields:
      posts whose author row exists. */
  function Joined(users: map<int, UserRow>, posts: map<int, PostRow>): (ids: set<int>)
    ensures forall id :: id in ids <==> id in posts && posts[id].userId in users
  {
    set id | id in posts && posts[id].userId in users
  }

  /** `ORDER BY p.Post_id DESC`. */
  function PostIdRank(): int -> int {
    id => id
  }

  /** The users holding `state` on a post: the REACTION rows with that
      Post_id and that Type, one per user since (User_id, Post_id) is the
      key. */
  function Holders(reactions: Reactions, postId: int, state: Reaction): set<int> {
    set k | k in reactions && k.1 == postId && reactions[k] == state :: k.0
  }

  /** `(SELECT COUNT(*) FROM REACTION r WHERE r.Post_id=? AND r.Type=?)`:
      the number of such rows. */
  function RowCount(reactions: Reactions, postId: int, state: Reaction): nat {
    |set k | k in reactions && k.1 == postId && reactions[k] == state|
  }

  /** Counting rows is counting holders. */
  lemma RowCountIsHolders(reactions: Reactions, postId: int, state: Reaction)
    ensures RowCount(reactions, postId, state) == |Holders(reactions, postId, state)|
  {
    var rows := set k | k in reactions && k.1 == postId && reactions[k] == state;
    FirstOfPairs(rows, postId);
    assert Holders(reactions, postId, state) == set k | k in rows :: k.0;
  }

  /** Pairs that agree on their second component are as many as their first
      components. */
  lemma {:induction false} FirstOfPairs(rows: set<(int, int)>, postId: int)
    requires forall k :: k in rows ==> k.1 == postId
    ensures |set k | k in rows :: k.0| == |rows|
    decreases |rows|
  {
    var firsts := set k | k in rows :: k.0;
    if rows != {} {
      var k :| k in rows;
      var rest := rows - {k};
      FirstOfPairs(rest, postId);
      var restFirsts := set j | j in rest :: j.0;
      assert firsts == restFirsts + {k.0};
      assert k.0 !in restFirsts;
    } else {
      assert firsts == {};
    }
  }

  /** `(SELECT Type FROM REACTION r WHERE r.Post_id=? AND r.User_id=? LIMIT
      1)`, with a missing row read as NONE. */
  function MyState(reactions: Reactions, userId: int, postId: int): Reaction {
    if (userId, postId) in reactions then reactions[(userId, postId)] else NONE
  }

  /** One result row of the feed query, as a PostView. */
  function View(users: map<int, UserRow>, posts: map<int, PostRow>, reactions: Reactions, id: int, viewer: int): PostView
    requires id in posts && posts[id].userId in users
  {
    var p := posts[id];
    PostView(
      id, p.userId, users[p.userId].name, p.context, p.filePath, p.fileName, p.uploadTime,
      RowCount(reactions, id, LIKE), RowCount(reactions, id, DISLIKE), MyState(reactions, viewer, id))
  }

  /** The post ids a `ORDER BY p.Post_id DESC LIMIT ?` query over `rows`
      returns. A negative LIMIT is an SQL error, caught into an empty list. */
  function Page(rows: set<int>, limit: int): (ids: seq<int>)
    ensures |ids| == if limit <= 0 then 0 else if limit < |rows| then limit else |rows|
    ensures forall i :: 0 <= i < |ids| ==> ids[i] in rows
    ensures forall i, j :: 0 <= i < j < |ids| ==> ids[i] > ids[j]
    ensures forall x, i :: x in rows && x !in ids && 0 <= i < |ids| ==> x < ids[i]
  {
    var ids := TopN(rows, PostIdRank(), limit);
    assert forall i, j :: 0 <= i < j < |ids| ==> Above(ids[i], ids[j], PostIdRank());
    assert forall x, i :: x in rows && x !in ids && 0 <= i < |ids| ==> Above(ids[i], x, PostIdRank());
    ids
  }

  /** Definition of the search filter `p.Post_context LIKE ? OR p.File_name LIKE ? OR
      u.Name LIKE ?` over the joined posts. */
  function SearchRows(users: map<int, UserRow>, posts: map<int, PostRow>, pattern: string, fold: char -> char): (ids: set<int>)
    ensures ids <= Joined(users, posts)
    ensures forall id :: id in ids <==> (id in Joined(users, posts) &&
              (LikeNullable(posts[id].context, pattern, fold) || LikeNullable(posts[id].fileName, pattern, fold)
               || Like(pattern, users[posts[id].userId].name, fold)))
  {
    set id | id in Joined(users, posts) &&
      (LikeNullable(posts[id].context, pattern, fold) || LikeNullable(posts[id].fileName, pattern, fold)
       || Like(pattern, users[posts[id].userId].name, fold))
  }

  /** The pattern search(keyword) binds: `"%" + keyword + "%"`, which
      renders a null keyword as "null". */
  function SearchPattern(keyword: Option<string>): string {
    ContainsPattern(ValueOf(keyword))
  }

  /** An empty keyword selects every joined post: the author's name is never
      NULL and `%%` matches every string. */
  lemma {:induction false} EmptyKeywordSelectsAll(users: map<int, UserRow>, posts: map<int, PostRow>, fold: char -> char)
    ensures SearchRows(users, posts, SearchPattern(Some("")), fold) == Joined(users, posts)
  {
    forall id | id in Joined(users, posts) ensures id in SearchRows(users, posts, SearchPattern(Some("")), fold) {
      LikeEmptyKeyword(users[posts[id].userId].name, fold);
    }
  }

  /* ---------- Comments ---------- */

  /** Definition of the comments `FROM COMMENT c JOIN USER u ... WHERE c.Post_id = ?`
      yields. */
  function PostComments(users: map<int, UserRow>, comments: map<int, CommentRow>, postId: int): (ids: set<int>)
    ensures forall id :: id in ids <==> id in comments && comments[id].postId == postId && comments[id].userId in users
  {
    set id | id in comments && comments[id].postId == postId && comments[id].userId in users
  }

  /** `ORDER BY c.Upload_time ASC`. */
  function TimeRank(comments: map<int, CommentRow>): int -> int {
    id => if id in comments then comments[id].uploadTime else 0
  }

  /** The comment ids in ascending upload time; comments with the same time
      come out in ascending id, one of the orders the database may use. */
  function Thread(rows: set<int>, comments: map<int, CommentRow>): (ids: seq<int>)
    requires rows <= comments.Keys
    ensures |ids| == |rows|
    ensures forall id :: id in ids <==> id in rows
    ensures forall i, j :: 0 <= i < j < |ids| ==> Above(ids[j], ids[i], TimeRank(comments))
  {
    var desc := SortDesc(rows, TimeRank(comments));
    ReverseSameMembers(desc);
    Reverse(desc)
  }

  /** In a thread the upload times never decrease, and no comment appears
      twice. */
  lemma ThreadAscending(rows: set<int>, comments: map<int, CommentRow>, i: int, j: int)
    requires rows <= comments.Keys
    requires 0 <= i < j < |Thread(rows, comments)|
    ensures var ids := Thread(rows, comments);
      comments[ids[i]].uploadTime <= comments[ids[j]].uploadTime && ids[i] != ids[j]
  {
    var ids := Thread(rows, comments);
    assert ids[i] in rows && ids[j] in rows;
    assert Above(ids[j], ids[i], TimeRank(comments));
  }

  function CommentRowView(users: map<int, UserRow>, comments: map<int, CommentRow>, id: int): CommentView
    requires id in comments && comments[id].userId in users
  {
    var c := comments[id];
    CommentView(id, users[c.userId].name, c.text, c.uploadTime)
  }

  class MySnsPort {
    /** The collation of the text columns. */
    const fold: char -> char
    var users: map<int, UserRow>
    var posts: map<int, PostRow>
    var reactions: Reactions
    var comments: map<int, CommentRow>
    /** The AUTO_INCREMENT counters: the next User_id, Post_id and
        Comment_id the database assigns. */
    var nextUserId: int
    var nextPostId: int
    var nextCommentId: int

    /** Every assigned id is below its table's counter. */
    ghost predicate Valid()
      reads this
    {
      && (forall id :: id in users ==> id < nextUserId)
      && (forall id :: id in posts ==> id < nextPostId)
      && (forall id :: id in comments ==> id < nextCommentId)
    }

    /** A port on a connection to a database in the given state. */
    constructor (fold: char -> char, users: map<int, UserRow>, posts: map<int, PostRow>,
                 reactions: Reactions, comments: map<int, CommentRow>,
                 nextUserId: int, nextPostId: int, nextCommentId: int)
      requires forall id :: id in users ==> id < nextUserId
      requires forall id :: id in posts ==> id < nextPostId
      requires forall id :: id in comments ==> id < nextCommentId
      ensures Valid()
      ensures this.fold == fold && this.users == users && this.posts == posts
      ensures this.reactions == reactions && this.comments == comments
      ensures this.nextUserId == nextUserId && this.nextPostId == nextPostId
      ensures this.nextCommentId == nextCommentId
    {
      this.fold := fold;
      this.users := users;
      this.posts := posts;
      this.reactions := reactions;
      this.comments := comments;
      this.nextUserId := nextUserId;
      this.nextPostId := nextPostId;
      this.nextCommentId := nextCommentId;
    }

    /** login: the first row of `WHERE Name=? AND Password=?`, or null. The
        query has no ORDER BY, so any matching row may come first. */
    method Login(username: string, password: string) returns (r: Option<UserView>)
      ensures r.None? <==> NameLogins(users, username, password, fold) == {}
      ensures r.Some? ==> (r.value.userId in NameLogins(users, username, password, fold)
                && r.value.userName == users[r.value.userId].name)
    {
      var rows := NameLogins(users, username, password, fold);
      if rows == {} {
        return None;
      }
      NonEmptyHasMember(rows);
      var id :| id in rows;
      r := Some(UserView(id, users[id].name));
    }

    /** loginByEmail: the first row of `WHERE Email=? AND Password=?`, or
        null. */
    method LoginByEmail(email: string, password: string) returns (r: Option<UserView>)
      ensures r.None? <==> EmailLogins(users, email, password, fold) == {}
      ensures r.Some? ==> (r.value.userId in EmailLogins(users, email, password, fold)
                && r.value.userName == users[r.value.userId].name)
    {
      var rows := EmailLogins(users, email, password, fold);
      if rows == {} {
        return None;
      }
      NonEmptyHasMember(rows);
      var id :| id in rows;
      r := Some(UserView(id, users[id].name));
    }

    /** register(username, email, password): null, with nothing inserted,
        when a row has that name or that e-mail address; otherwise one USER
        row with the next id, returned with the given name. */
    method Register(username: string, email: string, password: string) returns (r: Option<UserView>)
      requires Valid()
      modifies this
      ensures Valid()
      ensures posts == old(posts) && reactions == old(reactions) && comments == old(comments)
      ensures nextPostId == old(nextPostId) && nextCommentId == old(nextCommentId)
      ensures Taken(old(users), username, email, fold) ==>
                r.None? && users == old(users) && nextUserId == old(nextUserId)
      ensures !Taken(old(users), username, email, fold) ==>
                && r == Some(UserView(old(nextUserId), username))
                && users == old(users)[old(nextUserId) := UserRow(username, email, password)]
                && nextUserId == old(nextUserId) + 1
      ensures UniqueAccounts(old(users), fold) ==> UniqueAccounts(users, fold)
    {
      if Taken(users, username, email, fold) {
        return None;
      }
      if UniqueAccounts(users, fold) {
        InsertKeepsUnique(users, nextUserId, UserRow(username, email, password), fold);
      }
      users := users[nextUserId := UserRow(username, email, password)];
      r := Some(UserView(nextUserId, username));
      nextUserId := nextUserId + 1;
    }

    /** The contract's register(username, password), which this backend
        inherits: the e-mail address `username@local`. */
    method RegisterWithoutEmail(username: string, password: string) returns (r: Option<UserView>)
      requires Valid()
      modifies this
      ensures Valid()
      ensures posts == old(posts) && reactions == old(reactions) && comments == old(comments)
      ensures nextPostId == old(nextPostId) && nextCommentId == old(nextCommentId)
      ensures Taken(old(users), username, LocalEmail(username), fold) ==>
                r.None? && users == old(users) && nextUserId == old(nextUserId)
      ensures !Taken(old(users), username, LocalEmail(username), fold) ==>
                && r == Some(UserView(old(nextUserId), username))
                && users == old(users)[old(nextUserId) := UserRow(username, LocalEmail(username), password)]
                && nextUserId == old(nextUserId) + 1
      ensures UniqueAccounts(old(users), fold) ==> UniqueAccounts(users, fold)
    {
      r := Register(username, LocalEmail(username), password);
    }

    /** listRecent: the joined posts, highest Post_id first, at most `limit`
        of them, each row read into a PostView. */
    method ListRecent(requesterId: int, limit: int) returns (list: seq<PostView>)
      ensures var ids := Page(Joined(users, posts), limit);
        && |list| == |ids|
        && forall i :: 0 <= i < |ids| ==> list[i] == View(users, posts, reactions, ids[i], requesterId)
    {
      var ids := Page(Joined(users, posts), limit);
      assert forall k :: 0 <= k < |ids| ==> ids[k] in posts && posts[ids[k]].userId in users;
      list := [];
      var i := 0;
      while i < |ids|
        invariant 0 <= i <= |ids|
        invariant |list| == i
        invariant forall k :: 0 <= k < i ==> list[k] == View(users, posts, reactions, ids[k], requesterId)
      {
        list := list + [View(users, posts, reactions, ids[i], requesterId)];
        i := i + 1;
      }
    }

    /** search: as listRecent, restricted to the posts whose text, file name
        or author name is LIKE `%keyword%`. */
    method Search(requesterId: int, keyword: Option<string>, limit: int) returns (list: seq<PostView>)
      ensures var ids := Page(SearchRows(users, posts, SearchPattern(keyword), fold), limit);
        && |list| == |ids|
        && forall i :: 0 <= i < |ids| ==> list[i] == View(users, posts, reactions, ids[i], requesterId)
    {
      var ids := Page(SearchRows(users, posts, SearchPattern(keyword), fold), limit);
      assert forall k :: 0 <= k < |ids| ==> ids[k] in posts && posts[ids[k]].userId in users;
      list := [];
      var i := 0;
      while i < |ids|
        invariant 0 <= i <= |ids|
        invariant |list| == i
        invariant forall k :: 0 <= k < i ==> list[k] == View(users, posts, reactions, ids[k], requesterId)
      {
        list := list + [View(users, posts, reactions, ids[i], requesterId)];
        i := i + 1;
      }
    }

    /** toggleReaction: a row of the requested type is deleted (NONE), a row
        of another type is updated to the requested one, and with no row a
        row of the requested type is inserted. */
    method ToggleReaction(userId: int, postId: int, requested: Reaction) returns (r: Reaction)
      requires Valid()
      modifies this
      ensures Valid()
      ensures users == old(users) && posts == old(posts) && comments == old(comments)
      ensures nextUserId == old(nextUserId) && nextPostId == old(nextPostId) && nextCommentId == old(nextCommentId)
      ensures r == Toggled(MyState(old(reactions), userId, postId), requested)
      ensures var key := (userId, postId);
        if key in old(reactions) && old(reactions)[key] == requested then
          r == NONE && reactions == old(reactions) - {key}
        else
          r == requested && reactions == old(reactions)[key := requested]
    {
      var key := (userId, postId);
      if key in reactions {
        var prev := reactions[key];
        if prev == requested {
          reactions := reactions - {key};
          return NONE;
        } else {
          reactions := reactions[key := requested];
          return requested;
        }
      } else {
        reactions := reactions[key := requested];
        return requested;
      }
    }

    /** createPost(userId, filePath, fileName, text): one POST row with the
        next Post_id, upload time `now` and no update time. */
    method CreatePost(userId: int, filePath: Option<string>, fileName: Option<string>, text: Option<string>, now: Timestamp)
      requires Valid()
      modifies this
      ensures Valid()
      ensures users == old(users) && reactions == old(reactions) && comments == old(comments)
      ensures nextUserId == old(nextUserId) && nextCommentId == old(nextCommentId)
      ensures old(nextPostId) !in old(posts)
      ensures posts == old(posts)[old(nextPostId) := PostRow(userId, filePath, fileName, text, now, None)]
      ensures nextPostId == old(nextPostId) + 1
    {
      posts := posts[nextPostId := PostRow(userId, filePath, fileName, text, now, None)];
      nextPostId := nextPostId + 1;
    }

    /** createPost(userId, filePath, fileName): the four-argument form with
        the empty text. */
    method CreatePostWithoutText(userId: int, filePath: Option<string>, fileName: Option<string>, now: Timestamp)
      requires Valid()
      modifies this
      ensures Valid()
      ensures users == old(users) && reactions == old(reactions) && comments == old(comments)
      ensures nextUserId == old(nextUserId) && nextCommentId == old(nextCommentId)
      ensures posts == old(posts)[old(nextPostId) := PostRow(userId, filePath, fileName, Some(DefaultPostText), now, None)]
      ensures nextPostId == old(nextPostId) + 1
    {
      CreatePost(userId, filePath, fileName, Some(DefaultPostText), now);
    }

    /** listComments: the post's comments whose author row exists, oldest
        first. */
    method ListComments(postId: int) returns (list: seq<CommentView>)
      ensures var ids := Thread(PostComments(users, comments, postId), comments);
        && |list| == |ids|
        && forall i :: 0 <= i < |ids| ==> list[i] == CommentRowView(users, comments, ids[i])
    {
      var rows := PostComments(users, comments, postId);
      var ids := Thread(rows, comments);
      list := [];
      var i := 0;
      while i < |ids|
        invariant 0 <= i <= |ids|
        invariant |list| == i
        invariant forall k :: 0 <= k < i ==> list[k] == CommentRowView(users, comments, ids[k])
      {
        assert ids[i] in rows;
        list := list + [CommentRowView(users, comments, ids[i])];
        i := i + 1;
      }
    }

    /** addComment: one COMMENT row with the next Comment_id and upload time
        `now`. */
    method AddComment(userId: int, postId: int, content: string, now: Timestamp)
      requires Valid()
      modifies this
      ensures Valid()
      ensures users == old(users) && posts == old(posts) && reactions == old(reactions)
      ensures nextUserId == old(nextUserId) && nextPostId == old(nextPostId)
      ensures old(nextCommentId) !in old(comments)
      ensures comments == old(comments)[old(nextCommentId) := CommentRow(userId, postId, content, now)]
      ensures nextCommentId == old(nextCommentId) + 1
    {
      comments := comments[nextCommentId := CommentRow(userId, postId, content, now)];
      nextCommentId := nextCommentId + 1;
    }

    /** deletePost: `DELETE FROM POST WHERE Post_id=? AND User_id=?`. Only
        the author's own post goes; anything else matches no row and changes
        nothing. The post's reactions and comments stay. */
    method DeletePost(userId: int, postId: int)
      requires Valid()
      modifies this
      ensures Valid()
      ensures users == old(users) && reactions == old(reactions) && comments == old(comments)
      ensures nextUserId == old(nextUserId) && nextPostId == old(nextPostId) && nextCommentId == old(nextCommentId)
      ensures postId in old(posts) && old(posts)[postId].userId == userId ==> posts == old(posts) - {postId}
      ensures !(postId in old(posts) && old(posts)[postId].userId == userId) ==> posts == old(posts)
    {
      if postId in posts && posts[postId].userId == userId {
        posts := posts - {postId};
      }
    }

    /** updatePost: `UPDATE POST SET Post_context=?, Update_time=NOW() WHERE
        Post_id=? AND User_id=?`. Only the author's own post changes, and
        only in those two columns. */
    method UpdatePost(userId: int, postId: int, newContent: Option<string>, now: Timestamp)
      requires Valid()
      modifies this
      ensures Valid()
      ensures users == old(users) && reactions == old(reactions) && comments == old(comments)
      ensures nextUserId == old(nextUserId) && nextPostId == old(nextPostId) && nextCommentId == old(nextCommentId)
      ensures posts.Keys == old(posts).Keys
      ensures forall id :: id in posts && id != postId ==> posts[id] == old(posts)[id]
      ensures postId in old(posts) && old(posts)[postId].userId == userId ==>
                posts[postId] == old(posts)[postId].(context := newContent, updateTime := Some(now))
      ensures !(postId in old(posts) && old(posts)[postId].userId == userId) ==> posts == old(posts)
    {
      if postId in posts && posts[postId].userId == userId {
        posts := posts[postId := posts[postId].(context := newContent, updateTime := Some(now))];
      }
    }
  }

  /** A second registration under a name just registered fails, whatever
      e-mail address and password it brings. */
  method RegisterTwice(port: MySnsPort, name: string, email: string, password: string,
                       otherEmail: string, otherPassword: string)
    returns (first: Option<UserView>, second: Option<UserView>)
    requires port.Valid()
    modifies port
    ensures first.Some? ==> second.None?
  {
    first := port.Register(name, email, password);
    if first.Some? {
      RegisteredNameTaken(old(port.users), old(port.nextUserId), UserRow(name, email, password), otherEmail, port.fold);
    }
    second := port.Register(name, otherEmail, otherPassword);
  }
}
