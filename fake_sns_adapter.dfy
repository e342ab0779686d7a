/**
 * The in-memory feed store: users and posts kept in lists, one reaction map
 * per post (user id to LIKE or DISLIKE, no entry meaning NONE), and id
 * counters that only grow. It is the reference statement of the feed
 * semantics; it builds the nine-field view of the older contract and has no
 * text bodies, comments, deletion or editing.
 *
 * A post's reaction map is mutated in place in the original; here each post
 * is a value and the list of posts is reassigned, which is the same thing
 * because no post object ever leaves the store.
 */
module FakeSns {
  import opened JavaLang
  import opened SnsPort
  import opened Ordering

  datatype User = User(id: int, name: string, password: string)

  datatype Post = Post(
    id: int,
    authorId: int,
    filePath: Option<string>,
    fileName: Option<string>,
    uploadTime: Timestamp,
    reactions: map<int, Reaction>)

  /** NONE is never stored: it is the absence of an entry. */
  predicate NoNoneStored(m: map<int, Reaction>) {
    forall u :: u in m ==> m[u] != NONE
  }

  /** `reactions.getOrDefault(userId, "NONE")`. */
  function StateOf(m: map<int, Reaction>, userId: int): Reaction {
    if userId in m then m[userId] else NONE
  }

  /** The users holding `state` on the post. */
  function HoldersOf(m: map<int, Reaction>, state: Reaction): set<int> {
    set u | u in m && m[u] == state
  }

  /** How many users hold `state` on the post. */
  function CountOf(m: map<int, Reaction>, state: Reaction): nat {
    |HoldersOf(m, state)|
  }

  /** react(userId, postId, state) on the post's map: NONE removes the
      user's entry, any other state overwrites it. */
  function React(m: map<int, Reaction>, userId: int, state: Reaction): (r: map<int, Reaction>)
    ensures StateOf(r, userId) == state
    ensures forall u :: u != userId ==> (u in r <==> u in m) && (u in r ==> r[u] == m[u])
    ensures NoNoneStored(m) ==> NoNoneStored(r)
  {
    if state == NONE then m - {userId} else m[userId := state]
  }

  /** Removing or adding one element changes a set's size by one. */
  lemma CardWithout(s: set<int>, u: int)
    ensures |s| == |s - {u}| + (if u in s then 1 else 0)
  {
    if u in s {
      assert s == (s - {u}) + {u};
    } else {
      assert s - {u} == s;
    }
  }

  /** A reaction moves each count by at most one: the user's old state
      leaves its count and the new state joins its count. */
  lemma ReactCounts(m: map<int, Reaction>, userId: int, state: Reaction, counted: Reaction)
    requires counted != NONE
    ensures CountOf(React(m, userId, state), counted) + (if StateOf(m, userId) == counted then 1 else 0)
         == CountOf(m, counted) + (if state == counted then 1 else 0)
  {
    var before := HoldersOf(m, counted);
    var after := HoldersOf(React(m, userId, state), counted);
    OthersKeepHolding(m, userId, state, counted);
    CardWithout(before, userId);
    CardWithout(after, userId);
  }

  /** Reacting changes no other user's membership among the holders. */
  lemma OthersKeepHolding(m: map<int, Reaction>, userId: int, state: Reaction, counted: Reaction)
    requires counted != NONE
    ensures HoldersOf(React(m, userId, state), counted) - {userId} == HoldersOf(m, counted) - {userId}
    ensures userId in HoldersOf(m, counted) <==> StateOf(m, userId) == counted
    ensures userId in HoldersOf(React(m, userId, state), counted) <==> state == counted
  {
  }

  predicate AscendingIds(posts: seq<Post>) {
    forall i, j :: 0 <= i < j < |posts| ==> posts[i].id < posts[j].id
  }

  predicate AscendingUserIds(users: seq<User>) {
    forall i, j :: 0 <= i < j < |users| ==> users[i].id < users[j].id
  }

  /** findPost: the position of the first post with that id, or None where
      the original throws "post not found". */
  function FindPost(posts: seq<Post>, id: int): (r: Option<nat>)
    ensures r.Some? ==> r.value < |posts| && posts[r.value].id == id
    ensures r.Some? ==> forall j :: 0 <= j < r.value ==> posts[j].id != id
    ensures r.None? <==> forall j :: 0 <= j < |posts| ==> posts[j].id != id
  {
    if posts == [] then None
    else if posts[0].id == id then Some(0)
    else
      var rest := FindPost(posts[1..], id);
      if rest.None? then None else Some(rest.value + 1)
  }

  /** authorName: the name of the first user with that id, "Unknown" when
      there is none. */
  function AuthorName(users: seq<User>, authorId: int): (name: string)
    ensures (forall i :: 0 <= i < |users| ==> users[i].id != authorId) ==> name == "Unknown"
    ensures forall i :: (0 <= i < |users| && users[i].id == authorId &&
              forall j :: 0 <= j < i ==> users[j].id != authorId) ==> name == users[i].name
  {
    if users == [] then "Unknown"
    else if users[0].id == authorId then users[0].name
    else AuthorName(users[1..], authorId)
  }

  /** The login test: the name equal ignoring case, the password exactly. */
  predicate LoginMatches(u: User, name: string, password: string, cases: CaseMapping) {
    EqualsIgnoreCase(u.name, name, cases) && u.password == password
  }

  /** The first user passing the login test. */
  function FirstLogin(users: seq<User>, name: string, password: string, cases: CaseMapping): (r: Option<UserView>)
    ensures r.None? <==> forall i :: 0 <= i < |users| ==> !LoginMatches(users[i], name, password, cases)
    ensures r.Some? ==> exists i :: (0 <= i < |users| && LoginMatches(users[i], name, password, cases)
              && (forall j :: 0 <= j < i ==> !LoginMatches(users[j], name, password, cases))
              && r.value == UserView(users[i].id, users[i].name))
  {
    if users == [] then None
    else if LoginMatches(users[0], name, password, cases) then Some(UserView(users[0].id, users[0].name))
    else
      var r := FirstLogin(users[1..], name, password, cases);
      assert r.Some? ==> exists i :: (1 <= i < |users| && LoginMatches(users[i], name, password, cases)
        && (forall j :: 0 <= j < i ==> !LoginMatches(users[j], name, password, cases))
        && r.value == UserView(users[i].id, users[i].name)) by {
        if r.Some? {
          var i :| 0 <= i < |users[1..]| && LoginMatches(users[1..][i], name, password, cases)
            && (forall j :: 0 <= j < i ==> !LoginMatches(users[1..][j], name, password, cases))
            && r.value == UserView(users[1..][i].id, users[1..][i].name);
          assert forall j :: 1 <= j < i + 1 ==> users[j] == users[1..][j - 1];
        }
      }
      r
  }

  /** contains(s, kw): the empty keyword matches everything, null never
      matches anything else, otherwise a substring test on the lower-cased
      strings. */
  predicate ContainsKeyword(s: Option<string>, kw: string, cases: CaseMapping) {
    kw == [] || (s.Some? && Contains(ToLower(s.value, cases), ToLower(kw, cases)))
  }

  /** The search filter: the file name or the author's name contains the
      keyword. */
  predicate Matches(users: seq<User>, p: Post, kw: string, cases: CaseMapping) {
    ContainsKeyword(p.fileName, kw, cases) || ContainsKeyword(Some(AuthorName(users, p.authorId)), kw, cases)
  }

  /** The posts that pass the search filter, in their stored order. */
  function FilterMatching(users: seq<User>, posts: seq<Post>, kw: string, cases: CaseMapping): (r: seq<Post>)
    ensures |r| <= |posts|
    ensures AscendingIds(posts) ==> AscendingIds(r)
    ensures AscendingIds(posts) && r != [] ==> r[0].id >= posts[0].id
  {
    if posts == [] then []
    else
      var rest := FilterMatching(users, posts[1..], kw, cases);
      if Matches(users, posts[0], kw, cases) then [posts[0]] + rest else rest
  }

  /** The filter keeps exactly the posts that match. */
  lemma {:induction false} FilterMatchingSelects(users: seq<User>, posts: seq<Post>, kw: string, cases: CaseMapping)
    ensures forall p :: p in FilterMatching(users, posts, kw, cases) <==> p in posts && Matches(users, p, kw, cases)
  {
    if posts != [] {
      FilterMatchingSelects(users, posts[1..], kw, cases);
      assert posts == [posts[0]] + posts[1..];
    }
  }

  /** The empty keyword keeps every post. */
  lemma {:induction false} EmptyKeywordKeepsAll(users: seq<User>, posts: seq<Post>, cases: CaseMapping)
    ensures FilterMatching(users, posts, "", cases) == posts
  {
    if posts != [] {
      EmptyKeywordKeepsAll(users, posts[1..], cases);
      assert Matches(users, posts[0], "", cases);
      assert [posts[0]] + posts[1..] == posts;
    }
  }

  /** toView: the post with its author's name, its LIKE and DISLIKE counts
      and the requester's own state. */
  function ToView(users: seq<User>, p: Post, requesterId: int): LegacyPostView {
    LegacyPostView(
      p.id, p.authorId, AuthorName(users, p.authorId),
      p.filePath, p.fileName, p.uploadTime,
      CountOf(p.reactions, LIKE), CountOf(p.reactions, DISLIKE),
      StateOf(p.reactions, requesterId))
  }

  function Views(users: seq<User>, ps: seq<Post>, requesterId: int): (r: seq<LegacyPostView>)
    ensures |r| == |ps|
    ensures forall i :: 0 <= i < |ps| ==> r[i] == ToView(users, ps[i], requesterId)
  {
    seq(|ps|, i requires 0 <= i < |ps| => ToView(users, ps[i], requesterId))
  }

  /** sorted by descending id, then limit: with ids ascending in storage
      order this is the last `limit` posts, newest first. */
  function Newest(posts: seq<Post>, limit: int): (r: seq<Post>)
    requires AscendingIds(posts)
    ensures |r| == if limit <= 0 then 0 else if limit < |posts| then limit else |posts|
    ensures forall i :: 0 <= i < |r| ==> r[i] == posts[|posts| - 1 - i]
    ensures forall i, j :: 0 <= i < j < |r| ==> r[i].id > r[j].id
    ensures forall k, i :: 0 <= k < |posts| - |r| && 0 <= i < |r| ==> posts[k].id < r[i].id
  {
    Take(Reverse(posts), limit)
  }

  function Min(a: int, b: int): int {
    if a < b then a else b
  }

  /** Sorted by descending id, limited, and each seen by the requester:
      position i is the i-th newest post, and every post left out is
      older than every post shown. */
  function Ranked(users: seq<User>, ps: seq<Post>, limit: int, requesterId: int): (r: seq<LegacyPostView>)
    requires AscendingIds(ps)
    ensures limit >= 0 ==> |r| == Min(limit, |ps|)
    ensures limit < 0 ==> r == []
    ensures forall i, j :: 0 <= i < j < |r| ==> r[i].postId > r[j].postId
    ensures forall i :: 0 <= i < |r| ==> r[i] == ToView(users, ps[|ps| - 1 - i], requesterId)
    ensures forall k, i :: 0 <= k < |ps| - |r| && 0 <= i < |r| ==> ps[k].id < r[i].postId
  {
    Views(users, Newest(ps, limit), requesterId)
  }

  class FakeSnsAdapter {
    /** Java's case mappings under the default locale. */
    const cases: CaseMapping
    var users: seq<User>
    var posts: seq<Post>
    var userSeq: int
    var postSeq: int

    ghost predicate Valid()
      reads this
    {
      && AscendingUserIds(users)
      && (forall i :: 0 <= i < |users| ==> users[i].id < userSeq)
      && AscendingIds(posts)
      && (forall i :: 0 <= i < |posts| ==> posts[i].id < postSeq)
      && (forall i :: 0 <= i < |posts| ==> NoNoneStored(posts[i].reactions))
    }

    /** The seeded store: Alice, Bob and Charlie with password "1111", four
        posts, Alice liking post 1 and Bob disliking post 3. Every seed post
        gets the same upload time `now`. */
    constructor (now: Timestamp, cases: CaseMapping)
      ensures Valid() && this.cases == cases
      ensures users == [User(1, "Alice", "1111"), User(2, "Bob", "1111"), User(3, "Charlie", "1111")]
      ensures userSeq == 4 && postSeq == 5
      ensures posts == [
        Post(1, 1, Some("sample"), Some("first.png"), now, map[1 := LIKE]),
        Post(2, 1, Some("sample"), Some("db_ok.png"), now, map[]),
        Post(3, 2, Some("sample"), Some("only_text.png"), now, map[2 := DISLIKE]),
        Post(4, 3, None, None, now, map[])]
    {
      this.cases := cases;
      users := [User(1, "Alice", "1111"), User(2, "Bob", "1111"), User(3, "Charlie", "1111")];
      userSeq := 4;
      posts := [
        Post(1, 1, Some("sample"), Some("first.png"), now, map[]),
        Post(2, 1, Some("sample"), Some("db_ok.png"), now, map[]),
        Post(3, 2, Some("sample"), Some("only_text.png"), now, map[]),
        Post(4, 3, None, None, now, map[])];
      postSeq := 5;
      new;
      ReactOn(1, 1, LIKE);
      assert FindPost(posts, 3) == Some(2) by {
        assert posts[0].id == 1 && posts[1].id == 2 && posts[2].id == 3;
      }
      ReactOn(2, 3, DISLIKE);
    }

    /** login: both inputs trimmed (null read as ""), then the first user
        whose name equals the username ignoring case and whose password is
        exactly equal. */
    function Login(username: Option<string>, password: Option<string>): (r: Option<UserView>)
      reads this
      ensures var id, pw := TrimOrEmpty(username), TrimOrEmpty(password);
        && (r.None? <==> forall i :: 0 <= i < |users| ==> !LoginMatches(users[i], id, pw, cases))
        && (r.Some? ==> exists i :: (0 <= i < |users| && LoginMatches(users[i], id, pw, cases)
              && (forall j :: 0 <= j < i ==> !LoginMatches(users[j], id, pw, cases))
              && r.value == UserView(users[i].id, users[i].name)))
    {
      FirstLogin(users, TrimOrEmpty(username), TrimOrEmpty(password), cases)
    }

    /** listRecent: at most `limit` posts, newest id first, each as seen by
        the requester. A negative limit makes Stream.limit throw. */
    function ListRecent(requesterId: int, limit: int): (r: Result<seq<LegacyPostView>>)
      reads this
      requires Valid()
      ensures r.Err? <==> limit < 0
      ensures r.Err? ==> r.failure == IllegalArgument
      ensures r.Ok? ==> |r.value| == Min(limit, |posts|)
      ensures r.Ok? ==> forall i, j :: 0 <= i < j < |r.value| ==> r.value[i].postId > r.value[j].postId
      ensures r.Ok? ==> forall i :: 0 <= i < |r.value| ==>
                r.value[i] == ToView(users, posts[|posts| - 1 - i], requesterId)
      ensures r.Ok? ==> forall k, i :: 0 <= k < |posts| - |r.value| && 0 <= i < |r.value| ==>
                posts[k].id < r.value[i].postId
    {
      if limit < 0 then Err(IllegalArgument)
      else Ok(Ranked(users, posts, limit, requesterId))
    }

    /** The posts a search for `keyword` selects before ordering: the
        keyword trimmed, null read as "". */
    function Hits(keyword: Option<string>): seq<Post>
      reads this
    {
      FilterMatching(users, posts, TrimOrEmpty(keyword), cases)
    }

    /** search: the keyword trimmed (null read as ""), then the posts whose
        file name or author name contains it ignoring case, ordered and
        limited as listRecent. */
    function Search(requesterId: int, keyword: Option<string>, limit: int): (r: Result<seq<LegacyPostView>>)
      reads this
      requires Valid()
      ensures r.Err? <==> limit < 0
      ensures r.Err? ==> r.failure == IllegalArgument
      ensures AscendingIds(Hits(keyword))
      ensures r.Ok? ==> r.value == Ranked(users, Hits(keyword), limit, requesterId)
    {
      if limit < 0 then Err(IllegalArgument)
      else Ok(Ranked(users, Hits(keyword), limit, requesterId))
    }

    /** A null keyword, or one that trims to empty, searches like
        listRecent lists. A blank keyword that trim keeps (U+3000) is
        searched for as it is. */
    lemma EmptyTrimmedSearchIsListRecent(requesterId: int, keyword: Option<string>, limit: int)
      requires Valid()
      requires TrimOrEmpty(keyword) == ""
      ensures Search(requesterId, keyword, limit) == ListRecent(requesterId, limit)
    {
      EmptyKeywordKeepsAll(users, posts, cases);
    }

    /** react(userId, postId, state) for a post that exists. */
    method ReactOn(userId: int, postId: int, state: Reaction)
      requires Valid()
      requires FindPost(posts, postId).Some?
      modifies this
      ensures Valid()
      ensures users == old(users) && userSeq == old(userSeq) && postSeq == old(postSeq)
      ensures var i := FindPost(old(posts), postId).value;
        posts == old(posts)[i := old(posts)[i].(reactions := React(old(posts)[i].reactions, userId, state))]
    {
      var i := FindPost(posts, postId).value;
      posts := posts[i := posts[i].(reactions := React(posts[i].reactions, userId, state))];
    }

    /** toggleReaction: the requester's new state is NONE when it equals the
        requested type and the requested type otherwise; only that user's
        entry on that post changes. An unknown post id throws. */
    method ToggleReaction(userId: int, postId: int, requested: Reaction) returns (r: Result<Reaction>)
      requires Valid()
      modifies this
      ensures Valid()
      ensures users == old(users) && userSeq == old(userSeq) && postSeq == old(postSeq)
      ensures match FindPost(old(posts), postId)
        case None => r == Err(IllegalArgument) && posts == old(posts)
        case Some(i) =>
          var before := old(posts)[i].reactions;
          && r == Ok(Toggled(StateOf(before, userId), requested))
          && posts == old(posts)[i := old(posts)[i].(reactions := React(before, userId, r.value))]
    {
      var found := FindPost(posts, postId);
      if found.None? {
        return Err(IllegalArgument);
      }
      var prev := StateOf(posts[found.value].reactions, userId);
      var next := Toggled(prev, requested);
      ReactOn(userId, postId, next);
      r := Ok(next);
    }

    /** createPost: appends a post with id postSeq, no reactions and the
        given upload time, then advances postSeq. */
    method CreatePost(userId: int, filePath: Option<string>, fileName: Option<string>, now: Timestamp)
      requires Valid()
      modifies this
      ensures Valid()
      ensures users == old(users) && userSeq == old(userSeq)
      ensures postSeq == old(postSeq) + 1
      ensures posts == old(posts) + [Post(old(postSeq), userId, filePath, fileName, now, map[])]
      ensures forall i :: 0 <= i < |old(posts)| ==> posts[i].id < posts[|posts| - 1].id
    {
      posts := posts + [Post(postSeq, userId, filePath, fileName, now, map[])];
      postSeq := postSeq + 1;
    }
  }
}
