/**
 * What the three feed stores have in common: the relational stores' tables
 * read as the in-memory store's per-post reaction maps, the toggle
 * transitions they make on those maps, the counts they report, and the
 * sequences of presses the contract describes.
 */
module BackendAgreement {
  import opened JavaLang
  import opened SnsPort
  import FakeSns
  import MySns
  import LegacyMySns

  /** A reaction table keyed by (user id, post id). */
  type Table = map<(int, int), Reaction>

  /** The users holding LIKE or DISLIKE on a post. */
  function LiveUsers(t: Table, postId: int): (users: set<int>)
    ensures forall u :: u in users <==> (u, postId) in t && t[(u, postId)] != NONE
  {
    var users := set k | k in t && k.1 == postId && t[k] != NONE :: k.0;
    assert forall u :: (u, postId) in t && t[(u, postId)] != NONE ==> u in users by {
      forall u | (u, postId) in t && t[(u, postId)] != NONE ensures u in users {
        var k := (u, postId);
        assert k in t && k.1 == postId && t[k] != NONE;
      }
    }
    users
  }

  /** A post's reactions as the in-memory store keeps them: user id to LIKE
      or DISLIKE, rows saying NONE left out. */
  function PostLive(t: Table, postId: int): (m: map<int, Reaction>)
    ensures forall u :: u in m <==> (u, postId) in t && t[(u, postId)] != NONE
    ensures forall u :: u in m ==> m[u] == t[(u, postId)]
    ensures FakeSns.NoNoneStored(m)
  {
    map u | u in LiveUsers(t, postId) :: t[(u, postId)]
  }

  /** The viewer's state a relational store reports is the one the
      in-memory store reports for the same reactions. */
  lemma StatesAgree(t: Table, userId: int, postId: int)
    ensures MySns.MyState(t, userId, postId) == FakeSns.StateOf(PostLive(t, postId), userId)
  {
  }

  /** The LIKE and DISLIKE counts a relational store reports are the ones
      the in-memory store reports for the same reactions. */
  lemma CountsAgree(t: Table, postId: int, counted: Reaction)
    requires counted != NONE
    ensures MySns.RowCount(t, postId, counted) == FakeSns.CountOf(PostLive(t, postId), counted)
  {
    var m := PostLive(t, postId);
    MySns.RowCountIsHolders(t, postId, counted);
    var holders := MySns.Holders(t, postId, counted);
    var inMap := set u | u in m && m[u] == counted;
    forall u ensures u in holders <==> u in inMap {
      if u in holders {
        var k :| k in t && k.1 == postId && t[k] == counted && k.0 == u;
        assert k == (u, postId);
      }
      if u in inMap {
        var k := (u, postId);
        assert k in t && k.1 == postId && t[k] == counted;
      }
    }
    assert holders == inMap;
  }

  /** A table changed only at one key changes only that post's map. */
  lemma OtherPostsUnchanged(before: Table, after: Table, userId: int, postId: int)
    requires forall k :: k != (userId, postId) ==> (k in after <==> k in before) && (k in after ==> after[k] == before[k])
    ensures forall q :: q != postId ==> PostLive(after, q) == PostLive(before, q)
  {
    forall q | q != postId ensures PostLive(after, q) == PostLive(before, q) {
      var a, b := PostLive(after, q), PostLive(before, q);
      assert forall u :: u in a <==> u in b;
      assert forall u :: u in a ==> a[u] == b[u];
    }
  }

  /** The current relational toggle makes the in-memory store's transition:
      its three branches (delete a row of the requested type, update a row
      of another type, insert a missing row) leave the post's map exactly as
      react(userId, postId, next) does, and touch no other post. A row
      saying NONE, which this store writes when NONE itself is requested,
      is invisible in the map. */
  lemma MySnsToggleAgrees(before: Table, after: Table, userId: int, postId: int, requested: Reaction)
    requires var key := (userId, postId);
      if key in before && before[key] == requested then after == before - {key}
      else after == before[key := requested]
    ensures var next := Toggled(MySns.MyState(before, userId, postId), requested);
      PostLive(after, postId) == FakeSns.React(PostLive(before, postId), userId, next)
    ensures forall q :: q != postId ==> PostLive(after, q) == PostLive(before, q)
  {
    var next := Toggled(MySns.MyState(before, userId, postId), requested);
    var a, f := PostLive(after, postId), FakeSns.React(PostLive(before, postId), userId, next);
    assert forall u :: u in a <==> u in f;
    assert forall u :: u in a ==> a[u] == f[u];
    OtherPostsUnchanged(before, after, userId, postId);
  }

  /** The older relational toggle makes the same transition: whichever of
      insert, delete, update or nothing ActionFor picks, the post's map
      becomes react(userId, postId, next). */
  lemma LegacyToggleAgrees(before: Table, after: Table, userId: int, postId: int, requested: Reaction)
    requires LegacyMySns.NoNoneRows(before)
    requires var key, current := (userId, postId), MySns.MyState(before, userId, postId);
      var next := Toggled(current, requested);
      match LegacyMySns.ActionFor(current, next)
      case Insert => after == before[key := next]
      case Delete => after == before - {key}
      case Update => after == before[key := next]
      case NoChange => after == before
    ensures var next := Toggled(MySns.MyState(before, userId, postId), requested);
      PostLive(after, postId) == FakeSns.React(PostLive(before, postId), userId, next)
    ensures forall q :: q != postId ==> PostLive(after, q) == PostLive(before, q)
    ensures LegacyMySns.NoNoneRows(after)
  {
    var key := (userId, postId);
    var next := Toggled(MySns.MyState(before, userId, postId), requested);
    assert after == if next == NONE then before - {key} else before[key := next];
    var a, f := PostLive(after, postId), FakeSns.React(PostLive(before, postId), userId, next);
    assert forall u :: u in a <==> u in f;
    assert forall u :: u in a ==> a[u] == f[u];
    OtherPostsUnchanged(before, after, userId, postId);
  }

  /** The state after pressing the same reaction button `n` times. */
  function Presses(start: Reaction, button: Reaction, n: nat): Reaction {
    if n == 0 then start else Toggled(Presses(start, button, n - 1), button)
  }

  /** From NONE, an even number of presses of LIKE (or DISLIKE) ends in
      NONE and an odd number in that reaction. */
  lemma {:induction false} RepeatedPresses(button: Reaction, n: nat)
    requires button != NONE
    ensures Presses(NONE, button, n) == if n % 2 == 0 then NONE else button
  {
    if n > 0 {
      RepeatedPresses(button, n - 1);
    }
  }

  /** Pressing the other reaction switches directly, with no NONE in
      between. */
  lemma SwitchIsDirect(held: Reaction, button: Reaction)
    requires held != NONE && button != NONE && held != button
    ensures Toggled(held, button) == button
  {
  }
}
