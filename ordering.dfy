/**
 * Ordering and truncation as the feed queries use them: `Stream.limit` and
 * SQL `LIMIT`, reversal, and `ORDER BY <rank> DESC` over a set of row ids.
 *
 * A query orders rows by a rank (a post id, an upload time); rows of equal
 * rank come out in an order the database does not promise. The model breaks
 * such ties by row id, so that every result is one the database may return.
 */
module Ordering {

  /** The first `n` elements, or all of them when there are fewer; nothing
      for `n <= 0`. */
  function Take<T>(s: seq<T>, n: int): (r: seq<T>)
    ensures |r| == if n <= 0 then 0 else if n < |s| then n else |s|
    ensures r == s[..|r|]
  {
    if n <= 0 then [] else if n < |s| then s[..n] else s
  }

  /** The elements in the opposite order. */
  function Reverse<T>(s: seq<T>): (r: seq<T>)
    ensures |r| == |s|
    ensures forall i :: 0 <= i < |s| ==> r[i] == s[|s| - 1 - i]
  {
    if s == [] then [] else Reverse(s[1..]) + [s[0]]
  }

  /** Reversal keeps the same elements. */
  lemma ReverseSameMembers<T>(s: seq<T>)
    ensures forall x :: x in Reverse(s) <==> x in s
  {
    var r := Reverse(s);
    forall x | x in s ensures x in r {
      var k :| 0 <= k < |s| && s[k] == x;
      assert r[|s| - 1 - k] == x;
    }
  }

  /** Lexicographic order on texts: the first differing character decides,
      and a proper prefix comes first. On texts made of decimal digits this
      is the order a collator gives them. */
  predicate TextBefore(a: string, b: string) {
    if a == [] then b != []
    else if b == [] then false
    else a[0] < b[0] || (a[0] == b[0] && TextBefore(a[1..], b[1..]))
  }

  /** No text comes before itself. */
  lemma {:induction false} TextBeforeIrreflexive(a: string)
    ensures !TextBefore(a, a)
  {
    if a != [] {
      TextBeforeIrreflexive(a[1..]);
    }
  }

  /** The text order is transitive. */
  lemma {:induction false} TextBeforeTransitive(a: string, b: string, c: string)
    requires TextBefore(a, b) && TextBefore(b, c)
    ensures TextBefore(a, c)
  {
    if a != [] && a[0] == b[0] && b[0] == c[0] {
      TextBeforeTransitive(a[1..], b[1..], c[1..]);
    }
  }

  /** Any two different texts are ordered one way or the other. */
  lemma {:induction false} TextBeforeTotal(a: string, b: string)
    ensures a == b || TextBefore(a, b) || TextBefore(b, a)
  {
    if a != [] && b != [] && a[0] == b[0] {
      TextBeforeTotal(a[1..], b[1..]);
      if a[1..] == b[1..] {
        assert a == [a[0]] + a[1..];
        assert b == [b[0]] + b[1..];
      }
    }
  }

  /** Row `a` comes before row `b` in a descending order by `rank`, ties
      broken by the larger id. A strict total order on ids. */
  predicate Above(a: int, b: int, rank: int -> int) {
    rank(a) > rank(b) || (rank(a) == rank(b) && a > b)
  }

  /** `ids` lists rows strictly in descending order. */
  predicate SortedDesc(ids: seq<int>, rank: int -> int) {
    forall i, j :: 0 <= i < j < |ids| ==> Above(ids[i], ids[j], rank)
  }

  /** `m` is the first row of `s` in the descending order. */
  predicate IsTop(m: int, s: set<int>, rank: int -> int) {
    m in s && forall y :: y in s && y != m ==> Above(m, y, rank)
  }

  /** A non-empty set has a member to pick. */
  lemma NonEmptyHasMember(s: set<int>)
    requires s != {}
    ensures exists x :: x in s
  {
    if forall x :: x !in s {
      assert false;
    }
  }

  /** Every non-empty set of rows has a first row. */
  lemma {:induction false} TopExists(s: set<int>, rank: int -> int)
    requires s != {}
    ensures exists m :: IsTop(m, s, rank)
    decreases |s|
  {
    NonEmptyHasMember(s);
    var x :| x in s;
    if s == {x} {
      assert IsTop(x, s, rank);
    } else {
      var rest := s - {x};
      TopExists(rest, rank);
      var m :| IsTop(m, rest, rank);
      if Above(m, x, rank) {
        assert IsTop(m, s, rank);
      } else {
        forall y | y in s && y != x ensures Above(x, y, rank) {
          if y != m {
            assert Above(m, y, rank);
          }
        }
        assert IsTop(x, s, rank);
      }
    }
  }

  /** The first row of a non-empty set in the descending order. */
  function Top(s: set<int>, rank: int -> int): (m: int)
    requires s != {}
    ensures IsTop(m, s, rank)
  {
    TopExists(s, rank);
    var m :| IsTop(m, s, rank);
    m
  }

  /** ORDER BY rank DESC: every row exactly once, strictly descending. */
  function SortDesc(s: set<int>, rank: int -> int): (r: seq<int>)
    ensures |r| == |s|
    ensures forall x :: x in r <==> x in s
    ensures SortedDesc(r, rank)
    decreases |s|
  {
    if s == {} then []
    else
      var m := Top(s, rank);
      [m] + SortDesc(s - {m}, rank)
  }

  /** ORDER BY rank DESC LIMIT n: at most n rows, each from the set, in
      descending order, and every row left out ranks below every row kept.
      A LIMIT below zero yields no rows. */
  function TopN(s: set<int>, rank: int -> int, n: int): (r: seq<int>)
    ensures |r| == if n <= 0 then 0 else if n < |s| then n else |s|
    ensures forall i :: 0 <= i < |r| ==> r[i] in s
    ensures SortedDesc(r, rank)
    ensures forall x, y :: x in s && x !in r && y in r ==> Above(y, x, rank)
  {
    var all := SortDesc(s, rank);
    var r := Take(all, n);
    forall x | x in s && x !in r ensures forall y :: y in r ==> Above(y, x, rank) {
      TakeSortedKeepsTop(all, rank, n, x);
    }
    r
  }

  /** ORDER BY rank DESC LIMIT n keeps the top rows: a row left out ranks
      below every row kept. */
  lemma {:induction false} TakeSortedKeepsTop(r: seq<int>, rank: int -> int, n: int, x: int)
    requires SortedDesc(r, rank)
    requires x in r && x !in Take(r, n)
    ensures forall y :: y in Take(r, n) ==> Above(y, x, rank)
  {
    var t := Take(r, n);
    var j :| 0 <= j < |r| && r[j] == x;
    assert j >= |t|;
    forall y | y in t ensures Above(y, x, rank) {
      var i :| 0 <= i < |t| && t[i] == y;
      assert r[i] == y;
    }
  }
}
