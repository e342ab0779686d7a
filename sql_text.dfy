/**
 * The two string comparisons the relational backends ask the database for:
 * `column = ?` and `column LIKE ?`.
 *
 * How the database compares characters depends on the column's collation,
 * which is not part of the repository. It is a parameter here: `fold` maps
 * each character to the key the collation compares (the identity for a
 * binary collation, a case mapping for a case-insensitive one), so that
 * neither case sensitivity nor insensitivity is assumed. Comparison is
 * character by character: collations that pad with spaces or equate a
 * character with a pair of characters are outside this parameter.
 */
module SqlText {
  import opened JavaLang

  /** `a = b` under the collation. */
  predicate SqlEquals(a: string, b: string, fold: char -> char) {
    MapChars(a, fold) == MapChars(b, fold)
  }

  /** The characters LIKE treats specially: the two wildcards and the
      default escape character `\`. */
  predicate IsSpecial(c: char) {
    c == '%' || c == '_' || c == '\\'
  }

  predicate HasSpecial(k: string) {
    exists i :: 0 <= i < |k| && IsSpecial(k[i])
  }

  /** `s LIKE p` with the default escape: `%` matches any run of
      characters, `_` any one character, `\` followed by a character that
      character itself, and every other pattern character (a `\` at the
      very end included) one character with the same key. */
  predicate Like(p: string, s: string, fold: char -> char)
    decreases |p| + |s|
  {
    if p == [] then s == []
    else if p[0] == '%' then Like(p[1..], s, fold) || (s != [] && Like(p, s[1..], fold))
    else if p[0] == '\\' && |p| >= 2 then s != [] && fold(p[1]) == fold(s[0]) && Like(p[2..], s[1..], fold)
    else s != [] && (p[0] == '_' || fold(p[0]) == fold(s[0])) && Like(p[1..], s[1..], fold)
  }

  /** LIKE on a nullable column: NULL LIKE p is unknown, which a WHERE
      clause treats as false. */
  predicate LikeNullable(v: Option<string>, p: string, fold: char -> char) {
    v.Some? && Like(p, v.value, fold)
  }

  /** The pattern `"%" + keyword + "%"` the backends build for a search. */
  function ContainsPattern(keyword: string): string {
    "%" + keyword + "%"
  }

  /** A lone `%` matches every string. */
  lemma {:induction false} LikeAnything(s: string, fold: char -> char)
    ensures Like("%", s, fold)
    decreases |s|
  {
    if s != [] {
      LikeAnything(s[1..], fold);
    }
  }

  /** `k%` matches exactly the strings that start with `k` under the
      collation, when `k` holds no wildcard and no escape. */
  lemma {:induction false} LikeLiteralPrefix(k: string, s: string, fold: char -> char)
    requires !HasSpecial(k)
    ensures Like(k + "%", s, fold) <==> MapChars(k, fold) <= MapChars(s, fold)
    decreases |k|
  {
    if k == [] {
      assert k + "%" == "%";
      LikeAnything(s, fold);
    } else {
      var p := k + "%";
      assert p[0] == k[0] && p[1..] == k[1..] + "%";
      assert !IsSpecial(k[0]);
      assert !HasSpecial(k[1..]) by {
        forall i | 0 <= i < |k[1..]| ensures !IsSpecial(k[1..][i]) {
          assert k[1..][i] == k[i + 1];
        }
      }
      if s != [] {
        LikeLiteralPrefix(k[1..], s[1..], fold);
        var K, S := MapChars(k, fold), MapChars(s, fold);
        assert MapChars(k[1..], fold) == K[1..];
        assert MapChars(s[1..], fold) == S[1..];
        assert K <= S <==> (K[0] == S[0] && K[1..] <= S[1..]);
      }
    }
  }

  /** A leading `%` lets the rest of the pattern match any suffix. */
  lemma {:induction false} LikeAnySuffix(q: string, s: string, fold: char -> char)
    ensures Like("%" + q, s, fold) <==> exists i :: 0 <= i <= |s| && Like(q, s[i..], fold)
    decreases |s|
  {
    var p := "%" + q;
    assert p[1..] == q;
    assert s[0..] == s;
    if s != [] {
      LikeAnySuffix(q, s[1..], fold);
      if Like(p, s[1..], fold) {
        var i :| 0 <= i <= |s[1..]| && Like(q, s[1..][i..], fold);
        assert s[1..][i..] == s[i + 1..];
      }
      if exists i :: 1 <= i <= |s| && Like(q, s[i..], fold) {
        var i :| 1 <= i <= |s| && Like(q, s[i..], fold);
        assert s[1..][i - 1..] == s[i..];
      }
    }
  }

  /** What a search asks the database: `s LIKE '%k%'` holds exactly when
      `k` occurs in `s` under the collation, as long as `k` holds no
      wildcard and no escape. */
  lemma LikeContains(k: string, s: string, fold: char -> char)
    requires !HasSpecial(k)
    ensures Like(ContainsPattern(k), s, fold) <==> Contains(MapChars(s, fold), MapChars(k, fold))
  {
    var K, S := MapChars(k, fold), MapChars(s, fold);
    assert ContainsPattern(k) == "%" + (k + "%");
    LikeAnySuffix(k + "%", s, fold);
    if Like(ContainsPattern(k), s, fold) {
      var i :| 0 <= i <= |s| && Like(k + "%", s[i..], fold);
      LikeLiteralPrefix(k, s[i..], fold);
      assert MapChars(s[i..], fold) == S[i..];
    }
    if Contains(S, K) {
      var i :| 0 <= i <= |S| && K <= S[i..];
      LikeLiteralPrefix(k, s[i..], fold);
      assert MapChars(s[i..], fold) == S[i..];
    }
  }

  /** A `\` in a search keyword escapes the next character rather than
      standing for itself: the keyword `a\b` finds "ab", which does not
      contain it. */
  lemma EscapeInKeyword(fold: char -> char)
    ensures Like(ContainsPattern("a\\b"), "ab", fold)
    ensures !Contains("ab", "a\\b")
  {
    var p := ContainsPattern("a\\b");
    assert p == "%a\\b%";
    assert p[1..] == "a\\b%" && p[1..][1..] == "\\b%" && p[1..][1..][2..] == "%";
    assert "ab"[1..] == "b" && "b"[1..] == "";
    assert Like("%", "", fold);
    assert Like("\\b%", "b", fold);
    assert Like("a\\b%", "ab", fold);
  }

  /** The empty keyword matches every non-null value. */
  lemma LikeEmptyKeyword(s: string, fold: char -> char)
    ensures Like(ContainsPattern(""), s, fold)
  {
    assert ContainsPattern("") == "%" + "%";
    LikeAnySuffix("%", s, fold);
    LikeAnything(s, fold);
    assert s[0..] == s;
  }
}
