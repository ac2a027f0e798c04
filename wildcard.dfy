/** Elasticsearch-style name patterns (`*` any run, `?` one character), their
    rewrite into SQL LIKE patterns (db/client.go, FindIndices and FindTypes),
    and the LIKE matching PostgreSQL then applies (`%` any run, `_` one
    character, `\` the default escape: the character after it is literal;
    everything else literal). */
module Wildcard {

  /** One character of the rewrite: `?` becomes `_`, `*` becomes `%`. */
  function TranslateChar(c: char): char
  {
    if c == '?' then '_' else if c == '*' then '%' else c
  }

  /** `strings.Replace(p, "?", "_", -1)` followed by `strings.Replace(p, "*", "%", -1)`. */
  function Translate(p: string): (r: string)
    ensures |r| == |p|
    ensures forall k :: 0 <= k < |p| ==> r[k] == TranslateChar(p[k])
  {
    if p == [] then [] else [TranslateChar(p[0])] + Translate(p[1..])
  }

  const Escape := '\\'

  /** PostgreSQL `s LIKE pat` with its default escape character `\`.  A
      pattern ending in the escape character matches nothing here; PostgreSQL
      refuses such a pattern with an error. */
  predicate LikeMatch(pat: string, s: string)
    decreases |pat| + |s|
  {
    if pat == [] then s == []
    else if pat[0] == '%' then LikeMatch(pat[1..], s) || (s != [] && LikeMatch(pat, s[1..]))
    else if pat[0] == Escape then |pat| > 1 && s != [] && pat[1] == s[0] && LikeMatch(pat[2..], s[1..])
    else s != [] && (pat[0] == '_' || pat[0] == s[0]) && LikeMatch(pat[1..], s[1..])
  }

  /** Elasticsearch wildcard matching of a name against a pattern. */
  predicate EsMatch(pat: string, s: string)
    decreases |pat| + |s|
  {
    if pat == [] then s == []
    else if pat[0] == '*' then EsMatch(pat[1..], s) || (s != [] && EsMatch(pat, s[1..]))
    else s != [] && (pat[0] == '?' || pat[0] == s[0]) && EsMatch(pat[1..], s[1..])
  }

  /** The pattern has no character LIKE treats specially. */
  predicate NoLikeMetachars(p: string)
  {
    forall k :: 0 <= k < |p| ==> p[k] != '_' && p[k] != '%' && p[k] != Escape
  }

  /** For patterns without literal `_`, `%` or `\`, the rewrite is exact: LIKE on the
      rewritten pattern accepts precisely the names the wildcard pattern accepts. */
  lemma {:induction false} TranslateIsFaithful(p: string, s: string)
    requires NoLikeMetachars(p)
    ensures LikeMatch(Translate(p), s) <==> EsMatch(p, s)
    decreases |p| + |s|
  {
    var t := Translate(p);
    if p != [] {
      assert t[1..] == Translate(p[1..]);
      assert NoLikeMetachars(p[1..]) by {
        forall k | 0 <= k < |p[1..]| ensures p[1..][k] != '_' && p[1..][k] != '%' && p[1..][k] != Escape {
          assert p[1..][k] == p[k + 1];
        }
      }
      TranslateIsFaithful(p[1..], s);
      if s != [] {
        TranslateIsFaithful(p[1..], s[1..]);
        if p[0] == '*' {
          TranslateIsFaithful(p, s[1..]);
        }
      }
    }
  }

  /** A literal `_` in an Elasticsearch pattern is not rewritten, so LIKE reads
      it as a one-character wildcard: "a_c" finds the name "abc". */
  lemma LiteralUnderscoreMatchesAnyChar()
    ensures !EsMatch("a_c", "abc")
    ensures LikeMatch(Translate("a_c"), "abc")
  {
    assert Translate("a_c") == "a_c";
    assert LikeMatch("c", "c");
    assert LikeMatch("_c", "bc");
  }

  /** A backslash is not rewritten, so LIKE reads it as its escape: `a\*`
      becomes `a\%`, which finds only the name "a%", not "a\b". */
  lemma BackslashEscapesWildcard()
    ensures Translate("a\\*") == "a\\%"
    ensures LikeMatch(Translate("a\\*"), "a%")
    ensures !LikeMatch(Translate("a\\*"), "a\\b")
    ensures EsMatch("a\\*", "a\\b")
  {
    assert Translate("a\\*") == "a\\%";
    assert LikeMatch("\\%", "%");
    assert !LikeMatch("\\%", "\\b");
    assert EsMatch("*", "b");
    assert EsMatch("\\*", "\\b");
  }

  /** `a*` finds "a", "ab" and "azzz" but not "ba". */
  lemma StarPatternExamples()
    ensures LikeMatch(Translate("a*"), "a")
    ensures LikeMatch(Translate("a*"), "ab")
    ensures LikeMatch(Translate("a*"), "azzz")
    ensures !LikeMatch(Translate("a*"), "ba")
  {
    assert Translate("a*") == "a%";
    assert LikeMatch("%", "");
    assert LikeMatch("%", "b");
    assert LikeMatch("%", "z") && LikeMatch("%", "zz") && LikeMatch("%", "zzz");
  }

  /** `a?c` finds "abc" but not "ac" or "abbc". */
  lemma QuestionPatternExamples()
    ensures LikeMatch(Translate("a?c"), "abc")
    ensures !LikeMatch(Translate("a?c"), "ac")
    ensures !LikeMatch(Translate("a?c"), "abbc")
  {
    assert Translate("a?c") == "a_c";
    assert LikeMatch("c", "c");
    assert !LikeMatch("c", "bc");
  }
}
