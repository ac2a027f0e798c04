/** What a handler takes from its HTTP request: the body, and the names the
    route's regular expression cuts out of the path.  The three patterns the
    handlers use are written out as functions on the path text. */
module Request {

  import opened Json

  /** `ioutil.ReadAll(r.Body)`: the text, or the reader's error message. */
  datatype Body = Body(text: string) | Unreadable(message: string)

  /** `\w` of Go's regexp syntax: ASCII letters, digits and underscore. */
  predicate IsWordChar(c: char)
  {
    ('a' <= c <= 'z') || ('A' <= c <= 'Z') || ('0' <= c <= '9') || c == '_'
  }

  /** A string `\w+` matches entirely. */
  predicate IsWord(w: string)
  {
    |w| > 0 && forall k :: 0 <= k < |w| ==> IsWordChar(w[k])
  }

  /** The longest prefix of word characters: what a greedy `\w+` (or `\w*`)
      consumes. */
  function WordRun(s: string): (w: string)
    ensures |w| <= |s| && w == s[..|w|]
    ensures forall k :: 0 <= k < |w| ==> IsWordChar(w[k])
    ensures |w| < |s| ==> !IsWordChar(s[|w|])
  {
    if s == [] || !IsWordChar(s[0]) then []
    else [s[0]] + WordRun(s[1..])
  }

  /** A word followed by a non-word character (or nothing) is its own run. */
  lemma {:induction false} WordRunOfWord(w: string, rest: string)
    requires forall k :: 0 <= k < |w| ==> IsWordChar(w[k])
    requires rest == [] || !IsWordChar(rest[0])
    ensures WordRun(w + rest) == w
    decreases |w|
  {
    if w != [] {
      assert (w + rest)[1..] == w[1..] + rest;
      WordRunOfWord(w[1..], rest);
    } else {
      assert w + rest == rest;
    }
  }

  // ---------------------------------------------------------------------
  // `^/(\w+)/_search` replaced by `${index}` (FindIndexDocumentHandler).
  // ---------------------------------------------------------------------

  const SearchSuffix := "/_search"

  /** The anchored match at the start of the path: the word and the length
      of the matched text. */
  function SearchMatch(path: string): (m: Option<(string, nat)>)
    ensures m.Some? ==> m.value.1 <= |path| && IsWord(m.value.0)
  {
    if |path| < 2 || path[0] != '/' then None
    else
      var w := WordRun(path[1..]);
      var end := 1 + |w|;
      if |w| == 0 || end + |SearchSuffix| > |path| || path[end..end + |SearchSuffix|] != SearchSuffix then None
      else Some((w, end + |SearchSuffix|))
  }

  /** The index name of a search path: the match is replaced by its word and
      the rest of the path is kept; a path that does not match is returned
      unchanged. */
  function SearchIndexName(path: string): string
  {
    match SearchMatch(path)
    case None => path
    case Some((w, len)) => w + path[len..]
  }

  /** `/<index>/_search<rest>` names the index followed by whatever the path
      has after `/_search`. */
  lemma SearchIndexNameOfPath(index: string, rest: string)
    requires IsWord(index)
    ensures SearchIndexName("/" + index + SearchSuffix + rest) == index + rest
  {
    var path := "/" + index + SearchSuffix + rest;
    assert path[1..] == index + (SearchSuffix + rest);
    WordRunOfWord(index, SearchSuffix + rest);
    var end := 1 + |index|;
    assert path[end..end + |SearchSuffix|] == SearchSuffix;
    assert path[end + |SearchSuffix|..] == rest;
  }

  // ---------------------------------------------------------------------
  // `/(\w+)` replaced by `${index}` everywhere (PutIndexHandler,
  // HeadIndexHandler).
  // ---------------------------------------------------------------------

  /** Every `/` followed by a word is replaced by the word, left to right;
      every other character is kept. */
  function StripSlashes(path: string): (r: string)
    ensures |r| <= |path|
    decreases |path|
  {
    if path == [] then []
    else
      var w := WordRun(path[1..]);
      if path[0] == '/' && |w| > 0 then w + StripSlashes(path[1 + |w|..])
      else [path[0]] + StripSlashes(path[1..])
  }

  /** The index route `/<word>` names the word. */
  lemma StripSlashesOfIndexPath(index: string)
    requires IsWord(index)
    ensures StripSlashes("/" + index) == index
  {
    var path := "/" + index;
    assert path[1..] == index + [];
    WordRunOfWord(index, []);
    assert path[1 + |index|..] == [];
  }

  /** `/a/b` names `ab`: no slash is left where a word follows one. */
  lemma StripSlashesJoinsWords(a: string, b: string)
    requires IsWord(a) && IsWord(b)
    ensures StripSlashes("/" + a + "/" + b) == a + b
  {
    var p := "/" + a + "/" + b;
    assert p[1..] == a + ("/" + b);
    WordRunOfWord(a, "/" + b);
    assert p[1 + |a|..] == "/" + b;
    StripSlashesOfIndexPath(b);
  }

  /** A character outside `\w` and other than `/` stays in the name:
      `/my-index` names `my-index`. */
  lemma {:induction false} StripSlashesKeepsOtherCharacters(a: string, c: char, b: string)
    requires IsWord(a) && !IsWordChar(c) && c != '/'
    requires forall k :: 0 <= k < |b| ==> IsWordChar(b[k])
    ensures StripSlashes("/" + a + [c] + b) == a + [c] + b
  {
    Regroup("/", a, [c], b);
    StripSlashesOfWordThen(a, [c] + b);
    StripSlashesKeeps(c, b);
    StripSlashesOfPlainWord(b);
  }

  lemma Regroup(x: string, a: string, y: string, b: string)
    ensures x + a + y + b == x + (a + (y + b))
    ensures a + (y + b) == a + y + b
  {
  }

  /** A slash and a whole word become the word. */
  lemma StripSlashesOfWordThen(a: string, tail: string)
    requires IsWord(a)
    requires tail == [] || !IsWordChar(tail[0])
    ensures StripSlashes("/" + (a + tail)) == a + StripSlashes(tail)
  {
    var p := "/" + (a + tail);
    assert p[1..] == a + tail;
    WordRunOfWord(a, tail);
    assert p[1 + |a|..] == tail;
  }

  lemma StripSlashesKeeps(c: char, rest: string)
    requires c != '/'
    ensures StripSlashes([c] + rest) == [c] + StripSlashes(rest)
  {
    assert ([c] + rest)[1..] == rest;
  }

  /** A word with no slash is kept as it is. */
  lemma {:induction false} StripSlashesOfPlainWord(w: string)
    requires forall k :: 0 <= k < |w| ==> IsWordChar(w[k])
    ensures StripSlashes(w) == w
    decreases |w|
  {
    if w != [] {
      assert w[0] != '/';
      StripSlashesOfPlainWord(w[1..]);
    }
  }

  // ---------------------------------------------------------------------
  // `/(\w+)/_mapping/(\w+)` replaced by `${index}` and by `${type}`
  // (PutTypeMapping).
  // ---------------------------------------------------------------------

  const MappingInfix := "/_mapping/"

  /** A match at the start of `s`: the two words and the matched length. */
  function MappingMatch(s: string): (m: Option<(string, string, nat)>)
    ensures m.Some? ==> 0 < m.value.2 <= |s| && IsWord(m.value.0) && IsWord(m.value.1)
  {
    if |s| < 2 || s[0] != '/' then None
    else
      var w1 := WordRun(s[1..]);
      var mid := 1 + |w1|;
      if |w1| == 0 || mid + |MappingInfix| > |s| || s[mid..mid + |MappingInfix|] != MappingInfix then None
      else
        var w2 := WordRun(s[mid + |MappingInfix|..]);
        if |w2| == 0 then None
        else Some((w1, w2, mid + |MappingInfix| + |w2|))
  }

  /** Every match, left to right, is replaced by its first word (`first`)
      or its second word; other characters are kept. */
  function ReplaceMappingMatches(s: string, first: bool): string
    decreases |s|
  {
    if s == [] then []
    else match MappingMatch(s)
      case Some((w1, w2, len)) => (if first then w1 else w2) + ReplaceMappingMatches(s[len..], first)
      case None => [s[0]] + ReplaceMappingMatches(s[1..], first)
  }

  /** The whole mapping route is one match. */
  lemma MappingMatchOfPath(index: string, typeName: string)
    requires IsWord(index) && IsWord(typeName)
    ensures var path := "/" + index + MappingInfix + typeName;
            MappingMatch(path) == Some((index, typeName, |path|))
  {
    var path := "/" + index + MappingInfix + typeName;
    var mid := 1 + |index|;
    assert path[1..] == index + (MappingInfix + typeName);
    WordRunOfWord(index, MappingInfix + typeName);
    assert WordRun(path[1..]) == index;
    assert path[mid..mid + |MappingInfix|] == MappingInfix;
    assert path[mid + |MappingInfix|..] == typeName + [];
    WordRunOfWord(typeName, []);
    assert WordRun(path[mid + |MappingInfix|..]) == typeName;
  }

  /** The mapping route `/<index>/_mapping/<type>` names the index and the type. */
  lemma MappingNamesOfPath(index: string, typeName: string)
    requires IsWord(index) && IsWord(typeName)
    ensures ReplaceMappingMatches("/" + index + MappingInfix + typeName, true) == index
    ensures ReplaceMappingMatches("/" + index + MappingInfix + typeName, false) == typeName
  {
    var path := "/" + index + MappingInfix + typeName;
    MappingMatchOfPath(index, typeName);
    assert path[|path|..] == [];
    assert ReplaceMappingMatches(path, true) == index + ReplaceMappingMatches([], true);
    assert ReplaceMappingMatches(path, false) == typeName + ReplaceMappingMatches([], false);
  }
}
