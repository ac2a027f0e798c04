/** Compilation of the Elasticsearch query DSL subset (match_all, match,
    match_phrase, bool) into the where-list of a search
    (api/search/parsequery.go).  Objects are walked in the order their
    members are given, which stands for Go's map iteration order. */
module ParseQuery {

  import opened Json
  import opened Query
  import Mapping

  // ---------------------------------------------------------------------
  // Where the type assertions of the walk succeed.  A value the walk
  // asserts to be an object, or an option it asserts to be a string, that
  // is not one makes the Go code panic; the compiler requires these.
  // ---------------------------------------------------------------------

  /** Every clause of a query object is shaped. */
  predicate QueryShaped(raw: Members, mapping: Members)
    decreases raw
  {
    raw == [] || (ClauseShaped(raw[0], mapping) && QueryShaped(raw[1..], mapping))
  }

  /** `match_all`, `match`, `match_phrase` and `bool` take an object;
      other keys are not looked at. */
  predicate ClauseShaped(m: (string, Json), mapping: Members)
    decreases m
  {
    if m.0 == "match_all" then m.1.JObject?
    else if m.0 == "match" || m.0 == "match_phrase" then m.1.JObject? && MatchShaped(m.1.members, mapping)
    else if m.0 == "bool" then m.1.JObject? && BoolShaped(m.1.members, mapping)
    else true
  }

  predicate MatchShaped(fields: Members, mapping: Members)
  {
    forall k :: 0 <= k < |fields| ==> FieldShaped(fields[k], mapping)
  }

  /** A string or object field value consults the mapping; the options of
      an object value hold strings under `query` and `operator`. */
  predicate FieldShaped(f: (string, Json), mapping: Members)
  {
    if f.1.JString? then Mapping.ShapedFor(mapping, f.0)
    else if f.1.JObject? then OptionsShaped(f.1.members) && Mapping.ShapedFor(mapping, f.0)
    else true
  }

  predicate OptionsShaped(opts: Members)
  {
    forall k :: 0 <= k < |opts| ==> (opts[k].0 == "query" || opts[k].0 == "operator") ==> opts[k].1.JString?
  }

  predicate BoolShaped(ms: Members, mapping: Members)
    decreases ms
  {
    ms == [] || (BoolMemberShaped(ms[0], mapping) && BoolShaped(ms[1..], mapping))
  }

  predicate IsBoolOccurrence(key: string)
  {
    key == "must" || key == "filter" || key == "must_not" || key == "should"
  }

  /** `must`, `filter`, `must_not` and `should` hold a query object. */
  predicate BoolMemberShaped(b: (string, Json), mapping: Members)
    decreases b
  {
    IsBoolOccurrence(b.0) ==> b.1.JObject? && QueryShaped(b.1.members, mapping)
  }

  // ---------------------------------------------------------------------
  // What the walk appends to the where-list.
  // ---------------------------------------------------------------------

  /** The conditions `ParseSearchQuery` appends for a query object. */
  function CompileQuery(raw: Members, mapping: Members): seq<Clause>
    requires QueryShaped(raw, mapping)
    decreases raw
  {
    if raw == [] then [] else CompileClause(raw[0], mapping) + CompileQuery(raw[1..], mapping)
  }

  /** One member of a query object; `match_all` and unknown keys add nothing. */
  function CompileClause(m: (string, Json), mapping: Members): seq<Clause>
    requires ClauseShaped(m, mapping)
    decreases m
  {
    if m.0 == "match" then CompileMatch(ToTsQuery, m.1.members, mapping)
    else if m.0 == "match_phrase" then CompileMatch(PhraseToTsQuery, m.1.members, mapping)
    else if m.0 == "bool" then CompileBool(m.1.members, mapping)
    else []
  }

  /** The fields of a `match` (fn = to_tsquery) or `match_phrase`
      (fn = phraseto_tsquery) object. */
  function CompileMatch(fn: TsFunction, fields: Members, mapping: Members): seq<Clause>
    requires MatchShaped(fields, mapping)
    decreases fields
  {
    if fields == [] then []
    else
      assert FieldShaped(fields[0], mapping);
      assert MatchShaped(fields[1..], mapping) by {
        forall k | 0 <= k < |fields[1..]| ensures FieldShaped(fields[1..][k], mapping) {
          assert fields[1..][k] == fields[k + 1];
        }
      }
      CompileField(fn, fields[0], mapping) + CompileMatch(fn, fields[1..], mapping)
  }

  /** A string value, or the `query` option of an object value, becomes one
      leaf; any other value adds nothing. */
  function CompileField(fn: TsFunction, f: (string, Json), mapping: Members): seq<Clause>
    requires FieldShaped(f, mapping)
  {
    if f.1.JString? then [Where(LeafFor(fn, f.0, f.1.s, mapping))]
    else if f.1.JObject? then [Where(LeafFor(fn, f.0, QueryText(f.1.members), mapping))]
    else []
  }

  /** The `query` option as the options loop leaves it: the last `query`
      member read, or "" when there is none.  `operator` is read and dropped. */
  function QueryText(opts: Members): (r: string)
    requires OptionsShaped(opts)
    ensures (forall k :: 0 <= k < |opts| ==> opts[k].0 != "query") ==> r == ""
    ensures (exists k :: 0 <= k < |opts| && opts[k].0 == "query") ==>
              exists k :: 0 <= k < |opts| && opts[k] == ("query", JString(r)) &&
                forall j :: k < j < |opts| ==> opts[j].0 != "query"
    decreases |opts|
  {
    if opts == [] then ""
    else
      var last := opts[|opts| - 1];
      var init := opts[..|opts| - 1];
      assert OptionsShaped(init) by {
        forall k | 0 <= k < |init| ensures (init[k].0 == "query" || init[k].0 == "operator") ==> init[k].1.JString? {
          assert init[k] == opts[k];
        }
      }
      assert forall k :: 0 <= k < |init| ==> init[k] == opts[k];
      if last.0 == "query" then
        assert opts[|opts| - 1] == ("query", JString(last.1.s));
        last.1.s
      else
        var r := QueryText(init);
        assert (exists k :: 0 <= k < |opts| && opts[k].0 == "query") ==>
               (exists k :: 0 <= k < |init| && init[k].0 == "query");
        r
  }

  /** The leaf for `field`: the field's analyzer is used when its mapping
      exists and names a non-empty analyzer. */
  function LeafFor(fn: TsFunction, field: string, text: string, mapping: Members): (l: Leaf)
    requires Mapping.ShapedFor(mapping, field)
  {
    var fm := Mapping.GetFieldMapping(mapping, field);
    if fm.Some? && |fm.value.analyzer| > 0 then Leaf(fn, field, Some(fm.value.analyzer), text)
    else Leaf(fn, field, None, text)
  }

  function CompileBool(ms: Members, mapping: Members): seq<Clause>
    requires BoolShaped(ms, mapping)
    decreases ms
  {
    if ms == [] then [] else CompileBoolMember(ms[0], mapping) + CompileBool(ms[1..], mapping)
  }

  /** `must`, `filter` and `must_not` add an AND group, `should` an OR group,
      each holding the compiled sub-query; other keys add nothing. */
  function CompileBoolMember(b: (string, Json), mapping: Members): seq<Clause>
    requires BoolMemberShaped(b, mapping)
    decreases b
  {
    if b.0 == "must" || b.0 == "filter" || b.0 == "must_not" then [Group(And, CompileQuery(b.1.members, mapping))]
    else if b.0 == "should" then [Group(Or, CompileQuery(b.1.members, mapping))]
    else []
  }

  /** The SQL text of a leaf, as the where-condition is formatted: the
      document side, `@@`, and the query side. */
  function RenderLeaf(l: Leaf): string
  {
    TsVectorText(l.analyzer, l.field) + " @@ " + TsQueryText(l.fn, l.analyzer, l.text)
  }

  function TsVectorText(analyzer: Option<string>, field: string): string
  {
    match analyzer
    case Some(a) => "to_tsvector('" + a + "', document->'" + field + "')"
    case None => "to_tsvector(document->'" + field + "')"
  }

  function TsQueryText(fn: TsFunction, analyzer: Option<string>, text: string): string
  {
    var name := if fn == ToTsQuery then "to_tsquery" else "phraseto_tsquery";
    match analyzer
    case Some(a) => name + "('" + a + "', '" + text + "')"
    case None => name + "('" + text + "')"
  }

  // ---------------------------------------------------------------------
  // The walk itself, appending to the builder as the Go code does.
  // ---------------------------------------------------------------------

  lemma QueryShapedTail(raw: Members, i: nat, mapping: Members)
    requires i < |raw| && QueryShaped(raw[i..], mapping)
    ensures ClauseShaped(raw[i], mapping) && QueryShaped(raw[i + 1..], mapping)
    ensures CompileQuery(raw[i..], mapping) == CompileClause(raw[i], mapping) + CompileQuery(raw[i + 1..], mapping)
  {
    assert raw[i..][1..] == raw[i + 1..];
  }

  lemma BoolShapedTail(ms: Members, i: nat, mapping: Members)
    requires i < |ms| && BoolShaped(ms[i..], mapping)
    ensures BoolMemberShaped(ms[i], mapping) && BoolShaped(ms[i + 1..], mapping)
    ensures CompileBool(ms[i..], mapping) == CompileBoolMember(ms[i], mapping) + CompileBool(ms[i + 1..], mapping)
  {
    assert ms[i..][1..] == ms[i + 1..];
  }

  /** `ParseSearchQuery`: one pass over the members of the query object. */
  method ParseSearchQuery(raw: Members, query: Builder, mapping: Members)
    requires QueryShaped(raw, mapping)
    modifies query
    ensures query.where == old(query.where) + CompileQuery(raw, mapping)
    decreases raw
  {
    var i := 0;
    while i < |raw|
      invariant 0 <= i <= |raw|
      invariant QueryShaped(raw[i..], mapping)
      invariant old(query.where) + CompileQuery(raw, mapping) == query.where + CompileQuery(raw[i..], mapping)
    {
      QueryShapedTail(raw, i, mapping);
      ParseClause(raw[i], query, mapping);
      i := i + 1;
    }
  }

  /** The `switch k` of `ParseSearchQuery` for one member. */
  method ParseClause(m: (string, Json), query: Builder, mapping: Members)
    requires ClauseShaped(m, mapping)
    modifies query
    ensures query.where == old(query.where) + CompileClause(m, mapping)
    decreases m
  {
    if m.0 == "match_all" {
      // parseMatchAllQuery adds nothing
    } else if m.0 == "match" {
      ParseMatchQuery(ToTsQuery, m.1.members, query, mapping);
    } else if m.0 == "match_phrase" {
      ParseMatchQuery(PhraseToTsQuery, m.1.members, query, mapping);
    } else if m.0 == "bool" {
      ParseBoolQuery(m.1.members, query, mapping);
    }
  }

  /** `parseMatchQuery` (fn = ToTsQuery) and `parseMatchPhraseQuery`
      (fn = PhraseToTsQuery), which differ only in the tsquery function. */
  method ParseMatchQuery(fn: TsFunction, fields: Members, query: Builder, mapping: Members)
    requires MatchShaped(fields, mapping)
    modifies query
    ensures query.where == old(query.where) + CompileMatch(fn, fields, mapping)
  {
    MatchShapedSuffix(fields, 0, mapping);
    assert fields[0..] == fields;
    for i := 0 to |fields|
      invariant MatchShaped(fields[i..], mapping)
      invariant old(query.where) + CompileMatch(fn, fields, mapping) == query.where + CompileMatch(fn, fields[i..], mapping)
    {
      CompileMatchStep(fn, fields, i, mapping);
      ghost var before := query.where;
      ParseMatchField(fn, fields[i], query, mapping);
      MatchLoopStep(fn, fields, i, mapping, old(query.where), before, query.where);
    }
    assert fields[|fields|..] == [];
  }

  /** What one turn of the field loop keeps. */
  lemma MatchLoopStep(fn: TsFunction, fields: Members, i: nat, mapping: Members,
                      start: seq<Clause>, before: seq<Clause>, after: seq<Clause>)
    requires MatchShaped(fields, mapping) && i < |fields|
    requires MatchShaped(fields[i..], mapping)
    requires start + CompileMatch(fn, fields, mapping) == before + CompileMatch(fn, fields[i..], mapping)
    requires FieldShaped(fields[i], mapping)
    requires after == before + CompileField(fn, fields[i], mapping)
    ensures MatchShaped(fields[i + 1..], mapping)
    ensures start + CompileMatch(fn, fields, mapping) == after + CompileMatch(fn, fields[i + 1..], mapping)
  {
    CompileMatchStep(fn, fields, i, mapping);
    ShiftClauses(start, CompileMatch(fn, fields, mapping), before, after, CompileField(fn, fields[i], mapping), CompileMatch(fn, fields[i + 1..], mapping));
  }

  lemma ShiftClauses(start: seq<Clause>, whole: seq<Clause>, before: seq<Clause>, after: seq<Clause>, step: seq<Clause>, rest: seq<Clause>)
    requires start + whole == before + (step + rest)
    requires after == before + step
    ensures start + whole == after + rest
  {
  }

  lemma MatchShapedSuffix(fields: Members, i: nat, mapping: Members)
    requires MatchShaped(fields, mapping) && i <= |fields|
    ensures MatchShaped(fields[i..], mapping)
  {
    forall k | 0 <= k < |fields[i..]| ensures FieldShaped(fields[i..][k], mapping) {
      assert fields[i..][k] == fields[i + k];
    }
  }

  /** One field of a `match` object: its clauses, then those of the rest. */
  lemma CompileMatchStep(fn: TsFunction, fields: Members, i: nat, mapping: Members)
    requires MatchShaped(fields, mapping) && i < |fields|
    ensures MatchShaped(fields[i..], mapping) && MatchShaped(fields[i + 1..], mapping) && FieldShaped(fields[i], mapping)
    ensures CompileMatch(fn, fields[i..], mapping) == CompileField(fn, fields[i], mapping) + CompileMatch(fn, fields[i + 1..], mapping)
  {
    MatchShapedSuffix(fields, i, mapping);
    MatchShapedSuffix(fields, i + 1, mapping);
    assert fields[i..][0] == fields[i] && fields[i..][1..] == fields[i + 1..];
  }

  /** The body of the field loop of `parseMatchQuery` for one field. */
  method ParseMatchField(fn: TsFunction, f: (string, Json), query: Builder, mapping: Members)
    requires FieldShaped(f, mapping)
    modifies query
    ensures query.where == old(query.where) + CompileField(fn, f, mapping)
  {
    var fieldName := f.0;
    if f.1.JString? {
      query.Where(LeafFor(fn, fieldName, f.1.s, mapping));
    } else if f.1.JObject? {
      var queryString, operator := ReadMatchOptions(f.1.members);
      query.Where(LeafFor(fn, fieldName, queryString, mapping));
    }
  }

  /** The options loop of an object-valued field: the last `query` and the
      last `operator` read; the operator is not used afterwards. */
  method ReadMatchOptions(opts: Members) returns (queryString: string, operator: string)
    requires OptionsShaped(opts)
    ensures queryString == QueryText(opts)
  {
    queryString, operator := "", "";
    var j := 0;
    while j < |opts|
      invariant 0 <= j <= |opts|
      invariant OptionsShaped(opts[..j]) && queryString == QueryText(opts[..j])
    {
      assert opts[..j + 1][..j] == opts[..j];
      if opts[j].0 == "query" {
        queryString := opts[j].1.s;
      } else if opts[j].0 == "operator" {
        operator := opts[j].1.s;
      }
      j := j + 1;
    }
    assert opts[..j] == opts;
  }

  /** `parseBoolQuery`: one group per occurrence key. */
  method ParseBoolQuery(ms: Members, query: Builder, mapping: Members)
    requires BoolShaped(ms, mapping)
    modifies query
    ensures query.where == old(query.where) + CompileBool(ms, mapping)
    decreases ms
  {
    var i := 0;
    while i < |ms|
      invariant 0 <= i <= |ms|
      invariant BoolShaped(ms[i..], mapping)
      invariant old(query.where) + CompileBool(ms, mapping) == query.where + CompileBool(ms[i..], mapping)
    {
      BoolShapedTail(ms, i, mapping);
      ParseBoolMember(ms[i], query, mapping);
      i := i + 1;
    }
  }

  /** The `switch k` of `parseBoolQuery` for one member: the group callback
      runs `ParseSearchQuery` on the same query object. */
  method ParseBoolMember(b: (string, Json), query: Builder, mapping: Members)
    requires BoolMemberShaped(b, mapping)
    modifies query
    ensures query.where == old(query.where) + CompileBoolMember(b, mapping)
    decreases b
  {
    if b.0 == "must" || b.0 == "filter" || b.0 == "must_not" {
      var saved := query.BeginGroup();
      ParseSearchQuery(b.1.members, query, mapping);
      assert query.where == CompileQuery(b.1.members, mapping);
      query.EndGroup(And, saved);
    } else if b.0 == "should" {
      var saved := query.BeginGroup();
      ParseSearchQuery(b.1.members, query, mapping);
      assert query.where == CompileQuery(b.1.members, mapping);
      query.EndGroup(Or, saved);
    }
  }

  // ---------------------------------------------------------------------
  // Properties of the compiler.
  // ---------------------------------------------------------------------

  /** The walk is compositional over the members of a query object. */
  lemma {:induction false} CompileQueryAppend(a: Members, b: Members, mapping: Members)
    ensures QueryShaped(a + b, mapping) <==> QueryShaped(a, mapping) && QueryShaped(b, mapping)
    ensures QueryShaped(a + b, mapping) ==>
              CompileQuery(a + b, mapping) == CompileQuery(a, mapping) + CompileQuery(b, mapping)
    decreases a
  {
    if a == [] {
      assert a + b == b;
    } else {
      assert (a + b)[0] == a[0] && (a + b)[1..] == a[1..] + b;
      CompileQueryAppend(a[1..], b, mapping);
    }
  }

  /** `match_all`, and any key the walk does not know, add no condition
      wherever they stand in the query object. */
  lemma NeutralClauseAddsNothing(a: Members, m: (string, Json), b: Members, mapping: Members)
    requires (m.0 == "match_all" && m.1.JObject?) ||
             (m.0 != "match_all" && m.0 != "match" && m.0 != "match_phrase" && m.0 != "bool")
    ensures QueryShaped(a + [m] + b, mapping) <==> QueryShaped(a + b, mapping)
    ensures QueryShaped(a + b, mapping) ==> CompileQuery(a + [m] + b, mapping) == CompileQuery(a + b, mapping)
  {
    NeutralHead(m, b, mapping);
    CompileQueryAppend(a, [m] + b, mapping);
    CompileQueryAppend(a, b, mapping);
    assert a + [m] + b == a + ([m] + b);
  }

  lemma NeutralHead(m: (string, Json), b: Members, mapping: Members)
    requires (m.0 == "match_all" && m.1.JObject?) ||
             (m.0 != "match_all" && m.0 != "match" && m.0 != "match_phrase" && m.0 != "bool")
    ensures QueryShaped([m] + b, mapping) <==> QueryShaped(b, mapping)
    ensures QueryShaped(b, mapping) ==> CompileQuery([m] + b, mapping) == CompileQuery(b, mapping)
  {
    assert ([m] + b)[0] == m && ([m] + b)[1..] == b;
    assert ClauseShaped(m, mapping) && CompileClause(m, mapping) == [];
  }

  /** A lone `match_all` accepts every row. */
  lemma MatchAllAcceptsEverything(v: Json, mapping: Members, sat: Leaf -> bool)
    requires v.JObject?
    ensures QueryShaped([("match_all", v)], mapping)
    ensures CompileQuery([("match_all", v)], mapping) == []
    ensures Holds(CompileQuery([("match_all", v)], mapping), sat)
  {
    assert [("match_all", v)][1..] == [];
    assert ClauseShaped(("match_all", v), mapping);
    assert QueryShaped([], mapping);
  }

  predicate AllStrings(fields: Members)
  {
    forall k :: 0 <= k < |fields| ==> fields[k].1.JString?
  }

  /** Each string-valued field of a `match`/`match_phrase` object adds
      exactly one AND-attached leaf, in order. */
  lemma {:induction false} StringFieldsGiveOneLeafEach(fn: TsFunction, fields: Members, mapping: Members)
    requires AllStrings(fields)
    requires forall k :: 0 <= k < |fields| ==> Mapping.ShapedFor(mapping, fields[k].0)
    ensures MatchShaped(fields, mapping)
    ensures |CompileMatch(fn, fields, mapping)| == |fields|
    ensures forall k :: 0 <= k < |fields| ==>
              CompileMatch(fn, fields, mapping)[k] == Where(LeafFor(fn, fields[k].0, fields[k].1.s, mapping))
    decreases fields
  {
    assert MatchShaped(fields, mapping) by {
      forall k | 0 <= k < |fields| ensures FieldShaped(fields[k], mapping) {
        assert fields[k].1.JString?;
      }
    }
    if fields != [] {
      var tail := fields[1..];
      forall k | 0 <= k < |tail| ensures tail[k] == fields[k + 1] { }
      StringFieldsGiveOneLeafEach(fn, tail, mapping);
      var cs := CompileMatch(fn, fields, mapping);
      assert cs == [Where(LeafFor(fn, fields[0].0, fields[0].1.s, mapping))] + CompileMatch(fn, tail, mapping);
      forall k | 0 <= k < |fields|
        ensures cs[k] == Where(LeafFor(fn, fields[k].0, fields[k].1.s, mapping))
      {
        if k > 0 {
          assert cs[k] == CompileMatch(fn, tail, mapping)[k - 1];
        }
      }
    }
  }

  /** A `match` object of string fields accepts a row exactly when every
      field's leaf does. */
  lemma MatchIsConjunction(fn: TsFunction, fields: Members, mapping: Members, sat: Leaf -> bool)
    requires AllStrings(fields)
    requires forall k :: 0 <= k < |fields| ==> Mapping.ShapedFor(mapping, fields[k].0)
    ensures MatchShaped(fields, mapping)
    ensures Holds(CompileMatch(fn, fields, mapping), sat) <==>
              forall k :: 0 <= k < |fields| ==> sat(LeafFor(fn, fields[k].0, fields[k].1.s, mapping))
  {
    StringFieldsGiveOneLeafEach(fn, fields, mapping);
    var cs := CompileMatch(fn, fields, mapping);
    HoldsAllAnd(cs, sat);
    assert forall k :: 0 <= k < |cs| ==> HoldsClause(cs[k], sat) == sat(LeafFor(fn, fields[k].0, fields[k].1.s, mapping));
  }

  /** The leaves of `cs` with their tsquery function replaced by `fn`. */
  function WithFunction(cs: seq<Clause>, fn: TsFunction): (r: seq<Clause>)
    ensures |r| == |cs|
  {
    if cs == [] then []
    else
      var c := match cs[0]
        case Where(l) => Where(l.(fn := fn))
        case Group(j, body) => Group(j, body);
      [c] + WithFunction(cs[1..], fn)
  }

  /** `match_phrase` compiles like `match`, with phraseto_tsquery in place
      of to_tsquery; nothing else differs. */
  lemma {:induction false} MatchPhraseIsMatchWithPhraseFunction(fields: Members, mapping: Members)
    requires MatchShaped(fields, mapping)
    ensures CompileMatch(PhraseToTsQuery, fields, mapping) == WithFunction(CompileMatch(ToTsQuery, fields, mapping), PhraseToTsQuery)
    decreases fields
  {
    if fields != [] {
      var tail := fields[1..];
      assert MatchShaped(tail, mapping) by {
        forall k | 0 <= k < |tail| ensures FieldShaped(tail[k], mapping) {
          assert tail[k] == fields[k + 1];
        }
      }
      assert FieldShaped(fields[0], mapping);
      MatchPhraseIsMatchWithPhraseFunction(tail, mapping);
      var head := CompileField(ToTsQuery, fields[0], mapping);
      var rest := CompileMatch(ToTsQuery, tail, mapping);
      WithFunctionAppend(head, rest, PhraseToTsQuery);
    }
  }

  lemma {:induction false} WithFunctionAppend(a: seq<Clause>, b: seq<Clause>, fn: TsFunction)
    ensures WithFunction(a + b, fn) == WithFunction(a, fn) + WithFunction(b, fn)
    decreases a
  {
    if a == [] {
      assert a + b == b;
    } else {
      assert (a + b)[0] == a[0] && (a + b)[1..] == a[1..] + b;
      WithFunctionAppend(a[1..], b, fn);
    }
  }

  /** The members of an options object that are `query` entries. */
  function QueryEntries(opts: Members): (r: Members)
    ensures forall k :: 0 <= k < |r| ==> r[k].0 == "query" && r[k] in opts
    decreases |opts|
  {
    if opts == [] then []
    else
      var last := opts[|opts| - 1];
      var init := QueryEntries(opts[..|opts| - 1]);
      assert forall m :: m in opts[..|opts| - 1] ==> m in opts;
      if last.0 == "query" then init + [last] else init
  }

  /** Only the `query` entries of the options matter: `operator`, and every
      other option, leave the leaf text unchanged. */
  lemma {:induction false} OnlyQueryOptionMatters(opts: Members)
    requires OptionsShaped(opts)
    ensures OptionsShaped(QueryEntries(opts))
    ensures QueryText(opts) == QueryText(QueryEntries(opts))
    decreases |opts|
  {
    var q := QueryEntries(opts);
    assert OptionsShaped(q) by {
      forall k | 0 <= k < |q| ensures q[k].1.JString? {
        var j :| 0 <= j < |opts| && opts[j] == q[k];
      }
    }
    if opts != [] {
      var init := opts[..|opts| - 1];
      assert OptionsShaped(init) by {
        forall k | 0 <= k < |init| ensures (init[k].0 == "query" || init[k].0 == "operator") ==> init[k].1.JString? {
          assert init[k] == opts[k];
        }
      }
      OnlyQueryOptionMatters(init);
      var qi := QueryEntries(init);
      if opts[|opts| - 1].0 == "query" {
        assert q == qi + [opts[|opts| - 1]];
        assert q[|q| - 1] == opts[|opts| - 1];
      } else {
        assert q == qi;
      }
      if q != [] {
        assert q[..|q| - 1] == (if opts[|opts| - 1].0 == "query" then qi else q[..|q| - 1]);
      }
    }
  }

  /** Two object-valued fields whose `query` entries agree compile to the
      same leaf, whatever `operator` or other options they carry. */
  lemma OperatorHasNoEffect(fn: TsFunction, field: string, opts1: Members, opts2: Members, mapping: Members)
    requires FieldShaped((field, JObject(opts1)), mapping) && FieldShaped((field, JObject(opts2)), mapping)
    requires QueryEntries(opts1) == QueryEntries(opts2)
    ensures CompileField(fn, (field, JObject(opts1)), mapping) == CompileField(fn, (field, JObject(opts2)), mapping)
  {
    OnlyQueryOptionMatters(opts1);
    OnlyQueryOptionMatters(opts2);
  }

  /** The analyzer rule for a field the mapping declares: the leaf carries
      the declared analyzer exactly when it is non-empty. */
  lemma DeclaredAnalyzerIsUsed(fn: TsFunction, fields: seq<(string, Mapping.FieldMapping)>, k: nat, text: string)
    requires Mapping.DistinctNames(fields) && k < |fields|
    ensures Mapping.ShapedFor(Mapping.MappingOf(fields), fields[k].0)
    ensures var l := LeafFor(fn, fields[k].0, text, Mapping.MappingOf(fields));
            l.fn == fn && l.field == fields[k].0 && l.text == text &&
            (l.analyzer.Some? <==> |fields[k].1.analyzer| > 0) &&
            (l.analyzer.Some? ==> l.analyzer.value == fields[k].1.analyzer)
  {
    Mapping.GetFieldMappingOfMappingOf(fields, k);
  }

  /** A field the mapping does not declare gets the analyzer-free leaf. */
  lemma UndeclaredFieldHasNoAnalyzer(fn: TsFunction, fields: seq<(string, Mapping.FieldMapping)>, field: string, text: string)
    requires forall k :: 0 <= k < |fields| ==> fields[k].0 != field
    ensures Mapping.ShapedFor(Mapping.MappingOf(fields), field)
    ensures LeafFor(fn, field, text, Mapping.MappingOf(fields)) == Leaf(fn, field, None, text)
  {
    Mapping.GetFieldMappingOfUndeclared(fields, field);
  }

  /** `{"bool": {"must_not": q}}` accepts exactly the rows `q` accepts: the
      clause is not negated, and compiles as `must` does. */
  lemma MustNotIsNotNegated(q: Members, mapping: Members, sat: Leaf -> bool)
    requires QueryShaped(q, mapping)
    ensures var raw := [("bool", JObject([("must_not", JObject(q))]))];
            var raws := [("bool", JObject([("must", JObject(q))]))];
            QueryShaped(raw, mapping) && QueryShaped(raws, mapping) &&
            CompileQuery(raw, mapping) == CompileQuery(raws, mapping) &&
            (Holds(CompileQuery(raw, mapping), sat) <==> Holds(CompileQuery(q, mapping), sat))
  {
    var bm: Members := [("must_not", JObject(q))];
    var bs: Members := [("must", JObject(q))];
    assert bm[1..] == [] && bs[1..] == [];
    var raw := [("bool", JObject(bm))];
    var raws := [("bool", JObject(bs))];
    assert raw[1..] == [] && raws[1..] == [];
    assert BoolMemberShaped(bm[0], mapping) && BoolShaped(bm[1..], mapping);
    assert BoolShaped(bm, mapping) && BoolShaped(bs, mapping);
    assert ClauseShaped(raw[0], mapping) && ClauseShaped(raws[0], mapping);
    assert QueryShaped(raw[1..], mapping) && QueryShaped(raws[1..], mapping);
    assert CompileBool(bm, mapping) == [Group(And, CompileQuery(q, mapping))] + CompileBool(bm[1..], mapping);
    assert CompileBool(bs, mapping) == [Group(And, CompileQuery(q, mapping))] + CompileBool(bs[1..], mapping);
    assert CompileQuery(raw, mapping) == CompileBool(bm, mapping) + CompileQuery(raw[1..], mapping);
    assert CompileQuery(raws, mapping) == CompileBool(bs, mapping) + CompileQuery(raws[1..], mapping);
    assert CompileQuery(raw, mapping) == [Group(And, CompileQuery(q, mapping))];
    var g: seq<Clause> := [Group(And, CompileQuery(q, mapping))];
    assert g[1..] == [];
  }

  /** `should` opens an OR group around its sub-query. */
  lemma ShouldIsOrGroup(q: Members, mapping: Members)
    requires QueryShaped(q, mapping)
    ensures BoolShaped([("should", JObject(q))], mapping)
    ensures CompileBool([("should", JObject(q))], mapping) == [Group(Or, CompileQuery(q, mapping))]
  {
    var bs: Members := [("should", JObject(q))];
    assert bs[1..] == [];
    assert BoolMemberShaped(bs[0], mapping) && BoolShaped(bs[1..], mapping);
  }

  /** `{"bool": {"must": {"match": {"f": "x"}}, "should": {"match": {"f": "y"}}}}`
      against a mapping without `properties`: an AND group holding the x
      leaf followed by an OR group holding the y leaf, so a row is accepted
      when either leaf accepts it. */
  lemma MustThenShouldExample(sat: Leaf -> bool)
    ensures var mx: Members := [("match", JObject([("f", JString("x"))]))];
            var my: Members := [("match", JObject([("f", JString("y"))]))];
            var raw := [("bool", JObject([("must", JObject(mx)), ("should", JObject(my))]))];
            var lx := Leaf(ToTsQuery, "f", None, "x");
            var ly := Leaf(ToTsQuery, "f", None, "y");
            QueryShaped(raw, []) &&
            CompileQuery(raw, []) == [Group(And, [Where(lx)]), Group(Or, [Where(ly)])] &&
            (Holds(CompileQuery(raw, []), sat) <==> sat(lx) || sat(ly))
  {
    var lx := Leaf(ToTsQuery, "f", None, "x");
    var ly := Leaf(ToTsQuery, "f", None, "y");
    var fx: Members := [("f", JString("x"))];
    var fy: Members := [("f", JString("y"))];
    var mx: Members := [("match", JObject(fx))];
    var my: Members := [("match", JObject(fy))];
    var bs: Members := [("must", JObject(mx)), ("should", JObject(my))];
    var raw := [("bool", JObject(bs))];
    assert fx[1..] == [] && fy[1..] == [] && mx[1..] == [] && my[1..] == [] && raw[1..] == [];
    assert bs[1..] == [("should", JObject(my))] && bs[1..][1..] == [];
    assert MatchShaped(fx, []) && MatchShaped(fy, []);
    assert ClauseShaped(mx[0], []) && QueryShaped(mx[1..], []) && QueryShaped(mx, []);
    assert ClauseShaped(my[0], []) && QueryShaped(my[1..], []) && QueryShaped(my, []);
    assert BoolMemberShaped(bs[1..][0], []) && BoolShaped(bs[1..][1..], []) && BoolShaped(bs[1..], []);
    assert BoolMemberShaped(bs[0], []) && BoolShaped(bs, []);
    assert ClauseShaped(raw[0], []) && QueryShaped(raw[1..], []) && QueryShaped(raw, []);
    assert CompileMatch(ToTsQuery, fx, []) == [Where(lx)];
    assert CompileMatch(ToTsQuery, fy, []) == [Where(ly)];
    assert CompileQuery(mx, []) == [Where(lx)];
    assert CompileQuery(my, []) == [Where(ly)];
    assert CompileBool(bs[1..], []) == [Group(Or, [Where(ly)])] + CompileBool(bs[1..][1..], []);
    assert CompileBool(bs, []) == [Group(And, [Where(lx)])] + CompileBool(bs[1..], []);
    assert CompileQuery(raw, []) == CompileBool(bs, []) + CompileQuery(raw[1..], []);
    assert CompileQuery(raw, []) == [Group(And, [Where(lx)]), Group(Or, [Where(ly)])];
    AndGroupThenOrGroup([Where(lx)], [Where(ly)], sat);
    assert [Where(lx)][1..] == [] && [Where(ly)][1..] == [];
  }

  /** The same two members met in the other order: the OR group comes first,
      its joiner is dropped, and the row must satisfy both leaves.  The
      answer depends on the order in which the bool object is walked. */
  lemma ShouldThenMustExample(sat: Leaf -> bool)
    ensures var mx: Members := [("match", JObject([("f", JString("x"))]))];
            var my: Members := [("match", JObject([("f", JString("y"))]))];
            var raw := [("bool", JObject([("should", JObject(my)), ("must", JObject(mx))]))];
            var lx := Leaf(ToTsQuery, "f", None, "x");
            var ly := Leaf(ToTsQuery, "f", None, "y");
            QueryShaped(raw, []) &&
            (Holds(CompileQuery(raw, []), sat) <==> sat(lx) && sat(ly))
  {
    var lx := Leaf(ToTsQuery, "f", None, "x");
    var ly := Leaf(ToTsQuery, "f", None, "y");
    var fx: Members := [("f", JString("x"))];
    var fy: Members := [("f", JString("y"))];
    var mx: Members := [("match", JObject(fx))];
    var my: Members := [("match", JObject(fy))];
    var bs: Members := [("should", JObject(my)), ("must", JObject(mx))];
    var raw := [("bool", JObject(bs))];
    assert fx[1..] == [] && fy[1..] == [] && mx[1..] == [] && my[1..] == [] && raw[1..] == [];
    assert bs[1..] == [("must", JObject(mx))] && bs[1..][1..] == [];
    assert MatchShaped(fx, []) && MatchShaped(fy, []);
    assert ClauseShaped(mx[0], []) && QueryShaped(mx[1..], []) && QueryShaped(mx, []);
    assert ClauseShaped(my[0], []) && QueryShaped(my[1..], []) && QueryShaped(my, []);
    assert BoolMemberShaped(bs[1..][0], []) && BoolShaped(bs[1..][1..], []) && BoolShaped(bs[1..], []);
    assert BoolMemberShaped(bs[0], []) && BoolShaped(bs, []);
    assert ClauseShaped(raw[0], []) && QueryShaped(raw[1..], []) && QueryShaped(raw, []);
    assert CompileMatch(ToTsQuery, fx, []) == [Where(lx)];
    assert CompileMatch(ToTsQuery, fy, []) == [Where(ly)];
    assert CompileQuery(mx, []) == [Where(lx)];
    assert CompileQuery(my, []) == [Where(ly)];
    assert CompileBool(bs[1..], []) == [Group(And, [Where(lx)])] + CompileBool(bs[1..][1..], []);
    assert CompileBool(bs, []) == [Group(Or, [Where(ly)])] + CompileBool(bs[1..], []);
    assert CompileQuery(raw, []) == CompileBool(bs, []) + CompileQuery(raw[1..], []);
    assert CompileQuery(raw, []) == [Group(Or, [Where(ly)]), Group(And, [Where(lx)])];
    OrGroupThenAndGroup([Where(lx)], [Where(ly)], sat);
    assert [Where(lx)][1..] == [] && [Where(ly)][1..] == [];
  }

  /** The document side of the condition for field `title`, with and
      without an analyzer. */
  lemma TsVectorWithAnalyzer()
    ensures TsVectorText(Some("english"), "title") == "to_tsvector('english', document->'title')"
  {
  }

  lemma TsVectorWithoutAnalyzer()
    ensures TsVectorText(None, "title") == "to_tsvector(document->'title')"
  {
  }

  /** The query side of the condition for the search text `fox`: the
      tsquery function follows the clause, the analyzer comes first. */
  lemma TsQueryExamples()
    ensures TsQueryText(ToTsQuery, Some("english"), "fox") == "to_tsquery('english', 'fox')"
    ensures TsQueryText(ToTsQuery, None, "fox") == "to_tsquery('fox')"
    ensures TsQueryText(PhraseToTsQuery, Some("english"), "fox") == "phraseto_tsquery('english', 'fox')"
    ensures TsQueryText(PhraseToTsQuery, None, "fox") == "phraseto_tsquery('fox')"
  {
  }

  /** The whole condition of a token leaf with the `english` analyzer on
      `title` for `fox`. */
  lemma RenderedTokenWithAnalyzer()
    ensures RenderLeaf(Leaf(ToTsQuery, "title", Some("english"), "fox")) ==
            "to_tsvector('english', document->'title')" + " @@ " + "to_tsquery('english', 'fox')"
  {
    TsVectorWithAnalyzer();
    TsQueryExamples();
  }

  /** What the document side writes before the field name. */
  function TsVectorHead(analyzer: Option<string>): string
  {
    match analyzer
    case Some(a) => "to_tsvector('" + a + "', document->'"
    case None => "to_tsvector(document->'"
  }

  /** What the query side writes before the search text. */
  function TsQueryHead(fn: TsFunction, analyzer: Option<string>): string
  {
    var name := if fn == ToTsQuery then "to_tsquery" else "phraseto_tsquery";
    match analyzer
    case Some(a) => name + "('" + a + "', '"
    case None => name + "('"
  }

  const Close := "')"

  lemma TsVectorShape(analyzer: Option<string>, field: string)
    ensures TsVectorText(analyzer, field) == TsVectorHead(analyzer) + field + Close
  {
  }

  lemma TsQueryShape(fn: TsFunction, analyzer: Option<string>, text: string)
    ensures TsQueryText(fn, analyzer, text) == TsQueryHead(fn, analyzer) + text + Close
  {
  }

  /** Every rendered condition holds the field name and the search text
      verbatim: the field right after the document side's head, the text
      right before the closing `')`. */
  lemma RenderLeafEmbedsFieldAndText(l: Leaf)
    ensures var r := RenderLeaf(l);
            var h := TsVectorHead(l.analyzer);
            |r| >= |h| + |l.field| + |l.text| + 2 &&
            r[..|h|] == h &&
            r[|h|..|h| + |l.field|] == l.field &&
            r[|r| - 2 - |l.text|..|r| - 2] == l.text &&
            r[|r| - 2..] == "')"
  {
    var h := TsVectorHead(l.analyzer);
    var qh := TsQueryHead(l.fn, l.analyzer);
    TsVectorShape(l.analyzer, l.field);
    TsQueryShape(l.fn, l.analyzer, l.text);
    ShapeOfRender(h, l.field, qh, l.text);
    SliceOfConcat(h, l.field, Close + " @@ " + qh, l.text, Close);
  }

  lemma ShapeOfRender(h: string, field: string, qh: string, text: string)
    ensures (h + field + Close) + " @@ " + (qh + text + Close) == h + field + (Close + " @@ " + qh) + text + Close
  {
  }

  /** Slicing the five parts of a concatenation back out. */
  lemma SliceOfConcat(a: string, b: string, c: string, d: string, e: string)
    ensures var r := a + b + c + d + e;
            r[..|a|] == a && r[|a|..|a| + |b|] == b &&
            r[|r| - |e| - |d|..|r| - |e|] == d && r[|r| - |e|..] == e
  {
    var r := a + b + c + d + e;
    assert r == (a + b) + (c + d + e);
    assert (a + b)[..|a|] == a;
    assert r[..|a| + |b|] == a + b;
    assert r[|a|..|a| + |b|] == (a + b)[|a|..];
    assert r == (a + b + c) + (d + e);
    assert r[|r| - |e| - |d|..] == d + e;
  }
}
