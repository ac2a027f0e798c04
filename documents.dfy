/** The document endpoints of the server (api/documents.go): put, get,
    delete and search under `/<index>/<type>/<endpoint>`, and search of a
    whole index under `/<index>/_search`.  Each handler is a method on the
    database client; the reply it returns and the state it leaves are those
    of the function of the same name with `Reply` in place of `Handler`. */
module Documents {

  import opened Json
  import opened Errors
  import opened Query
  import ParseQuery
  import Decimal
  import M = DbModel
  import Db
  import opened Request

  // ---------------------------------------------------------------------
  // Response bodies.
  // ---------------------------------------------------------------------

  datatype ShardInfo = ShardInfo(total: int, failed: int, successful: int)

  /** Every response reports one shard, which succeeded. */
  const OneShard := ShardInfo(1, 0, 1)

  datatype PutResponse = PutResponse(shards: ShardInfo, index: string, typeName: string, id: string,
                                     version: int, created: bool, result: string)

  /** A document that is not found has the zero id and version and a null source. */
  datatype GetResponse = GetResponse(index: string, typeName: string, id: string, version: int,
                                     found: bool, source: Option<string>)

  datatype SearchHit = SearchHit(index: string, typeName: string, id: string, score: int, source: string)

  datatype SearchHits = SearchHits(maxScore: int, total: int, hits: seq<SearchHit>)

  /** The elapsed time (`took`) is not part of the model. */
  datatype SearchResponse = SearchResponse(timedOut: bool, shards: ShardInfo, hits: SearchHits)

  /** Every hit scores 1. */
  const Score := 1

  /** The response to a stored document: version 1 means it was created. */
  function PutResponseOf(index: string, typeName: string, doc: M.Document): PutResponse
  {
    var created := doc.version == 1;
    PutResponse(OneShard, index, typeName, doc.id, doc.version, created, if created then "created" else "updated")
  }

  function GetResponseOf(index: string, typeName: string, found: Option<M.Document>): GetResponse
  {
    match found
    case None => GetResponse(index, typeName, "", 0, false, None)
    case Some(d) => GetResponse(index, typeName, d.id, d.version, true, Some(d.document))
  }

  function HitOf(index: string, typeName: string, doc: M.Document): SearchHit
  {
    SearchHit(index, typeName, doc.id, Score, doc.document)
  }

  /** The hits block a search builds from its documents: one hit per
      document in order, the count, and the best score, which is 0 for no
      hit. */
  function HitsFor(index: string, typeName: string, docs: seq<M.Document>): (h: SearchHits)
    ensures h.total == |h.hits| == |docs|
    ensures forall k :: 0 <= k < |docs| ==> h.hits[k] == HitOf(index, typeName, docs[k])
    ensures h.maxScore == if docs == [] then 0 else Score
  {
    if docs == [] then SearchHits(0, 0, [])
    else
      var h := HitsFor(index, typeName, docs[..|docs| - 1]);
      var hit := HitOf(index, typeName, docs[|docs| - 1]);
      SearchHits(if h.maxScore < hit.score then hit.score else h.maxScore, h.total + 1, h.hits + [hit])
  }

  // ---------------------------------------------------------------------
  // The replies, as functions of the database.
  // ---------------------------------------------------------------------

  /** PUT/POST of a document.  With no id the document is created under a
      generated id; with an id, an existing document is replaced and a new
      one created.  The existence test runs before anything is provisioned,
      so it fails on a type whose table does not exist yet. */
  function PutDocumentReply(db: M.Db, index: string, typeName: string, endpoint: string, body: Body): (M.Db, Reply<PutResponse>)
  {
    match body
    case Unreadable(message) => (db, Failed(NewInternalIOError(message)))
    case Body(text) =>
      if endpoint == "" then
        var (db1, r) := M.CreateDocument(db, index, typeName, text, "");
        (db1, if r.Err? then Failed(r.error) else Done(PutResponseOf(index, typeName, r.value)))
      else match M.IsDocumentExists(db, index, typeName, endpoint)
        case Err(e) => (db, Failed(e))
        case Ok(present) =>
          if present then
            var (db1, r) := M.UpdateDocument(db, index, typeName, text, endpoint);
            (db1, match r
                  case Err(e) => Failed(e)
                  case Ok(None) => Panicked
                  case Ok(Some(d)) => Done(PutResponseOf(index, typeName, d)))
          else
            var (db1, r) := M.CreateDocument(db, index, typeName, text, endpoint);
            (db1, if r.Err? then Failed(r.error) else Done(PutResponseOf(index, typeName, r.value)))
  }

  function GetDocumentReply(db: M.Db, index: string, typeName: string, endpoint: string): Reply<GetResponse>
  {
    match M.GetDocument(db, index, typeName, endpoint)
    case Err(e) => Failed(e)
    case Ok(found) => Done(GetResponseOf(index, typeName, found))
  }

  function DeleteDocumentReply(db: M.Db, index: string, typeName: string, endpoint: string): (M.Db, Reply<GetResponse>)
  {
    var (db1, r) := M.DeleteDocument(db, index, typeName, endpoint);
    (db1, match r
          case Err(e) => Failed(e)
          case Ok(found) => Done(GetResponseOf(index, typeName, found)))
  }

  /** The members of the decoded mapping of a type; a mapping that does
      not decode to an object leaves the map nil, which has no member. */
  function TypeMapping(options: Parsed): Members
  {
    if options.Parsed? && options.value.JObject? then options.value.members else []
  }

  /** The first (index, type) pair the nested loops of a search visit: the
      first type of the first index that has a matching type. */
  function FirstTarget(db: M.Db, indices: seq<string>, typePattern: string): (t: Option<(string, string)>)
  {
    if indices == [] then None
    else
      var types := M.FindTypes(db, indices[0], typePattern);
      if types != [] then Some((indices[0], types[0])) else FirstTarget(db, indices[1..], typePattern)
  }

  /** The search of one type: its mapping is read, the query is compiled
      against it and run on the type's table. */
  function TypeSearchReply(db: M.Db, index: string, typeName: string, q: Json,
                           parse: string -> Parsed, holds: (Leaf, string) -> bool): Reply<SearchResponse>
  {
    match M.GetType(db, index, typeName)
    case None => Panicked
    case Some(rec) =>
      var mapping := TypeMapping(parse(rec.options));
      if !q.JObject? || !ParseQuery.QueryShaped(q.members, mapping) then Panicked
      else match M.ProcessSearchQuery(db, M.TableName(index, typeName), ParseQuery.CompileQuery(q.members, mapping), holds)
        case Err(e) => Failed(e)
        case Ok(docs) => Done(SearchResponse(false, OneShard, HitsFor(index, typeName, docs)))
  }

  /** A search over the indices and types the patterns match.  Only the
      first matching type is searched, with the `query` member of the body;
      a body that is not an object makes the type assertion panic once a
      type matches.  `parse` is the JSON decoder; `holds` decides a
      full-text leaf on a document text. */
  function FindDocumentReply(db: M.Db, indexPattern: string, typePattern: string, body: Body,
                             parse: string -> Parsed, holds: (Leaf, string) -> bool): Reply<SearchResponse>
  {
    var indices := M.FindIndices(db, indexPattern);
    match body
    case Unreadable(message) => Failed(NewInternalIOError(message))
    case Body(text) =>
      match parse(text)
      case Unparseable(message) => Failed(NewJSONWrongFormatError(message))
      case Parsed(v) =>
        match FirstTarget(db, indices, typePattern)
        case None => Failed(NewIllegalQueryError(IllegalSearch))
        case Some((index, typeName)) =>
          if !v.JObject? then Panicked
          else match Lookup(v.members, "query")
            case None => Failed(NewIllegalQueryError(IllegalSearch))
            case Some(q) => TypeSearchReply(db, index, typeName, q, parse, holds)
  }

  const IllegalSearch := "Illegal search query"

  /** GET `/<index>/_search`: every type of the index named in the path. */
  function FindIndexDocumentReply(db: M.Db, path: string, body: Body,
                                  parse: string -> Parsed, holds: (Leaf, string) -> bool): Reply<SearchResponse>
  {
    FindDocumentReply(db, SearchIndexName(path), "*", body, parse, holds)
  }

  // ---------------------------------------------------------------------
  // The handlers.
  // ---------------------------------------------------------------------

  method PutDocumentHandler(c: Db.Client, index: string, typeName: string, endpoint: string, body: Body)
    returns (reply: Reply<PutResponse>)
    modifies c
    ensures (c.State(), reply) == PutDocumentReply(old(c.State()), index, typeName, endpoint, body)
    ensures old(c.Valid()) ==> c.Valid()
  {
    if body.Unreadable? {
      return Failed(NewInternalIOError(body.message));
    }
    if endpoint == "" {
      var r := c.CreateDocument(index, typeName, body.text, "");
      if r.Err? {
        return Failed(r.error);
      }
      reply := Done(PutResponseOf(index, typeName, r.value));
    } else {
      var present := c.IsDocumentExists(index, typeName, endpoint);
      if present.Err? {
        return Failed(present.error);
      }
      if present.value {
        var r := c.UpdateDocument(index, typeName, body.text, endpoint);
        if r.Err? {
          return Failed(r.error);
        }
        // A read-back that found nothing is dereferenced all the same.
        reply := match r.value
          case None => Panicked
          case Some(d) => Done(PutResponseOf(index, typeName, d));
      } else {
        var r := c.CreateDocument(index, typeName, body.text, endpoint);
        if r.Err? {
          return Failed(r.error);
        }
        reply := Done(PutResponseOf(index, typeName, r.value));
      }
    }
  }

  method GetDocumentHandler(c: Db.Client, index: string, typeName: string, endpoint: string)
    returns (reply: Reply<GetResponse>)
    ensures reply == GetDocumentReply(c.State(), index, typeName, endpoint)
  {
    var found := c.GetDocument(index, typeName, endpoint);
    if found.Err? {
      return Failed(found.error);
    }
    reply := Done(GetResponseOf(index, typeName, found.value));
  }

  method DeleteDocumentHandler(c: Db.Client, index: string, typeName: string, endpoint: string)
    returns (reply: Reply<GetResponse>)
    modifies c
    ensures (c.State(), reply) == DeleteDocumentReply(old(c.State()), index, typeName, endpoint)
    ensures old(c.Valid()) ==> c.Valid()
  {
    var found := c.DeleteDocument(index, typeName, endpoint);
    if found.Err? {
      return Failed(found.error);
    }
    reply := Done(GetResponseOf(index, typeName, found.value));
  }

  /** The loop that turns the documents of a search into hits. */
  method CollectHits(index: string, typeName: string, docs: seq<M.Document>) returns (hits: SearchHits)
    ensures hits == HitsFor(index, typeName, docs)
  {
    hits := SearchHits(0, 0, []);
    for k := 0 to |docs|
      invariant hits == HitsFor(index, typeName, docs[..k])
    {
      assert docs[..k + 1][..k] == docs[..k];
      var hit := HitOf(index, typeName, docs[k]);
      hits := hits.(hits := hits.hits + [hit]);
      if hits.maxScore < hit.score {
        hits := hits.(maxScore := hit.score);
      }
      hits := hits.(total := hits.total + 1);
    }
    assert docs[..|docs|] == docs;
  }

  /** The `query` case of the search loop, for one type. */
  method SearchType(c: Db.Client, index: string, typeName: string, q: Json,
                    parse: string -> Parsed, holds: (Leaf, string) -> bool)
    returns (reply: Reply<SearchResponse>)
    ensures reply == TypeSearchReply(c.State(), index, typeName, q, parse, holds)
  {
    ghost var db := c.State();
    var docType := c.GetType(index, typeName);
    if docType.None? {
      return Panicked;
    }
    var mapping := TypeMapping(parse(docType.value.options));
    var query := c.NewQuery(index, typeName);
    if !q.JObject? || !ParseQuery.QueryShaped(q.members, mapping) {
      return Panicked;
    }
    ParseQuery.ParseSearchQuery(q.members, query, mapping);
    assert c.State() == db;
    assert query.where == ParseQuery.CompileQuery(q.members, mapping);
    var docs := c.ProcessSearchQuery(index, typeName, query, holds);
    assert docs == M.ProcessSearchQuery(db, M.TableName(index, typeName), ParseQuery.CompileQuery(q.members, mapping), holds);
    if docs.Err? {
      return Failed(docs.error);
    }
    var hits := CollectHits(index, typeName, docs.value);
    reply := Done(SearchResponse(false, OneShard, hits));
  }

  /** The loop over the members of the body that looks for `query`. */
  method QueryMember(members: Members) returns (q: Option<Json>)
    ensures q == Lookup(members, "query")
  {
    for m := 0 to |members|
      invariant forall n :: 0 <= n < m ==> members[n].0 != "query"
    {
      if members[m].0 == "query" {
        LookupFirst(members, "query", m);
        return Some(members[m].1);
      }
    }
    q := None;
  }

  method FindDocumentHandler(c: Db.Client, indexPattern: string, typePattern: string, body: Body,
                             parse: string -> Parsed, holds: (Leaf, string) -> bool)
    returns (reply: Reply<SearchResponse>)
    ensures reply == FindDocumentReply(c.State(), indexPattern, typePattern, body, parse, holds)
  {
    var indices := c.FindIndices(indexPattern);
    if body.Unreadable? {
      return Failed(NewInternalIOError(body.message));
    }
    var parsed := parse(body.text);
    if parsed.Unparseable? {
      return Failed(NewJSONWrongFormatError(parsed.message));
    }
    var v := parsed.value;
    ghost var db := c.State();
    for k := 0 to |indices|
      invariant FirstTarget(db, indices, typePattern) == FirstTarget(db, indices[k..], typePattern) ||
                (v.JObject? && Lookup(v.members, "query").None?)
    {
      var types := c.FindTypes(indices[k], typePattern);
      for j := 0 to |types|
        invariant j > 0 ==> v.JObject? && Lookup(v.members, "query").None?
      {
        if !v.JObject? {
          return Panicked;
        }
        var q := QueryMember(v.members);
        if q.Some? {
          reply := SearchType(c, indices[k], types[j], q.value, parse, holds);
          return;
        }
      }
      assert indices[k..][1..] == indices[k + 1..];
    }
    reply := Failed(NewIllegalQueryError(IllegalSearch));
  }

  method FindIndexDocumentHandler(c: Db.Client, path: string, body: Body,
                                  parse: string -> Parsed, holds: (Leaf, string) -> bool)
    returns (reply: Reply<SearchResponse>)
    ensures reply == FindIndexDocumentReply(c.State(), path, body, parse, holds)
  {
    reply := FindDocumentHandler(c, SearchIndexName(path), "*", body, parse, holds);
  }

  // ---------------------------------------------------------------------
  // Properties of the replies.
  // ---------------------------------------------------------------------

  /** A document put with no id into an existing type gets the next value
      of the type's sequence as its id, version 1 and result "created", and
      a get with that id then finds it. */
  lemma PutWithGeneratedId(db: M.Db, index: string, typeName: string, text: string, n: nat)
    requires M.GetIndex(db, index).Some? && M.GetType(db, index, typeName).Some?
    requires M.TableRows(db, M.TableName(index, typeName)).Ok?
    requires M.SequenceOf(M.TableName(index, typeName)) in db.relations
    requires db.relations[M.SequenceOf(M.TableName(index, typeName))] == M.Sequence(n)
    requires n < M.MaxSequence && |Decimal.NatToString(n + 1)| <= M.MaxIdLength
    requires M.GetDocument(db, index, typeName, Decimal.NatToString(n + 1)) == Ok(None)
    ensures var (db', reply) := PutDocumentReply(db, index, typeName, "", Body(text));
            var id := Decimal.NatToString(n + 1);
            reply == Done(PutResponse(OneShard, index, typeName, id, 1, true, "created")) &&
            GetDocumentReply(db', index, typeName, id) == Done(GetResponse(index, typeName, id, 1, true, Some(text)))
  {
    M.CreateDocumentGeneratedId(db, index, typeName, text, n);
  }

  /** A document put with no id into a type that does not exist yet: the
      index and type are created, and the document gets id "1". */
  lemma PutIntoNewType(db: M.Db, index: string, typeName: string, text: string)
    requires M.GetType(db, index, typeName).None?
    requires M.TableName(index, typeName) !in db.relations
    requires M.SequenceOf(M.TableName(index, typeName)) !in db.relations
    ensures var (db', reply) := PutDocumentReply(db, index, typeName, "", Body(text));
            reply == Done(PutResponse(OneShard, index, typeName, "1", 1, true, "created")) &&
            M.GetType(db', index, typeName).Some? &&
            GetDocumentReply(db', index, typeName, "1") == Done(GetResponse(index, typeName, "1", 1, true, Some(text)))
  {
    M.CreateDocumentProvisions(db, index, typeName, text);
  }

  /** A document put with an id into a type whose table does not exist yet
      is refused by the existence test, and nothing is provisioned: unlike
      a put without an id, it does not create the index or the type. */
  lemma PutWithIdIntoMissingTable(db: M.Db, index: string, typeName: string, endpoint: string, text: string)
    requires endpoint != ""
    requires M.TableName(index, typeName) !in db.relations
    ensures PutDocumentReply(db, index, typeName, endpoint, Body(text)) ==
              (db, Failed(DBQueryError(M.RelationMissing(M.TableName(index, typeName)))))
  {
  }

  /** A new id in an existing type: the document is created with version 1,
      and a get with the id returns its text. */
  lemma PutWithNewId(db: M.Db, index: string, typeName: string, id: string, text: string)
    requires M.Valid(db)
    requires M.GetIndex(db, index).Some? && M.GetType(db, index, typeName).Some?
    requires 0 < |id| <= M.MaxIdLength
    requires M.GetDocument(db, index, typeName, id) == Ok(None)
    ensures var (db', reply) := PutDocumentReply(db, index, typeName, id, Body(text));
            reply == Done(PutResponse(OneShard, index, typeName, id, 1, true, "created")) &&
            GetDocumentReply(db', index, typeName, id) == Done(GetResponse(index, typeName, id, 1, true, Some(text))) &&
            M.SameOutside(db, db', {M.TableName(index, typeName)})
  {
    M.IsDocumentExistsAgreesWithGet(db, index, typeName, id);
    M.CreateDocumentGivenId(db, index, typeName, text, id);
  }

  /** An id already present: the text is replaced, the version goes up by
      one and the result is "updated"; a get returns the new text. */
  lemma PutWithExistingId(db: M.Db, index: string, typeName: string, id: string, text: string, d: M.Document)
    requires M.Valid(db)
    requires |id| != 0
    requires M.GetDocument(db, index, typeName, id) == Ok(Some(d))
    requires d.version < M.MaxInt32
    ensures var (db', reply) := PutDocumentReply(db, index, typeName, id, Body(text));
            reply == Done(PutResponse(OneShard, index, typeName, id, d.version + 1, false, "updated")) &&
            GetDocumentReply(db', index, typeName, id) ==
              Done(GetResponse(index, typeName, id, d.version + 1, true, Some(text)))
  {
    M.IsDocumentExistsAgreesWithGet(db, index, typeName, id);
    M.UpdateDocumentPresent(db, index, typeName, text, id, d);
    var rows := M.TableRows(db, M.TableName(index, typeName)).value;
    assert M.RowsValid(rows);
    var k :| 0 <= k < |rows| && rows[k] == d;
    assert d.version >= 1;
  }

  /** The same id put twice: created with version 1, then updated to
      version 2, and a get returns the second text. */
  lemma PutTwice(db: M.Db, index: string, typeName: string, id: string, text1: string, text2: string)
    requires M.Valid(db)
    requires M.GetIndex(db, index).Some? && M.GetType(db, index, typeName).Some?
    requires 0 < |id| <= M.MaxIdLength
    requires M.GetDocument(db, index, typeName, id) == Ok(None)
    ensures var (db1, reply1) := PutDocumentReply(db, index, typeName, id, Body(text1));
            var (db2, reply2) := PutDocumentReply(db1, index, typeName, id, Body(text2));
            reply1 == Done(PutResponse(OneShard, index, typeName, id, 1, true, "created")) &&
            reply2 == Done(PutResponse(OneShard, index, typeName, id, 2, false, "updated")) &&
            GetDocumentReply(db2, index, typeName, id) == Done(GetResponse(index, typeName, id, 2, true, Some(text2)))
  {
    var (db1, reply1) := PutDocumentReply(db, index, typeName, id, Body(text1));
    PutWithNewId(db, index, typeName, id, text1);
    assert db1 == M.CreateDocument(db, index, typeName, text1, id).0 by {
      M.IsDocumentExistsAgreesWithGet(db, index, typeName, id);
    }
    M.CreateDocumentPreservesValid(db, index, typeName, text1, id);
    assert M.GetDocument(db1, index, typeName, id) == Ok(Some(M.Document(id, text1, 1)));
    PutWithExistingId(db1, index, typeName, id, text2, M.Document(id, text1, 1));
  }

  /** Deleting a present document answers with the document as it was; a
      get afterwards does not find it and answers only index and type. */
  lemma DeleteThenGet(db: M.Db, index: string, typeName: string, id: string, d: M.Document)
    requires M.GetDocument(db, index, typeName, id) == Ok(Some(d))
    ensures var (db', reply) := DeleteDocumentReply(db, index, typeName, id);
            reply == Done(GetResponse(index, typeName, id, d.version, true, Some(d.document))) &&
            GetDocumentReply(db', index, typeName, id) == Done(GetResponse(index, typeName, "", 0, false, None)) &&
            DeleteDocumentReply(db', index, typeName, id) == (db', reply.(value := GetResponse(index, typeName, "", 0, false, None)))
  {
    M.DeleteDocumentPresent(db, index, typeName, id, d);
  }

  /** FirstTarget is the first index, in order, with a matching type, and
      the first of its types. */
  lemma {:induction false} FirstTargetIsFirstMatch(db: M.Db, indices: seq<string>, typePattern: string, k: nat)
    requires k < |indices|
    requires forall n :: 0 <= n < k ==> M.FindTypes(db, indices[n], typePattern) == []
    ensures M.FindTypes(db, indices[k], typePattern) != [] ==>
              FirstTarget(db, indices, typePattern) == Some((indices[k], M.FindTypes(db, indices[k], typePattern)[0]))
    ensures M.FindTypes(db, indices[k], typePattern) == [] ==>
              FirstTarget(db, indices, typePattern) == FirstTarget(db, indices[k + 1..], typePattern)
    decreases k
  {
    if k > 0 {
      assert forall n :: 0 <= n < k - 1 ==> indices[1..][n] == indices[n + 1];
      FirstTargetIsFirstMatch(db, indices[1..], typePattern, k - 1);
      assert indices[1..][k - 1] == indices[k];
      assert indices[1..][k..] == indices[k + 1..];
    }
  }

  /** No matching type at all: nothing is searched. */
  lemma {:induction false} NoTargetWithoutMatchingTypes(db: M.Db, indices: seq<string>, typePattern: string)
    ensures FirstTarget(db, indices, typePattern).None? <==>
              forall n :: 0 <= n < |indices| ==> M.FindTypes(db, indices[n], typePattern) == []
    decreases indices
  {
    if indices != [] {
      NoTargetWithoutMatchingTypes(db, indices[1..], typePattern);
      assert forall n :: 0 <= n < |indices| - 1 ==> indices[1..][n] == indices[n + 1];
      if forall n :: 0 <= n < |indices[1..]| ==> M.FindTypes(db, indices[1..][n], typePattern) == [] {
        if M.FindTypes(db, indices[0], typePattern) == [] {
          forall n | 0 <= n < |indices| ensures M.FindTypes(db, indices[n], typePattern) == [] {
            if n > 0 { assert indices[n] == indices[1..][n - 1]; }
          }
        }
      }
    }
  }

  /** A body that cannot be read or decoded fails the search before any
      type is looked at. */
  lemma SearchBodyErrors(db: M.Db, indexPattern: string, typePattern: string, message: string, text: string,
                         parse: string -> Parsed, holds: (Leaf, string) -> bool)
    ensures FindDocumentReply(db, indexPattern, typePattern, Unreadable(message), parse, holds) == Failed(InternalIOError(message))
    ensures parse(text).Unparseable? ==>
              FindDocumentReply(db, indexPattern, typePattern, Body(text), parse, holds) == Failed(JSONWrongFormatError(parse(text).message))
  {
  }

  /** A search whose patterns match no type is an illegal query, whatever
      the body holds, as long as it decodes. */
  lemma SearchWithoutTarget(db: M.Db, indexPattern: string, typePattern: string, text: string,
                            parse: string -> Parsed, holds: (Leaf, string) -> bool)
    requires parse(text).Parsed?
    requires forall n :: 0 <= n < |M.FindIndices(db, indexPattern)| ==> M.FindTypes(db, M.FindIndices(db, indexPattern)[n], typePattern) == []
    ensures FindDocumentReply(db, indexPattern, typePattern, Body(text), parse, holds) == Failed(IllegalQueryError(IllegalSearch))
  {
    NoTargetWithoutMatchingTypes(db, M.FindIndices(db, indexPattern), typePattern);
  }

  /** A body without a `query` member is an illegal query once a type
      matches; a body that is not an object panics. */
  lemma SearchWithoutQuery(db: M.Db, indexPattern: string, typePattern: string, text: string,
                           parse: string -> Parsed, holds: (Leaf, string) -> bool)
    requires parse(text).Parsed?
    requires FirstTarget(db, M.FindIndices(db, indexPattern), typePattern).Some?
    ensures parse(text).value.JObject? && (forall n :: 0 <= n < |parse(text).value.members| ==> parse(text).value.members[n].0 != "query") ==>
              FindDocumentReply(db, indexPattern, typePattern, Body(text), parse, holds) == Failed(IllegalQueryError(IllegalSearch))
    ensures !parse(text).value.JObject? ==> FindDocumentReply(db, indexPattern, typePattern, Body(text), parse, holds) == Panicked
  {
  }

  /** The search of the first matching type returns, in table order,
      exactly the documents the compiled query accepts, one hit each. */
  lemma SearchReturnsAcceptedDocuments(db: M.Db, indexPattern: string, typePattern: string, text: string,
                                       parse: string -> Parsed, holds: (Leaf, string) -> bool,
                                       index: string, typeName: string, q: Members, rec: M.TypeRecord)
    requires FirstTarget(db, M.FindIndices(db, indexPattern), typePattern) == Some((index, typeName))
    requires parse(text).Parsed? && parse(text).value.JObject?
    requires Lookup(parse(text).value.members, "query") == Some(JObject(q))
    requires M.GetType(db, index, typeName) == Some(rec)
    requires ParseQuery.QueryShaped(q, TypeMapping(parse(rec.options)))
    requires M.TableRows(db, M.TableName(index, typeName)).Ok?
    ensures var rows := M.TableRows(db, M.TableName(index, typeName)).value;
            var where := ParseQuery.CompileQuery(q, TypeMapping(parse(rec.options)));
            var docs := M.Matching(rows, where, holds);
            FindDocumentReply(db, indexPattern, typePattern, Body(text), parse, holds) ==
              Done(SearchResponse(false, OneShard, HitsFor(index, typeName, docs))) &&
            forall d :: d in docs <==> d in rows && Holds(where, l => holds(l, d.document))
  {
    var where := ParseQuery.CompileQuery(q, TypeMapping(parse(rec.options)));
    M.ProcessSearchQueryFilters(db, M.TableName(index, typeName), where, holds, M.Document("", "", 0));
  }

  /** A `match_all` query returns every document of the first matching type. */
  lemma SearchMatchAll(db: M.Db, indexPattern: string, typePattern: string, text: string,
                       parse: string -> Parsed, holds: (Leaf, string) -> bool,
                       index: string, typeName: string, v: Json)
    requires FirstTarget(db, M.FindIndices(db, indexPattern), typePattern) == Some((index, typeName))
    requires v.JObject?
    requires parse(text) == Parsed(JObject([("query", JObject([("match_all", v)]))]))
    requires M.GetType(db, index, typeName).Some?
    requires M.TableRows(db, M.TableName(index, typeName)).Ok?
    ensures var rows := M.TableRows(db, M.TableName(index, typeName)).value;
            FindDocumentReply(db, indexPattern, typePattern, Body(text), parse, holds) ==
              Done(SearchResponse(false, OneShard, HitsFor(index, typeName, rows)))
  {
    var rec := M.GetType(db, index, typeName).value;
    var mapping := TypeMapping(parse(rec.options));
    ParseQuery.MatchAllAcceptsEverything(v, mapping, l => true);
    var members := [("query", JObject([("match_all", v)]))];
    assert Lookup(members, "query") == Some(JObject([("match_all", v)]));
    var rows := M.TableRows(db, M.TableName(index, typeName)).value;
    M.MatchingNoClauses(rows, holds);
  }

  /** `/<index>/_search` searches every type of the index named in the path. */
  lemma IndexSearchPath(db: M.Db, index: string, body: Body, parse: string -> Parsed, holds: (Leaf, string) -> bool)
    requires IsWord(index)
    ensures FindIndexDocumentReply(db, "/" + index + SearchSuffix, body, parse, holds) ==
              FindDocumentReply(db, index, "*", body, parse, holds)
  {
    SearchIndexNameOfPath(index, "");
    assert index + "" == index;
    assert "/" + index + SearchSuffix + "" == "/" + index + SearchSuffix;
  }
}
