/** The index endpoints of the server (api/indices.go): PUT and HEAD of
    `/<index>`, and PUT of `/<index>/_mapping/<type>`.  The names come out
    of the request path through the handlers' regular expressions. */
module Indices {

  import opened Json
  import opened Errors
  import M = DbModel
  import Db
  import opened Request

  datatype IndexPutResponse = IndexPutResponse(acknowledged: bool, shardsAcknowledged: bool)

  datatype TypePutResponse = TypePutResponse(acknowledged: bool)

  /** The index name of `/<index>` paths. */
  function IndexNameOf(path: string): string
  {
    StripSlashes(path)
  }

  /** PUT `/<index>`: a new index whose options are the request body. */
  function PutIndexReply(db: M.Db, path: string, body: Body): (M.Db, Reply<IndexPutResponse>)
  {
    var indexName := IndexNameOf(path);
    match body
    case Unreadable(message) => (db, Failed(NewInternalIOError(message)))
    case Body(options) =>
      var (db1, r) := M.CreateIndex(db, indexName, options);
      (db1, if r.Err? then Failed(r.error) else Done(IndexPutResponse(true, true)))
  }

  /** HEAD `/<index>`: whether the index exists.  The lookup has no error
      case, so neither has the reply. */
  function HeadIndexReply(db: M.Db, path: string): bool
  {
    M.GetIndex(db, IndexNameOf(path)).Some?
  }

  /** PUT `/<index>/_mapping/<type>`: the body becomes the options of the
      type, which is created when it does not exist. */
  function PutTypeMappingReply(db: M.Db, path: string, body: Body): (M.Db, Reply<TypePutResponse>)
  {
    var indexName := ReplaceMappingMatches(path, true);
    var typeName := ReplaceMappingMatches(path, false);
    match body
    case Unreadable(message) => (db, Failed(NewInternalIOError(message)))
    case Body(options) =>
      if M.GetType(db, indexName, typeName).Some? then
        (M.UpdateTypeOptions(db, indexName, typeName, options).0, Done(TypePutResponse(true)))
      else
        var (db1, r) := M.CreateType(db, indexName, typeName, options);
        (db1, if r.Err? then Failed(r.error) else Done(TypePutResponse(true)))
  }

  method PutIndexHandler(c: Db.Client, path: string, body: Body) returns (reply: Reply<IndexPutResponse>)
    modifies c
    ensures (c.State(), reply) == PutIndexReply(old(c.State()), path, body)
    ensures old(c.Valid()) ==> c.Valid()
  {
    var indexName := IndexNameOf(path);
    if body.Unreadable? {
      return Failed(NewInternalIOError(body.message));
    }
    var created := c.CreateIndex(indexName, body.text);
    if created.Err? {
      return Failed(created.error);
    }
    reply := Done(IndexPutResponse(true, true));
  }

  method HeadIndexHandler(c: Db.Client, path: string) returns (present: bool)
    ensures present == HeadIndexReply(c.State(), path)
  {
    var indexRecord := c.GetIndex(IndexNameOf(path));
    present := indexRecord.Some?;
  }

  method PutTypeMappingHandler(c: Db.Client, path: string, body: Body) returns (reply: Reply<TypePutResponse>)
    modifies c
    ensures (c.State(), reply) == PutTypeMappingReply(old(c.State()), path, body)
    ensures old(c.Valid()) ==> c.Valid()
  {
    var indexName := ReplaceMappingMatches(path, true);
    var typeName := ReplaceMappingMatches(path, false);
    if body.Unreadable? {
      return Failed(NewInternalIOError(body.message));
    }
    var typeObject := c.GetType(indexName, typeName);
    if typeObject.Some? {
      var _ := c.UpdateTypeOptions(indexName, typeName, body.text);
    } else {
      var created := c.CreateType(indexName, typeName, body.text);
      if created.Err? {
        return Failed(created.error);
      }
    }
    reply := Done(TypePutResponse(true));
  }

  // ---------------------------------------------------------------------
  // Properties.
  // ---------------------------------------------------------------------

  /** PUT `/<index>` of a new name creates the index with the body as its
      options, HEAD then reports it, and a second PUT is refused and
      changes nothing. */
  lemma PutIndexThenHead(db: M.Db, index: string, options: string, options2: string)
    requires IsWord(index)
    requires M.GetIndex(db, index).None?
    ensures var (db', reply) := PutIndexReply(db, "/" + index, Body(options));
            reply == Done(IndexPutResponse(true, true)) &&
            M.GetIndex(db', index) == Some(M.IndexRecord(index, options)) &&
            HeadIndexReply(db', "/" + index) &&
            PutIndexReply(db', "/" + index, Body(options2)) == (db', Failed(IllegalQueryError("Index already exists")))
  {
    StripSlashesOfIndexPath(index);
    M.CreateIndexOutcome(db, index, options);
    var db' := M.CreateIndex(db, index, options).0;
    M.CreateIndexOutcome(db', index, options2);
  }

  /** HEAD `/<index>` answers whether an index of that name exists. */
  lemma HeadIndexAnswersExistence(db: M.Db, index: string)
    requires IsWord(index)
    ensures HeadIndexReply(db, "/" + index) <==> exists k :: 0 <= k < |db.indices| && db.indices[k].name == index
  {
    StripSlashesOfIndexPath(index);
    M.LookupsReportAbsence(db, index, "");
  }

  /** The first PUT of a mapping creates the type with the body as its
      options and provisions its storage; a second PUT replaces the options
      and leaves the storage as it is. */
  lemma PutTypeMappingTwice(db: M.Db, index: string, typeName: string, options1: string, options2: string)
    requires IsWord(index) && IsWord(typeName)
    requires M.GetType(db, index, typeName).None?
    requires M.TableName(index, typeName) !in db.relations
    requires M.SequenceOf(M.TableName(index, typeName)) !in db.relations
    ensures var path := "/" + index + MappingInfix + typeName;
            var (db1, reply1) := PutTypeMappingReply(db, path, Body(options1));
            var (db2, reply2) := PutTypeMappingReply(db1, path, Body(options2));
            reply1 == Done(TypePutResponse(true)) && reply2 == Done(TypePutResponse(true)) &&
            M.GetType(db1, index, typeName) == Some(M.TypeRecord(typeName, index, options1)) &&
            M.TableRows(db1, M.TableName(index, typeName)) == Ok([]) &&
            M.GetType(db2, index, typeName) == Some(M.TypeRecord(typeName, index, options2)) &&
            db2.relations == db1.relations && db2.indices == db1.indices
  {
    MappingNamesOfPath(index, typeName);
    M.CreateTypeFresh(db, index, typeName, options1);
    var db1 := M.CreateType(db, index, typeName, options1).0;
    M.UpdateTypeOptionsOutcome(db1, index, typeName, options2);
  }

  /** PUT of a mapping for a type that does not exist replies with exactly
      the error CreateType returns, keeping what CreateType did to the
      store, and is acknowledged when CreateType succeeds. */
  lemma PutTypeMappingPropagatesError(db: M.Db, index: string, typeName: string, options: string)
    requires IsWord(index) && IsWord(typeName)
    requires M.GetType(db, index, typeName).None?
    ensures var (db', r) := M.CreateType(db, index, typeName, options);
            PutTypeMappingReply(db, "/" + index + MappingInfix + typeName, Body(options)) ==
              (db', if r.Err? then Failed(r.error) else Done(TypePutResponse(true)))
  {
    MappingNamesOfPath(index, typeName);
  }

  /** A mapping for a new type whose table name is already taken (as
      `index_records` is for type `records` of index `index`) replies with
      CreateType's doubly wrapped db_query_exception; the type record and
      its sequence stay behind. */
  lemma PutTypeMappingOntoTakenName(db: M.Db, index: string, typeName: string, options: string)
    requires IsWord(index) && IsWord(typeName)
    requires M.GetType(db, index, typeName).None?
    requires M.TableName(index, typeName) in db.relations
    requires M.SequenceOf(M.TableName(index, typeName)) !in db.relations
    ensures var (db', reply) := PutTypeMappingReply(db, "/" + index + MappingInfix + typeName, Body(options));
            var table := M.TableName(index, typeName);
            reply == Failed(DBQueryError(DBQueryError(M.RelationExists(table)).Error())) &&
            reply.error.Type() == "db_query_exception" &&
            M.GetType(db', index, typeName) == Some(M.TypeRecord(typeName, index, options)) &&
            db'.relations == db.relations[M.SequenceOf(table) := M.Sequence(0)]
  {
    PutTypeMappingPropagatesError(db, index, typeName, options);
    M.CreateTypeTableNameTaken(db, index, typeName, options);
  }
}
