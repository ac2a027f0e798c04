/** The database client of db/client.go as an object whose fields are the
    database it is connected to.  Each method performs the statements of
    the Go method in the same order and leaves the database in the state,
    and returns the result, that the function of the same name in DbModel
    describes; the properties proved there carry over to the object. */
module Db {

  import opened Json
  import opened Errors
  import Wildcard
  import Decimal
  import opened Query
  import M = DbModel

  class Client {
    var indices: seq<M.IndexRecord>
    var types: seq<M.TypeRecord>
    var relations: map<string, M.Relation>

    /** The database as a value. */
    function State(): M.Db
      reads this
    {
      M.Db(indices, types, relations)
    }

    ghost predicate Valid()
      reads this
    {
      M.Valid(State())
    }

    /** `CreateClient`: a connection to a database with no tables yet. */
    constructor()
      ensures State() == M.Db([], [], map[])
    {
      indices := [];
      types := [];
      relations := map[];
    }

    /** `InitializeSchema`: each catalog table is created unless it exists. */
    method InitializeSchema()
      modifies this
      ensures State() == M.InitializeSchema(old(State()))
    {
      var catalog := [M.IndexTable, M.TypeTable];
      for k := 0 to |catalog|
        invariant indices == old(indices) && types == old(types)
        invariant M.CreateIfAbsent(relations, catalog[k..]) == M.CreateIfAbsent(old(relations), catalog)
      {
        assert catalog[k..][1..] == catalog[k + 1..];
        if catalog[k] !in relations {
          relations := relations[catalog[k] := M.SystemTable];
        }
      }
    }

    /** `NewQuery`: a query on the table of (index, type) with no condition. */
    method NewQuery(indexName: string, typeName: string) returns (q: Builder)
      ensures fresh(q) && q.table == M.TableName(indexName, typeName) && q.where == []
    {
      q := new Builder(M.TableName(indexName, typeName));
    }

    /** `ProcessSearchQuery`: the rows of the query's table that its
        where-list accepts; the index and type arguments are not used. */
    method ProcessSearchQuery(indexName: string, typeName: string, query: Builder, holds: (Leaf, string) -> bool)
      returns (r: Result<seq<M.Document>>)
      ensures r == M.ProcessSearchQuery(State(), query.table, query.where, holds)
    {
      var rows := M.TableRows(State(), query.table);
      if rows.Err? {
        return Err(rows.error);
      }
      var hits := M.Matching(rows.value, query.where, holds);
      if |hits| == 0 {
        return Ok([]);
      }
      return Ok(hits);
    }

    method GetIndex(indexName: string) returns (r: Option<M.IndexRecord>)
      ensures r == M.GetIndex(State(), indexName)
    {
      r := M.FindIndexRecord(indices, indexName);
    }

    method CreateIndex(indexName: string, options: string) returns (r: Result<M.IndexRecord>)
      modifies this
      ensures (State(), r) == M.CreateIndex(old(State()), indexName, options)
      ensures old(Valid()) ==> Valid()
    {
      ghost var before := State();
      var existing := GetIndex(indexName);
      if existing.Some? {
        return Err(NewIllegalQueryError("Index already exists"));
      }
      var rec := M.IndexRecord(indexName, options);
      indices := indices + [rec];
      r := Ok(rec);
      if M.Valid(before) {
        M.CreateIndexPreservesValid(before, indexName, options);
      }
    }

    /** `FindIndices`: the names of the records the LIKE query selects, in
        the order it returns them. */
    method FindIndices(indexPattern: string) returns (names: seq<string>)
      ensures names == M.FindIndices(State(), indexPattern)
    {
      var like := Wildcard.Translate(indexPattern);
      var records := M.IndexRecordsLike(indices, like);
      names := [];
      for k := 0 to |records|
        invariant names == M.IndexNames(records[..k])
      {
        assert records[..k + 1] == records[..k] + [records[k]];
        IndexNamesAppend(records[..k], records[k]);
        names := names + [records[k].name];
      }
      assert records[..|records|] == records;
    }

    /** `createDataTable`: the id sequence, then the table. */
    method CreateDataTable(indexName: string, typeName: string) returns (err: Option<ElasticError>)
      modifies this
      ensures (State(), err) == M.CreateDataTable(old(State()), indexName, typeName)
    {
      var table := M.TableName(indexName, typeName);
      var sequence := M.SequenceOf(table);
      if sequence in relations {
        return Some(NewDBQueryError(M.RelationExists(sequence)));
      }
      relations := relations[sequence := M.Sequence(0)];
      if table in relations {
        return Some(NewDBQueryError(M.RelationExists(table)));
      }
      relations := relations[table := M.DataTable([])];
      err := None;
    }

    method CreateType(indexName: string, typeName: string, options: string) returns (r: Result<M.TypeRecord>)
      modifies this
      ensures (State(), r) == M.CreateType(old(State()), indexName, typeName, options)
      ensures old(Valid()) ==> Valid()
    {
      ghost var before := State();
      var existing := GetType(indexName, typeName);
      if existing.Some? {
        return Err(NewIllegalQueryError("Type already exists"));
      }
      var rec := M.TypeRecord(typeName, indexName, options);
      types := types + [rec];
      var err := CreateDataTable(indexName, typeName);
      if err.Some? {
        r := Err(NewDBQueryError(err.value.Error()));
      } else {
        r := Ok(rec);
      }
      if M.Valid(before) {
        M.CreateTypePreservesValid(before, indexName, typeName, options);
      }
    }

    method GetType(indexName: string, typeName: string) returns (r: Option<M.TypeRecord>)
      ensures r == M.GetType(State(), indexName, typeName)
    {
      r := M.FindTypeRecord(types, indexName, typeName);
    }

    /** `UpdateTypeOptions`: the update, then a fresh read of the type. */
    method UpdateTypeOptions(indexName: string, typeName: string, options: string) returns (r: Option<M.TypeRecord>)
      modifies this
      ensures (State(), r) == M.UpdateTypeOptions(old(State()), indexName, typeName, options)
      ensures old(Valid()) ==> Valid()
    {
      ghost var before := State();
      types := M.SetTypeOptions(types, indexName, typeName, options);
      r := GetType(indexName, typeName);
      if M.Valid(before) {
        M.UpdateTypeOptionsPreservesValid(before, indexName, typeName, options);
      }
    }

    /** `FindTypes`: the names of the selected type records of the index. */
    method FindTypes(indexName: string, typePattern: string) returns (names: seq<string>)
      ensures names == M.FindTypes(State(), indexName, typePattern)
    {
      var like := Wildcard.Translate(typePattern);
      var records := M.TypeRecordsLike(types, indexName, like);
      names := [];
      for k := 0 to |records|
        invariant names == M.TypeNames(records[..k])
      {
        assert records[..k + 1] == records[..k] + [records[k]];
        TypeNamesAppend(records[..k], records[k]);
        names := names + [records[k].name];
      }
      assert records[..|records|] == records;
    }

    method GetDocument(indexName: string, typeName: string, documentID: string) returns (r: Result<Option<M.Document>>)
      ensures r == M.GetDocument(State(), indexName, typeName, documentID)
    {
      var rows := M.TableRows(State(), M.TableName(indexName, typeName));
      if rows.Err? {
        return Err(rows.error);
      }
      if M.CountId(rows.value, documentID) == 0 {
        return Ok(None);
      }
      r := Ok(M.FindRow(rows.value, documentID));
    }

    method IsDocumentExists(indexName: string, typeName: string, documentID: string) returns (r: Result<bool>)
      ensures r == M.IsDocumentExists(State(), indexName, typeName, documentID)
    {
      if |documentID| == 0 {
        return Ok(false);
      }
      var rows := M.TableRows(State(), M.TableName(indexName, typeName));
      if rows.Err? {
        return Err(rows.error);
      }
      r := Ok(M.CountId(rows.value, documentID) == 1);
    }

    /** `insertDocument`: the row gets the next value of the id sequence. */
    method InsertDocument(indexName: string, typeName: string, document: string) returns (r: Result<M.Document>)
      modifies this
      ensures (State(), r) == M.InsertDocument(old(State()), indexName, typeName, document)
    {
      var table := M.TableName(indexName, typeName);
      var rows := M.TableRows(State(), table);
      if rows.Err? {
        return Err(rows.error);
      }
      var sequence := M.SequenceOf(table);
      if sequence !in relations || !relations[sequence].Sequence? {
        return Err(NewDBQueryError(M.RelationMissing(sequence)));
      }
      var n := relations[sequence].issued;
      if n >= M.MaxSequence {
        return Err(NewDBQueryError(M.SequenceExhausted(sequence)));
      }
      relations := relations[sequence := M.Sequence(n + 1)];
      var id := Decimal.NatToString(n + 1);
      if |id| > M.MaxIdLength {
        return Err(NewDBQueryError(M.ValueTooLong));
      }
      if M.FindRow(rows.value, id).Some? {
        return Err(NewDBQueryError(M.DuplicateKey(table)));
      }
      var doc := M.Document(id, document, 1);
      relations := relations[table := M.DataTable(rows.value + [doc])];
      r := Ok(doc);
    }

    /** `insertDocumentID` with the statement it is meant to send. */
    method InsertDocumentID(indexName: string, typeName: string, document: string, documentID: string) returns (r: Result<M.Document>)
      modifies this
      ensures (State(), r) == M.InsertDocumentID(old(State()), indexName, typeName, document, documentID)
    {
      var table := M.TableName(indexName, typeName);
      var rows := M.TableRows(State(), table);
      if rows.Err? {
        return Err(rows.error);
      }
      if |documentID| > M.MaxIdLength {
        return Err(NewDBQueryError(M.ValueTooLong));
      }
      if M.FindRow(rows.value, documentID).Some? {
        return Err(NewDBQueryError(M.DuplicateKey(table)));
      }
      var doc := M.Document(documentID, document, 1);
      relations := relations[table := M.DataTable(rows.value + [doc])];
      r := Ok(doc);
    }

    /** `CreateDocument`: the index and the type are created when missing,
        then the document is inserted under a generated or the given id. */
    method CreateDocument(indexName: string, typeName: string, document: string, documentID: string) returns (r: Result<M.Document>)
      modifies this
      ensures (State(), r) == M.CreateDocument(old(State()), indexName, typeName, document, documentID)
      ensures old(Valid()) ==> Valid()
    {
      ghost var before := State();
      var index := GetIndex(indexName);
      if index.None? {
        // With no record of the name, creating the index cannot fail.
        var created := CreateIndex(indexName, "");
        assert created.Ok?;
      }
      var typeObject := GetType(indexName, typeName);
      if typeObject.None? {
        var created := CreateType(indexName, typeName, "");
        if created.Err? {
          r := Err(created.error);
          assert (State(), r) == M.CreateDocument(before, indexName, typeName, document, documentID);
          if M.Valid(before) {
            M.CreateDocumentPreservesValid(before, indexName, typeName, document, documentID);
          }
          return;
        }
      }
      if |documentID| == 0 {
        r := InsertDocument(indexName, typeName, document);
      } else {
        var present := IsDocumentExists(indexName, typeName, documentID);
        if present.Err? {
          r := Err(present.error);
        } else if present.value {
          r := Err(NewDBQueryError("Document with ID " + documentID + " already exists"));
        } else {
          r := InsertDocumentID(indexName, typeName, document, documentID);
        }
      }
      if M.Valid(before) {
        M.CreateDocumentPreservesValid(before, indexName, typeName, document, documentID);
      }
    }

    /** `UpdateDocument`: new text and version of a present document, then
        a fresh read of it; an error of that read is dropped. */
    method UpdateDocument(indexName: string, typeName: string, document: string, documentID: string) returns (r: Result<Option<M.Document>>)
      modifies this
      ensures (State(), r) == M.UpdateDocument(old(State()), indexName, typeName, document, documentID)
      ensures old(Valid()) ==> Valid()
    {
      ghost var before := State();
      if M.Valid(before) {
        M.UpdateDocumentPreservesValid(before, indexName, typeName, document, documentID);
      }
      var present := IsDocumentExists(indexName, typeName, documentID);
      if present.Err? {
        return Err(present.error);
      }
      if |documentID| != 0 && present.value {
        var table := M.TableName(indexName, typeName);
        var rows := M.TableRows(State(), table);
        if rows.Err? {
          return Err(rows.error);
        }
        if M.VersionAtLimit(rows.value, documentID) {
          return Err(NewDBQueryError(M.IntegerOutOfRange));
        }
        relations := relations[table := M.DataTable(M.UpdateRows(rows.value, documentID, document))];
        var reread := GetDocument(indexName, typeName, documentID);
        r := Ok(if reread.Ok? then reread.value else None);
      } else {
        r := Err(NewDBQueryError("Document with ID " + documentID + " doesn't exists"));
      }
    }

    /** `DeleteDocument`: the document as it was, removed when present. */
    method DeleteDocument(indexName: string, typeName: string, documentID: string) returns (r: Result<Option<M.Document>>)
      modifies this
      ensures (State(), r) == M.DeleteDocument(old(State()), indexName, typeName, documentID)
      ensures old(Valid()) ==> Valid()
    {
      ghost var before := State();
      if M.Valid(before) {
        M.DeleteDocumentPreservesValid(before, indexName, typeName, documentID);
      }
      var found := GetDocument(indexName, typeName, documentID);
      if found.Err? {
        return Err(found.error);
      }
      if found.value.Some? {
        var table := M.TableName(indexName, typeName);
        // The lookup has just read this table.
        var rows := M.TableRows(State(), table);
        assert rows.Ok?;
        relations := relations[table := M.DataTable(M.RemoveId(rows.value, documentID))];
      }
      r := found;
    }
  }

  lemma {:induction false} IndexNamesAppend(records: seq<M.IndexRecord>, rec: M.IndexRecord)
    ensures M.IndexNames(records + [rec]) == M.IndexNames(records) + [rec.name]
  {
    var l := M.IndexNames(records + [rec]);
    assert |l| == |records| + 1;
    assert forall k :: 0 <= k < |records| ==> l[k] == (records + [rec])[k].name == records[k].name;
  }

  lemma {:induction false} TypeNamesAppend(records: seq<M.TypeRecord>, rec: M.TypeRecord)
    ensures M.TypeNames(records + [rec]) == M.TypeNames(records) + [rec.name]
  {
    var l := M.TypeNames(records + [rec]);
    assert |l| == |records| + 1;
    assert forall k :: 0 <= k < |records| ==> l[k] == (records + [rec])[k].name == records[k].name;
  }
}
