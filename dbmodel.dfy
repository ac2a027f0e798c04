/** The catalog and document store of db/client.go, with PostgreSQL replaced
    by an abstract state: the two catalog tables go-pg creates
    (`index_records`, `type_records`) and a namespace of relations in which
    each (index, type) gets a sequence `<index>_<type>_id_seq` and a table
    `<index>_<type>` of (id VARCHAR(128) PRIMARY KEY, document, version
    integer) rows.  Every operation is a function from the state before to
    the state after and its result. */
module DbModel {

  import opened Json
  import opened Errors
  import Decimal
  import Wildcard
  import opened Query

  datatype IndexRecord = IndexRecord(name: string, options: string)

  datatype TypeRecord = TypeRecord(name: string, indexName: string, options: string)

  /** A stored document: its id, its text and its version. */
  datatype Document = Document(id: string, document: string, version: int)

  /** What a relation name stands for in the database. */
  datatype Relation =
    | SystemTable
    | Sequence(issued: nat)
    | DataTable(rows: seq<Document>)

  datatype Db = Db(indices: seq<IndexRecord>, types: seq<TypeRecord>, relations: map<string, Relation>)

  const IndexTable := "index_records"
  const TypeTable := "type_records"

  /** Largest value of a PostgreSQL `integer` column (the version). */
  const MaxInt32 := 2147483647
  /** Largest value a default PostgreSQL sequence hands out. */
  const MaxSequence := 9223372036854775807
  /** Width of the id column. */
  const MaxIdLength := 128

  /** The schema as it stands after the catalog tables are created. */
  function InitialDb(): Db
  {
    Db([], [], map[IndexTable := SystemTable, TypeTable := SystemTable])
  }

  /** Each named table is created unless a relation with the name exists. */
  function CreateIfAbsent(relations: map<string, Relation>, names: seq<string>): map<string, Relation>
    decreases names
  {
    if names == [] then relations
    else CreateIfAbsent(if names[0] in relations then relations else relations[names[0] := SystemTable], names[1..])
  }

  /** Creating the catalog tables if they do not exist yet; nothing else
      is touched. */
  function InitializeSchema(db: Db): (db': Db)
    ensures db'.indices == db.indices && db'.types == db.types
    ensures IndexTable in db'.relations && TypeTable in db'.relations
    ensures forall x :: x in db.relations ==> x in db'.relations && db'.relations[x] == db.relations[x]
    ensures forall x :: x in db'.relations && x !in db.relations ==> x in {IndexTable, TypeTable} && db'.relations[x] == SystemTable
  {
    var r1 := if IndexTable in db.relations then db.relations else db.relations[IndexTable := SystemTable];
    var r2 := if TypeTable in r1 then r1 else r1[TypeTable := SystemTable];
    assert CreateIfAbsent(db.relations, [IndexTable, TypeTable]) == r2 by {
      assert [IndexTable, TypeTable][0] == IndexTable && [IndexTable, TypeTable][1..] == [TypeTable];
      assert [TypeTable][0] == TypeTable && [TypeTable][1..] == [];
      assert CreateIfAbsent(r1, [TypeTable]) == CreateIfAbsent(r2, []);
    }
    db.(relations := CreateIfAbsent(db.relations, [IndexTable, TypeTable]))
  }

  /** On an empty database the schema is the initial state; a second
      initialisation changes nothing. */
  lemma InitializeSchemaOutcome(db: Db)
    ensures InitializeSchema(Db([], [], map[])) == InitialDb()
    ensures InitializeSchema(InitializeSchema(db)) == InitializeSchema(db)
  {
    assert IndexTable != TypeTable;
    assert map[][IndexTable := SystemTable][TypeTable := SystemTable] == map[IndexTable := SystemTable, TypeTable := SystemTable];
  }

  /** `fmt.Sprintf("%s_%s", indexName, typeName)`. */
  function TableName(indexName: string, typeName: string): string
  {
    indexName + "_" + typeName
  }

  /** The sequence behind a table's id default. */
  function SequenceOf(table: string): string
  {
    table + "_id_seq"
  }

  // Backend error texts, in PostgreSQL's wording.

  function RelationMissing(name: string): string
  {
    "relation \"" + name + "\" does not exist"
  }

  function RelationExists(name: string): string
  {
    "relation \"" + name + "\" already exists"
  }

  function NotADocumentTable(name: string): string
  {
    "relation \"" + name + "\" has no columns id, document, version"
  }

  function DuplicateKey(table: string): string
  {
    "duplicate key value violates unique constraint \"" + table + "_pkey\""
  }

  function SequenceExhausted(name: string): string
  {
    "nextval: reached maximum value of sequence \"" + name + "\""
  }

  const ValueTooLong := "value too long for type character varying(128)"
  const IntegerOutOfRange := "integer out of range"

  // ---------------------------------------------------------------------
  // Row-level searches the SQL statements perform.
  // ---------------------------------------------------------------------

  /** `SELECT .. FROM index_records WHERE name = ?`: the first match. */
  function FindIndexRecord(indices: seq<IndexRecord>, name: string): (r: Option<IndexRecord>)
    ensures r.None? <==> forall k :: 0 <= k < |indices| ==> indices[k].name != name
    ensures r.Some? ==> r.value.name == name &&
                        (exists k :: 0 <= k < |indices| && indices[k] == r.value &&
                           forall j :: 0 <= j < k ==> indices[j].name != name)
  {
    if indices == [] then None
    else if indices[0].name == name then Some(indices[0])
    else
      var r := FindIndexRecord(indices[1..], name);
      assert forall k :: 0 <= k < |indices[1..]| ==> indices[1..][k] == indices[k + 1];
      r
  }

  /** `SELECT .. FROM type_records WHERE name = ? AND index_name = ?`. */
  function FindTypeRecord(types: seq<TypeRecord>, indexName: string, name: string): (r: Option<TypeRecord>)
    ensures r.None? <==> forall k :: 0 <= k < |types| ==> !(types[k].name == name && types[k].indexName == indexName)
    ensures r.Some? ==> r.value.name == name && r.value.indexName == indexName &&
                        (exists k :: 0 <= k < |types| && types[k] == r.value &&
                           forall j :: 0 <= j < k ==> !(types[j].name == name && types[j].indexName == indexName))
  {
    if types == [] then None
    else if types[0].name == name && types[0].indexName == indexName then Some(types[0])
    else
      var r := FindTypeRecord(types[1..], indexName, name);
      assert forall k :: 0 <= k < |types[1..]| ==> types[1..][k] == types[k + 1];
      r
  }

  /** `SELECT .. WHERE id = ?` on a document table: the first match. */
  function FindRow(rows: seq<Document>, id: string): (r: Option<Document>)
    ensures r.None? <==> forall k :: 0 <= k < |rows| ==> rows[k].id != id
    ensures r.Some? ==> r.value.id == id && r.value in rows
  {
    if rows == [] then None
    else if rows[0].id == id then Some(rows[0])
    else
      var r := FindRow(rows[1..], id);
      assert forall k :: 0 <= k < |rows[1..]| ==> rows[1..][k] == rows[k + 1];
      r
  }

  /** `SELECT count(*) .. WHERE id = ?`. */
  function CountId(rows: seq<Document>, id: string): (n: nat)
    ensures n <= |rows|
    ensures n == 0 <==> FindRow(rows, id).None?
  {
    if rows == [] then 0 else (if rows[0].id == id then 1 else 0) + CountId(rows[1..], id)
  }

  /** `DELETE .. WHERE id = ?`. */
  function RemoveId(rows: seq<Document>, id: string): (r: seq<Document>)
    ensures forall d :: d in r <==> d in rows && d.id != id
    ensures |r| <= |rows|
  {
    if rows == [] then []
    else if rows[0].id == id then RemoveId(rows[1..], id)
    else [rows[0]] + RemoveId(rows[1..], id)
  }

  /** Some row with this id already has the largest version. */
  predicate VersionAtLimit(rows: seq<Document>, id: string)
  {
    exists k :: 0 <= k < |rows| && rows[k].id == id && rows[k].version >= MaxInt32
  }

  /** `UPDATE .. SET document = ?, version = version + 1 WHERE id = ?`. */
  function UpdateRows(rows: seq<Document>, id: string, document: string): (r: seq<Document>)
    ensures |r| == |rows|
    ensures forall k {:trigger r[k]} :: 0 <= k < |rows| ==>
              r[k] == if rows[k].id == id then Document(id, document, rows[k].version + 1) else rows[k]
  {
    if rows == [] then []
    else
      var d := rows[0];
      var d' := if d.id == id then Document(id, document, d.version + 1) else d;
      var rest := UpdateRows(rows[1..], id, document);
      assert forall k :: 0 <= k < |rows[1..]| ==> rows[1..][k] == rows[k + 1];
      [d'] + rest
  }

  /** `UPDATE type_records SET options = ? WHERE name = ? AND index_name = ?`. */
  function SetTypeOptions(types: seq<TypeRecord>, indexName: string, name: string, options: string): (r: seq<TypeRecord>)
    ensures |r| == |types|
    ensures forall k :: 0 <= k < |types| ==>
              r[k] == if types[k].name == name && types[k].indexName == indexName then types[k].(options := options) else types[k]
  {
    if types == [] then []
    else
      var t := types[0];
      var t' := if t.name == name && t.indexName == indexName then t.(options := options) else t;
      assert forall k :: 0 <= k < |types[1..]| ==> types[1..][k] == types[k + 1];
      [t'] + SetTypeOptions(types[1..], indexName, name, options)
  }

  /** `SELECT .. FROM index_records WHERE name LIKE ?`, in store order. */
  function IndexRecordsLike(indices: seq<IndexRecord>, like: string): (r: seq<IndexRecord>)
    ensures forall x :: x in r <==> x in indices && Wildcard.LikeMatch(like, x.name)
  {
    if indices == [] then []
    else
      var rest := IndexRecordsLike(indices[1..], like);
      assert forall x :: x in indices <==> x == indices[0] || x in indices[1..];
      if Wildcard.LikeMatch(like, indices[0].name) then [indices[0]] + rest else rest
  }

  /** `SELECT .. FROM type_records WHERE name LIKE ? AND index_name = ?`. */
  function TypeRecordsLike(types: seq<TypeRecord>, indexName: string, like: string): (r: seq<TypeRecord>)
    ensures forall x :: x in r <==> x in types && x.indexName == indexName && Wildcard.LikeMatch(like, x.name)
  {
    if types == [] then []
    else
      var rest := TypeRecordsLike(types[1..], indexName, like);
      assert forall x :: x in types <==> x == types[0] || x in types[1..];
      if types[0].indexName == indexName && Wildcard.LikeMatch(like, types[0].name) then [types[0]] + rest else rest
  }

  /** The names of index records, in order. */
  function IndexNames(records: seq<IndexRecord>): (r: seq<string>)
    ensures |r| == |records| && forall k :: 0 <= k < |records| ==> r[k] == records[k].name
  {
    if records == [] then [] else [records[0].name] + IndexNames(records[1..])
  }

  /** The names of type records, in order: the same projection as
      IndexNames, over the other catalog's record type (FindTypes and
      FindIndices each collect their own records' names). */
  function TypeNames(records: seq<TypeRecord>): (r: seq<string>)
    ensures |r| == |records| && forall k :: 0 <= k < |records| ==> r[k] == records[k].name
  {
    if records == [] then [] else [records[0].name] + TypeNames(records[1..])
  }

  /** The rows a where-list accepts, in store order, given the truth of a
      full-text leaf on a document text. */
  function Matching(rows: seq<Document>, where: seq<Clause>, holds: (Leaf, string) -> bool): (r: seq<Document>)
    ensures forall d :: d in r <==> d in rows && Holds(where, l => holds(l, d.document))
    ensures |r| <= |rows|
  {
    if rows == [] then []
    else
      var rest := Matching(rows[1..], where, holds);
      if Holds(where, l => holds(l, rows[0].document)) then [rows[0]] + rest else rest
  }

  // ---------------------------------------------------------------------
  // The operations of the client.
  // ---------------------------------------------------------------------

  function GetIndex(db: Db, indexName: string): Option<IndexRecord>
  {
    FindIndexRecord(db.indices, indexName)
  }

  /** A new index record, unless one with the name exists. */
  function CreateIndex(db: Db, indexName: string, options: string): (Db, Result<IndexRecord>)
  {
    if GetIndex(db, indexName).Some? then (db, Err(NewIllegalQueryError("Index already exists")))
    else
      var rec := IndexRecord(indexName, options);
      (db.(indices := db.indices + [rec]), Ok(rec))
  }

  /** Names of the indices matching an Elasticsearch wildcard pattern. */
  function FindIndices(db: Db, indexPattern: string): seq<string>
  {
    IndexNames(IndexRecordsLike(db.indices, Wildcard.Translate(indexPattern)))
  }

  /** `createDataTable`: the sequence, then the table.  A name already in
      use stops it; a sequence created before the table fails stays. */
  function CreateDataTable(db: Db, indexName: string, typeName: string): (Db, Option<ElasticError>)
  {
    var table := TableName(indexName, typeName);
    var sequence := SequenceOf(table);
    if sequence in db.relations then (db, Some(NewDBQueryError(RelationExists(sequence))))
    else
      var db1 := db.(relations := db.relations[sequence := Sequence(0)]);
      if table in db1.relations then (db1, Some(NewDBQueryError(RelationExists(table))))
      else (db1.(relations := db1.relations[table := DataTable([])]), None)
  }

  /** A new type record and its storage, unless the type exists.  A
      provisioning failure is wrapped once more: its reason is the full
      `Error()` text of the inner error, and the record stays written. */
  function CreateType(db: Db, indexName: string, typeName: string, options: string): (Db, Result<TypeRecord>)
  {
    if GetType(db, indexName, typeName).Some? then (db, Err(NewIllegalQueryError("Type already exists")))
    else
      var rec := TypeRecord(typeName, indexName, options);
      var db1 := db.(types := db.types + [rec]);
      var (db2, err) := CreateDataTable(db1, indexName, typeName);
      if err.Some? then (db2, Err(NewDBQueryError(err.value.Error()))) else (db2, Ok(rec))
  }

  function GetType(db: Db, indexName: string, typeName: string): Option<TypeRecord>
  {
    FindTypeRecord(db.types, indexName, typeName)
  }

  /** Overwrites the options of the matching type record and reads it back. */
  function UpdateTypeOptions(db: Db, indexName: string, typeName: string, options: string): (Db, Option<TypeRecord>)
  {
    var db1 := db.(types := SetTypeOptions(db.types, indexName, typeName, options));
    (db1, GetType(db1, indexName, typeName))
  }

  /** Names of the types of `indexName` matching a wildcard pattern. */
  function FindTypes(db: Db, indexName: string, typePattern: string): seq<string>
  {
    TypeNames(TypeRecordsLike(db.types, indexName, Wildcard.Translate(typePattern)))
  }

  /** The rows of a document table, or the error a query on that name gets. */
  function TableRows(db: Db, table: string): Result<seq<Document>>
  {
    if table !in db.relations then Err(NewDBQueryError(RelationMissing(table)))
    else match db.relations[table]
      case DataTable(rows) => Ok(rows)
      case _ => Err(NewDBQueryError(NotADocumentTable(table)))
  }

  /** The document with this id, or None; the count and the select that
      follow it agree, so the count is folded into the search. */
  function GetDocument(db: Db, indexName: string, typeName: string, documentID: string): Result<Option<Document>>
  {
    match TableRows(db, TableName(indexName, typeName))
    case Err(e) => Err(e)
    case Ok(rows) => Ok(FindRow(rows, documentID))
  }

  /** False for the empty id without touching the store; otherwise whether
      exactly one row has the id. */
  function IsDocumentExists(db: Db, indexName: string, typeName: string, documentID: string): Result<bool>
  {
    if |documentID| == 0 then Ok(false)
    else match TableRows(db, TableName(indexName, typeName))
      case Err(e) => Err(e)
      case Ok(rows) => Ok(CountId(rows, documentID) == 1)
  }

  /** `insertDocument`: the id is the next value of the table's sequence,
      which advances even when the insert then fails. */
  function InsertDocument(db: Db, indexName: string, typeName: string, document: string): (Db, Result<Document>)
  {
    var table := TableName(indexName, typeName);
    match TableRows(db, table)
    case Err(e) => (db, Err(e))
    case Ok(rows) =>
      var sequence := SequenceOf(table);
      if sequence !in db.relations || !db.relations[sequence].Sequence? then
        (db, Err(NewDBQueryError(RelationMissing(sequence))))
      else
        var n := db.relations[sequence].issued;
        if n >= MaxSequence then (db, Err(NewDBQueryError(SequenceExhausted(sequence))))
        else
          var db1 := db.(relations := db.relations[sequence := Sequence(n + 1)]);
          var id := Decimal.NatToString(n + 1);
          if |id| > MaxIdLength then (db1, Err(NewDBQueryError(ValueTooLong)))
          else if FindRow(rows, id).Some? then (db1, Err(NewDBQueryError(DuplicateKey(table))))
          else
            var doc := Document(id, document, 1);
            (db1.(relations := db1.relations[table := DataTable(rows + [doc])]), Ok(doc))
  }

  /** `insertDocumentID` as intended: the row (id, document, 1). */
  function InsertDocumentID(db: Db, indexName: string, typeName: string, document: string, documentID: string): (Db, Result<Document>)
  {
    var table := TableName(indexName, typeName);
    match TableRows(db, table)
    case Err(e) => (db, Err(e))
    case Ok(rows) =>
      if |documentID| > MaxIdLength then (db, Err(NewDBQueryError(ValueTooLong)))
      else if FindRow(rows, documentID).Some? then (db, Err(NewDBQueryError(DuplicateKey(table))))
      else
        var doc := Document(documentID, document, 1);
        (db.(relations := db.relations[table := DataTable(rows + [doc])]), Ok(doc))
  }

  /** The first step of `CreateDocument`: create a missing index with empty options. */
  function ProvisionIndex(db: Db, indexName: string): (Db, Option<ElasticError>)
  {
    if GetIndex(db, indexName).Some? then (db, None)
    else
      var (db1, r) := CreateIndex(db, indexName, "");
      (db1, if r.Err? then Some(r.error) else None)
  }

  /** The second step: create a missing type with empty options. */
  function ProvisionType(db: Db, indexName: string, typeName: string): (Db, Option<ElasticError>)
  {
    if GetType(db, indexName, typeName).Some? then (db, None)
    else
      var (db1, r) := CreateType(db, indexName, typeName, "");
      (db1, if r.Err? then Some(r.error) else None)
  }

  /** Stores a document, provisioning its index and type first.  An empty id
      means a generated one; a given id must not be present yet. */
  function CreateDocument(db: Db, indexName: string, typeName: string, document: string, documentID: string): (Db, Result<Document>)
  {
    var (db1, e1) := ProvisionIndex(db, indexName);
    if e1.Some? then (db1, Err(e1.value))
    else
      var (db2, e2) := ProvisionType(db1, indexName, typeName);
      if e2.Some? then (db2, Err(e2.value))
      else if |documentID| == 0 then InsertDocument(db2, indexName, typeName, document)
      else match IsDocumentExists(db2, indexName, typeName, documentID)
        case Err(e) => (db2, Err(e))
        case Ok(present) =>
          if present then (db2, Err(NewDBQueryError("Document with ID " + documentID + " already exists")))
          else InsertDocumentID(db2, indexName, typeName, document, documentID)
  }

  /** Replaces the text of a present document and bumps its version, then
      reads it back; an error of the read-back is dropped, leaving None. */
  function UpdateDocument(db: Db, indexName: string, typeName: string, document: string, documentID: string): (Db, Result<Option<Document>>)
  {
    match IsDocumentExists(db, indexName, typeName, documentID)
    case Err(e) => (db, Err(e))
    case Ok(present) =>
      if |documentID| != 0 && present then
        var table := TableName(indexName, typeName);
        match TableRows(db, table)
        case Err(e) => (db, Err(e))
        case Ok(rows) =>
          if VersionAtLimit(rows, documentID) then (db, Err(NewDBQueryError(IntegerOutOfRange)))
          else
            var db1 := db.(relations := db.relations[table := DataTable(UpdateRows(rows, documentID, document))]);
            var reread := GetDocument(db1, indexName, typeName, documentID);
            (db1, Ok(if reread.Ok? then reread.value else None))
      else (db, Err(NewDBQueryError("Document with ID " + documentID + " doesn't exists")))
  }

  /** Removes a document and returns it as it was; an absent id is no error. */
  function DeleteDocument(db: Db, indexName: string, typeName: string, documentID: string): (Db, Result<Option<Document>>)
  {
    match GetDocument(db, indexName, typeName, documentID)
    case Err(e) => (db, Err(e))
    case Ok(found) =>
      if found.None? then (db, Ok(None))
      else
        var table := TableName(indexName, typeName);
        match TableRows(db, table)
        case Err(e) => (db, Err(e))
        case Ok(rows) => (db.(relations := db.relations[table := DataTable(RemoveId(rows, documentID))]), Ok(found))
  }

  /** The documents of `table` the where-list accepts; none when the count
      of accepted rows is zero. */
  function ProcessSearchQuery(db: Db, table: string, where: seq<Clause>, holds: (Leaf, string) -> bool): Result<seq<Document>>
  {
    match TableRows(db, table)
    case Err(e) => Err(e)
    case Ok(rows) =>
      var hits := Matching(rows, where, holds);
      if |hits| == 0 then Ok([]) else Ok(hits)
  }

  // ---------------------------------------------------------------------
  // The invariant the operations keep.
  // ---------------------------------------------------------------------

  /** Ids are a primary key. */
  predicate UniqueIds(rows: seq<Document>)
  {
    forall a, b :: 0 <= a < b < |rows| ==> rows[a].id != rows[b].id
  }

  /** What the column types and assignments of a document table guarantee:
      unique ids of at most 128 characters and versions from 1 to the
      largest integer. */
  predicate RowsValid(rows: seq<Document>)
  {
    UniqueIds(rows) &&
    forall k :: 0 <= k < |rows| ==> 1 <= rows[k].version <= MaxInt32 && |rows[k].id| <= MaxIdLength
  }

  /** The catalog tables exist, index names and (type, index) pairs are
      unique, every document table is well formed and its id sequence exists. */
  predicate Valid(db: Db)
  {
    IndexTable in db.relations && db.relations[IndexTable] == SystemTable &&
    TypeTable in db.relations && db.relations[TypeTable] == SystemTable &&
    (forall a, b :: 0 <= a < b < |db.indices| ==> db.indices[a].name != db.indices[b].name) &&
    (forall a, b :: 0 <= a < b < |db.types| ==>
       db.types[a].name != db.types[b].name || db.types[a].indexName != db.types[b].indexName) &&
    (forall t :: t in db.relations && db.relations[t].DataTable? ==>
       RowsValid(db.relations[t].rows) && SequenceOf(t) in db.relations && db.relations[SequenceOf(t)].Sequence?)
  }

  lemma InitialDbValid()
    ensures Valid(InitialDb())
  {
  }

  lemma CreateIndexPreservesValid(db: Db, indexName: string, options: string)
    requires Valid(db)
    ensures Valid(CreateIndex(db, indexName, options).0)
  {
  }

  lemma CreateDataTablePreservesValid(db: Db, indexName: string, typeName: string)
    requires Valid(db)
    ensures Valid(CreateDataTable(db, indexName, typeName).0)
  {
    var table := TableName(indexName, typeName);
    var sequence := SequenceOf(table);
    if sequence !in db.relations {
      var db1 := db.(relations := db.relations[sequence := Sequence(0)]);
      assert Valid(db1);
      if table !in db1.relations {
        var db2 := db1.(relations := db1.relations[table := DataTable([])]);
        assert SequenceOf(table) in db2.relations && db2.relations[SequenceOf(table)].Sequence?;
        assert Valid(db2);
      }
    }
  }

  lemma CreateTypePreservesValid(db: Db, indexName: string, typeName: string, options: string)
    requires Valid(db)
    ensures Valid(CreateType(db, indexName, typeName, options).0)
  {
    if GetType(db, indexName, typeName).None? {
      var db1 := db.(types := db.types + [TypeRecord(typeName, indexName, options)]);
      assert Valid(db1);
      CreateDataTablePreservesValid(db1, indexName, typeName);
    }
  }

  lemma UpdateTypeOptionsPreservesValid(db: Db, indexName: string, typeName: string, options: string)
    requires Valid(db)
    ensures Valid(UpdateTypeOptions(db, indexName, typeName, options).0)
  {
  }

  /** Appending a row whose id is new, of version 1 and at most 128
      characters long, keeps a table well formed. */
  lemma AppendRowValid(rows: seq<Document>, doc: Document)
    requires RowsValid(rows)
    requires FindRow(rows, doc.id).None? && doc.version == 1 && |doc.id| <= MaxIdLength
    ensures RowsValid(rows + [doc])
  {
    var r := rows + [doc];
    forall a, b | 0 <= a < b < |r| ensures r[a].id != r[b].id {
      if b == |rows| {
        assert r[a] == rows[a];
      } else {
        assert r[a] == rows[a] && r[b] == rows[b];
      }
    }
  }

  /** Advancing an existing sequence keeps the store valid. */
  lemma SetSequenceValid(db: Db, sequence: string, n: nat)
    requires Valid(db)
    requires sequence in db.relations && db.relations[sequence].Sequence?
    ensures Valid(db.(relations := db.relations[sequence := Sequence(n)]))
  {
    var db' := db.(relations := db.relations[sequence := Sequence(n)]);
    forall t | t in db'.relations && db'.relations[t].DataTable?
      ensures RowsValid(db'.relations[t].rows) && SequenceOf(t) in db'.relations && db'.relations[SequenceOf(t)].Sequence?
    {
      assert t != sequence && db'.relations[t] == db.relations[t];
    }
  }

  /** Replacing the rows of an existing document table by well-formed rows
      keeps the store valid. */
  lemma SetRowsValid(db: Db, table: string, rows: seq<Document>)
    requires Valid(db)
    requires table in db.relations && db.relations[table].DataTable?
    requires RowsValid(rows)
    ensures Valid(db.(relations := db.relations[table := DataTable(rows)]))
  {
    var db' := db.(relations := db.relations[table := DataTable(rows)]);
    forall t | t in db'.relations && db'.relations[t].DataTable?
      ensures RowsValid(db'.relations[t].rows) && SequenceOf(t) in db'.relations && db'.relations[SequenceOf(t)].Sequence?
    {
      assert SequenceOf(t) in db.relations && db.relations[SequenceOf(t)].Sequence?;
      assert SequenceOf(t) != table;
    }
  }

  lemma InsertDocumentPreservesValid(db: Db, indexName: string, typeName: string, document: string)
    requires Valid(db)
    ensures Valid(InsertDocument(db, indexName, typeName, document).0)
  {
    var table := TableName(indexName, typeName);
    var sequence := SequenceOf(table);
    if TableRows(db, table).Ok? && sequence in db.relations && db.relations[sequence].Sequence? {
      var rows := TableRows(db, table).value;
      var n := db.relations[sequence].issued;
      if n < MaxSequence {
        var db1 := db.(relations := db.relations[sequence := Sequence(n + 1)]);
        SetSequenceValid(db, sequence, n + 1);
        var id := Decimal.NatToString(n + 1);
        if |id| <= MaxIdLength && FindRow(rows, id).None? {
          AppendRowValid(rows, Document(id, document, 1));
          assert table != sequence;
          SetRowsValid(db1, table, rows + [Document(id, document, 1)]);
        }
      }
    }
  }

  lemma InsertDocumentIDPreservesValid(db: Db, indexName: string, typeName: string, document: string, documentID: string)
    requires Valid(db)
    ensures Valid(InsertDocumentID(db, indexName, typeName, document, documentID).0)
  {
    var table := TableName(indexName, typeName);
    if TableRows(db, table).Ok? {
      var rows := TableRows(db, table).value;
      if |documentID| <= MaxIdLength && FindRow(rows, documentID).None? {
        AppendRowValid(rows, Document(documentID, document, 1));
        SetRowsValid(db, table, rows + [Document(documentID, document, 1)]);
      }
    }
  }

  lemma ProvisionPreservesValid(db: Db, indexName: string, typeName: string)
    requires Valid(db)
    ensures var db1 := ProvisionIndex(db, indexName).0;
            Valid(db1) && Valid(ProvisionType(db1, indexName, typeName).0)
  {
    CreateIndexPreservesValid(db, indexName, "");
    var db1 := ProvisionIndex(db, indexName).0;
    CreateTypePreservesValid(db1, indexName, typeName, "");
  }

  lemma CreateDocumentPreservesValid(db: Db, indexName: string, typeName: string, document: string, documentID: string)
    requires Valid(db)
    ensures Valid(CreateDocument(db, indexName, typeName, document, documentID).0)
  {
    var (db1, e1) := ProvisionIndex(db, indexName);
    var (db2, e2) := ProvisionType(db1, indexName, typeName);
    ProvisionPreservesValid(db, indexName, typeName);
    var db' := CreateDocument(db, indexName, typeName, document, documentID).0;
    if e1.None? && e2.None? {
      if |documentID| == 0 {
        assert db' == InsertDocument(db2, indexName, typeName, document).0;
        InsertDocumentPreservesValid(db2, indexName, typeName, document);
      } else if IsDocumentExists(db2, indexName, typeName, documentID) == Ok(false) {
        assert db' == InsertDocumentID(db2, indexName, typeName, document, documentID).0;
        InsertDocumentIDPreservesValid(db2, indexName, typeName, document, documentID);
      } else {
        assert db' == db2;
      }
    } else if e1.None? {
      assert db' == db2;
    } else {
      assert db' == db1;
    }
  }

  lemma UpdateRowsValid(rows: seq<Document>, id: string, document: string)
    requires RowsValid(rows) && !VersionAtLimit(rows, id)
    ensures RowsValid(UpdateRows(rows, id, document))
  {
    var r := UpdateRows(rows, id, document);
    assert forall k :: 0 <= k < |rows| ==> r[k].id == rows[k].id;
    forall k | 0 <= k < |rows| ensures 1 <= r[k].version <= MaxInt32 {
      if rows[k].id == id {
        assert !(rows[k].id == id && rows[k].version >= MaxInt32);
      }
    }
  }

  lemma UpdateDocumentPreservesValid(db: Db, indexName: string, typeName: string, document: string, documentID: string)
    requires Valid(db)
    ensures Valid(UpdateDocument(db, indexName, typeName, document, documentID).0)
  {
    var table := TableName(indexName, typeName);
    if TableRows(db, table).Ok? {
      var rows := TableRows(db, table).value;
      if !VersionAtLimit(rows, documentID) {
        UpdateRowsValid(rows, documentID, document);
      }
    }
  }

  lemma TailUnique(rows: seq<Document>)
    requires rows != [] && UniqueIds(rows)
    ensures UniqueIds(rows[1..])
  {
    var tail := rows[1..];
    forall a, b | 0 <= a < b < |tail| ensures tail[a].id != tail[b].id {
      assert tail[a] == rows[a + 1] && tail[b] == rows[b + 1];
    }
  }

  lemma ConsUnique(d: Document, rest: seq<Document>)
    requires UniqueIds(rest)
    requires forall x :: x in rest ==> x.id != d.id
    ensures UniqueIds([d] + rest)
  {
    var r := [d] + rest;
    forall a, b | 0 <= a < b < |r| ensures r[a].id != r[b].id {
      assert r[b] == rest[b - 1];
      if a > 0 {
        assert r[a] == rest[a - 1];
      }
    }
  }

  lemma {:induction false} RemoveIdUnique(rows: seq<Document>, id: string)
    requires UniqueIds(rows)
    ensures UniqueIds(RemoveId(rows, id))
    decreases rows
  {
    if rows != [] {
      var tail := rows[1..];
      TailUnique(rows);
      RemoveIdUnique(tail, id);
      if rows[0].id != id {
        var rest := RemoveId(tail, id);
        forall x | x in rest ensures x.id != rows[0].id {
          assert x in tail;
          var j :| 0 <= j < |tail| && tail[j] == x;
          assert rows[j + 1] == x;
        }
        ConsUnique(rows[0], rest);
      }
    }
  }

  lemma RemoveIdValid(rows: seq<Document>, id: string)
    requires RowsValid(rows)
    ensures RowsValid(RemoveId(rows, id))
  {
    RemoveIdUnique(rows, id);
    var r := RemoveId(rows, id);
    forall k | 0 <= k < |r| ensures 1 <= r[k].version <= MaxInt32 && |r[k].id| <= MaxIdLength {
      assert r[k] in rows;
      var j :| 0 <= j < |rows| && rows[j] == r[k];
    }
  }

  lemma DeleteDocumentPreservesValid(db: Db, indexName: string, typeName: string, documentID: string)
    requires Valid(db)
    ensures Valid(DeleteDocument(db, indexName, typeName, documentID).0)
  {
    var table := TableName(indexName, typeName);
    if TableRows(db, table).Ok? {
      RemoveIdValid(TableRows(db, table).value, documentID);
    }
  }

  // ---------------------------------------------------------------------
  // How the row searches see the row updates.
  // ---------------------------------------------------------------------

  lemma {:induction false} FindIndexRecordAppend(xs: seq<IndexRecord>, rec: IndexRecord, name: string)
    ensures FindIndexRecord(xs + [rec], name) ==
            if FindIndexRecord(xs, name).Some? then FindIndexRecord(xs, name)
            else if rec.name == name then Some(rec) else None
    decreases xs
  {
    if xs != [] {
      assert (xs + [rec])[1..] == xs[1..] + [rec];
      FindIndexRecordAppend(xs[1..], rec, name);
    } else {
      assert [rec][1..] == [];
    }
  }

  lemma {:induction false} FindTypeRecordAppend(xs: seq<TypeRecord>, rec: TypeRecord, indexName: string, name: string)
    ensures FindTypeRecord(xs + [rec], indexName, name) ==
            if FindTypeRecord(xs, indexName, name).Some? then FindTypeRecord(xs, indexName, name)
            else if rec.name == name && rec.indexName == indexName then Some(rec) else None
    decreases xs
  {
    if xs != [] {
      assert (xs + [rec])[1..] == xs[1..] + [rec];
      FindTypeRecordAppend(xs[1..], rec, indexName, name);
    } else {
      assert [rec][1..] == [];
    }
  }

  lemma {:induction false} FindTypeRecordSetOptions(xs: seq<TypeRecord>, indexName: string, name: string, options: string, i: string, n: string)
    ensures FindTypeRecord(SetTypeOptions(xs, indexName, name, options), i, n) ==
            match FindTypeRecord(xs, i, n)
            case None => None
            case Some(t) => Some(if n == name && i == indexName then t.(options := options) else t)
    decreases xs
  {
    if xs != [] {
      var r := SetTypeOptions(xs, indexName, name, options);
      assert r[1..] == SetTypeOptions(xs[1..], indexName, name, options);
      FindTypeRecordSetOptions(xs[1..], indexName, name, options, i, n);
    }
  }

  lemma {:induction false} FindRowAppend(rows: seq<Document>, doc: Document, id: string)
    ensures FindRow(rows + [doc], id) ==
            if FindRow(rows, id).Some? then FindRow(rows, id) else if doc.id == id then Some(doc) else None
    decreases rows
  {
    if rows != [] {
      assert (rows + [doc])[1..] == rows[1..] + [doc];
      FindRowAppend(rows[1..], doc, id);
    } else {
      assert [doc][1..] == [];
    }
  }

  lemma {:induction false} FindRowUpdate(rows: seq<Document>, id: string, document: string, j: string)
    ensures FindRow(rows, j).None? ==> FindRow(UpdateRows(rows, id, document), j).None?
    ensures FindRow(rows, j).Some? ==>
              FindRow(UpdateRows(rows, id, document), j) ==
              Some(if j == id then Document(id, document, FindRow(rows, j).value.version + 1) else FindRow(rows, j).value)
    decreases rows
  {
    if rows != [] {
      var r := UpdateRows(rows, id, document);
      var tail := UpdateRows(rows[1..], id, document);
      assert r[1..] == tail;
      assert r[0].id == rows[0].id;
      FindRowUpdate(rows[1..], id, document, j);
      if rows[0].id == j {
        assert FindRow(r, j) == Some(r[0]);
      } else {
        assert FindRow(r, j) == FindRow(tail, j);
        assert FindRow(rows, j) == FindRow(rows[1..], j);
      }
    }
  }

  lemma {:induction false} FindRowRemove(rows: seq<Document>, id: string, j: string)
    ensures FindRow(RemoveId(rows, id), j) == if j == id then None else FindRow(rows, j)
    decreases rows
  {
    if rows != [] {
      FindRowRemove(rows[1..], id, j);
      if rows[0].id != id {
        assert ([rows[0]] + RemoveId(rows[1..], id))[1..] == RemoveId(rows[1..], id);
      }
    }
  }

  /** In a table with unique ids the row found for an id is its only row. */
  lemma FoundRowIsOnly(rows: seq<Document>, id: string, d: Document)
    requires UniqueIds(rows) && FindRow(rows, id) == Some(d)
    ensures forall k :: 0 <= k < |rows| && rows[k].id == id ==> rows[k] == d
  {
    var m :| 0 <= m < |rows| && rows[m] == d;
    assert rows[m].id == id;
  }

  lemma {:induction false} CountIdUnique(rows: seq<Document>, id: string)
    requires UniqueIds(rows)
    ensures CountId(rows, id) == 1 <==> FindRow(rows, id).Some?
    decreases rows
  {
    if rows != [] {
      var tail := rows[1..];
      assert UniqueIds(tail) by {
        forall a, b | 0 <= a < b < |tail| ensures tail[a].id != tail[b].id {
          assert tail[a] == rows[a + 1] && tail[b] == rows[b + 1];
        }
      }
      CountIdUnique(tail, id);
      if rows[0].id == id {
        forall k | 0 <= k < |tail| ensures tail[k].id != id {
          assert tail[k] == rows[k + 1];
        }
      }
    }
  }

  // ---------------------------------------------------------------------
  // Properties of the catalog operations.
  // ---------------------------------------------------------------------

  /** An existing name is refused and nothing changes; otherwise exactly one
      record (name, options) is added and no other lookup changes. */
  lemma CreateIndexOutcome(db: Db, indexName: string, options: string)
    ensures GetIndex(db, indexName).Some? ==>
              CreateIndex(db, indexName, options) == (db, Err(IllegalQueryError("Index already exists")))
    ensures GetIndex(db, indexName).None? ==>
              var (db', r) := CreateIndex(db, indexName, options);
              r == Ok(IndexRecord(indexName, options)) &&
              db'.indices == db.indices + [IndexRecord(indexName, options)] &&
              db'.types == db.types && db'.relations == db.relations &&
              GetIndex(db', indexName) == Some(IndexRecord(indexName, options)) &&
              forall n :: n != indexName ==> GetIndex(db', n) == GetIndex(db, n)
  {
    var rec := IndexRecord(indexName, options);
    forall n {
      FindIndexRecordAppend(db.indices, rec, n);
    }
  }

  /** GetIndex and GetType report absence, not an error, when no record
      matches, and otherwise the record with that name. */
  lemma LookupsReportAbsence(db: Db, indexName: string, typeName: string)
    ensures GetIndex(db, indexName).None? <==> forall k :: 0 <= k < |db.indices| ==> db.indices[k].name != indexName
    ensures GetIndex(db, indexName).Some? ==>
              GetIndex(db, indexName).value in db.indices && GetIndex(db, indexName).value.name == indexName
    ensures GetType(db, indexName, typeName).None? <==>
              forall k :: 0 <= k < |db.types| ==> !(db.types[k].name == typeName && db.types[k].indexName == indexName)
    ensures GetType(db, indexName, typeName).Some? ==> GetType(db, indexName, typeName).value in db.types
  {
  }

  /** FindIndices returns exactly the index names LIKE the rewritten pattern,
      and for a pattern without `_`, `%` or `\` exactly those the wildcard
      pattern matches. */
  lemma FindIndicesMatches(db: Db, indexPattern: string, n: string)
    ensures n in FindIndices(db, indexPattern) <==>
              (exists k :: 0 <= k < |db.indices| && db.indices[k].name == n) &&
              Wildcard.LikeMatch(Wildcard.Translate(indexPattern), n)
    ensures Wildcard.NoLikeMetachars(indexPattern) ==>
              (n in FindIndices(db, indexPattern) <==>
                 (exists k :: 0 <= k < |db.indices| && db.indices[k].name == n) && Wildcard.EsMatch(indexPattern, n))
  {
    var records := IndexRecordsLike(db.indices, Wildcard.Translate(indexPattern));
    if n in FindIndices(db, indexPattern) {
      var k :| 0 <= k < |records| && IndexNames(records)[k] == n;
      assert records[k] in records;
    }
    if (exists k :: 0 <= k < |db.indices| && db.indices[k].name == n) && Wildcard.LikeMatch(Wildcard.Translate(indexPattern), n) {
      var k :| 0 <= k < |db.indices| && db.indices[k].name == n;
      assert db.indices[k] in records;
      var m :| 0 <= m < |records| && records[m] == db.indices[k];
      assert IndexNames(records)[m] == n;
    }
    if Wildcard.NoLikeMetachars(indexPattern) {
      Wildcard.TranslateIsFaithful(indexPattern, n);
    }
  }

  /** FindTypes returns only types of the given index: exactly its type
      names LIKE the rewritten pattern. */
  lemma FindTypesMatches(db: Db, indexName: string, typePattern: string, n: string)
    ensures n in FindTypes(db, indexName, typePattern) <==>
              (exists k :: 0 <= k < |db.types| && db.types[k].name == n && db.types[k].indexName == indexName) &&
              Wildcard.LikeMatch(Wildcard.Translate(typePattern), n)
    ensures Wildcard.NoLikeMetachars(typePattern) ==>
              (n in FindTypes(db, indexName, typePattern) <==>
                 (exists k :: 0 <= k < |db.types| && db.types[k].name == n && db.types[k].indexName == indexName) &&
                 Wildcard.EsMatch(typePattern, n))
  {
    var records := TypeRecordsLike(db.types, indexName, Wildcard.Translate(typePattern));
    if n in FindTypes(db, indexName, typePattern) {
      var k :| 0 <= k < |records| && TypeNames(records)[k] == n;
      assert records[k] in records;
    }
    if (exists k :: 0 <= k < |db.types| && db.types[k].name == n && db.types[k].indexName == indexName) &&
       Wildcard.LikeMatch(Wildcard.Translate(typePattern), n) {
      var k :| 0 <= k < |db.types| && db.types[k].name == n && db.types[k].indexName == indexName;
      assert db.types[k] in records;
      var m :| 0 <= m < |records| && records[m] == db.types[k];
      assert TypeNames(records)[m] == n;
    }
    if Wildcard.NoLikeMetachars(typePattern) {
      Wildcard.TranslateIsFaithful(typePattern, n);
    }
  }

  /** An existing type is refused and nothing changes. */
  lemma CreateTypeExisting(db: Db, indexName: string, typeName: string, options: string)
    requires GetType(db, indexName, typeName).Some?
    ensures CreateType(db, indexName, typeName, options) == (db, Err(IllegalQueryError("Type already exists")))
  {
  }

  /** A new type whose table and sequence names are free: the record is
      written and an empty table with a fresh sequence is provisioned. */
  lemma CreateTypeFresh(db: Db, indexName: string, typeName: string, options: string)
    requires GetType(db, indexName, typeName).None?
    requires TableName(indexName, typeName) !in db.relations
    requires SequenceOf(TableName(indexName, typeName)) !in db.relations
    ensures var (db', r) := CreateType(db, indexName, typeName, options);
            var table := TableName(indexName, typeName);
            r == Ok(TypeRecord(typeName, indexName, options)) &&
            GetType(db', indexName, typeName) == Some(TypeRecord(typeName, indexName, options)) &&
            db'.indices == db.indices &&
            db'.relations == db.relations[SequenceOf(table) := Sequence(0)][table := DataTable([])] &&
            TableRows(db', table) == Ok([])
  {
    var table := TableName(indexName, typeName);
    assert |SequenceOf(table)| > |table|;
    FindTypeRecordAppend(db.types, TypeRecord(typeName, indexName, options), indexName, typeName);
  }

  /** A new type whose table name is taken: the record and the sequence
      stay, and the error is db_query_exception whose reason is the inner
      error's full text. */
  lemma CreateTypeTableNameTaken(db: Db, indexName: string, typeName: string, options: string)
    requires GetType(db, indexName, typeName).None?
    requires TableName(indexName, typeName) in db.relations
    requires SequenceOf(TableName(indexName, typeName)) !in db.relations
    ensures var (db', r) := CreateType(db, indexName, typeName, options);
            var table := TableName(indexName, typeName);
            r == Err(DBQueryError(DBQueryError(RelationExists(table)).Error())) &&
            GetType(db', indexName, typeName) == Some(TypeRecord(typeName, indexName, options)) &&
            db'.relations == db.relations[SequenceOf(table) := Sequence(0)]
  {
    var rec := TypeRecord(typeName, indexName, options);
    var table := TableName(indexName, typeName);
    var db1 := db.(types := db.types + [rec]);
    var db2 := db1.(relations := db1.relations[SequenceOf(table) := Sequence(0)]);
    assert CreateDataTable(db1, indexName, typeName) == (db2, Some(DBQueryError(RelationExists(table))));
    FindTypeRecordAppend(db.types, rec, indexName, typeName);
  }

  /** The reason such a failure reports. */
  lemma TableNameTakenReason(table: string)
    ensures DBQueryError(DBQueryError(RelationExists(table)).Error()).Reason() ==
              "Error type: db_query_exception, Reason: relation \"" + table + "\" already exists"
  {
    DBQueryErrorText(RelationExists(table));
    var head := "Error type: db_query_exception, Reason: ";
    assert head + ("relation \"" + table + "\" already exists") == (head + "relation \"") + table + "\" already exists";
  }

  lemma DBQueryErrorText(reason: string)
    ensures DBQueryError(reason).Error() == "Error type: db_query_exception, Reason: " + reason
  {
    assert ErrorPrefix + "db_query_exception" + ReasonSeparator == "Error type: db_query_exception, Reason: ";
  }

  /** A new type whose sequence name is taken: the record stays, nothing is
      provisioned. */
  lemma CreateTypeSequenceNameTaken(db: Db, indexName: string, typeName: string, options: string)
    requires GetType(db, indexName, typeName).None?
    requires SequenceOf(TableName(indexName, typeName)) in db.relations
    ensures var (db', r) := CreateType(db, indexName, typeName, options);
            r == Err(DBQueryError(DBQueryError(RelationExists(SequenceOf(TableName(indexName, typeName)))).Error())) &&
            GetType(db', indexName, typeName) == Some(TypeRecord(typeName, indexName, options)) &&
            db'.relations == db.relations
  {
    FindTypeRecordAppend(db.types, TypeRecord(typeName, indexName, options), indexName, typeName);
  }

  /** The type ("records" of index "index") is recorded, but its table
      would be the catalog table `index_records`, so provisioning fails. */
  lemma TypeNamedLikeCatalogTable(options: string)
    ensures var (db', r) := CreateType(InitialDb(), "index", "records", options);
            r.Err? && r.error.Type() == "db_query_exception" &&
            GetType(db', "index", "records") == Some(TypeRecord("records", "index", options)) &&
            TableRows(db', "index_records").Err?
  {
    assert TableName("index", "records") == IndexTable;
    assert SequenceOf(IndexTable) != IndexTable && SequenceOf(IndexTable) != TypeTable;
    CreateTypeTableNameTaken(InitialDb(), "index", "records", options);
  }

  /** Index "a_b" with type "c" and index "a" with type "b_c" share the
      table name `a_b_c`: the second type is recorded but gets no storage. */
  lemma TableNamesCollide()
    ensures var (db1, r1) := CreateType(InitialDb(), "a_b", "c", "");
            var (db2, r2) := CreateType(db1, "a", "b_c", "");
            r1.Ok? && r2.Err? &&
            GetType(db2, "a", "b_c") == Some(TypeRecord("b_c", "a", "")) &&
            db2.relations == db1.relations
  {
    var db0 := InitialDb();
    assert TableName("a_b", "c") == "a_b_c" == TableName("a", "b_c");
    assert SequenceOf("a_b_c") == "a_b_c_id_seq";
    assert "a_b_c" !in db0.relations && "a_b_c_id_seq" !in db0.relations;
    CreateTypeFresh(db0, "a_b", "c", "");
    var db1 := CreateType(db0, "a_b", "c", "").0;
    FindTypeRecordAppend(db0.types, TypeRecord("c", "a_b", ""), "a", "b_c");
    assert GetType(db1, "a", "b_c").None?;
    CreateTypeSequenceNameTaken(db1, "a", "b_c", "");
  }

  /** UpdateTypeOptions replaces the options of an existing type wholesale
      and returns the re-read record; other types are unchanged.  On a
      missing type it changes nothing and returns None. */
  lemma UpdateTypeOptionsOutcome(db: Db, indexName: string, typeName: string, options: string)
    ensures var (db', r) := UpdateTypeOptions(db, indexName, typeName, options);
            (r.Some? <==> GetType(db, indexName, typeName).Some?) &&
            (r.Some? ==> r.value == TypeRecord(typeName, indexName, options)) &&
            db'.indices == db.indices && db'.relations == db.relations &&
            forall i, n :: (i, n) != (indexName, typeName) ==> GetType(db', i, n) == GetType(db, i, n)
  {
    FindTypeRecordSetOptions(db.types, indexName, typeName, options, indexName, typeName);
    forall i, n | (i, n) != (indexName, typeName) {
      FindTypeRecordSetOptions(db.types, indexName, typeName, options, i, n);
    }
  }

  // ---------------------------------------------------------------------
  // Properties of the document operations.
  // ---------------------------------------------------------------------

  /** `db'` differs from `db` at most in the relations named in `names`. */
  ghost predicate SameOutside(db: Db, db': Db, names: set<string>)
  {
    db'.indices == db.indices && db'.types == db.types &&
    forall x :: x !in names ==>
      (x in db'.relations <==> x in db.relations) &&
      (x in db.relations && x in db'.relations ==> db'.relations[x] == db.relations[x])
  }

  /** The existence test answers what a lookup answers: false for the empty
      id, and otherwise whether the document is found. */
  lemma IsDocumentExistsAgreesWithGet(db: Db, indexName: string, typeName: string, documentID: string)
    requires Valid(db)
    ensures IsDocumentExists(db, indexName, typeName, documentID) ==
            if |documentID| == 0 then Ok(false)
            else match GetDocument(db, indexName, typeName, documentID)
              case Err(e) => Err(e)
              case Ok(found) => Ok(found.Some?)
  {
    var table := TableName(indexName, typeName);
    if |documentID| != 0 && TableRows(db, table).Ok? {
      CountIdUnique(TableRows(db, table).value, documentID);
    }
  }

  /** The provisioning steps of `CreateDocument` for a new index and
      type: neither fails, and the type's empty table and fresh sequence
      are all that is added to the relations. */
  lemma ProvisionFresh(db: Db, indexName: string, typeName: string)
    requires GetType(db, indexName, typeName).None?
    requires TableName(indexName, typeName) !in db.relations
    requires SequenceOf(TableName(indexName, typeName)) !in db.relations
    ensures var (db1, e1) := ProvisionIndex(db, indexName);
            var (db2, e2) := ProvisionType(db1, indexName, typeName);
            var table := TableName(indexName, typeName);
            e1.None? && e2.None? &&
            GetIndex(db2, indexName).Some? &&
            GetType(db2, indexName, typeName) == Some(TypeRecord(typeName, indexName, "")) &&
            db2.relations == db.relations[SequenceOf(table) := Sequence(0)][table := DataTable([])]
  {
    var (db1, e1) := ProvisionIndex(db, indexName);
    if GetIndex(db, indexName).None? {
      CreateIndexOutcome(db, indexName, "");
    }
    assert e1.None? && db1.types == db.types && db1.relations == db.relations;
    CreateTypeFresh(db1, indexName, typeName, "");
    var db2 := ProvisionType(db1, indexName, typeName).0;
    assert db2.indices == db1.indices;
  }

  /** A generated id into an empty table whose sequence is fresh: id "1". */
  lemma InsertIntoFreshTable(db: Db, indexName: string, typeName: string, document: string)
    requires var table := TableName(indexName, typeName);
             table in db.relations && db.relations[table] == DataTable([]) &&
             SequenceOf(table) in db.relations && db.relations[SequenceOf(table)] == Sequence(0)
    ensures var (db', r) := InsertDocument(db, indexName, typeName, document);
            var table := TableName(indexName, typeName);
            var doc := Document("1", document, 1);
            r == Ok(doc) && db' == db.(relations := db.relations[SequenceOf(table) := Sequence(1)][table := DataTable([doc])])
  {
    assert Decimal.NatToString(1) == "1";
    assert [] + [Document("1", document, 1)] == [Document("1", document, 1)];
  }

  /** A given id into an empty table. */
  lemma InsertIDIntoFreshTable(db: Db, indexName: string, typeName: string, document: string, documentID: string)
    requires var table := TableName(indexName, typeName);
             table in db.relations && db.relations[table] == DataTable([])
    requires |documentID| <= MaxIdLength
    ensures var (db', r) := InsertDocumentID(db, indexName, typeName, document, documentID);
            var table := TableName(indexName, typeName);
            var doc := Document(documentID, document, 1);
            r == Ok(doc) && db' == db.(relations := db.relations[table := DataTable([doc])])
  {
    assert [] + [Document(documentID, document, 1)] == [Document(documentID, document, 1)];
  }

  lemma RewriteBoth(m: map<string, Relation>, a: string, b: string, x: Relation, y: Relation, x2: Relation, y2: Relation)
    ensures m[a := x][b := y][a := x2][b := y2] == m[a := x2][b := y2]
  {
  }

  lemma RewriteSecond(m: map<string, Relation>, a: string, b: string, x: Relation, y: Relation, y2: Relation)
    ensures m[a := x][b := y][b := y2] == m[a := x][b := y2]
  {
  }

  /** A document under a new index and type with a generated id: both are
      provisioned with empty options, an empty table and a fresh sequence
      are created, and the document is stored as "1" with version 1. */
  lemma CreateDocumentProvisions(db: Db, indexName: string, typeName: string, document: string)
    requires GetType(db, indexName, typeName).None?
    requires TableName(indexName, typeName) !in db.relations
    requires SequenceOf(TableName(indexName, typeName)) !in db.relations
    ensures var (db', r) := CreateDocument(db, indexName, typeName, document, "");
            var table := TableName(indexName, typeName);
            var doc := Document("1", document, 1);
            r == Ok(doc) &&
            GetIndex(db', indexName).Some? &&
            GetType(db', indexName, typeName) == Some(TypeRecord(typeName, indexName, "")) &&
            db'.relations == db.relations[SequenceOf(table) := Sequence(1)][table := DataTable([doc])] &&
            GetDocument(db', indexName, typeName, doc.id) == Ok(Some(doc))
  {
    var table := TableName(indexName, typeName);
    ProvisionFresh(db, indexName, typeName);
    var db1 := ProvisionIndex(db, indexName).0;
    var db2 := ProvisionType(db1, indexName, typeName).0;
    assert |SequenceOf(table)| > |table|;
    InsertIntoFreshTable(db2, indexName, typeName, document);
    RewriteBoth(db.relations, SequenceOf(table), table, Sequence(0), DataTable([]), Sequence(1), DataTable([Document("1", document, 1)]));
    var db' := CreateDocument(db, indexName, typeName, document, "").0;
    assert db'.indices == db2.indices && db'.types == db2.types;
  }

  /** The same with a given id: the sequence stays fresh and the document
      is stored under the id with version 1. */
  lemma CreateDocumentWithIdProvisions(db: Db, indexName: string, typeName: string, document: string, documentID: string)
    requires GetType(db, indexName, typeName).None?
    requires TableName(indexName, typeName) !in db.relations
    requires SequenceOf(TableName(indexName, typeName)) !in db.relations
    requires 0 < |documentID| <= MaxIdLength
    ensures var (db', r) := CreateDocument(db, indexName, typeName, document, documentID);
            var table := TableName(indexName, typeName);
            var doc := Document(documentID, document, 1);
            r == Ok(doc) &&
            GetIndex(db', indexName).Some? &&
            GetType(db', indexName, typeName) == Some(TypeRecord(typeName, indexName, "")) &&
            db'.relations == db.relations[SequenceOf(table) := Sequence(0)][table := DataTable([doc])] &&
            GetDocument(db', indexName, typeName, documentID) == Ok(Some(doc))
  {
    var table := TableName(indexName, typeName);
    ProvisionFresh(db, indexName, typeName);
    var db1 := ProvisionIndex(db, indexName).0;
    var db2 := ProvisionType(db1, indexName, typeName).0;
    assert |SequenceOf(table)| > |table|;
    assert IsDocumentExists(db2, indexName, typeName, documentID) == Ok(false);
    InsertIDIntoFreshTable(db2, indexName, typeName, document, documentID);
    RewriteSecond(db.relations, SequenceOf(table), table, Sequence(0), DataTable([]), DataTable([Document(documentID, document, 1)]));
    var db' := CreateDocument(db, indexName, typeName, document, documentID).0;
    assert db'.indices == db2.indices && db'.types == db2.types;
  }

  /** A given id already present: refused, nothing changes. */
  lemma CreateDocumentExistingId(db: Db, indexName: string, typeName: string, document: string, documentID: string, d: Document)
    requires Valid(db)
    requires GetIndex(db, indexName).Some? && GetType(db, indexName, typeName).Some?
    requires |documentID| != 0
    requires GetDocument(db, indexName, typeName, documentID) == Ok(Some(d))
    ensures CreateDocument(db, indexName, typeName, document, documentID) ==
              (db, Err(DBQueryError("Document with ID " + documentID + " already exists")))
  {
    IsDocumentExistsAgreesWithGet(db, indexName, typeName, documentID);
  }

  /** A given id not yet present: the row (id, document, 1) is added to the
      document table and nothing else changes. */
  lemma CreateDocumentGivenId(db: Db, indexName: string, typeName: string, document: string, documentID: string)
    requires Valid(db)
    requires GetIndex(db, indexName).Some? && GetType(db, indexName, typeName).Some?
    requires 0 < |documentID| <= MaxIdLength
    requires GetDocument(db, indexName, typeName, documentID) == Ok(None)
    ensures var (db', r) := CreateDocument(db, indexName, typeName, document, documentID);
            r == Ok(Document(documentID, document, 1)) &&
            GetDocument(db', indexName, typeName, documentID) == Ok(Some(Document(documentID, document, 1))) &&
            (forall j :: j != documentID ==> GetDocument(db', indexName, typeName, j) == GetDocument(db, indexName, typeName, j)) &&
            SameOutside(db, db', {TableName(indexName, typeName)})
  {
    IsDocumentExistsAgreesWithGet(db, indexName, typeName, documentID);
    var rows := TableRows(db, TableName(indexName, typeName)).value;
    var doc := Document(documentID, document, 1);
    forall j {
      FindRowAppend(rows, doc, j);
    }
  }

  /** An empty id: the next sequence value, in decimal, becomes the id. */
  lemma CreateDocumentGeneratedId(db: Db, indexName: string, typeName: string, document: string, n: nat)
    requires GetIndex(db, indexName).Some? && GetType(db, indexName, typeName).Some?
    requires TableRows(db, TableName(indexName, typeName)).Ok?
    requires SequenceOf(TableName(indexName, typeName)) in db.relations
    requires db.relations[SequenceOf(TableName(indexName, typeName))] == Sequence(n)
    requires n < MaxSequence && |Decimal.NatToString(n + 1)| <= MaxIdLength
    requires GetDocument(db, indexName, typeName, Decimal.NatToString(n + 1)) == Ok(None)
    ensures var (db', r) := CreateDocument(db, indexName, typeName, document, "");
            var id := Decimal.NatToString(n + 1);
            var table := TableName(indexName, typeName);
            r == Ok(Document(id, document, 1)) &&
            GetDocument(db', indexName, typeName, id) == Ok(Some(Document(id, document, 1))) &&
            (forall j :: j != id ==> GetDocument(db', indexName, typeName, j) == GetDocument(db, indexName, typeName, j)) &&
            SequenceOf(table) in db'.relations && db'.relations[SequenceOf(table)] == Sequence(n + 1) &&
            SameOutside(db, db', {table, SequenceOf(table)})
  {
    var table := TableName(indexName, typeName);
    assert |SequenceOf(table)| > |table|;
    var rows := TableRows(db, table).value;
    var doc := Document(Decimal.NatToString(n + 1), document, 1);
    forall j {
      FindRowAppend(rows, doc, j);
    }
  }

  /** A generated id already taken by an explicitly given one: the insert
      fails on the primary key, but the sequence has advanced, so the next
      attempt draws the following value. */
  lemma GeneratedIdCollision(db: Db, indexName: string, typeName: string, document: string, n: nat)
    requires TableRows(db, TableName(indexName, typeName)).Ok?
    requires SequenceOf(TableName(indexName, typeName)) in db.relations
    requires db.relations[SequenceOf(TableName(indexName, typeName))] == Sequence(n)
    requires n < MaxSequence && |Decimal.NatToString(n + 1)| <= MaxIdLength
    requires GetDocument(db, indexName, typeName, Decimal.NatToString(n + 1)).Ok?
    requires GetDocument(db, indexName, typeName, Decimal.NatToString(n + 1)).value.Some?
    ensures var (db', r) := InsertDocument(db, indexName, typeName, document);
            var table := TableName(indexName, typeName);
            r == Err(DBQueryError(DuplicateKey(table))) &&
            db' == db.(relations := db.relations[SequenceOf(table) := Sequence(n + 1)])
  {
  }

  /** Two generated ids in a row are different. */
  lemma GeneratedIdsDistinct(db: Db, indexName: string, typeName: string, d1: string, d2: string)
    ensures var (db1, r1) := InsertDocument(db, indexName, typeName, d1);
            var (db2, r2) := InsertDocument(db1, indexName, typeName, d2);
            r1.Ok? && r2.Ok? ==> r1.value.id != r2.value.id
  {
    var table := TableName(indexName, typeName);
    var (db1, r1) := InsertDocument(db, indexName, typeName, d1);
    var (db2, r2) := InsertDocument(db1, indexName, typeName, d2);
    if r1.Ok? && r2.Ok? {
      assert |SequenceOf(table)| > |table|;
      var n := db.relations[SequenceOf(table)].issued;
      assert db1.relations[SequenceOf(table)] == Sequence(n + 1);
      assert r1.value.id == Decimal.NatToString(n + 1);
      assert r2.value.id == Decimal.NatToString(n + 2);
      if r1.value.id == r2.value.id {
        Decimal.NatToStringInjective(n + 1, n + 2);
      }
    }
  }

  /** A present document below the version limit: its text is replaced, its
      version goes up by one, the read-back finds it, and no other document
      or relation changes. */
  lemma UpdateDocumentPresent(db: Db, indexName: string, typeName: string, document: string, documentID: string, d: Document)
    requires Valid(db)
    requires |documentID| != 0
    requires GetDocument(db, indexName, typeName, documentID) == Ok(Some(d))
    requires d.version < MaxInt32
    ensures var (db', r) := UpdateDocument(db, indexName, typeName, document, documentID);
            var updated := Document(documentID, document, d.version + 1);
            r == Ok(Some(updated)) &&
            GetDocument(db', indexName, typeName, documentID) == Ok(Some(updated)) &&
            (forall j :: j != documentID ==> GetDocument(db', indexName, typeName, j) == GetDocument(db, indexName, typeName, j)) &&
            SameOutside(db, db', {TableName(indexName, typeName)})
  {
    var table := TableName(indexName, typeName);
    var rows := TableRows(db, table).value;
    assert RowsValid(rows);
    UpdateDocumentWrites(db, indexName, typeName, document, documentID, d);
    GetDocumentAfterRewrite(db, indexName, typeName, UpdateRows(rows, documentID, document));
    forall j {
      FindRowUpdate(rows, documentID, document, j);
    }
  }

  /** The state and result of such an update: the table's rows rewritten,
      and the re-read row. */
  lemma UpdateDocumentWrites(db: Db, indexName: string, typeName: string, document: string, documentID: string, d: Document)
    requires TableRows(db, TableName(indexName, typeName)).Ok?
    requires UniqueIds(TableRows(db, TableName(indexName, typeName)).value)
    requires |documentID| != 0
    requires FindRow(TableRows(db, TableName(indexName, typeName)).value, documentID) == Some(d)
    requires d.version < MaxInt32
    ensures var table := TableName(indexName, typeName);
            var rows := TableRows(db, table).value;
            UpdateDocument(db, indexName, typeName, document, documentID) ==
              (db.(relations := db.relations[table := DataTable(UpdateRows(rows, documentID, document))]),
               Ok(Some(Document(documentID, document, d.version + 1))))
  {
    var table := TableName(indexName, typeName);
    var rows := TableRows(db, table).value;
    assert IsDocumentExists(db, indexName, typeName, documentID) == Ok(true) by {
      CountIdUnique(rows, documentID);
    }
    assert !VersionAtLimit(rows, documentID) by {
      FoundRowIsOnly(rows, documentID, d);
    }
    var rows' := UpdateRows(rows, documentID, document);
    var db1 := db.(relations := db.relations[table := DataTable(rows')]);
    var updated := Document(documentID, document, d.version + 1);
    FindRowUpdated(rows, documentID, document, d);
    assert GetDocument(db1, indexName, typeName, documentID) == Ok(Some(updated)) by {
      GetDocumentAfterRewrite(db, indexName, typeName, rows');
    }
  }

  lemma {:induction false} FindRowUpdated(rows: seq<Document>, id: string, document: string, d: Document)
    requires FindRow(rows, id) == Some(d)
    ensures FindRow(UpdateRows(rows, id, document), id) == Some(Document(id, document, d.version + 1))
    decreases rows
  {
    var r := UpdateRows(rows, id, document);
    if rows[0].id == id {
      assert r[0] == Document(id, document, rows[0].version + 1);
    } else {
      assert r[0] == rows[0];
      assert r[1..] == UpdateRows(rows[1..], id, document);
      FindRowUpdated(rows[1..], id, document, d);
    }
  }

  /** Reading from a document table whose rows were replaced. */
  lemma GetDocumentAfterRewrite(db: Db, indexName: string, typeName: string, rows': seq<Document>)
    ensures var table := TableName(indexName, typeName);
            var db' := db.(relations := db.relations[table := DataTable(rows')]);
            (forall j :: GetDocument(db', indexName, typeName, j) == Ok(FindRow(rows', j))) &&
            SameOutside(db, db', {table})
  {
  }

  /** A present document whose version is already the largest integer: the
      update is refused and nothing changes. */
  lemma UpdateDocumentAtLimit(db: Db, indexName: string, typeName: string, document: string, documentID: string, d: Document)
    requires Valid(db)
    requires |documentID| != 0
    requires GetDocument(db, indexName, typeName, documentID) == Ok(Some(d))
    requires d.version == MaxInt32
    ensures UpdateDocument(db, indexName, typeName, document, documentID) == (db, Err(DBQueryError(IntegerOutOfRange)))
  {
    IsDocumentExistsAgreesWithGet(db, indexName, typeName, documentID);
    var rows := TableRows(db, TableName(indexName, typeName)).value;
    var m :| 0 <= m < |rows| && rows[m] == d;
    assert VersionAtLimit(rows, documentID);
  }

  /** An empty or absent id: refused with "doesn't exists", nothing changes. */
  lemma UpdateDocumentAbsent(db: Db, indexName: string, typeName: string, document: string, documentID: string)
    requires |documentID| == 0 || GetDocument(db, indexName, typeName, documentID) == Ok(None)
    ensures UpdateDocument(db, indexName, typeName, document, documentID) ==
              (db, Err(DBQueryError("Document with ID " + documentID + " doesn't exists")))
  {
  }

  /** Deleting a present document returns it as it was and removes exactly
      that id; deleting it again finds nothing and changes nothing. */
  lemma DeleteDocumentPresent(db: Db, indexName: string, typeName: string, documentID: string, d: Document)
    requires GetDocument(db, indexName, typeName, documentID) == Ok(Some(d))
    ensures var (db', r) := DeleteDocument(db, indexName, typeName, documentID);
            r == Ok(Some(d)) &&
            GetDocument(db', indexName, typeName, documentID) == Ok(None) &&
            (forall j :: j != documentID ==> GetDocument(db', indexName, typeName, j) == GetDocument(db, indexName, typeName, j)) &&
            SameOutside(db, db', {TableName(indexName, typeName)}) &&
            DeleteDocument(db', indexName, typeName, documentID) == (db', Ok(None))
  {
    var rows := TableRows(db, TableName(indexName, typeName)).value;
    forall j {
      FindRowRemove(rows, documentID, j);
    }
  }

  /** Deleting an absent id is no error and changes nothing. */
  lemma DeleteDocumentAbsent(db: Db, indexName: string, typeName: string, documentID: string)
    requires GetDocument(db, indexName, typeName, documentID) == Ok(None)
    ensures DeleteDocument(db, indexName, typeName, documentID) == (db, Ok(None))
  {
  }

  /** The count that precedes the select changes nothing: a search returns
      exactly the rows of the table the where-list accepts, and none when
      none is accepted. */
  lemma ProcessSearchQueryFilters(db: Db, table: string, where: seq<Clause>, holds: (Leaf, string) -> bool, d: Document)
    ensures TableRows(db, table).Err? ==> ProcessSearchQuery(db, table, where, holds) == Err(TableRows(db, table).error)
    ensures TableRows(db, table).Ok? ==>
              ProcessSearchQuery(db, table, where, holds) == Ok(Matching(TableRows(db, table).value, where, holds))
    ensures TableRows(db, table).Ok? ==>
              (d in Matching(TableRows(db, table).value, where, holds) <==>
                 d in TableRows(db, table).value && Holds(where, l => holds(l, d.document)))
  {
  }

  /** A where-list with no clause returns the whole table, in order. */
  lemma {:induction false} MatchingNoClauses(rows: seq<Document>, holds: (Leaf, string) -> bool)
    ensures Matching(rows, [], holds) == rows
    decreases rows
  {
    if rows != [] {
      MatchingNoClauses(rows[1..], holds);
    }
  }

  // ---------------------------------------------------------------------
  // The statement text of an insert with a given id.
  // ---------------------------------------------------------------------

  /** What `fmt` renders for a `%d` verb given a string operand. */
  function BadDecimalVerb(s: string): string
  {
    "%!d(string=" + s + ")"
  }

  /** The INSERT statement an explicit-id insert sends, as written: the id
      goes through a `%d` verb, the document and the version are literal. */
  function InsertStatementAsWritten(indexName: string, typeName: string, document: string, documentID: string): string
  {
    "INSERT INTO " + TableName(indexName, typeName) + " (id, document, version) VALUES(" +
      BadDecimalVerb(documentID) + ", '" + document + "', 1);"
  }

  /** The INSERT statement the explicit-id insert is meant to send: the id as
      a quoted text literal. */
  function InsertStatementIntended(indexName: string, typeName: string, document: string, documentID: string): string
  {
    "INSERT INTO " + TableName(indexName, typeName) + " (id, document, version) VALUES('" +
      documentID + "', '" + document + "', 1);"
  }

  /** Whatever the id, the first value of the statement as written starts
      with `%`, which is not the start of any SQL literal; the intended
      statement has the opening quote of the id there. */
  lemma InsertStatementAsWrittenIsMalformed(indexName: string, typeName: string, document: string, documentID: string)
    ensures var head := "INSERT INTO " + TableName(indexName, typeName) + " (id, document, version) VALUES(";
            var asWritten := InsertStatementAsWritten(indexName, typeName, document, documentID);
            var intended := InsertStatementIntended(indexName, typeName, document, documentID);
            |head| < |asWritten| && |head| < |intended| &&
            asWritten[..|head|] == head && asWritten[|head|] == '%' &&
            intended[..|head|] == head && intended[|head|] == '\'' &&
            asWritten != intended
  {
    var head := "INSERT INTO " + TableName(indexName, typeName) + " (id, document, version) VALUES(";
    var tail1 := BadDecimalVerb(documentID) + ", '" + document + "', 1);";
    var tail2 := "'" + documentID + "', '" + document + "', 1);";
    assert InsertStatementAsWritten(indexName, typeName, document, documentID) == head + tail1;
    assert InsertStatementIntended(indexName, typeName, document, documentID) == head + tail2;
    assert tail1[0] == '%';
    assert tail2[0] == '\'';
    assert (head + tail1)[|head|] == tail1[0];
    assert (head + tail2)[|head|] == tail2[0];
  }
}
