# pg_elastic, modelled in Dafny

pg_elastic serves a subset of the Elasticsearch REST API on top of a
PostgreSQL database. An index is a row of the catalog table
`index_records`. A type is a row of `type_records`. The documents of one
(index, type) pair live in a table `<index>_<type>`, whose generated ids come
from a sequence `<index>_<type>_id_seq`. Searches compile the Elasticsearch
query DSL (`match_all`, `match`, `match_phrase`, `bool`) into PostgreSQL
full-text conditions. The bulk endpoint runs a newline-separated batch of
`index`, `create`, `update` and `delete` commands.

This project models the core of that server:

- **The database client (db/client.go).** `Db.Client` is a class whose fields
  are the database it talks to. Each of its methods is proved to leave the
  state, and return the result, that a function of `DbModel` computes from the
  state before. The properties of the client are proved about those functions.
- **An invariant.** `DbModel.Valid` says: the catalog tables exist; index
  names are unique; (type, index) pairs are unique; document ids are at most
  128 characters and unique; versions fit in `integer`; every document table
  has its id sequence.
  - Only the id rules come from the SQL schema: the id is the primary key of
    a VARCHAR(128) column, and the version is an `integer`.
  - The catalog tables `index_records` and `type_records` have no primary key
    and no unique constraint (db/client.go:17-26 and 53-60). Index names and
    (type, index) pairs are unique only because CreateIndex and CreateType
    count the matching records before they insert (db/client.go:94-112 and
    155-176), and because no two requests interleave (see "## Left out").
  - A table is created together with its sequence, so every document table
    has one.
  - Every state-changing operation keeps the invariant.
- **The handlers (api/documents.go, api/indices.go, api/bulk.go).** Each is a
  method on the client, proved equal to a reply function (`...Reply`) of the
  state before. The request body is a parameter. So is the JSON decoder
  (`parse`), and so is the truth of a full-text condition on a document text
  (`holds`).
- **The query compiler (api/search/parsequery.go).** It is a set of methods
  that append to a `Query.Builder`, the ORM's query object. Each is proved to
  append exactly what a compile function yields.
- **Truth of a where-list (`Query.Holds`).** It follows SQL's AND-before-OR
  reading of the conditions the builder joins.
- **The field-mapping reader (utils/mapping.go) and the error values and
  envelopes (utils/errors.go).** Both are pure functions.

Go maps are visited in an unspecified order. The model visits the members of
a decoded object in the order they are listed, so every property holds
whatever that order is. Where the order changes the outcome, a lemma shows
both orders (`ParseQuery.MustThenShouldExample`,
`ParseQuery.ShouldThenMustExample`).

## Model

| member | source | states |
|---|---|---|
| Errors.ElasticError.FormatErrorResponse | utils/errors.go:75-84 | the envelope has status 500 and exactly one root cause, and that cause equals the outer type and reason; decoding the envelope's type and reason gives back the error it was made from |
| Errors.NewJSONWrongFormatError | utils/errors.go:94-96 | the error's type tag is `json_parse_exception` and its reason is the given text |
| Errors.NewDBQueryError | utils/errors.go:99-101 | type tag `db_query_exception`, reason kept |
| Errors.NewInternalIOError | utils/errors.go:104-106 | type tag `internal_io_exception`, reason kept |
| Errors.NewInternalError | utils/errors.go:109-111 | type tag `internal_exception`, reason kept |
| Errors.NewIllegalQueryError | utils/errors.go:114-116 | type tag `illegal_query_exception`, reason kept |
| Errors.DecodeError | utils/errors.go:94-116 | an error read back from a tag and a reason has exactly that tag and reason; together with the envelope's contract, decoding inverts the five constructors |
| Errors.NewElasticErrorBulk | utils/errors.go:119-127 | the bulk error's type and reason decode to the wrapped error; index, shard and index UUID are the caller's |
| Errors.FormatBulkErrorResponse | utils/errors.go:87-91 | the bulk envelope holds the bulk error unchanged under `error` |
| Errors.TypeIdentifiesKind | utils/errors.go:94-116 | the five type tags are pairwise distinct: equal tags and equal reasons mean the same error |
| Errors.ErrorTextInjective | utils/errors.go:60-62 | the `Error()` text "Error type: T, Reason: R" determines the error |
| Errors.FormatErrorResponseInjective | utils/errors.go:75-84 | two errors with the same single-error envelope are the same error |
| Json.Lookup | utils/mapping.go:11 | the comma-ok map lookup: found exactly when some member has the key, and what it finds is that key's value |
| Json.StringOr | utils/mapping.go:16-17 | a discarded-ok string assertion gives the string, or "" when the value is missing or not a string |
| Mapping.NoPropertiesNoMapping | utils/mapping.go:11-22 | a mapping without `properties` gives no field mapping |
| Mapping.MissingFieldNoMapping | utils/mapping.go:13-20 | a field `properties` does not list gives no field mapping |
| Mapping.ListedFieldHasMapping | utils/mapping.go:13-18 | a listed field has a mapping whose type and analyzer are its string `type` and `analyzer` entries, with "" for one that is missing |
| Mapping.GetFieldMappingOfMappingOf | utils/mapping.go:10-23 | reading back a field of a mapping document built from declarations gives that field's declaration |
| Mapping.GetFieldMappingOfUndeclared | utils/mapping.go:10-23 | a field the mapping document does not declare has no mapping |
| Wildcard.Translate | db/client.go:137-138 | the rewrite keeps the length and maps each `?` to `_` and each `*` to `%`, character by character |
| Wildcard.TranslateIsFaithful | db/client.go:137-139 | for patterns without literal `_`, `%` or `\` (LIKE's default escape character), LIKE on the rewritten pattern accepts exactly the names the wildcard pattern accepts |
| Wildcard.LiteralUnderscoreMatchesAnyChar | db/client.go:137-139 | a literal `_` survives the rewrite and matches any character: "a_c" finds "abc" |
| Wildcard.BackslashEscapesWildcard | db/client.go:137-139 | a backslash survives the rewrite and LIKE reads it as its escape: `a\*` finds only the name "a%", although the wildcard pattern matches "a\b" |
| Wildcard.StarPatternExamples | db/client.go:137-139 | `a*` finds "a", "ab" and "azzz" but not "ba" |
| Wildcard.QuestionPatternExamples | db/client.go:137-139 | `a?c` finds "abc" but not "ac" or "abbc" |
| Decimal.NatToString | db/client.go:353 | the text a sequence value takes in the VARCHAR id column: at least one digit, digits only, no leading zero |
| Decimal.StringToNatOfNatToString | db/client.go:353 | reading the decimal text back gives the sequence value |
| Decimal.NatToStringInjective | db/client.go:353 | distinct sequence values give distinct id texts |
| Query.HoldsAllAnd | api/search/parsequery.go:75 | a where-list whose conditions are all attached with AND accepts a row exactly when every condition does |
| Query.AndGroupThenOrGroup | api/search/parsequery.go:117-121 | an OR group after an AND group accepts the rows of either group |
| Query.OrGroupThenAndGroup | api/search/parsequery.go:117-121 | an OR group written first has its joiner dropped, so with an AND group after it a row must satisfy both |
| Query.Builder.constructor | db/client.go:64-67 | a new query object reads the given table and has no condition |
| Query.Builder.Where | api/search/parsequery.go:75 | one leaf condition is appended, attached with AND, and nothing else changes |
| Query.Builder.BeginGroup | api/search/parsequery.go:102-105 | the conditions so far are handed back and the object starts an empty list for the group |
| Query.Builder.EndGroup | api/search/parsequery.go:118-121 | the saved list comes back with the group's conditions appended as one group with the given joiner |
| Db.Client.constructor | db/client.go:40-49 | a new client is connected to a database with no relations and no records |
| Db.Client.InitializeSchema | db/client.go:53-61 | the state becomes `DbModel.InitializeSchema` of the old state |
| DbModel.InitializeSchema | db/client.go:53-61 | both catalog tables exist afterwards; every existing relation is kept unchanged; the only relations added are catalog tables; the records are untouched |
| DbModel.InitializeSchemaOutcome | db/client.go:53-61 | on an empty database the result is the initial schema, and running it twice is the same as running it once |
| DbModel.InitialDbValid | db/client.go:53-61 | the initial schema satisfies the invariant |
| Db.Client.NewQuery | db/client.go:64-67 | a fresh query object on the table `<index>_<type>` with no condition |
| Db.Client.ProcessSearchQuery | db/client.go:70-87 | the result is `DbModel.ProcessSearchQuery` on the query's table and conditions; the state does not change |
| DbModel.Matching | db/client.go:70-87 | a document is selected exactly when it is a row of the table and the where-list accepts its text; there are never more results than rows |
| DbModel.ProcessSearchQueryFilters | db/client.go:70-87 | a missing table gives its query error; otherwise the result is exactly the selected rows, in table order, and the zero-count shortcut changes nothing |
| DbModel.MatchingNoClauses | db/client.go:70-87 | a query with no condition returns the whole table, in order |
| Db.Client.GetIndex | db/client.go:115-131 | the result is `DbModel.GetIndex` of the current state; the state does not change |
| DbModel.FindIndexRecord | db/client.go:117-125 | None exactly when no record has the name; otherwise the first record with that name |
| DbModel.LookupsReportAbsence | db/client.go:115-131 | GetIndex and GetType report absence (not an error) exactly when no record matches, and otherwise a stored record with that name |
| Db.Client.CreateIndex | db/client.go:94-112 | the new state and result are `DbModel.CreateIndex` of the old state; the invariant is kept |
| DbModel.CreateIndexOutcome | db/client.go:94-112 | an existing name is refused with "Index already exists" and nothing changes; otherwise exactly the record (name, options) is appended, it is found afterwards, and no other lookup changes |
| DbModel.CreateIndexPreservesValid | db/client.go:94-112 | creating an index keeps the invariant |
| Db.Client.FindIndices | db/client.go:134-148 | the result is `DbModel.FindIndices` of the current state; the state does not change |
| DbModel.IndexRecordsLike | db/client.go:139-140 | a record is selected exactly when it is stored and its name is LIKE the pattern |
| DbModel.IndexNames | db/client.go:144-146 | the names of the records, one for each, in order |
| DbModel.FindIndicesMatches | db/client.go:134-148 | a name is returned exactly when an index has it and it is LIKE the rewritten pattern (with `\` as LIKE's escape); for patterns without `_`, `%` or `\`, exactly when the wildcard pattern matches it |
| Db.Client.CreateDataTable | db/client.go:347-359 | the new state and error are `DbModel.CreateDataTable` of the old state: first the sequence, then the table |
| DbModel.CreateDataTablePreservesValid | db/client.go:347-359 | provisioning storage keeps the invariant, including when it fails halfway |
| DbModel.TableNamesCollide | db/client.go:347-359 | index "a_b" with type "c" and index "a" with type "b_c" share the table `a_b_c`: the second type is recorded but gets no storage |
| Db.Client.CreateType | db/client.go:155-176 | the new state and result are `DbModel.CreateType` of the old state; the invariant is kept |
| DbModel.CreateTypeExisting | db/client.go:155-176 | an existing type is refused with "Type already exists" and nothing changes |
| DbModel.CreateTypeFresh | db/client.go:155-176 | when the storage names are free, the record is written and exactly an empty table and a fresh sequence are added to the relations |
| DbModel.CreateTypeTableNameTaken | db/client.go:155-176 | when the table name is taken, the record and the new sequence stay, and the error is a db_query_exception whose reason is the inner error's full text |
| DbModel.TableNameTakenReason | db/client.go:168-171 | the reason of that doubly wrapped error, written out |
| DbModel.CreateTypeSequenceNameTaken | db/client.go:155-176 | when the sequence name is taken, the record stays and no relation changes |
| DbModel.TypeNamedLikeCatalogTable | db/client.go:155-176 | type "records" of index "index" is recorded, but its table would be the catalog table `index_records`, so provisioning fails |
| DbModel.CreateTypePreservesValid | db/client.go:155-176 | creating a type keeps the invariant |
| Db.Client.GetType | db/client.go:179-195 | the result is `DbModel.GetType` of the current state; the state does not change |
| DbModel.FindTypeRecord | db/client.go:179-195 | None exactly when no record has both the name and the index; otherwise the first record that has both |
| Db.Client.UpdateTypeOptions | db/client.go:198-204 | the new state and result are `DbModel.UpdateTypeOptions` of the old state; the invariant is kept |
| DbModel.SetTypeOptions | db/client.go:199 | the update replaces the options of exactly the records with that name and index, and keeps the others and their order |
| DbModel.UpdateTypeOptionsOutcome | db/client.go:198-204 | a record is returned exactly when the type exists, and it carries the new options; no other type, index or relation changes |
| DbModel.UpdateTypeOptionsPreservesValid | db/client.go:198-204 | updating options keeps the invariant |
| Db.Client.FindTypes | db/client.go:207-221 | the result is `DbModel.FindTypes` of the current state; the state does not change |
| DbModel.TypeRecordsLike | db/client.go:212-213 | a record is selected exactly when it is stored, belongs to the index, and its name is LIKE the pattern |
| DbModel.TypeNames | db/client.go:217-219 | the names of the records, one for each, in order |
| DbModel.FindTypesMatches | db/client.go:207-221 | only types of the given index are returned: exactly those LIKE the rewritten pattern (with `\` as LIKE's escape), and for patterns without `_`, `%` or `\` exactly those the wildcard pattern matches |
| Db.Client.GetDocument | db/client.go:272-292 | the result is `DbModel.GetDocument` of the current state; the state does not change |
| DbModel.FindRow | db/client.go:276-291 | None exactly when no row has the id; otherwise a row of the table with that id |
| DbModel.CountId | db/client.go:300 | the count is zero exactly when no row has the id, and never more than the rows |
| Db.Client.IsDocumentExists | db/client.go:295-305 | the result is `DbModel.IsDocumentExists` of the current state; the state does not change |
| DbModel.IsDocumentExistsAgreesWithGet | db/client.go:295-305 | false for the empty id; otherwise the lookup's error, or whether the lookup finds the document |
| Db.Client.InsertDocument | db/client.go:362-370 | the new state and result are `DbModel.InsertDocument` of the old state: the id is the next value of the sequence |
| DbModel.InsertIntoFreshTable | db/client.go:362-370 | into an empty table with a fresh sequence, the document is stored as id "1" with version 1, and the sequence stands at 1 |
| DbModel.GeneratedIdCollision | db/client.go:362-370 | when the next generated id is already taken, the insert fails on the primary key, but the sequence has still advanced |
| DbModel.GeneratedIdsDistinct | db/client.go:362-370 | two successful generated inserts in a row get different ids |
| DbModel.InsertDocumentPreservesValid | db/client.go:362-370 | the generated-id insert keeps the invariant |
| Db.Client.InsertDocumentID | db/client.go:373-381 | the new state and result are `DbModel.InsertDocumentID` of the old state: the row (id, document, 1) |
| DbModel.InsertIDIntoFreshTable | db/client.go:373-381 | into an empty table, a given id of at most 128 characters is stored with version 1 and nothing else changes |
| DbModel.InsertDocumentIDPreservesValid | db/client.go:373-381 | the given-id insert keeps the invariant |
| DbModel.InsertStatementAsWrittenIsMalformed | db/client.go:375 | whatever the id, the statement as written has `%` where its first value begins, not a SQL literal, while the intended statement has the id's opening quote there |
| Db.Client.CreateDocument | db/client.go:228-269 | the new state and result are `DbModel.CreateDocument` of the old state; the invariant is kept |
| DbModel.CreateDocumentProvisions | db/client.go:228-253 | with a new index and type and no id, both are created with empty options, an empty table and a fresh sequence are provisioned, and the document is stored as "1", version 1, and can be read back |
| DbModel.CreateDocumentWithIdProvisions | db/client.go:228-269 | the same with a given id: the sequence stays fresh and the document is stored under the id, version 1 |
| DbModel.ProvisionPreservesValid | db/client.go:229-247 | both provisioning steps keep the invariant |
| DbModel.CreateDocumentExistingId | db/client.go:255-260 | a given id already present is refused with "Document with ID … already exists" and nothing changes |
| DbModel.CreateDocumentGivenId | db/client.go:254-266 | a given id not yet present gets the row (id, document, 1); no other document and no other relation changes |
| DbModel.CreateDocumentGeneratedId | db/client.go:249-253 | an empty id takes the decimal text of the next sequence value; the sequence advances by one; nothing else changes |
| DbModel.CreateDocumentPreservesValid | db/client.go:228-269 | creating a document keeps the invariant |
| Db.Client.UpdateDocument | db/client.go:308-324 | the new state and result are `DbModel.UpdateDocument` of the old state; the invariant is kept |
| DbModel.UpdateRows | db/client.go:315 | the update keeps the rows and their order; the rows with the id get the new text and their version plus one; the others are unchanged |
| DbModel.UpdateDocumentPresent | db/client.go:308-324 | a present document below the version limit gets the new text and version + 1; the read-back returns it; no other document or relation changes |
| DbModel.UpdateDocumentWrites | db/client.go:313-319 | the state after such an update is the table with its rows rewritten, and the result is the re-read row |
| DbModel.UpdateDocumentAtLimit | db/client.go:315-318 | a document whose version is already the largest `integer` is refused with an out-of-range error and nothing changes |
| DbModel.UpdateDocumentAbsent | db/client.go:320-322 | an empty or absent id is refused with "Document with ID … doesn't exists" and nothing changes |
| DbModel.UpdateDocumentPreservesValid | db/client.go:308-324 | updating a document keeps the invariant |
| Db.Client.DeleteDocument | db/client.go:327-340 | the new state and result are `DbModel.DeleteDocument` of the old state; the invariant is kept |
| DbModel.RemoveId | db/client.go:334 | the rows kept are exactly those whose id differs |
| DbModel.DeleteDocumentPresent | db/client.go:327-340 | deleting a present document returns it as it was and removes exactly that id; a second delete finds nothing and changes nothing |
| DbModel.DeleteDocumentAbsent | db/client.go:327-340 | deleting an absent id is no error and changes nothing |
| DbModel.DeleteDocumentPreservesValid | db/client.go:327-340 | deleting a document keeps the invariant |
| ParseQuery.ParseSearchQuery | api/search/parsequery.go:10-23 | the members are walked once, and the where-list grows by exactly `CompileQuery` of the query object |
| ParseQuery.ParseClause | api/search/parsequery.go:12-21 | one member appends exactly `CompileClause` of it: `match_all` and unknown keys append nothing |
| ParseQuery.ParseMatchQuery | api/search/parsequery.go:28-96 | both match walks append exactly `CompileMatch`; they differ only in the tsquery function |
| ParseQuery.ParseMatchField | api/search/parsequery.go:66-94 | one field appends exactly `CompileField` of it |
| ParseQuery.ReadMatchOptions | api/search/parsequery.go:77-86 | the options loop yields `QueryText` of the options |
| ParseQuery.QueryText | api/search/parsequery.go:78-85 | "" when no option is `query`; otherwise the string of the last `query` option |
| ParseQuery.ParseBoolQuery | api/search/parsequery.go:98-124 | the where-list grows by exactly `CompileBool` of the bool object |
| ParseQuery.ParseBoolMember | api/search/parsequery.go:100-122 | one occurrence key appends exactly `CompileBoolMember`: one group holding the compiled sub-query |
| ParseQuery.CompileQueryAppend | api/search/parsequery.go:10-23 | compiling is compositional: a query object split in two compiles to the two compilations, one after the other |
| ParseQuery.NeutralClauseAddsNothing | api/search/parsequery.go:11-26 | a `match_all` or unknown key adds no condition wherever it stands |
| ParseQuery.MatchAllAcceptsEverything | api/search/parsequery.go:25-26 | a lone `match_all` compiles to no condition and accepts every row |
| ParseQuery.StringFieldsGiveOneLeafEach | api/search/parsequery.go:65-75 | each string field of a match object adds exactly one AND-attached leaf, in order |
| ParseQuery.MatchIsConjunction | api/search/parsequery.go:63-96 | a match object of string fields accepts a row exactly when every field's leaf does |
| ParseQuery.MatchPhraseIsMatchWithPhraseFunction | api/search/parsequery.go:28-61 | `match_phrase` compiles like `match`, with phraseto_tsquery in place of to_tsquery and nothing else different |
| ParseQuery.OnlyQueryOptionMatters | api/search/parsequery.go:77-86 | dropping every option other than `query` leaves the leaf text unchanged |
| ParseQuery.OperatorHasNoEffect | api/search/parsequery.go:76-93 | two fields whose `query` options agree compile to the same conditions, whatever `operator` they carry |
| ParseQuery.DeclaredAnalyzerIsUsed | api/search/parsequery.go:69-74 | a declared field's leaf carries its analyzer exactly when the analyzer is non-empty |
| ParseQuery.UndeclaredFieldHasNoAnalyzer | api/search/parsequery.go:69-74 | a field the mapping does not declare gets the leaf without an analyzer |
| ParseQuery.MustNotIsNotNegated | api/search/parsequery.go:111-116 | `must_not` compiles exactly as `must` does, and accepts exactly the rows of its sub-query |
| ParseQuery.ShouldIsOrGroup | api/search/parsequery.go:117-121 | `should` compiles to one OR group around its compiled sub-query |
| ParseQuery.MustThenShouldExample | api/search/parsequery.go:98-124 | `must` x then `should` y gives an AND group and then an OR group, and a row is accepted when either leaf accepts it |
| ParseQuery.ShouldThenMustExample | api/search/parsequery.go:98-124 | the same members visited the other way round accept a row only when both leaves do |
| ParseQuery.TsVectorWithAnalyzer | api/search/parsequery.go:71 | the document side of a leaf with the `english` analyzer on `title` |
| ParseQuery.TsVectorWithoutAnalyzer | api/search/parsequery.go:73 | the document side of a leaf without an analyzer |
| ParseQuery.TsQueryExamples | api/search/parsequery.go:36-38 | the query side: the tsquery function follows the clause, and the analyzer comes first when present |
| ParseQuery.RenderedTokenWithAnalyzer | api/search/parsequery.go:71 | the complete `@@` condition of a token leaf with an analyzer |
| ParseQuery.RenderLeafEmbedsFieldAndText | api/search/parsequery.go:71-73 | for every leaf, with the query side of lines 36-38, the rendered condition starts with the document side's head, then has the field name verbatim, and ends with the search text verbatim followed by `')` |
| Request.WordRun | api/indices.go:22 | the longest prefix of `\w` characters: a prefix, all word characters, followed by a non-word character or the end |
| Request.StripSlashesOfIndexPath | api/indices.go:22-25 | the path `/<word>` names the word |
| Request.StripSlashesJoinsWords | api/indices.go:22-25 | `/a/b` names `ab`: every slash before a word is removed |
| Request.StripSlashesKeepsOtherCharacters | api/indices.go:22-25 | a character outside `\w` stays in the name: `/my-index` names `my-index` |
| Request.MappingMatchOfPath | api/indices.go:21 | the whole path `/<index>/_mapping/<type>` is one match of the pattern, with the two words as its groups |
| Request.MappingNamesOfPath | api/indices.go:51-52 | the mapping route names its index and its type |
| Request.SearchIndexNameOfPath | api/documents.go:243-244 | `/<index>/_search<rest>` names the index followed by the rest of the path |
| Indices.PutIndexHandler | api/indices.go:24-38 | the new state and reply are `PutIndexReply` of the old state; the invariant is kept |
| Indices.HeadIndexHandler | api/indices.go:40-48 | the reply is `HeadIndexReply` of the current state; the state does not change |
| Indices.PutTypeMappingHandler | api/indices.go:50-74 | the new state and reply are `PutTypeMappingReply` of the old state; the invariant is kept |
| Indices.PutIndexThenHead | api/indices.go:24-48 | PUT of a new index stores it with the body as its options and acknowledges; HEAD then reports it; a second PUT is refused and changes nothing |
| Indices.HeadIndexAnswersExistence | api/indices.go:40-48 | HEAD answers true exactly when an index of that name exists |
| Indices.PutTypeMappingPropagatesError | api/indices.go:59-73 | for a type that does not exist, the reply is exactly the error CreateType returns, with the store as CreateType left it, and acknowledged when CreateType succeeds |
| Indices.PutTypeMappingOntoTakenName | api/indices.go:59-73 | for a new type whose table name is taken, e.g. type `records` of index `index`, the reply is CreateType's doubly wrapped db_query_exception; the type record and its sequence stay |
| Indices.PutTypeMappingTwice | api/indices.go:50-74 | the first PUT of a mapping creates the type and its empty storage; the second replaces the options and leaves the storage and the indices as they are |
| Documents.HitsFor | api/documents.go:214-231 | one hit per document, in order; the total is the number of documents; the best score is 1, or 0 with no hit |
| Documents.CollectHits | api/documents.go:224-231 | the loop builds `HitsFor` of the documents |
| Documents.PutDocumentHandler | api/documents.go:73-116 | the new state and reply are `PutDocumentReply` of the old state; the invariant is kept |
| Documents.GetDocumentHandler | api/documents.go:119-143 | the reply is `GetDocumentReply` of the current state; the state does not change |
| Documents.DeleteDocumentHandler | api/documents.go:146-170 | the new state and reply are `DeleteDocumentReply` of the old state; the invariant is kept |
| Documents.QueryMember | api/documents.go:196-198 | the loop over the body's members finds what a lookup of `query` finds |
| Documents.SearchType | api/documents.go:198-233 | the search of one type replies `TypeSearchReply`: its mapping is decoded, the query compiled against it and run on its table |
| Documents.FindDocumentHandler | api/documents.go:173-239 | the reply is `FindDocumentReply` of the current state; the state does not change |
| Documents.FindIndexDocumentHandler | api/documents.go:242-246 | the reply is `FindIndexDocumentReply` of the current state |
| Documents.PutWithGeneratedId | api/documents.go:79-83 | a put without an id gets the next sequence value as its id, version 1 and "created"; a get with that id finds the text |
| Documents.PutIntoNewType | api/documents.go:79-83 | a put without an id into a missing type creates it, stores the document as "1", and a get finds it |
| Documents.PutWithIdIntoMissingTable | api/documents.go:84-89 | a put with an id into a type without storage is refused by the existence test, and nothing is created |
| Documents.PutWithNewId | api/documents.go:84-98 | a new id is created with version 1 and "created"; a get returns its text; only that type's table changes |
| Documents.PutWithExistingId | api/documents.go:90-91 | an existing id is updated to version + 1 with "updated"; a get returns the new text |
| Documents.PutTwice | api/documents.go:73-116 | the same id put twice is created at version 1, then updated to version 2, and a get returns the second text |
| Documents.DeleteThenGet | api/documents.go:146-170 | a delete replies the document as it was; a get afterwards does not find it; a second delete finds nothing |
| Documents.FirstTargetIsFirstMatch | api/documents.go:190-196 | the searched type is the first type of the first index, in order, that has a matching type |
| Documents.NoTargetWithoutMatchingTypes | api/documents.go:190-238 | no type is searched exactly when no index has a matching type |
| Documents.SearchBodyErrors | api/documents.go:180-188 | an unreadable body fails with internal_io_exception and a body that does not decode with json_parse_exception, before any type is looked at |
| Documents.SearchWithoutTarget | api/documents.go:190-238 | with no matching type, a decodable body is an illegal query |
| Documents.SearchWithoutQuery | api/documents.go:196-238 | once a type matches, an object body without `query` is an illegal query, and a body that is not an object panics |
| Documents.SearchReturnsAcceptedDocuments | api/documents.go:198-233 | the search of the first matching type replies one hit for each document the compiled query accepts, in table order, and only for those |
| Documents.SearchMatchAll | api/documents.go:198-233 | a `match_all` search returns every document of the first matching type |
| Documents.IndexSearchPath | api/documents.go:242-246 | `/<index>/_search` searches every type (`*`) of the index named in the path |
| Bulk.SplitLines | api/bulk.go:50 | at least one piece, and no piece holds a newline |
| Bulk.JoinSplitLines | api/bulk.go:50 | joining the pieces with newlines gives the body back |
| Bulk.SplitJoinLines | api/bulk.go:50 | pieces without newlines come back from splitting their join |
| Bulk.BulkHandler | api/bulk.go:43-52 | the new state and reply are `BulkReply` of the old state, which runs the `index` action as written; the invariant is kept |
| Bulk.BulkBodyLines | api/bulk.go:43-52 | a body is processed line by line, as the text between its newlines |
| Bulk.ProcessBulkQuery | api/bulk.go:54-159 | the loop over the lines leaves the state and returns the reply that `ProcessBulkQueryReply` gives with the `index` action as written; the invariant is kept |
| Bulk.ProcessCommandLine | api/bulk.go:72-154 | the loop over one command line's keys leaves the state and carry that `RunKeys` gives as written, or stops where it stops |
| Bulk.ProcessKey | api/bulk.go:73-153 | one key leaves the state and carry that `KeyStep` gives as written, or stops the request as it does; in the `index` branch the create or update changes the store, but its result is dropped; the invariant is kept |
| Bulk.KeyStepOfDescriptor | api/bulk.go:77-153 | a key whose value names a document runs its action, then records the item |
| Bulk.KeyStepSkip | api/bulk.go:82-102 | a key that does not stop the request sets the skip flag exactly when it is `index`, `create` or `update`, and such a key has a line after its command line |
| Bulk.RunKeysSkip | api/bulk.go:72-154 | after a command line's keys, the skip flag is set exactly when one of them is `index`, `create` or `update` |
| Bulk.DocumentLineSkipped | api/bulk.go:59-62 | for any command line i with an `index`, `create` or `update` key that does not stop the request, the request goes on at line i+2, whatever line i+1 holds |
| Bulk.DeleteConsumesNoLine | api/bulk.go:59-62 | after a command line with no `index`, `create` or `update` key (only `delete` or unknown keys), line i+1 is read as a command |
| Bulk.BlankLines | api/bulk.go:59-63 | a body of empty lines changes nothing and has no item |
| Bulk.MalformedCommandLine | api/bulk.go:67-76 | a line that does not decode, or an action whose value is not an object, fails the whole request with json_parse_exception |
| Bulk.DescriptorWithoutIndex | api/bulk.go:78 | an action whose value lacks `_index` panics on the type assertion |
| Bulk.ActionWithoutDocumentLine | api/bulk.go:95-100 | `create` or `update` on the last line has no document line: the request panics before the store is touched |
| Bulk.IndexActionCreates | api/bulk.go:83-94 | `index` on an absent document creates it and marks the next line as the document |
| Bulk.IndexLookupFailureAborts | api/bulk.go:83-88 | for `index`, a failing lookup of the document fails the whole request with that error, and nothing is stored |
| Bulk.IndexActionResultDiscarded | api/bulk.go:83-94 | as written, at any command line i with a line after it, an `index` key whose lookup succeeds stores the document: it creates an absent one and updates a present one. Whatever the create or update returned, it appends the internal_exception "Unknown error" item and sets `errors` (for the first key of a line, or after a key that left neither document nor error) |
| Bulk.IndexCommandAsWritten | api/bulk.go:54-159 | as written, a request that starts with one `index` command stores the document, records "Unknown error" with `errors: true` and goes on at the line after the document line; a two-line request ends there |
| Bulk.IndexActionReportsResult | api/bulk.go:83-136 | as intended, a two-line request with one `index` command for a new document whose create succeeds reports the stored document with status 200 and does not flag the response |
| Bulk.CreateActionReports | api/bulk.go:95-136 | `create` reports the created document, or its error under the key and flags the response; either way the store keeps what the creation did |
| Bulk.UpdateActionReports | api/bulk.go:98-136 | `update` reports the re-read document; a failed update reports its error, and a re-read that found nothing reports "Unknown error"; both flag the response |
| Bulk.DeleteErrorOverwritten | api/bulk.go:101-151 | a failing `delete` flags the response, but the delete response overwrites its error entry and reports the document as not found |
| Bulk.UnknownKeyAddsEmptyItem | api/bulk.go:72-153 | a key that names no action, with no error pending, adds an empty item and touches nothing |
| Bulk.ActionKeepsResponse | api/bulk.go:82-103 | an action changes only the document, the error and the skip flag, and a stop is never a success |
| Bulk.RecordFlags | api/bulk.go:104-153 | recording an item keeps "every error entry is flagged" |
| Bulk.RunLinesFlags | api/bulk.go:59-155 | the loop over the lines keeps "every error entry is flagged" |
| Bulk.ErrorItemsAreFlagged | api/bulk.go:54-159 | whenever an item of a successful reply is an error envelope, the reply says `errors: true` |
| Bulk.KeyStepAppendsItem | api/bulk.go:72-153 | a key that does not stop the request appends exactly one item, under that key, after the items so far |
| Bulk.RunKeysAppendsItems | api/bulk.go:72-154 | a command line appends one item per key, in the order they are visited, after the items of the lines before |

## Left out

- Backend faults are not modelled: lost connections, timeouts and queries on
  the catalog tables that fail. Queries on the catalog tables always answer.
  This makes the error branches of GetIndex, GetType, FindIndices and
  FindTypes, and those of the handlers that pass them on
  (api/documents.go:177-179, 191-194 and 203-205, api/indices.go:43-46 and
  60-62), unreachable. The modelled backend errors come from the state:
  missing or taken relation names, duplicate primary keys, versions at the
  `integer` limit, an exhausted sequence and ids longer than 128 characters.
- JSON decoding is a parameter (`parse`). The decoder's messages are the
  parameter's. The JSONB column is an opaque text.
- The document text is not checked as JSON when it is stored. The model
  stores any text, for example the blank line after a bulk `create`, where
  PostgreSQL refuses a non-JSON value for the JSONB column with an error that
  becomes a db_query_exception.
- The primary key of a document table (db/client.go:353) also creates an
  index relation `<table>_pkey` in the same name space. The model's relations
  do not hold it. So a type whose table name equals an existing
  `<index>_<type>_pkey`, e.g. type "b_pkey" of index "a" after type "b" of
  index "a", is provisioned in the model (`DbModel.CreateTypeFresh`), where
  PostgreSQL refuses the table with "relation already exists". This is one
  more collision next to those of `DbModel.TableNamesCollide`.
- PostgreSQL folds unquoted table names to lower case and truncates them at
  63 bytes. `DbModel.TableName` does neither. Index "A" with type "b" and
  index "a" with type "b" share one table in the database, but not in the
  model.
- SQL text is not modelled, apart from the insert statement of the finding
  below and the rendering of full-text conditions. So are quoting and
  injection through the unquoted `%s` interpolations.
- What PostgreSQL's full-text search accepts is a parameter (`holds`) of the
  search. Analyzers and tsquery syntax are not interpreted.
- Query.Holds: an empty condition group counts as true, and it keeps its
  joiner. So an empty OR group after other conditions makes the whole list
  true. The model does not capture how the ORM renders an empty group.
  Such a group comes from ordinary input: a `bool` member whose sub-query adds
  no condition, e.g. `"should": {"match_all": {}}`. Depending on the ORM,
  the group is rendered as `()`, which PostgreSQL rejects, or it is left
  out. The model accepts every row in that case. So
  `ParseQuery.MustThenShouldExample` with an empty second group, and
  `Documents.SearchReturnsAcceptedDocuments` for such a query, say what this
  reading gives, not what the database answers.
- Wildcard.LikeMatch: a LIKE pattern that ends in the escape character `\`
  matches no name in the model. PostgreSQL refuses such a pattern with an
  error, which FindIndices and FindTypes would pass on. The model does not
  give that error.
- Go's map iteration order is taken to be the order the members are given.
- Row order of a SELECT without ORDER BY (db/client.go:81, 139-140 and
  212-213) is taken to be insertion order. An UPDATE (db/client.go:199 and
  315) is taken to keep the row in its place. PostgreSQL promises neither
  order: an updated row is a new row version, which a later scan usually
  returns after the others. So the order these members state holds only
  under this reading: `DbModel.ProcessSearchQueryFilters`,
  `DbModel.MatchingNoClauses`, `DbModel.SetTypeOptions`,
  `DbModel.UpdateRows`, `Documents.HitsFor`,
  `Documents.FirstTargetIsFirstMatch` and
  `Documents.SearchReturnsAcceptedDocuments`. Which type a search of several
  matching types uses therefore follows the model's order, e.g. the first
  type created even after another type's mapping was updated.
- Duplicate keys in a decoded object are not modelled; a lookup finds the
  first.
- Concurrency is not modelled: no two requests interleave, and the count and
  the select of a lookup see the same state.
- `took` and the clock are left out.
- Scores are the integer 1, and the best score is 0 or 1, in place of
  float64.
- HTTP routing, status codes and JSON rendering of the replies are not part
  of this model. Nor are `server/elasticHandler.go`, the cluster endpoint,
  the configuration, the migration tool and the tests.
- A Go run-time panic in a handler (failed type assertion, index out of
  range, nil dereference) is the reply `Panicked`. Recovery by the HTTP
  server is not modelled.
- In the pure compiler, the type assertions are preconditions (`QueryShaped`
  and its companions). The same holds for `Mapping.GetFieldMapping`
  (`ShapedFor`).
- Every error a client method returns is an `ElasticError`. So the abort on
  another kind of error (api/bulk.go:108-109) cannot happen and is not
  modelled.
- Db.Client.CreateDataTable: states only how the state changes, not that the
  invariant is kept. Its caller CreateType does state it, and
  `DbModel.CreateDataTablePreservesValid` proves it on the value level.
- Db.Client.InsertDocument: states only how the state changes, not that the
  invariant is kept. `DbModel.InsertDocumentPreservesValid` proves it, and
  CreateDocument states it.
- Db.Client.InsertDocumentID: states only how the state changes, not that the
  invariant is kept. `DbModel.InsertDocumentIDPreservesValid` proves it, and
  CreateDocument states it.
- Where an Elasticsearch server would do more than this code does, the model
  follows the code:
  - `must_not` is not negated (`ParseQuery.MustNotIsNotNegated`).
  - `operator` is ignored (`ParseQuery.OperatorHasNoEffect`).
  - Only the first matching type of a search is searched
    (`Documents.FirstTargetIsFirstMatch`).
  - The line after any `index`, `create` or `update` command is skipped,
    whatever it holds (`Bulk.DocumentLineSkipped`).
  - An `index` command stores the document but reports "Unknown error"
    (`Bulk.IndexActionResultDiscarded`, see "## Findings").
  - A failing `delete` still reports a delete entry
    (`Bulk.DeleteErrorOverwritten`).

## Findings

| source | as written | input that shows it | evidently intended | confidence | as-written member | corrected member |
|---|---|---|---|---|---|---|
| db/client.go:375 | the given id is formatted with the `%d` verb although it is a string, so the statement gets `%!d(string=…)` where the id belongs | any PUT with an explicit id of a new document, e.g. id "7" | the id as a quoted text literal, giving the row (id, document, 1) | not executed | DbModel.InsertStatementAsWrittenIsMalformed | DbModel.InsertDocumentID |
| api/bulk.go:84-94 | `:=` declares a new `documentObject` and `err` inside the `index` case, so the create or update result never reaches the code that builds the item | a one-command bulk body `{"index": {"_index": "i", "_type": "t", "_id": "1"}}` followed by a document line, for a document that does not exist yet | the result of the create or update is what the item reports | not executed | Bulk.IndexCommandAsWritten | Bulk.IndexActionReportsResult |

For the insert, the rest of the model uses the corrected behaviour:
`Db.Client.InsertDocumentID` inserts the row (id, document, 1), as
`DbModel.InsertDocumentID` describes.

For the bulk `index` action, the handler keeps the code as written.
`Bulk.BulkHandler` and its loop methods run the `AsWritten` variant. The
`Intended` variant of the same functions is the corrected definition, and
`Bulk.IndexActionReportsResult` proves the intended report about it.
