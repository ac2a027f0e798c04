/** The bulk endpoint of the server (api/bulk.go).  The body is split into
    lines; a command line is a JSON object whose keys are actions (`index`,
    `create`, `update`, `delete`) and whose values name the document; the
    line after an `index`, `create` or `update` command is the document and
    is skipped as a command.  Every key of a command line adds one item to
    the response. */
module Bulk {

  import opened Json
  import opened Errors
  import opened Request
  import M = DbModel
  import Db
  import Documents

  // ---------------------------------------------------------------------
  // Splitting the body into lines.
  // ---------------------------------------------------------------------

  const Newline := '\n'

  /** `strings.Split(s, "\n")`: the pieces between newlines, one more than
      there are newlines; the empty text is one empty piece. */
  function SplitLines(s: string): (parts: seq<string>)
    ensures |parts| >= 1
    ensures forall k :: 0 <= k < |parts| ==> Newline !in parts[k]
    decreases |s|
  {
    if Newline !in s then [s]
    else
      var k := FirstNewline(s);
      [s[..k]] + SplitLines(s[k + 1..])
  }

  function FirstNewline(s: string): (k: nat)
    requires Newline in s
    ensures k < |s| && s[k] == Newline && Newline !in s[..k]
  {
    if s[0] == Newline then 0
    else
      assert Newline in s[1..] by {
        var j :| 0 <= j < |s| && s[j] == Newline;
        assert s[1..][j - 1] == Newline;
      }
      var k := FirstNewline(s[1..]) + 1;
      assert s[..k] == [s[0]] + s[1..][..k - 1];
      k
  }

  /** The pieces put back together with newlines between them. */
  function JoinLines(parts: seq<string>): string
    requires |parts| >= 1
  {
    if |parts| == 1 then parts[0] else parts[0] + [Newline] + JoinLines(parts[1..])
  }

  /** Splitting loses nothing: joining the pieces gives the text back. */
  lemma {:induction false} JoinSplitLines(s: string)
    ensures JoinLines(SplitLines(s)) == s
    decreases |s|
  {
    if Newline in s {
      var k := FirstNewline(s);
      JoinSplitLines(s[k + 1..]);
      var parts := SplitLines(s);
      assert parts[1..] == SplitLines(s[k + 1..]);
      assert s == s[..k] + [Newline] + s[k + 1..];
    }
  }

  /** Pieces without newlines come back from a split of their join. */
  lemma {:induction false} SplitJoinLines(parts: seq<string>)
    requires |parts| >= 1
    requires forall k :: 0 <= k < |parts| ==> Newline !in parts[k]
    ensures SplitLines(JoinLines(parts)) == parts
    decreases |parts|
  {
    if |parts| > 1 {
      var rest := JoinLines(parts[1..]);
      assert JoinLines(parts) == parts[0] + [Newline] + rest;
      SplitAtFirstNewline(parts[0], rest);
      SplitJoinLines(parts[1..]);
    }
  }

  /** The first newline of `a + "\n" + rest`, for `a` without one, ends `a`. */
  lemma SplitAtFirstNewline(a: string, rest: string)
    requires Newline !in a
    ensures SplitLines(a + [Newline] + rest) == [a] + SplitLines(rest)
  {
    var s := a + [Newline] + rest;
    assert s[|a|] == Newline;
    var k := FirstNewline(s);
    assert s[..|a|] == a;
    assert k == |a|;
    assert s[k + 1..] == rest;
  }

  // ---------------------------------------------------------------------
  // The response.
  // ---------------------------------------------------------------------

  /** What an item holds under its key. */
  datatype ItemEntry =
    | PutEntry(put: Documents.PutResponse, status: int)
    | DeleteEntry(get: Documents.GetResponse, status: int)
    | ErrorEntry(error: BulkErrorResponse)

  /** One item: the command's key and its entry, or an empty map when the
      key is no action and no error is pending. */
  datatype Item = Item(key: string, entry: Option<ItemEntry>)

  /** The elapsed time (`took`) is not part of the model. */
  datatype BulkResponse = BulkResponse(errors: bool, items: seq<Item>)

  /** The per-item error envelope; shard and index UUID are always "1". */
  function ErrorEntryOf(err: ElasticError, indexName: string): ItemEntry
  {
    ErrorEntry(FormatBulkErrorResponse(NewElasticErrorBulk(err, indexName, "1", "1")))
  }

  const UnknownError := "Unknown error"
  const WrongFormat := "Wrong JSON format"

  // ---------------------------------------------------------------------
  // The loop, as functions.
  // ---------------------------------------------------------------------

  /** The code of the `index` action as written, where the action's result
      goes into variables that shadow the line's, and as evidently
      intended, where it is the result the item reports. */
  datatype Variant = AsWritten | Intended

  /** The loop variables besides the database: the document and error of
      the last action of the current line, the response so far, and
      whether the next line is a document. */
  datatype Carry = Carry(doc: Option<M.Document>, err: Option<ElasticError>, errors: bool, items: seq<Item>, skip: bool)

  /** After one key: go on with this state, or stop the request. */
  datatype Step = Next(db: M.Db, carry: Carry) | Stop(db: M.Db, reply: Reply<BulkResponse>)

  /** The document and error an action leaves behind. */
  function Outcome(carry: Carry, r: Result<Option<M.Document>>): Carry
  {
    match r
    case Ok(doc) => carry.(doc := doc, err := None)
    case Err(e) => carry.(doc := None, err := Some(e))
  }

  function Lift(r: Result<M.Document>): Result<Option<M.Document>>
  {
    match r
    case Ok(doc) => Ok(Some(doc))
    case Err(e) => Err(e)
  }

  predicate IsPutAction(key: string)
  {
    key == "index" || key == "create" || key == "update"
  }

  /** The first switch of the loop: the action named by `key` on the
      document `id`; the line after command line `i` is its text. */
  function Action(variant: Variant, lines: seq<string>, i: nat, key: string,
                  indexName: string, typeName: string, id: string, db: M.Db, carry: Carry): Step
    requires i < |lines|
  {
    if key == "index" then
      match M.GetDocument(db, indexName, typeName, id)
      case Err(e) => Stop(db, Failed(e))
      case Ok(found) =>
        if i + 1 >= |lines| then Stop(db, Panicked)
        else
          var (db1, r) := if found.None? then
                            var (db1, r) := M.CreateDocument(db, indexName, typeName, lines[i + 1], id); (db1, Lift(r))
                          else M.UpdateDocument(db, indexName, typeName, lines[i + 1], id);
          Next(db1, (if variant == AsWritten then carry else Outcome(carry, r)).(skip := true))
    else if key == "create" then
      if i + 1 >= |lines| then Stop(db, Panicked)
      else
        var (db1, r) := M.CreateDocument(db, indexName, typeName, lines[i + 1], id);
        Next(db1, Outcome(carry, Lift(r)).(skip := true))
    else if key == "update" then
      if i + 1 >= |lines| then Stop(db, Panicked)
      else
        var (db1, r) := M.UpdateDocument(db, indexName, typeName, lines[i + 1], id);
        Next(db1, Outcome(carry, r).(skip := true))
    else if key == "delete" then
      var (db1, r) := M.DeleteDocument(db, indexName, typeName, id);
      Next(db1, Outcome(carry, r))
    else Next(db, carry)
  }

  /** The second part of the loop body: a pending error is flagged and
      recorded; an action's response replaces it (a put response when there
      is a document, "Unknown error" when there is neither document nor
      error; a delete response always); the item is appended. */
  function Record(carry: Carry, key: string, indexName: string, typeName: string): Carry
  {
    var errors := carry.errors || carry.err.Some?;
    var pending := if carry.err.Some? then Some(ErrorEntryOf(carry.err.value, indexName)) else None;
    var (errors', entry) :=
      if IsPutAction(key) then
        if carry.doc.Some? then (errors, Some(PutEntry(Documents.PutResponseOf(indexName, typeName, carry.doc.value), 200)))
        else if carry.err.None? then (true, Some(ErrorEntryOf(NewInternalError(UnknownError), indexName)))
        else (errors, pending)
      else if key == "delete" then (errors, Some(DeleteEntry(Documents.GetResponseOf(indexName, typeName, carry.doc), 200)))
      else (errors, pending);
    carry.(errors := errors', items := carry.items + [Item(key, entry)])
  }

  /** One key of a command line.  Its value must be an object (otherwise
      the request fails) whose `_index`, `_type` and `_id` are strings
      (otherwise the type assertions panic). */
  function KeyStep(variant: Variant, lines: seq<string>, i: nat, key: string, value: Json, db: M.Db, carry: Carry): Step
    requires i < |lines|
  {
    if !value.JObject? then Stop(db, Failed(NewJSONWrongFormatError(WrongFormat)))
    else
      var indexField := Lookup(value.members, "_index");
      var typeField := Lookup(value.members, "_type");
      var idField := Lookup(value.members, "_id");
      if !(indexField.Some? && indexField.value.JString?) ||
         !(typeField.Some? && typeField.value.JString?) ||
         !(idField.Some? && idField.value.JString?) then Stop(db, Panicked)
      else
        var indexName := indexField.value.s;
        var typeName := typeField.value.s;
        match Action(variant, lines, i, key, indexName, typeName, idField.value.s, db, carry)
        case Stop(db1, reply) => Stop(db1, reply)
        case Next(db1, carry1) => Next(db1, Record(carry1, key, indexName, typeName))
  }

  /** The keys of one command line, in the order the map is visited. */
  function RunKeys(variant: Variant, lines: seq<string>, i: nat, ms: Members, db: M.Db, carry: Carry): Step
    requires i < |lines|
    decreases |ms|
  {
    if ms == [] then Next(db, carry)
    else match KeyStep(variant, lines, i, ms[0].0, ms[0].1, db, carry)
      case Stop(db1, reply) => Stop(db1, reply)
      case Next(db1, carry1) => RunKeys(variant, lines, i, ms[1..], db1, carry1)
  }

  /** The lines from `i` on.  A skipped or empty line only clears the skip
      flag; a line that does not decode, or decodes to something other
      than an object or null, fails the request; `null` has no keys.  Each
      command line starts with no document and no error. */
  function RunLines(variant: Variant, parse: string -> Parsed, db: M.Db, lines: seq<string>, i: nat,
                    errors: bool, items: seq<Item>, skip: bool): (M.Db, Reply<BulkResponse>)
    requires i <= |lines|
    decreases |lines| - i
  {
    if i == |lines| then (db, Done(BulkResponse(errors, items)))
    else if skip || lines[i] == "" then RunLines(variant, parse, db, lines, i + 1, errors, items, false)
    else match parse(lines[i])
      case Unparseable(message) => (db, Failed(NewJSONWrongFormatError(message)))
      case Parsed(v) =>
        if !v.JObject? && !v.JNull? then (db, Failed(NewJSONWrongFormatError(UnmarshalIntoMapMessage(v))))
        else match RunKeys(variant, lines, i, MembersOr(v), db, Carry(None, None, errors, items, false))
          case Stop(db1, reply) => (db1, reply)
          case Next(db1, carry) => RunLines(variant, parse, db1, lines, i + 1, carry.errors, carry.items, carry.skip)
  }

  function ProcessBulkQueryReply(variant: Variant, parse: string -> Parsed, db: M.Db, lines: seq<string>): (M.Db, Reply<BulkResponse>)
  {
    RunLines(variant, parse, db, lines, 0, false, [], false)
  }

  /** The bulk request, with the `index` action as written. */
  function BulkReply(parse: string -> Parsed, db: M.Db, body: Body): (M.Db, Reply<BulkResponse>)
  {
    match body
    case Unreadable(message) => (db, Failed(NewInternalIOError(message)))
    case Body(text) => ProcessBulkQueryReply(AsWritten, parse, db, SplitLines(text))
  }

  // ---------------------------------------------------------------------
  // The handler.
  // ---------------------------------------------------------------------

  /** One key of command line `i`. */
  method ProcessKey(c: Db.Client, lines: seq<string>, i: nat, key: string, value: Json, carry: Carry)
    returns (stop: Option<Reply<BulkResponse>>, carry': Carry)
    requires i < |lines|
    modifies c
    ensures KeyStep(AsWritten, lines, i, key, value, old(c.State()), carry) ==
              if stop.Some? then Stop(c.State(), stop.value) else Next(c.State(), carry')
    ensures old(c.Valid()) ==> c.Valid()
  {
    carry' := carry;
    if !value.JObject? {
      return Some(Failed(NewJSONWrongFormatError(WrongFormat))), carry;
    }
    var indexField := Lookup(value.members, "_index");
    var typeField := Lookup(value.members, "_type");
    var idField := Lookup(value.members, "_id");
    if !(indexField.Some? && indexField.value.JString?) ||
       !(typeField.Some? && typeField.value.JString?) ||
       !(idField.Some? && idField.value.JString?) {
      return Some(Panicked), carry;
    }
    var indexName, typeName, id := indexField.value.s, typeField.value.s, idField.value.s;
    var next := carry;
    if key == "index" {
      var found := c.GetDocument(indexName, typeName, id);
      if found.Err? {
        return Some(Failed(found.error)), carry;
      }
      if i + 1 >= |lines| {
        return Some(Panicked), carry;
      }
      // The results go into variables local to this branch.
      if found.value.None? {
        var created := c.CreateDocument(indexName, typeName, lines[i + 1], id);
      } else {
        var updated := c.UpdateDocument(indexName, typeName, lines[i + 1], id);
      }
      next := carry.(skip := true);
    } else if key == "create" {
      if i + 1 >= |lines| {
        return Some(Panicked), carry;
      }
      var created := c.CreateDocument(indexName, typeName, lines[i + 1], id);
      next := Outcome(carry, Lift(created)).(skip := true);
    } else if key == "update" {
      if i + 1 >= |lines| {
        return Some(Panicked), carry;
      }
      var updated := c.UpdateDocument(indexName, typeName, lines[i + 1], id);
      next := Outcome(carry, updated).(skip := true);
    } else if key == "delete" {
      var deleted := c.DeleteDocument(indexName, typeName, id);
      next := Outcome(carry, deleted);
    }
    stop := None;
    carry' := Record(next, key, indexName, typeName);
  }

  /** The keys of command line `i`, in order, until one stops the request. */
  method ProcessCommandLine(c: Db.Client, lines: seq<string>, i: nat, ms: Members, errors: bool, items: seq<Item>)
    returns (stop: Option<Reply<BulkResponse>>, carry: Carry)
    requires i < |lines|
    modifies c
    ensures RunKeys(AsWritten, lines, i, ms, old(c.State()), Carry(None, None, errors, items, false)) ==
              if stop.Some? then Stop(c.State(), stop.value) else Next(c.State(), carry)
    ensures old(c.Valid()) ==> c.Valid()
  {
    carry := Carry(None, None, errors, items, false);
    for j := 0 to |ms|
      invariant RunKeys(AsWritten, lines, i, ms, old(c.State()), Carry(None, None, errors, items, false)) ==
                RunKeys(AsWritten, lines, i, ms[j..], c.State(), carry)
      invariant old(c.Valid()) ==> c.Valid()
    {
      assert ms[j..][1..] == ms[j + 1..];
      var stop1, carry1 := ProcessKey(c, lines, i, ms[j].0, ms[j].1, carry);
      if stop1.Some? {
        return stop1, carry;
      }
      carry := carry1;
    }
    assert ms[|ms|..] == [];
    stop := None;
  }

  method ProcessBulkQuery(c: Db.Client, lines: seq<string>, parse: string -> Parsed) returns (reply: Reply<BulkResponse>)
    modifies c
    ensures (c.State(), reply) == ProcessBulkQueryReply(AsWritten, parse, old(c.State()), lines)
    ensures old(c.Valid()) ==> c.Valid()
  {
    var errors, items, skip := false, [], false;
    for i := 0 to |lines|
      invariant ProcessBulkQueryReply(AsWritten, parse, old(c.State()), lines) ==
                RunLines(AsWritten, parse, c.State(), lines, i, errors, items, skip)
      invariant old(c.Valid()) ==> c.Valid()
    {
      if skip || lines[i] == "" {
        skip := false;
      } else {
        var parsed := parse(lines[i]);
        if parsed.Unparseable? {
          return Failed(NewJSONWrongFormatError(parsed.message));
        }
        var v := parsed.value;
        if !v.JObject? && !v.JNull? {
          return Failed(NewJSONWrongFormatError(UnmarshalIntoMapMessage(v)));
        }
        var stop, carry := ProcessCommandLine(c, lines, i, MembersOr(v), errors, items);
        if stop.Some? {
          return stop.value;
        }
        errors, items, skip := carry.errors, carry.items, carry.skip;
      }
    }
    reply := Done(BulkResponse(errors, items));
  }

  method BulkHandler(c: Db.Client, body: Body, parse: string -> Parsed) returns (reply: Reply<BulkResponse>)
    modifies c
    ensures (c.State(), reply) == BulkReply(parse, old(c.State()), body)
    ensures old(c.Valid()) ==> c.Valid()
  {
    if body.Unreadable? {
      return Failed(NewInternalIOError(body.message));
    }
    reply := ProcessBulkQuery(c, SplitLines(body.text), parse);
  }

  // ---------------------------------------------------------------------
  // Properties.
  // ---------------------------------------------------------------------

  /** The value of an action key naming document `id` of a type. */
  function Descriptor(indexName: string, typeName: string, id: string): Json
  {
    JObject([("_index", JString(indexName)), ("_type", JString(typeName)), ("_id", JString(id))])
  }

  lemma DescriptorFields(indexName: string, typeName: string, id: string)
    ensures var ms := Descriptor(indexName, typeName, id).members;
            Lookup(ms, "_index") == Some(JString(indexName)) &&
            Lookup(ms, "_type") == Some(JString(typeName)) &&
            Lookup(ms, "_id") == Some(JString(id))
  {
    var ms := Descriptor(indexName, typeName, id).members;
    LookupFirst(ms, "_index", 0);
    LookupFirst(ms, "_type", 1);
    LookupFirst(ms, "_id", 2);
  }

  /** One key whose value is a descriptor: the action, then its record. */
  lemma KeyStepOfDescriptor(variant: Variant, lines: seq<string>, i: nat, key: string,
                            indexName: string, typeName: string, id: string, db: M.Db, carry: Carry)
    requires i < |lines|
    ensures var a := Action(variant, lines, i, key, indexName, typeName, id, db, carry);
            KeyStep(variant, lines, i, key, Descriptor(indexName, typeName, id), db, carry) ==
              if a.Stop? then a else Next(a.db, Record(a.carry, key, indexName, typeName))
  {
    DescriptorFields(indexName, typeName, id);
  }

  /** A command line holding one key, followed by the line after it. */
  lemma OneCommandLine(variant: Variant, parse: string -> Parsed, db: M.Db, lines: seq<string>, key: string, value: Json)
    requires |lines| > 0 && lines[0] != ""
    requires parse(lines[0]) == Parsed(JObject([(key, value)]))
    ensures var step := KeyStep(variant, lines, 0, key, value, db, Carry(None, None, false, [], false));
            ProcessBulkQueryReply(variant, parse, db, lines) ==
              if step.Stop? then (step.db, step.reply)
              else RunLines(variant, parse, step.db, lines, 1, step.carry.errors, step.carry.items, step.carry.skip)
  {
    var ms := [(key, value)];
    var carry0 := Carry(None, None, false, [], false);
    assert MembersOr(JObject(ms)) == ms;
    var step := KeyStep(variant, lines, 0, key, value, db, carry0);
    assert ms[1..] == [];
    assert RunKeys(variant, lines, 0, ms, db, carry0) == step;
  }

  /** A skipped last line ends the request. */
  lemma SkippedLastLine(variant: Variant, parse: string -> Parsed, db: M.Db, lines: seq<string>, errors: bool, items: seq<Item>)
    requires |lines| == 2
    ensures RunLines(variant, parse, db, lines, 1, errors, items, true) == (db, Done(BulkResponse(errors, items)))
  {
  }

  /** Some key of the command line is an `index`, `create` or `update`. */
  predicate HasPutAction(ms: Members)
  {
    exists k :: 0 <= k < |ms| && IsPutAction(ms[k].0)
  }

  /** A key that does not stop the request sets the skip flag exactly when
      it is an `index`, `create` or `update`; such a key has a line after
      its command line. */
  lemma KeyStepSkip(variant: Variant, lines: seq<string>, i: nat, key: string, value: Json, db: M.Db, carry: Carry)
    requires i < |lines|
    ensures var step := KeyStep(variant, lines, i, key, value, db, carry);
            step.Next? ==> step.carry.skip == (carry.skip || IsPutAction(key)) &&
                           (IsPutAction(key) ==> i + 1 < |lines|)
  {
  }

  /** After the keys of a command line, the skip flag is set exactly when
      one of them is an `index`, `create` or `update`. */
  lemma {:induction false} RunKeysSkip(variant: Variant, lines: seq<string>, i: nat, ms: Members, db: M.Db, carry: Carry)
    requires i < |lines|
    ensures var step := RunKeys(variant, lines, i, ms, db, carry);
            step.Next? ==> step.carry.skip == (carry.skip || HasPutAction(ms)) &&
                           (HasPutAction(ms) ==> i + 1 < |lines|)
    decreases |ms|
  {
    if ms != [] {
      KeyStepSkip(variant, lines, i, ms[0].0, ms[0].1, db, carry);
      var step := KeyStep(variant, lines, i, ms[0].0, ms[0].1, db, carry);
      if step.Next? {
        RunKeysSkip(variant, lines, i, ms[1..], step.db, step.carry);
        assert HasPutAction(ms) <==> IsPutAction(ms[0].0) || HasPutAction(ms[1..]) by {
          if HasPutAction(ms[1..]) {
            var k :| 0 <= k < |ms[1..]| && IsPutAction(ms[1..][k].0);
            assert ms[k + 1] == ms[1..][k];
          }
          if HasPutAction(ms) && !IsPutAction(ms[0].0) {
            var k :| 0 <= k < |ms| && IsPutAction(ms[k].0);
            assert ms[1..][k - 1] == ms[k];
          }
        }
      }
    }
  }

  /** The line after a command line with an `index`, `create` or `update`
      key is never read as a command, whatever it holds: the request goes on
      at the line after it. */
  lemma DocumentLineSkipped(variant: Variant, parse: string -> Parsed, db: M.Db, lines: seq<string>, i: nat,
                            ms: Members, errors: bool, items: seq<Item>)
    requires i < |lines| && lines[i] != ""
    requires parse(lines[i]) == Parsed(JObject(ms))
    requires HasPutAction(ms)
    ensures var step := RunKeys(variant, lines, i, ms, db, Carry(None, None, errors, items, false));
            step.Next? ==>
              i + 2 <= |lines| &&
              RunLines(variant, parse, db, lines, i, errors, items, false) ==
                RunLines(variant, parse, step.db, lines, i + 2, step.carry.errors, step.carry.items, false)
  {
    var carry0 := Carry(None, None, errors, items, false);
    assert MembersOr(JObject(ms)) == ms;
    RunKeysSkip(variant, lines, i, ms, db, carry0);
  }

  /** A command line whose keys are all `delete` (or no action) consumes no
      extra line: the next line is read as a command. */
  lemma DeleteConsumesNoLine(variant: Variant, parse: string -> Parsed, db: M.Db, lines: seq<string>, i: nat,
                             ms: Members, errors: bool, items: seq<Item>)
    requires i < |lines| && lines[i] != ""
    requires parse(lines[i]) == Parsed(JObject(ms))
    requires !HasPutAction(ms)
    ensures var step := RunKeys(variant, lines, i, ms, db, Carry(None, None, errors, items, false));
            step.Next? ==>
              RunLines(variant, parse, db, lines, i, errors, items, false) ==
                RunLines(variant, parse, step.db, lines, i + 1, step.carry.errors, step.carry.items, false)
  {
    var carry0 := Carry(None, None, errors, items, false);
    assert MembersOr(JObject(ms)) == ms;
    RunKeysSkip(variant, lines, i, ms, db, carry0);
  }

  /** The `index` action on a document that does not exist creates it. */
  lemma IndexActionCreates(variant: Variant, lines: seq<string>, i: nat,
                           indexName: string, typeName: string, id: string, db: M.Db, carry: Carry)
    requires i + 1 < |lines|
    requires M.GetDocument(db, indexName, typeName, id) == Ok(None)
    ensures var (db1, r) := M.CreateDocument(db, indexName, typeName, lines[i + 1], id);
            Action(variant, lines, i, "index", indexName, typeName, id, db, carry) ==
              Next(db1, (if variant == AsWritten then carry else Outcome(carry, Lift(r))).(skip := true))
  {
  }

  /** For `index`, a failing lookup of the document aborts the whole request
      with that error, before anything is stored. */
  lemma IndexLookupFailureAborts(variant: Variant, parse: string -> Parsed, db: M.Db, lines: seq<string>,
                                 indexName: string, typeName: string, id: string)
    requires |lines| > 0 && lines[0] != ""
    requires parse(lines[0]) == Parsed(JObject([("index", Descriptor(indexName, typeName, id))]))
    requires M.GetDocument(db, indexName, typeName, id).Err?
    ensures ProcessBulkQueryReply(variant, parse, db, lines) == (db, Failed(M.GetDocument(db, indexName, typeName, id).error))
  {
    var carry0 := Carry(None, None, false, [], false);
    OneCommandLine(variant, parse, db, lines, "index", Descriptor(indexName, typeName, id));
    KeyStepOfDescriptor(variant, lines, 0, "index", indexName, typeName, id, db, carry0);
  }

  /** The store after an `index` action whose lookup succeeded: the document
      is created when absent and updated when present. */
  function IndexedDb(db: M.Db, indexName: string, typeName: string, id: string, text: string): M.Db
    requires M.GetDocument(db, indexName, typeName, id).Ok?
  {
    if M.GetDocument(db, indexName, typeName, id).value.None? then M.CreateDocument(db, indexName, typeName, text, id).0
    else M.UpdateDocument(db, indexName, typeName, text, id).0
  }

  /** The item the `index` action records as written. */
  function UnknownErrorItem(indexName: string): Item
  {
    Item("index", Some(ErrorEntryOf(NewInternalError(UnknownError), indexName)))
  }

  /** As written, every `index` key whose lookup succeeds stores the document
      (created or updated) but records "Unknown error" and flags the
      response, whatever the create or update returned: the result lands in
      the variables the branch declares, and the item sees the line's, which
      hold neither document nor error for the first key of a line. */
  lemma IndexActionResultDiscarded(lines: seq<string>, i: nat, indexName: string, typeName: string, id: string,
                                   db: M.Db, carry: Carry)
    requires i + 1 < |lines|
    requires M.GetDocument(db, indexName, typeName, id).Ok?
    requires carry.doc.None? && carry.err.None?
    ensures KeyStep(AsWritten, lines, i, "index", Descriptor(indexName, typeName, id), db, carry) ==
              Next(IndexedDb(db, indexName, typeName, id, lines[i + 1]),
                   carry.(errors := true, items := carry.items + [UnknownErrorItem(indexName)], skip := true))
  {
    KeyStepOfDescriptor(AsWritten, lines, i, "index", indexName, typeName, id, db, carry);
  }

  /** As written, a request that starts with one `index` command stores the
      document, records "Unknown error" with `errors: true`, skips the
      document line and goes on after it. */
  lemma IndexCommandAsWritten(parse: string -> Parsed, db: M.Db, lines: seq<string>,
                              indexName: string, typeName: string, id: string)
    requires |lines| >= 2 && lines[0] != ""
    requires parse(lines[0]) == Parsed(JObject([("index", Descriptor(indexName, typeName, id))]))
    requires M.GetDocument(db, indexName, typeName, id).Ok?
    ensures ProcessBulkQueryReply(AsWritten, parse, db, lines) ==
              RunLines(AsWritten, parse, IndexedDb(db, indexName, typeName, id, lines[1]), lines, 2,
                       true, [UnknownErrorItem(indexName)], false)
    ensures |lines| == 2 ==>
              ProcessBulkQueryReply(AsWritten, parse, db, lines) ==
                (IndexedDb(db, indexName, typeName, id, lines[1]), Done(BulkResponse(true, [UnknownErrorItem(indexName)])))
  {
    var ms := [("index", Descriptor(indexName, typeName, id))];
    IndexLine(lines, indexName, typeName, id, db);
    assert HasPutAction(ms) by {
      assert IsPutAction(ms[0].0);
    }
    CommandLineThenSkip(AsWritten, parse, db, lines, ms, IndexedDb(db, indexName, typeName, id, lines[1]),
                        Carry(None, None, true, [UnknownErrorItem(indexName)], true));
  }

  /** A first command line whose keys end in `carry` with the skip flag set
      hands over to the line after next. */
  lemma CommandLineThenSkip(variant: Variant, parse: string -> Parsed, db: M.Db, lines: seq<string>, ms: Members,
                            db1: M.Db, carry: Carry)
    requires |lines| >= 2 && lines[0] != ""
    requires parse(lines[0]) == Parsed(JObject(ms))
    requires HasPutAction(ms)
    requires RunKeys(variant, lines, 0, ms, db, Carry(None, None, false, [], false)) == Next(db1, carry)
    ensures ProcessBulkQueryReply(variant, parse, db, lines) ==
              RunLines(variant, parse, db1, lines, 2, carry.errors, carry.items, false)
  {
    DocumentLineSkipped(variant, parse, db, lines, 0, ms, false, []);
  }

  /** The keys of a command line holding one `index` key. */
  lemma IndexLine(lines: seq<string>, indexName: string, typeName: string, id: string, db: M.Db)
    requires |lines| >= 2
    requires M.GetDocument(db, indexName, typeName, id).Ok?
    ensures RunKeys(AsWritten, lines, 0, [("index", Descriptor(indexName, typeName, id))], db, Carry(None, None, false, [], false)) ==
              Next(IndexedDb(db, indexName, typeName, id, lines[1]), Carry(None, None, true, [UnknownErrorItem(indexName)], true))
  {
    var ms := [("index", Descriptor(indexName, typeName, id))];
    var carry0 := Carry(None, None, false, [], false);
    IndexActionResultDiscarded(lines, 0, indexName, typeName, id, db, carry0);
    assert ms[1..] == [];
  }

  /** As intended, the same command reports the stored document with
      status 200 and does not flag the response. */
  lemma IndexActionReportsResult(parse: string -> Parsed, db: M.Db, lines: seq<string>,
                                 indexName: string, typeName: string, id: string)
    requires |lines| == 2 && lines[0] != ""
    requires parse(lines[0]) == Parsed(JObject([("index", Descriptor(indexName, typeName, id))]))
    requires M.GetDocument(db, indexName, typeName, id) == Ok(None)
    requires M.CreateDocument(db, indexName, typeName, lines[1], id).1.Ok?
    ensures var (db', r) := M.CreateDocument(db, indexName, typeName, lines[1], id);
            ProcessBulkQueryReply(Intended, parse, db, lines) ==
              (db', Done(BulkResponse(false, [Item("index", Some(PutEntry(Documents.PutResponseOf(indexName, typeName, r.value), 200)))])))
  {
    var carry0 := Carry(None, None, false, [], false);
    OneCommandLine(Intended, parse, db, lines, "index", Descriptor(indexName, typeName, id));
    KeyStepOfDescriptor(Intended, lines, 0, "index", indexName, typeName, id, db, carry0);
    IndexActionCreates(Intended, lines, 0, indexName, typeName, id, db, carry0);
    var (db1, r) := M.CreateDocument(db, indexName, typeName, lines[1], id);
    var carry1 := Record(Outcome(carry0, Lift(r)).(skip := true), "index", indexName, typeName);
    assert carry1 == Carry(Some(r.value), None, false, [Item("index", Some(PutEntry(Documents.PutResponseOf(indexName, typeName, r.value), 200)))], true);
    SkippedLastLine(Intended, parse, db1, lines, carry1.errors, carry1.items);
  }

  /** A `create` command reports the created document, or the error under
      the command's key (flagging the response); either way the store keeps
      what the creation did. */
  lemma CreateActionReports(variant: Variant, parse: string -> Parsed, db: M.Db, lines: seq<string>,
                            indexName: string, typeName: string, id: string)
    requires |lines| == 2 && lines[0] != ""
    requires parse(lines[0]) == Parsed(JObject([("create", Descriptor(indexName, typeName, id))]))
    ensures var (db', r) := M.CreateDocument(db, indexName, typeName, lines[1], id);
            ProcessBulkQueryReply(variant, parse, db, lines) ==
              (db', Done(if r.Ok? then BulkResponse(false, [Item("create", Some(PutEntry(Documents.PutResponseOf(indexName, typeName, r.value), 200)))])
                         else BulkResponse(true, [Item("create", Some(ErrorEntryOf(r.error, indexName)))])))
  {
    var carry0 := Carry(None, None, false, [], false);
    OneCommandLine(variant, parse, db, lines, "create", Descriptor(indexName, typeName, id));
    KeyStepOfDescriptor(variant, lines, 0, "create", indexName, typeName, id, db, carry0);
    var (db1, r) := M.CreateDocument(db, indexName, typeName, lines[1], id);
    var carry1 := Record(Outcome(carry0, Lift(r)).(skip := true), "create", indexName, typeName);
    if r.Ok? {
      assert carry1.errors == false && carry1.items == [Item("create", Some(PutEntry(Documents.PutResponseOf(indexName, typeName, r.value), 200)))];
    } else {
      assert carry1.errors == true && carry1.items == [Item("create", Some(ErrorEntryOf(r.error, indexName)))];
    }
    SkippedLastLine(variant, parse, db1, lines, carry1.errors, carry1.items);
  }

  /** A failing `delete` flags the response, but its error entry is
      overwritten by the delete response, which reports the document as not
      found. */
  lemma DeleteErrorOverwritten(variant: Variant, parse: string -> Parsed, db: M.Db, lines: seq<string>,
                               indexName: string, typeName: string, id: string)
    requires |lines| == 1 && lines[0] != ""
    requires parse(lines[0]) == Parsed(JObject([("delete", Descriptor(indexName, typeName, id))]))
    requires M.DeleteDocument(db, indexName, typeName, id).1.Err?
    ensures ProcessBulkQueryReply(variant, parse, db, lines) ==
              (M.DeleteDocument(db, indexName, typeName, id).0,
               Done(BulkResponse(true, [Item("delete", Some(DeleteEntry(Documents.GetResponse(indexName, typeName, "", 0, false, None), 200)))])))
  {
    var carry0 := Carry(None, None, false, [], false);
    OneCommandLine(variant, parse, db, lines, "delete", Descriptor(indexName, typeName, id));
    KeyStepOfDescriptor(variant, lines, 0, "delete", indexName, typeName, id, db, carry0);
    var (db1, r) := M.DeleteDocument(db, indexName, typeName, id);
    var carry1 := Record(Outcome(carry0, r), "delete", indexName, typeName);
    assert carry1.errors && carry1.items == [Item("delete", Some(DeleteEntry(Documents.GetResponse(indexName, typeName, "", 0, false, None), 200)))];
  }

  /** An `update` command reports the re-read document; a failed update
      reports its error and a re-read that found nothing "Unknown error",
      both flagging the response. */
  lemma UpdateActionReports(variant: Variant, parse: string -> Parsed, db: M.Db, lines: seq<string>,
                            indexName: string, typeName: string, id: string)
    requires |lines| == 2 && lines[0] != ""
    requires parse(lines[0]) == Parsed(JObject([("update", Descriptor(indexName, typeName, id))]))
    ensures var (db', r) := M.UpdateDocument(db, indexName, typeName, lines[1], id);
            ProcessBulkQueryReply(variant, parse, db, lines) ==
              (db', Done(if r.Err? then BulkResponse(true, [Item("update", Some(ErrorEntryOf(r.error, indexName)))])
                         else if r.value.None? then BulkResponse(true, [Item("update", Some(ErrorEntryOf(NewInternalError(UnknownError), indexName)))])
                         else BulkResponse(false, [Item("update", Some(PutEntry(Documents.PutResponseOf(indexName, typeName, r.value.value), 200)))])))
  {
    var carry0 := Carry(None, None, false, [], false);
    OneCommandLine(variant, parse, db, lines, "update", Descriptor(indexName, typeName, id));
    KeyStepOfDescriptor(variant, lines, 0, "update", indexName, typeName, id, db, carry0);
    var (db1, r) := M.UpdateDocument(db, indexName, typeName, lines[1], id);
    var carry1 := Record(Outcome(carry0, r).(skip := true), "update", indexName, typeName);
    UpdateRecord(r, indexName, typeName);
    SkippedLastLine(variant, parse, db1, lines, carry1.errors, carry1.items);
  }

  /** The item an `update` on a fresh command line records. */
  lemma UpdateRecord(r: Result<Option<M.Document>>, indexName: string, typeName: string)
    ensures var carry1 := Record(Outcome(Carry(None, None, false, [], false), r).(skip := true), "update", indexName, typeName);
            carry1.errors == (r.Err? || r.value.None?) &&
            carry1.items == [Item("update", Some(if r.Err? then ErrorEntryOf(r.error, indexName)
                                                 else if r.value.None? then ErrorEntryOf(NewInternalError(UnknownError), indexName)
                                                 else PutEntry(Documents.PutResponseOf(indexName, typeName, r.value.value), 200)))]
  {
  }

  /** A key that names no action, with no error pending, adds an empty item
      and touches nothing. */
  lemma UnknownKeyAddsEmptyItem(variant: Variant, parse: string -> Parsed, db: M.Db, lines: seq<string>, key: string,
                                indexName: string, typeName: string, id: string)
    requires |lines| == 1 && lines[0] != ""
    requires !IsPutAction(key) && key != "delete"
    requires parse(lines[0]) == Parsed(JObject([(key, Descriptor(indexName, typeName, id))]))
    ensures ProcessBulkQueryReply(variant, parse, db, lines) == (db, Done(BulkResponse(false, [Item(key, None)])))
  {
    var carry0 := Carry(None, None, false, [], false);
    OneCommandLine(variant, parse, db, lines, key, Descriptor(indexName, typeName, id));
    KeyStepOfDescriptor(variant, lines, 0, key, indexName, typeName, id, db, carry0);
    assert Action(variant, lines, 0, key, indexName, typeName, id, db, carry0) == Next(db, carry0);
    assert Record(carry0, key, indexName, typeName) == Carry(None, None, false, [Item(key, None)], false);
  }

  /** A command line that does not decode, or an action whose value is not
      an object, fails the whole request with json_parse_exception. */
  lemma MalformedCommandLine(variant: Variant, parse: string -> Parsed, db: M.Db, lines: seq<string>, key: string, value: Json)
    requires |lines| > 0 && lines[0] != ""
    ensures parse(lines[0]).Unparseable? ==>
              ProcessBulkQueryReply(variant, parse, db, lines) == (db, Failed(JSONWrongFormatError(parse(lines[0]).message)))
    ensures parse(lines[0]) == Parsed(JObject([(key, value)])) && !value.JObject? ==>
              ProcessBulkQueryReply(variant, parse, db, lines) == (db, Failed(JSONWrongFormatError(WrongFormat)))
  {
  }

  /** A `create` or `update` command on the last line has no document line
      to read: indexing past the end panics before the store is touched. */
  lemma ActionWithoutDocumentLine(variant: Variant, parse: string -> Parsed, db: M.Db, lines: seq<string>, key: string,
                                  indexName: string, typeName: string, id: string)
    requires |lines| == 1 && lines[0] != ""
    requires key == "create" || key == "update"
    requires parse(lines[0]) == Parsed(JObject([(key, Descriptor(indexName, typeName, id))]))
    ensures ProcessBulkQueryReply(variant, parse, db, lines) == (db, Panicked)
  {
    var carry0 := Carry(None, None, false, [], false);
    OneCommandLine(variant, parse, db, lines, key, Descriptor(indexName, typeName, id));
    KeyStepOfDescriptor(variant, lines, 0, key, indexName, typeName, id, db, carry0);
  }

  /** An action whose value lacks `_index` panics on the type assertion. */
  lemma DescriptorWithoutIndex(variant: Variant, parse: string -> Parsed, db: M.Db, lines: seq<string>,
                               key: string, ms: Members)
    requires |lines| > 0 && lines[0] != ""
    requires parse(lines[0]) == Parsed(JObject([(key, JObject(ms))]))
    requires forall n :: 0 <= n < |ms| ==> ms[n].0 != "_index"
    ensures ProcessBulkQueryReply(variant, parse, db, lines) == (db, Panicked)
  {
  }

  /** A request of empty lines changes nothing and has no item. */
  lemma BlankLines(variant: Variant, parse: string -> Parsed, db: M.Db, lines: seq<string>)
    requires forall k :: 0 <= k < |lines| ==> lines[k] == ""
    ensures ProcessBulkQueryReply(variant, parse, db, lines) == (db, Done(BulkResponse(false, [])))
  {
    BlankLinesFrom(variant, parse, db, lines, 0, false, [], false);
  }

  lemma {:induction false} BlankLinesFrom(variant: Variant, parse: string -> Parsed, db: M.Db, lines: seq<string>,
                                          i: nat, errors: bool, items: seq<Item>, skip: bool)
    requires i <= |lines|
    requires forall k :: i <= k < |lines| ==> lines[k] == ""
    ensures RunLines(variant, parse, db, lines, i, errors, items, skip) == (db, Done(BulkResponse(errors, items)))
    decreases |lines| - i
  {
    if i < |lines| {
      BlankLinesFrom(variant, parse, db, lines, i + 1, errors, items, false);
    }
  }

  /** No error entry without the `errors` flag. */
  predicate Flagged(errors: bool, items: seq<Item>)
  {
    errors || forall k :: 0 <= k < |items| ==> !(items[k].entry.Some? && items[k].entry.value.ErrorEntry?)
  }

  lemma RecordFlags(carry: Carry, key: string, indexName: string, typeName: string)
    requires Flagged(carry.errors, carry.items)
    ensures var carry' := Record(carry, key, indexName, typeName);
            Flagged(carry'.errors, carry'.items)
  {
  }

  /** An action changes only the document, the error and the skip flag. */
  lemma ActionKeepsResponse(variant: Variant, lines: seq<string>, i: nat, key: string,
                            indexName: string, typeName: string, id: string, db: M.Db, carry: Carry)
    requires i < |lines|
    ensures var a := Action(variant, lines, i, key, indexName, typeName, id, db, carry);
            (a.Next? ==> a.carry.errors == carry.errors && a.carry.items == carry.items) &&
            (a.Stop? ==> !a.reply.Done?)
  {
  }

  lemma KeyStepFlags(variant: Variant, lines: seq<string>, i: nat, key: string, value: Json, db: M.Db, carry: Carry)
    requires i < |lines|
    requires Flagged(carry.errors, carry.items)
    ensures var step := KeyStep(variant, lines, i, key, value, db, carry);
            (step.Next? ==> Flagged(step.carry.errors, step.carry.items)) && (step.Stop? ==> !step.reply.Done?)
  {
    if value.JObject? {
      var indexField := Lookup(value.members, "_index");
      var typeField := Lookup(value.members, "_type");
      var idField := Lookup(value.members, "_id");
      if indexField.Some? && indexField.value.JString? && typeField.Some? && typeField.value.JString? &&
         idField.Some? && idField.value.JString? {
        var a := Action(variant, lines, i, key, indexField.value.s, typeField.value.s, idField.value.s, db, carry);
        ActionKeepsResponse(variant, lines, i, key, indexField.value.s, typeField.value.s, idField.value.s, db, carry);
        if a.Next? {
          RecordFlags(a.carry, key, indexField.value.s, typeField.value.s);
        }
      }
    }
  }

  lemma {:induction false} RunKeysFlags(variant: Variant, lines: seq<string>, i: nat, ms: Members, db: M.Db, carry: Carry)
    requires i < |lines|
    requires Flagged(carry.errors, carry.items)
    ensures var step := RunKeys(variant, lines, i, ms, db, carry);
            (step.Next? ==> Flagged(step.carry.errors, step.carry.items)) && (step.Stop? ==> !step.reply.Done?)
    decreases |ms|
  {
    if ms != [] {
      KeyStepFlags(variant, lines, i, ms[0].0, ms[0].1, db, carry);
      var step := KeyStep(variant, lines, i, ms[0].0, ms[0].1, db, carry);
      if step.Next? {
        RunKeysFlags(variant, lines, i, ms[1..], step.db, step.carry);
      }
    }
  }

  lemma {:induction false} RunLinesFlags(variant: Variant, parse: string -> Parsed, db: M.Db, lines: seq<string>,
                                         i: nat, errors: bool, items: seq<Item>, skip: bool)
    requires i <= |lines|
    requires Flagged(errors, items)
    ensures var (_, reply) := RunLines(variant, parse, db, lines, i, errors, items, skip);
            reply.Done? ==> Flagged(reply.value.errors, reply.value.items)
    decreases |lines| - i
  {
    if i < |lines| {
      if skip || lines[i] == "" {
        RunLinesFlags(variant, parse, db, lines, i + 1, errors, items, false);
      } else if parse(lines[i]).Parsed? {
        var v := parse(lines[i]).value;
        if v.JObject? || v.JNull? {
          var carry0 := Carry(None, None, errors, items, false);
          RunKeysFlags(variant, lines, i, MembersOr(v), db, carry0);
          var step := RunKeys(variant, lines, i, MembersOr(v), db, carry0);
          if step.Next? {
            assert RunLines(variant, parse, db, lines, i, errors, items, skip) ==
                   RunLines(variant, parse, step.db, lines, i + 1, step.carry.errors, step.carry.items, step.carry.skip);
            RunLinesFlags(variant, parse, step.db, lines, i + 1, step.carry.errors, step.carry.items, step.carry.skip);
          }
        }
      }
    }
  }

  /** Whenever an item of the response is an error envelope, the response
      says `errors: true`. */
  lemma ErrorItemsAreFlagged(variant: Variant, parse: string -> Parsed, db: M.Db, lines: seq<string>)
    ensures var (_, reply) := ProcessBulkQueryReply(variant, parse, db, lines);
            reply.Done? ==> Flagged(reply.value.errors, reply.value.items)
  {
    RunLinesFlags(variant, parse, db, lines, 0, false, [], false);
  }

  /** A key that does not stop the request appends exactly one item, under
      that key, after the items so far. */
  lemma KeyStepAppendsItem(variant: Variant, lines: seq<string>, i: nat, key: string, value: Json, db: M.Db, carry: Carry)
    requires i < |lines|
    ensures var step := KeyStep(variant, lines, i, key, value, db, carry);
            step.Next? ==> |step.carry.items| == |carry.items| + 1 &&
                           step.carry.items[..|carry.items|] == carry.items &&
                           step.carry.items[|carry.items|].key == key
  {
    if value.JObject? {
      var indexField := Lookup(value.members, "_index");
      var typeField := Lookup(value.members, "_type");
      var idField := Lookup(value.members, "_id");
      if indexField.Some? && indexField.value.JString? && typeField.Some? && typeField.value.JString? &&
         idField.Some? && idField.value.JString? {
        ActionKeepsResponse(variant, lines, i, key, indexField.value.s, typeField.value.s, idField.value.s, db, carry);
      }
    }
  }

  /** The keys of a sequence of items, in order. */
  function KeysOf(items: seq<Item>): (r: seq<string>)
    ensures |r| == |items|
  {
    if items == [] then [] else KeysOf(items[..|items| - 1]) + [items[|items| - 1].key]
  }

  /** The keys of the members of a command line, in order. */
  function ActionKeys(ms: Members): (r: seq<string>)
    ensures |r| == |ms|
  {
    if ms == [] then [] else [ms[0].0] + ActionKeys(ms[1..])
  }

  /** The keys of a command line add one item each, in the order they are
      visited, after the items of the lines before. */
  lemma {:induction false} RunKeysAppendsItems(variant: Variant, lines: seq<string>, i: nat, ms: Members, db: M.Db, carry: Carry)
    requires i < |lines|
    ensures var step := RunKeys(variant, lines, i, ms, db, carry);
            step.Next? ==> |step.carry.items| == |carry.items| + |ms| &&
                           step.carry.items[..|carry.items|] == carry.items &&
                           KeysOf(step.carry.items) == KeysOf(carry.items) + ActionKeys(ms)
    decreases |ms|
  {
    if ms != [] {
      KeyStepAppendsItem(variant, lines, i, ms[0].0, ms[0].1, db, carry);
      var step := KeyStep(variant, lines, i, ms[0].0, ms[0].1, db, carry);
      if step.Next? {
        RunKeysAppendsItems(variant, lines, i, ms[1..], step.db, step.carry);
        var last := RunKeys(variant, lines, i, ms[1..], step.db, step.carry);
        if last.Next? {
          AppendKeys(carry.items, step.carry.items, last.carry.items, ms[0].0, ActionKeys(ms[1..]));
        }
      }
    }
  }

  /** One item under `key`, then items with keys `rest`. */
  lemma AppendKeys(before: seq<Item>, mid: seq<Item>, out: seq<Item>, key: string, rest: seq<string>)
    requires |mid| == |before| + 1 && mid[..|before|] == before && mid[|before|].key == key
    requires |out| == |mid| + |rest| && out[..|mid|] == mid && KeysOf(out) == KeysOf(mid) + rest
    ensures |out| == |before| + 1 + |rest| && out[..|before|] == before
    ensures KeysOf(out) == KeysOf(before) + ([key] + rest)
  {
    assert mid == before + [mid[|before|]];
    KeysOfSnoc(before, mid[|before|]);
    PrefixOfPrefix(out, mid, before);
    ConcatAssoc(KeysOf(before), [key], rest);
  }

  lemma PrefixOfPrefix(out: seq<Item>, mid: seq<Item>, before: seq<Item>)
    requires |before| <= |mid| <= |out| && out[..|mid|] == mid && mid[..|before|] == before
    ensures out[..|before|] == before
  {
    assert out[..|before|] == out[..|mid|][..|before|];
  }

  lemma ConcatAssoc(a: seq<string>, b: seq<string>, c: seq<string>)
    ensures a + b + c == a + (b + c)
  {
  }

  lemma KeysOfSnoc(xs: seq<Item>, x: Item)
    ensures KeysOf(xs + [x]) == KeysOf(xs) + [x.key]
  {
    assert (xs + [x])[..|xs|] == xs;
  }

  /** The bulk body is handled line by line as the text between newlines. */
  lemma BulkBodyLines(parse: string -> Parsed, db: M.Db, lines: seq<string>)
    requires |lines| >= 1
    requires forall k :: 0 <= k < |lines| ==> Newline !in lines[k]
    ensures BulkReply(parse, db, Body(JoinLines(lines))) == ProcessBulkQueryReply(AsWritten, parse, db, lines)
  {
    SplitJoinLines(lines);
  }
}
