/** The error values every operation of the server returns, and the two
    JSON envelopes they are rendered into (utils/errors.go). */
module Errors {

  import opened Json

  /** One variant per Go error struct; each carries the reason text its
      constructor was given.  The type tag is fixed by the variant. */
  datatype ElasticError =
    | JSONWrongFormatError(reason: string)
    | DBQueryError(reason: string)
    | InternalIOError(reason: string)
    | InternalError(reason: string)
    | IllegalQueryError(reason: string)
  {
    /** The `type` tag of the error. */
    function Type(): string
    {
      match this
      case JSONWrongFormatError(_) => "json_parse_exception"
      case DBQueryError(_) => "db_query_exception"
      case InternalIOError(_) => "internal_io_exception"
      case InternalError(_) => "internal_exception"
      case IllegalQueryError(_) => "illegal_query_exception"
    }

    function Reason(): string
    {
      reason
    }

    /** Go's `Error()` text: "Error type: T, Reason: R". */
    function Error(): string
    {
      ErrorPrefix + Type() + ReasonSeparator + Reason()
    }

    /** The single-error envelope
        `{"error": {"root_cause": [{type, reason}], type, reason}, "status": 500}`. */
    function FormatErrorResponse(): (r: ErrorResponse)
      ensures r.status == 500
      ensures |r.error.rootCause| == 1
      ensures r.error.rootCause[0] == ElasticErrorGeneral(r.error.typeVal, r.error.reasonVal)
      ensures DecodeError(r.error.typeVal, r.error.reasonVal) == Some(this)
    {
      var general := ElasticErrorGeneral(Type(), Reason());
      ErrorResponse(ErrorBody([general], Type(), Reason()), 500)
    }
  }

  const ErrorPrefix := "Error type: "
  const ReasonSeparator := ", Reason: "

  /** The `{type, reason}` pair. */
  datatype ElasticErrorGeneral = ElasticErrorGeneral(typeVal: string, reasonVal: string)

  /** The `error` member of the single-error envelope. */
  datatype ErrorBody = ErrorBody(rootCause: seq<ElasticErrorGeneral>, typeVal: string, reasonVal: string)

  datatype ErrorResponse = ErrorResponse(error: ErrorBody, status: int)

  /** A per-item error of a bulk request. */
  datatype ElasticErrorBulk = ElasticErrorBulk(typeVal: string, reasonVal: string, index: string, shard: string, indexUUID: string)

  /** The bulk envelope `{"error": <ElasticErrorBulk>}`, with no status. */
  datatype BulkErrorResponse = BulkErrorResponse(error: ElasticErrorBulk)

  /** The outcome of a store operation. */
  datatype Result<+T> = Ok(value: T) | Err(error: ElasticError)

  /** The outcome of a request handler: a value, an error the router renders
      as an envelope, or a Go run-time panic (failed type assertion, index out
      of range, nil dereference). */
  datatype Reply<+T> = Done(value: T) | Failed(error: ElasticError) | Panicked

  function NewJSONWrongFormatError(reason: string): (e: ElasticError)
    ensures e.Type() == "json_parse_exception" && e.Reason() == reason
  {
    JSONWrongFormatError(reason)
  }

  function NewDBQueryError(reason: string): (e: ElasticError)
    ensures e.Type() == "db_query_exception" && e.Reason() == reason
  {
    DBQueryError(reason)
  }

  function NewInternalIOError(reason: string): (e: ElasticError)
    ensures e.Type() == "internal_io_exception" && e.Reason() == reason
  {
    InternalIOError(reason)
  }

  function NewInternalError(reason: string): (e: ElasticError)
    ensures e.Type() == "internal_exception" && e.Reason() == reason
  {
    InternalError(reason)
  }

  function NewIllegalQueryError(reason: string): (e: ElasticError)
    ensures e.Type() == "illegal_query_exception" && e.Reason() == reason
  {
    IllegalQueryError(reason)
  }

  /** Reading an error back from its `type` tag and reason: the inverse of
      the constructors. */
  function DecodeError(typeVal: string, reasonVal: string): (r: Option<ElasticError>)
    ensures r.Some? ==> r.value.Type() == typeVal && r.value.Reason() == reasonVal
  {
    if typeVal == "json_parse_exception" then Some(JSONWrongFormatError(reasonVal))
    else if typeVal == "db_query_exception" then Some(DBQueryError(reasonVal))
    else if typeVal == "internal_io_exception" then Some(InternalIOError(reasonVal))
    else if typeVal == "internal_exception" then Some(InternalError(reasonVal))
    else if typeVal == "illegal_query_exception" then Some(IllegalQueryError(reasonVal))
    else None
  }

  /** Copies type and reason from `err`; index, shard and UUID come from the caller. */
  function NewElasticErrorBulk(err: ElasticError, index: string, shard: string, indexUUID: string): (b: ElasticErrorBulk)
    ensures DecodeError(b.typeVal, b.reasonVal) == Some(err)
    ensures b.index == index && b.shard == shard && b.indexUUID == indexUUID
  {
    ElasticErrorBulk(err.Type(), err.Reason(), index, shard, indexUUID)
  }

  function FormatBulkErrorResponse(b: ElasticErrorBulk): (r: BulkErrorResponse)
    ensures r.error == b
  {
    BulkErrorResponse(b)
  }

  /** The five type tags are pairwise distinct, so the tag identifies the kind. */
  lemma TypeIdentifiesKind(e1: ElasticError, e2: ElasticError)
    requires e1.Type() == e2.Type()
    ensures e1.reason == e2.reason ==> e1 == e2
  {
  }

  /** None of the type tags contains the separator placed after it in `Error()`. */
  lemma TypeTagsHaveNoComma(e: ElasticError)
    ensures forall k :: 0 <= k < |e.Type()| ==> e.Type()[k] != ','
  {
  }

  /** Position of the first comma in `x`, or `|x|` when there is none. */
  function FirstComma(x: string): (k: nat)
    ensures k <= |x|
  {
    if x == [] then 0 else if x[0] == ',' then 0 else 1 + FirstComma(x[1..])
  }

  lemma {:induction false} FirstCommaAfter(t: string, rest: string)
    requires forall k :: 0 <= k < |t| ==> t[k] != ','
    requires |rest| > 0 && rest[0] == ','
    ensures FirstComma(t + rest) == |t|
  {
    if t != [] {
      assert (t + rest)[1..] == t[1..] + rest;
      FirstCommaAfter(t[1..], rest);
    }
  }

  /** A text `t + sep + r` splits back into `t` and `r` when `t` has no
      comma and `sep` starts with one. */
  lemma SplitAtSeparator(t1: string, r1: string, t2: string, r2: string, sep: string)
    requires |sep| > 0 && sep[0] == ','
    requires forall k :: 0 <= k < |t1| ==> t1[k] != ','
    requires forall k :: 0 <= k < |t2| ==> t2[k] != ','
    requires t1 + sep + r1 == t2 + sep + r2
    ensures t1 == t2 && r1 == r2
  {
    var x := t1 + sep + r1;
    assert x == t1 + (sep + r1) == t2 + (sep + r2);
    FirstCommaAfter(t1, sep + r1);
    FirstCommaAfter(t2, sep + r2);
    assert t1 == x[..|t1|] == t2;
    assert r1 == x[|t1| + |sep|..] == r2;
  }

  /** A common prefix followed by `t + sep + r` determines `t` and `r`. */
  lemma SplitAfterPrefix(p: string, t1: string, r1: string, t2: string, r2: string, sep: string)
    requires |sep| > 0 && sep[0] == ','
    requires forall k :: 0 <= k < |t1| ==> t1[k] != ','
    requires forall k :: 0 <= k < |t2| ==> t2[k] != ','
    requires p + t1 + sep + r1 == p + t2 + sep + r2
    ensures t1 == t2 && r1 == r2
  {
    var x1, x2 := t1 + sep + r1, t2 + sep + r2;
    assert p + t1 + sep + r1 == p + x1;
    assert p + t2 + sep + r2 == p + x2;
    assert x1 == (p + x1)[|p|..] == x2;
    SplitAtSeparator(t1, r1, t2, r2, sep);
  }

  /** `Error()` loses nothing: two errors with the same text are the same error. */
  lemma ErrorTextInjective(e1: ElasticError, e2: ElasticError)
    requires e1.Error() == e2.Error()
    ensures e1 == e2
  {
    TypeTagsHaveNoComma(e1);
    TypeTagsHaveNoComma(e2);
    SplitAfterPrefix(ErrorPrefix, e1.Type(), e1.Reason(), e2.Type(), e2.Reason(), ReasonSeparator);
    TypeIdentifiesKind(e1, e2);
  }

  /** The single-error envelope determines the error it was made from. */
  lemma FormatErrorResponseInjective(e1: ElasticError, e2: ElasticError)
    requires e1.FormatErrorResponse() == e2.FormatErrorResponse()
    ensures e1 == e2
  {
    var r := e1.FormatErrorResponse();
    assert DecodeError(r.error.typeVal, r.error.reasonVal) == Some(e1);
    assert DecodeError(r.error.typeVal, r.error.reasonVal) == Some(e2);
  }
}
