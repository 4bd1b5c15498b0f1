/** Types shared by the three CRUD services: optional values, the outcome of a
    request, field-level validation errors, the merge of one PATCH field, and
    offset/limit pagination of a listing. */
module Common {

  /** A value that may be absent (Python's `None`). */
  datatype Option<+T> = None | Some(value: T)

  /** One rejected field of a request body: its name and the message. */
  datatype FieldError = FieldError(field: string, message: string)

  /** The result of the request-body validators that run before a handler. */
  datatype Checked<+T> = Accepted(value: T) | Rejected(errors: seq<FieldError>)

  /** What a request handler answers. `DbError` is a statement the database
      refused (a failed commit, which is rolled back, or a query it rejects).
      `ServerError` is an exception raised in the handler before it reaches
      the database and not caught there: the request fails and nothing is
      written. */
  datatype Outcome<+T> =
    | Ok(value: T)
    | NotFound
    | AlreadyExists
    | ValidationFailed(errors: seq<FieldError>)
    | DbError
    | ServerError

  /** The largest page size a listing accepts. */
  const MaxLimit := 100

  /** One field of a merge-patch: `None` means the field was not sent, so the
      stored value stays; `Some(v)` means it was sent (possibly as null) and
      `v` overwrites the stored value. */
  function Patched<T>(stored: T, sent: Option<T>): (r: T)
    ensures sent.None? ==> r == stored
    ensures sent.Some? ==> r == sent.value
  {
    match sent
    case None => stored
    case Some(v) => v
  }

  /** `SELECT ... OFFSET offset LIMIT limit` over rows in the order the
      database produces them. A limit above 100 is refused by the query
      validator; a negative offset or limit is refused by the database. */
  function Page<T>(rows: seq<T>, offset: int, limit: int): (r: Outcome<seq<T>>)
    ensures r.Ok? || r.ValidationFailed? || r.DbError?
    ensures limit > MaxLimit <==> r.ValidationFailed?
    ensures r.Ok? <==> 0 <= offset && 0 <= limit <= MaxLimit
    ensures r.Ok? ==> |r.value| <= limit
    ensures r.Ok? && offset + limit <= |rows| ==> |r.value| == limit
    ensures r.Ok? && offset < |rows| ==>
      |r.value| == if offset + limit <= |rows| then limit else |rows| - offset
    ensures r.Ok? && offset >= |rows| ==> r.value == []
    ensures r.Ok? ==> forall i :: 0 <= i < |r.value| ==> offset + i < |rows| && r.value[i] == rows[offset + i]
  {
    if limit > MaxLimit then
      ValidationFailed([FieldError("limit", "Input should be less than or equal to 100")])
    else if offset < 0 || limit < 0 then
      DbError
    else if offset >= |rows| then
      Ok([])
    else if offset + limit <= |rows| then
      Ok(rows[offset..offset + limit])
    else
      Ok(rows[offset..])
  }

  /** The order in which the database lists the rows of a table: every key
      exactly once. */
  ghost predicate IsEnumeration<K>(order: seq<K>, keys: set<K>)
  {
    (forall i, j :: 0 <= i < j < |order| ==> order[i] != order[j]) &&
    (forall i :: 0 <= i < |order| ==> order[i] in keys) &&
    (forall k :: k in keys ==> k in order)
  }

  /** The rows of `table`, in the order `order`. */
  function RowsInOrder<K(==), V>(table: map<K, V>, order: seq<K>): (rows: seq<V>)
    requires forall i :: 0 <= i < |order| ==> order[i] in table
    ensures |rows| == |order|
    ensures forall i :: 0 <= i < |rows| ==> rows[i] == table[order[i]]
  {
    if order == [] then [] else [table[order[0]]] + RowsInOrder(table, order[1..])
  }

  /** Every row of a page of a table is a row of that table. */
  lemma PageOfTable<K, V>(table: map<K, V>, order: seq<K>, offset: int, limit: int)
    requires forall i :: 0 <= i < |order| ==> order[i] in table
    ensures var r := Page(RowsInOrder(table, order), offset, limit);
      r.Ok? ==> forall i :: 0 <= i < |r.value| ==> r.value[i] in table.Values
  {
  }
}
