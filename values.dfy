/** JavaScript/JSON values as the OdooRPC client sees them, records, search
    domains and the errors the client can raise. */
module Values {

  datatype Option<+T> = None | Some(value: T)

  /** A value of the client's untyped world: what a JSON-RPC reply holds, plus
      `undefined` for a missing property. */
  datatype Value =
    | Undefined
    | Bool(b: bool)
    | Int(i: int)
    | Str(s: string)
    | List(items: seq<Value>)
    | Obj(fields: map<string, Value>)

  /** A record: a mapping from field name to value. */
  type Record = map<string, Value>

  /** `record[key]`: undefined when the key is absent. */
  function Get(r: Record, key: string): Value
  {
    if key in r then r[key] else Undefined
  }

  /** `record.id` */
  function IdOf(r: Record): Value
  {
    Get(r, "id")
  }

  /** `rows.map(obj => obj.id)` */
  function IdsOf(rows: seq<Record>): (ids: seq<Value>)
    ensures |ids| == |rows|
    ensures forall i :: 0 <= i < |rows| ==> ids[i] == IdOf(rows[i])
  {
    seq(|rows|, i requires 0 <= i < |rows| => IdOf(rows[i]))
  }

  /** Arrays and objects are compared by identity in JavaScript; the values the
      client compares against come from a different reply, so only primitive
      values can ever be equal. */
  predicate Primitive(v: Value)
  {
    !v.List? && !v.Obj?
  }

  /** `xs.includes(x)` (SameValueZero). */
  predicate Includes(xs: seq<Value>, x: Value)
  {
    Primitive(x) && x in xs
  }

  /** One item of an Odoo search domain in prefix notation: the `'|'`
      operator or an equality clause `[field, '=', value]`. */
  datatype Term = Or | Eq(field: string, value: Value)

  type Domain = seq<Term>

  /** What a failed lookup was looking for. */
  datatype Query =
    | ByIds(ids: seq<Value>)
    | ByDomain(domain: Domain)
    | Everything

  datatype Error =
    | NotFound(model: string, query: Query)  // "... not found on model: <model>"
    | MalformedUrl                           // "Malformed Odoo URL"
    | RemoteError(target: Value)             // the service's own fault
    | TypeError                              // a JavaScript runtime TypeError

  datatype Result<+T> = Ok(value: T) | Err(error: Error)
  {
    predicate IsFailure()
    {
      Err?
    }

    function PropagateFailure<U>(): Result<U>
      requires Err?
    {
      Err(error)
    }

    function Extract(): T
      requires Ok?
    {
      value
    }
  }
}
