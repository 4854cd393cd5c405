/** The verbs of `OdooRPC` that hand their result to `resolveRead`, or their
    input to `resolveWrite`, when given a non-empty `resolveFields`. */
module Client {
  import opened Values
  import opened Transport
  import opened Verbs
  import opened Expand
  import opened Collapse

  /** `read({model, id, resolveFields})`: the record the service returns
      becomes an object, which `resolveRead` rewrites and returns alone. */
  method ReadResolved(svc: Service, model: string, id: Value, resolveFields: seq<string>)
    returns (res: Result<Record>)
    requires Distinct(resolveFields)
    requires Read(svc, model, id).Ok? ==> NoManyValuedStrings(svc, model, [Read(svc, model, id).value], resolveFields)
    ensures Read(svc, model, id).Err? ==> res == Read(svc, model, id)
    ensures Read(svc, model, id).Ok? ==>
              (res.Ok? <==> ExpandAll(svc, model, [Read(svc, model, id).value], resolveFields).Ok?)
    ensures res.Ok? ==> [res.value] == ExpandAll(svc, model, [Read(svc, model, id).value], resolveFields).value
    ensures Read(svc, model, id).Ok? && res.Err? ==>
              res.error == ExpandAll(svc, model, [Read(svc, model, id).value], resolveFields).error
  {
    var data := Read(svc, model, id);
    if data.Err? || |resolveFields| == 0 {
      return data;
    }
    var parent := new ParentRecord(data.value);
    assert Rows(Parents(Single(parent))) == [data.value];
    var resolved := ResolveRead(svc, model, Single(parent), resolveFields);
    if resolved.Err? {
      return Err(resolved.error);
    }
    assert Rows(Parents(Single(parent))) == [parent.data];
    return Ok(parent.data);
  }

  /** `readMany({model, ids, resolveFields})`: the records the service returns
      become distinct objects, which `resolveRead` rewrites in place. */
  method ReadManyResolved(svc: Service, model: string, ids: seq<Value>, resolveFields: seq<string>)
    returns (res: Result<seq<Record>>)
    requires Distinct(resolveFields)
    requires ReadMany(svc, model, ids).Ok? ==> NoManyValuedStrings(svc, model, ReadMany(svc, model, ids).value, resolveFields)
    ensures ReadMany(svc, model, ids).Err? ==> res == ReadMany(svc, model, ids)
    ensures ReadMany(svc, model, ids).Ok? ==>
              res == ExpandAll(svc, model, ReadMany(svc, model, ids).value, resolveFields)
  {
    var data := ReadMany(svc, model, ids);
    if data.Err? || |resolveFields| == 0 {
      return data;
    }
    var rows := data.value;
    var parents: seq<ParentRecord> := [];
    var i := 0;
    while i < |rows|
      invariant 0 <= i <= |rows|
      invariant |parents| == i
      invariant forall j :: 0 <= j < i ==> fresh(parents[j]) && parents[j].data == rows[j]
      invariant Distinct(parents)
    {
      var parent := new ParentRecord(rows[i]);
      parents := parents + [parent];
      i := i + 1;
    }
    assert Rows(parents) == rows;
    var resolved := ResolveRead(svc, model, Batch(parents), resolveFields);
    if resolved.Err? {
      return Err(resolved.error);
    }
    return Ok(Rows(parents));
  }

  /** The arguments `write({model, ids, vals, resolveFields})` sends: the ids
      as a list, and the values after `resolveWrite` when there are fields
      to resolve. */
  method WriteArguments(svc: Service, model: string, ids: Value, vals: Record, resolveFields: seq<FieldToResolve>)
    returns (res: Result<(seq<Value>, Record)>)
    requires Independent(resolveFields)
    requires NoManyValuedKeyStrings(svc, model, vals, resolveFields)
    ensures res.Ok? ==> res.value.0 == NormalizeIds(ids)
    ensures res.Ok? <==> CollapseAll(svc, model, vals, resolveFields).Ok?
    ensures res.Ok? ==> res.value.1 == CollapseAll(svc, model, vals, resolveFields).value
    ensures res.Err? ==> res.error == CollapseAll(svc, model, vals, resolveFields).error
  {
    var idList := ids;
    if !idList.List? {
      idList := List([idList]);
    }
    var data := vals;
    if |resolveFields| > 0 {
      var resolved := ResolveWrite(svc, model, vals, resolveFields);
      if resolved.Err? {
        return Err(resolved.error);
      }
      data := resolved.value;
    }
    return Ok((idList.items, data));
  }
}
