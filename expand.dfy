/** `resolveRead`: for every field name, replace each record's raw foreign-key
    value by the related record(s), fetched in one batch per field. The
    records are objects that `resolveRead` overwrites in place. */
module Expand {
  import opened Values
  import opened Seqs
  import opened Transport
  import opened Verbs
  import opened Metadata

  /** JavaScript `v[0]`. */
  function ElementZero(v: Value): Value
  {
    match v
    case List(items) => if items == [] then Undefined else items[0]
    case Str(s) => if s == "" then Undefined else Str([s[0]])
    case Obj(m) => Get(m, "0")
    case _ => Undefined
  }

  /** The ids one record contributes for a field: the whole id list of a
      many2many field, otherwise `[value[0]]`: the id of a many2one's
      `[id, label]` pair, or the first id of a one2many's id list.
      Spreading a non-list, or indexing `undefined`, is a TypeError. */
  function RecordIds(v: Value, many: bool): Result<seq<Value>>
  {
    if many then (if v.List? then Ok(v.items) else Err(TypeError))
    else if v.Undefined? then Err(TypeError)
    else Ok([ElementZero(v)])
  }

  /** `relatedIds`: the records' ids concatenated in record order. */
  function CollectIds(rows: seq<Record>, field: string, many: bool): Result<seq<Value>>
    decreases |rows|
  {
    if rows == [] then Ok([])
    else
      var init :- CollectIds(rows[..|rows| - 1], field, many);
      var ids :- RecordIds(Get(rows[|rows| - 1], field), many);
      Ok(init + ids)
  }

  /** `single => ids.includes(single.id)` */
  function IdIncluded(ids: seq<Value>): Record -> bool
  {
    s => Includes(ids, IdOf(s))
  }

  function Objects(rows: seq<Record>): (vs: seq<Value>)
    ensures |vs| == |rows| && forall i :: 0 <= i < |rows| ==> vs[i] == Obj(rows[i])
  {
    seq(|rows|, i requires 0 <= i < |rows| => Obj(rows[i]))
  }

  /** The new value of a record's field: every fetched row whose id is in the
      record's list (many2many), or the first fetched row with the pair's id,
      undefined when there is none. */
  function ExpandedValue(fetched: seq<Record>, ids: seq<Value>, many: bool): Value
  {
    if many then List(Objects(Filter(fetched, IdIncluded(ids))))
    else match Find(fetched, IdIncluded(ids))
      case None => Undefined
      case Some(s) => Obj(s)
  }

  function ExpandRow(row: Record, field: string, many: bool, fetched: seq<Record>): Record
  {
    match RecordIds(Get(row, field), many)
    case Err(_) => row
    case Ok(ids) => row[field := ExpandedValue(fetched, ids, many)]
  }

  /** One field of `resolveRead`: a metadata lookup, one batched `readMany`
      of every record's ids, then every record rewritten from the batch. */
  function ExpandField(svc: Service, model: string, rows: seq<Record>, field: string): (r: Result<seq<Record>>)
    ensures r.Ok? ==> |r.value| == |rows|
  {
    var rel :- GetFieldRelation(svc, model, field);
    var many := IsMany(rel);
    var ids :- CollectIds(rows, field, many);
    var target :- TargetModel(rel);
    var fetched :- ReadMany(svc, target, ids);
    Ok(ExpandRows(rows, field, many, fetched))
  }

  function ExpandRows(rows: seq<Record>, field: string, many: bool, fetched: seq<Record>): (out: seq<Record>)
    ensures |out| == |rows| && forall i :: 0 <= i < |rows| ==> out[i] == ExpandRow(rows[i], field, many, fetched)
  {
    seq(|rows|, i requires 0 <= i < |rows| => ExpandRow(rows[i], field, many, fetched))
  }

  /** `resolveRead` over the fields in order. */
  function ExpandAll(svc: Service, model: string, rows: seq<Record>, fields: seq<string>): (r: Result<seq<Record>>)
    ensures r.Ok? ==> |r.value| == |rows|
    decreases |fields|
  {
    if fields == [] then Ok(rows)
    else
      var prev :- ExpandAll(svc, model, rows, fields[..|fields| - 1]);
      ExpandField(svc, model, prev, fields[|fields| - 1])
  }

  /** What one record's raw value resolves to when its own ids are read on
      their own from the target collection, with no batch. */
  function ResolvedValue(svc: Service, model: string, field: string, raw: Value): Result<Value>
  {
    var rel :- GetFieldRelation(svc, model, field);
    var target :- TargetModel(rel);
    var rows :- Table(svc, target);
    ResolvedIn(rows, raw, IsMany(rel))
  }

  /** The value a record gets from a `read` of its own ids alone. */
  function ResolvedIn(rows: seq<Record>, raw: Value, many: bool): Result<Value>
  {
    var ids :- RecordIds(raw, many);
    Ok(ExpandedValue(ReadRows(rows, ids), ids, many))
  }

  predicate Distinct<T(==)>(s: seq<T>)
  {
    forall i, j :: 0 <= i < j < |s| ==> s[i] != s[j]
  }

  lemma DistinctSplit<T>(s: seq<T>)
    requires s != [] && Distinct(s)
    ensures s == s[..|s| - 1] + [s[|s| - 1]]
    ensures Distinct(s[..|s| - 1]) && s[|s| - 1] !in s[..|s| - 1]
  {
  }

  /** A many2many field holding a string is outside the model: JavaScript
      spreads its characters and then matches substrings. */
  predicate NoManyValuedStrings(svc: Service, model: string, rows: seq<Record>, fields: seq<string>)
  {
    forall f, row :: f in fields && row in rows && ManyValued(svc, model, f) ==> !Get(row, f).Str?
  }

  /** The items of a list value: a many2many field's ids. */
  function Items(v: Value): seq<Value>
  {
    if v.List? then v.items else []
  }

  /** No id appears in the lists of two different records. */
  predicate Unshared(rows: seq<Record>, field: string)
  {
    forall i, j, x :: 0 <= i < j < |rows| && x in Items(Get(rows[i], field)) ==> x !in Items(Get(rows[j], field))
  }

  /** The batch of a many2many field holds no id twice on behalf of two
      different records. */
  predicate NoSharedIds(svc: Service, model: string, rows: seq<Record>, field: string)
  {
    ManyValued(svc, model, field) ==> Unshared(rows, field)
  }

  /** A record object the caller holds; `resolveRead` overwrites its fields. */
  class ParentRecord {
    var data: Record

    constructor (data: Record)
      ensures this.data == data
    {
      this.data := data;
    }
  }

  /** `parentData`: a single record or an array of records. */
  datatype Payload = Single(record: ParentRecord) | Batch(records: seq<ParentRecord>)

  /** `Array.isArray(parentData) ? parentData : [parentData]` */
  function Parents(p: Payload): seq<ParentRecord>
  {
    if p.Single? then [p.record] else p.records
  }

  function Rows(ps: seq<ParentRecord>): (rows: seq<Record>)
    reads set p | p in ps
    ensures |rows| == |ps| && forall i :: 0 <= i < |ps| ==> rows[i] == ps[i].data
  {
    seq(|ps|, i requires 0 <= i < |ps| reads ps => ps[i].data)
  }

  /** The `forEach` that pushes every record's ids onto `relatedIds`. */
  method CollectRelatedIds(parents: seq<ParentRecord>, field: string, many: bool) returns (r: Result<seq<Value>>)
    ensures r == CollectIds(Rows(parents), field, many)
  {
    var relatedIds: seq<Value> := [];
    var i := 0;
    while i < |parents|
      invariant 0 <= i <= |parents|
      invariant CollectIds(Rows(parents)[..i], field, many) == Ok(relatedIds)
    {
      var ids := RecordIds(Get(parents[i].data, field), many);
      assert Rows(parents)[..i + 1][..i] == Rows(parents)[..i];
      if ids.Err? {
        CollectIdsPrefixErr(Rows(parents), field, many, i + 1);
        return Err(ids.error);
      }
      relatedIds := relatedIds + ids.value;
      i := i + 1;
    }
    assert Rows(parents)[..i] == Rows(parents);
    return Ok(relatedIds);
  }

  /** The `map` that overwrites `parent[rec]` on every record object. */
  method OverwriteField(parents: seq<ParentRecord>, field: string, many: bool, fetched: seq<Record>)
    requires Distinct(parents)
    modifies set p | p in parents
    ensures forall i :: 0 <= i < |parents| ==> parents[i].data == ExpandRow(old(parents[i].data), field, many, fetched)
  {
    var i := 0;
    while i < |parents|
      invariant 0 <= i <= |parents|
      invariant forall j :: 0 <= j < i ==> parents[j].data == ExpandRow(old(parents[j].data), field, many, fetched)
      invariant forall j :: i <= j < |parents| ==> parents[j].data == old(parents[j].data)
    {
      var parent := parents[i];
      var ids := RecordIds(Get(parent.data, field), many);
      if ids.Ok? {
        parent.data := parent.data[field := ExpandedValue(fetched, ids.value, many)];
      }
      i := i + 1;
    }
  }

  /** One field of `resolveRead`, on the record objects. */
  method ResolveField(svc: Service, model: string, tempParentData: seq<ParentRecord>, field: string)
    returns (res: Result<()>)
    requires Distinct(tempParentData)
    modifies set p | p in tempParentData
    ensures res.Ok? <==> ExpandField(svc, model, old(Rows(tempParentData)), field).Ok?
    ensures res.Ok? ==> Rows(tempParentData) == ExpandField(svc, model, old(Rows(tempParentData)), field).value
    ensures res.Err? ==> res.error == ExpandField(svc, model, old(Rows(tempParentData)), field).error
  {
    var relationInfo := GetFieldRelation(svc, model, field);
    if relationInfo.Err? {
      return Err(relationInfo.error);
    }
    var many := IsMany(relationInfo.value);
    var relatedIds := CollectRelatedIds(tempParentData, field, many);
    if relatedIds.Err? {
      return Err(relatedIds.error);
    }
    var target := TargetModel(relationInfo.value);
    if target.Err? {
      return Err(target.error);
    }
    var relatedData := ReadMany(svc, target.value, relatedIds.value);
    if relatedData.Err? {
      return Err(relatedData.error);
    }
    OverwriteField(tempParentData, field, many, relatedData.value);
    return Ok(());
  }

  /** `resolveRead(model, parentData, resolveFields)`. The fields, which the
      source resolves concurrently, are resolved one after the other; since
      they are distinct, each touches a key no other one reads. */
  method ResolveRead(svc: Service, model: string, parentData: Payload, resolveFields: seq<string>)
    returns (res: Result<Payload>)
    requires Distinct(resolveFields)
    requires Distinct(Parents(parentData))
    requires NoManyValuedStrings(svc, model, Rows(Parents(parentData)), resolveFields)
    modifies set p | p in Parents(parentData)
    ensures res.Ok? ==> res.value == parentData
    ensures res.Ok? <==> ExpandAll(svc, model, old(Rows(Parents(parentData))), resolveFields).Ok?
    ensures res.Ok? ==> Rows(Parents(parentData)) == ExpandAll(svc, model, old(Rows(Parents(parentData))), resolveFields).value
    ensures res.Err? ==> res.error == ExpandAll(svc, model, old(Rows(Parents(parentData))), resolveFields).error
  {
    var tempParentData := Parents(parentData);
    ghost var rows := Rows(tempParentData);
    var i := 0;
    while i < |resolveFields|
      invariant 0 <= i <= |resolveFields|
      invariant ExpandAll(svc, model, rows, resolveFields[..i]) == Ok(Rows(tempParentData))
    {
      assert resolveFields[..i + 1][..i] == resolveFields[..i];
      var done := ResolveField(svc, model, tempParentData, resolveFields[i]);
      if done.Err? {
        ExpandAllPrefixErr(svc, model, rows, resolveFields, i + 1);
        return Err(done.error);
      }
      i := i + 1;
    }
    assert resolveFields[..i] == resolveFields;
    return Ok(parentData);
  }

  /** A record whose ids cannot be read makes the whole collection fail. */
  lemma {:induction false} CollectIdsPrefixErr(rows: seq<Record>, field: string, many: bool, k: nat)
    requires k <= |rows|
    requires CollectIds(rows[..k], field, many).Err?
    ensures CollectIds(rows, field, many) == CollectIds(rows[..k], field, many)
    decreases |rows| - k
  {
    if k < |rows| {
      assert rows[..k + 1][..k] == rows[..k];
      assert CollectIds(rows[..k + 1], field, many) == CollectIds(rows[..k], field, many);
      CollectIdsPrefixErr(rows, field, many, k + 1);
    } else {
      assert rows[..k] == rows;
    }
  }

  /** A field that fails makes the whole resolution fail with its error. */
  lemma {:induction false} ExpandAllPrefixErr(svc: Service, model: string, rows: seq<Record>, fields: seq<string>, k: nat)
    requires k <= |fields|
    requires ExpandAll(svc, model, rows, fields[..k]).Err?
    ensures ExpandAll(svc, model, rows, fields) == ExpandAll(svc, model, rows, fields[..k])
    decreases |fields| - k
  {
    if k < |fields| {
      assert fields[..k + 1][..k] == fields[..k];
      assert ExpandAll(svc, model, rows, fields[..k + 1]) == ExpandAll(svc, model, rows, fields[..k]);
      ExpandAllPrefixErr(svc, model, rows, fields, k + 1);
    } else {
      assert fields[..k] == fields;
    }
  }

  /** The batch holds exactly the records' ids: every id of every record,
      and nothing that is not some record's id. */
  lemma {:induction false} CollectIdsUnion(rows: seq<Record>, field: string, many: bool)
    requires CollectIds(rows, field, many).Ok?
    ensures forall i :: 0 <= i < |rows| ==> RecordIds(Get(rows[i], field), many).Ok?
    ensures forall i, x :: 0 <= i < |rows| && x in RecordIds(Get(rows[i], field), many).value ==>
              x in CollectIds(rows, field, many).value
    ensures forall x :: x in CollectIds(rows, field, many).value ==>
              exists i :: 0 <= i < |rows| && x in RecordIds(Get(rows[i], field), many).value
    decreases |rows|
  {
    if rows != [] {
      var init := rows[..|rows| - 1];
      CollectIdsUnion(init, field, many);
      assert forall i :: 0 <= i < |init| ==> init[i] == rows[i];
    }
  }

  /** The ids of `a + b` are those of `a` followed by those of `b`. */
  lemma {:induction false} CollectIdsConcat(a: seq<Record>, b: seq<Record>, field: string, many: bool)
    requires CollectIds(a + b, field, many).Ok?
    ensures CollectIds(a, field, many).Ok? && CollectIds(b, field, many).Ok?
    ensures CollectIds(a + b, field, many).value == CollectIds(a, field, many).value + CollectIds(b, field, many).value
    decreases |b|
  {
    if b == [] {
      assert a + b == a;
    } else {
      var init := b[..|b| - 1];
      assert (a + b)[..|a + b| - 1] == a + init;
      assert (a + b)[|a + b| - 1] == b[|b| - 1];
      CollectIdsConcat(a, init, field, many);
    }
  }

  /** The batch is the ids of the records before a record, then the record's
      own ids, then the ids of the records after it. */
  lemma CollectIdsAt(rows: seq<Record>, field: string, many: bool, i: nat)
    requires CollectIds(rows, field, many).Ok?
    requires i < |rows|
    ensures CollectIds(rows[..i], field, many).Ok?
    ensures RecordIds(Get(rows[i], field), many).Ok?
    ensures CollectIds(rows[i + 1..], field, many).Ok?
    ensures CollectIds(rows, field, many).value ==
              CollectIds(rows[..i], field, many).value + RecordIds(Get(rows[i], field), many).value
              + CollectIds(rows[i + 1..], field, many).value
  {
    var rest := rows[i..];
    assert rows == rows[..i] + rest;
    assert rest == [rows[i]] + rows[i + 1..];
    CollectIdsConcat(rows[..i], rest, field, many);
    CollectIdsConcat([rows[i]], rows[i + 1..], field, many);
    CollectIdsOne(rows[i], field, many);
  }

  lemma CollectIdsOne(row: Record, field: string, many: bool)
    ensures CollectIds([row], field, many) == RecordIds(Get(row, field), many)
  {
    assert [row][..0] == [];
    if RecordIds(Get(row, field), many).Ok? {
      assert [] + RecordIds(Get(row, field), many).value == RecordIds(Get(row, field), many).value;
    }
  }

  /** When no id is shared between records, a record's own many2many ids
      occur nowhere else in the batch. */
  lemma OwnIdsApart(rows: seq<Record>, field: string, i: nat)
    requires Unshared(rows, field)
    requires CollectIds(rows, field, true).Ok?
    requires i < |rows|
    ensures CollectIds(rows[..i], field, true).Ok? && CollectIds(rows[i + 1..], field, true).Ok?
    ensures RecordIds(Get(rows[i], field), true).Ok?
    ensures forall x :: x in RecordIds(Get(rows[i], field), true).value ==>
              x !in CollectIds(rows[..i], field, true).value && x !in CollectIds(rows[i + 1..], field, true).value
  {
    CollectIdsAt(rows, field, true, i);
    var pre := rows[..i];
    var post := rows[i + 1..];
    CollectIdsUnion(pre, field, true);
    CollectIdsUnion(post, field, true);
    var own := RecordIds(Get(rows[i], field), true).value;
    assert own == Items(Get(rows[i], field));
    forall x | x in own
      ensures x !in CollectIds(pre, field, true).value && x !in CollectIds(post, field, true).value
    {
      forall k | 0 <= k < |pre| ensures x !in RecordIds(Get(pre[k], field), true).value {
        assert pre[k] == rows[k];
        assert RecordIds(Get(rows[k], field), true).value == Items(Get(rows[k], field));
      }
      forall k | 0 <= k < |post| ensures x !in RecordIds(Get(post[k], field), true).value {
        assert post[k] == rows[i + 1 + k];
        assert RecordIds(Get(rows[i + 1 + k], field), true).value == Items(Get(rows[i + 1 + k], field));
      }
    }
  }

  /** Every row `read` returns for the whole batch that carries a record's
      single id is the one row carrying it. */
  lemma BatchPickSingle(table: seq<Record>, all: seq<Value>, x: Value)
    requires UniqueIds(table)
    requires x in all
    ensures Find(ReadRows(table, all), IdIncluded([x])) == Find(ReadRows(table, [x]), IdIncluded([x]))
  {
    var p := IdIncluded([x]);
    ReadRowsMembers(table, all);
    ReadRowsMembers(table, [x]);
    var a := ReadRows(table, all);
    var b := ReadRows(table, [x]);
    assert forall y :: y in a && p(y) <==> y in b && p(y);
    if Find(a, p).Some? {
      SameIdSameRow(table, Find(a, p).value, Find(b, p).value);
    }
  }

  /** When no other id of the batch is one of a record's ids, filtering the
      batch by them keeps exactly the rows read for them alone, in their
      order. */
  lemma BatchPickMany(table: seq<Record>, pre: seq<Value>, own: seq<Value>, post: seq<Value>)
    requires UniqueIds(table)
    requires forall x :: x in own ==> x !in pre && x !in post
    ensures Filter(ReadRows(table, pre + own + post), IdIncluded(own)) == ReadRows(table, own)
    ensures Filter(ReadRows(table, own), IdIncluded(own)) == ReadRows(table, own)
  {
    var p := IdIncluded(own);
    var a := ReadRows(table, pre);
    var b := ReadRows(table, own);
    var c := ReadRows(table, post);
    ReadRowsConcat(table, pre + own, post);
    ReadRowsConcat(table, pre, own);
    ReadRowsMembers(table, pre);
    ReadRowsMembers(table, own);
    ReadRowsMembers(table, post);
    FilterNone(a, p);
    FilterAll(b, p);
    FilterNone(c, p);
    FilterConcat(a + b, c, p);
    FilterConcat(a, b, p);
    assert [] + b + [] == b;
  }

  /** Picking a record's rows out of the batch gives what reading its own
      ids alone gives, when no many2many id is shared between records. */
  lemma ExpandedValueFromBatch(rows: seq<Record>, field: string, many: bool, table: seq<Record>, i: nat)
    requires UniqueIds(table)
    requires CollectIds(rows, field, many).Ok?
    requires i < |rows|
    requires many ==> Unshared(rows, field)
    ensures RecordIds(Get(rows[i], field), many).Ok?
    ensures ExpandedValue(ReadRows(table, CollectIds(rows, field, many).value), RecordIds(Get(rows[i], field), many).value, many)
            == ExpandedValue(ReadRows(table, RecordIds(Get(rows[i], field), many).value), RecordIds(Get(rows[i], field), many).value, many)
  {
    CollectIdsAt(rows, field, many, i);
    var pre := CollectIds(rows[..i], field, many).value;
    var own := RecordIds(Get(rows[i], field), many).value;
    var post := CollectIds(rows[i + 1..], field, many).value;
    if many {
      OwnIdsApart(rows, field, i);
      BatchPickMany(table, pre, own, post);
    } else {
      BatchPickSingle(table, pre + own + post, own[0]);
    }
  }

  /** The steps of a field that resolved without error: its relation, the
      collection it points to and the batch of ids read from it. */
  lemma ExpandFieldSteps(svc: Service, model: string, rows: seq<Record>, field: string)
    returns (rel: Relation, target: string, ids: seq<Value>)
    requires ExpandField(svc, model, rows, field).Ok?
    ensures GetFieldRelation(svc, model, field) == Ok(rel)
    ensures CollectIds(rows, field, IsMany(rel)) == Ok(ids)
    ensures TargetModel(rel) == Ok(target)
    ensures UrlOk(svc.url) && target in svc.tables
    ensures ExpandField(svc, model, rows, field).value == ExpandRows(rows, field, IsMany(rel), ReadRows(svc.tables[target], ids))
  {
    rel := GetFieldRelation(svc, model, field).value;
    ids := CollectIds(rows, field, IsMany(rel)).value;
    target := TargetModel(rel).value;
  }

  /** One record of a batch, rewritten from the rows read for the whole
      batch, gets what a read of its own ids alone gives it. */
  lemma ExpandRowsAt(rows: seq<Record>, field: string, many: bool, table: seq<Record>, i: nat)
    requires UniqueIds(table)
    requires CollectIds(rows, field, many).Ok?
    requires i < |rows|
    requires many ==> Unshared(rows, field)
    ensures field in rows[i]
    ensures ResolvedIn(table, Get(rows[i], field), many).Ok?
    ensures ExpandRows(rows, field, many, ReadRows(table, CollectIds(rows, field, many).value))[i]
            == rows[i][field := ResolvedIn(table, Get(rows[i], field), many).value]
  {
    ExpandedValueFromBatch(rows, field, many, table, i);
  }

  /** Resolving a field changes no other value of any record. */
  lemma ExpandFieldKeeps(svc: Service, model: string, rows: seq<Record>, field: string, i: nat)
    requires ExpandField(svc, model, rows, field).Ok?
    requires i < |rows|
    ensures forall k :: k != field ==> Get(ExpandField(svc, model, rows, field).value[i], k) == Get(rows[i], k)
  {
    var rel := GetFieldRelation(svc, model, field).value;
    var many := IsMany(rel);
    var ids := CollectIds(rows, field, many).value;
    var fetched := ReadMany(svc, TargetModel(rel).value, ids).value;
    assert ExpandField(svc, model, rows, field) == Ok(ExpandRows(rows, field, many, fetched));
  }

  /** After one field is resolved, every record keeps its keys and every other
      value, and the field holds what the record's own raw value resolves to
      when its ids are read on their own. */
  lemma ExpandFieldSpec(svc: Service, model: string, rows: seq<Record>, field: string, i: nat)
    requires IdsUnique(svc)
    requires NoSharedIds(svc, model, rows, field)
    requires ExpandField(svc, model, rows, field).Ok?
    requires i < |rows|
    ensures ExpandField(svc, model, rows, field).value[i].Keys == rows[i].Keys
    ensures forall k :: k != field ==> Get(ExpandField(svc, model, rows, field).value[i], k) == Get(rows[i], k)
    ensures ResolvedValue(svc, model, field, Get(rows[i], field)) == Ok(Get(ExpandField(svc, model, rows, field).value[i], field))
  {
    var rel, target, ids := ExpandFieldSteps(svc, model, rows, field);
    ExpandFieldKeeps(svc, model, rows, field, i);
    var table := svc.tables[target];
    assert UniqueIds(table);
    assert IsMany(rel) ==> Unshared(rows, field);
    ExpandRowsAt(rows, field, IsMany(rel), table, i);
    ResolvedValueIn(svc, model, field, Get(rows[i], field));
  }

  /** With the relation and its collection in hand, what a raw value resolves
      to is what a read of its ids from that collection gives. */
  lemma ResolvedValueIn(svc: Service, model: string, field: string, raw: Value)
    requires GetFieldRelation(svc, model, field).Ok?
    requires TargetModel(GetFieldRelation(svc, model, field).value).Ok?
    requires UrlOk(svc.url) && TargetModel(GetFieldRelation(svc, model, field).value).value in svc.tables
    ensures ResolvedValue(svc, model, field, raw)
            == ResolvedIn(svc.tables[TargetModel(GetFieldRelation(svc, model, field).value).value], raw,
                          IsMany(GetFieldRelation(svc, model, field).value))
  {
  }

  /** A resolved record `out` against its raw record: the same keys, every
      value outside `fields` unchanged, and each field in `fields` holding
      what the raw value resolves to when its ids are read on their own. */
  ghost predicate ResolvedRecord(svc: Service, model: string, fields: seq<string>, raw: Record, out: Record)
  {
    && out.Keys == raw.Keys
    && (forall k :: k !in fields ==> Get(out, k) == Get(raw, k))
    && (forall f :: f in fields ==> ResolvedValue(svc, model, f, Get(raw, f)) == Ok(Get(out, f)))
  }

  /** Resolving one more field, distinct from the earlier ones, extends what
      the earlier ones established. */
  lemma ResolvedRecordExtend(svc: Service, model: string, init: seq<string>, last: string,
                             raw: Record, mid: Record, out: Record)
    requires last !in init
    requires ResolvedRecord(svc, model, init, raw, mid)
    requires out.Keys == mid.Keys
    requires forall k :: k != last ==> Get(out, k) == Get(mid, k)
    requires ResolvedValue(svc, model, last, Get(mid, last)) == Ok(Get(out, last))
    ensures ResolvedRecord(svc, model, init + [last], raw, out)
  {
    assert forall f :: f in init + [last] ==> f in init || f == last;
  }

  /** The last field of a successful resolution is resolved on the outcome
      of the earlier ones. */
  lemma ExpandAllLast(svc: Service, model: string, rows: seq<Record>, fields: seq<string>)
    requires fields != []
    requires ExpandAll(svc, model, rows, fields).Ok?
    ensures ExpandAll(svc, model, rows, fields[..|fields| - 1]).Ok?
    ensures ExpandAll(svc, model, rows, fields)
            == ExpandField(svc, model, ExpandAll(svc, model, rows, fields[..|fields| - 1]).value, fields[|fields| - 1])
  {
  }

  /** Records that agree on a field share ids exactly when the originals do. */
  lemma UnsharedKept(raw: seq<Record>, prev: seq<Record>, field: string)
    requires |prev| == |raw|
    requires forall i :: 0 <= i < |raw| ==> Get(prev[i], field) == Get(raw[i], field)
    requires Unshared(raw, field)
    ensures Unshared(prev, field)
  {
    forall i, j, x | 0 <= i < j < |prev| && x in Items(Get(prev[i], field))
      ensures x !in Items(Get(prev[j], field))
    {
      assert Get(prev[i], field) == Get(raw[i], field);
      assert Get(prev[j], field) == Get(raw[j], field);
    }
  }

  /** Resolving one more field on records that already resolve the earlier
      fields yields records that resolve all of them. */
  lemma ExpandFieldResolves(svc: Service, model: string, init: seq<string>, last: string,
                            raw: seq<Record>, prev: seq<Record>, out: seq<Record>)
    requires IdsUnique(svc)
    requires NoSharedIds(svc, model, raw, last)
    requires last !in init
    requires |prev| == |raw|
    requires ExpandField(svc, model, prev, last) == Ok(out)
    requires forall i :: 0 <= i < |raw| ==> ResolvedRecord(svc, model, init, raw[i], prev[i])
    ensures |out| == |raw|
    ensures forall i :: 0 <= i < |raw| ==> ResolvedRecord(svc, model, init + [last], raw[i], out[i])
  {
    if ManyValued(svc, model, last) {
      UnsharedKept(raw, prev, last);
    }
    forall i | 0 <= i < |raw|
      ensures ResolvedRecord(svc, model, init + [last], raw[i], out[i])
    {
      ExpandFieldSpec(svc, model, prev, last, i);
      ResolvedRecordExtend(svc, model, init, last, raw[i], prev[i], out[i]);
    }
  }

  /** After `resolveRead`, every record keeps its keys and every value outside
      the resolved fields, and each resolved field holds what a read of the
      record's own ids alone gives: as long as no many2many id is shared
      between records, batching the reads changes nothing for any record. */
  lemma {:induction false} ExpandAllSpec(svc: Service, model: string, rows: seq<Record>, fields: seq<string>)
    requires IdsUnique(svc)
    requires Distinct(fields)
    requires forall f :: f in fields ==> NoSharedIds(svc, model, rows, f)
    requires ExpandAll(svc, model, rows, fields).Ok?
    ensures forall i :: 0 <= i < |rows| ==> ResolvedRecord(svc, model, fields, rows[i], ExpandAll(svc, model, rows, fields).value[i])
    decreases |fields|
  {
    if fields != [] {
      var init := fields[..|fields| - 1];
      var last := fields[|fields| - 1];
      DistinctSplit(fields);
      ExpandAllLast(svc, model, rows, fields);
      ExpandAllSpec(svc, model, rows, init);
      var prev := ExpandAll(svc, model, rows, init).value;
      ExpandFieldResolves(svc, model, init, last, rows, prev, ExpandAll(svc, model, rows, fields).value);
    }
  }

  /** Two records sharing a many2many id: the batch reads the shared row
      twice, and the first record gets it twice, where a read of its own ids
      gives it once. */
  lemma SharedIdRepeats(t4: Record, t5: Record, r1: Record, r2: Record)
    requires t4 == map["id" := Int(4)] && t5 == map["id" := Int(5)]
    requires r1 == map["tags" := List([Int(4), Int(5)])] && r2 == map["tags" := List([Int(5)])]
    ensures CollectIds([r1, r2], "tags", true) == Ok([Int(4), Int(5), Int(5)])
    ensures ReadRows([t4, t5], [Int(4), Int(5), Int(5)]) == [t4, t5, t5]
    ensures ExpandRows([r1, r2], "tags", true, [t4, t5, t5])[0] == r1["tags" := List([Obj(t4), Obj(t5), Obj(t5)])]
    ensures ExpandRows([r1, r2], "tags", true, [t4, t5, t5])[1] == r2["tags" := List([Obj(t5), Obj(t5)])]
    ensures ResolvedIn([t4, t5], Get(r1, "tags"), true) == Ok(List([Obj(t4), Obj(t5)]))
  {
    SharedBatch(r1, r2);
    SharedRead(t4, t5);
    SharedExpand(t4, t5, r1, r2);
    SharedExpandSecond(t4, t5, r1, r2);
    SharedAlone(t4, t5, r1);
  }

  lemma SharedExpandSecond(t4: Record, t5: Record, r1: Record, r2: Record)
    requires t4 == map["id" := Int(4)] && t5 == map["id" := Int(5)]
    requires r2 == map["tags" := List([Int(5)])]
    ensures ExpandRows([r1, r2], "tags", true, [t4, t5, t5])[1] == r2["tags" := List([Obj(t5), Obj(t5)])]
  {
    SharedPickSecond(t4, t5);
    assert Get(r2, "tags") == List([Int(5)]);
    assert Objects([t5, t5]) == [Obj(t5), Obj(t5)];
  }

  lemma SharedExpand(t4: Record, t5: Record, r1: Record, r2: Record)
    requires t4 == map["id" := Int(4)] && t5 == map["id" := Int(5)]
    requires r1 == map["tags" := List([Int(4), Int(5)])]
    ensures ExpandRows([r1, r2], "tags", true, [t4, t5, t5])[0] == r1["tags" := List([Obj(t4), Obj(t5), Obj(t5)])]
  {
    SharedPick(t4, t5);
    assert Get(r1, "tags") == List([Int(4), Int(5)]);
    assert Objects([t4, t5, t5]) == [Obj(t4), Obj(t5), Obj(t5)];
  }

  lemma SharedAlone(t4: Record, t5: Record, r1: Record)
    requires t4 == map["id" := Int(4)] && t5 == map["id" := Int(5)]
    requires r1 == map["tags" := List([Int(4), Int(5)])]
    ensures ResolvedIn([t4, t5], Get(r1, "tags"), true) == Ok(List([Obj(t4), Obj(t5)]))
  {
    SharedRead(t4, t5);
    SharedUnique(t4, t5);
    ResolvedInMany([t4, t5], [Int(4), Int(5)]);
    assert Objects([t4, t5]) == [Obj(t4), Obj(t5)];
  }

  /** A many2many value read on its own resolves to the rows `read` returns
      for its ids. */
  lemma ResolvedInMany(table: seq<Record>, ids: seq<Value>)
    requires UniqueIds(table)
    ensures ResolvedIn(table, List(ids), true) == Ok(List(Objects(ReadRows(table, ids))))
  {
    ReadRowsMembers(table, ids);
    FilterAll(ReadRows(table, ids), IdIncluded(ids));
  }

  lemma SharedUnique(t4: Record, t5: Record)
    requires t4 == map["id" := Int(4)] && t5 == map["id" := Int(5)]
    ensures UniqueIds([t4, t5])
  {
    assert IdOf(t4) == Int(4) && IdOf(t5) == Int(5);
  }

  lemma SharedBatch(r1: Record, r2: Record)
    requires r1 == map["tags" := List([Int(4), Int(5)])] && r2 == map["tags" := List([Int(5)])]
    ensures CollectIds([r1, r2], "tags", true) == Ok([Int(4), Int(5), Int(5)])
  {
    var rows := [r1, r2];
    assert rows[..1] == [r1] && [r1][..0] == [];
    assert CollectIds([r1], "tags", true) == Ok([] + [Int(4), Int(5)]);
    assert [] + [Int(4), Int(5)] == [Int(4), Int(5)];
    assert CollectIds(rows, "tags", true) == Ok([Int(4), Int(5)] + [Int(5)]);
    assert [Int(4), Int(5)] + [Int(5)] == [Int(4), Int(5), Int(5)];
  }

  lemma SharedRead(t4: Record, t5: Record)
    requires t4 == map["id" := Int(4)] && t5 == map["id" := Int(5)]
    ensures ReadRows([t4, t5], [Int(4), Int(5), Int(5)]) == [t4, t5, t5]
    ensures ReadRows([t4, t5], [Int(4), Int(5)]) == [t4, t5]
  {
    var table := [t4, t5];
    assert Filter(table, IdIs(Int(4))) == [t4] by {
      assert table[1..][1..] == [];
    }
    assert Filter(table, IdIs(Int(5))) == [t5] by {
      assert table[1..][1..] == [];
    }
    assert [Int(4), Int(5), Int(5)][..2] == [Int(4), Int(5)];
    assert [Int(4), Int(5)][..1] == [Int(4)];
    ReadRowsOne(table, Int(4));
    assert ReadRows(table, [Int(4), Int(5)]) == [t4] + [t5];
    assert ReadRows(table, [Int(4), Int(5), Int(5)]) == [t4, t5] + [t5];
  }

  lemma SharedPick(t4: Record, t5: Record)
    requires t4 == map["id" := Int(4)] && t5 == map["id" := Int(5)]
    ensures Filter([t4, t5, t5], IdIncluded([Int(4), Int(5)])) == [t4, t5, t5]
  {
    FilterAll([t4, t5, t5], IdIncluded([Int(4), Int(5)]));
  }

  lemma SharedPickSecond(t4: Record, t5: Record)
    requires t4 == map["id" := Int(4)] && t5 == map["id" := Int(5)]
    ensures Filter([t4, t5, t5], IdIncluded([Int(5)])) == [t5, t5]
  {
    var p := IdIncluded([Int(5)]);
    assert [t4, t5, t5] == [t4] + [t5, t5];
    FilterConcat([t4], [t5, t5], p);
    FilterNone([t4], p);
    FilterAll([t5, t5], p);
  }

  /** A batch none of whose ids any row carries makes `readMany` fail. */
  lemma BatchWithoutMatchFails(svc: Service, model: string, rows: seq<Record>, field: string)
    requires GetFieldRelation(svc, model, field).Ok?
    requires TargetModel(GetFieldRelation(svc, model, field).value).Ok?
    requires TargetModel(GetFieldRelation(svc, model, field).value).value in svc.tables
    requires CollectIds(rows, field, IsMany(GetFieldRelation(svc, model, field).value)).Ok?
    requires forall r :: r in svc.tables[TargetModel(GetFieldRelation(svc, model, field).value).value] ==>
               IdOf(r) !in CollectIds(rows, field, IsMany(GetFieldRelation(svc, model, field).value)).value
    ensures ExpandField(svc, model, rows, field)
            == Err(NotFound(TargetModel(GetFieldRelation(svc, model, field).value).value,
                            ByIds(CollectIds(rows, field, IsMany(GetFieldRelation(svc, model, field).value)).value)))
  {
    var rel := GetFieldRelation(svc, model, field).value;
    var target := TargetModel(rel).value;
    ReadRowsNone(svc.tables[target], CollectIds(rows, field, IsMany(rel)).value);
  }

  /** Resolving a field changes no record's other keys, whatever other fields
      are resolved. */
  lemma {:induction false} ExpandAllKeeps(svc: Service, model: string, rows: seq<Record>, fields: seq<string>, key: string)
    requires key !in fields
    requires ExpandAll(svc, model, rows, fields).Ok?
    ensures forall i :: 0 <= i < |rows| ==> Get(ExpandAll(svc, model, rows, fields).value[i], key) == Get(rows[i], key)
    decreases |fields|
  {
    if fields != [] {
      var init := fields[..|fields| - 1];
      ExpandAllLast(svc, model, rows, fields);
      ExpandAllKeeps(svc, model, rows, init, key);
      var prev := ExpandAll(svc, model, rows, init).value;
      forall i | 0 <= i < |rows|
        ensures Get(ExpandAll(svc, model, rows, fields).value[i], key) == Get(rows[i], key)
      {
        ExpandFieldKeeps(svc, model, prev, fields[|fields| - 1], i);
      }
    }
  }

  /** Once the earlier fields are resolved, a many2many field whose id lists
      are all empty sends an empty batch, and `readMany` fails on the empty
      answer. */
  lemma EmptyManyBatchFails(svc: Service, model: string, rows: seq<Record>, fields: seq<string>, field: string)
    requires field !in fields
    requires ExpandAll(svc, model, rows, fields).Ok?
    requires ManyValued(svc, model, field)
    requires TargetModel(GetFieldRelation(svc, model, field).value).Ok?
    requires TargetModel(GetFieldRelation(svc, model, field).value).value in svc.tables
    requires forall i :: 0 <= i < |rows| ==> Get(rows[i], field) == List([])
    ensures ExpandAll(svc, model, rows, fields + [field])
            == Err(NotFound(TargetModel(GetFieldRelation(svc, model, field).value).value, ByIds([])))
  {
    var prev := ExpandAll(svc, model, rows, fields).value;
    ExpandAllKeeps(svc, model, rows, fields, field);
    EmptyListsCollectNothing(prev, field);
    BatchWithoutMatchFails(svc, model, prev, field);
    assert (fields + [field])[..|fields|] == fields;
  }

  lemma {:induction false} EmptyListsCollectNothing(rows: seq<Record>, field: string)
    requires forall i :: 0 <= i < |rows| ==> Get(rows[i], field) == List([])
    ensures CollectIds(rows, field, true) == Ok([])
    decreases |rows|
  {
    if rows != [] {
      var init := rows[..|rows| - 1];
      assert forall i :: 0 <= i < |init| ==> init[i] == rows[i];
      EmptyListsCollectNothing(init, field);
      assert RecordIds(Get(rows[|rows| - 1], field), true) == Ok([]);
      assert CollectIds(rows, field, true) == Ok(CollectIds(init, field, true).value + []);
      assert CollectIds(init, field, true).value == [];
      assert CollectIds(init, field, true).value + [] == [];
    }
  }

  /** A lone record whose pair names an id no row carries: read on its own,
      its value resolves to `undefined`, but the batch of that one record
      comes back empty and `readMany` fails. */
  lemma DanglingSingleFails(svc: Service, model: string, row: Record, fields: seq<string>, field: string,
                            id: Value, display: Value)
    requires field !in fields
    requires ExpandAll(svc, model, [row], fields).Ok?
    requires GetFieldRelation(svc, model, field).Ok? && !IsMany(GetFieldRelation(svc, model, field).value)
    requires TargetModel(GetFieldRelation(svc, model, field).value).Ok?
    requires TargetModel(GetFieldRelation(svc, model, field).value).value in svc.tables
    requires Get(row, field) == List([id, display])
    requires forall r :: r in svc.tables[TargetModel(GetFieldRelation(svc, model, field).value).value] ==> IdOf(r) != id
    ensures ResolvedValue(svc, model, field, Get(row, field)) == Ok(Undefined)
    ensures ExpandAll(svc, model, [row], fields + [field])
            == Err(NotFound(TargetModel(GetFieldRelation(svc, model, field).value).value, ByIds([id])))
  {
    var target := TargetModel(GetFieldRelation(svc, model, field).value).value;
    var prev := ExpandAll(svc, model, [row], fields).value;
    ExpandAllKeeps(svc, model, [row], fields, field);
    assert Get(prev[0], field) == List([id, display]);
    assert prev[..0] == [];
    assert CollectIds(prev, field, false) == Ok([] + [id]);
    BatchWithoutMatchFails(svc, model, prev, field);
    assert (fields + [field])[..|fields|] == fields;
    ReadRowsNone(svc.tables[target], [id]);
    assert Table(svc, target) == Ok(svc.tables[target]);
  }
}
