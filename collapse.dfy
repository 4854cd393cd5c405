/** `resolveWrite`: before a record is written, replace each natural-key value
    (under the field's alias, or its name) by the id or ids of the records of
    the related collection whose `foreignField` holds that value. */
module Collapse {
  import opened Values
  import opened Seqs
  import opened Domains
  import opened Transport
  import opened Verbs
  import opened Metadata
  import opened OrDomains

  /** `FieldToResolve`: `{name, alias?, foreignField}`. */
  datatype FieldToResolve = FieldToResolve(name: string, alias: Option<string>, foreignField: string)

  /** `rec.alias || rec.name`: an absent or empty alias falls back to the name. */
  function Key(spec: FieldToResolve): string
  {
    if spec.alias.Some? && spec.alias.value != "" then spec.alias.value else spec.name
  }

  /** `single => ids.includes(single[rec.foreignField])` */
  function ForeignIn(xs: seq<Value>, ff: string): Record -> bool
  {
    r => Includes(xs, Get(r, ff))
  }

  /** The new value under the field's name, picked from the rows found: the
      ids of every row whose foreign field is in the list (many2many), or the
      id of the first row whose foreign field is the value. Calling `includes`
      on a non-list, or reading `.id` of no row, is a TypeError. */
  function CollapsedValue(related: seq<Record>, ff: string, raw: Value, many: bool): Result<Value>
  {
    if many then
      if raw.List? then Ok(List(IdsOf(Filter(related, ForeignIn(raw.items, ff))))) else Err(TypeError)
    else match Find(related, ForeignIn([raw], ff))
      case None => Err(TypeError)
      case Some(row) => Ok(IdOf(row))
  }

  /** One field of `resolveWrite`: a metadata lookup, one `searchMany` with
      the domain for the value under the key, then the key replaced by the
      name holding the id(s). */
  function CollapseField(svc: Service, model: string, vals: Record, spec: FieldToResolve): Result<Record>
  {
    var rel :- GetFieldRelation(svc, model, spec.name);
    var key := Key(spec);
    var raw := Get(vals, key);
    var domain := DomainFor(spec.foreignField, raw);
    var target :- TargetModel(rel);
    var related :- SearchMany(svc, target, domain, Unbounded);
    var v :- CollapsedValue(related, spec.foreignField, raw, IsMany(rel));
    Ok((vals - {key})[spec.name := v])
  }

  /** `resolveWrite` over the fields in order. */
  function CollapseAll(svc: Service, model: string, vals: Record, specs: seq<FieldToResolve>): Result<Record>
    decreases |specs|
  {
    if specs == [] then Ok(vals)
    else
      var prev :- CollapseAll(svc, model, vals, specs[..|specs| - 1]);
      CollapseField(svc, model, prev, specs[|specs| - 1])
  }

  /** The fields, which the source resolves concurrently on one shared copy,
      touch pairwise disjoint keys: no field reads or writes a key that
      another one reads, deletes or writes. */
  predicate Independent(specs: seq<FieldToResolve>)
  {
    forall i, j :: 0 <= i < j < |specs| ==> {Key(specs[i]), specs[i].name} !! {Key(specs[j]), specs[j].name}
  }

  /** A many2many natural key given as a string is outside the model:
      JavaScript's `String.prototype.includes` then tests substrings. */
  predicate NoManyValuedKeyStrings(svc: Service, model: string, vals: Record, specs: seq<FieldToResolve>)
  {
    forall spec :: spec in specs && ManyValued(svc, model, spec.name) ==> !Get(vals, Key(spec)).Str?
  }

  /** One field of `resolveWrite`, on the copy. */
  method ResolveWriteField(svc: Service, model: string, tempParentData: Record, rec: FieldToResolve)
    returns (res: Result<Record>)
    ensures res == CollapseField(svc, model, tempParentData, rec)
  {
    var relationInfo := GetFieldRelation(svc, model, rec.name);
    if relationInfo.Err? {
      return Err(relationInfo.error);
    }
    var key := Key(rec);
    var domain := BuildDomain(rec.foreignField, Get(tempParentData, key));
    var target := TargetModel(relationInfo.value);
    if target.Err? {
      return Err(target.error);
    }
    var relatedData := SearchMany(svc, target.value, domain, Unbounded);
    if relatedData.Err? {
      return Err(relatedData.error);
    }
    var v := CollapsedValue(relatedData.value, rec.foreignField, Get(tempParentData, key), IsMany(relationInfo.value));
    if v.Err? {
      return Err(v.error);
    }
    var out := tempParentData - {key};
    out := out[rec.name := v.value];
    return Ok(out);
  }

  /** `resolveWrite(model, parentData, resolveFields)` on a shallow copy of
      the record, one field after the other. */
  method ResolveWrite(svc: Service, model: string, parentData: Record, resolveFields: seq<FieldToResolve>)
    returns (res: Result<Record>)
    requires Independent(resolveFields)
    requires NoManyValuedKeyStrings(svc, model, parentData, resolveFields)
    ensures res == CollapseAll(svc, model, parentData, resolveFields)
  {
    var tempParentData := parentData;
    var i := 0;
    while i < |resolveFields|
      invariant 0 <= i <= |resolveFields|
      invariant CollapseAll(svc, model, parentData, resolveFields[..i]) == Ok(tempParentData)
    {
      assert resolveFields[..i + 1][..i] == resolveFields[..i];
      var done := ResolveWriteField(svc, model, tempParentData, resolveFields[i]);
      if done.Err? {
        CollapseAllPrefixErr(svc, model, parentData, resolveFields, i + 1);
        return done;
      }
      tempParentData := done.value;
      i := i + 1;
    }
    assert resolveFields[..i] == resolveFields;
    return Ok(tempParentData);
  }

  /** A field that fails makes the whole resolution fail with its error. */
  lemma {:induction false} CollapseAllPrefixErr(svc: Service, model: string, vals: Record, specs: seq<FieldToResolve>, k: nat)
    requires k <= |specs|
    requires CollapseAll(svc, model, vals, specs[..k]).Err?
    ensures CollapseAll(svc, model, vals, specs) == CollapseAll(svc, model, vals, specs[..k])
    decreases |specs| - k
  {
    if k < |specs| {
      assert specs[..k + 1][..k] == specs[..k];
      assert CollapseAll(svc, model, vals, specs[..k + 1]) == CollapseAll(svc, model, vals, specs[..k]);
      CollapseAllPrefixErr(svc, model, vals, specs, k + 1);
    } else {
      assert specs[..k] == specs;
    }
  }

  /** What the value under a key resolves to when picked straight from the
      whole target collection. */
  function DirectValue(svc: Service, model: string, spec: FieldToResolve, raw: Value): Result<Value>
  {
    var rel :- GetFieldRelation(svc, model, spec.name);
    var target :- TargetModel(rel);
    var table :- Table(svc, target);
    CollapsedValue(table, spec.foreignField, raw, IsMany(rel))
  }

  /** Every row the final selection keeps is one the domain lets through. */
  lemma ForeignInImpliesDomain(ff: string, raw: Value, many: bool, r: Record)
    requires many ==> raw.List?
    requires ForeignIn(if many then raw.items else [raw], ff)(r)
    ensures Parse(DomainFor(ff, raw)).Some?
    ensures Matching(Parse(DomainFor(ff, raw)).value)(r)
  {
    DomainForSelects(ff, raw, r);
  }

  /** Picking from the search results gives what picking from the whole
      collection gives: the domain only ever drops rows the pick would drop. */
  lemma CollapsedFromSearch(table: seq<Record>, ff: string, raw: Value, many: bool)
    requires many ==> raw.List?
    ensures Parse(DomainFor(ff, raw)).Some?
    ensures CollapsedValue(Filter(table, Matching(Parse(DomainFor(ff, raw)).value)), ff, raw, many)
            == CollapsedValue(table, ff, raw, many)
  {
    DomainForSelects(ff, raw, map[]);
    var m := Matching(Parse(DomainFor(ff, raw)).value);
    var p := ForeignIn(if many then raw.items else [raw], ff);
    forall r | r in table && p(r) ensures m(r) {
      ForeignInImpliesDomain(ff, raw, many, r);
    }
    if many {
      FilterFilter(table, m, p);
    } else {
      FindAfterFilter(table, m, p);
    }
  }

  /** The steps of a field that resolved without error. */
  lemma CollapseFieldSteps(svc: Service, model: string, vals: Record, spec: FieldToResolve)
    returns (rel: Relation, target: string, related: seq<Record>)
    requires CollapseField(svc, model, vals, spec).Ok?
    ensures GetFieldRelation(svc, model, spec.name) == Ok(rel)
    ensures TargetModel(rel) == Ok(target)
    ensures SearchMany(svc, target, DomainFor(spec.foreignField, Get(vals, Key(spec))), Unbounded) == Ok(related)
    ensures CollapsedValue(related, spec.foreignField, Get(vals, Key(spec)), IsMany(rel)).Ok?
    ensures CollapseField(svc, model, vals, spec).value ==
              (vals - {Key(spec)})[spec.name := CollapsedValue(related, spec.foreignField, Get(vals, Key(spec)), IsMany(rel)).value]
  {
    rel := GetFieldRelation(svc, model, spec.name).value;
    target := TargetModel(rel).value;
    related := SearchMany(svc, target, DomainFor(spec.foreignField, Get(vals, Key(spec))), Unbounded).value;
  }

  /** An unbounded `searchMany` that found rows returns every row of the
      collection that the domain selects. */
  lemma SearchManyRows(svc: Service, target: string, domain: Domain)
    requires SearchMany(svc, target, domain, Unbounded).Ok?
    ensures UrlOk(svc.url) && target in svc.tables && Parse(domain).Some?
    ensures SearchMany(svc, target, domain, Unbounded).value == Filter(svc.tables[target], Matching(Parse(domain).value))
  {
    var rows := Filter(svc.tables[target], Matching(Parse(domain).value));
    assert RawSearchRead(svc, target, domain, Unbounded) == Ok(Page(rows, Unbounded));
    assert Page(rows, Unbounded) == rows;
  }

  /** After one field is resolved, the key is gone, the name holds what the
      key's value resolves to in the whole target collection, and every other
      key is unchanged. */
  lemma CollapseFieldSpec(svc: Service, model: string, vals: Record, spec: FieldToResolve)
    requires CollapseField(svc, model, vals, spec).Ok?
    ensures CollapseField(svc, model, vals, spec).value.Keys == vals.Keys - {Key(spec)} + {spec.name}
    ensures forall k :: k != Key(spec) && k != spec.name ==>
              Get(CollapseField(svc, model, vals, spec).value, k) == Get(vals, k)
    ensures DirectValue(svc, model, spec, Get(vals, Key(spec)))
            == Ok(CollapseField(svc, model, vals, spec).value[spec.name])
  {
    var rel, target, related := CollapseFieldSteps(svc, model, vals, spec);
    var raw := Get(vals, Key(spec));
    var v := CollapsedValue(related, spec.foreignField, raw, IsMany(rel)).value;
    RenamedKeys(vals, Key(spec), spec.name, v);
    SearchManyRows(svc, target, DomainFor(spec.foreignField, raw));
    var table := svc.tables[target];
    CollapsedFromSearch(table, spec.foreignField, raw, IsMany(rel));
    assert Table(svc, target) == Ok(table);
    assert DirectValue(svc, model, spec, raw) == CollapsedValue(table, spec.foreignField, raw, IsMany(rel));
  }

  /** `delete out[key]; out[name] = v` */
  lemma RenamedKeys(vals: Record, key: string, name: string, v: Value)
    ensures ((vals - {key})[name := v]).Keys == vals.Keys - {key} + {name}
    ensures ((vals - {key})[name := v])[name] == v
    ensures forall k :: k != key && k != name ==> Get((vals - {key})[name := v], k) == Get(vals, k)
  {
  }

  /** A field whose relation is not many2many and whose value matches no row
      of the target collection fails. For a scalar value the domain
      `[[ff, '=', v]]` selects nothing, so `searchMany` fails with NotFound
      before `find` runs. A list or object value never passes the `includes`
      test, so when the search finds rows, `.id` of the `undefined` that
      `find` returns is a TypeError. */
  lemma SingleWithoutMatchFails(svc: Service, model: string, vals: Record, spec: FieldToResolve)
    requires GetFieldRelation(svc, model, spec.name).Ok?
    requires !IsMany(GetFieldRelation(svc, model, spec.name).value)
    requires TargetModel(GetFieldRelation(svc, model, spec.name).value).Ok?
    requires UrlOk(svc.url) && TargetModel(GetFieldRelation(svc, model, spec.name).value).value in svc.tables
    requires forall r :: r in svc.tables[TargetModel(GetFieldRelation(svc, model, spec.name).value).value] ==>
               !Includes([Get(vals, Key(spec))], Get(r, spec.foreignField))
    ensures CollapseField(svc, model, vals, spec).Err?
    ensures Primitive(Get(vals, Key(spec))) ==>
              CollapseField(svc, model, vals, spec).error
                == NotFound(TargetModel(GetFieldRelation(svc, model, spec.name).value).value,
                            ByDomain(DomainFor(spec.foreignField, Get(vals, Key(spec)))))
    ensures !Primitive(Get(vals, Key(spec))) ==>
              CollapseField(svc, model, vals, spec).error == TypeError ||
              CollapseField(svc, model, vals, spec).error
                == NotFound(TargetModel(GetFieldRelation(svc, model, spec.name).value).value,
                            ByDomain(DomainFor(spec.foreignField, Get(vals, Key(spec)))))
    ensures !Primitive(Get(vals, Key(spec))) &&
            SearchMany(svc, TargetModel(GetFieldRelation(svc, model, spec.name).value).value,
                       DomainFor(spec.foreignField, Get(vals, Key(spec))), Unbounded).Ok? ==>
              CollapseField(svc, model, vals, spec).error == TypeError
  {
    var rel := GetFieldRelation(svc, model, spec.name).value;
    var target := TargetModel(rel).value;
    var raw := Get(vals, Key(spec));
    var domain := DomainFor(spec.foreignField, raw);
    DomainForSelects(spec.foreignField, raw, map[]);
    if Primitive(raw) {
      var table := svc.tables[target];
      var m := Matching(Parse(domain).value);
      forall r | r in table ensures !m(r) {
        DomainForSelects(spec.foreignField, raw, r);
      }
      FilterNone(table, m);
      assert Page([], Unbounded) == [];
      assert RawSearchRead(svc, target, domain, Unbounded) == Ok([]);
    } else {
      match SearchMany(svc, target, domain, Unbounded)
      case Err(e) =>
        SearchManyFails(svc, target, domain);
      case Ok(found) =>
        assert Find(found, ForeignIn([raw], spec.foreignField)) == None;
        assert CollapsedValue(found, spec.foreignField, raw, false) == Err(TypeError);
    }
  }

  /** On a known collection with a well-formed domain, the only way
      `searchMany` fails is by finding nothing. */
  lemma SearchManyFails(svc: Service, target: string, domain: Domain)
    requires UrlOk(svc.url) && target in svc.tables && Parse(domain).Some?
    requires SearchMany(svc, target, domain, Unbounded).Err?
    ensures SearchMany(svc, target, domain, Unbounded).error == NotFound(target, ByDomain(domain))
  {
    assert RawSearchRead(svc, target, domain, Unbounded).Ok?;
  }

  /** A resolved record `out` against the record `vals` given to
      `resolveWrite`: every key is gone, every name holds what its key's
      value resolves to, and every key no field touches is unchanged. */
  ghost predicate CollapsedRecord(svc: Service, model: string, specs: seq<FieldToResolve>, vals: Record, out: Record)
  {
    && KeysRenamed(specs, out)
    && NamesResolved(svc, model, specs, vals, out)
    && OthersKept(specs, vals, out)
  }

  ghost predicate KeysRenamed(specs: seq<FieldToResolve>, out: Record)
  {
    forall spec :: spec in specs ==> spec.name in out && (Key(spec) != spec.name ==> Key(spec) !in out)
  }

  ghost predicate NamesResolved(svc: Service, model: string, specs: seq<FieldToResolve>, vals: Record, out: Record)
  {
    forall spec :: spec in specs ==> spec.name in out && DirectValue(svc, model, spec, Get(vals, Key(spec))) == Ok(out[spec.name])
  }

  /** `k` is neither the key nor the name of any of the fields. */
  predicate Untouched(specs: seq<FieldToResolve>, k: string)
  {
    forall spec :: spec in specs ==> k != Key(spec) && k != spec.name
  }

  ghost predicate OthersKept(specs: seq<FieldToResolve>, vals: Record, out: Record)
  {
    forall k :: Untouched(specs, k) ==> (k in out <==> k in vals) && Get(out, k) == Get(vals, k)
  }

  /** Resolving one more field that touches none of the earlier fields' keys
      extends what the earlier ones established. */
  lemma CollapsedRecordExtend(svc: Service, model: string, init: seq<FieldToResolve>, last: FieldToResolve,
                              vals: Record, mid: Record, out: Record)
    requires forall spec :: spec in init ==> {Key(spec), spec.name} !! {Key(last), last.name}
    requires CollapsedRecord(svc, model, init, vals, mid)
    requires out.Keys == mid.Keys - {Key(last)} + {last.name}
    requires forall k :: k != Key(last) && k != last.name ==> Get(out, k) == Get(mid, k)
    requires DirectValue(svc, model, last, Get(mid, Key(last))) == Ok(out[last.name])
    ensures CollapsedRecord(svc, model, init + [last], vals, out)
  {
    ExtendKeysRenamed(init, last, mid, out);
    assert Untouched(init, Key(last));
    ExtendNamesResolved(svc, model, init, last, vals, mid, out);
    ExtendOthersKept(init, last, vals, mid, out);
  }

  lemma ExtendKeysRenamed(init: seq<FieldToResolve>, last: FieldToResolve, mid: Record, out: Record)
    requires forall spec :: spec in init ==> {Key(spec), spec.name} !! {Key(last), last.name}
    requires KeysRenamed(init, mid)
    requires out.Keys == mid.Keys - {Key(last)} + {last.name}
    ensures KeysRenamed(init + [last], out)
  {
    assert forall spec :: spec in init + [last] <==> spec in init || spec == last;
    forall spec | spec in init
      ensures spec.name in out && (Key(spec) != spec.name ==> Key(spec) !in out)
    {
      assert spec.name != Key(last) && Key(spec) != last.name;
    }
  }

  lemma ExtendNamesResolved(svc: Service, model: string, init: seq<FieldToResolve>, last: FieldToResolve,
                            vals: Record, mid: Record, out: Record)
    requires forall spec :: spec in init ==> {Key(spec), spec.name} !! {Key(last), last.name}
    requires NamesResolved(svc, model, init, vals, mid)
    requires Get(mid, Key(last)) == Get(vals, Key(last))
    requires out.Keys == mid.Keys - {Key(last)} + {last.name}
    requires forall k :: k != Key(last) && k != last.name ==> Get(out, k) == Get(mid, k)
    requires DirectValue(svc, model, last, Get(mid, Key(last))) == Ok(out[last.name])
    ensures NamesResolved(svc, model, init + [last], vals, out)
  {
    assert forall spec :: spec in init + [last] <==> spec in init || spec == last;
    forall spec | spec in init
      ensures spec.name in out && out[spec.name] == mid[spec.name]
    {
      assert Get(out, spec.name) == Get(mid, spec.name);
    }
  }

  lemma ExtendOthersKept(init: seq<FieldToResolve>, last: FieldToResolve, vals: Record, mid: Record, out: Record)
    requires OthersKept(init, vals, mid)
    requires out.Keys == mid.Keys - {Key(last)} + {last.name}
    requires forall k :: k != Key(last) && k != last.name ==> Get(out, k) == Get(mid, k)
    ensures OthersKept(init + [last], vals, out)
  {
    forall k | Untouched(init + [last], k)
      ensures (k in out <==> k in vals) && Get(out, k) == Get(vals, k)
    {
      assert last in init + [last];
      assert Untouched(init, k) by {
        forall spec | spec in init ensures k != Key(spec) && k != spec.name {
          assert spec in init + [last];
        }
      }
    }
  }

  /** The last field of a successful resolution is resolved on the outcome
      of the earlier ones. */
  lemma CollapseAllLast(svc: Service, model: string, vals: Record, specs: seq<FieldToResolve>)
    requires specs != []
    requires CollapseAll(svc, model, vals, specs).Ok?
    ensures CollapseAll(svc, model, vals, specs[..|specs| - 1]).Ok?
    ensures CollapseAll(svc, model, vals, specs)
            == CollapseField(svc, model, CollapseAll(svc, model, vals, specs[..|specs| - 1]).value, specs[|specs| - 1])
  {
  }

  lemma IndependentSplit(specs: seq<FieldToResolve>)
    requires specs != [] && Independent(specs)
    ensures specs == specs[..|specs| - 1] + [specs[|specs| - 1]]
    ensures Independent(specs[..|specs| - 1])
    ensures forall spec :: spec in specs[..|specs| - 1] ==>
              {Key(spec), spec.name} !! {Key(specs[|specs| - 1]), specs[|specs| - 1].name}
  {
  }

  /** After `resolveWrite` with fields touching disjoint keys, every alias
      key is deleted, every name holds the id(s) its natural-key value
      resolves to in the whole target collection, and every key no field
      touches is unchanged. */
  lemma {:induction false} CollapseAllSpec(svc: Service, model: string, vals: Record, specs: seq<FieldToResolve>)
    requires Independent(specs)
    requires CollapseAll(svc, model, vals, specs).Ok?
    ensures CollapsedRecord(svc, model, specs, vals, CollapseAll(svc, model, vals, specs).value)
    decreases |specs|
  {
    if specs != [] {
      var init := specs[..|specs| - 1];
      var last := specs[|specs| - 1];
      IndependentSplit(specs);
      CollapseAllLast(svc, model, vals, specs);
      CollapseAllSpec(svc, model, vals, init);
      var mid := CollapseAll(svc, model, vals, init).value;
      CollapseFieldSpec(svc, model, mid, last);
      CollapsedRecordExtend(svc, model, init, last, vals, mid, CollapseAll(svc, model, vals, specs).value);
    }
  }
}
