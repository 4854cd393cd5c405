/** `getFieldRelation`: what kind of relation a field is, read from the
    service's own metadata collections `ir.model` and `ir.model.fields`. */
module Metadata {
  import opened Values
  import opened Seqs
  import opened Domains
  import opened Transport
  import opened Verbs

  /** `{model: relation, type: ttype}` of an `ir.model.fields` row. */
  datatype Relation = Relation(model: Value, ttype: Value)

  /** `relationInfo.type === 'many2many'`: the only type whose whole id list
      is used. Every other type is read as `[value[0]]`: the id of a
      many2one's `[id, label]` pair, but only the first id of a one2many's
      id list. */
  predicate IsMany(rel: Relation)
  {
    rel.ttype == Str("many2many")
  }

  /** The collection a relation points to; a non-string `relation` is a
      collection the service does not know. */
  function TargetModel(rel: Relation): Result<string>
  {
    if rel.model.Str? then Ok(rel.model.s) else Err(RemoteError(rel.model))
  }

  function ModelDomain(model: string): Domain
  {
    [Eq("model", Str(model))]
  }

  function FieldDomain(modelId: Value, field: string): Domain
  {
    [Eq("model_id", modelId), Eq("name", Str(field))]
  }

  function GetFieldRelation(svc: Service, model: string, field: string): Result<Relation>
  {
    var parent :- SearchOne(svc, "ir.model", ModelDomain(model));
    var data :- SearchOne(svc, "ir.model.fields", FieldDomain(IdOf(parent), field));
    Ok(Relation(Get(data, "relation"), Get(data, "ttype")))
  }

  /** The field's relation is known and is many2many. */
  predicate ManyValued(svc: Service, model: string, field: string)
  {
    GetFieldRelation(svc, model, field).Ok? && IsMany(GetFieldRelation(svc, model, field).value)
  }

  function ModelNamed(model: string): Record -> bool
  {
    r => Get(r, "model") == Str(model)
  }

  function FieldNamed(modelId: Value, field: string): Record -> bool
  {
    r => Get(r, "model_id") == modelId && Get(r, "name") == Str(field)
  }

  /** The relation looked up directly in the metadata tables: the first
      `ir.model` row for the collection, then the first `ir.model.fields` row
      with that row's id and the field's name. */
  function FirstMatchRelation(svc: Service, model: string, field: string): Result<Relation>
  {
    if !UrlOk(svc.url) then Err(MalformedUrl)
    else if "ir.model" !in svc.tables then Err(RemoteError(Str("ir.model")))
    else match Find(svc.tables["ir.model"], ModelNamed(model))
      case None => Err(NotFound("ir.model", ByDomain(ModelDomain(model))))
      case Some(parent) =>
        if "ir.model.fields" !in svc.tables then Err(RemoteError(Str("ir.model.fields")))
        else match Find(svc.tables["ir.model.fields"], FieldNamed(IdOf(parent), field))
          case None => Err(NotFound("ir.model.fields", ByDomain(FieldDomain(IdOf(parent), field))))
          case Some(row) => Ok(Relation(Get(row, "relation"), Get(row, "ttype")))
  }

  /** The two `searchOne` calls of `getFieldRelation` select exactly the
      first matching metadata rows, and fail when either finds none. */
  lemma GetFieldRelationFirstMatch(svc: Service, model: string, field: string)
    ensures GetFieldRelation(svc, model, field) == FirstMatchRelation(svc, model, field)
  {
    ModelLookup(svc, model);
    match SearchOne(svc, "ir.model", ModelDomain(model))
    case Err(_) =>
    case Ok(parent) =>
      FieldLookup(svc, IdOf(parent), field);
  }

  /** The first `searchOne` of `getFieldRelation` is `find` on `ir.model`. */
  lemma ModelLookup(svc: Service, model: string)
    ensures SearchOne(svc, "ir.model", ModelDomain(model)) ==
      if !UrlOk(svc.url) then Err(MalformedUrl)
      else if "ir.model" !in svc.tables then Err(RemoteError(Str("ir.model")))
      else match Find(svc.tables["ir.model"], ModelNamed(model))
        case None => Err(NotFound("ir.model", ByDomain(ModelDomain(model))))
        case Some(row) => Ok(row)
  {
    var d := ModelDomain(model);
    forall r ensures ModelNamed(model)(r) <==> forall i :: 0 <= i < |d| ==> Get(r, d[i].field) == d[i].value {
      assert d[0] == Eq("model", Str(model));
    }
    SearchOneIsFind(svc, "ir.model", d, ModelNamed(model));
  }

  /** The second `searchOne` of `getFieldRelation` is `find` on
      `ir.model.fields`. */
  lemma FieldLookup(svc: Service, modelId: Value, field: string)
    ensures SearchOne(svc, "ir.model.fields", FieldDomain(modelId, field)) ==
      if !UrlOk(svc.url) then Err(MalformedUrl)
      else if "ir.model.fields" !in svc.tables then Err(RemoteError(Str("ir.model.fields")))
      else match Find(svc.tables["ir.model.fields"], FieldNamed(modelId, field))
        case None => Err(NotFound("ir.model.fields", ByDomain(FieldDomain(modelId, field))))
        case Some(row) => Ok(row)
  {
    var d := FieldDomain(modelId, field);
    forall r ensures FieldNamed(modelId, field)(r) <==> forall i :: 0 <= i < |d| ==> Get(r, d[i].field) == d[i].value {
      assert d[0] == Eq("model_id", modelId) && d[1] == Eq("name", Str(field));
    }
    SearchOneIsFind(svc, "ir.model.fields", d, FieldNamed(modelId, field));
  }

  /** `searchOne` with a domain of equality clauses is `find` with the
      matching predicate `p`. */
  lemma SearchOneIsFind(svc: Service, model: string, d: Domain, p: Record -> bool)
    requires forall i :: 0 <= i < |d| ==> d[i].Eq?
    requires forall r :: p(r) <==> forall i :: 0 <= i < |d| ==> Get(r, d[i].field) == d[i].value
    ensures SearchOne(svc, model, d) ==
      if !UrlOk(svc.url) then Err(MalformedUrl)
      else if model !in svc.tables then Err(RemoteError(Str(model)))
      else match Find(svc.tables[model], p)
        case None => Err(NotFound(model, ByDomain(d)))
        case Some(row) => Ok(row)
  {
    ClausesParse(d);
    if UrlOk(svc.url) && model in svc.tables {
      var rows := svc.tables[model];
      var m := Matching(Parse(d).value);
      forall r | r in rows ensures m(r) == p(r) {
        ClausesMatch(d, r);
      }
      FindCongruent(rows, m, p);
      FilterHeadIsFind(rows, m);
    }
  }
}
