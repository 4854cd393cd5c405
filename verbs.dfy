/** The verb layer of `OdooRPC`: each read or search verb makes one `raw` call
    and fails when the service answers with nothing; `write` and `unlink`
    accept a single id where an id list is expected. The `resolveFields` step
    of the read verbs is in module Client. */
module Verbs {
  import opened Values
  import opened Seqs
  import opened Domains
  import opened Transport

  /** `read({model, id})`: the first row returned for `[id]`. */
  function Read(svc: Service, model: string, id: Value): (r: Result<Record>)
    ensures RawRead(svc, model, [id]).Err? ==> r == RawRead(svc, model, [id]).PropagateFailure()
    ensures r == Err(NotFound(model, ByIds([id]))) <==> RawRead(svc, model, [id]) == Ok([])
    ensures r.Ok? <==> UrlOk(svc.url) && model in svc.tables && exists row :: row in svc.tables[model] && IdOf(row) == id
    ensures r.Ok? ==> Some(r.value) == Find(svc.tables[model], IdIs(id))
  {
    var res :- RawRead(svc, model, [id]);
    ReadRowsOne(svc.tables[model], id);
    FilterHeadIsFind(svc.tables[model], IdIs(id));
    if |res| == 0 then Err(NotFound(model, ByIds([id]))) else Ok(res[0])
  }

  /** `readMany({model, ids})`: every row returned for `ids`, never none. */
  function ReadMany(svc: Service, model: string, ids: seq<Value>): (r: Result<seq<Record>>)
    ensures RawRead(svc, model, ids).Err? ==> r == RawRead(svc, model, ids)
    ensures r == Err(NotFound(model, ByIds(ids))) <==> RawRead(svc, model, ids) == Ok([])
    ensures r.Ok? <==> UrlOk(svc.url) && model in svc.tables && exists row :: row in svc.tables[model] && IdOf(row) in ids
    ensures r.Ok? ==> r.value != [] && r.value == ReadRows(svc.tables[model], ids)
  {
    var data :- RawRead(svc, model, ids);
    ReadRowsMembers(svc.tables[model], ids);
    assert data != [] ==> data[0] in data;
    if |data| == 0 then Err(NotFound(model, ByIds(ids))) else Ok(data)
  }

  /** `searchMany({model, domain})`, with the offset and limit `list` adds. */
  function SearchMany(svc: Service, model: string, domain: Domain, w: Window): (r: Result<seq<Record>>)
    ensures RawSearchRead(svc, model, domain, w).Err? ==> r == RawSearchRead(svc, model, domain, w)
    ensures r == Err(NotFound(model, ByDomain(domain))) <==> RawSearchRead(svc, model, domain, w) == Ok([])
    ensures r.Ok? <==> RawSearchRead(svc, model, domain, w).Ok? && RawSearchRead(svc, model, domain, w).value != []
    ensures r.Ok? ==> r.value != [] && RawSearchRead(svc, model, domain, w) == Ok(r.value)
  {
    var data :- RawSearchRead(svc, model, domain, w);
    if |data| == 0 then Err(NotFound(model, ByDomain(domain))) else Ok(data)
  }

  /** `searchOne({model, domain})`: the first row satisfying `domain`. */
  function SearchOne(svc: Service, model: string, domain: Domain): (r: Result<Record>)
    ensures RawSearchRead(svc, model, domain, Unbounded).Err? ==> r == RawSearchRead(svc, model, domain, Unbounded).PropagateFailure()
    ensures r == Err(NotFound(model, ByDomain(domain))) <==> RawSearchRead(svc, model, domain, Unbounded) == Ok([])
    ensures r.Ok? <==> UrlOk(svc.url) && model in svc.tables && Parse(domain).Some?
                       && exists row :: row in svc.tables[model] && HoldsAll(Parse(domain).value, row)
    ensures r.Ok? ==> Some(r.value) == Find(svc.tables[model], Matching(Parse(domain).value))
  {
    var res :- RawSearchRead(svc, model, domain, Unbounded);
    FilterHeadIsFind(svc.tables[model], Matching(Parse(domain).value));
    if |res| == 0 then Err(NotFound(model, ByDomain(domain))) else Ok(res[0])
  }

  /** `searchId({model, domain})`: the id of the first row satisfying `domain`. */
  function SearchId(svc: Service, model: string, domain: Domain): (r: Result<Value>)
    ensures RawSearch(svc, model, domain).Err? ==> r == RawSearch(svc, model, domain).PropagateFailure()
    ensures r == Err(NotFound(model, ByDomain(domain))) <==> RawSearch(svc, model, domain) == Ok([])
    ensures r.Ok? <==> RawSearch(svc, model, domain).Ok? && RawSearch(svc, model, domain).value != []
    ensures r.Ok? ==> exists row :: Find(svc.tables[model], Matching(Parse(domain).value)) == Some(row) && r.value == IdOf(row)
  {
    var data :- RawSearch(svc, model, domain);
    FilterHeadIsFind(svc.tables[model], Matching(Parse(domain).value));
    if |data| > 0 then Ok(data[0]) else Err(NotFound(model, ByDomain(domain)))
  }

  /** `searchIds({model, domain})`: the ids of every row satisfying `domain`. */
  function SearchIds(svc: Service, model: string, domain: Domain): (r: Result<seq<Value>>)
    ensures RawSearch(svc, model, domain).Err? ==> r == RawSearch(svc, model, domain)
    ensures r == Err(NotFound(model, ByDomain(domain))) <==> RawSearch(svc, model, domain) == Ok([])
    ensures r.Ok? <==> RawSearch(svc, model, domain).Ok? && RawSearch(svc, model, domain).value != []
    ensures r.Ok? ==> r.value != [] && r.value == IdsOf(Filter(svc.tables[model], Matching(Parse(domain).value)))
  {
    var data :- RawSearch(svc, model, domain);
    if |data| > 0 then Ok(data) else Err(NotFound(model, ByDomain(domain)))
  }

  /** `list({model, offset, limit})`: one page of the whole collection; with
      the defaults, `list({model})` is `List(svc, model, 0, 100)`. Its own
      "Nothing found" guard never fires, because `searchMany` has already
      failed on an empty page. */
  function List(svc: Service, model: string, offset: nat, limit: nat): (r: Result<seq<Record>>)
    ensures r.Ok? <==> UrlOk(svc.url) && model in svc.tables && Page(svc.tables[model], Window(offset, limit)) != []
    ensures r.Ok? ==> r.value == Page(svc.tables[model], Window(offset, limit))
    ensures r != Err(NotFound(model, Everything))
  {
    EmptyDomainSelectsAll(if model in svc.tables then svc.tables[model] else []);
    var data :- SearchMany(svc, model, [], Window(offset, limit));
    if |data| == 0 then Err(NotFound(model, Everything)) else Ok(data)
  }

  /** `if (!Array.isArray(ids)) ids = [ids]` in `write` and `unlink`. */
  function NormalizeIds(ids: Value): (r: seq<Value>)
    ensures ids.List? ==> r == ids.items
    ensures !ids.List? ==> r == [ids]
  {
    if !ids.List? then [ids] else ids.items
  }

  /** A single id and the one-element list holding it name the same records,
      and normalising twice changes nothing. */
  lemma NormalizeIdsCanonical(ids: Value)
    ensures !ids.List? ==> NormalizeIds(ids) == NormalizeIds(Value.List([ids]))
    ensures NormalizeIds(Value.List(NormalizeIds(ids))) == NormalizeIds(ids)
  {
  }
}
