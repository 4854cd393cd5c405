/** The `raw` JSON-RPC call, with the remote Odoo service replaced by
    in-memory tables: one sequence of records per collection. Only the
    `read`, `search` and `search_read` methods the resolution engine and the
    read verbs use are modelled. */
module Transport {
  import opened Values
  import opened Seqs
  import opened Domains

  /** The client's base URL and the service's collections. */
  datatype Service = Service(url: string, tables: map<string, seq<Record>>)

  /** The `offset`/`limit` keyword arguments of `search_read`; as in Odoo, a
      zero limit means no limit. */
  datatype Window = Window(offset: nat, limit: nat)

  const Unbounded := Window(0, 0)

  predicate StartsWith(s: string, prefix: string)
  {
    |prefix| <= |s| && s[..|prefix|] == prefix
  }

  /** The URLs `raw` accepts: those that begin with `http`. */
  predicate UrlOk(url: string)
  {
    |url| >= 4 && url[..4] == "http"
  }

  /** `raw`'s guard: the URL must be non-empty and start with `http`. Then the
      collection must exist on the service. */
  function Table(svc: Service, model: string): (r: Result<seq<Record>>)
    ensures r == Err(MalformedUrl) <==> !UrlOk(svc.url)
    ensures r.Ok? <==> UrlOk(svc.url) && model in svc.tables
    ensures r.Ok? ==> r.value == svc.tables[model]
    ensures UrlOk(svc.url) && model !in svc.tables ==> r == Err(RemoteError(Str(model)))
  {
    if svc.url == "" || !StartsWith(svc.url, "http") then Err(MalformedUrl)
    else if model !in svc.tables then Err(RemoteError(Str(model)))
    else Ok(svc.tables[model])
  }

  /** The rows that carry the id `id`. */
  function IdIs(id: Value): Record -> bool
  {
    r => IdOf(r) == id
  }

  /** The service side of `read`, as Odoo's `read` answers it: the rows for
      each requested id, in the order of the request. A repeated id repeats
      its row; an id no row carries is skipped. */
  function ReadRows(rows: seq<Record>, ids: seq<Value>): (out: seq<Record>)
    decreases |ids|
  {
    if ids == [] then []
    else ReadRows(rows, ids[..|ids| - 1]) + Filter(rows, IdIs(ids[|ids| - 1]))
  }

  /** `read` answers with exactly the rows whose id was requested. */
  lemma {:induction false} ReadRowsMembers(rows: seq<Record>, ids: seq<Value>)
    ensures forall r :: r in ReadRows(rows, ids) <==> r in rows && IdOf(r) in ids
    decreases |ids|
  {
    if ids != [] {
      ReadRowsMembers(rows, ids[..|ids| - 1]);
      assert ids == ids[..|ids| - 1] + [ids[|ids| - 1]];
    }
  }

  /** Odoo's ids: every row of a collection has its own id, and ids are
      plain values (integers). */
  predicate UniqueIds(table: seq<Record>)
  {
    && (forall i, j :: 0 <= i < |table| && 0 <= j < |table| && IdOf(table[i]) == IdOf(table[j]) ==> i == j)
    && (forall r :: r in table ==> Primitive(IdOf(r)))
  }

  /** Every collection of the service has unique ids. */
  predicate IdsUnique(svc: Service)
  {
    forall m :: m in svc.tables ==> UniqueIds(svc.tables[m])
  }

  lemma SameIdSameRow(table: seq<Record>, r: Record, s: Record)
    requires UniqueIds(table)
    requires r in table && s in table && IdOf(r) == IdOf(s)
    ensures r == s
  {
    var i :| 0 <= i < |table| && table[i] == r;
    var j :| 0 <= j < |table| && table[j] == s;
  }

  /** Reading the ids of `a` then those of `b` reads the ids of `a + b`. */
  lemma {:induction false} ReadRowsConcat(rows: seq<Record>, a: seq<Value>, b: seq<Value>)
    ensures ReadRows(rows, a + b) == ReadRows(rows, a) + ReadRows(rows, b)
    decreases |b|
  {
    if b == [] {
      assert a + b == a;
    } else {
      var init := b[..|b| - 1];
      var last := Filter(rows, IdIs(b[|b| - 1]));
      assert (a + b)[..|a + b| - 1] == a + init;
      assert ReadRows(rows, a + b) == ReadRows(rows, a + init) + last;
      ReadRowsConcat(rows, a, init);
      assert ReadRows(rows, b) == ReadRows(rows, init) + last;
    }
  }

  /** `read` of ids no row carries answers with nothing. */
  lemma {:induction false} ReadRowsNone(rows: seq<Record>, ids: seq<Value>)
    requires forall r :: r in rows ==> IdOf(r) !in ids
    ensures ReadRows(rows, ids) == []
    decreases |ids|
  {
    if ids != [] {
      var init := ids[..|ids| - 1];
      assert forall x :: x in init ==> x in ids;
      ReadRowsNone(rows, init);
      FilterNone(rows, IdIs(ids[|ids| - 1]));
    }
  }

  lemma ReadRowsOne(rows: seq<Record>, id: Value)
    ensures ReadRows(rows, [id]) == Filter(rows, IdIs(id))
  {
    assert [id][..0] == [];
  }

  /** With unique ids, the rows carrying a row's id are that row alone. */
  lemma {:induction false} FilterUniqueId(table: seq<Record>, s: Record)
    requires UniqueIds(table) && s in table
    ensures Filter(table, IdIs(IdOf(s))) == [s]
  {
    var rest := table[1..];
    assert UniqueIds(rest) by {
      forall i, j | 0 <= i < |rest| && 0 <= j < |rest| && IdOf(rest[i]) == IdOf(rest[j])
        ensures i == j
      {
        assert rest[i] == table[i + 1] && rest[j] == table[j + 1];
      }
    }
    if table[0] == s {
      forall r | r in rest ensures !IdIs(IdOf(s))(r) {
        var j :| 0 <= j < |rest| && rest[j] == r;
        assert table[j + 1] == r;
      }
      FilterNone(rest, IdIs(IdOf(s)));
    } else {
      assert IdOf(table[0]) != IdOf(s) by {
        if IdOf(table[0]) == IdOf(s) {
          SameIdSameRow(table, table[0], s);
        }
      }
      FilterUniqueId(rest, s);
    }
  }

  /** The service side of `search`: the rows satisfying every top-level term. */
  function Matching(es: seq<Expr>): Record -> bool
  {
    r => HoldsAll(es, r)
  }

  function Page(rows: seq<Record>, w: Window): (page: seq<Record>)
    ensures |page| <= |rows|
    ensures forall x :: x in page ==> x in rows
  {
    var start := if w.offset < |rows| then w.offset else |rows|;
    var end := if w.limit == 0 || start + w.limit > |rows| then |rows| else start + w.limit;
    rows[start..end]
  }

  /** `raw(model, 'read', [ids])` */
  function RawRead(svc: Service, model: string, ids: seq<Value>): Result<seq<Record>>
  {
    var rows :- Table(svc, model);
    Ok(ReadRows(rows, ids))
  }

  /** `raw(model, 'search_read', [domain], {offset, limit})` */
  function RawSearchRead(svc: Service, model: string, domain: Domain, w: Window): Result<seq<Record>>
  {
    var rows :- Table(svc, model);
    match Parse(domain)
    case None => Err(RemoteError(Str(model)))
    case Some(es) => Ok(Page(Filter(rows, Matching(es)), w))
  }

  /** `raw(model, 'search', [domain])` */
  function RawSearch(svc: Service, model: string, domain: Domain): Result<seq<Value>>
  {
    var rows :- RawSearchRead(svc, model, domain, Unbounded);
    Ok(IdsOf(rows))
  }

  /** Searching with the empty domain selects every row. */
  lemma {:induction false} EmptyDomainSelectsAll(rows: seq<Record>)
    ensures Parse([]) == Some([])
    ensures Filter(rows, Matching([])) == rows
  {
    if rows != [] {
      EmptyDomainSelectsAll(rows[1..]);
      assert Matching([])(rows[0]);
      assert [rows[0]] + rows[1..] == rows;
    }
  }
}
