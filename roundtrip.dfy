/** Writing with `resolveWrite` and reading back with `resolveRead` recovers
    the natural key, provided the target collection's ids are unique
    primitive values (as Odoo's integer ids are). */
module Roundtrip {
  import opened Values
  import opened Seqs
  import opened Transport
  import opened Expand
  import opened Collapse

  /** `rows.map(r => r[ff])` */
  function Project(rows: seq<Record>, ff: string): (vs: seq<Value>)
    ensures |vs| == |rows| && forall i :: 0 <= i < |rows| ==> vs[i] == Get(rows[i], ff)
  {
    seq(|rows|, i requires 0 <= i < |rows| => Get(rows[i], ff))
  }

  /** Single relation: the id `resolveWrite` stores for a natural key `v`,
      read back as the `[id, display]` pair Odoo returns, expands to the row
      whose foreign field is `v`. */
  lemma ExpandAfterCollapseSingle(table: seq<Record>, ff: string, v: Value, display: Value)
    requires UniqueIds(table)
    requires CollapsedValue(table, ff, v, false).Ok?
    ensures Find(table, ForeignIn([v], ff)).Some?
    ensures Get(Find(table, ForeignIn([v], ff)).value, ff) == v
    ensures ResolvedIn(table, List([CollapsedValue(table, ff, v, false).value, display]), false)
            == Ok(Obj(Find(table, ForeignIn([v], ff)).value))
  {
    var row := Find(table, ForeignIn([v], ff)).value;
    var id := IdOf(row);
    assert CollapsedValue(table, ff, v, false) == Ok(id);
    assert RecordIds(List([id, display]), false) == Ok([id]);
    ReadRowsOne(table, id);
    FilterUniqueId(table, row);
    FindStep([row], IdIncluded([id]));
  }

  /** many2many relation: the ids `resolveWrite` stores for natural keys `vs`
      expand to exactly the rows whose foreign field is one of `vs`, so that
      projecting them on the foreign field gives back the keys that exist. */
  lemma ExpandAfterCollapseMany(table: seq<Record>, ff: string, vs: seq<Value>)
    requires UniqueIds(table)
    ensures CollapsedValue(table, ff, List(vs), true) == Ok(List(IdsOf(Filter(table, ForeignIn(vs, ff)))))
    ensures ResolvedIn(table, List(IdsOf(Filter(table, ForeignIn(vs, ff)))), true)
            == Ok(List(Objects(Filter(table, ForeignIn(vs, ff)))))
    ensures forall x :: x in Project(Filter(table, ForeignIn(vs, ff)), ff) <==>
              Primitive(x) && x in vs && exists r :: r in table && Get(r, ff) == x
  {
    ReadBackRows(table, Filter(table, ForeignIn(vs, ff)));
    ProjectKept(table, ff, vs);
  }

  /** Reading the ids of some rows reads those of all but the last, then the
      last one's. */
  lemma ReadIdsStep(table: seq<Record>, kept: seq<Record>)
    requires kept != []
    ensures ReadRows(table, IdsOf(kept))
            == ReadRows(table, IdsOf(kept[..|kept| - 1])) + Filter(table, IdIs(IdOf(kept[|kept| - 1])))
  {
    var ids := IdsOf(kept);
    assert ids[..|ids| - 1] == IdsOf(kept[..|kept| - 1]);
  }

  /** The ids of some rows of a collection, expanded as a many2many value,
      give back those rows. */
  lemma ReadBackRows(table: seq<Record>, kept: seq<Record>)
    requires UniqueIds(table)
    requires forall r :: r in kept ==> r in table
    ensures ResolvedIn(table, List(IdsOf(kept)), true) == Ok(List(Objects(kept)))
  {
    ReadRowsOfIds(table, kept);
    ResolvedInMany(table, IdsOf(kept));
  }

  /** With unique ids, reading the ids of some rows of a collection gives
      back those rows, in their order. */
  lemma {:induction false} ReadRowsOfIds(table: seq<Record>, kept: seq<Record>)
    requires UniqueIds(table)
    requires forall r :: r in kept ==> r in table
    ensures ReadRows(table, IdsOf(kept)) == kept
    decreases |kept|
  {
    if kept != [] {
      var init := kept[..|kept| - 1];
      var last := kept[|kept| - 1];
      assert kept == init + [last];
      ReadIdsStep(table, kept);
      ReadRowsOfIds(table, init);
      FilterUniqueId(table, last);
    }
  }

  lemma ProjectKept(table: seq<Record>, ff: string, vs: seq<Value>)
    ensures forall x :: x in Project(Filter(table, ForeignIn(vs, ff)), ff) <==>
              Primitive(x) && x in vs && exists r :: r in table && Get(r, ff) == x
  {
    var kept := Filter(table, ForeignIn(vs, ff));
    var proj := Project(kept, ff);
    forall x ensures x in proj <==> Primitive(x) && x in vs && exists r :: r in table && Get(r, ff) == x {
      if Primitive(x) && x in vs && exists r :: r in table && Get(r, ff) == x {
        var r :| r in table && Get(r, ff) == x;
        assert ForeignIn(vs, ff)(r);
        var k :| 0 <= k < |kept| && kept[k] == r;
        assert proj[k] == x;
      }
      if x in proj {
        var k :| 0 <= k < |proj| && proj[k] == x;
        assert kept[k] in kept;
      }
    }
  }
}
