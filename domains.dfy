/** The meaning of an Odoo search domain, as the in-memory service evaluates it:
    a list of terms in prefix (Polish) notation, where `'|'` takes the next two
    terms as operands and the top-level terms are implicitly AND-ed. */
module Domains {
  import opened Values

  /** A parsed term. */
  datatype Expr = Clause(field: string, value: Value) | Either(left: Expr, right: Expr)

  /** Reads one term off the front of `d`; `None` when an operator lacks an
      operand. */
  function ParseTerm(d: Domain): (r: Option<(Expr, Domain)>)
    ensures r.Some? ==> |r.value.1| < |d|
    decreases |d|
  {
    if d == [] then None
    else match d[0]
      case Eq(f, v) => Some((Clause(f, v), d[1..]))
      case Or =>
        match ParseTerm(d[1..])
        case None => None
        case Some((l, rest)) =>
          match ParseTerm(rest)
          case None => None
          case Some((r, rest')) => Some((Either(l, r), rest'))
  }

  /** The top-level terms of a domain; `None` for a malformed domain. */
  function Parse(d: Domain): Option<seq<Expr>>
    decreases |d|
  {
    if d == [] then Some([])
    else match ParseTerm(d)
      case None => None
      case Some((e, rest)) =>
        match Parse(rest)
        case None => None
        case Some(es) => Some([e] + es)
  }

  function Holds(e: Expr, r: Record): bool
  {
    match e
    case Clause(f, v) => Get(r, f) == v
    case Either(a, b) => Holds(a, r) || Holds(b, r)
  }

  /** The implicit AND of the top-level terms. */
  predicate HoldsAll(es: seq<Expr>, r: Record)
  {
    forall i :: 0 <= i < |es| ==> Holds(es[i], r)
  }

  /** A domain made only of equality clauses parses to those clauses, one
      top-level term each: the shape `getFieldRelation` and the single-value
      branch of `resolveWrite` send. */
  lemma {:induction false} ClausesParse(d: Domain)
    requires forall i :: 0 <= i < |d| ==> d[i].Eq?
    ensures Parse(d).Some? && |Parse(d).value| == |d|
    ensures forall i :: 0 <= i < |d| ==> Parse(d).value[i] == Clause(d[i].field, d[i].value)
  {
    if d != [] {
      ClausesParse(d[1..]);
      assert ParseTerm(d) == Some((Clause(d[0].field, d[0].value), d[1..]));
      var es := Parse(d[1..]).value;
      assert Parse(d).value == [Clause(d[0].field, d[0].value)] + es;
    }
  }

  /** A record matches a domain of equality clauses exactly when every
      clause's field holds the clause's value. */
  lemma ClausesMatch(d: Domain, r: Record)
    requires forall i :: 0 <= i < |d| ==> d[i].Eq?
    ensures Parse(d).Some?
    ensures HoldsAll(Parse(d).value, r) <==> forall i :: 0 <= i < |d| ==> Get(r, d[i].field) == d[i].value
  {
    ClausesParse(d);
    var es := Parse(d).value;
    assert forall i :: 0 <= i < |d| ==> (Holds(es[i], r) <==> Get(r, d[i].field) == d[i].value);
  }
}
