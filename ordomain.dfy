/** The search domain `resolveWrite` sends for a natural-key value: one
    equality clause for a scalar, and for a list `[v1, ..., vn]` the prefix
    OR `['|', c1, '|', c2, ..., '|', c(n-1), cn]`. */
module OrDomains {
  import opened Values
  import opened Domains

  /** The domain the source means to build: a right-nested OR of one clause
      per value, and no term at all for no value. */
  function OrDomain(ff: string, vs: seq<Value>): Domain
    decreases |vs|
  {
    if |vs| == 0 then []
    else if |vs| == 1 then [Eq(ff, vs[0])]
    else [Or, Eq(ff, vs[0])] + OrDomain(ff, vs[1..])
  }

  /** The domain for the value under the key: a list gives the OR of its
      elements, anything else one clause. */
  function DomainFor(ff: string, raw: Value): Domain
  {
    if raw.List? then OrDomain(ff, raw.items) else [Eq(ff, raw)]
  }

  /** `domain` after `domain.push('|', [ff, '=', v])` for every `v` of `vs`. */
  function Pairs(ff: string, vs: seq<Value>): (d: Domain)
    ensures |d| == 2 * |vs|
  {
    seq(2 * |vs|, k requires 0 <= k < 2 * |vs| => if k % 2 == 0 then Or else Eq(ff, vs[k / 2]))
  }

  /** `s.splice(start, 1)` on a copy: a negative start counts from the end
      and is clamped at 0; a start past the end removes nothing. */
  function SpliceOne<T>(s: seq<T>, start: int): (r: seq<T>)
    ensures |s| == 0 ==> r == s
  {
    var a := if start < 0 then (if |s| + start < 0 then 0 else |s| + start)
             else if start > |s| then |s| else start;
    if a < |s| then s[..a] + s[a + 1..] else s
  }

  /** The domain builder of `resolveWrite`: one `push` of `'|'` and a clause
      per element of a list, then `splice` of the element two from the end;
      a single `push` of one clause for any other value. */
  method BuildDomain(ff: string, raw: Value) returns (domain: Domain)
    ensures domain == DomainFor(ff, raw)
  {
    domain := [];
    if raw.List? {
      var vs := raw.items;
      var i := 0;
      while i < |vs|
        invariant 0 <= i <= |vs|
        invariant domain == Pairs(ff, vs[..i])
      {
        domain := domain + [Or, Eq(ff, vs[i])];
        i := i + 1;
        PairsPush(ff, vs, i);
      }
      assert vs[..i] == vs;
      SpliceLastOr(ff, vs);
      domain := SpliceOne(domain, |domain| - 2);
    } else {
      domain := domain + [Eq(ff, raw)];
    }
  }

  lemma PairsPush(ff: string, vs: seq<Value>, i: nat)
    requires 0 < i <= |vs|
    ensures Pairs(ff, vs[..i]) == Pairs(ff, vs[..i - 1]) + [Or, Eq(ff, vs[i - 1])]
  {
    var a := Pairs(ff, vs[..i]);
    var b := Pairs(ff, vs[..i - 1]) + [Or, Eq(ff, vs[i - 1])];
    assert |a| == |b|;
    forall k | 0 <= k < |a| ensures a[k] == b[k] {
      if k < 2 * (i - 1) {
        assert vs[..i][k / 2] == vs[..i - 1][k / 2];
      }
    }
  }

  /** Removing the last `'|'` from the pushed pairs leaves the OR domain. */
  lemma SpliceLastOr(ff: string, vs: seq<Value>)
    ensures SpliceOne(Pairs(ff, vs), 2 * |vs| - 2) == OrDomain(ff, vs)
  {
    var n := |vs|;
    if n > 0 {
      var p := Pairs(ff, vs);
      SpliceOneAt(p, 2 * n - 2);
      var a := p[..2 * n - 2] + p[2 * n - 1..];
      OrDomainLast(ff, vs);
      forall k | 0 <= k < |a| ensures a[k] == OrDomain(ff, vs)[k] {
        SplicedAt(ff, vs, k);
      }
      assert a == OrDomain(ff, vs);
    }
  }

  lemma SplicedAt(ff: string, vs: seq<Value>, k: nat)
    requires k < 2 * |vs| - 1
    ensures k < |OrDomain(ff, vs)|
    ensures (Pairs(ff, vs)[..2 * |vs| - 2] + Pairs(ff, vs)[2 * |vs| - 1..])[k] == OrDomain(ff, vs)[k]
  {
    var n := |vs|;
    var p := Pairs(ff, vs);
    OrDomainLast(ff, vs);
    if k < 2 * n - 2 {
      assert (p[..2 * n - 2] + p[2 * n - 1..])[k] == p[k];
      OrDomainAt(ff, vs, k);
    } else {
      assert (p[..2 * n - 2] + p[2 * n - 1..])[k] == p[2 * n - 1];
      PairsLast(ff, vs);
    }
  }

  lemma SpliceOneAt<T>(s: seq<T>, i: nat)
    requires i < |s|
    ensures SpliceOne(s, i) == s[..i] + s[i + 1..]
  {
  }

  lemma PairsLast(ff: string, vs: seq<Value>)
    requires |vs| > 0
    ensures Pairs(ff, vs)[2 * |vs| - 1] == Eq(ff, vs[|vs| - 1])
  {
    assert (2 * |vs| - 1) / 2 == |vs| - 1;
  }

  /** The OR domain of n >= 1 values has 2n - 1 terms and ends with the last
      value's clause. */
  lemma OrDomainLast(ff: string, vs: seq<Value>)
    requires |vs| > 0
    ensures |OrDomain(ff, vs)| == 2 * |vs| - 1
    ensures OrDomain(ff, vs)[2 * |vs| - 2] == Eq(ff, vs[|vs| - 1])
  {
    OrDomainShape(ff, vs);
  }

  /** Before its last clause, the OR domain alternates like the pushed pairs. */
  lemma OrDomainAt(ff: string, vs: seq<Value>, k: nat)
    requires k < 2 * |vs| - 2
    ensures k < |OrDomain(ff, vs)| && OrDomain(ff, vs)[k] == if k % 2 == 0 then Or else Eq(ff, vs[k / 2])
  {
    OrDomainShape(ff, vs);
    var i := k / 2;
    if k % 2 == 0 {
      assert k == 2 * i;
    } else {
      assert k == 2 * i + 1;
    }
  }

  /** The shape of the OR domain for n >= 1 values: 2n - 1 terms, `'|'` at
      every even position before the last clause, the i-th clause at odd
      position 2i + 1, and the last value's clause at the end. */
  lemma {:induction false} OrDomainShape(ff: string, vs: seq<Value>)
    requires |vs| > 0
    ensures |OrDomain(ff, vs)| == 2 * |vs| - 1
    ensures forall i :: 0 <= i < |vs| - 1 ==> OrDomain(ff, vs)[2 * i] == Or
    ensures forall i :: 0 <= i < |vs| - 1 ==> OrDomain(ff, vs)[2 * i + 1] == Eq(ff, vs[i])
    ensures OrDomain(ff, vs)[2 * |vs| - 2] == Eq(ff, vs[|vs| - 1])
    decreases |vs|
  {
    if |vs| > 1 {
      var tail := vs[1..];
      OrDomainShape(ff, tail);
      var d := OrDomain(ff, vs);
      assert d == [Or, Eq(ff, vs[0])] + OrDomain(ff, tail);
      forall i | 1 <= i < |vs| - 1
        ensures d[2 * i] == Or && d[2 * i + 1] == Eq(ff, vs[i])
      {
        assert d[2 * i] == OrDomain(ff, tail)[2 * (i - 1)];
        assert d[2 * i + 1] == OrDomain(ff, tail)[2 * (i - 1) + 1];
        assert tail[i - 1] == vs[i];
      }
    }
  }

  /** The parsed form of the OR domain. */
  function OrExpr(ff: string, vs: seq<Value>): Expr
    requires |vs| > 0
    decreases |vs|
  {
    if |vs| == 1 then Clause(ff, vs[0]) else Either(Clause(ff, vs[0]), OrExpr(ff, vs[1..]))
  }

  /** The OR domain is one well-formed prefix term, whatever follows it. */
  lemma {:induction false} OrDomainParsesAsOneTerm(ff: string, vs: seq<Value>, rest: Domain)
    requires |vs| > 0
    ensures ParseTerm(OrDomain(ff, vs) + rest) == Some((OrExpr(ff, vs), rest))
    decreases |vs|
  {
    if |vs| > 1 {
      var tail := vs[1..];
      OrDomainParsesAsOneTerm(ff, tail, rest);
      var d := OrDomain(ff, vs) + rest;
      assert d == [Or, Eq(ff, vs[0])] + (OrDomain(ff, tail) + rest);
      assert d[1..] == [Eq(ff, vs[0])] + (OrDomain(ff, tail) + rest);
      assert ParseTerm(d[1..]) == Some((Clause(ff, vs[0]), OrDomain(ff, tail) + rest));
    } else {
      assert (OrDomain(ff, vs) + rest)[1..] == rest;
    }
  }

  /** A record satisfies the OR term exactly when its field holds one of the
      values. */
  lemma {:induction false} OrExprHolds(ff: string, vs: seq<Value>, r: Record)
    requires |vs| > 0
    ensures Holds(OrExpr(ff, vs), r) <==> Get(r, ff) in vs
    decreases |vs|
  {
    if |vs| > 1 {
      OrExprHolds(ff, vs[1..], r);
      assert vs == [vs[0]] + vs[1..];
    }
  }

  /** What the domain for a value selects: every record for an empty list,
      the records whose field is one of the elements for a non-empty list,
      and the records whose field equals the value otherwise. */
  lemma DomainForSelects(ff: string, raw: Value, r: Record)
    ensures Parse(DomainFor(ff, raw)).Some?
    ensures HoldsAll(Parse(DomainFor(ff, raw)).value, r) <==>
              if raw.List? then raw.items == [] || Get(r, ff) in raw.items else Get(r, ff) == raw
  {
    if raw.List? && raw.items != [] {
      var vs := raw.items;
      OrDomainParsesAsOneTerm(ff, vs, []);
      assert OrDomain(ff, vs) + [] == OrDomain(ff, vs);
      assert [OrExpr(ff, vs)] + [] == [OrExpr(ff, vs)];
      assert Parse(OrDomain(ff, vs)) == Some([OrExpr(ff, vs)]);
      OrExprHolds(ff, vs, r);
      HoldsAllOne(OrExpr(ff, vs), r);
    } else if !raw.List? {
      assert DomainFor(ff, raw)[1..] == [];
      assert ParseTerm(DomainFor(ff, raw)) == Some((Clause(ff, raw), []));
      assert [Clause(ff, raw)] + [] == [Clause(ff, raw)];
      assert Parse(DomainFor(ff, raw)) == Some([Clause(ff, raw)]);
      HoldsAllOne(Clause(ff, raw), r);
    }
  }

  lemma HoldsAllOne(e: Expr, r: Record)
    ensures HoldsAll([e], r) <==> Holds(e, r)
  {
    assert [e][0] == e;
  }
}
