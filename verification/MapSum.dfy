// The sum of a measure over the values of a map, used to show that the threads of a protocol run
// out of steps.

module MapSum {

  ghost function SumOf<P>(m: map<nat, P>, f: P -> nat): nat
    decreases |m.Keys|
  {
    if m.Keys == {} then 0
    else
      var k :| k in m.Keys;
      assert (m - {k}).Keys == m.Keys - {k};
      f(m[k]) + SumOf(m - {k}, f)
  }

  lemma {:induction false} SumSplit<P>(m: map<nat, P>, f: P -> nat, k: nat)
    requires k in m
    ensures SumOf(m, f) == f(m[k]) + SumOf(m - {k}, f)
    decreases |m.Keys|
  {
    var j :| j in m.Keys && SumOf(m, f) == f(m[j]) + SumOf(m - {j}, f);
    assert (m - {j}).Keys == m.Keys - {j} && (m - {k}).Keys == m.Keys - {k};
    if j != k {
      SumSplit(m - {j}, f, k);
      SumSplit(m - {k}, f, j);
      assert (m - {j}) - {k} == (m - {k}) - {j};
    }
  }

  lemma SumUpdate<P>(m: map<nat, P>, f: P -> nat, k: nat, p: P)
    requires k in m
    ensures SumOf(m[k := p], f) == SumOf(m, f) - f(m[k]) + f(p)
  {
    SumSplit(m, f, k);
    SumSplit(m[k := p], f, k);
    assert m[k := p] - {k} == m - {k};
  }
}
