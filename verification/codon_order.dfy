/** The order in which a `std::map<std::string, int>` visits its keys:
    lexicographic comparison of strings, a strict total order. */
module CodonOrder {

  /** `a` sorts strictly before `b`: the first differing character decides,
      and a proper prefix sorts first. */
  predicate LexLess(a: string, b: string)
  {
    if |a| == 0 then |b| > 0
    else |b| > 0 && (a[0] < b[0] || (a[0] == b[0] && LexLess(a[1..], b[1..])))
  }

  lemma {:induction false} LexLessIrreflexive(a: string)
    ensures !LexLess(a, a)
  {
    if |a| > 0 {
      LexLessIrreflexive(a[1..]);
    }
  }

  lemma {:induction false} LexLessTransitive(a: string, b: string, c: string)
    requires LexLess(a, b) && LexLess(b, c)
    ensures LexLess(a, c)
  {
    if |a| > 0 && a[0] == b[0] && b[0] == c[0] {
      LexLessTransitive(a[1..], b[1..], c[1..]);
    }
  }

  lemma {:induction false} LexLessTotal(a: string, b: string)
    requires a != b
    ensures LexLess(a, b) || LexLess(b, a)
  {
    if |a| > 0 && |b| > 0 && a[0] == b[0] {
      assert a == [a[0]] + a[1..] && b == [b[0]] + b[1..];
      LexLessTotal(a[1..], b[1..]);
    }
  }

  lemma LexLessAsymmetric(a: string, b: string)
    requires LexLess(a, b)
    ensures !LexLess(b, a)
  {
    if LexLess(b, a) {
      LexLessTransitive(a, b, a);
      LexLessIrreflexive(a);
    }
  }

  /** Keys listed in strictly increasing order. */
  predicate StrictlySorted(ks: seq<string>)
  {
    forall i, j :: 0 <= i < j < |ks| ==> LexLess(ks[i], ks[j])
  }

  /** The smallest string of a non-empty set. */
  method LexMin(s: set<string>) returns (m: string)
    requires s != {}
    ensures m in s
    ensures forall d :: d in s && d != m ==> LexLess(m, d)
  {
    m :| m in s;
    var rest := s - {m};
    while rest != {}
      invariant rest <= s && m in s && m !in rest
      invariant forall d :: d in s - rest && d != m ==> LexLess(m, d)
      decreases |rest|
    {
      var x :| x in rest;
      if LexLess(x, m) {
        forall d | d in s - rest && d != x
          ensures LexLess(x, d)
        {
          if d != m {
            LexLessTransitive(x, m, d);
          }
        }
        m := x;
      } else {
        LexLessTotal(m, x);
      }
      rest := rest - {x};
    }
  }

  /** The keys of a tally in the order a `std::map` iterates over them. */
  method SortedKeys(s: set<string>) returns (ks: seq<string>)
    ensures StrictlySorted(ks)
    ensures forall k :: k in ks <==> k in s
  {
    ks := [];
    var rest := s;
    while rest != {}
      invariant rest <= s
      invariant forall k :: k in ks <==> k in s - rest
      invariant StrictlySorted(ks)
      invariant forall i, r :: 0 <= i < |ks| && r in rest ==> LexLess(ks[i], r)
      decreases |rest|
    {
      var m := LexMin(rest);
      forall i, r | 0 <= i < |ks| && r in rest - {m}
        ensures LexLess(ks[i], r)
      {
        LexLessTransitive(ks[i], m, r);
      }
      ks := ks + [m];
      rest := rest - {m};
    }
  }
}
