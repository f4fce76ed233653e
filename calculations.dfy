/**
 * Metric results (Calculation) and the order in which a node prints them.
 *
 * A Calculation is a name and a value; the value is kept in its printed
 * (textual) form because the report only ever concatenates it.  Equality is
 * structural on both parts, so a set of Calculations can hold two entries with
 * the same name and different values.
 */
module Calculations {

  datatype Calculation = Calculation(name: string, value: string)

  /** java.lang.String.compareTo: the difference of the first differing
      characters, or else the difference of the lengths. */
  function CompareTo(a: string, b: string): (r: int)
    ensures r == 0 <==> a == b
  {
    if a == [] || b == [] then |a| - |b|
    else if a[0] != b[0] then a[0] as int - b[0] as int
    else
      assert a == [a[0]] + a[1..] && b == [b[0]] + b[1..];
      CompareTo(a[1..], b[1..])
  }

  lemma {:induction false} CompareToAntisymmetric(a: string, b: string)
    ensures CompareTo(b, a) == -CompareTo(a, b)
  {
    if a != [] && b != [] && a[0] == b[0] {
      CompareToAntisymmetric(a[1..], b[1..]);
    }
  }

  lemma {:induction false} CompareToTransitive(a: string, b: string, c: string)
    requires CompareTo(a, b) < 0 && CompareTo(b, c) < 0
    ensures CompareTo(a, c) < 0
  {
    if a != [] && b != [] && c != [] && a[0] == b[0] && b[0] == c[0] {
      CompareToTransitive(a[1..], b[1..], c[1..]);
    }
  }

  /** The strict total order used to list a node's metrics: by name as the
      source's comparator does, then by value for same-named metrics. */
  predicate CalcLess(x: Calculation, y: Calculation)
  {
    CompareTo(x.name, y.name) < 0 || (x.name == y.name && CompareTo(x.value, y.value) < 0)
  }

  lemma CalcLessTotal(x: Calculation, y: Calculation)
    requires x != y
    ensures CalcLess(x, y) != CalcLess(y, x)
  {
    CompareToAntisymmetric(x.name, y.name);
    CompareToAntisymmetric(x.value, y.value);
  }

  lemma CalcLessTransitive(x: Calculation, y: Calculation, z: Calculation)
    requires CalcLess(x, y) && CalcLess(y, z)
    ensures CalcLess(x, z)
  {
    if CompareTo(x.name, y.name) < 0 && CompareTo(y.name, z.name) < 0 {
      CompareToTransitive(x.name, y.name, z.name);
    } else if x.name == y.name && y.name == z.name {
      CompareToTransitive(x.value, y.value, z.value);
    }
  }

  /** m is the first element of s in the print order. */
  predicate IsLeast(m: Calculation, s: set<Calculation>)
  {
    m in s && forall y | y in s && y != m :: CalcLess(m, y)
  }

  lemma {:induction false} LeastExists(s: set<Calculation>)
    requires s != {}
    ensures exists m :: IsLeast(m, s)
    decreases |s|
  {
    var x :| x in s;
    if s != {x} {
      LeastExists(s - {x});
      var m :| IsLeast(m, s - {x});
      CalcLessTotal(x, m);
      if CalcLess(x, m) {
        forall y | y in s && y != x
          ensures CalcLess(x, y)
        {
          if y != m { CalcLessTransitive(x, m, y); }
        }
        assert IsLeast(x, s);
      } else {
        assert IsLeast(m, s);
      }
    } else {
      assert IsLeast(x, s);
    }
  }

  lemma LeastUnique(m1: Calculation, m2: Calculation, s: set<Calculation>)
    requires IsLeast(m1, s) && IsLeast(m2, s)
    ensures m1 == m2
  {
    if m1 != m2 {
      CalcLessTotal(m1, m2);
    }
  }

  /** The metrics of a node in the order they are printed: each of them once. */
  ghost function SortedMetrics(s: set<Calculation>): (r: seq<Calculation>)
    ensures |r| == |s|
    ensures forall x :: x in r <==> x in s
    decreases |s|
  {
    if s == {} then []
    else
      LeastExists(s);
      var m :| IsLeast(m, s);
      [m] + SortedMetrics(s - {m})
  }

  /** The printed order is strictly increasing, hence never out of name order
      and free of repetitions. */
  lemma {:induction false} SortedMetricsOrdered(s: set<Calculation>)
    ensures var r := SortedMetrics(s);
      forall i, j :: 0 <= i < j < |r| ==> CalcLess(r[i], r[j]) && CompareTo(r[i].name, r[j].name) <= 0
    decreases |s|
  {
    if s != {} {
      var r := SortedMetrics(s);
      var m := r[0];
      assert IsLeast(m, s) by {
        LeastExists(s);
        var m' :| IsLeast(m', s);
        SortedMetricsUnfold(s, m');
      }
      SortedMetricsUnfold(s, m);
      SortedMetricsOrdered(s - {m});
      forall i, j | 0 <= i < j < |r|
        ensures CalcLess(r[i], r[j]) && CompareTo(r[i].name, r[j].name) <= 0
      {
        if i == 0 {
          assert r[j] in s - {m};
        }
        if !(CompareTo(r[i].name, r[j].name) < 0) {
          assert r[i].name == r[j].name;
        }
      }
    }
  }

  lemma SortedMetricsUnfold(s: set<Calculation>, m: Calculation)
    requires IsLeast(m, s)
    ensures SortedMetrics(s) == [m] + SortedMetrics(s - {m})
  {
    var r := SortedMetrics(s);
    assert r[0] in s;
    forall y | y in s && y != r[0]
      ensures CalcLess(r[0], y)
    {
      var j :| 0 <= j < |r| && r[j] == y;
    }
    LeastUnique(r[0], m, s);
  }

  /** `metrics.stream().sorted(byName).collect(toList())` in Node.toString. */
  method SortMetrics(metrics: set<Calculation>) returns (sorted: seq<Calculation>)
    ensures sorted == SortedMetrics(metrics)
  {
    sorted := [];
    var rest := metrics;
    while rest != {}
      invariant sorted + SortedMetrics(rest) == SortedMetrics(metrics)
      decreases |rest|
    {
      LeastExists(rest);
      var m :| IsLeast(m, rest);
      SortStep(sorted, rest, m);
      sorted := sorted + [m];
      rest := rest - {m};
    }
  }

  lemma SortStep(sorted: seq<Calculation>, rest: set<Calculation>, m: Calculation)
    requires IsLeast(m, rest)
    ensures |rest - {m}| < |rest|
    ensures (sorted + [m]) + SortedMetrics(rest - {m}) == sorted + SortedMetrics(rest)
  {
    SortedMetricsUnfold(rest, m);
  }
}
