/**
 * Node.toString(level): a pre-order text rendering of the result tree.
 * Each node prints its name after `level` spaces, then one line per metric
 * (`level` spaces, `+name: value`) in name order, then its children one
 * level deeper.
 */
module Rendering {

  import opened Calculations
  import opened ResultTree

  /** StringUtils.repeat(' ', level). */
  function Indent(level: nat): (s: string)
    ensures |s| == level && forall i :: 0 <= i < level ==> s[i] == ' '
  {
    seq(level, _ => ' ')
  }

  function MetricLine(m: Calculation, level: nat): string
  {
    Indent(level) + "+" + m.name + ": " + m.value + "\n"
  }

  function MetricLines(ms: seq<Calculation>, level: nat): string
  {
    if ms == [] then "" else MetricLines(ms[..|ms| - 1], level) + MetricLine(ms[|ms| - 1], level)
  }

  ghost function Render(n: Node, level: nat): string
    decreases n, 1
  {
    Indent(level) + n.name + "\n" + MetricLines(SortedMetrics(n.metrics), level) + RenderForest(n.children, level + 1)
  }

  ghost function RenderForest(cs: seq<Node>, level: nat): string
    decreases cs, 0
  {
    if cs == [] then "" else RenderForest(cs[..|cs| - 1], level) + Render(cs[|cs| - 1], level)
  }

  /** The StringBuilder loops of Node.toString: the name line, the metric
      lines in sorted order, then each child one level deeper. */
  method RenderNode(n: Node, level: nat) returns (s: string)
    ensures s == Render(n, level)
    decreases n
  {
    var sorted := SortMetrics(n.metrics);
    var lines := "";
    var i := 0;
    while i < |sorted|
      invariant 0 <= i <= |sorted|
      invariant lines == MetricLines(sorted[..i], level)
    {
      MetricLinesSnoc(sorted, i, level);
      lines := lines + MetricLine(sorted[i], level);
      i := i + 1;
    }
    assert sorted[..|sorted|] == sorted;
    var forest := "";
    var k := 0;
    while k < |n.children|
      invariant 0 <= k <= |n.children|
      invariant forest == RenderForest(n.children[..k], level + 1)
    {
      var child := RenderNode(n.children[k], level + 1);
      RenderForestSnoc(n.children, k, level + 1);
      forest := forest + child;
      k := k + 1;
    }
    assert n.children[..|n.children|] == n.children;
    s := Indent(level) + n.name + "\n" + lines + forest;
  }

  lemma MetricLinesSnoc(ms: seq<Calculation>, i: nat, level: nat)
    requires i < |ms|
    ensures MetricLines(ms[..i + 1], level) == MetricLines(ms[..i], level) + MetricLine(ms[i], level)
  {
    assert ms[..i + 1][..i] == ms[..i];
  }

  lemma RenderForestSnoc(cs: seq<Node>, k: nat, level: nat)
    requires k < |cs|
    ensures RenderForest(cs[..k + 1], level) == RenderForest(cs[..k], level) + Render(cs[k], level)
  {
    assert cs[..k + 1][..k] == cs[..k];
  }

  // ---------------------------------------------------------------------
  // One line per node and one per metric

  function Newlines(s: string): nat
  {
    if s == [] then 0 else Newlines(s[..|s| - 1]) + (if s[|s| - 1] == '\n' then 1 else 0)
  }

  lemma {:induction false} NewlinesAppend(a: string, b: string)
    ensures Newlines(a + b) == Newlines(a) + Newlines(b)
    decreases |b|
  {
    if b == [] {
      assert a + b == a;
    } else {
      assert (a + b)[..|a + b| - 1] == a + b[..|b| - 1];
      assert (a + b)[|a + b| - 1] == b[|b| - 1];
      NewlinesAppend(a, b[..|b| - 1]);
    }
  }

  lemma {:induction false} NoNewlines(s: string)
    requires '\n' !in s
    ensures Newlines(s) == 0
    decreases |s|
  {
    if s != [] {
      NoNewlines(s[..|s| - 1]);
    }
  }

  predicate SingleLine(m: Calculation)
  {
    '\n' !in m.name && '\n' !in m.value
  }

  /** No name or printed value in the subtree contains a line break. */
  ghost predicate SingleLineLabels(n: Node)
  {
    && '\n' !in n.name
    && (forall m :: m in n.metrics ==> SingleLine(m))
    && (forall i :: 0 <= i < |n.children| ==> SingleLineLabels(n.children[i]))
  }

  function MetricCount(n: Node): nat
    decreases n, 1
  {
    |n.metrics| + ForestMetricCount(n.children)
  }

  function ForestMetricCount(cs: seq<Node>): nat
    decreases cs, 0
  {
    if cs == [] then 0 else ForestMetricCount(cs[..|cs| - 1]) + MetricCount(cs[|cs| - 1])
  }

  lemma MetricLineNewlines(m: Calculation, level: nat)
    requires SingleLine(m)
    ensures Newlines(MetricLine(m, level)) == 1
  {
    var body := Indent(level) + "+" + m.name + ": " + m.value;
    assert '\n' !in body;
    NoNewlines(body);
    NewlinesAppend(body, "\n");
  }

  lemma {:induction false} MetricLinesNewlines(ms: seq<Calculation>, level: nat)
    requires forall i :: 0 <= i < |ms| ==> SingleLine(ms[i])
    ensures Newlines(MetricLines(ms, level)) == |ms|
    decreases |ms|
  {
    if ms != [] {
      MetricLinesNewlines(ms[..|ms| - 1], level);
      MetricLineNewlines(ms[|ms| - 1], level);
      NewlinesAppend(MetricLines(ms[..|ms| - 1], level), MetricLine(ms[|ms| - 1], level));
    }
  }

  /** The rendering holds exactly one line per node of the subtree and one
      line per metric recorded in it. */
  lemma {:induction false} RenderLineCount(n: Node, level: nat)
    requires SingleLineLabels(n)
    ensures Newlines(Render(n, level)) == NodeCount(n) + MetricCount(n)
    decreases n, 1
  {
    var head := Indent(level) + n.name;
    assert '\n' !in head;
    NoNewlines(head);
    NewlinesAppend(head, "\n");
    var sorted := SortedMetrics(n.metrics);
    assert forall i :: 0 <= i < |sorted| ==> sorted[i] in n.metrics;
    MetricLinesNewlines(sorted, level);
    RenderForestLineCount(n.children, level + 1);
    NewlinesAppend(head + "\n", MetricLines(sorted, level));
    NewlinesAppend(head + "\n" + MetricLines(sorted, level), RenderForest(n.children, level + 1));
  }

  lemma {:induction false} RenderForestLineCount(cs: seq<Node>, level: nat)
    requires forall i :: 0 <= i < |cs| ==> SingleLineLabels(cs[i])
    ensures Newlines(RenderForest(cs, level)) == ForestCount(cs) + ForestMetricCount(cs)
    decreases cs, 0
  {
    if cs != [] {
      RenderForestLineCount(cs[..|cs| - 1], level);
      RenderLineCount(cs[|cs| - 1], level);
      NewlinesAppend(RenderForest(cs[..|cs| - 1], level), Render(cs[|cs| - 1], level));
    }
  }
}
