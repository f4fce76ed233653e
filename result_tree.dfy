/**
 * The result tree of JasomeOutputTree: named nodes, each with a set of
 * metrics and a collection of children, and the insert-or-merge operation
 * `addCalculations(metrics, navigation...)`.
 *
 * A node is a value here.  The source keeps children in a HashSet with
 * identity equality and mutates the node it reaches; since no node is ever
 * shared between two parents, rebuilding the nodes along the path gives the
 * same tree.  Children are kept in the order they were attached.
 */
module ResultTree {

  import opened Wrappers
  import opened Calculations

  datatype Node = Node(name: string, children: seq<Node>, metrics: set<Calculation>)

  /** A freshly attached node: `new Node()` with its name set. */
  function EmptyNode(name: string): Node
  {
    Node(name, [], {})
  }

  /** `children.stream().filter(c -> c.name.equals(name)).findFirst()`,
      as the index of the first child with that name. */
  function FindChild(children: seq<Node>, name: string): (r: Option<nat>)
    ensures r.Some? ==> r.value < |children| && children[r.value].name == name
    ensures r.Some? ==> forall j :: 0 <= j < r.value ==> children[j].name != name
    ensures r.None? ==> forall j :: 0 <= j < |children| ==> children[j].name != name
  {
    if children == [] then None
    else if children[0].name == name then Some(0)
    else match FindChild(children[1..], name)
      case None => None
      case Some(i) => Some(i + 1)
  }

  /** The private recursive addCalculations: reuse the first child named
      navigation[0] or attach an empty one, then merge at the last segment
      or descend with the rest of the path. */
  function Insert(n: Node, path: seq<string>, metrics: set<Calculation>): (r: Node)
    requires |path| > 0
    ensures r.name == n.name && r.metrics == n.metrics
    decreases |path|
  {
    var found := FindChild(n.children, path[0]);
    var child := if found.Some? then n.children[found.value] else EmptyNode(path[0]);
    var child' := if |path| == 1 then child.(metrics := child.metrics + metrics)
                  else Insert(child, path[1..], metrics);
    if found.Some? then n.(children := n.children[found.value := child'])
    else n.(children := n.children + [child'])
  }

  /** The node reached by following `path` from n, taking the first child
      with each name, as the navigation in addCalculations does. */
  function Lookup(n: Node, path: seq<string>): Option<Node>
    decreases |path|
  {
    if path == [] then Some(n)
    else match FindChild(n.children, path[0])
      case None => None
      case Some(i) => Lookup(n.children[i], path[1..])
  }

  /** The metrics recorded at a path; a missing node records none. */
  function MetricsAt(n: Node, path: seq<string>): set<Calculation>
  {
    match Lookup(n, path)
    case None => {}
    case Some(m) => m.metrics
  }

  predicate IsPrefix(q: seq<string>, p: seq<string>)
  {
    |q| <= |p| && q == p[..|q|]
  }

  /** At most one child with a given name under any node. */
  ghost predicate UniqueNames(n: Node)
  {
    && (forall i, j :: 0 <= i < j < |n.children| ==> n.children[i].name != n.children[j].name)
    && (forall i :: 0 <= i < |n.children| ==> UniqueNames(n.children[i]))
  }

  function NodeCount(n: Node): nat
    decreases n, 1
  {
    1 + ForestCount(n.children)
  }

  function ForestCount(cs: seq<Node>): nat
    decreases cs, 0
  {
    if cs == [] then 0 else ForestCount(cs[..|cs| - 1]) + NodeCount(cs[|cs| - 1])
  }

  /** How many leading segments of `path` already name nodes below n. */
  function ExistingDepth(n: Node, path: seq<string>): (d: nat)
    ensures d <= |path|
    decreases |path|
  {
    if path == [] then 0
    else match FindChild(n.children, path[0])
      case None => 0
      case Some(i) => 1 + ExistingDepth(n.children[i], path[1..])
  }

  // ---------------------------------------------------------------------
  // Helper facts about the child list

  lemma FindChildUpdate(cs: seq<Node>, i: nat, c: Node, name: string)
    requires i < |cs| && c.name == cs[i].name
    ensures FindChild(cs[i := c], name) == FindChild(cs, name)
  {
    var f, g := FindChild(cs, name), FindChild(cs[i := c], name);
    if f.Some? {
      assert g.Some? && g.value <= f.value by { assert cs[i := c][f.value].name == name; }
      assert cs[g.value].name == name;
    } else {
      var cs' := cs[i := c];
      assert forall j :: 0 <= j < |cs'| ==> cs'[j].name != name;
    }
  }

  lemma FindChildAppend(cs: seq<Node>, c: Node, name: string)
    ensures FindChild(cs + [c], name) ==
      if FindChild(cs, name).Some? then FindChild(cs, name)
      else if c.name == name then Some(|cs|) else None
  {
    var cs' := cs + [c];
    var f, g := FindChild(cs, name), FindChild(cs', name);
    if f.Some? {
      assert cs'[f.value] == cs[f.value];
      assert g.Some? && g.value <= f.value;
      assert cs'[g.value] == cs[g.value];
    } else {
      forall j | 0 <= j < |cs|
        ensures cs'[j].name != name
      {
        assert cs'[j] == cs[j];
      }
      if c.name == name {
        assert cs'[|cs|] == c;
      }
    }
  }

  lemma LookupSameChildren(a: Node, b: Node, q: seq<string>)
    requires a.children == b.children && q != []
    ensures Lookup(a, q) == Lookup(b, q)
  {
  }

  lemma LookupEmptyNode(name: string, q: seq<string>)
    ensures Lookup(EmptyNode(name), q) == if q == [] then Some(EmptyNode(name)) else None
  {
  }

  // ---------------------------------------------------------------------
  // What Insert does, path by path

  /** The child list after one insertion: the child on the path sits at idx,
      the first child of every other name is where and what it was. */
  lemma InsertChildren(n: Node, p: seq<string>, metrics: set<Calculation>) returns (idx: nat)
    requires |p| > 0
    ensures var found := FindChild(n.children, p[0]);
      var child := if found.Some? then n.children[found.value] else EmptyNode(p[0]);
      var child' := if |p| == 1 then child.(metrics := child.metrics + metrics)
                    else Insert(child, p[1..], metrics);
      var rs := Insert(n, p, metrics).children;
      && FindChild(rs, p[0]) == Some(idx) && rs[idx] == child'
      && Lookup(n, [p[0]]) == (if found.Some? then Some(child) else None)
    ensures forall name :: name != p[0] ==>
      var f := FindChild(n.children, name);
      FindChild(Insert(n, p, metrics).children, name) == f &&
      (f.Some? ==> f.value != idx && Insert(n, p, metrics).children[f.value] == n.children[f.value])
  {
    var cs := n.children;
    var rs := Insert(n, p, metrics).children;
    var found := FindChild(cs, p[0]);
    var child := if found.Some? then cs[found.value] else EmptyNode(p[0]);
    var child' := if |p| == 1 then child.(metrics := child.metrics + metrics)
                  else Insert(child, p[1..], metrics);
    idx := if found.Some? then found.value else |cs|;
    if found.Some? {
      assert rs == cs[idx := child'];
      FindChildUpdate(cs, idx, child', p[0]);
      forall name | name != p[0]
        ensures FindChild(rs, name) == FindChild(cs, name)
      {
        FindChildUpdate(cs, idx, child', name);
      }
    } else {
      assert rs == cs + [child'];
      FindChildAppend(cs, child', p[0]);
      forall name | name != p[0]
        ensures FindChild(rs, name) == FindChild(cs, name)
      {
        FindChildAppend(cs, child', name);
      }
    }
  }

  lemma PrefixCons(q: seq<string>, p: seq<string>)
    requires |q| > 0 && |p| > 0 && q[0] == p[0]
    ensures IsPrefix(q, p) <==> IsPrefix(q[1..], p[1..])
    ensures q == p <==> q[1..] == p[1..]
  {
    assert q == [q[0]] + q[1..] && p == [p[0]] + p[1..];
    if |q| <= |p| {
      assert p[..|q|] == [p[0]] + p[1..][..|q| - 1];
    }
  }

  /** The whole effect of one insertion: every node that is not on the path
      keeps its whole subtree; every node on the path exists afterwards, with
      the name of its segment, its former metrics (none if it had to be
      created), and the inserted metrics added at the end of the path. */
  lemma {:induction false} InsertLookup(n: Node, p: seq<string>, metrics: set<Calculation>, q: seq<string>)
    requires |p| > 0
    ensures !IsPrefix(q, p) ==> Lookup(Insert(n, p, metrics), q) == Lookup(n, q)
    ensures IsPrefix(q, p) ==>
      && Lookup(Insert(n, p, metrics), q).Some?
      && Lookup(Insert(n, p, metrics), q).value.name == (if q == [] then n.name else q[|q| - 1])
      && Lookup(Insert(n, p, metrics), q).value.metrics == MetricsAt(n, q) + (if q == p then metrics else {})
    decreases |p|
  {
    if q != [] {
      var idx := InsertChildren(n, p, metrics);
      if q[0] != p[0] {
        assert !IsPrefix(q, p);
      } else {
        InsertLookupAlong(n, p, metrics, q, idx);
      }
    }
  }

  lemma {:induction false} InsertLookupAlong(n: Node, p: seq<string>, metrics: set<Calculation>, q: seq<string>, idx: nat)
    requires |p| > 0 && |q| > 0 && q[0] == p[0]
    requires var found := FindChild(n.children, p[0]);
      var child := if found.Some? then n.children[found.value] else EmptyNode(p[0]);
      var child' := if |p| == 1 then child.(metrics := child.metrics + metrics)
                    else Insert(child, p[1..], metrics);
      var rs := Insert(n, p, metrics).children;
      && FindChild(rs, p[0]) == Some(idx) && rs[idx] == child'
      && Lookup(n, [p[0]]) == (if found.Some? then Some(child) else None)
    ensures !IsPrefix(q, p) ==> Lookup(Insert(n, p, metrics), q) == Lookup(n, q)
    ensures IsPrefix(q, p) ==>
      && Lookup(Insert(n, p, metrics), q).Some?
      && Lookup(Insert(n, p, metrics), q).value.name == q[|q| - 1]
      && Lookup(Insert(n, p, metrics), q).value.metrics == MetricsAt(n, q) + (if q == p then metrics else {})
    decreases |p|, 0
  {
    var found := FindChild(n.children, p[0]);
    var child := if found.Some? then n.children[found.value] else EmptyNode(p[0]);
    var child' := if |p| == 1 then child.(metrics := child.metrics + metrics)
                  else Insert(child, p[1..], metrics);
    var q' := q[1..];
    assert Lookup(Insert(n, p, metrics), q) == Lookup(child', q');
    PrefixCons(q, p);
    if found.None? {
      LookupEmptyNode(p[0], q');
      assert Lookup(n, q) == None;
    } else {
      assert Lookup(n, q) == Lookup(child, q');
    }
    assert MetricsAt(n, q) == MetricsAt(child, q');
    if |p| == 1 {
      if q' != [] {
        LookupSameChildren(child', child, q');
      }
    } else {
      InsertLookup(child, p[1..], metrics, q');
      if q' != [] {
        assert q'[|q'| - 1] == q[|q| - 1];
      }
    }
  }

  /** A node exists at q after the insertion exactly when it existed before
      or q leads along the inserted path. */
  lemma InsertCreatesPath(n: Node, p: seq<string>, metrics: set<Calculation>, q: seq<string>)
    requires |p| > 0
    ensures Lookup(Insert(n, p, metrics), q).Some? <==> Lookup(n, q).Some? || IsPrefix(q, p)
  {
    InsertLookup(n, p, metrics, q);
  }

  /** Metrics only grow, and only at the end of the path: the target gets
      old ∪ new, every other node keeps exactly what it had, and a node
      created on the way holds no metrics. */
  lemma InsertMetricsAt(n: Node, p: seq<string>, metrics: set<Calculation>, q: seq<string>)
    requires |p| > 0
    ensures MetricsAt(Insert(n, p, metrics), q) == MetricsAt(n, q) + (if q == p then metrics else {})
  {
    InsertLookup(n, p, metrics, q);
  }

  /** Nothing under a different top-level name is created or changed. */
  lemma InsertIsolation(n: Node, p: seq<string>, metrics: set<Calculation>, q: seq<string>)
    requires |p| > 0 && |q| > 0 && q[0] != p[0]
    ensures Lookup(Insert(n, p, metrics), q) == Lookup(n, q)
  {
    InsertLookup(n, p, metrics, q);
  }

  /** An existing same-named child is reused, never duplicated. */
  lemma {:induction false} InsertKeepsNamesUnique(n: Node, p: seq<string>, metrics: set<Calculation>)
    requires |p| > 0 && UniqueNames(n)
    ensures UniqueNames(Insert(n, p, metrics))
    decreases |p|
  {
    var r := Insert(n, p, metrics);
    var cs := n.children;
    var found := FindChild(cs, p[0]);
    var child := if found.Some? then cs[found.value] else EmptyNode(p[0]);
    var child' := if |p| == 1 then child.(metrics := child.metrics + metrics)
                  else Insert(child, p[1..], metrics);
    if |p| > 1 {
      InsertKeepsNamesUnique(child, p[1..], metrics);
    }
    assert UniqueNames(child');
    assert child'.name == p[0];
    if found.Some? {
      assert r.children == cs[found.value := child'];
    } else {
      assert r.children == cs + [child'];
    }
  }

  /** Merging is additive: inserting A and then B at one path is inserting
      A ∪ B there once. */
  lemma {:induction false} InsertMerge(n: Node, p: seq<string>, a: set<Calculation>, b: set<Calculation>)
    requires |p| > 0
    ensures Insert(Insert(n, p, a), p, b) == Insert(n, p, a + b)
    decreases |p|
  {
    var cs := n.children;
    var found := FindChild(cs, p[0]);
    var child := if found.Some? then cs[found.value] else EmptyNode(p[0]);
    var ca := if |p| == 1 then child.(metrics := child.metrics + a) else Insert(child, p[1..], a);
    var cab := if |p| == 1 then child.(metrics := child.metrics + (a + b)) else Insert(child, p[1..], a + b);
    var cb := if |p| == 1 then ca.(metrics := ca.metrics + b) else Insert(ca, p[1..], b);
    if |p| > 1 {
      InsertMerge(child, p[1..], a, b);
    }
    assert cb == cab;
    var r1 := Insert(n, p, a);
    if found.Some? {
      assert r1.children == cs[found.value := ca];
      FindChildUpdate(cs, found.value, ca, p[0]);
      assert Insert(r1, p, b).children == cs[found.value := ca][found.value := cb];
      assert cs[found.value := ca][found.value := cb] == cs[found.value := cab];
    } else {
      assert r1.children == cs + [ca];
      FindChildAppend(cs, ca, p[0]);
      assert Insert(r1, p, b).children == (cs + [ca])[|cs| := cb];
      assert (cs + [ca])[|cs| := cb] == cs + [cab];
    }
  }

  /** Re-inserting the same metrics at the same path changes nothing. */
  lemma InsertIdempotent(n: Node, p: seq<string>, metrics: set<Calculation>)
    requires |p| > 0
    ensures Insert(Insert(n, p, metrics), p, metrics) == Insert(n, p, metrics)
  {
    InsertMerge(n, p, metrics, metrics);
    assert metrics + metrics == metrics;
  }

  // ---------------------------------------------------------------------
  // Counting nodes

  lemma {:induction false} ForestCountUpdate(cs: seq<Node>, i: nat, c: Node)
    requires i < |cs|
    ensures ForestCount(cs[i := c]) == ForestCount(cs) - NodeCount(cs[i]) + NodeCount(c)
    decreases |cs|
  {
    var last := |cs| - 1;
    if i < last {
      ForestCountUpdate(cs[..last], i, c);
      assert cs[i := c][..last] == cs[..last][i := c];
    } else {
      assert cs[i := c][..last] == cs[..last];
    }
  }

  /** Inserting along a path creates exactly the nodes that were missing. */
  lemma {:induction false} InsertNodeCount(n: Node, p: seq<string>, metrics: set<Calculation>)
    requires |p| > 0
    ensures NodeCount(Insert(n, p, metrics)) == NodeCount(n) + |p| - ExistingDepth(n, p)
    decreases |p|
  {
    var r := Insert(n, p, metrics);
    var cs := n.children;
    var found := FindChild(cs, p[0]);
    var child := if found.Some? then cs[found.value] else EmptyNode(p[0]);
    var child' := if |p| == 1 then child.(metrics := child.metrics + metrics)
                  else Insert(child, p[1..], metrics);
    if |p| > 1 {
      InsertNodeCount(child, p[1..], metrics);
      if found.None? {
        assert ExistingDepth(child, p[1..]) == 0;
      }
    }
    assert NodeCount(child') == NodeCount(child) + |p| - 1 - (if found.Some? then ExistingDepth(child, p[1..]) else 0);
    if found.Some? {
      assert r.children == cs[found.value := child'];
      ForestCountUpdate(cs, found.value, child');
    } else {
      assert r.children == cs + [child'];
      assert (cs + [child'])[..|cs|] == cs;
    }
  }
}
