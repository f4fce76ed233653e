/**
 * JasomeOutputTree: the tree a scan writes its results into.  The root is
 * named "root" and never receives metrics (every navigation passed to
 * AddCalculations has at least one segment).
 */
module OutputTree {

  import opened Calculations
  import opened ResultTree
  import opened Rendering

  class JasomeOutputTree {
    var root: Node

    ghost predicate Valid()
      reads this
    {
      root.name == "root" && root.metrics == {} && UniqueNames(root)
    }

    constructor ()
      ensures Valid() && root == EmptyNode("root")
    {
      root := EmptyNode("root");
    }

    /** addCalculations(metrics, navigation...): navigation[0] is read
        unconditionally, so the path must not be empty. */
    method AddCalculations(metrics: set<Calculation>, navigation: seq<string>)
      requires Valid() && |navigation| > 0
      modifies this
      ensures Valid()
      ensures root == Insert(old(root), navigation, metrics)
    {
      InsertKeepsNamesUnique(root, navigation, metrics);
      root := Insert(root, navigation, metrics);
    }

    /** toString(): the root rendered at level 0. */
    method ToString() returns (s: string)
      ensures s == Render(root, 0)
    {
      s := RenderNode(root, 0);
    }
  }
}
