/**
 * What a scan writes into the result tree, as a sequence of insertions, and
 * which calculator results end up at which path.
 *
 * Calculators are identified by instance (a number standing for object
 * identity, which is what the source's HashSets compare); what an instance
 * computes is given by a pure function of the calculator and its inputs.
 */
module ScanSpec {

  import opened Wrappers
  import opened Calculations
  import opened ResultTree
  import opened Declarations
  import opened Gathering

  /** The behaviour of every calculator instance, one function per level. */
  datatype Calculators = Calculators(
    forPackage: (nat, seq<ClassDecl>, SourceContext) -> set<Calculation>,
    forClass: (nat, ClassDecl, SourceContext) -> set<Calculation>,
    forMethod: (nat, MethodDecl, SourceContext) -> set<Calculation>)

  /** The three registries of a JasomeScanner. */
  datatype Registries = Registries(packageCalculators: set<nat>, classCalculators: set<nat>, methodCalculators: set<nat>)

  /** One call of addCalculations. */
  datatype Op = Op(path: seq<string>, metrics: set<Calculation>)

  /** The context built for the package calculators: only the package name
      is set (SourceContext's defaults are taken as no imports, no class). */
  function PackageContext(packageName: string): SourceContext
  {
    SourceContext(packageName, [], None)
  }

  /** The context built for each method: package and imports copied from the
      class context, the enclosing class set. */
  function MethodContext(classContext: SourceContext, classDefinition: ClassDecl): (ctx: SourceContext)
    ensures ctx.packageName == classContext.packageName && ctx.imports == classContext.imports
    ensures ctx.classDefinition == Some(classDefinition)
  {
    SourceContext(classContext.packageName, classContext.imports, Some(classDefinition))
  }

  /** The class declarations of a package, in order (`map(Pair::getKey)`). */
  function Classes(entries: seq<Entry>): (cs: seq<ClassDecl>)
    ensures |cs| == |entries| && forall i :: 0 <= i < |cs| ==> cs[i] == entries[i].decl
  {
    seq(|entries|, i requires 0 <= i < |entries| => entries[i].decl)
  }

  /** Everything a set of calculators produces, over all its instances. */
  function UnionOver(ids: set<nat>, f: nat -> set<Calculation>): (u: set<Calculation>)
    ensures forall x :: x in u <==> exists c :: c in ids && x in f(c)
  {
    set c, x | c in ids && x in f(c) :: x
  }

  function PackageResult(calcs: Calculators, ids: set<nat>, classes: seq<ClassDecl>, context: SourceContext): set<Calculation>
  {
    set c, x | c in ids && x in calcs.forPackage(c, classes, context) :: x
  }

  function ClassResult(calcs: Calculators, ids: set<nat>, decl: ClassDecl, context: SourceContext): set<Calculation>
  {
    set c, x | c in ids && x in calcs.forClass(c, decl, context) :: x
  }

  function MethodResult(calcs: Calculators, ids: set<nat>, m: MethodDecl, context: SourceContext): set<Calculation>
  {
    set c, x | c in ids && x in calcs.forMethod(c, m, context) :: x
  }

  /** Running every calculator of a registry at one path: one insertion of
      their union, or none at all when the registry is empty. */
  function OpsFor(ids: set<nat>, path: seq<string>, metrics: set<Calculation>): seq<Op>
  {
    if ids == {} then [] else [Op(path, metrics)]
  }

  function MethodOps(calcs: Calculators, reg: Registries, packageName: string, e: Entry, ms: seq<MethodDecl>): seq<Op>
  {
    if ms == [] then []
    else
      var m := ms[|ms| - 1];
      MethodOps(calcs, reg, packageName, e, ms[..|ms| - 1]) +
      OpsFor(reg.methodCalculators, [packageName, DisplayName(e.decl), m.declaration],
             MethodResult(calcs, reg.methodCalculators, m, MethodContext(e.context, e.decl)))
  }

  function EntryOps(calcs: Calculators, reg: Registries, packageName: string, e: Entry): seq<Op>
  {
    OpsFor(reg.classCalculators, [packageName, DisplayName(e.decl)],
           ClassResult(calcs, reg.classCalculators, e.decl, e.context)) +
    MethodOps(calcs, reg, packageName, e, e.decl.methods)
  }

  function EntriesOps(calcs: Calculators, reg: Registries, packageName: string, es: seq<Entry>): seq<Op>
  {
    if es == [] then []
    else EntriesOps(calcs, reg, packageName, es[..|es| - 1]) + EntryOps(calcs, reg, packageName, es[|es| - 1])
  }

  function PackageOps(calcs: Calculators, reg: Registries, packageName: string, es: seq<Entry>): seq<Op>
  {
    OpsFor(reg.packageCalculators, [packageName],
           PackageResult(calcs, reg.packageCalculators, Classes(es), PackageContext(packageName))) +
    EntriesOps(calcs, reg, packageName, es)
  }

  /** The insertions of a scan that visits the packages in `order`. */
  function ScanOps(calcs: Calculators, reg: Registries, packages: map<string, seq<Entry>>, order: seq<string>): seq<Op>
    requires forall i :: 0 <= i < |order| ==> order[i] in packages
  {
    if order == [] then []
    else
      var p := order[|order| - 1];
      ScanOps(calcs, reg, packages, order[..|order| - 1]) + PackageOps(calcs, reg, p, packages[p])
  }

  ghost predicate NonEmptyPaths(ops: seq<Op>)
  {
    forall i :: 0 <= i < |ops| ==> |ops[i].path| > 0
  }

  /** The tree after the insertions, one after the other. */
  function Apply(n: Node, ops: seq<Op>): Node
    requires NonEmptyPaths(ops)
  {
    if ops == [] then n
    else Insert(Apply(n, ops[..|ops| - 1]), ops[|ops| - 1].path, ops[|ops| - 1].metrics)
  }

  /** Everything inserted at exactly path q. */
  function UnionAt(ops: seq<Op>, q: seq<string>): set<Calculation>
  {
    if ops == [] then {}
    else UnionAt(ops[..|ops| - 1], q) + (if ops[|ops| - 1].path == q then ops[|ops| - 1].metrics else {})
  }

  lemma ApplyOpsFor(n: Node, ids: set<nat>, path: seq<string>, metrics: set<Calculation>)
    requires |path| > 0
    ensures NonEmptyPaths(OpsFor(ids, path, metrics))
    ensures Apply(n, OpsFor(ids, path, metrics)) == if ids == {} then n else Insert(n, path, metrics)
  {
    if ids != {} {
      assert OpsFor(ids, path, metrics)[..0] == [];
    }
  }

  lemma UnionOverPackage(calcs: Calculators, ids: set<nat>, classes: seq<ClassDecl>, context: SourceContext, f: nat -> set<Calculation>)
    requires forall c :: f(c) == calcs.forPackage(c, classes, context)
    ensures UnionOver(ids, f) == PackageResult(calcs, ids, classes, context)
  {
  }

  lemma UnionOverClass(calcs: Calculators, ids: set<nat>, decl: ClassDecl, context: SourceContext, f: nat -> set<Calculation>)
    requires forall c :: f(c) == calcs.forClass(c, decl, context)
    ensures UnionOver(ids, f) == ClassResult(calcs, ids, decl, context)
  {
  }

  lemma UnionOverMethod(calcs: Calculators, ids: set<nat>, m: MethodDecl, context: SourceContext, f: nat -> set<Calculation>)
    requires forall c :: f(c) == calcs.forMethod(c, m, context)
    ensures UnionOver(ids, f) == MethodResult(calcs, ids, m, context)
  {
  }

  lemma NonEmptyPathsAppend(a: seq<Op>, b: seq<Op>)
    requires NonEmptyPaths(a) && NonEmptyPaths(b)
    ensures NonEmptyPaths(a + b)
  {
    forall i | 0 <= i < |a + b|
      ensures |(a + b)[i].path| > 0
    {
      if i >= |a| {
        assert (a + b)[i] == b[i - |a|];
      }
    }
  }

  /** One more method of a class: running its calculators after those of
      the methods before it extends the class's method insertions by one. */
  lemma MethodStep(start: Node, calcs: Calculators, reg: Registries, p: string, e: Entry, j: nat, f: nat -> set<Calculation>)
    requires j < |e.decl.methods|
    requires forall c :: f(c) == calcs.forMethod(c, e.decl.methods[j], MethodContext(e.context, e.decl))
    ensures NonEmptyPaths(MethodOps(calcs, reg, p, e, e.decl.methods[..j]))
    ensures NonEmptyPaths(MethodOps(calcs, reg, p, e, e.decl.methods[..j + 1]))
    ensures Apply(Apply(start, MethodOps(calcs, reg, p, e, e.decl.methods[..j])),
                  OpsFor(reg.methodCalculators, [p, DisplayName(e.decl), e.decl.methods[j].declaration],
                         UnionOver(reg.methodCalculators, f)))
         == Apply(start, MethodOps(calcs, reg, p, e, e.decl.methods[..j + 1]))
  {
    var ms := e.decl.methods;
    assert ms[..j + 1][..j] == ms[..j];
    UnionOverMethod(calcs, reg.methodCalculators, ms[j], MethodContext(e.context, e.decl), f);
    var step := OpsFor(reg.methodCalculators, [p, DisplayName(e.decl), ms[j].declaration],
                       MethodResult(calcs, reg.methodCalculators, ms[j], MethodContext(e.context, e.decl)));
    MethodOpsShape(calcs, reg, p, e, ms[..j]);
    ApplyOpsFor(start, reg.methodCalculators, [p, DisplayName(e.decl), ms[j].declaration],
                MethodResult(calcs, reg.methodCalculators, ms[j], MethodContext(e.context, e.decl)));
    ApplyAppend(start, MethodOps(calcs, reg, p, e, ms[..j]), step);
  }

  /** One more class of a package: its insertions follow those of the
      classes before it. */
  lemma EntriesOpsStep(calcs: Calculators, reg: Registries, p: string, es: seq<Entry>, done: seq<Op>, i: nat)
    requires i < |es| && NonEmptyPaths(done)
    ensures && NonEmptyPaths(done + EntriesOps(calcs, reg, p, es[..i]))
            && NonEmptyPaths(EntryOps(calcs, reg, p, es[i]))
            && done + EntriesOps(calcs, reg, p, es[..i + 1]) == (done + EntriesOps(calcs, reg, p, es[..i])) + EntryOps(calcs, reg, p, es[i])
  {
    assert es[..i + 1][..i] == es[..i];
    EntriesOpsShape(calcs, reg, p, es[..i]);
    NonEmptyPathsAppend(done, EntriesOps(calcs, reg, p, es[..i]));
    EntryOpsShape(calcs, reg, p, es[i]);
  }

  lemma EntryOpsShape(calcs: Calculators, reg: Registries, p: string, e: Entry)
    ensures NonEmptyPaths(EntryOps(calcs, reg, p, e))
  {
    MethodOpsShape(calcs, reg, p, e, e.decl.methods);
    NonEmptyPathsAppend(OpsFor(reg.classCalculators, [p, DisplayName(e.decl)],
                               ClassResult(calcs, reg.classCalculators, e.decl, e.context)),
                        MethodOps(calcs, reg, p, e, e.decl.methods));
  }

  /** One more package: its insertions follow those of the packages before it. */
  lemma ScanOpsStep(calcs: Calculators, reg: Registries, packages: map<string, seq<Entry>>, order: seq<string>, p: string)
    requires forall i :: 0 <= i < |order| ==> order[i] in packages
    requires p in packages
    ensures NonEmptyPaths(ScanOps(calcs, reg, packages, order))
    ensures NonEmptyPaths(PackageOps(calcs, reg, p, packages[p]))
    ensures ScanOps(calcs, reg, packages, order + [p]) == ScanOps(calcs, reg, packages, order) + PackageOps(calcs, reg, p, packages[p])
  {
    assert (order + [p])[..|order|] == order;
    ScanOpsShape(calcs, reg, packages, order);
    PackageOpsShape(calcs, reg, p, packages[p]);
  }

  /** Scanning one more package extends the tree built so far. */
  lemma PackageStep(start: Node, calcs: Calculators, reg: Registries, packages: map<string, seq<Entry>>, order: seq<string>, p: string)
    requires forall i :: 0 <= i < |order| ==> order[i] in packages
    requires p in packages
    ensures NonEmptyPaths(ScanOps(calcs, reg, packages, order))
    ensures NonEmptyPaths(ScanOps(calcs, reg, packages, order + [p]))
    ensures NonEmptyPaths(PackageOps(calcs, reg, p, packages[p]))
    ensures Apply(Apply(start, ScanOps(calcs, reg, packages, order)), PackageOps(calcs, reg, p, packages[p]))
         == Apply(start, ScanOps(calcs, reg, packages, order + [p]))
  {
    ScanOpsStep(calcs, reg, packages, order, p);
    ApplyAppend(start, ScanOps(calcs, reg, packages, order), PackageOps(calcs, reg, p, packages[p]));
  }

  /** Every order in which a HashMap may hand out these keys. */
  ghost predicate IsOrdering(order: seq<string>, keys: set<string>)
  {
    && (forall i :: 0 <= i < |order| ==> order[i] in keys)
    && (forall k :: k in keys ==> k in order)
    && (forall i, j :: 0 <= i < j < |order| ==> order[i] != order[j])
  }

  /** A loop that hands out the keys one at a time: `order` so far, and the
      keys not yet handed out. */
  ghost predicate OrderedSoFar(order: seq<string>, remaining: set<string>, keys: set<string>)
  {
    && remaining <= keys
    && (forall i :: 0 <= i < |order| ==> order[i] in keys && order[i] !in remaining)
    && (forall k :: k in keys ==> k in remaining || k in order)
    && (forall i, j :: 0 <= i < j < |order| ==> order[i] != order[j])
  }

  lemma OrderedSoFarStart(keys: set<string>)
    ensures OrderedSoFar([], keys, keys)
  {
  }

  lemma OrderedSoFarStep(order: seq<string>, remaining: set<string>, keys: set<string>, p: string)
    requires OrderedSoFar(order, remaining, keys) && p in remaining
    ensures OrderedSoFar(order + [p], remaining - {p}, keys)
  {
    var order' := order + [p];
    forall k | k in keys
      ensures k in remaining - {p} || k in order'
    {
      if k == p {
        assert order'[|order|] == p;
      } else if k in order {
        var i :| 0 <= i < |order| && order[i] == k;
        assert order'[i] == k;
      }
    }
  }

  lemma OrderedSoFarDone(order: seq<string>, keys: set<string>)
    requires OrderedSoFar(order, {}, keys)
    ensures IsOrdering(order, keys)
  {
  }

  // ---------------------------------------------------------------------
  // Expected results per path, defined over the gathered classes

  /** What the class calculators produce for the classes of a package that
      are reported under name d. */
  function ClassResultsNamed(calcs: Calculators, ids: set<nat>, es: seq<Entry>, d: string): set<Calculation>
  {
    if es == [] then {}
    else
      var e := es[|es| - 1];
      ClassResultsNamed(calcs, ids, es[..|es| - 1], d) +
      (if DisplayName(e.decl) == d then ClassResult(calcs, ids, e.decl, e.context) else {})
  }

  /** What the method calculators produce for the methods with declaration s
      of one class. */
  function MethodResultsOf(calcs: Calculators, ids: set<nat>, e: Entry, ms: seq<MethodDecl>, s: string): set<Calculation>
  {
    if ms == [] then {}
    else
      var m := ms[|ms| - 1];
      MethodResultsOf(calcs, ids, e, ms[..|ms| - 1], s) +
      (if m.declaration == s then MethodResult(calcs, ids, m, MethodContext(e.context, e.decl)) else {})
  }

  /** What the method calculators produce for methods with declaration s of
      the classes of a package reported under name d. */
  function MethodResultsNamed(calcs: Calculators, ids: set<nat>, es: seq<Entry>, d: string, s: string): set<Calculation>
  {
    if es == [] then {}
    else
      var e := es[|es| - 1];
      MethodResultsNamed(calcs, ids, es[..|es| - 1], d, s) +
      (if DisplayName(e.decl) == d then MethodResultsOf(calcs, ids, e, e.decl.methods, s) else {})
  }

  // ---------------------------------------------------------------------
  // Insertions and the metrics they leave behind

  lemma {:induction false} UnionAtAppend(a: seq<Op>, b: seq<Op>, q: seq<string>)
    ensures UnionAt(a + b, q) == UnionAt(a, q) + UnionAt(b, q)
    decreases |b|
  {
    if b == [] {
      assert a + b == a;
    } else {
      assert (a + b)[..|a + b| - 1] == a + b[..|b| - 1];
      UnionAtAppend(a, b[..|b| - 1], q);
    }
  }

  lemma {:induction false} ApplyAppend(n: Node, a: seq<Op>, b: seq<Op>)
    requires NonEmptyPaths(a) && NonEmptyPaths(b)
    ensures NonEmptyPaths(a + b)
    ensures Apply(n, a + b) == Apply(Apply(n, a), b)
    decreases |b|
  {
    if b == [] {
      assert a + b == a;
    } else {
      assert (a + b)[..|a + b| - 1] == a + b[..|b| - 1];
      ApplyAppend(n, a, b[..|b| - 1]);
    }
  }

  /** After a run of insertions, each path holds what it held before plus
      everything inserted at exactly that path. */
  lemma {:induction false} ApplyMetricsAt(n: Node, ops: seq<Op>, q: seq<string>)
    requires NonEmptyPaths(ops)
    ensures MetricsAt(Apply(n, ops), q) == MetricsAt(n, q) + UnionAt(ops, q)
    decreases |ops|
  {
    if ops != [] {
      var last := ops[|ops| - 1];
      ApplyMetricsAt(n, ops[..|ops| - 1], q);
      InsertMetricsAt(Apply(n, ops[..|ops| - 1]), last.path, last.metrics, q);
    }
  }

  lemma {:induction false} ApplyKeepsNamesUnique(n: Node, ops: seq<Op>)
    requires NonEmptyPaths(ops) && UniqueNames(n)
    ensures UniqueNames(Apply(n, ops))
    ensures Apply(n, ops).name == n.name && Apply(n, ops).metrics == n.metrics
    decreases |ops|
  {
    if ops != [] {
      ApplyKeepsNamesUnique(n, ops[..|ops| - 1]);
      InsertKeepsNamesUnique(Apply(n, ops[..|ops| - 1]), ops[|ops| - 1].path, ops[|ops| - 1].metrics);
    }
  }

  // ---------------------------------------------------------------------
  // Where the insertions of one package go

  /** Every insertion for package p is at [p], [p, className] or
      [p, className, methodDeclaration]. */
  ghost predicate UnderPackage(ops: seq<Op>, p: string)
  {
    forall i :: 0 <= i < |ops| ==> 1 <= |ops[i].path| <= 3 && ops[i].path[0] == p
  }

  ghost predicate BelowPackage(ops: seq<Op>, p: string)
  {
    forall i :: 0 <= i < |ops| ==> 2 <= |ops[i].path| <= 3 && ops[i].path[0] == p
  }

  lemma {:induction false} UnionAtNowhere(ops: seq<Op>, q: seq<string>)
    requires forall i :: 0 <= i < |ops| ==> ops[i].path != q
    ensures UnionAt(ops, q) == {}
    decreases |ops|
  {
    if ops != [] {
      UnionAtNowhere(ops[..|ops| - 1], q);
    }
  }

  /** Every insertion is for a method of the class reported as d in package p. */
  ghost predicate MethodPaths(ops: seq<Op>, p: string, d: string)
  {
    forall i :: 0 <= i < |ops| ==> |ops[i].path| == 3 && ops[i].path[0] == p && ops[i].path[1] == d
  }

  lemma {:induction false} MethodOpsShape(calcs: Calculators, reg: Registries, p: string, e: Entry, ms: seq<MethodDecl>)
    ensures MethodPaths(MethodOps(calcs, reg, p, e, ms), p, DisplayName(e.decl))
    decreases |ms|
  {
    if ms != [] {
      MethodOpsShape(calcs, reg, p, e, ms[..|ms| - 1]);
      var m := ms[|ms| - 1];
      var a := MethodOps(calcs, reg, p, e, ms[..|ms| - 1]);
      var b := OpsFor(reg.methodCalculators, [p, DisplayName(e.decl), m.declaration],
                      MethodResult(calcs, reg.methodCalculators, m, MethodContext(e.context, e.decl)));
      assert MethodOps(calcs, reg, p, e, ms) == a + b;
      assert MethodPaths(a, p, DisplayName(e.decl));
      assert forall i :: 0 <= i < |a + b| ==> (a + b)[i] == if i < |a| then a[i] else b[i - |a|];
    }
  }

  lemma {:induction false} EntriesOpsShape(calcs: Calculators, reg: Registries, p: string, es: seq<Entry>)
    ensures BelowPackage(EntriesOps(calcs, reg, p, es), p)
    decreases |es|
  {
    if es != [] {
      var e := es[|es| - 1];
      EntriesOpsShape(calcs, reg, p, es[..|es| - 1]);
      MethodOpsShape(calcs, reg, p, e, e.decl.methods);
      var a := EntriesOps(calcs, reg, p, es[..|es| - 1]);
      var cls := OpsFor(reg.classCalculators, [p, DisplayName(e.decl)],
                        ClassResult(calcs, reg.classCalculators, e.decl, e.context));
      var mts := MethodOps(calcs, reg, p, e, e.decl.methods);
      assert MethodPaths(mts, p, DisplayName(e.decl));
      assert BelowPackage(a, p);
      assert forall i :: 0 <= i < |cls + mts| ==> (cls + mts)[i] == if i < |cls| then cls[i] else mts[i - |cls|];
      assert forall i :: 0 <= i < |a + (cls + mts)| ==>
        (a + (cls + mts))[i] == if i < |a| then a[i] else (cls + mts)[i - |a|];
    }
  }

  lemma PackageOpsShape(calcs: Calculators, reg: Registries, p: string, es: seq<Entry>)
    ensures UnderPackage(PackageOps(calcs, reg, p, es), p)
    ensures NonEmptyPaths(PackageOps(calcs, reg, p, es))
  {
    EntriesOpsShape(calcs, reg, p, es);
  }

  lemma {:induction false} ScanOpsShape(calcs: Calculators, reg: Registries, packages: map<string, seq<Entry>>, order: seq<string>)
    requires forall i :: 0 <= i < |order| ==> order[i] in packages
    ensures var ops := ScanOps(calcs, reg, packages, order);
      NonEmptyPaths(ops) && forall i :: 0 <= i < |ops| ==> ops[i].path[0] in order
    decreases |order|
  {
    if order != [] {
      var init, p := order[..|order| - 1], order[|order| - 1];
      ScanOpsShape(calcs, reg, packages, init);
      PackageOpsShape(calcs, reg, p, packages[p]);
      var a, b := ScanOps(calcs, reg, packages, init), PackageOps(calcs, reg, p, packages[p]);
      assert forall i :: 0 <= i < |a + b| ==> (a + b)[i] == if i < |a| then a[i] else b[i - |a|];
    }
  }

  /** In the insertions for package p of the scan, the path q collects
      what the insertions for that package put there, and nothing else. */
  lemma {:induction false} ScanOpsAt(calcs: Calculators, reg: Registries, packages: map<string, seq<Entry>>, order: seq<string>, k: nat, q: seq<string>)
    requires forall i :: 0 <= i < |order| ==> order[i] in packages
    requires forall i, j :: 0 <= i < j < |order| ==> order[i] != order[j]
    requires k < |order| && |q| > 0 && q[0] == order[k]
    ensures UnionAt(ScanOps(calcs, reg, packages, order), q) == UnionAt(PackageOps(calcs, reg, order[k], packages[order[k]]), q)
    decreases |order|
  {
    var init, p := order[..|order| - 1], order[|order| - 1];
    var a, b := ScanOps(calcs, reg, packages, init), PackageOps(calcs, reg, p, packages[p]);
    UnionAtAppend(a, b, q);
    PackageOpsShape(calcs, reg, p, packages[p]);
    if k == |order| - 1 {
      ScanOpsShape(calcs, reg, packages, init);
      UnionAtNowhere(a, q);
    } else {
      ScanOpsAt(calcs, reg, packages, init, k, q);
      UnionAtNowhere(b, q);
    }
  }

  lemma {:induction false} EntriesOpsAtClass(calcs: Calculators, reg: Registries, p: string, es: seq<Entry>, d: string)
    ensures UnionAt(EntriesOps(calcs, reg, p, es), [p, d]) ==
      if reg.classCalculators == {} then {} else ClassResultsNamed(calcs, reg.classCalculators, es, d)
    decreases |es|
  {
    if es != [] {
      var e := es[|es| - 1];
      EntriesOpsAtClass(calcs, reg, p, es[..|es| - 1], d);
      var cls := OpsFor(reg.classCalculators, [p, DisplayName(e.decl)],
                        ClassResult(calcs, reg.classCalculators, e.decl, e.context));
      var mts := MethodOps(calcs, reg, p, e, e.decl.methods);
      MethodOpsShape(calcs, reg, p, e, e.decl.methods);
      assert MethodPaths(mts, p, DisplayName(e.decl));
      assert forall i :: 0 <= i < |mts| ==> mts[i].path != [p, d];
      UnionAtNowhere(mts, [p, d]);
      UnionAtAppend(cls, mts, [p, d]);
      UnionAtAppend(EntriesOps(calcs, reg, p, es[..|es| - 1]), cls + mts, [p, d]);
      assert [p, DisplayName(e.decl)] == [p, d] <==> DisplayName(e.decl) == d;
    }
  }

  lemma {:induction false} MethodOpsAt(calcs: Calculators, reg: Registries, p: string, e: Entry, ms: seq<MethodDecl>, s: string)
    ensures UnionAt(MethodOps(calcs, reg, p, e, ms), [p, DisplayName(e.decl), s]) ==
      if reg.methodCalculators == {} then {} else MethodResultsOf(calcs, reg.methodCalculators, e, ms, s)
    decreases |ms|
  {
    if ms != [] {
      var m := ms[|ms| - 1];
      MethodOpsAt(calcs, reg, p, e, ms[..|ms| - 1], s);
      var d := DisplayName(e.decl);
      assert [p, d, m.declaration] == [p, d, s] <==> m.declaration == s;
      UnionAtAppend(MethodOps(calcs, reg, p, e, ms[..|ms| - 1]),
        OpsFor(reg.methodCalculators, [p, d, m.declaration],
               MethodResult(calcs, reg.methodCalculators, m, MethodContext(e.context, e.decl))), [p, d, s]);
    }
  }

  lemma {:induction false} EntriesOpsAtMethod(calcs: Calculators, reg: Registries, p: string, es: seq<Entry>, d: string, s: string)
    ensures UnionAt(EntriesOps(calcs, reg, p, es), [p, d, s]) ==
      if reg.methodCalculators == {} then {} else MethodResultsNamed(calcs, reg.methodCalculators, es, d, s)
    decreases |es|
  {
    if es != [] {
      var e := es[|es| - 1];
      EntriesOpsAtMethod(calcs, reg, p, es[..|es| - 1], d, s);
      var cls := OpsFor(reg.classCalculators, [p, DisplayName(e.decl)],
                        ClassResult(calcs, reg.classCalculators, e.decl, e.context));
      var mts := MethodOps(calcs, reg, p, e, e.decl.methods);
      UnionAtNowhere(cls, [p, d, s]);
      if DisplayName(e.decl) == d {
        MethodOpsAt(calcs, reg, p, e, e.decl.methods, s);
      } else {
        MethodOpsShape(calcs, reg, p, e, e.decl.methods);
        assert MethodPaths(mts, p, DisplayName(e.decl));
        assert forall i :: 0 <= i < |mts| ==> mts[i].path != [p, d, s];
        UnionAtNowhere(mts, [p, d, s]);
      }
      UnionAtAppend(cls, mts, [p, d, s]);
      UnionAtAppend(EntriesOps(calcs, reg, p, es[..|es| - 1]), cls + mts, [p, d, s]);
    }
  }

  // ---------------------------------------------------------------------
  // The tree a scan builds, for any order of the packages

  ghost function ScanTree(calcs: Calculators, reg: Registries, units: seq<CompilationUnit>, order: seq<string>): Node
    requires IsOrdering(order, PackagesOf(units))
  {
    ScanOpsShape(calcs, reg, PackageMap(units), order);
    Apply(EmptyNode("root"), ScanOps(calcs, reg, PackageMap(units), order))
  }

  /** The tree a scan builds over the gathered packages, taken in `order`. */
  lemma ScanTreeOfGathered(calcs: Calculators, reg: Registries, units: seq<CompilationUnit>, order: seq<string>)
    requires IsOrdering(order, PackagesOf(units))
    ensures NonEmptyPaths(ScanOps(calcs, reg, PackageMap(units), order))
    ensures ScanTree(calcs, reg, units, order) == Apply(EmptyNode("root"), ScanOps(calcs, reg, PackageMap(units), order))
  {
    ScanOpsShape(calcs, reg, PackageMap(units), order);
  }

  lemma PackageIndex(order: seq<string>, units: seq<CompilationUnit>, p: string) returns (k: nat)
    requires IsOrdering(order, PackagesOf(units)) && p in PackagesOf(units)
    ensures k < |order| && order[k] == p
  {
    k :| 0 <= k < |order| && order[k] == p;
  }

  /** Each package calculator runs once on the full class list of its
      package, and its result lands at [package]. */
  lemma ScanPackageMetrics(calcs: Calculators, reg: Registries, units: seq<CompilationUnit>, order: seq<string>, p: string)
    requires IsOrdering(order, PackagesOf(units)) && p in PackagesOf(units)
    ensures MetricsAt(ScanTree(calcs, reg, units, order), [p]) ==
      if reg.packageCalculators == {} then {}
      else PackageResult(calcs, reg.packageCalculators, Classes(Bucket(units, p)), PackageContext(p))
  {
    var packages := PackageMap(units);
    var k := PackageIndex(order, units, p);
    ScanOpsShape(calcs, reg, packages, order);
    ApplyMetricsAt(EmptyNode("root"), ScanOps(calcs, reg, packages, order), [p]);
    ScanOpsAt(calcs, reg, packages, order, k, [p]);
    var pkg := OpsFor(reg.packageCalculators, [p],
                      PackageResult(calcs, reg.packageCalculators, Classes(packages[p]), PackageContext(p)));
    var rest := EntriesOps(calcs, reg, p, packages[p]);
    UnionAtAppend(pkg, rest, [p]);
    EntriesOpsShape(calcs, reg, p, packages[p]);
    assert forall i :: 0 <= i < |rest| ==> rest[i].path != [p];
    UnionAtNowhere(rest, [p]);
  }

  /** Each class calculator's result for a class lands at
      [package, display name]; classes of one package that share a display
      name share that node. */
  lemma ScanClassMetrics(calcs: Calculators, reg: Registries, units: seq<CompilationUnit>, order: seq<string>, p: string, d: string)
    requires IsOrdering(order, PackagesOf(units)) && p in PackagesOf(units)
    ensures MetricsAt(ScanTree(calcs, reg, units, order), [p, d]) ==
      if reg.classCalculators == {} then {}
      else ClassResultsNamed(calcs, reg.classCalculators, Bucket(units, p), d)
  {
    var packages := PackageMap(units);
    var k := PackageIndex(order, units, p);
    ScanOpsShape(calcs, reg, packages, order);
    ApplyMetricsAt(EmptyNode("root"), ScanOps(calcs, reg, packages, order), [p, d]);
    ScanOpsAt(calcs, reg, packages, order, k, [p, d]);
    var pkg := OpsFor(reg.packageCalculators, [p],
                      PackageResult(calcs, reg.packageCalculators, Classes(packages[p]), PackageContext(p)));
    UnionAtAppend(pkg, EntriesOps(calcs, reg, p, packages[p]), [p, d]);
    UnionAtNowhere(pkg, [p, d]);
    EntriesOpsAtClass(calcs, reg, p, packages[p], d);
  }

  /** Each method calculator's result for a method lands at
      [package, display name of its class, method declaration]. */
  lemma ScanMethodMetrics(calcs: Calculators, reg: Registries, units: seq<CompilationUnit>, order: seq<string>, p: string, d: string, s: string)
    requires IsOrdering(order, PackagesOf(units)) && p in PackagesOf(units)
    ensures MetricsAt(ScanTree(calcs, reg, units, order), [p, d, s]) ==
      if reg.methodCalculators == {} then {}
      else MethodResultsNamed(calcs, reg.methodCalculators, Bucket(units, p), d, s)
  {
    var packages := PackageMap(units);
    var k := PackageIndex(order, units, p);
    ScanOpsShape(calcs, reg, packages, order);
    ApplyMetricsAt(EmptyNode("root"), ScanOps(calcs, reg, packages, order), [p, d, s]);
    ScanOpsAt(calcs, reg, packages, order, k, [p, d, s]);
    var pkg := OpsFor(reg.packageCalculators, [p],
                      PackageResult(calcs, reg.packageCalculators, Classes(packages[p]), PackageContext(p)));
    UnionAtAppend(pkg, EntriesOps(calcs, reg, p, packages[p]), [p, d, s]);
    UnionAtNowhere(pkg, [p, d, s]);
    EntriesOpsAtMethod(calcs, reg, p, packages[p], d, s);
  }

  lemma {:induction false} ApplyLookupOffPaths(n: Node, ops: seq<Op>, q: seq<string>)
    requires NonEmptyPaths(ops)
    requires forall i :: 0 <= i < |ops| ==> !IsPrefix(q, ops[i].path)
    ensures Lookup(Apply(n, ops), q) == Lookup(n, q)
    decreases |ops|
  {
    if ops != [] {
      ApplyLookupOffPaths(n, ops[..|ops| - 1], q);
      InsertLookup(Apply(n, ops[..|ops| - 1]), ops[|ops| - 1].path, ops[|ops| - 1].metrics, q);
    }
  }

  /** Under the root there is nothing but the packages of the scanned files. */
  lemma ScanOnlyKnownPackages(calcs: Calculators, reg: Registries, units: seq<CompilationUnit>, order: seq<string>, q: seq<string>)
    requires IsOrdering(order, PackagesOf(units)) && |q| > 0 && q[0] !in PackagesOf(units)
    ensures Lookup(ScanTree(calcs, reg, units, order), q) == None
  {
    var ops := ScanOps(calcs, reg, PackageMap(units), order);
    ScanOpsShape(calcs, reg, PackageMap(units), order);
    forall i | 0 <= i < |ops|
      ensures !IsPrefix(q, ops[i].path)
    {
      assert ops[i].path[0] in order;
    }
    ApplyLookupOffPaths(EmptyNode("root"), ops, q);
  }

  /** A method calculator sees the package of the class's file, that file's
      imports, and the class itself as the enclosing class. */
  lemma MethodContextOfBucket(units: seq<CompilationUnit>, p: string, e: Entry)
    requires e in Bucket(units, p)
    ensures MethodContext(e.context, e.decl).packageName == p
    ensures MethodContext(e.context, e.decl).classDefinition == Some(e.decl)
    ensures exists k ::
      0 <= k < |units| && e.decl in units[k].classes && MethodContext(e.context, e.decl).imports == units[k].imports
  {
    BucketMembers(units, p, e);
  }
}
