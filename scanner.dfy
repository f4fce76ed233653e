/**
 * JasomeScanner: the three calculator registries and the scan that runs
 * every registered calculator at every package, class and method and writes
 * the results into a JasomeOutputTree.
 *
 * The files arrive already parsed; what the scan prints is the tree's
 * ToString, so the scan here returns the tree instead of printing it.
 */
module Scanner {

  import opened Wrappers
  import opened Calculations
  import opened ResultTree
  import opened Declarations
  import opened Gathering
  import opened ScanSpec
  import opened OutputTree

  class JasomeScanner {
    var packageCalculators: set<nat>
    var classCalculators: set<nat>
    var methodCalculators: set<nat>

    function Registered(): Registries
      reads this
    {
      Registries(packageCalculators, classCalculators, methodCalculators)
    }

    constructor ()
      ensures packageCalculators == {} && classCalculators == {} && methodCalculators == {}
    {
      packageCalculators := {};
      classCalculators := {};
      methodCalculators := {};
    }

    /** Set semantics: registering an instance that is already registered
        leaves the registry as it was. */
    method RegisterPackageCalculator(calculator: nat)
      modifies this
      ensures packageCalculators == old(packageCalculators) + {calculator}
      ensures old(calculator in packageCalculators) ==> packageCalculators == old(packageCalculators)
      ensures classCalculators == old(classCalculators) && methodCalculators == old(methodCalculators)
    {
      packageCalculators := packageCalculators + {calculator};
    }

    method RegisterClassCalculator(calculator: nat)
      modifies this
      ensures classCalculators == old(classCalculators) + {calculator}
      ensures old(calculator in classCalculators) ==> classCalculators == old(classCalculators)
      ensures packageCalculators == old(packageCalculators) && methodCalculators == old(methodCalculators)
    {
      classCalculators := classCalculators + {calculator};
    }

    method RegisterMethodCalculator(calculator: nat)
      modifies this
      ensures methodCalculators == old(methodCalculators) + {calculator}
      ensures old(calculator in methodCalculators) ==> methodCalculators == old(methodCalculators)
      ensures packageCalculators == old(packageCalculators) && classCalculators == old(classCalculators)
    {
      methodCalculators := methodCalculators + {calculator};
    }

    /** scan: the packages are visited in whatever order the HashMap hands
        them out (recorded in `order`), each package's calculators first, then
        each class's, then each of its methods'. */
    method Scan(units: seq<CompilationUnit>, calcs: Calculators) returns (output: JasomeOutputTree, ghost order: seq<string>)
      ensures fresh(output) && output.Valid()
      ensures IsOrdering(order, PackagesOf(units))
      ensures output.root == ScanTree(calcs, Registered(), units, order)
    {
      var packages := GatherPackages(units);
      GatheredIsPackageMap(units, packages);
      output := new JasomeOutputTree();
      ghost var reg := Registered();
      ghost var empty := output.root;
      var remaining := packages.Keys;
      order := [];
      OrderedSoFarStart(packages.Keys);
      while remaining != {}
        invariant OrderedSoFar(order, remaining, packages.Keys)
        invariant output.Valid()
        invariant NonEmptyPaths(ScanOps(calcs, reg, packages, order))
        invariant output.root == Apply(empty, ScanOps(calcs, reg, packages, order))
        decreases |remaining|
      {
        var packageName :| packageName in remaining;
        ScanPackage(output, calcs, packageName, packages[packageName]);
        PackageStep(empty, calcs, reg, packages, order, packageName);
        OrderedSoFarStep(order, remaining, packages.Keys, packageName);
        order := order + [packageName];
        remaining := remaining - {packageName};
      }
      OrderedSoFarDone(order, packages.Keys);
      ScanTreeOfGathered(calcs, reg, units, order);
    }

    /** One package of scan: the package calculators over all its classes,
        then each class. */
    method ScanPackage(output: JasomeOutputTree, calcs: Calculators, packageName: string, entries: seq<Entry>)
      requires output.Valid()
      modifies output
      ensures output.Valid()
      ensures NonEmptyPaths(PackageOps(calcs, Registered(), packageName, entries))
      ensures output.root == Apply(old(output.root), PackageOps(calcs, Registered(), packageName, entries))
    {
      // First, the package metrics.
      var packageContext := PackageContext(packageName);
      var classes := Classes(entries);
      var pf := (c: nat) => calcs.forPackage(c, classes, packageContext);
      AddForAll(output, packageCalculators, [packageName], pf);
      UnionOverPackage(calcs, packageCalculators, classes, packageContext, pf);
      ghost var done := OpsFor(packageCalculators, [packageName], PackageResult(calcs, packageCalculators, classes, packageContext));
      ApplyOpsFor(old(output.root), packageCalculators, [packageName], PackageResult(calcs, packageCalculators, classes, packageContext));
      assert entries[..0] == [];

      // Now the class metrics.
      var i := 0;
      while i < |entries|
        invariant 0 <= i <= |entries|
        invariant output.Valid()
        invariant NonEmptyPaths(done + EntriesOps(calcs, Registered(), packageName, entries[..i]))
        invariant output.root == Apply(old(output.root), done + EntriesOps(calcs, Registered(), packageName, entries[..i]))
      {
        EntriesOpsStep(calcs, Registered(), packageName, entries, done, i);
        ScanClass(output, calcs, packageName, entries[i]);
        ApplyAppend(old(output.root), done + EntriesOps(calcs, Registered(), packageName, entries[..i]), EntryOps(calcs, Registered(), packageName, entries[i]));
        i := i + 1;
      }
      assert entries[..i] == entries;
    }

    /** The class metrics of one class, then the metrics of its methods. */
    method ScanClass(output: JasomeOutputTree, calcs: Calculators, packageName: string, classAndContext: Entry)
      requires output.Valid()
      modifies output
      ensures output.Valid()
      ensures NonEmptyPaths(EntryOps(calcs, Registered(), packageName, classAndContext))
      ensures output.root == Apply(old(output.root), EntryOps(calcs, Registered(), packageName, classAndContext))
    {
      var classDefinition := classAndContext.decl;
      var className := classDefinition.name;
      if classDefinition.parent.Some? {
        var parentNode := classDefinition.parent.value;
        if parentNode.ClassOrInterfaceParent? {
          className := parentNode.decl.name + "." + classDefinition.name;
        }
      }
      assert className == DisplayName(classDefinition);
      var classContext := classAndContext.context;

      var cf := (c: nat) => calcs.forClass(c, classDefinition, classContext);
      AddForAll(output, classCalculators, [packageName, className], cf);
      UnionOverClass(calcs, classCalculators, classDefinition, classContext, cf);
      ghost var done := OpsFor(classCalculators, [packageName, className],
                               ClassResult(calcs, classCalculators, classDefinition, classContext));
      ApplyOpsFor(old(output.root), classCalculators, [packageName, className],
                  ClassResult(calcs, classCalculators, classDefinition, classContext));

      // And finally the method metrics.
      ScanMethods(output, calcs, packageName, classAndContext, className);
      EntryOpsShape(calcs, Registered(), packageName, classAndContext);
      MethodOpsShape(calcs, Registered(), packageName, classAndContext, classDefinition.methods);
      ApplyAppend(old(output.root), done, MethodOps(calcs, Registered(), packageName, classAndContext, classDefinition.methods));
    }

    /** The method calculators over each method of one class, in declaration
        order. */
    method ScanMethods(output: JasomeOutputTree, calcs: Calculators, packageName: string, classAndContext: Entry, className: string)
      requires output.Valid() && className == DisplayName(classAndContext.decl)
      modifies output
      ensures output.Valid()
      ensures NonEmptyPaths(MethodOps(calcs, Registered(), packageName, classAndContext, classAndContext.decl.methods))
      ensures output.root == Apply(old(output.root), MethodOps(calcs, Registered(), packageName, classAndContext, classAndContext.decl.methods))
    {
      var classDefinition := classAndContext.decl;
      var classContext := classAndContext.context;
      var methods := classDefinition.methods;
      assert methods[..0] == [];
      var j := 0;
      while j < |methods|
        invariant 0 <= j <= |methods|
        invariant output.Valid()
        invariant NonEmptyPaths(MethodOps(calcs, Registered(), packageName, classAndContext, methods[..j]))
        invariant output.root == Apply(old(output.root), MethodOps(calcs, Registered(), packageName, classAndContext, methods[..j]))
      {
        var methodDeclaration := methods[j];
        var methodContext := SourceContext(classContext.packageName, classContext.imports, Some(classDefinition));
        var mf := (c: nat) => calcs.forMethod(c, methodDeclaration, methodContext);
        AddForAll(output, methodCalculators, [packageName, className, methodDeclaration.declaration], mf);
        MethodStep(old(output.root), calcs, Registered(), packageName, classAndContext, j, mf);
        j := j + 1;
      }
      assert methods[..j] == methods;
    }
  }

  /** Every calculator of one registry, each result added at `path`: in any
      order the calculators are met, this is one insertion of their union
      (none if the registry is empty). */
  method AddForAll(output: JasomeOutputTree, calculators: set<nat>, path: seq<string>, calculate: nat -> set<Calculation>)
    requires output.Valid() && |path| > 0
    modifies output
    ensures output.Valid()
    ensures output.root == Apply(old(output.root), OpsFor(calculators, path, UnionOver(calculators, calculate)))
  {
    var rest := calculators;
    ghost var done: set<nat> := {};
    while rest != {}
      invariant rest + done == calculators && rest !! done
      invariant output.Valid()
      invariant output.root == Accumulated(old(output.root), path, done, calculate)
      decreases |rest|
    {
      var calculator :| calculator in rest;
      var calculations := calculate(calculator);
      output.AddCalculations(calculations, path);
      AddOneMore(old(output.root), path, done, calculator, calculate);
      done := done + {calculator};
      rest := rest - {calculator};
    }
    assert done == calculators;
    AccumulatedAll(old(output.root), path, calculators, calculate);
  }

  /** The tree once the calculators in `done` have added their results. */
  function Accumulated(root: Node, path: seq<string>, done: set<nat>, calculate: nat -> set<Calculation>): Node
    requires |path| > 0
  {
    if done == {} then root else Insert(root, path, UnionOver(done, calculate))
  }

  /** Once every calculator has run, the tree is the one insertion of
      their union (none if there were none). */
  lemma AccumulatedAll(root: Node, path: seq<string>, ids: set<nat>, calculate: nat -> set<Calculation>)
    requires |path| > 0
    ensures Accumulated(root, path, ids, calculate) == Apply(root, OpsFor(ids, path, UnionOver(ids, calculate)))
  {
    ApplyOpsFor(root, ids, path, UnionOver(ids, calculate));
  }

  lemma AddOneMore(root: Node, path: seq<string>, done: set<nat>, calculator: nat, calculate: nat -> set<Calculation>)
    requires |path| > 0
    ensures Insert(Accumulated(root, path, done, calculate), path, calculate(calculator))
         == Accumulated(root, path, done + {calculator}, calculate)
  {
    assert UnionOver(done + {calculator}, calculate) == UnionOver(done, calculate) + calculate(calculator);
    if done != {} {
      InsertMerge(root, path, UnionOver(done, calculate), calculate(calculator));
    } else {
      assert UnionOver(done + {calculator}, calculate) == calculate(calculator);
    }
  }
}
