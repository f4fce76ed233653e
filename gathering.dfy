/**
 * gatherPackages: the compilation units grouped by package name, each class
 * paired with the one SourceContext built for its file.
 */
module Gathering {

  import opened Wrappers
  import opened Declarations

  /** Pair.of(clazz, sourceContext). */
  datatype Entry = Entry(decl: ClassDecl, context: SourceContext)

  /** The package a unit is filed under; "default" when it declares none,
      so a file that declares a package named "default" shares its bucket
      with the files that declare no package. */
  function PackageOf(cu: CompilationUnit): (r: string)
    ensures r == "default" <==> cu.packageDeclaration.None? || cu.packageDeclaration == Some("default")
  {
    match cu.packageDeclaration
    case Some(name) => name
    case None => "default"
  }

  /** The one context shared by every class of a file. */
  function UnitContext(cu: CompilationUnit): SourceContext
  {
    SourceContext(PackageOf(cu), cu.imports, None)
  }

  function UnitEntries(cu: CompilationUnit): (es: seq<Entry>)
    ensures |es| == |cu.classes|
    ensures forall i :: 0 <= i < |es| ==> es[i] == Entry(cu.classes[i], UnitContext(cu))
  {
    seq(|cu.classes|, i requires 0 <= i < |cu.classes| => Entry(cu.classes[i], UnitContext(cu)))
  }

  /** The packages the units are filed under. */
  function PackagesOf(units: seq<CompilationUnit>): set<string>
  {
    set cu | cu in units :: PackageOf(cu)
  }

  /** The classes of package p: those of each unit filed under p, file after
      file, each file's in its own order. */
  function Bucket(units: seq<CompilationUnit>, p: string): seq<Entry>
  {
    if units == [] then []
    else
      var last := units[|units| - 1];
      Bucket(units[..|units| - 1], p) + (if PackageOf(last) == p then UnitEntries(last) else [])
  }

  function PackageMap(units: seq<CompilationUnit>): map<string, seq<Entry>>
  {
    map p | p in PackagesOf(units) :: Bucket(units, p)
  }

  lemma PackagesOfSnoc(units: seq<CompilationUnit>, i: nat)
    requires i < |units|
    ensures PackagesOf(units[..i + 1]) == PackagesOf(units[..i]) + {PackageOf(units[i])}
  {
    assert units[..i + 1] == units[..i] + [units[i]];
  }

  lemma {:induction false} BucketOfOtherPackage(units: seq<CompilationUnit>, p: string)
    requires p !in PackagesOf(units)
    ensures Bucket(units, p) == []
    decreases |units|
  {
    if units != [] {
      assert units[|units| - 1] in units;
      assert units == units[..|units| - 1] + [units[|units| - 1]];
      BucketOfOtherPackage(units[..|units| - 1], p);
    }
  }

  method GatherPackages(units: seq<CompilationUnit>) returns (packages: map<string, seq<Entry>>)
    ensures packages.Keys == PackagesOf(units)
    ensures forall p :: p in packages ==> packages[p] == Bucket(units, p)
  {
    packages := map[];
    var i := 0;
    while i < |units|
      invariant 0 <= i <= |units|
      invariant Gathered(packages, units[..i])
    {
      var cu := units[i];
      var packageName := PackageOf(cu);
      var sourceContext := SourceContext(packageName, cu.imports, None);
      ghost var start := packages;
      if packageName !in packages {
        packages := packages[packageName := []];
      }
      // packages.get(packageName) is one list, extended in place
      var list := AppendClasses(packages[packageName], cu, sourceContext);
      GatherStep(units, i, start, packages, list);
      packages := packages[packageName := list];
      i := i + 1;
    }
    assert units[..i] == units;
  }

  /** Each class of one file, paired with the file's context, added to the
      end of its package's list. */
  method AppendClasses(list: seq<Entry>, cu: CompilationUnit, sourceContext: SourceContext) returns (extended: seq<Entry>)
    requires sourceContext == UnitContext(cu)
    ensures extended == list + UnitEntries(cu)
  {
    var classes := cu.classes;
    extended := list;
    var j := 0;
    while j < |classes|
      invariant 0 <= j <= |classes|
      invariant extended == list + UnitEntries(cu)[..j]
    {
      assert UnitEntries(cu)[..j + 1] == UnitEntries(cu)[..j] + [Entry(classes[j], sourceContext)];
      extended := extended + [Entry(classes[j], sourceContext)];
      j := j + 1;
    }
    assert UnitEntries(cu)[..j] == UnitEntries(cu);
  }

  /** The map gatherPackages has built after reading `units`. */
  ghost predicate Gathered(packages: map<string, seq<Entry>>, units: seq<CompilationUnit>)
  {
    && packages.Keys == PackagesOf(units)
    && forall p :: p in packages ==> packages[p] == Bucket(units, p)
  }

  /** One file of gatherPackages: its package becomes a key (if it was not
      one, with an empty list) and its classes are appended to that
      package's list. */
  lemma GatherStep(units: seq<CompilationUnit>, i: nat, start: map<string, seq<Entry>>, withKey: map<string, seq<Entry>>, list: seq<Entry>)
    requires i < |units| && Gathered(start, units[..i])
    requires withKey == if PackageOf(units[i]) in start then start else start[PackageOf(units[i]) := []]
    requires list == withKey[PackageOf(units[i])] + UnitEntries(units[i])
    ensures Gathered(withKey[PackageOf(units[i]) := list], units[..i + 1])
  {
    assert units[..i + 1][..i] == units[..i];
    PackagesOfSnoc(units, i);
    if PackageOf(units[i]) !in start {
      BucketOfOtherPackage(units[..i], PackageOf(units[i]));
    }
  }

  /** What gatherPackages builds is exactly the package map. */
  lemma GatheredIsPackageMap(units: seq<CompilationUnit>, packages: map<string, seq<Entry>>)
    requires packages.Keys == PackagesOf(units)
    requires forall p :: p in packages ==> packages[p] == Bucket(units, p)
    ensures packages == PackageMap(units)
  {
  }

  /** A file without a package declaration is filed under "default", and
      every file's package is a key even when the file has no classes. */
  lemma EveryUnitFiled(units: seq<CompilationUnit>, k: nat)
    requires k < |units|
    ensures PackageOf(units[k]) in PackagesOf(units)
    ensures units[k].packageDeclaration.None? ==> "default" in PackagesOf(units)
  {
    assert units[k] in units;
  }

  /** The bucket of p holds exactly the classes of the units filed under p,
      each paired with the context of its own file. */
  lemma {:induction false} BucketMembers(units: seq<CompilationUnit>, p: string, e: Entry)
    ensures e in Bucket(units, p) <==>
      exists k :: 0 <= k < |units| && PackageOf(units[k]) == p &&
        e.decl in units[k].classes && e.context == UnitContext(units[k])
    decreases |units|
  {
    if units != [] {
      var n := |units| - 1;
      var init, last := units[..n], units[n];
      BucketMembers(init, p, e);
      var tail := if PackageOf(last) == p then UnitEntries(last) else [];
      assert e in Bucket(units, p) <==> e in Bucket(init, p) || e in tail;
      if e in tail {
        var i :| 0 <= i < |tail| && tail[i] == e;
        assert e.decl == last.classes[i];
      }
      if exists k :: 0 <= k < |units| && PackageOf(units[k]) == p &&
          e.decl in units[k].classes && e.context == UnitContext(units[k]) {
        var k :| 0 <= k < |units| && PackageOf(units[k]) == p &&
          e.decl in units[k].classes && e.context == UnitContext(units[k]);
        if k == n {
          var i :| 0 <= i < |last.classes| && last.classes[i] == e.decl;
          assert tail[i] == e;
        } else {
          assert init[k] == units[k];
        }
      }
    }
  }

  /** Every class filed under p carries a context for package p, with the
      imports of its own file and no enclosing class. */
  lemma BucketContexts(units: seq<CompilationUnit>, p: string, e: Entry)
    requires e in Bucket(units, p)
    ensures e.context.packageName == p && e.context.classDefinition.None?
  {
    BucketMembers(units, p, e);
  }
}
