# Jasome scanner core, modelled in Dafny

Jasome computes source-code metrics. `JasomeScanner` keeps three registries
of calculators, one each for packages, classes and methods. `scan` groups the
parsed files of a code base by package (`gatherPackages`). For each package it
runs every package calculator on the package's class list. For each class of
the package it runs every class calculator, and for each method of the class
every method calculator. Each result set goes into a `JasomeOutputTree`:
- package results at `[package]`;
- class results at `[package, className]`;
- method results at `[package, className, methodDeclaration]`.

`addCalculations` walks such a path from the root. At each segment it reuses
the first child of that name or attaches a new empty one, and it merges the
metrics into the node at the end of the path. The tree prints itself
pre-order:
- a node's name after `level` spaces;
- its metrics, one `+name: value` line each after `level` spaces, ordered by
  name;
- its children, one level deeper.

The files are:
- `calculations.dfy`: a metric result (`Calculation`), `String.compareTo`, and
  the order a node prints its metrics in. `SortMetrics` is the sorted stream.
- `result_tree.dfy`: tree nodes, and `Insert`, the recursive `addCalculations`,
  with its structural properties.
- `rendering.dfy`: `Node.toString(level)`. `RenderNode` is the StringBuilder
  loops, proved equal to the recursive `Render`, whose line count is proved.
- `output_tree.dfy`: the `JasomeOutputTree` class. Its `root` field is replaced
  on each `AddCalculations`.
- `declarations.dfy`: the parsed declarations the scanner reads, and the
  display name of a class.
- `gathering.dfy`: `gatherPackages`, as a loop over the files with an inner
  loop over each file's classes, proved against `Bucket` and `PackagesOf`.
- `scan_spec.dfy`: what a scan does, written as the sequence of
  `addCalculations` calls it makes (`ScanOps`), and which results land at
  which path.
- `scanner.dfy`: the `JasomeScanner` class, its registries and `scan` as
  nested loops, proved to build exactly `ScanTree`.

Calculators are identified by instance, as the source's hash sets compare
them. What an instance computes is a pure function given to `Scan` as the
`Calculators` record.

The order in which a scan visits packages is the iteration order of a hash
map, which the source does not fix. `Scan` therefore picks each next package
nondeterministically, and reports the order it took as a ghost result. Every
lemma about the result holds for every such order. The same goes for the
order in which the calculators of one registry run. Running them one after
the other is proved equal to one insertion of the union of their results.
If a registry is empty, nothing is inserted at that level; a node there
still appears when a deeper insertion passes through it.

The code keeps a node's children in a hash set and prints them in its
iteration order, so the order of sibling blocks in the report is not fixed.
The model keeps children in the order they were attached and makes no claim
that the report is independent of that order.

## Model

| member | source | states |
|---|---|---|
| Calculations.CompareTo | src/main/java/org/jasome/parsing/JasomeScanner.java:205-210 | the comparison of two names is zero exactly when they are equal |
| Calculations.CompareToAntisymmetric | src/main/java/org/jasome/parsing/JasomeScanner.java:205-210 | swapping the operands negates the name comparison |
| Calculations.CompareToTransitive | src/main/java/org/jasome/parsing/JasomeScanner.java:205-210 | the name comparison is transitive |
| Calculations.CalcLessTotal | src/main/java/org/jasome/parsing/JasomeScanner.java:205-210 | of two distinct metrics exactly one is printed first |
| Calculations.CalcLessTransitive | src/main/java/org/jasome/parsing/JasomeScanner.java:205-210 | the metric print order is transitive |
| Calculations.LeastExists | src/main/java/org/jasome/parsing/JasomeScanner.java:205-210 | every non-empty metric set has a first metric in print order |
| Calculations.LeastUnique | src/main/java/org/jasome/parsing/JasomeScanner.java:205-210 | that first metric is unique |
| Calculations.SortedMetrics | src/main/java/org/jasome/parsing/JasomeScanner.java:205-210 | the sorted list holds every metric of the set exactly once and nothing else |
| Calculations.SortedMetricsOrdered | src/main/java/org/jasome/parsing/JasomeScanner.java:205-210 | the sorted list is strictly increasing in print order, hence non-decreasing by name |
| Calculations.SortMetrics | src/main/java/org/jasome/parsing/JasomeScanner.java:205-210 | the selection loop yields exactly the sorted list of the node's metrics |
| Rendering.MetricLine | src/main/java/org/jasome/parsing/JasomeScanner.java:213-215 | one metric's line: `level` spaces, `+`, the name, `: `, the value and a line break |
| Rendering.Indent | src/main/java/org/jasome/parsing/JasomeScanner.java:201 | the indentation is `level` spaces |
| Rendering.Render | src/main/java/org/jasome/parsing/JasomeScanner.java:199-221 | a node's text: its name line, its metric lines in print order, then each child rendered one level deeper |
| Rendering.RenderNode | src/main/java/org/jasome/parsing/JasomeScanner.java:199-221 | the StringBuilder loops produce the name line, then each sorted metric line, then each child's rendering one level deeper |
| Rendering.NewlinesAppend | src/main/java/org/jasome/parsing/JasomeScanner.java:199-221 | proof step, not a claim about the program: line breaks of appended text add up |
| Rendering.MetricLinesNewlines | src/main/java/org/jasome/parsing/JasomeScanner.java:212-216 | the metric block holds one line per metric |
| Rendering.RenderLineCount | src/main/java/org/jasome/parsing/JasomeScanner.java:199-221 | a rendering holds exactly one line per node of the subtree plus one per metric stored in it |
| Rendering.RenderForestLineCount | src/main/java/org/jasome/parsing/JasomeScanner.java:217-219 | the children's renderings hold one line per node and per metric of all their subtrees |
| ResultTree.FindChild | src/main/java/org/jasome/parsing/JasomeScanner.java:174 | the result is the first child with the given name, or none when no child has it |
| ResultTree.Insert | src/main/java/org/jasome/parsing/JasomeScanner.java:172-190 | the node itself keeps its name and its own metrics |
| ResultTree.InsertLookup | src/main/java/org/jasome/parsing/JasomeScanner.java:172-190 | off the path every subtree is unchanged; on the path every node exists with its segment's name and its former metrics, plus the new ones at the end of the path |
| ResultTree.InsertCreatesPath | src/main/java/org/jasome/parsing/JasomeScanner.java:174-183 | afterwards a node exists at q exactly when one existed before or q leads along the path |
| ResultTree.InsertMetricsAt | src/main/java/org/jasome/parsing/JasomeScanner.java:185-188 | the target's metrics become old ∪ new; every other node, including the ones created on the way, keeps what it had (nothing when new) |
| ResultTree.InsertIsolation | src/main/java/org/jasome/parsing/JasomeScanner.java:172-190 | nothing under a different top-level name is created or changed |
| ResultTree.InsertKeepsNamesUnique | src/main/java/org/jasome/parsing/JasomeScanner.java:174-183 | child names stay unique under every parent: an existing child is reused, never duplicated |
| ResultTree.InsertMerge | src/main/java/org/jasome/parsing/JasomeScanner.java:185-188 | inserting A and then B at one path is inserting A ∪ B there once |
| ResultTree.InsertIdempotent | src/main/java/org/jasome/parsing/JasomeScanner.java:185-188 | inserting the same set twice at one path is inserting it once |
| ResultTree.ForestCountUpdate | src/main/java/org/jasome/parsing/JasomeScanner.java:182 | proof step, not a claim about the program: replacing one child changes the node count by the difference of the two subtrees |
| ResultTree.InsertNodeCount | src/main/java/org/jasome/parsing/JasomeScanner.java:176-183 | an insertion creates exactly the path's missing nodes: path length minus the depth that already existed |
| OutputTree.JasomeOutputTree.constructor | src/main/java/org/jasome/parsing/JasomeScanner.java:156-160 | a new tree is a lone node named "root" |
| OutputTree.JasomeOutputTree.AddCalculations | src/main/java/org/jasome/parsing/JasomeScanner.java:166-170 | for a non-empty navigation the root becomes the insertion of the metrics along it; the root keeps its name, no metrics and unique child names |
| OutputTree.JasomeOutputTree.ToString | src/main/java/org/jasome/parsing/JasomeScanner.java:162-164 | the text is the root rendered at level 0 |
| Declarations.DisplayName | src/main/java/org/jasome/parsing/JasomeScanner.java:79-87 | the name a class is reported under: `Parent.Name` when its immediate parent is a class or interface, its plain name otherwise |
| Declarations.DisplayNameEndsWithName | src/main/java/org/jasome/parsing/JasomeScanner.java:79-87 | the reported name always ends with the class's own simple name |
| Declarations.DisplayNameQualifiesNested | src/main/java/org/jasome/parsing/JasomeScanner.java:79-87 | a class whose parent is a class or interface is named `Parent.Name`; it is named by its plain name exactly when it is not such a nested class |
| Declarations.DisplayNameOneLevel | src/main/java/org/jasome/parsing/JasomeScanner.java:81-86 | only the immediate parent shows: nested classes with equal names and equally named parents get the same name |
| Gathering.UnitEntries | src/main/java/org/jasome/parsing/JasomeScanner.java:132-144 | a file contributes each of its classes, in order, paired with the file's one context |
| Gathering.PackageOf | src/main/java/org/jasome/parsing/JasomeScanner.java:129 | a file is filed under "default" exactly when it declares no package or declares one named "default" |
| Gathering.UnitContext | src/main/java/org/jasome/parsing/JasomeScanner.java:131-133 | the one context of a file: its package and its imports, no enclosing class |
| Gathering.GatherPackages | src/main/java/org/jasome/parsing/JasomeScanner.java:120-148 | the keys are the packages of the files; each package maps to its classes, file after file, each file's in order |
| Gathering.AppendClasses | src/main/java/org/jasome/parsing/JasomeScanner.java:142-144 | the file's classes, each with the file's context, are appended in order to the package's list |
| Gathering.GatherStep | src/main/java/org/jasome/parsing/JasomeScanner.java:138-144 | proof step, not a claim about the program: one more file: its package becomes a key and its classes extend that package's list, the other lists unchanged |
| Gathering.EveryUnitFiled | src/main/java/org/jasome/parsing/JasomeScanner.java:129-140 | every file's package is a key, even for a file without classes; a file without package declaration is filed under "default" |
| Gathering.BucketOfOtherPackage | src/main/java/org/jasome/parsing/JasomeScanner.java:138-144 | a package no file declares collects no classes |
| Gathering.BucketMembers | src/main/java/org/jasome/parsing/JasomeScanner.java:124-145 | a pair is in a package's list exactly when its class comes from a file of that package and its context is that file's |
| Gathering.BucketContexts | src/main/java/org/jasome/parsing/JasomeScanner.java:131-133 | every class filed under a package carries that package's name and no enclosing class in its context |
| ScanSpec.MethodContext | src/main/java/org/jasome/parsing/JasomeScanner.java:101-104 | a method's context copies the class context's package and imports and sets the enclosing class |
| ScanSpec.PackageContext | src/main/java/org/jasome/parsing/JasomeScanner.java:63-64 | the package calculators' context: only the package name is set |
| ScanSpec.Classes | src/main/java/org/jasome/parsing/JasomeScanner.java:67 | the package's class declarations, one per pair of its list, in the same order |
| ScanSpec.UnionOver | src/main/java/org/jasome/parsing/JasomeScanner.java:66-70 | a result is in the union exactly when some registered calculator produced it |
| ScanSpec.ApplyAppend | src/main/java/org/jasome/parsing/JasomeScanner.java:58-114 | performing two runs of insertions one after the other is performing their concatenation |
| ScanSpec.ApplyMetricsAt | src/main/java/org/jasome/parsing/JasomeScanner.java:58-114 | after a run of insertions the metrics at q are the former ones plus everything inserted at exactly q |
| ScanSpec.ApplyKeepsNamesUnique | src/main/java/org/jasome/parsing/JasomeScanner.java:58-114 | a run of insertions keeps child names unique |
| ScanSpec.ScanOpsShape | src/main/java/org/jasome/parsing/JasomeScanner.java:58-114 | every insertion of a scan targets a path that starts with a scanned package |
| ScanSpec.ScanOpsAt | src/main/java/org/jasome/parsing/JasomeScanner.java:58-114 | what a scan inserts under a package is what that package's own visit inserts |
| ScanSpec.EntriesOpsAtClass | src/main/java/org/jasome/parsing/JasomeScanner.java:76-97 | what a package's classes insert at `[package, d]` is the class results of the classes named d |
| ScanSpec.EntriesOpsAtMethod | src/main/java/org/jasome/parsing/JasomeScanner.java:99-111 | what a package's classes insert at `[package, d, s]` is the method results of the methods s of the classes named d |
| ScanSpec.PackageStep | src/main/java/org/jasome/parsing/JasomeScanner.java:58-114 | proof step, not a claim about the program: visiting one more package extends the tree by that package's insertions |
| ScanSpec.MethodStep | src/main/java/org/jasome/parsing/JasomeScanner.java:100-110 | proof step, not a claim about the program: running one more method's calculators extends the class's method insertions by one |
| ScanSpec.OrderedSoFarStep | src/main/java/org/jasome/parsing/JasomeScanner.java:58 | proof step, not a claim about the program: handing out one more key keeps the visited keys distinct and all keys accounted for |
| ScanSpec.ScanPackageMetrics | src/main/java/org/jasome/parsing/JasomeScanner.java:62-72 | the metrics at `[p]` are the union of every package calculator's result on p's full class list, or nothing when none is registered |
| ScanSpec.ScanClassMetrics | src/main/java/org/jasome/parsing/JasomeScanner.java:76-97 | the metrics at `[p, d]` are the class calculators' results for the classes of p displayed as d |
| ScanSpec.ScanMethodMetrics | src/main/java/org/jasome/parsing/JasomeScanner.java:99-111 | the metrics at `[p, d, s]` are the method calculators' results for the methods s of the classes of p displayed as d |
| ScanSpec.ScanOnlyKnownPackages | src/main/java/org/jasome/parsing/JasomeScanner.java:54-58 | under the root there is nothing but the packages of the scanned files |
| ScanSpec.MethodContextOfBucket | src/main/java/org/jasome/parsing/JasomeScanner.java:100-104 | a method calculator sees the package of its class's file, that file's imports and the class as enclosing class |
| Scanner.JasomeScanner.constructor | src/main/java/org/jasome/parsing/JasomeScanner.java:34-38 | a new scanner has three empty registries |
| Scanner.JasomeScanner.RegisterPackageCalculator | src/main/java/org/jasome/parsing/JasomeScanner.java:40-42 | the package registry gains the calculator, unchanged if it was already there; the other registries are unchanged |
| Scanner.JasomeScanner.RegisterClassCalculator | src/main/java/org/jasome/parsing/JasomeScanner.java:44-46 | the class registry gains the calculator, unchanged if it was already there; the other registries are unchanged |
| Scanner.JasomeScanner.RegisterMethodCalculator | src/main/java/org/jasome/parsing/JasomeScanner.java:48-50 | the method registry gains the calculator, unchanged if it was already there; the other registries are unchanged |
| Scanner.JasomeScanner.Scan | src/main/java/org/jasome/parsing/JasomeScanner.java:52-118 | the packages are visited in some order of the gathered keys, each once, and the output is exactly the scan's tree for that order |
| Scanner.JasomeScanner.ScanPackage | src/main/java/org/jasome/parsing/JasomeScanner.java:59-113 | one package's visit: the package calculators at `[package]`, then each class in list order |
| Scanner.JasomeScanner.ScanClass | src/main/java/org/jasome/parsing/JasomeScanner.java:76-111 | one class's visit: its display name, the class calculators at `[package, name]`, then its methods |
| Scanner.JasomeScanner.ScanMethods | src/main/java/org/jasome/parsing/JasomeScanner.java:100-111 | each method in declaration order, its fresh context, the method calculators at `[package, name, declaration]` |
| Scanner.AddForAll | src/main/java/org/jasome/parsing/JasomeScanner.java:66-70 | running a registry's calculators in any order is one insertion of the union of their results, or none if the registry is empty |
| Scanner.AddOneMore | src/main/java/org/jasome/parsing/JasomeScanner.java:92-95 | one more calculator's insertion merges its result into the accumulated union |

## Left out

- Reading the files and `JavaParser.parse` are not modelled. A file enters as an
  already parsed `CompilationUnit`: an optional package name, its imports as
  text, and its class declarations in the order the parser reports them
  (nested ones included).
- The calculators' own code is not part of this model. Each calculator
  instance is a number, and what it computes is a pure function passed to
  `Scan`. A calculator that throws, or whose result depends on anything other
  than its arguments, is not modelled.
- `Calculation` and `SourceContext` are taken as plain values. A
  `Calculation` is a name and a textual value with structural equality. The
  defaults of a fresh `SourceContext` are taken as no imports and no enclosing
  class.
- `System.out.println(output)` at the end of `scan` is console output.
  `Scan` returns the tree instead, and `ToString` gives the printed text.
- `synchronized (root)` only serves locking. The model is sequential.
- Node identity and in-place mutation are not modelled. Nodes are values, and
  `AddCalculations` replaces the root with the updated tree. No node is shared
  between two parents, so nothing observable differs.
- The iteration order of hash maps and hash sets is not modelled. Packages and
  calculators are taken in an arbitrary order, and every property holds for
  all of them. Children are kept in the order they were attached, which is
  one possible iteration order of the source's hash set. No claim is made
  that the printed order of packages or children is deterministic.
- Calculations.CalcLess: same-named metrics with different values come out
  in hash-set order in the source, since its comparator looks at names only.
  The model orders them by value, one of the orders the source may produce.
- Calculations.CompareTo compares Dafny characters (Unicode scalar values).
  Java compares UTF-16 code units, which can differ for characters outside
  the Basic Multilingual Plane.
- OutputTree.JasomeOutputTree.AddCalculations requires a non-empty
  navigation. The source reads `navigation[0]` unconditionally and throws on
  an empty one, and `scan` never passes one.
- `Rendering.RenderLineCount` counts lines only when names and metric texts
  contain no line break. The source does not forbid them, and then the count
  differs.
- The unused XML and DOM imports of the source file are not modelled.
