/**
 * What the scanner sees of the parsed Java source.  The parser itself is
 * outside the model: a compilation unit arrives already parsed, as its
 * optional package declaration, its imports and the class or interface
 * declarations found anywhere in it (cu.getNodesByType), nested ones included.
 */
module Declarations {

  import opened Wrappers

  /** A method declaration, known by getDeclarationAsString(). */
  datatype MethodDecl = MethodDecl(declaration: string)

  /** A class or interface declaration: its simple name, the AST node it sits
      in (absent for a detached node) and the methods declared directly in it. */
  datatype ClassDecl = ClassDecl(name: string, parent: Option<ParentNode>, methods: seq<MethodDecl>)

  /** The parent node of a class declaration: another class or interface
      declaration, or any other kind of node (a compilation unit, a method
      body, an object creation expression, ...). */
  datatype ParentNode = ClassOrInterfaceParent(decl: ClassDecl) | OtherParent

  /** SourceContext: the package, the imports and the enclosing class handed
      to a calculator together with a declaration. */
  datatype SourceContext = SourceContext(packageName: string, imports: seq<string>, classDefinition: Option<ClassDecl>)

  datatype CompilationUnit = CompilationUnit(packageDeclaration: Option<string>, imports: seq<string>, classes: seq<ClassDecl>)

  predicate IsNested(c: ClassDecl)
  {
    c.parent.Some? && c.parent.value.ClassOrInterfaceParent?
  }

  /** The name a class is reported under (the className computed in scan). */
  function DisplayName(c: ClassDecl): string
  {
    match c.parent
    case Some(ClassOrInterfaceParent(outer)) => outer.name + "." + c.name
    case _ => c.name
  }

  /** A class directly inside a class or interface is reported as
      `Outer.Inner`, any other class by its plain name, and the two cases
      never coincide. */
  lemma DisplayNameQualifiesNested(c: ClassDecl)
    ensures IsNested(c) ==> DisplayName(c) == c.parent.value.decl.name + "." + c.name
    ensures !IsNested(c) <==> DisplayName(c) == c.name
  {
    if IsNested(c) {
      assert |DisplayName(c)| > |c.name|;
    }
  }

  /** The reported name always ends with the class's own simple name. */
  lemma DisplayNameEndsWithName(c: ClassDecl)
    ensures |DisplayName(c)| >= |c.name| && DisplayName(c)[|DisplayName(c)| - |c.name|..] == c.name
  {
  }

  /** Only one level of qualification: what encloses the immediate parent
      does not show in the name, so `A.B.C` and `X.B.C` are both reported as
      `B.C`. */
  lemma DisplayNameOneLevel(c: ClassDecl, d: ClassDecl)
    requires IsNested(c) && IsNested(d) && c.name == d.name
    requires c.parent.value.decl.name == d.parent.value.decl.name
    ensures DisplayName(c) == DisplayName(d)
  {
  }
}
