/** The Solid framework's component-extraction rules: which top-level
    declarations of a file become preview components, and with what metadata. */
module SolidExtract {
  import opened Wrappers
  import opened Seqs
  import opened JsValues
  import opened TypeScript

  /** A `[start, end]` offset pair of the statement a component comes from. */
  datatype Span = Span(start: nat, end: nat)

  /** What the component's `analyze` closure would inspect: the chosen Solid
      signature, or an opaque analysis supplied by the CSF3 story extractor. */
  datatype Analysis = AnalyzeSolid(signature: Signature) | AnalyzeOther(id: nat)

  /** A detected component, as `@previewjs/core` describes it. */
  datatype Component = Component(
    absoluteFilePath: string,
    name: string,
    isStory: bool,
    exported: bool,
    offsets: seq<Span>,
    analysis: Analysis)

  /** `helpers.extractArgs` and `helpers.extractExportedNames`, whose bodies are
      not part of this model: the story-args map and the export-name map of a file. */
  datatype Helpers = Helpers(
    extractArgs: SourceFile -> map<string, bool>,
    extractExportedNames: SourceFile -> map<string, string>)

  /** Everything the per-statement rules consult. */
  datatype Context = Context(
    checker: Checker,
    args: map<string, bool>,
    nameToExportedName: map<string, string>,
    absoluteFilePath: string)

  const DefaultName: string := "default"

  /** Symbol names that mark a JSX element type. */
  const JsxElementTypes: set<string> := {"Element", "FunctionElement"}

  /** A Solid component name starts with an upper-case ASCII letter. The code
      compares the first character as a one-character string against "A" and "Z". */
  function IsValidSolidComponentName(name: string): (r: bool)
    ensures r <==> |name| > 0 && 'A' <= name[0] <= 'Z'
  {
    if |name| == 0 then false
    else
      var first := name[..1];
      assert first == [name[0]];
      SingleCharLess(name[0], 'A');
      SingleCharLess('Z', name[0]);
      StringAtLeast(first, "A") && StringAtMost(first, "Z")
  }

  /** The type's own symbol is named `Element` or `FunctionElement`. */
  predicate HasJsxName(t: Type)
  {
    t.symbol.Some? && t.symbol.value.escapedName in JsxElementTypes
  }

  /** A union counts when one of its constituents counts; any type counts when
      its own symbol has a JSX element name. */
  predicate IsJsxElement(t: Type)
    ensures !t.isUnion ==> (IsJsxElement(t) <==> HasJsxName(t))
    ensures t.isUnion && (exists i :: 0 <= i < |t.types| && HasJsxName(t.types[i])) ==> IsJsxElement(t)
  {
    (t.isUnion && exists i :: 0 <= i < |t.types| && IsJsxElement(t.types[i]))
    || HasJsxName(t)
  }

  /** `u` is `t` itself or, transitively, a constituent of the union `t`. */
  ghost predicate UnionReaches(t: Type, u: Type)
  {
    u == t || (t.isUnion && exists i :: 0 <= i < |t.types| && UnionReaches(t.types[i], u))
  }

  /** A type is a JSX element exactly when some type reachable from it through
      union membership, itself included, is named `Element` or `FunctionElement`. */
  lemma {:induction false} JsxElementIffNamedConstituent(t: Type)
    ensures IsJsxElement(t) <==> exists u :: UnionReaches(t, u) && HasJsxName(u)
  {
    if IsJsxElement(t) {
      if HasJsxName(t) {
        assert UnionReaches(t, t);
      } else {
        var i :| 0 <= i < |t.types| && IsJsxElement(t.types[i]);
        JsxElementIffNamedConstituent(t.types[i]);
        var u :| UnionReaches(t.types[i], u) && HasJsxName(u);
        assert UnionReaches(t, u);
      }
    }
    if exists u :: UnionReaches(t, u) && HasJsxName(u) {
      var u :| UnionReaches(t, u) && HasJsxName(u);
      if u != t {
        var i :| 0 <= i < |t.types| && UnionReaches(t.types[i], u);
        JsxElementIffNamedConstituent(t.types[i]);
        assert IsJsxElement(t.types[i]);
      }
    }
  }

  /** A return type makes a function component when it is a JSX element. */
  function IsValidComponentReturnType(t: Type): (r: bool)
    ensures r <==> exists u :: UnionReaches(t, u) && HasJsxName(u)
  {
    JsxElementIffNamedConstituent(t);
    IsJsxElement(t)
  }

  /** A call signature that makes a function component. */
  predicate ReturnsJsx(s: Signature)
  {
    IsValidComponentReturnType(s.returnType)
  }

  /** A construct signature that makes a class component. */
  predicate HasRender(s: Signature)
  {
    "render" in s.returnType.properties
  }

  /** The signature that makes `node` a component, if any: the first call
      signature returning JSX; failing that, when the node's type has a symbol,
      the first construct signature of the symbol's type whose instances have a
      `render` property. */
  function ExtractSolidComponent(checker: Checker, node: Node): (r: Option<Signature>)
    ensures r.Some? ==> ReturnsJsx(r.value) || HasRender(r.value)
    ensures var calls := checker.typeAtLocation(node).callSignatures;
            (exists i :: 0 <= i < |calls| && ReturnsJsx(calls[i])) ==>
              exists i :: IsFirst(calls, ReturnsJsx, i) && r == Some(calls[i])
    ensures var t := checker.typeAtLocation(node);
            (forall i :: 0 <= i < |t.callSignatures| ==> !ReturnsJsx(t.callSignatures[i])) ==>
              if t.symbol.None? then r.None?
              else
                var ctors := checker.typeOfSymbolAtLocation(t.symbol.value, node).constructSignatures;
                && (r.Some? <==> exists k :: 0 <= k < |ctors| && HasRender(ctors[k]))
                && (r.Some? ==> exists k :: IsFirst(ctors, HasRender, k) && r == Some(ctors[k]))
  {
    var t := checker.typeAtLocation(node);
    match FirstWhere(t.callSignatures, ReturnsJsx)
    case Some(i) => Some(t.callSignatures[i])
    case None =>
      if t.symbol.None? then None
      else
        var classType := checker.typeOfSymbolAtLocation(t.symbol.value, node);
        match FirstWhere(classType.constructSignatures, HasRender)
        case Some(k) => Some(classType.constructSignatures[k])
        case None => None
  }

  /** The facts every emitted Solid component shares: the file path, the single
      offset pair of its statement, and a Solid signature to analyse. */
  predicate EmittedFor(ctx: Context, span: Span, c: Component)
  {
    && c.absoluteFilePath == ctx.absoluteFilePath
    && c.offsets == [span]
    && c.analysis.AnalyzeSolid?
  }

  /** How a component's name relates to its flags: a `default` component is
      exported; any other name passes the capitalisation filter, and its flags
      are the truthiness of its entries in the two maps. */
  predicate FlagsConsistent(ctx: Context, c: Component)
  {
    if c.name == DefaultName then c.exported
    else
      && IsValidSolidComponentName(c.name)
      && (c.isStory <==> BoolEntryTruthy(ctx.args, c.name))
      && (c.exported <==> StringEntryTruthy(ctx.nameToExportedName, c.name))
  }

  function Emit(ctx: Context, name: string, isStory: bool, exported: bool, span: Span, signature: Signature): Component
  {
    Component(ctx.absoluteFilePath, name, isStory, exported, [span], AnalyzeSolid(signature))
  }

  /** `export default <expression>;` or `export = <expression>;`, which the
      code treats alike. */
  function FromExportAssignment(ctx: Context, expression: Expression, span: Span): (r: seq<Component>)
    ensures |r| <= 1
    ensures expression.IdentifierExpression? ==> r == []
    ensures !expression.IdentifierExpression? ==>
              (|r| == 1 <==> ExtractSolidComponent(ctx.checker, expression.node).Some?)
    ensures forall c | c in r ::
              && EmittedFor(ctx, span, c)
              && c.name == DefaultName && !c.isStory && c.exported
              && Some(c.analysis.signature) == ExtractSolidComponent(ctx.checker, expression.node)
  {
    // `export default Foo` names a declaration that is extracted on its own.
    if expression.IdentifierExpression? then []
    else
      match ExtractSolidComponent(ctx.checker, expression.node)
      case Some(signature) => [Emit(ctx, DefaultName, false, true, span, signature)]
      case None => []
  }

  /** One declaration of a `const`/`let`/`var` statement. */
  function FromVariableDeclaration(ctx: Context, declaration: VariableDeclaration, span: Span): (r: seq<Component>)
    ensures |r| <= 1
    ensures |r| == 1 <==>
              && declaration.name.IdentifierName?
              && declaration.initializer.Some?
              && IsValidSolidComponentName(declaration.name.text)
              && ExtractSolidComponent(ctx.checker, declaration.initializer.value.node).Some?
    ensures forall c | c in r ::
              && EmittedFor(ctx, span, c)
              && declaration.name.IdentifierName?
              && declaration.initializer.Some?
              && Some(c.analysis.signature) == ExtractSolidComponent(ctx.checker, declaration.initializer.value.node)
              && c.name == declaration.name.text
              && (c.isStory <==> BoolEntryTruthy(ctx.args, c.name))
              && (c.exported <==> StringEntryTruthy(ctx.nameToExportedName, c.name))
  {
    if !declaration.name.IdentifierName? || declaration.initializer.None? then []
    else
      var name := declaration.name.text;
      if !IsValidSolidComponentName(name) then []
      else
        match ExtractSolidComponent(ctx.checker, declaration.initializer.value.node)
        case Some(signature) =>
          [Emit(ctx, name, BoolEntryTruthy(ctx.args, name),
                StringEntryTruthy(ctx.nameToExportedName, name), span, signature)]
        case None => []
  }

  /** The function carries both the `export` and the `default` modifier. */
  predicate IsDefaultExport(modifiers: seq<Modifier>)
  {
    ExportKeyword in modifiers && DefaultKeyword in modifiers
  }

  /** `function Name(...) {...}`, possibly `export default` and possibly anonymous. */
  function FromFunctionDeclaration(ctx: Context, node: Node, modifiers: seq<Modifier>, name: Option<string>, span: Span): (r: seq<Component>)
    ensures |r| <= 1
    ensures |r| == 1 <==>
              && (IsDefaultExport(modifiers) || (NameTruthy(name) && IsValidSolidComponentName(name.value)))
              && ExtractSolidComponent(ctx.checker, node).Some?
    ensures forall c | c in r ::
              && EmittedFor(ctx, span, c)
              && Some(c.analysis.signature) == ExtractSolidComponent(ctx.checker, node)
              && (IsDefaultExport(modifiers) ==> c.name == DefaultName)
              && (!IsDefaultExport(modifiers) ==> NameTruthy(name) && c.name == name.value)
              && (c.isStory <==> NameTruthy(name) && BoolEntryTruthy(ctx.args, name.value))
              && (c.exported <==>
                    IsDefaultExport(modifiers) || (NameTruthy(name) && StringEntryTruthy(ctx.nameToExportedName, name.value)))
  {
    var isDefaultExport := IsDefaultExport(modifiers);
    var exported := (NameTruthy(name) && StringEntryTruthy(ctx.nameToExportedName, name.value)) || isDefaultExport;
    if isDefaultExport || (NameTruthy(name) && IsValidSolidComponentName(name.value)) then
      match ExtractSolidComponent(ctx.checker, node)
      case Some(signature) =>
        var emittedName := if isDefaultExport || !NameTruthy(name) then DefaultName else name.value;
        var isStory := if NameTruthy(name) then BoolEntryTruthy(ctx.args, name.value) else false;
        [Emit(ctx, emittedName, isStory, exported, span, signature)]
      case None => []
    else []
  }

  /** `class Name {...}`; a class without a name is not considered. */
  function FromClassDeclaration(ctx: Context, node: Node, name: Option<string>, span: Span): (r: seq<Component>)
    ensures |r| <= 1
    ensures |r| == 1 <==>
              name.Some? && IsValidSolidComponentName(name.value) && ExtractSolidComponent(ctx.checker, node).Some?
    ensures forall c | c in r ::
              && EmittedFor(ctx, span, c)
              && Some(c.analysis.signature) == ExtractSolidComponent(ctx.checker, node)
              && name.Some? && c.name == name.value
              && (c.isStory <==> BoolEntryTruthy(ctx.args, c.name))
              && (c.exported <==> StringEntryTruthy(ctx.nameToExportedName, c.name))
  {
    if name.None? || !IsValidSolidComponentName(name.value) then []
    else
      match ExtractSolidComponent(ctx.checker, node)
      case Some(signature) =>
        [Emit(ctx, name.value, BoolEntryTruthy(ctx.args, name.value),
              StringEntryTruthy(ctx.nameToExportedName, name.value), span, signature)]
      case None => []
  }

  /** The declarations of one variable statement, in declaration order. */
  function FromVariableStatement(ctx: Context, declarations: seq<VariableDeclaration>, span: Span): (r: seq<Component>)
    ensures |r| <= |declarations|
    ensures |declarations| == 1 ==> r == FromVariableDeclaration(ctx, declarations[0], span)
    ensures forall c | c in r ::
              && EmittedFor(ctx, span, c)
              && exists i :: 0 <= i < |declarations| && c in FromVariableDeclaration(ctx, declarations[i], span)
    ensures forall i, c | 0 <= i < |declarations| && c in FromVariableDeclaration(ctx, declarations[i], span) :: c in r
  {
    if |declarations| == 0 then []
    else
      var rest := FromVariableStatement(ctx, declarations[1..], span);
      assert forall i | 1 <= i < |declarations| :: declarations[i] == declarations[1..][i - 1];
      FromVariableDeclaration(ctx, declarations[0], span) + rest
  }

  function StatementSpan(s: Statement): Span
  {
    Span(s.start, s.end)
  }

  /** The components one top-level statement contributes, in order. */
  function StatementComponents(ctx: Context, s: Statement): (r: seq<Component>)
    ensures s.kind.OtherStatement? ==> r == []
    ensures !s.kind.VariableStatement? ==> |r| <= 1
    ensures s.kind.ExportAssignment? ==> r == FromExportAssignment(ctx, s.kind.expression, StatementSpan(s))
    ensures s.kind.VariableStatement? ==> r == FromVariableStatement(ctx, s.kind.declarations, StatementSpan(s))
    ensures s.kind.FunctionDeclaration? ==>
              r == FromFunctionDeclaration(ctx, s.node, s.kind.modifiers, s.kind.functionName, StatementSpan(s))
    ensures s.kind.ClassDeclaration? ==> r == FromClassDeclaration(ctx, s.node, s.kind.className, StatementSpan(s))
  {
    var span := StatementSpan(s);
    match s.kind
    case ExportAssignment(expression) => FromExportAssignment(ctx, expression, span)
    case VariableStatement(declarations) => FromVariableStatement(ctx, declarations, span)
    case FunctionDeclaration(modifiers, name) => FromFunctionDeclaration(ctx, s.node, modifiers, name, span)
    case ClassDeclaration(name) => FromClassDeclaration(ctx, s.node, name, span)
    case OtherStatement => []
  }

  /** Every component a statement yields carries the file path, the statement's
      single offset pair and a Solid signature. A `default` component is exported;
      any other follows the capitalisation filter and the two maps. */
  lemma StatementComponentsSound(ctx: Context, s: Statement, c: Component)
    requires c in StatementComponents(ctx, s)
    ensures EmittedFor(ctx, StatementSpan(s), c) && FlagsConsistent(ctx, c)
  {
  }

  /** The Solid components of a file's statements, in statement order. */
  function SolidComponents(ctx: Context, statements: seq<Statement>): (r: seq<Component>)
    ensures |statements| == 0 ==> r == []
    ensures |statements| == 1 ==> r == StatementComponents(ctx, statements[0])
  {
    if |statements| == 0 then []
    else
      var rest := SolidComponents(ctx, statements[1..]);
      assert forall i | 1 <= i < |statements| :: statements[i] == statements[1..][i - 1];
      StatementComponents(ctx, statements[0]) + rest
  }

  /** Every component of a file follows the flag rules and carries the file
      path and the single offset pair of one of the file's statements. */
  lemma {:induction false} SolidComponentsSound(ctx: Context, statements: seq<Statement>)
    ensures forall c | c in SolidComponents(ctx, statements) ::
              && FlagsConsistent(ctx, c)
              && exists i :: 0 <= i < |statements| && EmittedFor(ctx, StatementSpan(statements[i]), c)
  {
    if |statements| > 0 {
      SolidComponentsSound(ctx, statements[1..]);
      assert SolidComponents(ctx, statements)
             == StatementComponents(ctx, statements[0]) + SolidComponents(ctx, statements[1..]);
      forall c | c in SolidComponents(ctx, statements)
        ensures FlagsConsistent(ctx, c)
        ensures exists i :: 0 <= i < |statements| && EmittedFor(ctx, StatementSpan(statements[i]), c)
      {
        if c in StatementComponents(ctx, statements[0]) {
          StatementComponentsSound(ctx, statements[0], c);
        } else {
          assert c in SolidComponents(ctx, statements[1..]);
          var i :| 0 <= i < |statements[1..]| && EmittedFor(ctx, StatementSpan(statements[1..][i]), c);
          assert EmittedFor(ctx, StatementSpan(statements[i + 1]), c);
        }
      }
    }
  }

  /** Statements earlier in the file contribute their components earlier. */
  lemma {:induction false} SolidComponentsAppend(ctx: Context, a: seq<Statement>, b: seq<Statement>)
    ensures SolidComponents(ctx, a + b) == SolidComponents(ctx, a) + SolidComponents(ctx, b)
  {
    if |a| == 0 {
      assert a + b == b;
    } else {
      assert (a + b)[1..] == a[1..] + b;
      SolidComponentsAppend(ctx, a[1..], b);
    }
  }

  /** Statement `i` contributes its components, all of them, between those of
      the statements before it and those of the statements after it. */
  lemma SolidComponentsAt(ctx: Context, statements: seq<Statement>, i: int)
    requires 0 <= i < |statements|
    ensures SolidComponents(ctx, statements)
            == SolidComponents(ctx, statements[..i]) + StatementComponents(ctx, statements[i])
               + SolidComponents(ctx, statements[i + 1..])
  {
    assert statements == statements[..i] + ([statements[i]] + statements[i + 1..]);
    SolidComponentsAppend(ctx, statements[..i], [statements[i]] + statements[i + 1..]);
    SolidComponentsAppend(ctx, [statements[i]], statements[i + 1..]);
  }

  /** One iteration of the statement loop: the first `i + 1` statements yield the
      components of the first `i`, then those of statement `i`. */
  lemma SolidComponentsStep(ctx: Context, statements: seq<Statement>, i: int)
    requires 0 <= i < |statements|
    ensures SolidComponents(ctx, statements[..i + 1])
            == SolidComponents(ctx, statements[..i]) + StatementComponents(ctx, statements[i])
  {
    assert statements[..i + 1] == statements[..i] + [statements[i]];
    SolidComponentsAppend(ctx, statements[..i], [statements[i]]);
  }

  /** The context `extractSolidComponents` builds for a parsed file. */
  function FileContext(checker: Checker, helpers: Helpers, absoluteFilePath: string, file: SourceFile): Context
  {
    Context(checker, helpers.extractArgs(file), helpers.extractExportedNames(file), absoluteFilePath)
  }

  /** `extractSolidComponents`: every Solid component of the file, in statement
      order, followed by the CSF3 stories of the same file. A path the resolver
      has no file for yields nothing. */
  method ExtractSolidComponents(
    resolver: Resolver,
    helpers: Helpers,
    extractCsf3Stories: (string, SourceFile) -> seq<Component>,
    absoluteFilePath: string)
    returns (r: seq<Component>)
    ensures resolver.sourceFile(absoluteFilePath).None? ==> r == []
    ensures resolver.sourceFile(absoluteFilePath).Some? ==>
              var file := resolver.sourceFile(absoluteFilePath).value;
              r == SolidComponents(FileContext(resolver.checker, helpers, absoluteFilePath, file), file.statements)
                   + extractCsf3Stories(absoluteFilePath, file)
  {
    var sourceFile := resolver.sourceFile(absoluteFilePath);
    if sourceFile.None? {
      return [];
    }
    var file := sourceFile.value;
    var ctx := FileContext(resolver.checker, helpers, absoluteFilePath, file);
    var components: seq<Component> := [];
    for i := 0 to |file.statements|
      invariant components == SolidComponents(ctx, file.statements[..i])
    {
      SolidComponentsStep(ctx, file.statements, i);
      components := components + StatementComponents(ctx, file.statements[i]);
    }
    assert file.statements[..|file.statements|] == file.statements;
    r := components + extractCsf3Stories(absoluteFilePath, file);
  }
}
