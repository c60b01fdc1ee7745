/** The slice of the TypeScript compiler API the Solid extractor reads: the
    statements of a parsed file, and what the type checker answers about a node.
    The checker itself is not modelled; its answers are given as functions. */
module TypeScript {
  import opened Wrappers

  /** An AST node, identified only so that the checker can be asked about it. */
  datatype Node = Node(id: nat)

  /** A checker symbol; only its escaped name is inspected by the rules. */
  datatype Symbol = Symbol(id: nat, escapedName: string)

  /** A checker type. `types` holds the constituents of a union (`isUnion`),
      `properties` the names `getProperty` finds. */
  datatype Type = Type(
    isUnion: bool,
    types: seq<Type>,
    symbol: Option<Symbol>,
    callSignatures: seq<Signature>,
    constructSignatures: seq<Signature>,
    properties: set<string>)

  datatype Signature = Signature(id: nat, returnType: Type)

  /** `checker.getTypeAtLocation` and `checker.getTypeOfSymbolAtLocation`. */
  datatype Checker = Checker(
    typeAtLocation: Node -> Type,
    typeOfSymbolAtLocation: (Symbol, Node) -> Type)

  datatype Expression =
    | IdentifierExpression(node: Node, text: string)
    | OtherExpression(node: Node)

  datatype BindingName = IdentifierName(text: string) | BindingPattern

  datatype VariableDeclaration = VariableDeclaration(name: BindingName, initializer: Option<Expression>)

  datatype Modifier = ExportKeyword | DefaultKeyword | DeclareKeyword | AsyncKeyword | OtherModifier

  /** The statement kinds the extractor distinguishes; everything else is `OtherStatement`. */
  datatype StatementKind =
    | ExportAssignment(expression: Expression)
    | VariableStatement(declarations: seq<VariableDeclaration>)
    | FunctionDeclaration(modifiers: seq<Modifier>, functionName: Option<string>)
    | ClassDeclaration(className: Option<string>)
    | OtherStatement

  /** A top-level statement with the positions `getStart()` and `getEnd()` report. */
  datatype Statement = Statement(node: Node, start: nat, end: nat, kind: StatementKind)

  datatype SourceFile = SourceFile(statements: seq<Statement>)

  /** The `TypeResolver`: the parsed file for a path, if any, and the checker. */
  datatype Resolver = Resolver(sourceFile: string -> Option<SourceFile>, checker: Checker)
}
