/** Properties of the Solid extraction rules that relate several calls or
    hold over a whole file. */
module SolidExtractProperties {
  import opened TypeScript
  import opened SolidExtract

  /** Within one variable statement, earlier declarations contribute earlier components. */
  lemma {:induction false} DeclarationOrder(ctx: Context, a: seq<VariableDeclaration>, b: seq<VariableDeclaration>, span: Span)
    ensures FromVariableStatement(ctx, a + b, span)
            == FromVariableStatement(ctx, a, span) + FromVariableStatement(ctx, b, span)
  {
    if |a| == 0 {
      assert a + b == b;
    } else {
      assert (a + b)[1..] == a[1..] + b;
      DeclarationOrder(ctx, a[1..], b, span);
    }
  }

  /** The two sequences list the same components, except perhaps for their
      `isStory` and `exported` flags. */
  ghost predicate SameExceptFlags(a: seq<Component>, b: seq<Component>)
  {
    |a| == |b| && forall k :: 0 <= k < |a| ==> a[k].(isStory := b[k].isStory, exported := b[k].exported) == b[k]
  }

  lemma SameExceptFlagsAppend(a: seq<Component>, b: seq<Component>, a': seq<Component>, b': seq<Component>)
    requires SameExceptFlags(a, b) && SameExceptFlags(a', b')
    ensures SameExceptFlags(a + a', b + b')
  {
  }

  lemma {:induction false} DeclarationsFlagsOnlyFromMaps(
    ctx: Context, args: map<string, bool>, names: map<string, string>,
    declarations: seq<VariableDeclaration>, span: Span)
    ensures SameExceptFlags(
              FromVariableStatement(ctx, declarations, span),
              FromVariableStatement(ctx.(args := args, nameToExportedName := names), declarations, span))
  {
    if |declarations| > 0 {
      DeclarationsFlagsOnlyFromMaps(ctx, args, names, declarations[1..], span);
      var ctx' := ctx.(args := args, nameToExportedName := names);
      SameExceptFlagsAppend(
        FromVariableDeclaration(ctx, declarations[0], span), FromVariableDeclaration(ctx', declarations[0], span),
        FromVariableStatement(ctx, declarations[1..], span), FromVariableStatement(ctx', declarations[1..], span));
    }
  }

  lemma StatementFlagsOnlyFromMaps(ctx: Context, args: map<string, bool>, names: map<string, string>, s: Statement)
    ensures SameExceptFlags(
              StatementComponents(ctx, s),
              StatementComponents(ctx.(args := args, nameToExportedName := names), s))
  {
    if s.kind.VariableStatement? {
      DeclarationsFlagsOnlyFromMaps(ctx, args, names, s.kind.declarations, StatementSpan(s));
    }
  }

  /** The story-args map and the export-name map decide only the `isStory` and
      `exported` flags: which components a file yields, their names, offsets and
      signatures, and their order depend on the statements and the checker alone. */
  lemma {:induction false} FlagsOnlyFromMaps(
    ctx: Context, args: map<string, bool>, names: map<string, string>, statements: seq<Statement>)
    ensures SameExceptFlags(
              SolidComponents(ctx, statements),
              SolidComponents(ctx.(args := args, nameToExportedName := names), statements))
  {
    if |statements| > 0 {
      FlagsOnlyFromMaps(ctx, args, names, statements[1..]);
      StatementFlagsOnlyFromMaps(ctx, args, names, statements[0]);
      var ctx' := ctx.(args := args, nameToExportedName := names);
      SameExceptFlagsAppend(
        StatementComponents(ctx, statements[0]), StatementComponents(ctx', statements[0]),
        SolidComponents(ctx, statements[1..]), SolidComponents(ctx', statements[1..]));
    }
  }
}
