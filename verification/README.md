# Solid component extraction, modelled in Dafny

This project models how the Solid framework plugin of Preview.js finds the
components of a source file (`extractSolidComponents` in
`frameworks/solid/src/extract-component.ts`). The plugin walks the top-level
statements of a parsed TypeScript file in order. It decides for each one whether
it declares a Solid component, and with what metadata: `name`, `isStory`,
`exported` and `offsets`. The CSF3 stories of the file follow at the end.

The TypeScript compiler is not modelled. A file is a sequence of abstract
statements: export assignment, variable statement, function declaration, class
declaration, or other. The type checker is a `Checker` value holding two total
functions, one for `getTypeAtLocation` and one for `getTypeOfSymbolAtLocation`.
A checker type is a record with its union constituents, its symbol, its call and
construct signatures, and its property names. Three collaborators are parameters
of the model: the story-args map, the export-name map and the CSF3 story list.

Modules, one per file:

- `Wrappers` (`wrappers.dfy`): `Option`, for the source's `null`/`undefined`.
- `Seqs` (`seqs.dfy`): `FirstWhere`, the "return the first element that passes" loop.
- `JsValues` (`js_values.dfy`): JavaScript string `<`, `>=`, `<=` and the truthiness of map lookups.
- `TypeScript` (`typescript.dfy`): the abstract AST, checker types, signatures, checker and resolver.
- `SolidExtract` (`extract_component.dfy`): the extraction rules themselves.
- `SolidExtractProperties` (`extract_component_properties.dfy`): properties over whole files.

JavaScript truthiness is written out where the code relies on it:

- `!!nameToExportedName[name]` holds when the key is present and its value is not `""`.
- `!!args[name]` holds when the key is present and its value is `true`.
- A function's `name` of `""` is falsy, just like a missing name.

## Model

| member | source | states |
|---|---|---|
| `SolidExtract.IsValidSolidComponentName` | frameworks/solid/src/extract-component.ts:165-167 | The code compares the first character, as a one-character string, with "A" and "Z". The result holds exactly when the name is non-empty and its first character lies between 'A' and 'Z'. So `""` and lower-case names are rejected. |
| `SolidExtract.IsJsxElement` | frameworks/solid/src/extract-component.ts:153-163 | A type that is not a union counts exactly when its own symbol is named `Element` or `FunctionElement`. A union with such a constituent counts, which covers `JSX.Element \| null`. |
| `SolidExtract.IsValidComponentReturnType` | frameworks/solid/src/extract-component.ts:146-151 | A return type is valid for a function component exactly when some type reachable from it through union membership, itself included, has a symbol named `Element` or `FunctionElement`. |
| `SolidExtract.JsxElementIffNamedConstituent` | frameworks/solid/src/extract-component.ts:153-163 | A type counts as a JSX element exactly when some type reachable from it through union membership, itself included, has a symbol named `Element` or `FunctionElement`. |
| `Seqs.FirstWhere` | frameworks/solid/src/extract-component.ts:128-132 | The early-return loop yields the index of the first element that passes the test, and nothing only when no element passes. |
| `SolidExtract.ExtractSolidComponent` | frameworks/solid/src/extract-component.ts:121-151 | When any call signature returns a JSX element, the result is the first such call signature, even if a construct signature qualifies. Otherwise, with no symbol the result is null. With a symbol, the result is the first construct signature of the symbol's type whose return type has `render`, and null when none has. Every non-null result returns JSX or has `render`. |
| `SolidExtract.FromExportAssignment` | frameworks/solid/src/extract-component.ts:24-42 | An export assignment of a bare identifier yields nothing. Any other yields exactly one component when a signature is found, and none otherwise. That component is named `default`, is not a story, is exported, carries the statement's offsets and the found signature. |
| `SolidExtract.FromVariableDeclaration` | frameworks/solid/src/extract-component.ts:44-66 | A declaration yields a component exactly when all four hold: its name is an identifier, it has an initializer, the name passes the capitalisation filter, and the initializer has a signature. The component keeps the name and records the initializer's extracted signature. `isStory` is the truthiness of `args[name]` and `exported` that of `nameToExportedName[name]`. |
| `SolidExtract.FromVariableStatement` | frameworks/solid/src/extract-component.ts:43-67 | A variable statement yields at most one component per declaration. Each one comes from one of its declarations and carries the statement's offsets. Every component a declaration yields appears in the result. A single declaration yields exactly its own components. |
| `SolidExtractProperties.DeclarationOrder` | frameworks/solid/src/extract-component.ts:44-67 | The components of the declarations `a + b` are those of `a` followed by those of `b`. So declarations keep their order. |
| `SolidExtract.FromFunctionDeclaration` | frameworks/solid/src/extract-component.ts:68-90 | A function is considered when it carries both `export` and `default`, whatever its name, or when it has a name passing the filter. It yields a component exactly when it is considered and has a signature. The component records the function's extracted signature. A default export is named `default`; otherwise the function's own name is kept. `isStory` needs a truthy name whose `args` entry is truthy, so an anonymous function is never a story. `exported` holds for a default export or a truthy export-map entry. An anonymous function that is not a default export yields nothing. |
| `SolidExtract.FromClassDeclaration` | frameworks/solid/src/extract-component.ts:91-107 | Only a named class can yield a component. It does so exactly when its name passes the filter and it has a signature. The name and the class's extracted signature are recorded, and the flags follow the two maps as for variables. |
| `SolidExtract.StatementComponents` | frameworks/solid/src/extract-component.ts:23-108 | Each statement kind yields exactly the components of its rule above: export assignment, variable statement, function or class declaration. Any other kind of statement yields nothing, and only a variable statement yields more than one component. |
| `SolidExtract.StatementComponentsSound` | frameworks/solid/src/extract-component.ts:33-106 | Every component a statement yields carries the file path, the statement's single offset pair and a Solid signature. A component named `default` is exported. Any other name passes the filter, and its flags are the truthiness of its two map entries. |
| `SolidExtract.SolidComponents` | frameworks/solid/src/extract-component.ts:16-23 | A file with no statements yields no Solid components, and a file with one statement yields exactly that statement's components. |
| `SolidExtract.SolidComponentsSound` | frameworks/solid/src/extract-component.ts:23-109 | Every component of a file follows the flag rules above, and its single offset pair is that of one of the file's statements. |
| `SolidExtract.SolidComponentsAt` | frameworks/solid/src/extract-component.ts:23-109 | The file's Solid components are those of the statements before statement `i`, then all of statement `i`'s components, then those of the statements after it. So every statement's components appear, in place. |
| `SolidExtract.SolidComponentsAppend` | frameworks/solid/src/extract-component.ts:23-109 | The components of statements `a + b` are those of `a` followed by those of `b`, so components appear in source-statement order. |
| `SolidExtract.ExtractSolidComponents` | frameworks/solid/src/extract-component.ts:7-119 | A path the resolver has no file for yields the empty list. Otherwise the result is the file's Solid components, in statement order, followed by the CSF3 stories of the file. |
| `SolidExtractProperties.FlagsOnlyFromMaps` | frameworks/solid/src/extract-component.ts:15-107 | Replacing the story-args map and the export-name map changes only the `isStory` and `exported` flags. The number of components, their names, offsets, signatures and order all stay the same. |

## Left out

- `analyze`: the closure calls `analyzeSolidComponent`, which is not part of this model. A component records the chosen signature (`AnalyzeSolid`) instead.
- `extractCsf3Stories`, `helpers.extractArgs` and `helpers.extractExportedNames` are not part of this model. Their results are function-valued parameters: a story list, a map to booleans and a map to strings.
- TypeScript's parser and type checker (`getTypeAtLocation`, `getTypeOfSymbolAtLocation`, `getCallSignatures`, `getConstructSignatures`, `getProperty`, `isUnion`) are foreign code. Their answers are inputs: the `Checker` functions and the fields of `Type`.
- `getStart()`/`getEnd()`: the statement's positions are given as two natural numbers. Trivia and position computation are not modelled.
- Plain JavaScript objects also answer inherited keys such as `constructor`. The maps here hold only their own entries, because how the helpers build those objects is not part of this model.
- JavaScript strings are UTF-16 code units and Dafny strings are Unicode scalar values. Both agree on whether a first character lies between `A` and `Z`.
- The IntelliJ integration (`ProjectService.kt`) is editor plumbing: browser panel, document listeners, timers, inlay hints, an action queue. It has no pure logic to state.
- The type-analyzer entry point (`type-analyzer/src/index.ts`) only re-exports modules whose bodies are not part of this model.
