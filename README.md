# migrate-css-module: the className rewrite, modelled in Dafny

`migrate-css-module` turns a React code base that imports global style sheets
(`import './a.scss'`) into one that uses CSS modules. For every script file it:

- picks a name for the class-merging function (`clsx`, or the local name of an existing
  `classnames` import);
- gives every global style import a style object (`styles`, `styles1`, …);
- replaces that import by `import styles from './a.module.scss'`;
- rewrites every JSX `className` value so that the classes the sheet defines become
  `styles.<local>` references. Classes the sheet does not define stay strings.

This project models that core:

- the recursive rewrite `transformClassNameAttributeNodeValue`;
- the loop that splices its result back into each `className` attribute;
- the per-file loop over the style imports;
- the naming helpers around them: the hyphen-to-camel local-name convention, the `.module`
  rename, the style-object counter and the merge-function name;
- the two string predicates of `src/utils/index.mjs`.

The model has these modules:

- `Ast` (ast.dfy): expression nodes, attribute values and the rewrite context.
- `JsText` (js_text.dfy): the JavaScript string operations used, with `split(/\s+/g)` as
  `SplitWs`.
- `Naming` (naming.dfy): the naming helpers listed above.
- `StyleUtils` (style_utils.dfy): `detectNewlineCharacter` and `isGlobalStyle`.
- `RewriteSpec` (rewrite.dfy): the rewrite as functions, one per node kind and one per
  list the source walks.
- `Transform` (transform.dfy): the rewrite as the source runs it. Its methods accumulate
  `collectArguments` in loops, and each one is proved equal to `RewriteSpec`.
- `Splice` (splice.dfy): the attribute loop. It writes the new values in place into an
  array of attribute values.
- `Migration` (migrate.dfy): one file. It holds the style-import loop with the `_cur`
  counter.
- `RewriteFacts`, `SpliceFacts`, `MigrationFacts`: the properties.
- `Examples`: the cases of the test fixture, worked out on the model.

A rewrite returns `Result<Option<seq<Node>>>`:

- `Err` is a thrown exception;
- `Ok(None)` is the source's `null`, meaning "leave the node alone";
- `Ok(Some(nodes))` is the list of replacement arguments.

"A class maps" (`Ast.Maps`) is JavaScript truthiness of `classNameMap[local]`. The key must
be an own key with a non-empty compiled name. If there is no own key, an inherited
`Object.prototype` member such as `constructor` also counts.

## Where the code and its comments differ

The model follows the code as written. At these points the code differs from the
fixture comments in `test/src/migrate-css-module/a.jsx` or from the program's own comments,
or behaves in a way a reader of those comments may not expect:

- A template literal without `${}` is answered with `null`, because the loop over its
  expressions never runs. So `` `card` `` stays as it is. The fixture (a.jsx:20-21) expects
  `styles.card`. See `RewriteFacts.TemplateNullIffStatic` and `Examples.StaticTemplateKept`.
- Array elements whose rewrite is `null` are dropped, and that includes global class
  strings. See `Examples.UnmappedElementDropped`.
- When an array element is rewritten to several nodes, the source pushes the JavaScript
  array of those nodes itself as the element, not an array expression. The model gives it
  the node kind `RawList`. Such an array has no `type`, so the rewrite for the next style
  import of the same file answers it with `null` and the array rewrite drops it:
  `className={['card bg-white']}` in a file with two global imports ends as `clsx([])`.
  See `RewriteFacts.RawListDroppedLater`.
- The error messages at lines 235 and 267 read an undefined `expression`. That throws a
  `ReferenceError` instead of the intended `Error`. Both are failures, so the model gives
  `Err(UnknownCallee)` and `Err(UnsupportedOperator)`.
- A call of any function other than the merge function throws wherever the rewrite visits
  it. The rewrite does not visit a conditional's test, a logical expression's left side, a
  logical expression's right side unless it is a string literal, or an object property's
  value; a call there is kept and does not throw.
- `+` pieces can be reordered. The comment at src/migrate-css-module.mjs:264-265 expects
  `'card ' + (level ? ' bg-white' : ' ') + ' color--red'` to become
  `classNames('card', level ? 'bg-white' : '', 'color--red')`, with the conditional in the
  middle. The code puts the joined node after the surplus pieces of the right side, so when
  `card` and `color--red` map the arguments are `styles.card`, `styles.colorRed` and then
  the conditional. See `RewriteFacts.PlusMovesJoinLast`.
- A template literal with at least one `${}` is never answered with `null`, even when no
  class in it maps. For `` `${level}-tag tag left-${level}-right` `` the code answers three
  nodes, as the fixture comment at a.jsx:12 expects. See `RewriteFacts.TemplateNullIffStatic`
  and `Examples.TagTemplate`.
- A whitespace-only branch of a conditional that was not rewritten (the rewrite answered
  `null`) is kept as it is. Blank strings are filtered only out of rewritten lists.

## Model

| member | source | states |
|---|---|---|
| JsText.SplitWs | src/migrate-css-module.mjs:166 | `split(/\s+/g)`: there is at least one piece and no piece holds white space. Only the first and last piece can be empty: the first exactly when the text is empty or starts with white space, the last likewise at the end. There is one piece exactly when the text has no white space. Where the pieces break is fixed by the two lemmas below. |
| JsText.SplitWsBreaks | src/migrate-css-module.mjs:166 | Putting non-empty runs of white space back between the pieces gives the text again, so the pieces are what lies between the maximal white-space runs. |
| JsText.SplitWsOfInterleave | src/migrate-css-module.mjs:166 | Conversely, any white-space-free pieces (empty only at the ends) joined by non-empty white-space runs split into exactly those pieces. |
| JsText.SplitWsKeepsText | src/migrate-css-module.mjs:166 | The pieces, read back to back, are exactly the text's non-white-space characters in order. |
| JsText.SplitTwoWords | src/migrate-css-module.mjs:166 | Two words separated by any run of white space split into exactly those two words; a double space adds no empty piece. |
| JsText.SplitThreeWords | src/migrate-css-module.mjs:200 | Three words separated by runs of white space split into exactly those three words. |
| JsText.NonEmpty | src/migrate-css-module.mjs:200 | `filter(i => i)`: the result is no longer than the input, and every kept piece is non-empty and taken from the input. |
| JsText.NonEmptyAppend | src/migrate-css-module.mjs:200 | Filtering distributes over concatenation. |
| Naming.LocalsConvention | src/migrate-css-module.mjs:578-581 | The conversion never lengthens a name, and gives the empty name only for the empty name. |
| Naming.HyphenFreeUnchanged | src/migrate-css-module.mjs:578-581 | A name without hyphens is its own local name. |
| Naming.LocalsConventionLeavesNoMatch | src/migrate-css-module.mjs:580 | The converted name never holds a hyphen directly followed by a word character. |
| Naming.LocalsConventionFixedPoints | src/migrate-css-module.mjs:580 | A name is unchanged by the conversion if and only if no hyphen in it precedes a word character. |
| Naming.LocalsConventionIdempotent | src/migrate-css-module.mjs:578-581 | Converting twice gives the same as converting once. |
| Naming.HyphenRunCapitalises | src/migrate-css-module.mjs:580 | A run of hyphens and the word character after it become that character in upper case; the rest is converted on its own. |
| Naming.CamelCaseJoin | src/migrate-css-module.mjs:580 | A hyphen-free part, a run of hyphens, a word character and a hyphen-free rest become camel case: the hyphens go and the character is upper-cased. |
| Naming.DoubleHyphenExample | test/src/migrate-css-module/a.jsx:30 | `color--red` has the local name `colorRed`. |
| Naming.ModuleFileName | src/migrate-css-module.mjs:583-585 | The name is returned unchanged unless it ends in `.css`, `.less`, `.sass` or `.scss`. |
| Naming.RenameInsertsModule | src/migrate-css-module.mjs:584 | `x.<ext>` becomes `x.module.<ext>` for each of the four extensions. |
| Naming.RenameLeavesGlobalStyle | src/migrate-css-module.mjs:583-585 | A renamed `x.<ext>` is no longer a global style sheet when `x` itself contains no match. |
| Naming.ScssRenameExample | src/utils/index.mjs:18 | A plain `x.scss` is global, and its renamed name is not. |
| Naming.StylGap | src/migrate-css-module.mjs:584 | `x.styl` counts as global, but the rename leaves it unchanged. |
| Naming.StyleObjName | src/migrate-css-module.mjs:132 | Every style-object name starts with `styles`, and it is exactly `styles` only for counter value 0. |
| Naming.StyleObjNamesDistinct | src/migrate-css-module.mjs:132 | Distinct counter values give distinct style-object names (`styles`, `styles1`, `styles2`, …). |
| Naming.CountStyleBindings | src/migrate-css-module.mjs:124 | The counter starts at the number of default and named specifiers called `styles`. It is zero exactly when there is none. |
| Naming.ExistingStylesAvoided | src/migrate-css-module.mjs:124-133 | When such a specifier exists, no allocated name is `styles`. |
| Naming.MergeFunctionName | src/migrate-css-module.mjs:109-119 | The name is `clsx` when there is no `classnames` import. Otherwise it is the first specifier's local name, and an import without specifiers fails. |
| StyleUtils.Includes | src/utils/index.mjs:7 | `includes` is true if and only if the pattern occurs at some position. |
| StyleUtils.DetectNewline | src/utils/index.mjs:6-16 | The result is `"\r\n"` if and only if some CR is directly followed by LF. Otherwise it is `"\n"`, including for lone CRs; it is never `"\r"`. |
| StyleUtils.IsGlobalStyle | src/utils/index.mjs:18-27 | True if and only if some `.` followed by `css`/`scss`/`sass`/`less`/`styl` is not directly preceded by `.module`, anywhere in the name. |
| StyleUtils.PlainStyleNameIsGlobal | src/utils/index.mjs:18 | `x.<ext>` is global when `x` does not end in `.module`. |
| StyleUtils.ModuleStyleNameIsNotGlobal | src/utils/index.mjs:18 | `x.module.<ext>` is not global when `x` has no match. |
| RewriteSpec.Finish | src/migrate-css-module.mjs:366 | An empty list becomes `null`; a non-empty one is returned as it is. |
| RewriteSpec.Rewrite | src/migrate-css-module.mjs:159-367 | When the rewrite answers with a list, the list is never empty. |
| RewriteSpec.RewriteString | src/migrate-css-module.mjs:163-180 | A string literal never throws. |
| RewriteSpec.DropBlankStrings | src/migrate-css-module.mjs:249 | No kept node is a whitespace-only string literal, every kept node comes from the input, and every other node of the input is kept. |
| RewriteSpec.TemplateArgs | src/migrate-css-module.mjs:185-231 | Every embedded expression contributes at least one node; an exception is the exception of one of the embedded expressions. |
| RewriteSpec.SpanArgs | src/migrate-css-module.mjs:186-230 | One iteration throws exactly when its expression's rewrite throws, with that exception, and otherwise contributes at least one node. |
| RewriteSpec.CallArgs | src/migrate-css-module.mjs:237-244 | An exception in a merge call's arguments is the exception of one of the arguments. |
| RewriteSpec.RewriteConditional | src/migrate-css-module.mjs:245-262 | A conditional throws exactly when one of its branches throws. Otherwise it becomes one conditional with the same test, and a branch answered with `null` is kept as it was. |
| RewriteSpec.RewriteBinary | src/migrate-css-module.mjs:263-301 | An operator other than `+` throws; a `+` is never answered with `null`. |
| RewriteSpec.RewriteLogical | src/migrate-css-module.mjs:302-314 | A logical expression never throws and becomes one logical expression with the same operator and left side; one whose right side is not a string literal is kept as it is. |
| RewriteSpec.ArrayElements | src/migrate-css-module.mjs:315-324 | An exception in the array's elements is the exception of one of the elements. |
| RewriteSpec.KeyProps | src/migrate-css-module.mjs:338-345 | One property per key node, in order, each with the old value and computed exactly when its key is a member expression. |
| RewriteSpec.PropertyArgs | src/migrate-css-module.mjs:328-355 | A property throws exactly when it is a spread element. Otherwise it gives at least one property, and every one of them keeps the old value. |
| RewriteSpec.ObjectProperties | src/migrate-css-module.mjs:325-357 | The new object holds no spread element. |
| Transform.PushTokens | src/migrate-css-module.mjs:169-176 | The loop appends exactly one node per class, in order. |
| Transform.TransformClassName | src/migrate-css-module.mjs:159-367 | The imperative rewrite computes exactly `Rewrite`. |
| Transform.LeftClassList | src/migrate-css-module.mjs:200-202 | The shift and pop give the free tokens of the static part. |
| Transform.ExpressionPiece | src/migrate-css-module.mjs:207-224 | The expression's contribution equals `ExprPiece`. |
| Transform.TailClassList | src/migrate-css-module.mjs:226-230 | The tail's tokens are emitted only after the last expression and only when the tail is not blank. |
| Transform.TransformSpan | src/migrate-css-module.mjs:186-230 | One loop iteration equals `SpanArgs`. |
| Transform.TransformTemplate | src/migrate-css-module.mjs:185-231 | The template loop equals `TemplateArgs`, finished as at line 366. |
| Transform.TransformCall | src/migrate-css-module.mjs:232-244 | The call branch equals `Rewrite`. |
| Transform.TransformConditional | src/migrate-css-module.mjs:245-262 | The conditional branch equals `RewriteConditional`. |
| Transform.TransformBinary | src/migrate-css-module.mjs:263-301 | The binary branch equals `RewriteBinary`. |
| Transform.JoinBinary | src/migrate-css-module.mjs:271-299 | The argument list is built as `PlusArgs` says. |
| Transform.TransformLogical | src/migrate-css-module.mjs:302-314 | The logical branch equals `RewriteLogical`. |
| Transform.TransformArray | src/migrate-css-module.mjs:315-324 | The array branch equals `Rewrite`. |
| Transform.KeyProperties | src/migrate-css-module.mjs:339-345 | The loop adds one property per key node, computed exactly when the node is a member expression. |
| Transform.TransformProperty | src/migrate-css-module.mjs:327-355 | One property is handled as `PropertyArgs` says. |
| Transform.TransformObject | src/migrate-css-module.mjs:325-357 | The object branch equals `Rewrite`. |
| RewriteFacts.StringNullIffUnmapped | src/migrate-css-module.mjs:163-180 | A string literal never throws. It is answered with `null` exactly when no split piece, after conversion, maps. |
| RewriteFacts.StringNodes | src/migrate-css-module.mjs:169-176 | Otherwise it gets one node per piece, in order: `styles.<local>` for a mapped piece and the piece as a string for the rest. Empty leading and trailing pieces are kept. |
| RewriteFacts.SingleClass | src/migrate-css-module.mjs:163-180 | A single class becomes `[styles.<local>]` when it maps, and `null` otherwise. |
| RewriteFacts.QuasiAccounted | src/migrate-css-module.mjs:200-210 | Each token of a static part is emitted exactly once: glued to the previous expression, on its own, or glued to the next expression. |
| RewriteFacts.TailAccounted | src/migrate-css-module.mjs:226-229 | The same holds for the tail after the last expression. |
| RewriteFacts.MiddleWordDuplicated | src/migrate-css-module.mjs:201-210 | A single word between two expressions is glued to both of them and is not emitted on its own. |
| RewriteFacts.TemplateNullIffStatic | src/migrate-css-module.mjs:185 | A template answers `null` exactly when it has no embedded expression. |
| RewriteFacts.GluedBeforeExpression | src/migrate-css-module.mjs:200-217 | For `` `w1 w2${e}` ``, `w1` is emitted on its own and `w2` goes into a new template `` `w2${e}` ``. |
| RewriteFacts.GluedAroundExpressions | src/migrate-css-module.mjs:200-229 | For `` `${e}p t q${f}r` ``, the result is `` `${e}p` ``, `t` and `` `q${f}r` ``, in that order. |
| RewriteFacts.CallArgsCount | src/migrate-css-module.mjs:237-244 | Every argument of a merge call contributes at least one node. |
| RewriteFacts.UnmappedArgsKept | src/migrate-css-module.mjs:237-244 | Arguments answered with `null` are kept as they are, in order. |
| RewriteFacts.CallRewrite | src/migrate-css-module.mjs:232-244 | A call of any other callee throws. A merge call is `null` exactly when it has no arguments. |
| RewriteFacts.BinaryRewrite | src/migrate-css-module.mjs:263-301 | Any operator but `+` throws. A `+` gives `PlusArgs`, which has one node fewer than both sides together. |
| RewriteFacts.JoinPlusDropsEmpty | src/migrate-css-module.mjs:293-299 | `'' + x` and `x + ''` collapse to `x`. |
| RewriteFacts.PlusMovesJoinLast | src/migrate-css-module.mjs:274-301 | `'a ' + m + ' b'` gives `[a, b, m]`: the join goes after the right side's surplus pieces. |
| RewriteFacts.OneNodeKinds | src/migrate-css-module.mjs:245-357 | Conditional, logical, array and object nodes are never `null`. Each gives exactly one node of its own kind, with the same test, or the same operator and left side. |
| RewriteFacts.DropBlankStringsAppend | src/migrate-css-module.mjs:249 | The filter distributes over concatenation, so the kept nodes stay in order. |
| RewriteFacts.DropBlankStringsOne | src/migrate-css-module.mjs:249 | A single node is dropped exactly when it is a whitespace-only string literal. |
| RewriteFacts.BranchHasNoBlank | src/migrate-css-module.mjs:248-258 | A rewritten conditional branch is not a blank string, and a new array branch holds none. |
| RewriteFacts.LogicalKeptUnlessString | src/migrate-css-module.mjs:303-314 | A logical node whose right side is not a string literal is kept as it is. |
| RewriteFacts.ArrayElementsCount | src/migrate-css-module.mjs:315-324 | The new array has at most as many elements as the old one. |
| RewriteFacts.ArrayElementsAppend | src/migrate-css-module.mjs:317-323 | The array rewrite goes element by element: the new elements of a concatenation are those of its first part followed by those of its second, and an exception in the first part wins. |
| RewriteFacts.ArrayElementOne | src/migrate-css-module.mjs:318-321 | An element answered with `null` is dropped; one answered with nodes becomes its single node or the JavaScript array of its nodes; an exception is passed on. |
| RewriteFacts.RawListDroppedLater | src/migrate-css-module.mjs:320-321 | The JavaScript array left inside an array is dropped by the rewrite for the next style import. |
| RewriteFacts.ObjectErrIffSpread | src/migrate-css-module.mjs:327-328 | An object throws exactly when it has a spread member. |
| RewriteFacts.ObjectPropertiesCount | src/migrate-css-module.mjs:325-357 | The property count never decreases. |
| RewriteFacts.ObjectPropertiesAppend | src/migrate-css-module.mjs:327-356 | The object rewrite goes property by property: the new properties of a concatenation are those of its first part followed by those of its second, and an exception in the first part wins. |
| RewriteFacts.ObjectPropertyOne | src/migrate-css-module.mjs:328-355 | One property gives exactly the properties `PropertyArgs` makes of it. |
| RewriteFacts.StringKeyExpanded | src/migrate-css-module.mjs:335-348 | A string key whose rewrite answers nodes becomes one property per node, in order, with the old value, computed exactly for a member expression; a string key answered with `null` keeps its property. |
| RewriteFacts.OtherKeyKept | src/migrate-css-module.mjs:353-354 | Any other keyed property (an unmapped identifier key, a member or numeric key, ...) is kept as it is. |
| RewriteFacts.IdentKeyMapped | src/migrate-css-module.mjs:328-334 | An identifier key that maps becomes the computed key `[styles.<local>]` with the same value. |
| Splice.Synthesize | src/migrate-css-module.mjs:377-383 | The new value is an expression container holding either a merge call on exactly the returned nodes, in order, or the single returned node, and the latter exactly when that node is a member expression, computed or not. |
| Splice.SpliceValue | src/migrate-css-module.mjs:369-424 | A value-less attribute throws. String and other attributes never throw. A changed value is always an expression container. |
| Splice.SplicePass | src/migrate-css-module.mjs:369-425 | The loop keeps the number of attributes. |
| Splice.SpliceOne | src/migrate-css-module.mjs:370-421 | One attribute is handled as `SpliceValue` says. |
| Splice.SpliceAttributes | src/migrate-css-module.mjs:369-425 | The in-place loop leaves the array as `SplicePass` of the old contents and reports its failure. |
| SpliceFacts.ReplaceShapes | src/migrate-css-module.mjs:377-383 | `null` leaves the value as it is; a single member expression (`styles.x`, `a.b` or `a[k]`) becomes the value's expression; anything else becomes a merge call on exactly the returned nodes, in order. |
| SpliceFacts.LoneMemberUnwrapped | src/migrate-css-module.mjs:411-414 | `className={clsx(a[k])}` becomes `className={a[k]}`. |
| SpliceFacts.SingleMappedClass | src/migrate-css-module.mjs:372-379 | `className='c'` and `className={'c'}` with `c` mapped become `{styles.c}`. |
| SpliceFacts.SeveralClassesMerged | src/migrate-css-module.mjs:409-418 | A string of several pieces, one of which maps, becomes a merge call on one node per piece. |
| SpliceFacts.SplicePassComplete | src/migrate-css-module.mjs:369-425 | The loop ends without failure exactly when every attribute splices without an exception, and then every attribute is replaced by its own splice. |
| SpliceFacts.SplicePassStops | src/migrate-css-module.mjs:369-425 | A failing loop stops at the first attribute that throws. The attributes before it are replaced; that one and those after it are unchanged. |
| SpliceFacts.StringSpliceIdempotent | src/migrate-css-module.mjs:369-383 | Splicing a string attribute's result again with the same sheet changes nothing. |
| Migration.FindClassnames | src/migrate-css-module.mjs:110 | There is no `classnames` import exactly when no declaration has that source. |
| MigrationFacts.FindClassnamesFirst | src/migrate-css-module.mjs:110 | When there is one, the first `classnames` import is chosen, with its specifiers' local names in order. |
| Migration.Sheets | src/migrate-css-module.mjs:126-148 | The style-import loop keeps the number of attributes, and the number of declarations when it does not fail. |
| Migration.Migrate | src/migrate-css-module.mjs:94-146 | A file's migration keeps the number of `className` values. |
| Migration.FindGlobalImport | src/migrate-css-module.mjs:94-96 | The search finds a global import exactly when some declaration has no specifiers and a global-style source. |
| Migration.ProcessImport | src/migrate-css-module.mjs:127-148 | One iteration of the import loop equals one step of `Sheets`. |
| Migration.ProcessStyleImports | src/migrate-css-module.mjs:126-148 | The import loop with `_cur` equals `Sheets`. |
| Migration.MigrateFile | src/migrate-css-module.mjs:94-146 | The file's processing equals `Migrate`. |
| MigrationFacts.SheetsReplaceGlobals | src/migrate-css-module.mjs:132-148 | After the loop, global import number k has become a default import of `StyleObjName(cur + k)` from the renamed sheet, and every other declaration is unchanged. |
| MigrationFacts.AllocatedNamesDistinct | src/migrate-css-module.mjs:132-133 | Distinct global imports get distinct style-object names. |
| MigrationFacts.SheetsLeaveNoGlobal | src/migrate-css-module.mjs:145-148 | A loop without failure leaves no global style import. |
| MigrationFacts.SkippedIffNoGlobal | src/migrate-css-module.mjs:94-102 | A file is skipped exactly when it has no global import, and its attributes are then unchanged. |
| MigrationFacts.MigrateAgainSkips | src/migrate-css-module.mjs:94-102 | Migrating a migrated file again skips it. |
| MigrationFacts.ExistingStylesKept | src/migrate-css-module.mjs:124-133 | An existing default or named `styles` import is never shadowed by an allocated name. |
| MigrationFacts.NumberedBindingCollides | src/migrate-css-module.mjs:124 | An existing `styles1` is not counted, so the second global import is named `styles1` as well. |
| MigrationFacts.NamespaceBindingCollides | src/migrate-css-module.mjs:124 | `import * as styles` is not counted. |
| Examples.CardString | test/src/migrate-css-module/a.jsx:16-17 | `className='card'` becomes `{styles.card}`. |
| Examples.CardExpression | test/src/migrate-css-module/a.jsx:18-19 | `className={'card'}` becomes `{styles.card}`. |
| Examples.StaticTemplateKept | test/src/migrate-css-module/a.jsx:20-21 | `` className={`card`} `` is kept as it is, not `styles.card`. |
| Examples.BgWhiteLocal | src/migrate-css-module.mjs:580 | `bg-white` is looked up as `bgWhite`. |
| Examples.CardBgWhite | test/src/migrate-css-module/a.jsx:22-23 | `{'card  bg-white'}` becomes `classNames(styles.card, 'bg-white')`. |
| Examples.IconTemplate | test/src/migrate-css-module/a.jsx:14-15 | `` `icon icon-${level}` `` becomes ``classNames('icon', `icon-${level}`)``. |
| Examples.TagTemplate | test/src/migrate-css-module/a.jsx:12-13 | `` `${level}-tag tag left-${level}-right` `` becomes three merge arguments: two templates and `'tag'`. |
| Examples.UnmappedElementDropped | src/migrate-css-module.mjs:317-323 | `classNames(['btn'])` with `btn` unmapped gives `[[]]`, and the class is lost. |
| Examples.UnmappedConditionalWrapped | src/migrate-css-module.mjs:245-262 | `level ? 'x' : ''` with nothing mapped still becomes a merge call. |
| Examples.InheritedKeyMapped | src/migrate-css-module.mjs:171 | With an empty sheet, `'constructor'` becomes `styles.constructor`. |
| Examples.MissingValueThrows | src/migrate-css-module.mjs:371 | `<div className />` throws. |

## Left out

- The command line, file discovery, reading and writing files, `git mv`, the spinner and
  console output. These are I/O. The line terminator found by `detectNewlineCharacter` is
  only used when a file is written back.
- `analyzeStyles`, the sass compile with postcss-modules. Its class map is a parameter
  (`classMapOf` in `Migrate`, `Context.classMap` in the rewrite).
- `transformStyleFile` and its postcss `:global()` plugin. They mutate postcss rules inside
  a library walk and depend on a regular-expression engine.
- jscodeshift parsing, printing and node finding. Source positions and error-message texts
  are not modelled either.
- The insertion of the `classnames` import is modelled only as appending it after the last
  import.
- `findStyleFiles`, which is never called, and `renameStyleFile`, which is file I/O.
- What `classnames`/`clsx` render at run time. No property about rendered class sets is
  claimed, because the code drops `null` array elements and reorders `+` pieces.
- ArrayElementsCount: states only the length bound. Which elements are kept, and in what
  form, is stated by ArrayElementsAppend and ArrayElementOne.
- ObjectPropertiesCount: states only that no property is lost. String-key expansion and the
  properties kept as they are are stated by ObjectPropertiesAppend, ObjectPropertyOne,
  StringKeyExpanded, OtherKeyKept and IdentKeyMapped.
- Migration.Migrate: an exception in the source ends the whole run, since nothing catches
  it. The model ends only that file with `Failed`.
- Array holes (`[, 'a']`): reading `type` on a hole throws in the source. The model has no
  hole node.
- Raw versus cooked template text: the model keeps the cooked text. The new templates set
  `raw` equal to `cooked`, as the source does.
- `\w` and `toUpperCase` are modelled for ASCII only. This is what `\w` matches without the
  `u` flag, and the only characters it upper-cases are `a`–`z`.
