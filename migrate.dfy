/** One script file's migration (src/migrate-css-module.mjs:90-146 and 369-425): choose the
    merge-function name, count the existing `styles` bindings, then for every global style
    import in order allocate the next style-object name, replace the import by a default
    import of the renamed module and splice that sheet's classes into every `className`. */
module Migration {
  import opened StyleUtils
  import opened Naming
  import opened Ast
  import opened RewriteSpec
  import opened Splice

  datatype ImportDecl = ImportDecl(specifiers: seq<Specifier>, source: string)

  /** A side-effect import of a global style sheet: `import './a.scss'` (lines 94-96). */
  predicate IsGlobalImport(d: ImportDecl) {
    d.specifiers == [] && IsGlobalStyle(d.source)
  }

  predicate HasGlobalImport(imports: seq<ImportDecl>) {
    exists i :: 0 <= i < |imports| && IsGlobalImport(imports[i])
  }

  function Locals(specs: seq<Specifier>): (r: seq<string>)
    ensures |r| == |specs|
    ensures forall i :: 0 <= i < |specs| ==> r[i] == specs[i].local
  {
    if specs == [] then [] else [specs[0].local] + Locals(specs[1..])
  }

  /** The first import of `classnames`, if any (line 109). */
  function FindClassnames(imports: seq<ImportDecl>): (r: ClassnamesImport)
    ensures r == NoClassnamesImport <==> forall i :: 0 <= i < |imports| ==> imports[i].source != "classnames"
  {
    if imports == [] then NoClassnamesImport
    else if imports[0].source == "classnames" then ClassnamesImport(Locals(imports[0].specifiers))
    else FindClassnames(imports[1..])
  }

  /** The import inserted after the last one when the file has no `classnames` import. */
  const MergeImport := ImportDecl([Specifier(DefaultSpecifier, "clsx")], "classnames")

  function AllSpecifiers(imports: seq<ImportDecl>): seq<Specifier> {
    if imports == [] then [] else imports[0].specifiers + AllSpecifiers(imports[1..])
  }

  /** The replacement of a global import: a default import of the style object. */
  function ModuleImport(name: string, source: string): ImportDecl {
    ImportDecl([Specifier(DefaultSpecifier, name)], ModuleFileName(source))
  }

  /** The imports and attribute values after the style imports of a file were processed,
      and the exception that ended the file early, if any. */
  datatype SheetsResult = SheetsResult(imports: seq<ImportDecl>, vals: seq<AttrValue>, failure: Option<RewriteError>)

  /** The loop over the import declarations from `cur` on, head first: a global import takes
      the name `StyleObjName(cur)` and the class map of its sheet, is replaced, and the
      attributes are spliced with that sheet. */
  function Sheets(mergeFn: string, classMapOf: string -> map<string, string>, imports: seq<ImportDecl>,
                  cur: nat, vals: seq<AttrValue>): (s: SheetsResult)
    ensures |s.vals| == |vals|
    ensures s.failure.None? ==> |s.imports| == |imports|
  {
    if imports == [] then SheetsResult([], vals, None)
    else if !IsGlobalImport(imports[0]) then
      var rest := Sheets(mergeFn, classMapOf, imports[1..], cur, vals);
      SheetsResult([imports[0]] + rest.imports, rest.vals, rest.failure)
    else
      var name := StyleObjName(cur);
      var ctx := Context(classMapOf(imports[0].source), name, mergeFn);
      var p := SplicePass(ctx, vals);
      if p.failure.Some? then
        SheetsResult([ModuleImport(name, imports[0].source)] + imports[1..], p.vals, p.failure)
      else
        var rest := Sheets(mergeFn, classMapOf, imports[1..], cur + 1, p.vals);
        SheetsResult([ModuleImport(name, imports[0].source)] + rest.imports, rest.vals, rest.failure)
  }

  /** How a file ends: skipped for lack of global style imports, migrated with its new import
      list, or abandoned by an exception. */
  datatype FileOutcome = Skipped | Migrated(imports: seq<ImportDecl>) | Failed(error: MigrationError)
  datatype MigrationError = NameFailed(nameError: NameError) | RewriteFailed(rewriteError: RewriteError)

  datatype FileResult = FileResult(outcome: FileOutcome, vals: seq<AttrValue>)

  /** The imports to add: the `classnames` import when the file has none. */
  function ExtraImports(imports: seq<ImportDecl>): seq<ImportDecl> {
    if FindClassnames(imports) == NoClassnamesImport then [MergeImport] else []
  }

  /** A whole file, given its imports, its `className` values and the class map that the
      style compiler reports for an import source. */
  function Migrate(imports: seq<ImportDecl>, vals: seq<AttrValue>, classMapOf: string -> map<string, string>)
    : (r: FileResult)
    ensures |r.vals| == |vals|
  {
    if !HasGlobalImport(imports) then FileResult(Skipped, vals)
    else
      match MergeFunctionName(FindClassnames(imports))
      case NotChosen(e) => FileResult(Failed(NameFailed(e)), vals)
      case Chosen(mergeFn) =>
        var extra := ExtraImports(imports);
        var cur := CountStyleBindings(AllSpecifiers(imports + extra));
        var s := Sheets(mergeFn, classMapOf, imports, cur, vals);
        match s.failure
        case Some(e) => FileResult(Failed(RewriteFailed(e)), s.vals)
        case None => FileResult(Migrated(s.imports + extra), s.vals)
  }

  function PrependSheets(done: seq<ImportDecl>, s: SheetsResult): SheetsResult {
    SheetsResult(done + s.imports, s.vals, s.failure)
  }

  /** `root.find(ImportDeclaration, i => i.specifiers.length === 0 && isGlobalStyle(...))`,
      asked only whether it is empty. */
  method FindGlobalImport(imports: seq<ImportDecl>) returns (found: bool)
    ensures found <==> HasGlobalImport(imports)
  {
    found := false;
    var j := 0;
    while j < |imports|
      invariant 0 <= j <= |imports|
      invariant found <==> exists k :: 0 <= k < j && IsGlobalImport(imports[k])
    {
      if imports[j].specifiers == [] && IsGlobalStyle(imports[j].source) {
        found := true;
      }
      j := j + 1;
    }
  }

  lemma PrependSheetsAll(a: seq<ImportDecl>, b: seq<ImportDecl>, s: SheetsResult)
    ensures PrependSheets(a, PrependSheets(b, s)) == PrependSheets(a + b, s)
  {
    assert a + (b + s.imports) == (a + b) + s.imports;
  }

  lemma SheetsStep(mergeFn: string, classMapOf: string -> map<string, string>,
                   imports: seq<ImportDecl>, i: nat, cur: nat, vals: seq<AttrValue>)
    requires i < |imports|
    ensures !IsGlobalImport(imports[i]) ==>
      Sheets(mergeFn, classMapOf, imports[i..], cur, vals)
      == PrependSheets([imports[i]], Sheets(mergeFn, classMapOf, imports[i + 1..], cur, vals))
    ensures IsGlobalImport(imports[i]) ==>
      var name := StyleObjName(cur);
      var p := SplicePass(Context(classMapOf(imports[i].source), name, mergeFn), vals);
      Sheets(mergeFn, classMapOf, imports[i..], cur, vals)
      == if p.failure.Some? then SheetsResult([ModuleImport(name, imports[i].source)] + imports[i + 1..], p.vals, p.failure)
         else PrependSheets([ModuleImport(name, imports[i].source)], Sheets(mergeFn, classMapOf, imports[i + 1..], cur + 1, p.vals))
  {
    assert imports[i..][0] == imports[i] && imports[i..][1..] == imports[i + 1..];
  }

  /** The body of the loop for one import declaration: a global one takes the next name,
      is replaced and has its sheet spliced into the attributes (lines 127-423). */
  method ProcessImport(mergeFn: string, classMapOf: string -> map<string, string>,
                       imports: seq<ImportDecl>, i: nat, cur: nat, attrs: array<AttrValue>)
    returns (decl: ImportDecl, next: nat, failure: Option<RewriteError>)
    requires i < |imports|
    modifies attrs
    ensures failure.Some? ==>
      Sheets(mergeFn, classMapOf, imports[i..], cur, old(attrs[..]))
      == SheetsResult([decl] + imports[i + 1..], attrs[..], failure)
    ensures failure.None? ==>
      Sheets(mergeFn, classMapOf, imports[i..], cur, old(attrs[..]))
      == PrependSheets([decl], Sheets(mergeFn, classMapOf, imports[i + 1..], next, attrs[..]))
  {
    SheetsStep(mergeFn, classMapOf, imports, i, cur, attrs[..]);
    if imports[i].specifiers == [] && IsGlobalStyle(imports[i].source) {
      var styleObjName := StyleObjName(cur);
      decl := ModuleImport(styleObjName, imports[i].source);
      var ctx := Context(classMapOf(imports[i].source), styleObjName, mergeFn);
      failure := SpliceAttributes(ctx, attrs);
      next := cur + 1;
    } else {
      decl, next, failure := imports[i], cur, None;
    }
  }

  /** The loop over the style imports (lines 126-423); `cur` is the counter `_cur`, and
      `decls` the file's import list, each global import replaced in place. */
  method ProcessStyleImports(mergeFn: string, classMapOf: string -> map<string, string>,
                             imports: seq<ImportDecl>, cur0: nat, attrs: array<AttrValue>)
    returns (decls: seq<ImportDecl>, failure: Option<RewriteError>)
    modifies attrs
    ensures Sheets(mergeFn, classMapOf, imports, cur0, old(attrs[..])) == SheetsResult(decls, attrs[..], failure)
  {
    ghost var vals := attrs[..];
    decls := imports;
    var cur := cur0;
    var i := 0;
    assert imports[0..] == imports;
    assert PrependSheets([], Sheets(mergeFn, classMapOf, imports, cur, vals))
           == Sheets(mergeFn, classMapOf, imports, cur, vals);
    while i < |imports|
      invariant 0 <= i <= |imports|
      invariant |decls| == |imports|
      invariant decls[i..] == imports[i..]
      invariant Sheets(mergeFn, classMapOf, imports, cur0, vals)
                == PrependSheets(decls[..i], Sheets(mergeFn, classMapOf, imports[i..], cur, attrs[..]))
    {
      ghost var done := decls[..i];
      var newDecl, next, stepFailure := ProcessImport(mergeFn, classMapOf, imports, i, cur, attrs);
      decls := decls[i := newDecl];
      assert decls == done + [newDecl] + imports[i + 1..];
      if stepFailure.Some? {
        return decls, stepFailure;
      }
      cur := next;
      PrependSheetsAll(done, [newDecl], Sheets(mergeFn, classMapOf, imports[i + 1..], cur, attrs[..]));
      assert decls[..i + 1] == done + [newDecl];
      i := i + 1;
    }
    assert decls[..i] == decls;
    failure := None;
  }

  /** The processing of one file; `attrs` holds the values of its `className` attributes,
      which the splice assigns in place. */
  method MigrateFile(imports: seq<ImportDecl>, classMapOf: string -> map<string, string>, attrs: array<AttrValue>)
    returns (outcome: FileOutcome)
    modifies attrs
    ensures Migrate(imports, old(attrs[..]), classMapOf) == FileResult(outcome, attrs[..])
  {
    var hasGlobal := FindGlobalImport(imports);
    if !hasGlobal {
      return Skipped;
    }
    var classNamesImportName: string;
    var classNamesImport := FindClassnames(imports);
    match MergeFunctionName(classNamesImport) {
      case NotChosen(e) =>
        return Failed(NameFailed(e));
      case Chosen(name) =>
        classNamesImportName := name;
    }
    var extra: seq<ImportDecl> := [];
    if classNamesImport == NoClassnamesImport {
      extra := [MergeImport];
    }
    var cur := CountStyleBindings(AllSpecifiers(imports + extra));
    var decls, failure := ProcessStyleImports(classNamesImportName, classMapOf, imports, cur, attrs);
    if failure.Some? {
      return Failed(RewriteFailed(failure.value));
    }
    outcome := Migrated(decls + extra);
  }
}
