/** Properties of a file's migration (src/migrate-css-module.mjs:90-146, 124-133 and
    369-425), stated over the functions of `Migration`. */
module MigrationFacts {
  import opened StyleUtils
  import opened Naming
  import opened Ast
  import opened RewriteSpec
  import opened Splice
  import opened Migration

  /** When the file imports `classnames`, the first such import is the one chosen, with the
      local names of its specifiers in order (line 109 uses `find`). */
  lemma {:induction false} FindClassnamesFirst(imports: seq<ImportDecl>, i: nat)
    requires i < |imports| && imports[i].source == "classnames"
    requires forall j :: 0 <= j < i ==> imports[j].source != "classnames"
    ensures FindClassnames(imports) == ClassnamesImport(Locals(imports[i].specifiers))
    decreases i
  {
    if i > 0 {
      assert imports[0].source != "classnames";
      assert imports[1..][i - 1] == imports[i];
      forall j | 0 <= j < i - 1
        ensures imports[1..][j].source != "classnames"
      {
        assert imports[1..][j] == imports[j + 1];
      }
      FindClassnamesFirst(imports[1..], i - 1);
    }
  }

  /** The number of global style imports in a list of declarations. */
  function GlobalCount(imports: seq<ImportDecl>): (n: nat)
    ensures n <= |imports|
  {
    if imports == [] then 0
    else (if IsGlobalImport(imports[0]) then 1 else 0) + GlobalCount(imports[1..])
  }

  lemma {:induction false} GlobalCountAppend(a: seq<ImportDecl>, b: seq<ImportDecl>)
    ensures GlobalCount(a + b) == GlobalCount(a) + GlobalCount(b)
    decreases a
  {
    if a == [] {
      assert a + b == b;
    } else {
      assert (a + b)[0] == a[0] && (a + b)[1..] == a[1..] + b;
      GlobalCountAppend(a[1..], b);
    }
  }

  /** The global imports in front of position `i`, counted from a list one shorter at its
      head: the step the head-first recursion of `Sheets` takes. */
  lemma GlobalsBeforeStep(imports: seq<ImportDecl>, i: nat)
    requires 0 < i <= |imports|
    ensures GlobalCount(imports[..i])
            == (if IsGlobalImport(imports[0]) then 1 else 0) + GlobalCount(imports[1..][..i - 1])
  {
    assert imports[..i][0] == imports[0];
    assert imports[..i][1..] == imports[1..][..i - 1];
  }

  /** A later global import has more global imports in front of it. */
  lemma GlobalsBeforeIncreases(imports: seq<ImportDecl>, i: nat, j: nat)
    requires i < j <= |imports| && IsGlobalImport(imports[i])
    ensures GlobalCount(imports[..i]) < GlobalCount(imports[..j])
  {
    assert imports[..j] == imports[..i] + imports[i..j];
    GlobalCountAppend(imports[..i], imports[i..j]);
    assert imports[i..j][0] == imports[i];
  }

  /** What declaration `i` becomes: global import number `k` (counting from zero) the
      default import `StyleObjName(cur + k)` of the renamed sheet, any other one itself. */
  function ReplacedDecl(imports: seq<ImportDecl>, cur: nat, i: nat): ImportDecl
    requires i < |imports|
  {
    if IsGlobalImport(imports[i])
    then ModuleImport(StyleObjName(cur + GlobalCount(imports[..i])), imports[i].source)
    else imports[i]
  }

  predicate AllReplaced(imports: seq<ImportDecl>, cur: nat, out: seq<ImportDecl>) {
    |out| == |imports| && forall i :: 0 <= i < |imports| ==> out[i] == ReplacedDecl(imports, cur, i)
  }

  /** After a pass without an exception every declaration is replaced as `ReplacedDecl` says. */
  lemma {:induction false} SheetsReplaceGlobals(mergeFn: string, classMapOf: string -> map<string, string>,
                                                imports: seq<ImportDecl>, cur: nat, vals: seq<AttrValue>)
    ensures Sheets(mergeFn, classMapOf, imports, cur, vals).failure.None? ==>
      AllReplaced(imports, cur, Sheets(mergeFn, classMapOf, imports, cur, vals).imports)
    decreases imports
  {
    if imports != [] {
      var s := Sheets(mergeFn, classMapOf, imports, cur, vals);
      if s.failure.None? {
        var next := if IsGlobalImport(imports[0]) then cur + 1 else cur;
        var vals' := if IsGlobalImport(imports[0])
                     then SplicePass(Context(classMapOf(imports[0].source), StyleObjName(cur), mergeFn), vals).vals
                     else vals;
        var rest := Sheets(mergeFn, classMapOf, imports[1..], next, vals');
        assert s.imports == [ReplacedDecl(imports, cur, 0)] + rest.imports && rest.failure.None? by {
          assert imports[..0] == [];
        }
        SheetsReplaceGlobals(mergeFn, classMapOf, imports[1..], next, vals');
        ReplacedShift(imports, cur, rest.imports);
      }
    }
  }

  lemma ReplacedShift(imports: seq<ImportDecl>, cur: nat, out: seq<ImportDecl>)
    requires imports != []
    requires AllReplaced(imports[1..], if IsGlobalImport(imports[0]) then cur + 1 else cur, out)
    ensures AllReplaced(imports, cur, [ReplacedDecl(imports, cur, 0)] + out)
  {
    var next := if IsGlobalImport(imports[0]) then cur + 1 else cur;
    var o := [ReplacedDecl(imports, cur, 0)] + out;
    forall i | 0 <= i < |imports|
      ensures o[i] == ReplacedDecl(imports, cur, i)
    {
      if i > 0 {
        ReplacedDeclShift(imports, cur, i);
        assert o[i] == out[i - 1];
      }
    }
  }

  /** Declaration `i` of a list is replaced as declaration `i - 1` of its tail, with the
      counter moved past a global head. */
  lemma ReplacedDeclShift(imports: seq<ImportDecl>, cur: nat, i: nat)
    requires 0 < i < |imports|
    ensures ReplacedDecl(imports, cur, i)
            == ReplacedDecl(imports[1..], if IsGlobalImport(imports[0]) then cur + 1 else cur, i - 1)
  {
    var next := if IsGlobalImport(imports[0]) then cur + 1 else cur;
    var d := imports[i];
    assert d == imports[1..][i - 1];
    GlobalsBeforeStep(imports, i);
    assert cur + GlobalCount(imports[..i]) == next + GlobalCount(imports[1..][..i - 1]);
  }

  /** Distinct global imports of a file are given distinct style-object names. */
  lemma AllocatedNamesDistinct(imports: seq<ImportDecl>, cur: nat, i: nat, j: nat)
    requires i < j < |imports| && IsGlobalImport(imports[i]) && IsGlobalImport(imports[j])
    ensures StyleObjName(cur + GlobalCount(imports[..i])) != StyleObjName(cur + GlobalCount(imports[..j]))
  {
    var a, b := cur + GlobalCount(imports[..i]), cur + GlobalCount(imports[..j]);
    GlobalsBeforeIncreases(imports, i, j);
    StyleObjNamesDistinct(a, b);
  }

  /** A pass without an exception leaves no global style import behind: each one became an
      import with a specifier. */
  lemma {:induction false} SheetsLeaveNoGlobal(mergeFn: string, classMapOf: string -> map<string, string>,
                                               imports: seq<ImportDecl>, cur: nat, vals: seq<AttrValue>)
    ensures Sheets(mergeFn, classMapOf, imports, cur, vals).failure.None? ==>
      !HasGlobalImport(Sheets(mergeFn, classMapOf, imports, cur, vals).imports)
  {
    var s := Sheets(mergeFn, classMapOf, imports, cur, vals);
    SheetsReplaceGlobals(mergeFn, classMapOf, imports, cur, vals);
    if s.failure.None? {
      forall i | 0 <= i < |s.imports|
        ensures !IsGlobalImport(s.imports[i])
      {
        assert s.imports[i] == ReplacedDecl(imports, cur, i);
      }
    }
  }

  /** A file is skipped exactly when it has no global style import, and a skipped file's
      attributes are left as they are. */
  lemma SkippedIffNoGlobal(imports: seq<ImportDecl>, vals: seq<AttrValue>, classMapOf: string -> map<string, string>)
    ensures Migrate(imports, vals, classMapOf).outcome == Skipped <==> !HasGlobalImport(imports)
    ensures Migrate(imports, vals, classMapOf).outcome == Skipped ==> Migrate(imports, vals, classMapOf).vals == vals
  {
  }

  /** Migrating a migrated file again does nothing: its imports hold no global style sheet,
      so it is skipped and its attributes are kept. */
  lemma MigrateAgainSkips(imports: seq<ImportDecl>, vals: seq<AttrValue>, classMapOf: string -> map<string, string>)
    ensures var r := Migrate(imports, vals, classMapOf);
      r.outcome.Migrated? ==> Migrate(r.outcome.imports, r.vals, classMapOf) == FileResult(Skipped, r.vals)
  {
    var r := Migrate(imports, vals, classMapOf);
    if r.outcome.Migrated? {
      var mergeFn := MergeFunctionName(FindClassnames(imports)).name;
      var extra := ExtraImports(imports);
      var cur := CountStyleBindings(AllSpecifiers(imports + extra));
      var s := Sheets(mergeFn, classMapOf, imports, cur, vals);
      SheetsLeaveNoGlobal(mergeFn, classMapOf, imports, cur, vals);
      assert r.outcome.imports == s.imports + extra;
      forall i | 0 <= i < |s.imports + extra|
        ensures !IsGlobalImport((s.imports + extra)[i])
      {
        if i >= |s.imports| {
          assert (s.imports + extra)[i] == MergeImport;
        } else {
          assert (s.imports + extra)[i] == s.imports[i];
        }
      }
    }
  }

  /** A specifier of one of the declarations is among all the file's specifiers. */
  lemma {:induction false} SpecifierListed(imports: seq<ImportDecl>, i: nat, k: nat)
    requires i < |imports| && k < |imports[i].specifiers|
    ensures exists m :: 0 <= m < |AllSpecifiers(imports)| && AllSpecifiers(imports)[m] == imports[i].specifiers[k]
    decreases imports
  {
    var all := AllSpecifiers(imports);
    assert all == imports[0].specifiers + AllSpecifiers(imports[1..]);
    if i == 0 {
      assert all[k] == imports[0].specifiers[k];
    } else {
      SpecifierListed(imports[1..], i - 1, k);
      var m :| 0 <= m < |AllSpecifiers(imports[1..])| && AllSpecifiers(imports[1..])[m] == imports[1..][i - 1].specifiers[k];
      assert all[|imports[0].specifiers| + m] == AllSpecifiers(imports[1..])[m];
    }
  }

  /** When a file already has a default or named import called `styles`, none of the
      names given to its global imports is `styles`. */
  lemma ExistingStylesKept(imports: seq<ImportDecl>, i: nat, k: nat, g: nat)
    requires i < |imports| && k < |imports[i].specifiers|
    requires imports[i].specifiers[k].kind != NamespaceSpecifier && imports[i].specifiers[k].local == StylePrefix
    ensures StyleObjName(CountStyleBindings(AllSpecifiers(imports + ExtraImports(imports))) + g) != StylePrefix
  {
    var all := imports + ExtraImports(imports);
    assert all[i] == imports[i];
    SpecifierListed(all, i, k);
    ExistingStylesAvoided(AllSpecifiers(all), g);
  }

  /** The counter only looks for the exact name `styles`: an existing `styles1` does not
      move it, so the second global import is named `styles1` as well. */
  lemma NumberedBindingCollides()
    ensures CountStyleBindings([Specifier(DefaultSpecifier, "styles1")]) == 0
    ensures StyleObjName(1) == "styles1"
  {
    assert [Specifier(DefaultSpecifier, "styles1")][1..] == [];
    assert "styles1" != StylePrefix by {
      assert |"styles1"| != |StylePrefix|;
    }
  }

  /** Namespace imports are not counted: after `import * as styles from ...` the first
      global import is named `styles` too. */
  lemma NamespaceBindingCollides()
    ensures CountStyleBindings([Specifier(NamespaceSpecifier, StylePrefix)]) == 0
    ensures StyleObjName(0) == StylePrefix
  {
    assert [Specifier(NamespaceSpecifier, StylePrefix)][1..] == [];
  }
}
