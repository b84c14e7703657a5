/** The naming rules of src/migrate-css-module.mjs: the local-name convention handed to
    postcss-modules, the `.module` rename of a style sheet, the style-object identifiers
    `styles`, `styles1`, ... and the name of the class-merging function. */
module Naming {
  import opened JsText
  import opened StyleUtils

  /** `toUpperCase` on a `\w` character: only the ASCII letters change. */
  function Upper(c: char): (u: char)
    ensures IsWordChar(c) ==> IsWordChar(u) && u != '-'
  {
    if 'a' <= c <= 'z' then (c as int - 32) as char else c
  }

  /** The length of the run of hyphens that `s` starts with. */
  function HyphenRun(s: string): (k: nat)
    ensures k <= |s|
    ensures forall i :: 0 <= i < k ==> s[i] == '-'
    ensures k < |s| ==> s[k] != '-'
  {
    if s != [] && s[0] == '-' then 1 + HyphenRun(s[1..]) else 0
  }

  /** `cssModuleLocalsConvention`: `name.replace(/-+(\w)/g, (m, c) => c.toUpperCase())`.
      Scanning left to right, a run of hyphens followed by a word character is replaced by
      that character in upper case; a run followed by anything else stays as it is. */
  function LocalsConvention(s: string): (r: string)
    ensures |r| <= |s|
    ensures r == [] <==> s == []
    decreases |s|
  {
    if s == [] then []
    else if s[0] != '-' then [s[0]] + LocalsConvention(s[1..])
    else
      var k := HyphenRun(s);
      if k < |s| && IsWordChar(s[k]) then [Upper(s[k])] + LocalsConvention(s[k + 1..])
      else s[..k] + LocalsConvention(s[k..])
  }

  /** No hyphen is immediately followed by a word character: nothing left for the
      regular expression to match. */
  predicate NoHyphenBeforeWord(t: string) {
    forall i :: 0 <= i < |t| - 1 ==> !(t[i] == '-' && IsWordChar(t[i + 1]))
  }

  /** The converted name starts with the same character when that is not a hyphen. */
  lemma {:induction false} LocalsConventionHead(s: string)
    requires s != [] && s[0] != '-'
    ensures LocalsConvention(s) != [] && LocalsConvention(s)[0] == s[0]
  {
  }

  /** A name without hyphens is its own local name. */
  lemma {:induction false} HyphenFreeUnchanged(s: string)
    requires forall i :: 0 <= i < |s| ==> s[i] != '-'
    ensures LocalsConvention(s) == s
    decreases |s|
  {
    if s != [] {
      HyphenFreeUnchanged(s[1..]);
    }
  }

  /** The converted name never holds a hyphen immediately followed by a word character. */
  lemma {:induction false} LocalsConventionLeavesNoMatch(s: string)
    ensures NoHyphenBeforeWord(LocalsConvention(s))
    decreases |s|
  {
    if s == [] {
    } else if s[0] != '-' {
      LocalsConventionLeavesNoMatch(s[1..]);
      NoMatchJoin([s[0]], LocalsConvention(s[1..]));
    } else {
      var k := HyphenRun(s);
      if k < |s| && IsWordChar(s[k]) {
        LocalsConventionLeavesNoMatch(s[k + 1..]);
        NoMatchJoin([Upper(s[k])], LocalsConvention(s[k + 1..]));
      } else {
        LocalsConventionLeavesNoMatch(s[k..]);
        if k < |s| {
          LocalsConventionHead(s[k..]);
        }
        assert forall i :: 0 <= i < |s[..k]| ==> s[..k][i] == '-';
        NoMatchJoin(s[..k], LocalsConvention(s[k..]));
      }
    }
  }

  /** Two names without a match give none when joined, unless a hyphen ends the first and
      a word character starts the second. */
  lemma NoMatchJoin(a: string, b: string)
    requires NoHyphenBeforeWord(a) && NoHyphenBeforeWord(b)
    requires a != [] && b != [] ==> !(a[|a| - 1] == '-' && IsWordChar(b[0]))
    ensures NoHyphenBeforeWord(a + b)
  {
    var t := a + b;
    forall i | 0 <= i < |t| - 1
      ensures !(t[i] == '-' && IsWordChar(t[i + 1]))
    {
      if i < |a| - 1 {
        assert t[i] == a[i] && t[i + 1] == a[i + 1];
      } else if i == |a| - 1 {
        assert t[i] == a[i] && t[i + 1] == b[0];
      } else {
        assert t[i] == b[i - |a|] && t[i + 1] == b[i - |a| + 1];
      }
    }
  }

  /** What follows any position of a name without a match has none either. */
  lemma NoMatchSuffix(t: string, k: nat)
    requires NoHyphenBeforeWord(t) && k <= |t|
    ensures NoHyphenBeforeWord(t[k..])
  {
    forall i | 0 <= i < |t[k..]| - 1
      ensures !(t[k..][i] == '-' && IsWordChar(t[k..][i + 1]))
    {
      assert t[k..][i] == t[k + i] && t[k..][i + 1] == t[k + i + 1];
    }
  }

  /** A name the regular expression finds nothing in is left unchanged. */
  lemma {:induction false} NoMatchUnchanged(t: string)
    requires NoHyphenBeforeWord(t)
    ensures LocalsConvention(t) == t
    decreases |t|
  {
    if t != [] {
      if t[0] != '-' {
        NoMatchSuffix(t, 1);
        NoMatchUnchanged(t[1..]);
      } else {
        var k := HyphenRun(t);
        assert t[k - 1] == '-';
        NoMatchSuffix(t, k);
        NoMatchUnchanged(t[k..]);
        assert t == t[..k] + t[k..];
      }
    }
  }

  /** A name is its own local name exactly when no hyphen in it precedes a word character. */
  lemma LocalsConventionFixedPoints(t: string)
    ensures LocalsConvention(t) == t <==> NoHyphenBeforeWord(t)
  {
    LocalsConventionLeavesNoMatch(t);
    if NoHyphenBeforeWord(t) {
      NoMatchUnchanged(t);
    }
  }

  /** Converting twice gives the same as converting once. */
  lemma LocalsConventionIdempotent(s: string)
    ensures LocalsConvention(LocalsConvention(s)) == LocalsConvention(s)
  {
    LocalsConventionLeavesNoMatch(s);
    NoMatchUnchanged(LocalsConvention(s));
  }

  /** A hyphen-free start of a name is kept as it is. */
  lemma {:induction false} HyphenFreePrefix(p: string, t: string)
    requires forall i :: 0 <= i < |p| ==> p[i] != '-'
    ensures LocalsConvention(p + t) == p + LocalsConvention(t)
    decreases |p|
  {
    if p != [] {
      var q := p + t;
      assert q[0] == p[0] != '-';
      assert q[1..] == p[1..] + t;
      assert LocalsConvention(q) == [p[0]] + LocalsConvention(p[1..] + t);
      assert forall i :: 0 <= i < |p[1..]| ==> p[1..][i] == p[i + 1];
      HyphenFreePrefix(p[1..], t);
      assert p == [p[0]] + p[1..];
    } else {
      assert p + t == t;
    }
  }

  /** A run of hyphens in front of a hyphen-free text is as long as it is. */
  lemma {:induction false} HyphenRunOf(h: string, r: string)
    requires forall i :: 0 <= i < |h| ==> h[i] == '-'
    requires r == [] || r[0] != '-'
    ensures HyphenRun(h + r) == |h|
    decreases |h|
  {
    if h == [] {
      assert h + r == r;
    } else {
      assert (h + r)[1..] == h[1..] + r;
      HyphenRunOf(h[1..], r);
    }
  }

  /** A run of hyphens and the word character after it become that character in upper
      case. */
  lemma HyphenRunCapitalises(h: string, c: char, t: string)
    requires h != [] && forall i :: 0 <= i < |h| ==> h[i] == '-'
    requires IsWordChar(c)
    ensures LocalsConvention(h + [c] + t) == [Upper(c)] + LocalsConvention(t)
  {
    var s := h + [c] + t;
    assert s == h + ([c] + t);
    HyphenRunOf(h, [c] + t);
    assert s[0] == h[0];
    assert s[|h|] == c;
    assert s[|h| + 1..] == t;
  }

  /** A hyphen-free name part, a run of hyphens, a word character and a hyphen-free rest
      join into camel case: the hyphens go and the character is upper-cased. */
  lemma CamelCaseJoin(p: string, h: string, c: char, t: string)
    requires forall i :: 0 <= i < |p| ==> p[i] != '-'
    requires h != [] && forall i :: 0 <= i < |h| ==> h[i] == '-'
    requires IsWordChar(c)
    requires forall i :: 0 <= i < |t| ==> t[i] != '-'
    ensures LocalsConvention(p + h + [c] + t) == p + [Upper(c)] + t
  {
    var u := h + [c] + t;
    ConcatAssoc(p, h, [c]);
    ConcatAssoc(p, h + [c], t);
    assert p + h + [c] + t == p + u;
    HyphenFreePrefix(p, u);
    HyphenRunCapitalises(h, c, t);
    HyphenFreeUnchanged(t);
    ConcatAssoc(p, [Upper(c)], t);
  }

  lemma ConcatAssoc(a: string, b: string, c: string)
    ensures a + b + c == a + (b + c)
  {
  }

  /** The class `color--red` of the fixture has the local name `colorRed`. */
  lemma DoubleHyphenExample()
    ensures LocalsConvention("color--red") == "colorRed"
  {
    var s := "color--red";
    assert s[5..] == "--red";
    assert HyphenRun("--red") == 2 by {
      assert "--red"[1..] == "-red";
      assert "-red"[1..] == "red";
    }
    assert LocalsConvention("--red") == "Red" by {
      assert "--red"[3..] == "ed";
      assert LocalsConvention("ed") == "ed" by { HyphenFreeUnchanged("ed"); }
    }
    assert s == "color" + "--red";
    HyphenFreePrefix("color", "--red");
  }

  // ---------------------------------------------------------------------------------------
  // The `.module` rename

  /** `name` ends in `.` followed by `ext`, as the anchored `\.(ext)$` requires. */
  predicate EndsWithExtension(name: string, ext: string) {
    |name| > |ext| && name[|name| - |ext| - 1] == '.' && name[|name| - |ext|..] == ext
  }

  /** The alternatives of the rename's regular expression: `.styl` is not among them. */
  predicate IsRenamedExtension(ext: string) {
    ext == "css" || ext == "less" || ext == "sass" || ext == "scss"
  }

  function InsertModule(name: string, ext: string): string
    requires EndsWithExtension(name, ext)
  {
    name[..|name| - |ext| - 1] + ".module." + ext
  }

  /** `getTransformedGlobalStyleFileName`: `.module` goes in front of a final `.css`, `.less`,
      `.sass` or `.scss`; any other name is returned as it is. */
  function ModuleFileName(name: string): (r: string)
    ensures (exists ext :: IsRenamedExtension(ext) && EndsWithExtension(name, ext))
            || r == name
  {
    if EndsWithExtension(name, "css") then InsertModule(name, "css")
    else if EndsWithExtension(name, "less") then InsertModule(name, "less")
    else if EndsWithExtension(name, "sass") then InsertModule(name, "sass")
    else if EndsWithExtension(name, "scss") then InsertModule(name, "scss")
    else name
  }

  /** Renaming `x.<ext>` inserts `.module` in front of the extension. */
  lemma RenameInsertsModule(x: string, ext: string)
    requires IsRenamedExtension(ext)
    ensures ModuleFileName(x + "." + ext) == x + ".module." + ext
  {
    var name := x + "." + ext;
    assert name[|name| - |ext|..] == ext;
    assert name[..|name| - |ext| - 1] == x;
    assert EndsWithExtension(name, ext);
    assert InsertModule(name, ext) == x + ".module." + ext;
    if ext != "css" {
      assert name[|name| - 4] == ext[0] != '.';
      assert !EndsWithExtension(name, "css");
      assert name[|name| - 4..] == ext;
    }
  }

  /** A renamed style sheet `x.<ext>` no longer counts as global when `x` did not. */
  lemma RenameLeavesGlobalStyle(x: string, ext: string)
    requires IsRenamedExtension(ext)
    requires !IsGlobalStyle(x)
    ensures !IsGlobalStyle(ModuleFileName(x + "." + ext))
  {
    RenameInsertsModule(x, ext);
    ModuleStyleNameIsNotGlobal(x, ext);
  }

  /** With `x` not ending in `.module`, `x.scss` is a global style sheet and its renamed
      form `x.module.scss` is not one, provided `x` holds no other style extension. */
  lemma ScssRenameExample(x: string)
    requires !IsGlobalStyle(x)
    requires !(|x| >= 7 && x[|x| - 7..] == ".module")
    ensures IsGlobalStyle(x + ".scss")
    ensures !IsGlobalStyle(ModuleFileName(x + ".scss"))
  {
    PlainStyleNameIsGlobal(x, "scss");
    assert x + ".scss" == x + "." + "scss";
    RenameLeavesGlobalStyle(x, "scss");
  }

  /** A `.styl` sheet counts as global, but the rename leaves its name as it is. */
  lemma StylGap(x: string)
    requires !(|x| >= 7 && x[|x| - 7..] == ".module")
    ensures IsGlobalStyle(x + ".styl")
    ensures ModuleFileName(x + ".styl") == x + ".styl"
  {
    PlainStyleNameIsGlobal(x, "styl");
    assert x + ".styl" == x + "." + "styl";
    var name := x + ".styl";
    assert name[|name| - 4] == 's';
    assert name[|name| - 4..] == "styl";
  }

  // ---------------------------------------------------------------------------------------
  // Style-object identifiers

  /** The decimal digits of `n`, as `Number.prototype.toString()` writes a natural number. */
  function DecimalString(n: nat): (r: string)
    ensures |r| >= 1
    ensures forall i :: 0 <= i < |r| ==> '0' <= r[i] <= '9'
    ensures n >= 10 ==> |r| >= 2
    decreases n
  {
    var d := [(48 + n % 10) as char];
    if n < 10 then d else DecimalString(n / 10) + d
  }

  /** Reading decimal digits back as a number. */
  function DecimalValue(s: string): int
    decreases |s|
  {
    if s == [] then 0 else 10 * DecimalValue(s[..|s| - 1]) + (s[|s| - 1] as int - 48)
  }

  lemma {:induction false} DecimalRoundTrip(n: nat)
    ensures DecimalValue(DecimalString(n)) == n
    decreases n
  {
    var r := DecimalString(n);
    if n >= 10 {
      DecimalRoundTrip(n / 10);
      assert r[..|r| - 1] == DecimalString(n / 10);
    }
  }

  const StylePrefix := "styles"

  /** The identifier the counter value `cur` stands for: `styles`, then `styles1`, ... */
  function StyleObjName(cur: nat): (r: string)
    ensures StylePrefix <= r
    ensures |r| == |StylePrefix| <==> cur == 0
  {
    StylePrefix + (if cur == 0 then "" else DecimalString(cur))
  }

  /** Distinct counter values give distinct identifiers. */
  lemma StyleObjNamesDistinct(a: nat, b: nat)
    requires a != b
    ensures StyleObjName(a) != StyleObjName(b)
  {
    if a == 0 || b == 0 {
      assert |StyleObjName(a)| != |StyleObjName(b)|;
    } else {
      assert StyleObjName(a)[|StylePrefix|..] == DecimalString(a);
      assert StyleObjName(b)[|StylePrefix|..] == DecimalString(b);
      DecimalRoundTrip(a);
      DecimalRoundTrip(b);
      assert DecimalString(a) != DecimalString(b);
    }
  }

  /** The kinds of import specifier the source distinguishes when it counts bindings. */
  datatype SpecifierKind = DefaultSpecifier | NamedSpecifier | NamespaceSpecifier
  datatype Specifier = Specifier(kind: SpecifierKind, local: string)

  /** The initial value of the counter: the number of default and named import specifiers
      whose local name is `styles`; namespace imports are not looked for. */
  function CountStyleBindings(specs: seq<Specifier>): (n: nat)
    ensures n <= |specs|
    ensures n == 0 <==> forall i :: 0 <= i < |specs| ==>
      specs[i].kind == NamespaceSpecifier || specs[i].local != StylePrefix
  {
    if specs == [] then 0
    else
      (if specs[0].kind != NamespaceSpecifier && specs[0].local == StylePrefix then 1 else 0)
      + CountStyleBindings(specs[1..])
  }

  /** Every identifier after the first is longer than `styles`. */
  lemma LaterNamesAreLonger(n: nat)
    requires n != 0
    ensures |StyleObjName(n)| > |StylePrefix|
  {
  }

  /** When a file already imports a default or named `styles`, no allocated identifier
      is `styles`. */
  lemma ExistingStylesAvoided(specs: seq<Specifier>, i: nat)
    requires exists k :: 0 <= k < |specs| && specs[k].kind != NamespaceSpecifier
                                         && specs[k].local == StylePrefix
    ensures StyleObjName(CountStyleBindings(specs) + i) != StylePrefix
  {
    var k :| 0 <= k < |specs| && specs[k].kind != NamespaceSpecifier && specs[k].local == StylePrefix;
    CountPositive(specs, k);
    LaterNamesAreLonger(CountStyleBindings(specs) + i);
  }

  lemma CountPositive(specs: seq<Specifier>, k: nat)
    requires k < |specs| && specs[k].kind != NamespaceSpecifier && specs[k].local == StylePrefix
    ensures CountStyleBindings(specs) >= 1
  {
  }

  // ---------------------------------------------------------------------------------------
  // The merge function

  /** The local names of the specifiers of the first `classnames` import, if there is one. */
  datatype ClassnamesImport = NoClassnamesImport | ClassnamesImport(locals: seq<string>)

  /** Why a merge-function name could not be chosen: `specifiers[0]` of an import without
      specifiers is `undefined`, and reading `.local` from it throws. */
  datatype NameError = ImportWithoutSpecifier

  datatype NameChoice = Chosen(name: string) | NotChosen(error: NameError)

  /** The merge-function name: `clsx` (for a default import of `classnames` that is then
      inserted), else the local name of the first specifier of the existing import. */
  function MergeFunctionName(imp: ClassnamesImport): (r: NameChoice)
    ensures imp == NoClassnamesImport ==> r == Chosen("clsx")
    ensures imp.ClassnamesImport? && |imp.locals| > 0 ==> r == Chosen(imp.locals[0])
    ensures imp.ClassnamesImport? && imp.locals == [] ==> r.NotChosen?
  {
    match imp
    case NoClassnamesImport => Chosen("clsx")
    case ClassnamesImport(locals) =>
      if locals == [] then NotChosen(ImportWithoutSpecifier) else Chosen(locals[0])
  }
}
