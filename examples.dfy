/** Cases of the fixture test/src/migrate-css-module/a.jsx, worked out on the model, and the
    places where the code as written does something else than its comments expect. */
module Examples {
  import opened JsText
  import opened Naming
  import opened Ast
  import opened RewriteSpec
  import opened RewriteFacts
  import opened Splice
  import opened SpliceFacts

  /** A sheet with the classes `card` and `active`, imported as `styles`, next to an
      existing `import classNames from 'classnames'`. */
  const Sheet: Context := Context(map["card" := "a_card", "active" := "a_active"], "styles", "classNames")

  const Card: Node := Member(Ident("styles"), "card")

  lemma CardMaps()
    ensures LocalsConvention("card") == "card" && Maps(Sheet, "card")
    ensures TokenNode(Sheet, "card") == Card
  {
    HyphenFreeUnchanged("card");
  }

  /** `className='card'` becomes `className={styles.card}`. */
  lemma CardString()
    ensures SpliceValue(Sheet, AttrString("card")) == Ok(AttrContainer(Card))
  {
    CardMaps();
    SingleMappedClass(Sheet, "card");
  }

  /** `className={'card'}` becomes `className={styles.card}` as well. */
  lemma CardExpression()
    ensures SpliceValue(Sheet, AttrContainer(StringLit("card"))) == Ok(AttrContainer(Card))
  {
    CardMaps();
    SingleMappedClass(Sheet, "card");
  }

  /** ``className={`card`}`` is left as it is: a template literal without an embedded
      expression is answered with `null`, where the fixture expects `styles.card`. */
  lemma StaticTemplateKept()
    ensures SpliceValue(Sheet, AttrContainer(Template("card", []))) == Ok(AttrContainer(Template("card", [])))
  {
  }

  /** `bg-white` is looked up as `bgWhite`. */
  lemma BgWhiteLocal()
    ensures LocalsConvention("bg-white") == "bgWhite"
  {
    CamelCaseJoin("bg", "-", 'w', "hite");
    assert "bg" + "-" + ['w'] + "hite" == "bg-white";
    assert Upper('w') == 'W';
    assert "bg" + ['W'] + "hite" == "bgWhite";
  }

  /** The sheet has no class `bgWhite`. */
  lemma BgWhiteUnmapped()
    ensures !Maps(Sheet, "bgWhite")
  {
    assert "bgWhite" !in InheritedKeys;
  }

  lemma CardBgWhiteSplit()
    ensures SplitWs("card  bg-white") == ["card", "bg-white"]
  {
    var w1, sp, w2 := "card", "  ", "bg-white";
    assert w1 + sp + w2 == "card  bg-white";
    SplitTwoWords(w1, sp, w2);
  }

  lemma CardBgWhiteNodes()
    ensures AnyMapped(Sheet, ["card", "bg-white"])
    ensures TokenNodes(Sheet, ["card", "bg-white"]) == [Card, StringLit("bg-white")]
  {
    var parts := ["card", "bg-white"];
    CardMaps();
    BgWhiteLocal();
    BgWhiteUnmapped();
    assert Maps(Sheet, LocalsConvention(parts[0]));
    assert TokenNode(Sheet, parts[1]) == StringLit("bg-white");
  }

  /** `className={'card  bg-white'}` becomes `className={classNames(styles.card, 'bg-white')}`:
      the double space is one separator. */
  lemma CardBgWhite()
    ensures SpliceValue(Sheet, AttrContainer(StringLit("card  bg-white")))
            == Ok(AttrContainer(Call(Ident("classNames"), [Card, StringLit("bg-white")])))
  {
    CardBgWhiteSplit();
    CardBgWhiteNodes();
    SeveralClassesMerged(Sheet, "card  bg-white");
  }

  /** `classNames(['btn'])` with `btn` not in the sheet becomes `classNames([])`: the
      element answered with `null` is dropped, and the global class `btn` is lost. */
  lemma UnmappedElementDropped()
    ensures Rewrite(Sheet, Call(Ident("classNames"), [ArrayExpr([StringLit("btn")])]))
            == Ok(Some([ArrayExpr([])]))
  {
    var btn := StringLit("btn");
    var arr := ArrayExpr([btn]);
    HyphenFreeUnchanged("btn");
    assert "btn" !in InheritedKeys;
    SingleClass(Sheet, "btn");
    assert [btn][1..] == [];
    assert ArrayElements(Sheet, [btn][1..]) == Ok([]);
    assert ArrayElements(Sheet, [btn]) == Ok([]);
    assert Rewrite(Sheet, arr) == Ok(Some([ArrayExpr([])]));
    assert [arr][1..] == [];
    assert CallArgs(Sheet, [arr][1..]) == Ok([]);
    assert CallArgs(Sheet, [arr]) == Prepend([ArrayExpr([])], Ok([]));
    assert [ArrayExpr([])] + [] == [ArrayExpr([])];
    assert CallArgs(Sheet, [arr]) == Ok([ArrayExpr([])]);
  }

  /** A conditional is never answered with `null`: `className={level ? 'x' : ''}` with
      nothing of the sheet in it still becomes a call of the merge function. */
  lemma UnmappedConditionalWrapped()
    ensures var c := Conditional(Ident("level"), StringLit("x"), StringLit(""));
      SpliceValue(Sheet, AttrContainer(c)) == Ok(AttrContainer(Call(Ident("classNames"), [c])))
  {
    var c := Conditional(Ident("level"), StringLit("x"), StringLit(""));
    HyphenFreeUnchanged("x");
    assert "x" !in InheritedKeys;
    SingleClass(Sheet, "x");
    SingleClass(Sheet, "");
    assert Rewrite(Sheet, c) == RewriteConditional(Sheet, c);
    assert Rewrite(Sheet, c) == Ok(Some([c]));
  }

  /** `classNameMap[local]` also finds the members every object inherits:
      `className='constructor'` becomes `{styles.constructor}` with an empty sheet. */
  lemma InheritedKeyMapped()
    ensures var empty := Context(map[], "styles", "classNames");
      SpliceValue(empty, AttrString("constructor")) == Ok(AttrContainer(Member(Ident("styles"), "constructor")))
  {
    var empty := Context(map[], "styles", "classNames");
    ConstructorInherited(empty);
    SingleMappedClass(empty, "constructor");
  }

  lemma ConstructorInherited(empty: Context)
    requires empty.classMap == map[]
    ensures WsFree("constructor")
    ensures LocalsConvention("constructor") == "constructor" && Maps(empty, "constructor")
  {
    ConstructorWsFree();
    HyphenFreeUnchanged("constructor");
    ConstructorIsInherited();
  }

  // Cost helper: unfolds the literal `constructor` apart from the rewrite proofs.
  lemma ConstructorWsFree()
    ensures WsFree("constructor")
  {
  }

  // Cost helper: a set-membership fact about a literal, kept out of the rewrite proofs.
  lemma ConstructorIsInherited()
    ensures "constructor" in InheritedKeys
  {
  }

  const Level: Node := Ident("level")

  /** `level` is an identifier: it is answered with `null`. A cost helper that unfolds the
      rewrite of this one node apart from the larger examples. */
  lemma LevelKept()
    ensures Rewrite(Sheet, Level) == Ok(None)
  {
  }

  /** Lower-case letters and hyphens are no white space. This predicate and the two lemmas
      after it are cost helpers: the word examples use them instead of unfolding literals. */
  predicate Plain(s: string) {
    forall i :: 0 <= i < |s| ==> ('a' <= s[i] <= 'z') || s[i] == '-'
  }

  lemma PlainWsFree(s: string)
    requires Plain(s)
    ensures WsFree(s)
  {
  }

  lemma PlainNotInherited(s: string)
    requires Plain(s) && |s| <= 5
    ensures s !in InheritedKeys
  {
  }

  // Cost helper: facts about the literal space, kept out of the rewrite proofs.
  lemma SpaceBlank()
    ensures IsBlank(" ") && IsWs(' ')
  {
  }

  /** Two plain words with one space between them split into the two words. */
  lemma PlainTwoWords(w1: string, w2: string)
    requires Plain(w1) && Plain(w2) && w2 != []
    ensures SplitWs(w1 + " " + w2) == [w1, w2]
  {
    PlainWsFree(w1);
    PlainWsFree(w2);
    SpaceBlank();
    SplitTwoWords(w1, " ", w2);
  }

  /** A plain word the sheet does not have is emitted as a string literal. */
  lemma PlainUnmapped(w: string)
    requires Plain(w) && |w| <= 5 && forall i :: 0 <= i < |w| ==> w[i] != '-'
    requires w != "card" && w != "active"
    ensures TokenNodes(Sheet, [w]) == [StringLit(w)]
  {
    HyphenFreeUnchanged(w);
    PlainNotInherited(w);
    assert TokenNodes(Sheet, [w])[0] == TokenNode(Sheet, w);
  }

  /** ``className={`icon icon-${level}`}`` becomes
      ``classNames('icon', `icon-${level}`)``: `icon` stands on its own, `icon-` stays glued
      to the expression in a new template. */
  lemma IconTemplate()
    ensures SpliceValue(Sheet, AttrContainer(Template("icon icon-", [Span(Level, "")])))
            == Ok(AttrContainer(Call(Ident("classNames"),
                 [StringLit("icon"), Template("icon-", [Span(Level, "")])])))
  {
    PlainWsFree("icon");
    PlainWsFree("icon-");
    SpaceBlank();
    LevelKept();
    GluedBeforeExpression(Sheet, "icon", " ", "icon-", Level);
    PlainUnmapped("icon");
    assert TokenNode(Sheet, "icon") == TokenNodes(Sheet, ["icon"])[0];
    assert "icon" + " " + "icon-" == "icon icon-";
  }

  /** ``className={`${level}-tag tag left-${level}-right`}`` becomes
      ``classNames(`${level}-tag`, 'tag', `left-${level}-right`)``, as the fixture comment
      expects: the glued pieces go into templates, `tag` stands on its own. */
  lemma TagTemplate()
    ensures var spans := [Span(Level, "-tag tag left-"), Span(Level, "-right")];
      SpliceValue(Sheet, AttrContainer(Template("", spans)))
      == Ok(AttrContainer(Call(Ident("classNames"),
           [Template("", [Span(Level, "-tag")]), StringLit("tag"), Template("left-", [Span(Level, "-right")])])))
  {
    PlainWsFree("-tag");
    PlainWsFree("tag");
    PlainWsFree("left-");
    PlainWsFree("-right");
    SpaceBlank();
    LevelKept();
    GluedAroundExpressions(Sheet, Level, "-tag", " ", "tag", " ", "left-", Level, "-right");
    PlainUnmapped("tag");
    assert TokenNode(Sheet, "tag") == TokenNodes(Sheet, ["tag"])[0];
    assert "-tag" + " " + ("tag" + " " + "left-") == "-tag tag left-";
  }

  /** `<div className />` has no value, and reading its type throws. */
  lemma MissingValueThrows()
    ensures SpliceValue(Sheet, AttrAbsent) == Err(AttributeWithoutValue)
  {
  }
}
