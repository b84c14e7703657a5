/** Properties of the className rewrite (src/migrate-css-module.mjs:159-367), stated over the
    specification in `RewriteSpec`. */
module RewriteFacts {
  import opened JsText
  import opened Naming
  import opened Ast
  import opened RewriteSpec

  // ---------------------------------------------------------------------------------------
  // String literals

  /** A string literal never throws, and is answered with nodes exactly when some piece of
      its split is the name of a class of the sheet (with `null` otherwise). */
  lemma StringNullIffUnmapped(ctx: Context, s: string)
    ensures Rewrite(ctx, StringLit(s)).Ok?
    ensures Rewrite(ctx, StringLit(s)).value.Some?
            <==> exists i :: 0 <= i < |SplitWs(s)| && Maps(ctx, LocalsConvention(SplitWs(s)[i]))
  {
    assert Rewrite(ctx, StringLit(s)) == RewriteString(ctx, s);
    assert RewriteString(ctx, s).value.Some? <==> AnyMapped(ctx, SplitWs(s));
  }

  /** Otherwise it is answered with one node per piece, in order: the module reference of a
      piece the sheet has, the piece itself as a string literal otherwise. */
  lemma StringNodes(ctx: Context, s: string)
    ensures Rewrite(ctx, StringLit(s)).Ok? && Rewrite(ctx, StringLit(s)).value.Some? ==>
      var nodes := Rewrite(ctx, StringLit(s)).value.value;
      |nodes| == |SplitWs(s)|
      && forall i :: 0 <= i < |nodes| ==>
           (Maps(ctx, LocalsConvention(SplitWs(s)[i])) ==> nodes[i] == StyleRef(ctx, LocalsConvention(SplitWs(s)[i])))
           && (!Maps(ctx, LocalsConvention(SplitWs(s)[i])) ==> nodes[i] == StringLit(SplitWs(s)[i]))
  {
    var parts := SplitWs(s);
    if AnyMapped(ctx, parts) {
      var nodes := TokenNodes(ctx, parts);
      assert Rewrite(ctx, StringLit(s)) == Ok(Some(nodes));
      forall i | 0 <= i < |nodes|
        ensures nodes[i] == TokenNode(ctx, parts[i])
      {
      }
    }
  }

  /** A single class name without white space rewrites to its module reference when the
      sheet has it, and is left alone otherwise. */
  lemma SingleClass(ctx: Context, c: string)
    requires WsFree(c)
    ensures Maps(ctx, LocalsConvention(c)) ==> Rewrite(ctx, StringLit(c)) == Ok(Some([StyleRef(ctx, LocalsConvention(c))]))
    ensures !Maps(ctx, LocalsConvention(c)) ==> Rewrite(ctx, StringLit(c)) == Ok(None)
  {
    SplitWsOfWord(c);
    assert [c][0] == c;
    assert AnyMapped(ctx, [c]) == Maps(ctx, LocalsConvention(c));
    assert TokenNodes(ctx, [c]) == [TokenNode(ctx, c)];
  }

  // ---------------------------------------------------------------------------------------
  // Template literals

  /** The class names of the static part before an expression that are glued to the
      expression before it (they go into that expression's new template). */
  function JoinsPrevious(q: string, first: bool): seq<string> {
    if first || StartsWs(q) then [] else NonEmpty([FusedRight(q)])
  }

  /** The class names of the static part that are glued to the expression after it. */
  function JoinsNext(q: string): seq<string> {
    if EndsWs(q) then [] else NonEmpty([FusedLeft(q)])
  }

  /** The tokens of a text that holds white space: its first piece unless the text starts
      with white space, the tokens of the pieces in between, and its last piece unless the
      text ends with white space. */
  lemma {:induction false} TokensByEnds(q: string)
    requires |SplitWs(q)| >= 2
    ensures var parts := SplitWs(q);
      Tokens(q) == (if StartsWs(q) then [] else [parts[0]]) + NonEmpty(parts[1..|parts| - 1])
                   + (if EndsWs(q) then [] else [parts[|parts| - 1]])
  {
    var parts := SplitWs(q);
    var n := |parts|;
    assert parts == [parts[0]] + parts[1..n - 1] + [parts[n - 1]];
    NonEmptyAppend([parts[0]] + parts[1..n - 1], [parts[n - 1]]);
    NonEmptyAppend([parts[0]], parts[1..n - 1]);
    NonEmptyOne(parts[0]);
    NonEmptyOne(parts[n - 1]);
  }

  /** Every class name of a static part in front of an expression is emitted exactly once:
      glued to the previous expression, on its own, or glued to the next expression; this
      holds for the first static part and for every one that contains white space. */
  lemma {:induction false} QuasiAccounted(q: string, first: bool)
    requires first || !WsFree(q)
    ensures Tokens(q) == JoinsPrevious(q, first) + LeftFree(q, first) + JoinsNext(q)
  {
    var parts := SplitWs(q);
    if q == "" {
      assert Tokens(q) == [];
    } else if |parts| == 1 {
      SplitWsOfWord(q);
      assert Tokens(q) == [q];
    } else {
      QuasiSplitAccounted(q, first);
    }
  }

  lemma {:induction false} QuasiSplitAccounted(q: string, first: bool)
    requires |SplitWs(q)| >= 2
    ensures Tokens(q) == JoinsPrevious(q, first) + LeftFree(q, first) + JoinsNext(q)
  {
    var parts := SplitWs(q);
    var n := |parts|;
    TokensByEnds(q);
    GluedEnds(q, first);
    var fore := if StartsWs(q) then [] else [parts[0]];
    var aft := if EndsWs(q) then [] else [parts[n - 1]];
    Assemble(Tokens(q), JoinsPrevious(q, first), LeftFree(q, first), JoinsNext(q),
      fore, NonEmpty(parts[1..n - 1]), aft, parts[0], parts[n - 1], !first && !StartsWs(q), !EndsWs(q));
  }

  /** The glued tokens of a text that holds white space are its end pieces. */
  lemma GluedEnds(q: string, first: bool)
    requires |SplitWs(q)| >= 2
    ensures JoinsPrevious(q, first) == if first || StartsWs(q) then [] else [SplitWs(q)[0]]
    ensures JoinsNext(q) == if EndsWs(q) then [] else [SplitWs(q)[|SplitWs(q)| - 1]]
  {
    var parts := SplitWs(q);
    assert q != "";
    NonEmptyOne(parts[0]);
    NonEmptyOne(parts[|parts| - 1]);
  }

  /** Shifting the first and popping the last token take exactly the glued pieces off. */
  lemma Assemble(t: seq<string>, jp: seq<string>, lf: seq<string>, jn: seq<string>,
                 fore: seq<string>, mid: seq<string>, aft: seq<string>, p0: string, pl: string,
                 dropFirst: bool, dropLast: bool)
    requires t == fore + mid + aft
    requires dropFirst ==> fore == [p0]
    requires dropLast ==> aft == [pl]
    requires !dropLast ==> aft == []
    requires jp == (if dropFirst then fore else [])
    requires jn == aft
    requires lf == var l1 := (if dropFirst then DropFirst(t) else t); if dropLast then DropLast(l1) else l1
    ensures t == jp + lf + jn
  {
    var x := (if dropFirst then [] else fore) + mid;
    if dropFirst {
      DropFirstCons(p0, mid + aft);
      assert t == [p0] + (mid + aft);
    }
    var l1 := if dropFirst then DropFirst(t) else t;
    assert l1 == x + aft;
    if dropLast {
      DropLastSnoc(x, pl);
    } else {
      assert l1 == x;
    }
    assert lf == x;
  }

  lemma NonEmptyOne(x: string)
    ensures NonEmpty([x]) == if x == "" then [] else [x]
  {
    assert [x][1..] == [];
  }

  lemma DropFirstCons<T>(a: T, ys: seq<T>)
    ensures DropFirst([a] + ys) == ys
  {
    assert ([a] + ys)[1..] == ys;
  }

  lemma DropLastSnoc<T>(ys: seq<T>, a: T)
    ensures DropLast(ys + [a]) == ys
  {
    assert (ys + [a])[..|ys|] == ys;
  }

  /** The same for the static part after the last expression. */
  lemma TailAccounted(q: string)
    ensures Tokens(q) == JoinsPrevious(q, false) + TailFree(q)
  {
    var parts := SplitWs(q);
    if q != "" && !StartsWs(q) {
      assert parts == [parts[0]] + parts[1..];
      NonEmptyAppend([parts[0]], parts[1..]);
    }
  }

  /** A static part between two expressions that is a single class name is glued to both
      of them and emitted twice: `${a}b${c}` yields the templates `${a}b` and `b${c}`. */
  lemma MiddleWordDuplicated(q: string)
    requires WsFree(q) && q != ""
    ensures FusedRight(q) == q && FusedLeft(q) == q
    ensures LeftFree(q, false) == []
  {
    SplitWsOfWord(q);
  }

  /** A template literal is answered with `null` exactly when it embeds no expression. */
  lemma TemplateNullIffStatic(ctx: Context, head: string, spans: seq<Span>)
    ensures Rewrite(ctx, Template(head, spans)).Ok? ==>
      (Rewrite(ctx, Template(head, spans)).value.None? <==> spans == [])
  {
  }

  /** A class name, white space and a fragment glued to the only expression of a template:
      the class name is emitted on its own, the fragment goes into a new template with the
      expression. */
  lemma GluedBeforeExpression(ctx: Context, w1: string, sp: string, w2: string, e: Node)
    requires WsFree(w1) && w1 != [] && sp != [] && IsBlank(sp) && WsFree(w2) && w2 != []
    requires Rewrite(ctx, e) == Ok(None)
    ensures Rewrite(ctx, Template(w1 + sp + w2, [Span(e, "")]))
            == Ok(Some([TokenNode(ctx, w1), Template(w2, [Span(e, "")])]))
  {
    var q := w1 + sp + w2;
    var spans := [Span(e, "")];
    SplitTwoWords(w1, sp, w2);
    NonEmptyTwo(w1, w2);
    assert q[|q| - 1] == w2[|w2| - 1];
    assert LeftFree(q, true) == [w1] by {
      assert DropLast([w1, w2]) == [w1];
    }
    assert FusedLeft(q) == w2;
    assert FusedRight("") == "";
    var piece := [Template(w2, [Span(e, "")])];
    assert ExprPiece(q, "", e, None) == piece;
    assert TokenNodes(ctx, [w1]) == [TokenNode(ctx, w1)];
    var xs := [TokenNode(ctx, w1)] + piece;
    assert SpanArgs(ctx, q, spans, 0) == Ok(xs) by {
      assert IsBlank("");
      assert [TokenNode(ctx, w1)] + piece + [] == xs;
    }
    assert TemplateArgs(ctx, q, spans, 1) == Ok([]);
    assert xs + [] == xs;
    assert TemplateArgs(ctx, q, spans, 0) == Ok(xs);
    assert Rewrite(ctx, Template(q, spans)) == Collected(Ok(xs));
    assert xs == [TokenNode(ctx, w1), Template(w2, [Span(e, "")])];
  }

  lemma MiddleFree(m: string, p: string, t: string, q: string)
    requires WsFree(p) && p != [] && WsFree(t) && t != [] && WsFree(q) && q != []
    requires SplitWs(m) == [p, t, q] && m != [] && m[0] == p[0] && m[|m| - 1] == q[|q| - 1]
    ensures LeftFree(m, false) == [t]
    ensures FusedLeft(m) == q && FusedRight(m) == p
    ensures !StartsWs(m) && !EndsWs(m)
  {
    NonEmptyThree(p, t, q);
    assert DropFirst([p, t, q]) == [t, q];
    assert DropLast([t, q]) == [t];
  }

  lemma WordAlone(r: string)
    requires WsFree(r) && r != []
    ensures FusedRight(r) == r && TailFree(r) == [] && !IsBlank(r) && !StartsWs(r)
  {
    SplitWsOfWord(r);
    assert NonEmpty([r]) == [r] by { assert [r][1..] == []; }
  }

  lemma Ends(p: string, sp1: string, t: string, sp2: string, q: string)
    requires p != [] && q != []
    ensures var m := p + sp1 + (t + sp2 + q); m[0] == p[0] && m[|m| - 1] == q[|q| - 1]
  {
    var r := t + sp2 + q;
    assert r[|r| - 1] == q[|q| - 1];
  }

  lemma FirstSpanGlued(ctx: Context, spans: seq<Span>, e: Node, m: string, p: string)
    requires |spans| == 2 && spans[0] == Span(e, m) && Rewrite(ctx, e) == Ok(None)
    requires FusedRight(m) == p
    ensures SpanArgs(ctx, "", spans, 0) == Ok([Template("", [Span(e, p)])])
  {
    assert LeftFree("", true) == [];
    assert TokenNodes(ctx, []) == [];
    assert FusedLeft("") == "";
    assert ExprPiece("", m, e, None) == [Template("", [Span(e, p)])];
    assert [] + [Template("", [Span(e, p)])] + [] == [Template("", [Span(e, p)])];
  }

  lemma SecondSpanGlued(ctx: Context, spans: seq<Span>, m: string, f: Node, r: string, t: string, q: string)
    requires |spans| == 2 && spans[0].text == m && spans[1] == Span(f, r) && Rewrite(ctx, f) == Ok(None)
    requires LeftFree(m, false) == [t] && FusedLeft(m) == q && !EndsWs(m)
    requires FusedRight(r) == r && TailFree(r) == [] && !IsBlank(r) && !StartsWs(r)
    ensures SpanArgs(ctx, "", spans, 1) == Ok([TokenNode(ctx, t), Template(q, [Span(f, r)])])
  {
    assert QuasiBefore("", spans, 1) == m;
    assert ExprPiece(m, r, f, None) == [Template(q, [Span(f, r)])];
    assert TokenNodes(ctx, [t]) == [TokenNode(ctx, t)];
    assert TokenNodes(ctx, []) == [];
    assert [TokenNode(ctx, t)] + [Template(q, [Span(f, r)])] + [] == [TokenNode(ctx, t), Template(q, [Span(f, r)])];
  }

  // Cost helper: a sequence-shape step the callers would otherwise leave to the solver.
  lemma OneAndTwo<T>(a: T, b: T, c: T)
    ensures [a] + [b, c] == [a, b, c]
  {
  }

  lemma TwoSpans(ctx: Context, spans: seq<Span>, first: seq<Node>, second: seq<Node>)
    requires |spans| == 2
    requires SpanArgs(ctx, "", spans, 0) == Ok(first) && SpanArgs(ctx, "", spans, 1) == Ok(second)
    requires first + second != []
    ensures Rewrite(ctx, Template("", spans)) == Ok(Some(first + second))
  {
    assert TemplateArgs(ctx, "", spans, 2) == Ok([]);
    assert second + [] == second;
    assert TemplateArgs(ctx, "", spans, 1) == Ok(second);
    assert TemplateArgs(ctx, "", spans, 0) == Ok(first + second);
  }

  /** Two expressions with static text between them: the fragments glued to each
      expression go into a new template around it, and only the class name between the
      fragments is emitted on its own. */
  lemma GluedAroundExpressions(ctx: Context, e: Node, p: string, sp1: string, t: string, sp2: string,
                               q: string, f: Node, r: string)
    requires WsFree(p) && p != [] && WsFree(t) && t != [] && WsFree(q) && q != [] && WsFree(r) && r != []
    requires sp1 != [] && IsBlank(sp1) && sp2 != [] && IsBlank(sp2)
    requires Rewrite(ctx, e) == Ok(None) && Rewrite(ctx, f) == Ok(None)
    ensures Rewrite(ctx, Template("", [Span(e, p + sp1 + (t + sp2 + q)), Span(f, r)]))
            == Ok(Some([Template("", [Span(e, p)]), TokenNode(ctx, t), Template(q, [Span(f, r)])]))
  {
    var m := p + sp1 + (t + sp2 + q);
    var spans := [Span(e, m), Span(f, r)];
    SplitThreeWords(p, sp1, t, sp2, q);
    Ends(p, sp1, t, sp2, q);
    MiddleFree(m, p, t, q);
    WordAlone(r);
    FirstSpanGlued(ctx, spans, e, m, p);
    SecondSpanGlued(ctx, spans, m, f, r, t, q);
    var first := [Template("", [Span(e, p)])];
    var second := [TokenNode(ctx, t), Template(q, [Span(f, r)])];
    TwoSpans(ctx, spans, first, second);
    OneAndTwo(first[0], second[0], second[1]);
  }

  // ---------------------------------------------------------------------------------------
  // Calls of the merge function

  /** Every argument contributes at least one node. */
  lemma {:induction false} CallArgsCount(ctx: Context, args: seq<Node>)
    ensures CallArgs(ctx, args).Ok? ==> |CallArgs(ctx, args).value| >= |args|
    decreases args
  {
    if args != [] {
      CallArgsCount(ctx, args[1..]);
    }
  }

  /** A call whose arguments are all answered with `null` keeps its arguments as they are. */
  lemma {:induction false} UnmappedArgsKept(ctx: Context, args: seq<Node>)
    requires forall i :: 0 <= i < |args| ==> Rewrite(ctx, args[i]) == Ok(None)
    ensures CallArgs(ctx, args) == Ok(args)
    decreases args
  {
    if args != [] {
      assert Rewrite(ctx, args[0]) == Ok(None);
      UnmappedArgsKept(ctx, args[1..]);
      assert [args[0]] + args[1..] == args;
    }
  }

  /** A call of anything but the merge function throws; a call of it is answered with
      `null` exactly when it has no arguments. */
  lemma CallRewrite(ctx: Context, callee: Node, args: seq<Node>)
    ensures callee != Ident(ctx.mergeFn) ==> Rewrite(ctx, Call(callee, args)) == Err(UnknownCallee(callee))
    ensures callee == Ident(ctx.mergeFn) && Rewrite(ctx, Call(callee, args)).Ok? ==>
      (Rewrite(ctx, Call(callee, args)).value.None? <==> args == [])
  {
    CallArgsCount(ctx, args);
  }

  // ---------------------------------------------------------------------------------------
  // Binary `+`

  /** Any operator but `+` throws; a `+` yields all pieces of both sides, one fewer since
      the inner two are joined into one node. */
  lemma BinaryRewrite(ctx: Context, op: string, left: Node, right: Node)
    ensures op != "+" ==> Rewrite(ctx, Binary(op, left, right)) == Err(UnsupportedOperator(op))
    ensures op == "+" && Rewrite(ctx, left).Ok? && Rewrite(ctx, right).Ok? ==>
      var lefts := OrSelf(Rewrite(ctx, left).value, left);
      var rights := OrSelf(Rewrite(ctx, right).value, right);
      Rewrite(ctx, Binary(op, left, right)) == Ok(Some(PlusArgs(lefts, rights)))
      && |PlusArgs(lefts, rights)| == |lefts| + |rights| - 1
  {
    var n := Binary(op, left, right);
    assert Rewrite(ctx, n) == RewriteBinary(ctx, n);
    if op == "+" && Rewrite(ctx, left).Ok? && Rewrite(ctx, right).Ok? {
      var lefts := OrSelf(Rewrite(ctx, left).value, left);
      var rights := OrSelf(Rewrite(ctx, right).value, right);
      assert RewriteBinary(ctx, n) == Finish(PlusArgs(lefts, rights));
      PlusArgsLength(lefts, rights);
    }
  }

  lemma PlusArgsLength(lefts: seq<Node>, rights: seq<Node>)
    requires lefts != [] && rights != []
    ensures |PlusArgs(lefts, rights)| == |lefts| + |rights| - 1 >= 1
  {
  }

  /** `'' + x` and `x + ''` collapse to `x`. */
  lemma JoinPlusDropsEmpty(x: Node)
    ensures JoinPlus(StringLit(""), x) == x && JoinPlus(x, StringLit("")) == x
  {
  }

  /** The join of a `+` goes after the surplus pieces of the right side: for
      `'a ' + m + ' b'`, whose sides rewrite to `[a, m]` and `['', b]`, the arguments come
      out as `[a, b, m]`, with `m` moved behind `b`. */
  lemma PlusMovesJoinLast(a: Node, m: Node, b: Node)
    ensures PlusArgs(PlusArgs([a, StringLit("")], [m]), [StringLit(""), b]) == [a, b, m]
  {
    var inner := PlusArgs([a, StringLit("")], [m]);
    assert [a, StringLit("")][..1] == [a];
    assert [m][1..] == [];
    assert inner == [a, m];
    assert [a, m][..1] == [a];
    assert [StringLit(""), b][1..] == [b];
  }

  // ---------------------------------------------------------------------------------------
  // Conditional, logical, array and object expressions

  /** These kinds are never answered with `null`: each yields exactly one node of its own
      kind, keeping the test, the operator and the left side. */
  lemma OneNodeKinds(ctx: Context, n: Node)
    requires n.Conditional? || n.Logical? || n.ArrayExpr? || n.ObjectExpr?
    ensures Rewrite(ctx, n).Ok? ==> Rewrite(ctx, n).value.Some? && |Rewrite(ctx, n).value.value| == 1
    ensures Rewrite(ctx, n).Ok? && n.Conditional? ==>
      var c := Rewrite(ctx, n).value.value[0];
      c.Conditional? && c.test == n.test
    ensures Rewrite(ctx, n).Ok? && n.Logical? ==>
      var l := Rewrite(ctx, n).value.value[0];
      l.Logical? && l.op == n.op && l.left == n.left
    ensures Rewrite(ctx, n).Ok? && n.ArrayExpr? ==> Rewrite(ctx, n).value.value[0].ArrayExpr?
    ensures Rewrite(ctx, n).Ok? && n.ObjectExpr? ==> Rewrite(ctx, n).value.value[0].ObjectExpr?
  {
  }

  /** The branch of a conditional that was rewritten is no blank string literal and, when
      it is a new array, holds none. */
  lemma BranchHasNoBlank(sub: seq<Node>, original: Node)
    ensures var b := Branch(Some(sub), original);
      !(b.StringLit? && IsBlank(b.value))
    ensures |DropBlankStrings(sub)| != 1 ==>
      var b := Branch(Some(sub), original);
      b.ArrayExpr? && forall i :: 0 <= i < |b.elements| ==> !(b.elements[i].StringLit? && IsBlank(b.elements[i].value))
  {
    var kept := DropBlankStrings(sub);
    if |kept| == 1 {
      assert Branch(Some(sub), original) == kept[0];
    }
  }

  /** Filtering a branch's nodes distributes over concatenation: every node is kept or
      dropped on its own and the kept ones stay in order. */
  lemma {:induction false} DropBlankStringsAppend(a: seq<Node>, b: seq<Node>)
    ensures DropBlankStrings(a + b) == DropBlankStrings(a) + DropBlankStrings(b)
    decreases a
  {
    if a == [] {
      assert a + b == b;
    } else {
      assert (a + b)[0] == a[0] && (a + b)[1..] == a[1..] + b;
      DropBlankStringsAppend(a[1..], b);
    }
  }

  /** A single node is dropped exactly when it is a blank string literal. */
  lemma DropBlankStringsOne(n: Node)
    ensures DropBlankStrings([n]) == if Blank(n) then [] else [n]
  {
    assert [n][1..] == [];
  }

  /** A logical expression whose right side is not a string literal is kept as it is. */
  lemma LogicalKeptUnlessString(ctx: Context, op: string, left: Node, right: Node)
    requires !right.StringLit?
    ensures Rewrite(ctx, Logical(op, left, right)) == Ok(Some([Logical(op, left, right)]))
  {
  }

  /** The array rewrite goes element by element: the new elements of a concatenation are
      those of its first part followed by those of its second, and an exception in the first
      part wins. */
  lemma {:induction false} ArrayElementsAppend(ctx: Context, a: seq<Node>, b: seq<Node>)
    ensures ArrayElements(ctx, a + b)
            == (match ArrayElements(ctx, a)
                case Err(e) => Err(e)
                case Ok(xs) => Prepend(xs, ArrayElements(ctx, b)))
    decreases a
  {
    if a == [] {
      assert a + b == b;
      PrependToNothing(ArrayElements(ctx, b));
    } else {
      assert (a + b)[0] == a[0] && (a + b)[1..] == a[1..] + b;
      ArrayElementsAppend(ctx, a[1..], b);
      if Rewrite(ctx, a[0]).Ok? && Rewrite(ctx, a[0]).value.Some? {
        var x := Element(Rewrite(ctx, a[0]).value.value);
        var r := ArrayElements(ctx, a[1..]);
        if r.Ok? {
          PrependAll([x], r.value, ArrayElements(ctx, b));
        }
      }
    }
  }

  /** One element: dropped when its rewrite answers `null`, replaced by its single node or by
      the JavaScript array of its nodes otherwise, and its exception passed on. */
  lemma ArrayElementOne(ctx: Context, e: Node)
    ensures Rewrite(ctx, e).Err? ==> ArrayElements(ctx, [e]) == Err(Rewrite(ctx, e).error)
    ensures Rewrite(ctx, e) == Ok(None) ==> ArrayElements(ctx, [e]) == Ok([])
    ensures Rewrite(ctx, e).Ok? && Rewrite(ctx, e).value.Some? ==>
      var nodes := Rewrite(ctx, e).value.value;
      ArrayElements(ctx, [e]) == Ok([if |nodes| == 1 then nodes[0] else RawList(nodes)])
  {
    assert [e][1..] == [];
    if Rewrite(ctx, e).Ok? && Rewrite(ctx, e).value.Some? {
      PrependNothing([Element(Rewrite(ctx, e).value.value)]);
    }
  }

  /** The JavaScript array the array rewrite leaves inside an array has no node type, so the
      rewrite for the next style import drops it. */
  lemma RawListDroppedLater(ctx: Context, items: seq<Node>)
    ensures Rewrite(ctx, ArrayExpr([RawList(items)])) == Ok(Some([ArrayExpr([])]))
  {
    ArrayElementOne(ctx, RawList(items));
  }

  /** The new array has at most as many elements as the old one: an element answered with
      `null` is dropped, not kept. */
  lemma {:induction false} ArrayElementsCount(ctx: Context, elements: seq<Node>)
    ensures ArrayElements(ctx, elements).Ok? ==> |ArrayElements(ctx, elements).value| <= |elements|
    decreases elements
  {
    if elements != [] {
      ArrayElementsCount(ctx, elements[1..]);
    }
  }

  /** An object rewrite throws exactly when the object has a spread element: string keys
      never throw. */
  lemma {:induction false} ObjectErrIffSpread(ctx: Context, props: seq<Property>)
    ensures ObjectProperties(ctx, props).Err? <==> exists i :: 0 <= i < |props| && props[i].SpreadProp?
    ensures ObjectProperties(ctx, props).Err? ==> ObjectProperties(ctx, props).error == PropertyWithoutKey
    decreases props
  {
    if props != [] {
      ObjectErrIffSpread(ctx, props[1..]);
      if exists i :: 0 < i < |props| && props[i].SpreadProp? {
        var i :| 0 < i < |props| && props[i].SpreadProp?;
        assert props[1..][i - 1].SpreadProp?;
      }
      if exists i :: 0 <= i < |props[1..]| && props[1..][i].SpreadProp? {
        var i :| 0 <= i < |props[1..]| && props[1..][i].SpreadProp?;
        assert props[i + 1].SpreadProp?;
      }
    }
  }

  /** No property is lost: a string key with several class names becomes one property
      per name. */
  lemma {:induction false} ObjectPropertiesCount(ctx: Context, props: seq<Property>)
    ensures ObjectProperties(ctx, props).Ok? ==> |ObjectProperties(ctx, props).value| >= |props|
    decreases props
  {
    if props != [] {
      ObjectPropertiesCount(ctx, props[1..]);
    }
  }

  /** The object rewrite goes property by property: the new properties of a concatenation
      are those of its first part followed by those of its second, and an exception in the
      first part wins. */
  lemma {:induction false} ObjectPropertiesAppend(ctx: Context, a: seq<Property>, b: seq<Property>)
    ensures ObjectProperties(ctx, a + b)
            == (match ObjectProperties(ctx, a)
                case Err(e) => Err(e)
                case Ok(xs) => Prepend(xs, ObjectProperties(ctx, b)))
    decreases a
  {
    if a == [] {
      assert a + b == b;
      PrependToNothing(ObjectProperties(ctx, b));
    } else {
      assert (a + b)[0] == a[0] && (a + b)[1..] == a[1..] + b;
      ObjectPropertiesAppend(ctx, a[1..], b);
      var step := PropertyArgs(ctx, a[0]);
      var r := ObjectProperties(ctx, a[1..]);
      if step.Ok? && r.Ok? {
        PrependAll(step.value, r.value, ObjectProperties(ctx, b));
      }
    }
  }

  /** One property gives exactly the properties `PropertyArgs` makes of it. */
  lemma ObjectPropertyOne(ctx: Context, p: Property)
    ensures ObjectProperties(ctx, [p]) == PropertyArgs(ctx, p)
  {
    assert [p][1..] == [];
    if PropertyArgs(ctx, p).Ok? {
      assert PropertyArgs(ctx, p).value + [] == PropertyArgs(ctx, p).value;
    }
  }

  /** A string-literal key whose rewrite answers nodes becomes one property per node, in
      order, each with the old value and computed exactly for a module reference; a string
      key that the sheet does not know keeps its property. */
  lemma StringKeyExpanded(ctx: Context, key: string, value: Node, computed: bool)
    ensures Rewrite(ctx, StringLit(key)).value.Some? ==>
      var nodes := Rewrite(ctx, StringLit(key)).value.value;
      PropertyArgs(ctx, Prop(StringLit(key), value, computed))
        == Ok(seq(|nodes|, i requires 0 <= i < |nodes| => Prop(nodes[i], value, IsMemberExpression(nodes[i]))))
    ensures Rewrite(ctx, StringLit(key)).value.None? ==>
      PropertyArgs(ctx, Prop(StringLit(key), value, computed)) == Ok([Prop(StringLit(key), value, computed)])
  {
    if Rewrite(ctx, StringLit(key)).value.Some? {
      var nodes := Rewrite(ctx, StringLit(key)).value.value;
      var props := seq(|nodes|, i requires 0 <= i < |nodes| => Prop(nodes[i], value, IsMemberExpression(nodes[i])));
      assert KeyProps(nodes, value) == props;
    }
  }

  /** Any other keyed property is kept as it is: an identifier key the sheet does not have,
      a member-expression key, a numeric key, ... */
  lemma OtherKeyKept(ctx: Context, key: Node, value: Node, computed: bool)
    requires !key.StringLit?
    requires !(key.Ident? && Maps(ctx, LocalsConvention(key.name)))
    ensures PropertyArgs(ctx, Prop(key, value, computed)) == Ok([Prop(key, value, computed)])
  {
  }

  /** An identifier key whose local name the sheet has becomes the computed key
      `[styles.local]`; the property's value is kept. */
  lemma IdentKeyMapped(ctx: Context, name: string, value: Node, computed: bool, rest: seq<Property>)
    requires Maps(ctx, LocalsConvention(name))
    requires ObjectProperties(ctx, rest).Ok?
    ensures ObjectProperties(ctx, [Prop(Ident(name), value, computed)] + rest)
            == Ok([Prop(StyleRef(ctx, LocalsConvention(name)), value, true)] + ObjectProperties(ctx, rest).value)
  {
    assert ([Prop(Ident(name), value, computed)] + rest)[1..] == rest;
  }
}
