/** The className rewrite of src/migrate-css-module.mjs (`transformClassNameAttributeNodeValue`,
    lines 159-367) as functions: one per node kind, and one per list the source walks with
    `forEach` or `for`, each written from the first element on. */
module RewriteSpec {
  import opened JsText
  import opened Naming
  import opened Ast

  /** The answer of a rewrite that collected `acc`: `null` when nothing was collected, the
      collected nodes otherwise. */
  function Finish(acc: seq<Node>): (r: Outcome)
    ensures r.Ok?
    ensures r.value.Some? <==> |acc| > 0
    ensures r.value.Some? ==> r.value.value == acc
  {
    if |acc| > 0 then Ok(Some(acc)) else Ok(None)
  }

  /** Nodes collected before a part of the walk, in front of what that part collects;
      an exception in that part wins. */
  function Prepend<T>(acc: seq<T>, r: Result<seq<T>>): Result<seq<T>> {
    match r
    case Err(e) => Err(e)
    case Ok(xs) => Ok(acc + xs)
  }

  lemma PrependAll<T>(a: seq<T>, b: seq<T>, r: Result<seq<T>>)
    ensures Prepend(a, Prepend(b, r)) == Prepend(a + b, r)
  {
    if r.Ok? {
      assert a + (b + r.value) == (a + b) + r.value;
    }
  }

  lemma PrependToNothing<T>(r: Result<seq<T>>)
    ensures Prepend([], r) == r
  {
    if r.Ok? {
      assert [] + r.value == r.value;
    }
  }

  lemma PrependNothing<T>(a: seq<T>)
    ensures Prepend(a, Ok([])) == Ok(a)
  {
    assert a + [] == a;
  }

  /** The end of a walk over a list: its exception, or `Finish` of what it collected. */
  function Collected(r: Result<seq<Node>>): (o: Outcome)
    ensures r.Err? ==> o == Err(r.error)
  {
    match r
    case Err(e) => Err(e)
    case Ok(acc) => Finish(acc)
  }

  /** A list of replacement nodes used where one node is expected: the node itself when
      there is one, an array expression otherwise. */
  function Wrap(nodes: seq<Node>): Node {
    if |nodes| == 1 then nodes[0] else ArrayExpr(nodes)
  }

  /** The replacement nodes of a rewrite, or the original node when it answered `null`. */
  function OrSelf(sub: Option<seq<Node>>, original: Node): seq<Node> {
    match sub
    case None => [original]
    case Some(nodes) => nodes
  }

  /** Some token's local name is in the class map. */
  predicate AnyMapped(ctx: Context, tokens: seq<string>) {
    exists i :: 0 <= i < |tokens| && Maps(ctx, LocalsConvention(tokens[i]))
  }

  function Rewrite(ctx: Context, n: Node): (r: Outcome)
    ensures r.Ok? && r.value.Some? ==> |r.value.value| > 0
    decreases n, 1
  {
    match n
    case StringLit(s) => RewriteString(ctx, s)
    case Template(head, spans) => Collected(TemplateArgs(ctx, head, spans, 0))
    case Call(callee, args) =>
      if callee != Ident(ctx.mergeFn) then Err(UnknownCallee(callee))
      else Collected(CallArgs(ctx, args))
    case Conditional(_, _, _) => RewriteConditional(ctx, n)
    case Binary(_, _, _) => RewriteBinary(ctx, n)
    case Logical(_, _, _) => RewriteLogical(ctx, n)
    case ArrayExpr(elements) =>
      (match ArrayElements(ctx, elements)
       case Err(e) => Err(e)
       case Ok(kept) => Finish([ArrayExpr(kept)]))
    case ObjectExpr(props) =>
      (match ObjectProperties(ctx, props)
       case Err(e) => Err(e)
       case Ok(newProps) => Finish([ObjectExpr(newProps)]))
    case _ => Ok(None)
  }

  // ---------------------------------------------------------------------------------------
  // StringLiteral (lines 163-180)

  function RewriteString(ctx: Context, s: string): (r: Outcome)
    ensures r.Ok?
  {
    var classList := SplitWs(s);
    if AnyMapped(ctx, classList) then Finish(TokenNodes(ctx, classList)) else Ok(None)
  }

  // ---------------------------------------------------------------------------------------
  // TemplateLiteral (lines 181-231)

  /** The tokens of the static part in front of an embedded expression that are emitted on
      their own: the empty pieces filtered out, then the first token shifted off when it
      touches the previous expression, and the last popped off when it touches this one. */
  function LeftFree(left: string, first: bool): seq<string> {
    var l0 := Tokens(left);
    var l1 := if !first && !StartsWs(left) then DropFirst(l0) else l0;
    if !EndsWs(left) then DropLast(l1) else l1
  }

  /** The tokens of the last static part emitted on their own: the first one is shifted off
      when it touches the last expression. */
  function TailFree(right: string): seq<string> {
    var l0 := Tokens(right);
    if !StartsWs(right) then DropFirst(l0) else l0
  }

  /** No white space separates the expression from the static text on one of its sides. */
  predicate Fused(left: string, right: string) {
    !EndsWs(left) || !StartsWs(right)
  }

  /** The text glued to the expression from the left: the last piece of the static part. */
  function FusedLeft(left: string): string {
    if EndsWs(left) then "" else SplitWs(left)[|SplitWs(left)| - 1]
  }

  /** The text glued to the expression from the right: the first piece of the static part. */
  function FusedRight(right: string): string {
    if StartsWs(right) then "" else SplitWs(right)[0]
  }

  /** The expression placed inside a new template: the expression itself when its rewrite
      answered `null`, else its single replacement node or an array expression of them. */
  function Embedded(sub: Option<seq<Node>>, expr: Node): Node {
    match sub
    case None => expr
    case Some(nodes) => Wrap(nodes)
  }

  /** What an embedded expression contributes: a new two-part template around it when it
      is fused to its text, its rewrite (or itself) otherwise. */
  function ExprPiece(left: string, right: string, expr: Node, sub: Option<seq<Node>>): seq<Node> {
    if Fused(left, right) then
      [Template(FusedLeft(left), [Span(Embedded(sub, expr), FusedRight(right))])]
    else OrSelf(sub, expr)
  }

  /** What iteration `i` of the loop contributes: the free tokens of `quasis[i]`, the piece
      for `expressions[i]`, and after the last expression the free tokens of the tail. */
  function SpanArgs(ctx: Context, head: string, spans: seq<Span>, i: nat): (r: Result<seq<Node>>)
    requires i < |spans|
    ensures r.Err? <==> Rewrite(ctx, spans[i].expr).Err?
    ensures r.Err? ==> r.error == Rewrite(ctx, spans[i].expr).error
    ensures r.Ok? ==> |r.value| >= 1
    decreases spans, |spans| - i, 0
  {
    var left := QuasiBefore(head, spans, i);
    var right := spans[i].text;
    var free := TokenNodes(ctx, LeftFree(left, i == 0));
    match Rewrite(ctx, spans[i].expr)
    case Err(e) => Err(e)
    case Ok(sub) =>
      var piece := ExprPiece(left, right, spans[i].expr, sub);
      var tail := if i + 1 == |spans| && !IsBlank(right) then TokenNodes(ctx, TailFree(right)) else [];
      Ok(free + piece + tail)
  }

  /** The loop over the embedded expressions from iteration `i` on. Every expression
      contributes at least one node; an exception is the exception of one of them. */
  function TemplateArgs(ctx: Context, head: string, spans: seq<Span>, i: nat): (r: Result<seq<Node>>)
    requires i <= |spans|
    ensures r.Ok? ==> |r.value| >= |spans| - i
    ensures r.Err? ==> exists j :: i <= j < |spans| && Rewrite(ctx, spans[j].expr) == Err(r.error)
    decreases spans, |spans| - i, 1
  {
    if i == |spans| then Ok([])
    else
      match SpanArgs(ctx, head, spans, i)
      case Err(e) => Err(e)
      case Ok(xs) => Prepend(xs, TemplateArgs(ctx, head, spans, i + 1))
  }

  // ---------------------------------------------------------------------------------------
  // CallExpression (lines 232-244)

  /** The arguments of the merge call after the rewrite. An exception is the exception of
      one of the arguments. */
  function CallArgs(ctx: Context, args: seq<Node>): (r: Result<seq<Node>>)
    ensures r.Err? ==> exists j :: 0 <= j < |args| && Rewrite(ctx, args[j]) == Err(r.error)
    decreases args
  {
    if args == [] then Ok([])
    else
      match Rewrite(ctx, args[0])
      case Err(e) => Err(e)
      case Ok(sub) => Prepend(OrSelf(sub, args[0]), CallArgs(ctx, args[1..]))
  }

  // ---------------------------------------------------------------------------------------
  // ConditionalExpression (lines 245-262)

  /** A string literal holding nothing but white space. */
  predicate Blank(n: Node) {
    n.StringLit? && IsBlank(n.value)
  }

  /** The nodes without the blank string literals, in order. */
  function DropBlankStrings(nodes: seq<Node>): (r: seq<Node>)
    ensures |r| <= |nodes|
    ensures forall i :: 0 <= i < |r| ==> r[i] in nodes && !Blank(r[i])
    ensures forall x :: x in nodes && !Blank(x) ==> x in r
  {
    if nodes == [] then []
    else
      (if Blank(nodes[0]) then [] else [nodes[0]]) + DropBlankStrings(nodes[1..])
  }

  /** A branch of the conditional after the rewrite: unchanged on `null`, otherwise the
      rewritten list without blank strings, as one node or as an array. */
  function Branch(sub: Option<seq<Node>>, original: Node): Node {
    match sub
    case None => original
    case Some(nodes) => Wrap(DropBlankStrings(nodes))
  }

  /** A conditional becomes one new conditional with the same test; a branch whose rewrite
      answered `null` is kept as it was. */
  function RewriteConditional(ctx: Context, n: Node): (r: Outcome)
    requires n.Conditional?
    ensures r.Err? <==> Rewrite(ctx, n.consequent).Err? || Rewrite(ctx, n.alternate).Err?
    ensures r.Ok? ==> r.value.Some? && |r.value.value| == 1 && r.value.value[0].Conditional?
    ensures r.Ok? ==> r.value.value[0].test == n.test
    ensures r.Ok? && Rewrite(ctx, n.consequent) == Ok(None) ==> r.value.value[0].consequent == n.consequent
    ensures r.Ok? && Rewrite(ctx, n.alternate) == Ok(None) ==> r.value.value[0].alternate == n.alternate
    decreases n, 0
  {
    match Rewrite(ctx, n.consequent)
    case Err(e) => Err(e)
    case Ok(rc) =>
      match Rewrite(ctx, n.alternate)
      case Err(e) => Err(e)
      case Ok(ra) =>
        Finish([Conditional(n.test, Branch(rc, n.consequent), Branch(ra, n.alternate))])
  }

  // ---------------------------------------------------------------------------------------
  // BinaryExpression (lines 263-301)

  /** `left + right`, collapsed to one side when the other is the empty string literal. */
  function JoinPlus(left: Node, right: Node): Node {
    if left == StringLit("") then right
    else if right == StringLit("") then left
    else Binary("+", left, right)
  }

  /** The arguments of a `+`: all pieces of the left side but its last, all pieces of the
      right side but its first, then the join of those two. */
  function PlusArgs(lefts: seq<Node>, rights: seq<Node>): seq<Node>
    requires lefts != [] && rights != []
  {
    lefts[..|lefts| - 1] + rights[1..] + [JoinPlus(lefts[|lefts| - 1], rights[0])]
  }

  /** Only `+` is supported; a concatenation is never answered with `null`. */
  function RewriteBinary(ctx: Context, n: Node): (r: Outcome)
    requires n.Binary?
    ensures n.op != "+" ==> r == Err(UnsupportedOperator(n.op))
    ensures r.Ok? ==> r.value.Some?
    decreases n, 0
  {
    if n.op != "+" then Err(UnsupportedOperator(n.op))
    else
      match Rewrite(ctx, n.left)
      case Err(e) => Err(e)
      case Ok(lr) =>
        match Rewrite(ctx, n.right)
        case Err(e) => Err(e)
        case Ok(rr) => Finish(PlusArgs(OrSelf(lr, n.left), OrSelf(rr, n.right)))
  }

  // ---------------------------------------------------------------------------------------
  // LogicalExpression (lines 302-314)

  /** A logical expression never throws and becomes one logical expression with the same
      operator and left side; only a string-literal right side is rewritten. */
  function RewriteLogical(ctx: Context, n: Node): (r: Outcome)
    requires n.Logical?
    ensures r.Ok? && r.value.Some? && |r.value.value| == 1
    ensures r.value.value[0].Logical? && r.value.value[0].op == n.op && r.value.value[0].left == n.left
    ensures !n.right.StringLit? ==> r.value.value == [n]
    decreases n, 0
  {
    if n.right.StringLit? then
      match Rewrite(ctx, n.right)
      case Err(e) => Err(e)
      case Ok(None) => Finish([n])
      case Ok(Some(nodes)) => Finish([Logical(n.op, n.left, Wrap(nodes))])
    else Finish([n])
  }

  // ---------------------------------------------------------------------------------------
  // ArrayExpression (lines 315-324)

  /** What the array rewrite pushes for an element rewritten to `nodes`: the single node, or
      the JavaScript array of the nodes itself. */
  function Element(nodes: seq<Node>): Node {
    if |nodes| == 1 then nodes[0] else RawList(nodes)
  }

  /** The elements of the new array: elements whose rewrite is `null` are dropped, a
      rewritten element becomes its `Element`. An exception is the exception of one of the
      elements. */
  function ArrayElements(ctx: Context, elements: seq<Node>): (r: Result<seq<Node>>)
    ensures r.Err? ==> exists j :: 0 <= j < |elements| && Rewrite(ctx, elements[j]) == Err(r.error)
    decreases elements
  {
    if elements == [] then Ok([])
    else
      match Rewrite(ctx, elements[0])
      case Err(e) => Err(e)
      case Ok(None) => ArrayElements(ctx, elements[1..])
      case Ok(Some(nodes)) => Prepend([Element(nodes)], ArrayElements(ctx, elements[1..]))
  }

  // ---------------------------------------------------------------------------------------
  // ObjectExpression (lines 325-357)

  /** One property per node of a rewritten string key, all with the same value; computed
      exactly when the key is a member expression. */
  function KeyProps(keys: seq<Node>, value: Node): (r: seq<Property>)
    ensures |r| == |keys|
    ensures forall i :: 0 <= i < |r| ==> r[i].Prop? && r[i].key == keys[i] && r[i].value == value
    ensures forall i :: 0 <= i < |r| ==> (r[i].computed <==> IsMemberExpression(r[i].key))
  {
    seq(|keys|, i requires 0 <= i < |keys| => Prop(keys[i], value, IsMemberExpression(keys[i])))
  }

  /** The new properties for one property of the object (lines 327-354): a spread element
      has no `key`, and reading `prop.key.type` throws. */
  function PropertyArgs(ctx: Context, prop: Property): (r: Result<seq<Property>>)
    ensures r.Err? <==> prop.SpreadProp?
    ensures r.Ok? ==> |r.value| >= 1
    ensures r.Ok? ==> forall k :: 0 <= k < |r.value| ==> r.value[k].Prop? && r.value[k].value == prop.value
  {
    match prop
    case SpreadProp(_) => Err(PropertyWithoutKey)
    case Prop(key, value, _) =>
      if key.Ident? && Maps(ctx, LocalsConvention(key.name)) then
        Ok([Prop(StyleRef(ctx, LocalsConvention(key.name)), value, true)])
      else if key.StringLit? then
        // the recursive call on a string-literal key takes the StringLiteral branch
        match RewriteString(ctx, key.value).value
        case None => Ok([prop])
        case Some(nodes) => Ok(KeyProps(nodes, value))
      else Ok([prop])
  }

  /** The properties of the new object: none of them is a spread element. */
  function ObjectProperties(ctx: Context, props: seq<Property>): (r: Result<seq<Property>>)
    ensures r.Ok? ==> forall k :: 0 <= k < |r.value| ==> r.value[k].Prop?
    decreases props
  {
    if props == [] then Ok([])
    else
      match PropertyArgs(ctx, props[0])
      case Err(e) => Err(e)
      case Ok(xs) => Prepend(xs, ObjectProperties(ctx, props[1..]))
  }
}
