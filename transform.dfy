/** `transformClassNameAttributeNodeValue` (src/migrate-css-module.mjs:159-367) as the source
    runs it: one method per node kind, accumulating `collectArguments` in loops and building
    the new nodes field by field. Each method is proved to compute what `Rewrite` specifies. */
module Transform {
  import opened JsText
  import opened Naming
  import opened Ast
  import opened RewriteSpec

  /** `classList.forEach(className => collectArguments.push(...))` (lines 169-176 and the
      helper `prcessQuasisClassList`, 189-198). */
  method PushTokens(ctx: Context, collect: seq<Node>, classList: seq<string>) returns (out: seq<Node>)
    ensures out == collect + TokenNodes(ctx, classList)
  {
    out := collect;
    var i := 0;
    while i < |classList|
      invariant 0 <= i <= |classList|
      invariant out == collect + TokenNodes(ctx, classList[..i])
    {
      var className := classList[i];
      var localName := LocalsConvention(className);
      if Maps(ctx, localName) {
        out := out + [StyleRef(ctx, localName)];
      } else {
        out := out + [StringLit(className)];
      }
      assert TokenNodes(ctx, classList[..i + 1]) == TokenNodes(ctx, classList[..i]) + [TokenNode(ctx, className)];
      i := i + 1;
    }
    assert classList[..i] == classList;
  }

  method TransformClassName(ctx: Context, value: Node) returns (r: Outcome)
    ensures r == Rewrite(ctx, value)
    decreases value, 1
  {
    match value
    case StringLit(s) =>
      var classList := SplitWs(s);
      if AnyMapped(ctx, classList) {
        var collect := PushTokens(ctx, [], classList);
        assert collect == TokenNodes(ctx, classList);
        r := Finish(collect);
      } else {
        r := Ok(None);
      }
    case Template(_, _) => r := TransformTemplate(ctx, value);
    case Call(_, _) => r := TransformCall(ctx, value);
    case Conditional(_, _, _) => r := TransformConditional(ctx, value);
    case Binary(_, _, _) => r := TransformBinary(ctx, value);
    case Logical(_, _, _) => r := TransformLogical(ctx, value);
    case ArrayExpr(_) => r := TransformArray(ctx, value);
    case ObjectExpr(_) => r := TransformObject(ctx, value);
    case _ => r := Ok(None);
  }

  /** The static part before an expression as its own class names: split, empty pieces
      dropped, the first shifted off when it touches the previous expression and the last
      popped when it touches the next one (lines 200-202). */
  method LeftClassList(leftQuasis: string, first: bool) returns (leftClassList: seq<string>)
    ensures leftClassList == LeftFree(leftQuasis, first)
  {
    leftClassList := Tokens(leftQuasis);
    if !first && !StartsWs(leftQuasis) {
      leftClassList := DropFirst(leftClassList);
    }
    if !EndsWs(leftQuasis) {
      leftClassList := DropLast(leftClassList);
    }
  }

  /** The new nodes for one embedded expression (lines 207-223). */
  method ExpressionPiece(leftQuasis: string, rightQuasis: string, expression: Node, transRes: Option<seq<Node>>)
    returns (piece: seq<Node>)
    ensures piece == ExprPiece(leftQuasis, rightQuasis, expression, transRes)
  {
    if !EndsWs(leftQuasis) || !StartsWs(rightQuasis) {
      var leftStr := if EndsWs(leftQuasis) then "" else SplitWs(leftQuasis)[|SplitWs(leftQuasis)| - 1];
      var rightStr := if StartsWs(rightQuasis) then "" else SplitWs(rightQuasis)[0];
      var inner := expression;
      if transRes.Some? {
        var nodes := transRes.value;
        inner := if |nodes| == 1 then nodes[0] else ArrayExpr(nodes);
      }
      piece := [Template(leftStr, [Span(inner, rightStr)])];
    } else if transRes.Some? {
      piece := transRes.value;
    } else {
      piece := [expression];
    }
  }

  /** The trailing static part's class names, emitted after the last expression only
      (lines 226-230). */
  method TailClassList(rightQuasis: string, last: bool) returns (rightClassList: seq<string>)
    ensures rightClassList == if last && !IsBlank(rightQuasis) then TailFree(rightQuasis) else []
  {
    rightClassList := [];
    if last && !IsBlank(rightQuasis) {
      rightClassList := Tokens(rightQuasis);
      if !StartsWs(rightQuasis) {
        rightClassList := DropFirst(rightClassList);
      }
    }
  }

  /** One iteration of the loop over the embedded expressions (lines 187-231). */
  method TransformSpan(ctx: Context, value: Node, i: nat) returns (res: Result<seq<Node>>)
    requires value.Template? && i < |value.spans|
    ensures res == SpanArgs(ctx, value.head, value.spans, i)
    decreases value, 0, i
  {
    var spans := value.spans;
    var leftQuasis := QuasiBefore(value.head, spans, i);
    var rightQuasis := spans[i].text;
    var expression := spans[i].expr;
    assert expression < value;

    var leftClassList := LeftClassList(leftQuasis, i == 0);
    var collect := PushTokens(ctx, [], leftClassList);
    assert collect == TokenNodes(ctx, leftClassList);
    var transRes := TransformClassName(ctx, expression);
    if transRes.Err? {
      return Err(transRes.error);
    }
    var piece := ExpressionPiece(leftQuasis, rightQuasis, expression, transRes.value);
    collect := collect + piece;
    var rightClassList := TailClassList(rightQuasis, i + 1 == |spans|);
    collect := PushTokens(ctx, collect, rightClassList);
    assert collect == TokenNodes(ctx, leftClassList) + piece + TokenNodes(ctx, rightClassList);
    res := Ok(collect);
  }

  method TransformTemplate(ctx: Context, value: Node) returns (r: Outcome)
    requires value.Template?
    ensures r == Collected(TemplateArgs(ctx, value.head, value.spans, 0))
    decreases value, 0
  {
    var spans := value.spans;
    var collect: seq<Node> := [];
    var i := 0;
    PrependToNothing(TemplateArgs(ctx, value.head, spans, 0));
    while i < |spans|
      invariant 0 <= i <= |spans|
      invariant TemplateArgs(ctx, value.head, spans, 0) == Prepend(collect, TemplateArgs(ctx, value.head, spans, i))
    {
      var spanRes := TransformSpan(ctx, value, i);
      if spanRes.Err? {
        return Err(spanRes.error);
      }
      PrependAll(collect, spanRes.value, TemplateArgs(ctx, value.head, spans, i + 1));
      collect := collect + spanRes.value;
      i := i + 1;
    }
    PrependNothing(collect);
    r := Finish(collect);
  }

  method TransformCall(ctx: Context, value: Node) returns (r: Outcome)
    requires value.Call?
    ensures r == Rewrite(ctx, value)
    decreases value, 0
  {
    if value.callee != Ident(ctx.mergeFn) {
      return Err(UnknownCallee(value.callee));
    }
    var args := value.arguments;
    var collect: seq<Node> := [];
    var i := 0;
    assert args[0..] == args;
    PrependToNothing(CallArgs(ctx, args));
    while i < |args|
      invariant 0 <= i <= |args|
      invariant CallArgs(ctx, args) == Prepend(collect, CallArgs(ctx, args[i..]))
    {
      assert args[i..][0] == args[i] && args[i..][1..] == args[i + 1..];
      var arg := args[i];
      assert arg < value;
      var transformRes := TransformClassName(ctx, arg);
      if transformRes.Err? {
        return Err(transformRes.error);
      }
      var before := collect;
      if transformRes.value.Some? {
        collect := collect + transformRes.value.value;
      } else {
        collect := collect + [arg];
      }
      PrependAll(before, OrSelf(transformRes.value, arg), CallArgs(ctx, args[i + 1..]));
      i := i + 1;
    }
    PrependNothing(collect);
    r := Finish(collect);
  }

  method TransformConditional(ctx: Context, value: Node) returns (r: Outcome)
    requires value.Conditional?
    ensures r == RewriteConditional(ctx, value)
    decreases value, 0
  {
    var newExpression := Conditional(value.test, NullLit, NullLit);
    var leftTransformRes := TransformClassName(ctx, value.consequent);
    if leftTransformRes.Err? {
      return Err(leftTransformRes.error);
    }
    if leftTransformRes.value.Some? {
      var kept := DropBlankStrings(leftTransformRes.value.value);
      newExpression := newExpression.(consequent := if |kept| == 1 then kept[0] else ArrayExpr(kept));
    } else {
      newExpression := newExpression.(consequent := value.consequent);
    }
    assert newExpression == Conditional(value.test, Branch(leftTransformRes.value, value.consequent), NullLit);
    var rightTransformRes := TransformClassName(ctx, value.alternate);
    if rightTransformRes.Err? {
      return Err(rightTransformRes.error);
    }
    if rightTransformRes.value.Some? {
      var kept := DropBlankStrings(rightTransformRes.value.value);
      newExpression := newExpression.(alternate := if |kept| == 1 then kept[0] else ArrayExpr(kept));
    } else {
      newExpression := newExpression.(alternate := value.alternate);
    }
    assert newExpression == Conditional(value.test, Branch(leftTransformRes.value, value.consequent),
                                        Branch(rightTransformRes.value, value.alternate));
    r := Finish([newExpression]);
  }

  method TransformBinary(ctx: Context, value: Node) returns (r: Outcome)
    requires value.Binary?
    ensures r == RewriteBinary(ctx, value)
    decreases value, 0
  {
    if value.op != "+" {
      return Err(UnsupportedOperator(value.op));
    }
    var leftTransRes := TransformClassName(ctx, value.left);
    if leftTransRes.Err? {
      return Err(leftTransRes.error);
    }
    var rightTransRes := TransformClassName(ctx, value.right);
    if rightTransRes.Err? {
      return Err(rightTransRes.error);
    }
    var collect := JoinBinary(value, leftTransRes.value, rightTransRes.value);
    r := Finish(collect);
  }

  /** Lines 271-299: the left side's pieces but the last, the right side's pieces but the
      first, then a new `+` of the two, collapsed around an empty string literal. */
  method JoinBinary(value: Node, leftTransRes: Option<seq<Node>>, rightTransRes: Option<seq<Node>>)
    returns (collect: seq<Node>)
    requires value.Binary? && value.op == "+"
    requires leftTransRes.Some? ==> leftTransRes.value != []
    requires rightTransRes.Some? ==> rightTransRes.value != []
    ensures collect == PlusArgs(OrSelf(leftTransRes, value.left), OrSelf(rightTransRes, value.right))
  {
    collect := [];
    // the new `+` node's sides, filled in as the source assigns them
    var newLeft, newRight := NullLit, NullLit;
    if leftTransRes.Some? {
      var nodes := leftTransRes.value;
      if |nodes| > 1 {
        collect := collect + nodes[..|nodes| - 1];
      }
      newLeft := nodes[|nodes| - 1];
    } else {
      newLeft := value.left;
    }
    if rightTransRes.Some? {
      var nodes := rightTransRes.value;
      newRight := nodes[0];
      if |nodes| > 1 {
        collect := collect + nodes[1..];
      }
    } else {
      newRight := value.right;
    }
    var joined := Binary(value.op, newLeft, newRight);
    if newLeft == StringLit("") || newRight == StringLit("") {
      if newLeft == StringLit("") {
        joined := newRight;
      } else {
        joined := newLeft;
      }
    }
    collect := collect + [joined];
  }

  method TransformLogical(ctx: Context, value: Node) returns (r: Outcome)
    requires value.Logical?
    ensures r == RewriteLogical(ctx, value)
    decreases value, 0
  {
    if value.right.StringLit? {
      // a string literal's rewrite never throws
      var rightTransformRes := TransformClassName(ctx, value.right);
      if rightTransformRes.value.Some? {
        var nodes := rightTransformRes.value.value;
        var replacement := if |nodes| == 1 then nodes[0] else ArrayExpr(nodes);
        r := Finish([Logical(value.op, value.left, replacement)]);
      } else {
        r := Finish([value]);
      }
    } else {
      r := Finish([value]);
    }
  }

  method TransformArray(ctx: Context, value: Node) returns (r: Outcome)
    requires value.ArrayExpr?
    ensures r == Rewrite(ctx, value)
    decreases value, 0
  {
    var elements := value.elements;
    var newElements: seq<Node> := [];
    var i := 0;
    assert elements[0..] == elements;
    PrependToNothing(ArrayElements(ctx, elements));
    while i < |elements|
      invariant 0 <= i <= |elements|
      invariant ArrayElements(ctx, elements) == Prepend(newElements, ArrayElements(ctx, elements[i..]))
    {
      assert elements[i..][0] == elements[i] && elements[i..][1..] == elements[i + 1..];
      var element := elements[i];
      assert element < value;
      var transformRes := TransformClassName(ctx, element);
      if transformRes.Err? {
        return Err(transformRes.error);
      }
      if transformRes.value.Some? {
        var nodes := transformRes.value.value;
        var before := newElements;
        newElements := newElements + [if |nodes| == 1 then nodes[0] else RawList(nodes)];
        PrependAll(before, [Element(nodes)], ArrayElements(ctx, elements[i + 1..]));
      }
      i := i + 1;
    }
    PrependNothing(newElements);
    r := Finish([ArrayExpr(newElements)]);
  }

  /** `transRes.forEach(i => newObj.properties.push(...))` (lines 338-344). */
  method KeyProperties(nodes: seq<Node>, value: Node) returns (newProps: seq<Property>)
    ensures newProps == KeyProps(nodes, value)
  {
    newProps := [];
    var k := 0;
    while k < |nodes|
      invariant 0 <= k <= |nodes|
      invariant newProps == KeyProps(nodes[..k], value)
    {
      var node := nodes[k];
      newProps := newProps + [Prop(node, value, node.Member? || node.ComputedMember?)];
      assert KeyProps(nodes[..k + 1], value) == KeyProps(nodes[..k], value) + [Prop(node, value, node.Member? || node.ComputedMember?)];
      k := k + 1;
    }
    assert nodes[..k] == nodes;
  }

  /** The body of the loop over the properties for one property (lines 327-354). */
  method TransformProperty(ctx: Context, value: Node, i: nat) returns (res: Result<seq<Property>>)
    requires value.ObjectExpr? && i < |value.properties|
    ensures res == PropertyArgs(ctx, value.properties[i])
    decreases value, 0, i
  {
    var prop := value.properties[i];
    if prop.SpreadProp? {
      return Err(PropertyWithoutKey);
    }
    if prop.key.Ident? && Maps(ctx, LocalsConvention(prop.key.name)) {
      var localName := LocalsConvention(prop.key.name);
      return Ok([Prop(StyleRef(ctx, localName), prop.value, true)]);
    } else if prop.key.StringLit? {
      assert prop.key < value;
      var transRes := TransformClassName(ctx, prop.key);
      if transRes.value.Some? {
        var newProps := KeyProperties(transRes.value.value, prop.value);
        return Ok(newProps);
      }
    }
    return Ok([prop]);
  }

  lemma ObjectStep(ctx: Context, props: seq<Property>, i: nat, done: seq<Property>)
    requires i < |props|
    ensures var step := PropertyArgs(ctx, props[i]);
      var here := Prepend(done, ObjectProperties(ctx, props[i..]));
      (step.Err? ==> here == Err(step.error))
      && (step.Ok? ==> here == Prepend(done + step.value, ObjectProperties(ctx, props[i + 1..])))
  {
    assert props[i..][0] == props[i] && props[i..][1..] == props[i + 1..];
    var step := PropertyArgs(ctx, props[i]);
    if step.Ok? {
      PrependAll(done, step.value, ObjectProperties(ctx, props[i + 1..]));
    }
  }

  method TransformObject(ctx: Context, value: Node) returns (r: Outcome)
    requires value.ObjectExpr?
    ensures r == Rewrite(ctx, value)
    decreases value, 0
  {
    var props := value.properties;
    var newProps: seq<Property> := [];
    var i := 0;
    assert props[0..] == props;
    PrependToNothing(ObjectProperties(ctx, props));
    while i < |props|
      invariant 0 <= i <= |props|
      invariant ObjectProperties(ctx, props) == Prepend(newProps, ObjectProperties(ctx, props[i..]))
    {
      ObjectStep(ctx, props, i, newProps);
      var propRes := TransformProperty(ctx, value, i);
      if propRes.Err? {
        return Err(propRes.error);
      }
      newProps := newProps + propRes.value;
      i := i + 1;
    }
    PrependNothing(newProps);
    r := Finish([ObjectExpr(newProps)]);
  }
}
