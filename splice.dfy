/** The loop over the `className` attributes of a file for one style import
    (src/migrate-css-module.mjs:369-425): each attribute value is rewritten and, when the
    rewrite answers with nodes, replaced in place by `{styles.x}` or `{clsx(...)}`. */
module Splice {
  import opened JsText
  import opened Naming
  import opened Ast
  import opened RewriteSpec
  import Transform

  /** The new attribute value for the rewritten nodes: the node itself when it is the only
      one and a member expression (a module reference, or a member access the rewrite left
      alone), a call of the merge function on all of them, in order, otherwise. */
  function Synthesize(ctx: Context, nodes: seq<Node>): (r: AttrValue)
    ensures r.AttrContainer?
    ensures r.expression == Call(Ident(ctx.mergeFn), nodes) || [r.expression] == nodes
    ensures [r.expression] == nodes <==> |nodes| == 1 && IsMemberExpression(nodes[0])
  {
    if |nodes| == 1 && IsMemberExpression(nodes[0]) then AttrContainer(nodes[0])
    else AttrContainer(Call(Ident(ctx.mergeFn), nodes))
  }

  /** The rewrite of what an attribute value holds, with `null` leaving the value as it is. */
  function Replace(ctx: Context, v: AttrValue, res: Outcome): Result<AttrValue> {
    match res
    case Err(e) => Err(e)
    case Ok(None) => Ok(v)
    case Ok(Some(nodes)) => Ok(Synthesize(ctx, nodes))
  }

  /** One attribute: a string is rewritten as a string literal, a container by its
      expression; `node.value.type` throws when the attribute has no value; any other kind
      is reported and left alone. */
  function SpliceValue(ctx: Context, v: AttrValue): (r: Result<AttrValue>)
    ensures v.AttrAbsent? ==> r.Err?
    ensures v.AttrString? || v.AttrOther? ==> r.Ok?
    ensures r.Ok? && r.value != v ==> r.value.AttrContainer?
  {
    match v
    case AttrString(text) => Replace(ctx, v, Rewrite(ctx, StringLit(text)))
    case AttrContainer(expression) => Replace(ctx, v, Rewrite(ctx, expression))
    case AttrAbsent => Err(AttributeWithoutValue)
    case AttrOther(_) => Ok(v)
  }

  /** The attribute values after the loop, and the exception that ended it early, if any. */
  datatype PassResult = PassResult(vals: seq<AttrValue>, failure: Option<RewriteError>)

  /** The loop, head first: every value up to the first one that throws is replaced, that
      one and the ones after it keep their old values. */
  function SplicePass(ctx: Context, vals: seq<AttrValue>): (p: PassResult)
    ensures |p.vals| == |vals|
  {
    if vals == [] then PassResult([], None)
    else
      match SpliceValue(ctx, vals[0])
      case Err(e) => PassResult(vals, Some(e))
      case Ok(v) =>
        var rest := SplicePass(ctx, vals[1..]);
        PassResult([v] + rest.vals, rest.failure)
  }

  function PrependPass(done: seq<AttrValue>, p: PassResult): PassResult {
    PassResult(done + p.vals, p.failure)
  }

  /** One step of the loop: a value that is replaced moves to the done part. */
  lemma PassStep(ctx: Context, done: seq<AttrValue>, rest: seq<AttrValue>, v: AttrValue)
    requires rest != [] && SpliceValue(ctx, rest[0]) == Ok(v)
    ensures PrependPass(done, SplicePass(ctx, rest)) == PrependPass(done + [v], SplicePass(ctx, rest[1..]))
  {
    var tail := SplicePass(ctx, rest[1..]);
    assert SplicePass(ctx, rest) == PassResult([v] + tail.vals, tail.failure);
    assert done + ([v] + tail.vals) == done + [v] + tail.vals;
  }

  /** A value that throws ends the loop with it and the rest untouched. */
  lemma PassStop(ctx: Context, done: seq<AttrValue>, rest: seq<AttrValue>, e: RewriteError)
    requires rest != [] && SpliceValue(ctx, rest[0]) == Err(e)
    ensures PrependPass(done, SplicePass(ctx, rest)) == PassResult(done + rest, Some(e))
  {
  }

  /** The body of the loop for one attribute (lines 370-420). */
  method SpliceOne(ctx: Context, node: AttrValue) returns (res: Result<AttrValue>)
    ensures res == SpliceValue(ctx, node)
  {
    var transformRes: Outcome;
    match node {
      case AttrString(text) =>
        transformRes := Transform.TransformClassName(ctx, StringLit(text));
      case AttrContainer(expression) =>
        transformRes := Transform.TransformClassName(ctx, expression);
      case AttrAbsent =>
        return Err(AttributeWithoutValue);
      case AttrOther(_) =>
        return Ok(node);
    }
    if transformRes.Err? {
      return Err(transformRes.error);
    }
    res := Ok(node);
    if transformRes.value.Some? {
      var nodes := transformRes.value.value;
      if |nodes| == 1 && (nodes[0].Member? || nodes[0].ComputedMember?) {
        res := Ok(AttrContainer(nodes[0]));
      } else {
        res := Ok(AttrContainer(Call(Ident(ctx.mergeFn), nodes)));
      }
    }
  }

  /** The loop over the attribute paths: `node.value = ...` writes into the array. */
  method SpliceAttributes(ctx: Context, attrs: array<AttrValue>) returns (failure: Option<RewriteError>)
    modifies attrs
    ensures SplicePass(ctx, old(attrs[..])) == PassResult(attrs[..], failure)
  {
    ghost var vals := attrs[..];
    var i := 0;
    assert vals[0..] == vals;
    while i < attrs.Length
      invariant 0 <= i <= attrs.Length
      invariant attrs[i..] == vals[i..]
      invariant SplicePass(ctx, vals) == PrependPass(attrs[..i], SplicePass(ctx, vals[i..]))
    {
      assert vals[i..][0] == vals[i] && vals[i..][1..] == vals[i + 1..];
      var res := SpliceOne(ctx, attrs[i]);
      if res.Err? {
        PassStop(ctx, attrs[..i], vals[i..], res.error);
        assert attrs[..] == attrs[..i] + vals[i..];
        return Some(res.error);
      }
      ghost var done := attrs[..i];
      PassStep(ctx, done, vals[i..], res.value);
      attrs[i] := res.value;
      assert attrs[..i + 1] == done + [res.value];
      assert attrs[i + 1..] == vals[i + 1..];
      i := i + 1;
    }
    assert attrs[..i] == attrs[..];
    assert vals[i..] == [];
    failure := None;
  }
}
