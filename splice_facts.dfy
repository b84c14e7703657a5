/** Properties of the attribute splice (src/migrate-css-module.mjs:369-425), stated over the
    functions of `Splice`. */
module SpliceFacts {
  import opened JsText
  import opened Naming
  import opened Ast
  import opened RewriteSpec
  import opened RewriteFacts
  import opened Splice

  /** What the splice writes for a node that the rewrite answered: `null` leaves the value
      as it is, a lone member expression (`styles.x`, `a.b` or `a[k]`) becomes the value's
      expression, anything else a call of the merge function on exactly the returned nodes,
      in order; an exception is passed on. */
  lemma ReplaceShapes(ctx: Context, v: AttrValue, res: Outcome)
    ensures res == Ok(None) ==> Replace(ctx, v, res) == Ok(v)
    ensures res.Err? ==> Replace(ctx, v, res) == Err(res.error)
    ensures res.Ok? && res.value.Some? && |res.value.value| == 1 && IsMemberExpression(res.value.value[0]) ==>
      Replace(ctx, v, res) == Ok(AttrContainer(res.value.value[0]))
    ensures res.Ok? && res.value.Some? && !(|res.value.value| == 1 && IsMemberExpression(res.value.value[0])) ==>
      Replace(ctx, v, res) == Ok(AttrContainer(Call(Ident(ctx.mergeFn), res.value.value)))
  {
  }

  /** A merge call around a lone computed member access is unwrapped: the access is kept by
      the rewrite, and a single member expression needs no merge call. */
  lemma LoneMemberUnwrapped(ctx: Context, obj: Node, key: Node)
    ensures SpliceValue(ctx, AttrContainer(Call(Ident(ctx.mergeFn), [ComputedMember(obj, key)])))
            == Ok(AttrContainer(ComputedMember(obj, key)))
  {
    var m := ComputedMember(obj, key);
    assert Rewrite(ctx, m) == Ok(None);
    assert [m][1..] == [];
    assert CallArgs(ctx, [m]) == Prepend([m], CallArgs(ctx, []));
  }

  /** A single class name the sheet has becomes its module reference, written as a string
      attribute or as a string expression. */
  lemma SingleMappedClass(ctx: Context, c: string)
    requires WsFree(c) && Maps(ctx, LocalsConvention(c))
    ensures SpliceValue(ctx, AttrString(c)) == Ok(AttrContainer(StyleRef(ctx, LocalsConvention(c))))
    ensures SpliceValue(ctx, AttrContainer(StringLit(c))) == Ok(AttrContainer(StyleRef(ctx, LocalsConvention(c))))
  {
    SingleClass(ctx, c);
  }

  /** A string expression of several classes, one of which the sheet has, becomes a call of
      the merge function on one node per class. */
  lemma SeveralClassesMerged(ctx: Context, s: string)
    requires AnyMapped(ctx, SplitWs(s)) && |SplitWs(s)| != 1
    ensures SpliceValue(ctx, AttrContainer(StringLit(s)))
            == Ok(AttrContainer(Call(Ident(ctx.mergeFn), TokenNodes(ctx, SplitWs(s)))))
  {
    StringNodes(ctx, s);
  }

  /** The pass stops at no value exactly when every value splices without an exception;
      then every value is replaced by its own splice. */
  lemma {:induction false} SplicePassComplete(ctx: Context, vals: seq<AttrValue>)
    ensures SplicePass(ctx, vals).failure.None?
            <==> forall i :: 0 <= i < |vals| ==> SpliceValue(ctx, vals[i]).Ok?
    ensures SplicePass(ctx, vals).failure.None? ==>
      forall i :: 0 <= i < |vals| ==> SplicePass(ctx, vals).vals[i] == SpliceValue(ctx, vals[i]).value
    decreases vals
  {
    if vals != [] {
      SplicePassComplete(ctx, vals[1..]);
      if SpliceValue(ctx, vals[0]).Ok? {
        var p := SplicePass(ctx, vals);
        var rest := SplicePass(ctx, vals[1..]);
        assert p.vals == [SpliceValue(ctx, vals[0]).value] + rest.vals;
        assert forall i :: 1 <= i < |vals| ==> vals[1..][i - 1] == vals[i];
        if rest.failure.None? {
          forall i | 0 <= i < |vals|
            ensures p.vals[i] == SpliceValue(ctx, vals[i]).value
          {
            if i > 0 {
              assert p.vals[i] == rest.vals[i - 1];
            }
          }
        } else {
          var j :| 0 <= j < |vals[1..]| && !SpliceValue(ctx, vals[1..][j]).Ok?;
          assert !SpliceValue(ctx, vals[j + 1]).Ok?;
        }
      }
    }
  }

  /** The pass stopped at value `j` with exception `e`: the values before it splice without
      an exception and were replaced, it throws `e`, it and the ones after it are kept. */
  predicate StopsAt(ctx: Context, vals: seq<AttrValue>, out: seq<AttrValue>, e: RewriteError, j: nat) {
    |out| == |vals| && j < |vals|
    && SpliceValue(ctx, vals[j]) == Err(e)
    && (forall i :: 0 <= i < j ==> SpliceValue(ctx, vals[i]).Ok? && out[i] == SpliceValue(ctx, vals[i]).value)
    && out[j..] == vals[j..]
  }

  /** When the pass stops, it stops at the first value whose splice throws, with that
      exception. */
  lemma {:induction false} SplicePassStops(ctx: Context, vals: seq<AttrValue>)
    ensures SplicePass(ctx, vals).failure.Some? ==>
      exists j: nat :: StopsAt(ctx, vals, SplicePass(ctx, vals).vals, SplicePass(ctx, vals).failure.value, j)
    decreases vals
  {
    if vals != [] {
      var p := SplicePass(ctx, vals);
      if SpliceValue(ctx, vals[0]).Err? {
        assert StopsAt(ctx, vals, p.vals, p.failure.value, 0);
      } else {
        SplicePassStops(ctx, vals[1..]);
        var rest := SplicePass(ctx, vals[1..]);
        if rest.failure.Some? {
          var j: nat :| StopsAt(ctx, vals[1..], rest.vals, rest.failure.value, j);
          StopsAtShift(ctx, vals, rest.vals, rest.failure.value, j, SpliceValue(ctx, vals[0]).value);
          assert p.vals == [SpliceValue(ctx, vals[0]).value] + rest.vals;
        }
      }
    }
  }

  lemma StopsAtShift(ctx: Context, vals: seq<AttrValue>, out: seq<AttrValue>, e: RewriteError, j: nat, v: AttrValue)
    requires vals != [] && SpliceValue(ctx, vals[0]) == Ok(v)
    requires StopsAt(ctx, vals[1..], out, e, j)
    ensures StopsAt(ctx, vals, [v] + out, e, j + 1)
  {
    var o := [v] + out;
    forall i | 0 <= i < j + 1
      ensures SpliceValue(ctx, vals[i]).Ok? && o[i] == SpliceValue(ctx, vals[i]).value
    {
      if i > 0 {
        assert vals[i] == vals[1..][i - 1];
        assert o[i] == out[i - 1];
      }
    }
    assert vals[j + 1] == vals[1..][j];
    assert o[j + 1..] == out[j..];
    assert vals[j + 1..] == vals[1..][j..];
  }

  /** The nodes of a string rewrite splice back to themselves: each one is a module
      reference or an unmapped class name, which the rewrite answers with `null`. */
  lemma TokenNodesUnmapped(ctx: Context, tokens: seq<string>)
    requires forall i :: 0 <= i < |tokens| ==> WsFree(tokens[i])
    ensures forall i :: 0 <= i < |tokens| ==> Rewrite(ctx, TokenNodes(ctx, tokens)[i]) == Ok(None)
  {
    forall i | 0 <= i < |tokens|
      ensures Rewrite(ctx, TokenNodes(ctx, tokens)[i]) == Ok(None)
    {
      var t := tokens[i];
      if !Maps(ctx, LocalsConvention(t)) {
        SingleClass(ctx, t);
      }
    }
  }

  /** Splicing a string attribute a second time with the same sheet changes nothing: the
      rewrite of a string is idempotent. */
  lemma StringSpliceIdempotent(ctx: Context, text: string)
    ensures SpliceValue(ctx, AttrString(text)).Ok?
    ensures var v := SpliceValue(ctx, AttrString(text)).value;
      SpliceValue(ctx, v) == Ok(v)
  {
    var parts := SplitWs(text);
    if AnyMapped(ctx, parts) {
      var nodes := TokenNodes(ctx, parts);
      assert Rewrite(ctx, StringLit(text)) == Ok(Some(nodes));
      if |nodes| == 1 && IsMemberExpression(nodes[0]) {
        MemberKept(ctx, nodes[0]);
      } else {
        TokenNodesUnmapped(ctx, parts);
        MergeCallKept(ctx, nodes);
      }
    }
  }

  /** A member expression is left alone by the rewrite, so splicing it changes nothing. */
  lemma MemberKept(ctx: Context, m: Node)
    requires IsMemberExpression(m)
    ensures SpliceValue(ctx, AttrContainer(m)) == Ok(AttrContainer(m))
  {
    assert Rewrite(ctx, m) == Ok(None);
  }

  /** A merge call on nodes the rewrite leaves alone is spliced into itself. */
  lemma MergeCallKept(ctx: Context, nodes: seq<Node>)
    requires nodes != [] && !(|nodes| == 1 && IsMemberExpression(nodes[0]))
    requires forall i :: 0 <= i < |nodes| ==> Rewrite(ctx, nodes[i]) == Ok(None)
    ensures var c := AttrContainer(Call(Ident(ctx.mergeFn), nodes)); SpliceValue(ctx, c) == Ok(c)
  {
    UnmappedArgsKept(ctx, nodes);
    assert Rewrite(ctx, Call(Ident(ctx.mergeFn), nodes)) == Ok(Some(nodes));
  }
}
