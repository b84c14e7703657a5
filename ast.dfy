/** The values the className rewrite works on: expression nodes of the parsed script, the
    attribute values it splices into, the per-import context and the outcome of a rewrite. */
module Ast {
  import opened Naming

  /** An expression node, one constructor per node kind the rewrite tells apart. */
  datatype Node =
    | StringLit(value: string)
      /** A template literal: its first static part, then each embedded expression with the
          static part that follows it, so there is always one more static part than there
          are expressions. The parts are the cooked values. */
    | Template(head: string, spans: seq<Span>)
    | Call(callee: Node, arguments: seq<Node>)
    | Conditional(test: Node, consequent: Node, alternate: Node)
    | Binary(op: string, left: Node, right: Node)
    | Logical(op: string, left: Node, right: Node)
    | ArrayExpr(elements: seq<Node>)
    | ObjectExpr(properties: seq<Property>)
    | Ident(name: string)
      /** A non-computed member access `object.property`. */
    | Member(object: Node, property: string)
      /** A computed member access `object[property]`: also a MemberExpression. */
    | ComputedMember(object: Node, computedProperty: Node)
    | NullLit
    | NumericLit(raw: string)
    | BooleanLit(truth: bool)
      /** A plain JavaScript array of nodes standing where a node belongs: the array rewrite
          pushes the list of an element's replacement nodes itself, not an array expression
          around them. It has no `type` tag. */
    | RawList(items: seq<Node>)
      /** Any other kind (a spread element, a JSX empty expression, ...), named by its type
          tag. */
    | OtherExpr(kind: string)

  /** `node.type === 'MemberExpression'`: computed or not. */
  predicate IsMemberExpression(n: Node) {
    n.Member? || n.ComputedMember?
  }

  /** An embedded expression of a template literal and the static part after it. */
  datatype Span = Span(expr: Node, text: string)

  /** An object-literal member: a property with its key, value and computed flag,
      or a spread `...argument`, which has no key. */
  datatype Property = Prop(key: Node, value: Node, computed: bool) | SpreadProp(argument: Node)

  /** The static part of a template literal in front of its `i`-th embedded expression. */
  function QuasiBefore(head: string, spans: seq<Span>, i: nat): string
    requires i <= |spans|
  {
    if i == 0 then head else spans[i - 1].text
  }

  /** The value of a `className` JSX attribute: a string, an expression container, no value
      at all (`<div className />`), or another JSX value kind. */
  datatype AttrValue =
    | AttrString(text: string)
    | AttrContainer(expression: Node)
    | AttrAbsent
    | AttrOther(kind: string)

  /** What the rewrite of one style import sees: the class map of that style sheet (local
      name to compiled name), the style-object identifier and the merge-function name. */
  datatype Context = Context(classMap: map<string, string>, styleObj: string, mergeFn: string)

  /** The members of `Object.prototype`: `classNameMap[k]` finds these on every plain
      object, whether or not the style sheet has the class. */
  const InheritedKeys: set<string> := {
    "constructor", "hasOwnProperty", "isPrototypeOf", "propertyIsEnumerable",
    "toLocaleString", "toString", "valueOf", "__proto__", "__defineGetter__",
    "__defineSetter__", "__lookupGetter__", "__lookupSetter__"
  }

  /** `classNameMap[local]` is truthy: an own key with a non-empty compiled name, or no own
      key and an inherited member of that name. */
  predicate Maps(ctx: Context, local: string) {
    if local in ctx.classMap then ctx.classMap[local] != "" else local in InheritedKeys
  }

  /** `styles.<local>`: the module reference of a mapped class. */
  function StyleRef(ctx: Context, local: string): Node {
    Member(Ident(ctx.styleObj), local)
  }

  function TokenNode(ctx: Context, token: string): Node {
    var local := LocalsConvention(token);
    if Maps(ctx, local) then StyleRef(ctx, local) else StringLit(token)
  }

  /** One node per class token, in order: a module reference for a token whose local name
      maps, the token as a string literal otherwise. */
  function TokenNodes(ctx: Context, tokens: seq<string>): seq<Node> {
    seq(|tokens|, i requires 0 <= i < |tokens| => TokenNode(ctx, tokens[i]))
  }

  /** Why a rewrite is abandoned (the source throws). */
  datatype RewriteError =
      /** A call whose callee is not the merge function (lines 233-235). */
    | UnknownCallee(callee: Node)
      /** A binary operator other than `+` (lines 266-267). */
    | UnsupportedOperator(op: string)
      /** A spread member of an object literal: reading `prop.key.type` throws. */
    | PropertyWithoutKey
      /** A `className` attribute without value: reading `node.value.type` throws. */
    | AttributeWithoutValue

  datatype Option<T> = None | Some(value: T)

  datatype Result<T> = Ok(value: T) | Err(error: RewriteError)

  /** A rewrite either throws, answers `null` (leave the node alone), or gives the list of
      argument nodes that replaces it. */
  type Outcome = Result<Option<seq<Node>>>
}
