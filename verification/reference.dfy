/** A pure reading of what the compiler produces: the SQL text of a node
    compiled under a caller's precedence, and the literal parameters it binds,
    left to right. No scopes and no list store: the caller's precedence is an
    argument and the parameters are a returned sequence. Each function here
    follows one function of module Compiler. */
module Reference {
  import opened Results
  import opened Precedences
  import opened Ast
  import opened Strings
  import Classes

  /** Text and parameters. */
  type Out<T> = Result<(T, seq<Expr>), Error>

  /** A node under the caller's precedence: bracketed exactly when the node
      binds less tightly than the caller. */
  function Render(e: Expr, caller: Prec): Out<string>
    decreases Size(e), 2
  {
    Bracket(PrecOf(e), caller, RenderBody(e, caller))
  }

  /** Brackets around the text of a node of precedence p under a caller of
      precedence caller, when p is below caller. */
  function Bracket(p: Prec, caller: Prec, body: Out<string>): Out<string>
  {
    var b :- body;
    Ok((if Less(p, caller) then "(" + b.0 + ")" else b.0, b.1))
  }

  /** The text a handler produces for a node, before any bracketing. Operands
      are rendered under the node's own precedence. */
  function RenderBody(e: Expr, caller: Prec): Out<string>
    decreases Size(e), 1
  {
    match e
    case Lit(_) => Ok(("?", [e]))
    case Null => Ok(("NULL", []))
    case Unary(k, x) => RenderUnary(k, x, PrecOf(e))
    case Binary(k, l, r) =>
      if k == Equal then RenderComparison(e, caller, "=", Is)
      else if k == NotEqual then RenderComparison(e, caller, "!=", IsNot)
      else RenderInfix(l, BinaryText(k), r, PrecOf(e))
    case Chain(k, es) => RenderChain(k, es, PrecOf(e))
    case Call(f, args) => RenderCall(f, args, PrecOf(e))
    case TableRef(name) => Ok((name, []))
    case ColumnRef(_, _) => Err(KeyError(Classes.Name(Classes.Column)))
    case Select(_, _, _, _, _, _, _, _) => RenderSelect(e)
    case SetOp(k, l, r) => RenderInfix(l, SetText(k), r, PrecOf(e))
  }

  function RenderUnary(k: UnaryKind, x: Expr, p: Prec): Out<string>
    decreases Size(x) + 1, 0
  {
    var y :- Render(x, p);
    Ok((UnaryText(k) + y.0, y.1))
  }

  function RenderChain(k: ChainKind, es: seq<Expr>, p: Prec): Out<string>
    decreases SizeSeq(es) + 1, 0
  {
    var xs :- RenderSeq(es, p);
    Ok((Join(xs.0, " " + ChainText(k) + " "), xs.1))
  }

  function RenderCall(f: FunctionKind, args: seq<Expr>, p: Prec): Out<string>
    decreases SizeSeq(args) + 1, 0
  {
    var xs :- RenderSeq(args, p);
    Ok((FunctionName(f) + "(" + Join(xs.0, ", ") + ")", xs.1))
  }

  /** Both operands under precedence p around the operator text. */
  function RenderInfix(l: Expr, op: string, r: Expr, p: Prec): Out<string>
    decreases Size(l) + Size(r), 0
  {
    var x :- Render(l, p);
    var y :- Render(r, p);
    Ok((x.0 + " " + op + " " + y.0, x.1 + y.1))
  }

  /** A comparison with None is an IS (NOT) test under the caller's
      precedence; any other is a plain binary operator with the given text,
      under the comparison's own precedence. */
  function RenderComparison(e: Expr, caller: Prec, op: string, test: BinaryKind): Out<string>
    requires e.Binary? && (e.bop == Equal || e.bop == NotEqual)
    requires test == Is || test == IsNot
    decreases Size(e), 0
  {
    if e.right == Null then Render(Binary(test, e.left, Null), caller)
    else Render(Binary(Plain(op), e.left, e.right), PrecOf(e))
  }

  /** Each node of a sequence under the same precedence, left to right. */
  function RenderSeq(es: seq<Expr>, p: Prec): Out<seq<string>>
    decreases SizeSeq(es), 3
  {
    if |es| == 0 then Ok(([], []))
    else
      var first :- Render(es[0], p);
      var rest :- RenderSeq(es[1..], p);
      Ok(([first.0] + rest.0, first.1 + rest.1))
  }

  /** A comma-separated list. */
  function RenderList(es: seq<Expr>, p: Prec): Out<string>
    decreases SizeSeq(es), 4
  {
    var xs :- RenderSeq(es, p);
    Ok((Join(xs.0, ", "), xs.1))
  }

  function RenderClause(keyword: string, x: Option<Expr>, p: Prec): Out<seq<string>>
    decreases if x.None? then 0 else Size(x.value), 5
  {
    if x.None? then Ok(([], []))
    else
      var c :- Render(x.value, p);
      Ok(([keyword, c.0], c.1))
  }

  function RenderListClause(keyword: string, xs: Exprs, p: Prec): Out<seq<string>>
    decreases if xs.Omitted? then 0 else SizeSeq(xs.items), 5
  {
    if xs.Omitted? then Ok(([], []))
    else
      var c :- RenderList(xs.items, p);
      Ok(([keyword, c.0], c.1))
  }

  /** A select statement; its parts are rendered under the select's own
      precedence. */
  function RenderSelect(e: Expr): Out<string>
    requires e.Select?
    decreases Size(e), 0, SelectParts + 1
  {
    var cols :- if e.columns.Omitted? then Ok(("*", [])) else RenderList(e.columns.items, PrecOf(e));
    var parts :- RenderParts(e, 0);
    Ok((Join(["SELECT", cols.0] + parts.0 + Paging(e), " "), cols.1 + parts.1))
  }

  function RenderParts(e: Expr, i: nat): Out<seq<string>>
    requires e.Select? && i <= SelectParts
    decreases Size(e), 0, SelectParts - i
  {
    if i == SelectParts then Ok(([], []))
    else
      var first :- RenderPart(SelectPart(e, i), PrecOf(e));
      var rest :- RenderParts(e, i + 1);
      Ok((first.0 + rest.0, first.1 + rest.1))
  }

  function RenderPart(part: Part, p: Prec): Out<seq<string>>
    decreases PartSize(part), 6
  {
    match part
    case ListPart(keyword, xs) => RenderListClause(keyword, xs, p)
    case OnePart(keyword, x) => RenderClause(keyword, x, p)
  }
}
