/** Worked examples: the expectations of the repository's tests, and the
    as-written behaviours of compile_equal and compile_select, stated on
    compile(expr, state_factory()) for any literal values and names. Each is
    computed on Reference.Render one node at a time and carried over by
    Correspondence.FreshMatches. */
module Examples {
  import opened Results
  import opened Ast
  import opened Precedences
  import Strings
  import Compiler
  import Correspondence
  import Reference

  /** The root precedence of state_factory(). */
  function Root(): Prec
  {
    Make(Some(0), None)
  }

  /** A select with only columns and tables set. */
  function Query(columns: Exprs, tables: Exprs): Expr
  {
    Select(columns, tables, None, Omitted, None, Omitted, None, None)
  }

  /** What the reference gives at the root is what compile gives in a fresh
      state. */
  lemma FreshIs(e: Expr, out: Reference.Out<string>)
    requires Reference.Render(e, Root()) == out
    ensures Compiler.CompileFresh(e) == out
  {
    Correspondence.FreshMatches(e);
  }

  // Single steps of the reference, one node at a time.

  /** A node without a precedence of its own is not bracketed under an
      operator or the root. */
  lemma LeafRender(e: Expr, caller: Prec)
    requires e.Lit? || e.Null? || e.TableRef?
    requires caller.rank < MaxInt || caller == Default()
    ensures Reference.Render(e, caller)
              == Ok(if e.Lit? then ("?", [e]) else if e.Null? then ("NULL", []) else (e.name, []))
  {
  }

  lemma UnaryRender(k: UnaryKind, x: Expr, caller: Prec, y: (string, seq<Expr>))
    requires Reference.Render(x, PrecOf(Unary(k, x))) == Ok(y)
    ensures var body := UnaryText(k) + y.0;
            Reference.Render(Unary(k, x), caller)
              == Ok((if Less(PrecOf(Unary(k, x)), caller) then "(" + body + ")" else body, y.1))
  {
    var e := Unary(k, x);
    assert Reference.RenderBody(e, caller) == Reference.RenderUnary(k, x, PrecOf(e));
  }

  /** A binary operator other than = and != from its rendered operands. */
  lemma BinaryRender(k: BinaryKind, l: Expr, r: Expr, caller: Prec, x: (string, seq<Expr>), y: (string, seq<Expr>))
    requires k != Equal && k != NotEqual
    requires Reference.Render(l, PrecOf(Binary(k, l, r))) == Ok(x)
    requires Reference.Render(r, PrecOf(Binary(k, l, r))) == Ok(y)
    ensures var body := x.0 + " " + BinaryText(k) + " " + y.0;
            Reference.Render(Binary(k, l, r), caller)
              == Ok((if Less(PrecOf(Binary(k, l, r)), caller) then "(" + body + ")" else body, x.1 + y.1))
  {
    var e := Binary(k, l, r);
    assert Reference.RenderInfix(l, BinaryText(k), r, PrecOf(e))
      == Ok((x.0 + " " + BinaryText(k) + " " + y.0, x.1 + y.1));
    assert Reference.RenderBody(e, caller) == Reference.RenderInfix(l, BinaryText(k), r, PrecOf(e));
  }

  /** Equal(l, None) and NotEqual(l, None): the IS (NOT) test under the
      caller, bracketed once more when the comparison itself is below the
      caller. */
  lemma NullComparisonRender(k: BinaryKind, l: Expr, caller: Prec, x: (string, seq<Expr>))
    requires k == Equal || k == NotEqual
    requires Reference.Render(Binary(if k == Equal then Is else IsNot, l, Null), caller) == Ok(x)
    ensures Reference.Render(Binary(k, l, Null), caller)
              == Ok((if Less(PrecOf(Binary(k, l, Null)), caller) then "(" + x.0 + ")" else x.0, x.1))
  {
    var e := Binary(k, l, Null);
    assert Reference.RenderBody(e, caller)
      == Reference.RenderComparison(e, caller, if k == Equal then "=" else "!=", if k == Equal then Is else IsNot);
  }

  /** Equal(l, r) and NotEqual(l, r) with r not None: a plain binary
      operator with text = or !=, under the comparison's own precedence. */
  lemma PlainComparisonRender(k: BinaryKind, l: Expr, r: Expr, caller: Prec, x: (string, seq<Expr>))
    requires (k == Equal || k == NotEqual) && r != Null
    requires Reference.Render(Binary(Plain(if k == Equal then "=" else "!="), l, r), PrecOf(Binary(k, l, r))) == Ok(x)
    ensures Reference.Render(Binary(k, l, r), caller)
              == Ok((if Less(PrecOf(Binary(k, l, r)), caller) then "(" + x.0 + ")" else x.0, x.1))
  {
    var e := Binary(k, l, r);
    assert Reference.RenderBody(e, caller)
      == Reference.RenderComparison(e, caller, if k == Equal then "=" else "!=", if k == Equal then Is else IsNot);
  }

  lemma PairRender(a: Expr, b: Expr, p: Prec, x: (string, seq<Expr>), y: (string, seq<Expr>))
    requires Reference.Render(a, p) == Ok(x) && Reference.Render(b, p) == Ok(y)
    ensures Reference.RenderSeq([a, b], p) == Ok(([x.0, y.0], x.1 + y.1))
  {
    SingleRender(b, p, y);
    assert [a, b][0] == a && [a, b][1..] == [b];
    assert Reference.RenderSeq([a, b], p) == Ok(([x.0] + [y.0], x.1 + y.1));
    assert [x.0] + [y.0] == [x.0, y.0];
  }

  lemma SingleRender(a: Expr, p: Prec, x: (string, seq<Expr>))
    requires Reference.Render(a, p) == Ok(x)
    ensures Reference.RenderSeq([a], p) == Ok(([x.0], x.1))
  {
    assert [a][0] == a && [a][1..] == [];
    assert Reference.RenderSeq([], p) == Ok(([], []));
    assert Reference.RenderSeq([a], p) == Ok(([x.0] + [], x.1 + []));
    assert [x.0] + [] == [x.0] && x.1 + [] == x.1;
  }

  lemma ChainRender(k: ChainKind, es: seq<Expr>, caller: Prec, xs: (seq<string>, seq<Expr>))
    requires Reference.RenderSeq(es, PrecOf(Chain(k, es))) == Ok(xs)
    ensures var body := Strings.Join(xs.0, " " + ChainText(k) + " ");
            Reference.Render(Chain(k, es), caller)
              == Ok((if Less(PrecOf(Chain(k, es)), caller) then "(" + body + ")" else body, xs.1))
  {
    var e := Chain(k, es);
    assert Reference.RenderBody(e, caller) == Reference.RenderChain(k, es, PrecOf(e));
  }

  /** A call, never bracketed under an operator or the root. */
  lemma CallRender(f: FunctionKind, args: seq<Expr>, caller: Prec, xs: (seq<string>, seq<Expr>))
    requires Reference.RenderSeq(args, PrecOf(Call(f, args))) == Ok(xs)
    requires caller.rank < MaxInt || caller == Default()
    ensures Reference.Render(Call(f, args), caller)
              == Ok((FunctionName(f) + "(" + Strings.Join(xs.0, ", ") + ")", xs.1))
  {
    var e := Call(f, args);
    assert Reference.RenderBody(e, caller) == Reference.RenderCall(f, args, PrecOf(e));
  }

  /** The clauses after the columns, from the last one back. */
  lemma PartsEnd(e: Expr)
    requires e.Select?
    ensures Reference.RenderParts(e, SelectParts) == Ok(([], []))
  {
  }

  /** An empty clause adds nothing. */
  lemma EmptyStep(e: Expr, i: nat, rest: (seq<string>, seq<Expr>))
    requires e.Select? && i < SelectParts
    requires var part := SelectPart(e, i); (part.ListPart? && part.items.Omitted?) || (part.OnePart? && part.node.None?)
    requires Reference.RenderParts(e, i + 1) == Ok(rest)
    ensures Reference.RenderParts(e, i) == Ok(rest)
  {
    EmptyPart(SelectPart(e, i), PrecOf(e));
    assert [] + rest.0 == rest.0 && [] + rest.1 == rest.1;
  }

  lemma PartsStep(e: Expr, i: nat, first: (seq<string>, seq<Expr>), rest: (seq<string>, seq<Expr>))
    requires e.Select? && i < SelectParts
    requires Reference.RenderPart(SelectPart(e, i), PrecOf(e)) == Ok(first)
    requires Reference.RenderParts(e, i + 1) == Ok(rest)
    ensures Reference.RenderParts(e, i) == Ok((first.0 + rest.0, first.1 + rest.1))
  {
  }

  /** A select from its rendered columns and clauses. */
  lemma SelectRender(e: Expr, caller: Prec, cols: (string, seq<Expr>), parts: (seq<string>, seq<Expr>))
    requires e.Select?
    requires e.columns.Omitted? ==> cols == ("*", [])
    requires e.columns.Given? ==> Reference.RenderList(e.columns.items, PrecOf(e)) == Ok(cols)
    requires Reference.RenderParts(e, 0) == Ok(parts)
    ensures var body := Strings.Join(["SELECT", cols.0] + parts.0 + Paging(e), " ");
            Reference.Render(e, caller)
              == Ok((if Less(PrecOf(e), caller) then "(" + body + ")" else body, cols.1 + parts.1))
  {
    assert Reference.RenderBody(e, caller) == Reference.RenderSelect(e);
  }

  lemma EmptyPart(part: Part, p: Prec)
    requires (part.ListPart? && part.items.Omitted?) || (part.OnePart? && part.node.None?)
    ensures Reference.RenderPart(part, p) == Ok(([], []))
  {
  }

  lemma ListPartRender(keyword: string, items: seq<Expr>, p: Prec, xs: (seq<string>, seq<Expr>))
    requires Reference.RenderSeq(items, p) == Ok(xs)
    ensures Reference.RenderPart(ListPart(keyword, Given(items)), p) == Ok(([keyword, Strings.Join(xs.0, ", ")], xs.1))
  {
    assert Reference.RenderList(items, p) == Ok((Strings.Join(xs.0, ", "), xs.1));
  }

  lemma OnePartRender(keyword: string, x: Expr, p: Prec, y: (string, seq<Expr>))
    requires Reference.Render(x, p) == Ok(y)
    ensures Reference.RenderPart(OnePart(keyword, Some(x)), p) == Ok(([keyword, y.0], y.1))
  {
  }

  /** A table list of one name renders as the FROM (or GROUP BY) clause of
      that name. */
  lemma OneTablePart(keyword: string, name: string, p: Prec)
    requires p.rank < MaxInt
    ensures Reference.RenderPart(ListPart(keyword, Given([TableRef(name)])), p) == Ok(([keyword, name], []))
  {
    LeafRender(TableRef(name), p);
    SingleRender(TableRef(name), p, (name, []));
    ListPartRender(keyword, [TableRef(name)], p, ([name], []));
  }

  // The repository's test expectations, for any literal values.

  /** A strictly weaker child is bracketed. */
  lemma WeakerChildBracketed(a: Literal, b: Literal, c: Literal)
    ensures Compiler.CompileFresh(Binary(Multiply, Binary(Add, Lit(a), Lit(b)), Lit(c)))
              == Ok(("(? + ?) * ?", [Lit(a), Lit(b), Lit(c)]))
  {
    assert [Lit(a)] + [Lit(b)] == [Lit(a), Lit(b)];
    var times := Prec(900, Left);
    var plus := Prec(800, Left);
    var sum := Binary(Add, Lit(a), Lit(b));
    var e := Binary(Multiply, sum, Lit(c));
    assert PrecOf(sum) == plus && PrecOf(e) == times;
    LeafRender(Lit(a), plus);
    LeafRender(Lit(b), plus);
    BinaryRender(Add, Lit(a), Lit(b), times, ("?", [Lit(a)]), ("?", [Lit(b)]));
    assert Less(plus, times) && !Less(times, Root());
    assert "(" + ("?" + " " + "+" + " " + "?") + ")" == "(? + ?)";
    LeafRender(Lit(c), times);
    BinaryRender(Multiply, sum, Lit(c), Root(), ("(? + ?)", [Lit(a), Lit(b)]), ("?", [Lit(c)]));
    assert "(? + ?)" + " " + "*" + " " + "?" == "(? + ?) * ?";
    assert [Lit(a)] + [Lit(b)] + [Lit(c)] == [Lit(a), Lit(b), Lit(c)];
    FreshIs(e, Ok(("(? + ?) * ?", [Lit(a), Lit(b), Lit(c)])));
  }

  /** A child of equal or stronger precedence is not. */
  lemma StrongerChildNotBracketed(a: Literal, b: Literal, c: Literal)
    ensures Compiler.CompileFresh(Binary(Add, Binary(Multiply, Lit(a), Lit(b)), Lit(c)))
              == Ok(("? * ? + ?", [Lit(a), Lit(b), Lit(c)]))
  {
    assert [Lit(a)] + [Lit(b)] == [Lit(a), Lit(b)];
    var times := Prec(900, Left);
    var plus := Prec(800, Left);
    var product := Binary(Multiply, Lit(a), Lit(b));
    var e := Binary(Add, product, Lit(c));
    assert PrecOf(product) == times && PrecOf(e) == plus;
    LeafRender(Lit(a), times);
    LeafRender(Lit(b), times);
    BinaryRender(Multiply, Lit(a), Lit(b), plus, ("?", [Lit(a)]), ("?", [Lit(b)]));
    assert !Less(times, plus) && !Less(plus, Root());
    assert "?" + " " + "*" + " " + "?" == "? * ?";
    LeafRender(Lit(c), plus);
    BinaryRender(Add, product, Lit(c), Root(), ("? * ?", [Lit(a), Lit(b)]), ("?", [Lit(c)]));
    assert "? * ?" + " " + "+" + " " + "?" == "? * ? + ?";
    assert [Lit(a)] + [Lit(b)] + [Lit(c)] == [Lit(a), Lit(b), Lit(c)];
    FreshIs(e, Ok(("? * ? + ?", [Lit(a), Lit(b), Lit(c)])));
  }

  /** Every literal, a Python 2 long included, is one placeholder bound to
      itself. */
  lemma LiteralCompiles(a: Literal)
    ensures Compiler.CompileFresh(Lit(a)) == Ok(("?", [Lit(a)]))
  {
    LeafRender(Lit(a), Root());
    FreshIs(Lit(a), Ok(("?", [Lit(a)])));
  }

  /** None is NULL and binds nothing. */
  lemma NoneCompiles()
    ensures Compiler.CompileFresh(Null) == Ok(("NULL", []))
  {
    LeafRender(Null, Root());
    FreshIs(Null, Ok(("NULL", [])));
  }

  /** Unary minus puts its sign right before the operand. */
  lemma UnaryMinusCompiles(a: Literal)
    ensures Compiler.CompileFresh(Unary(UnaryMinus, Lit(a))) == Ok(("-?", [Lit(a)]))
  {
    var e := Unary(UnaryMinus, Lit(a));
    assert PrecOf(e) == Prec(1100, Right);
    LeafRender(Lit(a), Prec(1100, Right));
    UnaryRender(UnaryMinus, Lit(a), Root(), ("?", [Lit(a)]));
    assert !Less(PrecOf(e), Root()) && UnaryText(UnaryMinus) + "?" == "-?";
    FreshIs(e, Ok(("-?", [Lit(a)])));
  }

  /** Not puts NOT and a space before the operand. */
  lemma NotCompiles(a: Literal)
    ensures Compiler.CompileFresh(Unary(Not, Lit(a))) == Ok(("NOT ?", [Lit(a)]))
  {
    var e := Unary(Not, Lit(a));
    assert PrecOf(e) == Prec(300, Right);
    LeafRender(Lit(a), Prec(300, Right));
    UnaryRender(Not, Lit(a), Root(), ("?", [Lit(a)]));
    assert !Less(PrecOf(e), Root()) && UnaryText(Not) + "?" == "NOT ?";
    FreshIs(e, Ok(("NOT ?", [Lit(a)])));
  }

  /** Equal(a, None) is ? IS NULL. */
  lemma EqualNoneCompiles(a: Literal)
    ensures Compiler.CompileFresh(Binary(Equal, Lit(a), Null)) == Ok(("? IS NULL", [Lit(a)]))
  {
    assert [Lit(a)] + [] == [Lit(a)];
    var test := Prec(400, NonAssoc);
    assert PrecOf(Binary(Is, Lit(a), Null)) == test;
    assert PrecOf(Binary(Equal, Lit(a), Null)) == Prec(500, NonAssoc);
    LeafRender(Lit(a), test);
    LeafRender(Null, test);
    BinaryRender(Is, Lit(a), Null, Root(), ("?", [Lit(a)]), ("NULL", []));
    assert !Less(test, Root()) && "?" + " " + BinaryText(Is) + " " + "NULL" == "? IS NULL";
    assert !Less(Prec(500, NonAssoc), Root());
    NullComparisonRender(Equal, Lit(a), Root(), ("? IS NULL", [Lit(a)]));
    FreshIs(Binary(Equal, Lit(a), Null), Ok(("? IS NULL", [Lit(a)])));
  }

  /** NotEqual(a, None) is ? IS NOT NULL. */
  lemma NotEqualNoneCompiles(a: Literal)
    ensures Compiler.CompileFresh(Binary(NotEqual, Lit(a), Null)) == Ok(("? IS NOT NULL", [Lit(a)]))
  {
    assert [Lit(a)] + [] == [Lit(a)];
    var test := Prec(400, NonAssoc);
    assert PrecOf(Binary(IsNot, Lit(a), Null)) == test;
    assert PrecOf(Binary(NotEqual, Lit(a), Null)) == Prec(700, Left);
    LeafRender(Lit(a), test);
    LeafRender(Null, test);
    BinaryRender(IsNot, Lit(a), Null, Root(), ("?", [Lit(a)]), ("NULL", []));
    assert !Less(test, Root()) && "?" + " " + BinaryText(IsNot) + " " + "NULL" == "? IS NOT NULL";
    assert !Less(Prec(700, Left), Root());
    NullComparisonRender(NotEqual, Lit(a), Root(), ("? IS NOT NULL", [Lit(a)]));
    FreshIs(Binary(NotEqual, Lit(a), Null), Ok(("? IS NOT NULL", [Lit(a)])));
  }

  /** Equal(a, b) is ? = ?. */
  lemma EqualCompiles(a: Literal, b: Literal)
    ensures Compiler.CompileFresh(Binary(Equal, Lit(a), Lit(b))) == Ok(("? = ?", [Lit(a), Lit(b)]))
  {
    assert [Lit(a)] + [Lit(b)] == [Lit(a), Lit(b)];
    var own := Prec(500, NonAssoc);
    var plain := Binary(Plain("="), Lit(a), Lit(b));
    assert PrecOf(Binary(Equal, Lit(a), Lit(b))) == own;
    assert PrecOf(plain) == Prec(700, Left);
    LeafRender(Lit(a), Prec(700, Left));
    LeafRender(Lit(b), Prec(700, Left));
    BinaryRender(Plain("="), Lit(a), Lit(b), own, ("?", [Lit(a)]), ("?", [Lit(b)]));
    assert !Less(Prec(700, Left), own) && !Less(own, Root());
    assert "?" + " " + BinaryText(Plain("=")) + " " + "?" == "? = ?";
    PlainComparisonRender(Equal, Lit(a), Lit(b), Root(), ("? = ?", [Lit(a), Lit(b)]));
    FreshIs(Binary(Equal, Lit(a), Lit(b)), Ok(("? = ?", [Lit(a), Lit(b)])));
  }

  /** NotEqual(a, b) is ? != ?. */
  lemma NotEqualCompiles(a: Literal, b: Literal)
    ensures Compiler.CompileFresh(Binary(NotEqual, Lit(a), Lit(b))) == Ok(("? != ?", [Lit(a), Lit(b)]))
  {
    assert [Lit(a)] + [Lit(b)] == [Lit(a), Lit(b)];
    var own := Prec(700, Left);
    var plain := Binary(Plain("!="), Lit(a), Lit(b));
    assert PrecOf(Binary(NotEqual, Lit(a), Lit(b))) == own;
    assert PrecOf(plain) == own;
    LeafRender(Lit(a), own);
    LeafRender(Lit(b), own);
    BinaryRender(Plain("!="), Lit(a), Lit(b), own, ("?", [Lit(a)]), ("?", [Lit(b)]));
    assert !Less(own, own) && !Less(own, Root());
    assert "?" + " " + BinaryText(Plain("!=")) + " " + "?" == "? != ?";
    PlainComparisonRender(NotEqual, Lit(a), Lit(b), Root(), ("? != ?", [Lit(a), Lit(b)]));
    FreshIs(Binary(NotEqual, Lit(a), Lit(b)), Ok(("? != ?", [Lit(a), Lit(b)])));
  }

  /** As written, Equal(a, None) under a tighter caller is bracketed twice:
      once as the IS test, compiled against the caller, and once as the
      comparison itself. */
  lemma NullComparisonBracketedTwice(a: Literal, b: Literal)
    ensures Compiler.CompileFresh(Binary(Multiply, Binary(Equal, Lit(a), Null), Lit(b)))
              == Ok(("((? IS NULL)) * ?", [Lit(a), Lit(b)]))
  {
    var times := Prec(900, Left);
    var cmp := Binary(Equal, Lit(a), Null);
    var e := Binary(Multiply, cmp, Lit(b));
    assert PrecOf(e) == times && !Less(times, Root());
    NullTestUnderProduct(a);
    LeafRender(Lit(b), times);
    BinaryRender(Multiply, cmp, Lit(b), Root(), ("((? IS NULL))", [Lit(a)]), ("?", [Lit(b)]));
    assert "((? IS NULL))" + " " + "*" + " " + "?" == "((? IS NULL)) * ?";
    assert [Lit(a)] + [Lit(b)] == [Lit(a), Lit(b)];
    FreshIs(e, Ok(("((? IS NULL)) * ?", [Lit(a), Lit(b)])));
  }

  /** Equal(a, None) under a product: both brackets. */
  lemma NullTestUnderProduct(a: Literal)
    ensures Reference.Render(Binary(Equal, Lit(a), Null), Prec(900, Left)) == Ok(("((? IS NULL))", [Lit(a)]))
  {
    var times := Prec(900, Left);
    assert PrecOf(Binary(Equal, Lit(a), Null)) == Prec(500, NonAssoc);
    assert Less(Prec(500, NonAssoc), times);
    IsNullUnderProduct(a);
    NullComparisonRender(Equal, Lit(a), times, ("(? IS NULL)", [Lit(a)]));
    assert "(" + "(? IS NULL)" + ")" == "((? IS NULL))";
  }

  /** The IS test itself under a product: one pair of brackets. */
  lemma IsNullUnderProduct(a: Literal)
    ensures Reference.Render(Binary(Is, Lit(a), Null), Prec(900, Left)) == Ok(("(? IS NULL)", [Lit(a)]))
  {
    var times := Prec(900, Left);
    var test := Prec(400, NonAssoc);
    assert PrecOf(Binary(Is, Lit(a), Null)) == test && Less(test, times);
    LeafRender(Lit(a), test);
    LeafRender(Null, test);
    BinaryRender(Is, Lit(a), Null, times, ("?", [Lit(a)]), ("NULL", []));
    assert [Lit(a)] + [] == [Lit(a)];
    assert "(" + ("?" + " " + "IS" + " " + "NULL") + ")" == "(? IS NULL)";
  }

  /** And joins its operands with AND. */
  lemma AndCompiles(a: Literal, b: Literal)
    ensures Compiler.CompileFresh(Chain(And, [Lit(a), Lit(b)])) == Ok(("? AND ?", [Lit(a), Lit(b)]))
  {
    assert [Lit(a)] + [Lit(b)] == [Lit(a), Lit(b)];
    var p := Prec(200, Left);
    assert PrecOf(Chain(And, [Lit(a), Lit(b)])) == p;
    LeafRender(Lit(a), p);
    LeafRender(Lit(b), p);
    PairRender(Lit(a), Lit(b), p, ("?", [Lit(a)]), ("?", [Lit(b)]));
    ChainRender(And, [Lit(a), Lit(b)], Root(), (["?", "?"], [Lit(a), Lit(b)]));
    Strings.JoinPair("?", "?", " AND ");
    assert !Less(p, Root()) && " " + ChainText(And) + " " == " AND ";
    assert "?" + " AND " + "?" == "? AND ?";
    FreshIs(Chain(And, [Lit(a), Lit(b)]), Ok(("? AND ?", [Lit(a), Lit(b)])));
  }

  /** Or joins its operands with OR. */
  lemma OrCompiles(a: Literal, b: Literal)
    ensures Compiler.CompileFresh(Chain(Or, [Lit(a), Lit(b)])) == Ok(("? OR ?", [Lit(a), Lit(b)]))
  {
    assert [Lit(a)] + [Lit(b)] == [Lit(a), Lit(b)];
    var p := Prec(100, Left);
    assert PrecOf(Chain(Or, [Lit(a), Lit(b)])) == p;
    LeafRender(Lit(a), p);
    LeafRender(Lit(b), p);
    PairRender(Lit(a), Lit(b), p, ("?", [Lit(a)]), ("?", [Lit(b)]));
    ChainRender(Or, [Lit(a), Lit(b)], Root(), (["?", "?"], [Lit(a), Lit(b)]));
    Strings.JoinPair("?", "?", " OR ");
    assert !Less(p, Root()) && " " + ChainText(Or) + " " == " OR ";
    assert "?" + " OR " + "?" == "? OR ?";
    FreshIs(Chain(Or, [Lit(a), Lit(b)]), Ok(("? OR ?", [Lit(a), Lit(b)])));
  }

  /** min(a, b): the name and the arguments in order. */
  lemma MinCompiles(a: Literal, b: Literal)
    ensures Compiler.CompileFresh(Call(Min, [Lit(a), Lit(b)])) == Ok(("min(?, ?)", [Lit(a), Lit(b)]))
  {
    assert [Lit(a)] + [Lit(b)] == [Lit(a), Lit(b)];
    assert PrecOf(Call(Min, [Lit(a), Lit(b)])) == Default();
    LeafRender(Lit(a), Default());
    LeafRender(Lit(b), Default());
    PairRender(Lit(a), Lit(b), Default(), ("?", [Lit(a)]), ("?", [Lit(b)]));
    Strings.JoinPair("?", "?", ", ");
    assert "?" + ", " + "?" == "?, ?";
    assert FunctionName(Min) + "(" + "?, ?" + ")" == "min(?, ?)";
    CallRender(Min, [Lit(a), Lit(b)], Root(), (["?", "?"], [Lit(a), Lit(b)]));
    FreshIs(Call(Min, [Lit(a), Lit(b)]), Ok(("min(?, ?)", [Lit(a), Lit(b)])));
  }

  /** power(a, b): the arguments, and so the parameters, in order. */
  lemma PowerCompiles(a: Literal, b: Literal)
    ensures Compiler.CompileFresh(Call(Power, [Lit(a), Lit(b)])) == Ok(("power(?, ?)", [Lit(a), Lit(b)]))
  {
    assert [Lit(a)] + [Lit(b)] == [Lit(a), Lit(b)];
    assert PrecOf(Call(Power, [Lit(a), Lit(b)])) == Default();
    LeafRender(Lit(a), Default());
    LeafRender(Lit(b), Default());
    PairRender(Lit(a), Lit(b), Default(), ("?", [Lit(a)]), ("?", [Lit(b)]));
    Strings.JoinPair("?", "?", ", ");
    assert "?" + ", " + "?" == "?, ?";
    assert FunctionName(Power) + "(" + "?, ?" + ")" == "power(?, ?)";
    CallRender(Power, [Lit(a), Lit(b)], Root(), (["?", "?"], [Lit(a), Lit(b)]));
    FreshIs(Call(Power, [Lit(a), Lit(b)]), Ok(("power(?, ?)", [Lit(a), Lit(b)])));
  }

  /** sqrt(a). */
  lemma SqrtCompiles(a: Literal)
    ensures Compiler.CompileFresh(Call(Sqrt, [Lit(a)])) == Ok(("sqrt(?)", [Lit(a)]))
  {
    assert PrecOf(Call(Sqrt, [Lit(a)])) == Default();
    LeafRender(Lit(a), Default());
    SingleRender(Lit(a), Default(), ("?", [Lit(a)]));
    CallRender(Sqrt, [Lit(a)], Root(), (["?"], [Lit(a)]));
    assert FunctionName(Sqrt) + "(" + "?" + ")" == "sqrt(?)";
    FreshIs(Call(Sqrt, [Lit(a)]), Ok(("sqrt(?)", [Lit(a)])));
  }

  /** An operator argument is bracketed inside a call. */
  lemma CallArgumentBracketed(a: Literal, b: Literal)
    ensures Compiler.CompileFresh(Call(Min, [Binary(Add, Lit(a), Lit(b))])) == Ok(("min((? + ?))", [Lit(a), Lit(b)]))
  {
    assert [Lit(a)] + [Lit(b)] == [Lit(a), Lit(b)];
    var plus := Prec(800, Left);
    var sum := Binary(Add, Lit(a), Lit(b));
    assert PrecOf(sum) == plus && PrecOf(Call(Min, [sum])) == Default();
    LeafRender(Lit(a), plus);
    LeafRender(Lit(b), plus);
    BinaryRender(Add, Lit(a), Lit(b), Default(), ("?", [Lit(a)]), ("?", [Lit(b)]));
    assert Less(plus, Default()) && "(" + ("?" + " " + BinaryText(Add) + " " + "?") + ")" == "(? + ?)";
    SingleRender(sum, Default(), ("(? + ?)", [Lit(a), Lit(b)]));
    CallRender(Min, [sum], Root(), (["(? + ?)"], [Lit(a), Lit(b)]));
    assert FunctionName(Min) + "(" + "(? + ?)" + ")" == "min((? + ?))";
    FreshIs(Call(Min, [sum]), Ok(("min((? + ?))", [Lit(a), Lit(b)])));
  }

  /** Select(columns=[Add(a, b)]) is SELECT ? + ?. */
  lemma SelectColumns(a: Literal, b: Literal)
    ensures Compiler.CompileFresh(Query(Given([Binary(Add, Lit(a), Lit(b))]), Omitted))
              == Ok(("SELECT ? + ?", [Lit(a), Lit(b)]))
  {
    var sum := Binary(Add, Lit(a), Lit(b));
    var e := Query(Given([sum]), Omitted);
    assert PrecOf(e) == Prec(0, NonAssoc) && !Less(PrecOf(e), Root());
    SumColumn(a, b);
    NoClauses(e);
    SelectRender(e, Root(), ("? + ?", [Lit(a), Lit(b)]), ([], []));
    assert ["SELECT", "? + ?"] + [] + Paging(e) == ["SELECT", "? + ?"];
    assert [Lit(a), Lit(b)] + [] == [Lit(a), Lit(b)];
    Strings.JoinPair("SELECT", "? + ?", " ");
    assert "SELECT" + " " + "? + ?" == "SELECT ? + ?";
    FreshIs(e, Ok(("SELECT ? + ?", [Lit(a), Lit(b)])));
  }

  /** The column list [Add(a, b)] under a select's precedence. */
  lemma SumColumn(a: Literal, b: Literal)
    ensures Reference.RenderList([Binary(Add, Lit(a), Lit(b))], Prec(0, NonAssoc)) == Ok(("? + ?", [Lit(a), Lit(b)]))
  {
    assert [Lit(a)] + [Lit(b)] == [Lit(a), Lit(b)];
    var plus := Prec(800, Left);
    var p := Prec(0, NonAssoc);
    var sum := Binary(Add, Lit(a), Lit(b));
    assert PrecOf(sum) == plus;
    LeafRender(Lit(a), plus);
    LeafRender(Lit(b), plus);
    BinaryRender(Add, Lit(a), Lit(b), p, ("?", [Lit(a)]), ("?", [Lit(b)]));
    assert !Less(plus, p);
    assert "?" + " " + BinaryText(Add) + " " + "?" == "? + ?";
    SingleRender(sum, p, ("? + ?", [Lit(a), Lit(b)]));
  }

  /** A select with no clause given renders no clause. */
  lemma NoClauses(e: Expr)
    requires e.Select? && e.tables.Omitted? && e.where.None? && e.groupBy.Omitted?
    requires e.having.None? && e.orderBy.Omitted?
    ensures Reference.RenderParts(e, 0) == Ok(([], []))
  {
    PartsEnd(e);
    EmptyStep(e, 4, ([], []));
    EmptyStep(e, 3, ([], []));
    EmptyStep(e, 2, ([], []));
    EmptyStep(e, 1, ([], []));
    EmptyStep(e, 0, ([], []));
  }

  /** Select(tables=[Table(name)]) is SELECT * FROM name. */
  lemma SelectTable(name: string)
    ensures Compiler.CompileFresh(Query(Omitted, Given([TableRef(name)]))) == Ok(("SELECT * FROM " + name, []))
  {
    var e := Query(Omitted, Given([TableRef(name)]));
    SelectTableRender(e, name, Root());
    assert !Less(PrecOf(e), Root());
    FreshIs(e, Ok(("SELECT * FROM " + name, [])));
  }

  /** A select of one table whose where and having are None, either absent
      or given as a None node. */
  predicate OneTable(e: Expr, name: string)
  {
    e.Select? && e.columns.Omitted? && e.tables == Given([TableRef(name)])
    && Present(e.where).None? && e.groupBy.Omitted? && Present(e.having).None?
    && e.orderBy.Omitted? && e.limit.None? && e.offset.None?
  }

  /** where=None and having=None emit no clause, whether the attribute is
      left out or set to None. */
  lemma NoneClausesOmitted(name: string)
    ensures Compiler.CompileFresh(Select(Omitted, Given([TableRef(name)]), Some(Null), Omitted, Some(Null), Omitted, None, None))
              == Ok(("SELECT * FROM " + name, []))
  {
    var e := Select(Omitted, Given([TableRef(name)]), Some(Null), Omitted, Some(Null), Omitted, None, None);
    SelectTableRender(e, name, Root());
    assert !Less(PrecOf(e), Root());
    FreshIs(e, Ok(("SELECT * FROM " + name, [])));
  }

  /** A select of one table, bracketed exactly under a caller above (0, none). */
  lemma SelectTableRender(e: Expr, name: string, caller: Prec)
    requires OneTable(e, name)
    ensures var body := "SELECT * FROM " + name;
            Reference.Render(e, caller) == Ok((if Less(PrecOf(e), caller) then "(" + body + ")" else body, []))
  {
    OneTableClauses(e, name);
    SelectRender(e, caller, ("*", []), (["FROM", name], []));
    assert ["SELECT", "*"] + ["FROM", name] + Paging(e) == ["SELECT", "*", "FROM", name];
    OneTableJoin(name);
  }

  /** The clauses of a select of one table: FROM and the name. */
  lemma OneTableClauses(e: Expr, name: string)
    requires OneTable(e, name)
    ensures Reference.RenderParts(e, 0) == Ok((["FROM", name], []))
  {
    assert PrecOf(e) == Prec(0, NonAssoc);
    PartsEnd(e);
    EmptyStep(e, 4, ([], []));
    EmptyStep(e, 3, ([], []));
    EmptyStep(e, 2, ([], []));
    EmptyStep(e, 1, ([], []));
    OneTablePart("FROM", name, PrecOf(e));
    PartsStep(e, 0, (["FROM", name], []), ([], []));
    assert ["FROM", name] + [] == ["FROM", name];
    var none: seq<Expr> := [];
    assert none + none == none;
  }

  lemma OneTableJoin(name: string)
    ensures Strings.Join(["SELECT", "*", "FROM", name], " ") == "SELECT * FROM " + name
  {
    Strings.JoinPair("FROM", name, " ");
    Strings.JoinCons("*", ["FROM", name], " ");
    Strings.JoinCons("SELECT", ["*", "FROM", name], " ");
    assert ["SELECT"] + ["*", "FROM", name] == ["SELECT", "*", "FROM", name];
    assert ["*"] + ["FROM", name] == ["*", "FROM", name];
  }

  /** As written, HAVING is followed by the where clause: the having node
      itself, whatever it is besides None, is never compiled, and the where
      parameters are bound twice. */
  lemma HavingCompilesWhere(name: string, a: Literal, having: Expr)
    requires having != Null
    ensures Compiler.CompileFresh(Select(Omitted, Given([TableRef(name)]), Some(Lit(a)), Omitted, Some(having), Omitted, None, None))
              == Ok(("SELECT * FROM " + name + " WHERE ? HAVING ?", [Lit(a), Lit(a)]))
  {
    var e := Select(Omitted, Given([TableRef(name)]), Some(Lit(a)), Omitted, Some(having), Omitted, None, None);
    var tokens := ["SELECT", "*", "FROM", name, "WHERE", "?", "HAVING", "?"];
    HavingClauses(e, name, a);
    SelectRender(e, Root(), ("*", []), (tokens[2..], [Lit(a), Lit(a)]));
    assert ["SELECT", "*"] + tokens[2..] + Paging(e) == tokens;
    assert [] + [Lit(a), Lit(a)] == [Lit(a), Lit(a)];
    HavingJoin(name, tokens);
    assert !Less(PrecOf(e), Root());
    FreshIs(e, Ok(("SELECT * FROM " + name + " WHERE ? HAVING ?", [Lit(a), Lit(a)])));
  }

  /** The clauses of a select of one table with a where literal and some
      having node. */
  lemma HavingClauses(e: Expr, name: string, a: Literal)
    requires e.Select? && e.tables == Given([TableRef(name)]) && e.where == Some(Lit(a))
    requires e.groupBy.Omitted? && Present(e.having).Some? && e.orderBy.Omitted?
    ensures Reference.RenderParts(e, 0) == Ok((["FROM", name, "WHERE", "?", "HAVING", "?"], [Lit(a), Lit(a)]))
  {
    var p := Prec(0, NonAssoc);
    assert PrecOf(e) == p;
    LeafRender(Lit(a), p);
    PartsEnd(e);
    EmptyStep(e, 4, ([], []));
    assert SelectPart(e, 3) == OnePart("HAVING", Some(Lit(a)));
    OnePartRender("HAVING", Lit(a), p, ("?", [Lit(a)]));
    PartsStep(e, 3, (["HAVING", "?"], [Lit(a)]), ([], []));
    assert ["HAVING", "?"] + [] == ["HAVING", "?"] && [Lit(a)] + [] == [Lit(a)];
    EmptyStep(e, 2, (["HAVING", "?"], [Lit(a)]));
    assert SelectPart(e, 1) == OnePart("WHERE", Some(Lit(a)));
    OnePartRender("WHERE", Lit(a), p, ("?", [Lit(a)]));
    PartsStep(e, 1, (["WHERE", "?"], [Lit(a)]), (["HAVING", "?"], [Lit(a)]));
    var clauses := ["WHERE", "?", "HAVING", "?"];
    assert ["WHERE", "?"] + ["HAVING", "?"] == clauses && [Lit(a)] + [Lit(a)] == [Lit(a), Lit(a)];
    OneTablePart("FROM", name, p);
    PartsStep(e, 0, (["FROM", name], []), (clauses, [Lit(a), Lit(a)]));
    assert ["FROM", name] + clauses == ["FROM", name, "WHERE", "?", "HAVING", "?"];
    assert [] + [Lit(a), Lit(a)] == [Lit(a), Lit(a)];
  }

  lemma HavingJoin(name: string, tokens: seq<string>)
    requires tokens == ["SELECT", "*", "FROM", name, "WHERE", "?", "HAVING", "?"]
    ensures Strings.Join(tokens, " ") == "SELECT * FROM " + name + " WHERE ? HAVING ?"
  {
    var t6 := ["HAVING", "?"];
    var t4 := ["WHERE", "?"] + t6;
    var t2 := ["FROM", name] + t4;
    assert tokens == ["SELECT", "*"] + t2;
    Strings.JoinPair("HAVING", "?", " ");
    Strings.JoinTwoMore("WHERE", "?", t6, "HAVING" + " " + "?");
    Strings.JoinTwoMore("FROM", name, t4, "WHERE" + " " + "?" + " " + ("HAVING" + " " + "?"));
    Strings.JoinTwoMore("SELECT", "*", t2, "FROM" + " " + name + " " + ("WHERE" + " " + "?" + " " + ("HAVING" + " " + "?")));
    HavingText(name);
  }

  lemma HavingText(name: string)
    ensures "SELECT" + " " + "*" + " " + ("FROM" + " " + name + " " + ("WHERE" + " " + "?" + " " + ("HAVING" + " " + "?")))
            == "SELECT * FROM " + name + " WHERE ? HAVING ?"
  {
    var w := "WHERE" + " " + "?" + " " + ("HAVING" + " " + "?");
    assert w == " WHERE ? HAVING ?"[1..];
    assert "SELECT" + " " + "*" + " " + "FROM" + " " == "SELECT * FROM ";
  }

  /** As written, the order_by list is emitted after a second GROUP BY
      keyword: ordering by a literal compiles as grouping by it. */
  lemma OrderByCompilesAsGroupBy(name: string, a: Literal)
    ensures Compiler.CompileFresh(Select(Omitted, Given([TableRef(name)]), None, Omitted, None, Given([Lit(a)]), None, None))
              == Ok(("SELECT * FROM " + name + " GROUP BY ?", [Lit(a)]))
  {
    var e := Select(Omitted, Given([TableRef(name)]), None, Omitted, None, Given([Lit(a)]), None, None);
    var tokens := ["SELECT", "*", "FROM", name, "GROUP BY", "?"];
    OrderByClauses(e, name, a);
    SelectRender(e, Root(), ("*", []), (tokens[2..], [Lit(a)]));
    assert ["SELECT", "*"] + tokens[2..] + Paging(e) == tokens;
    assert [] + [Lit(a)] == [Lit(a)];
    OrderByJoin(name, tokens);
    assert !Less(PrecOf(e), Root());
    FreshIs(e, Ok(("SELECT * FROM " + name + " GROUP BY ?", [Lit(a)])));
  }

  /** The clauses of a select of one table ordered by one literal. */
  lemma OrderByClauses(e: Expr, name: string, a: Literal)
    requires e.Select? && e.tables == Given([TableRef(name)]) && e.where.None?
    requires e.groupBy.Omitted? && e.having.None? && e.orderBy == Given([Lit(a)])
    ensures Reference.RenderParts(e, 0) == Ok((["FROM", name, "GROUP BY", "?"], [Lit(a)]))
  {
    var p := Prec(0, NonAssoc);
    assert PrecOf(e) == p;
    LeafRender(Lit(a), p);
    PartsEnd(e);
    SingleRender(Lit(a), p, ("?", [Lit(a)]));
    ListPartRender("GROUP BY", [Lit(a)], p, (["?"], [Lit(a)]));
    assert SelectPart(e, 4) == ListPart("GROUP BY", Given([Lit(a)]));
    PartsStep(e, 4, (["GROUP BY", "?"], [Lit(a)]), ([], []));
    assert ["GROUP BY", "?"] + [] == ["GROUP BY", "?"] && [Lit(a)] + [] == [Lit(a)];
    EmptyStep(e, 3, (["GROUP BY", "?"], [Lit(a)]));
    EmptyStep(e, 2, (["GROUP BY", "?"], [Lit(a)]));
    EmptyStep(e, 1, (["GROUP BY", "?"], [Lit(a)]));
    OneTablePart("FROM", name, p);
    PartsStep(e, 0, (["FROM", name], []), (["GROUP BY", "?"], [Lit(a)]));
    assert ["FROM", name] + ["GROUP BY", "?"] == ["FROM", name, "GROUP BY", "?"];
    assert [] + [Lit(a)] == [Lit(a)];
  }

  lemma OrderByJoin(name: string, tokens: seq<string>)
    requires tokens == ["SELECT", "*", "FROM", name, "GROUP BY", "?"]
    ensures Strings.Join(tokens, " ") == "SELECT * FROM " + name + " GROUP BY ?"
  {
    var t4 := ["GROUP BY", "?"];
    var t2 := ["FROM", name] + t4;
    assert tokens == ["SELECT", "*"] + t2;
    Strings.JoinPair("GROUP BY", "?", " ");
    Strings.JoinTwoMore("FROM", name, t4, "GROUP BY" + " " + "?");
    Strings.JoinTwoMore("SELECT", "*", t2, "FROM" + " " + name + " " + ("GROUP BY" + " " + "?"));
    OrderByText(name);
  }

  lemma OrderByText(name: string)
    ensures "SELECT" + " " + "*" + " " + ("FROM" + " " + name + " " + ("GROUP BY" + " " + "?"))
            == "SELECT * FROM " + name + " GROUP BY ?"
  {
    var g := "GROUP BY" + " " + "?";
    assert g == " GROUP BY ?"[1..];
    assert "SELECT" + " " + "*" + " " + "FROM" + " " == "SELECT * FROM ";
  }

  /** A select inside a set expression is bracketed: the set expression
      has the default precedence, above the select's (0, none). */
  lemma UnionBracketsSelects(s: string, t: string)
    ensures Compiler.CompileFresh(SetOp(Union, Query(Omitted, Given([TableRef(s)])), Query(Omitted, Given([TableRef(t)]))))
              == Ok(("(SELECT * FROM " + s + ") UNION (SELECT * FROM " + t + ")", []))
  {
    var a := Query(Omitted, Given([TableRef(s)]));
    var b := Query(Omitted, Given([TableRef(t)]));
    var e := SetOp(Union, a, b);
    assert PrecOf(e) == Default() && PrecOf(a) == Prec(0, NonAssoc) && PrecOf(b) == Prec(0, NonAssoc);
    assert Less(Prec(0, NonAssoc), Default()) && !Less(Default(), Root());
    SelectTableRender(a, s, Default());
    SelectTableRender(b, t, Default());
    var x := "(" + ("SELECT * FROM " + s) + ")";
    var y := "(" + ("SELECT * FROM " + t) + ")";
    var none: seq<Expr> := [];
    assert none + none == none;
    assert Reference.RenderInfix(a, SetText(Union), b, Default()) == Ok((x + " " + "UNION" + " " + y, []));
    assert Reference.RenderBody(e, Root()) == Reference.RenderInfix(a, SetText(Union), b, PrecOf(e));
    UnionText(s, t);
    FreshIs(e, Ok(("(SELECT * FROM " + s + ") UNION (SELECT * FROM " + t + ")", [])));
  }

  lemma UnionText(s: string, t: string)
    ensures "(" + ("SELECT * FROM " + s) + ")" + " " + "UNION" + " " + ("(" + ("SELECT * FROM " + t) + ")")
            == "(SELECT * FROM " + s + ") UNION (SELECT * FROM " + t + ")"
  {
    assert "(" + "SELECT * FROM " == "(SELECT * FROM ";
    assert ")" + " " + "UNION" + " " + "(" == ") UNION (";
  }

  /** Compiling a Column fails: no class on its MRO has a handler. */
  lemma ColumnFails(name: string, table: Option<string>)
    ensures Compiler.CompileFresh(ColumnRef(name, table)) == Err(KeyError("Column"))
  {
    assert Reference.RenderBody(ColumnRef(name, table), Root()) == Err(KeyError("Column"));
    FreshIs(ColumnRef(name, table), Err(KeyError("Column")));
  }
}
