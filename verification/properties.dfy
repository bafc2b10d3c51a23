/** What the compiled output of a tree is, stated against independent
    definitions: which trees fail, which parameters a successful compilation
    binds, and where brackets appear. The statements are about
    Reference.Render; module Correspondence carries them over to the stateful
    compiler. */
module Properties {
  import opened Results
  import opened Precedences
  import opened Ast
  import Classes
  import Strings
  import Reference
  import Compiler
  import Correspondence

  /** The error every failing compilation reports: no handler for Column. */
  function ColumnError(): Error
  {
    KeyError(Classes.Name(Classes.Column))
  }

  /** Whether a Column node sits anywhere the compiler reads. The having
      node of a select is never read (HAVING is compiled from the where
      clause), so a column there does not count. */
  predicate HasColumn(e: Expr)
    decreases Size(e), 2
  {
    match e
    case ColumnRef(_, _) => true
    case Unary(_, x) => HasColumn(x)
    case Binary(_, l, r) => HasColumn(l) || HasColumn(r)
    case Chain(_, es) => SeqHasColumn(es)
    case Call(_, args) => SeqHasColumn(args)
    case Select(cols, _, _, _, _, _, _, _) =>
      (cols.Given? && SeqHasColumn(cols.items)) || PartsHaveColumn(e, 0)
    case SetOp(_, l, r) => HasColumn(l) || HasColumn(r)
    case _ => false
  }

  predicate SeqHasColumn(es: seq<Expr>)
    decreases SizeSeq(es), 3
  {
    |es| > 0 && (HasColumn(es[0]) || SeqHasColumn(es[1..]))
  }

  predicate PartsHaveColumn(e: Expr, i: nat)
    requires e.Select? && i <= SelectParts
    decreases Size(e), 1, SelectParts - i
  {
    i < SelectParts && (PartHasColumn(SelectPart(e, i)) || PartsHaveColumn(e, i + 1))
  }

  predicate PartHasColumn(part: Part)
    decreases PartSize(part), 4
  {
    match part
    case ListPart(_, xs) => xs.Given? && SeqHasColumn(xs.items)
    case OnePart(_, x) => x.Some? && HasColumn(x.value)
  }

  /** The literal nodes the compiler reads, left to right in the order the
      handlers visit them. */
  function Literals(e: Expr): seq<Expr>
    decreases Size(e), 2
  {
    match e
    case Lit(_) => [e]
    case Unary(_, x) => Literals(x)
    case Binary(_, l, r) => Literals(l) + Literals(r)
    case Chain(_, es) => SeqLiterals(es)
    case Call(_, args) => SeqLiterals(args)
    case Select(cols, _, _, _, _, _, _, _) =>
      (if cols.Given? then SeqLiterals(cols.items) else []) + PartsLiterals(e, 0)
    case SetOp(_, l, r) => Literals(l) + Literals(r)
    case _ => []
  }

  function SeqLiterals(es: seq<Expr>): seq<Expr>
    decreases SizeSeq(es), 3
  {
    if |es| == 0 then [] else Literals(es[0]) + SeqLiterals(es[1..])
  }

  function PartsLiterals(e: Expr, i: nat): seq<Expr>
    requires e.Select? && i <= SelectParts
    decreases Size(e), 1, SelectParts - i
  {
    if i == SelectParts then [] else PartLiterals(SelectPart(e, i)) + PartsLiterals(e, i + 1)
  }

  function PartLiterals(part: Part): seq<Expr>
    decreases PartSize(part), 4
  {
    match part
    case ListPart(_, xs) => if xs.Omitted? then [] else SeqLiterals(xs.items)
    case OnePart(_, x) => if x.None? then [] else Literals(x.value)
  }

  /** An outcome that fails exactly when `failing`, then with ColumnError,
      and otherwise binds exactly the parameters ps. */
  predicate Outcome<T>(r: Reference.Out<T>, failing: bool, ps: seq<Expr>)
  {
    (r.Err? <==> failing)
    && (r.Err? ==> r.error == ColumnError())
    && (r.Ok? ==> r.value.1 == ps)
  }

  /** Compiling a tree fails exactly when it holds a Column node, and
      otherwise binds its literals in order, whatever the caller's
      precedence. */
  lemma {:induction false} RenderOutcome(e: Expr, caller: Prec)
    ensures Outcome(Reference.Render(e, caller), HasColumn(e), Literals(e))
    decreases Size(e), 2
  {
    BodyOutcome(e, caller);
  }

  lemma {:induction false} BodyOutcome(e: Expr, caller: Prec)
    ensures Outcome(Reference.RenderBody(e, caller), HasColumn(e), Literals(e))
    decreases Size(e), 1
  {
    match e
    case Lit(_) =>
    case Null =>
    case Unary(k, x) =>
      RenderOutcome(x, PrecOf(e));
    case Binary(k, l, r) =>
      if k == Equal || k == NotEqual {
        if r == Null {
          RenderOutcome(Binary(if k == Equal then Is else IsNot, l, Null), caller);
        } else {
          RenderOutcome(Binary(Plain(if k == Equal then "=" else "!="), l, r), PrecOf(e));
        }
      } else {
        InfixOutcome(l, BinaryText(k), r, PrecOf(e));
      }
    case Chain(k, es) =>
      SeqOutcome(es, PrecOf(e));
    case Call(f, args) =>
      SeqOutcome(args, PrecOf(e));
    case TableRef(_) =>
    case ColumnRef(_, _) =>
    case Select(cols, _, _, _, _, _, _, _) =>
      SelectOutcome(e);
    case SetOp(k, l, r) =>
      InfixOutcome(l, SetText(k), r, PrecOf(e));
  }

  lemma {:induction false} InfixOutcome(l: Expr, op: string, r: Expr, p: Prec)
    ensures Outcome(Reference.RenderInfix(l, op, r, p), HasColumn(l) || HasColumn(r), Literals(l) + Literals(r))
    decreases Size(l) + Size(r), 0
  {
    RenderOutcome(l, p);
    RenderOutcome(r, p);
  }

  lemma {:induction false} SeqOutcome(es: seq<Expr>, p: Prec)
    ensures Outcome(Reference.RenderSeq(es, p), SeqHasColumn(es), SeqLiterals(es))
    decreases SizeSeq(es), 3
  {
    if |es| > 0 {
      RenderOutcome(es[0], p);
      SeqOutcome(es[1..], p);
    }
  }

  lemma {:induction false} SelectOutcome(e: Expr)
    requires e.Select?
    ensures Outcome(Reference.RenderSelect(e),
                    (e.columns.Given? && SeqHasColumn(e.columns.items)) || PartsHaveColumn(e, 0),
                    (if e.columns.Given? then SeqLiterals(e.columns.items) else []) + PartsLiterals(e, 0))
    decreases Size(e), 0, SelectParts + 1
  {
    if e.columns.Given? {
      SeqOutcome(e.columns.items, PrecOf(e));
    }
    PartsOutcome(e, 0);
  }

  lemma {:induction false} PartsOutcome(e: Expr, i: nat)
    requires e.Select? && i <= SelectParts
    ensures Outcome(Reference.RenderParts(e, i), PartsHaveColumn(e, i), PartsLiterals(e, i))
    decreases Size(e), 0, SelectParts - i
  {
    if i < SelectParts {
      PartOutcome(SelectPart(e, i), PrecOf(e));
      PartsOutcome(e, i + 1);
    }
  }

  lemma {:induction false} PartOutcome(part: Part, p: Prec)
    ensures Outcome(Reference.RenderPart(part, p), PartHasColumn(part), PartLiterals(part))
    decreases PartSize(part), 6
  {
    match part
    case ListPart(keyword, xs) =>
      if xs.Given? {
        SeqOutcome(xs.items, p);
        assert Reference.RenderList(xs.items, p).Ok? ==> Reference.RenderList(xs.items, p).value.1 == SeqLiterals(xs.items);
      }
    case OnePart(_, x) =>
      if x.Some? {
        RenderOutcome(x.value, p);
      }
  }

  /** Equal or NotEqual against None: the one node whose handler compiles
      under the caller's scope instead of its own. */
  predicate IsNullComparison(e: Expr)
  {
    e.Binary? && (e.bop == Equal || e.bop == NotEqual) && e.right == Null
  }

  /** The caller's precedence decides brackets only: whether compiling
      succeeds, and the parameters it binds, are the same under every
      caller; the unbracketed text of a node is too, except for a
      comparison with None, which is its IS test bracketed against the
      caller, over a text that again does not depend on the caller. */
  lemma CallerDecidesOnlyBrackets(e: Expr, c1: Prec, c2: Prec)
    ensures Reference.Render(e, c1).Ok? <==> Reference.Render(e, c2).Ok?
    ensures Reference.Render(e, c1).Ok? ==> Reference.Render(e, c1).value.1 == Reference.Render(e, c2).value.1
    ensures !IsNullComparison(e) ==> Reference.RenderBody(e, c1) == Reference.RenderBody(e, c2)
    ensures IsNullComparison(e) ==>
              var test := Binary(if e.bop == Equal then Is else IsNot, e.left, Null);
              Reference.RenderBody(e, c1) == Reference.Bracket(PrecOf(test), c1, Reference.RenderBody(test, c2))
  {
    RenderOutcome(e, c1);
    RenderOutcome(e, c2);
    if IsNullComparison(e) {
      var test := Binary(if e.bop == Equal then Is else IsNot, e.left, Null);
      assert Reference.RenderBody(e, c1) == Reference.Render(test, c1);
      assert Reference.RenderBody(test, c1) == Reference.RenderBody(test, c2);
    }
  }

  /** A node carrying no precedence of its own (a literal, None, a function
      call, a table, a set expression) is never bracketed by a caller that
      is itself a node or the root scope. */
  lemma DefaultNodesNeverBracketed(e: Expr, caller: Prec)
    requires PrecOf(e) == Default()
    requires caller.rank < MaxInt || caller == Default()
    ensures Reference.Render(e, caller).Ok? ==>
              Reference.Render(e, caller).value.0 == Reference.RenderBody(e, caller).value.0
  {
    DefaultIsMaximal(caller);
  }

  /** Operators: the nodes whose class has an operator precedence. */
  predicate IsOperator(e: Expr)
  {
    e.Unary? || e.Binary? || e.Chain?
  }

  /** Every operator is bracketed inside a function call, whose precedence
      is the default of Expression. */
  lemma OperatorArgumentsBracketed(x: Expr, f: FunctionKind, args: seq<Expr>)
    requires IsOperator(x)
    ensures var t := Reference.Render(x, PrecOf(Call(f, args)));
            t.Ok? ==> t.value.0 == "(" + Reference.RenderBody(x, PrecOf(Call(f, args))).value.0 + ")"
  {
  }

  /** Every node other than a select binds more tightly than a select, so
      no column, table or clause of a select is bracketed for the select's
      sake. */
  lemma SelectBindsLoosest(e: Expr, s: Expr)
    requires s.Select? && !e.Select?
    ensures !Less(PrecOf(e), PrecOf(s))
    ensures Less(PrecOf(s), PrecOf(e))
  {
  }

  /** A select compiled at the top, under the root precedence (0, none), is
      not bracketed and starts with SELECT. */
  lemma TopSelectStartsWithSelect(e: Expr)
    requires e.Select?
    ensures var t := Reference.Render(e, Make(Some(0), None));
            t.Ok? ==> |t.value.0| >= 6 && t.value.0[..6] == "SELECT"
  {
    var t := Reference.RenderSelect(e);
    if t.Ok? {
      var cols := if e.columns.Omitted? then Ok(("*", [])) else Reference.RenderList(e.columns.items, PrecOf(e));
      var parts := Reference.RenderParts(e, 0);
      Strings.JoinStartsWithFirst(["SELECT", cols.value.0] + parts.value.0 + Paging(e), " ");
    }
  }

  /** The having node is never compiled: only whether having is None
      matters, not which node it is. */
  lemma HavingNodeIgnored(e: Expr, h: Expr, caller: Prec)
    requires e.Select? && Present(e.having).Some? && h != Null
    ensures Reference.Render(e, caller) == Reference.Render(e.(having := Some(h)), caller)
  {
    var e' := e.(having := Some(h));
    forall i | 0 <= i < SelectParts
      ensures SelectPart(e, i) == SelectPart(e', i)
    {
    }
    PartsAgree(e, e', 0);
    assert Paging(e) == Paging(e');
    assert Reference.RenderBody(e, caller) == Reference.RenderSelect(e);
    assert Reference.RenderBody(e', caller) == Reference.RenderSelect(e');
  }

  /** Two selects with the same clause slots from i on, and the same
      precedence, render those clauses alike. */
  lemma {:induction false} PartsAgree(e: Expr, e': Expr, i: nat)
    requires e.Select? && e'.Select? && i <= SelectParts
    requires forall j | i <= j < SelectParts :: SelectPart(e, j) == SelectPart(e', j)
    requires PrecOf(e) == PrecOf(e')
    ensures Reference.RenderParts(e, i) == Reference.RenderParts(e', i)
    decreases SelectParts - i
  {
    if i < SelectParts {
      PartsAgree(e, e', i + 1);
    }
  }

  /** compile(expr, state_factory()) fails exactly when a Column node is
      read, with the KeyError of the missing handler, and otherwise leaves
      the tree's literals, in order, in state.parameters. */
  lemma FreshOutcome(e: Expr)
    ensures Outcome(Compiler.CompileFresh(e), HasColumn(e), Literals(e))
  {
    Correspondence.FreshMatches(e);
    RenderOutcome(e, Make(Some(0), None));
  }

  /** compile(select, state_factory()) is not bracketed: it starts with
      SELECT. */
  lemma FreshSelectStartsWithSelect(e: Expr)
    requires e.Select?
    ensures var t := Compiler.CompileFresh(e);
            t.Ok? ==> |t.value.0| >= 6 && t.value.0[..6] == "SELECT"
  {
    Correspondence.FreshMatches(e);
    TopSelectStartsWithSelect(e);
  }
}
