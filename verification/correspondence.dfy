/** The stateful compiler and the pure reference agree: compiling a node in a
    state whose innermost precedence is `caller` and whose parameter list is
    list `id` gives the text Reference.Render gives under `caller`, appends
    exactly the parameters it returns to list `id`, touches no other list and
    leaves the scopes as they were; and it fails exactly when the reference
    fails, with the same error. */
module Correspondence {
  import opened Results
  import opened Precedences
  import opened Ast
  import States
  import Compiler
  import Reference

  type St = Compiler.St

  /** A state that compiles under precedence p and collects parameters in
      list id. */
  predicate Ready(st: St, p: Prec, id: nat)
  {
    States.Valid(st) && id < |st.store|
    && States.Lookup(st.frames, "precedence") == Some(States.PrecV(p))
    && States.Lookup(st.frames, "parameters") == Some(States.ListV(id))
  }

  /** The state after ps has been appended to list id. */
  function Extend(st: St, id: nat, ps: seq<Expr>): St
    requires id < |st.store|
  {
    States.State(st.frames, st.store[id := st.store[id] + ps])
  }

  /** A reference outcome read as a compiler outcome in state st. */
  function Lift<T>(r: Reference.Out<T>, st: St, id: nat): Result<(T, St), Error>
    requires id < |st.store|
  {
    if r.Err? then Err(r.error) else Ok((r.value.0, Extend(st, id, r.value.1)))
  }

  /** The frame `with state(precedence=p)` pushes. */
  function PrecFrame(p: Prec): States.Frame
  {
    map["precedence" := States.PrecV(p)]
  }

  lemma ExtendReady(st: St, p: Prec, id: nat, ps: seq<Expr>)
    requires Ready(st, p, id)
    ensures Ready(Extend(st, id, ps), p, id)
  {
    var st' := Extend(st, id, ps);
    forall i | 0 <= i < |st'.frames|
      ensures States.FrameValid(st'.frames[i], |st'.store|)
    {
      assert States.FrameValid(st.frames[i], |st.store|);
    }
  }

  lemma ExtendTwice(st: St, id: nat, a: seq<Expr>, b: seq<Expr>)
    requires id < |st.store|
    ensures Extend(Extend(st, id, a), id, b) == Extend(st, id, a + b)
  {
    assert st.store[id] + a + b == st.store[id] + (a + b);
  }

  lemma ExtendNothing(st: St, id: nat)
    requires id < |st.store|
    ensures Extend(st, id, []) == st
  {
    assert st.store[id] + [] == st.store[id];
  }

  lemma LookupPushed(f: States.Frame, fs: seq<States.Frame>, n: string)
    ensures States.Lookup([f] + fs, n) == if n in f then Some(f[n]) else States.Lookup(fs, n)
  {
    assert ([f] + fs)[1..] == fs;
  }

  /** Pushing a precedence frame keeps the parameter list and changes the
      precedence. */
  lemma ReadyPushed(st: St, caller: Prec, id: nat, f: States.Frame, p: Prec)
    requires Ready(st, caller, id)
    requires f == PrecFrame(p) || (f == map[] && p == caller)
    ensures Ready(States.PushFrame(st, f), p, id)
  {
    var pushed := States.PushFrame(st, f);
    LookupPushed(f, st.frames, "precedence");
    LookupPushed(f, st.frames, "parameters");
    forall i | 0 <= i < |pushed.frames|
      ensures States.FrameValid(pushed.frames[i], |pushed.store|)
    {
      if i > 0 {
        assert pushed.frames[i] == st.frames[i - 1];
      }
    }
  }

  lemma PopPushed(st: St, f: States.Frame)
    ensures States.Pop(States.PushFrame(st, f)) == st
  {
    assert ([f] + st.frames)[1..] == st.frames;
  }

  /** Compiler.Compile and Reference.Render agree. */
  lemma {:induction false} CompileMatches(e: Expr, st: St, caller: Prec, id: nat)
    requires Ready(st, caller, id)
    ensures Compiler.Compile(e, st) == Lift(Reference.Render(e, caller), st, id)
    decreases Size(e), 2
  {
    var p := PrecOf(e);
    var pushed := States.PushFrame(st, PrecFrame(p));
    assert States.Push(st, [], PrecFrame(p)).value == pushed;
    ReadyPushed(st, caller, id, PrecFrame(p), p);
    Compiler.DispatchFits(e);
    var h := Compiler.Dispatch(ClassOf(e));
    if h.Some? {
      ApplyMatches(h.value, e, st, caller, id);
      assert pushed == Pushed(st, e);
      CloseMatches(p, Reference.RenderBody(e, caller), st, caller, id);
    }
  }

  /** Leaving the scope and bracketing agree with Reference.Bracket. */
  lemma CloseMatches(p: Prec, body: Reference.Out<string>, st: St, caller: Prec, id: nat)
    requires Ready(st, caller, id)
    ensures var pushed := States.PushFrame(st, PrecFrame(p));
      id < |pushed.store|
      && Compiler.Close(p, Lift(body, pushed, id), st) == Lift(Reference.Bracket(p, caller, body), st, id)
  {
    ReadyPushed(st, caller, id, PrecFrame(p), p);
    if body.Ok? {
      PopPushed(Extend(st, id, body.value.1), PrecFrame(p));
      ExtendReady(st, caller, id, body.value.1);
    }
  }

  /** The state a handler runs in: the caller's state with the node's
      precedence pushed. */
  function Pushed(st: St, e: Expr): St
  {
    States.PushFrame(st, PrecFrame(PrecOf(e)))
  }

  /** A handler applied to the state its node's precedence was pushed on
      agrees with the reference body. */
  lemma {:induction false} ApplyMatches(h: Compiler.Handler, e: Expr, st: St, caller: Prec, id: nat)
    requires Ready(st, caller, id) && Compiler.Fits(h, e)
    ensures Ready(Pushed(st, e), PrecOf(e), id)
    ensures Compiler.Apply(h, e, Pushed(st, e)) == Lift(Reference.RenderBody(e, caller), Pushed(st, e), id)
    decreases Size(e), 1
  {
    var pst := Pushed(st, e);
    var p := PrecOf(e);
    ReadyPushed(st, caller, id, PrecFrame(p), p);
    match h
    case Builtins => ParameterMatches(e, pst, p, id);
    case NoneHandler => ExtendNothing(pst, id);
    case UnaryHandler => UnaryMatches(e.uop, e.operand, pst, p, id);
    case BinaryHandler => InfixMatches(e.left, BinaryText(e.bop), e.right, pst, p, id);
    case EqualHandler => ComparisonMatches(e, st, caller, id, "=", Is);
    case NotEqualHandler => ComparisonMatches(e, st, caller, id, "!=", IsNot);
    case ComparableHandler => ChainMatches(e.cop, e.exprs, pst, p, id);
    case FunctionHandler => CallMatches(e.fn, e.args, pst, p, id);
    case TableHandler => ExtendNothing(pst, id);
    case SelectHandler => SelectMatches(e, pst, id);
    case SetExpressionHandler => InfixMatches(e.lhs, SetText(e.sop), e.rhs, pst, p, id);
  }

  /** Appending to `parameters` is extending list id by the literal. */
  lemma ParameterMatches(e: Expr, st: St, p: Prec, id: nat)
    requires Ready(st, p, id)
    ensures States.Append(st, "parameters", e) == Ok(Extend(st, id, [e]))
  {
    var a := States.Append(st, "parameters", e);
    assert a.value.store == st.store[id := st.store[id] + [e]];
  }

  lemma {:induction false} UnaryMatches(k: UnaryKind, x: Expr, st: St, p: Prec, id: nat)
    requires Ready(st, p, id)
    ensures Compiler.CompileUnary(k, x, st) == Lift(Reference.RenderUnary(k, x, p), st, id)
    decreases Size(x) + 1, 0
  {
    OperandMatches(UnaryText(k), x, st, p, id);
  }

  /** An operand after text already produced. */
  lemma {:induction false} OperandMatches(prefix: string, x: Expr, st: St, p: Prec, id: nat)
    requires Ready(st, p, id)
    ensures var y := Reference.Render(x, p);
            Compiler.CompileOperand(prefix, x, st)
              == if y.Err? then Err(y.error) else Ok((prefix + y.value.0, Extend(st, id, y.value.1)))
    decreases Size(x), 3
  {
    CompileMatches(x, st, p, id);
  }

  lemma {:induction false} ChainMatches(k: ChainKind, es: seq<Expr>, st: St, p: Prec, id: nat)
    requires Ready(st, p, id)
    ensures Compiler.CompileChain(k, es, st) == Lift(Reference.RenderChain(k, es, p), st, id)
    decreases SizeSeq(es) + 1, 0
  {
    AllMatches(es, st, p, id);
  }

  lemma {:induction false} CallMatches(f: FunctionKind, args: seq<Expr>, st: St, p: Prec, id: nat)
    requires Ready(st, p, id)
    ensures Compiler.CompileCall(f, args, st) == Lift(Reference.RenderCall(f, args, p), st, id)
    decreases SizeSeq(args) + 1, 0
  {
    AllMatches(args, st, p, id);
  }

  /** Two operands compiled one after the other. */
  lemma {:induction false} InfixMatches(l: Expr, op: string, r: Expr, st: St, p: Prec, id: nat)
    requires Ready(st, p, id)
    ensures Compiler.CompileInfix(l, op, r, st) == Lift(Reference.RenderInfix(l, op, r, p), st, id)
    decreases Size(l) + Size(r), 0
  {
    CompileMatches(l, st, p, id);
    var x := Reference.Render(l, p);
    if x.Ok? {
      ExtendReady(st, p, id, x.value.1);
      OperandMatches(x.value.0 + " " + op + " ", r, Extend(st, id, x.value.1), p, id);
      var y := Reference.Render(r, p);
      if y.Ok? {
        ExtendTwice(st, id, x.value.1, y.value.1);
      }
    }
  }

  /** compile_equal and compile_not_equal agree with the reference. */
  lemma {:induction false} ComparisonMatches(e: Expr, st: St, caller: Prec, id: nat, op: string, test: BinaryKind)
    requires Ready(st, caller, id) && e.Binary?
    requires (e.bop == Equal && op == "=" && test == Is) || (e.bop == NotEqual && op == "!=" && test == IsNot)
    ensures Ready(Pushed(st, e), PrecOf(e), id)
    ensures Compiler.CompileComparison(e, Pushed(st, e), op, test)
      == Lift(Reference.RenderComparison(e, caller, op, test), Pushed(st, e), id)
    decreases Size(e), 0
  {
    ReadyPushed(st, caller, id, PrecFrame(PrecOf(e)), PrecOf(e));
    if e.right == Null {
      NullComparisonMatches(e, st, PrecFrame(PrecOf(e)), caller, id, op, test);
    } else {
      CompileMatches(Binary(Plain(op), e.left, e.right), Pushed(st, e), PrecOf(e), id);
    }
  }

  /** A comparison with None is compiled in a fresh scope over the caller's
      scopes, and so under the caller's precedence. */
  lemma {:induction false} NullComparisonMatches(e: Expr, st: St, f: States.Frame, caller: Prec, id: nat, op: string, test: BinaryKind)
    requires Ready(st, caller, id) && States.Valid(States.PushFrame(st, f)) && e.Binary? && e.right == Null
    requires (e.bop == Equal && op == "=" && test == Is) || (e.bop == NotEqual && op == "!=" && test == IsNot)
    ensures Compiler.CompileComparison(e, States.PushFrame(st, f), op, test)
      == Lift(Reference.RenderComparison(e, caller, op, test), States.PushFrame(st, f), id)
    decreases Size(e), 0, 0
  {
    PopPushed(st, f);
    var outer := States.PushFrame(st, map[]);
    assert States.Push(States.Pop(States.PushFrame(st, f)), [], map[]).value == outer;
    ReadyPushed(st, caller, id, map[], caller);
    CompileMatches(Binary(test, e.left, Null), outer, caller, id);
    var x := Reference.Render(Binary(test, e.left, Null), caller);
    if x.Ok? {
      assert Extend(outer, id, x.value.1).store == Extend(States.PushFrame(st, f), id, x.value.1).store;
    }
  }

  lemma {:induction false} AllMatches(es: seq<Expr>, st: St, p: Prec, id: nat)
    requires Ready(st, p, id)
    ensures Compiler.CompileAll(es, st) == Lift(Reference.RenderSeq(es, p), st, id)
    decreases SizeSeq(es), 3
  {
    if |es| > 0 {
      CompileMatches(es[0], st, p, id);
      var x := Reference.Render(es[0], p);
      if x.Ok? {
        ExtendReady(st, p, id, x.value.1);
        AllMatches(es[1..], Extend(st, id, x.value.1), p, id);
        var y := Reference.RenderSeq(es[1..], p);
        if y.Ok? {
          ExtendTwice(st, id, x.value.1, y.value.1);
        }
      }
    } else {
      ExtendNothing(st, id);
    }
  }

  lemma {:induction false} ListMatches(es: seq<Expr>, st: St, p: Prec, id: nat)
    requires Ready(st, p, id)
    ensures Compiler.CompileList(es, st) == Lift(Reference.RenderList(es, p), st, id)
    decreases SizeSeq(es), 4
  {
    AllMatches(es, st, p, id);
  }

  lemma {:induction false} ClauseMatches(keyword: string, x: Option<Expr>, st: St, p: Prec, id: nat)
    requires Ready(st, p, id)
    ensures Compiler.CompileClause(keyword, x, st) == Lift(Reference.RenderClause(keyword, x, p), st, id)
    decreases if x.None? then 0 else Size(x.value), 5
  {
    if x.Some? {
      CompileMatches(x.value, st, p, id);
    } else {
      ExtendNothing(st, id);
    }
  }

  lemma {:induction false} ListClauseMatches(keyword: string, xs: Exprs, st: St, p: Prec, id: nat)
    requires Ready(st, p, id)
    ensures Compiler.CompileListClause(keyword, xs, st) == Lift(Reference.RenderListClause(keyword, xs, p), st, id)
    decreases if xs.Omitted? then 0 else SizeSeq(xs.items), 5
  {
    if xs.Given? {
      ListMatches(xs.items, st, p, id);
    } else {
      ExtendNothing(st, id);
    }
  }

  lemma {:induction false} PartMatches(part: Part, st: St, p: Prec, id: nat)
    requires Ready(st, p, id)
    ensures Compiler.CompilePart(part, st) == Lift(Reference.RenderPart(part, p), st, id)
    decreases PartSize(part), 6
  {
    match part
    case ListPart(keyword, xs) => ListClauseMatches(keyword, xs, st, p, id);
    case OnePart(keyword, x) => ClauseMatches(keyword, x, st, p, id);
  }

  lemma {:induction false} SelectMatches(e: Expr, st: St, id: nat)
    requires e.Select? && Ready(st, PrecOf(e), id)
    ensures Compiler.CompileSelect(e, st) == Lift(Reference.RenderSelect(e), st, id)
    decreases Size(e), 0, SelectParts + 1
  {
    var cols := if e.columns.Omitted? then Ok(("*", [])) else Reference.RenderList(e.columns.items, PrecOf(e));
    if e.columns.Given? {
      ListMatches(e.columns.items, st, PrecOf(e), id);
    } else {
      ExtendNothing(st, id);
    }
    if cols.Ok? {
      ExtendReady(st, PrecOf(e), id, cols.value.1);
      PartsMatches(e, 0, Extend(st, id, cols.value.1), id);
      var parts := Reference.RenderParts(e, 0);
      if parts.Ok? {
        ExtendTwice(st, id, cols.value.1, parts.value.1);
      }
    }
  }

  lemma {:induction false} PartsMatches(e: Expr, i: nat, st: St, id: nat)
    requires e.Select? && i <= SelectParts && Ready(st, PrecOf(e), id)
    ensures Compiler.CompileParts(e, i, st) == Lift(Reference.RenderParts(e, i), st, id)
    decreases Size(e), 0, SelectParts - i
  {
    if i < SelectParts {
      PartMatches(SelectPart(e, i), st, PrecOf(e), id);
      var x := Reference.RenderPart(SelectPart(e, i), PrecOf(e));
      if x.Ok? {
        ExtendReady(st, PrecOf(e), id, x.value.1);
        PartsMatches(e, i + 1, Extend(st, id, x.value.1), id);
        var y := Reference.RenderParts(e, i + 1);
        if y.Ok? {
          ExtendTwice(st, id, x.value.1, y.value.1);
        }
      }
    } else {
      ExtendNothing(st, id);
    }
  }

  /** Compiling in a fresh state_factory() state is the reference under the
      root precedence (0, none): the same text, and the parameters list
      holds exactly the reference's parameters. */
  lemma FreshMatches(e: Expr)
    ensures Compiler.CompileFresh(e) == Reference.Render(e, Make(Some(0), None))
  {
    FreshReady();
    CollectingMatches(e, States.Factory([], map[]).value, Make(Some(0), None));
  }

  lemma CollectingMatches(e: Expr, st: St, caller: Prec)
    requires Ready(st, caller, 0) && st.store[0] == []
    ensures Compiler.CompileCollecting(e, st) == Reference.Render(e, caller)
  {
    CompileMatches(e, st, caller, 0);
    var x := Reference.Render(e, caller);
    var c := Compiler.Compile(e, st);
    assert c == Lift(x, st, 0);
    if x.Ok? {
      assert c.value.1.store[0] == [] + x.value.1 == x.value.1;
      assert Compiler.CompileCollecting(e, st) == Ok((x.value.0, x.value.1)) == x;
    } else {
      assert Compiler.CompileCollecting(e, st) == Err(c.error);
    }
  }

  /** state_factory() compiles under the root precedence and collects
      parameters in list 0, which starts empty. */
  lemma FreshReady()
    ensures States.Factory<Expr>([], map[]).Ok?
    ensures var st: St := States.Factory([], map[]).value;
            Ready(st, Make(Some(0), None), 0) && st.store[0] == []
  {
    var root: St := States.State([States.Root()], [[]]);
    var st: St := States.Factory([], map[]).value;
    assert st == States.PushFrame(root, map[]);
    assert States.Lookup(st.frames, "precedence") == States.Lookup(root.frames, "precedence");
    assert States.Lookup(st.frames, "parameters") == States.Lookup(root.frames, "parameters");
  }
}
