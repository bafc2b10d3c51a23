/** The compiler of lessql/expr/base.py with the handlers registered by
    types.py, operators.py, functions.py and query.py. */
module Compiler {
  import opened Results
  import opened Precedences
  import opened Ast
  import Classes
  import ClassDicts
  import States
  import opened Strings

  /** The handler functions registered with `compile.when`. */
  datatype Handler =
    | Builtins             // compile_builtins
    | NoneHandler          // compile_none
    | UnaryHandler         // compile_unary_operator
    | BinaryHandler        // compile_binary_operator
    | EqualHandler         // compile_equal
    | NotEqualHandler      // compile_not_equal
    | ComparableHandler    // compile_comparable_operator
    | FunctionHandler      // compile_function
    | TableHandler         // compile_table
    | SelectHandler        // compile_select
    | SetExpressionHandler // compile_set_expression

  type Registry = ClassDicts.ClassDict<Classes.ClassId, Handler>

  /** Whether one of the keys stands for class c. */
  predicate Names<K(==)>(keys: seq<ClassDicts.Obj<K>>, c: K)
  {
    |keys| > 0 && (keys[0].cls == c || Names(keys[1..], c))
  }

  /** Compiler.when(*classes)(func): register func for each key in turn. */
  function When<K, V>(d: ClassDicts.ClassDict<K, V>, keys: seq<ClassDicts.Obj<K>>, h: V): ClassDicts.ClassDict<K, V>
    decreases |keys|
  {
    if |keys| == 0 then d
    else When(ClassDicts.Set(d, keys[0], h), keys[1..], h)
  }

  /** What Compiler.when leaves in the map for one class: the new handler
      when some key stands for the class, the previous entry otherwise. */
  lemma {:induction false} WhenAt<K, V>(d: ClassDicts.ClassDict<K, V>, keys: seq<ClassDicts.Obj<K>>, h: V, c: K)
    ensures c in When(d, keys, h).data <==> c in d.data || Names(keys, c)
    ensures c in When(d, keys, h).data ==>
              When(d, keys, h).data[c] == if Names(keys, c) then h else d.data[c]
    decreases |keys|
  {
    if |keys| > 0 {
      var d' := ClassDicts.Set(d, keys[0], h);
      assert d'.data == d.data[keys[0].cls := h];
      WhenAt(d', keys[1..], h, c);
    }
  }

  lemma NamesSix<K>(k0: ClassDicts.Obj<K>, k1: ClassDicts.Obj<K>, k2: ClassDicts.Obj<K>,
                    k3: ClassDicts.Obj<K>, k4: ClassDicts.Obj<K>, k5: ClassDicts.Obj<K>, c: K)
    ensures Names([k0, k1, k2, k3, k4, k5], c) <==>
              c == k0.cls || c == k1.cls || c == k2.cls || c == k3.cls || c == k4.cls || c == k5.cls
  {
    NamesOne(k5, c);
    assert [k4, k5][1..] == [k5];
    assert [k3, k4, k5][1..] == [k4, k5];
    assert [k2, k3, k4, k5][1..] == [k3, k4, k5];
    assert [k1, k2, k3, k4, k5][1..] == [k2, k3, k4, k5];
    assert [k0, k1, k2, k3, k4, k5][1..] == [k1, k2, k3, k4, k5];
    assert Names([k4, k5], c) <==> c == k4.cls || c == k5.cls;
    assert Names([k3, k4, k5], c) <==> c == k3.cls || Names([k4, k5], c);
    assert Names([k2, k3, k4, k5], c) <==> c == k2.cls || Names([k3, k4, k5], c);
    assert Names([k1, k2, k3, k4, k5], c) <==> c == k1.cls || Names([k2, k3, k4, k5], c);
  }

  lemma NamesOne<K>(k: ClassDicts.Obj<K>, c: K)
    ensures Names([k], c) <==> k.cls == c
  {
    assert [k][1..] == [];
  }

  /** Applying `when` registrations in order: each entry is the keys and
      the handler of one decorated function. */
  function Register<K, V>(d: ClassDicts.ClassDict<K, V>, regs: seq<(seq<ClassDicts.Obj<K>>, V)>): ClassDicts.ClassDict<K, V>
    decreases |regs|
  {
    if |regs| == 0 then d else Register(When(d, regs[0].0, regs[0].1), regs[1..])
  }

  /** The handler of the last registration naming class c. */
  function LastHandler<K(==), V>(regs: seq<(seq<ClassDicts.Obj<K>>, V)>, c: K): Option<V>
    decreases |regs|
  {
    if |regs| == 0 then None
    else
      var later := LastHandler(regs[1..], c);
      if later.Some? then later
      else if Names(regs[0].0, c) then Some(regs[0].1)
      else None
  }

  /** A sequence of registrations leaves each class with the handler of the
      last registration naming it, or with its previous entry. */
  lemma {:induction false} RegisterAt<K, V>(d: ClassDicts.ClassDict<K, V>, regs: seq<(seq<ClassDicts.Obj<K>>, V)>, c: K)
    ensures c in Register(d, regs).data <==> c in d.data || LastHandler(regs, c).Some?
    ensures c in Register(d, regs).data ==>
              Register(d, regs).data[c] == if LastHandler(regs, c).Some? then LastHandler(regs, c).value else d.data[c]
    decreases |regs|
  {
    if |regs| > 0 {
      WhenAt(d, regs[0].0, regs[0].1, c);
      RegisterAt(When(d, regs[0].0, regs[0].1), regs[1..], c);
    }
  }

  /** The classes the handler modules register, each with its handler:
      the `compile.when` decorators of types.py, operators.py, functions.py
      and query.py. For type(None) the table holds compile_none, registered
      after compile_builtins (see TypesRegistrations). */
  function Registered(c: Classes.ClassId): Option<Handler>
  {
    match c
    case Int | Long | Bytes | Unicode | Bool => Some(Builtins)
    case NoneType => Some(NoneHandler)
    case UnaryOperator => Some(UnaryHandler)
    case BinaryOperator => Some(BinaryHandler)
    case Equal => Some(EqualHandler)
    case NotEqual => Some(NotEqualHandler)
    case ComparableOperator => Some(ComparableHandler)
    case Function => Some(FunctionHandler)
    case Table => Some(TableHandler)
    case Select => Some(SelectHandler)
    case SetExpression => Some(SetExpressionHandler)
    case _ => None
  }

  const RegisteredClasses: set<Classes.ClassId> :=
    {Classes.Int, Classes.Long, Classes.Bytes, Classes.Unicode, Classes.Bool, Classes.NoneType,
     Classes.UnaryOperator, Classes.BinaryOperator, Classes.Equal, Classes.NotEqual,
     Classes.ComparableOperator, Classes.Function, Classes.Table, Classes.Select,
     Classes.SetExpression}

  /** The map of the default compiler `compile` once the handler modules are
      imported. */
  function DefaultRegistry(): Registry
  {
    ClassDicts.ClassDict(map c | c in RegisteredClasses :: Registered(c).value)
  }

  /** The default map holds exactly the registered classes. */
  lemma DefaultRegistryEntry(c: Classes.ClassId)
    ensures c in DefaultRegistry().data <==> Registered(c).Some?
    ensures c in DefaultRegistry().data ==> Some(DefaultRegistry().data[c]) == Registered(c)
  {
  }

  /** Of two registrations, the later one decides the classes it names. */
  lemma LaterRegistrationWins<K, V>(d: ClassDicts.ClassDict<K, V>, first: seq<ClassDicts.Obj<K>>, h1: V,
                                    second: seq<ClassDicts.Obj<K>>, h2: V, c: K)
    ensures Names(first, c) || Names(second, c) ==> c in Register(d, [(first, h1), (second, h2)]).data
    ensures Names(second, c) ==> Register(d, [(first, h1), (second, h2)]).data[c] == h2
    ensures !Names(second, c) && Names(first, c) ==> Register(d, [(first, h1), (second, h2)]).data[c] == h1
  {
    var regs := [(first, h1), (second, h2)];
    assert regs[1..] == [(second, h2)];
    assert regs[1..][1..] == [];
    assert LastHandler(regs[1..], c) == if Names(second, c) then Some(h2) else None;
    RegisterAt(d, regs, c);
  }

  /** The two registrations of types.py: compile_builtins for the builtin
      classes including type(None), then compile_none for the None instance,
      which replaces the former for type(None) only. */
  lemma TypesRegistrations(d: Registry)
    ensures var builtins := [ClassDicts.ClassObj(Classes.Int), ClassDicts.ClassObj(Classes.Long),
                             ClassDicts.ClassObj(Classes.Bytes), ClassDicts.ClassObj(Classes.Unicode),
                             ClassDicts.ClassObj(Classes.Bool), ClassDicts.ClassObj(Classes.NoneType)];
            var r := Register(d, [(builtins, Builtins), ([ClassDicts.Instance(Classes.NoneType)], NoneHandler)]);
            Classes.NoneType in r.data && r.data[Classes.NoneType] == NoneHandler &&
            Classes.Int in r.data && r.data[Classes.Int] == Builtins
  {
    var builtins := [ClassDicts.ClassObj(Classes.Int), ClassDicts.ClassObj(Classes.Long),
                     ClassDicts.ClassObj(Classes.Bytes), ClassDicts.ClassObj(Classes.Unicode),
                     ClassDicts.ClassObj(Classes.Bool), ClassDicts.ClassObj(Classes.NoneType)];
    var none := [ClassDicts.Instance(Classes.NoneType)];
    NamesOne(none[0], Classes.NoneType);
    NamesOne(none[0], Classes.Int);
    NamesSix(builtins[0], builtins[1], builtins[2], builtins[3], builtins[4], builtins[5], Classes.Int);
    LaterRegistrationWins(d, builtins, Builtins, none, NoneHandler, Classes.NoneType);
    LaterRegistrationWins(d, builtins, Builtins, none, NoneHandler, Classes.Int);
  }

  /** The handler each class resolves to through its MRO, as the handler
      modules intend it: operator subclasses share their base's handler except
      Equal and NotEqual; Column and the abstract bases have none. */
  function HandlerTable(c: Classes.ClassId): Option<Handler>
  {
    match c
    case Int | Long | Bool | Bytes | Unicode => Some(Builtins)
    case NoneType => Some(NoneHandler)
    case UnaryOperator | UnaryPlus | UnaryMinus | Not => Some(UnaryHandler)
    case BinaryOperator | Add | Subtract | Multiply | Divide | Modulo | In | NotIn | Is | IsNot
      | GreaterThan | GreaterThanEqual | LessThan | LessThanEqual => Some(BinaryHandler)
    case Equal => Some(EqualHandler)
    case NotEqual => Some(NotEqualHandler)
    case ComparableOperator | And | Or => Some(ComparableHandler)
    case Function | Min | Max | Sqrt | Power => Some(FunctionHandler)
    case Table => Some(TableHandler)
    case Select => Some(SelectHandler)
    case SetExpression | Union | Intersect | Except => Some(SetExpressionHandler)
    case Object | BaseString | Expression | LateOperatorOverload | OperatorMapping
      | ComparableExpression | Operator | Column => None
  }

  /** Compiler.__call__'s `self._map[expr]` on the default compiler; None
      is the KeyError. */
  function Dispatch(c: Classes.ClassId): Option<Handler>
  {
    ClassDicts.Get(DefaultRegistry(), ClassDicts.Instance(c), Classes.Mro)
  }

  /** Looking a class up in the default map is reading the `Registered`
      attribute along the MRO. */
  lemma {:induction false} FindIsGetattr(mro: seq<Classes.ClassId>, i: nat)
    requires i <= |mro|
    ensures ClassDicts.Find(DefaultRegistry().data, mro[i..]) == Classes.GetattrFrom(Registered, mro, i)
    decreases |mro| - i
  {
    if i < |mro| {
      ClassDicts.FindStep(DefaultRegistry().data, mro[i..]);
      DefaultRegistryEntry(mro[i]);
      assert mro[i..][1..] == mro[i + 1..];
      FindIsGetattr(mro, i + 1);
    }
  }

  /** Every class dispatches to the handler of the table. */
  lemma DispatchIsHandlerTable(c: Classes.ClassId)
    ensures Dispatch(c) == HandlerTable(c)
  {
    FindIsGetattr(Classes.Mro(c), 0);
    assert Classes.Mro(c)[0..] == Classes.Mro(c);
    match c
    case Object => ResolvesObject();
    case Int => ResolvesInt();
    case Long => ResolvesLong();
    case Bool => ResolvesBool();
    case BaseString => ResolvesBaseString();
    case Bytes => ResolvesBytes();
    case Unicode => ResolvesUnicode();
    case NoneType => ResolvesNoneType();
    case Expression => ResolvesExpression();
    case LateOperatorOverload => ResolvesLateOperatorOverload();
    case OperatorMapping => ResolvesOperatorMapping();
    case ComparableExpression => ResolvesComparableExpression();
    case Operator => ResolvesOperator();
    case UnaryOperator => ResolvesUnaryOperator();
    case UnaryPlus => ResolvesUnaryPlus();
    case UnaryMinus => ResolvesUnaryMinus();
    case Not => ResolvesNot();
    case BinaryOperator => ResolvesBinaryOperator();
    case Add => ResolvesAdd();
    case Subtract => ResolvesSubtract();
    case Multiply => ResolvesMultiply();
    case Divide => ResolvesDivide();
    case Modulo => ResolvesModulo();
    case In => ResolvesIn();
    case NotIn => ResolvesNotIn();
    case Is => ResolvesIs();
    case IsNot => ResolvesIsNot();
    case Equal => ResolvesEqual();
    case NotEqual => ResolvesNotEqual();
    case GreaterThan => ResolvesGreaterThan();
    case GreaterThanEqual => ResolvesGreaterThanEqual();
    case LessThan => ResolvesLessThan();
    case LessThanEqual => ResolvesLessThanEqual();
    case ComparableOperator => ResolvesComparableOperator();
    case And => ResolvesAnd();
    case Or => ResolvesOr();
    case Function => ResolvesFunction();
    case Min => ResolvesMin();
    case Max => ResolvesMax();
    case Sqrt => ResolvesSqrt();
    case Power => ResolvesPower();
    case Table => ResolvesTable();
    case Column => ResolvesColumn();
    case Select => ResolvesSelect();
    case SetExpression => ResolvesSetExpression();
    case Union => ResolvesUnion();
    case Intersect => ResolvesIntersect();
    case Except => ResolvesExcept();
  }

  // Per-class unfoldings of the registry lookup, one class per lemma so that
  // each walk along a concrete MRO is proved on its own; together they make
  // up DispatchIsHandlerTable above.

  lemma ResolvesObject()
    ensures Classes.Getattr(Registered, Classes.Mro(Classes.Object)) == HandlerTable(Classes.Object)
  {
  }

  lemma ResolvesInt()
    ensures Classes.Getattr(Registered, Classes.Mro(Classes.Int)) == HandlerTable(Classes.Int)
  {
  }

  lemma ResolvesLong()
    ensures Classes.Getattr(Registered, Classes.Mro(Classes.Long)) == HandlerTable(Classes.Long)
  {
  }

  lemma ResolvesBool()
    ensures Classes.Getattr(Registered, Classes.Mro(Classes.Bool)) == HandlerTable(Classes.Bool)
  {
  }

  lemma ResolvesBaseString()
    ensures Classes.Getattr(Registered, Classes.Mro(Classes.BaseString)) == HandlerTable(Classes.BaseString)
  {
  }

  lemma ResolvesBytes()
    ensures Classes.Getattr(Registered, Classes.Mro(Classes.Bytes)) == HandlerTable(Classes.Bytes)
  {
  }

  lemma ResolvesUnicode()
    ensures Classes.Getattr(Registered, Classes.Mro(Classes.Unicode)) == HandlerTable(Classes.Unicode)
  {
  }

  lemma ResolvesNoneType()
    ensures Classes.Getattr(Registered, Classes.Mro(Classes.NoneType)) == HandlerTable(Classes.NoneType)
  {
  }

  lemma ResolvesExpression()
    ensures Classes.Getattr(Registered, Classes.Mro(Classes.Expression)) == HandlerTable(Classes.Expression)
  {
  }

  lemma ResolvesLateOperatorOverload()
    ensures Classes.Getattr(Registered, Classes.Mro(Classes.LateOperatorOverload)) == HandlerTable(Classes.LateOperatorOverload)
  {
  }

  lemma ResolvesOperatorMapping()
    ensures Classes.Getattr(Registered, Classes.Mro(Classes.OperatorMapping)) == HandlerTable(Classes.OperatorMapping)
  {
  }

  lemma ResolvesComparableExpression()
    ensures Classes.Getattr(Registered, Classes.Mro(Classes.ComparableExpression)) == HandlerTable(Classes.ComparableExpression)
  {
  }

  lemma ResolvesOperator()
    ensures Classes.Getattr(Registered, Classes.Mro(Classes.Operator)) == HandlerTable(Classes.Operator)
  {
  }

  lemma ResolvesUnaryOperator()
    ensures Classes.Getattr(Registered, Classes.Mro(Classes.UnaryOperator)) == HandlerTable(Classes.UnaryOperator)
  {
  }

  lemma ResolvesUnaryPlus()
    ensures Classes.Getattr(Registered, Classes.Mro(Classes.UnaryPlus)) == HandlerTable(Classes.UnaryPlus)
  {
  }

  lemma ResolvesUnaryMinus()
    ensures Classes.Getattr(Registered, Classes.Mro(Classes.UnaryMinus)) == HandlerTable(Classes.UnaryMinus)
  {
  }

  lemma ResolvesNot()
    ensures Classes.Getattr(Registered, Classes.Mro(Classes.Not)) == HandlerTable(Classes.Not)
  {
  }

  lemma ResolvesBinaryOperator()
    ensures Classes.Getattr(Registered, Classes.Mro(Classes.BinaryOperator)) == HandlerTable(Classes.BinaryOperator)
  {
  }

  lemma ResolvesAdd()
    ensures Classes.Getattr(Registered, Classes.Mro(Classes.Add)) == HandlerTable(Classes.Add)
  {
  }

  lemma ResolvesSubtract()
    ensures Classes.Getattr(Registered, Classes.Mro(Classes.Subtract)) == HandlerTable(Classes.Subtract)
  {
  }

  lemma ResolvesMultiply()
    ensures Classes.Getattr(Registered, Classes.Mro(Classes.Multiply)) == HandlerTable(Classes.Multiply)
  {
  }

  lemma ResolvesDivide()
    ensures Classes.Getattr(Registered, Classes.Mro(Classes.Divide)) == HandlerTable(Classes.Divide)
  {
  }

  lemma ResolvesModulo()
    ensures Classes.Getattr(Registered, Classes.Mro(Classes.Modulo)) == HandlerTable(Classes.Modulo)
  {
  }

  lemma ResolvesIn()
    ensures Classes.Getattr(Registered, Classes.Mro(Classes.In)) == HandlerTable(Classes.In)
  {
  }

  lemma ResolvesNotIn()
    ensures Classes.Getattr(Registered, Classes.Mro(Classes.NotIn)) == HandlerTable(Classes.NotIn)
  {
  }

  lemma ResolvesIs()
    ensures Classes.Getattr(Registered, Classes.Mro(Classes.Is)) == HandlerTable(Classes.Is)
  {
  }

  lemma ResolvesIsNot()
    ensures Classes.Getattr(Registered, Classes.Mro(Classes.IsNot)) == HandlerTable(Classes.IsNot)
  {
  }

  lemma ResolvesEqual()
    ensures Classes.Getattr(Registered, Classes.Mro(Classes.Equal)) == HandlerTable(Classes.Equal)
  {
  }

  lemma ResolvesNotEqual()
    ensures Classes.Getattr(Registered, Classes.Mro(Classes.NotEqual)) == HandlerTable(Classes.NotEqual)
  {
  }

  lemma ResolvesGreaterThan()
    ensures Classes.Getattr(Registered, Classes.Mro(Classes.GreaterThan)) == HandlerTable(Classes.GreaterThan)
  {
  }

  lemma ResolvesGreaterThanEqual()
    ensures Classes.Getattr(Registered, Classes.Mro(Classes.GreaterThanEqual)) == HandlerTable(Classes.GreaterThanEqual)
  {
  }

  lemma ResolvesLessThan()
    ensures Classes.Getattr(Registered, Classes.Mro(Classes.LessThan)) == HandlerTable(Classes.LessThan)
  {
  }

  lemma ResolvesLessThanEqual()
    ensures Classes.Getattr(Registered, Classes.Mro(Classes.LessThanEqual)) == HandlerTable(Classes.LessThanEqual)
  {
  }

  lemma ResolvesComparableOperator()
    ensures Classes.Getattr(Registered, Classes.Mro(Classes.ComparableOperator)) == HandlerTable(Classes.ComparableOperator)
  {
  }

  lemma ResolvesAnd()
    ensures Classes.Getattr(Registered, Classes.Mro(Classes.And)) == HandlerTable(Classes.And)
  {
  }

  lemma ResolvesOr()
    ensures Classes.Getattr(Registered, Classes.Mro(Classes.Or)) == HandlerTable(Classes.Or)
  {
  }

  lemma ResolvesFunction()
    ensures Classes.Getattr(Registered, Classes.Mro(Classes.Function)) == HandlerTable(Classes.Function)
  {
  }

  lemma ResolvesMin()
    ensures Classes.Getattr(Registered, Classes.Mro(Classes.Min)) == HandlerTable(Classes.Min)
  {
  }

  lemma ResolvesMax()
    ensures Classes.Getattr(Registered, Classes.Mro(Classes.Max)) == HandlerTable(Classes.Max)
  {
  }

  lemma ResolvesSqrt()
    ensures Classes.Getattr(Registered, Classes.Mro(Classes.Sqrt)) == HandlerTable(Classes.Sqrt)
  {
  }

  lemma ResolvesPower()
    ensures Classes.Getattr(Registered, Classes.Mro(Classes.Power)) == HandlerTable(Classes.Power)
  {
  }

  lemma ResolvesTable()
    ensures Classes.Getattr(Registered, Classes.Mro(Classes.Table)) == HandlerTable(Classes.Table)
  {
  }

  lemma ResolvesColumn()
    ensures Classes.Getattr(Registered, Classes.Mro(Classes.Column)) == HandlerTable(Classes.Column)
  {
  }

  lemma ResolvesSelect()
    ensures Classes.Getattr(Registered, Classes.Mro(Classes.Select)) == HandlerTable(Classes.Select)
  {
  }

  lemma ResolvesSetExpression()
    ensures Classes.Getattr(Registered, Classes.Mro(Classes.SetExpression)) == HandlerTable(Classes.SetExpression)
  {
  }

  lemma ResolvesUnion()
    ensures Classes.Getattr(Registered, Classes.Mro(Classes.Union)) == HandlerTable(Classes.Union)
  {
  }

  lemma ResolvesIntersect()
    ensures Classes.Getattr(Registered, Classes.Mro(Classes.Intersect)) == HandlerTable(Classes.Intersect)
  {
  }

  lemma ResolvesExcept()
    ensures Classes.Getattr(Registered, Classes.Mro(Classes.Except)) == HandlerTable(Classes.Except)
  {
  }

  /** The node kinds each handler is registered for. */
  predicate Fits(h: Handler, e: Expr)
  {
    match h
    case Builtins => e.Lit?
    case NoneHandler => e.Null?
    case UnaryHandler => e.Unary?
    case BinaryHandler => e.Binary? && e.bop != Ast.Equal && e.bop != Ast.NotEqual
    case EqualHandler => e.Binary? && e.bop == Ast.Equal
    case NotEqualHandler => e.Binary? && e.bop == Ast.NotEqual
    case ComparableHandler => e.Chain?
    case FunctionHandler => e.Call?
    case TableHandler => e.TableRef?
    case SelectHandler => e.Select?
    case SetExpressionHandler => e.SetOp?
  }

  /** The table's handler for a node's class is one written for its kind, and
      only a Column has none. */
  lemma HandlerTableFits(e: Expr)
    ensures HandlerTable(ClassOf(e)).None? <==> e.ColumnRef?
    ensures HandlerTable(ClassOf(e)).Some? ==> Fits(HandlerTable(ClassOf(e)).value, e)
  {
    match e {
      case Binary(k, _, _) =>
        match k {
          case Equal =>
          case NotEqual =>
          case _ =>
        }
      case _ =>
    }
  }

  /** Every node but a Column finds a handler in the default map, and the
      handler it finds is one written for its kind. */
  lemma DispatchFits(e: Expr)
    ensures Dispatch(ClassOf(e)).None? <==> e.ColumnRef?
    ensures Dispatch(ClassOf(e)).Some? ==> Fits(Dispatch(ClassOf(e)).value, e)
  {
    DispatchIsHandlerTable(ClassOf(e));
    HandlerTableFits(e);
  }

  type St = States.State<Expr>

  /** Compiler.__call__(expr, state): bind the node's precedence in a new
      scope, run the handler found for the node's class, drop the scope, and
      bracket the result when the node binds less tightly than the
      precedence of the scope it was compiled in. Errors are the exceptions
      raised on the way. */
  function Compile(e: Expr, st: St): (r: Result<(string, St), Error>)
    requires States.Valid(st)
    ensures r.Ok? ==> r.value.1.frames == st.frames && |r.value.1.store| == |st.store|
    ensures r.Ok? ==> States.Valid(r.value.1)
    decreases Size(e), 2
  {
    var p := PrecOf(e);
    // `with state(precedence=p)` pushes no copied names, so it cannot fail
    var pushed := States.Push(st, [], map["precedence" := States.PrecV(p)]).value;
    var h := Dispatch(ClassOf(e));
    if h.None? then Err(KeyError(Classes.Name(ClassOf(e))))
    else
      DispatchFits(e);
      Close(p, Apply(h.value, e, pushed), st)
  }

  /** The end of Compiler.__call__: leave the node's scope, then bracket the
      handler's text when the node's precedence p is below the precedence
      now current. */
  function Close(p: Prec, out: Result<(string, St), Error>, st: St): (r: Result<(string, St), Error>)
    requires out.Ok? ==>
               States.Valid(out.value.1) && |out.value.1.frames| == |st.frames| + 1
               && out.value.1.frames[1..] == st.frames && |out.value.1.store| == |st.store|
    ensures r.Ok? ==> r.value.1.frames == st.frames && |r.value.1.store| == |st.store|
    ensures r.Ok? ==> States.Valid(r.value.1)
    ensures out.Ok? && States.Lookup(st.frames, "precedence").None? ==> r == Err(AttributeError("precedence"))
    ensures out.Ok? && States.Lookup(st.frames, "precedence").Some? && States.Lookup(st.frames, "precedence").value.PrecV? ==>
              var caller := States.Lookup(st.frames, "precedence").value.prec;
              r.Ok? && r.value.1.store == out.value.1.store
              && r.value.0 == if Less(p, caller) then "(" + out.value.0 + ")" else out.value.0
  {
    var o :- out;
    var popped := States.Pop(o.1);
    var current :- States.Get(popped, "precedence");
    if !current.PrecV? then Err(TypeError("unorderable types"))
    else Ok((if Less(p, current.prec) then "(" + o.0 + ")" else o.0, popped))
  }

  /** Calling handler h on node e with the state its precedence was pushed on. */
  function Apply(h: Handler, e: Expr, st: St): (r: Result<(string, St), Error>)
    requires States.Valid(st) && Fits(h, e)
    ensures r.Ok? ==> r.value.1.frames == st.frames && |r.value.1.store| == |st.store|
    ensures r.Ok? ==> States.Valid(r.value.1)
    decreases Size(e), 1
  {
    match h
    case Builtins =>
      // state.parameters.append(expr)
      var st' :- States.Append(st, "parameters", e);
      Ok(("?", st'))
    case NoneHandler => Ok(("NULL", st))
    case UnaryHandler => CompileUnary(e.uop, e.operand, st)
    case BinaryHandler => CompileInfix(e.left, BinaryText(e.bop), e.right, st)
    case EqualHandler => CompileComparison(e, st, "=", Ast.Is)
    case NotEqualHandler => CompileComparison(e, st, "!=", Ast.IsNot)
    case ComparableHandler => CompileChain(e.cop, e.exprs, st)
    case FunctionHandler => CompileCall(e.fn, e.args, st)
    case TableHandler => Ok((e.name, st))
    case SelectHandler => CompileSelect(e, st)
    case SetExpressionHandler => CompileInfix(e.lhs, SetText(e.sop), e.rhs, st)
  }

  /** compile_unary_operator: the operator text, then the operand. */
  function CompileUnary(k: UnaryKind, x: Expr, st: St): (r: Result<(string, St), Error>)
    requires States.Valid(st)
    ensures r.Ok? ==> r.value.1.frames == st.frames && |r.value.1.store| == |st.store|
    ensures r.Ok? ==> States.Valid(r.value.1)
    decreases Size(x) + 1, 0
  {
    CompileOperand(UnaryText(k), x, st)
  }

  /** Text already produced, followed by the compiled operand x. */
  function CompileOperand(prefix: string, x: Expr, st: St): (r: Result<(string, St), Error>)
    requires States.Valid(st)
    ensures r.Ok? ==> r.value.1.frames == st.frames && |r.value.1.store| == |st.store|
    ensures r.Ok? ==> States.Valid(r.value.1)
    decreases Size(x), 3
  {
    var y :- Compile(x, st);
    Ok((prefix + y.0, y.1))
  }

  /** compile_comparable_operator: the operands joined by AND or OR. */
  function CompileChain(k: ChainKind, es: seq<Expr>, st: St): (r: Result<(string, St), Error>)
    requires States.Valid(st)
    ensures r.Ok? ==> r.value.1.frames == st.frames && |r.value.1.store| == |st.store|
    ensures r.Ok? ==> States.Valid(r.value.1)
    decreases SizeSeq(es) + 1, 0
  {
    var xs :- CompileAll(es, st);
    Ok((Join(xs.0, " " + ChainText(k) + " "), xs.1))
  }

  /** compile_function: the function name and its comma-separated arguments
      in parentheses. */
  function CompileCall(f: FunctionKind, args: seq<Expr>, st: St): (r: Result<(string, St), Error>)
    requires States.Valid(st)
    ensures r.Ok? ==> r.value.1.frames == st.frames && |r.value.1.store| == |st.store|
    ensures r.Ok? ==> States.Valid(r.value.1)
    decreases SizeSeq(args) + 1, 0
  {
    var xs :- CompileAll(args, st);
    Ok((FunctionName(f) + "(" + Join(xs.0, ", ") + ")", xs.1))
  }

  /** compile_binary_operator and compile_set_expression: both operands, left
      first, around the operator text. */
  function CompileInfix(l: Expr, op: string, r: Expr, st: St): (res: Result<(string, St), Error>)
    requires States.Valid(st)
    ensures res.Ok? ==> res.value.1.frames == st.frames && |res.value.1.store| == |st.store|
    ensures res.Ok? ==> States.Valid(res.value.1)
    decreases Size(l) + Size(r), 0
  {
    var x :- Compile(l, st);
    CompileOperand(x.0 + " " + op + " ", r, x.1)
  }

  /** compile_equal and compile_not_equal. A comparison with None becomes an
      IS (NOT) test compiled in a scope pushed on the parent scopes, so that it
      is bracketed against the caller's precedence; any other comparison is
      compiled as a plain BinaryOperator carrying the operator text. */
  function CompileComparison(e: Expr, st: St, op: string, test: BinaryKind): (r: Result<(string, St), Error>)
    requires States.Valid(st) && e.Binary? && (e.bop == Ast.Equal || e.bop == Ast.NotEqual)
    requires test == Ast.Is || test == Ast.IsNot
    ensures r.Ok? ==> r.value.1.frames == st.frames && |r.value.1.store| == |st.store|
    ensures r.Ok? ==> States.Valid(r.value.1)
    decreases Size(e), 0
  {
    if e.right == Null then
      var outer := States.Push(States.Pop(st), [], map[]).value;
      var x :- Compile(Binary(test, e.left, Null), outer);
      Ok((x.0, States.State(st.frames, x.1.store)))
    else
      Compile(Binary(Plain(op), e.left, e.right), st)
  }

  /** The handler's generator over a sequence of nodes, left to right. */
  function CompileAll(es: seq<Expr>, st: St): (r: Result<(seq<string>, St), Error>)
    requires States.Valid(st)
    ensures r.Ok? ==> |r.value.0| == |es|
    ensures r.Ok? ==> r.value.1.frames == st.frames && |r.value.1.store| == |st.store|
    ensures r.Ok? ==> States.Valid(r.value.1)
    decreases SizeSeq(es), 3
  {
    if |es| == 0 then Ok(([], st))
    else
      var first :- Compile(es[0], st);
      var rest :- CompileAll(es[1..], first.1);
      Ok(([first.0] + rest.0, rest.1))
  }

  /** u", ".join(compile(x, state) for x in xs). */
  function CompileList(es: seq<Expr>, st: St): (r: Result<(string, St), Error>)
    requires States.Valid(st)
    ensures r.Ok? ==> r.value.1.frames == st.frames && |r.value.1.store| == |st.store|
    ensures r.Ok? ==> States.Valid(r.value.1)
    decreases SizeSeq(es), 4
  {
    var xs :- CompileAll(es, st);
    Ok((Join(xs.0, ", "), xs.1))
  }

  /** A clause made of a keyword and one compiled node, or nothing when the
      node is absent. */
  function CompileClause(keyword: string, x: Option<Expr>, st: St): (r: Result<(seq<string>, St), Error>)
    requires States.Valid(st)
    ensures r.Ok? ==> |r.value.0| == (if x.None? then 0 else 2)
    ensures r.Ok? && x.Some? ==> r.value.0[0] == keyword
    ensures r.Ok? ==> r.value.1.frames == st.frames && |r.value.1.store| == |st.store|
    ensures r.Ok? ==> States.Valid(r.value.1)
    decreases if x.None? then 0 else Size(x.value), 5
  {
    if x.None? then Ok(([], st))
    else
      var c :- Compile(x.value, st);
      Ok(([keyword, c.0], c.1))
  }

  /** A clause made of a keyword and a comma-separated list, or nothing when
      the list was not given. */
  function CompileListClause(keyword: string, xs: Exprs, st: St): (r: Result<(seq<string>, St), Error>)
    requires States.Valid(st)
    ensures r.Ok? ==> |r.value.0| == (if xs.Omitted? then 0 else 2)
    ensures r.Ok? && xs.Given? ==> r.value.0[0] == keyword
    ensures r.Ok? ==> r.value.1.frames == st.frames && |r.value.1.store| == |st.store|
    ensures r.Ok? ==> States.Valid(r.value.1)
    decreases if xs.Omitted? then 0 else SizeSeq(xs.items), 5
  {
    if xs.Omitted? then Ok(([], st))
    else
      var c :- CompileList(xs.items, st);
      Ok(([keyword, c.0], c.1))
  }

  /** compile_select. The columns (or `*`), then each clause of SelectPart
      that was given, then LIMIT and OFFSET, joined by spaces. As written,
      distinct and with_ are never read and window has no effect. */
  function CompileSelect(e: Expr, st: St): (r: Result<(string, St), Error>)
    requires States.Valid(st) && e.Select?
    ensures r.Ok? ==> r.value.1.frames == st.frames && |r.value.1.store| == |st.store|
    ensures r.Ok? ==> States.Valid(r.value.1)
    decreases Size(e), 0, SelectParts + 1
  {
    var cols :- if e.columns.Omitted? then Ok(("*", st)) else CompileList(e.columns.items, st);
    var parts :- CompileParts(e, 0, cols.1);
    Ok((Join(["SELECT", cols.0] + parts.0 + Paging(e), " "), parts.1))
  }

  /** The tokens of the select's clauses from the i-th on. */
  function CompileParts(e: Expr, i: nat, st: St): (r: Result<(seq<string>, St), Error>)
    requires States.Valid(st) && e.Select? && i <= SelectParts
    ensures r.Ok? ==> r.value.1.frames == st.frames && |r.value.1.store| == |st.store|
    ensures r.Ok? ==> States.Valid(r.value.1)
    decreases Size(e), 0, SelectParts - i
  {
    if i == SelectParts then Ok(([], st))
    else
      var first :- CompilePart(SelectPart(e, i), st);
      var rest :- CompileParts(e, i + 1, first.1);
      Ok((first.0 + rest.0, rest.1))
  }

  function CompilePart(part: Part, st: St): (r: Result<(seq<string>, St), Error>)
    requires States.Valid(st)
    ensures r.Ok? ==> r.value.1.frames == st.frames && |r.value.1.store| == |st.store|
    ensures r.Ok? ==> States.Valid(r.value.1)
    decreases PartSize(part), 6
  {
    match part
    case ListPart(keyword, xs) => CompileListClause(keyword, xs, st)
    case OnePart(keyword, x) => CompileClause(keyword, x, st)
  }

  /** `compile(expr, state_factory())`: compiling in a fresh state; the
      result is the SQL text and the state's parameters list. */
  function CompileFresh(e: Expr): (r: Result<(string, seq<Expr>), Error>)
  {
    CompileCollecting(e, States.Factory([], map[]).value)
  }

  /** Compiling in st, then reading the list the parameters name refers to
      in the root scope, list 0. */
  function CompileCollecting(e: Expr, st: St): (r: Result<(string, seq<Expr>), Error>)
    requires States.Valid(st) && |st.store| > 0
  {
    var x :- Compile(e, st);
    Ok((x.0, x.1.store[0]))
  }
}
