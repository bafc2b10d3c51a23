/** The expression tree: the node kinds of lessql/expr/{types,operators,
    functions,query}.py as one closed datatype, with each node's class and
    class-level precedence. */
module Ast {
  import opened Results
  import opened Precedences
  import Classes
  import Strings

  /** Python values compiled as bound parameters: int/long, bool, bytes, unicode. */
  datatype Literal =
    | IntLit(i: int)
    | BoolLit(b: bool)
    | BytesLit(bytes: seq<bv8>)
    | TextLit(text: string)

  datatype UnaryKind = UnaryPlus | UnaryMinus | Not

  /** Binary operator classes; Plain is a bare BinaryOperator instance whose
      `operator` attribute was set on the instance (the Equal/NotEqual rewrite). */
  datatype BinaryKind =
    | Add | Subtract | Multiply | Divide | Modulo
    | In | NotIn | Is | IsNot | Equal | NotEqual
    | GreaterThan | GreaterThanEqual | LessThan | LessThanEqual
    | Plain(operator: string)

  /** ComparableOperator subclasses joining any number of operands. */
  datatype ChainKind = And | Or

  datatype FunctionKind = Min | Max | Sqrt | Power

  datatype SetKind = Union | Intersect | Except

  /** An optional list attribute of Select: None (Omitted) or a list. */
  datatype Exprs = Omitted | Given(items: seq<Expr>)

  /** An expression; Null is Python's None. */
  datatype Expr =
    | Lit(lit: Literal)
    | Null
    | Unary(uop: UnaryKind, operand: Expr)
    | Binary(bop: BinaryKind, left: Expr, right: Expr)
    | Chain(cop: ChainKind, exprs: seq<Expr>)
    | Call(fn: FunctionKind, args: seq<Expr>)
    | TableRef(name: string)
    | ColumnRef(column: string, table: Option<string>)
    | Select(columns: Exprs, tables: Exprs, where: Option<Expr>, groupBy: Exprs,
             having: Option<Expr>, orderBy: Exprs, limit: Option<int>, offset: Option<int>)
    | SetOp(sop: SetKind, lhs: Expr, rhs: Expr)

  /** get_class of a node. Python 2 integers above sys.maxint (or below
      -sys.maxint - 1) are of class long. */
  function ClassOf(e: Expr): Classes.ClassId
  {
    match e
    case Lit(IntLit(i)) => if -MaxInt - 1 <= i <= MaxInt then Classes.Int else Classes.Long
    case Lit(BoolLit(_)) => Classes.Bool
    case Lit(BytesLit(_)) => Classes.Bytes
    case Lit(TextLit(_)) => Classes.Unicode
    case Null => Classes.NoneType
    case Unary(k, _) =>
      (match k
      case UnaryPlus => Classes.UnaryPlus
      case UnaryMinus => Classes.UnaryMinus
      case Not => Classes.Not)
    case Binary(k, _, _) =>
      (match k
      case Add => Classes.Add
      case Subtract => Classes.Subtract
      case Multiply => Classes.Multiply
      case Divide => Classes.Divide
      case Modulo => Classes.Modulo
      case In => Classes.In
      case NotIn => Classes.NotIn
      case Is => Classes.Is
      case IsNot => Classes.IsNot
      case Equal => Classes.Equal
      case NotEqual => Classes.NotEqual
      case GreaterThan => Classes.GreaterThan
      case GreaterThanEqual => Classes.GreaterThanEqual
      case LessThan => Classes.LessThan
      case LessThanEqual => Classes.LessThanEqual
      case Plain(_) => Classes.BinaryOperator)
    case Chain(k, _) => if k == And then Classes.And else Classes.Or
    case Call(f, _) =>
      (match f
      case Min => Classes.Min
      case Max => Classes.Max
      case Sqrt => Classes.Sqrt
      case Power => Classes.Power)
    case TableRef(_) => Classes.Table
    case ColumnRef(_, _) => Classes.Column
    case Select(_, _, _, _, _, _, _, _) => Classes.Select
    case SetOp(k, _, _) =>
      (match k
      case Union => Classes.Union
      case Intersect => Classes.Intersect
      case Except => Classes.Except)
  }

  /** The precedence Compiler._get_precedence reads off a node, read from
      the table of class precedences; PrecOfIsGetattr shows it is the
      attribute lookup along the node's MRO. */
  function PrecOf(e: Expr): Prec
  {
    Classes.Documented(ClassOf(e))
  }

  /** getattr(expr, "precedence") and getattr(expr, "associativity") along the
      MRO of the node's class, with the defaults as fallbacks. */
  lemma PrecOfIsGetattr(e: Expr)
    ensures PrecOf(e) == Classes.ClassPrec(ClassOf(e))
  {
    Classes.ClassPrecIsDocumented(ClassOf(e));
  }

  /** The `operator` text of unary operators. */
  function UnaryText(k: UnaryKind): string
  {
    match k
    case UnaryPlus => "+"
    case UnaryMinus => "-"
    case Not => "NOT "
  }

  /** The `operator` text of binary operators. */
  function BinaryText(k: BinaryKind): string
  {
    match k
    case Add => "+"
    case Subtract => "-"
    case Multiply => "*"
    case Divide => "/"
    case Modulo => "%"
    case In => "IN"
    case NotIn => "NOT IN"
    case Is => "IS"
    case IsNot => "IS NOT"
    case Equal => "="
    case NotEqual => "!="
    case GreaterThan => ">"
    case GreaterThanEqual => ">="
    case LessThan => "<"
    case LessThanEqual => "<="
    case Plain(op) => op
  }

  function ChainText(k: ChainKind): string
  {
    match k
    case And => "AND"
    case Or => "OR"
  }

  /** The `name` of a Function subclass. */
  function FunctionName(f: FunctionKind): string
  {
    match f
    case Min => "min"
    case Max => "max"
    case Sqrt => "sqrt"
    case Power => "power"
  }

  /** The `operation` of a SetExpression subclass. */
  function SetText(k: SetKind): string
  {
    match k
    case Union => "UNION"
    case Intersect => "INTERSECT"
    case Except => "EXCEPT"
  }

  /** Number of arguments a function class's constructor accepts; None means
      any number (Function(*args)). */
  function Arity(f: FunctionKind): Option<nat>
  {
    match f
    case Sqrt => Some(1)
    case Power => Some(2)
    case _ => None
  }

  /** Constructing a function call: Sqrt(x) and Power(x, y) reject any other
      argument count with a TypeError; Min and Max accept any number. */
  function NewCall(f: FunctionKind, args: seq<Expr>): (r: Result<Expr, Error>)
    ensures r.Ok? <==> (f == Sqrt ==> |args| == 1) && (f == Power ==> |args| == 2)
    ensures r.Ok? ==> r.value == Call(f, args)
  {
    if Arity(f).Some? && Arity(f).value != |args| then
      Err(TypeError("__init__() takes a fixed number of arguments"))
    else
      Ok(Call(f, args))
  }

  /** A termination measure: the number of nodes, with Equal and NotEqual
      counting double so that their rewrites into Is, IsNot or a plain
      BinaryOperator are smaller. */
  function Size(e: Expr): (n: nat)
    ensures n >= 1
  {
    match e
    case Lit(_) => 1
    case Null => 1
    case TableRef(_) => 1
    case ColumnRef(_, _) => 1
    case Unary(_, x) => 1 + Size(x)
    case Binary(k, l, r) => (if k == Equal || k == NotEqual then 2 else 1) + Size(l) + Size(r)
    case Chain(_, es) => 1 + SizeSeq(es)
    case Call(_, args) => 1 + SizeSeq(args)
    case Select(cols, tabs, w, g, h, o, _, _) =>
      2 + (if cols.Omitted? then 0 else SizeSeq(cols.items))
        + (if tabs.Omitted? then 0 else SizeSeq(tabs.items))
        + (if w.None? then 0 else Size(w.value))
        + (if g.Omitted? then 0 else SizeSeq(g.items))
        + (if h.None? then 0 else Size(h.value))
        + (if o.Omitted? then 0 else SizeSeq(o.items))
    case SetOp(_, l, r) => 1 + Size(l) + Size(r)
  }

  function SizeSeq(es: seq<Expr>): nat
  {
    if |es| == 0 then 0 else Size(es[0]) + SizeSeq(es[1..])
  }

  /** One optional clause of a select statement after its column list: a
      keyword followed by a comma-separated list, or by a single node. */
  datatype Part = ListPart(keyword: string, items: Exprs) | OnePart(keyword: string, node: Option<Expr>)

  /** How many clauses compile_select emits after SELECT and its columns. */
  const SelectParts := 5

  /** The i-th of those clauses, in the order compile_select emits them. As
      written, HAVING is followed by the `where` node and the `order_by` list
      by a second GROUP BY keyword. */
  function SelectPart(e: Expr, i: nat): (r: Part)
    requires e.Select? && i < SelectParts
    ensures PartSize(r) < Size(e)
  {
    if i == 0 then ListPart("FROM", e.tables)
    else if i == 1 then OnePart("WHERE", Present(e.where))
    else if i == 2 then ListPart("GROUP BY", e.groupBy)
    else if i == 3 then OnePart("HAVING", HavingSource(e))
    else ListPart("GROUP BY", e.orderBy)
  }

  /** `x is not None` for a node attribute: both the absent attribute and
      a Null node stand for Python's None, and neither emits a clause. */
  function Present(x: Option<Expr>): (r: Option<Expr>)
    ensures r.Some? <==> x.Some? && x.value != Null
    ensures r.Some? ==> r == x
  {
    if x.Some? && x.value != Null then x else None
  }

  /** The node the HAVING clause is compiled from: the where node, or None
      when there is none; absent when having is None. */
  function HavingSource(e: Expr): (r: Option<Expr>)
    requires e.Select?
    ensures r.Some? <==> Present(e.having).Some?
    ensures r.Some? ==> Size(r.value) < Size(e)
  {
    if Present(e.having).None? then None
    else if e.where.Some? then Some(e.where.value) else Some(Null)
  }

  /** The LIMIT and OFFSET tokens, each formatted as a decimal integer. */
  function Paging(e: Expr): seq<string>
    requires e.Select?
  {
    (if e.limit.None? then [] else ["LIMIT " + Strings.Decimal(e.limit.value)])
      + (if e.offset.None? then [] else ["OFFSET " + Strings.Decimal(e.offset.value)])
  }

  function PartSize(part: Part): nat
  {
    match part
    case ListPart(_, xs) => if xs.Omitted? then 0 else SizeSeq(xs.items)
    case OnePart(_, x) => if x.None? then 0 else Size(x.value)
  }
}
