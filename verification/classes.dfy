/** The Python classes the compiler dispatches on, their method resolution
    orders, and the class-level precedence attributes found along them. */
module Classes {
  import opened Results
  import opened Precedences

  datatype ClassId =
    // Python 2 builtins
    | Object | Int | Long | Bool | BaseString | Bytes | Unicode | NoneType
    // lessql/expr/common.py
    | Expression | LateOperatorOverload | OperatorMapping | ComparableExpression
    // lessql/expr/operators.py
    | Operator | UnaryOperator | UnaryPlus | UnaryMinus | Not
    | BinaryOperator | Add | Subtract | Multiply | Divide | Modulo
    | In | NotIn | Is | IsNot | Equal | NotEqual
    | GreaterThan | GreaterThanEqual | LessThan | LessThanEqual
    | ComparableOperator | And | Or
    // lessql/expr/functions.py
    | Function | Min | Max | Sqrt | Power
    // lessql/expr/query.py
    | Table | Column | Select | SetExpression | Union | Intersect | Except

  /** __mro__: the class itself, then its ancestors, ending at object.
      ComparableExpression(Comparable, Expression) has the C3 linearisation
      [ComparableExpression, OperatorMapping, LateOperatorOverload, Expression, object]. */
  function Mro(c: ClassId): (r: seq<ClassId>)
    ensures |r| >= 1
    ensures r[0] == c && r[|r| - 1] == Object
  {
    match c
    case Object => [Object]
    case Int | Long | BaseString | NoneType | Expression | LateOperatorOverload
      | SetExpression => [c, Object]
    case Bool => [Bool, Int, Object]
    case Bytes | Unicode => [c, BaseString, Object]
    case OperatorMapping => [OperatorMapping, LateOperatorOverload, Object]
    case Function | Table | Select => [c, Expression, Object]
    case Union | Intersect | Except => [c, SetExpression, Object]
    case ComparableExpression =>
      [c, OperatorMapping, LateOperatorOverload, Expression, Object]
    case Min | Max | Sqrt | Power => [c, Function, Expression, Object]
    case Operator | Column =>
      [c, ComparableExpression, OperatorMapping, LateOperatorOverload, Expression, Object]
    case UnaryOperator | BinaryOperator | ComparableOperator =>
      [c, Operator, ComparableExpression, OperatorMapping, LateOperatorOverload, Expression, Object]
    case UnaryPlus | UnaryMinus | Not =>
      [c, UnaryOperator, Operator, ComparableExpression, OperatorMapping, LateOperatorOverload,
       Expression, Object]
    case And | Or =>
      [c, ComparableOperator, Operator, ComparableExpression, OperatorMapping,
       LateOperatorOverload, Expression, Object]
    case Add | Subtract | Multiply | Divide | Modulo | In | NotIn | Is | IsNot
      | Equal | NotEqual | GreaterThan | GreaterThanEqual | LessThan | LessThanEqual =>
      [c, BinaryOperator, Operator, ComparableExpression, OperatorMapping, LateOperatorOverload,
       Expression, Object]
  }

  /** __name__, used in KeyError messages. */
  function Name(c: ClassId): string
  {
    match c
    case Object => "object"
    case Int => "int"
    case Long => "long"
    case Bool => "bool"
    case BaseString => "basestring"
    case Bytes => "str"
    case Unicode => "unicode"
    case NoneType => "NoneType"
    case Expression => "Expression"
    case LateOperatorOverload => "LateOperatorOverload"
    case OperatorMapping => "OperatorMapping"
    case ComparableExpression => "ComparableExpression"
    case Operator => "Operator"
    case UnaryOperator => "UnaryOperator"
    case UnaryPlus => "UnaryPlus"
    case UnaryMinus => "UnaryMinus"
    case Not => "Not"
    case BinaryOperator => "BinaryOperator"
    case Add => "Add"
    case Subtract => "Subtract"
    case Multiply => "Multiply"
    case Divide => "Divide"
    case Modulo => "Modulo"
    case In => "In"
    case NotIn => "NotIn"
    case Is => "Is"
    case IsNot => "IsNot"
    case Equal => "Equal"
    case NotEqual => "NotEqual"
    case GreaterThan => "GreaterThan"
    case GreaterThanEqual => "GreaterThanEqual"
    case LessThan => "LessThan"
    case LessThanEqual => "LessThanEqual"
    case ComparableOperator => "ComparableOperator"
    case And => "And"
    case Or => "Or"
    case Function => "Function"
    case Min => "Min"
    case Max => "Max"
    case Sqrt => "Sqrt"
    case Power => "Power"
    case Table => "Table"
    case Column => "Column"
    case Select => "Select"
    case SetExpression => "SetExpression"
    case Union => "Union"
    case Intersect => "Intersect"
    case Except => "Except"
  }

  /** The `precedence` attribute a class body defines itself, if any. */
  function OwnRank(c: ClassId): Option<int>
  {
    match c
    case Expression => Some(MaxInt)
    case Operator | NotEqual => Some(700)
    case UnaryPlus | UnaryMinus => Some(1100)
    case Not => Some(300)
    case Multiply | Divide | Modulo => Some(900)
    case Add | Subtract => Some(800)
    case In | NotIn => Some(600)
    case Equal | GreaterThan | GreaterThanEqual | LessThan | LessThanEqual => Some(500)
    case Is | IsNot => Some(400)
    case And => Some(200)
    case Or => Some(100)
    case Select => Some(0)
    case _ => None
  }

  /** The `associativity` attribute a class body defines itself, if any. */
  function OwnAssoc(c: ClassId): Option<Associativity>
  {
    match c
    case Expression | In | NotIn | Is | IsNot | Equal
      | GreaterThan | GreaterThanEqual | LessThan | LessThanEqual => Some(NonAssoc)
    case Operator | ComparableOperator => Some(Left)
    case UnaryOperator => Some(Right)
    case _ => None
  }

  /** getattr on a class: the attribute of the first class in the MRO whose
      body defines it; None models the AttributeError. */
  function Getattr<T>(own: ClassId -> Option<T>, mro: seq<ClassId>): Option<T>
  {
    GetattrFrom(own, mro, 0)
  }

  /** The attribute as found from position i of the MRO on. */
  function GetattrFrom<T>(own: ClassId -> Option<T>, mro: seq<ClassId>, i: nat): Option<T>
    decreases |mro| - i
  {
    if i >= |mro| then None
    else if own(mro[i]).Some? then own(mro[i])
    else GetattrFrom(own, mro, i + 1)
  }

  /** Compiler._get_precedence: getattr of `precedence` and `associativity`
      with the default precedence's components as fallbacks. */
  function ClassPrec(c: ClassId): Prec
  {
    Make(Getattr(OwnRank, Mro(c)), Getattr(OwnAssoc, Mro(c)))
  }

  /** The precedence table of the operators module docstring (PostgreSQL
      9.5 precedence); every class not listed there has the default. */
  function Documented(c: ClassId): Prec
  {
    match c
    case UnaryOperator => Prec(700, Right)
    case UnaryPlus | UnaryMinus => Prec(1100, Right)
    case Multiply | Divide | Modulo => Prec(900, Left)
    case Add | Subtract => Prec(800, Left)
    case Operator | BinaryOperator | ComparableOperator | NotEqual => Prec(700, Left)
    case In | NotIn => Prec(600, NonAssoc)
    case Equal | GreaterThan | GreaterThanEqual | LessThan | LessThanEqual => Prec(500, NonAssoc)
    case Is | IsNot => Prec(400, NonAssoc)
    case Not => Prec(300, Right)
    case And => Prec(200, Left)
    case Or => Prec(100, Left)
    case Select => Prec(0, NonAssoc)
    case _ => Default()
  }

  // Per-class unfoldings of ClassPrec, one class per lemma so that each
  // getattr walk along a concrete MRO is proved on its own; together they
  // make up ClassPrecIsDocumented below.

  lemma DocumentedObject()
    ensures ClassPrec(Object) == Documented(Object)
  {
  }

  lemma DocumentedInt()
    ensures ClassPrec(Int) == Documented(Int)
  {
  }

  lemma DocumentedLong()
    ensures ClassPrec(Long) == Documented(Long)
  {
  }

  lemma DocumentedBool()
    ensures ClassPrec(Bool) == Documented(Bool)
  {
  }

  lemma DocumentedBaseString()
    ensures ClassPrec(BaseString) == Documented(BaseString)
  {
  }

  lemma DocumentedBytes()
    ensures ClassPrec(Bytes) == Documented(Bytes)
  {
  }

  lemma DocumentedUnicode()
    ensures ClassPrec(Unicode) == Documented(Unicode)
  {
  }

  lemma DocumentedNoneType()
    ensures ClassPrec(NoneType) == Documented(NoneType)
  {
  }

  lemma DocumentedExpression()
    ensures ClassPrec(Expression) == Documented(Expression)
  {
  }

  lemma DocumentedLateOperatorOverload()
    ensures ClassPrec(LateOperatorOverload) == Documented(LateOperatorOverload)
  {
  }

  lemma DocumentedOperatorMapping()
    ensures ClassPrec(OperatorMapping) == Documented(OperatorMapping)
  {
  }

  lemma DocumentedComparableExpression()
    ensures ClassPrec(ComparableExpression) == Documented(ComparableExpression)
  {
  }

  lemma DocumentedOperator()
    ensures ClassPrec(Operator) == Documented(Operator)
  {
  }

  lemma DocumentedUnaryOperator()
    ensures ClassPrec(UnaryOperator) == Documented(UnaryOperator)
  {
  }

  lemma DocumentedUnaryPlus()
    ensures ClassPrec(UnaryPlus) == Documented(UnaryPlus)
  {
  }

  lemma DocumentedUnaryMinus()
    ensures ClassPrec(UnaryMinus) == Documented(UnaryMinus)
  {
  }

  lemma DocumentedNot()
    ensures ClassPrec(Not) == Documented(Not)
  {
  }

  lemma DocumentedBinaryOperator()
    ensures ClassPrec(BinaryOperator) == Documented(BinaryOperator)
  {
  }

  lemma DocumentedAdd()
    ensures ClassPrec(Add) == Documented(Add)
  {
  }

  lemma DocumentedSubtract()
    ensures ClassPrec(Subtract) == Documented(Subtract)
  {
  }

  lemma DocumentedMultiply()
    ensures ClassPrec(Multiply) == Documented(Multiply)
  {
  }

  lemma DocumentedDivide()
    ensures ClassPrec(Divide) == Documented(Divide)
  {
  }

  lemma DocumentedModulo()
    ensures ClassPrec(Modulo) == Documented(Modulo)
  {
  }

  lemma DocumentedIn()
    ensures ClassPrec(In) == Documented(In)
  {
  }

  lemma DocumentedNotIn()
    ensures ClassPrec(NotIn) == Documented(NotIn)
  {
  }

  lemma DocumentedIs()
    ensures ClassPrec(Is) == Documented(Is)
  {
  }

  lemma DocumentedIsNot()
    ensures ClassPrec(IsNot) == Documented(IsNot)
  {
  }

  lemma DocumentedEqual()
    ensures ClassPrec(Equal) == Documented(Equal)
  {
  }

  lemma DocumentedNotEqual()
    ensures ClassPrec(NotEqual) == Documented(NotEqual)
  {
  }

  lemma DocumentedGreaterThan()
    ensures ClassPrec(GreaterThan) == Documented(GreaterThan)
  {
  }

  lemma DocumentedGreaterThanEqual()
    ensures ClassPrec(GreaterThanEqual) == Documented(GreaterThanEqual)
  {
  }

  lemma DocumentedLessThan()
    ensures ClassPrec(LessThan) == Documented(LessThan)
  {
  }

  lemma DocumentedLessThanEqual()
    ensures ClassPrec(LessThanEqual) == Documented(LessThanEqual)
  {
  }

  lemma DocumentedComparableOperator()
    ensures ClassPrec(ComparableOperator) == Documented(ComparableOperator)
  {
  }

  lemma DocumentedAnd()
    ensures ClassPrec(And) == Documented(And)
  {
  }

  lemma DocumentedOr()
    ensures ClassPrec(Or) == Documented(Or)
  {
  }

  lemma DocumentedFunction()
    ensures ClassPrec(Function) == Documented(Function)
  {
  }

  lemma DocumentedMin()
    ensures ClassPrec(Min) == Documented(Min)
  {
  }

  lemma DocumentedMax()
    ensures ClassPrec(Max) == Documented(Max)
  {
  }

  lemma DocumentedSqrt()
    ensures ClassPrec(Sqrt) == Documented(Sqrt)
  {
  }

  lemma DocumentedPower()
    ensures ClassPrec(Power) == Documented(Power)
  {
  }

  lemma DocumentedTable()
    ensures ClassPrec(Table) == Documented(Table)
  {
  }

  lemma DocumentedColumn()
    ensures ClassPrec(Column) == Documented(Column)
  {
  }

  lemma DocumentedSelect()
    ensures ClassPrec(Select) == Documented(Select)
  {
  }

  lemma DocumentedSetExpression()
    ensures ClassPrec(SetExpression) == Documented(SetExpression)
  {
  }

  lemma DocumentedUnion()
    ensures ClassPrec(Union) == Documented(Union)
  {
  }

  lemma DocumentedIntersect()
    ensures ClassPrec(Intersect) == Documented(Intersect)
  {
  }

  lemma DocumentedExcept()
    ensures ClassPrec(Except) == Documented(Except)
  {
  }

  /** The precedence each class ends up with through attribute inheritance is
      the one in the documented table. */
  lemma ClassPrecIsDocumented(c: ClassId)
    ensures ClassPrec(c) == Documented(c)
  {
    match c
    case Object => DocumentedObject();
    case Int => DocumentedInt();
    case Long => DocumentedLong();
    case Bool => DocumentedBool();
    case BaseString => DocumentedBaseString();
    case Bytes => DocumentedBytes();
    case Unicode => DocumentedUnicode();
    case NoneType => DocumentedNoneType();
    case Expression => DocumentedExpression();
    case LateOperatorOverload => DocumentedLateOperatorOverload();
    case OperatorMapping => DocumentedOperatorMapping();
    case ComparableExpression => DocumentedComparableExpression();
    case Operator => DocumentedOperator();
    case UnaryOperator => DocumentedUnaryOperator();
    case UnaryPlus => DocumentedUnaryPlus();
    case UnaryMinus => DocumentedUnaryMinus();
    case Not => DocumentedNot();
    case BinaryOperator => DocumentedBinaryOperator();
    case Add => DocumentedAdd();
    case Subtract => DocumentedSubtract();
    case Multiply => DocumentedMultiply();
    case Divide => DocumentedDivide();
    case Modulo => DocumentedModulo();
    case In => DocumentedIn();
    case NotIn => DocumentedNotIn();
    case Is => DocumentedIs();
    case IsNot => DocumentedIsNot();
    case Equal => DocumentedEqual();
    case NotEqual => DocumentedNotEqual();
    case GreaterThan => DocumentedGreaterThan();
    case GreaterThanEqual => DocumentedGreaterThanEqual();
    case LessThan => DocumentedLessThan();
    case LessThanEqual => DocumentedLessThanEqual();
    case ComparableOperator => DocumentedComparableOperator();
    case And => DocumentedAnd();
    case Or => DocumentedOr();
    case Function => DocumentedFunction();
    case Min => DocumentedMin();
    case Max => DocumentedMax();
    case Sqrt => DocumentedSqrt();
    case Power => DocumentedPower();
    case Table => DocumentedTable();
    case Column => DocumentedColumn();
    case Select => DocumentedSelect();
    case SetExpression => DocumentedSetExpression();
    case Union => DocumentedUnion();
    case Intersect => DocumentedIntersect();
    case Except => DocumentedExcept();
  }
}
