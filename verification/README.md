# LesSQL expression compiler, modelled in Dafny

This project models the SQL expression compiler of LesSQL (`lessql/expr`). The compiler turns a tree of
expression objects into SQL text with `?` placeholders. It collects the literal values in a
`parameters` list and inserts brackets only where operator precedence needs them. The model covers:

- **Precedences** (`precedences.dfy`): `(rank, associativity)` pairs compared lexicographically. The
  defaults are `sys.maxint` and the non-associative value.
- **ClassDict** (`classdicts.dfy`): the class-keyed map of `lessql/utils.py`. A lookup walks the key's
  method resolution order (MRO) and takes the first registered class. Setting and deleting use the
  exact class only.
- **Classes** (`classes.dfy`): the class hierarchy of the node kinds, with their MROs and their
  class-level `precedence`/`associativity` attributes. The attributes are inherited the way `getattr`
  inherits them.
- **State** (`states.dfy`): the ChainMap-backed stack of scopes that `Compiler.__call__` pushes and
  pops. Python lists are shared by reference, so list values are ids into a store of sequences.
  Copying a list allocates a new id. This makes the sharing of `parameters` between scopes explicit.
- **Expression tree** (`ast.dfy`): one closed datatype for literals, `None`, unary, binary and
  comparable operators, functions, tables, columns, `Select` and set expressions. Each node has a
  class and a precedence. A `where` or `having` of `Select` that is left out and one set to the
  `None` node both stand for Python's `None`, and `Ast.Present` makes the two emit the same thing.
- **Compiler** (`compiler.dfy`): the default `compile` with every handler that `types.py`,
  `operators.py`, `functions.py` and `query.py` register, and the recursive `Compiler.__call__`:
  push `precedence`, dispatch through the ClassDict, pop, and bracket when the node binds less tightly
  than the scope it was compiled in. Exceptions are `Err` values.
- **Reference** (`reference.dfy`): an independent, state-free definition of the same output. The
  caller's precedence is an argument and the parameters are a returned sequence.
- **Correspondence** (`correspondence.dfy`): an all-inputs proof that the stateful compiler and the
  reference agree on text, parameters, scopes and errors.
- **Properties** (`properties.dfy`): what the output is, stated against independent definitions.
  Compilation fails exactly when a Column is read. The parameters are the tree's literals, in order.
  The caller decides only brackets. Operators are bracketed inside calls. A select is never bracketed
  at the top.
- **Examples** (`examples.dfy`): the repository's test expectations and the as-written behaviours,
  for any literal values.

Two behaviours of the code are modelled as written, and the examples state them:

- `compile_equal` and `compile_not_equal` compile `x == None` as an IS test in the parent scope. Under
  a tighter operator, the comparison is therefore bracketed twice: `((? IS NULL)) * ?`.
- `compile_select` compiles the *where* node after `HAVING`, and emits `GROUP BY` for `order_by`.

A reader might expect an assignment to rebind a name in the scope that holds it. `State.__setattr__`
falls through to `ChainMap.__setitem__` and always writes the innermost scope (base.py:210-218);
`States.Set` follows the code.

## Model

| member | source | states |
|---|---|---|
| Precedences.Make | lessql/expr/base.py:84-88 | a missing rank becomes sys.maxint (2^63-1) and a missing associativity becomes none; given components are kept |
| Precedences.LessIsKeyOrder | lessql/expr/base.py:99-105 | `__lt__` (rank first, then associativity none < left < right) coincides with the order of an independent integer encoding, and equality with equal encodings |
| Precedences.LessIsStrictTotalOrder | lessql/expr/base.py:70-105 | the comparison total_ordering builds on is irreflexive, transitive, asymmetric and total |
| Precedences.DefaultIsMaximal | lessql/expr/base.py:117 | Precedence() is never below any precedence whose rank fits in sys.maxint, so a node with the default is never bracketed |
| ClassDicts.Find | lessql/utils.py:32-38 | the result is the value of the first class in the MRO that has an entry; it is absent exactly when no class of the MRO has one |
| ClassDicts.Lookup | lessql/utils.py:32-38 | the loop over `__mro__` returns the value of an MRO class with an entry, with no earlier class having one, and KeyError (None) exactly when no class has one |
| ClassDicts.Set | lessql/utils.py:40-41 | after setting, the item's class (get_class) maps to the value |
| ClassDicts.SetKeepsOthers | lessql/utils.py:40-41 | setting adds exactly the item's class to the keys and leaves every other entry's value unchanged |
| ClassDicts.Delete | lessql/utils.py:43-44 | deletion succeeds exactly when the exact class has an entry; it removes that key only and keeps the other values |
| ClassDicts.Len | lessql/utils.py:53-54 | the length is the number of classes `__iter__` yields |
| ClassDicts.Bool | lessql/utils.py:50-51 | truth holds exactly when the length is positive |
| ClassDicts.ExactKeyWins | lessql/utils.py:32-35 | a class's own entry is found for both the class and its instances, whatever its ancestors hold |
| ClassDicts.SetLeavesOtherMros | lessql/utils.py:40-41 | registering a class changes no lookup whose MRO does not contain it |
| ClassDicts.SetKeysOnClass | lessql/utils.py:63-72 | a class and an instance of it are the same key, so a later set through either overwrites the former |
| ClassDicts.LenAfterSet | lessql/utils.py:53-54 | setting grows the length by one for a new class and keeps it for a registered one |
| ClassDicts.DeleteIgnoresAncestors | lessql/utils.py:43-44 | a class that is only covered through an ancestor can be looked up but cannot be deleted (KeyError) |
| Classes.ClassPrecIsDocumented | lessql/expr/operators.py:8-25 | the precedence each class inherits through getattr along its MRO is the one in the documented table (Operator 700 left, unary 1100 right, etc.; Select 0; others the default) |
| Ast.NewCall | lessql/expr/functions.py:35-48 | constructing Sqrt succeeds only with one argument and Power only with two, other counts being a TypeError; Min and Max take any number; a constructed call holds exactly the given arguments |
| Ast.PrecOfIsGetattr | lessql/expr/base.py:129-132 | the precedence the compiler reads off a node is getattr of `precedence` and `associativity` along the node class's MRO, with the default's components as fallbacks |
| States.Get | lessql/expr/base.py:203-208 | attribute access yields the innermost binding of the name, and AttributeError exactly when no scope binds it |
| States.Set | lessql/expr/base.py:210-218 | assignment binds the name in the innermost scope: the name now reads the value, every other name reads as before, and the outer scopes are untouched |
| States.CopyNames | lessql/expr/base.py:185-187 | the copied mapping has exactly the named keys; it fails with KeyError exactly when a name is bound nowhere; existing lists are kept and copies only add new ones |
| States.Copy | lessql/expr/base.py:187 | copy of a list gives a new list with the same elements; other values are returned as they are |
| States.Push | lessql/expr/base.py:185-192 | one new innermost scope holding the named copies and the keywords over the unchanged outer scopes; KeyError exactly when a named value is missing; validity is kept |
| States.Parents | lessql/expr/base.py:160-164 | the scopes below the innermost one; a single scope yields one empty scope (ChainMap.parents) |
| States.Pop | lessql/expr/base.py:194-195 | one scope fewer, the list store unchanged, validity kept |
| States.GetAll | lessql/expr/base.py:166-172 | the values of the name from the innermost scope outwards; with missing, one entry per scope with the default where the scope lacks the name; without, one entry per scope binding the name, starting with the visible value |
| States.GetAllPresent | lessql/expr/base.py:166-172 | without missing, the value of every scope binding the name appears, at the position given by the number of inner scopes binding it |
| States.Compact | lessql/expr/base.py:174-183 | a single mapping holding exactly the visible names, each with its innermost value |
| States.Append | lessql/expr/types.py:12 | appending to a bound list extends that list by the element and changes no other list and no scope; it fails exactly when the name is unbound or not a list |
| States.Factory | lessql/expr/base.py:228-234 | the factory state has a root scope with precedence Precedence(0) and an empty parameters list under one pushed scope; it fails exactly when a named copy is not a root name |
| States.PushBinding | lessql/expr/base.py:185-192 | after a push a keyword reads its new value, a copied name reads an equal value or a fresh list with the same elements, and any other name reads as before |
| States.PushPopRestores | lessql/expr/base.py:197-201 | push then pop gives back the same scopes, and the length rises by one during the scope |
| States.ScopedSetIsUndone | lessql/expr/base.py:210-218 | an assignment made inside a pushed scope is visible there and forgotten by the matching pop |
| States.SharedAndCopiedLists | lessql/expr/base.py:185-195 | appending to a list that was copied by push leaves the outer list unchanged; appending to one that was not copied is still visible after the pop |
| Compiler.WhenAt | lessql/expr/base.py:123-127 | after `when(*classes)` a class maps to the new handler if some argument stands for it, and otherwise keeps its previous entry |
| Compiler.RegisterAt | lessql/expr/base.py:123-127 | after a sequence of `when` registrations each class holds the handler of the last registration naming it, or its previous entry |
| Compiler.LaterRegistrationWins | lessql/expr/base.py:123-127 | of two registrations naming a class, the later decides its handler |
| Compiler.TypesRegistrations | lessql/expr/types.py:7-17 | compile_none registered for the None instance replaces compile_builtins for type(None) and leaves int with compile_builtins |
| Compiler.DispatchIsHandlerTable | lessql/expr/base.py:140 | dispatching a node's class through the map along its MRO gives the handler of an independent table (operator subclasses share their base's handler, except Equal and NotEqual) |
| Compiler.HandlerTableFits | lessql/expr/query.py:27-35 | the table has no handler for Column only, and every other node's handler is one written for its kind |
| Compiler.DispatchFits | lessql/expr/base.py:140 | dispatch fails (KeyError) exactly for a Column node, and otherwise finds a handler written for the node's kind |
| Compiler.Compile | lessql/expr/base.py:134-144 | a successful compilation leaves the scopes as they were and the list store the same size, and keeps the state valid |
| Compiler.Close | lessql/expr/base.py:139-144 | after the pop, the text is bracketed exactly when the node's precedence is below the precedence now current, and the parameters are kept; it fails with AttributeError when no precedence is bound |
| Compiler.CompileComparison | lessql/expr/operators.py:178-213 | the Equal/NotEqual rewrite, whether as an IS test in the parent scope or as a plain operator, leaves the caller's scopes as they were |
| Compiler.CompileAll | lessql/expr/functions.py:19-22 | the handlers' generators compile each node once, giving one text per node, and leave the scopes as they were |
| Compiler.CompileClause | lessql/expr/query.py:100-110 | a single-node clause gives two tokens with the keyword first, or no token when the node is absent, and leaves the scopes as they were |
| Compiler.CompileListClause | lessql/expr/query.py:94-96 | a list clause gives two tokens with the keyword first, or no token when the list was not given, and leaves the scopes as they were |
| Correspondence.CompileMatches | lessql/expr/base.py:134-144 | in every state whose innermost precedence is the caller's, compiling agrees with the state-free reference: the same text, the reference's parameters appended to the parameters list, no other list touched, the scopes restored, and the same errors |
| Correspondence.NullComparisonMatches | lessql/expr/operators.py:182-186 | a comparison with None pushes a scope on the parent scopes and so is bracketed against the caller's precedence, as the reference says |
| Correspondence.ClauseMatches | lessql/expr/query.py:100-110 | a single-node clause compiles to the reference's keyword and node text, with the node's parameters appended, or to nothing when the node is absent |
| Correspondence.ListClauseMatches | lessql/expr/query.py:94-96 | a list clause compiles to the reference's keyword and comma-joined texts, with the items' parameters appended in order, or to nothing when the list was not given |
| Correspondence.SelectMatches | lessql/expr/query.py:81-128 | compile_select agrees with the reference select: columns (or `*`), clauses, LIMIT and OFFSET joined by spaces, with the same parameters |
| Correspondence.FreshMatches | lessql/expr/base.py:134-136 | compiling in a fresh state_factory() state gives the reference text under the root precedence (0, none), and the parameters list then holds exactly the reference's parameters |
| Correspondence.FreshReady | lessql/expr/base.py:228-234 | state_factory() binds the root precedence (0, none) and a parameters list that starts empty |
| Properties.RenderOutcome | lessql/expr/types.py:11-13 | compiling fails exactly when a Column node is read, then with the KeyError of the missing handler; otherwise the parameters are the tree's literals in the order the handlers visit them, under any caller |
| Properties.CallerDecidesOnlyBrackets | lessql/expr/base.py:142-144 | success and the bound parameters do not depend on the caller's precedence, and neither does a node's unbracketed text, except that a comparison with None is its IS test bracketed against the caller; so the caller decides brackets only |
| Properties.DefaultNodesNeverBracketed | lessql/expr/base.py:117 | a node with the default precedence (literal, None, call, table, set expression) is never bracketed under a node or the root |
| Properties.OperatorArgumentsBracketed | lessql/expr/functions.py:19-22 | every operator used as a function argument is bracketed, since functions keep the default precedence |
| Properties.SelectBindsLoosest | lessql/expr/query.py:62 | every node other than a select binds more tightly than a select, so nothing inside a select is bracketed for the select's sake |
| Properties.TopSelectStartsWithSelect | lessql/expr/query.py:81-91 | a select compiled under the root precedence is not bracketed and starts with SELECT |
| Properties.HavingNodeIgnored | lessql/expr/query.py:108-110 | which node other than None is given as having never changes the output; only whether having is None does |
| Properties.PartsAgree | lessql/expr/query.py:94-120 | two selects with the same clauses compile their clauses alike |
| Properties.FreshOutcome | lessql/expr/base.py:134-144 | compile(expr, state_factory()) fails exactly when a Column is read, with KeyError, and otherwise leaves exactly the tree's literals, in order, in state.parameters |
| Properties.FreshSelectStartsWithSelect | lessql/expr/query.py:81-91 | compile(select, state_factory()) starts with SELECT |
| Strings.DecimalRoundTrip | lessql/expr/query.py:122-126 | the decimal text written for LIMIT and OFFSET reads back as the same integer, negative values included |
| Strings.JoinLength | lessql/expr/query.py:128 | joining n tokens with a separator has the tokens' total length plus n-1 separators |
| Examples.WeakerChildBracketed | lessql/expr/base.py:142-143 | Multiply(Add(a, b), c) compiles to `(? + ?) * ?` binding a, b, c |
| Examples.StrongerChildNotBracketed | lessql/expr/base.py:142-144 | Add(Multiply(a, b), c) compiles to `? * ? + ?` binding a, b, c |
| Examples.LiteralCompiles | tests/test_expr_types.py:8-18 | every literal, a long beyond sys.maxint included, compiles to `?` and binds itself |
| Examples.NoneCompiles | tests/test_expr_types.py:21-23 | None compiles to `NULL` and binds nothing |
| Examples.UnaryMinusCompiles | tests/test_expr_operators.py:9 | UnaryMinus(a) compiles to `-?` |
| Examples.NotCompiles | tests/test_expr_operators.py:10 | Not(a) compiles to `NOT ?` |
| Examples.EqualNoneCompiles | tests/test_expr_operators.py:33-35 | Equal(a, None) compiles to `? IS NULL` binding a |
| Examples.NotEqualNoneCompiles | tests/test_expr_operators.py:38-40 | NotEqual(a, None) compiles to `? IS NOT NULL` binding a |
| Examples.EqualCompiles | tests/test_expr_operators.py:19 | Equal(a, b) compiles to `? = ?` |
| Examples.NotEqualCompiles | tests/test_expr_operators.py:20 | NotEqual(a, b) compiles to `? != ?` |
| Examples.NullComparisonBracketedTwice | lessql/expr/operators.py:182-186 | as written, Multiply(Equal(a, None), b) compiles to `((? IS NULL)) * ?`: bracketed once as the IS test and once as the comparison |
| Examples.AndCompiles | tests/test_expr_operators.py:25 | And(a, b) compiles to `? AND ?` |
| Examples.OrCompiles | tests/test_expr_operators.py:26 | Or(a, b) compiles to `? OR ?` |
| Examples.MinCompiles | tests/test_expr_functions.py:7-9 | Min(a, b) compiles to `min(?, ?)` binding a, b |
| Examples.PowerCompiles | tests/test_expr_functions.py:25-27 | Power(a, b) compiles to `power(?, ?)` binding a, then b |
| Examples.SqrtCompiles | tests/test_expr_functions.py:17-19 | Sqrt(a) compiles to `sqrt(?)` binding a |
| Examples.CallArgumentBracketed | lessql/expr/functions.py:19-22 | Min(Add(a, b)) compiles to `min((? + ?))` |
| Examples.SelectColumns | tests/test_expr_query.py:6-9 | Select(columns=[Add(a, b)]) compiles to `SELECT ? + ?` binding a, b |
| Examples.SelectTable | tests/test_expr_query.py:12-15 | Select(tables=[Table(name)]) compiles to `SELECT * FROM name` binding nothing |
| Examples.HavingCompilesWhere | lessql/expr/query.py:108-110 | as written, a select with where a and any having other than None compiles to `SELECT * FROM name WHERE ? HAVING ?` and binds a twice |
| Examples.NoneClausesOmitted | lessql/expr/query.py:100-110 | where=None and having=None, given as None nodes, emit no clause: the select compiles to `SELECT * FROM name` |
| Examples.OrderByCompilesAsGroupBy | lessql/expr/query.py:118-120 | as written, a select from name ordered by a compiles to `SELECT * FROM name GROUP BY ?` binding a |
| Examples.UnionBracketsSelects | lessql/expr/query.py:141-155 | Union of two selects compiles to `(SELECT * FROM s) UNION (SELECT * FROM t)`, because set expressions keep the default precedence |
| Examples.ColumnFails | lessql/expr/query.py:27-35 | compiling a Column fails with KeyError for class Column |

## Left out

- The ClassDict constructor from a mapping or iterable (utils.py:23-30) is not modelled. It only repeats `__setitem__`. `__repr__` is left out too.
- States.GetAll: `getall` returns a generator that reads each scope when it is iterated. The model returns the whole sequence at call time, so it does not show an assignment made between the call and the iteration. The compiler never calls `getall`.
- `LateOperatorOverload`, `OperatorMapping`, `Comparable.map` and the rest of `lessql/expr/common.py` are left out. They build trees through Python operator overloading and are not part of compilation. Of `common.py`, the model keeps only the class names in the MROs and `Expression`'s default `precedence` and `associativity` (common.py:9, `Classes.OwnRank` and `Classes.OwnAssoc`).
- `MetaOperator.__repr__`, `Precedence.__repr__` and `State.__repr__` are left out, because they produce debugging text only.
- The stubs are left out because they have no behaviour: `Update`, `Insert`, `Replace`, `Window`, `Alias`, `TableExpression.column`, `Column.get_table` and `Context`.
- `Compiler.parent` is stored but never read, and a compiler other than the default `compile` is never built, so neither is modelled.
- Python 2 comparison between a Precedence and a non-Precedence value is modelled as a TypeError. Python 2 would fall back to an arbitrary type ordering. The compiler itself always binds Precedence values.
- Compiler.Compile: errors carry no state. The source raises without popping the pushed scope, and the model does not describe the state after an exception.
- Bare `Function`, `Operator` and other abstract instances are not tree nodes. `name = None` would render as `None(...)`.
- Floats are left out because literal values are opaque to the compiler. Only their class matters, and float has no handler.
- The `distinct`, `window` and `with_` attributes of Select are left out, because they have no effect on compile_select: it never reads `distinct` or `with_`, and its `window` branch does nothing.
- Compiler.DefaultRegistry: the registry the handler modules build at import time is given as a table, `Registered`. Compiler.RegisterAt and Compiler.TypesRegistrations state how `when` builds such a table. Import order is not modelled.
- Ast.PrecOf reads the documented table. Classes.ClassPrecIsDocumented proves that the table is what getattr along the MRO gives.
- Pop of the last scope follows ChainMap.parents: it leaves one empty scope rather than failing.
- The compiler accepts a Call node with any argument list. Only Ast.NewCall enforces the Sqrt and Power arities, as the constructors do.
