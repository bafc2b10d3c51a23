/** The precedence algebra of lessql/expr/base.py: an ordered associativity
    enum and (rank, associativity) pairs compared lexicographically. */
module Precedences {
  import opened Results

  /** Operator associativity, ordered NonAssoc < Left < Right by enum value. */
  datatype Associativity = NonAssoc | Left | Right

  /** The enum member's value (0, 1, 2). */
  function Ordinal(a: Associativity): nat
  {
    match a
    case NonAssoc => 0
    case Left => 1
    case Right => 2
  }

  predicate AssocLess(a: Associativity, b: Associativity)
  {
    Ordinal(a) < Ordinal(b)
  }

  /** sys.maxint of a 64-bit Python 2 interpreter. */
  const MaxInt: int := 0x7fff_ffff_ffff_ffff

  datatype Prec = Prec(rank: int, assoc: Associativity)

  /** Precedence(precedence=None, associativity=None): absent components take
      the defaults MaxInt and NonAssoc. */
  function Make(rank: Option<int>, assoc: Option<Associativity>): (p: Prec)
    ensures rank.Some? ==> p.rank == rank.value
    ensures rank.None? ==> p.rank == MaxInt
    ensures assoc.Some? ==> p.assoc == assoc.value
    ensures assoc.None? ==> p.assoc == NonAssoc
  {
    Prec(if rank.None? then MaxInt else rank.value,
         if assoc.None? then NonAssoc else assoc.value)
  }

  /** Precedence(): binds tightest, never bracketed. */
  function Default(): Prec
  {
    Make(None, None)
  }

  /** Precedence.__lt__: rank first, associativity on a tie. */
  predicate Less(a: Prec, b: Prec)
  {
    a.rank < b.rank || (a.rank == b.rank && AssocLess(a.assoc, b.assoc))
  }

  /** The <= that functools.total_ordering derives from __lt__ and __eq__. */
  predicate LessEq(a: Prec, b: Prec)
  {
    Less(a, b) || a == b
  }

  /** An independent integer encoding of a precedence: three slots per rank. */
  function Key(p: Prec): int
  {
    3 * p.rank + Ordinal(p.assoc)
  }

  lemma AssociativityOrder()
    ensures AssocLess(NonAssoc, Left) && AssocLess(Left, Right)
    ensures forall a: Associativity :: !AssocLess(a, a)
  {
  }

  /** The lexicographic order agrees with the order of the encodings, so it is
      a strict total order on precedences. */
  lemma LessIsKeyOrder(a: Prec, b: Prec)
    ensures Less(a, b) <==> Key(a) < Key(b)
    ensures a == b <==> Key(a) == Key(b)
  {
    if a.rank < b.rank {
      assert Key(a) <= 3 * a.rank + 2 < 3 * b.rank <= Key(b);
    } else if b.rank < a.rank {
      assert Key(b) <= 3 * b.rank + 2 < 3 * a.rank <= Key(a);
    } else if a.assoc != b.assoc {
      assert Ordinal(a.assoc) != Ordinal(b.assoc);
    }
  }

  lemma LessIsStrictTotalOrder(a: Prec, b: Prec, c: Prec)
    ensures !Less(a, a)
    ensures Less(a, b) && Less(b, c) ==> Less(a, c)
    ensures Less(a, b) || a == b || Less(b, a)
    ensures !(Less(a, b) && Less(b, a))
  {
    LessIsKeyOrder(a, b);
    LessIsKeyOrder(b, c);
    LessIsKeyOrder(a, c);
    LessIsKeyOrder(b, a);
  }

  /** The default is at least every precedence whose rank does not exceed
      MaxInt and, at rank MaxInt, is non-associative. */
  lemma DefaultIsMaximal(p: Prec)
    requires p.rank < MaxInt || p == Prec(MaxInt, NonAssoc)
    ensures !Less(Default(), p)
    ensures LessEq(p, Default())
  {
  }
}
