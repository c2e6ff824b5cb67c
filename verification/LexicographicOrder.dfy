/** Lexicographic order of lists, as the host language compares strings and tuples of strings. */
module LexicographicOrder {
  ghost predicate TotalOrder<T(!new)>(leq: (T, T) -> bool) {
    && (forall a, b :: leq(a, b) || leq(b, a))
    && (forall a, b :: leq(a, b) && leq(b, a) ==> a == b)
    && (forall a, b, c :: leq(a, b) && leq(b, c) ==> leq(a, c))
  }

  predicate LexLeq<T(==)>(leq: (T, T) -> bool, a: seq<T>, b: seq<T>) {
    a == [] || (b != [] && if a[0] == b[0] then LexLeq(leq, a[1..], b[1..]) else leq(a[0], b[0]))
  }

  lemma {:induction false} LexTotal<T(!new)>(leq: (T, T) -> bool, a: seq<T>, b: seq<T>)
    requires TotalOrder(leq)
    ensures LexLeq(leq, a, b) || LexLeq(leq, b, a)
  {
    if a != [] && b != [] && a[0] == b[0] {
      LexTotal(leq, a[1..], b[1..]);
    }
  }

  lemma {:induction false} LexAntisymmetric<T(!new)>(leq: (T, T) -> bool, a: seq<T>, b: seq<T>)
    requires TotalOrder(leq) && LexLeq(leq, a, b) && LexLeq(leq, b, a)
    ensures a == b
  {
    if a != [] && b != [] {
      assert a[0] == b[0];
      LexAntisymmetric(leq, a[1..], b[1..]);
      assert a == [a[0]] + a[1..] && b == [b[0]] + b[1..];
    }
  }

  lemma {:induction false} LexTransitive<T(!new)>(leq: (T, T) -> bool, a: seq<T>, b: seq<T>, c: seq<T>)
    requires TotalOrder(leq) && LexLeq(leq, a, b) && LexLeq(leq, b, c)
    ensures LexLeq(leq, a, c)
  {
    if a != [] {
      if a[0] == b[0] && b[0] == c[0] {
        LexTransitive(leq, a[1..], b[1..], c[1..]);
      }
    }
  }

  function Lex<T(==)>(leq: (T, T) -> bool): (seq<T>, seq<T>) -> bool {
    (a, b) => LexLeq(leq, a, b)
  }

  lemma LexIsTotalOrder<T(!new)>(leq: (T, T) -> bool)
    requires TotalOrder(leq)
    ensures TotalOrder(Lex(leq))
  {
    forall a, b ensures Lex(leq)(a, b) || Lex(leq)(b, a) {
      LexTotal(leq, a, b);
    }
    forall a, b | Lex(leq)(a, b) && Lex(leq)(b, a) ensures a == b {
      LexAntisymmetric(leq, a, b);
    }
    forall a, b, c | Lex(leq)(a, b) && Lex(leq)(b, c) ensures Lex(leq)(a, c) {
      LexTransitive(leq, a, b, c);
    }
  }

  /** A list comes before its extensions. */
  lemma {:induction false} PrefixFirst<T>(leq: (T, T) -> bool, a: seq<T>, b: seq<T>)
    requires a <= b
    ensures LexLeq(leq, a, b)
  {
    if a != [] {
      PrefixFirst(leq, a[1..], b[1..]);
    }
  }

  function CharLeq(): (char, char) -> bool {
    (a, b) => a <= b
  }

  function StringLeq(): (string, string) -> bool {
    Lex(CharLeq())
  }

  function PathLeq(): (seq<string>, seq<string>) -> bool {
    Lex(StringLeq())
  }

  lemma StringsAndPathsOrdered()
    ensures TotalOrder(StringLeq()) && TotalOrder(PathLeq())
  {
    LexIsTotalOrder(CharLeq());
    LexIsTotalOrder(StringLeq());
  }
}
