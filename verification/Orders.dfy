/** Lexicographic orders, and the uniqueness of strictly sorted sequences. */
module Orders {
  /** A strict total order. */
  ghost predicate Total<T(!new)>(less: (T, T) -> bool) {
    && (forall a :: !less(a, a))
    && (forall a, b, c :: less(a, b) && less(b, c) ==> less(a, c))
    && (forall a, b :: a == b || less(a, b) || less(b, a))
  }

  /** Python's `<` on sequences: the first difference decides, a proper prefix is smaller. */
  predicate LexLess<T(==)>(less: (T, T) -> bool, a: seq<T>, b: seq<T>) {
    if b == [] then false
    else if a == [] then true
    else less(a[0], b[0]) || (a[0] == b[0] && LexLess(less, a[1..], b[1..]))
  }

  lemma {:induction false} LexIrreflexive<T(!new)>(less: (T, T) -> bool, a: seq<T>)
    requires Total(less)
    ensures !LexLess(less, a, a)
  {
    if a != [] { LexIrreflexive(less, a[1..]); }
  }

  lemma {:induction false} LexTransitive<T(!new)>(less: (T, T) -> bool, a: seq<T>, b: seq<T>, c: seq<T>)
    requires Total(less) && LexLess(less, a, b) && LexLess(less, b, c)
    ensures LexLess(less, a, c)
  {
    if a != [] && a[0] == b[0] == c[0] { LexTransitive(less, a[1..], b[1..], c[1..]); }
  }

  lemma {:induction false} LexConnected<T(!new)>(less: (T, T) -> bool, a: seq<T>, b: seq<T>)
    requires Total(less)
    ensures a == b || LexLess(less, a, b) || LexLess(less, b, a)
  {
    if a != [] && b != [] && a[0] == b[0] {
      LexConnected(less, a[1..], b[1..]);
      assert a == [a[0]] + a[1..] && b == [b[0]] + b[1..];
    }
  }

  lemma LexTotal<T(!new)>(less: (T, T) -> bool, lex: (seq<T>, seq<T>) -> bool)
    requires Total(less) && forall a, b :: lex(a, b) == LexLess(less, a, b)
    ensures Total(lex)
  {
    forall a: seq<T> ensures !lex(a, a) { LexIrreflexive(less, a); }
    forall a: seq<T>, b: seq<T>, c: seq<T> | lex(a, b) && lex(b, c) ensures lex(a, c) { LexTransitive(less, a, b, c); }
    forall a: seq<T>, b: seq<T> ensures a == b || lex(a, b) || lex(b, a) { LexConnected(less, a, b); }
  }

  ghost predicate DiffersAt<T(!new)>(less: (T, T) -> bool, a: seq<T>, b: seq<T>, k: nat) {
    k < |a| && k < |b| && a[..k] == b[..k] && less(a[k], b[k])
  }

  /** The first difference decides; without one, the shorter sequence is smaller. */
  lemma {:induction false} LexByFirstDifference<T(!new)>(less: (T, T) -> bool, a: seq<T>, b: seq<T>)
    requires forall x :: !less(x, x)
    ensures LexLess(less, a, b) <==> a < b || exists k: nat :: DiffersAt(less, a, b, k)
  {
    if a != [] && b != [] {
      LexByFirstDifference(less, a[1..], b[1..]);
      assert a == [a[0]] + a[1..] && b == [b[0]] + b[1..];
      if k: nat :| DiffersAt(less, a, b, k) { TailDiffers(less, a, b, k); }
      if a[0] == b[0] {
        if k: nat :| DiffersAt(less, a[1..], b[1..], k) { HeadsAgree(less, a, b, k); }
      }
      if less(a[0], b[0]) { assert DiffersAt(less, a, b, 0); }
    } else if k: nat :| DiffersAt(less, a, b, k) {
    }
  }

  lemma TailDiffers<T(!new)>(less: (T, T) -> bool, a: seq<T>, b: seq<T>, k: nat)
    requires a != [] && b != [] && DiffersAt(less, a, b, k)
    ensures if k == 0 then less(a[0], b[0]) else a[0] == b[0] && DiffersAt(less, a[1..], b[1..], k - 1)
  {
    if k > 0 {
      assert a[0] == a[..k][0] && a[1..][..k - 1] == a[..k][1..] && b[1..][..k - 1] == b[..k][1..];
    }
  }

  lemma HeadsAgree<T(!new)>(less: (T, T) -> bool, a: seq<T>, b: seq<T>, k: nat)
    requires a != [] && b != [] && a[0] == b[0] && DiffersAt(less, a[1..], b[1..], k)
    ensures DiffersAt(less, a, b, k + 1)
  {
    assert a[..k + 1] == [a[0]] + a[1..][..k] && b[..k + 1] == [b[0]] + b[1..][..k];
  }

  ghost predicate Sorted<T>(less: (T, T) -> bool, s: seq<T>) {
    forall i, j :: 0 <= i < j < |s| ==> less(s[i], s[j])
  }

  /** A strictly sorted sequence is determined by its elements. */
  lemma {:induction false} SortedUnique<T(!new)>(less: (T, T) -> bool, a: seq<T>, b: seq<T>)
    requires Total(less) && Sorted(less, a) && Sorted(less, b)
    requires forall x :: x in a <==> x in b
    ensures a == b
  {
    assert b == [] || b[0] in b;
    if a != [] {
      assert a[0] in b && b != [];
      assert b[0] in a;
      assert a[0] == b[0];
      forall x ensures x in a[1..] <==> x in b[1..] {
        assert a == [a[0]] + a[1..] && b == [b[0]] + b[1..];
        assert x in a <==> x == a[0] || x in a[1..];
        assert x in b <==> x == b[0] || x in b[1..];
      }
      SortedUnique(less, a[1..], b[1..]);
      assert a == [a[0]] + a[1..] && b == [b[0]] + b[1..];
    }
  }

  /** Insertion into a strictly sorted sequence; an element already there stays once. */
  function Insert<T(==, !new)>(less: (T, T) -> bool, x: T, s: seq<T>): (r: seq<T>)
    ensures forall y :: y in r <==> y == x || y in s
    ensures Total(less) && Sorted(less, s) ==> Sorted(less, r)
  {
    if s == [] then [x]
    else if x == s[0] then s
    else if less(x, s[0]) then
      assert Total(less) && Sorted(less, s) ==> forall y :: y in s ==> less(x, y);
      [x] + s
    else
      var rest := Insert(less, x, s[1..]);
      assert s == [s[0]] + s[1..];
      assert Sorted(less, s) ==> Sorted(less, s[1..]);
      assert Total(less) && Sorted(less, s) ==> forall y :: y in rest ==> less(s[0], y);
      [s[0]] + rest
  }

  /** Python's `sorted` on pairwise different values. */
  function Sort<T(==, !new)>(less: (T, T) -> bool, s: seq<T>): (r: seq<T>)
    ensures forall y :: y in r <==> y in s
    ensures Total(less) ==> Sorted(less, r)
  {
    if s == [] then []
    else
      assert s == [s[0]] + s[1..];
      Insert(less, s[0], Sort(less, s[1..]))
  }

  /** Sorting forgets the order its input came in. */
  lemma SortForgetsOrder<T(!new)>(less: (T, T) -> bool, a: seq<T>, b: seq<T>)
    requires Total(less) && forall x :: x in a <==> x in b
    ensures Sort(less, a) == Sort(less, b)
  {
    SortedUnique(less, Sort(less, a), Sort(less, b));
  }

  predicate CharLess(a: char, b: char) { a < b }

  predicate StringLess(a: string, b: string) { LexLess(CharLess, a, b) }

  predicate TupleLess(a: seq<string>, b: seq<string>) { LexLess(StringLess, a, b) }

  lemma StringOrderTotal()
    ensures Total(CharLess) && Total(StringLess) && Total(TupleLess)
  {
    LexTotal(CharLess, StringLess);
    LexTotal(StringLess, TupleLess);
  }
}
