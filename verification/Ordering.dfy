/** Orders used for sorting, a stable sort, and decimal numerals. */
module Ordering {
  /** Lexicographic order of strings. */
  predicate Before(a: string, b: string) {
    b != [] && (a == [] || a[0] < b[0] || (a[0] == b[0] && Before(a[1..], b[1..])))
  }

  lemma {:induction false} BeforeTransitive(a: string, b: string, c: string)
    requires Before(a, b) && Before(b, c)
    ensures Before(a, c)
  {
    if a != [] && a[0] == b[0] && b[0] == c[0] {
      BeforeTransitive(a[1..], b[1..], c[1..]);
    }
  }

  lemma {:induction false} BeforeIrreflexive(a: string)
    ensures !Before(a, a)
  {
    if a != [] {
      BeforeIrreflexive(a[1..]);
    }
  }

  lemma {:induction false} BeforeTotal(a: string, b: string)
    ensures Before(a, b) || Before(b, a) || a == b
  {
    if a != [] && b != [] && a[0] == b[0] {
      BeforeTotal(a[1..], b[1..]);
      assert a == [a[0]] + a[1..] && b == [b[0]] + b[1..];
    }
  }

  lemma {:induction false} BeforeCommonPrefix(p: string, a: string, b: string)
    ensures Before(p + a, p + b) <==> Before(a, b)
  {
    if p == [] {
      assert p + a == a && p + b == b;
    } else {
      assert (p + a)[1..] == p[1..] + a && (p + b)[1..] == p[1..] + b;
      BeforeCommonPrefix(p[1..], a, b);
    }
  }

  /** Lexicographic: the shorter of two strings where one begins the other, and
      otherwise the one with the smaller character where they first differ. */
  lemma BeforeIsLexicographic(p: string, x: char, a: string, y: char, b: string)
    ensures Before(p, p + [x] + a)
    ensures x != y ==> (Before(p + [x] + a, p + [y] + b) <==> x < y)
  {
    assert p + [] == p && p + ([x] + a) == p + [x] + a && p + ([y] + b) == p + [y] + b;
    BeforeCommonPrefix(p, [], [x] + a);
    BeforeCommonPrefix(p, [x] + a, [y] + b);
  }

  ghost predicate Increasing(s: seq<nat>) {
    forall i, j :: 0 <= i < j < |s| ==> s[i] < s[j]
  }

  /** What Go's sort asks of a comparison: a strict weak order. */
  ghost predicate StrictWeak<T(!new)>(less: (T, T) -> bool) {
    && (forall a, b :: less(a, b) ==> !less(b, a))
    && (forall a, b, c :: !less(b, a) && !less(c, b) ==> !less(c, a))
  }

  ghost predicate Sorted<T>(less: (T, T) -> bool, s: seq<T>) {
    forall i, j :: 0 <= i < j < |s| ==> !less(s[j], s[i])
  }

  /** Inserts `x` behind everything that does not come after it. */
  function Insert<T>(less: (T, T) -> bool, x: T, s: seq<T>): seq<T> {
    if s == [] then [x]
    else if less(x, s[|s| - 1]) then Insert(less, x, s[..|s| - 1]) + [s[|s| - 1]]
    else s + [x]
  }

  function StableSort<T>(less: (T, T) -> bool, s: seq<T>): seq<T> {
    if s == [] then [] else Insert(less, s[|s| - 1], StableSort(less, s[..|s| - 1]))
  }

  lemma {:induction false} InsertPermutes<T>(less: (T, T) -> bool, x: T, s: seq<T>)
    ensures multiset(Insert(less, x, s)) == multiset(s) + multiset{x}
  {
    if s != [] && less(x, s[|s| - 1]) {
      var n := |s| - 1;
      InsertPermutes(less, x, s[..n]);
      assert s == s[..n] + [s[n]];
      var r := Insert(less, x, s[..n]);
      assert Insert(less, x, s) == r + [s[n]];
      assert multiset(r + [s[n]]) == multiset(r) + multiset{s[n]};
    }
  }

  lemma {:induction false} StableSortPermutes<T>(less: (T, T) -> bool, s: seq<T>)
    ensures multiset(StableSort(less, s)) == multiset(s) && |StableSort(less, s)| == |s|
  {
    if s != [] {
      var n := |s| - 1;
      StableSortPermutes(less, s[..n]);
      InsertPermutes(less, s[n], StableSort(less, s[..n]));
      assert s == s[..n] + [s[n]];
    }
    assert |multiset(StableSort(less, s))| == |multiset(s)|;
  }

  lemma SortedSnoc<T>(less: (T, T) -> bool, s: seq<T>, x: T)
    requires Sorted(less, s) && forall i :: 0 <= i < |s| ==> !less(x, s[i])
    ensures Sorted(less, s + [x])
  {
  }

  lemma InsertMember<T>(less: (T, T) -> bool, x: T, s: seq<T>, i: nat)
    requires i < |Insert(less, x, s)|
    ensures Insert(less, x, s)[i] == x || Insert(less, x, s)[i] in s
  {
    InsertPermutes(less, x, s);
    assert Insert(less, x, s)[i] in multiset(Insert(less, x, s));
  }

  lemma {:induction false} InsertSorts<T(!new)>(less: (T, T) -> bool, x: T, s: seq<T>)
    requires StrictWeak(less) && Sorted(less, s)
    ensures Sorted(less, Insert(less, x, s))
  {
    if s != [] {
      var n := |s| - 1;
      if less(x, s[n]) {
        InsertSorts(less, x, s[..n]);
        var r := Insert(less, x, s[..n]);
        forall i | 0 <= i < |r| ensures !less(s[n], r[i]) {
          InsertMember(less, x, s[..n], i);
        }
        SortedSnoc(less, r, s[n]);
      } else {
        forall i | 0 <= i < |s| ensures !less(x, s[i]) {
          assert i < n ==> !less(s[n], s[i]);
        }
        SortedSnoc(less, s, x);
      }
    }
  }

  lemma {:induction false} StableSortSorts<T(!new)>(less: (T, T) -> bool, s: seq<T>)
    requires StrictWeak(less)
    ensures Sorted(less, StableSort(less, s))
  {
    if s != [] {
      StableSortSorts(less, s[..|s| - 1]);
      InsertSorts(less, s[|s| - 1], StableSort(less, s[..|s| - 1]));
    }
  }

  /** Neither of the two comes before the other. */
  predicate Tied<T>(less: (T, T) -> bool, x: T, y: T) {
    !less(x, y) && !less(y, x)
  }

  /** The elements that tie with `z`, in order. */
  function Ties<T>(less: (T, T) -> bool, z: T, s: seq<T>): seq<T> {
    if s == [] then [] else Ties(less, z, s[..|s| - 1]) + if Tied(less, z, s[|s| - 1]) then [s[|s| - 1]] else []
  }

  lemma TiesSnoc<T>(less: (T, T) -> bool, z: T, s: seq<T>, x: T)
    ensures Ties(less, z, s + [x]) == Ties(less, z, s) + if Tied(less, z, x) then [x] else []
  {
    assert (s + [x])[..|s|] == s;
  }

  lemma {:induction false} InsertIsStable<T(!new)>(less: (T, T) -> bool, x: T, s: seq<T>, z: T)
    requires StrictWeak(less)
    ensures Ties(less, z, Insert(less, x, s)) == Ties(less, z, s) + if Tied(less, z, x) then [x] else []
  {
    if s == [] {
      TiesSnoc(less, z, [], x);
    } else if less(x, s[|s| - 1]) {
      var n := |s| - 1;
      InsertIsStable(less, x, s[..n], z);
      TiesSnoc(less, z, Insert(less, x, s[..n]), s[n]);
      NotBothTied(less, x, s[n], z);
    } else {
      TiesSnoc(less, z, s, x);
    }
  }

  lemma NotBothTied<T(!new)>(less: (T, T) -> bool, x: T, y: T, z: T)
    requires StrictWeak(less) && less(x, y)
    ensures Tied(less, z, x) ==> !Tied(less, z, y)
  {
  }

  /** The sort is stable: elements that tie keep their order. */
  lemma {:induction false} SortIsStable<T(!new)>(less: (T, T) -> bool, s: seq<T>, z: T)
    requires StrictWeak(less)
    ensures Ties(less, z, StableSort(less, s)) == Ties(less, z, s)
  {
    if s != [] {
      var n := |s| - 1;
      SortIsStable(less, s[..n], z);
      InsertIsStable(less, s[n], StableSort(less, s[..n]), z);
    }
  }

  /** The results of `f` on the elements, one after another. */
  function Flat<T, U>(f: T -> seq<U>, s: seq<T>): seq<U> {
    if s == [] then [] else Flat(f, s[..|s| - 1]) + f(s[|s| - 1])
  }

  lemma {:induction false} FlatConcat<T, U>(f: T -> seq<U>, a: seq<T>, b: seq<T>)
    ensures Flat(f, a + b) == Flat(f, a) + Flat(f, b)
  {
    if b == [] {
      assert a + b == a;
    } else {
      var n := |b| - 1;
      assert (a + b)[..|a| + n] == a + b[..n];
      FlatConcat(f, a, b[..n]);
    }
  }

  lemma {:induction false} FlatMember<T(!new), U>(f: T -> seq<U>, s: seq<T>, y: U)
    ensures y in Flat(f, s) <==> exists x :: x in s && y in f(x)
  {
    if s != [] {
      var n := |s| - 1;
      FlatMember(f, s[..n], y);
      assert s == s[..n] + [s[n]];
    }
  }

  // ---------------------------------------------------------------- numerals

  const DIGITS: string := "0123456789"

  /** Decimal notation of a natural number. */
  function Decimal(n: nat): (s: string)
    ensures |s| > 0
  {
    if n < 10 then [DIGITS[n]] else Decimal(n / 10) + [DIGITS[n % 10]]
  }

  /** The number a string of digits stands for. */
  function Value(s: string): int {
    if s == [] then 0 else 10 * Value(s[..|s| - 1]) + (s[|s| - 1] as int - '0' as int)
  }

  /** Decimal notation: digits only, no leading zero, and the value is the number. */
  lemma {:induction false} DecimalIsDecimal(n: nat)
    ensures var s := Decimal(n);
            && (forall i :: 0 <= i < |s| ==> '0' <= s[i] <= '9')
            && (s[0] == '0' ==> n == 0) && Value(s) == n
  {
    assert forall d :: 0 <= d < 10 ==> DIGITS[d] as int == '0' as int + d;
    if n < 10 {
      assert [DIGITS[n]][..0] == [];
    } else {
      DecimalIsDecimal(n / 10);
      assert Decimal(n)[..|Decimal(n)| - 1] == Decimal(n / 10);
    }
  }

  lemma DigitInjective(a: nat, b: nat)
    requires a < 10 && b < 10 && DIGITS[a] == DIGITS[b]
    ensures a == b
  {
    assert forall i, j :: 0 <= i < j < 10 ==> DIGITS[i] < DIGITS[j];
  }

  lemma {:induction false} DecimalInjective(a: nat, b: nat)
    requires Decimal(a) == Decimal(b)
    ensures a == b
  {
    var s := Decimal(a);
    assert s[|s| - 1] == DIGITS[a % 10] && s[|s| - 1] == DIGITS[b % 10];
    DigitInjective(a % 10, b % 10);
    assert (|s| > 1 <==> a >= 10) && (|s| > 1 <==> b >= 10);
    if a >= 10 {
      assert Decimal(a / 10) == s[..|s| - 1] == Decimal(b / 10);
      DecimalInjective(a / 10, b / 10);
    }
  }
}
