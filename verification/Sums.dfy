/** Finite sums over sets and over the rows of a table, and the laws the ledger proofs need. */
module Sums {

  /** The sum of `f` over the elements of `s`. */
  ghost function SetSum<T(!new)>(s: set<T>, f: T -> int): int
    decreases |s|
  {
    if s == {} then 0
    else
      var x :| x in s;
      f(x) + SetSum(s - {x}, f)
  }

  lemma {:induction false} SetSumSplit<T(!new)>(s: set<T>, x: T, f: T -> int)
    requires x in s
    ensures SetSum(s, f) == f(x) + SetSum(s - {x}, f)
    decreases |s|
  {
    var y :| y in s && SetSum(s, f) == f(y) + SetSum(s - {y}, f);
    if y != x {
      SetSumSplit(s - {y}, x, f);
      SetSumSplit(s - {x}, y, f);
      assert s - {y} - {x} == s - {x} - {y};
    }
  }

  /** Sums are additive in the summand. */
  lemma {:induction false} SetSumAdd<T(!new)>(s: set<T>, f: T -> int, g: T -> int, h: T -> int)
    requires forall x :: x in s ==> h(x) == f(x) + g(x)
    ensures SetSum(s, h) == SetSum(s, f) + SetSum(s, g)
    decreases |s|
  {
    if s != {} {
      var x :| x in s;
      SetSumAdd(s - {x}, f, g, h);
      SetSumSplit(s, x, f);
      SetSumSplit(s, x, g);
      SetSumSplit(s, x, h);
    }
  }

  lemma {:induction false} SetSumZero<T(!new)>(s: set<T>, f: T -> int)
    requires forall x :: x in s ==> f(x) == 0
    ensures SetSum(s, f) == 0
    decreases |s|
  {
    if s != {} {
      var x :| x in s;
      SetSumZero(s - {x}, f);
      SetSumSplit(s, x, f);
    }
  }

  lemma SetSumSame<T(!new)>(s: set<T>, f: T -> int, g: T -> int)
    requires forall x :: x in s ==> f(x) == g(x)
    ensures SetSum(s, f) == SetSum(s, g)
  {
    var zero := (x: T) => 0;
    SetSumZero(s, zero);
    SetSumAdd(s, g, zero, f);
  }

  /** A summand that is zero everywhere but at `x`. */
  lemma SetSumPoint<T(!new)>(s: set<T>, f: T -> int, x: T)
    requires forall y :: y in s && y != x ==> f(y) == 0
    ensures SetSum(s, f) == if x in s then f(x) else 0
  {
    if x in s {
      SetSumSplit(s, x, f);
      SetSumZero(s - {x}, f);
    } else {
      SetSumZero(s, f);
    }
  }

  ghost function Image<S(!new), T>(s: set<S>, g: S -> T): set<T> {
    set x | x in s :: g(x)
  }

  lemma InImage<S(!new), T>(s: set<S>, g: S -> T, x: S)
    requires x in s
    ensures g(x) in Image(s, g)
  {
  }

  /** A sum over an injective image is a sum over the originals. */
  lemma {:induction false} SetSumImage<S(!new), T(!new)>(s: set<S>, g: S -> T, f: T -> int, h: S -> int)
    requires forall x, y :: x in s && y in s && g(x) == g(y) ==> x == y
    requires forall x :: x in s ==> h(x) == f(g(x))
    ensures SetSum(Image(s, g), f) == SetSum(s, h)
    ensures |Image(s, g)| == |s|
    decreases |s|
  {
    var image := Image(s, g);
    if s != {} {
      var x :| x in s;
      SetSumImage(s - {x}, g, f, h);
      assert Image(s - {x}, g) == image - {g(x)};
      SetSumSplit(s, x, h);
      SetSumSplit(image, g(x), f);
    }
  }

  lemma OneMore(c: int, n: nat)
    ensures c * (n + 1) == c * n + c
  {
  }

  /** Summands that differ by at most `c` have sums that differ by at most `c` for each member. */
  lemma {:induction false} SetSumWithin<T(!new)>(s: set<T>, f: T -> int, g: T -> int, c: int)
    requires forall x :: x in s ==> -c <= 2 * (f(x) - g(x)) <= c
    ensures -c * |s| <= 2 * (SetSum(s, f) - SetSum(s, g)) <= c * |s|
    decreases |s|
  {
    if s != {} {
      var x :| x in s;
      SetSumWithin(s - {x}, f, g, c);
      SetSumSplit(s, x, f);
      SetSumSplit(s, x, g);
      OneMore(c, |s - {x}|);
      OneMore(-c, |s - {x}|);
    }
  }

  /** The sum of the weight `w` over the rows of a table. */
  ghost function Total<K(!new), V(!new)>(table: map<K, V>, w: V -> int): int
    decreases |table|
  {
    if table == map[] then 0
    else
      var k :| k in table;
      w(table[k]) + Total(table - {k}, w)
  }

  lemma {:induction false} TotalSplit<K(!new), V(!new)>(table: map<K, V>, k: K, w: V -> int)
    requires k in table
    ensures Total(table, w) == w(table[k]) + Total(table - {k}, w)
    decreases |table|
  {
    var j :| j in table && Total(table, w) == w(table[j]) + Total(table - {j}, w);
    if j != k {
      TotalSplit(table - {j}, k, w);
      TotalSplit(table - {k}, j, w);
      assert table - {j} - {k} == table - {k} - {j};
    }
  }

  /** Writing one row changes the sum by that row alone. */
  lemma TotalWrite<K(!new), V(!new)>(table: map<K, V>, k: K, v: V, w: V -> int)
    ensures Total(table[k := v], w) == Total(table, w) + w(v) - (if k in table then w(table[k]) else 0)
  {
    TotalSplit(table[k := v], k, w);
    if k in table {
      assert table[k := v] - {k} == table - {k};
      TotalSplit(table, k, w);
    } else {
      assert table[k := v] - {k} == table;
    }
  }

  lemma {:induction false} TotalAdd<K(!new), V(!new)>(table: map<K, V>, f: V -> int, g: V -> int, h: V -> int)
    requires forall k :: k in table ==> h(table[k]) == f(table[k]) + g(table[k])
    ensures Total(table, h) == Total(table, f) + Total(table, g)
    decreases |table|
  {
    if table != map[] {
      var k :| k in table;
      TotalAdd(table - {k}, f, g, h);
      TotalSplit(table, k, f);
      TotalSplit(table, k, g);
      TotalSplit(table, k, h);
    }
  }

  lemma {:induction false} TotalMono<K(!new), V(!new)>(table: map<K, V>, f: V -> int, g: V -> int)
    requires forall k :: k in table ==> f(table[k]) <= g(table[k])
    ensures Total(table, f) <= Total(table, g)
    decreases |table|
  {
    if table != map[] {
      var k :| k in table;
      TotalMono(table - {k}, f, g);
      TotalSplit(table, k, f);
      TotalSplit(table, k, g);
    }
  }

  lemma TotalSame<K(!new), V(!new)>(table: map<K, V>, f: V -> int, g: V -> int)
    requires forall k :: k in table ==> f(table[k]) == g(table[k])
    ensures Total(table, f) == Total(table, g)
  {
    TotalMono(table, f, g);
    TotalMono(table, g, f);
  }

  lemma TotalNonNegative<K(!new), V(!new)>(table: map<K, V>, w: V -> int)
    requires forall k :: k in table ==> w(table[k]) >= 0
    ensures Total(table, w) >= 0
  {
    var zero := (v: V) => 0;
    TotalMono(table, zero, w);
    TotalZero(table, zero);
  }

  lemma {:induction false} TotalZero<K(!new), V(!new)>(table: map<K, V>, w: V -> int)
    requires forall k :: k in table ==> w(table[k]) == 0
    ensures Total(table, w) == 0
    decreases |table|
  {
    if table != map[] {
      var k :| k in table;
      TotalZero(table - {k}, w);
      TotalSplit(table, k, w);
    }
  }

  /** The sum of `w` with every value negated. */
  lemma {:induction false} TotalNegate<K(!new), V(!new)>(table: map<K, V>, f: V -> int, g: V -> int)
    requires forall k :: k in table ==> g(table[k]) == -f(table[k])
    ensures Total(table, g) == -Total(table, f)
    decreases |table|
  {
    if table != map[] {
      var k :| k in table;
      TotalNegate(table - {k}, f, g);
      TotalSplit(table, k, f);
      TotalSplit(table, k, g);
    }
  }

  /** The weights `w` gives one row, by member. */
  function RowWeights<T, V>(w: T -> V -> int, v: V): T -> int {
    (x: T) => w(x)(v)
  }

  /** The totals of the weights `w` over a table, by member. */
  ghost function Totals<T(!new), K(!new), V(!new)>(w: T -> V -> int, table: map<K, V>): T -> int {
    (x: T) => Total(table, w(x))
  }

  /** Exchanging two sums: if at every row the weights of the members of `s` cancel, the totals of
      those weights cancel as well. */
  lemma {:induction false} SumsOfTotalsCancel<T(!new), K(!new), V(!new)>(s: set<T>, table: map<K, V>, w: T -> V -> int)
    requires forall k :: k in table ==> SetSum(s, RowWeights(w, table[k])) == 0
    ensures SetSum(s, Totals(w, table)) == 0
    decreases |table|
  {
    if table == map[] {
      SetSumZero(s, Totals(w, table));
    } else {
      var k :| k in table;
      var rest := table - {k};
      SumsOfTotalsCancel(s, rest, w);
      forall x | x in s ensures Totals(w, table)(x) == RowWeights(w, table[k])(x) + Totals(w, rest)(x) {
        TotalSplit(table, k, w(x));
      }
      SetSumAdd(s, RowWeights(w, table[k]), Totals(w, rest), Totals(w, table));
    }
  }
}
