/**
  Sums over the entries of a count map.

  Go ranges over a map in an unspecified order, so every accumulation in the
  indices is modelled by `Sum`, which adds one term per key and picks the keys
  in no particular order. `SumRemove` proves that the order does not matter:
  any key may be taken out first. The loops of the model pick their next key
  arbitrarily as well and rely on that lemma.

  A term is a partial function of the count (`nat --> real`): the terms of the
  indices divide by the total, which is only possible when some key exists, and
  a sum over no keys never applies its term.
 */
module Sums {

  /** True when `term` may be applied to the count of every key in `keys`. */
  ghost predicate Applicable<K>(m: map<K, nat>, keys: set<K>, term: nat --> real)
    requires keys <= m.Keys
  {
    forall k :: k in keys ==> term.requires(m[k])
  }

  /** The sum of `term(m[k])` over the keys `k` in `keys`, each key once. */
  ghost function Sum<K>(m: map<K, nat>, keys: set<K>, term: nat --> real): real
    requires keys <= m.Keys
    requires Applicable(m, keys, term)
    decreases keys
  {
    if keys == {} then 0.0
    else
      var k := Pick(keys);
      term(m[k]) + Sum(m, keys - {k}, term)
  }

  /** The key a sum takes first: some key, chosen by the set alone. */
  ghost function Pick<K>(keys: set<K>): (k: K)
    requires keys != {}
    ensures k in keys
  {
    var k :| k in keys; k
  }

  /** A count read as a real number, as `float64(count)` does. */
  function Counted(): nat -> real
  {
    c => c as real
  }

  /** The number of observations a count map records. */
  ghost function Total<K>(m: map<K, nat>): real
  {
    Sum(m, m.Keys, Counted())
  }

  /** The share `count / totalCount` of one count; it needs a non-zero total. */
  function Share(totalCount: real): nat --> real
  {
    c requires totalCount != 0.0 => c as real / totalCount
  }

  /** The same value `v` for every count. */
  function Constant(v: real): nat -> real
  {
    c => v
  }

  /** Order independence: any key can be the one added first. */
  lemma {:induction false} SumRemove<K>(m: map<K, nat>, keys: set<K>, term: nat --> real, k: K)
    requires keys <= m.Keys && Applicable(m, keys, term)
    requires k in keys
    ensures Sum(m, keys, term) == term(m[k]) + Sum(m, keys - {k}, term)
    decreases keys
  {
    var j :| j in keys && Sum(m, keys, term) == term(m[j]) + Sum(m, keys - {j}, term);
    if j != k {
      SumRemove(m, keys - {j}, term, k);
      SumRemove(m, keys - {k}, term, j);
      assert keys - {j} - {k} == keys - {k} - {j};
    }
  }

  /** One step of an accumulating loop: adding the term of a new key. */
  lemma SumInsert<K>(m: map<K, nat>, done: set<K>, term: nat --> real, k: K)
    requires done <= m.Keys && k in m && k !in done
    requires Applicable(m, done + {k}, term)
    ensures Sum(m, done + {k}, term) == Sum(m, done, term) + term(m[k])
  {
    SumRemove(m, done + {k}, term, k);
    assert done + {k} - {k} == done;
  }

  /** Only the counts of the summed keys matter. */
  lemma {:induction false} SumAgree<K>(m1: map<K, nat>, m2: map<K, nat>, keys: set<K>, term: nat --> real)
    requires keys <= m1.Keys && keys <= m2.Keys
    requires forall k :: k in keys ==> m1[k] == m2[k]
    requires Applicable(m1, keys, term)
    ensures Applicable(m2, keys, term)
    ensures Sum(m1, keys, term) == Sum(m2, keys, term)
    decreases keys
  {
    if keys != {} {
      var k := Pick(keys);
      SumAgree(m1, m2, keys - {k}, term);
    }
  }

  /** A sum of non-negative terms is non-negative. */
  lemma {:induction false} SumNonNegative<K>(m: map<K, nat>, keys: set<K>, term: nat --> real)
    requires keys <= m.Keys && Applicable(m, keys, term)
    requires forall k :: k in keys ==> term(m[k]) >= 0.0
    ensures Sum(m, keys, term) >= 0.0
    decreases keys
  {
    if keys != {} {
      var k := Pick(keys);
      SumNonNegative(m, keys - {k}, term);
    }
  }

  /** A sum of non-positive terms is non-positive. */
  lemma {:induction false} SumNonPositive<K>(m: map<K, nat>, keys: set<K>, term: nat --> real)
    requires keys <= m.Keys && Applicable(m, keys, term)
    requires forall k :: k in keys ==> term(m[k]) <= 0.0
    ensures Sum(m, keys, term) <= 0.0
    decreases keys
  {
    if keys != {} {
      var k := Pick(keys);
      SumNonPositive(m, keys - {k}, term);
    }
  }

  /** Each non-negative term is at most the whole sum, and one positive term makes it positive. */
  lemma SumAtLeastTerm<K>(m: map<K, nat>, keys: set<K>, term: nat --> real, k: K)
    requires keys <= m.Keys && Applicable(m, keys, term)
    requires forall j :: j in keys ==> term(m[j]) >= 0.0
    requires k in keys
    ensures term(m[k]) <= Sum(m, keys, term)
    ensures term(m[k]) > 0.0 ==> Sum(m, keys, term) > 0.0
  {
    SumRemove(m, keys, term, k);
    SumNonNegative(m, keys - {k}, term);
  }

  /** Sums are monotone in their terms. */
  lemma {:induction false} SumMonotone<K>(m: map<K, nat>, keys: set<K>, lo: nat --> real, hi: nat --> real)
    requires keys <= m.Keys && Applicable(m, keys, lo) && Applicable(m, keys, hi)
    requires forall k :: k in keys ==> lo(m[k]) <= hi(m[k])
    ensures Sum(m, keys, lo) <= Sum(m, keys, hi)
    decreases keys
  {
    if keys != {} {
      var k := Pick(keys);
      SumMonotone(m, keys - {k}, lo, hi);
    }
  }

  /** A common factor of all terms can be taken out of the sum. */
  lemma {:induction false} SumScale<K>(m: map<K, nat>, keys: set<K>, term: nat --> real, scaled: nat --> real, a: real)
    requires keys <= m.Keys && Applicable(m, keys, term) && Applicable(m, keys, scaled)
    requires forall k :: k in keys ==> scaled(m[k]) == a * term(m[k])
    ensures Sum(m, keys, scaled) == a * Sum(m, keys, term)
    decreases keys
  {
    if keys != {} {
      SumScale(m, keys - {Pick(keys)}, term, scaled, a);
    }
  }

  /** The sum of two families of terms is the sum of their sums. */
  lemma {:induction false} SumAdd<K>(m: map<K, nat>, keys: set<K>, t1: nat --> real, t2: nat --> real, both: nat --> real)
    requires keys <= m.Keys && Applicable(m, keys, t1) && Applicable(m, keys, t2) && Applicable(m, keys, both)
    requires forall k :: k in keys ==> both(m[k]) == t1(m[k]) + t2(m[k])
    ensures Sum(m, keys, both) == Sum(m, keys, t1) + Sum(m, keys, t2)
    decreases keys
  {
    if keys != {} {
      var k := Pick(keys);
      SumAdd(m, keys - {k}, t1, t2, both);
    }
  }

  /** When every term has the same value, the sum is that value times the number of keys. */
  lemma {:induction false} SumConstant<K>(m: map<K, nat>, keys: set<K>, term: nat --> real, v: real)
    requires keys <= m.Keys && Applicable(m, keys, term)
    requires forall k :: k in keys ==> term(m[k]) == v
    ensures Sum(m, keys, term) == |keys| as real * v
    decreases keys
  {
    if keys != {} {
      var k :| k in keys;
      SumRemove(m, keys, term, k);
      SumConstant(m, keys - {k}, term, v);
    }
  }

  /** `p * l == p * a + p * b` when `l == a + b`. */
  lemma Distribute(p: real, l: real, a: real, b: real)
    requires l == a + b
    ensures p * l == p * a + p * b
    ensures l * p == a * p + b * p
  {
  }

  /** The accumulator `acc += term(m[k])` after visiting the keys `ks` in that order. */
  function Accumulate<K>(m: map<K, nat>, ks: seq<K>, term: nat --> real): real
    requires forall i :: 0 <= i < |ks| ==> ks[i] in m && term.requires(m[ks[i]])
  {
    if ks == [] then 0.0 else Accumulate(m, ks[..|ks| - 1], term) + term(m[ks[|ks| - 1]])
  }

  /**
    Whatever order a loop visits the keys in, visiting each key once leaves
    the accumulator equal to `Sum`.
   */
  lemma {:induction false} SumInAnyOrder<K>(m: map<K, nat>, ks: seq<K>, term: nat --> real)
    requires forall i, j :: 0 <= i < j < |ks| ==> ks[i] != ks[j]
    requires forall i :: 0 <= i < |ks| ==> ks[i] in m && term.requires(m[ks[i]])
    ensures (set k | k in ks) <= m.Keys && Applicable(m, (set k | k in ks), term)
    ensures Accumulate(m, ks, term) == Sum(m, (set k | k in ks), term)
    decreases |ks|
  {
    if ks != [] {
      var init, last := ks[..|ks| - 1], ks[|ks| - 1];
      SumInAnyOrder(m, init, term);
      assert (set k | k in ks) == (set k | k in init) + {last};
      assert last !in init;
      SumInsert(m, (set k | k in init), term, last);
    }
  }

  /** The keys `rename` sends the keys of `keys` to. */
  ghost function Image<K, L>(keys: set<K>, rename: K -> L): set<L>
  {
    set k | k in keys :: rename(k)
  }

  /**
    Key identity does not matter: renaming the keys one-to-one, keeping each
    count, leaves every sum unchanged, whatever the key types.
   */
  lemma {:induction false} SumRename<K, L>(m: map<K, nat>, n: map<L, nat>, keys: set<K>, rename: K -> L, term: nat --> real)
    requires keys <= m.Keys && Applicable(m, keys, term)
    requires forall k :: k in keys ==> rename(k) in n && n[rename(k)] == m[k]
    requires forall a, b :: a in keys && b in keys && rename(a) == rename(b) ==> a == b
    ensures Image(keys, rename) <= n.Keys && Applicable(n, Image(keys, rename), term)
    ensures Sum(m, keys, term) == Sum(n, Image(keys, rename), term)
    decreases keys
  {
    if keys != {} {
      var k :| k in keys;
      assert Image(keys - {k}, rename) == Image(keys, rename) - {rename(k)};
      SumRemove(m, keys, term, k);
      SumRename(m, n, keys - {k}, rename, term);
      SumRemove(n, Image(keys, rename), term, rename(k));
    }
  }

  /** A map with at least one positive count records a positive total. */
  lemma TotalPositive<K>(m: map<K, nat>, k: K)
    requires k in m && m[k] > 0
    ensures Total(m) > 0.0
  {
    SumAtLeastTerm(m, m.Keys, Counted(), k);
  }

  /** No count exceeds the total. */
  lemma CountAtMostTotal<K>(m: map<K, nat>, k: K)
    requires k in m
    ensures m[k] as real <= Total(m)
  {
    SumAtLeastTerm(m, m.Keys, Counted(), k);
  }

  /** The shares of a map with a positive total add up to one. */
  lemma SharesSumToOne<K>(m: map<K, nat>)
    requires Total(m) > 0.0
    ensures Applicable(m, m.Keys, Share(Total(m)))
    ensures Sum(m, m.Keys, Share(Total(m))) == 1.0
  {
    var total := Total(m);
    SumScale(m, m.Keys, Counted(), Share(total), 1.0 / total);
  }

  /** The term `pi * v` for a fixed `v`. */
  function ShareTimes(totalCount: real, v: real): nat --> real
  {
    c requires totalCount != 0.0 => c as real / totalCount * v
  }

  /** The term `pi - v` for a fixed `v`. */
  function ShareMinus(totalCount: real, v: real): nat --> real
  {
    c requires totalCount != 0.0 => c as real / totalCount - v
  }

  /** What the share-based terms evaluate to on one count. */
  lemma ShareTermValues(totalCount: real, v: real, c: nat, pi: real)
    requires totalCount != 0.0 && pi == c as real / totalCount
    ensures Share(totalCount)(c) == pi
    ensures ShareTimes(totalCount, v)(c) == pi * v
    ensures ShareMinus(totalCount, v)(c) == pi - v
  {
  }

  /** The shares, each less a fixed `v`, add up to `1 - n * v` over `n` keys. */
  lemma ShiftedSharesSum<K>(m: map<K, nat>, v: real)
    requires Total(m) > 0.0
    ensures Applicable(m, m.Keys, ShareMinus(Total(m), v))
    ensures Sum(m, m.Keys, ShareMinus(Total(m), v)) == 1.0 - |m.Keys| as real * v
  {
    SharesSumToOne(m);
    SumConstant(m, m.Keys, Constant(v), v);
    SharesSplit(m, Total(m), v);
  }

  /** Each share is its shift by `v` plus `v`, and so is their sum. */
  lemma SharesSplit<K>(m: map<K, nat>, total: real, v: real)
    requires total != 0.0
    ensures Applicable(m, m.Keys, Share(total)) && Applicable(m, m.Keys, ShareMinus(total, v))
    ensures Sum(m, m.Keys, Share(total)) == Sum(m, m.Keys, ShareMinus(total, v)) + Sum(m, m.Keys, Constant(v))
  {
    forall k | k in m
      ensures Share(total)(m[k]) == ShareMinus(total, v)(m[k]) + Constant(v)(m[k])
    {
      ShareTermValues(total, v, m[k], m[k] as real / total);
    }
    SumAdd(m, m.Keys, ShareMinus(total, v), Constant(v), Share(total));
  }

  /** Over `n` keys the shares, each less `1/n`, add up to zero. */
  lemma CenteredSharesSum<K>(m: map<K, nat>)
    requires Total(m) > 0.0
    ensures m.Keys != {}
    ensures Applicable(m, m.Keys, ShareMinus(Total(m), 1.0 / |m.Keys| as real))
    ensures Sum(m, m.Keys, ShareMinus(Total(m), 1.0 / |m.Keys| as real)) == 0.0
  {
    var n := |m.Keys| as real;
    assert n > 0.0;
    ShiftedSharesSum(m, 1.0 / n);
    InverseTimes(n);
  }

  /** `n` times `1/n` is one. */
  lemma InverseTimes(n: real)
    requires n > 0.0
    ensures n * (1.0 / n) == 1.0
  {
  }

  /** The shares weighted by a fixed `v` add up to `v`. */
  lemma WeightedSharesSum<K>(m: map<K, nat>, v: real)
    requires Total(m) > 0.0
    ensures Applicable(m, m.Keys, ShareTimes(Total(m), v))
    ensures Sum(m, m.Keys, ShareTimes(Total(m), v)) == v
  {
    var total := Total(m);
    SharesSumToOne(m);
    forall k | k in m
      ensures ShareTimes(total, v)(m[k]) == v * Share(total)(m[k])
    {
      ShareTermValues(total, v, m[k], m[k] as real / total);
    }
    SumScale(m, m.Keys, Share(total), ShareTimes(total, v), v);
  }
}
