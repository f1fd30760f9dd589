/**
 * The table operations the analysis scripts compose: a group-by-key sum, an
 * inner and a left join on the key, a row filter and a "sort descending, take
 * the first N" ranking. A table is a sequence of rows; a keyed table is a
 * sequence of (key, value) pairs, the shape `groupby(key)[col].sum().reset_index()`
 * produces.
 */
module Tables {

  /** Key columns of the spreadsheets. */
  type Pin = int
  type State = string
  type District = string
  type Month = string

  function MinNat(a: nat, b: nat): nat
  {
    if a <= b then a else b
  }

  // ---------------------------------------------------------------------------
  // Keys, sums, lookups
  // ---------------------------------------------------------------------------

  /** The keys that occur in a keyed table. */
  function Keys<K(==,!new), V>(t: seq<(K, V)>): set<K>
  {
    set i | 0 <= i < |t| :: t[i].0
  }

  /** Every key occurs in at most one row. */
  predicate DistinctKeys<K(==,!new), V>(t: seq<(K, V)>)
  {
    t == [] || (t[0].0 !in Keys(t[1..]) && DistinctKeys(t[1..]))
  }

  /** Sum of the values of all rows with key k (0 when k does not occur). */
  function SumFor<K(==,!new)>(t: seq<(K, nat)>, k: K): nat
  {
    if t == [] then 0 else (if t[0].0 == k then t[0].1 else 0) + SumFor(t[1..], k)
  }

  /** Sum of all values of a table. */
  function Total<K>(t: seq<(K, nat)>): nat
  {
    if t == [] then 0 else t[0].1 + Total(t[1..])
  }

  lemma KeysCons<K(!new), V>(t: seq<(K, V)>)
    requires t != []
    ensures Keys(t) == {t[0].0} + Keys(t[1..])
  {
    forall k ensures k in Keys(t) <==> k == t[0].0 || k in Keys(t[1..]) {
      if k in Keys(t) {
        var i :| 0 <= i < |t| && t[i].0 == k;
        if i > 0 {
          assert t[1..][i - 1] == t[i];
        }
      }
      if k in Keys(t[1..]) {
        var i :| 0 <= i < |t[1..]| && t[1..][i].0 == k;
        assert t[i + 1] == t[1..][i];
      }
    }
  }

  lemma KeysOfConcat<K(!new), V>(a: seq<(K, V)>, b: seq<(K, V)>)
    ensures Keys(a + b) == Keys(a) + Keys(b)
  {
    forall k ensures k in Keys(a + b) <==> k in Keys(a) || k in Keys(b) {
      if k in Keys(a + b) {
        var i :| 0 <= i < |a + b| && (a + b)[i].0 == k;
        if i >= |a| {
          assert b[i - |a|] == (a + b)[i];
        }
      }
      if k in Keys(a) {
        var i :| 0 <= i < |a| && a[i].0 == k;
        assert (a + b)[i] == a[i];
      }
      if k in Keys(b) {
        var i :| 0 <= i < |b| && b[i].0 == k;
        assert (a + b)[i + |a|] == b[i];
      }
    }
  }

  lemma {:induction false} DistinctConcat<K(!new), V>(a: seq<(K, V)>, b: seq<(K, V)>)
    requires DistinctKeys(a) && DistinctKeys(b) && Keys(a) !! Keys(b)
    ensures DistinctKeys(a + b)
  {
    if a != [] {
      assert (a + b)[0] == a[0];
      assert (a + b)[1..] == a[1..] + b;
      assert a[0].0 in Keys(a);
      KeysOfConcat(a[1..], b);
      DistinctConcat(a[1..], b);
    } else {
      assert a + b == b;
    }
  }

  /** A table with distinct keys has as many rows as keys. */
  lemma {:induction false} DistinctKeysCount<K(!new), V>(t: seq<(K, V)>)
    requires DistinctKeys(t)
    ensures |Keys(t)| == |t|
  {
    if t != [] {
      DistinctKeysCount(t[1..]);
      KeysCons(t);
    }
  }

  /** A key occurs in a table exactly when some row carries it. */
  lemma {:induction false} KeysMembership<K(!new), V(!new)>(t: seq<(K, V)>, k: K)
    ensures k in Keys(t) <==> exists v :: (k, v) in t
  {
    if t != [] {
      KeysMembership(t[1..], k);
      if k in Keys(t[1..]) {
        var v :| (k, v) in t[1..];
        assert (k, v) in t;
      }
      if k !in Keys(t) {
        forall v ensures (k, v) !in t {
          assert (k, v) != t[0];
          assert (k, v) !in t[1..];
        }
      }
    }
  }

  lemma {:induction false} SumForAbsent<K(!new)>(t: seq<(K, nat)>, k: K)
    requires k !in Keys(t)
    ensures SumFor(t, k) == 0
  {
    if t != [] {
      SumForAbsent(t[1..], k);
    }
  }

  /** In a table with distinct keys, SumFor is the value of the one row with that key. */
  lemma {:induction false} SumForDistinct<K(!new)>(t: seq<(K, nat)>, k: K, v: nat)
    requires DistinctKeys(t) && (k, v) in t
    ensures SumFor(t, k) == v
  {
    if t[0] == (k, v) {
      SumForAbsent(t[1..], k);
    } else {
      assert (k, v) in t[1..];
      KeysMembership(t[1..], k);
      SumForDistinct(t[1..], k, v);
    }
  }

  lemma {:induction false} SumForAt<K(!new)>(t: seq<(K, nat)>, i: nat)
    requires DistinctKeys(t) && i < |t|
    ensures SumFor(t, t[i].0) == t[i].1
  {
    assert t[i] in t;
    SumForDistinct(t, t[i].0, t[i].1);
  }

  // ---------------------------------------------------------------------------
  // Group-by-key sum
  // ---------------------------------------------------------------------------

  /** Adds v to the row with key k, or adds a row (k, v) when there is none. */
  function AddTo<K(==,!new)>(g: seq<(K, nat)>, k: K, v: nat): (g': seq<(K, nat)>)
    ensures Keys(g') == Keys(g) + {k}
    ensures DistinctKeys(g) ==> DistinctKeys(g')
    ensures Total(g') == Total(g) + v
    ensures forall q {:trigger SumFor(g', q)} :: SumFor(g', q) == SumFor(g, q) + (if q == k then v else 0)
  {
    if g == [] then
      KeysCons([(k, v)]);
      [(k, v)]
    else
      KeysCons(g);
      var g' := if g[0].0 == k then [(k, g[0].1 + v)] + g[1..] else [g[0]] + AddTo(g[1..], k, v);
      KeysCons(g');
      assert g'[1..] == if g[0].0 == k then g[1..] else AddTo(g[1..], k, v);
      g'
  }

  /**
   * `groupby(key)[col].sum()`: one row per key of the input, holding the sum of
   * that key's values. The row order is not specified.
   */
  function GroupSum<K(==,!new)>(rows: seq<(K, nat)>): (g: seq<(K, nat)>)
    ensures DistinctKeys(g)
    ensures Keys(g) == Keys(rows)
    ensures forall k {:trigger SumFor(g, k)} :: SumFor(g, k) == SumFor(rows, k)
    ensures Total(g) == Total(rows)
  {
    if rows == [] then [] else AddTo(GroupSum(rows[1..]), rows[0].0, rows[0].1)
  }

  /** Each grouped row holds the sum of the input rows with its key. */
  lemma GroupSumRows<K(!new)>(rows: seq<(K, nat)>)
    ensures forall k, v :: (k, v) in GroupSum(rows) ==> v == SumFor(rows, k)
    ensures forall k :: k in Keys(rows) ==> (k, SumFor(rows, k)) in GroupSum(rows)
  {
    var g := GroupSum(rows);
    forall k, v | (k, v) in g ensures v == SumFor(rows, k) {
      SumForDistinct(g, k, v);
    }
    forall k | k in Keys(rows) ensures (k, SumFor(rows, k)) in g {
      KeysMembership(g, k);
      var v :| (k, v) in g;
      SumForDistinct(g, k, v);
    }
  }

  lemma {:induction false} SumForConcat<K(!new)>(a: seq<(K, nat)>, b: seq<(K, nat)>, k: K)
    ensures SumFor(a + b, k) == SumFor(a, k) + SumFor(b, k)
  {
    if a == [] {
      assert a + b == b;
    } else {
      assert (a + b)[1..] == a[1..] + b;
      SumForConcat(a[1..], b, k);
    }
  }

  lemma {:induction false} TotalConcat<K>(a: seq<(K, nat)>, b: seq<(K, nat)>)
    ensures Total(a + b) == Total(a) + Total(b)
  {
    if a == [] {
      assert a + b == b;
    } else {
      assert (a + b)[1..] == a[1..] + b;
      TotalConcat(a[1..], b);
    }
  }

  /** Sum of the values of the rows whose key satisfies q. */
  function SumWhere<K>(t: seq<(K, nat)>, q: K -> bool): nat
  {
    if t == [] then 0 else (if q(t[0].0) then t[0].1 else 0) + SumWhere(t[1..], q)
  }

  /** Number of rows whose key satisfies q. */
  function CountWhere<K, V>(t: seq<(K, V)>, q: K -> bool): nat
  {
    if t == [] then 0 else (if q(t[0].0) then 1 else 0) + CountWhere(t[1..], q)
  }

  lemma {:induction false} AddToSumWhere<K(!new)>(g: seq<(K, nat)>, k: K, v: nat, q: K -> bool)
    ensures SumWhere(AddTo(g, k, v), q) == SumWhere(g, q) + (if q(k) then v else 0)
  {
    if g != [] && g[0].0 != k {
      AddToSumWhere(g[1..], k, v, q);
      assert AddTo(g, k, v)[1..] == AddTo(g[1..], k, v);
    }
  }

  /** Grouping does not change the sum over any set of keys. */
  lemma {:induction false} GroupSumWhere<K(!new)>(rows: seq<(K, nat)>, q: K -> bool)
    ensures SumWhere(GroupSum(rows), q) == SumWhere(rows, q)
  {
    if rows != [] {
      GroupSumWhere(rows[1..], q);
      AddToSumWhere(GroupSum(rows[1..]), rows[0].0, rows[0].1, q);
    }
  }

  /** The members of ks that satisfy q. */
  ghost function KeysWhere<K(!new)>(ks: set<K>, q: K -> bool): set<K>
  {
    set k | k in ks && q(k)
  }

  /** In a table with distinct keys, CountWhere counts the keys that satisfy q. */
  lemma {:induction false} CountWhereKeys<K(!new), V>(t: seq<(K, V)>, q: K -> bool)
    requires DistinctKeys(t)
    ensures CountWhere(t, q) == |KeysWhere(Keys(t), q)|
  {
    if t != [] {
      CountWhereKeys(t[1..], q);
      var rest := KeysWhere(Keys(t[1..]), q);
      var all := KeysWhere(Keys(t), q);
      if q(t[0].0) {
        assert all == rest + {t[0].0};
      } else {
        assert all == rest;
      }
    }
  }

  /** A row whose key satisfies q adds its value to SumWhere and one to CountWhere. */
  lemma {:induction false} RowInWhere<K(!new)>(t: seq<(K, nat)>, q: K -> bool, k: K, v: nat)
    requires (k, v) in t && q(k)
    ensures v <= SumWhere(t, q)
    ensures CountWhere(t, q) >= 1
  {
    if t[0] != (k, v) {
      RowInWhere(t[1..], q, k, v);
    }
  }

  // ---------------------------------------------------------------------------
  // Joins
  // ---------------------------------------------------------------------------

  /** The rows (k, (a, b)) for every row (k, b) of r. */
  function Matches<K(==,!new), A(==,!new), B(==,!new)>(k: K, a: A, r: seq<(K, B)>): (m: seq<(K, (A, B))>)
    ensures forall q, x, y :: (q, (x, y)) in m <==> q == k && x == a && (k, y) in r
    ensures Keys(m) <= {k}
  {
    if r == [] then []
    else
      var rest := Matches(k, a, r[1..]);
      assert r == [r[0]] + r[1..];
      if r[0].0 == k then
        KeysOfConcat([(k, (a, r[0].1))], rest);
        [(k, (a, r[0].1))] + rest
      else
        rest
  }

  lemma {:induction false} MatchesAbsent<K(!new), A(!new), B(!new)>(k: K, a: A, r: seq<(K, B)>)
    requires k !in Keys(r)
    ensures Matches(k, a, r) == []
  {
    if r != [] {
      MatchesAbsent(k, a, r[1..]);
    }
  }

  lemma {:induction false} MatchesDistinct<K(!new), A(!new), B(!new)>(k: K, a: A, r: seq<(K, B)>)
    requires DistinctKeys(r)
    ensures DistinctKeys(Matches(k, a, r))
    ensures k in Keys(r) ==> |Matches(k, a, r)| == 1
  {
    if r != [] {
      MatchesDistinct(k, a, r[1..]);
      if r[0].0 == k {
        MatchesAbsent(k, a, r[1..]);
      }
    }
  }

  /** A left row (k, a) yields the pair (k, (a, b)) once for each occurrence of (k, b) in r. */
  lemma {:induction false} MatchesCount<K(!new), A(!new), B(!new)>(k: K, a: A, r: seq<(K, B)>, x: (K, (A, B)))
    ensures multiset(Matches(k, a, r))[x] == if x.0 == k && x.1.0 == a then multiset(r)[(k, x.1.1)] else 0
  {
    if r != [] {
      MatchesCount(k, a, r[1..], x);
      assert r == [r[0]] + r[1..];
      assert multiset(r) == multiset{r[0]} + multiset(r[1..]);
      if r[0].0 == k {
        assert Matches(k, a, r) == [(k, (a, r[0].1))] + Matches(k, a, r[1..]);
      }
    }
  }

  /**
   * `merge(l, r, on=key, how='inner')`: one row for every pair of an l-row and
   * an r-row with the same key.
   */
  function InnerJoin<K(==,!new), A(==,!new), B(==,!new)>(l: seq<(K, A)>, r: seq<(K, B)>): (j: seq<(K, (A, B))>)
    ensures forall k, a, b :: (k, (a, b)) in j <==> (k, a) in l && (k, b) in r
    ensures Keys(j) <= Keys(l)
  {
    if l == [] then []
    else
      var m := Matches(l[0].0, l[0].1, r);
      var rest := InnerJoin(l[1..], r);
      assert l == [l[0]] + l[1..];
      KeysOfConcat(m, rest);
      m + rest
  }

  /**
   * The inner join is the product of the two tables key by key: a pair
   * (k, (a, b)) occurs as many times as (k, a) occurs in l times as many times
   * as (k, b) occurs in r, so repeated keys multiply.
   */
  lemma {:induction false} InnerJoinCount<K(!new), A(!new), B(!new)>(l: seq<(K, A)>, r: seq<(K, B)>, x: (K, (A, B)))
    ensures multiset(InnerJoin(l, r))[x] == multiset(l)[(x.0, x.1.0)] * multiset(r)[(x.0, x.1.1)]
  {
    if l != [] {
      InnerJoinCount(l[1..], r, x);
      MatchesCount(l[0].0, l[0].1, r, x);
      assert l == [l[0]] + l[1..];
      assert multiset(l) == multiset{l[0]} + multiset(l[1..]);
      var m := Matches(l[0].0, l[0].1, r);
      assert InnerJoin(l, r) == m + InnerJoin(l[1..], r);
      assert multiset(InnerJoin(l, r)) == multiset(m) + multiset(InnerJoin(l[1..], r));
      var d := if l[0] == (x.0, x.1.0) then 1 else 0;
      var rc := multiset(r)[(x.0, x.1.1)];
      assert multiset(m)[x] == d * rc;
      assert multiset(l)[(x.0, x.1.0)] == d + multiset(l[1..])[(x.0, x.1.0)];
      DistributeCount(d, multiset(l[1..])[(x.0, x.1.0)], rc);
    }
  }

  lemma DistributeCount(d: nat, rest: nat, c: nat)
    ensures (d + rest) * c == d * c + rest * c
  {
  }

  /** The join keeps exactly the keys common to both tables. */
  lemma {:induction false} InnerJoinKeys<K(!new), A(!new), B(!new)>(l: seq<(K, A)>, r: seq<(K, B)>)
    ensures Keys(InnerJoin(l, r)) == Keys(l) * Keys(r)
  {
    var j := InnerJoin(l, r);
    forall k ensures k in Keys(j) <==> k in Keys(l) && k in Keys(r) {
      KeysMembership(j, k);
      KeysMembership(l, k);
      KeysMembership(r, k);
      if k in Keys(l) && k in Keys(r) {
        var a :| (k, a) in l;
        var b :| (k, b) in r;
        assert (k, (a, b)) in j;
      }
      if k in Keys(j) {
        var ab: (A, B) :| (k, ab) in j;
        assert (k, (ab.0, ab.1)) in j;
      }
    }
  }

  /** Joining two grouped tables yields one row per common key. */
  lemma {:induction false} InnerJoinDistinct<K(!new), A(!new), B(!new)>(l: seq<(K, A)>, r: seq<(K, B)>)
    requires DistinctKeys(l) && DistinctKeys(r)
    ensures DistinctKeys(InnerJoin(l, r))
    ensures |InnerJoin(l, r)| == |Keys(l) * Keys(r)|
  {
    InnerJoinDistinctRows(l, r);
    InnerJoinKeys(l, r);
    DistinctKeysCount(InnerJoin(l, r));
  }

  lemma {:induction false} InnerJoinDistinctRows<K(!new), A(!new), B(!new)>(l: seq<(K, A)>, r: seq<(K, B)>)
    requires DistinctKeys(l) && DistinctKeys(r)
    ensures DistinctKeys(InnerJoin(l, r))
  {
    if l != [] {
      var m := Matches(l[0].0, l[0].1, r);
      var rest := InnerJoin(l[1..], r);
      InnerJoinDistinctRows(l[1..], r);
      MatchesDistinct(l[0].0, l[0].1, r);
      assert InnerJoin(l, r) == m + rest;
      DistinctConcat(m, rest);
    }
  }

  /**
   * Group both tables by key and inner-join the totals: one row per key common
   * to both, holding that key's total in each table.
   */
  function JoinTotals<K(==,!new)>(x: seq<(K, nat)>, y: seq<(K, nat)>): (j: seq<(K, (nat, nat))>)
    ensures forall i :: 0 <= i < |j| ==> j[i].0 in Keys(x) && j[i].0 in Keys(y) && j[i].1 == (SumFor(x, j[i].0), SumFor(y, j[i].0))
    ensures forall k :: k in Keys(x) && k in Keys(y) ==> (k, (SumFor(x, k), SumFor(y, k))) in j
    ensures DistinctKeys(j)
    ensures Keys(j) == Keys(x) * Keys(y)
  {
    JoinTotalsSound(x, y);
    JoinTotalsComplete(x, y);
    JoinTotalsShape(x, y);
    InnerJoin(GroupSum(x), GroupSum(y))
  }

  lemma JoinTotalsShape<K(!new)>(x: seq<(K, nat)>, y: seq<(K, nat)>)
    ensures DistinctKeys(InnerJoin(GroupSum(x), GroupSum(y)))
    ensures Keys(InnerJoin(GroupSum(x), GroupSum(y))) == Keys(x) * Keys(y)
  {
    InnerJoinDistinct(GroupSum(x), GroupSum(y));
    InnerJoinKeys(GroupSum(x), GroupSum(y));
  }

  lemma JoinTotalsSound<K(!new)>(x: seq<(K, nat)>, y: seq<(K, nat)>)
    ensures var j := InnerJoin(GroupSum(x), GroupSum(y));
      forall i :: 0 <= i < |j| ==> j[i].0 in Keys(x) && j[i].0 in Keys(y) && j[i].1 == (SumFor(x, j[i].0), SumFor(y, j[i].0))
  {
    var j := InnerJoin(GroupSum(x), GroupSum(y));
    forall i | 0 <= i < |j| ensures j[i].0 in Keys(x) && j[i].0 in Keys(y) && j[i].1 == (SumFor(x, j[i].0), SumFor(y, j[i].0)) {
      assert j[i] in j;
      TotalsRow(x, j[i].0, j[i].1.0);
      TotalsRow(y, j[i].0, j[i].1.1);
    }
  }

  lemma JoinTotalsComplete<K(!new)>(x: seq<(K, nat)>, y: seq<(K, nat)>)
    ensures forall k :: k in Keys(x) && k in Keys(y) ==> (k, (SumFor(x, k), SumFor(y, k))) in InnerJoin(GroupSum(x), GroupSum(y))
  {
    GroupSumRows(x);
    GroupSumRows(y);
  }

  /** A row of a grouped table carries a key of the input and that key's total. */
  lemma TotalsRow<K(!new)>(rows: seq<(K, nat)>, k: K, v: nat)
    requires (k, v) in GroupSum(rows)
    ensures k in Keys(rows) && v == SumFor(rows, k)
  {
    var g := GroupSum(rows);
    SumForDistinct(g, k, v);
    KeysMembership(g, k);
  }

  /** The rows one left row contributes to a left join with zero fill. */
  function LeftRows<K(==,!new)>(k: K, a: nat, r: seq<(K, nat)>): (m: seq<(K, (nat, nat))>)
    ensures Keys(m) == {k}
    ensures forall q, x, y :: (q, (x, y)) in m <==> q == k && x == a && ((k, y) in r || (y == 0 && k !in Keys(r)))
  {
    KeysMembership(r, k);
    if k in Keys(r) then
      var b :| (k, b) in r;
      assert (k, (a, b)) in Matches(k, a, r);
      Matches(k, a, r)
    else
      KeysCons([(k, (a, 0))]);
      [(k, (a, 0))]
  }

  /**
   * `merge(l, r, on=key, how='left').fillna(0)`: every l-row is kept; it is paired
   * with each r-row of its key, or with 0 when r has no row for that key.
   */
  function LeftJoin0<K(==,!new)>(l: seq<(K, nat)>, r: seq<(K, nat)>): (j: seq<(K, (nat, nat))>)
    ensures Keys(j) == Keys(l)
    ensures forall k, a, b {:trigger (k, (a, b)) in j} :: (k, (a, b)) in j <==> (k, a) in l && ((k, b) in r || (b == 0 && k !in Keys(r)))
  {
    if l == [] then []
    else
      var m := LeftRows(l[0].0, l[0].1, r);
      var rest := LeftJoin0(l[1..], r);
      assert l == [l[0]] + l[1..];
      KeysOfConcat(m, rest);
      m + rest
  }

  /** The rows one left row contributes, counted: one per matching r-row, or a single zero-filled row. */
  lemma LeftRowsCount<K(!new)>(k: K, a: nat, r: seq<(K, nat)>, x: (K, (nat, nat)))
    ensures multiset(LeftRows(k, a, r))[x] ==
      if x.0 != k || x.1.0 != a then 0
      else if k in Keys(r) then multiset(r)[(k, x.1.1)]
      else if x.1.1 == 0 then 1 else 0
  {
    if k in Keys(r) {
      MatchesCount(k, a, r, x);
    }
  }

  /**
   * The left join with zero fill, counted: a pair (k, (a, b)) occurs as many
   * times as (k, a) occurs in l times as many times as (k, b) occurs in r, and
   * a key missing from r gives each of its l-rows exactly one row with 0.
   */
  lemma {:induction false} LeftJoin0Count<K(!new)>(l: seq<(K, nat)>, r: seq<(K, nat)>, x: (K, (nat, nat)))
    ensures multiset(LeftJoin0(l, r))[x] ==
      multiset(l)[(x.0, x.1.0)] * (if x.0 in Keys(r) then multiset(r)[(x.0, x.1.1)] else if x.1.1 == 0 then 1 else 0)
  {
    if l != [] {
      LeftJoin0Count(l[1..], r, x);
      LeftRowsCount(l[0].0, l[0].1, r, x);
      assert l == [l[0]] + l[1..];
      assert multiset(l) == multiset{l[0]} + multiset(l[1..]);
      var m := LeftRows(l[0].0, l[0].1, r);
      assert LeftJoin0(l, r) == m + LeftJoin0(l[1..], r);
      assert multiset(LeftJoin0(l, r)) == multiset(m) + multiset(LeftJoin0(l[1..], r));
      var d := if l[0] == (x.0, x.1.0) then 1 else 0;
      var rc := if x.0 in Keys(r) then multiset(r)[(x.0, x.1.1)] else if x.1.1 == 0 then 1 else 0;
      assert multiset(m)[x] == d * rc;
      assert multiset(l)[(x.0, x.1.0)] == d + multiset(l[1..])[(x.0, x.1.0)];
      DistributeCount(d, multiset(l[1..])[(x.0, x.1.0)], rc);
    }
  }

  /** Row i of a left join pairs an l-row with a matching r-row, or with 0 when r lacks the key. */
  lemma LeftJoin0At<K(!new)>(l: seq<(K, nat)>, r: seq<(K, nat)>, i: int)
    requires 0 <= i < |LeftJoin0(l, r)|
    ensures var row := LeftJoin0(l, r)[i];
      (row.0, row.1.0) in l && ((row.0, row.1.1) in r || (row.1.1 == 0 && row.0 !in Keys(r)))
  {
    var j := LeftJoin0(l, r);
    var k, a, b := j[i].0, j[i].1.0, j[i].1.1;
    assert j[i] == (k, (a, b));
    assert (k, (a, b)) in j;
  }

  /** Every pairing the left join promises has a row index. */
  lemma LeftJoin0Has<K(!new)>(l: seq<(K, nat)>, r: seq<(K, nat)>, k: K, a: nat, b: nat)
    requires (k, a) in l && ((k, b) in r || (b == 0 && k !in Keys(r)))
    ensures exists i :: 0 <= i < |LeftJoin0(l, r)| && LeftJoin0(l, r)[i] == (k, (a, b))
  {
    var j := LeftJoin0(l, r);
    assert (k, (a, b)) in j;
  }

  /**
   * With distinct keys in both tables the left join is row-for-row the left
   * table, with the right table's value or 0 attached.
   */
  lemma {:induction false} LeftJoin0Distinct<K(!new)>(l: seq<(K, nat)>, r: seq<(K, nat)>)
    requires DistinctKeys(r)
    ensures |LeftJoin0(l, r)| == |l|
    ensures forall i :: 0 <= i < |l| ==> LeftJoin0(l, r)[i] == (l[i].0, (l[i].1, SumFor(r, l[i].0)))
  {
    if l != [] {
      LeftJoin0Distinct(l[1..], r);
      var j := LeftJoin0(l, r);
      var rest := LeftJoin0(l[1..], r);
      LeftRowsDistinct(l[0].0, l[0].1, r);
      assert j == [(l[0].0, (l[0].1, SumFor(r, l[0].0)))] + rest;
      forall i | 0 <= i < |l| ensures j[i] == (l[i].0, (l[i].1, SumFor(r, l[i].0))) {
        if i > 0 {
          assert j[i] == rest[i - 1];
        }
      }
    }
  }

  /** Against a table with distinct keys one left row yields exactly one row. */
  lemma LeftRowsDistinct<K(!new)>(k: K, a: nat, r: seq<(K, nat)>)
    requires DistinctKeys(r)
    ensures LeftRows(k, a, r) == [(k, (a, SumFor(r, k)))]
  {
    if k in Keys(r) {
      MatchesDistinct(k, a, r);
      KeysMembership(r, k);
      var b :| (k, b) in r;
      SumForDistinct(r, k, b);
      var m := Matches(k, a, r);
      assert (k, (a, b)) in m;
      assert m == [(k, (a, b))];
    } else {
      SumForAbsent(r, k);
    }
  }


  // ---------------------------------------------------------------------------
  // Filter, sort, top N
  // ---------------------------------------------------------------------------

  /** A boolean-mask selection `df[p(df)]`: the rows that satisfy p, in order. */
  function Filter<R(==,!new)>(s: seq<R>, p: R -> bool): (f: seq<R>)
    ensures forall x :: multiset(f)[x] == if p(x) then multiset(s)[x] else 0
    ensures forall x :: x in f <==> x in s && p(x)
    ensures |f| <= |s|
  {
    if s == [] then []
    else
      assert s == [s[0]] + s[1..];
      (if p(s[0]) then [s[0]] else []) + Filter(s[1..], p)
  }

  predicate NonIncreasing<R(!new)>(t: seq<R>, score: R -> real)
  {
    forall i, j :: 0 <= i < j < |t| ==> score(t[i]) >= score(t[j])
  }

  function Insert<R(==,!new)>(x: R, t: seq<R>, score: R -> real): (u: seq<R>)
    requires NonIncreasing(t, score)
    ensures multiset(u) == multiset(t) + multiset{x}
    ensures NonIncreasing(u, score)
  {
    if t == [] || score(x) >= score(t[0]) then
      assert forall k :: 0 <= k < |t| ==> score(t[k]) <= score(x) by {
        forall k | 0 <= k < |t| ensures score(t[k]) <= score(x) {
          if k > 0 {
            assert score(t[0]) >= score(t[k]);
          }
        }
      }
      ConsNonIncreasing(x, t, score);
      [x] + t
    else
      assert t == [t[0]] + t[1..];
      var u' := Insert(x, t[1..], score);
      InsertBelow(x, t, u', score);
      ConsNonIncreasing(t[0], u', score);
      [t[0]] + u'
  }

  /** A row scoring at least every row of a non-increasing t can be put in front of it. */
  lemma ConsNonIncreasing<R(!new)>(x: R, t: seq<R>, score: R -> real)
    requires NonIncreasing(t, score)
    requires forall k :: 0 <= k < |t| ==> score(t[k]) <= score(x)
    ensures NonIncreasing([x] + t, score)
  {
    var u := [x] + t;
    forall i, j | 0 <= i < j < |u| ensures score(u[i]) >= score(u[j]) {
      assert u[j] == t[j - 1];
      if i > 0 {
        assert u[i] == t[i - 1];
      }
    }
  }

  lemma InsertBelow<R(!new)>(x: R, t: seq<R>, u': seq<R>, score: R -> real)
    requires t != [] && NonIncreasing(t, score) && score(x) < score(t[0])
    requires multiset(u') == multiset(t[1..]) + multiset{x}
    ensures forall k :: 0 <= k < |u'| ==> score(u'[k]) <= score(t[0])
  {
    forall k | 0 <= k < |u'| ensures score(u'[k]) <= score(t[0]) {
      var y := u'[k];
      assert y in multiset(u');
      if y != x {
        assert y in multiset(t[1..]);
        var m :| 0 <= m < |t[1..]| && t[1..][m] == y;
        assert t[m + 1] == y;
      }
    }
  }

  /** `sort_values(ascending=False)`: a non-increasing permutation of s. */
  function SortDesc<R(==,!new)>(s: seq<R>, score: R -> real): (t: seq<R>)
    ensures multiset(t) == multiset(s)
    ensures NonIncreasing(t, score)
  {
    if s == [] then []
    else
      assert s == [s[0]] + s[1..];
      Insert(s[0], SortDesc(s[1..], score), score)
  }

  /**
   * `sort_values(by=score, ascending=False).head(n)`: the n best-scoring rows,
   * best first. Ties may come out in any order; the contract and the lemmas
   * below fix the result up to ties.
   */
  function TopN<R(==,!new)>(s: seq<R>, n: nat, score: R -> real): (t: seq<R>)
    ensures |t| == MinNat(n, |s|)
    ensures multiset(t) <= multiset(s)
    ensures NonIncreasing(t, score)
  {
    var sorted := SortDesc(s, score);
    SameLength(sorted, s);
    var k := MinNat(n, |s|);
    PrefixRanked(sorted, k, score);
    sorted[..k]
  }

  lemma SameLength<R>(t: seq<R>, s: seq<R>)
    requires multiset(t) == multiset(s)
    ensures |t| == |s|
  {
    assert |t| == |multiset(t)|;
  }

  /** A prefix of a non-increasing sequence is non-increasing and drawn from it. */
  lemma PrefixRanked<R(!new)>(t: seq<R>, k: nat, score: R -> real)
    requires NonIncreasing(t, score) && k <= |t|
    ensures NonIncreasing(t[..k], score)
    ensures multiset(t[..k]) <= multiset(t)
  {
    assert t == t[..k] + t[k..];
    forall i, j | 0 <= i < j < k ensures score(t[..k][i]) >= score(t[..k][j]) {
      assert t[..k][i] == t[i] && t[..k][j] == t[j];
    }
  }

  /** Every kept row is a row of the input. */
  lemma TopNMembers<R(!new)>(s: seq<R>, n: nat, score: R -> real)
    ensures forall x :: x in TopN(s, n, score) ==> x in s
  {
    var t := TopN(s, n, score);
    forall x | x in t ensures x in s {
      assert x in multiset(t);
    }
  }

  /** A row of the input that is not kept scores at most every kept row. */
  lemma TopNExcluded<R(!new)>(s: seq<R>, n: nat, score: R -> real, x: R)
    requires x in s && x !in TopN(s, n, score)
    ensures forall i :: 0 <= i < |TopN(s, n, score)| ==> score(x) <= score(TopN(s, n, score)[i])
  {
    var sorted := SortDesc(s, score);
    SameLength(sorted, s);
    var k := MinNat(n, |s|);
    assert TopN(s, n, score) == sorted[..k];
    assert x in multiset(s);
    InSuffix(sorted, k, x);
    SuffixBelowPrefix(sorted, k, score, x);
  }

  lemma InSuffix<R>(t: seq<R>, k: nat, x: R)
    requires k <= |t| && x in multiset(t) && x !in t[..k]
    ensures x in t[k..]
  {
    assert t == t[..k] + t[k..];
  }

  /** In a non-increasing sequence a row past position k scores at most every row before it. */
  lemma SuffixBelowPrefix<R(!new)>(t: seq<R>, k: nat, score: R -> real, x: R)
    requires NonIncreasing(t, score) && k <= |t| && x in t[k..]
    ensures forall i :: 0 <= i < k ==> score(x) <= score(t[i])
  {
    var j :| 0 <= j < |t[k..]| && t[k..][j] == x;
    assert t[k + j] == x;
  }

  /** When the input has at most n rows, all of them are kept. */
  lemma TopNComplete<R(!new)>(s: seq<R>, n: nat, score: R -> real)
    requires |s| <= n
    ensures multiset(TopN(s, n, score)) == multiset(s)
  {
    var sorted := SortDesc(s, score);
    assert |sorted| == |multiset(sorted)| == |multiset(s)| == |s|;
    assert sorted[..|s|] == sorted;
  }

  /** The first row of a ranking is the best-scoring row of the whole input. */
  lemma TopNHead<R(!new)>(s: seq<R>, n: nat, score: R -> real)
    requires n > 0 && s != []
    ensures TopN(s, n, score) != []
    ensures forall x :: x in s ==> score(x) <= score(TopN(s, n, score)[0])
  {
    var t := TopN(s, n, score);
    assert |t| == MinNat(n, |s|) > 0;
    forall x | x in s ensures score(x) <= score(t[0]) {
      HeadBound(s, n, score, x);
    }
  }

  lemma HeadBound<R(!new)>(s: seq<R>, n: nat, score: R -> real, x: R)
    requires x in s && TopN(s, n, score) != []
    ensures score(x) <= score(TopN(s, n, score)[0])
  {
    var t := TopN(s, n, score);
    if x in t {
      var i :| 0 <= i < |t| && t[i] == x;
      if i > 0 {
        assert score(t[0]) >= score(t[i]);
      }
    } else {
      TopNExcluded(s, n, score, x);
    }
  }

  /**
   * `t[p(t)].sort_values(by=score, ascending=False).head(n)`: the n best-scoring
   * rows among those that pass the filter, best first.
   */
  function TopWhere<R(==,!new)>(s: seq<R>, p: R -> bool, n: nat, score: R -> real): (t: seq<R>)
    ensures |t| <= n && |t| <= |s|
    ensures multiset(t) <= multiset(s)
    ensures forall x :: x in t ==> x in s && p(x)
    ensures NonIncreasing(t, score)
    ensures forall x, i :: x in s && p(x) && x !in t && 0 <= i < |t| ==> score(x) <= score(t[i])
    ensures |t| < n ==> forall x :: x in s && p(x) ==> x in t
  {
    var f := Filter(s, p);
    var t := TopN(f, n, score);
    TopWhereExcluded(s, p, n, score);
    TopWhereComplete(s, p, n, score);
    TopNMembers(f, n, score);
    FilterSub(s, p);
    assert multiset(t) <= multiset(s);
    assert forall x :: x in t ==> x in s && p(x);
    t
  }

  lemma FilterSub<R(!new)>(s: seq<R>, p: R -> bool)
    ensures multiset(Filter(s, p)) <= multiset(s)
  {
    var f := Filter(s, p);
    forall x ensures multiset(f)[x] <= multiset(s)[x] {
    }
  }

  lemma TopWhereExcluded<R(!new)>(s: seq<R>, p: R -> bool, n: nat, score: R -> real)
    ensures forall x, i :: x in s && p(x) && x !in TopN(Filter(s, p), n, score) && 0 <= i < |TopN(Filter(s, p), n, score)| ==>
      score(x) <= score(TopN(Filter(s, p), n, score)[i])
  {
    TopNExcludedAll(Filter(s, p), n, score);
  }

  /** TopNExcluded for all rows at once. */
  lemma TopNExcludedAll<R(!new)>(s: seq<R>, n: nat, score: R -> real)
    ensures forall x, i :: x in s && x !in TopN(s, n, score) && 0 <= i < |TopN(s, n, score)| ==> score(x) <= score(TopN(s, n, score)[i])
  {
    var t := TopN(s, n, score);
    forall x, i | x in s && x !in t && 0 <= i < |t| ensures score(x) <= score(t[i]) {
      TopNExcluded(s, n, score, x);
    }
  }

  /** The first row of a filtered ranking is the best-scoring row that passes the filter. */
  lemma TopWhereHead<R(!new)>(s: seq<R>, p: R -> bool, n: nat, score: R -> real)
    requires TopWhere(s, p, n, score) != []
    ensures forall x :: x in s && p(x) ==> score(x) <= score(TopWhere(s, p, n, score)[0])
  {
    var t := TopWhere(s, p, n, score);
    forall x | x in s && p(x) ensures score(x) <= score(t[0]) {
      if x in t {
        var i :| 0 <= i < |t| && t[i] == x;
      }
    }
  }

  lemma TopWhereComplete<R(!new)>(s: seq<R>, p: R -> bool, n: nat, score: R -> real)
    ensures |TopN(Filter(s, p), n, score)| < n ==> forall x :: x in s && p(x) ==> x in TopN(Filter(s, p), n, score)
  {
    var f := Filter(s, p);
    var t := TopN(f, n, score);
    if |t| < n {
      TopNComplete(f, n, score);
      forall x | x in s && p(x) ensures x in t {
        assert x in multiset(f);
      }
    }
  }

  /** No two rows of s agree on key. */
  predicate DistinctOn<R(!new), K(==)>(s: seq<R>, key: R -> K)
  {
    forall i, j :: 0 <= i < j < |s| ==> key(s[i]) != key(s[j])
  }

  /** Any selection of rows of a table whose rows have distinct keys has distinct keys. */
  lemma SubMultisetDistinctOn<R(!new), K(!new)>(t: seq<R>, s: seq<R>, key: R -> K)
    requires DistinctOn(s, key) && multiset(t) <= multiset(s)
    ensures DistinctOn(t, key)
  {
    forall i, j | 0 <= i < j < |t| ensures key(t[i]) != key(t[j]) {
      assert t[i] in multiset(s) && t[j] in multiset(s);
      if t[i] == t[j] {
        TwoIndicesCount(t, i, j);
        OnceInDistinct(s, t[i], key);
      } else {
        var a :| 0 <= a < |s| && s[a] == t[i];
        var b :| 0 <= b < |s| && s[b] == t[j];
        assert a != b;
      }
    }
  }

  lemma TwoIndicesCount<R>(t: seq<R>, i: nat, j: nat)
    requires i < j < |t| && t[i] == t[j]
    ensures multiset(t)[t[i]] >= 2
  {
    assert t == t[..j] + t[j..];
    assert t[i] in t[..j];
    assert t[j..][0] == t[j];
  }

  lemma {:induction false} OnceInDistinct<R(!new), K(!new)>(s: seq<R>, x: R, key: R -> K)
    requires DistinctOn(s, key)
    ensures multiset(s)[x] <= 1
  {
    if s != [] {
      assert s == [s[0]] + s[1..];
      assert DistinctOn(s[1..], key) by {
        forall i, j | 0 <= i < j < |s[1..]| ensures key(s[1..][i]) != key(s[1..][j]) {
          assert s[1..][i] == s[i + 1] && s[1..][j] == s[j + 1];
        }
      }
      OnceInDistinct(s[1..], x, key);
      forall j | 0 <= j < |s[1..]| ensures s[1..][j] != s[0] {
        assert s[1..][j] == s[j + 1];
      }
    }
  }

  /** In a table with distinct keys a key determines its row. */
  lemma {:induction false} DistinctSameKey<K(!new), V(!new)>(g: seq<(K, V)>, x: (K, V), y: (K, V))
    requires DistinctKeys(g) && x in g && y in g && x.0 == y.0
    ensures x == y
  {
    if x != g[0] && y != g[0] {
      DistinctSameKey(g[1..], x, y);
    } else {
      assert g == [g[0]] + g[1..];
      forall z | z in g[1..] ensures z.0 != g[0].0 {
        KeysMembership(g[1..], z.0);
      }
    }
  }

  /** A table with distinct keys holds no row twice. */
  lemma {:induction false} DistinctNoDuplicate<K(!new), V(!new)>(g: seq<(K, V)>, x: (K, V))
    requires DistinctKeys(g)
    ensures multiset(g)[x] <= 1
  {
    if g != [] {
      assert g == [g[0]] + g[1..];
      DistinctNoDuplicate(g[1..], x);
      if g[0] == x && x in g[1..] {
        KeysMembership(g[1..], x.0);
      }
    }
  }

  /** Any selection of rows of a table with distinct keys has distinct keys. */
  lemma {:induction false} SubMultisetDistinct<K(!new), V(!new)>(t: seq<(K, V)>, g: seq<(K, V)>)
    requires DistinctKeys(g) && multiset(t) <= multiset(g)
    ensures DistinctKeys(t)
  {
    if t != [] {
      assert t == [t[0]] + t[1..];
      SubMultisetDistinct(t[1..], g);
      if t[0].0 in Keys(t[1..]) {
        KeysMembership(t[1..], t[0].0);
        var v :| (t[0].0, v) in t[1..];
        assert t[0] in multiset(g);
        assert (t[0].0, v) in multiset(g);
        DistinctSameKey(g, t[0], (t[0].0, v));
        assert multiset(t)[t[0]] >= 2;
        DistinctNoDuplicate(g, t[0]);
        assert false;
      }
    }
  }

  /** Score of a keyed row: its value. */
  function Value<K>(r: (K, nat)): real
  {
    r.1 as real
  }

  /**
   * `groupby(key)[col].sum().reset_index().sort_values(by=col, ascending=False).head(n)`:
   * the n keys with the largest totals, one row per key, largest first.
   */
  function RankTotals<K(==,!new)>(rows: seq<(K, nat)>, n: nat): (top: seq<(K, nat)>)
    ensures |top| == MinNat(n, |Keys(rows)|)
    ensures DistinctKeys(top)
    ensures forall k, v :: (k, v) in top ==> k in Keys(rows) && v == SumFor(rows, k)
    ensures NonIncreasing(top, Value)
    ensures forall k, i :: k in Keys(rows) && k !in Keys(top) && 0 <= i < |top| ==> SumFor(rows, k) <= top[i].1
  {
    var g := GroupSum(rows);
    var top := TopN(g, n, Value);
    DistinctKeysCount(g);
    SubMultisetDistinct(top, g);
    TopNMembers(g, n, Value);
    RankedRowsAreTotals(rows, g, top);
    GroupSumRows(rows);
    RankedExcludedAll(rows, g, n, top);
    top
  }

  lemma RankedRowsAreTotals<K(!new)>(rows: seq<(K, nat)>, g: seq<(K, nat)>, top: seq<(K, nat)>)
    requires g == GroupSum(rows) && forall x :: x in top ==> x in g
    ensures forall k, v :: (k, v) in top ==> k in Keys(rows) && v == SumFor(rows, k)
  {
    forall k, v | (k, v) in top ensures k in Keys(rows) && v == SumFor(rows, k) {
      assert (k, v) in g;
      SumForDistinct(g, k, v);
      KeysMembership(g, k);
    }
  }

  lemma RankedExcludedAll<K(!new)>(rows: seq<(K, nat)>, g: seq<(K, nat)>, n: nat, top: seq<(K, nat)>)
    requires top == TopN(g, n, Value)
    requires forall k :: k in Keys(rows) ==> (k, SumFor(rows, k)) in g
    ensures forall k, i :: k in Keys(rows) && k !in Keys(top) && 0 <= i < |top| ==> SumFor(rows, k) <= top[i].1
  {
    forall k, i | k in Keys(rows) && k !in Keys(top) && 0 <= i < |top| ensures SumFor(rows, k) <= top[i].1 {
      var x := (k, SumFor(rows, k));
      KeysMembership(top, k);
      TopNExcluded(g, n, Value, x);
    }
  }

  // ---------------------------------------------------------------------------
  // Derived columns
  // ---------------------------------------------------------------------------

  /**
   * `num / (den + 1)`: the "+1 to avoid division by zero" ratio used by
   * several scripts. It is defined for every non-negative denominator.
   */
  function Ratio(num: nat, den: nat): (r: real)
    ensures 0.0 <= r <= num as real
    ensures r * (den as real + 1.0) == num as real
    ensures num > 0 <==> r > 0.0
  {
    num as real / (den as real + 1.0)
  }

  /** The ratio grows with the numerator and shrinks with the denominator. */
  lemma RatioMonotone(num: nat, den: nat, num': nat, den': nat)
    requires num <= num' && den' <= den
    ensures Ratio(num, den) <= Ratio(num', den')
  {
    var d := den as real + 1.0;
    var d' := den' as real + 1.0;
    DivideMore(num as real, num' as real, d);
    DivideByMore(num' as real, d', d);
  }

  /** A larger non-negative numerator over the same positive divisor gives more. */
  lemma DivideMore(x: real, x': real, d: real)
    requires x <= x' && d > 0.0
    ensures x / d <= x' / d
  {
    assert x' / d - x / d == (x' - x) / d;
  }

  /** Dividing a non-negative number by a larger divisor gives less. */
  lemma DivideByMore(x: real, d': real, d: real)
    requires x >= 0.0 && 0.0 < d' <= d
    ensures x / d <= x / d'
  {
    var q := x / d;
    var q' := x / d';
    assert q * d == x && q' * d' == x;
    assert q >= 0.0;
    assert q * d' <= q * d;
    assert (q - q') * d' <= 0.0;
  }

  /** A grouped table joined with the ratio of its two value columns. */
  datatype RatioRow<K> = RatioRow(key: K, numerator: nat, denominator: nat, ratio: real)

  /** Adds the ratio column to a joined table, row by row. */
  function WithRatio<K>(j: seq<(K, (nat, nat))>): (rs: seq<RatioRow<K>>)
    ensures |rs| == |j|
    ensures forall i :: 0 <= i < |j| ==> rs[i] == RatioRow(j[i].0, j[i].1.0, j[i].1.1, Ratio(j[i].1.0, j[i].1.1))
  {
    seq(|j|, i requires 0 <= i < |j| => RatioRow(j[i].0, j[i].1.0, j[i].1.1, Ratio(j[i].1.0, j[i].1.1)))
  }

  /** The score of a ratio row: its ratio. */
  function RatioOf<K>(x: RatioRow<K>): real
  {
    x.ratio
  }

  /** The key of a ratio row. */
  function KeyOf<K>(x: RatioRow<K>): K
  {
    x.key
  }

  /**
   * Group both inputs by key, inner-join them and add `num / (den + 1)`: each
   * key common to both inputs yields exactly one row, holding its two totals.
   */
  function RatioJoin<K(==,!new)>(numRows: seq<(K, nat)>, denRows: seq<(K, nat)>): (rs: seq<RatioRow<K>>)
    ensures forall x :: x in rs <==> RatioRowOf(numRows, denRows, x)
    ensures DistinctOn(rs, KeyOf)
    ensures |rs| == |Keys(numRows) * Keys(denRows)|
  {
    RatioJoinMembers(numRows, denRows);
    RatioJoinShape(numRows, denRows);
    WithRatio(JoinTotals(numRows, denRows))
  }

  lemma RatioJoinMembers<K(!new)>(numRows: seq<(K, nat)>, denRows: seq<(K, nat)>)
    ensures forall x :: x in WithRatio(JoinTotals(numRows, denRows)) <==> RatioRowOf(numRows, denRows, x)
  {
    var j := JoinTotals(numRows, denRows);
    var rs := WithRatio(j);
    forall x ensures x in rs <==> RatioRowOf(numRows, denRows, x) {
      if x in rs {
        var i :| 0 <= i < |rs| && rs[i] == x;
      }
      if RatioRowOf(numRows, denRows, x) {
        var i :| 0 <= i < |j| && j[i] == (x.key, (x.numerator, x.denominator));
        assert rs[i] == x;
      }
    }
  }

  lemma RatioJoinShape<K(!new)>(numRows: seq<(K, nat)>, denRows: seq<(K, nat)>)
    ensures DistinctOn(WithRatio(JoinTotals(numRows, denRows)), KeyOf)
    ensures |WithRatio(JoinTotals(numRows, denRows))| == |Keys(numRows) * Keys(denRows)|
  {
    var j := JoinTotals(numRows, denRows);
    DistinctKeysIndices(j);
    DistinctKeysCount(j);
  }

  /** x is the row for a key common to both inputs, with that key's totals and ratio. */
  ghost predicate RatioRowOf<K(!new)>(numRows: seq<(K, nat)>, denRows: seq<(K, nat)>, x: RatioRow<K>)
  {
    && x.key in Keys(numRows) && x.key in Keys(denRows)
    && x.numerator == SumFor(numRows, x.key)
    && x.denominator == SumFor(denRows, x.key)
    && x.ratio == Ratio(x.numerator, x.denominator)
  }

  /** DistinctKeys in index form. */
  lemma {:induction false} DistinctKeysIndices<K(!new), V>(t: seq<(K, V)>)
    requires DistinctKeys(t)
    ensures forall i, j :: 0 <= i < j < |t| ==> t[i].0 != t[j].0
  {
    if t != [] {
      DistinctKeysIndices(t[1..]);
      forall j | 0 < j < |t| ensures t[0].0 != t[j].0 {
        KeysAt(t[1..], j - 1);
      }
      forall i, j | 0 < i < j < |t| ensures t[i].0 != t[j].0 {
        assert t[i] == t[1..][i - 1] && t[j] == t[1..][j - 1];
      }
    }
  }

  lemma {:induction false} KeysAt<K(!new), V>(t: seq<(K, V)>, i: nat)
    requires i < |t|
    ensures t[i].0 in Keys(t)
  {
    if i > 0 {
      KeysAt(t[1..], i - 1);
    }
  }
}
