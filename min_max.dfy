/**
 * Batch min-max scaling, as `MinMaxScaler().fit_transform` applies it to one
 * column: each value v becomes (v - lo) / (hi - lo), where lo and hi are the
 * smallest and largest values of the batch. Undefined entries (NaN) take no
 * part in lo and hi and stay undefined; a batch whose values are all equal
 * scales to 0.
 */
module MinMax {
  import opened Options
  import Tables

  /** The smallest defined value among s[..n], or None when there is none. */
  function MinUpTo(s: seq<Option<real>>, n: nat): Option<real>
    requires n <= |s|
  {
    if n == 0 then None else Lesser(MinUpTo(s, n - 1), s[n - 1])
  }

  /** The smaller of two entries, an undefined one losing to a defined one. */
  function Lesser(r: Option<real>, x: Option<real>): Option<real>
  {
    if x.None? || (r.Some? && r.value < x.value) then r else x
  }

  /** The larger of two entries, an undefined one losing to a defined one. */
  function Greater(r: Option<real>, x: Option<real>): Option<real>
  {
    if x.None? || (r.Some? && r.value > x.value) then r else x
  }

  /** The largest defined value among s[..n], or None when there is none. */
  function MaxUpTo(s: seq<Option<real>>, n: nat): Option<real>
    requires n <= |s|
  {
    if n == 0 then None else Greater(MaxUpTo(s, n - 1), s[n - 1])
  }

  /** MinUpTo is undefined exactly on an all-undefined prefix, is attained, and is a lower bound. */
  lemma {:induction false} MinUpToSpec(s: seq<Option<real>>, n: nat)
    requires n <= |s|
    ensures MinUpTo(s, n).None? <==> forall i :: 0 <= i < n ==> s[i].None?
    ensures MinUpTo(s, n).Some? ==> exists i :: 0 <= i < n && s[i] == MinUpTo(s, n)
    ensures MinUpTo(s, n).Some? ==> forall i :: 0 <= i < n && s[i].Some? ==> MinUpTo(s, n).value <= s[i].value
  {
    if n > 0 {
      MinUpToSpec(s, n - 1);
    }
  }

  /** MaxUpTo is undefined exactly on an all-undefined prefix, is attained, and is an upper bound. */
  lemma {:induction false} MaxUpToSpec(s: seq<Option<real>>, n: nat)
    requires n <= |s|
    ensures MaxUpTo(s, n).None? <==> forall i :: 0 <= i < n ==> s[i].None?
    ensures MaxUpTo(s, n).Some? ==> exists i :: 0 <= i < n && s[i] == MaxUpTo(s, n)
    ensures MaxUpTo(s, n).Some? ==> forall i :: 0 <= i < n && s[i].Some? ==> s[i].value <= MaxUpTo(s, n).value
  {
    if n > 0 {
      MaxUpToSpec(s, n - 1);
    }
  }

  /** The smallest defined value of the batch (pandas' `min`, skipping NaN). */
  function MinOf(s: seq<Option<real>>): Option<real>
  {
    MinUpTo(s, |s|)
  }

  /** The batch minimum is undefined only for an all-undefined batch, is attained, and bounds every value below. */
  lemma MinOfSpec(s: seq<Option<real>>)
    ensures MinOf(s).None? <==> forall i :: 0 <= i < |s| ==> s[i].None?
    ensures MinOf(s).Some? ==> exists i :: 0 <= i < |s| && s[i] == MinOf(s)
    ensures MinOf(s).Some? ==> forall i :: 0 <= i < |s| && s[i].Some? ==> MinOf(s).value <= s[i].value
  {
    MinUpToSpec(s, |s|);
  }

  /** The largest defined value of the batch. */
  function MaxOf(s: seq<Option<real>>): Option<real>
  {
    MaxUpTo(s, |s|)
  }

  /** The batch maximum is undefined only for an all-undefined batch, is attained, and bounds every value above. */
  lemma MaxOfSpec(s: seq<Option<real>>)
    ensures MaxOf(s).None? <==> forall i :: 0 <= i < |s| ==> s[i].None?
    ensures MaxOf(s).Some? ==> exists i :: 0 <= i < |s| && s[i] == MaxOf(s)
    ensures MaxOf(s).Some? ==> forall i :: 0 <= i < |s| && s[i].Some? ==> s[i].value <= MaxOf(s).value
  {
    MaxUpToSpec(s, |s|);
  }

  /** One value scaled against the batch range [lo, hi]. */
  function ScaleValue(v: real, lo: real, hi: real): real
  {
    if hi == lo then 0.0 else (v - lo) / (hi - lo)
  }

  /** One entry scaled against [lo, hi]; an undefined entry stays undefined. */
  function ScaleEntry(o: Option<real>, lo: real, hi: real): Option<real>
  {
    if o.None? then None else Some(ScaleValue(o.value, lo, hi))
  }

  /**
   * The scaled batch: same length, the same entries defined, every defined
   * value in [0, 1], and the order of the defined values kept.
   */
  function Scale(s: seq<Option<real>>): (r: seq<Option<real>>)
    ensures |r| == |s|
    ensures forall i :: 0 <= i < |s| ==> (r[i].Some? <==> s[i].Some?)
    ensures forall i :: 0 <= i < |s| && r[i].Some? ==> 0.0 <= r[i].value <= 1.0
    ensures forall i, j :: 0 <= i < |s| && 0 <= j < |s| && s[i].Some? && s[j].Some? && s[i].value <= s[j].value ==> r[i].Some? && r[j].Some? && r[i].value <= r[j].value
  {
    MinOfSpec(s);
    MaxOfSpec(s);
    var lo := MinOf(s);
    var hi := MaxOf(s);
    if lo.None? then
      s
    else
      var r := seq(|s|, i requires 0 <= i < |s| => ScaleEntry(s[i], lo.value, hi.value));
      ScaleBounds(s, r, lo.value, hi.value);
      r
  }

  lemma ScaleBounds(s: seq<Option<real>>, r: seq<Option<real>>, lo: real, hi: real)
    requires MinOf(s) == Some(lo) && MaxOf(s) == Some(hi)
    requires |r| == |s| && forall i :: 0 <= i < |s| ==> r[i] == ScaleEntry(s[i], lo, hi)
    ensures forall i :: 0 <= i < |s| && r[i].Some? ==> 0.0 <= r[i].value <= 1.0
    ensures forall i, j :: 0 <= i < |s| && 0 <= j < |s| && s[i].Some? && s[j].Some? && s[i].value <= s[j].value ==> r[i].Some? && r[j].Some? && r[i].value <= r[j].value
  {
    MinOfSpec(s);
    MaxOfSpec(s);
    forall i | 0 <= i < |s| && r[i].Some? ensures 0.0 <= r[i].value <= 1.0 {
      UnitRange(s[i].value, lo, hi);
    }
    forall i, j | 0 <= i < |s| && 0 <= j < |s| && s[i].Some? && s[j].Some? && s[i].value <= s[j].value
      ensures r[i].value <= r[j].value
    {
      ScaleMonotone(s[i].value, s[j].value, lo, hi);
    }
  }

  lemma UnitRange(v: real, lo: real, hi: real)
    requires lo <= v <= hi
    ensures 0.0 <= ScaleValue(v, lo, hi) <= 1.0
  {
    if hi != lo {
      QuotientAtMostOne(v - lo, hi - lo);
    }
  }

  lemma QuotientAtMostOne(x: real, d: real)
    requires 0.0 <= x <= d && d > 0.0
    ensures 0.0 <= x / d <= 1.0
  {
    assert x / d * d == x;
  }

  lemma ScaleMonotone(v: real, w: real, lo: real, hi: real)
    requires lo <= hi && v <= w
    ensures ScaleValue(v, lo, hi) <= ScaleValue(w, lo, hi)
  {
    if hi != lo {
      Tables.DivideMore(v - lo, w - lo, hi - lo);
    }
  }

  /** Entry i of a batch with a defined value, scaled against the batch's own range. */
  lemma ScaleAt(s: seq<Option<real>>, i: int)
    requires 0 <= i < |s| && s[i].Some?
    ensures MinOf(s).Some? && MaxOf(s).Some?
    ensures Scale(s)[i] == Some(ScaleValue(s[i].value, MinOf(s).value, MaxOf(s).value))
  {
    MinOfSpec(s);
    MaxOfSpec(s);
  }

  /** The batch minimum scales to 0; the maximum scales to 1 unless all values are equal. */
  lemma ScaleEndpoints(s: seq<Option<real>>, i: int)
    requires 0 <= i < |s| && s[i].Some?
    ensures s[i] == MinOf(s) ==> Scale(s)[i] == Some(0.0)
    ensures s[i] == MaxOf(s) && MinOf(s) != MaxOf(s) ==> Scale(s)[i] == Some(1.0)
  {
    ScaleAt(s, i);
    var v, lo, hi := s[i].value, MinOf(s).value, MaxOf(s).value;
    if v == lo {
      LowScalesToZero(lo, hi);
    }
    if v == hi && lo != hi {
      HighScalesToOne(lo, hi);
    }
  }

  lemma LowScalesToZero(lo: real, hi: real)
    ensures ScaleValue(lo, lo, hi) == 0.0
  {
  }

  lemma HighScalesToOne(lo: real, hi: real)
    requires lo != hi
    ensures ScaleValue(hi, lo, hi) == 1.0
  {
    assert hi - lo != 0.0;
    assert (hi - lo) / (hi - lo) == 1.0;
  }

  /** A batch whose defined values are all equal scales to all zeros. */
  lemma ScaleConstant(s: seq<Option<real>>)
    requires forall i, j :: 0 <= i < |s| && 0 <= j < |s| && s[i].Some? && s[j].Some? ==> s[i] == s[j]
    ensures forall i :: 0 <= i < |s| && s[i].Some? ==> Scale(s)[i] == Some(0.0)
  {
    MinOfSpec(s);
    forall i | 0 <= i < |s| && s[i].Some? ensures Scale(s)[i] == Some(0.0) {
      var k :| 0 <= k < |s| && s[k] == MinOf(s);
      assert s[i] == MinOf(s);
      ScaleEndpoints(s, i);
    }
  }

  /** Distinct values stay distinct, in the same order. */
  lemma ScaleStrict(s: seq<Option<real>>, i: int, j: int)
    requires 0 <= i < |s| && 0 <= j < |s| && s[i].Some? && s[j].Some? && s[i].value < s[j].value
    ensures Scale(s)[i].value < Scale(s)[j].value
  {
    ScaleAt(s, i);
    ScaleAt(s, j);
    MinOfSpec(s);
    MaxOfSpec(s);
    var lo, hi := MinOf(s).value, MaxOf(s).value;
    assert lo <= s[i].value < s[j].value <= hi;
    QuotientStrict(s[i].value - lo, s[j].value - lo, hi - lo);
  }

  lemma QuotientStrict(x: real, y: real, d: real)
    requires x < y && d > 0.0
    ensures x / d < y / d
  {
    assert (y - x) / d > 0.0;
    assert y / d - x / d == (y - x) / d;
  }

  /** The change of unit v |-> a * v + b. */
  function Lin(a: real, b: real, v: real): real
  {
    a * v + b
  }

  /** v |-> a * v + b on a defined entry. */
  function AffineEntry(o: Option<real>, a: real, b: real): Option<real>
  {
    if o.None? then None else Some(Lin(a, b, o.value))
  }

  /** Every defined value of s mapped by v |-> a * v + b. */
  function Affine(s: seq<Option<real>>, a: real, b: real): (t: seq<Option<real>>)
    ensures |t| == |s|
    ensures forall i :: 0 <= i < |s| ==> t[i] == AffineEntry(s[i], a, b)
  {
    seq(|s|, i requires 0 <= i < |s| => AffineEntry(s[i], a, b))
  }

  /**
   * Scaling depends only on the relative position of the values: a positive
   * affine change of unit leaves it unchanged.
   */
  lemma ScaleAffine(s: seq<Option<real>>, a: real, b: real)
    requires a > 0.0
    ensures Scale(Affine(s, a, b)) == Scale(s)
  {
    forall i | 0 <= i < |s| ensures Scale(Affine(s, a, b))[i] == Scale(s)[i] {
      ScaleAffineAt(s, a, b, i);
    }
  }

  lemma ScaleAffineAt(s: seq<Option<real>>, a: real, b: real, i: int)
    requires a > 0.0 && 0 <= i < |s|
    ensures Scale(Affine(s, a, b))[i] == Scale(s)[i]
  {
    if s[i].Some? {
      ScaleAt(s, i);
      var lo, hi := MinOf(s).value, MaxOf(s).value;
      AffineMin(s, a, b, lo);
      AffineMax(s, a, b, hi);
      var v := s[i].value;
      AffineQuotient(v, lo, hi, a, b);
      ScaleAffineEntry(s, a, b, i, v, lo, hi);
    }
  }

  /** The same, once the new range and the unchanged quotient are known. */
  lemma ScaleAffineEntry(s: seq<Option<real>>, a: real, b: real, i: int, v: real, lo: real, hi: real)
    requires 0 <= i < |s| && s[i] == Some(v) && MinOf(s) == Some(lo) && MaxOf(s) == Some(hi)
    requires MinOf(Affine(s, a, b)) == Some(Lin(a, b, lo)) && MaxOf(Affine(s, a, b)) == Some(Lin(a, b, hi))
    requires ScaleValue(Lin(a, b, v), Lin(a, b, lo), Lin(a, b, hi)) == ScaleValue(v, lo, hi)
    ensures Scale(Affine(s, a, b))[i] == Scale(s)[i]
  {
    var t := Affine(s, a, b);
    ScaleAt(s, i);
    AffineSome(s[i], a, b);
    assert t[i] == Some(Lin(a, b, v));
    ScaleAt(t, i);
    assert Scale(t)[i] == Some(ScaleValue(Lin(a, b, v), Lin(a, b, lo), Lin(a, b, hi)));
  }

  /** A positive affine change of unit moves the batch minimum with it. */
  lemma AffineMin(s: seq<Option<real>>, a: real, b: real, lo: real)
    requires a > 0.0 && MinOf(s) == Some(lo)
    ensures MinOf(Affine(s, a, b)) == Some(Lin(a, b, lo))
  {
    AffineMinUpTo(s, a, b, |s|);
    AffineSome(MinOf(s), a, b);
  }

  /** A positive affine change of unit moves the batch maximum with it. */
  lemma AffineMax(s: seq<Option<real>>, a: real, b: real, hi: real)
    requires a > 0.0 && MaxOf(s) == Some(hi)
    ensures MaxOf(Affine(s, a, b)) == Some(Lin(a, b, hi))
  {
    AffineMaxUpTo(s, a, b, |s|);
    AffineSome(MaxOf(s), a, b);
  }

  lemma {:induction false} AffineMinUpTo(s: seq<Option<real>>, a: real, b: real, n: nat)
    requires a > 0.0 && n <= |s|
    ensures MinUpTo(Affine(s, a, b), n) == AffineEntry(MinUpTo(s, n), a, b)
  {
    if n > 0 {
      AffineMinUpTo(s, a, b, n - 1);
      AffineLesser(MinUpTo(s, n - 1), s[n - 1], a, b);
    }
  }

  lemma {:induction false} AffineMaxUpTo(s: seq<Option<real>>, a: real, b: real, n: nat)
    requires a > 0.0 && n <= |s|
    ensures MaxUpTo(Affine(s, a, b), n) == AffineEntry(MaxUpTo(s, n), a, b)
  {
    if n > 0 {
      AffineMaxUpTo(s, a, b, n - 1);
      AffineGreater(MaxUpTo(s, n - 1), s[n - 1], a, b);
    }
  }

  lemma AffineLesser(r: Option<real>, x: Option<real>, a: real, b: real)
    requires a > 0.0
    ensures Lesser(AffineEntry(r, a, b), AffineEntry(x, a, b)) == AffineEntry(Lesser(r, x), a, b)
  {
    if r.Some? && x.Some? {
      AffineSome(r, a, b);
      AffineSome(x, a, b);
      var u, v := r.value, x.value;
      AffineOrder(a, b, u, v);
    }
  }

  lemma AffineGreater(r: Option<real>, x: Option<real>, a: real, b: real)
    requires a > 0.0
    ensures Greater(AffineEntry(r, a, b), AffineEntry(x, a, b)) == AffineEntry(Greater(r, x), a, b)
  {
    if r.Some? && x.Some? {
      AffineSome(r, a, b);
      AffineSome(x, a, b);
      var u, v := r.value, x.value;
      AffineOrder(a, b, v, u);
    }
  }

  lemma AffineSome(o: Option<real>, a: real, b: real)
    requires o.Some?
    ensures AffineEntry(o, a, b) == Some(Lin(a, b, o.value))
  {
  }

  /** A positive affine map keeps the strict order of two values. */
  lemma AffineOrder(a: real, b: real, x: real, y: real)
    requires a > 0.0
    ensures x < y <==> Lin(a, b, x) < Lin(a, b, y)
  {
    assert a * y - a * x == a * (y - x);
  }

  lemma AffineQuotient(v: real, lo: real, hi: real, a: real, b: real)
    requires a > 0.0
    ensures ScaleValue(Lin(a, b, v), Lin(a, b, lo), Lin(a, b, hi)) == ScaleValue(v, lo, hi)
  {
    if hi != lo {
      assert (a * hi + b) - (a * lo + b) == a * (hi - lo);
      assert (a * v + b) - (a * lo + b) == a * (v - lo);
      CancelFactor(a, v - lo, hi - lo);
    } else {
      assert a * hi + b == a * lo + b;
    }
  }

  lemma CancelFactor(a: real, x: real, d: real)
    requires a > 0.0 && d != 0.0
    ensures (a * x) / (a * d) == x / d
  {
    assert (x / d) * (a * d) == a * x;
  }

  /** Two different values scale to 0 (the smaller) and 1 (the larger). */
  lemma ScalePair(s: seq<Option<real>>)
    requires |s| == 2 && s[0].Some? && s[1].Some? && s[0].value < s[1].value
    ensures Scale(s) == [Some(0.0), Some(1.0)]
  {
    MinOfSpec(s);
    MaxOfSpec(s);
    assert MinOf(s) == s[0] && MaxOf(s) == s[1];
    ScaleEndpoints(s, 0);
    ScaleEndpoints(s, 1);
  }
}
