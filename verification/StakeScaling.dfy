/** Scaling rational pool stakes to uint64, and what the big-ledger selection then
    guarantees about the true stakes. */
module StakeScaling {
  import opened Messages
  import opened Arithmetic
  import opened LedgerPeers

  datatype Rat = Rat(num: int, den: int)

  /** Rationals have a positive denominator. */
  predicate Proper(r: Rat) {
    r.den > 0
  }

  /** A missing or non-positive stake counts as none; a stake above one saturates. */
  function Scale(stake: Option<Rat>): uint64
    requires stake.Some? ==> Proper(stake.value)
  {
    if stake == None || stake.value.num <= 0 then 0
    else
      var scaled := stake.value.num * MAX_UINT64 / stake.value.den;
      assert scaled >= 0 by { DivAdjoint(stake.value.num * MAX_UINT64, stake.value.den, 0); }
      if scaled > MAX_UINT64 then MAX_UINT64 else scaled
  }

  /** Outside the unit interval: nothing for no or a non-positive stake, and the
      largest value for a stake of one or more. */
  lemma ScaleSaturates(r: Rat)
    requires Proper(r)
    ensures Scale(None) == 0
    ensures r.num <= 0 ==> Scale(Some(r)) == 0
    ensures r.num >= r.den ==> Scale(Some(r)) == 0xFFFF_FFFF_FFFF_FFFF
  {
    if r.num >= r.den {
      MulMono(r.den, r.num, MAX_UINT64);
      DivAdjoint(r.num * MAX_UINT64, r.den, MAX_UINT64);
    }
  }

  predicate AtMost(a: Rat, b: Rat) {
    a.num * b.den <= b.num * a.den
  }

  /** Scaling preserves the order of stakes. */
  lemma ScaleMonotone(a: Rat, b: Rat)
    requires Proper(a) && Proper(b) && AtMost(a, b)
    ensures Scale(Some(a)) <= Scale(Some(b))
  {
    if a.num > 0 {
      SignFollows(a, b);
      var q := a.num * MAX_UINT64 / a.den;
      DivAdjoint(a.num * MAX_UINT64, a.den, q);
      ScaledCross(a, b, q);
      DivAdjoint(b.num * MAX_UINT64, b.den, q);
    }
  }

  lemma SignFollows(a: Rat, b: Rat)
    requires Proper(a) && Proper(b) && AtMost(a, b) && a.num > 0
    ensures b.num > 0
  {
    assert a.num * b.den > 0;
    if b.num <= 0 {
      MulMono(b.num, 0, a.den);
    }
  }

  /** q <= a * MAX_UINT64 and a <= b give q <= b * MAX_UINT64, without leaving the integers. */
  lemma ScaledCross(a: Rat, b: Rat, q: int)
    requires Proper(a) && Proper(b) && AtMost(a, b) && q * a.den <= a.num * MAX_UINT64
    ensures q * b.den <= b.num * MAX_UINT64
  {
    MulMono(q * a.den, a.num * MAX_UINT64, b.den);
    MulMono(a.num * b.den, b.num * a.den, MAX_UINT64);
    assert (q * b.den) * a.den == (q * a.den) * b.den;
    assert (a.num * MAX_UINT64) * b.den == (a.num * b.den) * MAX_UINT64;
    assert (b.num * MAX_UINT64) * a.den == (b.num * a.den) * MAX_UINT64;
    MulCancel(q * b.den, b.num * MAX_UINT64, a.den);
  }

  // ---------------------------------------------------------------- scaled against true stake

  /** True stakes are compared as numerators over one common denominator, so that
      all of this stays within the integers. */
  predicate Divides(stake: Option<Rat>, den: int) {
    den > 0 && (stake.Some? ==> Proper(stake.value) && den % stake.value.den == 0)
  }

  /** The stake as a numerator over `den`. */
  function Over(stake: Option<Rat>, den: int): int
    requires Divides(stake, den)
  {
    if stake == None then 0 else stake.value.num * (den / stake.value.den)
  }

  lemma OverIsExact(stake: Option<Rat>, den: int)
    requires Divides(stake, den) && stake.Some?
    ensures Over(stake, den) * stake.value.den == stake.value.num * den
  {
    var r := stake.value;
    var k := den / r.den;
    assert den == k * r.den;
    assert r.num * k * r.den == r.num * (k * r.den);
  }

  /** Rounding loses less than one unit, and never gains. */
  lemma ScaleIsClose(stake: Option<Rat>, den: int)
    requires Divides(stake, den) && 0 <= Over(stake, den) <= den
    ensures Scale(stake) * den <= Over(stake, den) * MAX_UINT64 < (Scale(stake) + 1) * den
  {
    if stake.Some? {
      var r := stake.value;
      var k := den / r.den;
      assert den == r.den * k;
      UnitRange(stake, den);
      var q := r.num * MAX_UINT64 / r.den;
      DivAdjoint(r.num * MAX_UINT64, r.den, q);
      DivAdjoint(r.num * MAX_UINT64, r.den, q + 1);
      MulMono(r.num, r.den, MAX_UINT64);
      DivAdjoint(r.num * MAX_UINT64, r.den, MAX_UINT64 + 1);
      assert (MAX_UINT64 + 1) * r.den == r.den * MAX_UINT64 + r.den;
      assert Scale(stake) == q;
      Stretch(q, r.num, r.den, k);
    }
  }

  /** A fraction between zero and one is one over any denominator. */
  lemma UnitRange(stake: Option<Rat>, den: int)
    requires Divides(stake, den) && stake.Some? && 0 <= Over(stake, den) <= den
    ensures 0 <= stake.value.num <= stake.value.den
  {
    var r := stake.value;
    OverIsExact(stake, den);
    MulMono(0, Over(stake, den), r.den);
    MulMono(Over(stake, den), den, r.den);
    MulCancel(0, r.num, den);
    MulCancel(r.num, r.den, den);
  }

  lemma Stretch(q: int, num: int, den: int, k: int)
    requires k > 0 && q * den <= num * MAX_UINT64 < (q + 1) * den
    ensures q * (den * k) <= num * k * MAX_UINT64 < (q + 1) * (den * k)
  {
    MulMono(q * den, num * MAX_UINT64, k);
    MulMono(num * MAX_UINT64 + 1, (q + 1) * den, k);
    assert q * (den * k) == q * den * k;
    assert (q + 1) * (den * k) == (q + 1) * den * k;
    assert num * k * MAX_UINT64 == num * MAX_UINT64 * k;
  }

  // ---------------------------------------------------------------- whole snapshots

  datatype PoolDetail = PoolDetail(stake: Option<Rat>, relays: seq<Relay>)

  /** All stakes are non-negative, and `den` is a common denominator. */
  ghost predicate Stakes(ds: seq<PoolDetail>, den: int) {
    den > 0 && forall i :: 0 <= i < |ds| ==> Divides(ds[i].stake, den) && Over(ds[i].stake, den) >= 0
  }

  /** There always is one. */
  lemma {:induction false} CommonDenominator(ds: seq<PoolDetail>) returns (den: int)
    requires forall i :: 0 <= i < |ds| && ds[i].stake.Some? ==> Proper(ds[i].stake.value) && ds[i].stake.value.num >= 0
    ensures Stakes(ds, den)
  {
    den := 1;
    if ds != [] {
      var n := |ds| - 1;
      var d := CommonDenominator(ds[..n]);
      var last := if ds[n].stake.Some? then ds[n].stake.value.den else 1;
      den := d * last;
      MulMono(1, d, last);
      forall i | 0 <= i < |ds| ensures Divides(ds[i].stake, den) && Over(ds[i].stake, den) >= 0 {
        if ds[i].stake.Some? {
          var own := ds[i].stake.value.den;
          if i < n {
            assert Divides(ds[..n][i].stake, d);
            Multiple(d, own, last);
          } else {
            Multiple(own, own, d);
          }
          DivAdjoint(den, own, 0);
          MulMono(0, ds[i].stake.value.num, den / own);
        }
      }
    }
  }

  lemma Multiple(a: int, b: int, c: int)
    requires b > 0 && a % b == 0
    ensures (a * c) % b == 0 && (c * a) % b == 0
  {
    var k := a / b;
    assert a == k * b;
    assert a * c == (k * c) * b;
    ModZero(k * c, b);
  }

  lemma ModZero(k: int, b: int)
    requires b > 0
    ensures (k * b) % b == 0
  {
    var q, r := (k * b) / b, (k * b) % b;
    assert k * b == q * b + r;
    DivAdjoint(k * b, b, k);
    DivAdjoint(k * b, b, k + 1);
    assert (k + 1) * b == k * b + b;
  }

  /** The true total, over `den`. */
  ghost function Total(ds: seq<PoolDetail>, den: int): (t: nat)
    requires Stakes(ds, den)
  {
    if ds == [] then 0 else Total(ds[..|ds| - 1], den) + Over(ds[|ds| - 1].stake, den)
  }

  /** Snapshots of this kind carry no pool IDs: every entry is a pool of its own. */
  ghost function Convert(ds: seq<PoolDetail>): (r: seq<LedgerPeer>)
    requires forall i :: 0 <= i < |ds| && ds[i].stake.Some? ==> Proper(ds[i].stake.value)
    ensures |r| == |ds|
    ensures forall i :: 0 <= i < |ds| ==> r[i] == LedgerPeer("", Scale(ds[i].stake), ds[i].relays)
  {
    seq(|ds|, i requires 0 <= i < |ds| => LedgerPeer("", Scale(ds[i].stake), ds[i].relays))
  }

  ghost function Rows(ds: seq<PoolDetail>): seq<Pool>
    requires forall i :: 0 <= i < |ds| && ds[i].stake.Some? ==> Proper(ds[i].stake.value)
  {
    Entries(Convert(ds))
  }

  lemma RowsSnoc(ds: seq<PoolDetail>, den: int)
    requires Stakes(ds, den) && ds != []
    ensures var n := |ds| - 1;
            && Stakes(ds[..n], den) && Rows(ds) == Rows(ds[..n]) + [Rows(ds)[n]]
            && Rows(ds)[n] == Pool(ByIndex(n), Scale(ds[n].stake))
  {
  }

  lemma RowsDistinct(ds: seq<PoolDetail>, den: int)
    requires Stakes(ds, den)
    ensures DistinctKeys(Rows(ds)) && forall i :: 0 <= i < |ds| ==> Rows(ds)[i].key == ByIndex(i)
  {
  }

  lemma OtherRowsOtherKeys(s: seq<Pool>, rows: seq<Pool>, e: Pool)
    requires RowsFrom(s, rows) && DistinctKeys(rows + [e])
    ensures forall i :: 0 <= i < |s| ==> s[i].key != e.key
  {
    forall i | 0 <= i < |s| ensures s[i].key != e.key {
      var j :| 0 <= j < |rows| && rows[j] == s[i];
      assert (rows + [e])[j].key != (rows + [e])[|rows|].key;
    }
  }

  /** When every entry is a pool of its own, no stake is hidden by a maximum. */
  lemma {:induction false} SeparatePoolsWeight(rows: seq<Pool>)
    requires DistinctKeys(rows)
    ensures Weight(Pools(rows)) == Weight(rows)
  {
    if rows != [] {
      var n := |rows| - 1;
      var init, e := rows[..n], rows[n];
      assert rows == init + [e];
      SeparatePoolsWeight(init);
      WeightConcat(init, [e]);
      SeparateStep(init, e);
    }
  }

  lemma SeparateStep(rows: seq<Pool>, e: Pool)
    requires DistinctKeys(rows + [e])
    ensures Weight(WithEntry(Pools(rows), e)) == Weight(Pools(rows)) + e.stake
  {
    PoolsAreMaxima(rows);
    OtherRowsOtherKeys(Pools(rows), rows, e);
    NewKeyAddsWeight(Pools(rows), e);
  }

  lemma {:induction false} StakeWithinTotal(ds: seq<PoolDetail>, den: int, i: nat)
    requires Stakes(ds, den) && i < |ds|
    ensures Over(ds[i].stake, den) <= Total(ds, den)
  {
    var n := |ds| - 1;
    if i < n {
      assert ds[..n][i] == ds[i];
      StakeWithinTotal(ds[..n], den, i);
    }
  }

  /** The scaled total follows the true total from below, by at most one unit per pool. */
  lemma {:induction false} ScaledTotal(ds: seq<PoolDetail>, den: int)
    requires Stakes(ds, den) && Total(ds, den) <= den
    ensures Weight(Rows(ds)) * den <= Total(ds, den) * MAX_UINT64 <= (Weight(Rows(ds)) + |ds|) * den
  {
    if ds != [] {
      var n := |ds| - 1;
      ScaledTotal(ds[..n], den);
      ScaledTotalStep(ds, den);
    }
  }

  lemma ScaledTotalStep(ds: seq<PoolDetail>, den: int)
    requires Stakes(ds, den) && Total(ds, den) <= den && ds != []
    requires var init := ds[..|ds| - 1];
             Weight(Rows(init)) * den <= Total(init, den) * MAX_UINT64 <= (Weight(Rows(init)) + |init|) * den
    ensures Weight(Rows(ds)) * den <= Total(ds, den) * MAX_UINT64 <= (Weight(Rows(ds)) + |ds|) * den
  {
    var n := |ds| - 1;
    var w, s, total, over := Weight(Rows(ds[..n])), Scale(ds[n].stake), Total(ds[..n], den), Over(ds[n].stake, den);
    StakeWithinTotal(ds, den, n);
    ScaleIsClose(ds[n].stake, den);
    LastWeight(ds, den);
    SumScales(w, s, n, total, over, Weight(Rows(ds)), Total(ds, den), den);
  }

  lemma LastWeight(ds: seq<PoolDetail>, den: int)
    requires Stakes(ds, den) && ds != []
    ensures var n := |ds| - 1; Weight(Rows(ds)) == Weight(Rows(ds[..n])) + Scale(ds[n].stake)
  {
    var n := |ds| - 1;
    RowsSnoc(ds, den);
    WeightConcat(Rows(ds[..n]), [Rows(ds)[n]]);
    assert Weight([Rows(ds)[n]]) == Scale(ds[n].stake);
  }

  lemma SumScales(w: nat, s: nat, n: nat, total: nat, over: nat, w': nat, total': nat, den: int)
    requires w' == w + s && total' == total + over
    requires w * den <= total * MAX_UINT64 <= (w + n) * den
    requires s * den <= over * MAX_UINT64 <= (s + 1) * den
    ensures w' * den <= total' * MAX_UINT64 <= (w' + (n + 1)) * den
  {
    assert (w + s) * den == w * den + s * den;
    assert (w + s + (n + 1)) * den == (w + n) * den + (s + 1) * den;
  }

  /** The true stake behind a pool key, over `den`. */
  ghost function TrueStake(ds: seq<PoolDetail>, den: int, key: PoolName): nat
    requires Stakes(ds, den)
  {
    if key.ByIndex? && key.index < |ds| then Over(ds[key.index].stake, den) else 0
  }

  /** The true stake of several pools, over `den`. */
  ghost function TrueWeight(ds: seq<PoolDetail>, den: int, s: seq<Pool>): nat
    requires Stakes(ds, den)
  {
    if s == [] then 0 else TrueStake(ds, den, s[0].key) + TrueWeight(ds, den, s[1..])
  }

  lemma {:induction false} TrueWeightCovers(ds: seq<PoolDetail>, den: int, s: seq<Pool>)
    requires Stakes(ds, den) && Total(ds, den) <= den && (forall i :: 0 <= i < |s| ==> s[i] in Rows(ds))
    ensures TrueWeight(ds, den, s) * MAX_UINT64 >= Weight(s) * den
  {
    if s != [] {
      assert s[0] in Rows(ds);
      var i :| 0 <= i < |Rows(ds)| && Rows(ds)[i] == s[0];
      RowsDistinct(ds, den);
      StakeWithinTotal(ds, den, i);
      ScaleIsClose(ds[i].stake, den);
      TrueWeightCovers(ds, den, s[1..]);
      AddProducts(TrueStake(ds, den, s[0].key), TrueWeight(ds, den, s[1..]), s[0].stake, Weight(s[1..]), den);
    }
  }

  lemma AddProducts(a: nat, b: nat, c: nat, d: nat, den: int)
    requires a * MAX_UINT64 >= c * den && b * MAX_UINT64 >= d * den
    ensures (a + b) * MAX_UINT64 >= (c + d) * den
  {
    assert (c + d) * den == c * den + d * den;
  }

  /** For stakes that sum to at most one: the scaled total fits in uint64, and the
      selected pools truly hold nine tenths of the true total, up to nine tenths of
      a unit of 1/(2^64 - 1) per pool. (The inequality
      share >= 9/10 * total - 9n / (10 * MAX_UINT64), multiplied by 10 * MAX_UINT64 * den.) */
  lemma {:induction false} SelectedTrueShare(ds: seq<PoolDetail>, den: int)
    requires Stakes(ds, den) && Total(ds, den) <= den
    ensures Weight(Pools(Rows(ds))) <= MAX_UINT64
    ensures Weight(Pools(Rows(ds))) > 0 ==>
              10 * (TrueWeight(ds, den, Selected(Pools(Rows(ds)))) * MAX_UINT64)
              >= 9 * (Total(ds, den) * MAX_UINT64) - 9 * (|ds| * den)
  {
    ScaledTotalFits(ds, den);
    if Weight(Pools(Rows(ds))) > 0 {
      SelectedCovered(ds, den);
      ShareOf(ds, den, Selected(Pools(Rows(ds))));
    }
  }

  lemma ShareOf(ds: seq<PoolDetail>, den: int, chosen: seq<Pool>)
    requires Stakes(ds, den) && Total(ds, den) <= den && 10 * Weight(chosen) >= 9 * Weight(Rows(ds))
    requires TrueWeight(ds, den, chosen) * MAX_UINT64 >= Weight(chosen) * den
    ensures 10 * (TrueWeight(ds, den, chosen) * MAX_UINT64) >= 9 * (Total(ds, den) * MAX_UINT64) - 9 * (|ds| * den)
  {
    ScaledTotal(ds, den);
    ShareArithmetic(TrueWeight(ds, den, chosen), Total(ds, den), Weight(chosen), Weight(Rows(ds)), |ds|, den);
  }

  lemma SelectedCovered(ds: seq<PoolDetail>, den: int)
    requires Stakes(ds, den) && Total(ds, den) <= den && Weight(Pools(Rows(ds))) > 0
    ensures var chosen := Selected(Pools(Rows(ds)));
            && 10 * Weight(chosen) >= 9 * Weight(Rows(ds))
            && TrueWeight(ds, den, chosen) * MAX_UINT64 >= Weight(chosen) * den
  {
    ScaledTotalFits(ds, den);
    SelectedHoldsMost(Pools(Rows(ds)));
    SelectedAreRows(Rows(ds));
    TrueWeightCovers(ds, den, Selected(Pools(Rows(ds))));
  }

  lemma ScaledTotalFits(ds: seq<PoolDetail>, den: int)
    requires Stakes(ds, den) && Total(ds, den) <= den
    ensures Weight(Pools(Rows(ds))) == Weight(Rows(ds)) <= MAX_UINT64
  {
    ScaledTotal(ds, den);
    RowsDistinct(ds, den);
    SeparatePoolsWeight(Rows(ds));
    MulMono(Total(ds, den), den, MAX_UINT64);
    MulCancel(Weight(Rows(ds)), MAX_UINT64, den);
  }

  lemma SelectedAreRows(rows: seq<Pool>)
    requires 0 < Weight(Pools(rows)) < TWO_64
    ensures var s := Selected(Pools(rows)); forall i :: 0 <= i < |s| ==> s[i] in rows
  {
    PoolsAreMaxima(rows);
    SelectedHoldsMost(Pools(rows));
    var s := Selected(Pools(rows));
    forall i | 0 <= i < |s| ensures s[i] in rows {
      assert s[i] in multiset(s);
      var j :| 0 <= j < |Pools(rows)| && Pools(rows)[j] == s[i];
    }
  }

  lemma ShareArithmetic(share: nat, total: nat, chosen: nat, scaled: nat, n: nat, den: int)
    requires share * MAX_UINT64 >= chosen * den && 10 * chosen >= 9 * scaled && den > 0
    requires total * MAX_UINT64 <= (scaled + n) * den
    ensures 10 * (share * MAX_UINT64) >= 9 * (total * MAX_UINT64) - 9 * (n * den)
  {
    MulMono(9 * scaled, 10 * chosen, den);
    assert (scaled + n) * den == scaled * den + n * den;
    assert (9 * scaled) * den == 9 * (scaled * den);
    assert (10 * chosen) * den == 10 * (chosen * den);
  }
}
