/**
 * The reductions across the site axis for one (test, platform) address:
 * the geometric-mean selection shared by `result` and `ref`, rounding to 4
 * places, and the `count` of reporting sites. Vectors are indexed by site,
 * in catalog order.
 */
module SiteReduce {
  import opened Optional

  /** The values a geometric mean takes in: present and positive, in site order; absent and non-positive values are left out. */
  function Selected(xs: seq<Option<real>>): (vs: seq<real>)
    ensures |vs| <= |xs|
    ensures forall v :: v in vs ==> v > 0.0 && Some(v) in xs
    ensures forall k :: 0 <= k < |xs| && xs[k].Some? && xs[k].value > 0.0 ==> xs[k].value in vs
    ensures vs == [] <==> forall k :: 0 <= k < |xs| ==> xs[k].None? || xs[k].value <= 0.0
    ensures |xs| == 1 ==> vs == if xs[0].Some? && xs[0].value > 0.0 then [xs[0].value] else []
  {
    if xs == [] then []
    else (if xs[0].Some? && xs[0].value > 0.0 then [xs[0].value] else []) + Selected(xs[1..])
  }

  /** Selecting from a concatenation concatenates the selections: site order and repeated values are kept. */
  lemma {:induction false} SelectedAppend(xs: seq<Option<real>>, ys: seq<Option<real>>)
    ensures Selected(xs + ys) == Selected(xs) + Selected(ys)
  {
    if xs != [] {
      assert (xs + ys)[1..] == xs[1..] + ys;
      SelectedAppend(xs[1..], ys);
    } else {
      assert xs + ys == ys;
    }
  }

  /**
   * Geometric mean of a site vector. The exp/ln arithmetic is the parameter
   * `gm`, applied to the selected values; when nothing is selected the mean
   * is absent.
   */
  function Geomean(xs: seq<Option<real>>, gm: seq<real> -> real): (r: Option<real>)
    ensures r.None? <==> forall k :: 0 <= k < |xs| ==> xs[k].None? || xs[k].value <= 0.0
  {
    var vs := Selected(xs);
    if vs == [] then None else Some(gm(vs))
  }

  /** Two vectors that select the same values have the same geometric mean. */
  lemma GeomeanOfSameSelection(xs: seq<Option<real>>, ys: seq<Option<real>>, gm: seq<real> -> real)
    requires |xs| == |ys|
    requires forall k :: 0 <= k < |xs| ==> xs[k] == ys[k] || ((xs[k].None? || xs[k].value <= 0.0) && (ys[k].None? || ys[k].value <= 0.0))
    ensures Geomean(xs, gm) == Geomean(ys, gm)
  {
    SelectedAgree(xs, ys);
  }

  lemma {:induction false} SelectedAgree(xs: seq<Option<real>>, ys: seq<Option<real>>)
    requires |xs| == |ys|
    requires forall k :: 0 <= k < |xs| ==> xs[k] == ys[k] || ((xs[k].None? || xs[k].value <= 0.0) && (ys[k].None? || ys[k].value <= 0.0))
    ensures Selected(xs) == Selected(ys)
  {
    if xs != [] {
      SelectedAgree(xs[1..], ys[1..]);
    }
  }

  const Scale: real := 10000.0

  /** A whole number of 0.0001 steps. */
  predicate OnGrid(r: real) {
    (r * Scale).Floor as real == r * Scale
  }

  /**
   * `round(x, {places: 4})`: a multiple of 0.0001 within half a step of x;
   * at a tie (exactly half a step) it is the one farther from zero.
   */
  function RoundTo4Places(x: real): (r: real)
    ensures OnGrid(r)
    ensures -0.00005 <= r - x <= 0.00005
    ensures x >= 0.0 ==> r - x > -0.00005
    ensures x <= 0.0 ==> r - x < 0.00005
    ensures x >= 0.0 ==> r >= 0.0
    ensures x <= 0.0 ==> r <= 0.0
  {
    if x >= 0.0 then
      var f := (x * Scale + 0.5).Floor;
      assert (f as real / Scale) * Scale == f as real;
      f as real / Scale
    else
      var f := ((-x) * Scale + 0.5).Floor;
      assert (-(f as real / Scale)) * Scale == -(f as real);
      assert (-(f as real)).Floor == -f;
      -(f as real / Scale)
  }

  /** The contract of `RoundTo4Places` fixes its value: any grid value within half a step of x, rounding ties away from zero, is that value. */
  lemma RoundTo4PlacesUnique(x: real, r: real)
    requires OnGrid(r)
    requires -0.00005 <= r - x <= 0.00005
    requires x >= 0.0 ==> r - x > -0.00005
    requires x <= 0.0 ==> r - x < 0.00005
    ensures r == RoundTo4Places(x)
  {
    var q := RoundTo4Places(x);
    var a, b := (r * Scale).Floor, (q * Scale).Floor;
    assert a as real - b as real < 1.0 && b as real - a as real < 1.0 by {
      if x >= 0.0 {
        assert -0.5 < r * Scale - x * Scale <= 0.5;
        assert -0.5 < q * Scale - x * Scale <= 0.5;
      } else {
        assert -0.5 <= r * Scale - x * Scale < 0.5;
        assert -0.5 <= q * Scale - x * Scale < 0.5;
      }
    }
    assert a == b;
  }

  /** A rounded value is a whole number of 0.0001 steps, so rounding it again changes nothing. */
  lemma RoundTo4PlacesIdempotent(x: real)
    ensures RoundTo4Places(RoundTo4Places(x)) == RoundTo4Places(x)
  {
    var r := RoundTo4Places(x);
    if x >= 0.0 {
      var f := (x * Scale + 0.5).Floor;
      assert r * Scale == f as real;
      assert (r * Scale + 0.5).Floor == f;
    } else {
      var f := ((-x) * Scale + 0.5).Floor;
      assert r * Scale == -(f as real);
      if f == 0 {
        assert r == 0.0;
      } else {
        assert ((-r) * Scale + 0.5).Floor == f;
      }
    }
  }

  /** Halves round away from zero: 2.00005 becomes 2.0001 and 2.00004 becomes 2.0. */
  lemma RoundTo4PlacesExamples()
    ensures RoundTo4Places(2.00005) == 2.0001
    ensures RoundTo4Places(2.00004) == 2.0
    ensures RoundTo4Places(-2.00005) == -2.0001
  {
    assert (2.00005 * Scale + 0.5).Floor == 20001;
    assert (2.00004 * Scale + 0.5).Floor == 20000;
  }

  function RoundOption(x: Option<real>): (r: Option<real>)
    ensures r.Some? <==> x.Some?
    ensures r.Some? ==> r.value == RoundTo4Places(x.value)
  {
    match x
    case None => None
    case Some(v) => Some(RoundTo4Places(v))
  }

  /** `(d, r) => missing(r) ? null : d`: a site without a reference value is left out of the `result` geomean. */
  function ReferencedOnly(daily: seq<Option<real>>, reference: seq<Option<real>>): (kept: seq<Option<real>>)
    requires |daily| == |reference|
    ensures |kept| == |daily|
    ensures forall s :: 0 <= s < |daily| && reference[s].Some? ==> kept[s] == daily[s]
    ensures forall s :: 0 <= s < |daily| && reference[s].None? ==> kept[s].None?
  {
    seq(|daily|, s requires 0 <= s < |daily| => if reference[s].None? then None else daily[s])
  }

  /** `result` at one (test, platform, date): the rounded geometric mean of the daily values of referenced sites. */
  function ResultOf(daily: seq<Option<real>>, reference: seq<Option<real>>, gm: seq<real> -> real): (r: Option<real>)
    requires |daily| == |reference|
    ensures r.None? <==> forall s :: 0 <= s < |daily| ==> reference[s].None? || daily[s].None? || daily[s].value <= 0.0
    ensures r.Some? ==> RoundTo4Places(r.value) == r.value
  {
    var selection := ReferencedOnly(daily, reference);
    assert forall s :: 0 <= s < |daily| ==> selection[s] == if reference[s].None? then None else daily[s];
    var g := Geomean(selection, gm);
    if g.Some? then RoundTo4PlacesIdempotent(g.value); RoundOption(g) else RoundOption(g)
  }

  /** Changing the daily value of a site whose reference value is missing does not change `result`. */
  lemma ResultIgnoresUnreferencedSites(d1: seq<Option<real>>, d2: seq<Option<real>>, reference: seq<Option<real>>, gm: seq<real> -> real)
    requires |d1| == |reference| && |d2| == |reference|
    requires forall s :: 0 <= s < |reference| && reference[s].Some? ==> d1[s] == d2[s]
    ensures ResultOf(d1, reference, gm) == ResultOf(d2, reference, gm)
  {
    assert ReferencedOnly(d1, reference) == ReferencedOnly(d2, reference);
  }

  /** Site A (daily 2, reference 1) and site B (daily 4, no reference): only A's daily value reaches the geomean. */
  lemma ResultExample(gm: seq<real> -> real)
    ensures ResultOf([Some(2.0), Some(4.0)], [Some(1.0), None], gm) == Some(RoundTo4Places(gm([2.0])))
  {
    var masked := ReferencedOnly([Some(2.0), Some(4.0)], [Some(1.0), None]);
    assert masked == [Some(2.0), None];
    assert Selected(masked) == [2.0] by {
      assert masked[1..] == [None];
      assert Selected(masked[1..][1..]) == [];
    }
  }

  /** `sum(mask.map(m => m ? 1 : 0))`: the number of true entries. */
  function CountTrue(ms: seq<bool>): (c: nat)
    ensures c <= |ms|
    ensures c == 0 <==> forall s :: 0 <= s < |ms| ==> !ms[s]
    ensures c == |ms| <==> forall s :: 0 <= s < |ms| ==> ms[s]
  {
    if ms == [] then 0
    else CountTrue(ms[..|ms| - 1]) + (if ms[|ms| - 1] then 1 else 0)
  }

  function TrueSites(ms: seq<bool>): set<nat> {
    set s: nat | s < |ms| && ms[s]
  }

  /** The count is the number of sites whose mask is true. */
  lemma {:induction false} CountIsNumberOfTrueSites(ms: seq<bool>)
    ensures CountTrue(ms) == |TrueSites(ms)|
  {
    if ms == [] {
      assert TrueSites(ms) == {};
    } else {
      var n := |ms| - 1;
      var init := ms[..n];
      CountIsNumberOfTrueSites(init);
      assert n !in TrueSites(init);
      if ms[n] {
        assert TrueSites(ms) == TrueSites(init) + {n};
      } else {
        assert TrueSites(ms) == TrueSites(init);
      }
    }
  }

  /** `(m, r) => m ? r : null`: only masked sites keep their reference value. */
  function MaskedOnly(mask: seq<bool>, reference: seq<Option<real>>): (kept: seq<Option<real>>)
    requires |mask| == |reference|
    ensures |kept| == |mask|
    ensures forall s :: 0 <= s < |mask| && mask[s] ==> kept[s] == reference[s]
    ensures forall s :: 0 <= s < |mask| && !mask[s] ==> kept[s].None?
  {
    seq(|mask|, s requires 0 <= s < |mask| => if mask[s] then reference[s] else None)
  }

  /** `ref` at one (test, platform): the geometric mean of the reference values of masked sites. */
  function RefOf(mask: seq<bool>, reference: seq<Option<real>>, gm: seq<real> -> real): (r: Option<real>)
    requires |mask| == |reference|
    ensures r.None? <==> forall s :: 0 <= s < |mask| ==> !mask[s] || reference[s].None? || reference[s].value <= 0.0
  {
    var selection := MaskedOnly(mask, reference);
    assert forall s :: 0 <= s < |mask| ==> selection[s] == if mask[s] then reference[s] else None;
    Geomean(selection, gm)
  }

  /** `ref` is a function of the reference values of masked sites only. */
  lemma RefIgnoresUnmaskedSites(mask: seq<bool>, r1: seq<Option<real>>, r2: seq<Option<real>>, gm: seq<real> -> real)
    requires |r1| == |mask| && |r2| == |mask|
    requires forall s :: 0 <= s < |mask| && mask[s] ==> r1[s] == r2[s]
    ensures RefOf(mask, r1, gm) == RefOf(mask, r2, gm)
  {
    assert MaskedOnly(mask, r1) == MaskedOnly(mask, r2);
  }
}
