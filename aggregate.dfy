/**
 * `pullAggregate` after the fetch: time filter and flatten, partition into
 * the test x site x platform x pushDate cube, the `afterLastGoodDate`,
 * `daily`, `result`, `mask`, `count`, `total` and `ref` stages, and the
 * HyperCube bundling `result`, `ref`, `count` and `total`.
 */
module Aggregate {
  import opened Optional
  import opened Records
  import opened Series
  import opened SiteReduce

  /** The caller's edges: test, site and platform catalogs (set domains) and the time domain (the pushDate keys). */
  datatype Dims = Dims(tests: seq<Part>, sites: seq<Part>, platforms: seq<Part>, timeDomain: seq<Value>)

  /** A cube address: one position per edge, in edge-declaration order. */
  datatype Addr = Addr(test: nat, site: nat, platform: nat, pushDate: nat)

  /** The reference baseline cube, keyed by (test, platform, site) edge keys; a key it lacks is a missing value. */
  type Reference = map<(string, string, string), real>

  predicate InCube(a: Addr, dims: Dims) {
    a.test < |dims.tests| && a.site < |dims.sites| && a.platform < |dims.platforms| && a.pushDate < |dims.timeDomain|
  }

  /**
   * The cell a record belongs to: the first matching partition of each set
   * edge and the position of its `push_timestamp` in the time domain; a
   * record that some edge rejects belongs to no cell.
   */
  function Address(r: Record, dims: Dims): (a: Option<Addr>)
    ensures a.Some? ==> InCube(a.value, dims)
    ensures a.Some? ==>
      && Matches(dims.tests[a.value.test].where, r)
      && Matches(dims.sites[a.value.site].where, r)
      && Matches(dims.platforms[a.value.platform].where, r)
      && PushTimestamp in r && dims.timeDomain[a.value.pushDate] == r[PushTimestamp]
    ensures a.Some? ==>
      && (forall j :: 0 <= j < a.value.test ==> !Matches(dims.tests[j].where, r))
      && (forall j :: 0 <= j < a.value.site ==> !Matches(dims.sites[j].where, r))
      && (forall j :: 0 <= j < a.value.platform ==> !Matches(dims.platforms[j].where, r))
      && (forall j :: 0 <= j < a.value.pushDate ==> dims.timeDomain[j] != r[PushTimestamp])
    ensures a.None? <==>
      || (forall i :: 0 <= i < |dims.tests| ==> !Matches(dims.tests[i].where, r))
      || (forall i :: 0 <= i < |dims.sites| ==> !Matches(dims.sites[i].where, r))
      || (forall i :: 0 <= i < |dims.platforms| ==> !Matches(dims.platforms[i].where, r))
      || PushTimestamp !in r || r[PushTimestamp] !in dims.timeDomain
  {
    var t := PartIndex(dims.tests, r);
    var s := PartIndex(dims.sites, r);
    var p := PartIndex(dims.platforms, r);
    var d := DateIndex(dims.timeDomain, r);
    if t.Some? && s.Some? && p.Some? && d.Some? then Some(Addr(t.value, s.value, p.value, d.value)) else None
  }

  /** The records that enter the cube: rows in the time domain, flattened. */
  function Measure(rows: seq<RawRow>, timeDomain: seq<Value>): seq<Record> {
    FlattenAll(KeepInTimeDomain(rows, timeDomain))
  }

  /** The record group of one cell of `measured`, in input order. */
  function Cell(records: seq<Record>, dims: Dims, a: Addr): (cell: seq<Record>)
    ensures |cell| <= |records|
    ensures forall r :: r in cell <==> r in records && Address(r, dims) == Some(a)
    ensures |records| == 1 ==> cell == if Address(records[0], dims) == Some(a) then records else []
  {
    if records == [] then []
    else (if Address(records[0], dims) == Some(a) then [records[0]] else []) + Cell(records[1..], dims, a)
  }

  /** The cell of a concatenation concatenates the cells: input order and repeated records are kept. */
  lemma {:induction false} CellAppend(u: seq<Record>, v: seq<Record>, dims: Dims, a: Addr)
    ensures Cell(u + v, dims, a) == Cell(u, dims, a) + Cell(v, dims, a)
  {
    if u != [] {
      assert (u + v)[1..] == u[1..] + v;
      CellAppend(u[1..], v, dims, a);
    } else {
      assert u + v == v;
    }
  }

  /** The `measured` series of one (test, site, platform): one record group per date of the time domain. */
  function Measured(records: seq<Record>, dims: Dims, t: nat, s: nat, p: nat): (m: seq<seq<Record>>)
    requires t < |dims.tests| && s < |dims.sites| && p < |dims.platforms|
    ensures |m| == |dims.timeDomain|
    ensures forall d, r :: 0 <= d < |m| ==> (r in m[d] <==> r in records && Address(r, dims) == Some(Addr(t, s, p, d)))
  {
    seq(|dims.timeDomain|, d requires 0 <= d < |dims.timeDomain| => Cell(records, dims, Addr(t, s, p, d)))
  }

  /** The `daily` series of one (test, site, platform), with that series' own `afterLastGoodDate`. */
  function DailyAt(records: seq<Record>, dims: Dims, t: nat, s: nat, p: nat): (rows: seq<Option<real>>)
    requires t < |dims.tests| && s < |dims.sites| && p < |dims.platforms|
    ensures |rows| == |dims.timeDomain|
  {
    var m := Measured(records, dims, t, s, p);
    Daily(m, AfterLastGoodDate(m))
  }

  /** The `daily` cube at (test, site, platform, date) is fill-forward over that series' active region. */
  lemma DailyAtIsFillForward(records: seq<Record>, dims: Dims, a: Addr)
    requires InCube(a, dims)
    ensures DailyAt(records, dims, a.test, a.site, a.platform)[a.pushDate]
         == FillForward(Measured(records, dims, a.test, a.site, a.platform), a.pushDate)
  {
    DailyIsFillForward(Measured(records, dims, a.test, a.site, a.platform), a.pushDate);
  }

  /** The reference value of one (test, platform, site), if the reference cube has one. */
  function Baseline(reference: Reference, dims: Dims, t: nat, p: nat, s: nat): Option<real>
    requires t < |dims.tests| && p < |dims.platforms| && s < |dims.sites|
  {
    var key := (dims.tests[t].key, dims.platforms[p].key, dims.sites[s].key);
    if key in reference then Some(reference[key]) else None
  }

  function Baselines(reference: Reference, dims: Dims, t: nat, p: nat): seq<Option<real>>
    requires t < |dims.tests| && p < |dims.platforms|
  {
    seq(|dims.sites|, s requires 0 <= s < |dims.sites| => Baseline(reference, dims, t, p, s))
  }

  /** The `daily` values of every site at one (test, platform, date). */
  function SiteDaily(records: seq<Record>, dims: Dims, t: nat, p: nat, d: nat): seq<Option<real>>
    requires t < |dims.tests| && p < |dims.platforms| && d < |dims.timeDomain|
  {
    seq(|dims.sites|, s requires 0 <= s < |dims.sites| => DailyAt(records, dims, t, s, p)[d])
  }

  /** The `mask` of every site at one (test, platform). */
  function SiteMask(records: seq<Record>, dims: Dims, t: nat, p: nat): seq<bool>
    requires t < |dims.tests| && p < |dims.platforms|
  {
    seq(|dims.sites|, s requires 0 <= s < |dims.sites| => Mask(DailyAt(records, dims, t, s, p)))
  }

  lemma BaselinesAt(reference: Reference, dims: Dims, t: nat, p: nat)
    requires t < |dims.tests| && p < |dims.platforms|
    ensures var baselines := Baselines(reference, dims, t, p);
      |baselines| == |dims.sites| && forall s :: 0 <= s < |dims.sites| ==> baselines[s] == Baseline(reference, dims, t, p, s)
  {
  }

  lemma SiteDailyAt(records: seq<Record>, dims: Dims, t: nat, p: nat, d: nat)
    requires t < |dims.tests| && p < |dims.platforms| && d < |dims.timeDomain|
    ensures var daily := SiteDaily(records, dims, t, p, d);
      |daily| == |dims.sites| && forall s :: 0 <= s < |dims.sites| ==> daily[s] == DailyAt(records, dims, t, s, p)[d]
  {
  }

  lemma SiteMaskAt(records: seq<Record>, dims: Dims, t: nat, p: nat)
    requires t < |dims.tests| && p < |dims.platforms|
    ensures var mask := SiteMask(records, dims, t, p);
      |mask| == |dims.sites| && forall s :: 0 <= s < |dims.sites| ==> mask[s] == Mask(DailyAt(records, dims, t, s, p))
  {
  }

  /** `result` at (test, platform, date): absent iff no site with a reference value has a positive `daily` value that day. */
  function ResultAt(records: seq<Record>, dims: Dims, reference: Reference, gm: seq<real> -> real, t: nat, p: nat, d: nat): (r: Option<real>)
    requires t < |dims.tests| && p < |dims.platforms| && d < |dims.timeDomain|
    ensures r.None? <==> forall s :: 0 <= s < |dims.sites| ==>
      Baseline(reference, dims, t, p, s).None? || DailyAt(records, dims, t, s, p)[d].None? || DailyAt(records, dims, t, s, p)[d].value <= 0.0
    ensures r.Some? ==> OnGrid(r.value)
  {
    SiteDailyAt(records, dims, t, p, d);
    BaselinesAt(reference, dims, t, p);
    ResultOf(SiteDaily(records, dims, t, p, d), Baselines(reference, dims, t, p), gm)
  }

  /** `count` at (test, platform): how many sites have a true `mask`, at most the number of sites. */
  function CountAt(records: seq<Record>, dims: Dims, t: nat, p: nat): (c: nat)
    requires t < |dims.tests| && p < |dims.platforms|
    ensures c <= |dims.sites|
  {
    CountTrue(SiteMask(records, dims, t, p))
  }

  /** `ref` at (test, platform): absent iff no site with a true `mask` has a positive reference value. */
  function RefAt(records: seq<Record>, dims: Dims, reference: Reference, gm: seq<real> -> real, t: nat, p: nat): (r: Option<real>)
    requires t < |dims.tests| && p < |dims.platforms|
    ensures r.None? <==> forall s :: 0 <= s < |dims.sites| ==>
      !Mask(DailyAt(records, dims, t, s, p)) || Baseline(reference, dims, t, p, s).None? || Baseline(reference, dims, t, p, s).value <= 0.0
  {
    SiteMaskAt(records, dims, t, p);
    BaselinesAt(reference, dims, t, p);
    RefOf(SiteMask(records, dims, t, p), Baselines(reference, dims, t, p), gm)
  }

  /** `count` at (test, platform) is the number of sites whose `mask` is true, at most the catalog size. */
  lemma CountAtIsReportingSites(records: seq<Record>, dims: Dims, t: nat, p: nat)
    requires t < |dims.tests| && p < |dims.platforms|
    ensures CountAt(records, dims, t, p) == |set s: nat | s < |dims.sites| && Mask(DailyAt(records, dims, t, s, p))|
    ensures CountAt(records, dims, t, p) <= |dims.sites|
  {
    var ms := SiteMask(records, dims, t, p);
    CountIsNumberOfTrueSites(ms);
    var reporting := set s: nat | s < |dims.sites| && Mask(DailyAt(records, dims, t, s, p));
    forall s: nat ensures s in TrueSites(ms) <==> s in reporting {
      if s < |dims.sites| {
        assert ms[s] == Mask(DailyAt(records, dims, t, s, p));
      }
    }
    assert TrueSites(ms) == reporting;
  }

  /** The named result cubes: `result[t][p][d]`, `ref[t][p]`, `count[t][p]` and the zero-edge `total`. */
  datatype HyperCube = HyperCube(
    result: seq<seq<seq<Option<real>>>>,
    ref: seq<seq<Option<real>>>,
    count: seq<seq<nat>>,
    total: nat)

  /** Each cube has one cell per address of its edges: `result` over test x platform x pushDate, `ref` and `count` over test x platform. */
  predicate Shaped(h: HyperCube, dims: Dims) {
    && |h.result| == |dims.tests| && |h.ref| == |dims.tests| && |h.count| == |dims.tests|
    && (forall t :: 0 <= t < |dims.tests| ==>
      |h.result[t]| == |dims.platforms| && |h.ref[t]| == |dims.platforms| && |h.count[t]| == |dims.platforms|)
    && (forall t, p :: 0 <= t < |dims.tests| && 0 <= p < |dims.platforms| ==> |h.result[t][p]| == |dims.timeDomain|)
  }

  /** Each cell of a well-shaped HyperCube holds its stage's value over `records`, and `total` is the number of sites. */
  predicate Holds(h: HyperCube, records: seq<Record>, dims: Dims, reference: Reference, gm: seq<real> -> real)
    requires Shaped(h, dims)
  {
    && h.total == |dims.sites|
    && (forall t, p :: 0 <= t < |dims.tests| && 0 <= p < |dims.platforms| ==>
      && h.ref[t][p] == RefAt(records, dims, reference, gm, t, p)
      && h.count[t][p] == CountAt(records, dims, t, p))
    && (forall t, p, d :: 0 <= t < |dims.tests| && 0 <= p < |dims.platforms| && 0 <= d < |dims.timeDomain| ==>
      h.result[t][p][d] == ResultAt(records, dims, reference, gm, t, p, d))
  }

  function Cubes(records: seq<Record>, dims: Dims, reference: Reference, gm: seq<real> -> real): HyperCube {
    var nt, np, nd := |dims.tests|, |dims.platforms|, |dims.timeDomain|;
    HyperCube(
      seq(nt, t requires 0 <= t < nt => seq(np, p requires 0 <= p < np => seq(nd, d requires 0 <= d < nd =>
        ResultAt(records, dims, reference, gm, t, p, d)))),
      seq(nt, t requires 0 <= t < nt => seq(np, p requires 0 <= p < np => RefAt(records, dims, reference, gm, t, p))),
      seq(nt, t requires 0 <= t < nt => seq(np, p requires 0 <= p < np => CountAt(records, dims, t, p))),
      |dims.sites|)
  }

  /**
   * Everything after the fetch: time filter, flatten, partition and the
   * seven stages. Every cube has a cell at each address of its edges,
   * holding that stage's value over the records that pass the time filter.
   */
  function ProcessData(rows: seq<RawRow>, dims: Dims, reference: Reference, gm: seq<real> -> real): (h: HyperCube)
    ensures Shaped(h, dims)
    ensures Holds(h, Measure(rows, dims.timeDomain), dims, reference, gm)
  {
    Cubes(Measure(rows, dims.timeDomain), dims, reference, gm)
  }

  /**
   * `pullAggregate` on the fetched sources: every cube has a cell at every
   * address of its edges, and `count` never exceeds `total`, the size of the
   * site catalog.
   */
  function PullAggregate(sources: seq<Source>, dims: Dims, reference: Reference, gm: seq<real> -> real): (h: HyperCube)
    ensures Shaped(h, dims)
    ensures Holds(h, Measure(AllRows(sources), dims.timeDomain), dims, reference, gm)
    ensures h.total == |dims.sites|
    ensures forall t, p :: 0 <= t < |dims.tests| && 0 <= p < |dims.platforms| ==> h.count[t][p] <= h.total
  {
    ProcessData(AllRows(sources), dims, reference, gm)
  }

  /** A row whose `push_timestamp` is outside the time domain contributes to no cube: removing it changes nothing. */
  lemma OutOfDomainRowIgnored(before: seq<RawRow>, x: RawRow, after: seq<RawRow>, dims: Dims, reference: Reference, gm: seq<real> -> real)
    requires !InTimeDomain(x, dims.timeDomain)
    ensures ProcessData(before + [x] + after, dims, reference, gm) == ProcessData(before + after, dims, reference, gm)
  {
    OutOfDomainRowDropped(before, x, after, dims.timeDomain);
  }

  /** The records that enter the cube are the same with or without a row outside the time domain. */
  lemma OutOfDomainRowDropped(before: seq<RawRow>, x: RawRow, after: seq<RawRow>, timeDomain: seq<Value>)
    requires !InTimeDomain(x, timeDomain)
    ensures Measure(before + [x] + after, timeDomain) == Measure(before + after, timeDomain)
  {
    KeepInTimeDomainAppend(before + [x], after, timeDomain);
    KeepInTimeDomainAppend(before, [x], timeDomain);
    KeepInTimeDomainAppend(before, after, timeDomain);
    assert KeepInTimeDomain([x], timeDomain) == [];
    assert KeepInTimeDomain(before + [x] + after, timeDomain) == KeepInTimeDomain(before + after, timeDomain);
  }
}
