/**
 * Raw performance records as the record source delivers them, the time
 * filter and metadata flatten applied to them before partitioning, and the
 * categorical partitions (test, site, platform) that records are bucketed
 * into.
 */
module Records {
  import opened Optional

  /** A field value of a record; the pipeline only compares and averages them. */
  datatype Value = Num(n: real) | Text(s: string)

  /** A flattened record: field name to value. */
  type Record = map<string, Value>

  /** A row as fetched: its top-level fields and its `meta` bag (empty when it has none). */
  datatype RawRow = RawRow(fields: map<string, Value>, meta: map<string, Value>)

  /** One fetched series; its `data` holds the rows. */
  datatype Source = Source(data: seq<RawRow>)

  const PushTimestamp: string := "push_timestamp"
  const ValueField: string := "value"

  /** `select('data').flatten()`: the rows of all sources, in order. */
  function AllRows(sources: seq<Source>): (rows: seq<RawRow>)
    ensures forall i, x :: 0 <= i < |sources| && x in sources[i].data ==> x in rows
    ensures forall x :: x in rows ==> exists i :: 0 <= i < |sources| && x in sources[i].data
    ensures |sources| == 1 ==> rows == sources[0].data
  {
    if sources == [] then []
    else
      var rest := AllRows(sources[1..]);
      assert forall x :: x in rest ==> exists i :: 1 <= i < |sources| && x in sources[i].data by {
        forall x | x in rest ensures exists i :: 1 <= i < |sources| && x in sources[i].data {
          var j :| 0 <= j < |sources[1..]| && x in sources[1..][j].data;
          assert x in sources[j + 1].data;
        }
      }
      sources[0].data + rest
  }

  /** Flattening a concatenation of sources concatenates their rows: every row is kept, in order, duplicates included. */
  lemma {:induction false} AllRowsAppend(u: seq<Source>, v: seq<Source>)
    ensures AllRows(u + v) == AllRows(u) + AllRows(v)
  {
    if u != [] {
      assert (u + v)[1..] == u[1..] + v;
      AllRowsAppend(u[1..], v);
    } else {
      assert u + v == v;
    }
  }

  /** The time filter: a row is kept iff its top-level `push_timestamp` is a date of the time domain. */
  predicate InTimeDomain(row: RawRow, timeDomain: seq<Value>) {
    PushTimestamp in row.fields && row.fields[PushTimestamp] in timeDomain
  }

  function KeepInTimeDomain(rows: seq<RawRow>, timeDomain: seq<Value>): (kept: seq<RawRow>)
    ensures |kept| <= |rows|
    ensures forall x :: x in kept <==> x in rows && InTimeDomain(x, timeDomain)
  {
    if rows == [] then []
    else (if InTimeDomain(rows[0], timeDomain) then [rows[0]] else []) + KeepInTimeDomain(rows[1..], timeDomain)
  }

  /** Filtering a concatenation filters each part; the basis for "a dropped row reaches no cell". */
  lemma {:induction false} KeepInTimeDomainAppend(u: seq<RawRow>, v: seq<RawRow>, timeDomain: seq<Value>)
    ensures KeepInTimeDomain(u + v, timeDomain) == KeepInTimeDomain(u, timeDomain) + KeepInTimeDomain(v, timeDomain)
  {
    if u != [] {
      assert (u + v)[1..] == u[1..] + v;
      KeepInTimeDomainAppend(u[1..], v, timeDomain);
    } else {
      assert u + v == v;
    }
  }

  /** `{ ...row, ...row.meta }`: every top-level field survives unless the meta bag has the same name. */
  function Flatten(row: RawRow): (r: Record)
    ensures r.Keys == row.fields.Keys + row.meta.Keys
    ensures forall k :: k in row.meta ==> r[k] == row.meta[k]
    ensures forall k :: k in row.fields && k !in row.meta ==> r[k] == row.fields[k]
  {
    row.fields + row.meta
  }

  function FlattenAll(rows: seq<RawRow>): seq<Record> {
    seq(|rows|, i requires 0 <= i < |rows| => Flatten(rows[i]))
  }

  /** The boolean filter expressions that select a partition's records (a closed subset of the expression language). */
  datatype Filter =
    | Eq(field: string, values: seq<Value>)
    | And(left: Filter, right: Filter)
    | Or(left: Filter, right: Filter)

  predicate Matches(f: Filter, r: Record) {
    match f
    case Eq(k, vs) => k in r && r[k] in vs
    case And(a, b) => Matches(a, r) && Matches(b, r)
    case Or(a, b) => Matches(a, r) || Matches(b, r)
  }

  /** One partition of a `set` domain: the edge key it stands for and its `where` filter. */
  datatype Part = Part(key: string, where: Filter)

  /** The partition a record belongs to: the first one, in declaration order, whose filter matches. */
  function PartIndex(parts: seq<Part>, r: Record): (i: Option<nat>)
    ensures i.Some? ==> i.value < |parts| && Matches(parts[i.value].where, r)
    ensures i.Some? ==> forall j :: 0 <= j < i.value ==> !Matches(parts[j].where, r)
    ensures i.None? <==> forall j :: 0 <= j < |parts| ==> !Matches(parts[j].where, r)
  {
    if parts == [] then None
    else if Matches(parts[0].where, r) then Some(0)
    else match PartIndex(parts[1..], r)
      case None => None
      case Some(k) => Some(k + 1)
  }

  /** The position of a record's `push_timestamp` in the time domain (the first one if it repeats). */
  function DateIndex(timeDomain: seq<Value>, r: Record): (i: Option<nat>)
    ensures i.Some? ==> i.value < |timeDomain| && PushTimestamp in r && timeDomain[i.value] == r[PushTimestamp]
    ensures i.Some? ==> forall j :: 0 <= j < i.value ==> timeDomain[j] != r[PushTimestamp]
    ensures i.None? <==> PushTimestamp !in r || r[PushTimestamp] !in timeDomain
  {
    if timeDomain == [] || PushTimestamp !in r then None
    else if timeDomain[0] == r[PushTimestamp] then Some(0)
    else match DateIndex(timeDomain[1..], r)
      case None => None
      case Some(k) => Some(k + 1)
  }

  predicate HasValue(r: Record) {
    ValueField in r && r[ValueField].Num?
  }

  /** `select('value')` over a cell: the numeric values of its records, in order; records without one are skipped. */
  function RecordValues(cell: seq<Record>): (vs: seq<real>)
    ensures |vs| <= |cell|
    ensures forall v :: v in vs ==> exists r: Record :: r in cell && HasValue(r) && r[ValueField].n == v
    ensures (forall r :: r in cell ==> HasValue(r)) ==> |vs| == |cell|
    ensures |cell| == 1 ==> vs == if HasValue(cell[0]) then [cell[0][ValueField].n] else []
  {
    if cell == [] then []
    else (if HasValue(cell[0]) then [cell[0][ValueField].n] else []) + RecordValues(cell[1..])
  }

  /** Selecting from a concatenation concatenates the selections: one value per record that has one, in order, duplicates included. */
  lemma {:induction false} RecordValuesAppend(u: seq<Record>, v: seq<Record>)
    ensures RecordValues(u + v) == RecordValues(u) + RecordValues(v)
  {
    if u != [] {
      assert (u + v)[1..] == u[1..] + v;
      RecordValuesAppend(u[1..], v);
    } else {
      assert u + v == v;
    }
  }
}
