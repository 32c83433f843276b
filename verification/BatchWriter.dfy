/** The two GeoParquet writers: row by row, and re-chunked from Arrow batches.

    Both writers are proved against the same specification, `Written` and
    `Summarize`, on the concatenated rows.  So the batch writer emits the same
    chunks, geometry types and bounds as the row writer for every way of
    splitting the rows into batches, on the fast path and off it.
 */
module BatchWriter {
  import opened Wrappers
  import opened Schema
  import opened ListColumns

  /* ----------------------------------------------------------------- doubles */

  /** A double, with the two zeros apart and not-a-number. */
  datatype Float = NegativeInfinity | Finite(value: real) | NegativeZero | PositiveInfinity | NotANumber

  /** The comparison `a < b`: the zeros are equal, and nothing holds of not-a-number. */
  predicate Lt(a: Float, b: Float)
  {
    if a.NotANumber? || b.NotANumber? then false
    else if a.NegativeInfinity? then !b.NegativeInfinity?
    else if b.PositiveInfinity? then !a.PositiveInfinity?
    else if a.PositiveInfinity? || b.NegativeInfinity? then false
    else Value(a) < Value(b)
  }

  function Value(a: Float): real
    requires a.Finite? || a.NegativeZero?
  {
    if a.Finite? then a.value else 0.0
  }

  predicate IsZero(a: Float)
  {
    a.NegativeZero? || a == Finite(0.0)
  }

  /** Python's `min` and `max` keep the first of two equal arguments. */
  function Pick(pickMin: bool, a: Float, b: Float): Float
  {
    if (if pickMin then Lt(b, a) else Lt(a, b)) then b else a
  }

  /** `min` or `max` over a list, from left to right, starting with `first`. */
  function Extreme(pickMin: bool, first: Float, values: seq<Float>): Float
    decreases |values|
  {
    if values == [] then first else Extreme(pickMin, Pick(pickMin, first, values[0]), values[1..])
  }

  lemma PickAssociative(pickMin: bool, a: Float, b: Float, c: Float)
    requires !b.NotANumber? && !c.NotANumber?
    ensures Pick(pickMin, Pick(pickMin, a, b), c) == Pick(pickMin, a, Pick(pickMin, b, c))
  {
  }

  /** Folding a list into an accumulator is picking between the accumulator and the list's extreme. */
  lemma {:induction false} ExtremeFolds(pickMin: bool, acc: Float, first: Float, values: seq<Float>)
    requires !first.NotANumber? && forall v :: v in values ==> !v.NotANumber?
    ensures Extreme(pickMin, Pick(pickMin, acc, first), values) == Pick(pickMin, acc, Extreme(pickMin, first, values))
    decreases |values|
  {
    if values != [] {
      assert values[0] in values;
      PickAssociative(pickMin, acc, first, values[0]);
      ExtremeFolds(pickMin, acc, Pick(pickMin, first, values[0]), values[1..]);
    }
  }

  /** `v` is at the wanted end of the values; equal zeros may both be. */
  predicate AtEnd(pickMin: bool, v: Float, values: seq<Float>)
  {
    v in values && forall w | w in values :: if pickMin then !Lt(w, v) else !Lt(v, w)
  }

  lemma {:induction false} ExtremeIsAtEnd(pickMin: bool, first: Float, values: seq<Float>)
    requires !first.NotANumber? && forall v :: v in values ==> !v.NotANumber?
    ensures AtEnd(pickMin, Extreme(pickMin, first, values), [first] + values)
    decreases |values|
  {
    if values != [] {
      var picked := Pick(pickMin, first, values[0]);
      assert values[0] in values;
      ExtremeIsAtEnd(pickMin, picked, values[1..]);
      var extreme := Extreme(pickMin, first, values);
      assert picked in [picked] + values[1..];
      forall w | w in [first] + values
        ensures if pickMin then !Lt(w, extreme) else !Lt(extreme, w)
      {
        if w != first && w != values[0] {
          assert w in values[1..];
          assert w in [picked] + values[1..];
        }
      }
    } else {
      assert [first] + values == [first];
    }
  }

  predicate Better(pickMin: bool, a: Float, b: Float)
  {
    if pickMin then Lt(a, b) else Lt(b, a)
  }

  /** `v` stands at `i`, everything before it is worse, and nothing at all is better. */
  ghost predicate FirstBestAt(pickMin: bool, v: Float, values: seq<Float>, i: nat)
  {
    && i < |values| && values[i] == v
    && (forall j :: 0 <= j < i ==> Better(pickMin, v, values[j]))
    && (forall j :: 0 <= j < |values| ==> !Better(pickMin, values[j], v))
  }

  lemma {:induction false} ExtremeOfLonger(pickMin: bool, first: Float, values: seq<Float>, last: Float)
    ensures Extreme(pickMin, first, values + [last]) == Pick(pickMin, Extreme(pickMin, first, values), last)
    decreases |values|
  {
    if values == [] {
      assert [last][1..] == [];
      assert values + [last] == [last];
    } else {
      ExtremeOfLonger(pickMin, Pick(pickMin, first, values[0]), values[1..], last);
      assert (values + [last])[1..] == values[1..] + [last];
    }
  }

  lemma BetterThanBest(pickMin: bool, a: Float, best: Float, b: Float)
    requires !b.NotANumber? && Better(pickMin, a, best) && !Better(pickMin, b, best)
    ensures Better(pickMin, a, b)
  {
  }

  /** The extreme is the first of the best values, so of two zeros the one that comes first. */
  lemma {:induction false} ExtremeIsFirstBest(pickMin: bool, values: seq<Float>) returns (i: nat)
    requires values != [] && forall v :: v in values ==> !v.NotANumber?
    ensures FirstBestAt(pickMin, Extreme(pickMin, values[0], values[1..]), values, i)
    decreases |values|
  {
    var n := |values| - 1;
    var before, last := values[..n], values[n];
    if n == 0 {
      i := 0;
    } else {
      var best := Extreme(pickMin, before[0], before[1..]);
      i := ExtremeIsFirstBest(pickMin, before);
      ExtremeOfLonger(pickMin, values[0], before[1..], last);
      assert values[1..] == before[1..] + [last];
      if Better(pickMin, last, best) {
        forall j | 0 <= j < n
          ensures Better(pickMin, last, values[j])
        {
          assert before[j] in values;
          BetterThanBest(pickMin, last, best, before[j]);
        }
        i := n;
      }
    }
  }

  /** Away from zero the end of a column is one value, whichever way it is found. */
  lemma EndIsUnique(pickMin: bool, a: Float, b: Float, values: seq<Float>)
    requires AtEnd(pickMin, a, values) && AtEnd(pickMin, b, values)
    requires forall v :: v in values ==> !v.NotANumber?
    ensures IsZero(a) == IsZero(b)
    ensures !IsZero(a) ==> a == b
  {
  }

  /** The extreme of a column, first by any vectorised search and, when that is a zero, the way Python does it. */
  method ColumnExtreme(values: seq<Float>, pickMin: bool) returns (extreme: Float)
    requires values != [] && PlainColumn(values)
    ensures extreme == Extreme(pickMin, values[0], values[1..])
  {
    ghost var expected := Extreme(pickMin, values[0], values[1..]);
    assert [values[0]] + values[1..] == values;
    ExtremeIsAtEnd(pickMin, values[0], values[1..]);
    var found :| found in values && AtEnd(pickMin, found, values);
    EndIsUnique(pickMin, found, expected, values);
    if IsZero(found) {
      extreme := values[0];
      for i := 1 to |values|
        invariant Extreme(pickMin, extreme, values[i..]) == expected
      {
        extreme := Pick(pickMin, extreme, values[i]);
        assert values[i..][1..] == values[i + 1..];
      }
      assert values[|values|..] == [];
    } else {
      extreme := found;
    }
  }

  /* ------------------------------------------------------------------- rows */

  datatype Bounds = Bounds(minX: Float, minY: Float, maxX: Float, maxY: Float)

  /** A row as `to_pylist` gives it; `rest` stands for the columns that are carried over unread. */
  datatype RawRow = RawRow(
    geometryType: Option<string>, bounds: Bounds,
    names: Option<seq<RawPair>>, descriptions: Option<seq<RawPair>>, tags: Option<seq<RawPair>>, rest: string)

  /** A row in the storage schema. */
  datatype Record = Record(
    geometryType: Option<string>, bounds: Bounds,
    names: seq<Pair>, descriptions: seq<Pair>, tags: seq<Pair>, rest: string)

  function ArrowRecord(row: RawRow): Record
  {
    Record(row.geometryType, row.bounds,
           MappingToPairs(row.names), MappingToPairs(row.descriptions), MappingToPairs(row.tags), row.rest)
  }

  function ArrowRecords(rows: seq<RawRow>): (records: seq<Record>)
    ensures |records| == |rows|
  {
    seq(|rows|, i requires 0 <= i < |rows| => ArrowRecord(rows[i]))
  }

  /** `str(...)` of a nullable text. */
  function Str(value: Option<string>): string
  {
    if value.None? then "None" else value.value
  }

  function MergeBounds(current: Option<Bounds>, update: Bounds): Bounds
  {
    match current
    case None => update
    case Some(c) =>
      Bounds(Pick(true, c.minX, update.minX), Pick(true, c.minY, update.minY),
             Pick(false, c.maxX, update.maxX), Pick(false, c.maxY, update.maxY))
  }

  datatype Summary = Summary(rowCount: nat, geometryTypes: set<string>, bounds: Option<Bounds>)

  /** The summary after one more row. */
  function Counted(summary: Summary, row: RawRow): Summary
  {
    Summary(summary.rowCount + 1,
            summary.geometryTypes + {Str(row.geometryType)},
            Some(MergeBounds(summary.bounds, row.bounds)))
  }

  function SummarizeFrom(summary: Summary, rows: seq<RawRow>): Summary
    decreases |rows|
  {
    if rows == [] then summary else SummarizeFrom(Counted(summary, rows[0]), rows[1..])
  }

  const NOTHING := Summary(0, {}, None)

  function Summarize(rows: seq<RawRow>): Summary
  {
    SummarizeFrom(NOTHING, rows)
  }

  lemma {:induction false} SummarizeConcat(summary: Summary, a: seq<RawRow>, b: seq<RawRow>)
    ensures SummarizeFrom(summary, a + b) == SummarizeFrom(SummarizeFrom(summary, a), b)
    decreases |a|
  {
    if a == [] {
      assert a + b == b;
    } else {
      SummarizeConcat(Counted(summary, a[0]), a[1..], b);
      assert (a + b)[1..] == a[1..] + b;
    }
  }

  lemma SummarizeOne(summary: Summary, row: RawRow)
    ensures SummarizeFrom(summary, [row]) == Counted(summary, row)
  {
    assert [row][1..] == [];
  }

  lemma {:induction false} SummaryCounts(summary: Summary, rows: seq<RawRow>)
    ensures SummarizeFrom(summary, rows).rowCount == summary.rowCount + |rows|
    decreases |rows|
  {
    if rows != [] {
      SummaryCounts(Counted(summary, rows[0]), rows[1..]);
    }
  }

  /* ----------------------------------------------------------------- chunks */

  /** Full chunks of `size` rows, then what is left. */
  function ChunksOf<T>(rows: seq<T>, size: nat): seq<seq<T>>
    requires size > 0
  {
    if |rows| < size then [] else [rows[..size]] + ChunksOf(rows[size..], size)
  }

  function RestOf<T>(rows: seq<T>, size: nat): (rest: seq<T>)
    requires size > 0
    ensures |rest| < size
  {
    if |rows| < size then rows else RestOf(rows[size..], size)
  }

  /** The chunks of a finished file: one empty chunk when there are no rows at all. */
  function Written<T>(rows: seq<T>, size: nat): seq<seq<T>>
    requires size > 0
  {
    if rows == [] then [[]]
    else ChunksOf(rows, size) + if RestOf(rows, size) == [] then [] else [RestOf(rows, size)]
  }

  function Joined<T>(chunks: seq<seq<T>>): seq<T>
  {
    if chunks == [] then [] else chunks[0] + Joined(chunks[1..])
  }

  lemma {:induction false} FullChunksMeaning<T>(rows: seq<T>, size: nat)
    requires size > 0
    ensures forall chunk :: chunk in ChunksOf(rows, size) ==> |chunk| == size
    ensures Joined(ChunksOf(rows, size)) + RestOf(rows, size) == rows
    decreases |rows|
  {
    if |rows| >= size {
      FullChunksMeaning(rows[size..], size);
      var rest := ChunksOf(rows[size..], size);
      assert ([rows[..size]] + rest)[1..] == rest;
      assert rows == rows[..size] + (Joined(rest) + RestOf(rows[size..], size));
    }
  }

  /** Chunking the rows so far and then the rest is chunking everything. */
  lemma {:induction false} ChunksConcat<T>(a: seq<T>, b: seq<T>, size: nat)
    requires size > 0
    ensures ChunksOf(a + b, size) == ChunksOf(a, size) + ChunksOf(RestOf(a, size) + b, size)
    ensures RestOf(a + b, size) == RestOf(RestOf(a, size) + b, size)
    decreases |a|
  {
    if |a| >= size {
      ChunksConcat(a[size..], b, size);
      assert (a + b)[..size] == a[..size];
      assert (a + b)[size..] == a[size..] + b;
      assert ChunksOf(a, size) == [a[..size]] + ChunksOf(a[size..], size);
    }
  }

  /** The chunks hold all rows in order; all but the last are full, and none is empty unless there are no rows. */
  lemma WrittenMeaning<T>(rows: seq<T>, size: nat)
    requires size > 0
    ensures var chunks := Written(rows, size);
            && Joined(chunks) == rows
            && |chunks| >= 1
            && (forall i :: 0 <= i < |chunks| - 1 ==> |chunks[i]| == size)
            && (if rows == [] then chunks == [[]] else 1 <= |chunks[|chunks| - 1]| <= size)
  {
    var full, rest := ChunksOf(rows, size), RestOf(rows, size);
    FullChunksMeaning(rows, size);
    if rows == [] {
      assert Joined([rows]) == rows + Joined([rows][1..]);
    } else {
      JoinedConcat(full, if rest == [] then [] else [rest]);
      if rest != [] {
        assert Joined([rest]) == rest + Joined([rest][1..]);
      }
      forall i | 0 <= i < |full|
        ensures |full[i]| == size
      {
        assert full[i] in full;
      }
      if full == [] {
        assert Joined(full) == [];
      }
    }
  }

  lemma {:induction false} JoinedConcat<T>(a: seq<seq<T>>, b: seq<seq<T>>)
    ensures Joined(a + b) == Joined(a) + Joined(b)
  {
    if a == [] {
      assert a + b == b;
    } else {
      JoinedConcat(a[1..], b);
      assert (a + b)[1..] == a[1..] + b;
      calc {
        Joined(a + b);
        a[0] + Joined(a[1..] + b);
        a[0] + (Joined(a[1..]) + Joined(b));
        { ConcatIsAssociative(a[0], Joined(a[1..]), Joined(b)); }
        (a[0] + Joined(a[1..])) + Joined(b);
        Joined(a) + Joined(b);
      }
    }
  }

  lemma ConcatIsAssociative<T>(a: seq<T>, b: seq<T>, c: seq<T>)
    ensures a + (b + c) == (a + b) + c
  {
  }

  /* --------------------------------------------------------- the row writer */

  /** Stream the rows one by one into chunks of `batchSize`. */
  method StreamRecords(records: seq<RawRow>, batchSize: nat) returns (written: seq<seq<Record>>, summary: Summary)
    requires batchSize > 0
    ensures written == Written(ArrowRecords(records), batchSize)
    ensures summary == Summarize(records)
  {
    var batch: seq<Record> := [];
    written, summary := [], NOTHING;
    for i := 0 to |records|
      invariant written == ChunksOf(ArrowRecords(records[..i]), batchSize)
      invariant batch == RestOf(ArrowRecords(records[..i]), batchSize)
      invariant summary == Summarize(records[..i])
    {
      assert records[..i + 1] == records[..i] + [records[i]];
      assert ArrowRecords(records[..i + 1]) == ArrowRecords(records[..i]) + [ArrowRecord(records[i])];
      ChunksConcat(ArrowRecords(records[..i]), [ArrowRecord(records[i])], batchSize);
      SummarizeConcat(NOTHING, records[..i], [records[i]]);
      SummarizeOne(summary, records[i]);
      batch := batch + [ArrowRecord(records[i])];
      summary := Counted(summary, records[i]);
      assert ChunksOf(batch, batchSize)
          == if |batch| < batchSize then [] else [batch[..batchSize]] + ChunksOf(batch[batchSize..], batchSize);
      if |batch| >= batchSize {
        assert batch[..batchSize] == batch && batch[batchSize..] == [];
        written := written + [batch];
        batch := [];
      }
    }
    assert records[..|records|] == records;
    SummaryCounts(NOTHING, records);
    if batch != [] {
      written := written + [batch];
    }
    if summary.rowCount == 0 {
      written := written + [[]];
    }
  }

  /* ---------------------------------------------------------- Arrow batches */

  datatype Side = MinX | MinY | MaxX | MaxY

  function IsMin(side: Side): bool
  {
    side.MinX? || side.MinY?
  }

  function BoundAt(bounds: Bounds, side: Side): Float
  {
    match side
    case MinX => bounds.minX
    case MinY => bounds.minY
    case MaxX => bounds.maxX
    case MaxY => bounds.maxY
  }

  /** No value of the column is not-a-number. */
  predicate PlainColumn(values: seq<Float>)
  {
    forall v | v in values :: !v.NotANumber?
  }

  /** One record batch, column by column.  `schemaNames` says that its columns are those of the
      schema, `doubles` that the bounding-box columns are float64, and `castable` that Arrow can
      cast every column to its storage type. */
  datatype RawBatch = RawBatch(
    geometryTypes: seq<Option<string>>, minX: seq<Float>, minY: seq<Float>, maxX: seq<Float>, maxY: seq<Float>,
    names: ListColumn, descriptions: ListColumn, tags: ListColumn, rest: seq<string>,
    schemaNames: bool, doubles: bool, castable: bool)
  {
    function Column(side: Side): seq<Float>
    {
      match side
      case MinX => minX
      case MinY => minY
      case MaxX => maxX
      case MaxY => maxY
    }

    /** What Arrow guarantees: all columns have one length. */
    ghost predicate WellFormed()
    {
      && (forall side: Side :: |Column(side)| == |rest|)
      && |geometryTypes| == |rest|
      && names.WellFormed() && |names.valid| == |rest|
      && descriptions.WellFormed() && |descriptions.valid| == |rest|
      && tags.WellFormed() && |tags.valid| == |rest|
    }

    function Row(i: nat): RawRow
      requires WellFormed() && i < |rest|
    {
      assert |Column(MinX)| == |Column(MinY)| == |Column(MaxX)| == |Column(MaxY)| == |rest|;
      RawRow(geometryTypes[i], Bounds(minX[i], minY[i], maxX[i], maxY[i]),
             names.At(i), descriptions.At(i), tags.At(i), rest[i])
    }

    /** `to_pylist()` */
    function Rows(): (rows: seq<RawRow>)
      requires WellFormed()
      ensures |rows| == |rest|
    {
      seq(|rest|, i requires 0 <= i < |rest| => Row(i))
    }

    ghost predicate Exact()
      requires WellFormed()
    {
      && schemaNames && doubles
      && (forall i :: 0 <= i < |rest| ==> geometryTypes[i].Some?)
      && names.Canonical() && descriptions.Canonical() && tags.Canonical()
      && PlainColumn(minX) && PlainColumn(minY) && PlainColumn(maxX) && PlainColumn(maxY)
    }
  }

  /** The batch with its lists read as they are, which the cast does. */
  function CastRow(row: RawRow): Record
    requires row.names.Some? && NoNulls(row.names.value)
    requires row.descriptions.Some? && NoNulls(row.descriptions.value)
    requires row.tags.Some? && NoNulls(row.tags.value)
  {
    Record(row.geometryType, row.bounds,
           Plain(row.names.value), Plain(row.descriptions.value), Plain(row.tags.value), row.rest)
  }

  ghost predicate CanonicalRow(row: RawRow)
  {
    && row.names.Some? && CanonicalEntries(row.names.value)
    && row.descriptions.Some? && CanonicalEntries(row.descriptions.value)
    && row.tags.Some? && CanonicalEntries(row.tags.value)
  }

  /** On exact batches the cast is the row-wise conversion. */
  lemma CastIsArrowRecord(row: RawRow)
    requires CanonicalRow(row)
    ensures CastRow(row) == ArrowRecord(row)
  {
    CanonicalExactlyWhenUnchanged(row.names.value);
    CanonicalExactlyWhenUnchanged(row.descriptions.value);
    CanonicalExactlyWhenUnchanged(row.tags.value);
  }

  lemma ExactRowsAreCanonical(raw: RawBatch)
    requires raw.WellFormed() && raw.Exact()
    ensures forall i :: 0 <= i < |raw.rest| ==> CanonicalRow(raw.Rows()[i]) && raw.Rows()[i].geometryType.Some?
  {
  }

  method FastBatchIsExact(raw: RawBatch) returns (exact: bool)
    requires raw.WellFormed()
    ensures exact <==> raw.Exact()
  {
    if !raw.schemaNames || !raw.doubles || exists i :: 0 <= i < |raw.geometryTypes| && raw.geometryTypes[i].None? {
      return false;
    }
    var names := PairsAreCanonical(raw.names);
    var descriptions := PairsAreCanonical(raw.descriptions);
    var tags := PairsAreCanonical(raw.tags);
    if !names || !descriptions || !tags {
      return false;
    }
    return PlainColumn(raw.minX) && PlainColumn(raw.minY) && PlainColumn(raw.maxX) && PlainColumn(raw.maxY);
  }

  /** The batch cast to the storage schema, when that equals the row-wise conversion. */
  method FastBatch(raw: RawBatch) returns (batch: Option<seq<Record>>)
    requires raw.WellFormed()
    ensures batch.Some? <==> raw.Exact() && raw.castable
    ensures batch.Some? ==> batch.value == ArrowRecords(raw.Rows())
  {
    var exact := FastBatchIsExact(raw);
    if !exact || !raw.castable {
      return None;
    }
    ExactRowsAreCanonical(raw);
    var rows := raw.Rows();
    forall i | 0 <= i < |rows|
      ensures CastRow(rows[i]) == ArrowRecord(rows[i])
    {
      CastIsArrowRecord(rows[i]);
    }
    return Some(seq(|rows|, i requires 0 <= i < |rows| => CastRow(rows[i])));
  }

  /* the summary of a batch, column by column */

  function SideOf(rows: seq<RawRow>, side: Side): seq<Float>
  {
    seq(|rows|, i requires 0 <= i < |rows| => BoundAt(rows[i].bounds, side))
  }

  /** The row-by-row fold of bounds folds each column on its own. */
  lemma {:induction false} BoundsFoldByColumn(summary: Summary, rows: seq<RawRow>, side: Side)
    requires summary.bounds.Some?
    ensures SummarizeFrom(summary, rows).bounds.Some?
    ensures BoundAt(SummarizeFrom(summary, rows).bounds.value, side)
         == Extreme(IsMin(side), BoundAt(summary.bounds.value, side), SideOf(rows, side))
    decreases |rows|
  {
    if rows != [] {
      BoundsFoldByColumn(Counted(summary, rows[0]), rows[1..], side);
      assert SideOf(rows, side)[1..] == SideOf(rows[1..], side);
    }
  }

  /** Merging the column extremes of a batch into the bounds is merging its rows one by one. */
  lemma BatchBoundsMerge(summary: Summary, rows: seq<RawRow>, extremes: Bounds, side: Side)
    requires rows != [] && PlainColumn(SideOf(rows, side))
    requires BoundAt(extremes, side) == Extreme(IsMin(side), SideOf(rows, side)[0], SideOf(rows, side)[1..])
    ensures SummarizeFrom(summary, rows).bounds.Some?
    ensures BoundAt(MergeBounds(summary.bounds, extremes), side)
         == BoundAt(SummarizeFrom(summary, rows).bounds.value, side)
  {
    var column := SideOf(rows, side);
    assert column[0] in column;
    assert forall v :: v in column[1..] ==> v in column;
    BoundsFoldByColumn(Counted(summary, rows[0]), rows[1..], side);
    assert column[1..] == SideOf(rows[1..], side);
    if summary.bounds.Some? {
      ExtremeFolds(IsMin(side), BoundAt(summary.bounds.value, side), column[0], column[1..]);
    }
  }

  lemma {:induction false} TypesOfRows(summary: Summary, rows: seq<RawRow>)
    ensures SummarizeFrom(summary, rows).geometryTypes
         == summary.geometryTypes + set row | row in rows :: Str(row.geometryType)
    decreases |rows|
  {
    if rows != [] {
      TypesOfRows(Counted(summary, rows[0]), rows[1..]);
      assert rows == [rows[0]] + rows[1..];
    }
  }

  /** What a summary says of the rows: how many there are, their types, and for each side the first of
      its best values. */
  lemma SummaryMeaning(rows: seq<RawRow>, side: Side)
    requires PlainColumn(SideOf(rows, side))
    ensures var summary := Summarize(rows);
            && summary.rowCount == |rows|
            && summary.geometryTypes
               == (set row | row in rows :: if row.geometryType.Some? then row.geometryType.value else "None")
            && (summary.bounds.None? <==> rows == [])
            && (rows != [] ==> exists i: nat ::
                  FirstBestAt(IsMin(side), BoundAt(summary.bounds.value, side), SideOf(rows, side), i))
  {
    SummaryCounts(NOTHING, rows);
    TypesOfRows(NOTHING, rows);
    if rows != [] {
      var column := SideOf(rows, side);
      BoundsFoldByColumn(Counted(NOTHING, rows[0]), rows[1..], side);
      assert column[1..] == SideOf(rows[1..], side);
      var i := ExtremeIsFirstBest(IsMin(side), column);
    }
  }

  /** Each bound is the extreme of its column. */
  ghost predicate HasExtremes(raw: RawBatch, bounds: Bounds)
    requires raw.WellFormed() && raw.rest != []
  {
    forall side: Side | |raw.Column(side)| == |raw.rest| ::
      BoundAt(bounds, side) == Extreme(IsMin(side), raw.Column(side)[0], raw.Column(side)[1..])
  }

  method BatchBounds(raw: RawBatch) returns (bounds: Bounds)
    requires raw.WellFormed() && raw.Exact() && raw.rest != []
    ensures HasExtremes(raw, bounds)
  {
    assert |raw.Column(MinX)| == |raw.Column(MinY)| == |raw.Column(MaxX)| == |raw.Column(MaxY)| == |raw.rest|;
    var minX := ColumnExtreme(raw.minX, true);
    var minY := ColumnExtreme(raw.minY, true);
    var maxX := ColumnExtreme(raw.maxX, false);
    var maxY := ColumnExtreme(raw.maxY, false);
    return Bounds(minX, minY, maxX, maxY);
  }

  /** What the fast path adds to the summary is what its rows add one by one. */
  lemma FastSummary(summary: Summary, raw: RawBatch, extremes: Bounds)
    requires raw.WellFormed() && raw.Exact() && raw.rest != []
    requires HasExtremes(raw, extremes)
    ensures SummarizeFrom(summary, raw.Rows())
         == Summary(summary.rowCount + |raw.rest|,
                    summary.geometryTypes + (set value | value in raw.geometryTypes :: Str(value)),
                    Some(MergeBounds(summary.bounds, extremes)))
  {
    SummaryCounts(summary, raw.Rows());
    TypesOfRows(summary, raw.Rows());
    TypesOfColumn(raw);
    FastBounds(summary, raw, extremes);
  }

  lemma FastBounds(summary: Summary, raw: RawBatch, extremes: Bounds)
    requires raw.WellFormed() && raw.Exact() && raw.rest != []
    requires HasExtremes(raw, extremes)
    ensures SummarizeFrom(summary, raw.Rows()).bounds == Some(MergeBounds(summary.bounds, extremes))
  {
    var rows := raw.Rows();
    var merged, expected := MergeBounds(summary.bounds, extremes), SummarizeFrom(summary, rows).bounds;
    BoundsFoldByColumn(Counted(summary, rows[0]), rows[1..], MinX);
    assert expected.Some?;
    forall side: Side
      ensures BoundAt(merged, side) == BoundAt(expected.value, side)
    {
      RowsHaveColumn(raw, side);
      BatchBoundsMerge(summary, rows, extremes, side);
    }
    SameBounds(merged, expected.value);
  }

  lemma RowsHaveColumn(raw: RawBatch, side: Side)
    requires raw.WellFormed() && raw.Exact()
    ensures SideOf(raw.Rows(), side) == raw.Column(side) && PlainColumn(raw.Column(side))
  {
  }

  lemma SameBounds(a: Bounds, b: Bounds)
    requires forall side: Side :: BoundAt(a, side) == BoundAt(b, side)
    ensures a == b
  {
    assert BoundAt(a, MinX) == BoundAt(b, MinX) && BoundAt(a, MinY) == BoundAt(b, MinY);
    assert BoundAt(a, MaxX) == BoundAt(b, MaxX) && BoundAt(a, MaxY) == BoundAt(b, MaxY);
  }

  lemma TypesOfColumn(raw: RawBatch)
    requires raw.WellFormed()
    ensures (set row | row in raw.Rows() :: Str(row.geometryType))
         == (set value | value in raw.geometryTypes :: Str(value))
  {
    forall value | value in raw.geometryTypes
      ensures exists row :: row in raw.Rows() && row.geometryType == value
    {
      var i :| 0 <= i < |raw.geometryTypes| && raw.geometryTypes[i] == value;
      assert raw.Rows()[i] in raw.Rows();
    }
  }

  /* -------------------------------------------------------- the batch writer */

  class BatchAccumulator {
    const batchSize: nat
    var pending: seq<seq<Record>>
    var pendingRows: nat
    var geometryTypes: set<string>
    var bounds: Option<Bounds>
    var rowCount: nat

    constructor (batchSize: nat)
      requires batchSize > 0
      ensures this.batchSize == batchSize && Valid()
      ensures Joined(pending) == [] && Counters() == NOTHING
    {
      this.batchSize := batchSize;
      pending, pendingRows, geometryTypes, bounds, rowCount := [], 0, {}, None, 0;
    }

    ghost predicate Valid()
      reads this
    {
      batchSize > 0 && pendingRows == |Joined(pending)|
    }

    function Counters(): Summary
      reads this
    {
      Summary(rowCount, geometryTypes, bounds)
    }

    /** Take in one batch, on the fast path when that is exact. */
    method Add(raw: RawBatch)
      requires Valid() && raw.WellFormed()
      modifies this
      ensures Valid()
      ensures Joined(pending) == old(Joined(pending)) + ArrowRecords(raw.Rows())
      ensures Counters() == SummarizeFrom(old(Counters()), raw.Rows())
    {
      if raw.rest == [] {
        assert ArrowRecords(raw.Rows()) == [];
        return;
      }
      ghost var before := Counters();
      var fast := FastBatch(raw);
      if fast.None? {
        var batch := AddRows(raw.Rows());
        Pend(batch);
        SummaryCounts(before, raw.Rows());
      } else {
        geometryTypes := geometryTypes + set value | value in raw.geometryTypes :: Str(value);
        var extremes := BatchBounds(raw);
        bounds := Some(MergeBounds(bounds, extremes));
        Pend(fast.value);
        FastSummary(before, raw, extremes);
      }
    }

    /** The row-wise path: count every row, then convert them all. */
    method AddRows(records: seq<RawRow>) returns (batch: seq<Record>)
      modifies this`geometryTypes, this`bounds
      ensures batch == ArrowRecords(records)
      ensures geometryTypes == SummarizeFrom(old(Counters()), records).geometryTypes
      ensures bounds == SummarizeFrom(old(Counters()), records).bounds
    {
      ghost var start := Counters();
      for i := 0 to |records|
        invariant geometryTypes == SummarizeFrom(start, records[..i]).geometryTypes
        invariant bounds == SummarizeFrom(start, records[..i]).bounds
      {
        assert records[..i + 1] == records[..i] + [records[i]];
        SummarizeConcat(start, records[..i], [records[i]]);
        SummarizeOne(SummarizeFrom(start, records[..i]), records[i]);
        geometryTypes := geometryTypes + {Str(records[i].geometryType)};
        bounds := Some(MergeBounds(bounds, records[i].bounds));
      }
      assert records[..|records|] == records;
      batch := ArrowRecords(records);
    }

    method Pend(batch: seq<Record>)
      requires Valid()
      modifies this`rowCount, this`pending, this`pendingRows
      ensures Valid()
      ensures rowCount == old(rowCount) + |batch|
      ensures Joined(pending) == old(Joined(pending)) + batch
    {
      JoinedConcat(pending, [batch]);
      assert Joined([batch]) == batch + Joined([batch][1..]);
      rowCount := rowCount + |batch|;
      pending := pending + [batch];
      pendingRows := pendingRows + |batch|;
    }

    /** Cut as many full chunks as the pending rows allow. */
    method FullChunks() returns (chunks: seq<seq<Record>>)
      requires Valid()
      modifies this`pending, this`pendingRows
      ensures Valid()
      ensures chunks == ChunksOf(old(Joined(pending)), batchSize)
      ensures Joined(pending) == RestOf(old(Joined(pending)), batchSize)
    {
      ghost var start := Joined(pending);
      chunks := [];
      while pendingRows >= batchSize
        invariant Valid()
        invariant chunks + ChunksOf(Joined(pending), batchSize) == ChunksOf(start, batchSize)
        invariant RestOf(Joined(pending), batchSize) == RestOf(start, batchSize)
        decreases pendingRows
      {
        var combined := Joined(pending);
        chunks := chunks + [combined[..batchSize]];
        var rest := combined[batchSize..];
        pending := if rest == [] then [] else [rest];
        pendingRows := |rest|;
        assert Joined([rest]) == rest + Joined([rest][1..]);
        assert Joined(pending) == rest;
      }
    }

    method Remainder() returns (rest: seq<Record>)
      ensures rest == Joined(pending)
    {
      rest := Joined(pending);
    }
  }

  function RowsOf(batches: seq<RawBatch>): seq<RawRow>
    requires forall raw :: raw in batches ==> raw.WellFormed()
  {
    if batches == [] then []
    else RowsOf(batches[..|batches| - 1]) + batches[|batches| - 1].Rows()
  }

  /** One batch more: its rows go behind the rest of the rows before it. */
  lemma NextBatch(batches: seq<RawBatch>, i: nat, batchSize: nat)
    requires i < |batches| && batchSize > 0 && forall raw :: raw in batches ==> raw.WellFormed()
    ensures var before, all := ArrowRecords(RowsOf(batches[..i])), ArrowRecords(RowsOf(batches[..i + 1]));
            var pending := RestOf(before, batchSize) + ArrowRecords(batches[i].Rows());
            && ChunksOf(all, batchSize) == ChunksOf(before, batchSize) + ChunksOf(pending, batchSize)
            && RestOf(all, batchSize) == RestOf(pending, batchSize)
    ensures Summarize(RowsOf(batches[..i + 1])) == SummarizeFrom(Summarize(RowsOf(batches[..i])), batches[i].Rows())
  {
    var before, rows := RowsOf(batches[..i]), batches[i].Rows();
    assert batches[..i + 1][..i] == batches[..i];
    assert ArrowRecords(before + rows) == ArrowRecords(before) + ArrowRecords(rows);
    ChunksConcat(ArrowRecords(before), ArrowRecords(rows), batchSize);
    SummarizeConcat(NOTHING, before, rows);
  }

  /** Write the batches re-chunked exactly as `StreamRecords` chunks their rows. */
  method StreamBatches(batches: seq<RawBatch>, batchSize: nat) returns (written: seq<seq<Record>>, summary: Summary)
    requires batchSize > 0 && forall raw :: raw in batches ==> raw.WellFormed()
    ensures written == Written(ArrowRecords(RowsOf(batches)), batchSize)
    ensures summary == Summarize(RowsOf(batches))
  {
    var accumulator := new BatchAccumulator(batchSize);
    written := [];
    for i := 0 to |batches|
      invariant fresh(accumulator) && accumulator.Valid() && accumulator.batchSize == batchSize
      invariant written == ChunksOf(ArrowRecords(RowsOf(batches[..i])), batchSize)
      invariant Joined(accumulator.pending) == RestOf(ArrowRecords(RowsOf(batches[..i])), batchSize)
      invariant accumulator.Counters() == Summarize(RowsOf(batches[..i]))
    {
      NextBatch(batches, i, batchSize);
      accumulator.Add(batches[i]);
      var chunks := accumulator.FullChunks();
      written := written + chunks;
    }
    assert batches[..|batches|] == batches;
    SummaryCounts(NOTHING, RowsOf(batches));
    if accumulator.pendingRows != 0 {
      var rest := accumulator.Remainder();
      written := written + [rest];
    }
    if accumulator.rowCount == 0 {
      written := written + [[]];
    }
    summary := accumulator.Counters();
  }
}
