/** Writing records and scanning them back: `Recordset.Create`, `Write` and `Read`. */
module Recordsets {
  import opened GoStrings
  import opened VariableLength
  import opened DenseArrays
  import opened Records
  import opened ArrayResults
  import opened ArrayStores

  /** At least one field is stored. */
  predicate HasAttribute(ty: StructType) { exists i :: 0 <= i < |ty| && ty[i].tag.Some? }

  predicate TagsOnly(ty: StructType, attrs: seq<string>)
  {
    forall a | a in attrs :: TagPosition(ty, a).Some?
  }

  /** The field's tag is among the requested attributes. */
  predicate Requested(ty: StructType, attrs: seq<string>, pos: nat)
    requires pos < |ty|
  {
    ty[pos].tag.Some? && ty[pos].tag.value in attrs
  }

  function Names(bd: seq<AttrData>): seq<string> { seq(|bd|, i requires 0 <= i < |bd| => bd[i].name) }

  function Kinds(bd: seq<AttrData>): map<string, Kind>
  {
    if bd == [] then map[]
    else var n := |bd| - 1; Kinds(bd[..n])[bd[n].name := bd[n].kind]
  }

  lemma {:induction false} KindsHas(bd: seq<AttrData>, j: nat)
    requires forall j, k | 0 <= j < k < |bd| :: bd[j].name != bd[k].name
    requires j < |bd|
    ensures bd[j].name in Kinds(bd) && Kinds(bd)[bd[j].name] == bd[j].kind
  {
    var n := |bd| - 1;
    if j < n { KindsHas(bd[..n], j); }
  }

  lemma {:induction false} KindsFrom(bd: seq<AttrData>, a: string) returns (j: nat)
    requires a in Kinds(bd)
    ensures j < |bd| && bd[j].name == a
  {
    var n := |bd| - 1;
    if a == bd[n].name { j := n; } else { j := KindsFrom(bd[..n], a); }
  }

  // ------------------------------------------------------------ the columns of the records

  lemma TransposedDistinct(ty: StructType, rows: seq<Row>, bd: seq<AttrData>)
    requires Typed(rows, ty) && DistinctTags(ty) && Transposed(ty, rows, bd)
    ensures forall j, k | 0 <= j < k < |bd| :: bd[j].name != bd[k].name
  {
    TaggedPositions(ty);
    forall j, k | 0 <= j < k < |bd| ensures bd[j].name != bd[k].name {
      var p, q := TaggedFields(ty)[j].structPosition, TaggedFields(ty)[k].structPosition;
      assert ty[p].tag == Some(bd[j].name) && ty[q].tag == Some(bd[k].name);
    }
  }

  /** What is stored for an encoded column is the column itself. */
  lemma StoredColumn(attr: AttrData, cells: seq<Cell>)
    requires Encodes(attr, cells)
    ensures Storable(attr) && StoredCells(attr) == cells
  {
    if attr.kind == String { DecodeEncode(Texts(cells)); }
  }

  lemma ColumnsStorable(ty: StructType, rows: seq<Row>, bd: seq<AttrData>)
    requires Typed(rows, ty) && Transposed(ty, rows, bd) && rows != []
    ensures PutPossible(BoxOf([1, |rows|]), bd)
  {
    LineBox([1, |rows|]);
    forall i | 0 <= i < |bd| ensures Storable(bd[i]) && |StoredCells(bd[i])| == |rows| {
      StoredColumn(bd[i], ColumnOf(rows, bd[i].structPosition));
    }
  }

  /** The attribute of a tagged field. */
  lemma AttributeOf(ty: StructType, rows: seq<Row>, bd: seq<AttrData>, pos: nat) returns (j: nat)
    requires Typed(rows, ty) && Transposed(ty, rows, bd) && pos < |ty| && ty[pos].tag.Some?
    ensures j < |bd| && bd[j].name == ty[pos].tag.value && bd[j].structPosition == pos && bd[j].kind == ty[pos].kind
  {
    j := TaggedComplete(ty, pos);
  }

  /** Reading a range of the array of all records gives that range of the column. */
  lemma RangeOfColumn(cells: Cells<Cell>, column: seq<Cell>, lo: int, hi: int, i: int)
    requires 1 <= lo <= hi <= |column| && 0 <= i <= hi - lo
    ensures Ordered(BoxOf([1, |column|])) && Points(BoxOf([1, |column|])) == |column|
    ensures Ordered(BoxOf([lo, hi])) && Points(BoxOf([lo, hi])) == hi - lo + 1
    ensures Get(Put(cells, BoxOf([1, |column|]), column), BoxOf([lo, hi]))[i] == column[lo - 1 + i]
  {
    LineBox([1, |column|]);
    LineBox([lo, hi]);
    var window, box := BoxOf([lo, hi]), BoxOf([1, |column|]);
    WindowOfBuffer(cells, box, column, window, i);
    LinePosition([lo, hi], lo + i);
    PointOfLinear(window, [lo + i]);
    LinePosition([1, |column|], lo + i);
  }

  // ------------------------------------------------------------ scanning to the end

  /** The field is one that a scan sets. */
  predicate IsScanned(ty: StructType, schema: seq<string>, attrs: seq<string>, pos: nat)
    requires pos < |ty|
  {
    ty[pos].tag.Some? && TagPosition(ty, ty[pos].tag.value) == Some(pos)
    && ty[pos].tag.value in schema && ty[pos].tag.value in attrs
  }

  /** The record of one call of `Scan`: set fields from the row of the call, the others as they were. */
  predicate ScannedFrom(ty: StructType, schema: seq<string>, attrs: seq<string>, data: seq<seq<Cell>>, i: nat, record: Row, dest: Row)
    requires |data| == |attrs| && |dest| == |ty| && forall k | 0 <= k < |data| :: i < |data[k]|
  {
    |record| == |ty| && forall pos | 0 <= pos < |ty| :: record[pos] == Scanned(ty, schema, attrs, data, i, pos, dest[pos])
  }

  /** Which fields a scan sets does not depend on the row. */
  lemma ScannedAgain(ty: StructType, schema: seq<string>, attrs: seq<string>, data: seq<seq<Cell>>, i: nat, dest: Row,
                     before: Row, record: Row)
    requires |data| == |attrs| && |dest| == |ty| == |before| && forall k | 0 <= k < |data| :: i < |data[k]|
    requires forall pos | 0 <= pos < |ty| && !IsScanned(ty, schema, attrs, pos) :: before[pos] == dest[pos]
    requires ScannedFrom(ty, schema, attrs, data, i, record, before)
    ensures ScannedFrom(ty, schema, attrs, data, i, record, dest)
    ensures forall pos | 0 <= pos < |ty| && !IsScanned(ty, schema, attrs, pos) :: record[pos] == dest[pos]
  {
  }

  /** Scans a result of any number of dimensions to the end: `Size` calls of `Scan` into one
      destination. Every access is in bounds, and call `i` delivers the cells at position `i`. */
  method ScanAll(result: ArrayResult, ty: StructType, dest: array<Cell>) returns (records: seq<Row>)
    requires dest.Length == |ty| && result.row == 0 && result.coordinates == [] && IsRange(result.range)
    requires |result.data| == |result.attrs|
    requires forall k | 0 <= k < |result.data| :: |result.data[k]| == Points(BoxOf(result.range))
    modifies result, dest
    ensures |records| == Points(BoxOf(result.range)) == result.row
    ensures forall i | 0 <= i < |records| ::
              ScannedFrom(ty, result.schema, result.attrs, result.data, i, records[i], old(dest[..]))
    ensures forall pos | 0 <= pos < |ty| && !IsScanned(ty, result.schema, result.attrs, pos) :: dest[pos] == old(dest[pos])
  {
    ghost var start := dest[..];
    PointsPositive(BoxOf(result.range));
    var size := result.Size();
    records := [];
    for i := 0 to size
      invariant result.row == i && |records| == i
      invariant forall k | 0 <= k < i :: ScannedFrom(ty, result.schema, result.attrs, result.data, k, records[k], start)
      invariant forall pos | 0 <= pos < |ty| && !IsScanned(ty, result.schema, result.attrs, pos) :: dest[pos] == start[pos]
    {
      ghost var before := dest[..];
      result.Scan(ty, dest);
      ScannedAgain(ty, result.schema, result.attrs, result.data, i, start, before, dest[..]);
      records := records + [dest[..]];
    }
  }

  lemma ScannedCell(ty: StructType, schema: seq<string>, attrs: seq<string>, data: seq<seq<Cell>>, columns: Columns,
                    range: seq<int>, i: nat, pos: nat, previous: Cell)
    requires IsRange(range) && |data| == |attrs| && pos < |ty| && i < Points(BoxOf(range))
    requires forall k | 0 <= k < |attrs| :: data[k] == Get(ColumnFor(columns, attrs[k]), BoxOf(range))
    ensures forall k | 0 <= k < |data| :: i < |data[k]|
    ensures Scanned(ty, schema, attrs, data, i, pos, previous)
         == if IsScanned(ty, schema, attrs, pos) then ColumnFor(columns, ty[pos].tag.value)(Point(BoxOf(range), i)) else previous
  {
    if IsScanned(ty, schema, attrs, pos) { PositionSound(ty[pos].tag.value, attrs); }
  }

  /** Reads a range of an array of any number of dimensions and scans it to the end: there is one
      record for each point of the range, and no other, in row-major order, with the cells of
      that point. */
  method ScanRange(store: ArrayStore, ty: StructType, attrs: seq<string>, bufferRange: seq<int>, dest: array<Cell>)
    returns (r: Option<seq<Row>>)
    requires dest.Length == |ty| && forall i | 0 <= i < |bufferRange| :: bufferRange[i] == 0 ==> i < |store.domain|
    requires IsRange(OpRange(bufferRange, store.domain))
    requires forall a | a in attrs && a in store.schema && a in store.kinds && store.kinds[a] == String ::
               TextCells(store.Read(a, OpRange(bufferRange, store.domain)))
    modifies dest
    ensures r.Some? <==> forall a | a in attrs :: a in store.schema
    ensures r.Some? ==>
              var box := BoxOf(OpRange(bufferRange, store.domain));
              && |r.value| == Points(box)
              && (forall i | 0 <= i < |r.value| :: InBox(box, Point(box, i)) && Linear(box, Point(box, i)) == i && |r.value[i]| == |ty|)
              && (forall pt | InBox(box, pt) :: 0 <= Linear(box, pt) < |r.value| && Point(box, Linear(box, pt)) == pt)
              && forall i, pos | 0 <= i < |r.value| && 0 <= pos < |ty| ::
                   r.value[i][pos] == if IsScanned(ty, store.schema, attrs, pos)
                   then ColumnFor(store.columns, ty[pos].tag.value)(Point(box, i)) else old(dest[pos])
  {
    var read := store.GetArray(attrs, bufferRange);
    if read.None? {
      return None;
    }
    var result := read.value;
    ghost var start := dest[..];
    PointsPositive(BoxOf(result.range));
    var records := ScanAll(result, ty, dest);
    RecordsOfPoints(ty, store.schema, attrs, result.data, store.columns, result.range, records, start);
    return Some(records);
  }

  lemma RecordsOfPoints(ty: StructType, schema: seq<string>, attrs: seq<string>, data: seq<seq<Cell>>, columns: Columns,
                        range: seq<int>, records: seq<Row>, dest: Row)
    requires IsRange(range) && |data| == |attrs| && |dest| == |ty| && |records| == Points(BoxOf(range))
    requires forall k | 0 <= k < |attrs| :: data[k] == Get(ColumnFor(columns, attrs[k]), BoxOf(range))
    requires forall k | 0 <= k < |data| :: |data[k]| == Points(BoxOf(range))
    requires forall i | 0 <= i < |records| :: ScannedFrom(ty, schema, attrs, data, i, records[i], dest)
    ensures var box := BoxOf(range);
            && (forall i | 0 <= i < |records| :: InBox(box, Point(box, i)) && Linear(box, Point(box, i)) == i && |records[i]| == |ty|)
            && (forall pt | InBox(box, pt) :: 0 <= Linear(box, pt) < |records| && Point(box, Linear(box, pt)) == pt)
            && forall i, pos | 0 <= i < |records| && 0 <= pos < |ty| ::
                 records[i][pos] == if IsScanned(ty, schema, attrs, pos)
                 then ColumnFor(columns, ty[pos].tag.value)(Point(box, i)) else dest[pos]
  {
    var box := BoxOf(range);
    forall i | 0 <= i < |records| ensures InBox(box, Point(box, i)) && Linear(box, Point(box, i)) == i { LinearOfPoint(box, i); }
    forall pt | InBox(box, pt) ensures 0 <= Linear(box, pt) < |records| && Point(box, Linear(box, pt)) == pt { PointOfLinear(box, pt); }
    forall i, pos | 0 <= i < |records| && 0 <= pos < |ty|
      ensures |records[i]| == |ty|
      ensures records[i][pos] == if IsScanned(ty, schema, attrs, pos)
                                 then ColumnFor(columns, ty[pos].tag.value)(Point(box, i)) else dest[pos]
    {
      ScannedCell(ty, schema, attrs, data, columns, range, i, pos, dest[pos]);
    }
  }

  // ------------------------------------------------------------ write, read and scan

  /** The store holds the records: every tagged field's column, in positions 1 .. n. */
  ghost predicate Holds(columns: Columns, ty: StructType, rows: seq<Row>)
    requires Typed(rows, ty) && rows != []
  {
    forall pos: nat | pos < |ty| && ty[pos].tag.Some? :: HoldsField(columns, ty, rows, pos)
  }

  ghost predicate HoldsField(columns: Columns, ty: StructType, rows: seq<Row>, pos: nat)
    requires Typed(rows, ty) && rows != [] && pos < |ty| && ty[pos].tag.Some?
  {
    LineBox([1, |rows|]);
    ty[pos].tag.value in columns
    && exists cells :: columns[ty[pos].tag.value] == Put(cells, BoxOf([1, |rows|]), ColumnOf(rows, pos))
  }

  lemma WrittenHolds(columns: Columns, ty: StructType, rows: seq<Row>, bd: seq<AttrData>)
    requires Typed(rows, ty) && DistinctTags(ty) && Transposed(ty, rows, bd) && rows != []
    ensures PutPossible(BoxOf([1, |rows|]), bd)
    ensures Holds(PutAll(columns, BoxOf([1, |rows|]), bd), ty, rows)
  {
    ColumnsStorable(ty, rows, bd);
    TransposedDistinct(ty, rows, bd);
    forall pos: nat | pos < |ty| && ty[pos].tag.Some?
      ensures HoldsField(PutAll(columns, BoxOf([1, |rows|]), bd), ty, rows, pos)
    {
      var j := AttributeOf(ty, rows, bd, pos);
      StoredColumn(bd[j], ColumnOf(rows, pos));
      PutAllColumn(columns, BoxOf([1, |rows|]), bd, j);
    }
  }

  /** Reading any field over a range gives that range of the records. */
  lemma HeldField(columns: Columns, ty: StructType, rows: seq<Row>, pos: nat, lo: int, hi: int)
    requires Typed(rows, ty) && rows != [] && Holds(columns, ty, rows)
    requires pos < |ty| && ty[pos].tag.Some? && 1 <= lo <= hi <= |rows|
    ensures IsRange([lo, hi])
    ensures var cells := Get(ColumnFor(columns, ty[pos].tag.value), BoxOf([lo, hi]));
            |cells| == hi - lo + 1 && forall i | 0 <= i < |cells| :: cells[i] == rows[lo - 1 + i][pos]
  {
    assert HoldsField(columns, ty, rows, pos);
    LineBox([1, |rows|]);
    var cells :| columns[ty[pos].tag.value] == Put(cells, BoxOf([1, |rows|]), ColumnOf(rows, pos));
    LineBox([lo, hi]);
    forall i | 0 <= i <= hi - lo
      ensures Get(ColumnFor(columns, ty[pos].tag.value), BoxOf([lo, hi]))[i] == rows[lo - 1 + i][pos]
    {
      RangeOfColumn(cells, ColumnOf(rows, pos), lo, hi, i);
    }
  }

  /** A tag is the tag of one field only. */
  lemma DistinctPosition(ty: StructType, pos: nat)
    requires DistinctTags(ty) && pos < |ty| && ty[pos].tag.Some?
    ensures TagPosition(ty, ty[pos].tag.value) == Some(pos)
  {
    TagPositionSound(ty, ty[pos].tag.value);
  }

  /** The fields of record `row` of the range, as far as they were requested. */
  predicate Restored(ty: StructType, attrs: seq<string>, record: Row, row: Row)
    requires HasType(record, ty)
  {
    |row| == |ty| && forall pos | 0 <= pos < |ty| && Requested(ty, attrs, pos) :: row[pos] == record[pos]
  }

  /** The array is as long as its first column. */
  lemma FirstColumn(ty: StructType, rows: seq<Row>, bd: seq<AttrData>)
    requires Typed(rows, ty) && HasAttribute(ty) && Transposed(ty, rows, bd)
    ensures bd != [] && BufferLen(bd[0]) == |rows|
  {
    var first: nat :| first < |ty| && ty[first].tag.Some?;
    var j := AttributeOf(ty, rows, bd, first);
    BufferLenIsCount(bd[0], ColumnOf(rows, bd[0].structPosition));
  }

  /** Creates the array for the records and writes them: `Create`, then `Write`. */
  method Write(ty: StructType, rows: seq<Row>) returns (r: Option<ArrayStore>)
    requires Typed(rows, ty) && DistinctTags(ty) && HasAttribute(ty) && rows != []
    ensures r.Some? <==> Supported(ty)
    ensures r.Some? ==>
              && fresh(r.value) && r.value.domain == [1, |rows|] && Holds(r.value.columns, ty, rows)
              && (forall a :: a in r.value.schema <==> TagPosition(ty, a).Some?)
              && forall a | a in r.value.kinds :: TagPosition(ty, a).Some? && r.value.kinds[a] == ty[TagPosition(ty, a).value].kind
  {
    var config := StructSliceToArrayConfig(ty, rows);
    if config.None? {
      return None;
    }
    var bd := config.value;
    ghost var attrs := bd[..];
    FirstColumn(ty, rows, attrs);
    var store := new ArrayStore([1, BufferLen(bd[0])], Names(bd[..]), Kinds(bd[..]));
    var input := BuildPutArrayInput(bd, false);
    assert input.buffers == attrs;
    WrittenHolds(map[], ty, rows, attrs);
    store.PutArray(input);
    SchemaOf(ty, rows, attrs);
    return Some(store);
  }

  lemma SchemaOf(ty: StructType, rows: seq<Row>, bd: seq<AttrData>)
    requires Typed(rows, ty) && DistinctTags(ty) && Transposed(ty, rows, bd)
    ensures forall a :: a in Names(bd) <==> TagPosition(ty, a).Some?
    ensures forall a | a in Kinds(bd) :: TagPosition(ty, a).Some? && Kinds(bd)[a] == ty[TagPosition(ty, a).value].kind
  {
    TaggedPositions(ty);
    forall a ensures a in Names(bd) <==> TagPosition(ty, a).Some? {
      TagPositionSound(ty, a);
      if TagPosition(ty, a).Some? {
        var j := AttributeOf(ty, rows, bd, TagPosition(ty, a).value);
        assert Names(bd)[j] == a;
      }
      if a in Names(bd) {
        var j :| 0 <= j < |bd| && bd[j].name == a;
        assert ty[bd[j].structPosition].tag == Some(a);
      }
    }
    TransposedDistinct(ty, rows, bd);
    forall a | a in Kinds(bd) ensures TagPosition(ty, a).Some? && Kinds(bd)[a] == ty[TagPosition(ty, a).value].kind {
      var j := KindsFrom(bd, a);
      KindsHas(bd, j);
      DistinctPosition(ty, bd[j].structPosition);
    }
  }

  /** The data of a result: for each requested attribute its field of the records in the range. */
  predicate Fetched(ty: StructType, rows: seq<Row>, lo: int, hi: int, attrs: seq<string>, data: seq<seq<Cell>>)
    requires Typed(rows, ty) && 1 <= lo <= hi <= |rows|
  {
    |data| == |attrs| && forall k | 0 <= k < |attrs| :: FetchedAttribute(ty, rows, lo, hi, attrs[k], data[k])
  }

  predicate FetchedAttribute(ty: StructType, rows: seq<Row>, lo: int, hi: int, a: string, cells: seq<Cell>)
    requires Typed(rows, ty) && 1 <= lo <= hi <= |rows|
  {
    && TagPosition(ty, a).Some? && TagPosition(ty, a).value < |ty| && |cells| == hi - lo + 1
    && forall i | 0 <= i < |cells| :: cells[i] == rows[lo - 1 + i][TagPosition(ty, a).value]
  }

  /** A scan stores the record's field where it was requested and leaves the others. */
  lemma ScannedField(ty: StructType, rows: seq<Row>, lo: int, hi: int, schema: seq<string>, attrs: seq<string>,
                     data: seq<seq<Cell>>, i: nat, pos: nat, previous: Cell)
    requires Typed(rows, ty) && DistinctTags(ty) && 1 <= lo <= hi <= |rows| && i <= hi - lo && pos < |ty|
    requires (forall a :: a in schema <==> TagPosition(ty, a).Some?) && Fetched(ty, rows, lo, hi, attrs, data)
    ensures forall k | 0 <= k < |data| :: i < |data[k]|
    ensures Scanned(ty, schema, attrs, data, i, pos, previous) == if Requested(ty, attrs, pos) then rows[lo - 1 + i][pos] else previous
  {
    forall k | 0 <= k < |data| ensures i < |data[k]| {
      assert FetchedAttribute(ty, rows, lo, hi, attrs[k], data[k]);
    }
    if Requested(ty, attrs, pos) {
      var tag := ty[pos].tag.value;
      DistinctPosition(ty, pos);
      PositionSound(tag, attrs);
      assert FetchedAttribute(ty, rows, lo, hi, tag, data[PositionOf(tag, attrs)]);
    }
  }

  lemma ScannedRecord(ty: StructType, rows: seq<Row>, lo: int, hi: int, schema: seq<string>, attrs: seq<string>,
                      data: seq<seq<Cell>>, i: nat, before: Row, after: Row)
    requires Typed(rows, ty) && DistinctTags(ty) && 1 <= lo <= hi <= |rows| && i <= hi - lo && |before| == |after| == |ty|
    requires (forall a :: a in schema <==> TagPosition(ty, a).Some?) && Fetched(ty, rows, lo, hi, attrs, data)
    requires forall k | 0 <= k < |data| :: i < |data[k]|
    requires forall pos | 0 <= pos < |ty| :: after[pos] == Scanned(ty, schema, attrs, data, i, pos, before[pos])
    ensures Restored(ty, attrs, rows[lo - 1 + i], after)
    ensures forall pos | 0 <= pos < |ty| && !Requested(ty, attrs, pos) :: after[pos] == before[pos]
  {
    forall pos | 0 <= pos < |ty|
      ensures after[pos] == if Requested(ty, attrs, pos) then rows[lo - 1 + i][pos] else before[pos]
    {
      ScannedField(ty, rows, lo, hi, schema, attrs, data, i, pos, before[pos]);
    }
  }

  /** `Read`: the query for a range of the requested attributes. */
  method Read(store: ArrayStore, ty: StructType, ghost rows: seq<Row>, attrs: seq<string>, bufferRange: seq<int>,
              ghost lo: int, ghost hi: int)
    returns (result: ArrayResult)
    requires Typed(rows, ty) && rows != [] && Holds(store.columns, ty, rows) && TagsOnly(ty, attrs)
    requires store.domain == [1, |rows|] && (forall a :: a in store.schema <==> TagPosition(ty, a).Some?)
    requires forall a | a in store.kinds :: TagPosition(ty, a).Some? && store.kinds[a] == ty[TagPosition(ty, a).value].kind
    requires |bufferRange| == 0 || |bufferRange| == 2
    requires AxisBounds(bufferRange, 1, |rows|, lo, hi) && 1 <= lo <= hi <= |rows|
    ensures fresh(result) && result.row == 0 && result.schema == store.schema && result.attrs == attrs
    ensures result.range == [lo, hi] && result.coordinates == []
    ensures Fetched(ty, rows, lo, hi, attrs, result.data)
  {
    assert OpRange(bufferRange, store.domain) == [lo, hi];
    LineBox([lo, hi]);
    AllReturned(store.columns, ty, rows, lo, hi, attrs);
    var r := store.GetArray(attrs, bufferRange);
    result := r.value;
    AllFetched(store.columns, ty, rows, lo, hi, attrs, result.data);
  }

  /** The cells read for an attribute are its field of the records in the range. */
  ghost predicate Returned(columns: Columns, ty: StructType, rows: seq<Row>, lo: int, hi: int, a: string)
    requires Typed(rows, ty) && 1 <= lo <= hi <= |rows|
  {
    LineBox([lo, hi]);
    var cells := Get(ColumnFor(columns, a), BoxOf([lo, hi]));
    TagPosition(ty, a).Some? && |cells| == hi - lo + 1 && TagPosition(ty, a).value < |ty|
    && (forall i | 0 <= i < |cells| :: cells[i] == rows[lo - 1 + i][TagPosition(ty, a).value])
    && (ty[TagPosition(ty, a).value].kind == String ==> TextCells(cells))
  }

  lemma TagReturned(columns: Columns, ty: StructType, rows: seq<Row>, lo: int, hi: int, a: string)
    requires Typed(rows, ty) && rows != [] && Holds(columns, ty, rows) && 1 <= lo <= hi <= |rows|
    requires TagPosition(ty, a).Some?
    ensures Returned(columns, ty, rows, lo, hi, a)
  {
    TagPositionSound(ty, a);
    HeldField(columns, ty, rows, TagPosition(ty, a).value, lo, hi);
  }

  lemma FetchedLength(ty: StructType, rows: seq<Row>, lo: int, hi: int, attrs: seq<string>, data: seq<seq<Cell>>)
    requires Typed(rows, ty) && 1 <= lo <= hi <= |rows| && Fetched(ty, rows, lo, hi, attrs, data)
    ensures forall k | 0 <= k < |data| :: |data[k]| == hi - lo + 1
  {
    forall k | 0 <= k < |data| ensures |data[k]| == hi - lo + 1 {
      assert FetchedAttribute(ty, rows, lo, hi, attrs[k], data[k]);
    }
  }

  lemma AllFetched(columns: Columns, ty: StructType, rows: seq<Row>, lo: int, hi: int, attrs: seq<string>, data: seq<seq<Cell>>)
    requires Typed(rows, ty) && 1 <= lo <= hi <= |rows| && IsRange([lo, hi]) && |data| == |attrs|
    requires forall k | 0 <= k < |attrs| :: Returned(columns, ty, rows, lo, hi, attrs[k])
    requires forall k | 0 <= k < |attrs| :: data[k] == Get(ColumnFor(columns, attrs[k]), BoxOf([lo, hi]))
    ensures Fetched(ty, rows, lo, hi, attrs, data)
  {
    forall k | 0 <= k < |attrs| ensures FetchedAttribute(ty, rows, lo, hi, attrs[k], data[k]) {
      assert Returned(columns, ty, rows, lo, hi, attrs[k]);
    }
  }

  lemma AllReturned(columns: Columns, ty: StructType, rows: seq<Row>, lo: int, hi: int, attrs: seq<string>)
    requires Typed(rows, ty) && rows != [] && Holds(columns, ty, rows) && 1 <= lo <= hi <= |rows|
    requires TagsOnly(ty, attrs)
    ensures forall k | 0 <= k < |attrs| :: Returned(columns, ty, rows, lo, hi, attrs[k])
    ensures forall a | a in attrs :: Returned(columns, ty, rows, lo, hi, a)
  {
    forall a | a in attrs ensures Returned(columns, ty, rows, lo, hi, a) {
      TagReturned(columns, ty, rows, lo, hi, a);
    }
  }

  lemma RecordsRestored(ty: StructType, rows: seq<Row>, lo: int, hi: int, schema: seq<string>, attrs: seq<string>, data: seq<seq<Cell>>,
                        records: seq<Row>, dest: Row)
    requires Typed(rows, ty) && DistinctTags(ty) && 1 <= lo <= hi <= |rows| && |dest| == |ty| && |records| == hi - lo + 1
    requires (forall a :: a in schema <==> TagPosition(ty, a).Some?) && Fetched(ty, rows, lo, hi, attrs, data)
    requires forall k | 0 <= k < |data| :: |data[k]| == hi - lo + 1
    requires forall i | 0 <= i < |records| :: ScannedFrom(ty, schema, attrs, data, i, records[i], dest)
    ensures forall i | 0 <= i < |records| :: Restored(ty, attrs, rows[lo - 1 + i], records[i])
  {
    forall i | 0 <= i < |records| ensures Restored(ty, attrs, rows[lo - 1 + i], records[i]) {
      assert ScannedFrom(ty, schema, attrs, data, i, records[i], dest);
      ScannedRecord(ty, rows, lo, hi, schema, attrs, data, i, dest, records[i]);
    }
  }

  lemma NotRequested(ty: StructType, schema: seq<string>, attrs: seq<string>)
    ensures forall pos | 0 <= pos < |ty| && !Requested(ty, attrs, pos) :: !IsScanned(ty, schema, attrs, pos)
  {
  }

  /** Records survive the store: written as columns, read back over any range, in any order of
      the attributes, and scanned one by one, they are the records of that range. */
  method RoundTrip(ty: StructType, rows: seq<Row>, attrs: seq<string>, bufferRange: seq<int>, dest: array<Cell>,
                   ghost lo: int, ghost hi: int)
    returns (r: Option<seq<Row>>)
    requires Typed(rows, ty) && DistinctTags(ty) && HasAttribute(ty) && rows != []
    requires TagsOnly(ty, attrs) && dest.Length == |ty|
    requires |bufferRange| == 0 || |bufferRange| == 2
    requires AxisBounds(bufferRange, 1, |rows|, lo, hi) && 1 <= lo <= hi <= |rows|
    modifies dest
    ensures r.Some? <==> Supported(ty)
    ensures r.Some? ==>
              && |r.value| == hi - lo + 1
              && forall i | 0 <= i < |r.value| :: Restored(ty, attrs, rows[lo - 1 + i], r.value[i])
    ensures forall pos | 0 <= pos < |ty| && !Requested(ty, attrs, pos) :: dest[pos] == old(dest[pos])
  {
    var store := Write(ty, rows);
    if store.None? {
      return None;
    }
    var result := Read(store.value, ty, rows, attrs, bufferRange, lo, hi);
    ghost var start := dest[..];
    LineBox(result.range);
    FetchedLength(ty, rows, lo, hi, attrs, result.data);
    var records := ScanAll(result, ty, dest);
    RecordsRestored(ty, rows, lo, hi, result.schema, attrs, result.data, records, start);
    NotRequested(ty, result.schema, attrs);
    return Some(records);
  }
}
