/** The array store: the SDK's reading and writing on top of an ideal dense array per attribute,
    which stands for TileDB. */
module ArrayStores {
  import opened GoStrings
  import opened VariableLength
  import opened DenseArrays
  import opened Records
  import opened ArrayResults

  // ------------------------------------------------------------ ranges

  /** A bound of 0 means the bound of the domain, no range at all the whole domain. */
  function OpRange(br: seq<int>, domain: seq<int>): seq<int>
    requires forall i | 0 <= i < |br| :: br[i] == 0 ==> i < |domain|
  {
    if br == [] then domain
    else seq(|br|, i requires 0 <= i < |br| => if br[i] == 0 then domain[i] else br[i])
  }

  /** The bounds of one axis: those given, with the first and the last of the axis for a bound of 0
      and for both where no two bounds are given. */
  predicate AxisBounds(given: seq<int>, first: int, last: int, lo: int, hi: int)
  {
    && lo == (if |given| == 2 && given[0] != 0 then given[0] else first)
    && hi == (if |given| == 2 && given[1] != 0 then given[1] else last)
  }

  /** `getOpBufferRange` */
  method GetOpBufferRange(br: seq<int>, domain: seq<int>) returns (range: seq<int>)
    requires forall i | 0 <= i < |br| :: br[i] == 0 ==> i < |domain|
    ensures range == OpRange(br, domain)
  {
    if |br| == 0 {
      return domain;
    }
    var obr := new int[|br|];
    for i := 0 to |br|
      invariant forall k | 0 <= k < i :: obr[k] == if br[k] == 0 then domain[k] else br[k]
    {
      if br[i] == 0 {
        obr[i] := domain[i];
      } else {
        obr[i] := br[i];
      }
    }
    return obr[..];
  }

  // ------------------------------------------------------------ what the ideal array holds

  /** The cells that a buffer describes. */
  function StoredCells(attr: AttrData): seq<Cell>
    requires Storable(attr)
  {
    match attr.buffer
    case Column(cells) => cells
    case Bytes(data) => AsTexts(Decoded(data, attr.offsets))
  }

  predicate Storable(attr: AttrData)
  {
    attr.buffer.Bytes? ==> Sliceable(attr.buffer.data, attr.offsets)
  }

  type Columns = map<string, Cells<Cell>>

  predicate PutPossible(box: Box, buffers: seq<AttrData>)
  {
    Ordered(box) && forall i | 0 <= i < |buffers| :: Storable(buffers[i]) && |StoredCells(buffers[i])| == Points(box)
  }

  function FillValue(): Cells<Cell> { pt => Fixed(0) }

  function ColumnFor(columns: Columns, name: string): Cells<Cell>
  {
    if name in columns then columns[name] else FillValue()
  }

  /** All buffers of a query written into one box. */
  function PutAll(columns: Columns, box: Box, buffers: seq<AttrData>): Columns
    requires PutPossible(box, buffers)
  {
    if buffers == [] then columns
    else
      var n := |buffers| - 1;
      var before := PutAll(columns, box, buffers[..n]);
      before[buffers[n].name := Put(ColumnFor(before, buffers[n].name), box, StoredCells(buffers[n]))]
  }

  /** With distinct names every buffer is found under its name. */
  lemma {:induction false} PutAllColumn(columns: Columns, box: Box, buffers: seq<AttrData>, i: nat)
    requires PutPossible(box, buffers) && i < |buffers|
    requires forall j, k | 0 <= j < k < |buffers| :: buffers[j].name != buffers[k].name
    ensures buffers[i].name in PutAll(columns, box, buffers)
    ensures exists cells :: PutAll(columns, box, buffers)[buffers[i].name] == Put(cells, box, StoredCells(buffers[i]))
  {
    var n := |buffers| - 1;
    if i < n { PutAllColumn(columns, box, buffers[..n], i); }
  }

  predicate TextCells(cells: seq<Cell>) { forall i | 0 <= i < |cells| :: cells[i].Text? }

  class ArrayStore {
    const domain: seq<int>
    const schema: seq<string>
    const kinds: map<string, Kind>
    var columns: Columns

    constructor (domain: seq<int>, schema: seq<string>, kinds: map<string, Kind>)
      ensures this.domain == domain && this.schema == schema && this.kinds == kinds && columns == map[]
    {
      this.domain, this.schema, this.kinds, columns := domain, schema, kinds, map[];
    }

    /** `PutArray` on a dense array. */
    method PutArray(input: PutArrayInput)
      requires |input.bufferRange| % 2 == 0 && PutPossible(BoxOf(input.bufferRange), input.buffers)
      modifies this
      ensures columns == PutAll(old(columns), BoxOf(input.bufferRange), input.buffers)
    {
      var box, buffers := BoxOf(input.bufferRange), input.buffers;
      for i := 0 to |buffers|
        invariant columns == PutAll(old(columns), box, buffers[..i])
      {
        assert buffers[..i + 1][..i] == buffers[..i];
        columns := columns[buffers[i].name := Put(ColumnFor(columns, buffers[i].name), box, StoredCells(buffers[i]))];
      }
      assert buffers[..|buffers|] == buffers;
    }

    /** The cells of one attribute in a range, as the query returns them. */
    function Read(attr: string, range: seq<int>): seq<Cell>
      requires IsRange(range)
      reads this
    {
      Get(ColumnFor(columns, attr), BoxOf(range))
    }

    /** `GetArray` on a dense array: an unknown attribute is an error; strings come back as bytes
        and offsets, and are decoded. */
    method GetArray(attrs: seq<string>, bufferRange: seq<int>) returns (r: Option<ArrayResult>)
      requires forall i | 0 <= i < |bufferRange| :: bufferRange[i] == 0 ==> i < |domain|
      requires IsRange(OpRange(bufferRange, domain))
      requires forall a | a in attrs && a in schema && a in kinds && kinds[a] == String ::
                 TextCells(Read(a, OpRange(bufferRange, domain)))
      ensures r.Some? <==> forall a | a in attrs :: a in schema
      ensures r.Some? ==>
                && fresh(r.value) && r.value.row == 0 && r.value.range == OpRange(bufferRange, domain)
                && r.value.schema == schema && r.value.attrs == attrs && r.value.coordinates == []
                && |r.value.data| == |attrs|
                && forall k | 0 <= k < |attrs| :: r.value.data[k] == Read(attrs[k], r.value.range)
    {
      var br := GetOpBufferRange(bufferRange, domain);
      var data: seq<seq<Cell>> := [];
      for i := 0 to |attrs|
        invariant |data| == i && forall k | 0 <= k < i :: attrs[k] in schema && data[k] == Read(attrs[k], br)
      {
        if attrs[i] !in schema {
          return None;
        }
        var cells := Read(attrs[i], br);
        if attrs[i] in kinds && kinds[attrs[i]] == String {
          var texts := ReadVariable(cells);
          data := data + [texts];
        } else {
          data := data + [cells];
        }
      }
      var result := new ArrayResult(br, data, schema, attrs, []);
      return Some(result);
    }
  }

  /** Strings travel as one byte buffer with offsets and are cut apart again by the cursor loop. */
  method ReadVariable(cells: seq<Cell>) returns (result: seq<Cell>)
    requires TextCells(cells)
    ensures result == cells
  {
    var vals := Texts(cells);
    DecodeEncode(vals);
    var buffer, offsets := Concat(vals), Starts(vals);
    assert buffer[..|buffer|] == buffer && offsets[..|offsets|] == offsets;
    CursorExactlyWhen(buffer, offsets, |offsets|, |buffer|);
    var results := HandleVariableResults(buffer, offsets, |offsets|, |buffer|);
    return AsTexts(results);
  }
}
