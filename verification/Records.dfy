/** Records as columns: `buildBuffers`, `StructSliceToArrayConfig`, `HandleStrings`,
    `getBufferLen` and `BuildPutArrayInput`. */
module Records {
  import opened GoStrings
  import opened VariableLength

  /** A field value: a number or other fixed-size value, or a string. */
  datatype Cell = Fixed(bits: int) | Text(s: bytes)

  datatype Kind = Float32 | Float64 | Uint8 | Int8 | Int16 | Int32 | Int64 | String | Unsupported

  /** A struct field: its `eventstore` tag, if any, and its kind. */
  datatype Field = Field(tag: Option<string>, kind: Kind)

  type StructType = seq<Field>

  type Row = seq<Cell>

  /** A struct value of the type. */
  predicate HasType(row: Row, ty: StructType)
  {
    |row| == |ty| && forall i | 0 <= i < |ty| :: row[i].Text? <==> ty[i].kind == String
  }

  datatype Buffer = Column(cells: seq<Cell>) | Bytes(data: bytes)

  datatype AttrData = AttrData(name: string, structPosition: nat, kind: Kind, buffer: Buffer, offsets: seq<nat>)

  // ------------------------------------------------------------ what the columns are

  /** The tagged fields, as attributes with empty buffers. */
  function TaggedFields(ty: StructType): seq<AttrData>
  {
    if ty == [] then []
    else
      var n := |ty| - 1;
      TaggedFields(ty[..n])
      + if ty[n].tag.Some? then [AttrData(ty[n].tag.value, n, ty[n].kind, Column([]), [])] else []
  }

  /** Every tagged field has a kind that the store supports. */
  predicate Supported(ty: StructType)
  {
    forall i | 0 <= i < |ty| :: ty[i].tag.Some? ==> ty[i].kind != Unsupported
  }

  predicate DistinctTags(ty: StructType)
  {
    forall i, j | 0 <= i < j < |ty| :: ty[i].tag.Some? ==> ty[i].tag != ty[j].tag
  }

  predicate Typed(rows: seq<Row>, ty: StructType) { forall i | 0 <= i < |rows| :: HasType(rows[i], ty) }

  /** One field of every record. */
  function ColumnOf(rows: seq<Row>, pos: nat): seq<Cell>
    requires forall i | 0 <= i < |rows| :: pos < |rows[i]|
  {
    seq(|rows|, i requires 0 <= i < |rows| => rows[i][pos])
  }

  function Texts(cells: seq<Cell>): seq<bytes>
    requires forall i | 0 <= i < |cells| :: cells[i].Text?
  {
    seq(|cells|, i requires 0 <= i < |cells| => cells[i].s)
  }

  function AsTexts(vals: seq<bytes>): seq<Cell> { seq(|vals|, i requires 0 <= i < |vals| => Text(vals[i])) }

  /** A column whose strings have been encoded. */
  predicate Encodes(attr: AttrData, cells: seq<Cell>)
  {
    if attr.kind == String then
      && (forall i | 0 <= i < |cells| :: cells[i].Text?)
      && attr.buffer == Bytes(Concat(Texts(cells))) && attr.offsets == Starts(Texts(cells))
    else
      attr.buffer == Column(cells) && attr.offsets == []
  }

  /** One attribute for each tagged field, in field order, holding the encoded column. */
  predicate Transposed(ty: StructType, rows: seq<Row>, bd: seq<AttrData>)
    requires Typed(rows, ty)
  {
    && |bd| == |TaggedFields(ty)|
    && forall j | 0 <= j < |bd| ::
         && SameAttribute(bd[j], TaggedFields(ty)[j])
         && bd[j].structPosition < |ty| && bd[j].kind == ty[bd[j].structPosition].kind
         && Encodes(bd[j], ColumnOf(rows, bd[j].structPosition))
  }

  predicate SameAttribute(a: AttrData, b: AttrData)
  {
    a.name == b.name && a.structPosition == b.structPosition && a.kind == b.kind
  }

  /** Each attribute belongs to the field at its position, and positions increase. */
  lemma {:induction false} TaggedPositions(ty: StructType)
    ensures forall j | 0 <= j < |TaggedFields(ty)| ::
              var a := TaggedFields(ty)[j];
              a.structPosition < |ty| && ty[a.structPosition] == Field(Some(a.name), a.kind)
              && a.buffer == Column([]) && a.offsets == []
    ensures forall j, k | 0 <= j < k < |TaggedFields(ty)| ::
              TaggedFields(ty)[j].structPosition < TaggedFields(ty)[k].structPosition
  {
    if ty != [] { TaggedPositions(ty[..|ty| - 1]); }
  }

  /** Every tagged field has its attribute. */
  lemma {:induction false} TaggedComplete(ty: StructType, pos: nat) returns (j: nat)
    requires pos < |ty| && ty[pos].tag.Some?
    ensures j < |TaggedFields(ty)| && TaggedFields(ty)[j].structPosition == pos && TaggedFields(ty)[j].name == ty[pos].tag.value
  {
    var n := |ty| - 1;
    if pos == n {
      j := |TaggedFields(ty[..n])|;
    } else {
      j := TaggedComplete(ty[..n], pos);
    }
  }

  // ------------------------------------------------------------ the loops

  method BuildBuffers(ty: StructType) returns (r: Option<seq<AttrData>>)
    ensures r.Some? <==> Supported(ty)
    ensures r.Some? ==> r.value == TaggedFields(ty)
  {
    var aad: seq<AttrData> := [];
    for i := 0 to |ty|
      invariant aad == TaggedFields(ty[..i]) && Supported(ty[..i])
    {
      assert ty[..i + 1][..i] == ty[..i];
      if ty[i].tag.Some? {
        if ty[i].kind == Unsupported {
          return None;
        }
        aad := aad + [AttrData(ty[i].tag.value, i, ty[i].kind, Column([]), [])];
      }
    }
    assert ty[..|ty|] == ty;
    return Some(aad);
  }

  /** The attributes while the records are appended: whole records, then part of one. */
  predicate Appended(attrs: seq<AttrData>, bd: seq<AttrData>, rows: seq<Row>, upto: nat)
  {
    && |bd| == |attrs|
    && forall j | 0 <= j < |bd| ::
         && SameAttribute(bd[j], attrs[j]) && bd[j].offsets == []
         && (forall i | 0 <= i < |rows| :: bd[j].structPosition < |rows[i]|)
         && bd[j].buffer == Column(ColumnOf(if j < upto then rows else rows[..if |rows| == 0 then 0 else |rows| - 1], bd[j].structPosition))
  }

  method StructSliceToArrayConfig(ty: StructType, rows: seq<Row>) returns (r: Option<array<AttrData>>)
    requires Typed(rows, ty)
    ensures r.Some? <==> Supported(ty)
    ensures r.Some? ==> fresh(r.value) && Transposed(ty, rows, r.value[..])
  {
    var buffers := BuildBuffers(ty);
    if buffers.None? {
      return None;
    }
    TaggedPositions(ty);
    var attrs := buffers.value;
    var bd := new AttrData[|attrs|](i requires 0 <= i < |attrs| => attrs[i]);
    for i := 0 to |rows|
      invariant Appended(attrs, bd[..], rows[..i], bd.Length)
    {
      assert rows[..i + 1][..i] == rows[..i];
      for j := 0 to bd.Length
        invariant Appended(attrs, bd[..], rows[..i + 1], j)
      {
        var attr := bd[j];
        assert bd[..][j] == attr;
        ghost var before := ColumnOf(rows[..i], attr.structPosition);
        assert ColumnOf(rows[..i + 1], attr.structPosition) == before + [rows[i][attr.structPosition]];
        bd[j] := attr.(buffer := Column(attr.buffer.cells + [rows[i][attr.structPosition]]));
      }
    }
    assert rows[..|rows|] == rows;
    assert forall j | 0 <= j < bd.Length :: bd[j] == bd[..][j];
    HandleStrings(bd);
    return Some(bd);
  }

  /** `HandleStrings` overwrites the buffer and the offsets of every string attribute in place. */
  method HandleStrings(bd: array<AttrData>)
    requires forall j | 0 <= j < bd.Length ::
               && bd[j].offsets == [] && bd[j].buffer.Column?
               && (bd[j].kind == String ==> forall i | 0 <= i < |bd[j].buffer.cells| :: bd[j].buffer.cells[i].Text?)
    modifies bd
    ensures forall j | 0 <= j < bd.Length ::
              SameAttribute(bd[j], old(bd[j])) && Encodes(bd[j], old(bd[j].buffer.cells))
  {
    for i := 0 to bd.Length
      invariant forall j | i <= j < bd.Length :: bd[j] == old(bd[j])
      invariant forall j | 0 <= j < i ::
          SameAttribute(bd[j], old(bd[j])) && Encodes(bd[j], old(bd[j].buffer.cells))
    {
      if bd[i].kind == String {
        var data, offsets := EncodeColumn(Texts(bd[i].buffer.cells));
        bd[i] := bd[i].(buffer := Bytes(data), offsets := offsets);
      }
    }
  }

  /** `getBufferLen` */
  function BufferLen(attr: AttrData): nat
  {
    if attr.offsets != [] then |attr.offsets|
    else match attr.buffer case Column(cells) => |cells| case Bytes(data) => |data|
  }

  /** The length is the number of records, for strings too, even when there are none. */
  lemma BufferLenIsCount(attr: AttrData, cells: seq<Cell>)
    requires Encodes(attr, cells)
    ensures BufferLen(attr) == |cells|
  {
    if attr.kind == String && cells == [] {
      assert Texts(cells) == [];
    }
  }

  datatype PutArrayInput = PutArrayInput(buffers: seq<AttrData>, bufferRange: seq<int>)

  /** `BuildPutArrayInput`; a sparse array gets the coordinates 1 .. n as one more buffer. */
  method BuildPutArrayInput(bd: array<AttrData>, sparse: bool) returns (input: PutArrayInput)
    requires bd.Length > 0
    ensures input.bufferRange == [1, BufferLen(bd[0])]
    ensures input.buffers == bd[..] + if sparse then
                               [AttrData("d1", 0, Int64, Column(seq(BufferLen(bd[0]), i => Fixed(i + 1))), [])] else []
  {
    var pabs := bd[..];
    var bufSize := BufferLen(bd[0]);
    if sparse {
      var dbuf: array<Cell> := new Cell[bufSize](_ => Fixed(0));
      var i := 1;
      while i <= bufSize
        invariant 1 <= i <= bufSize + 1
        invariant forall k | 0 <= k < i - 1 :: dbuf[k] == Fixed(k + 1)
      {
        dbuf[i - 1] := Fixed(i);
        i := i + 1;
      }
      assert dbuf[..] == seq(bufSize, k => Fixed(k + 1));
      pabs := pabs + [AttrData("d1", 0, Int64, Column(dbuf[..]), [])];
    }
    return PutArrayInput(pabs, [1, bufSize]);
  }
}
