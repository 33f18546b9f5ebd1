/** Query results: `ArrayResult` with `GetRow`, `GetColumn`, `Size`, `Rows`, `Cols` and `Scan`. */
module ArrayResults {
  import opened GoStrings
  import opened DenseArrays
  import opened Records

  /** A row of a result with two dimensions. */
  function RowOf<T>(range: seq<int>, data: seq<T>, r: int): seq<T>
    requires |range| >= 4 && 0 <= r * Cols(range) <= r * Cols(range) + Cols(range) <= |data|
  {
    data[r * Cols(range)..r * Cols(range) + Cols(range)]
  }

  /** The position of a cell of a two-dimensional result. */
  function IndexAt(range: seq<int>, r: int, c: int): int
    requires |range| >= 4
  {
    r * Cols(range) + c
  }

  predicate ColumnInBounds<T>(range: seq<int>, data: seq<T>, c: int)
    requires |range| >= 4
  {
    forall r | 0 <= r < Rows(range) :: 0 <= IndexAt(range, r, c) < |data|
  }

  function ColumnAt<T>(range: seq<int>, data: seq<T>, c: int): seq<T>
    requires |range| >= 4 && ColumnInBounds(range, data, c)
  {
    seq(if Rows(range) < 0 then 0 else Rows(range), r requires 0 <= r < Rows(range) => data[IndexAt(range, r, c)])
  }

  /** `tagAsPositionMap`: the last field with a tag wins. */
  function TagPosition(ty: StructType, tag: string): (r: Option<nat>)
    ensures r.Some? ==> r.value < |ty| && ty[r.value].tag == Some(tag)
  {
    if ty == [] then None
    else
      var n := |ty| - 1;
      if ty[n].tag == Some(tag) then Some(n) else TagPosition(ty[..n], tag)
  }

  method TagAsPositionMap(ty: StructType) returns (tagmap: map<string, nat>)
    ensures forall t: string :: (t in tagmap <==> TagPosition(ty, t).Some?) && (t in tagmap ==> TagPosition(ty, t) == Some(tagmap[t]))
    ensures forall t | t in tagmap :: LastWith(ty, t, tagmap[t])
    ensures forall i | 0 <= i < |ty| && ty[i].tag.Some? :: ty[i].tag.value in tagmap
  {
    tagmap := map[];
    for i := 0 to |ty|
      invariant forall t: string :: (t in tagmap <==> TagPosition(ty[..i], t).Some?)
                                    && (t in tagmap ==> TagPosition(ty[..i], t) == Some(tagmap[t]))
    {
      assert ty[..i + 1][..i] == ty[..i];
      if ty[i].tag.Some? {
        tagmap := tagmap[ty[i].tag.value := i];
      }
    }
    assert ty[..|ty|] == ty;
    forall t | t in tagmap ensures LastWith(ty, t, tagmap[t]) { TagPositionSound(ty, t); }
    forall i | 0 <= i < |ty| && ty[i].tag.Some? ensures ty[i].tag.value in tagmap { TagPositionSound(ty, ty[i].tag.value); }
  }

  /** The field has the tag, and none after it does. */
  predicate LastWith(ty: StructType, tag: string, pos: nat)
  {
    pos < |ty| && ty[pos].tag == Some(tag) && forall i | pos < i < |ty| :: ty[i].tag != Some(tag)
  }

  lemma {:induction false} TagPositionSound(ty: StructType, tag: string)
    ensures TagPosition(ty, tag).Some? ==> LastWith(ty, tag, TagPosition(ty, tag).value)
    ensures TagPosition(ty, tag).None? ==> forall i | 0 <= i < |ty| :: ty[i].tag != Some(tag)
  {
    if ty != [] {
      var n := |ty| - 1;
      if ty[n].tag != Some(tag) { TagPositionSound(ty[..n], tag); }
    }
  }

  /** The first position of an attribute among those requested. */
  function PositionOf(attr: string, attrs: seq<string>): int
  {
    if attrs == [] then -1
    else if attrs[0] == attr then 0
    else if PositionOf(attr, attrs[1..]) == -1 then -1 else 1 + PositionOf(attr, attrs[1..])
  }

  lemma {:induction false} PositionSound(attr: string, attrs: seq<string>)
    ensures -1 <= PositionOf(attr, attrs) < |attrs|
    ensures PositionOf(attr, attrs) >= 0 <==> attr in attrs
    ensures PositionOf(attr, attrs) >= 0 ==> attrs[PositionOf(attr, attrs)] == attr
    ensures forall k | 0 <= k < PositionOf(attr, attrs) :: attrs[k] != attr
  {
    if attrs != [] {
      PositionSound(attr, attrs[1..]);
    }
  }

  /** The loop of `attrResultPosition`. */
  method AttrResultPosition(attr: string, attrs: seq<string>) returns (position: int)
    ensures position == PositionOf(attr, attrs)
    ensures if attr in attrs then 0 <= position < |attrs| && attrs[position] == attr && attr !in attrs[..position] else position == -1
  {
    PositionSound(attr, attrs);
    for i := 0 to |attrs|
      invariant forall k | 0 <= k < i :: attrs[k] != attr
      invariant PositionOf(attr, attrs) == if PositionOf(attr, attrs[i..]) == -1 then -1 else i + PositionOf(attr, attrs[i..])
    {
      assert attrs[i..][1..] == attrs[i + 1..];
      PositionSound(attr, attrs[i + 1..]);
      if attrs[i] == attr {
        return i;
      }
    }
    return -1;
  }

  /** What a scan stores in one field: the cell of the requested column, or nothing new. */
  function Scanned(ty: StructType, schema: seq<string>, attrs: seq<string>, data: seq<seq<Cell>>, row: nat, pos: nat, previous: Cell): Cell
    requires pos < |ty| && |data| == |attrs| && forall k | 0 <= k < |data| :: row < |data[k]|
  {
    if ty[pos].tag.Some? && TagPosition(ty, ty[pos].tag.value) == Some(pos)
       && ty[pos].tag.value in schema && ty[pos].tag.value in attrs
    then
      PositionSound(ty[pos].tag.value, attrs);
      data[PositionOf(ty[pos].tag.value, attrs)][row]
    else previous
  }

  predicate Pending(ty: StructType, pos: nat, todo: set<string>)
    requires pos < |ty|
  {
    ty[pos].tag.Some? && ty[pos].tag.value in todo
  }

  class ArrayResult {
    const range: seq<int>
    const data: seq<seq<Cell>>
    const schema: seq<string>
    const attrs: seq<string>
    const coordinates: seq<int>
    var row: nat

    constructor (range: seq<int>, data: seq<seq<Cell>>, schema: seq<string>, attrs: seq<string>, coordinates: seq<int>)
      ensures this.range == range && this.data == data && this.schema == schema && this.attrs == attrs
      ensures this.coordinates == coordinates && row == 0
    {
      this.range, this.data, this.schema, this.attrs, this.coordinates := range, data, schema, attrs, coordinates;
      row := 0;
    }

    /** The number of records: the coordinates of a sparse result, the points of a dense range. */
    method Size() returns (size: int)
      requires |range| % 2 == 0
      ensures size == if |coordinates| > 0 then |coordinates| else Points(BoxOf(range))
    {
      if |coordinates| > 0 {
        return |coordinates|;
      }
      size := DenseArrays.Size(range);
    }

    method GetRow(rowindex: int, attrindex: nat) returns (dest: seq<Cell>)
      requires |range| >= 4 && attrindex < |data|
      requires 0 <= rowindex * Cols(range) <= rowindex * Cols(range) + Cols(range) <= |data[attrindex]|
      ensures dest == RowOf(range, data[attrindex], rowindex)
    {
      var start := rowindex * (range[3] - range[2] + 1);
      var end := start + (range[3] - range[2] + 1);
      return data[attrindex][start..end];
    }

    method GetColumn(colindex: int, attrindex: nat) returns (dest: seq<Cell>)
      requires |range| >= 4 && attrindex < |data| && ColumnInBounds(range, data[attrindex], colindex)
      ensures dest == ColumnAt(range, data[attrindex], colindex)
    {
      dest := [];
      var vals := data[attrindex];
      var resultrows := range[1] - range[0] + 1;
      var resultcols := range[3] - range[2] + 1;
      var i := 0;
      while i < resultrows
        invariant 0 <= i && (i <= resultrows || i == 0)
        invariant |dest| == i && forall k | 0 <= k < i :: dest[k] == vals[IndexAt(range, k, colindex)]
      {
        var index := i * resultcols + colindex;
        assert index == IndexAt(range, i, colindex);
        dest := dest + [vals[index]];
        i := i + 1;
      }
    }

    /** `Scan`: sets the tagged fields from the current row and moves to the next. */
    method Scan(ty: StructType, dest: array<Cell>)
      requires dest.Length == |ty| && |data| == |attrs|
      requires forall k | 0 <= k < |data| :: row < |data[k]|
      modifies this, dest
      ensures row == old(row) + 1
      ensures forall pos | 0 <= pos < |ty| ::
                dest[pos] == Scanned(ty, schema, attrs, data, old(row), pos, old(dest[pos]))
    {
      var attrPosMap := TagAsPositionMap(ty);
      var todo := attrPosMap.Keys;
      while todo != {}
        modifies dest
        invariant todo <= attrPosMap.Keys
        invariant forall pos | 0 <= pos < |ty| && Pending(ty, pos, todo) :: dest[pos] == old(dest[pos])
        invariant forall pos | 0 <= pos < |ty| && !Pending(ty, pos, todo) ::
                    dest[pos] == Scanned(ty, schema, attrs, data, row, pos, old(dest[pos]))
        decreases todo
      {
        var attr :| attr in todo;
        var pos := attrPosMap[attr];
        TagPositionSound(ty, attr);
        SetField(ty, attr, pos, dest);
        todo := todo - {attr};
      }
      row := row + 1;
    }

    /** The inner loop of `Scan`, over the attribute names of the schema. */
    method SetField(ty: StructType, attr: string, pos: nat, dest: array<Cell>)
      requires dest.Length == |ty| && |data| == |attrs| && pos < |ty|
      requires TagPosition(ty, attr) == Some(pos) && ty[pos].tag == Some(attr)
      requires forall k | 0 <= k < |data| :: row < |data[k]|
      modifies dest
      ensures forall k | 0 <= k < |ty| && k != pos :: dest[k] == old(dest[k])
      ensures dest[pos] == Scanned(ty, schema, attrs, data, row, pos, old(dest[pos]))
    {
      for i := 0 to |schema|
        invariant forall k | 0 <= k < |ty| && k != pos :: dest[k] == old(dest[k])
        invariant dest[pos] == if attr in schema[..i] then Scanned(ty, schema, attrs, data, row, pos, old(dest[pos])) else old(dest[pos])
      {
        assert schema[..i + 1] == schema[..i] + [schema[i]];
        if schema[i] == attr {
          var resultPosition := AttrResultPosition(schema[i], attrs);
          PositionSound(attr, attrs);
          if resultPosition > -1 {
            dest[pos] := data[resultPosition][row];
          }
        }
      }
      assert schema[..|schema|] == schema;
    }
  }
}
