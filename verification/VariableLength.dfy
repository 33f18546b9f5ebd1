/** The variable-length codec: strings as one byte buffer and an array of start offsets, written
    by `HandleStrings` and `computeStringSliceMetadataComponents`, read back by a running cursor
    in `handleVariableResults` and by slicing in `GetMetadata`. */
module VariableLength {

  newtype byte = b: int | 0 <= b < 256

  /** A Go string is a sequence of bytes. */
  type bytes = seq<byte>

  function Concat(vals: seq<bytes>): bytes
  {
    if vals == [] then [] else Concat(vals[..|vals| - 1]) + vals[|vals| - 1]
  }

  /** Where each value starts. */
  function Starts(vals: seq<bytes>): (offsets: seq<nat>)
    ensures |offsets| == |vals|
  {
    if vals == [] then []
    else var front := vals[..|vals| - 1]; Starts(front) + [|Concat(front)|]
  }

  /** Offsets that start at 0, never decrease and stay within the data; without offsets there
      is no data. */
  predicate Valid(data: bytes, offsets: seq<int>)
  {
    && (offsets == [] ==> data == [])
    && (offsets != [] ==> offsets[0] == 0 && offsets[|offsets| - 1] <= |data|)
    && forall i, j | 0 <= i <= j < |offsets| :: offsets[i] <= offsets[j]
  }

  /** The end of the value at `i`: the next offset or the end of the data. */
  function End(data: bytes, offsets: seq<int>, i: nat): int
    requires i < |offsets|
  {
    if i + 1 < |offsets| then offsets[i + 1] else |data|
  }

  /** Every value can be sliced out of the data. */
  predicate Sliceable(data: bytes, offsets: seq<int>)
  {
    forall i | 0 <= i < |offsets| :: 0 <= offsets[i] <= End(data, offsets, i) <= |data|
  }

  function Decoded(data: bytes, offsets: seq<int>): seq<bytes>
    requires Sliceable(data, offsets)
  {
    seq(|offsets|, i requires 0 <= i < |offsets| => data[offsets[i]..End(data, offsets, i)])
  }

  // ------------------------------------------------------------ encoding

  /** One string column of `HandleStrings`. */
  method EncodeColumn(vals: seq<bytes>) returns (data: bytes, offsets: seq<nat>)
    ensures data == Concat(vals) && offsets == Starts(vals)
  {
    data := [];
    var starts := new nat[|vals|];
    var offsetIndex := 0;
    for j := 0 to |vals|
      invariant data == Concat(vals[..j]) && offsetIndex == |data|
      invariant starts[..j] == Starts(vals[..j])
    {
      assert vals[..j + 1][..j] == vals[..j];
      data := data + vals[j];
      starts[j] := offsetIndex;
      offsetIndex := offsetIndex + |vals[j]|;
      assert starts[..j + 1] == starts[..j] + [starts[j]];
    }
    assert vals[..|vals|] == vals;
    return data, starts[..];
  }

  method ComputeStringSliceMetadataComponents(vals: seq<bytes>) returns (data: bytes, offsets: seq<nat>)
    ensures data == Concat(vals) && offsets == Starts(vals)
  {
    data := [];
    var position := 0;
    var starts := new nat[|vals|];
    for i := 0 to |vals|
      invariant data == Concat(vals[..i]) && position == |data|
      invariant starts[..i] == Starts(vals[..i])
    {
      assert vals[..i + 1][..i] == vals[..i];
      data := data + vals[i];
      starts[i] := position;
      position := position + |vals[i]|;
      assert starts[..i + 1] == starts[..i] + [starts[i]];
    }
    assert vals[..|vals|] == vals;
    return data, starts[..];
  }

  // ------------------------------------------------------------ decoding

  predicate IsPiece(data: bytes, ranges: seq<nat>, i: nat)
    requires i + 1 < |ranges|
  {
    ranges[i] <= ranges[i + 1] <= |data|
  }

  /** The first bounds, one more than there are values, are in order and within the data. */
  predicate CanCut(data: bytes, ranges: seq<nat>, count: nat)
  {
    count < |ranges| && forall i | 0 <= i < count :: IsPiece(data, ranges, i)
  }

  function Piece(data: bytes, ranges: seq<nat>, i: nat): bytes
    requires i + 1 < |ranges| && IsPiece(data, ranges, i)
  {
    data[ranges[i]..ranges[i + 1]]
  }

  /** The bytes between consecutive bounds. */
  function CutBy(data: bytes, ranges: seq<nat>, count: nat): seq<bytes>
    requires CanCut(data, ranges, count)
  {
    seq(count, i requires 0 <= i < count => Piece(data, ranges, i))
  }

  /** The byte-by-byte loop of `handleVariableResults`: `count` values and `total` bytes were
      returned, and the running cursor is never set from an offset. */
  method HandleVariableResults(data: bytes, offsets: seq<nat>, count: nat, total: nat) returns (results: seq<bytes>)
    requires CanCut(data, offsets + [total], count) && (count > 0 ==> offsets[0] == 0)
    ensures results == CutBy(data, offsets + [total], count)
  {
    var ranges := offsets + [total];
    results := [];
    var dataPosition := 0;
    for i := 0 to count
      invariant dataPosition == (if i == 0 then 0 else ranges[i])
      invariant results == CutBy(data, ranges, count)[..i]
    {
      assert dataPosition == ranges[i] && IsPiece(data, ranges, i);
      var size := ranges[i + 1] - ranges[i];
      var dataEnd := dataPosition + size;
      var variableVal := new byte[size];
      var valPosition := 0;
      for j := dataPosition to dataEnd
        invariant dataPosition == j && valPosition == j - ranges[i] && dataEnd == ranges[i + 1]
        invariant variableVal[..valPosition] == data[ranges[i]..j]
      {
        variableVal[valPosition] := data[dataPosition];
        dataPosition := dataPosition + 1;
        valPosition := valPosition + 1;
        assert variableVal[..valPosition] == variableVal[..valPosition - 1] + [data[j]];
      }
      assert variableVal[..] == Piece(data, ranges, i);
      results := results + [variableVal[..]];
    }
  }

  /** The slicing loop of `GetMetadata`. */
  method SliceStrings(data: bytes, offsets: seq<int>) returns (metadata: seq<bytes>)
    requires Sliceable(data, offsets)
    ensures metadata == Decoded(data, offsets)
  {
    var ends := offsets + [|data|];
    metadata := [];
    for i := 0 to |offsets|
      invariant metadata == Decoded(data, offsets)[..i]
    {
      metadata := metadata + [data[ends[i]..ends[i + 1]]];
    }
  }

  // ------------------------------------------------------------ encoder and decoders are inverse

  lemma {:induction false} ConcatSplit(vals: seq<bytes>, i: nat)
    requires i <= |vals|
    ensures |Concat(vals[..i])| <= |Concat(vals)| && Concat(vals)[..|Concat(vals[..i])|] == Concat(vals[..i])
    ensures i < |vals| ==> Starts(vals)[i] == |Concat(vals[..i])|
  {
    if i < |vals| {
      var n := |vals| - 1;
      ConcatSplit(vals[..n], i);
      assert vals[..n][..i] == vals[..i];
    } else {
      assert vals[..i] == vals;
    }
  }

  lemma StartsGrow(vals: seq<bytes>, i: nat, j: nat)
    requires i <= j < |vals|
    ensures Starts(vals)[i] <= Starts(vals)[j]
  {
    ConcatSplit(vals, i);
    ConcatSplit(vals, j);
    ConcatSplit(vals[..j], i);
    assert vals[..j][..i] == vals[..i];
  }

  /** The offsets of an encoding start at 0, never decrease and stay within the bytes. */
  lemma EncodingValid(vals: seq<bytes>)
    ensures Valid(Concat(vals), Starts(vals))
  {
    forall i, j | 0 <= i <= j < |vals| ensures Starts(vals)[i] <= Starts(vals)[j] {
      StartsGrow(vals, i, j);
    }
    if vals != [] {
      ConcatSplit(vals, 0);
      ConcatSplit(vals, |vals| - 1);
    }
  }

  /** Every list of strings is restored, empty strings included. */
  lemma DecodeEncode(vals: seq<bytes>)
    ensures Valid(Concat(vals), Starts(vals)) && Sliceable(Concat(vals), Starts(vals)) && Decoded(Concat(vals), Starts(vals)) == vals
  {
    EncodingValid(vals);
    var data := Concat(vals);
    forall i | 0 <= i < |vals| ensures Decoded(data, Starts(vals))[i] == vals[i] {
      EncodedEnd(vals, i);
      EncodedSlice(vals, i);
    }
  }

  lemma EncodedEnd(vals: seq<bytes>, i: nat)
    requires i < |vals|
    ensures Starts(vals)[i] == |Concat(vals[..i])| && End(Concat(vals), Starts(vals), i) == |Concat(vals[..i + 1])|
  {
    ConcatSplit(vals, i);
    ConcatSplit(vals, i + 1);
    if i + 1 == |vals| { assert vals[..i + 1] == vals; }
  }

  lemma EncodedSlice(vals: seq<bytes>, i: nat)
    requires i < |vals|
    ensures |Concat(vals[..i])| <= |Concat(vals[..i + 1])| <= |Concat(vals)|
    ensures Concat(vals)[|Concat(vals[..i])|..|Concat(vals[..i + 1])|] == vals[i]
  {
    ConcatSplit(vals, i + 1);
    assert vals[..i + 1][..i] == vals[..i];
    var a, b := |Concat(vals[..i])|, |Concat(vals[..i + 1])|;
    assert Concat(vals[..i + 1]) == Concat(vals[..i]) + vals[i];
    assert Concat(vals)[a..b] == Concat(vals)[..b][a..];
  }

  lemma ValidSliceable(data: bytes, offsets: seq<int>)
    requires Valid(data, offsets)
    ensures Sliceable(data, offsets)
  {
  }

  lemma ValidFront(data: bytes, offsets: seq<nat>)
    requires Valid(data, offsets) && |offsets| > 1
    ensures var n := |offsets| - 1; Valid(data[..offsets[n]], offsets[..n])
  {
  }

  lemma DecodedSnoc(data: bytes, offsets: seq<nat>)
    requires Sliceable(data, offsets) && |offsets| > 1 && offsets[|offsets| - 1] <= |data|
    requires Sliceable(data[..offsets[|offsets| - 1]], offsets[..|offsets| - 1])
    ensures var n := |offsets| - 1;
            Decoded(data, offsets) == Decoded(data[..offsets[n]], offsets[..n]) + [data[offsets[n]..]]
  {
    var n := |offsets| - 1;
    var last := offsets[n];
    assert data[last..|data|] == data[last..];
    forall i | 0 <= i < n ensures Decoded(data, offsets)[i] == Decoded(data[..last], offsets[..n])[i] {
      assert End(data[..last], offsets[..n], i) == End(data, offsets, i) <= last;
      assert data[..last][offsets[i]..End(data, offsets, i)] == data[offsets[i]..End(data, offsets, i)];
    }
  }

  lemma ConcatSnoc(vals: seq<bytes>, v: bytes)
    ensures Concat(vals + [v]) == Concat(vals) + v && Starts(vals + [v]) == Starts(vals) + [|Concat(vals)|]
  {
    assert (vals + [v])[..|vals|] == vals;
  }

  lemma DecodedOne(data: bytes, offsets: seq<nat>)
    requires Sliceable(data, offsets) && |offsets| == 1 && offsets[0] == 0
    ensures Concat(Decoded(data, offsets)) == data && Starts(Decoded(data, offsets)) == offsets
  {
    assert data[0..|data|] == data;
    assert Decoded(data, offsets) == [data] == [] + [data];
    ConcatSnoc([], data);
    assert [] + data == data;
  }

  lemma EncodedSnoc(data: bytes, offsets: seq<nat>)
    requires Sliceable(data, offsets) && |offsets| > 1 && offsets[|offsets| - 1] <= |data|
    requires var n := |offsets| - 1;
             && Sliceable(data[..offsets[n]], offsets[..n])
             && Concat(Decoded(data[..offsets[n]], offsets[..n])) == data[..offsets[n]]
             && Starts(Decoded(data[..offsets[n]], offsets[..n])) == offsets[..n]
    ensures Concat(Decoded(data, offsets)) == data && Starts(Decoded(data, offsets)) == offsets
  {
    var n := |offsets| - 1;
    var last := offsets[n];
    DecodedSnoc(data, offsets);
    ConcatSnoc(Decoded(data[..last], offsets[..n]), data[last..]);
    assert data == data[..last] + data[last..] && offsets == offsets[..n] + [last];
  }

  /** Conversely every valid pair of bytes and offsets is the encoding of what it decodes to. */
  lemma {:induction false} EncodeDecode(data: bytes, offsets: seq<nat>)
    requires Valid(data, offsets)
    ensures Sliceable(data, offsets)
    ensures Concat(Decoded(data, offsets)) == data && Starts(Decoded(data, offsets)) == offsets
    decreases |offsets|
  {
    ValidSliceable(data, offsets);
    if |offsets| == 1 {
      DecodedOne(data, offsets);
    } else if |offsets| > 1 {
      var n := |offsets| - 1;
      ValidFront(data, offsets);
      EncodeDecode(data[..offsets[n]], offsets[..n]);
      EncodedSnoc(data, offsets);
    }
  }

  // ------------------------------------------------------------ the two decoders

  lemma CursorBounds(data: bytes, offsets: seq<nat>, count: nat, total: nat)
    requires count <= |offsets| && total <= |data| && Valid(data[..total], offsets[..count])
    requires 0 < count < |offsets| ==> offsets[count - 1] <= offsets[count] <= |data|
    ensures count > 0 ==> offsets[0] == 0
    ensures CanCut(data, offsets + [total], count)
  {
    var front := offsets[..count];
    forall i | 0 <= i < count ensures IsPiece(data, offsets + [total], i) {
      assert front[i] == offsets[i] && front[count - 1] <= total;
      if i + 1 < count { assert front[i] <= front[i + 1] <= front[count - 1]; }
    }
  }

  /** The two decoders cut value `i` off at the same place. */
  predicate EndsAlike(data: bytes, offsets: seq<nat>, count: nat, total: nat, i: nat)
    requires i < count <= |offsets| && total <= |data|
  {
    (offsets + [total])[i + 1] == End(data[..total], offsets[..count], i)
  }

  lemma CursorPiece(data: bytes, offsets: seq<nat>, count: nat, total: nat, i: nat)
    requires i < count <= |offsets| && total <= |data|
    requires CanCut(data, offsets + [total], count) && Sliceable(data[..total], offsets[..count])
    ensures CutBy(data, offsets + [total], count)[i] == Decoded(data[..total], offsets[..count])[i]
       <==> EndsAlike(data, offsets, count, total, i)
  {
    var from, cutAt, end := offsets[i], (offsets + [total])[i + 1], End(data[..total], offsets[..count], i);
    assert IsPiece(data, offsets + [total], i);
    var cut, sliced := data[from..cutAt], data[..total][from..end];
    assert |cut| == cutAt - from && |sliced| == end - from;
    if cutAt == end { assert cut == sliced; }
  }

  lemma EndsAlikeExactly(data: bytes, offsets: seq<nat>, count: nat, total: nat)
    requires count <= |offsets| && total <= |data|
    ensures (forall i | 0 <= i < count :: EndsAlike(data, offsets, count, total, i))
       <==> count == 0 || count == |offsets| || offsets[count] == total
  {
    if count > 0 {
      assert EndsAlike(data, offsets, count, total, count - 1) <==> count == |offsets| || offsets[count] == total;
    }
  }

  /** The cursor decoder restores the values returned, as the slicing decoder does, exactly when
      the bound after the last one is the end of the data: the offsets buffer is no longer than
      the number of values, or happens to hold the total there. */
  lemma CursorExactlyWhen(data: bytes, offsets: seq<nat>, count: nat, total: nat)
    requires count <= |offsets| && total <= |data| && Valid(data[..total], offsets[..count])
    requires 0 < count < |offsets| ==> offsets[count - 1] <= offsets[count] <= |data|
    ensures count > 0 ==> offsets[0] == 0
    ensures CanCut(data, offsets + [total], count) && Sliceable(data[..total], offsets[..count])
    ensures CutBy(data, offsets + [total], count) == Decoded(data[..total], offsets[..count])
       <==> count == 0 || count == |offsets| || offsets[count] == total
  {
    CursorBounds(data, offsets, count, total);
    ValidSliceable(data[..total], offsets[..count]);
    var cut, sliced := CutBy(data, offsets + [total], count), Decoded(data[..total], offsets[..count]);
    forall i | 0 <= i < count ensures cut[i] == sliced[i] <==> EndsAlike(data, offsets, count, total, i) {
      CursorPiece(data, offsets, count, total, i);
    }
    SamePieces(cut, sliced, count);
    EndsAlikeExactly(data, offsets, count, total);
  }

  lemma SamePieces(a: seq<bytes>, b: seq<bytes>, count: nat)
    requires |a| == |b| == count
    ensures a == b <==> forall i | 0 <= i < count :: a[i] == b[i]
  {
  }
}
