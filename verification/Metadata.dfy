/** Metadata: `PutMetadata`, `GetMetadata` and `DeleteMetadata` over one key/value map, in which a
    list of strings takes two reserved keys. */
module Metadata {
  import opened VariableLength

  /** A value of the key/value array, with its type. */
  datatype Stored = ByteSlice(data: bytes) | Int64Slice(ints: seq<int>) | Other(typ: string, repr: int)

  type Entries = map<string, Stored>

  const PREFIX := "__strslc_"

  function DataKey(key: string): string { PREFIX + "_data_" + key }

  function OffsetKey(key: string): string { PREFIX + "_offset_" + key }

  /** What a caller asks the store to do. */
  datatype Op = PutStrings(key: string, vals: seq<bytes>) | PutValue(key: string, val: Stored) | Delete(key: string)

  /** What an operation does to the map. */
  function Apply(entries: Entries, op: Op): Entries
  {
    match op
    case PutStrings(key, vals) =>
      entries[DataKey(key) := ByteSlice(Concat(vals))][OffsetKey(key) := Int64Slice(Starts(vals))]
    case PutValue(key, val) => entries[key := val]
    case Delete(key) => entries - {key}
  }

  datatype Got<+T> = Value(value: T) | Missing | Mismatch | SlicePanic

  /** Reading into a list of strings. */
  function GetStrings(entries: Entries, key: string): Got<seq<bytes>>
  {
    if DataKey(key) !in entries || OffsetKey(key) !in entries then Missing
    else
      match (entries[DataKey(key)], entries[OffsetKey(key)])
      case (ByteSlice(data), Int64Slice(offsets)) =>
        if Sliceable(data, offsets) then Value(Decoded(data, offsets)) else SlicePanic
      case _ => Mismatch
  }

  function TypeName(v: Stored): string
  {
    match v case ByteSlice(_) => "[]byte" case Int64Slice(_) => "[]int64" case Other(typ, _) => typ
  }

  /** Reading into a destination of another type. */
  function GetValue(entries: Entries, key: string, destType: string): Got<Stored>
  {
    if key !in entries then Missing
    else if TypeName(entries[key]) != destType then Mismatch
    else Value(entries[key])
  }

  /** What a destination of the type named gets from a stored value: the value if the types are
      the same, and an error otherwise. */
  predicate ReadInto(v: Stored, destType: string, got: Got<Stored>)
  {
    match v
    case Other(typ, _) => got == if destType == typ then Value(v) else Mismatch
    case ByteSlice(_) => got == if destType == "[]byte" then Value(v) else Mismatch
    case Int64Slice(_) => got == if destType == "[]int64" then Value(v) else Mismatch
  }

  class MetadataStore {
    var entries: Entries

    constructor ()
      ensures entries == map[]
    {
      entries := map[];
    }

    method PutStringSlice(key: string, vals: seq<bytes>)
      modifies this
      ensures entries == Apply(old(entries), PutStrings(key, vals))
    {
      var data, offsets := ComputeStringSliceMetadataComponents(vals);
      var offsetkey := PREFIX + "_offset_" + key;
      var datakey := PREFIX + "_data_" + key;
      entries := entries[datakey := ByteSlice(data)];
      entries := entries[offsetkey := Int64Slice(offsets)];
    }

    method PutMetadata(key: string, val: Stored)
      modifies this
      ensures entries == Apply(old(entries), PutValue(key, val))
    {
      entries := entries[key := val];
    }

    method DeleteMetadata(key: string)
      modifies this
      ensures entries == Apply(old(entries), Delete(key))
    {
      entries := entries - {key};
    }

    method GetStringSlice(key: string) returns (r: Got<seq<bytes>>)
      ensures r == GetStrings(entries, key)
      ensures r.Missing? <==> DataKey(key) !in entries || OffsetKey(key) !in entries
      ensures r.Mismatch? <==> DataKey(key) in entries && OffsetKey(key) in entries
                               && !(entries[DataKey(key)].ByteSlice? && entries[OffsetKey(key)].Int64Slice?)
    {
      var offsetkey := PREFIX + "_offset_" + key;
      var datakey := PREFIX + "_data_" + key;
      if datakey !in entries {
        return Missing;
      }
      if offsetkey !in entries {
        return Missing;
      }
      var dataval, offsetval := entries[datakey], entries[offsetkey];
      if dataval.ByteSlice? && offsetval.Int64Slice? {
        if !Sliceable(dataval.data, offsetval.ints) {
          return SlicePanic;
        }
        var metadata := SliceStrings(dataval.data, offsetval.ints);
        return Value(metadata);
      }
      return Mismatch;
    }

    method GetMetadata(key: string, destType: string) returns (r: Got<Stored>)
      ensures r == GetValue(entries, key, destType)
      ensures if key in entries then ReadInto(entries[key], destType, r) else r.Missing?
    {
      if key !in entries {
        return Missing;
      }
      var val := entries[key];
      if destType != TypeName(val) {
        return Mismatch;
      }
      return Value(val);
    }
  }

  // ------------------------------------------------------------ two independent maps

  /** What callers may think of the store: lists of strings and plain values, kept apart. */
  datatype Model = Model(slices: map<string, seq<bytes>>, plain: map<string, Stored>)

  function Step(m: Model, op: Op): Model
  {
    match op
    case PutStrings(key, vals) => m.(slices := m.slices[key := vals])
    case PutValue(key, val) => m.(plain := m.plain[key := val])
    case Delete(key) => m.(plain := m.plain - {key})
  }

  lemma KeysApart(j: string, k: string)
    ensures DataKey(j) != OffsetKey(k)
    ensures DataKey(j) == DataKey(k) ==> j == k
    ensures OffsetKey(j) == OffsetKey(k) ==> j == k
  {
    assert DataKey(j)[10] == 'd' && OffsetKey(k)[10] == 'o';
    assert DataKey(j)[15..] == j && DataKey(k)[15..] == k;
    assert OffsetKey(j)[17..] == j && OffsetKey(k)[17..] == k;
  }

  /** One of the two keys of a list of strings. */
  predicate KeyOfSlice(slices: map<string, seq<bytes>>, key: string)
  {
    exists k :: k in slices && (key == DataKey(k) || key == OffsetKey(k))
  }

  /** The map is exactly the two maps laid out together, without overlap. */
  ghost predicate Refines(entries: Entries, m: Model)
  {
    && (forall k | k in m.slices :: HoldsSlice(entries, k, m.slices[k]))
    && (forall k | k in m.plain :: !KeyOfSlice(m.slices, k) && k in entries && entries[k] == m.plain[k])
    && (forall k | k in entries :: k in m.plain || KeyOfSlice(m.slices, k))
  }

  predicate HoldsSlice(entries: Entries, key: string, vals: seq<bytes>)
  {
    && DataKey(key) in entries && entries[DataKey(key)] == ByteSlice(Concat(vals))
    && OffsetKey(key) in entries && entries[OffsetKey(key)] == Int64Slice(Starts(vals))
  }

  /** The operation does not name, as a plain key, a key of a list of strings, nor the other way. */
  predicate Separate(m: Model, op: Op)
  {
    match op
    case PutStrings(key, _) => DataKey(key) !in m.plain && OffsetKey(key) !in m.plain
    case PutValue(key, _) => !KeyOfSlice(m.slices, key)
    case Delete(key) => !KeyOfSlice(m.slices, key)
  }

  lemma SliceUntouched(entries: Entries, op: Op, k: string, vals: seq<bytes>)
    requires HoldsSlice(entries, k, vals)
    requires match op case PutStrings(key, _) => key != k case PutValue(key, _) => key != DataKey(k) && key != OffsetKey(k)
                                                          case Delete(key) => key != DataKey(k) && key != OffsetKey(k)
    ensures HoldsSlice(Apply(entries, op), k, vals)
  {
    if op.PutStrings? {
      KeysApart(op.key, k);
      KeysApart(k, op.key);
    }
  }

  /** One operation on the map is one operation on the two maps. */
  lemma StepRefines(entries: Entries, m: Model, op: Op)
    requires Refines(entries, m) && Separate(m, op)
    ensures Refines(Apply(entries, op), Step(m, op))
  {
    var after, next := Apply(entries, op), Step(m, op);
    forall k | k in next.slices ensures HoldsSlice(after, k, next.slices[k]) {
      if op.PutStrings? && op.key == k {
        KeysApart(k, k);
      } else {
        assert KeyOfSlice(m.slices, DataKey(k)) && KeyOfSlice(m.slices, OffsetKey(k));
        SliceUntouched(entries, op, k, m.slices[k]);
      }
    }
    forall k | k in next.plain ensures !KeyOfSlice(next.slices, k) && k in after && after[k] == next.plain[k] {
      if op.PutStrings? { KeyOfMore(m.slices, op.key, op.vals, k); }
    }
    forall k | k in after ensures k in next.plain || KeyOfSlice(next.slices, k) {
      if op.PutStrings? { KeyOfMore(m.slices, op.key, op.vals, k); }
    }
  }

  lemma KeyOfMore(slices: map<string, seq<bytes>>, key: string, vals: seq<bytes>, k: string)
    ensures KeyOfSlice(slices[key := vals], k) <==> KeyOfSlice(slices, k) || k == DataKey(key) || k == OffsetKey(key)
  {
    if KeyOfSlice(slices, k) {
      var j :| j in slices && (k == DataKey(j) || k == OffsetKey(j));
      assert j in slices[key := vals];
    }
    assert key in slices[key := vals];
  }

  // ------------------------------------------------------------ over whole runs

  function ApplyAll(entries: Entries, ops: seq<Op>): Entries
  {
    if ops == [] then entries else Apply(ApplyAll(entries, ops[..|ops| - 1]), ops[|ops| - 1])
  }

  function StepAll(m: Model, ops: seq<Op>): Model
  {
    if ops == [] then m else Step(StepAll(m, ops[..|ops| - 1]), ops[|ops| - 1])
  }

  /** No plain key of the run starts with the reserved prefix. */
  predicate NoReserved(ops: seq<Op>)
  {
    forall i | 0 <= i < |ops| :: !ops[i].PutStrings? ==> !(PREFIX <= ops[i].key)
  }

  lemma ReservedPrefix(k: string)
    ensures PREFIX <= DataKey(k) && PREFIX <= OffsetKey(k)
  {
  }

  /** After every run from the empty store the map is the two maps laid out together, and no plain
      key is reserved. */
  lemma {:induction false} RunRefines(ops: seq<Op>)
    requires NoReserved(ops)
    ensures Refines(ApplyAll(map[], ops), StepAll(Model(map[], map[]), ops))
    ensures forall k | k in StepAll(Model(map[], map[]), ops).plain :: !(PREFIX <= k)
  {
    if ops != [] {
      var n := |ops| - 1;
      var m, op := StepAll(Model(map[], map[]), ops[..n]), ops[n];
      RunRefines(ops[..n]);
      if op.PutStrings? {
        ReservedPrefix(op.key);
      } else {
        forall k | k in m.slices ensures op.key != DataKey(k) && op.key != OffsetKey(k) {
          ReservedPrefix(k);
        }
      }
      StepRefines(ApplyAll(map[], ops[..n]), m, op);
    }
  }

  /** A list of strings is always decodable, and is the last one put. */
  lemma StringsRefine(entries: Entries, m: Model, key: string)
    requires Refines(entries, m)
    ensures key in m.slices ==> GetStrings(entries, key) == Value(m.slices[key])
    ensures key !in m.slices && DataKey(key) !in m.plain && OffsetKey(key) !in m.plain ==> GetStrings(entries, key) == Missing
  {
    if key in m.slices {
      assert HoldsSlice(entries, key, m.slices[key]);
      DecodeEncode(m.slices[key]);
    } else if DataKey(key) in entries && DataKey(key) !in m.plain {
      var k :| k in m.slices && (DataKey(key) == DataKey(k) || DataKey(key) == OffsetKey(k));
      KeysApart(key, k);
    }
  }

  /** Plain values are read back under their own key; lists of strings cannot be seen there. */
  lemma ValuesRefine(entries: Entries, m: Model, key: string, destType: string)
    requires Refines(entries, m) && !KeyOfSlice(m.slices, key)
    ensures GetValue(entries, key, destType) == GetValue(m.plain, key, destType)
  {
  }

  // ------------------------------------------------------------ what a read returns, by the run alone

  /** Operation `i` put this plain value, and no later one put another under the key or deleted it. */
  predicate LastValue(ops: seq<Op>, key: string, i: nat)
  {
    && i < |ops| && ops[i].PutValue? && ops[i].key == key
    && forall j | i < j < |ops| :: ops[j].PutStrings? || ops[j].key != key
  }

  /** Operation `i` put this list of strings, and no later one put another under the key. */
  predicate LastStrings(ops: seq<Op>, key: string, i: nat)
  {
    && i < |ops| && ops[i].PutStrings? && ops[i].key == key
    && forall j | i < j < |ops| :: !ops[j].PutStrings? || ops[j].key != key
  }

  lemma LastOfFront(ops: seq<Op>, key: string, i: nat)
    requires ops != [] && i < |ops| - 1
    ensures LastValue(ops, key, i)
       <==> LastValue(ops[..|ops| - 1], key, i) && (ops[|ops| - 1].PutStrings? || ops[|ops| - 1].key != key)
    ensures LastStrings(ops, key, i)
       <==> LastStrings(ops[..|ops| - 1], key, i) && (!ops[|ops| - 1].PutStrings? || ops[|ops| - 1].key != key)
  {
    var n := |ops| - 1;
    assert forall j | 0 <= j < n :: ops[..n][j] == ops[j];
  }

  /** The plain map holds the last values. */
  lemma {:induction false} PlainIsLast(ops: seq<Op>, key: string) returns (i: nat)
    ensures var plain := StepAll(Model(map[], map[]), ops).plain;
            if key in plain then LastValue(ops, key, i) && plain[key] == ops[i].val else forall j: nat :: !LastValue(ops, key, j)
  {
    i := 0;
    if ops != [] {
      var n := |ops| - 1;
      i := PlainIsLast(ops[..n], key);
      forall j: nat | j < n
        ensures LastValue(ops, key, j) <==> LastValue(ops[..n], key, j) && (ops[n].PutStrings? || ops[n].key != key)
      {
        LastOfFront(ops, key, j);
      }
      if ops[n].PutValue? && ops[n].key == key { i := n; }
    }
  }

  /** The map of lists holds the last lists. */
  lemma {:induction false} SlicesAreLast(ops: seq<Op>, key: string) returns (i: nat)
    ensures var slices := StepAll(Model(map[], map[]), ops).slices;
            if key in slices then LastStrings(ops, key, i) && slices[key] == ops[i].vals else forall j: nat :: !LastStrings(ops, key, j)
  {
    i := 0;
    if ops != [] {
      var n := |ops| - 1;
      i := SlicesAreLast(ops[..n], key);
      forall j: nat | j < n
        ensures LastStrings(ops, key, j) <==> LastStrings(ops[..n], key, j) && (!ops[n].PutStrings? || ops[n].key != key)
      {
        LastOfFront(ops, key, j);
      }
      if ops[n].PutStrings? && ops[n].key == key { i := n; }
    }
  }

  lemma OneLastValue(ops: seq<Op>, key: string, i: nat, j: nat)
    requires LastValue(ops, key, i) && LastValue(ops, key, j)
    ensures i == j
  {
  }

  lemma OneLastStrings(ops: seq<Op>, key: string, i: nat, j: nat)
    requires LastStrings(ops, key, i) && LastStrings(ops, key, j)
    ensures i == j
  {
  }

  /** A list is read as it was last put, whatever else the run did; without one it is missing. */
  lemma RunReadsStrings(ops: seq<Op>, key: string)
    requires NoReserved(ops)
    ensures forall i: nat | LastStrings(ops, key, i) :: GetStrings(ApplyAll(map[], ops), key) == Value(ops[i].vals)
    ensures (forall i: nat :: !LastStrings(ops, key, i)) ==> GetStrings(ApplyAll(map[], ops), key) == Missing
  {
    var last := SlicesAreLast(ops, key);
    forall i: nat | LastStrings(ops, key, i) ensures i == last { OneLastStrings(ops, key, i, last); }
    RunRefines(ops);
    ReservedPrefix(key);
    StringsRefine(ApplyAll(map[], ops), StepAll(Model(map[], map[]), ops), key);
  }

  /** A plain value is read as it was last put, into a destination of its own type only; once
      deleted, or never put, it is missing. */
  lemma RunReads(ops: seq<Op>, key: string, destType: string)
    requires NoReserved(ops) && !(PREFIX <= key)
    ensures forall i: nat | LastValue(ops, key, i) :: ReadInto(ops[i].val, destType, GetValue(ApplyAll(map[], ops), key, destType))
    ensures (forall i: nat :: !LastValue(ops, key, i)) ==> GetValue(ApplyAll(map[], ops), key, destType) == Missing
  {
    var entries, m := ApplyAll(map[], ops), StepAll(Model(map[], map[]), ops);
    var last := PlainIsLast(ops, key);
    forall i: nat | LastValue(ops, key, i) ensures i == last { OneLastValue(ops, key, i, last); }
    RunRefines(ops);
    forall k | k in m.slices ensures key != DataKey(k) && key != OffsetKey(k) { ReservedPrefix(k); }
    ValuesRefine(entries, m, key, destType);
  }

  /** Deleting a key keeps every list of strings exactly when it is not one of their keys. */
  lemma DeleteKeepsExactlyWhen(entries: Entries, m: Model, key: string)
    requires Refines(entries, m)
    ensures (forall k | k in m.slices :: GetStrings(Apply(entries, Delete(key)), k) == Value(m.slices[k]))
       <==> !KeyOfSlice(m.slices, key)
  {
    var after := Apply(entries, Delete(key));
    forall k | k in m.slices
      ensures GetStrings(after, k) == Value(m.slices[k]) <==> key != DataKey(k) && key != OffsetKey(k)
    {
      if key != DataKey(k) && key != OffsetKey(k) {
        SliceUntouched(entries, Delete(key), k, m.slices[k]);
        DecodeEncode(m.slices[k]);
      }
    }
  }

  /** A plain value under the data key of a list makes the list unreadable. */
  lemma ReservedKeyBreaks(key: string, vals: seq<bytes>)
    ensures var run := [PutStrings(key, vals), PutValue(DataKey(key), Other("int64", 5))];
            GetStrings(ApplyAll(map[], run), key) == Mismatch
  {
    var run := [PutStrings(key, vals), PutValue(DataKey(key), Other("int64", 5))];
    assert run[..1] == [run[0]] && [run[0]][..0] == [];
    KeysApart(key, key);
    var first := Apply(map[], run[0]);
    assert ApplyAll(map[], [run[0]]) == first;
    assert ApplyAll(map[], run) == Apply(first, run[1]);
  }
}
