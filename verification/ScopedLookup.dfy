/** Scoped lookup through the chain of parents: `GetStore`, `GetDataSource` and the resolution of
    `GetReader`. */
module ScopedLookup {
  import opened GoStrings

  datatype Store = Store(name: string, session: int)

  datatype Source = Source(name: string, storeName: string, paths: map<string, string>)

  datatype IoType = Input | Output | All | Unrecognised

  /** First match in a list. */
  function FindStore(stores: seq<Store>, name: string): Option<Store>
  {
    if stores == [] then None
    else if stores[0].name == name then Some(stores[0]) else FindStore(stores[1..], name)
  }

  function FindSource(sources: seq<Source>, name: string): Option<Source>
  {
    if sources == [] then None
    else if sources[0].name == name then Some(sources[0]) else FindSource(sources[1..], name)
  }

  /** The stores and data sources of one manager. */
  datatype Level = Level(stores: seq<Store>, inputs: seq<Source>, outputs: seq<Source>)

  function SourcesOf(level: Level, io: IoType): seq<Source>
  {
    match io
    case Input => level.inputs
    case Output => level.outputs
    case All => level.inputs + level.outputs
    case Unrecognised => []
  }

  /** All stores of a chain, nearest manager first. */
  function FlatStores(chain: seq<Level>): seq<Store>
  {
    if chain == [] then [] else chain[0].stores + FlatStores(chain[1..])
  }

  function FlatSources(chain: seq<Level>, io: IoType): seq<Source>
  {
    if chain == [] then [] else SourcesOf(chain[0], io) + FlatSources(chain[1..], io)
  }

  lemma {:induction false} FindStoreConcat(a: seq<Store>, b: seq<Store>, name: string)
    ensures FindStore(a + b, name) == if FindStore(a, name).Some? then FindStore(a, name) else FindStore(b, name)
  {
    if a == [] {
      assert a + b == b;
    } else {
      FindStoreConcat(a[1..], b, name);
      assert (a + b)[1..] == a[1..] + b;
    }
  }

  lemma {:induction false} FindSourceConcat(a: seq<Source>, b: seq<Source>, name: string)
    ensures FindSource(a + b, name) == if FindSource(a, name).Some? then FindSource(a, name) else FindSource(b, name)
  {
    if a == [] {
      assert a + b == b;
    } else {
      FindSourceConcat(a[1..], b, name);
      assert (a + b)[1..] == a[1..] + b;
    }
  }

  // ------------------------------------------------------------ what a search finds

  predicate NoStore(stores: seq<Store>, name: string) { forall i | 0 <= i < |stores| :: stores[i].name != name }

  /** The store has the name, and none before it in the list has. */
  predicate FirstStore(stores: seq<Store>, name: string, store: Store)
  {
    exists i :: 0 <= i < |stores| && stores[i] == store && store.name == name && NoStore(stores[..i], name)
  }

  /** No manager of the chain has a store of the name. */
  predicate StoreNowhere(levels: seq<Level>, name: string)
  {
    forall d | 0 <= d < |levels| :: NoStore(levels[d].stores, name)
  }

  /** The first store of the name in the nearest manager that has one. */
  predicate NearestStore(levels: seq<Level>, name: string, store: Store)
  {
    exists d :: 0 <= d < |levels| && FirstStore(levels[d].stores, name, store) && StoreNowhere(levels[..d], name)
  }

  predicate NoSource(sources: seq<Source>, name: string) { forall i | 0 <= i < |sources| :: sources[i].name != name }

  predicate FirstSource(sources: seq<Source>, name: string, source: Source)
  {
    exists i :: 0 <= i < |sources| && sources[i] == source && source.name == name && NoSource(sources[..i], name)
  }

  /** No data source of the kind asked for; outputs are not inputs. */
  predicate NoSourceHere(level: Level, io: IoType, name: string)
  {
    (io.Input? || io.All? ==> NoSource(level.inputs, name)) && (io.Output? || io.All? ==> NoSource(level.outputs, name))
  }

  /** The first of the kind asked for; of all kinds the inputs come first. */
  predicate FirstSourceHere(level: Level, io: IoType, name: string, source: Source)
  {
    match io
    case Input => FirstSource(level.inputs, name, source)
    case Output => FirstSource(level.outputs, name, source)
    case All =>
      || FirstSource(level.inputs, name, source)
      || (NoSource(level.inputs, name) && FirstSource(level.outputs, name, source))
    case Unrecognised => false
  }

  predicate SourceNowhere(levels: seq<Level>, io: IoType, name: string)
  {
    forall d | 0 <= d < |levels| :: NoSourceHere(levels[d], io, name)
  }

  predicate NearestSource(levels: seq<Level>, io: IoType, name: string, source: Source)
  {
    exists d :: 0 <= d < |levels| && FirstSourceHere(levels[d], io, name, source) && SourceNowhere(levels[..d], io, name)
  }

  /** What looking up a store means. */
  predicate StoreAnswer(levels: seq<Level>, name: string, r: Option<Store>)
  {
    match r case None => StoreNowhere(levels, name) case Some(store) => NearestStore(levels, name, store)
  }

  /** What looking up a data source means. */
  predicate SourceAnswer(levels: seq<Level>, io: IoType, name: string, r: Option<Source>)
  {
    match r case None => SourceNowhere(levels, io, name) case Some(source) => NearestSource(levels, io, name, source)
  }

  lemma {:induction false} StoreFound(stores: seq<Store>, name: string)
    ensures match FindStore(stores, name) case None => NoStore(stores, name) case Some(s) => FirstStore(stores, name, s)
  {
    if stores != [] && stores[0].name != name {
      StoreFound(stores[1..], name);
      if FindStore(stores[1..], name).Some? {
        var i :| 0 <= i < |stores| - 1 && stores[1..][i] == FindStore(stores, name).value && NoStore(stores[1..][..i], name);
        assert stores[..i + 1] == [stores[0]] + stores[1..][..i];
        assert stores[i + 1] == stores[1..][i];
      }
    } else if stores != [] {
      assert stores[..0] == [];
    }
  }

  lemma {:induction false} SourceFound(sources: seq<Source>, name: string)
    ensures match FindSource(sources, name) case None => NoSource(sources, name) case Some(s) => FirstSource(sources, name, s)
  {
    if sources != [] && sources[0].name != name {
      SourceFound(sources[1..], name);
      if FindSource(sources[1..], name).Some? {
        var i :| 0 <= i < |sources| - 1 && sources[1..][i] == FindSource(sources, name).value && NoSource(sources[1..][..i], name);
        assert sources[..i + 1] == [sources[0]] + sources[1..][..i];
        assert sources[i + 1] == sources[1..][i];
      }
    } else if sources != [] {
      assert sources[..0] == [];
    }
  }

  lemma SourceFoundHere(level: Level, io: IoType, name: string)
    ensures match FindSource(SourcesOf(level, io), name)
            case None => NoSourceHere(level, io, name)
            case Some(s) => FirstSourceHere(level, io, name, s)
  {
    SourceFound(level.inputs, name);
    SourceFound(level.outputs, name);
    FindSourceConcat(level.inputs, level.outputs, name);
  }

  /** One more level in front. */
  lemma StoreFurther(level: Level, above: seq<Level>, name: string)
    requires NoStore(level.stores, name)
    ensures StoreNowhere(above, name) ==> StoreNowhere([level] + above, name)
    ensures forall s | NearestStore(above, name, s) :: NearestStore([level] + above, name, s)
  {
    forall s | NearestStore(above, name, s) ensures NearestStore([level] + above, name, s) {
      var d :| 0 <= d < |above| && FirstStore(above[d].stores, name, s) && StoreNowhere(above[..d], name);
      assert ([level] + above)[..d + 1] == [level] + above[..d];
      assert ([level] + above)[d + 1] == above[d];
    }
  }

  lemma SourceFurther(level: Level, above: seq<Level>, io: IoType, name: string)
    requires NoSourceHere(level, io, name)
    ensures SourceNowhere(above, io, name) ==> SourceNowhere([level] + above, io, name)
    ensures forall s | NearestSource(above, io, name, s) :: NearestSource([level] + above, io, name, s)
  {
    forall s | NearestSource(above, io, name, s) ensures NearestSource([level] + above, io, name, s) {
      var d :| 0 <= d < |above| && FirstSourceHere(above[d], io, name, s) && SourceNowhere(above[..d], io, name);
      assert ([level] + above)[..d + 1] == [level] + above[..d];
      assert ([level] + above)[d + 1] == above[d];
    }
  }

  /** Searching the flattened chain is searching manager by manager. */
  lemma {:induction false} StoreLookup(levels: seq<Level>, name: string)
    ensures StoreAnswer(levels, name, FindStore(FlatStores(levels), name))
  {
    if levels != [] {
      var level, above := levels[0], levels[1..];
      assert levels == [level] + above;
      StoreFound(level.stores, name);
      FindStoreConcat(level.stores, FlatStores(above), name);
      if FindStore(level.stores, name).Some? {
        assert levels[..0] == [];
      } else {
        StoreLookup(above, name);
        StoreFurther(level, above, name);
      }
    }
  }

  lemma {:induction false} SourceLookup(levels: seq<Level>, io: IoType, name: string)
    ensures SourceAnswer(levels, io, name, FindSource(FlatSources(levels, io), name))
  {
    if levels != [] {
      var level, above := levels[0], levels[1..];
      assert levels == [level] + above;
      SourceFoundHere(level, io, name);
      FindSourceConcat(SourcesOf(level, io), FlatSources(above, io), name);
      if FindSource(SourcesOf(level, io), name).Some? {
        assert levels[..0] == [];
      } else {
        SourceLookup(above, io, name);
        SourceFurther(level, above, io, name);
      }
    }
  }

  class IOManager {
    var stores: seq<Store>
    var inputs: seq<Source>
    var outputs: seq<Source>
    var parent: IOManager?
    /** This manager and its ancestors, nearest first. */
    ghost var chain: seq<IOManager>

    /** The parent chain is finite. */
    ghost predicate Valid()
      reads this, chain
      decreases |chain|
    {
      && chain != [] && chain[0] == this
      && (parent == null ==> chain == [this])
      && (parent != null ==> parent in chain && parent.chain == chain[1..] && parent.Valid())
    }

    /** The levels of the chain, as values. */
    ghost function Levels(): (levels: seq<Level>)
      requires Valid()
      reads this, chain
      ensures levels != []
      decreases |chain|
    {
      [Level(stores, inputs, outputs)] + if parent == null then [] else parent.Levels()
    }

    constructor (level: Level)
      ensures Valid() && chain == [this] && Levels() == [level]
    {
      stores, inputs, outputs, parent, chain := level.stores, level.inputs, level.outputs, null, [this];
    }

    method SetParent(iom: IOManager)
      requires Valid() && iom.Valid() && this !in iom.chain
      modifies this`parent, this`chain
      ensures Valid() && parent == iom && Levels() == [Level(stores, inputs, outputs)] + iom.Levels()
    {
      parent := iom;
      chain := [this] + iom.chain;
    }

    lemma StoreLevels(name: string)
      requires Valid()
      ensures FindStore(FlatStores(Levels()), name) ==
              if FindStore(stores, name).Some? then FindStore(stores, name)
              else if parent == null then None else FindStore(FlatStores(parent.Levels()), name)
    {
      var above := if parent == null then [] else parent.Levels();
      assert Levels()[1..] == above;
      FindStoreConcat(stores, FlatStores(above), name);
    }

    /** This manager's own data sources decide, if one of them has the name. */
    lemma SourceLevels(io: IoType, name: string, sources: seq<Source>, r: Option<Source>)
      requires Valid() && sources == SourcesOf(Level(stores, inputs, outputs), io)
      requires if FindSource(sources, name).Some? then r == FindSource(sources, name)
               else r == if parent == null then None else FindSource(FlatSources(parent.Levels(), io), name)
      ensures r == FindSource(FlatSources(Levels(), io), name) && SourceAnswer(Levels(), io, name, r)
    {
      var above := if parent == null then [] else parent.Levels();
      assert Levels()[1..] == above;
      FindSourceConcat(sources, FlatSources(above, io), name);
      SourceLookup(Levels(), io, name);
    }

    method GetStore(name: string) returns (r: Option<Store>)
      requires Valid()
      ensures r == FindStore(FlatStores(Levels()), name)
      ensures StoreAnswer(Levels(), name, r)
      decreases |chain|
    {
      StoreLookup(Levels(), name);
      StoreLevels(name);
      for i := 0 to |stores|
        invariant FindStore(stores, name) == FindStore(stores[i..], name)
      {
        assert stores[i..][1..] == stores[i + 1..];
        if stores[i].name == name {
          return Some(stores[i]);
        }
      }
      if parent != null {
        r := parent.GetStore(name);
        return r;
      }
      return None;
    }

    method GetDataSource(io: IoType, name: string) returns (r: Option<Source>)
      requires Valid()
      ensures r == FindSource(FlatSources(Levels(), io), name)
      ensures SourceAnswer(Levels(), io, name, r)
      decreases |chain|
    {
      var sources: seq<Source> := [];
      match io {
        case Input => sources := inputs;
        case Output => sources := outputs;
        case All =>
          sources := sources + inputs;
          sources := sources + outputs;
        case Unrecognised =>
      }
      assert sources == SourcesOf(Level(stores, inputs, outputs), io);
      for i := 0 to |sources|
        invariant FindSource(sources, name) == FindSource(sources[i..], name)
      {
        assert sources[i..][1..] == sources[i + 1..];
        if name == sources[i].name {
          SourceLevels(io, name, sources, Some(sources[i]));
          return Some(sources[i]);
        }
      }
      if parent != null {
        r := parent.GetDataSource(io, name);
        SourceLevels(io, name, sources, r);
        return r;
      }
      SourceLevels(io, name, sources, None);
      return None;
    }

    /** The source and store that `GetReader` uses: the source's store name is resolved from this
        manager, wherever the source itself was found. */
    method ResolveReader(given: Option<Source>, name: string) returns (r: Option<(Source, Store)>)
      requires Valid()
      ensures r == Resolved(Levels(), given, name)
      ensures r.Some? ==>
                && (if given.Some? then r.value.0 == given.value else NearestSource(Levels(), Input, name, r.value.0))
                && NearestStore(Levels(), r.value.0.storeName, r.value.1)
      ensures r.None? ==>
                || (given.None? && SourceNowhere(Levels(), Input, name))
                || exists source: Source :: (if given.Some? then source == given.value else NearestSource(Levels(), Input, name, source))
                                            && StoreNowhere(Levels(), source.storeName)
    {
      var dataSource: Source;
      if given.None? {
        var found := GetDataSource(Input, name);
        if found.None? {
          return None;
        }
        dataSource := found.value;
      } else {
        dataSource := given.value;
      }
      var dataStore := GetStore(dataSource.storeName);
      if dataStore.None? {
        return None;
      }
      return Some((dataSource, dataStore.value));
    }
  }

  function Resolved(levels: seq<Level>, given: Option<Source>, name: string): Option<(Source, Store)>
  {
    var source := if given.Some? then given else FindSource(FlatSources(levels, Input), name);
    if source.None? then None
    else
      match FindStore(FlatStores(levels), source.value.storeName)
      case None => None
      case Some(store) => Some((source.value, store))
  }

  lemma Reassociate<T>(a: seq<T>, b: seq<T>, c: seq<T>)
    ensures a + b + c == a + (b + c)
  {
  }

  lemma {:induction false} FlatConcat(near: seq<Level>, far: seq<Level>, io: IoType)
    ensures FlatStores(near + far) == FlatStores(near) + FlatStores(far)
    ensures FlatSources(near + far, io) == FlatSources(near, io) + FlatSources(far, io)
  {
    if near == [] {
      assert near + far == far;
    } else {
      FlatConcat(near[1..], far, io);
      assert (near + far)[1..] == near[1..] + far;
      Reassociate(near[0].stores, FlatStores(near[1..]), FlatStores(far));
      Reassociate(SourcesOf(near[0], io), FlatSources(near[1..], io), FlatSources(far, io));
    }
  }

  /** Whatever the ancestors beyond the near part of a chain are, or become, a name that the near
      part resolves keeps its meaning; a name it does not resolve means what it means beyond. */
  lemma NearestWins(near: seq<Level>, far: seq<Level>, other: seq<Level>, io: IoType, name: string)
    ensures FindStore(FlatStores(near), name).Some? ==>
              FindStore(FlatStores(near + far), name) == FindStore(FlatStores(near + other), name) == FindStore(FlatStores(near), name)
    ensures FindStore(FlatStores(near), name).None? ==>
              FindStore(FlatStores(near + far), name) == FindStore(FlatStores(far), name)
    ensures FindSource(FlatSources(near, io), name).Some? ==>
              FindSource(FlatSources(near + far, io), name) == FindSource(FlatSources(near + other, io), name)
    ensures FindSource(FlatSources(near, io), name).None? ==>
              FindSource(FlatSources(near + far, io), name) == FindSource(FlatSources(far, io), name)
  {
    FlatConcat(near, far, io);
    FlatConcat(near, other, io);
    FindStoreConcat(FlatStores(near), FlatStores(far), name);
    FindStoreConcat(FlatStores(near), FlatStores(other), name);
    FindSourceConcat(FlatSources(near, io), FlatSources(far, io), name);
    FindSourceConcat(FlatSources(near, io), FlatSources(other, io), name);
  }

  /** A store of the child overrides one of the same name in the parent, even for a data source
      that only the parent has. */
  lemma ChildStoreOverrides(child: Level, above: seq<Level>, name: string, source: Source, store: Store)
    requires FindSource(child.inputs, name).None? && FindSource(FlatSources(above, Input), name) == Some(source)
    requires FindStore(child.stores, source.storeName) == Some(store)
    ensures Resolved([child] + above, None, name) == Some((source, store))
  {
    assert ([child] + above)[1..] == above;
    FindSourceConcat(child.inputs, FlatSources(above, Input), name);
    FindStoreConcat(child.stores, FlatStores(above), source.storeName);
  }
}
