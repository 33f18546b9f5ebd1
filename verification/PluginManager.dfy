/** `substituteVariables` as it runs: maps and slices are objects that structs and their copies
    share, and everything is updated in place. */
module PluginManagers {
  import opened ParameterSubstitution
  import opened MapSubstitution
  import opened MapLoops
  import opened Initialisation

  lemma FailsInEither(scope: Scope, a: seq<DataSource>, b: seq<DataSource>)
    requires SomeSourceFails(scope, a) || SomeSourceFails(scope, b)
    ensures SomeSourceFails(scope, a + b)
  {
    if SomeSourceFails(scope, a) {
      var i :| 0 <= i < |a| && SourceFails(scope, a[i]);
      assert (a + b)[i] == a[i];
    } else {
      var i :| 0 <= i < |b| && SourceFails(scope, b[i]);
      assert (a + b)[|a| + i] == b[i];
    }
  }

  datatype Result = Ok | Err | Panic

  // ------------------------------------------------------------ data sources in a slice

  ghost function PathObjects(refs: seq<SourceRef>): set<object> { set r | r in refs :: r.paths }

  /** No two data sources share their map of paths. */
  ghost predicate DistinctPaths(refs: seq<SourceRef>)
  {
    forall i, j | 0 <= i < j < |refs| :: refs[i].paths != refs[j].paths
  }

  ghost function SourceViews(refs: seq<SourceRef>): (views: seq<DataSource>)
    reads PathObjects(refs)
    ensures |views| == |refs|
  {
    seq(|refs|, i requires 0 <= i < |refs| reads PathObjects(refs) => SourceView(refs[i]))
  }

  /** The same maps of paths; the names may differ. */
  ghost predicate SamePaths(refs: seq<SourceRef>, after: seq<SourceRef>)
  {
    |after| == |refs| && forall i | 0 <= i < |refs| :: after[i].paths == refs[i].paths
  }

  lemma SamePathObjects(refs: seq<SourceRef>, after: seq<SourceRef>)
    requires SamePaths(refs, after)
    ensures PathObjects(after) == PathObjects(refs)
    ensures DistinctPaths(refs) ==> DistinctPaths(after)
  {
    forall r | r in refs ensures r.paths in PathObjects(after) {
      var i :| 0 <= i < |refs| && refs[i] == r;
      assert after[i] in after;
    }
    forall r | r in after ensures r.paths in PathObjects(refs) {
      var i :| 0 <= i < |after| && after[i] == r;
      assert refs[i] in refs;
    }
  }

  /** The loop over a slice of data sources: each struct is copied, the copy is substituted, its
      map of paths in place, and the copy is written back. */
  method SubstituteSources(scope: Scope, sources: array<SourceRef>) returns (r: Result)
    requires DistinctPaths(sources[..])
    modifies sources, PathObjects(sources[..])
    ensures SamePaths(old(sources[..]), sources[..])
    ensures r.Ok? ==> SourcesSubstitute(scope, old(SourceViews(sources[..])), SourceViews(sources[..]))
    ensures r.Err? ==> SomeSourceFails(scope, old(SourceViews(sources[..])))
    ensures r.Panic? ==> SomeSourcePanics(scope, old(SourceViews(sources[..])))
  {
    ghost var refs, views := sources[..], SourceViews(sources[..]);
    for i := 0 to sources.Length
      invariant SamePaths(refs, sources[..])
      invariant forall j | i <= j < sources.Length :: SourceView(sources[j]) == views[j]
      invariant forall j | 0 <= j < i :: SourceSubstitutes(scope, views[j], SourceView(sources[j]))
    {
      var schedule: Schedule := *;
      var ds := sources[i];
      assert refs[i] in refs && ds.paths == refs[i].paths;
      assert forall j | 0 <= j < sources.Length && j != i :: sources[j].paths != ds.paths;
      var outcome, after := PathsSubstitute(scope, ds, schedule);
      if outcome.SourcePanic? {
        return Panic;
      }
      if outcome.SourceFailure? {
        return Err;
      }
      sources[i] := after;
    }
    return Ok;
  }

  /** Two slices of data sources that share nothing. */
  ghost predicate SlicesApart(inputs: array<SourceRef>, outputs: array<SourceRef>)
    reads inputs, outputs
  {
    && inputs != outputs
    && DistinctPaths(inputs[..]) && DistinctPaths(outputs[..])
    && PathObjects(inputs[..]) !! PathObjects(outputs[..])
  }

  ghost function SliceObjects(inputs: array<SourceRef>, outputs: array<SourceRef>): set<object>
    reads inputs, outputs
  {
    {inputs, outputs} + PathObjects(inputs[..]) + PathObjects(outputs[..])
  }

  /** The loop over one of two slices; the other stays as it is. */
  method SubstituteOneSlice(scope: Scope, sources: array<SourceRef>, other: array<SourceRef>) returns (r: Result)
    requires SlicesApart(sources, other)
    modifies sources, PathObjects(sources[..])
    ensures SamePaths(old(sources[..]), sources[..]) && SlicesApart(sources, other)
    ensures other[..] == old(other[..]) && SourceViews(other[..]) == old(SourceViews(other[..]))
    ensures r.Ok? ==> SourcesSubstitute(scope, old(SourceViews(sources[..])), SourceViews(sources[..]))
    ensures r.Err? ==> SomeSourceFails(scope, old(SourceViews(sources[..])))
    ensures r.Panic? ==> SomeSourcePanics(scope, old(SourceViews(sources[..])))
  {
    ghost var refs := sources[..];
    r := SubstituteSources(scope, sources);
    SamePathObjects(refs, sources[..]);
  }

  /** The loop over the inputs, then the one over the outputs. */
  method SubstituteSlices(scope: Scope, inputs: array<SourceRef>, outputs: array<SourceRef>) returns (r: Result)
    requires SlicesApart(inputs, outputs)
    modifies inputs, outputs, PathObjects(inputs[..]), PathObjects(outputs[..])
    ensures SlicesApart(inputs, outputs) && SliceObjects(inputs, outputs) == old(SliceObjects(inputs, outputs))
    ensures r.Ok? ==> && SourcesSubstitute(scope, old(SourceViews(inputs[..])), SourceViews(inputs[..]))
                      && SourcesSubstitute(scope, old(SourceViews(outputs[..])), SourceViews(outputs[..]))
    ensures r.Err? ==> SomeSourceFails(scope, old(SourceViews(inputs[..])) + old(SourceViews(outputs[..])))
    ensures r.Panic? ==> SomeSourcePanics(scope, old(SourceViews(inputs[..]))) || SomeSourcePanics(scope, old(SourceViews(outputs[..])))
  {
    ghost var inputRefs, outputRefs := inputs[..], outputs[..];
    ghost var inputViews, outputViews := SourceViews(inputs[..]), SourceViews(outputs[..]);
    r := SubstituteOneSlice(scope, inputs, outputs);
    SamePathObjects(inputRefs, inputs[..]);
    if r.Err? { FailsInEither(scope, inputViews, outputViews); }
    if !r.Ok? {
      return;
    }
    r := SubstituteOneSlice(scope, outputs, inputs);
    SamePathObjects(outputRefs, outputs[..]);
    if r.Err? { FailsInEither(scope, inputViews, outputViews); }
  }

  // ------------------------------------------------------------ stores

  /** A store struct; its parameters are a shared map. */
  datatype StoreRef = StoreRef(name: string, parameters: AttributeMap)

  ghost function StoreObjects(refs: seq<StoreRef>): set<object> { set r | r in refs :: r.parameters }

  ghost predicate DistinctParameters(refs: seq<StoreRef>)
  {
    forall i, j | 0 <= i < j < |refs| :: refs[i].parameters != refs[j].parameters
  }

  ghost function StoreView(ref: StoreRef): DataStore
    reads ref.parameters
  {
    DataStore(ref.name, ref.parameters.entries)
  }

  ghost function StoreViews(refs: seq<StoreRef>): (views: seq<DataStore>)
    reads StoreObjects(refs)
    ensures |views| == |refs|
  {
    seq(|refs|, i requires 0 <= i < |refs| reads StoreObjects(refs) => StoreView(refs[i]))
  }

  /** The loop over the stores; the structs are copies, the parameters are rewritten in place. */
  method SubstituteStores(env: string -> string, composite: Value -> string, attributes: AttributeMap, stores: seq<StoreRef>)
    returns (r: Result)
    requires DistinctParameters(stores) && attributes !in StoreObjects(stores)
    modifies StoreObjects(stores)
    ensures var full := Full(env, composite, old(attributes.entries));
            && (r.Ok? ==> StoresSubstitute(full, old(StoreViews(stores)), StoreViews(stores)))
            && (r.Panic? ==> SomeStorePanics(full, old(StoreViews(stores))))
    ensures !r.Err?
  {
    ghost var full, views := Full(env, composite, attributes.entries), StoreViews(stores);
    for i := 0 to |stores|
      invariant attributes.entries == old(attributes.entries)
      invariant forall j | i <= j < |stores| :: StoreView(stores[j]) == views[j]
      invariant forall j | 0 <= j < i :: StoreView(stores[j]).name == views[j].name
                                         && PassResult(full, views[j].parameters, stores[j].parameters.entries)
    {
      var schedule: Schedule := *;
      var store := stores[i];
      assert store in stores && store.parameters != attributes;
      var pass := SubstituteMapVariables(env, composite, attributes, store.parameters, true, schedule);
      if pass.MapPanic? {
        assert PassPanics(full, views[i].parameters);
        return Panic;
      }
      assert PassResult(full, views[i].parameters, store.parameters.entries);
    }
    return Ok;
  }

  // ------------------------------------------------------------ actions

  /** An action struct: copies share the map of attributes and the slices of data sources. */
  datatype ActionRef = ActionRef(name: string, attributes: AttributeMap, inputs: array<SourceRef>, outputs: array<SourceRef>)

  /** What an action refers to. */
  ghost function ActionObjects(a: ActionRef): set<object>
    reads a.inputs, a.outputs
  {
    {a.attributes} + SliceObjects(a.inputs, a.outputs)
  }

  ghost function ActionView(a: ActionRef): Action
    reads ActionObjects(a)
  {
    Action(a.name, a.attributes.entries, SourceViews(a.inputs[..]), SourceViews(a.outputs[..]))
  }

  /** One iteration of the loop over the actions: `a` is a copy of the struct. */
  method SubstituteAction(env: string -> string, composite: Value -> string, payload: AttributeMap, a: ActionRef) returns (r: Result)
    requires SlicesApart(a.inputs, a.outputs) && payload != a.attributes
    modifies ActionObjects(a)
    ensures SlicesApart(a.inputs, a.outputs) && ActionObjects(a) == old(ActionObjects(a))
    ensures r.Ok? ==> ActionSubstitutes(env, composite, old(payload.entries), old(ActionView(a)), ActionView(a))
    ensures r.Err? ==> ActionFails(env, composite, old(payload.entries), old(ActionView(a)))
    ensures r.Panic? ==> ActionPanics(env, composite, old(payload.entries), old(ActionView(a)))
  {
    ghost var view := ActionView(a);
    var schedule: Schedule := *;
    var pass := SubstituteMapVariables(env, composite, payload, a.attributes, true, schedule);
    if pass.MapPanic? {
      return Panic;
    }
    assert PassResult(Full(env, composite, payload.entries), view.attributes, a.attributes.entries);
    var combined := new AttributeMap(payload.entries);
    combined.entries := combined.entries + a.attributes.entries;
    assert SourceViews(a.inputs[..]) == view.inputs && SourceViews(a.outputs[..]) == view.outputs;
    r := SubstituteSlices(Full(env, composite, combined.entries), a.inputs, a.outputs);
  }

  /** The actions share nothing with one another. */
  ghost predicate PairwiseDisjoint(objects: seq<set<object>>)
  {
    forall i, j | 0 <= i < j < |objects| :: objects[i] !! objects[j]
  }

  ghost function Everything(objects: seq<set<object>>): set<object>
  {
    set i, o | 0 <= i < |objects| && o in objects[i] :: o
  }

  /** What each of the actions refers to. */
  ghost predicate Footprints(refs: seq<ActionRef>, objects: seq<set<object>>)
    reads Everything(objects)
  {
    && |objects| == |refs|
    && forall i | 0 <= i < |refs| :: Footprint(refs[i], objects[i])
  }

  ghost predicate Footprint(a: ActionRef, objects: set<object>)
    reads objects
  {
    a.inputs in objects && a.outputs in objects && SlicesApart(a.inputs, a.outputs) && ActionObjects(a) == objects
  }

  /** The values the actions have at this moment. */
  ghost function ActionViews(refs: seq<ActionRef>, objects: seq<set<object>>): (views: seq<Action>)
    requires Footprints(refs, objects)
    reads Everything(objects)
    ensures |views| == |refs|
  {
    seq(|refs|, i requires 0 <= i < |refs| && Footprints(refs, objects) reads Everything(objects) =>
      assert Footprint(refs[i], objects[i]); ActionView(refs[i]))
  }

  /** One action among others: the others, and the attributes of the payload, stay as they are. */
  method SubstituteOne(env: string -> string, composite: Value -> string, payload: AttributeMap, refs: seq<ActionRef>,
                       ghost objects: seq<set<object>>,
                       k: nat, ghost before: seq<Action>)
    returns (r: Result, ghost after: seq<Action>)
    requires Footprints(refs, objects) && PairwiseDisjoint(objects) && k < |refs| && payload !in objects[k]
    requires before == ActionViews(refs, objects)
    modifies objects[k]
    ensures Footprints(refs, objects) && payload.entries == old(payload.entries)
    ensures r.Ok? ==> && after == ActionViews(refs, objects) && after == before[k := after[k]]
                      && ActionSubstitutes(env, composite, payload.entries, before[k], after[k])
    ensures r.Err? ==> ActionFails(env, composite, payload.entries, before[k])
    ensures r.Panic? ==> ActionPanics(env, composite, payload.entries, before[k])
  {
    assert Footprint(refs[k], objects[k]);
    r := SubstituteAction(env, composite, payload, refs[k]);
    after := before[k := ActionView(refs[k])];
    forall i | 0 <= i < |refs| && i != k
      ensures Footprint(refs[i], objects[i]) && ActionView(refs[i]) == before[i]
    {
      assert objects[i] !! objects[k] && old(Footprint(refs[i], objects[i]));
      assert Footprint(refs[i], objects[i]);
    }
  }

  /** An order in which all actions are visited once. */
  ghost predicate IsPermutation(order: seq<nat>, n: nat)
  {
    (forall i, j | 0 <= i < j < |order| :: order[i] != order[j]) && forall i: nat :: i in order <==> i < n
  }

  /** The actions visited have been substituted, each on its own; the others are as before. */
  ghost predicate Partly(env: string -> string, composite: Value -> string, payload: Attributes, before: seq<Action>,
                         now: seq<Action>, visited: seq<nat>)
  {
    && |now| == |before|
    && (forall i: nat | i < |before| && i !in visited :: now[i] == before[i])
    && forall i: nat | i < |before| && i in visited :: ActionSubstitutes(env, composite, payload, before[i], now[i])
  }

  lemma OneMoreAction(env: string -> string, composite: Value -> string, payload: Attributes, before: seq<Action>,
                      now: seq<Action>, visited: seq<nat>,
                      k: nat, after: seq<Action>)
    requires Partly(env, composite, payload, before, now, visited) && k < |before| && k !in visited
    requires |after| == |now| && after == now[k := after[k]] && ActionSubstitutes(env, composite, payload, now[k], after[k])
    ensures Partly(env, composite, payload, before, after, visited + [k])
  {
    assert forall i :: i in visited + [k] <==> i in visited || i == k;
    assert forall i: nat | i < |before| && i != k :: after[i] == now[i];
  }

  lemma NextAction(order: seq<nat>, count: nat, n: nat)
    requires IsPermutation(order, count) && n < |order|
    ensures order[n] < count && order[n] !in order[..n] && order[..n + 1] == order[..n] + [order[n]]
  {
    assert order[n] in order;
  }

  lemma AllActions(env: string -> string, composite: Value -> string, payload: Attributes, before: seq<Action>,
                   now: seq<Action>, order: seq<nat>, n: nat)
    requires IsPermutation(order, |before|) && n == |order| && Partly(env, composite, payload, before, now, order[..n])
    ensures ActionsSubstitute(env, composite, payload, before, now)
  {
    assert order[..n] == order;
  }

  lemma StillBefore(env: string -> string, composite: Value -> string, payload: Attributes, before: seq<Action>,
                    now: seq<Action>, visited: seq<nat>, k: nat)
    requires Partly(env, composite, payload, before, now, visited) && k < |before| && k !in visited
    ensures ActionFails(env, composite, payload, now[k]) ==> SomeActionFails(env, composite, payload, before)
    ensures ActionPanics(env, composite, payload, now[k]) ==> SomeActionPanics(env, composite, payload, before)
  {
    assert now[k] == before[k];
  }

  lemma PartOfEverything(objects: seq<set<object>>, k: nat, o: object)
    requires k < |objects|
    ensures objects[k] <= Everything(objects) && (o !in Everything(objects) ==> o !in objects[k])
  {
  }

  /** The loop over the actions, in any order; the range clause yields copies of the structs and
      nothing is written back to the slice. Each action becomes what it would become alone, and
      the attributes of the payload stay as they are. */
  method SubstituteActions(env: string -> string, composite: Value -> string, payload: AttributeMap, refs: seq<ActionRef>,
                           ghost objects: seq<set<object>>,
                           order: seq<nat>, ghost before: seq<Action>)
    returns (r: Result, ghost after: seq<Action>)
    requires Footprints(refs, objects) && PairwiseDisjoint(objects) && payload !in Everything(objects)
    requires IsPermutation(order, |refs|) && before == ActionViews(refs, objects)
    modifies Everything(objects)
    ensures Footprints(refs, objects) && payload.entries == old(payload.entries)
    ensures r.Ok? ==> after == ActionViews(refs, objects) && ActionsSubstitute(env, composite, payload.entries, before, after)
    ensures r.Err? ==> SomeActionFails(env, composite, payload.entries, before)
    ensures r.Panic? ==> SomeActionPanics(env, composite, payload.entries, before)
  {
    after := before;
    for n := 0 to |order|
      invariant Footprints(refs, objects) && after == ActionViews(refs, objects) && payload.entries == old(payload.entries)
      invariant Partly(env, composite, payload.entries, before, after, order[..n])
    {
      var k := order[n];
      NextAction(order, |refs|, n);
      ghost var now := after;
      PartOfEverything(objects, k, payload);
      StillBefore(env, composite, payload.entries, before, now, order[..n], k);
      r, after := SubstituteOne(env, composite, payload, refs, objects, k, now);
      if !r.Ok? {
        return;
      }
      OneMoreAction(env, composite, payload.entries, before, now, order[..n], k, after);
    }
    AllActions(env, composite, payload.entries, before, after, order, |order|);
    r := Ok;
  }

  // ------------------------------------------------------------ a decoded payload

  lemma PathObjectsSnoc(refs: seq<SourceRef>, r: SourceRef)
    ensures PathObjects(refs + [r]) == PathObjects(refs) + {r.paths}
  {
    assert forall x :: x in refs + [r] <==> x in refs || x == r;
  }

  /** Decoding makes a new slice, and a new map for each data source. */
  method NewSources(sources: seq<DataSource>) returns (refs: array<SourceRef>)
    ensures fresh(refs) && fresh(PathObjects(refs[..])) && DistinctPaths(refs[..]) && SourceViews(refs[..]) == sources
  {
    var built: seq<SourceRef> := [];
    for i := 0 to |sources|
      invariant |built| == i && fresh(PathObjects(built)) && DistinctPaths(built)
      invariant SourceViews(built) == sources[..i]
    {
      var paths := new PathMap(sources[i].paths);
      assert forall j | 0 <= j < i :: built[j] in built && built[j].paths != paths;
      PathObjectsSnoc(built, SourceRef(sources[i].name, paths, sources[i].storeName));
      ghost var views := SourceViews(built);
      built := built + [SourceRef(sources[i].name, paths, sources[i].storeName)];
      assert SourceViews(built) == views + [sources[i]];
    }
    refs := new SourceRef[|built|](i requires 0 <= i < |built| => built[i]);
    assert refs[..] == built;
  }

  lemma StoreObjectsSnoc(refs: seq<StoreRef>, r: StoreRef)
    ensures StoreObjects(refs + [r]) == StoreObjects(refs) + {r.parameters}
  {
    assert forall x :: x in refs + [r] <==> x in refs || x == r;
  }

  method NewStores(stores: seq<DataStore>) returns (refs: seq<StoreRef>)
    ensures fresh(StoreObjects(refs)) && DistinctParameters(refs) && StoreViews(refs) == stores
  {
    refs := [];
    for i := 0 to |stores|
      invariant |refs| == i && fresh(StoreObjects(refs)) && DistinctParameters(refs)
      invariant StoreViews(refs) == stores[..i]
    {
      var parameters := new AttributeMap(stores[i].parameters);
      assert forall j | 0 <= j < i :: refs[j] in refs && refs[j].parameters != parameters;
      StoreObjectsSnoc(refs, StoreRef(stores[i].name, parameters));
      ghost var views := StoreViews(refs);
      refs := refs + [StoreRef(stores[i].name, parameters)];
      assert StoreViews(refs) == views + [stores[i]];
    }
  }

  method NewAction(a: Action) returns (ref: ActionRef)
    ensures fresh(ActionObjects(ref)) && SlicesApart(ref.inputs, ref.outputs) && ActionView(ref) == a
  {
    var attributes := new AttributeMap(a.attributes);
    var inputs := NewSources(a.inputs);
    var outputs := NewSources(a.outputs);
    ref := ActionRef(a.name, attributes, inputs, outputs);
  }

  lemma FootprintsSnoc(refs: seq<ActionRef>, objects: seq<set<object>>, ref: ActionRef)
    requires Footprints(refs, objects) && SlicesApart(ref.inputs, ref.outputs)
    requires PairwiseDisjoint(objects) && Everything(objects) !! ActionObjects(ref)
    ensures Footprints(refs + [ref], objects + [ActionObjects(ref)])
    ensures PairwiseDisjoint(objects + [ActionObjects(ref)])
    ensures Everything(objects + [ActionObjects(ref)]) == Everything(objects) + ActionObjects(ref)
    ensures ActionViews(refs + [ref], objects + [ActionObjects(ref)]) == ActionViews(refs, objects) + [ActionView(ref)]
  {
    var more := objects + [ActionObjects(ref)];
    forall i | 0 <= i < |objects| ensures objects[i] !! ActionObjects(ref) {
      PartOfEverything(objects, i, ref.inputs);
    }
    forall o ensures o in Everything(more) <==> o in Everything(objects) || o in ActionObjects(ref) {
      if o in ActionObjects(ref) { assert o in more[|objects|]; }
      if o in Everything(objects) {
        var i :| 0 <= i < |objects| && o in objects[i];
        assert o in more[i];
      }
    }
  }

  lemma TakeOneMore(actions: seq<Action>, i: nat)
    requires i < |actions|
    ensures actions[..i + 1] == actions[..i] + [actions[i]]
  {
  }

  method AppendAction(refs: seq<ActionRef>, ghost objects: seq<set<object>>, a: Action) returns (ref: ActionRef)
    requires Footprints(refs, objects) && PairwiseDisjoint(objects)
    ensures fresh(ActionObjects(ref))
    ensures Footprints(refs + [ref], objects + [ActionObjects(ref)]) && PairwiseDisjoint(objects + [ActionObjects(ref)])
    ensures Everything(objects + [ActionObjects(ref)]) == Everything(objects) + ActionObjects(ref)
    ensures ActionViews(refs + [ref], objects + [ActionObjects(ref)]) == old(ActionViews(refs, objects)) + [a]
  {
    ghost var views := ActionViews(refs, objects);
    ref := NewAction(a);
    assert Footprints(refs, objects) && ActionViews(refs, objects) == views;
    FootprintsSnoc(refs, objects, ref);
  }

  method NewActions(actions: seq<Action>) returns (refs: seq<ActionRef>, ghost objects: seq<set<object>>)
    ensures Footprints(refs, objects) && PairwiseDisjoint(objects) && fresh(Everything(objects))
    ensures ActionViews(refs, objects) == actions
  {
    refs, objects := [], [];
    for i := 0 to |actions|
      invariant Footprints(refs, objects) && PairwiseDisjoint(objects) && fresh(Everything(objects))
      invariant ActionViews(refs, objects) == actions[..i]
    {
      var ref := AppendAction(refs, objects, actions[i]);
      TakeOneMore(actions, i);
      refs, objects := refs + [ref], objects + [ActionObjects(ref)];
    }
  }

  // ------------------------------------------------------------ the plugin manager

  /** The order of the range clause over a slice. */
  function Ascending(n: nat): (order: seq<nat>)
    ensures |order| == n && forall i | 0 <= i < n :: order[i] == i
  {
    seq(n, i requires 0 <= i < n => i)
  }

  lemma AscendingVisitsAll(n: nat)
    ensures IsPermutation(Ascending(n), n)
  {
    forall i: nat ensures i in Ascending(n) <==> i < n {
      if i < n { assert Ascending(n)[i] == i; }
    }
  }

  /** Maps and slices of different owners are different objects. */
  ghost predicate Apart(attributes: AttributeMap, stores: seq<StoreRef>, inputs: array<SourceRef>,
                        outputs: array<SourceRef>, objects: seq<set<object>>)
    reads inputs, outputs
  {
    && SlicesApart(inputs, outputs) && DistinctParameters(stores) && PairwiseDisjoint(objects)
    && attributes !in StoreObjects(stores) && attributes !in SliceObjects(inputs, outputs) && attributes !in Everything(objects)
    && StoreObjects(stores) !! SliceObjects(inputs, outputs)
    && StoreObjects(stores) !! Everything(objects) && SliceObjects(inputs, outputs) !! Everything(objects)
  }

  class PluginManager {
    const attributes: AttributeMap
    const stores: seq<StoreRef>
    const inputs: array<SourceRef>
    const outputs: array<SourceRef>
    const actions: seq<ActionRef>
    /** What each of the actions refers to. */
    ghost const objects: seq<set<object>>

    ghost predicate Valid()
      reads inputs, outputs, Everything(objects)
    {
      Apart(attributes, stores, inputs, outputs, objects) && Footprints(actions, objects)
    }

    /** Everything the manager refers to. */
    ghost function Objects(): set<object>
      reads inputs, outputs
    {
      {attributes} + StoreObjects(stores) + SliceObjects(inputs, outputs) + Everything(objects)
    }

    ghost function View(): Payload
      requires Valid()
      reads inputs, outputs, Everything(objects), Objects()
    {
      Payload(attributes.entries, StoreViews(stores), SourceViews(inputs[..]), SourceViews(outputs[..]), ActionViews(actions, objects))
    }

    constructor (attributes: AttributeMap, stores: seq<StoreRef>, inputs: array<SourceRef>, outputs: array<SourceRef>,
                 actions: seq<ActionRef>, ghost objects: seq<set<object>>)
      requires Apart(attributes, stores, inputs, outputs, objects) && Footprints(actions, objects)
      ensures Valid() && this.attributes == attributes && this.stores == stores && this.inputs == inputs && this.outputs == outputs
      ensures this.actions == actions && this.objects == objects
      ensures View() == old(Payload(attributes.entries, StoreViews(stores), SourceViews(inputs[..]), SourceViews(outputs[..]),
                                    ActionViews(actions, objects)))
    {
      this.attributes, this.stores, this.inputs, this.outputs, this.actions, this.objects :=
        attributes, stores, inputs, outputs, actions, objects;
    }

    /** The pass over the payload attributes: the map rewritten is the one attributes are read from. */
    method SubstituteOwnAttributes(env: string -> string, composite: Value -> string) returns (r: MapOutcome)
      requires Valid()
      modifies attributes
      ensures Valid() && StoreViews(stores) == old(StoreViews(stores))
      ensures SourceViews(inputs[..]) == old(SourceViews(inputs[..])) && SourceViews(outputs[..]) == old(SourceViews(outputs[..]))
      ensures ActionViews(actions, objects) == old(ActionViews(actions, objects))
      ensures var scope := EnvOnly(env, composite, old(attributes.entries));
              && (r.Finished? ==> PassResult(scope, old(attributes.entries), attributes.entries))
              && (r.MapPanic? ==> PassPanics(scope, old(attributes.entries)))
    {
      var schedule: Schedule := *;
      r := SubstituteMapVariables(env, composite, attributes, attributes, false, schedule);
    }

    /** The loop over the stores. */
    method SubstituteOwnStores(env: string -> string, composite: Value -> string) returns (r: Result)
      requires Valid()
      modifies StoreObjects(stores)
      ensures Valid() && attributes.entries == old(attributes.entries)
      ensures SourceViews(inputs[..]) == old(SourceViews(inputs[..])) && SourceViews(outputs[..]) == old(SourceViews(outputs[..]))
      ensures ActionViews(actions, objects) == old(ActionViews(actions, objects))
      ensures var full := Full(env, composite, attributes.entries);
              && (r.Ok? ==> StoresSubstitute(full, old(StoreViews(stores)), StoreViews(stores)))
              && (r.Panic? ==> SomeStorePanics(full, old(StoreViews(stores))))
      ensures !r.Err?
    {
      r := SubstituteStores(env, composite, attributes, stores);
    }

    /** The loops over the data sources of the payload. */
    method SubstituteOwnSources(scope: Scope) returns (r: Result)
      requires Valid()
      modifies inputs, outputs, PathObjects(inputs[..]), PathObjects(outputs[..])
      ensures Valid() && Objects() == old(Objects())
      ensures attributes.entries == old(attributes.entries) && StoreViews(stores) == old(StoreViews(stores))
      ensures ActionViews(actions, objects) == old(ActionViews(actions, objects))
      ensures r.Ok? ==> && SourcesSubstitute(scope, old(SourceViews(inputs[..])), SourceViews(inputs[..]))
                        && SourcesSubstitute(scope, old(SourceViews(outputs[..])), SourceViews(outputs[..]))
      ensures r.Err? ==> SomeSourceFails(scope, old(SourceViews(inputs[..])) + old(SourceViews(outputs[..])))
      ensures r.Panic? ==> SomeSourcePanics(scope, old(SourceViews(inputs[..]))) || SomeSourcePanics(scope, old(SourceViews(outputs[..])))
    {
      ghost var slices, before := SliceObjects(inputs, outputs), ActionViews(actions, objects);
      r := SubstituteSlices(scope, inputs, outputs);
      assert SliceObjects(inputs, outputs) == slices;
      assert Footprints(actions, objects) && ActionViews(actions, objects) == before;
    }

    /** The passes before the actions. */
    method SubstitutePayload(env: string -> string, composite: Value -> string) returns (r: Result)
      requires Valid()
      modifies attributes, StoreObjects(stores), inputs, outputs, PathObjects(inputs[..]), PathObjects(outputs[..])
      ensures Valid() && Objects() == old(Objects())
      ensures ActionViews(actions, objects) == old(ActionViews(actions, objects))
      ensures var full := Full(env, composite, attributes.entries);
              r.Ok? ==>
                && PassResult(EnvOnly(env, composite, old(attributes.entries)), old(attributes.entries), attributes.entries)
                && StoresSubstitute(full, old(StoreViews(stores)), StoreViews(stores))
                && SourcesSubstitute(full, old(SourceViews(inputs[..])), SourceViews(inputs[..]))
                && SourcesSubstitute(full, old(SourceViews(outputs[..])), SourceViews(outputs[..]))
      ensures r.Err? ==> InitialisationFails(env, composite, old(View()), attributes.entries)
      ensures r.Panic? ==> InitialisationPanics(env, composite, old(View()))
    {
      ghost var before := View();
      var pass := SubstituteOwnAttributes(env, composite);
      if pass.MapPanic? {
        return Panic;
      }
      r := SubstituteOwnStores(env, composite);
      if r.Ok? {
        r := SubstituteOwnSources(Full(env, composite, attributes.entries));
      }
      if r.Panic? {
        assert LaterPanics(env, composite, attributes.entries, before);
      }
    }

    /** The loop over the actions. */
    method SubstituteOwnActions(env: string -> string, composite: Value -> string) returns (r: Result)
      requires Valid()
      modifies Everything(objects)
      ensures Valid() && Objects() == old(Objects())
      ensures attributes.entries == old(attributes.entries) && StoreViews(stores) == old(StoreViews(stores))
      ensures SourceViews(inputs[..]) == old(SourceViews(inputs[..])) && SourceViews(outputs[..]) == old(SourceViews(outputs[..]))
      ensures r.Ok? ==>
                ActionsSubstitute(env, composite, attributes.entries, old(ActionViews(actions, objects)), ActionViews(actions, objects))
      ensures r.Err? ==> SomeActionFails(env, composite, attributes.entries, old(ActionViews(actions, objects)))
      ensures r.Panic? ==> SomeActionPanics(env, composite, attributes.entries, old(ActionViews(actions, objects)))
    {
      AscendingVisitsAll(|actions|);
      ghost var after;
      r, after := SubstituteActions(env, composite, attributes, actions, objects, Ascending(|actions|), ActionViews(actions, objects));
    }

    method SubstituteVariables(env: string -> string, composite: Value -> string) returns (r: Result)
      requires Valid()
      modifies Objects()
      ensures Valid() && Objects() == old(Objects())
      ensures r.Ok? ==> Initialised(env, composite, old(View()), View())
      ensures r.Err? ==> InitialisationFails(env, composite, old(View()), attributes.entries)
      ensures r.Panic? ==> InitialisationPanics(env, composite, old(View()))
    {
      ghost var before := View();
      r := SubstitutePayload(env, composite);
      if !r.Ok? {
        return;
      }
      r := SubstituteOwnActions(env, composite);
      if r.Panic? {
        assert LaterPanics(env, composite, attributes.entries, before);
      }
    }
  }

  /** The slices and maps of a decoded payload, except its actions. */
  method NewSlices(payload: Payload) returns (attributes: AttributeMap, stores: seq<StoreRef>, inputs: array<SourceRef>,
                                              outputs: array<SourceRef>)
    ensures fresh(attributes) && fresh(StoreObjects(stores)) && fresh(SliceObjects(inputs, outputs))
    ensures Apart(attributes, stores, inputs, outputs, [])
    ensures attributes.entries == payload.attributes && StoreViews(stores) == payload.stores
    ensures SourceViews(inputs[..]) == payload.inputs && SourceViews(outputs[..]) == payload.outputs
  {
    attributes := new AttributeMap(payload.attributes);
    stores := NewStores(payload.stores);
    assert attributes !in StoreObjects(stores);
    inputs := NewSources(payload.inputs);
    outputs := NewSources(payload.outputs);
    assert StoreObjects(stores) !! SliceObjects(inputs, outputs);
  }

  lemma ApartFromNew(attributes: AttributeMap, stores: seq<StoreRef>, inputs: array<SourceRef>, outputs: array<SourceRef>,
                     objects: seq<set<object>>)
    requires Apart(attributes, stores, inputs, outputs, []) && PairwiseDisjoint(objects)
    requires Everything(objects) !! {attributes} + StoreObjects(stores) + SliceObjects(inputs, outputs)
    ensures Apart(attributes, stores, inputs, outputs, objects)
  {
    var others := {attributes} + StoreObjects(stores) + SliceObjects(inputs, outputs);
    assert attributes in others && StoreObjects(stores) <= others && SliceObjects(inputs, outputs) <= others;
  }

  /** The actions of a payload, beside what is there already. */
  method NewActionsBeside(stores: seq<StoreRef>, inputs: array<SourceRef>, outputs: array<SourceRef>, actions: seq<Action>)
    returns (refs: seq<ActionRef>, ghost objects: seq<set<object>>)
    ensures Footprints(refs, objects) && PairwiseDisjoint(objects) && fresh(Everything(objects)) && ActionViews(refs, objects) == actions
    ensures StoreViews(stores) == old(StoreViews(stores)) && SliceObjects(inputs, outputs) == old(SliceObjects(inputs, outputs))
    ensures SourceViews(inputs[..]) == old(SourceViews(inputs[..])) && SourceViews(outputs[..]) == old(SourceViews(outputs[..]))
    ensures Everything(objects) !! StoreObjects(stores) + SliceObjects(inputs, outputs)
  {
    refs, objects := NewActions(actions);
  }

  /** Everything a decoded payload consists of. */
  method NewParts(payload: Payload)
    returns (attributes: AttributeMap, stores: seq<StoreRef>, inputs: array<SourceRef>, outputs: array<SourceRef>, actions: seq<ActionRef>,
             ghost objects: seq<set<object>>)
    ensures fresh(attributes) && fresh(StoreObjects(stores)) && fresh(SliceObjects(inputs, outputs)) && fresh(Everything(objects))
    ensures Apart(attributes, stores, inputs, outputs, objects) && Footprints(actions, objects)
    ensures attributes.entries == payload.attributes && StoreViews(stores) == payload.stores
    ensures SourceViews(inputs[..]) == payload.inputs && SourceViews(outputs[..]) == payload.outputs
    ensures ActionViews(actions, objects) == payload.actions
  {
    attributes, stores, inputs, outputs := NewSlices(payload);
    actions, objects := NewActionsBeside(stores, inputs, outputs, payload.actions);
    ApartFromNew(attributes, stores, inputs, outputs, objects);
  }

  /** The manager of a decoded payload: everything in it is new, and nothing is shared. */
  method NewPluginManager(payload: Payload) returns (pm: PluginManager)
    ensures pm.Valid() && fresh(pm) && fresh(pm.Objects()) && pm.View() == payload
  {
    var attributes, stores, inputs, outputs, actions;
    ghost var objects;
    attributes, stores, inputs, outputs, actions, objects := NewParts(payload);
    pm := new PluginManager(attributes, stores, inputs, outputs, actions, objects);
  }
}
