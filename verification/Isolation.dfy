/** Which inputs the passes of the initialisation depend on, what the payload pass keeps, and
    which orders matter. */
module Isolation {
  import opened Placeholders
  import opened Templates
  import opened ParameterSubstitution
  import opened Expansion
  import opened Inflation
  import opened MapSubstitution
  import opened MapLoops
  import opened Completeness
  import opened EnvironmentPass
  import opened Survival
  import opened Initialisation

  // ------------------------------------------------------------ the payload pass

  /** Well-formed templates at every map depth and in lists. */
  ghost predicate TemplateValue(v: Value)
  {
    match v
    case Str(s) => WellFormed(s)
    case Scalar(_) => true
    case List(elems) => forall e | e in elems :: e.Str? ==> WellFormed(e.s)
    case Map(entries) => forall k | k in entries :: TemplateValue(entries[k])
  }

  lemma EnvironmentNames(scope: Scope, t: string)
    requires !scope.allowAttributes
    ensures Named(scope, t) && !Empties(scope, t)
  {
    forall p | p in Refs(Scan(t)) ensures !PlanFor(scope, p).Unknown? && PlanFor(scope, p) != Inflate({}) {
      EnvironmentPlan(scope, p);
    }
  }

  lemma {:induction false} TemplateSubstitutable(scope: Scope, v: Value)
    requires !scope.allowAttributes && TemplateValue(v)
    ensures Substitutable(scope, v)
  {
    match v
    case Str(t) => EnvironmentNames(scope, t);
    case Scalar(_) =>
    case List(_) =>
    case Map(entries) =>
      forall k | k in entries ensures Substitutable(scope, entries[k]) { TemplateSubstitutable(scope, entries[k]); }
  }

  /** The payload pass leaves nothing but what remains of each entry, at its place: its own
      templates with every attribute and VAR placeholder verbatim and in order, and no
      environment placeholder. On a regular map every entry survives, for every choice. */
  lemma PayloadPassKeeps(scope: Scope, m: Attributes, after: Attributes)
    requires BraceFreeScope(scope) && !scope.allowAttributes && TemplateValue(Map(m)) && PassResult(scope, m, after)
    ensures forall j | j in after :: SomeRemains(scope, Map(m), j, after[j])
    ensures RegularMap(scope, Map(m)) ==> forall k | k in m :: Survives(scope, k, m[k], after)
  {
    var s :| Ranges(scope, false, m, s, after);
    TemplateSubstitutable(scope, Map(m));
    RangeRemains(scope, false, Map(m), s, after);
    if RegularMap(scope, Map(m)) { RangeSurvives(scope, false, Map(m), s, after); }
  }

  /** What the payload pass keeps is every placeholder of another kind. */
  lemma KeptInPayload(scope: Scope, template: string)
    requires !scope.allowAttributes
    ensures Kept(scope, Refs(Scan(template))) == OfKinds({ATTR, VAR}, Refs(Scan(template)))
  {
    KeptOfKinds(scope, Refs(Scan(template)));
  }

  /** In the payload pass no entry vanishes: an environment value always has a field. */
  lemma PayloadPassLosesNothing(scope: Scope, k: string, v: Value)
    requires !scope.allowAttributes && RegularEntry(scope, k, v)
    ensures ExpandEntry(scope, k, v) != map[]
  {
    EntryVanishesExactlyWhen(scope, k, v);
    if v.Str? { EnvironmentNames(scope, v.s); }
  }

  // ------------------------------------------------------------ one result

  ghost predicate RegularSource(scope: Scope, ds: DataSource)
  {
    && Tame(scope, ds.name) && CollisionFree(scope, "name", ds.name)
    && RegularMap(scope, Map(AsValues(ds.paths)))
  }

  lemma SourceDeterministic(scope: Scope, ds: DataSource, a: DataSource, b: DataSource)
    requires RegularSource(scope, ds) && SourceSubstitutes(scope, ds, a) && SourceSubstitutes(scope, ds, b)
    ensures a == b
  {
    var la :| Substitutes(scope, "name", ds.name, Success(la)) && "name" in la && a.name == la["name"];
    var lb :| Substitutes(scope, "name", ds.name, Success(lb)) && "name" in lb && b.name == lb["name"];
    InertLaterFree(scope, Scan(ds.name));
    ResultUnique(scope, "name", ds.name, la);
    ResultUnique(scope, "name", ds.name, lb);
    var sa :| Ranges(scope, true, AsValues(ds.paths), sa, AsValues(a.paths));
    var sb :| Ranges(scope, true, AsValues(ds.paths), sb, AsValues(b.paths));
    ScheduleIndependence(scope, true, Map(AsValues(ds.paths)), sa, AsValues(a.paths));
    ScheduleIndependence(scope, true, Map(AsValues(ds.paths)), sb, AsValues(b.paths));
    SameLines(a.paths, b.paths);
  }

  lemma SameLines(a: Lines, b: Lines)
    requires AsValues(a) == AsValues(b)
    ensures a == b
  {
    assert a.Keys == AsValues(a).Keys == b.Keys;
    forall k | k in a ensures a[k] == b[k] {
      assert AsValues(a)[k] == AsValues(b)[k];
    }
  }

  ghost predicate RegularSources(scope: Scope, sources: seq<DataSource>)
  {
    forall i | 0 <= i < |sources| :: RegularSource(scope, sources[i])
  }

  lemma SourcesDeterministic(scope: Scope, sources: seq<DataSource>, a: seq<DataSource>, b: seq<DataSource>)
    requires RegularSources(scope, sources) && SourcesSubstitute(scope, sources, a) && SourcesSubstitute(scope, sources, b)
    ensures a == b
  {
    forall i | 0 <= i < |sources| ensures a[i] == b[i] {
      SourceDeterministic(scope, sources[i], a[i], b[i]);
    }
  }

  lemma PassDeterministic(scope: Scope, m: Attributes, after: Attributes)
    requires RegularMap(scope, Map(m)) && PassResult(scope, m, after)
    ensures after == ExpandMap(scope, Map(m))
  {
    var s :| Ranges(scope, false, m, s, after);
    ScheduleIndependence(scope, false, Map(m), s, after);
  }

  ghost predicate RegularAction(env: string -> string, composite: Value -> string, payload: Attributes, a: Action)
  {
    var full := Full(env, composite, payload);
    && RegularMap(full, Map(a.attributes))
    && var combined := Full(env, composite, Combined(payload, ExpandMap(full, Map(a.attributes))));
    RegularSources(combined, a.inputs) && RegularSources(combined, a.outputs)
  }

  /** An action's result is a function of the payload attributes and its own fields. */
  lemma ActionDeterministic(env: string -> string, composite: Value -> string, payload: Attributes, action: Action, a: Action, b: Action)
    requires RegularAction(env, composite, payload, action)
    requires ActionSubstitutes(env, composite, payload, action, a) && ActionSubstitutes(env, composite, payload, action, b)
    ensures a == b
  {
    var full := Full(env, composite, payload);
    PassDeterministic(full, action.attributes, a.attributes);
    PassDeterministic(full, action.attributes, b.attributes);
    var combined := Full(env, composite, Combined(payload, a.attributes));
    SourcesDeterministic(combined, action.inputs, a.inputs, b.inputs);
    SourcesDeterministic(combined, action.outputs, a.outputs, b.outputs);
  }

  ghost predicate RegularActions(env: string -> string, composite: Value -> string, payload: Attributes, actions: seq<Action>)
  {
    forall i | 0 <= i < |actions| :: RegularAction(env, composite, payload, actions[i])
  }

  /** What the actions become together is unique. */
  lemma ActionsDeterministic(env: string -> string, composite: Value -> string, payload: Attributes, before: seq<Action>,
                             a: seq<Action>, b: seq<Action>)
    requires RegularActions(env, composite, payload, before)
    requires ActionsSubstitute(env, composite, payload, before, a) && ActionsSubstitute(env, composite, payload, before, b)
    ensures a == b
  {
    forall i | 0 <= i < |before| ensures a[i] == b[i] {
      ActionDeterministic(env, composite, payload, before[i], a[i], b[i]);
    }
  }

  // ------------------------------------------------------------ the whole payload

  ghost predicate RegularPayload(env: string -> string, composite: Value -> string, before: Payload)
  {
    var payloadScope := EnvOnly(env, composite, before.attributes);
    && RegularMap(payloadScope, Map(before.attributes))
    && var attributes := ExpandMap(payloadScope, Map(before.attributes));
    var full := Full(env, composite, attributes);
    && (forall i | 0 <= i < |before.stores| :: RegularMap(full, Map(before.stores[i].parameters)))
    && RegularSources(full, before.inputs) && RegularSources(full, before.outputs)
    && RegularActions(env, composite, attributes, before.actions)
  }

  /** Initialisation has one result: no schedule of any of its loops can be told from it. */
  lemma InitialisationDeterministic(env: string -> string, composite: Value -> string, before: Payload, a: Payload, b: Payload)
    requires RegularPayload(env, composite, before)
    requires Initialised(env, composite, before, a) && Initialised(env, composite, before, b)
    ensures a == b
  {
    var payloadScope := EnvOnly(env, composite, before.attributes);
    PassDeterministic(payloadScope, before.attributes, a.attributes);
    PassDeterministic(payloadScope, before.attributes, b.attributes);
    var full := Full(env, composite, a.attributes);
    StoresDeterministic(full, before.stores, a.stores, b.stores);
    SourcesDeterministic(full, before.inputs, a.inputs, b.inputs);
    SourcesDeterministic(full, before.outputs, a.outputs, b.outputs);
    ActionsDeterministic(env, composite, a.attributes, before.actions, a.actions, b.actions);
  }

  lemma StoresDeterministic(scope: Scope, stores: seq<DataStore>, a: seq<DataStore>, b: seq<DataStore>)
    requires forall i | 0 <= i < |stores| :: RegularMap(scope, Map(stores[i].parameters))
    requires StoresSubstitute(scope, stores, a) && StoresSubstitute(scope, stores, b)
    ensures a == b
  {
    forall i | 0 <= i < |stores| ensures a[i] == b[i] {
      PassDeterministic(scope, stores[i].parameters, a[i].parameters);
      PassDeterministic(scope, stores[i].parameters, b[i].parameters);
    }
  }
}
