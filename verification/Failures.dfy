/** When a range loop and the whole initialisation fail or panic. */
module Failures {
  import opened Templates
  import opened ParameterSubstitution
  import opened Expansion
  import opened Inflation
  import opened MapSubstitution
  import opened MapLoops
  import opened Initialisation
  import opened PluginManagers
  import opened Isolation

  // ------------------------------------------------------------ range loops never panic

  lemma StableStringCalm(scope: Scope, k: string, t: string)
    requires StableValue(scope, Str(t))
    ensures !Substitutes(scope, k, t, Panicked)
  {
    if Substitutes(scope, k, t, Panicked) { StableString(scope, k, t, Panicked); }
  }

  lemma StableListCalm(scope: Scope, elems: seq<Value>)
    requires forall e | e in elems :: e.Str? ==> Inert(scope, e.s)
    ensures !ListPanics(scope, elems)
  {
    forall e | e in elems && e.Str? ensures !Substitutes(scope, "", e.s, Panicked) {
      InertIdentity(scope, "", e.s, Panicked);
    }
  }

  lemma StableVisitCalm(scope: Scope, strict: bool, m: Attributes, k: string, inner: Schedule)
    requires k in m && StableValue(scope, m[k])
    ensures !VisitPanics(scope, strict, m, k, inner)
    decreases inner, 1
  {
    if m[k].Str? {
      StableStringCalm(scope, k, m[k].s);
    } else if m[k].List? {
      StableListCalm(scope, m[k].elems);
    } else if m[k].Map? {
      StableRunCalm(scope, strict, m[k].entries, inner);
    }
  }

  lemma {:induction false} StableRunCalm(scope: Scope, strict: bool, m: Attributes, s: Schedule)
    requires StableMap(scope, m)
    ensures !RunPanics(scope, strict, m, s)
    decreases s, 0
  {
    if s.Visit? && s.key in m {
      StableVisitCalm(scope, strict, m, s.key, s.inner);
      forall mid | Visits(scope, strict, m, s.key, s.inner, mid) ensures !RunPanics(scope, strict, mid, s.rest) {
        StableVisit(scope, strict, m, s.key, s.inner, mid);
        StableRunCalm(scope, strict, m, s.rest);
      }
    }
  }

  lemma TameStringCalm(scope: Scope, k: string, t: string)
    requires Tame(scope, t)
    ensures !Substitutes(scope, k, t, Panicked)
  {
    if Substitutes(scope, k, t, Panicked) { FailsExactlyWhen(scope, k, t, Panicked); }
  }

  lemma RegularListCalm(scope: Scope, elems: seq<Value>)
    requires forall e | e in elems :: RegularElement(scope, e)
    ensures !ListPanics(scope, elems)
  {
    forall e | e in elems && e.Str? ensures !Substitutes(scope, "", e.s, Panicked) {
      TameStringCalm(scope, "", e.s);
    }
  }

  lemma RegularVisitCalm(scope: Scope, strict: bool, m: Attributes, k: string, inner: Schedule)
    requires k in m && RegularEntry(scope, k, m[k])
    ensures !VisitPanics(scope, strict, m, k, inner)
    decreases inner, 2
  {
    if m[k].Str? {
      TameStringCalm(scope, k, m[k].s);
    } else if m[k].List? {
      RegularListCalm(scope, m[k].elems);
    } else if m[k].Map? {
      RegularNeverPanics(scope, strict, m[k], inner);
    }
  }

  lemma {:induction false} ProgressCalm(scope: Scope, strict: bool, v: Value, pending: set<string>, m: Attributes, s: Schedule)
    requires v.Map? && RegularMap(scope, v) && Progress(v.entries, Parts(scope, v), pending, m)
    ensures !RunPanics(scope, strict, m, s)
    decreases s, 0
  {
    if s.Visit? && s.key in m {
      if s.key in pending {
        RegularVisitCalm(scope, strict, m, s.key, s.inner);
      } else {
        MadeIsStable(scope, v, pending, m, s.key);
        StableVisitCalm(scope, strict, m, s.key, s.inner);
      }
      forall mid | Visits(scope, strict, m, s.key, s.inner, mid) ensures !RunPanics(scope, strict, mid, s.rest) {
        ProgressVisit(scope, strict, v, pending, m, s.key, s.inner, mid);
        ProgressCalm(scope, strict, v, pending - {s.key}, mid, s.rest);
      }
    }
  }

  /** No schedule makes a range over a regular map panic. */
  lemma RegularNeverPanics(scope: Scope, strict: bool, v: Value, s: Schedule)
    requires v.Map? && RegularMap(scope, v)
    ensures !RunPanics(scope, strict, v.entries, s)
    decreases s, 1
  {
    assert Progress(v.entries, Parts(scope, v), v.entries.Keys, v.entries);
    ProgressCalm(scope, strict, v, v.entries.Keys, v.entries, s);
  }

  // ------------------------------------------------------------ data sources

  /** The name or a path uses an attribute that does not exist, or the name inflates away. */
  ghost predicate Unresolved(scope: Scope, ds: DataSource)
  {
    || !Named(scope, ds.name) || "name" !in ExpandedKeys(scope, "name", ds.name)
    || exists k :: k in ds.paths && !Named(scope, ds.paths[k])
  }

  lemma VisitedIsNamed(scope: Scope, m: Attributes, k: string, inner: Schedule, after: Attributes)
    requires k in m && m[k].Str? && RegularEntry(scope, k, m[k]) && Visits(scope, true, m, k, inner, after)
    ensures Named(scope, m[k].s)
  {
    var lines := StringVisit(scope, true, m, k, inner, after);
    FailsExactlyWhen(scope, k, m[k].s, Success(lines));
  }

  /** A loop that stops at the first failure gets past an entry only if all its names exist. */
  lemma {:induction false} PassedIsNamed(scope: Scope, v: Value, pending: set<string>, m: Attributes, s: Schedule,
                                         after: Attributes, k: string)
    requires v.Map? && RegularMap(scope, v) && Progress(v.entries, Parts(scope, v), pending, m)
    requires Runs(scope, true, m, s, after) && k in pending && k in Visited(s) && v.entries[k].Str?
    ensures Named(scope, v.entries[k].s)
    decreases s
  {
    var mid := RunsFirst(scope, true, m, s, after);
    if s.key == k {
      VisitedIsNamed(scope, m, k, s.inner, mid);
    } else {
      ProgressVisit(scope, true, v, pending, m, s.key, s.inner, mid);
      PassedIsNamed(scope, v, pending - {s.key}, mid, s.rest, after, k);
    }
  }

  lemma PartNamed(scope: Scope, l: string, v: Value, k: string)
    requires RegularEntry(scope, l, v) && k in ExpandEntry(scope, l, v) && ExpandEntry(scope, l, v)[k].Str?
    requires !Inert(scope, ExpandEntry(scope, l, v)[k].s)
    ensures v.Str? && !Named(scope, v.s)
  {
    if v.Str? && Named(scope, v.s) { ExpandedInert(scope, l, v.s, k); }
  }

  /** A failure met during the loop goes back to an original entry that names no attribute. */
  lemma FailureFromOriginal(scope: Scope, v: Value, pending: set<string>, m: Attributes, k: string) returns (l: string)
    requires v.Map? && RegularEntries(scope, v) && Progress(v.entries, Parts(scope, v), pending, m)
    requires k in m && m[k].Str? && Substitutes(scope, k, m[k].s, Failure)
    ensures l in v.entries && v.entries[l].Str? && !Named(scope, v.entries[l].s)
  {
    if k in pending {
      l := k;
      EntryFails(scope, k, m[k]);
    } else {
      l := PartOf(scope, v, pending, m, k);
      PartFails(scope, l, v.entries[l], k);
    }
  }

  lemma EntryFails(scope: Scope, k: string, v: Value)
    requires v.Str? && RegularEntry(scope, k, v) && Substitutes(scope, k, v.s, Failure)
    ensures !Named(scope, v.s)
  {
    FailsExactlyWhen(scope, k, v.s, Failure);
  }

  /** The original entry whose expansions include an entry that was made. */
  lemma PartOf(scope: Scope, v: Value, pending: set<string>, m: Attributes, k: string) returns (l: string)
    requires v.Map? && Progress(v.entries, Parts(scope, v), pending, m) && k in m && k !in pending
    ensures l in v.entries && k in ExpandEntry(scope, l, v.entries[l]) && m[k] == ExpandEntry(scope, l, v.entries[l])[k]
  {
    var parts := Parts(scope, v);
    assert MadeBy(parts, pending, k);
    l :| l in parts && l !in pending && k in parts[l];
    assert Contains(m, parts[l]);
  }

  lemma PartFails(scope: Scope, l: string, v: Value, k: string)
    requires RegularEntry(scope, l, v) && k in ExpandEntry(scope, l, v) && ExpandEntry(scope, l, v)[k].Str?
    requires Substitutes(scope, k, ExpandEntry(scope, l, v)[k].s, Failure)
    ensures v.Str? && !Named(scope, v.s)
  {
    var text := ExpandEntry(scope, l, v)[k].s;
    if Inert(scope, text) { InertIdentity(scope, k, text, Failure); }
    PartNamed(scope, l, v, k);
  }

  lemma NameFailure(scope: Scope, ds: DataSource)
    requires RegularSource(scope, ds)
    ensures Substitutes(scope, "name", ds.name, Failure) ==> !Named(scope, ds.name)
    ensures !Substitutes(scope, "name", ds.name, Panicked)
    ensures forall lines | Substitutes(scope, "name", ds.name, Success(lines)) ::
              Named(scope, ds.name) && lines.Keys == ExpandedKeys(scope, "name", ds.name)
  {
    TameStringCalm(scope, "name", ds.name);
    if Substitutes(scope, "name", ds.name, Failure) { FailsExactlyWhen(scope, "name", ds.name, Failure); }
    forall lines | Substitutes(scope, "name", ds.name, Success(lines))
      ensures Named(scope, ds.name) && lines.Keys == ExpandedKeys(scope, "name", ds.name)
    {
      FailsExactlyWhen(scope, "name", ds.name, Success(lines));
      InertLaterFree(scope, Scan(ds.name));
      ResultUnique(scope, "name", ds.name, lines);
    }
  }

  lemma PathFailure(scope: Scope, ds: DataSource, s: Schedule, mid: Lines, k: string)
    requires RegularSource(scope, ds) && Runs(scope, true, AsValues(ds.paths), s, AsValues(mid)) && k in mid
    requires Substitutes(scope, k, mid[k], Failure)
    ensures exists l :: l in ds.paths && !Named(scope, ds.paths[l])
  {
    var v := Map(AsValues(ds.paths));
    assert Progress(v.entries, Parts(scope, v), v.entries.Keys, v.entries);
    RunProgress(scope, true, v, v.entries.Keys, v.entries, s, AsValues(mid));
    var l := FailureFromOriginal(scope, v, v.entries.Keys - Visited(s), AsValues(mid), k);
    assert l in ds.paths;
  }

  lemma PathsPassed(scope: Scope, ds: DataSource, after: DataSource)
    requires RegularSource(scope, ds) && SourceSubstitutes(scope, ds, after)
    ensures forall k | k in ds.paths :: Named(scope, ds.paths[k])
  {
    var v := Map(AsValues(ds.paths));
    var s :| Ranges(scope, true, AsValues(ds.paths), s, AsValues(after.paths));
    assert Progress(v.entries, Parts(scope, v), v.entries.Keys, v.entries);
    forall k | k in ds.paths ensures Named(scope, ds.paths[k]) {
      PassedIsNamed(scope, v, v.entries.Keys, v.entries, s, AsValues(after.paths), k);
    }
  }

  /** A data source is rejected exactly when it is unresolved, whatever the schedule, and
      never panics. */
  lemma SourceOutcome(scope: Scope, ds: DataSource)
    requires RegularSource(scope, ds)
    ensures !SourcePanics(scope, ds)
    ensures SourceFails(scope, ds) ==> Unresolved(scope, ds)
    ensures forall after | SourceSubstitutes(scope, ds, after) :: !Unresolved(scope, ds)
  {
    NameFailure(scope, ds);
    forall s ensures !RunPanics(scope, true, AsValues(ds.paths), s) {
      RegularNeverPanics(scope, true, Map(AsValues(ds.paths)), s);
    }
    forall s, mid, k | Runs(scope, true, AsValues(ds.paths), s, AsValues(mid)) && k in mid && Substitutes(scope, k, mid[k], Failure)
      ensures Unresolved(scope, ds)
    {
      PathFailure(scope, ds, s, mid, k);
    }
    forall after | SourceSubstitutes(scope, ds, after) ensures !Unresolved(scope, ds) {
      PathsPassed(scope, ds, after);
    }
  }

  ghost predicate SomeUnresolved(scope: Scope, sources: seq<DataSource>)
  {
    exists i :: 0 <= i < |sources| && Unresolved(scope, sources[i])
  }

  lemma SourcesOutcome(scope: Scope, sources: seq<DataSource>)
    requires RegularSources(scope, sources)
    ensures !SomeSourcePanics(scope, sources)
    ensures SomeSourceFails(scope, sources) ==> SomeUnresolved(scope, sources)
    ensures forall after | SourcesSubstitute(scope, sources, after) :: !SomeUnresolved(scope, sources)
  {
    forall i | 0 <= i < |sources|
      ensures !SourcePanics(scope, sources[i])
      ensures SourceFails(scope, sources[i]) ==> Unresolved(scope, sources[i])
    {
      SourceOutcome(scope, sources[i]);
    }
    forall after | SourcesSubstitute(scope, sources, after) ensures !SomeUnresolved(scope, sources) {
      forall i | 0 <= i < |sources| ensures !Unresolved(scope, sources[i]) {
        SourceOutcome(scope, sources[i]);
        assert SourceSubstitutes(scope, sources[i], after[i]);
      }
    }
  }

  lemma SourcesConcat(scope: Scope, a: seq<DataSource>, b: seq<DataSource>)
    requires RegularSources(scope, a) && RegularSources(scope, b)
    ensures RegularSources(scope, a + b)
    ensures SomeUnresolved(scope, a + b) ==> SomeUnresolved(scope, a) || SomeUnresolved(scope, b)
  {
    if SomeUnresolved(scope, a + b) {
      var i :| 0 <= i < |a + b| && Unresolved(scope, (a + b)[i]);
      assert (a + b)[i] == if i < |a| then a[i] else b[i - |a|];
    }
  }

  // ------------------------------------------------------------ the whole initialisation

  /** A data source of the action uses an attribute that neither the action nor the payload has. */
  ghost predicate ActionUnresolved(env: string -> string, composite: Value -> string, payload: Attributes, a: Action)
  {
    var attributes := ExpandMap(Full(env, composite, payload), Map(a.attributes));
    var combined := Full(env, composite, Combined(payload, attributes));
    SomeUnresolved(combined, a.inputs) || SomeUnresolved(combined, a.outputs)
  }

  ghost predicate SomeActionUnresolved(env: string -> string, composite: Value -> string, payload: Attributes, actions: seq<Action>)
  {
    exists i :: 0 <= i < |actions| && ActionUnresolved(env, composite, payload, actions[i])
  }

  ghost predicate PayloadUnresolved(env: string -> string, composite: Value -> string, before: Payload)
  {
    var attributes := ExpandMap(EnvOnly(env, composite, before.attributes), Map(before.attributes));
    var full := Full(env, composite, attributes);
    || SomeUnresolved(full, before.inputs) || SomeUnresolved(full, before.outputs)
    || SomeActionUnresolved(env, composite, attributes, before.actions)
  }

  lemma PassCalm(scope: Scope, m: Attributes)
    requires RegularMap(scope, Map(m))
    ensures !PassPanics(scope, m)
  {
    forall s ensures !RunPanics(scope, false, m, s) {
      RegularNeverPanics(scope, false, Map(m), s);
    }
  }

  lemma ActionOutcome(env: string -> string, composite: Value -> string, payload: Attributes, a: Action)
    requires RegularAction(env, composite, payload, a)
    ensures !ActionPanics(env, composite, payload, a)
    ensures ActionFails(env, composite, payload, a) ==> ActionUnresolved(env, composite, payload, a)
    ensures forall after | ActionSubstitutes(env, composite, payload, a, after) :: !ActionUnresolved(env, composite, payload, a)
  {
    var full := Full(env, composite, payload);
    var combined := Full(env, composite, Combined(payload, ExpandMap(full, Map(a.attributes))));
    PassCalm(full, a.attributes);
    SourcesOutcome(combined, a.inputs);
    SourcesOutcome(combined, a.outputs);
    SourcesConcat(combined, a.inputs, a.outputs);
    SourcesOutcome(combined, a.inputs + a.outputs);
    forall attributes | PassResult(full, a.attributes, attributes) ensures attributes == ExpandMap(full, Map(a.attributes)) {
      PassDeterministic(full, a.attributes, attributes);
    }
  }

  lemma ActionsOutcome(env: string -> string, composite: Value -> string, payload: Attributes, actions: seq<Action>)
    requires RegularActions(env, composite, payload, actions)
    ensures !SomeActionPanics(env, composite, payload, actions)
    ensures SomeActionFails(env, composite, payload, actions) ==> SomeActionUnresolved(env, composite, payload, actions)
    ensures forall after | ActionsSubstitute(env, composite, payload, actions, after) ::
              !SomeActionUnresolved(env, composite, payload, actions)
  {
    forall i | 0 <= i < |actions|
      ensures !ActionPanics(env, composite, payload, actions[i])
      ensures ActionFails(env, composite, payload, actions[i]) ==> ActionUnresolved(env, composite, payload, actions[i])
    {
      ActionOutcome(env, composite, payload, actions[i]);
    }
    forall after | ActionsSubstitute(env, composite, payload, actions, after)
      ensures !SomeActionUnresolved(env, composite, payload, actions) {
      forall i | 0 <= i < |actions| ensures !ActionUnresolved(env, composite, payload, actions[i]) {
        ActionOutcome(env, composite, payload, actions[i]);
        assert ActionSubstitutes(env, composite, payload, actions[i], after[i]);
      }
    }
  }

  /** The loop over the actions in any order, with every update in place: on regular actions it
      never panics, it is an error exactly when some action is unresolved, and otherwise the
      actions become the only ones possible and the rest of the payload stays. */
  method SubstituteActionsInOrder(env: string -> string, composite: Value -> string, pm: PluginManager, order: seq<nat>) returns (r: Result)
    requires pm.Valid() && IsPermutation(order, |pm.actions|)
    modifies Everything(pm.objects)
    ensures pm.Valid()
    ensures r.Ok? ==>
              var before, now := old(pm.View()), pm.View();
              now == before.(actions := now.actions) && ActionsSubstitute(env, composite, before.attributes, before.actions, now.actions)
    ensures var before := old(pm.View());
            RegularActions(env, composite, before.attributes, before.actions) ==>
              && !r.Panic? && (r.Err? <==> SomeActionUnresolved(env, composite, before.attributes, before.actions))
              && (r.Ok? ==> forall after | ActionsSubstitute(env, composite, before.attributes, before.actions, after) ::
                      pm.View().actions == after)
  {
    ghost var before := pm.View();
    ghost var after;
    r, after := SubstituteActions(env, composite, pm.attributes, pm.actions, pm.objects, order, before.actions);
    if r.Ok? {
      assert pm.View() == before.(actions := after);
    }
    if RegularActions(env, composite, before.attributes, before.actions) {
      ActionsOutcome(env, composite, before.attributes, before.actions);
      if r.Ok? {
        forall other | ActionsSubstitute(env, composite, before.attributes, before.actions, other) ensures after == other {
          ActionsDeterministic(env, composite, before.attributes, before.actions, after, other);
        }
      }
    }
  }

  lemma LaterCalm(env: string -> string, composite: Value -> string, before: Payload)
    requires RegularPayload(env, composite, before)
    ensures !InitialisationPanics(env, composite, before)
  {
    var scope := EnvOnly(env, composite, before.attributes);
    var attributes := ExpandMap(scope, Map(before.attributes));
    var full := Full(env, composite, attributes);
    PassCalm(scope, before.attributes);
    forall i | 0 <= i < |before.stores| ensures !PassPanics(full, before.stores[i].parameters) {
      PassCalm(full, before.stores[i].parameters);
    }
    SourcesOutcome(full, before.inputs);
    SourcesOutcome(full, before.outputs);
    ActionsOutcome(env, composite, attributes, before.actions);
    assert !LaterPanics(env, composite, attributes, before);
    forall a | PassResult(scope, before.attributes, a) ensures a == attributes {
      PassDeterministic(scope, before.attributes, a);
    }
  }

  lemma FailsUnresolved(env: string -> string, composite: Value -> string, before: Payload, attributes: Attributes)
    requires RegularPayload(env, composite, before) && InitialisationFails(env, composite, before, attributes)
    ensures PayloadUnresolved(env, composite, before)
  {
    PassDeterministic(EnvOnly(env, composite, before.attributes), before.attributes, attributes);
    var full := Full(env, composite, attributes);
    SourcesConcat(full, before.inputs, before.outputs);
    SourcesOutcome(full, before.inputs + before.outputs);
    ActionsOutcome(env, composite, attributes, before.actions);
  }

  lemma InitialisedResolved(env: string -> string, composite: Value -> string, before: Payload, after: Payload)
    requires RegularPayload(env, composite, before) && Initialised(env, composite, before, after)
    ensures !PayloadUnresolved(env, composite, before)
  {
    PassDeterministic(EnvOnly(env, composite, before.attributes), before.attributes, after.attributes);
    var full := Full(env, composite, after.attributes);
    SourcesOutcome(full, before.inputs);
    SourcesOutcome(full, before.outputs);
    ActionsOutcome(env, composite, after.attributes, before.actions);
  }

  /** The outcome of the initialisation is decided by the payload: on a regular one it never
      panics, it is an error exactly when some data source is unresolved, and otherwise the
      payload becomes the only one the relation allows. */
  method InitPluginManager(env: string -> string, composite: Value -> string, payload: Payload) returns (pm: PluginManager, r: Result)
    ensures fresh(pm) && pm.Valid()
    ensures RegularPayload(env, composite, payload) ==>
              && !r.Panic?
              && (r.Err? <==> PayloadUnresolved(env, composite, payload))
              && (r.Ok? ==> forall after | Initialised(env, composite, payload, after) :: pm.View() == after)
    ensures r.Ok? ==> Initialised(env, composite, payload, pm.View())
  {
    pm := NewPluginManager(payload);
    r := pm.SubstituteVariables(env, composite);
    if RegularPayload(env, composite, payload) {
      LaterCalm(env, composite, payload);
      if r.Err? {
        FailsUnresolved(env, composite, payload, pm.attributes.entries);
      }
      if r.Ok? {
        InitialisedResolved(env, composite, payload, pm.View());
        forall after | Initialised(env, composite, payload, after) ensures pm.View() == after {
          InitialisationDeterministic(env, composite, payload, pm.View(), after);
        }
      }
    }
  }
}
