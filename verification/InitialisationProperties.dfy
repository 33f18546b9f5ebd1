/** What holds of a payload once `substituteVariables` has returned without an error. */
module InitialisationProperties {
  import opened Placeholders
  import opened Templates
  import opened EmbeddedVars
  import opened ParameterSubstitution
  import opened Expansion
  import opened Inflation
  import opened MapSubstitution
  import opened MapLoops
  import opened Completeness
  import opened Provenance
  import opened Survival
  import opened Initialisation
  import opened Isolation
  import opened Failures

  // ------------------------------------------------------------ hypotheses a payload author can check

  /** A well-formed template using placeholders of the given kinds only, whose attributes exist. */
  predicate Uses(kinds: set<VarKind>, names: set<string>, template: string)
  {
    WellFormed(template)
    && forall p | p in Refs(Scan(template)) :: p.kind in kinds && (p.kind == ATTR ==> p.name in names)
  }

  /** Such templates at every depth that is substituted, and plain values elsewhere; the keys of
      nested maps, which `%v` shows, have no brace. */
  ghost predicate ValueUses(kinds: set<VarKind>, names: set<string>, v: Value)
  {
    match v
    case Str(s) => Uses(kinds, names, s)
    case Scalar(shown) => BraceFree(shown)
    case List(elems) => forall e | e in elems :: ElementUses(kinds, names, e)
    case Map(entries) => forall k | k in entries :: BraceFree(k) && ValueUses(kinds, names, entries[k])
  }

  ghost predicate ElementUses(kinds: set<VarKind>, names: set<string>, e: Value)
  {
    if e.Str? then Uses(kinds, names, e.s) else PlainValue(e)
  }

  ghost predicate AttributesUse(kinds: set<VarKind>, names: set<string>, m: Attributes)
  {
    forall k | k in m :: ValueUses(kinds, names, m[k])
  }

  predicate SourceWellFormed(ds: DataSource)
  {
    WellFormed(ds.name) && forall k | k in ds.paths :: WellFormed(ds.paths[k])
  }

  predicate SourcesWellFormed(sources: seq<DataSource>) { forall i | 0 <= i < |sources| :: SourceWellFormed(sources[i]) }

  /** Payload attributes refer to the environment only, action attributes also to existing
      payload attributes; all names and paths are well formed. */
  ghost predicate Authored(payload: Payload, names: set<string>)
  {
    && AttributesUse({ENV}, {}, payload.attributes)
    && SourcesWellFormed(payload.inputs) && SourcesWellFormed(payload.outputs)
    && forall i | 0 <= i < |payload.actions| ::
         && AttributesUse({ENV, ATTR}, names, payload.actions[i].attributes)
         && SourcesWellFormed(payload.actions[i].inputs) && SourcesWellFormed(payload.actions[i].outputs)
  }

  // ------------------------------------------------------------ attributes become brace-free

  lemma UsesAutomatic(scope: Scope, kinds: set<VarKind>, names: set<string>, t: string)
    requires Uses(kinds, names, t) && VAR !in kinds
    requires ATTR in kinds ==> scope.allowAttributes && names <= scope.attributes.Keys
    ensures Named(scope, t) && forall p | p in Refs(Scan(t)) :: Automatic(scope, p)
  {
    forall p | p in Refs(Scan(t)) ensures Automatic(scope, p) && !PlanFor(scope, p).Unknown? {
      assert p.kind in kinds && p.kind != VAR;
      assert MatchToEmbeddedVars(p).kind == p.kind && MatchToEmbeddedVars(p).varname == p.name;
    }
  }

  lemma {:induction false} NothingKept(scope: Scope, matches: seq<Placeholder>)
    requires forall p | p in matches :: Automatic(scope, p)
    ensures Kept(scope, matches) == []
  {
    if matches != [] {
      assert matches[0] in matches;
      NothingKept(scope, matches[1..]);
    }
  }

  lemma LinePlain(scope: Scope, kinds: set<VarKind>, names: set<string>, k: string, t: string, j: string, line: string)
    requires BraceFreeScope(scope) && Uses(kinds, names, t) && VAR !in kinds
    requires ATTR in kinds ==> scope.allowAttributes && names <= scope.attributes.Keys
    requires LineOf(scope, k, t, j, line)
    ensures BraceFree(line) && (BraceFree(k) ==> BraceFree(j))
  {
    UsesAutomatic(scope, kinds, names, t);
    NothingKept(scope, Refs(Scan(t)));
    NoRefsBraceFree(Scan(line));
    RenderScan(line);
    ScopeOptions(scope, Scan(t));
    if BraceFree(k) { LineKeyBraceFree(scope, k, t, j, line); }
  }

  lemma {:induction false} UsesSubstitutable(scope: Scope, kinds: set<VarKind>, names: set<string>, v: Value)
    requires ValueUses(kinds, names, v) && VAR !in kinds
    requires ATTR in kinds ==> scope.allowAttributes && names <= scope.attributes.Keys
    ensures Substitutable(scope, v)
  {
    match v
    case Str(t) => UsesAutomatic(scope, kinds, names, t);
    case Scalar(_) =>
    case List(elems) =>
      assert forall e | e in elems :: ElementUses(kinds, names, e);
    case Map(entries) =>
      forall k | k in entries ensures Substitutable(scope, entries[k]) { UsesSubstitutable(scope, kinds, names, entries[k]); }
  }

  lemma ElementPlain(scope: Scope, kinds: set<VarKind>, names: set<string>, e: Value, result: seq<Value>)
    requires BraceFreeScope(scope) && ElementUses(kinds, names, e) && VAR !in kinds
    requires ATTR in kinds ==> scope.allowAttributes && names <= scope.attributes.Keys
    requires ElementRemains(scope, e, result)
    ensures forall r | r in result :: PlainValue(r)
  {
    if e.Str? {
      forall r | r in result ensures PlainValue(r) {
        var j :| LineOf(scope, "", e.s, j, r.s);
        LinePlain(scope, kinds, names, "", e.s, j, r.s);
      }
    }
  }

  lemma {:induction false} ListPlain(scope: Scope, kinds: set<VarKind>, names: set<string>, elems: seq<Value>, result: seq<Value>)
    requires BraceFreeScope(scope) && (forall e | e in elems :: ElementUses(kinds, names, e)) && VAR !in kinds
    requires ATTR in kinds ==> scope.allowAttributes && names <= scope.attributes.Keys
    requires ListRemains(scope, elems, result)
    ensures forall r | r in result :: PlainValue(r)
    decreases |elems|
  {
    if elems != [] {
      var n := |elems| - 1;
      var front, last :| ListRemains(scope, elems[..n], front) && ElementRemains(scope, elems[n], last) && result == front + last;
      Snoc(elems);
      ListPlain(scope, kinds, names, elems[..n], front);
      ElementPlain(scope, kinds, names, elems[n], last);
    }
  }

  /** What remains of a value has no brace, and its nested keys have none. */
  lemma {:induction false} RemainsPlain(scope: Scope, kinds: set<VarKind>, names: set<string>, k: string, v: Value, j: string, w: Value)
    requires BraceFreeScope(scope) && ValueUses(kinds, names, v) && VAR !in kinds
    requires ATTR in kinds ==> scope.allowAttributes && names <= scope.attributes.Keys
    requires Remains(scope, k, v, j, w)
    ensures PlainValue(w) && (BraceFree(k) ==> BraceFree(j))
    decreases v
  {
    match v
    case Str(t) => LinePlain(scope, kinds, names, k, t, j, w.s);
    case Scalar(_) =>
    case List(elems) => ListPlain(scope, kinds, names, elems, w.elems);
    case Map(entries) =>
      forall i | i in w.entries ensures BraceFree(i) && PlainValue(w.entries[i]) {
        assert SomeRemains(scope, v, i, w.entries[i]);
        var l :| l in entries && Remains(scope, l, entries[l], i, w.entries[i]);
        RemainsPlain(scope, kinds, names, l, entries[l], i, w.entries[i]);
      }
  }

  /** The attributes after a pass: plain, and each entry what remains of one of its own map. */
  ghost predicate AttributesCompleted(scope: Scope, m: Attributes, after: Attributes)
  {
    PlainMap(after) && forall j | j in after :: SomeRemains(scope, Map(m), j, after[j])
  }

  ghost predicate AttributesSurvive(scope: Scope, m: Attributes, after: Attributes)
  {
    forall k | k in m :: Survives(scope, k, m[k], after)
  }

  /** A pass leaves no brace, hence no placeholder, in any string at any map depth. */
  lemma PassBraceFree(scope: Scope, kinds: set<VarKind>, names: set<string>, m: Attributes, after: Attributes)
    requires BraceFreeScope(scope) && AttributesUse(kinds, names, m) && VAR !in kinds
    requires ATTR in kinds ==> scope.allowAttributes && names <= scope.attributes.Keys
    requires PassResult(scope, m, after)
    ensures AttributesCompleted(scope, m, after)
    ensures RegularMap(scope, Map(m)) ==> AttributesSurvive(scope, m, after)
  {
    var s :| Ranges(scope, false, m, s, after);
    forall k | k in m ensures Substitutable(scope, m[k]) { UsesSubstitutable(scope, kinds, names, m[k]); }
    RangeRemains(scope, false, Map(m), s, after);
    forall j | j in after ensures PlainValue(after[j]) {
      assert SomeRemains(scope, Map(m), j, after[j]);
      var l :| l in m && Remains(scope, l, m[l], j, after[j]);
      RemainsPlain(scope, kinds, names, l, m[l], j, after[j]);
    }
    if RegularMap(scope, Map(m)) { RangeSurvives(scope, false, Map(m), s, after); }
  }

  // ------------------------------------------------------------ names and paths keep only VAR

  /** The line of one choice, under its key, with the VAR placeholders of the template, verbatim
      and in order, and no other. */
  ghost predicate CompletedLine(scope: Scope, k: string, t: string, j: string, line: string)
  {
    && ExpandsAt(scope, k, Scan(t), Matches(scope, t), j, line)
    && WellFormed(line) && Refs(Scan(line)) == OfKinds({VAR}, Refs(Scan(t)))
  }

  lemma LineCompleted(scope: Scope, k: string, t: string, j: string, line: string)
    requires scope.allowAttributes && LineOf(scope, k, t, j, line)
    ensures CompletedLine(scope, k, t, j, line)
  {
    KeptOfKinds(scope, Refs(Scan(t)));
  }

  /** Nothing else: the name and every path complete one of the original templates, a path under
      a key that its own template gives it. */
  ghost predicate SourceCompleted(scope: Scope, ds: DataSource, after: DataSource)
  {
    && CompletedLine(scope, "name", ds.name, "name", after.name) && after.storeName == ds.storeName
    && forall j | j in after.paths :: PathCompleted(scope, ds.paths, j, after.paths[j])
  }

  ghost predicate PathCompleted(scope: Scope, paths: Lines, j: string, line: string)
  {
    exists k :: k in paths && CompletedLine(scope, k, paths[k], j, line)
  }

  /** Nothing lost: for every original path and every choice its line is there, completed. */
  ghost predicate PathsSurvive(scope: Scope, paths: Lines, after: Lines)
  {
    forall k, c | k in paths && c in Choices(scope, Matches(scope, paths[k])) && |c| == |Matches(scope, paths[k])| ::
      PathSurvives(scope, k, paths[k], c, after)
  }

  ghost predicate PathSurvives(scope: Scope, k: string, t: string, c: seq<string>, after: Lines)
    requires |c| == |Matches(scope, t)|
  {
    var j := KeyUnder(scope, k, Matches(scope, t), c);
    j in after && after[j] == LineUnder(Scan(t), Matches(scope, t), c) && CompletedLine(scope, k, t, j, after[j])
  }

  lemma PathRemains(scope: Scope, paths: Lines, j: string, line: string)
    requires BraceFreeScope(scope) && scope.allowAttributes && forall k | k in paths :: WellFormed(paths[k])
    requires SomeComes(scope, true, Map(AsValues(paths)), j, Str(line))
    ensures PathCompleted(scope, paths, j, line)
  {
    var m := AsValues(paths);
    var k :| k in m && Comes(scope, true, k, m[k], j, Str(line));
    assert m[k] == Str(paths[k]);
    TextRemains(scope, true, k, paths[k], j, line);
    LineCompleted(scope, k, paths[k], j, line);
  }

  lemma PathsComplete(scope: Scope, paths: Lines, s: Schedule, after: Lines)
    requires BraceFreeScope(scope) && scope.allowAttributes && forall k | k in paths :: WellFormed(paths[k])
    requires Ranges(scope, true, AsValues(paths), s, AsValues(after))
    ensures forall j | j in after :: PathCompleted(scope, paths, j, after[j])
  {
    forall k | k in paths ensures SafeText(scope, paths[k]) { BraceFreeSafe(scope, paths[k]); }
    RangeTraced(scope, true, Map(AsValues(paths)), s, AsValues(after));
    forall j | j in after ensures PathCompleted(scope, paths, j, after[j]) {
      assert j in AsValues(after) && AsValues(after)[j] == Str(after[j]);
      PathRemains(scope, paths, j, after[j]);
    }
  }

  lemma ChoiceThere(scope: Scope, k: string, t: string, c: seq<string>, after: Lines)
    requires scope.allowAttributes && |c| == |Matches(scope, t)| && SurvivesAt(scope, k, t, c, AsValues(after))
    ensures PathSurvives(scope, k, t, c, after)
  {
    var j := KeyUnder(scope, k, Matches(scope, t), c);
    assert AsValues(after)[j] == Str(after[j]);
    LineCompleted(scope, k, t, j, after[j]);
  }

  lemma PathsStay(scope: Scope, ds: DataSource, after: DataSource)
    requires BraceFreeScope(scope) && scope.allowAttributes
    requires RegularSource(scope, ds) && SourceSubstitutes(scope, ds, after)
    ensures PathsSurvive(scope, ds.paths, after.paths)
  {
    PathsPassed(scope, ds, after);
    var s :| Ranges(scope, true, AsValues(ds.paths), s, AsValues(after.paths));
    var v := Map(AsValues(ds.paths));
    RangeSurvives(scope, true, v, s, AsValues(after.paths));
    forall k, c | k in ds.paths && c in Choices(scope, Matches(scope, ds.paths[k])) && |c| == |Matches(scope, ds.paths[k])|
      ensures PathSurvives(scope, k, ds.paths[k], c, after.paths)
    {
      assert k in v.entries && v.entries[k] == Str(ds.paths[k]);
      assert Survives(scope, k, v.entries[k], AsValues(after.paths));
      ChoiceThere(scope, k, ds.paths[k], c, after.paths);
    }
  }

  /** A path vanishes exactly when it refers to every element of an empty collection. */
  lemma PathVanishesExactlyWhen(scope: Scope, ds: DataSource, after: DataSource, k: string)
    requires RegularSource(scope, ds) && SourceSubstitutes(scope, ds, after) && k in ds.paths
    ensures Expanded(scope, k, ds.paths[k]) == map[] <==> Empties(scope, ds.paths[k])
  {
    PathsPassed(scope, ds, after);
    var v := Map(AsValues(ds.paths));
    assert k in v.entries && v.entries[k] == Str(ds.paths[k]);
    assert RegularEntries(scope, v) && RegularEntry(scope, k, v.entries[k]);
    ExpandedEmpty(scope, k, ds.paths[k]);
  }

  lemma SourceComplete(scope: Scope, ds: DataSource, after: DataSource)
    requires BraceFreeScope(scope) && scope.allowAttributes
    requires SourceWellFormed(ds) && SourceSubstitutes(scope, ds, after)
    ensures SourceCompleted(scope, ds, after)
    ensures RegularSource(scope, ds) ==> PathsSurvive(scope, ds.paths, after.paths)
  {
    var lines :| Substitutes(scope, "name", ds.name, Success(lines)) && "name" in lines && after.name == lines["name"];
    ScopeOptions(scope, Scan(ds.name));
    OnlyKeptRemain(scope, "name", ds.name, lines, "name");
    LineCompleted(scope, "name", ds.name, "name", after.name);
    var s :| Ranges(scope, true, AsValues(ds.paths), s, AsValues(after.paths));
    PathsComplete(scope, ds.paths, s, after.paths);
    if RegularSource(scope, ds) { PathsStay(scope, ds, after); }
  }

  ghost predicate SourcesCompleted(scope: Scope, sources: seq<DataSource>, after: seq<DataSource>)
  {
    |after| == |sources| && forall i | 0 <= i < |sources| :: SourceCompleted(scope, sources[i], after[i])
  }

  ghost predicate SourcesSurvive(scope: Scope, sources: seq<DataSource>, after: seq<DataSource>)
  {
    |after| == |sources| && forall i | 0 <= i < |sources| :: PathsSurvive(scope, sources[i].paths, after[i].paths)
  }

  lemma SourcesComplete(scope: Scope, sources: seq<DataSource>, after: seq<DataSource>)
    requires BraceFreeScope(scope) && scope.allowAttributes
    requires SourcesWellFormed(sources) && SourcesSubstitute(scope, sources, after)
    ensures SourcesCompleted(scope, sources, after)
    ensures RegularSources(scope, sources) ==> SourcesSurvive(scope, sources, after)
  {
    forall i | 0 <= i < |sources|
      ensures SourceCompleted(scope, sources[i], after[i])
      ensures RegularSource(scope, sources[i]) ==> PathsSurvive(scope, sources[i].paths, after[i].paths)
    {
      SourceComplete(scope, sources[i], after[i]);
    }
  }

  // ------------------------------------------------------------ stores

  /** Each parameter is what remains of one of the same store, and has no brace where the original
      ones refer to the environment and to existing attributes only. */
  ghost predicate StoreCompleted(scope: Scope, store: DataStore, after: DataStore)
  {
    && after.name == store.name
    && (Substitutable(scope, Map(store.parameters)) ==>
          forall j | j in after.parameters :: SomeRemains(scope, Map(store.parameters), j, after.parameters[j]))
    && (AttributesUse({ENV, ATTR}, scope.attributes.Keys, store.parameters) ==>
          AttributesCompleted(scope, store.parameters, after.parameters))
  }

  ghost predicate StoresCompleted(scope: Scope, stores: seq<DataStore>, after: seq<DataStore>)
  {
    |after| == |stores| && forall i | 0 <= i < |stores| :: StoreCompleted(scope, stores[i], after[i])
  }

  ghost predicate StoresSurvive(scope: Scope, stores: seq<DataStore>, after: seq<DataStore>)
  {
    |after| == |stores| && forall i | 0 <= i < |stores| :: AttributesSurvive(scope, stores[i].parameters, after[i].parameters)
  }

  lemma StoreComplete(scope: Scope, store: DataStore, after: DataStore)
    requires BraceFreeScope(scope) && scope.allowAttributes
    requires after.name == store.name && PassResult(scope, store.parameters, after.parameters)
    ensures StoreCompleted(scope, store, after)
    ensures RegularMap(scope, Map(store.parameters)) ==> AttributesSurvive(scope, store.parameters, after.parameters)
  {
    var v := Map(store.parameters);
    var s :| Ranges(scope, false, store.parameters, s, after.parameters);
    if Substitutable(scope, v) { RangeRemains(scope, false, v, s, after.parameters); }
    if AttributesUse({ENV, ATTR}, scope.attributes.Keys, store.parameters) {
      PassBraceFree(scope, {ENV, ATTR}, scope.attributes.Keys, store.parameters, after.parameters);
    }
    if RegularMap(scope, v) { RangeSurvives(scope, false, v, s, after.parameters); }
  }

  lemma StoresComplete(scope: Scope, stores: seq<DataStore>, after: seq<DataStore>)
    requires BraceFreeScope(scope) && scope.allowAttributes && StoresSubstitute(scope, stores, after)
    ensures StoresCompleted(scope, stores, after)
    ensures (forall i | 0 <= i < |stores| :: RegularMap(scope, Map(stores[i].parameters))) ==> StoresSurvive(scope, stores, after)
  {
    forall i | 0 <= i < |stores|
      ensures StoreCompleted(scope, stores[i], after[i])
      ensures RegularMap(scope, Map(stores[i].parameters)) ==> AttributesSurvive(scope, stores[i].parameters, after[i].parameters)
    {
      StoreComplete(scope, stores[i], after[i]);
    }
  }

  // ------------------------------------------------------------ actions

  ghost predicate ActionCompleted(env: string -> string, composite: Value -> string, payload: Attributes, a: Action, after: Action)
  {
    var combined := Full(env, composite, Combined(payload, after.attributes));
    && after.name == a.name && AttributesCompleted(Full(env, composite, payload), a.attributes, after.attributes)
    && SourcesCompleted(combined, a.inputs, after.inputs) && SourcesCompleted(combined, a.outputs, after.outputs)
  }

  ghost predicate ActionSurvives(env: string -> string, composite: Value -> string, payload: Attributes, a: Action, after: Action)
  {
    var combined := Full(env, composite, Combined(payload, after.attributes));
    && AttributesSurvive(Full(env, composite, payload), a.attributes, after.attributes)
    && SourcesSurvive(combined, a.inputs, after.inputs) && SourcesSurvive(combined, a.outputs, after.outputs)
  }

  lemma ActionComplete(env: string -> string, composite: Value -> string, payload: Attributes, a: Action, after: Action)
    requires (forall x :: BraceFree(env(x))) && ShowsBraceFree(composite) && PlainMap(payload)
    requires AttributesUse({ENV, ATTR}, payload.Keys, a.attributes)
    requires SourcesWellFormed(a.inputs) && SourcesWellFormed(a.outputs)
    requires ActionSubstitutes(env, composite, payload, a, after)
    ensures ActionCompleted(env, composite, payload, a, after)
    ensures RegularAction(env, composite, payload, a) ==> ActionSurvives(env, composite, payload, a, after)
  {
    var full := Full(env, composite, payload);
    PassBraceFree(full, {ENV, ATTR}, payload.Keys, a.attributes, after.attributes);
    var combined := Full(env, composite, Combined(payload, after.attributes));
    assert BraceFreeScope(combined);
    SourcesComplete(combined, a.inputs, after.inputs);
    SourcesComplete(combined, a.outputs, after.outputs);
    if RegularAction(env, composite, payload, a) { PassDeterministic(full, a.attributes, after.attributes); }
  }

  // ------------------------------------------------------------ the whole payload

  ghost predicate ActionsCompleted(env: string -> string, composite: Value -> string, payload: Attributes,
                                   before: seq<Action>, after: seq<Action>)
  {
    |after| == |before| && forall i | 0 <= i < |before| :: ActionCompleted(env, composite, payload, before[i], after[i])
  }

  ghost predicate ActionsSurvive(env: string -> string, composite: Value -> string, payload: Attributes,
                                 before: seq<Action>, after: seq<Action>)
  {
    |after| == |before| && forall i | 0 <= i < |before| :: ActionSurvives(env, composite, payload, before[i], after[i])
  }

  ghost predicate PayloadCompleted(env: string -> string, composite: Value -> string, before: Payload, after: Payload)
  {
    var full := Full(env, composite, after.attributes);
    && AttributesCompleted(EnvOnly(env, composite, before.attributes), before.attributes, after.attributes)
    && StoresCompleted(full, before.stores, after.stores)
    && SourcesCompleted(full, before.inputs, after.inputs) && SourcesCompleted(full, before.outputs, after.outputs)
    && ActionsCompleted(env, composite, after.attributes, before.actions, after.actions)
  }

  ghost predicate PayloadSurvives(env: string -> string, composite: Value -> string, before: Payload, after: Payload)
  {
    var full := Full(env, composite, after.attributes);
    && AttributesSurvive(EnvOnly(env, composite, before.attributes), before.attributes, after.attributes)
    && StoresSurvive(full, before.stores, after.stores)
    && SourcesSurvive(full, before.inputs, after.inputs) && SourcesSurvive(full, before.outputs, after.outputs)
    && ActionsSurvive(env, composite, after.attributes, before.actions, after.actions)
  }

  lemma ActionsComplete(env: string -> string, composite: Value -> string, before: Payload, after: Payload)
    requires (forall x :: BraceFree(env(x))) && ShowsBraceFree(composite) && PlainMap(after.attributes)
    requires Initialised(env, composite, before, after) && Authored(before, after.attributes.Keys)
    ensures ActionsCompleted(env, composite, after.attributes, before.actions, after.actions)
    ensures RegularActions(env, composite, after.attributes, before.actions) ==>
              ActionsSurvive(env, composite, after.attributes, before.actions, after.actions)
  {
    forall i | 0 <= i < |before.actions|
      ensures ActionCompleted(env, composite, after.attributes, before.actions[i], after.actions[i])
      ensures RegularAction(env, composite, after.attributes, before.actions[i]) ==>
                ActionSurvives(env, composite, after.attributes, before.actions[i], after.actions[i])
    {
      ActionComplete(env, composite, after.attributes, before.actions[i], after.actions[i]);
    }
  }

  /** Completeness of initialisation: after a run without error the attributes hold no brace at
      any map depth, and every name and path, of the payload and of each action, is a line of an
      original template at its place with exactly the VAR placeholders of that template; each
      parameter of a store is what remains of one of its own. In a regular payload, moreover,
      nothing is lost: every attribute, parameter and path is there for each choice of its
      values. */
  lemma InitialisationComplete(env: string -> string, composite: Value -> string, before: Payload, after: Payload)
    requires (forall x :: BraceFree(env(x))) && ShowsBraceFree(composite)
    requires Initialised(env, composite, before, after) && Authored(before, after.attributes.Keys)
    ensures PayloadCompleted(env, composite, before, after)
    ensures RegularPayload(env, composite, before) ==> PayloadSurvives(env, composite, before, after)
  {
    var payloadScope := EnvOnly(env, composite, before.attributes);
    PassBraceFree(payloadScope, {ENV}, {}, before.attributes, after.attributes);
    var full := Full(env, composite, after.attributes);
    StoresComplete(full, before.stores, after.stores);
    SourcesComplete(full, before.inputs, after.inputs);
    SourcesComplete(full, before.outputs, after.outputs);
    ActionsComplete(env, composite, before, after);
    if RegularPayload(env, composite, before) { PassDeterministic(payloadScope, before.attributes, after.attributes); }
  }
}
