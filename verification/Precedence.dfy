/** Whose values the references of a payload read: which attributes each pass of the
    initialisation sees, and which of two attributes of the same name. */
module Precedence {
  import opened Placeholders
  import opened ParameterSubstitution
  import opened Inflation
  import opened MapSubstitution
  import opened MapLoops
  import opened ScheduleChoice
  import opened Survival
  import opened Initialisation
  import opened Isolation
  import opened References

  /** `m` has the attributes of both, and the action's own where both have one of that name. */
  predicate OwnFirst(payload: Attributes, own: Attributes, m: Attributes)
  {
    && m.Keys == payload.Keys + own.Keys
    && forall x | x in m :: m[x] == if x in own then own[x] else payload[x]
  }

  /** The data sources of an action are substituted from its own attributes, as they are after
      their own pass, before those of the payload. */
  lemma ActionReads(env: string -> string, composite: Value -> string, payload: Attributes, a: Action, after: Action, m: Attributes)
    requires OwnFirst(payload, after.attributes, m)
    ensures ActionSubstitutes(env, composite, payload, a, after)
       <==> && after.name == a.name
            && PassResult(Scope(env, payload, true, composite), a.attributes, after.attributes)
            && SourcesSubstitute(Scope(env, m, true, composite), a.inputs, after.inputs)
            && SourcesSubstitute(Scope(env, m, true, composite), a.outputs, after.outputs)
  {
    assert m == Combined(payload, after.attributes);
  }

  // ------------------------------------------------------------ one entry of a map, one path

  /** The template has this one outcome. */
  ghost predicate Becomes(scope: Scope, k: string, template: string, text: string)
  {
    forall o :: Substitutes(scope, k, template, o) <==> o == Success(map[k := text])
  }

  lemma EntryBecomes(scope: Scope, v: Value, k: string, template: string, text: string)
    requires v.Map? && RegularMap(scope, v) && k in v.entries && v.entries[k] == Str(template)
    requires Becomes(scope, k, template, text)
    ensures k in ExpandMap(scope, v) && ExpandMap(scope, v)[k] == Str(text)
  {
    assert RegularEntry(scope, k, v.entries[k]);
    TameOutcome(scope, k, template);
    var lines := map[k := text];
    assert Named(scope, template) && Expanded(scope, k, template) == lines;
    UnionContains(Parts(scope, v), k);
    assert k in AsValues(lines) && AsValues(lines)[k] == Str(text);
    assert ExpandEntry(scope, k, v.entries[k]) == AsValues(lines);
    assert Parts(scope, v)[k] == AsValues(lines);
  }

  lemma AttributeBecomes(scope: Scope, m: Attributes, after: Attributes, k: string, template: string, text: string)
    requires RegularMap(scope, Map(m)) && PassResult(scope, m, after)
    requires k in m && m[k] == Str(template) && Becomes(scope, k, template, text)
    ensures k in after && after[k] == Str(text)
  {
    PassDeterministic(scope, m, after);
    EntryBecomes(scope, Map(m), k, template, text);
  }

  lemma PathBecomes(scope: Scope, ds: DataSource, after: DataSource, k: string, text: string)
    requires RegularSource(scope, ds) && SourceSubstitutes(scope, ds, after)
    requires k in ds.paths && Becomes(scope, k, ds.paths[k], text)
    ensures k in after.paths && after.paths[k] == text
  {
    var v := Map(AsValues(ds.paths));
    var s :| Ranges(scope, true, AsValues(ds.paths), s, AsValues(after.paths));
    ScheduleIndependence(scope, true, v, s, AsValues(after.paths));
    assert k in v.entries && v.entries[k] == Str(ds.paths[k]);
    EntryBecomes(scope, v, k, ds.paths[k], text);
    assert k in AsValues(after.paths) && AsValues(after.paths)[k] == Str(text);
  }

  /** A string attribute is inserted where the scope has one, whatever brackets follow its name. */
  lemma StringBecomes(scope: Scope, k: string, at: Setting, s: string)
    requires Reads(scope, at, Str(s))
    ensures Becomes(scope, k, at.Written(), at.With(s))
  {
    forall o ensures Substitutes(scope, k, at.Written(), o) <==> o == Success(map[k := at.With(s)]) {
      ScalarReference(scope, k, at, Str(s), o);
    }
  }

  lemma KeptBecomes(scope: Scope, k: string, at: Setting)
    requires at.Valid() && (at.kind == VAR || (at.kind == ATTR && !scope.allowAttributes))
    ensures Becomes(scope, k, at.Written(), at.Written())
  {
    forall o ensures Substitutes(scope, k, at.Written(), o) <==> o == Success(map[k := at.Written()]) {
      KeptReference(scope, k, at, o);
    }
  }

  lemma SourceBecomes(scope: Scope, inputs: seq<DataSource>, outputs: seq<DataSource>,
                      inputsAfter: seq<DataSource>, outputsAfter: seq<DataSource>, i: nat, k: string, text: string)
    requires RegularSources(scope, inputs) && SourcesSubstitute(scope, inputs, inputsAfter)
    requires RegularSources(scope, outputs) && SourcesSubstitute(scope, outputs, outputsAfter)
    requires i < |inputs + outputs| && k in (inputs + outputs)[i].paths
    requires Becomes(scope, k, (inputs + outputs)[i].paths[k], text)
    ensures i < |inputsAfter + outputsAfter| && k in (inputsAfter + outputsAfter)[i].paths
    ensures (inputsAfter + outputsAfter)[i].paths[k] == text
  {
    if i < |inputs| {
      PathBecomes(scope, inputs[i], inputsAfter[i], k, text);
    } else {
      PathBecomes(scope, outputs[i - |inputs|], outputsAfter[i - |inputs|], k, text);
    }
  }

  /** An entry whose template cannot be substituted stays, under its own key. */
  lemma MissingStays(scope: Scope, m: Attributes, after: Attributes, k: string, at: Setting)
    requires RegularMap(scope, Map(m)) && PassResult(scope, m, after) && k in m && m[k] == Str(at.Written())
    requires at.Valid() && at.kind == ATTR && scope.allowAttributes && at.name !in scope.attributes
    ensures k in after && after[k] == Str(at.Written())
  {
    var v := Map(m);
    forall o ensures Substitutes(scope, k, at.Written(), o) <==> o == Failure { MissingAttribute(scope, k, at, o); }
    assert RegularEntry(scope, k, v.entries[k]);
    TameOutcome(scope, k, at.Written());
    assert ExpandEntry(scope, k, v.entries[k]) == map[k := m[k]];
    UnionContains(Parts(scope, v), k);
    assert k in Parts(scope, v)[k];
    PassDeterministic(scope, m, after);
  }

  /** A number or a boolean stays as well. */
  lemma ScalarStays(scope: Scope, m: Attributes, after: Attributes, k: string)
    requires RegularMap(scope, Map(m)) && PassResult(scope, m, after) && k in m && m[k].Scalar?
    ensures k in after && after[k] == m[k]
  {
    var v := Map(m);
    assert ExpandEntry(scope, k, v.entries[k]) == map[k := m[k]];
    UnionContains(Parts(scope, v), k);
    assert k in Parts(scope, v)[k];
    PassDeterministic(scope, m, after);
  }

  // ------------------------------------------------------------ what a reference reads, place by place

  /** In the attributes of the payload a reference to an attribute is not substituted, not even
      where the payload has an attribute of that name. */
  lemma PayloadAttributeKeeps(env: string -> string, composite: Value -> string, before: Payload, after: Payload, k: string, at: Setting)
    requires RegularPayload(env, composite, before) && Initialised(env, composite, before, after)
    requires at.Valid() && at.kind == ATTR && k in before.attributes && before.attributes[k] == Str(at.Written())
    ensures k in after.attributes && after.attributes[k] == Str(at.Written())
  {
    var scope := EnvOnly(env, composite, before.attributes);
    KeptBecomes(scope, k, at);
    AttributeBecomes(scope, before.attributes, after.attributes, k, at.Written(), at.Written());
  }

  /** In a parameter of a store it reads the attributes of the payload as they are after their
      own pass. */
  lemma StoreParameterReads(env: string -> string, composite: Value -> string, before: Payload, after: Payload,
                            i: nat, k: string, at: Setting, s: string)
    requires RegularPayload(env, composite, before) && Initialised(env, composite, before, after)
    requires i < |before.stores| && k in before.stores[i].parameters && before.stores[i].parameters[k] == Str(at.Written())
    requires at.Valid() && at.kind == ATTR && at.name in after.attributes && after.attributes[at.name] == Str(s)
    ensures i < |after.stores| && k in after.stores[i].parameters && after.stores[i].parameters[k] == Str(at.With(s))
  {
    PassDeterministic(EnvOnly(env, composite, before.attributes), before.attributes, after.attributes);
    var full := Full(env, composite, after.attributes);
    StringBecomes(full, k, at, s);
    AttributeBecomes(full, before.stores[i].parameters, after.stores[i].parameters, k, at.Written(), at.With(s));
  }

  /** In a path of the payload likewise. */
  lemma PathReads(env: string -> string, composite: Value -> string, before: Payload, after: Payload,
                  i: nat, k: string, at: Setting, s: string)
    requires RegularPayload(env, composite, before) && Initialised(env, composite, before, after)
    requires i < |before.inputs + before.outputs| && k in (before.inputs + before.outputs)[i].paths
    requires (before.inputs + before.outputs)[i].paths[k] == at.Written()
    requires at.Valid() && at.kind == ATTR && at.name in after.attributes && after.attributes[at.name] == Str(s)
    ensures i < |after.inputs + after.outputs| && k in (after.inputs + after.outputs)[i].paths
    ensures (after.inputs + after.outputs)[i].paths[k] == at.With(s)
  {
    PassDeterministic(EnvOnly(env, composite, before.attributes), before.attributes, after.attributes);
    var full := Full(env, composite, after.attributes);
    StringBecomes(full, k, at, s);
    SourceBecomes(full, before.inputs, before.outputs, after.inputs, after.outputs, i, k, at.With(s));
  }

  /** In an attribute of an action it reads the payload, also where the action has an attribute
      of that name. */
  lemma ActionAttributeReads(env: string -> string, composite: Value -> string, payload: Attributes, a: Action, after: Action,
                             k: string, at: Setting, s: string)
    requires RegularAction(env, composite, payload, a) && ActionSubstitutes(env, composite, payload, a, after)
    requires k in a.attributes && a.attributes[k] == Str(at.Written())
    requires at.Valid() && at.kind == ATTR && at.name in payload && payload[at.name] == Str(s)
    ensures k in after.attributes && after.attributes[k] == Str(at.With(s))
  {
    var full := Full(env, composite, payload);
    StringBecomes(full, k, at, s);
    AttributeBecomes(full, a.attributes, after.attributes, k, at.Written(), at.With(s));
  }

  /** In a path of an action it reads the action's own attribute, and that of the payload only
      where the action has none. */
  lemma ActionPathReads(env: string -> string, composite: Value -> string, payload: Attributes, a: Action, after: Action,
                        i: nat, k: string, at: Setting, s: string)
    requires RegularAction(env, composite, payload, a) && ActionSubstitutes(env, composite, payload, a, after)
    requires i < |a.inputs + a.outputs| && k in (a.inputs + a.outputs)[i].paths
    requires (a.inputs + a.outputs)[i].paths[k] == at.Written() && at.Valid() && at.kind == ATTR
    requires if at.name in after.attributes then after.attributes[at.name] == Str(s)
             else at.name in payload && payload[at.name] == Str(s)
    ensures i < |after.inputs + after.outputs| && k in (after.inputs + after.outputs)[i].paths
    ensures (after.inputs + after.outputs)[i].paths[k] == at.With(s)
  {
    PassDeterministic(Full(env, composite, payload), a.attributes, after.attributes);
    var combined := Full(env, composite, Combined(payload, after.attributes));
    StringBecomes(combined, k, at, s);
    SourceBecomes(combined, a.inputs, a.outputs, after.inputs, after.outputs, i, k, at.With(s));
  }
}
