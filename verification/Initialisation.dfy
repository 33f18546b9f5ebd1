/** What `substituteVariables` may make of a payload: the passes over payload attributes, stores,
    data sources and actions, as relations on values. */
module Initialisation {
  import opened ParameterSubstitution
  import opened MapSubstitution
  import opened MapLoops

  datatype DataStore = DataStore(name: string, parameters: Attributes)

  datatype Action = Action(name: string, attributes: Attributes, inputs: seq<DataSource>, outputs: seq<DataSource>)

  datatype Payload = Payload(
    attributes: Attributes,
    stores: seq<DataStore>,
    inputs: seq<DataSource>,
    outputs: seq<DataSource>,
    actions: seq<Action>)

  /** Only the environment: the pass over the payload attributes themselves. */
  function EnvOnly(env: string -> string, composite: Value -> string, attributes: Attributes): Scope
  {
    Scope(env, attributes, false, composite)
  }

  function Full(env: string -> string, composite: Value -> string, attributes: Attributes): Scope
  {
    Scope(env, attributes, true, composite)
  }

  /** `maps.Copy` of an action's attributes over a clone of the payload's. */
  function Combined(payload: Attributes, action: Attributes): Attributes { payload + action }

  // ------------------------------------------------------------ what initialisation may produce

  ghost predicate PassResult(scope: Scope, m: Attributes, after: Attributes)
  {
    exists s :: Ranges(scope, false, m, s, after)
  }

  ghost predicate StoresSubstitute(scope: Scope, stores: seq<DataStore>, after: seq<DataStore>)
  {
    |after| == |stores| && forall i | 0 <= i < |stores| ::
      after[i].name == stores[i].name && PassResult(scope, stores[i].parameters, after[i].parameters)
  }

  ghost predicate SourcesSubstitute(scope: Scope, sources: seq<DataSource>, after: seq<DataSource>)
  {
    |after| == |sources| && forall i | 0 <= i < |sources| :: SourceSubstitutes(scope, sources[i], after[i])
  }

  /** One action: it reads the payload attributes and its own fields, nothing else. */
  ghost predicate ActionSubstitutes(env: string -> string, composite: Value -> string, payload: Attributes, a: Action, after: Action)
  {
    && after.name == a.name
    && PassResult(Full(env, composite, payload), a.attributes, after.attributes)
    && SourcesSubstitute(Full(env, composite, Combined(payload, after.attributes)), a.inputs, after.inputs)
    && SourcesSubstitute(Full(env, composite, Combined(payload, after.attributes)), a.outputs, after.outputs)
  }

  ghost predicate ActionsSubstitute(env: string -> string, composite: Value -> string, payload: Attributes,
                                    before: seq<Action>, after: seq<Action>)
  {
    |after| == |before| && forall i | 0 <= i < |before| :: ActionSubstitutes(env, composite, payload, before[i], after[i])
  }

  ghost predicate Initialised(env: string -> string, composite: Value -> string, before: Payload, after: Payload)
  {
    var full := Full(env, composite, after.attributes);
    && PassResult(EnvOnly(env, composite, before.attributes), before.attributes, after.attributes)
    && StoresSubstitute(full, before.stores, after.stores)
    && SourcesSubstitute(full, before.inputs, after.inputs)
    && SourcesSubstitute(full, before.outputs, after.outputs)
    && ActionsSubstitute(env, composite, after.attributes, before.actions, after.actions)
  }

  /** A data source that cannot be substituted. */
  ghost predicate SomeSourceFails(scope: Scope, sources: seq<DataSource>)
  {
    exists i :: 0 <= i < |sources| && SourceFails(scope, sources[i])
  }

  ghost predicate ActionFails(env: string -> string, composite: Value -> string, payload: Attributes, a: Action)
  {
    exists attributes ::
      && PassResult(Full(env, composite, payload), a.attributes, attributes)
      && SomeSourceFails(Full(env, composite, Combined(payload, attributes)), a.inputs + a.outputs)
  }

  ghost predicate SomeActionFails(env: string -> string, composite: Value -> string, payload: Attributes, actions: seq<Action>)
  {
    exists i :: 0 <= i < |actions| && ActionFails(env, composite, payload, actions[i])
  }

  ghost predicate InitialisationFails(env: string -> string, composite: Value -> string, before: Payload, attributes: Attributes)
  {
    && PassResult(EnvOnly(env, composite, before.attributes), before.attributes, attributes)
    && (SomeSourceFails(Full(env, composite, attributes), before.inputs + before.outputs)
        || SomeActionFails(env, composite, attributes, before.actions))
  }

  ghost predicate PassPanics(scope: Scope, m: Attributes)
  {
    exists s :: RunPanics(scope, false, m, s)
  }

  ghost predicate SomeSourcePanics(scope: Scope, sources: seq<DataSource>)
  {
    exists i :: 0 <= i < |sources| && SourcePanics(scope, sources[i])
  }

  ghost predicate SomeStorePanics(scope: Scope, stores: seq<DataStore>)
  {
    exists i :: 0 <= i < |stores| && PassPanics(scope, stores[i].parameters)
  }

  ghost predicate ActionPanics(env: string -> string, composite: Value -> string, payload: Attributes, a: Action)
  {
    || PassPanics(Full(env, composite, payload), a.attributes)
    || exists attributes ::
         && PassResult(Full(env, composite, payload), a.attributes, attributes)
         && var combined := Full(env, composite, Combined(payload, attributes));
         SomeSourcePanics(combined, a.inputs) || SomeSourcePanics(combined, a.outputs)
  }

  ghost predicate SomeActionPanics(env: string -> string, composite: Value -> string, payload: Attributes, actions: seq<Action>)
  {
    exists i :: 0 <= i < |actions| && ActionPanics(env, composite, payload, actions[i])
  }

  /** Somewhere in the initialisation an index is out of range or a key is missing. */
  ghost predicate InitialisationPanics(env: string -> string, composite: Value -> string, before: Payload)
  {
    || PassPanics(EnvOnly(env, composite, before.attributes), before.attributes)
    || exists attributes ::
         && PassResult(EnvOnly(env, composite, before.attributes), before.attributes, attributes)
         && LaterPanics(env, composite, attributes, before)
  }

  ghost predicate LaterPanics(env: string -> string, composite: Value -> string, attributes: Attributes, before: Payload)
  {
    var full := Full(env, composite, attributes);
    || SomeStorePanics(full, before.stores)
    || SomeSourcePanics(full, before.inputs)
    || SomeSourcePanics(full, before.outputs)
    || SomeActionPanics(env, composite, attributes, before.actions)
  }
}
