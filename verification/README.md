# Verification model of the Cloud Compute Go SDK

This project models, in Dafny, the two parts of the SDK that hold its logic, and proves properties
of them over all inputs, all runs and all iteration orders that Go permits.

**The template engine** (`pluginmanager.go` and its users in `payload.go`).

- `Placeholder` and `Template` hold the grammar of `{ATTR|VAR|ENV::name[...]}` as a datatype, a
  hand-written recogniser for it, and scanning as the inverse of printing. `Lit` and `Ref` cells of a
  scanned template are what "filling" works on.
- `ParameterSubstitution` is `parameterSubstitute` as the source runs it: matches computed once, then
  one replace-all per match over every keyed line, inflating lines where a collection is referenced.
  Two lines may inflate to the same key, and the order in which Go ranges over the lines decides which
  is written last, so the method is proved against a relation (`Substitutes`) that allows each order.
- `References` states, for each kind of value and of reference, the one outcome of a template around one
  reference, by the value it names.
- `Expansion`, `Inflation`, `Determinism` and `Outcomes` relate that rewriting to one simultaneous
  substitution over all choices of values, and say when the outcome is unique, when it is an error,
  when the Go code panics and when no line is left.
- `MapSubstitution`, `EnvironmentPass` and `MapLoops` are the loops that delete from and insert into the
  map they range over. A `Schedule` says which entries are visited; `Ranges` allows every schedule of
  the Go Programming Language Specification, section "For statements with range clause", and some more.
  `MapLoops.AttributeMap` and `MapLoops.PathMap` are the maps as objects, rewritten in place.
- `Slices` states what becomes of each element of a list. `ScheduleChoice`, `Provenance` and `Survival`
  say when the schedule cannot be told from the result, what each entry of a result comes from, and
  what survives of each original entry.
- `Initialisation` states what `substituteVariables` may make of a payload; `PluginManager` runs it on
  shared maps and slices, with the copies of structs the source makes; `Precedence` says whose value
  each reference reads; `Completeness`, `InitialisationProperties`, `Isolation` and `Failures` state what
  holds afterwards.
- `TemplateVars` and `PhaseOrder` treat the VAR substitution at use time.
- `Boundaries` has inputs outside the hypotheses on which the conclusions fail.

**The event store** (`event_store.go`, `tiledb-store/tiledb_store.go`, the lookup part of `payload.go`).

- `VariableLength` is the string codec with its two encoders and two decoders.
- `DenseArray` is the arithmetic of n-dimensional inclusive ranges and an ideal dense array, which
  stands for TileDB; `ArrayStore`, `ArrayResult`, `Records`, `Recordset` and `SimpleArray` are the
  SDK's code on top of it.
- `Metadata` is the key/value map in which a list of strings takes two reserved keys.
- `ScopedLookup` is the search through the chain of parents.

## Vocabulary of the hypotheses

- *Well formed* (`WellFormed`): every brace of the text belongs to a placeholder, and no quoted key
  contains a brace.
- *Inert* (`Inert`): well formed, with no placeholder that the scope substitutes. Brace-free text is
  inert (`Expansion.BraceFreeIsInert`). Results about loops ask that the values put in be inert or
  brace-free; those about one template ask only that no value contain a later match (`LaterFree`).
- *Plain* (`PlainValue`): no brace in any string, scalar or key of a nested map. `%v` is a function
  parameter; `Completeness.PunctuationIsBraceFree` shows that it shows plain values without a brace as
  long as it adds only the characters of `map[`, `:`, blank and `]` to what it prints.
- *Resolvable* / *Named*: indices are in range and map keys are present / named attributes exist.
- *Collision-free*: two choices of values with the same key give the same line. Dash-free values are.
- *Regular*: a map or payload whose templates satisfy the above, whose list elements inflate to at
  most one element, in which no entry expands to the key of another entry, and entries that expand to
  the same key agree on its value.

## Results, hardest first

1. `ScheduleChoice.IndependentExactlyWhen` and `MapSubstitution.ScheduleIndependence`: ranging over a map
   while deleting and inserting reaches one map under every schedule, nested maps included, if and only
   if entries that expand to the same key agree. `Boundaries.ClashingEntries` is a map on which two
   schedules give two results.
2. `Expansion.Simultaneous`: the sequential rewriting is one simultaneous substitution for each
   choice, repeated and inflating placeholders included; `Determinism.DeterministicExactlyWhen` says
   exactly when Go's map order cannot be seen in the result; `Outcomes.OutcomeExactly` says exactly
   when the outcome is an error or a panic.
3. `Failures.InitPluginManager` and `Failures.SubstituteActionsInOrder`, on shared maps and slices
   updated in place: on a regular payload initialisation never panics, returns an error exactly when a
   data source is unresolved, and otherwise has a single result; the actions may be visited in any order.
4. `InitialisationProperties.InitialisationComplete` and `Isolation.PayloadPassKeeps`: what is in the
   payload afterwards comes, entry by entry, from the template at its place, with exactly the
   placeholders that were to be kept; and on a regular payload nothing is lost.
5. `Recordsets.RoundTrip` and `Recordsets.ScanRange`: records written as columns, read back over any
   range with the attributes in any order and scanned one by one are the records of that range; in any
   number of dimensions the scans deliver every point of the range once, in order.
6. `References.ListEvery`, `References.MapKeyed` and the other laws of `References`: which text each
   reference inserts, under which keys, for every value; `Precedence.ActionReads` and
   `Precedence.ActionPathReads`: from which attributes, the action's own first.
7. `PhaseOrder.PhasesCommute`, `TemplateVars.AgreeExactlyWhen`, `Metadata.RunReads`,
   `SimpleArrays.RowAndColumn`, `Templates.LeftmostUnique`, `Inflation.CartesianProduct`,
   `Placeholders.Unambiguous`.

Where the code and its comments differ the model follows the code. The comment at
`pluginmanager.go:43` speaks of a literal `[]` in group 3; the pattern allows white space between the
brackets, and so does the model. The interface of simple arrays is
documented for one or two dimensions (`event_store.go:6`), and the loop at
`tiledb-store/tiledb_store.go:475-479` indeed fills no more (`SimpleArrays.RangeFilledExactlyWhen`).

## Model

| member | source | states |
|---|---|---|
| GoStrings.JoinSplit | pluginmanager.go:577-579 | splitting on commas and joining again gives back every string, with leading, trailing and repeated commas |
| GoStrings.SplitJoin | pluginmanager.go:577-579 | the fields of a split are the only comma-free list that joins to the string |
| GoStrings.SplitHead | pluginmanager.go:577-579 | everything up to the first comma is the first field |
| Placeholders.MatchComplete | pluginmanager.go:47-54 | every text of the grammar is recognised, with its own groups, whatever follows |
| Placeholders.MatchSound | pluginmanager.go:47-54 | whatever is recognised is a text of the grammar and a prefix of the input |
| Placeholders.Unambiguous | pluginmanager.go:47-54 | at a given start there is at most one end and one group assignment |
| Templates.ScanRender | pluginmanager.go:476 | scanning inverts printing: same placeholders, order, types, names and bracket parts |
| Templates.RenderScan | pluginmanager.go:476 | finding all matches loses no character of the template |
| Templates.ScanLeftmost | pluginmanager.go:476 | whatever the string, unmatched braces included, every match is of the grammar and outside the matches none begins |
| Templates.LeftmostUnique | pluginmanager.go:476 | only one way to cut a string into text and matches has that property |
| EmbeddedVars.ReferenceRecovered | pluginmanager.go:590-620 | type, name, quoted key and index of a written reference are recovered; an index above the largest int is read as a reference to every element |
| EmbeddedVars.BracketVariants | pluginmanager.go:598-618 | an empty quoted key is read as no bracket at all, and zeros before an index change nothing |
| EmbeddedVars.FindAllInvertsPrinting | pluginmanager.go:476-477 | the matches of a printed template are its placeholders, in order |
| EmbeddedVars.DecimalDigits | pluginmanager.go:604-609 | the number read from written decimal digits is the number written |
| ParameterSubstitution.RewriteLines | pluginmanager.go:496-499 | the loop over the lines replaces in every line and touches no key |
| ParameterSubstitution.InflateOverList | pluginmanager.go:502-512 | the nested loops add, in some order of the lines, one line under each shown element; where two lines inflate to the same key the one visited last stays |
| ParameterSubstitution.InflateOverMap | pluginmanager.go:540-550 | the same for the values of a map, in any order of its keys |
| ParameterSubstitution.InflatedLines | pluginmanager.go:502-512 | whatever the order, the keys are all pairs of an old key and a text, and each line comes from such a pair |
| ParameterSubstitution.Concatenate | pluginmanager.go:523-535 | the builder loop writes the shown elements joined by commas |
| ParameterSubstitution.SubstituteMatch | pluginmanager.go:478-565 | one match is kept, inserted, inflated, an error or a panic as its type, the scope and the value demand, with the texts that the laws of `References` give |
| ParameterSubstitution.ParameterSubstitute | pluginmanager.go:469-571 | the outcome is one that some order of Go's map ranges allows, errors and panics included |
| References.MissingAttribute | pluginmanager.go:491-494 | a reference to a missing attribute has one outcome, the error |
| References.KeptReference | pluginmanager.go:480-490 | a VAR reference, and an ATTR reference where attributes may not be used, stays as it is |
| References.ScalarReference | pluginmanager.go:496-500 | a string or scalar attribute is inserted whatever brackets follow its name, and nothing around it changes |
| References.ListIndexed | pluginmanager.go:515-520 | an index inserts the text of that element, or panics when there is none |
| References.ListWhole | pluginmanager.go:524-537 | a bare name inserts the texts of all elements, in order, with commas between them |
| References.ListEvery | pluginmanager.go:503-512 | empty brackets, an index above the largest int or a quoted key give one line for each distinct text of an element, under the key, a dash and that text, and no other |
| References.MapKeyed | pluginmanager.go:553-558 | a quoted key inserts the text of that entry, a bare name that of the empty key; without the entry the code panics |
| References.MapEvery | pluginmanager.go:541-550 | empty brackets or any index give one line for each distinct text of a value |
| References.EnvironmentWhole | pluginmanager.go:577-579 | a bare reference inserts exactly the environment string |
| References.EnvironmentIndexed | pluginmanager.go:577-579 | an index inserts that field between commas, or panics when there is none |
| References.EnvironmentEvery | pluginmanager.go:577-579 | empty brackets or a quoted key give one line for each distinct field |
| References.EntrySpelledOut | pluginmanager.go:553-558 | a concrete map: `{ATTR::m['a']}` becomes the value of `a` and nothing else |
| Expansion.Simultaneous | pluginmanager.go:469-571 | when no value contains a later match, the sequential rewriting equals one simultaneous substitution: a key for each choice of values and no other, each line being the template filled at once under a choice with its key |
| Expansion.BraceFreeIsInert | pluginmanager.go:495-499 | a brace-free value cannot be rewritten by a later match |
| Inflation.ResultUnique | pluginmanager.go:501-512 | without collisions the result is one map, whatever order maps are enumerated in |
| Inflation.KeyInjective | pluginmanager.go:508 | with dash-free values a key determines the choice behind it |
| Inflation.CartesianProduct | pluginmanager.go:501-512 | dash-free inflation is exact: a line for every choice, the template under that choice, and as many lines as the product of the numbers of distinct values |
| Inflation.DistinctChoice | pluginmanager.go:478-499 | pairwise distinct placeholders take each its own component of the choice |
| Outcomes.VanishesExactlyWhen | pluginmanager.go:503-512 | a template leaves no line at all if and only if one of its references is to every element of an empty collection |
| Inflation.OutputInert | pluginmanager.go:469-571 | every line produced is text that a further substitution leaves alone |
| Inflation.InertIdentity | pluginmanager.go:478-490 | substitution is the identity on inert text, and has no other outcome there |
| Inflation.FailsExactlyWhen | pluginmanager.go:491-494 | a resolvable template never panics and fails exactly when it names a missing attribute |
| Outcomes.OutcomeExactly | pluginmanager.go:478-565 | for every template: an error or a panic exactly when the first match that stops the substitution names a missing attribute or has a bad index or key; a bad index does not stop it once an empty collection removed all lines |
| Determinism.ChoiceMembers | pluginmanager.go:501-512 | a choice is exactly one option for each match |
| Determinism.TwoLinesExactly | pluginmanager.go:504-510 | two lines inflate to exactly two results: one line wins every key they share, or the other does |
| Determinism.ChoiceReachable | pluginmanager.go:501-512 | every choice is one that some order of map ranges lets survive under its key |
| Determinism.DeterministicExactlyWhen | pluginmanager.go:501-512 | the order of map ranges is invisible if and only if choices with the same key give the same line |
| Boundaries.EnvironmentReference | pluginmanager.go:515-537 | for every match of type ENV: bare the environment string, with an index that field of its comma split, with empty brackets every field, out of range a panic |
| Boundaries.PlaceholderInValue | pluginmanager.go:495-499 | when the value of one reference is the text of the next, the result is not the simultaneous one |
| Boundaries.NestedEnvironmentExample | pluginmanager.go:495-499 | a concrete environment on which that happens |
| Boundaries.FreshPlaceholderExample | pluginmanager.go:495-499 | a template with an unmatched brace whose output is a placeholder that no match was |
| Boundaries.DashCollision | pluginmanager.go:508 | values with dashes for which the surviving line depends on the order of a map range |
| Boundaries.ClashingEntries | pluginmanager.go:362-366 | a map on which two schedules of the range clause reach two different results |
| MapSubstitution.ScheduleIndependence | pluginmanager.go:351-377 | on a regular map every schedule that the language permits reaches one and the same map, nested maps included |
| ScheduleChoice.TameOutcome | pluginmanager.go:469-571 | a tame template without collisions has an outcome, and it is the expanded one or, for a missing attribute, an error |
| ScheduleChoice.LastVisited | pluginmanager.go:351-377 | some schedule visits any given entry last, and its expansions are then in the result |
| ScheduleChoice.IndependentExactlyWhen | pluginmanager.go:351-377 | when no entry expands to the key of another, all schedules reach the same map if and only if entries that expand to the same key agree on its value |
| MapSubstitution.StableRun | pluginmanager.go:351-377 | entries already substituted may be visited any number of times without effect |
| MapSubstitution.ExpandMapStable | pluginmanager.go:351-377 | the result is a fixed point of the loop |
| Provenance.RunTraced | pluginmanager.go:351-377 | after any range over safe entries, also where expansions collide, every entry of the result comes from an entry of the original map, in nested maps from one of the same nested map |
| Survival.RangeRemains | pluginmanager.go:351-377 | every entry of the result, at any map depth, is what remains of an original entry at the same place: a line of its own template under its own key with exactly the kept placeholders |
| Survival.RangeSurvives | pluginmanager.go:351-377 | on a regular map every original entry survives at every depth: for each choice its line is there, under its key, with the kept placeholders |
| Survival.EntryVanishesExactlyWhen | pluginmanager.go:351-377 | an entry vanishes if and only if its template refers to every element of an empty collection |
| MapLoops.HandleSliceSub | pluginmanager.go:429-449 | each element is replaced by its expansions in some order, or dropped when it fails; a panic is that of an element |
| Slices.ListConcat | pluginmanager.go:429-449 | a list is substituted piece by piece, in order |
| Slices.MissingElement | pluginmanager.go:429-449 | an element that refers to a missing attribute is dropped |
| Slices.StringElement | pluginmanager.go:429-449 | an element that refers to a string attribute becomes that one string |
| Slices.EveryElement | pluginmanager.go:429-449 | an element that refers to every element of a list becomes a string for each text, and no other |
| Slices.OtherElement | pluginmanager.go:429-449 | an element that is no string stays |
| MapLoops.VisitEntry | pluginmanager.go:352-376 | one iteration replaces the entry in place as one visit would, reading the attributes at that moment, even from the map that is being rewritten |
| MapLoops.SubstituteMapVariables | pluginmanager.go:351-377 | the map object is left as some permitted schedule that visits every original entry leaves it, for the attributes as they were at the start; a panic is one that such a schedule leads to |
| MapLoops.PathsSubstitute | pluginmanager.go:379-409 | the copy's name is the line for "name" of its template and the shared paths follow some permitted schedule; an error is that of the name or of a path met in the loop |
| Failures.RegularNeverPanics | pluginmanager.go:351-377 | no schedule makes a range over a regular map panic |
| Failures.SourceOutcome | pluginmanager.go:379-409 | a regular data source never panics, and is rejected exactly when its name or a path uses a missing attribute or its name inflates away |
| Completeness.OnlyKeptRemain | pluginmanager.go:480-490 | every line produced is that of a choice, under its key; no placeholder of the scope remains in it, and all others survive verbatim, in order |
| Completeness.PunctuationIsBraceFree | pluginmanager.go:507 | text printed with the punctuation of `%v` has no brace when no string, scalar or nested key has one |
| Completeness.KeyBraceFree | pluginmanager.go:508 | with brace-free values a brace-free key inflates to brace-free keys |
| Completeness.ScopeOptions | pluginmanager.go:573-588 | with a brace-free environment and, where attributes may be used, plain attributes only brace-free text is ever put in |
| Precedence.MissingStays | pluginmanager.go:351-377 | on a regular map an entry that refers to a missing attribute stays, verbatim, under its own key |
| Precedence.ScalarStays | pluginmanager.go:351-377 | and so does an entry that is neither a string, a list nor a map |
| Precedence.ActionReads | pluginmanager.go:316-343 | an action becomes exactly what its passes allow: its attributes read those of the payload, its inputs and outputs the attributes of both, its own, as they are after their pass, where both have one of that name |
| Precedence.ActionPathReads | pluginmanager.go:321-342 | in a regular action a path that refers to a string attribute gets the action's own, and that of the payload only where the action has none |
| Precedence.ActionAttributeReads | pluginmanager.go:318-319 | an attribute of an action reads the payload even where the action has an attribute of that name |
| Precedence.PayloadAttributeKeeps | pluginmanager.go:290-291 | a reference to an attribute inside the payload attributes stays, even where the payload has that attribute |
| Precedence.StoreParameterReads | pluginmanager.go:293-296 | a store parameter reads the payload attributes as they are after their own pass |
| Precedence.PathReads | pluginmanager.go:298-314 | so does a path of the payload |
| PluginManagers.SubstituteSources | pluginmanager.go:299-314 | each struct of the slice is copied, its shared paths rewritten in place and the copy written back; every data source becomes one of its substitutions, and an error or panic is that of one of them |
| PluginManagers.SubstituteStores | pluginmanager.go:294-296 | the parameters every store shares with its copy are rewritten in place |
| PluginManagers.SubstituteAction | pluginmanager.go:316-343 | on a copy of the struct: what the action refers to becomes what the payload attributes and its own fields determine, its own attributes taking precedence, through the shared map and slices |
| PluginManagers.SubstituteOne | pluginmanager.go:316-343 | the other actions and the payload attributes keep their values, because nothing is shared |
| PluginManagers.SubstituteActions | pluginmanager.go:316-343 | in any order of the actions each becomes what it would become alone, nothing being written back to the slice, and the payload attributes are unchanged |
| PluginManagers.PluginManager.SubstituteOwnAttributes | pluginmanager.go:290-291 | the pass over the payload attributes, run on the very map it could read, is a pass for the attributes as they were |
| PluginManagers.PluginManager.SubstituteVariables | pluginmanager.go:288-346 | the new payload is the composition of the passes, each with its own scope; errors and panics have a cause in the payload |
| PluginManagers.NewPluginManager | pluginmanager.go:167-168 | a decoded payload consists of new maps and slices that nothing shares |
| Failures.SubstituteActionsInOrder | pluginmanager.go:316-343 | visiting regular actions in any order never panics, is an error exactly when some action is unresolved, and otherwise gives the one possible result, the rest of the payload staying as it is |
| Failures.InitPluginManager | pluginmanager.go:167-174 | a regular payload is never a panic, an error exactly when some data source is unresolved, and otherwise becomes the only payload allowed |
| InitialisationProperties.PassBraceFree | pluginmanager.go:290-291 | a pass leaves no placeholder in any attribute at any map depth, each entry being what remains of one at its place; on a regular map every entry survives |
| InitialisationProperties.SourceComplete | pluginmanager.go:379-409 | name and paths are lines of their own templates under their own keys, with exactly the VAR placeholders, verbatim and in order; for a regular source the line of every path and every choice is there |
| InitialisationProperties.PathVanishesExactlyWhen | pluginmanager.go:397-409 | a path vanishes if and only if it refers to every element of an empty collection |
| InitialisationProperties.StoreComplete | pluginmanager.go:293-296 | names of stores stay; each parameter is what remains of one of the same store, and has no brace where the originals refer to the environment and to existing attributes only; on a regular map none is lost |
| InitialisationProperties.ActionComplete | pluginmanager.go:316-343 | the same, both ways, for an action's attributes, inputs and outputs |
| InitialisationProperties.InitialisationComplete | pluginmanager.go:288-346 | after initialisation no ENV or ATTR placeholder remains in attributes, names and paths, each is what remains of the one at its place with every VAR placeholder verbatim, so is each store parameter, and in a regular payload none is lost |
| EnvironmentPass.SameRun | pluginmanager.go:351-377 | with attribute substitution disallowed a run depends on the map and the environment only, and no visit in it fails |
| EnvironmentPass.SamePanics | pluginmanager.go:351-377 | nor does a panic depend on anything else |
| Isolation.PayloadPassKeeps | pluginmanager.go:291 | the payload pass leaves only what remains of each entry at its place, every ATTR and VAR placeholder of its own template verbatim and no ENV placeholder; on a regular map every entry survives |
| Isolation.KeptInPayload | pluginmanager.go:480-490 | what that pass keeps of a template is its ATTR and VAR placeholders, in order |
| Isolation.PayloadPassLosesNothing | pluginmanager.go:577-579 | no entry vanishes in it, since an environment value always has a field |
| Isolation.SourceDeterministic | pluginmanager.go:379-409 | a regular data source has one result |
| Isolation.ActionDeterministic | pluginmanager.go:316-343 | an action's result is a function of the payload attributes and its own fields |
| Isolation.ActionsDeterministic | pluginmanager.go:316-343 | what regular actions become together is unique |
| Isolation.InitialisationDeterministic | pluginmanager.go:288-346 | no schedule of any loop of the initialisation can be told from its result |
| TemplateVars.TemplateVarSubstitution | pluginmanager.go:622-632 | the loop performs one first-occurrence replacement for each match of a bound VAR |
| TemplateVars.CopyFilePath | payload.go:422-425 | the loop performs one replace-all for each key, in some order of the keys |
| References.VariableReference | pluginmanager.go:622-632 | at use time a VAR reference, whatever its brackets, becomes the value bound to its name, and every other reference stays |
| References.VariableByKey | payload.go:422-425 | the loop over the keys does the same for a reference without brackets |
| TemplateVars.ScanLoopBinds | pluginmanager.go:622-632 | the first binds all placeholders at once, repeated ones included |
| TemplateVars.KeyLoopFills | payload.go:422-425 | the second fills at once the placeholders whose text is that of a key, in every order of the keys |
| TemplateVars.AgreeWithoutBrackets | payload.go:422-425 | on templates whose VARs have no bracket part both agree for all brace-free keys and values, and keep every unknown VAR |
| TemplateVars.AgreeWhenBoundAlike | payload.go:422-425 | for all brace-free keys, also such as `x[0]`, both agree where each VAR placeholder has the same value, or none, under its name and under its name with its bracket part |
| TemplateVars.AgreeOnOneExactlyWhen | payload.go:422-425 | on a single placeholder, for all brace-free keys, they agree if and only if that holds |
| TemplateVars.AgreeExactlyWhen | payload.go:422-425 | for keys without an opening bracket they agree on a template if and only if no VAR placeholder with a bracket part has its name bound |
| PhaseOrder.LineCommutes | payload.go:200-203 | under each choice, binding the line and expanding the bound template give the same line |
| PhaseOrder.PhasesCommute | payload.go:200-203 | substituting VAR before or after the automatic phase gives the same keyed lines, inflation included |
| VariableLength.EncodeColumn | event_store.go:429-448 | the bytes are the concatenation of the strings and the offsets where each starts |
| VariableLength.ComputeStringSliceMetadataComponents | tiledb-store/tiledb_store.go:894-905 | the metadata encoder produces the same bytes and offsets |
| VariableLength.EncodingValid | event_store.go:429-448 | offsets start at 0, never decrease and stay within the bytes |
| VariableLength.HandleVariableResults | tiledb-store/tiledb_store.go:518-536 | the cursor loop returns the bytes between consecutive bounds |
| VariableLength.CursorExactlyWhen | tiledb-store/tiledb_store.go:518-536 | the cursor decoder agrees with the slicing decoder if and only if the bound after the last value is the end of the data |
| VariableLength.SliceStrings | tiledb-store/tiledb_store.go:825-830 | the slicing decoder returns the values between the offsets |
| VariableLength.DecodeEncode | tiledb-store/tiledb_store.go:825-830 | every list of strings is restored, empty strings included |
| VariableLength.EncodeDecode | tiledb-store/tiledb_store.go:894-905 | conversely valid bytes and offsets are the encoding of what they decode to |
| DenseArrays.Size | event_store.go:206-219 | the size is the number of points of the box, in any number of dimensions |
| DenseArrays.LinearOfPoint | event_store.go:206-219 | each of the positions 0 to size - 1 belongs to a point of the box |
| DenseArrays.PointOfLinear | event_store.go:206-219 | and each point to one position in bounds, so that the two are a bijection |
| DenseArrays.RowMajor | event_store.go:182-204 | positions are in the order of the first coordinate in which two points differ |
| DenseArrays.InBoxExactly | event_store.go:206-219 | a point is in the box of a range exactly when each coordinate is between the two bounds of its dimension |
| DenseArrays.PlanePoints | event_store.go:221-227 | on two-dimensional ranges the size is rows times columns |
| DenseArrays.PlanePosition | event_store.go:182-204 | the index arithmetic of rows and columns is row-major position |
| DenseArrays.WindowOfBuffer | tiledb-store/tiledb_store.go:269-376 | a window read after a write has, at each position, the buffer element of the same point |
| DenseArrays.PutGet | tiledb-store/tiledb_store.go:199-267 | reading back the box written returns the buffer |
| Records.BuildBuffers | event_store.go:312-335 | one attribute for each tagged field; an error exactly for an unsupported kind |
| Records.StructSliceToArrayConfig | event_store.go:288-310 | the result is the transposed records, strings encoded; an error exactly for an unsupported kind |
| Records.HandleStrings | event_store.go:429-448 | string attributes are overwritten by their encoding, all others are unchanged |
| Records.BufferLenIsCount | event_store.go:347-352 | the buffer length is the number of records, for strings too |
| Records.BuildPutArrayInput | event_store.go:389-419 | the range is 1 to the number of records; a sparse array gets these as coordinates |
| ArrayResults.TagAsPositionMap | event_store.go:272-282 | maps each tag, and nothing else, to the field that has it and after which none has |
| ArrayResults.AttrResultPosition | event_store.go:250-257 | a position that holds the attribute and before which none does, or -1 when it was not requested |
| ArrayResults.PositionSound | event_store.go:250-257 | that position is in bounds, is the first that holds the attribute, and exists exactly when it was requested |
| ArrayResults.ArrayResult.Size | event_store.go:206-219 | the number of coordinates, or of points of a dense range |
| ArrayResults.ArrayResult.GetRow | event_store.go:182-188 | the cells of one row of a window |
| ArrayResults.ArrayResult.GetColumn | event_store.go:192-204 | the cells of one column of a window |
| ArrayResults.ArrayResult.Scan | event_store.go:229-248 | sets exactly the requested tagged fields from the current row, leaves all others, and advances by one |
| ArrayStores.GetOpBufferRange | tiledb-store/tiledb_store.go:378-392 | a bound of 0 becomes that of the domain, no range the whole domain |
| ArrayStores.ArrayStore.PutArray | tiledb-store/tiledb_store.go:199-267 | all buffers are written into the one box |
| ArrayStores.ArrayStore.GetArray | tiledb-store/tiledb_store.go:269-376 | the cells of each requested attribute in order, strings decoded; an error exactly for an unknown attribute |
| ArrayStores.PutAllColumn | tiledb-store/tiledb_store.go:242-259 | with distinct names every buffer is found under its own name |
| Recordsets.Write | event_store.go:478-500 | the store holds every tagged column in positions 1 to n |
| Recordsets.Read | event_store.go:502-521 | the result holds, for each requested attribute, its field of the records from the first bound to the second, 1 and the number of records standing for a bound of 0 and for no range |
| Recordsets.ScanAll | event_store.go:229-248 | for a result of any number of dimensions `Size` calls of `Scan` stay in bounds, and call i sets exactly the requested fields, from position i |
| Recordsets.ScanRange | event_store.go:206-248 | reading and scanning a range of any number of dimensions gives one record for each point, none twice, in row-major order, with the cells of that point |
| Recordsets.RoundTrip | event_store.go:463-521 | records written, read over any range with attributes in any order, and scanned are the records of the range, whose bounds are those given or, for 0 and for no range, those of the whole |
| SimpleArrays.PutRange | tiledb-store/tiledb_store.go:475-479 | which bounds the range loop fills and which it leaves at 0 |
| SimpleArrays.RangeFilledExactlyWhen | tiledb-store/tiledb_store.go:475-479 | it fills the whole range if and only if there are at most two dimensions |
| SimpleArrays.PutSimpleArray | tiledb-store/tiledb_store.go:430-489 | a new array whose domain and contents are the dimensions and the buffer |
| SimpleArrays.GetSimpleArray | tiledb-store/tiledb_store.go:491-516 | the cells of the window whose rows are those of `YRange` and whose columns those of `XRange`, an omitted axis or a bound of 0 meaning that of the domain |
| SimpleArrays.WindowShowsBuffer | tiledb-store/tiledb_store.go:491-516 | every index is in bounds and every cell of a window is the buffer element of that row and column |
| SimpleArrays.RowAndColumn | event_store.go:182-204 | every cell of a row and of a column of a window is the buffer element of its row, counted from the lower bound of `YRange`, and its column, counted from that of `XRange` |
| SimpleArrays.RowsRebuild | event_store.go:182-188 | the rows one after the other rebuild the data of the result |
| Metadata.MetadataStore.PutStringSlice | tiledb-store/tiledb_store.go:773-782 | a list of strings takes exactly its two reserved keys |
| Metadata.MetadataStore.PutMetadata | tiledb-store/tiledb_store.go:783-785 | a plain value takes exactly its own key |
| Metadata.MetadataStore.DeleteMetadata | tiledb-store/tiledb_store.go:907-920 | removes that key and no other |
| Metadata.MetadataStore.GetStringSlice | tiledb-store/tiledb_store.go:808-836 | the decoded list, or missing, of the wrong type, or a panic on bad offsets |
| Metadata.MetadataStore.GetMetadata | tiledb-store/tiledb_store.go:836-856 | missing, the value when its type is that of the destination, or an error |
| Metadata.KeysApart | tiledb-store/tiledb_store.go:775-776 | data and offset keys of any lists never collide |
| Metadata.StepRefines | tiledb-store/tiledb_store.go:761-786 | one operation on the map is one operation on two independent maps |
| Metadata.RunRefines | tiledb-store/tiledb_store.go:761-786 | so is every run whose plain keys are not reserved |
| Metadata.RunReads | tiledb-store/tiledb_store.go:836-857 | after every such run a plain key reads as the value of the last put without a later deletion, into a destination of its own type only, and is missing when there is none |
| Metadata.RunReadsStrings | tiledb-store/tiledb_store.go:808-835 | and a list reads as the last one put under its key, whatever else the run did |
| Metadata.DeleteKeepsExactlyWhen | tiledb-store/tiledb_store.go:907-920 | a deletion keeps all lists if and only if its key is not one of theirs; the name of a list is not |
| Metadata.ReservedKeyBreaks | tiledb-store/tiledb_store.go:783-785 | a concrete run in which a plain value under a reserved key makes a list unreadable |
| ScopedLookup.IOManager.SetParent | payload.go:113-115 | the chain becomes this manager followed by the parent's chain |
| ScopedLookup.IOManager.GetStore | payload.go:117-128 | the first store of that name in the nearest manager that has one, and none exactly when no manager of the chain has one, for every finite chain |
| ScopedLookup.IOManager.GetDataSource | payload.go:130-150 | the same for data sources of the kind asked for, inputs before outputs at each level when both are searched |
| ScopedLookup.IOManager.ResolveReader | payload.go:183-198 | the source given or the nearest input of that name, and the nearest store of its store name from this manager, wherever the source was found; nothing when either is missing |
| ScopedLookup.NearestWins | payload.go:117-150 | no change to an ancestor alters a name that a nearer manager resolves |
| ScopedLookup.ChildStoreOverrides | payload.go:183-198 | a child's store overrides the parent's, even for a source that only the parent has |

## Left out

- Input and output: S3, file systems, TileDB itself, MQTT, JSON, logging, the process environment. The
  environment is a function parameter; TileDB is an ideal dense array and an ideal key/value map.
- `%v` of lists and maps is a function parameter; only what `AddsPunctuation` says of it is used.
- Strings of the template engine are sequences of characters; invalid UTF-8 is not modelled. Strings of
  the event store are sequences of bytes.
- The iteration order of ranges over maps: nested orders are a `Schedule`, chosen arbitrarily inside the
  methods; the relation also allows visits that Go would not make, so results about all schedules cover Go's.
- The data-paths loop of `pathsSubstitute` (`pluginmanager.go:412-424`) writes into the paths and not
  into the data paths; data sources here have none.
- Nested attribute maps are values inside the map objects: two entries or owners that share a nested
  map are not modelled. Payload attributes, stores, actions and data sources refer to maps and slices
  that are objects; owners that share one are excluded, as decoding never makes them.
- The state of the plugin manager after an error or a panic.
- Lists inside lists and maps inside lists, which the source copies without looking inside, are kept;
  `InitialisationComplete` asks that they be plain.
- Store parameters of actions, which the source does not substitute, `connectStores`, `RunActions`,
  the MQTT subscription map, status and error levels.
- `IOManager.Put`, `Copy`, `CopyFileToLocal`, `GetAbsolutePath` and `GetStoreAs`; the store sessions.
- The attribute conversions of `payload-attributes.go`.
- 64-bit overflow of sizes and positions, and the estimate of buffer sizes before a read.
- Sparse reads, column-major and unordered layouts, and the tile extents.
- An empty list of records, for which the source asks TileDB to write the range from 1 to 0.
- Destinations of `Scan` whose type differs from the type written.
- Recordsets.RoundTrip: does not model fields whose tag is repeated, because columns of the same name overwrite each other in the store.
- SimpleArrays.PutSimpleArray: does not model writing to an array that exists already with other dimensions, because TileDB decides the outcome, nor more than two dimensions, where `RangeFilledExactlyWhen` shows that the range is incomplete.
- SimpleArrays.GetSimpleArray: does not model a range of two axes on a one-dimensional array, because TileDB rejects it.
- Metadata.MetadataStore.PutStringSlice: does not model an error between the two writes, because errors come from TileDB.
- ScopedLookup.IOManager.SetParent: does not model a chain that is a cycle, on which the source does not terminate, nor a change to the chain of an ancestor after it was attached.
- VariableLength.HandleVariableResults: does not model bounds that decrease or leave the data, because there the unsigned size wraps around or the index panics.
