/** The loops of `substituteMapVariables`, `handleSliceSub` and `pathsSubstitute`. A schedule says
    which entry the range clause yields next; what it leaves open is chosen arbitrarily. */
module MapLoops {
  import opened ParameterSubstitution
  import opened MapSubstitution
  import opened EnvironmentPass

  function ScheduleSize(s: Schedule): nat
  {
    match s case Done => 0 case Visit(_, inner, rest) => 1 + ScheduleSize(inner) + ScheduleSize(rest)
  }

  /** A schedule with one more visit at the end. */
  function Then(s: Schedule, k: string, inner: Schedule): (r: Schedule)
    ensures Visited(r) == Visited(s) + {k}
  {
    match s
    case Done => Visit(k, inner, Done)
    case Visit(j, i, rest) => Visit(j, i, Then(rest, k, inner))
  }

  lemma {:induction false} RunsThen(scope: Scope, strict: bool, m: Attributes, s: Schedule, mid: Attributes, k: string,
                                    inner: Schedule, after: Attributes)
    requires Runs(scope, strict, m, s, mid) && k in mid && Visits(scope, strict, mid, k, inner, after)
    ensures Runs(scope, strict, m, Then(s, k, inner), after)
    decreases s
  {
    if s.Done? {
      RunsCons(scope, strict, m, k, inner, after, Done, after);
    } else {
      var next := RunsFirst(scope, strict, m, s, mid);
      RunsThen(scope, strict, next, s.rest, mid, k, inner, after);
      RunsCons(scope, strict, m, s.key, s.inner, next, Then(s.rest, k, inner), after);
    }
  }

  /** A panic in the visit after a run. */
  lemma {:induction false} PanicsThen(scope: Scope, strict: bool, m: Attributes, s: Schedule, mid: Attributes, k: string, inner: Schedule)
    requires Runs(scope, strict, m, s, mid) && k in mid && VisitPanics(scope, strict, mid, k, inner)
    ensures RunPanics(scope, strict, m, Then(s, k, inner))
    decreases s
  {
    if s.Visit? {
      var next := RunsFirst(scope, strict, m, s, mid);
      PanicsThen(scope, strict, next, s.rest, mid, k, inner);
    }
  }

  datatype ListOutcome = Elements(elems: seq<Value>) | ElementPanic

  lemma {:induction false} OrderedSnoc(order: seq<string>, k: string, lines: Lines)
    requires (forall j | j in order :: j in lines) && k in lines
    ensures (forall j | j in order + [k] :: j in lines) && Ordered(order + [k], lines) == Ordered(order, lines) + [Str(lines[k])]
  {
    if order == [] {
      assert order + [k] == [k];
    } else {
      OrderedSnoc(order[1..], k, lines);
      assert (order + [k])[1..] == order[1..] + [k];
    }
  }

  /** Appends the lines in the order a map range yields them. */
  method AppendLines(elems: seq<Value>, lines: Lines) returns (r: seq<Value>, ghost order: seq<string>)
    ensures IsOrderOf(order, lines.Keys) && r == elems + Ordered(order, lines)
  {
    r, order := elems, [];
    var todo := lines.Keys;
    while todo != {}
      invariant todo <= lines.Keys && IsOrderOf(order, lines.Keys - todo)
      invariant r == elems + Ordered(order, lines)
      decreases todo
    {
      var k :| k in todo;
      OrderedSnoc(order, k, lines);
      r, order, todo := r + [Str(lines[k])], order + [k], todo - {k};
    }
  }

  method HandleSliceSub(scope: Scope, elems: seq<Value>) returns (r: ListOutcome)
    ensures r.Elements? ==> ListSubstitutes(scope, elems, r.elems)
    ensures r.ElementPanic? ==> ListPanics(scope, elems)
  {
    var newslice: seq<Value> := [];
    for i := 0 to |elems|
      invariant ListSubstitutes(scope, elems[..i], newslice)
    {
      ghost var front, last := newslice, [];
      if elems[i].Str? {
        var outcome := ParameterSubstitute(scope, "", elems[i].s);
        if outcome.Panicked? {
          return ElementPanic;
        }
        if outcome.Success? {
          ghost var order;
          newslice, order := AppendLines(newslice, outcome.lines);
          last := Ordered(order, outcome.lines);
        }
      } else {
        newslice := newslice + [elems[i]];
        last := [elems[i]];
      }
      assert elems[..i + 1][..i] == elems[..i];
      assert ElementSubstitutes(scope, elems[i], last) && newslice == front + last;
      assert ListSubstitutes(scope, elems[..i + 1], newslice);
    }
    assert elems[..|elems|] == elems;
    return Elements(newslice);
  }

  // ------------------------------------------------------------ maps that are updated in place

  /** A map of attributes or parameters, shared by everything that refers to it. */
  class AttributeMap {
    var entries: Attributes

    constructor (entries: Attributes)
      ensures this.entries == entries
    {
      this.entries := entries;
    }
  }

  datatype MapOutcome = Finished | MapPanic

  /** The entries still to be visited are there, and are as they were or were made by a visit. */
  predicate Untouched(params: Attributes, pending: set<string>, m: Attributes)
    requires pending <= params.Keys
  {
    forall k | k in pending :: k in m && (m[k] == params[k] || m[k].Str?)
  }

  /** One visit; the other entries are there afterwards, and only a string may have replaced one. */
  ghost predicate OneVisit(scope: Scope, m: Attributes, k: string, inner: Schedule, after: Attributes)
  {
    && k in m && Visits(scope, false, m, k, inner, after)
    && forall l | l in m && l != k :: l in after && (after[l] == m[l] || after[l].Str?)
  }

  lemma UntouchedAfter(scope: Scope, params: Attributes, pending: set<string>, m: Attributes, k: string, inner: Schedule, after: Attributes)
    requires pending <= params.Keys && Untouched(params, pending, m) && OneVisit(scope, m, k, inner, after)
    ensures Untouched(params, pending - {k}, after)
  {
  }

  lemma StringVisited(scope: Scope, m: Attributes, k: string, inner: Schedule, lines: Lines)
    requires k in m && m[k].Str? && Substitutes(scope, k, m[k].s, Success(lines))
    ensures OneVisit(scope, m, k, inner, m - {k} + AsValues(lines))
  {
    assert m - {k} + AsValues(lines) == Replaced(m, k, AsValues(lines));
  }

  lemma FailureVisited(scope: Scope, m: Attributes, k: string, inner: Schedule)
    requires k in m && (m[k].Scalar? || (m[k].Str? && Substitutes(scope, k, m[k].s, Failure)))
    ensures OneVisit(scope, m, k, inner, m)
  {
  }

  lemma MapVisited(scope: Scope, m: Attributes, k: string, inner: Schedule, sub: Attributes)
    requires k in m && m[k].Map? && Ranges(scope, false, m[k].entries, inner, sub)
    ensures OneVisit(scope, m, k, inner, m[k := Map(sub)])
  {
  }

  lemma ListVisited(scope: Scope, m: Attributes, k: string, inner: Schedule, elems: seq<Value>)
    requires k in m && m[k].List? && ListSubstitutes(scope, m[k].elems, elems)
    ensures OneVisit(scope, m, k, inner, m[k := List(elems)])
  {
  }

  /** The scope of a later moment reads what the scope at the start read: the attributes have not
      changed, or they may not be used. */
  ghost predicate SameReading(now: Scope, start: Scope)
  {
    now == start || SameEnvironment(now, start)
  }

  lemma VisitAsAtStart(now: Scope, start: Scope, m: Attributes, k: string, inner: Schedule, after: Attributes)
    requires SameReading(now, start) && OneVisit(now, m, k, inner, after)
    ensures OneVisit(start, m, k, inner, after)
  {
    if now != start { SameVisit(now, false, start, false, m, k, inner, after); }
  }

  lemma PanicAsAtStart(now: Scope, start: Scope, m: Attributes, k: string, inner: Schedule)
    requires SameReading(now, start) && k in m && VisitPanics(now, false, m, k, inner)
    ensures VisitPanics(start, false, m, k, inner)
  {
    if now != start { SameVisitPanics(now, false, start, false, m, k, inner); }
  }

  /** One iteration: the entry of `params` is replaced in place. The attributes are read at this
      moment; they may be the very map that is being rewritten. */
  method VisitEntry(env: string -> string, composite: Value -> string, attributes: AttributeMap, params: AttributeMap, attrSub: bool,
                    k: string, inner: Schedule, ghost bound: Value)
    returns (r: MapOutcome, ghost nested: Schedule)
    requires k in params.entries && (attrSub ==> attributes != params)
    requires params.entries[k].Map? ==> params.entries[k] == bound
    modifies params
    ensures var now := Scope(env, old(attributes.entries), attrSub, composite);
            && (r.Finished? ==> OneVisit(now, old(params.entries), k, nested, params.entries))
            && (r.MapPanic? ==> VisitPanics(now, false, old(params.entries), k, nested))
    decreases ScheduleSize(inner), bound, 1
  {
    var now := Scope(env, attributes.entries, attrSub, composite);
    ghost var before := params.entries;
    nested := inner;
    match params.entries[k] {
      case Str(template) =>
        var outcome := ParameterSubstitute(now, k, template);
        if outcome.Panicked? {
          return MapPanic, nested;
        }
        if outcome.Success? {
          params.entries := params.entries - {k};
          params.entries := params.entries + AsValues(outcome.lines);
          StringVisited(now, before, k, inner, outcome.lines);
        } else {
          FailureVisited(now, before, k, inner);
        }
      case Map(sub) =>
        var child := new AttributeMap(sub);
        var outcome := SubstituteMapVariables(env, composite, attributes, child, attrSub, inner);
        if outcome.MapPanic? {
          nested :| RunPanics(now, false, sub, nested);
          return MapPanic, nested;
        }
        nested :| Ranges(now, false, sub, nested, child.entries);
        params.entries := params.entries[k := Map(child.entries)];
        MapVisited(now, before, k, nested, child.entries);
      case List(elems) =>
        var outcome := HandleSliceSub(now, elems);
        if outcome.ElementPanic? {
          return MapPanic, nested;
        }
        params.entries := params.entries[k := List(outcome.elems)];
        ListVisited(now, before, k, inner, outcome.elems);
      case Scalar(_) =>
        FailureVisited(now, before, k, inner);
    }
    return Finished, nested;
  }

  /** `substituteMapVariables`: it never fails; an entry that cannot be substituted stays. The map
      may be the one attributes are read from as long as attributes may not be used. */
  method SubstituteMapVariables(env: string -> string, composite: Value -> string, attributes: AttributeMap,
                                params: AttributeMap, attrSub: bool,
                                schedule: Schedule)
    returns (r: MapOutcome)
    requires attrSub ==> attributes != params
    modifies params
    ensures var start := Scope(env, old(attributes.entries), attrSub, composite);
            && (r.Finished? ==> exists s :: Ranges(start, false, old(params.entries), s, params.entries))
            && (r.MapPanic? ==> exists s :: RunPanics(start, false, old(params.entries), s))
    decreases ScheduleSize(schedule), Map(params.entries), 0
  {
    ghost var start, original := Scope(env, attributes.entries, attrSub, composite), params.entries;
    var script, pending := schedule, params.entries.Keys;
    ghost var trace := Done;
    while pending != {} || script.Visit?
      invariant ScheduleSize(script) <= ScheduleSize(schedule)
      invariant pending <= original.Keys && original.Keys <= Visited(trace) + pending
      invariant Untouched(original, pending, params.entries)
      invariant Runs(start, false, original, trace, params.entries)
      decreases ScheduleSize(script), pending
    {
      var k: string;
      var inner := Done;
      if script.Visit? {
        k, inner, script := script.key, script.inner, script.rest;
        if k !in params.entries {
          continue;
        }
      } else {
        k :| k in pending;
      }
      ghost var before, now := params.entries, Scope(env, attributes.entries, attrSub, composite);
      assert SameReading(now, start);
      ghost var nested;
      var outcome;
      ghost var bound := if k in pending then original[k] else params.entries[k];
      outcome, nested := VisitEntry(env, composite, attributes, params, attrSub, k, inner, bound);
      if outcome.MapPanic? {
        PanicAsAtStart(now, start, before, k, nested);
        PanicsThen(start, false, original, trace, before, k, nested);
        return MapPanic;
      }
      VisitAsAtStart(now, start, before, k, nested, params.entries);
      RunsThen(start, false, original, trace, before, k, nested, params.entries);
      trace := Then(trace, k, nested);
      UntouchedAfter(start, original, pending, before, k, nested, params.entries);
      pending := pending - {k};
    }
    assert Ranges(start, false, original, trace, params.entries);
    return Finished;
  }

  // ------------------------------------------------------------ data sources

  datatype DataSource = DataSource(name: string, paths: Lines, storeName: string)

  datatype SourceOutcome = Source | SourceFailure | SourcePanic

  /** The substituted name: the template must yield exactly the line of the key "name". */
  ghost predicate NameSubstitutes(scope: Scope, name: string, result: string)
  {
    exists lines :: Substitutes(scope, "name", name, Success(lines)) && "name" in lines && result == lines["name"]
  }

  /** `pathsSubstitute`, for a data source without data paths. */
  ghost predicate SourceSubstitutes(scope: Scope, ds: DataSource, result: DataSource)
  {
    && NameSubstitutes(scope, ds.name, result.name)
    && result.storeName == ds.storeName
    && exists s :: Ranges(scope, true, AsValues(ds.paths), s, AsValues(result.paths))
  }

  /** A reason to return an error: the name, or a path met during the loop. */
  ghost predicate SourceFails(scope: Scope, ds: DataSource)
  {
    || Substitutes(scope, "name", ds.name, Failure)
    || (exists lines :: Substitutes(scope, "name", ds.name, Success(lines)) && "name" !in lines)
    || PathFails(scope, ds.paths)
  }

  ghost predicate PathFails(scope: Scope, paths: Lines)
  {
    exists s, mid, k :: Runs(scope, true, AsValues(paths), s, AsValues(mid)) && k in mid && Substitutes(scope, k, mid[k], Failure)
  }

  ghost predicate SourcePanics(scope: Scope, ds: DataSource)
  {
    || Substitutes(scope, "name", ds.name, Panicked)
    || exists s :: RunPanics(scope, true, AsValues(ds.paths), s)
  }

  lemma AsValuesReplaced(before: Lines, k: string, lines: Lines)
    requires k in before
    ensures AsValues((before - {k}) + lines) == AsValues(before) - {k} + AsValues(lines)
    ensures k in AsValues(before) && AsValues(before)[k] == Str(before[k])
  {
  }

  lemma PathReplaced(scope: Scope, m: Attributes, k: string, path: string, lines: Lines, after: Attributes)
    requires k in m && m[k] == Str(path) && Substitutes(scope, k, path, Success(lines))
    requires after == m - {k} + AsValues(lines)
    ensures Visits(scope, true, m, k, Done, after)
  {
    assert after == Replaced(m, k, AsValues(lines));
  }

  /** One more path replaced by its expansions. */
  lemma PathVisited(scope: Scope, original: Lines, trace: Schedule, before: Lines, k: string, lines: Lines, after: Lines)
    requires Runs(scope, true, AsValues(original), trace, AsValues(before)) && k in before
    requires Substitutes(scope, k, before[k], Success(lines)) && after == (before - {k}) + lines
    ensures Runs(scope, true, AsValues(original), Then(trace, k, Done), AsValues(after))
  {
    AsValuesReplaced(before, k, lines);
    PathReplaced(scope, AsValues(before), k, before[k], lines, AsValues(after));
    RunsThen(scope, true, AsValues(original), trace, AsValues(before), k, Done, AsValues(after));
  }

  /** A map of paths, updated in place. */
  class PathMap {
    var entries: Lines

    constructor (entries: Lines)
      ensures this.entries == entries
    {
      this.entries := entries;
    }
  }

  /** A data source as the loops handle it: a struct whose copies share the map of paths. */
  datatype SourceRef = SourceRef(name: string, paths: PathMap, storeName: string)

  ghost function SourceView(ref: SourceRef): DataSource
    reads ref.paths
  {
    DataSource(ref.name, ref.paths.entries, ref.storeName)
  }

  /** `pathsSubstitute` on a copy of the struct: the name changes in the copy, the paths in the
      shared map. */
  method PathsSubstitute(scope: Scope, ds: SourceRef, schedule: Schedule) returns (r: SourceOutcome, after: SourceRef)
    modifies ds.paths
    ensures after.paths == ds.paths
    ensures r.Source? ==> SourceSubstitutes(scope, old(SourceView(ds)), SourceView(after))
    ensures r.SourceFailure? ==> SourceFails(scope, old(SourceView(ds)))
    ensures r.SourcePanic? ==> SourcePanics(scope, old(SourceView(ds)))
  {
    after := ds;
    var nameResult := ParameterSubstitute(scope, "name", ds.name);
    if nameResult.Panicked? {
      return SourcePanic, after;
    }
    if nameResult.Failure? || "name" !in nameResult.lines {
      return SourceFailure, after;
    }
    after := after.(name := nameResult.lines["name"]);
    r := SubstitutePaths(scope, ds.paths, schedule);
  }

  /** The range over the paths. */
  method SubstitutePaths(scope: Scope, paths: PathMap, schedule: Schedule) returns (r: SourceOutcome)
    modifies paths
    ensures r.Source? ==> exists s :: Ranges(scope, true, AsValues(old(paths.entries)), s, AsValues(paths.entries))
    ensures r.SourceFailure? ==> PathFails(scope, old(paths.entries))
    ensures r.SourcePanic? ==> exists s :: RunPanics(scope, true, AsValues(old(paths.entries)), s)
  {
    ghost var original := paths.entries;
    var script, pending := schedule, paths.entries.Keys;
    ghost var trace := Done;
    while pending != {} || script.Visit?
      invariant pending <= paths.entries.Keys && original.Keys <= Visited(trace) + pending
      invariant Runs(scope, true, AsValues(original), trace, AsValues(paths.entries))
      decreases ScheduleSize(script), pending
    {
      var k: string;
      if script.Visit? {
        k, script := script.key, script.rest;
        if k !in paths.entries {
          continue;
        }
      } else {
        k :| k in pending;
      }
      var outcome := ParameterSubstitute(scope, k, paths.entries[k]);
      if outcome.Panicked? {
        PanicsThen(scope, true, AsValues(original), trace, AsValues(paths.entries), k, Done);
        return SourcePanic;
      }
      if outcome.Failure? {
        return SourceFailure;
      }
      ghost var before := paths.entries;
      paths.entries := paths.entries - {k};
      paths.entries := paths.entries + outcome.lines;
      PathVisited(scope, original, trace, before, k, outcome.lines, paths.entries);
      trace := Then(trace, k, Done);
      pending := pending - {k};
    }
    assert Ranges(scope, true, AsValues(original), trace, AsValues(paths.entries));
    return Source;
  }
}
