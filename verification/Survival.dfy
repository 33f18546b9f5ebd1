/** What remains of each entry of a map, and which entries survive: the entries of the result,
    one by one, against the entries of the original map at the same place. */
module Survival {
  import opened Templates
  import opened ParameterSubstitution
  import opened Expansion
  import opened Inflation
  import opened MapSubstitution
  import opened ScheduleChoice
  import opened Outcomes
  import opened Completeness
  import opened Provenance

  // ------------------------------------------------------------ nothing else is in the result

  /** The entry `j`, `w` is what remains of the entry `k`, `v`: a line of its own template with
      exactly the kept placeholders, the same scalar, the list with each element replaced by what
      remains of it, or the nested map with entries that remain of its own. */
  ghost predicate Remains(scope: Scope, k: string, v: Value, j: string, w: Value)
    decreases v, 1
  {
    match v
    case Str(t) => w.Str? && LineOf(scope, k, t, j, w.s)
    case Scalar(_) => j == k && w == v
    case List(elems) => j == k && w.List? && ListRemains(scope, elems, w.elems)
    case Map(_) => j == k && w.Map? && forall i | i in w.entries :: SomeRemains(scope, v, i, w.entries[i])
  }

  ghost predicate SomeRemains(scope: Scope, v: Value, j: string, w: Value)
    requires v.Map?
    decreases v, 0
  {
    exists l :: l in v.entries && Remains(scope, l, v.entries[l], j, w)
  }

  ghost predicate ElementRemains(scope: Scope, e: Value, result: seq<Value>)
  {
    if e.Str? then forall r | r in result :: r.Str? && exists j :: LineOf(scope, "", e.s, j, r.s)
    else result == [e]
  }

  ghost predicate ListRemains(scope: Scope, elems: seq<Value>, result: seq<Value>)
  {
    if elems == [] then result == []
    else
      var n := |elems| - 1;
      exists front, last :: ListRemains(scope, elems[..n], front)
                            && ElementRemains(scope, elems[n], last) && result == front + last
  }

  /** Well-formed templates whose attributes exist, at every depth. */
  ghost predicate Substitutable(scope: Scope, v: Value)
  {
    match v
    case Str(t) => WellFormed(t) && Named(scope, t)
    case Scalar(_) => true
    case List(elems) => forall e | e in elems :: e.Str? ==> WellFormed(e.s)
    case Map(entries) => forall k | k in entries :: Substitutable(scope, entries[k])
  }

  lemma BraceFreeSafe(scope: Scope, t: string)
    requires BraceFreeScope(scope) && WellFormed(t)
    ensures SafeText(scope, t) && BraceFreeOptions(scope, Scan(t))
  {
    ScopeOptions(scope, Scan(t));
    BraceFreeInert(scope, Scan(t));
  }

  lemma {:induction false} SubstitutableSafe(scope: Scope, v: Value)
    requires BraceFreeScope(scope) && Substitutable(scope, v)
    ensures SafeValue(scope, v)
  {
    match v
    case Str(t) => BraceFreeSafe(scope, t);
    case Scalar(_) =>
    case List(elems) =>
      forall e | e in elems ensures e.Str? ==> SafeText(scope, e.s) {
        if e.Str? { BraceFreeSafe(scope, e.s); }
      }
    case Map(entries) =>
      forall k | k in entries ensures SafeValue(scope, entries[k]) { SubstitutableSafe(scope, entries[k]); }
  }

  lemma ElementComes(scope: Scope, e: Value, result: seq<Value>)
    requires BraceFreeScope(scope) && (e.Str? ==> WellFormed(e.s)) && ElementSubstitutes(scope, e, result)
    ensures ElementRemains(scope, e, result)
  {
    if e.Str? && result != [] {
      var lines, order :| Substitutes(scope, "", e.s, Success(lines)) && IsOrderOf(order, lines.Keys)
                          && result == Ordered(order, lines);
      BraceFreeSafe(scope, e.s);
      OrderedFrom(order, lines);
      forall r | r in result ensures r.Str? && exists j :: LineOf(scope, "", e.s, j, r.s) {
        var j :| j in lines && r == Str(lines[j]);
        OnlyKeptRemain(scope, "", e.s, lines, j);
      }
    }
  }

  lemma {:induction false} ListComes(scope: Scope, elems: seq<Value>, result: seq<Value>)
    requires BraceFreeScope(scope) && forall e | e in elems :: e.Str? ==> WellFormed(e.s)
    requires ListSubstitutes(scope, elems, result)
    ensures ListRemains(scope, elems, result)
    decreases |elems|
  {
    if elems != [] {
      var front, last := LastElement(scope, elems, result);
      Snoc(elems);
      ListComes(scope, elems[..|elems| - 1], front);
      ElementComes(scope, elems[|elems| - 1], last);
    }
  }

  lemma NamedNoFailure(scope: Scope, k: string, t: string)
    requires Named(scope, t)
    ensures !Substitutes(scope, k, t, Failure)
  {
    NamedNeverFails(scope, Refs(Scan(t)), map[k := t]);
  }

  lemma TextRemains(scope: Scope, strict: bool, k: string, t: string, j: string, s: string)
    requires BraceFreeScope(scope) && WellFormed(t) && (strict || Named(scope, t)) && TextComes(scope, strict, k, t, j, s)
    ensures LineOf(scope, k, t, j, s)
  {
    if !strict { NamedNoFailure(scope, k, t); }
    var lines :| Substitutes(scope, k, t, Success(lines)) && j in lines && s == lines[j];
    BraceFreeSafe(scope, t);
    OnlyKeptRemain(scope, k, t, lines, j);
  }

  lemma {:induction false} ComesRemains(scope: Scope, strict: bool, k: string, v: Value, j: string, w: Value)
    requires BraceFreeScope(scope) && Substitutable(scope, v) && Comes(scope, strict, k, v, j, w)
    ensures Remains(scope, k, v, j, w)
    decreases v
  {
    match v
    case Str(t) => TextRemains(scope, strict, k, t, j, w.s);
    case Scalar(_) =>
    case List(elems) => ListComes(scope, elems, w.elems);
    case Map(entries) =>
      forall i | i in w.entries ensures SomeRemains(scope, v, i, w.entries[i]) {
        assert SomeComes(scope, strict, v, i, w.entries[i]);
        var l :| l in entries && Comes(scope, strict, l, entries[l], i, w.entries[i]);
        ComesRemains(scope, strict, l, entries[l], i, w.entries[i]);
      }
  }

  /** Every entry of the result of a range, at any map depth, is what remains of an entry of the
      original map at the same place; no schedule and no collision changes that. */
  lemma RangeRemains(scope: Scope, strict: bool, v: Value, s: Schedule, after: Attributes)
    requires BraceFreeScope(scope) && v.Map? && Substitutable(scope, v) && Ranges(scope, strict, v.entries, s, after)
    ensures forall j | j in after :: SomeRemains(scope, v, j, after[j])
  {
    SubstitutableSafe(scope, v);
    RangeTraced(scope, strict, v, s, after);
    forall j | j in after ensures SomeRemains(scope, v, j, after[j]) {
      assert SomeComes(scope, strict, v, j, after[j]);
      var l :| l in v.entries && Comes(scope, strict, l, v.entries[l], j, after[j]);
      ComesRemains(scope, strict, l, v.entries[l], j, after[j]);
    }
  }

  // ------------------------------------------------------------ every entry survives

  /** The line under a choice is there, under its key, with exactly the kept placeholders. */
  ghost predicate SurvivesAt(scope: Scope, k: string, t: string, c: seq<string>, m: Attributes)
    requires |c| == |Matches(scope, t)|
  {
    var j := KeyUnder(scope, k, Matches(scope, t), c);
    var line := LineUnder(Scan(t), Matches(scope, t), c);
    j in m && m[j] == Str(line) && LineOf(scope, k, t, j, line)
  }

  /** What stands for the entry `k`, `v` is in the map: for a template the line of every choice,
      or, where an attribute is missing, the template itself. */
  ghost predicate Survives(scope: Scope, k: string, v: Value, m: Attributes)
    decreases v
  {
    match v
    case Str(t) =>
      if Named(scope, t)
      then forall c | c in Choices(scope, Matches(scope, t)) && |c| == |Matches(scope, t)| :: SurvivesAt(scope, k, t, c, m)
      else k in m && m[k] == v
    case Scalar(_) => k in m && m[k] == v
    case List(elems) => k in m && m[k].List? && ListSurvives(scope, elems, m[k].elems)
    case Map(entries) => k in m && m[k].Map? && forall l | l in entries :: Survives(scope, l, entries[l], m[k].entries)
  }

  /** The element of a list is there, unless an attribute or every element of a collection is missing. */
  ghost predicate ElementSurvives(scope: Scope, e: Value, result: seq<Value>)
  {
    if !e.Str? then result == [e]
    else if Named(scope, e.s) && !Empties(scope, e.s)
    then |result| == 1 && result[0].Str? && LineOf(scope, "", e.s, "", result[0].s)
    else result == []
  }

  ghost predicate ListSurvives(scope: Scope, elems: seq<Value>, result: seq<Value>)
  {
    if elems == [] then result == []
    else
      var n := |elems| - 1;
      exists front, last :: ListSurvives(scope, elems[..n], front)
                            && ElementSurvives(scope, elems[n], last) && result == front + last
  }

  /** The template refers to every element of an empty collection. */
  ghost predicate Empties(scope: Scope, t: string)
  {
    exists p :: p in Refs(Scan(t)) && PlanFor(scope, p) == Inflate({})
  }

  lemma ExpandedEmpty(scope: Scope, k: string, t: string)
    requires Tame(scope, t) && CollisionFree(scope, k, t) && Named(scope, t)
    ensures Expanded(scope, k, t) == map[] <==> Empties(scope, t)
  {
    TameOutcome(scope, k, t);
    VanishesExactlyWhen(scope, k, t, Expanded(scope, k, t));
  }

  /** An entry vanishes exactly when its template refers to every element of an empty collection. */
  lemma EntryVanishesExactlyWhen(scope: Scope, k: string, v: Value)
    requires RegularEntry(scope, k, v)
    ensures ExpandEntry(scope, k, v) == map[] <==> v.Str? && Named(scope, v.s) && Empties(scope, v.s)
  {
    if v.Str? && Named(scope, v.s) {
      ExpandedEmpty(scope, k, v.s);
      AsValuesEmpty(Expanded(scope, k, v.s));
    } else {
      assert k in ExpandEntry(scope, k, v);
    }
  }

  lemma AsValuesEmpty(lines: Lines)
    ensures AsValues(lines) == map[] <==> lines == map[]
  {
    assert AsValues(lines).Keys == lines.Keys;
    if lines != map[] {
      var k :| k in lines;
      assert k in AsValues(lines);
    }
  }

  lemma UnionContains(parts: map<string, Attributes>, k: string)
    requires Agree(parts) && k in parts
    ensures Contains(Union(parts), parts[k])
  {
    forall j | j in parts[k] ensures j in Union(parts) && Union(parts)[j] == parts[k][j] {
      assert j in UnionKeys(parts);
    }
  }

  lemma ExpandedAt(scope: Scope, k: string, t: string, c: seq<string>)
    requires CollisionFree(scope, k, t) && c in Choices(scope, Matches(scope, t)) && |c| == |Matches(scope, t)|
    ensures var j := KeyUnder(scope, k, Matches(scope, t), c);
            j in Expanded(scope, k, t) && Expanded(scope, k, t)[j] == LineUnder(Scan(t), Matches(scope, t), c)
  {
    var ms := Matches(scope, t);
    var j := KeyUnder(scope, k, ms, c);
    assert KeyOf(scope, k, ms, c) == j && j in ExpandedKeys(scope, k, t);
    assert ExpandsAt(scope, k, Scan(t), ms, j, LineUnder(Scan(t), ms, c));
    LineUnique(scope, k, t, j, ExpandedLine(scope, k, t, j), LineUnder(Scan(t), ms, c));
  }

  lemma ChoiceSurvives(scope: Scope, k: string, t: string, c: seq<string>, m: Attributes)
    requires BraceFreeScope(scope) && WellFormed(t) && CollisionFree(scope, k, t)
    requires c in Choices(scope, Matches(scope, t)) && |c| == |Matches(scope, t)|
    requires Contains(m, AsValues(Expanded(scope, k, t)))
    ensures SurvivesAt(scope, k, t, c, m)
  {
    var ms := Matches(scope, t);
    var j, line := KeyUnder(scope, k, ms, c), LineUnder(Scan(t), ms, c);
    ExpandedAt(scope, k, t, c);
    assert j in AsValues(Expanded(scope, k, t));
    BraceFreeSafe(scope, t);
    assert ExpandsAt(scope, k, Scan(t), ms, j, line);
    ChoiceKeeps(scope, k, t, j, line);
  }

  lemma ElementStays(scope: Scope, e: Value)
    requires BraceFreeScope(scope) && RegularElement(scope, e)
    ensures ElementSurvives(scope, e, ExpandElement(scope, e))
  {
    if e.Str? && Named(scope, e.s) {
      var lines := Expanded(scope, "", e.s);
      ExpandedEmpty(scope, "", e.s);
      assert lines.Keys == ExpandedKeys(scope, "", e.s);
      if lines == map[] {
        assert "" !in lines;
      } else {
        var j :| j in lines;
        BraceFreeSafe(scope, e.s);
        ChoiceKeeps(scope, "", e.s, "", lines[""]);
      }
    }
  }

  lemma {:induction false} ListStays(scope: Scope, elems: seq<Value>)
    requires BraceFreeScope(scope) && forall e | e in elems :: RegularElement(scope, e)
    ensures ListSurvives(scope, elems, ExpandList(scope, elems))
    decreases |elems|
  {
    if elems != [] {
      Snoc(elems);
      ListStays(scope, elems[..|elems| - 1]);
      ElementStays(scope, elems[|elems| - 1]);
    }
  }

  lemma StringPart(scope: Scope, k: string, v: Value, m: Attributes)
    requires BraceFreeScope(scope) && v.Str? && RegularEntry(scope, k, v) && Contains(m, ExpandEntry(scope, k, v))
    ensures Survives(scope, k, v, m)
  {
    if Named(scope, v.s) {
      forall c | c in Choices(scope, Matches(scope, v.s)) && |c| == |Matches(scope, v.s)| ensures SurvivesAt(scope, k, v.s, c, m) {
        ChoiceSurvives(scope, k, v.s, c, m);
      }
    } else {
      assert k in ExpandEntry(scope, k, v);
    }
  }

  lemma PartAt(m: Attributes, k: string, w: Value)
    requires Contains(m, map[k := w])
    ensures k in m && m[k] == w
  {
    assert k in map[k := w];
  }

  lemma {:induction false} PartSurvives(scope: Scope, k: string, v: Value, m: Attributes)
    requires BraceFreeScope(scope) && RegularEntry(scope, k, v) && Contains(m, ExpandEntry(scope, k, v))
    ensures Survives(scope, k, v, m)
    decreases v, 0
  {
    if v.Str? {
      StringPart(scope, k, v, m);
    } else if v.List? {
      PartAt(m, k, List(ExpandList(scope, v.elems)));
      ListStays(scope, v.elems);
    } else if v.Map? {
      PartAt(m, k, Map(ExpandMap(scope, v)));
      forall l | l in v.entries ensures Survives(scope, l, v.entries[l], ExpandMap(scope, v)) {
        NestedSurvives(scope, v, l);
      }
    } else {
      PartAt(m, k, v);
    }
  }

  lemma NestedSurvives(scope: Scope, v: Value, l: string)
    requires BraceFreeScope(scope) && v.Map? && RegularMap(scope, v) && l in v.entries
    ensures Survives(scope, l, v.entries[l], ExpandMap(scope, v))
    decreases v.entries[l], 1
  {
    UnionContains(Parts(scope, v), l);
    PartSurvives(scope, l, v.entries[l], ExpandMap(scope, v));
  }

  /** After any range over a regular map every entry of the original map survives, at every map
      depth: for each choice its line is there, under its own key, with the kept placeholders. */
  lemma RangeSurvives(scope: Scope, strict: bool, v: Value, s: Schedule, after: Attributes)
    requires BraceFreeScope(scope) && v.Map? && RegularMap(scope, v) && Ranges(scope, strict, v.entries, s, after)
    ensures forall k | k in v.entries :: Survives(scope, k, v.entries[k], after)
  {
    ScheduleIndependence(scope, strict, v, s, after);
    forall k | k in v.entries ensures Survives(scope, k, v.entries[k], after) {
      NestedSurvives(scope, v, k);
    }
  }
}
