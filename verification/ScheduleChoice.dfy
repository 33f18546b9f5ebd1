/** Which schedules exist, and when their choice cannot be told from the result. */
module ScheduleChoice {
  import opened Placeholders
  import opened Templates
  import opened ParameterSubstitution
  import opened Expansion
  import opened Inflation
  import opened Determinism
  import opened MapSubstitution
  import opened MapLoops

  // ------------------------------------------------------------ every substitution has an outcome

  lemma StepTotal(scope: Scope, p: Placeholder, lines: Lines) returns (mid: Outcome)
    ensures MatchStep(scope, p, lines, mid)
  {
    match PlanFor(scope, p)
    case Keep => mid := Success(lines);
    case Insert(text) => mid := Success(Rewritten(lines, Text(p), text));
    case Inflate(texts) =>
      var order := OrderExists(lines.Keys);
      mid := Success(InflateInOrder(lines, order, Text(p), texts));
    case Unknown => mid := Failure;
    case Faulty => mid := if lines == map[] then Success(lines) else Panicked;
  }

  lemma {:induction false} OutcomeExists(scope: Scope, matches: seq<Placeholder>, lines: Lines) returns (o: Outcome)
    ensures Rewrites(scope, matches, lines, o)
    decreases |matches|
  {
    if matches == [] {
      o := Success(lines);
    } else {
      var mid := StepTotal(scope, matches[0], lines);
      if mid.Success? {
        o := OutcomeExists(scope, matches[1..], mid.lines);
      } else {
        o := mid;
      }
      assert Continues(scope, matches[1..], mid, o);
    }
  }

  /** A tame template without collisions has one outcome. */
  lemma TameOutcome(scope: Scope, k: string, t: string)
    requires Tame(scope, t) && CollisionFree(scope, k, t)
    ensures Substitutes(scope, k, t, if Named(scope, t) then Success(Expanded(scope, k, t)) else Failure)
  {
    var o := OutcomeExists(scope, Refs(Scan(t)), map[k := t]);
    assert Substitutes(scope, k, t, o);
    FailsExactlyWhen(scope, k, t, o);
    if o.Success? {
      InertLaterFree(scope, Scan(t));
      ResultUnique(scope, k, t, o.lines);
    }
  }

  // ------------------------------------------------------------ every regular entry can be visited

  lemma ElementExists(scope: Scope, e: Value)
    requires RegularElement(scope, e)
    ensures ElementSubstitutes(scope, e, ExpandElement(scope, e))
  {
    if e.Str? {
      TameOutcome(scope, "", e.s);
      if Named(scope, e.s) {
        var lines := Expanded(scope, "", e.s);
        var order := OrderExists(lines.Keys);
        var result := Ordered(order, lines);
        assert ElementSubstitutes(scope, e, result);
        ElementExpands(scope, e, result);
      }
    }
  }

  lemma ListSnoc(scope: Scope, elems: seq<Value>, front: seq<Value>, last: seq<Value>)
    requires elems != [] && ListSubstitutes(scope, elems[..|elems| - 1], front)
    requires ElementSubstitutes(scope, elems[|elems| - 1], last)
    ensures ListSubstitutes(scope, elems, front + last)
  {
  }

  lemma {:induction false} ListExists(scope: Scope, elems: seq<Value>)
    requires forall e | e in elems :: RegularElement(scope, e)
    ensures ListSubstitutes(scope, elems, ExpandList(scope, elems))
    decreases |elems|
  {
    if elems != [] {
      var n := |elems| - 1;
      ListExists(scope, elems[..n]);
      assert elems[n] in elems;
      ElementExists(scope, elems[n]);
      ListSnoc(scope, elems, ExpandList(scope, elems[..n]), ExpandElement(scope, elems[n]));
    }
  }

  lemma StringVisitExists(scope: Scope, m: Attributes, k: string)
    requires k in m && m[k].Str? && RegularEntry(scope, k, m[k])
    ensures Visits(scope, false, m, k, Done, Replaced(m, k, ExpandEntry(scope, k, m[k])))
  {
    TameOutcome(scope, k, m[k].s);
    ReplacedSelf(m, k, m[k]);
  }

  lemma ListVisitExists(scope: Scope, m: Attributes, k: string)
    requires k in m && m[k].List? && RegularEntry(scope, k, m[k])
    ensures Visits(scope, false, m, k, Done, Replaced(m, k, ExpandEntry(scope, k, m[k])))
  {
    ListExists(scope, m[k].elems);
    ReplacedSelf(m, k, List(ExpandList(scope, m[k].elems)));
  }

  lemma MapVisitExists(scope: Scope, m: Attributes, k: string, inner: Schedule)
    requires k in m && m[k].Map? && Ranges(scope, false, m[k].entries, inner, ExpandMap(scope, m[k]))
    ensures Visits(scope, false, m, k, inner, Replaced(m, k, ExpandEntry(scope, k, m[k])))
  {
    ReplacedSelf(m, k, Map(ExpandMap(scope, m[k])));
  }

  lemma VisitExists(scope: Scope, m: Attributes, k: string) returns (inner: Schedule)
    requires k in m && RegularEntry(scope, k, m[k])
    ensures Visits(scope, false, m, k, inner, Replaced(m, k, ExpandEntry(scope, k, m[k])))
    decreases m[k], 1
  {
    inner := Done;
    if m[k].Str? {
      StringVisitExists(scope, m, k);
    } else if m[k].List? {
      ListVisitExists(scope, m, k);
    } else if m[k].Map? {
      var v := m[k];
      var after;
      inner, after := RunExistsOver(scope, v, v.entries.Keys, {}, v.entries);
      ScheduleIndependence(scope, false, v, inner, after);
      MapVisitExists(scope, m, k, inner);
    } else {
      ReplacedSelf(m, k, m[k]);
    }
  }

  /** The entries named are there as they were originally. */
  ghost predicate Original(v: Value, keys: set<string>, m: Attributes)
    requires v.Map?
  {
    forall k | k in keys :: k in v.entries && k in m && m[k] == v.entries[k]
  }

  lemma OriginalKept(scope: Scope, v: Value, keys: set<string>, m: Attributes, k: string)
    requires v.Map? && NoCapture(Parts(scope, v)) && Original(v, keys, m) && k in v.entries && k !in keys
    ensures Original(v, keys, Replaced(m, k, ExpandEntry(scope, k, v.entries[k])))
  {
    var parts := Parts(scope, v);
    forall l | l in keys ensures l !in parts[k] {
      assert l in parts && l != k;
    }
  }

  /** The entries `todo` can be visited one after the other, and the entries `rest` stay. */
  lemma RunExistsOver(scope: Scope, v: Value, todo: set<string>, rest: set<string>, m: Attributes) returns (s: Schedule, after: Attributes)
    requires v.Map? && RegularEntries(scope, v) && NoCapture(Parts(scope, v))
    requires todo !! rest && Original(v, todo, m) && Original(v, rest, m)
    ensures Runs(scope, false, m, s, after) && Visited(s) == todo && Original(v, rest, after)
    decreases v, 0, todo
  {
    if todo == {} {
      s, after := Done, m;
    } else {
      var k :| k in todo;
      assert v.entries[k] < v;
      var inner := VisitExists(scope, m, k);
      var next := Replaced(m, k, ExpandEntry(scope, k, v.entries[k]));
      OriginalKept(scope, v, todo - {k}, m, k);
      OriginalKept(scope, v, rest, m, k);
      var later;
      later, after := RunExistsOver(scope, v, todo - {k}, rest, next);
      s := Visit(k, inner, later);
      RunsCons(scope, false, m, k, inner, next, later, after);
    }
  }

  /** Any entry can be the one visited last, and then its expansions are in the result. */
  lemma LastVisited(scope: Scope, v: Value, l: string) returns (s: Schedule, after: Attributes)
    requires v.Map? && RegularEntries(scope, v) && NoCapture(Parts(scope, v)) && l in v.entries
    ensures Ranges(scope, false, v.entries, s, after)
    ensures Contains(after, Parts(scope, v)[l])
  {
    var mid, early;
    early, mid := RunExistsOver(scope, v, v.entries.Keys - {l}, {l}, v.entries);
    var inner := VisitExists(scope, mid, l);
    after := Replaced(mid, l, ExpandEntry(scope, l, v.entries[l]));
    RunsThen(scope, false, v.entries, early, mid, l, inner, after);
    s := Then(early, l, inner);
  }

  // ------------------------------------------------------------ when the schedule does not matter

  ghost predicate OneMap(scope: Scope, v: Value)
    requires v.Map?
  {
    forall s, t, a, b | Ranges(scope, false, v.entries, s, a) && Ranges(scope, false, v.entries, t, b) :: a == b
  }

  lemma SharedKey(scope: Scope, v: Value, k: string, l: string, j: string)
    requires v.Map? && RegularEntries(scope, v) && NoCapture(Parts(scope, v)) && OneMap(scope, v)
    requires k in v.entries && l in v.entries && j in Parts(scope, v)[k] && j in Parts(scope, v)[l]
    ensures Parts(scope, v)[k][j] == Parts(scope, v)[l][j]
  {
    var s, a := LastVisited(scope, v, k);
    var t, b := LastVisited(scope, v, l);
    assert a == b;
  }

  /** When no entry expands to the key of another, all schedules reach the same map exactly when
      entries that expand to the same key agree on its value. */
  lemma IndependentExactlyWhen(scope: Scope, v: Value)
    requires v.Map? && RegularEntries(scope, v) && NoCapture(Parts(scope, v))
    ensures OneMap(scope, v) <==> Agree(Parts(scope, v))
  {
    var parts := Parts(scope, v);
    if OneMap(scope, v) {
      forall k, l, j | k in parts && l in parts && j in parts[k] && j in parts[l] ensures parts[k][j] == parts[l][j] {
        SharedKey(scope, v, k, l, j);
      }
    } else {
      var s, t, a, b :| Ranges(scope, false, v.entries, s, a) && Ranges(scope, false, v.entries, t, b) && a != b;
      if Agree(parts) {
        ScheduleIndependence(scope, false, v, s, a);
        ScheduleIndependence(scope, false, v, t, b);
      }
    }
  }
}
