/** A pass that may use the environment only, as the one over the payload attributes: it never
    reads the attributes it is rewriting, and nothing in it fails. */
module EnvironmentPass {
  import opened GoStrings
  import opened Placeholders
  import opened Templates
  import opened EmbeddedVars
  import opened ParameterSubstitution
  import opened MapSubstitution
  import opened Completeness

  /** Two scopes that may not use attributes and share the environment. */
  ghost predicate SameEnvironment(a: Scope, b: Scope)
  {
    !a.allowAttributes && !b.allowAttributes && forall x :: a.env(x) == b.env(x)
  }

  lemma {:induction false} ShowStrings(a: Scope, b: Scope, ss: seq<string>)
    ensures ShowAll(a, Strings(ss)) == ShowAll(b, Strings(ss)) == ss
  {
    if ss != [] {
      assert Strings(ss)[1..] == Strings(ss[1..]);
      ShowStrings(a, b, ss[1..]);
    }
  }

  lemma SamePlan(a: Scope, b: Scope, p: Placeholder)
    requires SameEnvironment(a, b)
    ensures PlanFor(a, p) == PlanFor(b, p) && !PlanFor(a, p).Unknown?
  {
    if p.kind == ENV {
      var ev := MatchToEmbeddedVars(p);
      var fields := Split(a.env(ev.varname), ',');
      assert a.env(ev.varname) == b.env(ev.varname);
      ShowStrings(a, b, fields);
      assert Shown(a, Strings(fields)) == Shown(b, Strings(fields)) by {
        assert forall v | v in Strings(fields) :: v.Str?;
      }
    }
  }

  /** A reference to the environment always finds a value, with at least one field. */
  lemma EnvironmentPlan(scope: Scope, p: Placeholder)
    requires !scope.allowAttributes
    ensures !PlanFor(scope, p).Unknown? && PlanFor(scope, p) != Inflate({})
  {
    if p.kind == ENV {
      var fields := Split(scope.env(p.name), ',');
      assert Strings(fields)[0] in Strings(fields);
      assert Show(scope, Strings(fields)[0]) in Shown(scope, Strings(fields));
    }
  }

  lemma {:induction false} SameRewrites(a: Scope, b: Scope, matches: seq<Placeholder>, lines: Lines, outcome: Outcome)
    requires SameEnvironment(a, b)
    ensures Rewrites(a, matches, lines, outcome) ==> Rewrites(b, matches, lines, outcome)
    decreases |matches|
  {
    if matches != [] && Rewrites(a, matches, lines, outcome) {
      var mid :| MatchStep(a, matches[0], lines, mid) && Continues(a, matches[1..], mid, outcome);
      SamePlan(a, b, matches[0]);
      if mid.Success? { SameRewrites(a, b, matches[1..], mid.lines, outcome); }
      assert MatchStep(b, matches[0], lines, mid) && Continues(b, matches[1..], mid, outcome);
    }
  }

  lemma SameSubstitutes(a: Scope, b: Scope, k: string, t: string, outcome: Outcome)
    requires SameEnvironment(a, b) && Substitutes(a, k, t, outcome)
    ensures Substitutes(b, k, t, outcome) && !outcome.Failure?
  {
    SameRewrites(a, b, Refs(Scan(t)), map[k := t], outcome);
    forall p | p in Refs(Scan(t)) ensures !PlanFor(a, p).Unknown? {
      SamePlan(a, b, p);
    }
    NamedNeverFails(a, Refs(Scan(t)), map[k := t]);
  }

  lemma SameElement(a: Scope, b: Scope, e: Value, result: seq<Value>)
    requires SameEnvironment(a, b) && ElementSubstitutes(a, e, result)
    ensures ElementSubstitutes(b, e, result)
  {
    if e.Str? {
      if Substitutes(a, "", e.s, Failure) { SameSubstitutes(a, b, "", e.s, Failure); }
      var lines, order :| Substitutes(a, "", e.s, Success(lines)) && IsOrderOf(order, lines.Keys)
                          && result == Ordered(order, lines);
      SameSubstitutes(a, b, "", e.s, Success(lines));
    }
  }

  lemma {:induction false} SameList(a: Scope, b: Scope, elems: seq<Value>, result: seq<Value>)
    requires SameEnvironment(a, b) && ListSubstitutes(a, elems, result)
    ensures ListSubstitutes(b, elems, result)
    decreases |elems|
  {
    if elems != [] {
      var n := |elems| - 1;
      var front, last := LastElement(a, elems, result);
      SameList(a, b, elems[..n], front);
      SameElement(a, b, elems[n], last);
    }
  }

  lemma SameStringVisit(a: Scope, strictA: bool, b: Scope, strictB: bool, m: Attributes, k: string, inner: Schedule, after: Attributes)
    requires SameEnvironment(a, b) && k in m && m[k].Str? && Visits(a, strictA, m, k, inner, after)
    ensures Visits(b, strictB, m, k, inner, after)
  {
    var t := m[k].s;
    if Substitutes(a, k, t, Failure) { SameSubstitutes(a, b, k, t, Failure); }
    var lines :| Substitutes(a, k, t, Success(lines)) && after == Replaced(m, k, AsValues(lines));
    SameSubstitutes(a, b, k, t, Success(lines));
  }

  lemma SameVisit(a: Scope, strictA: bool, b: Scope, strictB: bool, m: Attributes, k: string, inner: Schedule, after: Attributes)
    requires SameEnvironment(a, b) && k in m && Visits(a, strictA, m, k, inner, after)
    ensures Visits(b, strictB, m, k, inner, after)
    decreases inner, 1
  {
    if m[k].Str? {
      SameStringVisit(a, strictA, b, strictB, m, k, inner, after);
    } else if m[k].List? {
      var result := ListVisit(a, strictA, m, k, inner, after);
      SameList(a, b, m[k].elems, result);
      ReplacedSelf(m, k, List(result));
    } else if m[k].Map? {
      var result := MapVisit(a, strictA, m, k, inner, after);
      SameRun(a, strictA, b, strictB, m[k].entries, inner, result);
      ReplacedSelf(m, k, Map(result));
    }
  }

  /** With attribute substitution disallowed a run depends on the map and the environment only,
      and no visit in it fails: it is also a run that would stop at the first failure. */
  lemma {:induction false} SameRun(a: Scope, strictA: bool, b: Scope, strictB: bool, m: Attributes, s: Schedule, after: Attributes)
    requires SameEnvironment(a, b) && Runs(a, strictA, m, s, after)
    ensures Runs(b, strictB, m, s, after)
    decreases s, 0
  {
    if s.Visit? {
      var mid := RunsFirst(a, strictA, m, s, after);
      SameVisit(a, strictA, b, strictB, m, s.key, s.inner, mid);
      SameRun(a, strictA, b, strictB, mid, s.rest, after);
      RunsCons(b, strictB, m, s.key, s.inner, mid, s.rest, after);
    }
  }

  lemma SameVisitPanics(a: Scope, strictA: bool, b: Scope, strictB: bool, m: Attributes, k: string, inner: Schedule)
    requires SameEnvironment(a, b) && k in m && VisitPanics(a, strictA, m, k, inner)
    ensures VisitPanics(b, strictB, m, k, inner)
    decreases inner, 1
  {
    if m[k].Str? {
      SameSubstitutes(a, b, k, m[k].s, Panicked);
    } else if m[k].List? {
      var e :| e in m[k].elems && e.Str? && Substitutes(a, "", e.s, Panicked);
      SameSubstitutes(a, b, "", e.s, Panicked);
    } else if m[k].Map? {
      SamePanics(a, strictA, b, strictB, m[k].entries, inner);
    }
  }

  /** A panic too depends on the map and the environment only. */
  lemma {:induction false} SamePanics(a: Scope, strictA: bool, b: Scope, strictB: bool, m: Attributes, s: Schedule)
    requires SameEnvironment(a, b) && RunPanics(a, strictA, m, s)
    ensures RunPanics(b, strictB, m, s)
    decreases s, 0
  {
    if VisitPanics(a, strictA, m, s.key, s.inner) {
      SameVisitPanics(a, strictA, b, strictB, m, s.key, s.inner);
    } else {
      var mid :| Visits(a, strictA, m, s.key, s.inner, mid) && RunPanics(a, strictA, mid, s.rest);
      SameVisit(a, strictA, b, strictB, m, s.key, s.inner, mid);
      SamePanics(a, strictA, b, strictB, mid, s.rest);
    }
  }
}
