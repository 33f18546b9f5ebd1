/** When the substitution of a template is an error, panics, or leaves no line. */
module Outcomes {
  import opened Placeholders
  import opened Templates
  import opened ParameterSubstitution

  /** The match ends the substitution: an unknown name always does, a bad index or key only
      while there is a line to rewrite, that is, unless an empty collection inflated before it. */
  predicate Stops(scope: Scope, matches: seq<Placeholder>, lineless: bool, i: nat)
    requires i < |matches|
  {
    match PlanFor(scope, matches[i])
    case Unknown => true
    case Faulty => !lineless && forall j | 0 <= j < i :: PlanFor(scope, matches[j]) != Inflate({})
    case _ => false
  }

  predicate StopsFirst(scope: Scope, matches: seq<Placeholder>, lineless: bool, i: nat)
  {
    i < |matches| && Stops(scope, matches, lineless, i) && forall j | 0 <= j < i :: !Stops(scope, matches, lineless, j)
  }

  /** The first match that stops the substitution does so with the given plan. */
  ghost predicate EndsWith(scope: Scope, matches: seq<Placeholder>, lineless: bool, plan: Plan)
  {
    exists i: nat :: StopsFirst(scope, matches, lineless, i) && PlanFor(scope, matches[i]) == plan
  }

  lemma StopsLater(scope: Scope, matches: seq<Placeholder>, lineless: bool, i: nat)
    requires i + 1 < |matches|
    ensures Stops(scope, matches, lineless, i + 1)
       <==> Stops(scope, matches[1..], lineless || PlanFor(scope, matches[0]) == Inflate({}), i)
  {
    var later := matches[1..];
    assert later[i] == matches[i + 1];
    if PlanFor(scope, matches[i + 1]).Faulty? {
      assert forall j | 0 <= j < i :: later[j] == matches[j + 1];
      assert forall j | 0 < j < i + 1 :: matches[j] == later[j - 1];
    }
  }

  lemma StopsFirstLater(scope: Scope, matches: seq<Placeholder>, lineless: bool, i: nat)
    requires matches != [] && !Stops(scope, matches, lineless, 0)
    ensures StopsFirst(scope, matches, lineless, i + 1)
       <==> StopsFirst(scope, matches[1..], lineless || PlanFor(scope, matches[0]) == Inflate({}), i)
  {
    var later, noLine := matches[1..], lineless || PlanFor(scope, matches[0]) == Inflate({});
    if i + 1 < |matches| {
      forall j: nat | j <= i ensures Stops(scope, matches, lineless, j + 1) <==> Stops(scope, later, noLine, j) {
        StopsLater(scope, matches, lineless, j);
      }
      if StopsFirst(scope, later, noLine, i) {
        forall j | 0 <= j < i + 1 ensures !Stops(scope, matches, lineless, j) {
          if j > 0 { assert !Stops(scope, later, noLine, j - 1); }
        }
      }
    }
  }

  lemma StepOutcome(scope: Scope, p: Placeholder, lines: Lines, mid: Outcome)
    requires MatchStep(scope, p, lines, mid)
    ensures mid.Failure? <==> PlanFor(scope, p).Unknown?
    ensures mid.Panicked? <==> PlanFor(scope, p).Faulty? && lines != map[]
    ensures mid.Success? ==> (mid.lines == map[] <==> lines == map[] || PlanFor(scope, p) == Inflate({}))
  {
    match PlanFor(scope, p)
    case Insert(text) => SameKeys(lines, mid.lines);
    case Inflate(texts) =>
      InflatedLines(lines, Text(p), texts, mid.lines);
      NoKeys(lines.Keys, texts);
      SameEmptiness(mid.lines, Suffixed(lines.Keys, texts));
    case _ =>
  }

  lemma SameKeys(a: Lines, b: Lines)
    requires a.Keys == b.Keys
    ensures a == map[] <==> b == map[]
  {
    assert a == map[] <==> a.Keys == {};
  }

  lemma SameEmptiness(a: Lines, keys: set<string>)
    requires a.Keys == keys
    ensures a == map[] <==> keys == {}
  {
  }

  lemma NoKeys(keys: set<string>, texts: set<string>)
    ensures Suffixed(keys, texts) == {} <==> keys == {} || texts == {}
  {
    if keys != {} && texts != {} {
      var k :| k in keys;
      var v :| v in texts;
      assert k + "-" + v in Suffixed(keys, texts);
    }
  }

  lemma {:induction false} FirstStopDecides(scope: Scope, matches: seq<Placeholder>, lines: Lines, outcome: Outcome)
    requires Rewrites(scope, matches, lines, outcome)
    ensures outcome.Failure? <==> EndsWith(scope, matches, lines == map[], Unknown)
    ensures outcome.Panicked? <==> EndsWith(scope, matches, lines == map[], Faulty)
    decreases |matches|
  {
    if matches != [] {
      var mid :| MatchStep(scope, matches[0], lines, mid) && Continues(scope, matches[1..], mid, outcome);
      StepOutcome(scope, matches[0], lines, mid);
      if mid.Success? {
        FirstStopDecides(scope, matches[1..], mid.lines, outcome);
        LaterStop(scope, matches, lines == map[], mid.lines == map[]);
      } else {
        OnlyFirst(scope, matches, lines == map[]);
      }
    }
  }

  lemma OnlyFirst(scope: Scope, matches: seq<Placeholder>, lineless: bool)
    requires StopsFirst(scope, matches, lineless, 0)
    ensures forall i | StopsFirst(scope, matches, lineless, i) :: i == 0
  {
  }

  lemma LaterStop(scope: Scope, matches: seq<Placeholder>, lineless: bool, noLine: bool)
    requires matches != [] && !Stops(scope, matches, lineless, 0)
    requires noLine <==> lineless || PlanFor(scope, matches[0]) == Inflate({})
    ensures forall plan :: EndsWith(scope, matches, lineless, plan) <==> EndsWith(scope, matches[1..], noLine, plan)
  {
    forall plan ensures EndsWith(scope, matches, lineless, plan) <==> EndsWith(scope, matches[1..], noLine, plan) {
      if EndsWith(scope, matches, lineless, plan) { EndsInTail(scope, matches, lineless, noLine, plan); }
      if EndsWith(scope, matches[1..], noLine, plan) { EndsFromTail(scope, matches, lineless, noLine, plan); }
    }
  }

  lemma LaterAt(matches: seq<Placeholder>, i: nat)
    requires i + 1 < |matches|
    ensures matches[1..][i] == matches[i + 1]
  {
  }

  lemma EndsInTail(scope: Scope, matches: seq<Placeholder>, lineless: bool, noLine: bool, plan: Plan)
    requires matches != [] && !Stops(scope, matches, lineless, 0) && EndsWith(scope, matches, lineless, plan)
    requires noLine <==> lineless || PlanFor(scope, matches[0]) == Inflate({})
    ensures EndsWith(scope, matches[1..], noLine, plan)
  {
    var i: nat :| StopsFirst(scope, matches, lineless, i) && PlanFor(scope, matches[i]) == plan;
    if i == 0 {
      assert false;
    } else {
      EndsLater(scope, matches, lineless, noLine, i - 1);
    }
  }

  lemma EndsLater(scope: Scope, matches: seq<Placeholder>, lineless: bool, noLine: bool, i: nat)
    requires matches != [] && !Stops(scope, matches, lineless, 0) && StopsFirst(scope, matches, lineless, i + 1)
    requires noLine <==> lineless || PlanFor(scope, matches[0]) == Inflate({})
    ensures EndsWith(scope, matches[1..], noLine, PlanFor(scope, matches[i + 1]))
  {
    LaterAt(matches, i);
    StopsFirstLater(scope, matches, lineless, i);
  }

  lemma EndsFromTail(scope: Scope, matches: seq<Placeholder>, lineless: bool, noLine: bool, plan: Plan)
    requires matches != [] && !Stops(scope, matches, lineless, 0) && EndsWith(scope, matches[1..], noLine, plan)
    requires noLine <==> lineless || PlanFor(scope, matches[0]) == Inflate({})
    ensures EndsWith(scope, matches, lineless, plan)
  {
    var i: nat :| StopsFirst(scope, matches[1..], noLine, i) && PlanFor(scope, matches[1..][i]) == plan;
    LaterAt(matches, i);
    StopsFirstLater(scope, matches, lineless, i);
  }

  /** What decides the outcome of any template, resolvable or not, is the first match that stops
      the substitution: it fails on an unknown name and panics on a bad index or key. */
  lemma OutcomeExactly(scope: Scope, key: string, template: string, outcome: Outcome)
    requires Substitutes(scope, key, template, outcome)
    ensures outcome.Failure? <==> EndsWith(scope, Refs(Scan(template)), false, Unknown)
    ensures outcome.Panicked? <==> EndsWith(scope, Refs(Scan(template)), false, Faulty)
  {
    assert map[key := template] != map[] by { assert key in map[key := template]; }
    FirstStopDecides(scope, Refs(Scan(template)), map[key := template], outcome);
  }

  lemma {:induction false} NoLineExactlyWhen(scope: Scope, matches: seq<Placeholder>, lines: Lines, result: Lines)
    requires Rewrites(scope, matches, lines, Success(result))
    ensures result == map[] <==> lines == map[] || exists p :: p in matches && PlanFor(scope, p) == Inflate({})
    decreases |matches|
  {
    if matches != [] {
      var mid :| MatchStep(scope, matches[0], lines, mid) && Continues(scope, matches[1..], mid, Success(result));
      StepOutcome(scope, matches[0], lines, mid);
      NoLineExactlyWhen(scope, matches[1..], mid.lines, result);
      assert forall p :: p in matches <==> p == matches[0] || p in matches[1..];
    }
  }

  /** A template leaves no line at all exactly when one of its references is to every element of
      an empty collection. */
  lemma VanishesExactlyWhen(scope: Scope, key: string, template: string, lines: Lines)
    requires Substitutes(scope, key, template, Success(lines))
    ensures lines == map[] <==> exists p :: p in Refs(Scan(template)) && PlanFor(scope, p) == Inflate({})
  {
    assert map[key := template] != map[] by { assert key in map[key := template]; }
    NoLineExactlyWhen(scope, Refs(Scan(template)), map[key := template], lines);
  }
}
