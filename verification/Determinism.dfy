/** When the result of `parameterSubstitute` does not depend on the order of map ranges. */
module Determinism {
  import opened Placeholders
  import opened Templates
  import opened GoStrings
  import opened ParameterSubstitution
  import opened Expansion
  import opened Inflation

  /** A choice picks one option for each match. */
  lemma {:induction false} ChoiceMembers(scope: Scope, matches: seq<Placeholder>, c: seq<string>)
    ensures c in Choices(scope, matches)
       <==> |c| == |matches| && forall i | 0 <= i < |c| :: c[i] in Options(scope, matches[i])
  {
    if matches != [] {
      var n := |matches| - 1;
      assert matches == matches[..n] + [matches[n]];
      if c in Choices(scope, matches) {
        var d, v := ChoiceSplit(scope, matches[..n], matches[n], c);
        ChoiceMembers(scope, matches[..n], d);
      } else if |c| == |matches| {
        ChoiceMembers(scope, matches[..n], c[..n]);
        assert c == c[..n] + [c[n]];
        assert c[..n] in Choices(scope, matches[..n]) ==> c[n] !in Options(scope, matches[n]);
      }
    }
  }

  lemma {:induction false} OrderExists(keys: set<string>) returns (order: seq<string>)
    ensures IsOrderOf(order, keys)
  {
    if keys == {} {
      order := [];
    } else {
      var k :| k in keys;
      order := OrderExists(keys - {k});
      order := order + [k];
    }
  }

  /** The line that the range yields last keeps all its keys. */
  lemma InflatedExists(lines: Lines, pat: string, texts: set<string>, k: string, v: string) returns (next: Lines)
    requires pat != "" && k in lines && v in texts
    ensures Inflated(lines, pat, texts, next)
    ensures k + "-" + v in next && next[k + "-" + v] == ReplaceAll(lines[k], pat, v)
  {
    var order := OrderExists(lines.Keys - {k});
    next := InflateInOrder(lines, order + [k], pat, texts);
    assert IsOrderOf(order + [k], lines.Keys);
    InflateSnoc(lines, order, k, pat, texts);
    LineInflatedHas(k, lines[k], pat, texts, v);
  }

  /** Two lines inflate to one of two results: the first line visited is overwritten wherever the
      second inflates to the same key, and nowhere is it the other way round. */
  lemma TwoLinesExactly(lines: Lines, k: string, l: string, pat: string, texts: set<string>, next: Lines)
    requires pat != "" && k != l && lines.Keys == {k, l}
    ensures var first, second := LineInflated(k, lines[k], pat, texts), LineInflated(l, lines[l], pat, texts);
            Inflated(lines, pat, texts, next) <==> next == first + second || next == second + first
  {
    TwoInOrder(lines, k, l, pat, texts);
    TwoInOrder(lines, l, k, pat, texts);
    if Inflated(lines, pat, texts, next) {
      var order :| IsOrderOf(order, lines.Keys) && next == InflateInOrder(lines, order, pat, texts);
      OrderOfTwo(order, k, l);
    }
  }

  lemma TwoInOrder(lines: Lines, k: string, l: string, pat: string, texts: set<string>)
    requires pat != "" && k != l && lines.Keys == {k, l}
    ensures IsOrderOf([k, l], lines.Keys)
    ensures InflateInOrder(lines, [k, l], pat, texts) == LineInflated(k, lines[k], pat, texts) + LineInflated(l, lines[l], pat, texts)
  {
    assert [k, l][..1] == [k] && [k][..0] == [];
    assert InflateInOrder(lines, [k], pat, texts) == map[] + LineInflated(k, lines[k], pat, texts) == LineInflated(k, lines[k], pat, texts);
  }

  lemma OrderOfTwo(order: seq<string>, k: string, l: string)
    requires k != l && IsOrderOf(order, {k, l})
    ensures order == [k, l] || order == [l, k]
  {
    OrderLength(order, {k, l});
    assert order[0] in order && order[1] in order && order[0] != order[1];
  }

  lemma {:induction false} OrderLength(order: seq<string>, keys: set<string>)
    requires IsOrderOf(order, keys)
    ensures |order| == |keys|
    decreases |order|
  {
    if order == [] {
      assert keys == {};
    } else {
      var n := |order| - 1;
      assert order[n] in order;
      forall k ensures k in order[..n] <==> k in keys - {order[n]} {
        if k in keys && k != order[n] {
          assert k in order;
        }
      }
      OrderLength(order[..n], keys - {order[n]});
    }
  }

  /** One match treated so that a designated line, with a designated option, survives. */
  lemma StepExists(scope: Scope, p: Placeholder, lines: Lines, k: string, v: string) returns (next: Lines)
    requires k in lines && v in Options(scope, p)
    ensures MatchStep(scope, p, lines, Success(next))
    ensures var j := if PlanFor(scope, p).Inflate? then k + "-" + v else k;
            j in next && next[j] == ReplaceAll(lines[k], Text(p), v)
  {
    match PlanFor(scope, p)
    case Insert(text) => next := Rewritten(lines, Text(p), text);
    case Inflate(texts) => next := InflatedExists(lines, Text(p), texts, k, v);
    case _ => next := lines; assert false;
  }

  lemma RewritesCons(scope: Scope, matches: seq<Placeholder>, lines: Lines, next: Lines, result: Lines)
    requires matches != [] && MatchStep(scope, matches[0], lines, Success(next))
    requires Rewrites(scope, matches[1..], next, Success(result))
    ensures Rewrites(scope, matches, lines, Success(result))
  {
    assert Continues(scope, matches[1..], Success(next), Success(result));
  }

  lemma ChoiceHead(scope: Scope, p: Placeholder, later: seq<Placeholder>, d: seq<string>)
    requires d in Choices(scope, [p] + later) && |d| == |later| + 1
    ensures d[0] in Options(scope, p) && d[1..] in Choices(scope, later) && |d[1..]| == |later|
  {
    ChoiceMembers(scope, [p] + later, d);
    ChoiceMembers(scope, later, d[1..]);
    assert forall i | 0 <= i < |later| :: d[1..][i] == d[i + 1] && later[i] == ([p] + later)[i + 1];
  }

  /** The line under choice `c` of the matches done, and its key. */
  ghost predicate Holds(scope: Scope, key: string, t: Template, done: seq<Placeholder>, c: seq<string>, lines: Lines)
  {
    && c in Choices(scope, done) && |c| == |done|
    && KeyUnder(scope, key, done, c) in lines
    && lines[KeyUnder(scope, key, done, c)] == LineUnder(t, done, c)
  }

  lemma HoldsStep(scope: Scope, key: string, t: Template, done: seq<Placeholder>, p: Placeholder, lines: Lines, c: seq<string>, v: string)
    returns (next: Lines)
    requires Clean(t) && p in Refs(t) && !PlanFor(scope, p).Keep? && forall q | q in done :: FreeOf(scope, q, p)
    requires Holds(scope, key, t, done, c, lines) && v in Options(scope, p)
    ensures MatchStep(scope, p, lines, Success(next)) && Holds(scope, key, t, done + [p], c + [v], next)
  {
    next := StepExists(scope, p, lines, KeyUnder(scope, key, done, c), v);
    ChoiceSnoc(scope, key, t, done, p, c, v);
    LineStep(scope, t, done, p, c, v);
  }

  lemma ActiveCons(scope: Scope, matches: seq<Placeholder>)
    requires matches != []
    ensures Active(scope, matches)
         == if PlanFor(scope, matches[0]).Keep? then Active(scope, matches[1..]) else [matches[0]] + Active(scope, matches[1..])
  {
    var tail := Active(scope, matches[1..]);
    assert [] + tail == tail;
  }

  lemma ChoiceRegroup(c: seq<string>, d: seq<string>)
    requires d != []
    ensures c + [d[0]] + d[1..] == c + d
  {
  }

  lemma {:induction false} RunExists(scope: Scope, key: string, t: Template, done: seq<Placeholder>,
                                     matches: seq<Placeholder>, lines: Lines, c: seq<string>, d: seq<string>)
    returns (result: Lines)
    requires Clean(t) && LaterFree(scope, done + Active(scope, matches)) && forall q | q in matches :: q in Refs(t)
    requires Holds(scope, key, t, done, c, lines)
    requires d in Choices(scope, Active(scope, matches)) && |d| == |Active(scope, matches)|
    ensures Rewrites(scope, matches, lines, Success(result))
    ensures Holds(scope, key, t, done + Active(scope, matches), c + d, result)
    decreases |matches|
  {
    if matches == [] {
      assert done + Active(scope, matches) == done && c + d == c;
      result := lines;
    } else {
      var p, later := matches[0], matches[1..];
      ActiveSplit(scope, done, matches);
      ActiveCons(scope, matches);
      if PlanFor(scope, p).Keep? {
        result := RunExists(scope, key, t, done, later, lines, c, d);
        RewritesCons(scope, matches, lines, lines, result);
      } else {
        ChoiceHead(scope, p, Active(scope, later), d);
        FreeOfNext(scope, done, p, Active(scope, later));
        var next := HoldsStep(scope, key, t, done, p, lines, c, d[0]);
        result := RunExists(scope, key, t, done + [p], later, next, c + [d[0]], d[1..]);
        ChoiceRegroup(c, d);
        RewritesCons(scope, matches, lines, next, result);
      }
    }
  }

  /** Every choice is one that some order of Go's map ranges lets survive under its key. */
  lemma ChoiceReachable(scope: Scope, key: string, template: string, c: seq<string>) returns (lines: Lines)
    requires WellFormed(template) && LaterFree(scope, Matches(scope, template))
    requires c in Choices(scope, Matches(scope, template)) && |c| == |Matches(scope, template)|
    ensures Substitutes(scope, key, template, Success(lines))
    ensures KeyUnder(scope, key, Matches(scope, template), c) in lines
    ensures lines[KeyUnder(scope, key, Matches(scope, template), c)] == LineUnder(Scan(template), Matches(scope, template), c)
  {
    var t := Scan(template);
    StartExpands(scope, key, template);
    assert Choices(scope, []) == {[]};
    assert ExpandsAt(scope, key, t, [], key, template);
    assert KeyUnder(scope, key, [], []) == key && LineUnder(t, [], []) == template;
    assert Holds(scope, key, t, [], [], map[key := template]);
    assert [] + Matches(scope, template) == Matches(scope, template) && [] + c == c;
    lines := RunExists(scope, key, t, [], Refs(t), map[key := template], [], c);
  }

  ghost predicate OneResult(scope: Scope, key: string, template: string)
  {
    forall a, b | Substitutes(scope, key, template, Success(a)) && Substitutes(scope, key, template, Success(b)) :: a == b
  }

  /** The result is the same for every order of Go's map ranges exactly when no two choices
      with the same key give different lines. */
  lemma DeterministicExactlyWhen(scope: Scope, key: string, template: string)
    requires WellFormed(template) && LaterFree(scope, Matches(scope, template))
    ensures OneResult(scope, key, template) <==> CollisionFree(scope, key, template)
  {
    var ms, t := Matches(scope, template), Scan(template);
    if CollisionFree(scope, key, template) {
      forall a | Substitutes(scope, key, template, Success(a)) ensures a == Expanded(scope, key, template) {
        ResultUnique(scope, key, template, a);
      }
    }
    if OneResult(scope, key, template) {
      forall c, d | c in Choices(scope, ms) && d in Choices(scope, ms) && |c| == |ms| && |d| == |ms|
                    && KeyUnder(scope, key, ms, c) == KeyUnder(scope, key, ms, d)
        ensures LineUnder(t, ms, c) == LineUnder(t, ms, d)
      {
        var a := ChoiceReachable(scope, key, template, c);
        var b := ChoiceReachable(scope, key, template, d);
        assert a == b;
      }
    }
  }
}
