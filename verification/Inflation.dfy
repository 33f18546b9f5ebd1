/** Consequences of the simultaneous reading: determinism, the Cartesian product of inflating
    placeholders, stability of the output, and when a substitution fails. */
module Inflation {
  import opened Placeholders
  import opened Templates
  import opened ParameterSubstitution
  import opened Expansion

  // ------------------------------------------------------------ one result

  function Matches(scope: Scope, template: string): seq<Placeholder>
  {
    Active(scope, Refs(Scan(template)))
  }

  /** Choices with the same key give the same line. */
  ghost predicate CollisionFree(scope: Scope, key: string, template: string)
  {
    var ms := Matches(scope, template);
    forall c, d | c in Choices(scope, ms) && d in Choices(scope, ms) && |c| == |ms| && |d| == |ms| ::
      KeyUnder(scope, key, ms, c) == KeyUnder(scope, key, ms, d)
      ==> LineUnder(Scan(template), ms, c) == LineUnder(Scan(template), ms, d)
  }

  function KeyOf(scope: Scope, key: string, matches: seq<Placeholder>, choice: seq<string>): string
  {
    if |choice| == |matches| then KeyUnder(scope, key, matches, choice) else key
  }

  /** The keys of all choices. */
  function KeySet(scope: Scope, key: string, matches: seq<Placeholder>): set<string>
  {
    set c | c in Choices(scope, matches) :: KeyOf(scope, key, matches, c)
  }

  function ExpandedKeys(scope: Scope, key: string, template: string): set<string>
  {
    KeySet(scope, key, Matches(scope, template))
  }

  ghost function ExpandedLine(scope: Scope, key: string, template: string, j: string): (line: string)
    requires j in ExpandedKeys(scope, key, template)
    ensures ExpandsAt(scope, key, Scan(template), Matches(scope, template), j, line)
  {
    var ms := Matches(scope, template);
    var c :| c in Choices(scope, ms) && KeyOf(scope, key, ms, c) == j;
    ChoiceLength(scope, ms, c);
    LineUnder(Scan(template), ms, c)
  }

  /** The keyed lines of a template, written down without any rewriting. */
  ghost function Expanded(scope: Scope, key: string, template: string): Lines
  {
    map j | j in ExpandedKeys(scope, key, template) :: ExpandedLine(scope, key, template, j)
  }

  /** The keys of the result are exactly those of the choices. */
  lemma ResultKeys(scope: Scope, key: string, template: string, lines: Lines)
    requires Expands(scope, key, Scan(template), Matches(scope, template), lines)
    ensures lines.Keys == ExpandedKeys(scope, key, template)
  {
    var ms := Matches(scope, template);
    forall j | j in lines ensures j in ExpandedKeys(scope, key, template) {
      assert ExpandsAt(scope, key, Scan(template), ms, j, lines[j]);
    }
    forall j | j in ExpandedKeys(scope, key, template) ensures j in lines {
      var c :| c in Choices(scope, ms) && KeyOf(scope, key, ms, c) == j;
      ChoiceLength(scope, ms, c);
    }
  }

  lemma LineUnique(scope: Scope, key: string, template: string, j: string, a: string, b: string)
    requires CollisionFree(scope, key, template)
    requires ExpandsAt(scope, key, Scan(template), Matches(scope, template), j, a)
    requires ExpandsAt(scope, key, Scan(template), Matches(scope, template), j, b)
    ensures a == b
  {
  }

  /** Without collisions the result is one map, whatever order Go's maps are enumerated in. */
  lemma ResultUnique(scope: Scope, key: string, template: string, lines: Lines)
    requires WellFormed(template) && LaterFree(scope, Matches(scope, template)) && CollisionFree(scope, key, template)
    requires Substitutes(scope, key, template, Success(lines))
    ensures lines == Expanded(scope, key, template)
  {
    Simultaneous(scope, key, template, lines);
    ResultKeys(scope, key, template, lines);
    forall j | j in lines ensures lines[j] == ExpandedLine(scope, key, template, j) {
      LineUnique(scope, key, template, j, lines[j], ExpandedLine(scope, key, template, j));
    }
  }

  // ------------------------------------------------------------ the Cartesian product

  predicate DashFree(s: string) { '-' !in s }

  /** No inflating match has a value with a dash. */
  ghost predicate DashFreeOptions(scope: Scope, matches: seq<Placeholder>)
  {
    forall p, v | p in matches && PlanFor(scope, p).Inflate? && v in Options(scope, p) :: DashFree(v)
  }

  lemma DashSplit(a: string, v: string, b: string, w: string)
    requires DashFree(v) && DashFree(w) && a + "-" + v == b + "-" + w
    ensures a == b && v == w
  {
    var s := a + "-" + v;
    assert s[|a|] == '-' && s[|b|] == '-';
    assert forall i | |a| < i < |s| :: s[i] != '-' by {
      assert forall i | |a| < i < |s| :: s[i] == v[i - |a| - 1];
    }
    assert forall i | |b| < i < |s| :: s[i] != '-' by {
      assert forall i | |b| < i < |s| :: s[i] == w[i - |b| - 1];
    }
    assert |a| == |b|;
    assert a == s[..|a|] == b && v == s[|a| + 1..] == w;
  }

  /** With dash-free values a key determines the choice behind it. */
  lemma {:induction false} KeyInjective(scope: Scope, key: string, matches: seq<Placeholder>, c: seq<string>, d: seq<string>)
    requires c in Choices(scope, matches) && d in Choices(scope, matches)
    requires |c| == |matches| == |d| && DashFreeOptions(scope, matches)
    requires KeyUnder(scope, key, matches, c) == KeyUnder(scope, key, matches, d)
    ensures c == d
  {
    if matches != [] {
      var n := |matches| - 1;
      var p := matches[n];
      assert matches == matches[..n] + [p];
      var c', v := ChoiceSplit(scope, matches[..n], p, c);
      var d', w := ChoiceSplit(scope, matches[..n], p, d);
      assert c[..n] == c' && d[..n] == d';
      if PlanFor(scope, p).Inflate? {
        DashSplit(KeyUnder(scope, key, matches[..n], c'), v, KeyUnder(scope, key, matches[..n], d'), w);
      }
      KeyInjective(scope, key, matches[..n], c', d');
    }
  }

  /** The product of the numbers of distinct values of the matches. */
  function Product(scope: Scope, matches: seq<Placeholder>): nat
  {
    if matches == [] then 1
    else var n := |matches| - 1; Product(scope, matches[..n]) * |Options(scope, matches[n])|
  }

  lemma {:induction false} ExtendOne(c: seq<string>, options: set<string>)
    ensures |Extended({c}, options)| == |options|
  {
    if options == {} {
      assert Extended({c}, options) == {};
    } else {
      var v :| v in options;
      ExtendOne(c, options - {v});
      assert Extended({c}, options) == Extended({c}, options - {v}) + {c + [v]};
      forall w | w in options - {v} ensures c + [w] != c + [v] {
        assert (c + [w])[|c|] == w;
      }
    }
  }

  lemma ExtendUnion(choices: set<seq<string>>, c: seq<string>, options: set<string>)
    ensures Extended(choices + {c}, options) == Extended(choices, options) + Extended({c}, options)
  {
  }

  lemma ExtendDisjoint(choices: set<seq<string>>, c: seq<string>, options: set<string>)
    requires c !in choices
    ensures Extended(choices, options) !! Extended({c}, options)
  {
    forall d, v, w | d in choices && v in options && w in options ensures d + [v] != c + [w] {
      assert (d + [v])[..|d + [v]| - 1] == d && (c + [w])[..|c + [w]| - 1] == c;
    }
  }

  lemma {:induction false} ExtendCount(choices: set<seq<string>>, options: set<string>)
    ensures |Extended(choices, options)| == |choices| * |options|
  {
    if choices == {} {
      assert Extended(choices, options) == {};
    } else {
      var c :| c in choices;
      var rest := choices - {c};
      ExtendCount(rest, options);
      ExtendCountStep(rest, c, options, |rest|);
      assert rest + {c} == choices;
    }
  }

  lemma ExtendCountStep(rest: set<seq<string>>, c: seq<string>, options: set<string>, count: nat)
    requires c !in rest && |Extended(rest, options)| == count * |options|
    ensures |Extended(rest + {c}, options)| == (count + 1) * |options|
  {
    var a, b := ExtendParts(rest, c, options);
    OneMore(a, b, count, |options|);
  }

  lemma ExtendParts(rest: set<seq<string>>, c: seq<string>, options: set<string>) returns (a: set<seq<string>>, b: set<seq<string>>)
    requires c !in rest
    ensures a == Extended(rest, options) && |b| == |options| && a !! b && Extended(rest + {c}, options) == a + b
  {
    a, b := Extended(rest, options), Extended({c}, options);
    ExtendOne(c, options);
    ExtendUnion(rest, c, options);
    ExtendDisjoint(rest, c, options);
  }

  lemma DisjointCount(a: set<seq<string>>, b: set<seq<string>>)
    requires a !! b
    ensures |a + b| == |a| + |b|
  {
  }

  lemma OneMore(a: set<seq<string>>, b: set<seq<string>>, m: nat, n: nat)
    requires a !! b && |a| == m * n && |b| == n
    ensures |a + b| == (m + 1) * n
  {
    DisjointCount(a, b);
  }

  lemma {:induction false} ChoiceCount(scope: Scope, matches: seq<Placeholder>)
    ensures |Choices(scope, matches)| == Product(scope, matches)
  {
    if matches != [] {
      var n := |matches| - 1;
      ChoiceCount(scope, matches[..n]);
      ExtendCount(Choices(scope, matches[..n]), Options(scope, matches[n]));
    }
  }

  lemma {:induction false} InjectiveImage<A, B>(xs: set<A>, f: A -> B, image: set<B>)
    requires forall x, y | x in xs && y in xs :: f(x) == f(y) ==> x == y
    requires (forall x | x in xs :: f(x) in image) && forall b | b in image :: exists x :: x in xs && f(x) == b
    ensures |image| == |xs|
  {
    if xs == {} {
      assert image == {};
    } else {
      var x :| x in xs;
      var rest := image - {f(x)};
      InjectiveImage(xs - {x}, f, rest);
      assert image == rest + {f(x)};
    }
  }

  lemma KeyOfInjective(scope: Scope, key: string, ms: seq<Placeholder>, c: seq<string>, d: seq<string>)
    requires c in Choices(scope, ms) && d in Choices(scope, ms) && DashFreeOptions(scope, ms)
    requires KeyOf(scope, key, ms, c) == KeyOf(scope, key, ms, d)
    ensures c == d
  {
    ChoiceLength(scope, ms, c);
    ChoiceLength(scope, ms, d);
    KeyInjective(scope, key, ms, c, d);
  }

  lemma KeyCount(scope: Scope, key: string, ms: seq<Placeholder>)
    requires DashFreeOptions(scope, ms)
    ensures |KeySet(scope, key, ms)| == |Choices(scope, ms)|
  {
    var choices := Choices(scope, ms);
    var f := (c: seq<string>) => KeyOf(scope, key, ms, c);
    forall c, d | c in choices && d in choices && f(c) == f(d) ensures c == d {
      KeyOfInjective(scope, key, ms, c, d);
    }
    forall k | k in KeySet(scope, key, ms) ensures exists c :: c in choices && f(c) == k {
      var c :| c in choices && KeyOf(scope, key, ms, c) == k;
      assert f(c) == k;
    }
    InjectiveImage(choices, f, KeySet(scope, key, ms));
  }

  /** Inflation is an exact Cartesian product: with dash-free values there is one line for every
      choice, the result is unique, and its size is the product of the numbers of distinct values. */
  lemma CartesianProduct(scope: Scope, key: string, template: string, lines: Lines)
    requires WellFormed(template) && LaterFree(scope, Matches(scope, template))
    requires DashFreeOptions(scope, Matches(scope, template))
    requires Substitutes(scope, key, template, Success(lines))
    ensures CollisionFree(scope, key, template) && lines == Expanded(scope, key, template)
    ensures |lines| == Product(scope, Matches(scope, template))
    ensures forall c | c in Choices(scope, Matches(scope, template)) ::
              && |c| == |Matches(scope, template)|
              && KeyUnder(scope, key, Matches(scope, template), c) in lines
              && lines[KeyUnder(scope, key, Matches(scope, template), c)] == LineUnder(Scan(template), Matches(scope, template), c)
  {
    var ms, t := Matches(scope, template), Scan(template);
    forall c, d | c in Choices(scope, ms) && d in Choices(scope, ms) && |c| == |ms| && |d| == |ms|
                  && KeyUnder(scope, key, ms, c) == KeyUnder(scope, key, ms, d)
      ensures LineUnder(t, ms, c) == LineUnder(t, ms, d)
    {
      KeyInjective(scope, key, ms, c, d);
    }
    ResultUnique(scope, key, template, lines);
    ChoiceCount(scope, ms);
    KeyCount(scope, key, ms);
    assert lines.Keys == ExpandedKeys(scope, key, template);
    forall c | c in Choices(scope, ms)
      ensures |c| == |ms| && KeyUnder(scope, key, ms, c) in lines && lines[KeyUnder(scope, key, ms, c)] == LineUnder(t, ms, c)
    {
      ChoiceLength(scope, ms, c);
      var j := KeyUnder(scope, key, ms, c);
      assert j == KeyOf(scope, key, ms, c) && j in ExpandedKeys(scope, key, template);
      assert ExpandsAt(scope, key, t, ms, j, lines[j]);
    }
  }

  /** When the placeholders are pairwise distinct, each takes its own component of the choice. */
  lemma {:induction false} DistinctChoice(matches: seq<Placeholder>, choice: seq<string>, i: nat)
    requires |choice| == |matches| && i < |matches|
    requires forall j, k | 0 <= j < k < |matches| :: Text(matches[j]) != Text(matches[k])
    ensures Text(matches[i]) in Chosen(matches, choice) && Chosen(matches, choice)[Text(matches[i])] == choice[i]
  {
    var n := |matches| - 1;
    if i < n {
      DistinctChoice(matches[..n], choice[..n], i);
    } else {
      ChosenKeys(matches[..n], choice[..n]);
    }
  }

  lemma {:induction false} ChosenKeys(matches: seq<Placeholder>, choice: seq<string>)
    requires |choice| == |matches|
    ensures forall k | k in Chosen(matches, choice) :: exists i :: 0 <= i < |matches| && Text(matches[i]) == k
  {
    if matches != [] {
      var n := |matches| - 1;
      ChosenKeys(matches[..n], choice[..n]);
      forall k | k in Chosen(matches, choice) ensures exists i :: 0 <= i < |matches| && Text(matches[i]) == k {
        if k in Chosen(matches[..n], choice[..n]) {
          var i :| 0 <= i < n && Text(matches[..n][i]) == k;
          assert Text(matches[i]) == k;
        } else {
          assert Text(matches[n]) == k;
        }
      }
    }
  }

  // ------------------------------------------------------------ stability of the output

  /** Every line produced is text that a further substitution leaves alone. */
  lemma OutputInert(scope: Scope, key: string, template: string, lines: Lines, j: string)
    requires WellFormed(template) && InertOptions(scope, Scan(template))
    requires Substitutes(scope, key, template, Success(lines)) && j in lines
    ensures Inert(scope, lines[j])
  {
    var t, ms := Scan(template), Matches(scope, template);
    InertLaterFree(scope, t);
    Simultaneous(scope, key, template, lines);
    assert ExpandsAt(scope, key, t, ms, j, lines[j]);
    var c :| c in Choices(scope, ms) && |c| == |ms| && j == KeyUnder(scope, key, ms, c) && lines[j] == LineUnder(t, ms, c);
    FilledInert(scope, t, ms, c);
  }

  lemma FilledInert(scope: Scope, t: Template, ms: seq<Placeholder>, c: seq<string>)
    requires Clean(t) && InertOptions(scope, t) && ms == Active(scope, Refs(t))
    requires c in Choices(scope, ms) && |c| == |ms|
    ensures Inert(scope, LineUnder(t, ms, c))
    ensures Scan(LineUnder(t, ms, c)) == Fill(t, Chosen(ms, c))
  {
    var values := Chosen(ms, c);
    ActiveMembers(scope, Refs(t));
    ChosenInert(scope, ms, c);
    FillClean(t, values);
    ScanClean(Fill(t, values));
    forall q | q in Refs(Fill(t, values)) ensures !Automatic(scope, q) {
      FillRefs(t, values, q);
      if q in Refs(t) && Text(q) !in values {
        if q in ms { ChosenHas(ms, c, q); }
        AutomaticIsActive(scope, q);
      } else {
        var p :| p in Refs(t) && Text(p) in values && q in Refs(Scan(values[Text(p)]));
        assert Inert(scope, values[Text(p)]);
      }
    }
  }

  lemma AutomaticIsActive(scope: Scope, p: Placeholder)
    ensures Automatic(scope, p) <==> !PlanFor(scope, p).Keep?
  {
  }

  lemma {:induction false} ActiveMembers(scope: Scope, matches: seq<Placeholder>)
    ensures forall p :: p in Active(scope, matches) <==> p in matches && !PlanFor(scope, p).Keep?
  {
    if matches != [] { ActiveMembers(scope, matches[1..]); }
  }

  /** `parameterSubstitute` is the identity on inert text, its own outputs in particular. */
  lemma InertIdentity(scope: Scope, key: string, s: string, outcome: Outcome)
    requires Inert(scope, s)
    ensures Substitutes(scope, key, s, outcome) <==> outcome == Success(map[key := s])
  {
    KeepAll(scope, Refs(Scan(s)), map[key := s], outcome);
  }

  lemma {:induction false} KeepAll(scope: Scope, matches: seq<Placeholder>, lines: Lines, outcome: Outcome)
    requires forall p | p in matches :: !Automatic(scope, p)
    ensures Rewrites(scope, matches, lines, outcome) <==> outcome == Success(lines)
  {
    if matches != [] {
      KeepAll(scope, matches[1..], lines, outcome);
      assert matches[0] in matches && PlanFor(scope, matches[0]) == Keep;
      assert MatchStep(scope, matches[0], lines, Success(lines));
      if Rewrites(scope, matches, lines, outcome) {
        var mid :| MatchStep(scope, matches[0], lines, mid) && Continues(scope, matches[1..], mid, outcome);
        assert mid == Success(lines);
      } else {
        assert !Continues(scope, matches[1..], Success(lines), outcome);
      }
    }
  }

  // ------------------------------------------------------------ failure

  /** Every list index is in range and every map key is present. */
  ghost predicate Resolvable(scope: Scope, template: string)
  {
    forall p | p in Refs(Scan(template)) :: !PlanFor(scope, p).Faulty?
  }

  /** Every attribute named, where attributes are substituted, exists. */
  ghost predicate Named(scope: Scope, template: string)
  {
    forall p | p in Refs(Scan(template)) :: !PlanFor(scope, p).Unknown?
  }

  /** A resolvable template fails exactly when it names an attribute that does not exist. */
  lemma FailsExactlyWhen(scope: Scope, key: string, template: string, outcome: Outcome)
    requires Resolvable(scope, template) && Substitutes(scope, key, template, outcome)
    ensures !outcome.Panicked?
    ensures outcome.Failure? <==> !Named(scope, template)
  {
    OutcomeOf(scope, Refs(Scan(template)), map[key := template], outcome);
  }

  lemma {:induction false} OutcomeOf(scope: Scope, matches: seq<Placeholder>, lines: Lines, outcome: Outcome)
    requires forall p | p in matches :: !PlanFor(scope, p).Faulty?
    requires Rewrites(scope, matches, lines, outcome)
    ensures !outcome.Panicked?
    ensures outcome.Failure? <==> exists p :: p in matches && PlanFor(scope, p).Unknown?
  {
    if matches != [] {
      var mid :| MatchStep(scope, matches[0], lines, mid) && Continues(scope, matches[1..], mid, outcome);
      assert matches[0] in matches;
      if mid.Success? { OutcomeOf(scope, matches[1..], mid.lines, outcome); }
    }
  }
}
