/** What a reference to the environment inserts, and inputs outside the hypotheses of the
    theorems on which the conclusions fail. */
module Boundaries {
  import opened GoStrings
  import opened Placeholders
  import opened Templates
  import opened EmbeddedVars
  import opened ParameterSubstitution
  import opened Expansion
  import opened Inflation
  import opened Determinism
  import opened MapSubstitution
  import opened References

  lemma {:induction false} ShowFields(scope: Scope, ss: seq<string>)
    ensures ShowAll(scope, Strings(ss)) == ss
  {
    if ss == [] {
      assert Strings(ss) == [];
    } else {
      assert Strings(ss)[1..] == Strings(ss[1..]);
      ShowFields(scope, ss[1..]);
      assert ss == [ss[0]] + ss[1..];
    }
  }

  lemma ShownFields(scope: Scope, ss: seq<string>)
    ensures Shown(scope, Strings(ss)) == set s | s in ss
  {
    forall s | s in ss ensures s in Shown(scope, Strings(ss)) {
      var i :| 0 <= i < |ss| && ss[i] == s;
      assert Strings(ss)[i] == Str(s) && Show(scope, Strings(ss)[i]) == s;
    }
  }

  /** What a reference to an environment variable inserts, by its fields. */
  function FieldsPlan(ev: EmbeddedVar, text: string, fields: seq<string>): Plan
  {
    if !ev.isArrayOrMap then Insert(text)
    else if ev.arrayIndex < 0 then Inflate(set f | f in fields)
    else if ev.arrayIndex < |fields| then Insert(fields[ev.arrayIndex])
    else Faulty
  }

  lemma FieldsPlanned(scope: Scope, ev: EmbeddedVar, fields: seq<string>)
    requires ev.arrayIndex >= -1
    ensures PlanForValue(scope, ev, List(Strings(fields))) == FieldsPlan(ev, Join(fields, ','), fields)
  {
    ShowFields(scope, fields);
    ShownFields(scope, fields);
  }

  /** A bare reference inserts exactly the environment string, with all its commas; an index
      inserts that field of it; empty brackets inflate over the fields. */
  lemma EnvironmentReference(scope: Scope, p: Placeholder)
    requires p.kind == ENV
    ensures PlanFor(scope, p) == FieldsPlan(MatchToEmbeddedVars(p), scope.env(p.name), Split(scope.env(p.name), ','))
  {
    JoinSplit(scope.env(p.name), ',');
    FieldsPlanned(scope, MatchToEmbeddedVars(p), Split(scope.env(p.name), ','));
  }

  // ------------------------------------------------------------ a template of two references

  predicate CleanPair(p: Placeholder, q: Placeholder)
  {
    GoodPlaceholder(p) && GoodPlaceholder(q) && BraceFree(Inner(p)) && BraceFree(Inner(q)) && Text(p) != Text(q)
  }

  function Pair(p: Placeholder, q: Placeholder): Template { Ref(p, Ref(q, End)) }

  lemma PairScan(p: Placeholder, q: Placeholder)
    requires CleanPair(p, q)
    ensures Clean(Pair(p, q)) && Scan(Text(p) + Text(q)) == Pair(p, q) && Refs(Pair(p, q)) == [p, q]
  {
    assert Text(q) + "" == Text(q);
    assert Render(Ref(q, End)) == Text(q);
    ScanClean(Pair(p, q));
    assert Refs(Ref(q, End)) == [q];
  }

  lemma PairActive(scope: Scope, p: Placeholder, q: Placeholder)
    requires !PlanFor(scope, p).Keep? && !PlanFor(scope, q).Keep?
    ensures Active(scope, [p, q]) == [p, q]
  {
    assert [p, q][1..] == [q] && [q][1..] == [];
    assert Active(scope, [q]) == [q];
  }

  lemma PairChoice(scope: Scope, p: Placeholder, q: Placeholder, c: seq<string>)
    ensures c in Choices(scope, [p, q]) <==> |c| == 2 && c[0] in Options(scope, p) && c[1] in Options(scope, q)
  {
    ChoiceMembers(scope, [p, q], c);
  }

  lemma PairLine(scope: Scope, key: string, p: Placeholder, q: Placeholder, v: string, w: string)
    requires CleanPair(p, q)
    ensures LineUnder(Pair(p, q), [p, q], [v, w]) == v + w
    ensures PlanFor(scope, p).Inflate? && PlanFor(scope, q).Inflate? ==> KeyUnder(scope, key, [p, q], [v, w]) == key + "-" + v + "-" + w
  {
    assert [p, q][..1] == [p] && [v, w][..1] == [v] && [p][..0] == [] && [v][..0] == [];
    assert Chosen([p], [v]) == map[Text(p) := v];
    assert Chosen([p, q], [v, w]) == map[Text(q) := w] + map[Text(p) := v];
    PairFilled(p, q, v, w);
    assert KeyUnder(scope, key, [p], [v]) == if PlanFor(scope, p).Inflate? then key + "-" + v else key;
  }

  lemma PairFill(p: Placeholder, q: Placeholder, values: map<string, string>)
    requires Text(p) in values && Text(q) in values
    ensures Fill(Pair(p, q), values) == Append(Scan(values[Text(p)]), Append(Scan(values[Text(q)]), End))
  {
    assert Fill(Ref(q, End), values) == Append(Scan(values[Text(q)]), End);
  }

  lemma PairFilled(p: Placeholder, q: Placeholder, v: string, w: string)
    requires Text(p) != Text(q)
    ensures Render(Fill(Pair(p, q), map[Text(q) := w] + map[Text(p) := v])) == v + w
  {
    var values := map[Text(q) := w] + map[Text(p) := v];
    var last := Append(Scan(w), End);
    assert values[Text(p)] == v && values[Text(q)] == w;
    PairFill(p, q, values);
    RenderAppend(Scan(v), last);
    RenderAppend(Scan(w), End);
    RenderScan(v);
    RenderScan(w);
    assert w + "" == w;
  }

  // ------------------------------------------------------------ a value with a placeholder

  lemma ReplaceAtEnd(p: Placeholder, v: string)
    ensures ReplaceAll(Text(p), Text(p), v) == v
  {
    assert Text(p)[|Text(p)|..] == "" && v + "" == v;
  }

  lemma ReplaceTwo(p: Placeholder, q: Placeholder, v: string)
    requires CleanPair(p, q)
    ensures ReplaceAll(Text(p) + Text(q), Text(p), v) == v + Text(q)
    ensures ReplaceAll(Text(q) + Text(q), Text(q), v) == v + v
  {
    InnerOf(p);
    assert (Text(p) + Text(q))[|Text(p)|..] == Text(q) && (Text(q) + Text(q))[|Text(q)|..] == Text(q);
    ReplaceAtEnd(q, v);
    assert Text(q) + "" == Text(q);
    SkipPlaceholder(q, "", Text(p), v);
  }

  lemma PairRewrites(scope: Scope, key: string, p: Placeholder, q: Placeholder, v: string)
    requires CleanPair(p, q) && PlanFor(scope, p) == Insert(Text(q)) && PlanFor(scope, q) == Insert(v)
    ensures Rewrites(scope, [p, q], map[key := Text(p) + Text(q)], Success(map[key := v + v]))
  {
    var start, first, second := map[key := Text(p) + Text(q)], map[key := Text(q) + Text(q)], map[key := v + v];
    ReplaceTwo(p, q, Text(q));
    ReplaceTwo(p, q, v);
    assert Rewritten(start, Text(p), Text(q)) == first && Rewritten(first, Text(q), v) == second;
    assert [p, q][1..] == [q] && [q][1..] == [];
    RewritesCons(scope, [q], first, second, second);
    RewritesCons(scope, [p, q], start, first, second);
  }

  /** When the value of one reference is the text of the next, the text put in is rewritten again:
      the sequential result is not the simultaneous one, whatever the reference and the value. */
  lemma PlaceholderInValue(scope: Scope, key: string, p: Placeholder, q: Placeholder, v: string)
    requires CleanPair(p, q) && PlanFor(scope, p) == Insert(Text(q)) && PlanFor(scope, q) == Insert(v) && BraceFree(v)
    ensures WellFormed(Text(p) + Text(q))
    ensures Substitutes(scope, key, Text(p) + Text(q), Success(map[key := v + v]))
    ensures !Expands(scope, key, Scan(Text(p) + Text(q)), Matches(scope, Text(p) + Text(q)), map[key := v + v])
  {
    PairScan(p, q);
    PairActive(scope, p, q);
    PairRewrites(scope, key, p, q, v);
    NotSimultaneous(scope, key, p, q, v);
    var template, lines := Text(p) + Text(q), map[key := v + v];
    assert Matches(scope, template) == [p, q];
    assert key in lines && lines[key] == v + v;
  }

  lemma NotSimultaneous(scope: Scope, key: string, p: Placeholder, q: Placeholder, v: string)
    requires CleanPair(p, q) && PlanFor(scope, p) == Insert(Text(q)) && PlanFor(scope, q) == Insert(v) && BraceFree(v)
    ensures !ExpandsAt(scope, key, Pair(p, q), [p, q], key, v + v)
  {
    if ExpandsAt(scope, key, Pair(p, q), [p, q], key, v + v) {
      var c :| c in Choices(scope, [p, q]) && |c| == 2 && v + v == LineUnder(Pair(p, q), [p, q], c);
      PairChoice(scope, p, q, c);
      assert c == [Text(q), v];
      PairLine(scope, key, p, q, Text(q), v);
      OpensBrace(q, v);
    }
  }

  lemma OpensBrace(q: Placeholder, v: string)
    requires BraceFree(v)
    ensures Text(q) + v != v + v
  {
    assert (Text(q) + v)[0] == '{';
    assert v != "" ==> (v + v)[0] == v[0] && !IsBrace(v[0]);
  }

  /** Two environment variables that make this happen. */
  lemma PlaceholderInEnvironment(scope: Scope, p: Placeholder, q: Placeholder)
    requires CleanPair(p, q) && p.kind == ENV && q.kind == ENV && p.bracket == Absent && q.bracket == Absent
    requires scope.env(p.name) == Text(q) && ',' !in Text(q) && scope.env(q.name) == "b"
    ensures Substitutes(scope, "k", Text(p) + Text(q), Success(map["k" := "bb"]))
    ensures !Expands(scope, "k", Scan(Text(p) + Text(q)), Matches(scope, Text(p) + Text(q)), map["k" := "bb"])
  {
    EnvironmentReference(scope, p);
    EnvironmentReference(scope, q);
    PlaceholderInValue(scope, "k", p, q, "b");
    assert "b" + "b" == "bb";
  }

  // ------------------------------------------------------------ values with a dash

  /** With dashes in the values two choices can share a key, and then which line survives depends
      on the order in which Go happens to range over the lines. */
  lemma DashCollision(scope: Scope, key: string, p: Placeholder, q: Placeholder)
    requires CleanPair(p, q)
    requires PlanFor(scope, p) == Inflate({"a", "a-b"}) && PlanFor(scope, q) == Inflate({"b-c", "c"})
    ensures WellFormed(Text(p) + Text(q)) && InertOptions(scope, Scan(Text(p) + Text(q)))
    ensures !OneResult(scope, key, Text(p) + Text(q))
  {
    PairScan(p, q);
    PairActive(scope, p, q);
    PairInert(scope, p, q);
    PairNotCollisionFree(scope, key, p, q, Text(p) + Text(q));
    InertLaterFree(scope, Pair(p, q));
    DeterministicExactlyWhen(scope, key, Text(p) + Text(q));
  }

  lemma PairInert(scope: Scope, p: Placeholder, q: Placeholder)
    requires PlanFor(scope, p) == Inflate({"a", "a-b"}) && PlanFor(scope, q) == Inflate({"b-c", "c"})
    requires Refs(Pair(p, q)) == [p, q]
    ensures InertOptions(scope, Pair(p, q))
  {
    forall r, v | r in Refs(Pair(p, q)) && v in Options(scope, r) ensures Inert(scope, v) {
      assert r == p || r == q;
      BraceFreeIsInert(scope, v);
    }
  }

  lemma SameKey(key: string)
    ensures key + "-" + "a" + "-" + "b-c" == key + "-" + "a-b" + "-" + "c"
  {
    assert key + "-" + "a" + "-" + "b-c" == key + "-a-b-c";
    assert key + "-" + "a-b" + "-" + "c" == key + "-a-b-c";
  }

  lemma OtherLine()
    ensures "a" + "b-c" != "a-b" + "c"
  {
    assert ("a" + "b-c")[1] == 'b' && ("a-b" + "c")[1] == '-';
  }

  lemma PairCollides(scope: Scope, key: string, p: Placeholder, q: Placeholder)
    requires CleanPair(p, q)
    requires PlanFor(scope, p) == Inflate({"a", "a-b"}) && PlanFor(scope, q) == Inflate({"b-c", "c"})
    ensures KeyUnder(scope, key, [p, q], ["a", "b-c"]) == KeyUnder(scope, key, [p, q], ["a-b", "c"])
    ensures LineUnder(Pair(p, q), [p, q], ["a", "b-c"]) != LineUnder(Pair(p, q), [p, q], ["a-b", "c"])
  {
    PairLine(scope, key, p, q, "a", "b-c");
    PairLine(scope, key, p, q, "a-b", "c");
    SameKey(key);
    OtherLine();
  }

  lemma PairNotCollisionFree(scope: Scope, key: string, p: Placeholder, q: Placeholder, template: string)
    requires CleanPair(p, q) && Scan(template) == Pair(p, q) && Matches(scope, template) == [p, q]
    requires PlanFor(scope, p) == Inflate({"a", "a-b"}) && PlanFor(scope, q) == Inflate({"b-c", "c"})
    ensures !CollisionFree(scope, key, template)
  {
    PairChoice(scope, p, q, ["a", "b-c"]);
    PairChoice(scope, p, q, ["a-b", "c"]);
    PairCollides(scope, key, p, q);
  }

  // ------------------------------------------------------------ concrete inputs

  const ENV_A := Placeholder(ENV, "A", Absent)

  const ENV_B := Placeholder(ENV, "B", Absent)

  const EACH_X := Placeholder(ATTR, "X", Empty(""))

  const EACH_Y := Placeholder(ATTR, "Y", Empty(""))

  /** The variable A holds the text of a placeholder, every other variable the letter b. */
  function NestedEnvironment(attributes: Attributes): Scope
  {
    Scope(x => if x == "A" then "{ENV::B}" else "b", attributes, true, _ => "")
  }

  lemma TextsOfA()
    ensures Text(ENV_A) == "{ENV::A}" && Text(ENV_B) == "{ENV::B}" && CleanPair(ENV_A, ENV_B)
  {
    assert BracketText(Absent) == "";
    assert "A" + "" == "A" && "B" + "" == "B";
    assert "::" + "A" == "::A" && "::" + "B" == "::B";
    assert Inner(ENV_A) == "ENV" + "::A" == "ENV::A" && Inner(ENV_B) == "ENV" + "::B" == "ENV::B";
  }

  /** `{ENV::A}{ENV::B}` with A = `{ENV::B}` and B = `b` becomes `bb`, not `{ENV::B}b`. */
  lemma NestedEnvironmentExample(attributes: Attributes)
    ensures var scope, t := NestedEnvironment(attributes), "{ENV::A}{ENV::B}";
            && Substitutes(scope, "k", t, Success(map["k" := "bb"]))
            && !Expands(scope, "k", Scan(t), Matches(scope, t), map["k" := "bb"])
  {
    TextsOfA();
    assert "{ENV::A}" + "{ENV::B}" == "{ENV::A}{ENV::B}";
    PlaceholderInEnvironment(NestedEnvironment(attributes), ENV_A, ENV_B);
  }

  const ATTR_X := Placeholder(ATTR, "x", Absent)

  lemma TextOfX()
    ensures Text(ATTR_X) == "{ATTR::x}" && GoodPlaceholder(ATTR_X) && BraceFree(Inner(ATTR_X))
  {
    assert BracketText(Absent) == "" && "x" + "" == "x" && "::" + "x" == "::x";
    assert Inner(ATTR_X) == "ATTR" + "::x" == "ATTR::x";
  }

  lemma BraceBefore(u: string)
    requires u != "" && u[0] == '{'
    ensures Scan("{" + u) == Lit('{', Scan(u))
  {
    assert After("{" + u, "{") == Some(u);
    assert KindAt(u) == None;
    assert ("{" + u)[1..] == u;
  }

  lemma FreshScan()
    ensures Refs(Scan("{" + (Text(ENV_A) + "::x}"))) == [ENV_A]
  {
    TextsOfA();
    var tail := Lit(':', Lit(':', Lit('x', Lit('}', End))));
    assert Render(tail) == "::x}";
    ScanRender(Ref(ENV_A, tail));
    BraceBefore(Text(ENV_A) + "::x}");
  }

  lemma FreshReplaced()
    ensures ReplaceAll("{" + (Text(ENV_A) + "::x}"), Text(ENV_A), "ATTR") == "{ATTR::x}"
  {
    TextsOfA();
    var u := Text(ENV_A) + "::x}";
    InnerOf(ENV_A);
    ReplacePassesOver("::x}", "", Text(ENV_A), "ATTR");
    assert "::x}" + "" == "::x}" && u[|Text(ENV_A)|..] == "::x}";
    assert ReplaceAll(u, Text(ENV_A), "ATTR") == "ATTR" + "::x}";
    assert ("{" + u)[1] == '{' && Text(ENV_A)[1] == 'E' && ("{" + u)[1..] == u;
    assert "{" + ("ATTR" + "::x}") == "{ATTR::x}";
  }

  /** `{{ENV::A}::x}` with A = `ATTR` leaves a placeholder that no match of the template was: the
      output is not inert, and a second visit would substitute it. */
  lemma FreshPlaceholderExample(scope: Scope)
    requires scope.env("A") == "ATTR" && scope.allowAttributes
    ensures Substitutes(scope, "k", "{" + (Text(ENV_A) + "::x}"), Success(map["k" := "{ATTR::x}"]))
    ensures !WellFormed("{" + (Text(ENV_A) + "::x}")) && !Inert(scope, "{ATTR::x}")
  {
    TextsOfA();
    TextOfX();
    var s := "{" + (Text(ENV_A) + "::x}");
    FreshScan();
    FreshReplaced();
    BraceBefore(Text(ENV_A) + "::x}");
    EnvironmentReference(scope, ENV_A);
    var start, next := map["k" := s], map["k" := "{ATTR::x}"];
    assert Rewritten(start, Text(ENV_A), "ATTR") == next;
    assert [ENV_A][1..] == [];
    RewritesCons(scope, [ENV_A], start, next, next);
    OneScan(ATTR_X);
    assert ATTR_X in Refs(Scan("{ATTR::x}"));
  }

  lemma SuffixedOne(k: string, v: string)
    ensures Suffixed({k}, {v}) == {k + "-" + v}
  {
    forall j ensures j in Suffixed({k}, {v}) <==> j == k + "-" + v {
      if j == k + "-" + v { assert k in {k} && v in {v}; }
    }
  }

  lemma OneScan(p: Placeholder)
    requires GoodPlaceholder(p) && BraceFree(Inner(p))
    ensures Scan(Text(p)) == Ref(p, End) && Refs(Scan(Text(p))) == [p]
  {
    assert Clean(Ref(p, End));
    assert Text(p) + "" == Text(p);
    ScanClean(Ref(p, End));
  }

  lemma OneStep(k: string, p: Placeholder, v: string)
    ensures Inflated(map[k := Text(p)], Text(p), {v}, map[k + "-" + v := v])
  {
    var next := map[k + "-" + v := v];
    InflatedOnce(k, Text(p), Text(p), {v}, next);
    SuffixedOne(k, v);
    SuffixInverse(k, v);
    ReplaceAtEnd(p, v);
    assert LineInflated(k, Text(p), Text(p), {v}) == next;
  }

  /** One reference to every element of a list with one element. */
  lemma OneInflated(scope: Scope, k: string, p: Placeholder, v: string)
    requires GoodPlaceholder(p) && BraceFree(Inner(p)) && PlanFor(scope, p) == Inflate({v})
    ensures Substitutes(scope, k, Text(p), Success(map[k + "-" + v := v]))
  {
    var start, next := map[k := Text(p)], map[k + "-" + v := v];
    OneScan(p);
    OneStep(k, p, v);
    assert [p][1..] == [];
    RewritesCons(scope, [p], start, next, next);
  }

  lemma TwoReplaced(m: Attributes, k: string, l: string, j: string, v: string, w: string)
    requires k in m && l in m && k != l && j != k && j != l && m.Keys == {k, l}
    ensures var first := Replaced(m, k, AsValues(map[j := v]));
            l in first && first[l] == m[l] && Replaced(first, l, AsValues(map[j := w])) == map[j := Str(w)]
  {
    var first := Replaced(m, k, AsValues(map[j := v]));
    assert first.Keys == {l, j};
  }

  lemma StringVisits(scope: Scope, m: Attributes, k: string, lines: Lines)
    requires k in m && m[k].Str? && Substitutes(scope, k, m[k].s, Success(lines))
    ensures Visits(scope, false, m, k, Done, Replaced(m, k, AsValues(lines)))
  {
  }

  lemma TwoVisits(scope: Scope, m: Attributes, k: string, l: string, j: string, v: string, w: string)
    requires k in m && l in m && k != l && j != k && j != l && m.Keys == {k, l} && m[k].Str? && m[l].Str?
    requires Substitutes(scope, k, m[k].s, Success(map[j := v])) && Substitutes(scope, l, m[l].s, Success(map[j := w]))
    ensures Ranges(scope, false, m, Visit(k, Done, Visit(l, Done, Done)), map[j := Str(w)])
  {
    var first, after := Replaced(m, k, AsValues(map[j := v])), map[j := Str(w)];
    TwoReplaced(m, k, l, j, v, w);
    StringVisits(scope, m, k, map[j := v]);
    StringVisits(scope, first, l, map[j := w]);
    RunsCons(scope, false, first, l, Done, after, Done, after);
    RunsCons(scope, false, m, k, Done, first, Visit(l, Done, Done), after);
  }

  lemma EachPlan(scope: Scope, p: Placeholder, v: string)
    requires p.kind == ATTR && p.bracket == Empty("") && scope.allowAttributes
    requires p.name in scope.attributes && scope.attributes[p.name] == List([Str(v)])
    ensures PlanFor(scope, p) == Inflate({v})
  {
    var elems := [Str(v)];
    assert Show(scope, elems[0]) == v && elems[0] in elems;
    assert Shown(scope, elems) == {v};
  }

  lemma EachClean(p: Placeholder)
    requires p == EACH_X || p == EACH_Y
    ensures GoodPlaceholder(p) && BraceFree(Inner(p))
  {
    assert BracketText(Empty("")) == "[]";
    assert Inner(p) == "ATTR" + ("::" + (p.name + "[]"));
    assert |Inner(p)| == 9 && forall i | 0 <= i < 9 :: Inner(p)[i] == if i == 6 then p.name[0] else "ATTR:: []"[i];
  }

  /** X and Y are lists of one element, with a dash in that of X. */
  function ClashScope(env: string -> string, composite: Value -> string): Scope
  {
    Scope(env, map["X" := List([Str("b-c")]), "Y" := List([Str("c")])], true, composite)
  }

  function ClashMap(): Attributes { map["a" := Str(Text(EACH_X)), "a-b" := Str(Text(EACH_Y))] }

  lemma ClashPlans(env: string -> string, composite: Value -> string)
    ensures PlanFor(ClashScope(env, composite), EACH_X) == Inflate({"b-c"})
    ensures PlanFor(ClashScope(env, composite), EACH_Y) == Inflate({"c"})
  {
    EachPlan(ClashScope(env, composite), EACH_X, "b-c");
    EachPlan(ClashScope(env, composite), EACH_Y, "c");
  }

  lemma SameSuffixed()
    ensures "a" + "-" + "b-c" == "a-b-c" == "a-b" + "-" + "c"
  {
  }

  lemma ClashLines(env: string -> string, composite: Value -> string)
    ensures Substitutes(ClashScope(env, composite), "a", Text(EACH_X), Success(map["a-b-c" := "b-c"]))
    ensures Substitutes(ClashScope(env, composite), "a-b", Text(EACH_Y), Success(map["a-b-c" := "c"]))
  {
    var scope := ClashScope(env, composite);
    ClashPlans(env, composite);
    EachClean(EACH_X);
    EachClean(EACH_Y);
    SameSuffixed();
    OneInflated(scope, "a", EACH_X, "b-c");
    OneInflated(scope, "a-b", EACH_Y, "c");
  }

  lemma ClashKeys()
    ensures "a" != "a-b" && "a-b-c" != "a" && "a-b-c" != "a-b" && ClashMap().Keys == {"a", "a-b"}
    ensures ClashMap()["a"] == Str(Text(EACH_X)) && ClashMap()["a-b"] == Str(Text(EACH_Y))
  {
    assert |"a"| == 1 && |"a-b"| == 3 && |"a-b-c"| == 5;
  }

  /** Two entries whose expansions have the same key: the result of the loop depends on which of
      them the range clause yields last. */
  lemma ClashingEntries(env: string -> string, composite: Value -> string)
    ensures Ranges(ClashScope(env, composite), false, ClashMap(), Visit("a", Done, Visit("a-b", Done, Done)), map["a-b-c" := Str("c")])
    ensures Ranges(ClashScope(env, composite), false, ClashMap(), Visit("a-b", Done, Visit("a", Done, Done)), map["a-b-c" := Str("b-c")])
  {
    ClashLines(env, composite);
    ClashKeys();
    TwoVisits(ClashScope(env, composite), ClashMap(), "a", "a-b", "a-b-c", "b-c", "c");
    TwoVisits(ClashScope(env, composite), ClashMap(), "a-b", "a", "a-b-c", "c", "b-c");
  }
}
