/** Substitution of VAR placeholders at use time: `templateVarSubstitution` and the path loop of
    `CopyFileToRemote`. */
module TemplateVars {
  import opened GoStrings
  import opened Placeholders
  import opened Templates
  import opened ParameterSubstitution

  type Vars = map<string, string>

  // ------------------------------------------------------------ the two implementations

  /** The matches computed once, then one first-occurrence replacement for each bound VAR. */
  function ReplaceFirsts(matches: seq<Placeholder>, template: string, vars: Vars): string
  {
    if matches == [] then template
    else
      var p := matches[0];
      ReplaceFirsts(matches[1..],
                    if p.kind == VAR && p.name in vars then ReplaceFirst(template, Text(p), vars[p.name]) else template, vars)
  }

  method TemplateVarSubstitution(template: string, vars: Vars) returns (result: string)
    ensures result == ReplaceFirsts(Refs(Scan(template)), template, vars)
  {
    var matches := Refs(Scan(template));
    result := template;
    for i := 0 to |matches|
      invariant ReplaceFirsts(matches[i..], result, vars) == ReplaceFirsts(matches, template, vars)
    {
      assert matches[i..][1..] == matches[i + 1..];
      var p := matches[i];
      if p.kind == VAR {
        if p.name in vars {
          result := ReplaceFirst(result, Text(p), vars[p.name]);
        }
      }
    }
  }

  /** `fmt.Sprintf("{VAR::%s}", k)` */
  function VarText(k: string): (t: string)
    ensures t != ""
  {
    "{VAR::" + k + "}"
  }

  /** One replace-all for each key, in the order given. */
  function ReplaceKeys(order: seq<string>, path: string, vars: Vars): string
    requires forall k | k in order :: k in vars
  {
    if order == [] then path
    else ReplaceKeys(order[1..], ReplaceAll(path, VarText(order[0]), vars[order[0]]), vars)
  }

  lemma {:induction false} ReplaceKeysSnoc(order: seq<string>, k: string, path: string, vars: Vars)
    requires (forall j | j in order :: j in vars) && k in vars
    ensures forall j | j in order + [k] :: j in vars
    ensures ReplaceKeys(order + [k], path, vars) == ReplaceAll(ReplaceKeys(order, path, vars), VarText(k), vars[k])
  {
    if order == [] {
      assert order + [k] == [k];
    } else {
      ReplaceKeysSnoc(order[1..], k, ReplaceAll(path, VarText(order[0]), vars[order[0]]), vars);
      assert (order + [k])[1..] == order[1..] + [k];
    }
  }

  /** The loop of `CopyFileToRemote`; the range over the map yields the keys in any order. */
  method CopyFilePath(path: string, vars: Vars) returns (result: string)
    ensures exists order :: IsOrderOf(order, vars.Keys) && result == ReplaceKeys(order, path, vars)
  {
    result := path;
    ghost var order := [];
    var todo := vars.Keys;
    while todo != {}
      invariant todo <= vars.Keys && IsOrderOf(order, vars.Keys - todo)
      invariant result == ReplaceKeys(order, path, vars)
      decreases todo
    {
      var k :| k in todo;
      ReplaceKeysSnoc(order, k, path, vars);
      result := ReplaceAll(result, VarText(k), vars[k]);
      order, todo := order + [k], todo - {k};
    }
  }

  // ------------------------------------------------------------ what they mean

  predicate BraceFreeVars(vars: Vars) { forall k | k in vars :: BraceFree(k) && BraceFree(vars[k]) }

  /** A VAR placeholder whose name is bound, with or without a bracket part. */
  predicate Bound(p: Placeholder, vars: Vars) { p.kind == VAR && p.name in vars }

  /** Every bound placeholder replaced at once. */
  function Bind(t: Template, vars: Vars): Template
  {
    match t
    case End => End
    case Lit(c, rest) => Lit(c, Bind(rest, vars))
    case Ref(p, rest) =>
      if Bound(p, vars) then Append(Scan(vars[p.name]), Bind(rest, vars)) else Ref(p, Bind(rest, vars))
  }

  /** The values the key loop puts in, by the text it looks for. */
  function KeyValues(order: seq<string>, vars: Vars): map<string, string>
    requires forall k | k in order :: k in vars
  {
    if order == [] then map[]
    else KeyValues(order[1..], vars)[VarText(order[0]) := vars[order[0]]]
  }

  lemma VarTextBraced(k: string)
    requires BraceFree(k)
    ensures Braced(VarText(k))
  {
    var t := VarText(k);
    assert t[1..|t| - 1] == "VAR::" + k;
  }

  lemma VarTextInjective(j: string, k: string)
    requires VarText(j) == VarText(k)
    ensures j == k
  {
    assert VarText(j)[6..|VarText(j)| - 1] == j && VarText(k)[6..|VarText(k)| - 1] == k;
  }

  lemma {:induction false} KeyValuesOf(order: seq<string>, vars: Vars)
    requires forall k | k in order :: k in vars
    ensures forall k | k in order :: VarText(k) in KeyValues(order, vars) && KeyValues(order, vars)[VarText(k)] == vars[k]
    ensures forall t | t in KeyValues(order, vars) :: exists k :: k in order && t == VarText(k)
  {
    if order != [] {
      KeyValuesOf(order[1..], vars);
      forall k | k in order ensures VarText(k) in KeyValues(order, vars) && KeyValues(order, vars)[VarText(k)] == vars[k] {
        if VarText(k) == VarText(order[0]) { VarTextInjective(k, order[0]); }
      }
      forall t | t in KeyValues(order, vars) ensures exists k :: k in order && t == VarText(k) {
        if t == VarText(order[0]) {
          assert order[0] in order;
        } else {
          var k :| k in order[1..] && t == VarText(k);
          assert k in order;
        }
      }
    }
  }

  /** The key loop fills, all at once, the placeholders whose text is that of a key; the order of
      the keys does not matter. */
  lemma {:induction false} KeyLoopFills(order: seq<string>, t: Template, vars: Vars)
    requires Clean(t) && BraceFreeVars(vars) && forall k | k in order :: k in vars
    requires forall i, j | 0 <= i < j < |order| :: order[i] != order[j]
    ensures ReplaceKeys(order, Render(t), vars) == Render(Fill(t, KeyValues(order, vars)))
    decreases |order|
  {
    if order == [] {
      FillUntouched(t, map[]);
    } else {
      var k, rest := order[0], order[1..];
      var one := map[VarText(k) := vars[k]];
      VarTextBraced(k);
      ReplaceIsFill(t, VarText(k), vars[k]);
      ScanBraceFree(vars[k]);
      FillClean(t, one);
      KeyLoopFills(rest, Fill(t, one), vars);
      FillFill(t, one, KeyValues(rest, vars));
      assert KeyValues(rest, vars) + one == KeyValues(order, vars);
    }
  }

  lemma {:induction false} FirstSkips(done: Template, s: string, p: Placeholder, v: string)
    requires Clean(done) && GoodPlaceholder(p) && BraceFree(Inner(p)) && p !in Refs(done)
    ensures ReplaceFirst(Render(done) + s, Text(p), v) == Render(done) + ReplaceFirst(s, Text(p), v)
  {
    InnerOf(p);
    match done
    case End =>
      assert "" + s == s;
    case Lit(c, rest) =>
      FirstSkips(rest, s, p, v);
      Assoc([c], Render(rest), s);
      ReplaceSteps(c, Render(rest) + s, Text(p), v);
      Assoc([c], Render(rest), ReplaceFirst(s, Text(p), v));
    case Ref(q, rest) =>
      FirstSkips(rest, s, p, v);
      if Text(q) == Text(p) { TextInjective(p, q); }
      Assoc(Text(q), Render(rest), s);
      SkipPlaceholder(q, Render(rest) + s, Text(p), v);
      Assoc(Text(q), Render(rest), ReplaceFirst(s, Text(p), v));
  }

  /** The first occurrence of a placeholder is replaced in place. */
  lemma FirstHit(done: Template, p: Placeholder, rest: Template, v: string)
    requires Clean(done) && GoodPlaceholder(p) && BraceFree(Inner(p)) && p !in Refs(done)
    ensures ReplaceFirst(Render(Append(done, Ref(p, rest))), Text(p), v) == Render(Append(Append(done, Scan(v)), rest))
  {
    RenderAppend(done, Ref(p, rest));
    FirstSkips(done, Text(p) + Render(rest), p, v);
    assert (Text(p) + Render(rest))[|Text(p)|..] == Render(rest);
    RenderAppend(done, Scan(v));
    RenderAppend(Append(done, Scan(v)), rest);
    RenderScan(v);
    Assoc(Render(done), v, Render(rest));
  }

  lemma {:induction false} ScanBinds(done: Template, t: Template, vars: Vars)
    requires Clean(done) && Clean(t) && BraceFreeVars(vars) && forall p | p in Refs(done) :: !Bound(p, vars)
    ensures ReplaceFirsts(Refs(t), Render(Append(done, t)), vars) == Render(Append(done, Bind(t, vars)))
    decreases t
  {
    match t
    case End =>
    case Lit(c, rest) =>
      var next := Append(done, Lit(c, End));
      CleanAppend(done, Lit(c, End));
      RefsAppend(done, Lit(c, End));
      AppendAssoc(done, Lit(c, End), rest);
      AppendAssoc(done, Lit(c, End), Bind(rest, vars));
      ScanBinds(next, rest, vars);
    case Ref(p, rest) =>
      assert Refs(t)[1..] == Refs(rest);
      if Bound(p, vars) {
        var value := Scan(vars[p.name]);
        ScanBraceFree(vars[p.name]);
        FirstHit(done, p, rest, vars[p.name]);
        CleanAppend(done, value);
        RefsAppend(done, value);
        AppendAssoc(done, value, Bind(rest, vars));
        ScanBinds(Append(done, value), rest, vars);
      } else {
        CleanAppend(done, Ref(p, End));
        RefsAppend(done, Ref(p, End));
        AppendAssoc(done, Ref(p, End), rest);
        AppendAssoc(done, Ref(p, End), Bind(rest, vars));
        ScanBinds(Append(done, Ref(p, End)), rest, vars);
      }
  }

  /** `templateVarSubstitution` binds all placeholders at once, repeated ones included. */
  lemma ScanLoopBinds(t: Template, vars: Vars)
    requires Clean(t) && BraceFreeVars(vars)
    ensures ReplaceFirsts(Refs(Scan(Render(t))), Render(t), vars) == Render(Bind(t, vars))
  {
    ScanClean(t);
    ScanBinds(End, t, vars);
  }

  // ------------------------------------------------------------ when the two agree

  lemma VarTextShape(p: Placeholder)
    ensures p.kind == VAR ==> Text(p) == VarText(p.name + BracketText(p.bracket))
    ensures p.kind != VAR ==> Text(p)[1] != 'V'
  {
    var u := p.name + BracketText(p.bracket);
    if p.kind == VAR {
      assert Inner(p) == "VAR" + ("::" + u);
      Assoc("VAR", "::", u);
      assert "VAR" + "::" == "VAR::";
      Assoc("{", "VAR::", u);
      assert "{" + "VAR::" == "{VAR::";
      Assoc("{", Inner(p), "}");
    } else {
      assert Text(p)[1] == Inner(p)[0] == KindText(p.kind)[0];
    }
  }

  lemma NoBracketIn(p: Placeholder)
    ensures '[' !in p.name + BracketText(p.bracket) ==> p.bracket == Absent
  {
    var u := p.name + BracketText(p.bracket);
    if p.bracket != Absent { assert u[|p.name|] == '['; }
  }

  /** The text of a key is that of the placeholder with this name and no bracket part. */
  lemma VarTextOf(p: Placeholder, k: string)
    requires '[' !in k
    ensures Text(p) == VarText(k) <==> p.kind == VAR && p.bracket == Absent && p.name == k
  {
    VarTextShape(p);
    NoBracketIn(p);
    if p.kind == VAR {
      var u := p.name + BracketText(p.bracket);
      if Text(p) == VarText(k) { VarTextInjective(u, k); }
      if p.bracket == Absent { assert u == p.name; }
    } else {
      assert VarText(k)[1] == 'V';
    }
  }

  lemma {:induction false} KeyLoopHits(t: Template, order: seq<string>, vars: Vars)
    requires Clean(t) && IsOrderOf(order, vars.Keys) && forall k | k in vars :: '[' !in k
    ensures forall p | p in Refs(t) ::
              && (Text(p) in KeyValues(order, vars) <==> Bound(p, vars) && p.bracket == Absent)
              && (Text(p) in KeyValues(order, vars) ==> KeyValues(order, vars)[Text(p)] == vars[p.name])
  {
    KeyValuesOf(order, vars);
    forall p | p in Refs(t)
      ensures Text(p) in KeyValues(order, vars) <==> Bound(p, vars) && p.bracket == Absent
      ensures Text(p) in KeyValues(order, vars) ==> KeyValues(order, vars)[Text(p)] == vars[p.name]
    {
      CleanRef(t, p);
      if Text(p) in KeyValues(order, vars) {
        var k :| k in order && Text(p) == VarText(k);
        VarTextOf(p, k);
      }
      if Bound(p, vars) && p.bracket == Absent { VarTextOf(p, p.name); }
    }
  }

  predicate BracketedBound(p: Placeholder, vars: Vars) { Bound(p, vars) && p.bracket != Absent }

  /** The key loop binds fewer placeholders: those without a bracket part. */
  lemma {:induction false} CompareFillings(t: Template, values: map<string, string>, vars: Vars)
    requires Clean(t) && BraceFreeVars(vars)
    requires forall p | p in Refs(t) ::
               && (Text(p) in values <==> Bound(p, vars) && p.bracket == Absent)
               && (Text(p) in values ==> values[Text(p)] == vars[p.name])
    ensures |Refs(Bind(t, vars))| <= |Refs(Fill(t, values))|
    ensures if exists p :: p in Refs(t) && BracketedBound(p, vars)
            then |Refs(Bind(t, vars))| < |Refs(Fill(t, values))|
            else Bind(t, vars) == Fill(t, values)
  {
    match t
    case End =>
    case Lit(_, rest) => CompareFillings(rest, values, vars);
    case Ref(p, rest) =>
      assert p in Refs(t);
      assert forall q | q in Refs(rest) :: q in Refs(t);
      CompareFillings(rest, values, vars);
      if Bound(p, vars) {
        ScanBraceFree(vars[p.name]);
        RefsAppend(Scan(vars[p.name]), Bind(rest, vars));
        RefsAppend(Scan(vars[p.name]), Fill(rest, values));
      }
      assert (exists q :: q in Refs(t) && BracketedBound(q, vars))
        <==> BracketedBound(p, vars) || exists q :: q in Refs(rest) && BracketedBound(q, vars);
  }

  lemma {:induction false} BindClean(t: Template, vars: Vars)
    requires Clean(t) && BraceFreeVars(vars)
    ensures Clean(Bind(t, vars))
  {
    match t
    case End =>
    case Lit(_, rest) => BindClean(rest, vars);
    case Ref(p, rest) =>
      BindClean(rest, vars);
      if Bound(p, vars) {
        ScanBraceFree(vars[p.name]);
        CleanAppend(Scan(vars[p.name]), Bind(rest, vars));
      }
  }

  lemma KeyValuesBraceFree(order: seq<string>, vars: Vars)
    requires BraceFreeVars(vars) && forall k | k in order :: k in vars
    ensures WellFormedValues(KeyValues(order, vars))
  {
    KeyValuesOf(order, vars);
    forall t | t in KeyValues(order, vars) ensures WellFormed(KeyValues(order, vars)[t]) {
      var k :| k in order && t == VarText(k);
      ScanBraceFree(vars[k]);
    }
  }

  /** What both implementations compute, for every order of the keys. */
  lemma BothFill(template: string, order: seq<string>, vars: Vars)
    requires WellFormed(template) && BraceFreeVars(vars) && IsOrderOf(order, vars.Keys)
    ensures ReplaceFirsts(Refs(Scan(template)), template, vars) == Render(Bind(Scan(template), vars))
    ensures ReplaceKeys(order, template, vars) == Render(Fill(Scan(template), KeyValues(order, vars)))
    ensures Clean(Bind(Scan(template), vars)) && Clean(Fill(Scan(template), KeyValues(order, vars)))
  {
    var t := Scan(template);
    RenderScan(template);
    ScanLoopBinds(t, vars);
    KeyLoopFills(order, t, vars);
    BindClean(t, vars);
    KeyValuesBraceFree(order, vars);
    FillClean(t, KeyValues(order, vars));
  }

  /** The two implementations agree on a well-formed template, for every order of the keys,
      exactly when no VAR placeholder with a bracket part has its name bound. */
  lemma AgreeExactlyWhen(template: string, order: seq<string>, vars: Vars)
    requires WellFormed(template) && BraceFreeVars(vars) && (forall k | k in vars :: '[' !in k)
    requires IsOrderOf(order, vars.Keys)
    ensures ReplaceFirsts(Refs(Scan(template)), template, vars) == ReplaceKeys(order, template, vars)
       <==> !exists p :: p in Refs(Scan(template)) && BracketedBound(p, vars)
  {
    var t, values := Scan(template), KeyValues(order, vars);
    BothFill(template, order, vars);
    KeyLoopHits(t, order, vars);
    CompareFillings(t, values, vars);
    ScanClean(Bind(t, vars));
    ScanClean(Fill(t, values));
  }

  /** The key that the loop over the keys would need for the placeholder: its name and its
      bracket part. */
  function KeyText(p: Placeholder): string { p.name + BracketText(p.bracket) }

  /** Both implementations find a value for the placeholder, and the same one, or neither does. */
  predicate SameBinding(p: Placeholder, vars: Vars)
  {
    (p.name in vars <==> KeyText(p) in vars) && (p.name in vars ==> KeyText(p) in vars && vars[p.name] == vars[KeyText(p)])
  }

  lemma KeyTextOf(p: Placeholder, k: string)
    ensures Text(p) == VarText(k) <==> p.kind == VAR && KeyText(p) == k
  {
    VarTextShape(p);
    if p.kind == VAR {
      if Text(p) == VarText(k) { VarTextInjective(KeyText(p), k); }
    } else {
      assert VarText(k)[1] == 'V';
    }
  }

  lemma KeyTextBound(order: seq<string>, p: Placeholder, vars: Vars)
    requires IsOrderOf(order, vars.Keys)
    ensures Text(p) in KeyValues(order, vars) <==> p.kind == VAR && KeyText(p) in vars
    ensures Text(p) in KeyValues(order, vars) ==> KeyValues(order, vars)[Text(p)] == vars[KeyText(p)]
  {
    KeyValuesOf(order, vars);
    if Text(p) in KeyValues(order, vars) {
      var k :| k in order && Text(p) == VarText(k);
      KeyTextOf(p, k);
    }
    if p.kind == VAR && KeyText(p) in vars { KeyTextOf(p, KeyText(p)); }
  }

  lemma {:induction false} SameFillings(t: Template, order: seq<string>, vars: Vars)
    requires IsOrderOf(order, vars.Keys) && forall p | p in Refs(t) :: p.kind == VAR ==> SameBinding(p, vars)
    ensures Bind(t, vars) == Fill(t, KeyValues(order, vars))
  {
    match t
    case End =>
    case Lit(_, rest) => SameFillings(rest, order, vars);
    case Ref(p, rest) =>
      assert p in Refs(t);
      assert forall q | q in Refs(rest) :: q in Refs(t);
      SameFillings(rest, order, vars);
      KeyTextBound(order, p, vars);
  }

  /** They agree, for all brace-free keys, those with a bracket part among them, and values, where
      both find the same value for each VAR placeholder; and both leave every other placeholder,
      unknown VARs among them, as it is. */
  lemma AgreeWhenBoundAlike(template: string, order: seq<string>, vars: Vars)
    requires WellFormed(template) && BraceFreeVars(vars) && IsOrderOf(order, vars.Keys)
    requires forall p | p in Refs(Scan(template)) :: p.kind == VAR ==> SameBinding(p, vars)
    ensures ReplaceFirsts(Refs(Scan(template)), template, vars) == ReplaceKeys(order, template, vars)
    ensures Refs(Scan(ReplaceKeys(order, template, vars))) == Unbound(Refs(Scan(template)), vars)
  {
    var t := Scan(template);
    BothFill(template, order, vars);
    SameFillings(t, order, vars);
    ScanClean(Bind(t, vars));
    BindRefs(t, vars);
  }

  /** In particular where no VAR placeholder has a bracket part. */
  lemma AgreeWithoutBrackets(template: string, order: seq<string>, vars: Vars)
    requires WellFormed(template) && BraceFreeVars(vars) && IsOrderOf(order, vars.Keys)
    requires forall p | p in Refs(Scan(template)) :: p.kind == VAR ==> p.bracket == Absent
    ensures ReplaceFirsts(Refs(Scan(template)), template, vars) == ReplaceKeys(order, template, vars)
    ensures Refs(Scan(ReplaceKeys(order, template, vars))) == Unbound(Refs(Scan(template)), vars)
  {
    forall p | p in Refs(Scan(template)) && p.kind == VAR ensures SameBinding(p, vars) {
      assert p.bracket == Absent && KeyText(p) == p.name;
    }
    AgreeWhenBoundAlike(template, order, vars);
  }

  /** On a single placeholder, whatever the keys, they agree exactly when it is bound alike. */
  lemma AgreeOnOneExactlyWhen(p: Placeholder, order: seq<string>, vars: Vars)
    requires GoodPlaceholder(p) && BraceFree(Inner(p)) && BraceFreeVars(vars) && IsOrderOf(order, vars.Keys)
    ensures ReplaceFirsts(Refs(Scan(Text(p))), Text(p), vars) == ReplaceKeys(order, Text(p), vars)
       <==> (p.kind == VAR ==> SameBinding(p, vars))
  {
    var t := Ref(p, End);
    assert Clean(t) && Text(p) + "" == Text(p);
    ScanClean(t);
    BothFill(Text(p), order, vars);
    KeyTextBound(order, p, vars);
    if Bound(p, vars) { OneBound(p, vars[p.name]); }
    if Text(p) in KeyValues(order, vars) { OneBound(p, vars[KeyText(p)]); }
  }

  lemma OneBound(p: Placeholder, v: string)
    requires BraceFree(v)
    ensures Render(Append(Scan(v), End)) == v != Text(p)
  {
    RenderAppend(Scan(v), End);
    RenderScan(v);
    assert v + "" == v;
    assert v != "" ==> !IsBrace(v[0]);
  }

  function Unbound(matches: seq<Placeholder>, vars: Vars): seq<Placeholder>
  {
    if matches == [] then []
    else (if Bound(matches[0], vars) then [] else [matches[0]]) + Unbound(matches[1..], vars)
  }

  lemma {:induction false} BindRefs(t: Template, vars: Vars)
    requires BraceFreeVars(vars)
    ensures Refs(Bind(t, vars)) == Unbound(Refs(t), vars)
  {
    match t
    case End =>
    case Lit(_, rest) => BindRefs(rest, vars);
    case Ref(p, rest) =>
      BindRefs(rest, vars);
      assert Refs(t)[1..] == Refs(rest);
      if Bound(p, vars) {
        ScanBraceFree(vars[p.name]);
        RefsAppend(Scan(vars[p.name]), Bind(rest, vars));
        assert [] + Refs(Bind(rest, vars)) == Refs(Bind(rest, vars));
      }
  }
}
