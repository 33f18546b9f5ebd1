/** The automatic substitution at initialisation and the VAR substitution at use time commute. */
module PhaseOrder {
  import opened Placeholders
  import opened Templates
  import opened ParameterSubstitution
  import opened Expansion
  import opened Inflation
  import opened TemplateVars

  /** The VAR substitution of one line, as `templateVarSubstitution` computes it. */
  function VarSub(line: string, vars: Vars): string { ReplaceFirsts(Refs(Scan(line)), line, vars) }

  function VarSubLines(lines: Lines, vars: Vars): Lines { map j | j in lines :: VarSub(lines[j], vars) }

  /** No text that the automatic phase puts in contains a placeholder that the VAR phase binds.
      Brace-free text never does. */
  ghost predicate NoBoundOptions(scope: Scope, t: Template, vars: Vars)
  {
    forall p, v, q | p in Refs(t) && v in Options(scope, p) && q in Refs(Scan(v)) :: !Bound(q, vars)
  }

  lemma {:induction false} BindAppend(t: Template, u: Template, vars: Vars)
    ensures Bind(Append(t, u), vars) == Append(Bind(t, vars), Bind(u, vars))
  {
    match t
    case End =>
    case Lit(_, rest) => BindAppend(rest, u, vars);
    case Ref(p, rest) =>
      BindAppend(rest, u, vars);
      if Bound(p, vars) { AppendAssoc(Scan(vars[p.name]), Bind(rest, vars), Bind(u, vars)); }
  }

  lemma {:induction false} BindUntouched(t: Template, vars: Vars)
    requires forall p | p in Refs(t) :: !Bound(p, vars)
    ensures Bind(t, vars) == t
  {
    match t
    case End =>
    case Lit(_, rest) => BindUntouched(rest, vars);
    case Ref(p, rest) =>
      assert p in Refs(t);
      BindUntouched(rest, vars);
  }

  /** Filling and binding commute when neither touches what the other does. */
  lemma {:induction false} BindFill(t: Template, values: map<string, string>, vars: Vars)
    requires BraceFreeVars(vars)
    requires forall p | p in Refs(t) && Bound(p, vars) :: Text(p) !in values
    requires forall k, q | k in values && q in Refs(Scan(values[k])) :: !Bound(q, vars)
    ensures Bind(Fill(t, values), vars) == Fill(Bind(t, vars), values)
  {
    match t
    case End =>
    case Lit(_, rest) => BindFill(rest, values, vars);
    case Ref(p, rest) =>
      assert p in Refs(t);
      assert forall q | q in Refs(rest) :: q in Refs(t);
      BindFill(rest, values, vars);
      if Text(p) in values {
        BindAppend(Scan(values[Text(p)]), Fill(rest, values), vars);
        BindUntouched(Scan(values[Text(p)]), vars);
      } else if Bound(p, vars) {
        FillAppend(Scan(vars[p.name]), Bind(rest, vars), values);
        ScanBraceFree(vars[p.name]);
        FillUntouched(Scan(vars[p.name]), values);
      }
  }

  /** Binding removes no match of the automatic phase and adds none. */
  lemma {:induction false} BindActive(scope: Scope, t: Template, vars: Vars)
    requires BraceFreeVars(vars)
    ensures Active(scope, Refs(Bind(t, vars))) == Active(scope, Refs(t))
    ensures forall p | p in Refs(Bind(t, vars)) :: p in Refs(t)
  {
    match t
    case End =>
    case Lit(_, rest) => BindActive(scope, rest, vars);
    case Ref(p, rest) =>
      BindActive(scope, rest, vars);
      assert Refs(t)[1..] == Refs(rest);
      if Bound(p, vars) {
        ScanBraceFree(vars[p.name]);
        RefsAppend(Scan(vars[p.name]), Bind(rest, vars));
        assert PlanFor(scope, p) == Keep;
        assert [] + Refs(Bind(rest, vars)) == Refs(Bind(rest, vars));
        assert Active(scope, Refs(t)) == [] + Active(scope, Refs(rest));
      } else {
        assert Refs(Bind(t, vars))[1..] == Refs(Bind(rest, vars));
      }
  }

  lemma ChosenNotBound(scope: Scope, t: Template, matches: seq<Placeholder>, c: seq<string>, vars: Vars)
    requires NoBoundOptions(scope, t, vars) && forall p | p in matches :: p in Refs(t)
    requires c in Choices(scope, matches) && |c| == |matches|
    ensures forall k, q | k in Chosen(matches, c) && q in Refs(Scan(Chosen(matches, c)[k])) :: !Bound(q, vars)
  {
    forall k, q | k in Chosen(matches, c) && q in Refs(Scan(Chosen(matches, c)[k])) ensures !Bound(q, vars) {
      var p := ChosenFrom(scope, matches, c, k);
    }
  }

  lemma {:induction false} ActiveMember(scope: Scope, matches: seq<Placeholder>, q: Placeholder)
    requires q in Active(scope, matches)
    ensures q in matches && q.kind != VAR
  {
    if q !in Active(scope, matches[1..]) {
      assert q == matches[0];
    } else {
      ActiveMember(scope, matches[1..], q);
    }
  }

  lemma ChosenSkipsBound(scope: Scope, t: Template, c: seq<string>, p: Placeholder, vars: Vars)
    requires Clean(t) && |c| == |Active(scope, Refs(t))| && p in Refs(t) && Bound(p, vars)
    ensures Text(p) !in Chosen(Active(scope, Refs(t)), c)
  {
    var ms := Active(scope, Refs(t));
    ChosenKeys(ms, c);
    if Text(p) in Chosen(ms, c) {
      var i :| 0 <= i < |ms| && Text(ms[i]) == Text(p);
      ActiveMember(scope, Refs(t), ms[i]);
      CleanRef(t, p);
      CleanRef(t, ms[i]);
      TextInjective(p, ms[i]);
    }
  }

  /** Under each choice the line of the bound template is the line of the template, bound. */
  lemma LineCommutes(scope: Scope, t: Template, c: seq<string>, vars: Vars)
    requires Clean(t) && InertOptions(scope, t) && NoBoundOptions(scope, t, vars) && BraceFreeVars(vars)
    requires c in Choices(scope, Active(scope, Refs(t))) && |c| == |Active(scope, Refs(t))|
    ensures LineUnder(Bind(t, vars), Active(scope, Refs(t)), c) == VarSub(LineUnder(t, Active(scope, Refs(t)), c), vars)
  {
    var ms := Active(scope, Refs(t));
    var values := Chosen(ms, c);
    ActiveMembers(scope, Refs(t));
    FilledInert(scope, t, ms, c);
    ScanLoopBinds(Fill(t, values), vars);
    forall p | p in Refs(t) && Bound(p, vars) ensures Text(p) !in values {
      ChosenSkipsBound(scope, t, c, p, vars);
    }
    ChosenNotBound(scope, t, ms, c, vars);
    BindFill(t, values, vars);
  }

  lemma BoundTemplate(scope: Scope, template: string, vars: Vars)
    requires WellFormed(template) && BraceFreeVars(vars)
    ensures var t := Scan(template);
            Scan(VarSub(template, vars)) == Bind(t, vars) && WellFormed(VarSub(template, vars))
            && Matches(scope, VarSub(template, vars)) == Matches(scope, template)
  {
    var t := Scan(template);
    RenderScan(template);
    ScanLoopBinds(t, vars);
    BindClean(t, vars);
    ScanClean(Bind(t, vars));
    BindActive(scope, t, vars);
  }

  /** Substituting VAR first leaves a template that satisfies the same hypotheses. */
  lemma BoundHypotheses(scope: Scope, key: string, template: string, vars: Vars)
    requires WellFormed(template) && InertOptions(scope, Scan(template)) && NoBoundOptions(scope, Scan(template), vars)
    requires BraceFreeVars(vars) && CollisionFree(scope, key, template) && Resolvable(scope, template) && Named(scope, template)
    ensures var after := VarSub(template, vars);
            WellFormed(after) && InertOptions(scope, Scan(after)) && CollisionFree(scope, key, after)
            && Resolvable(scope, after) && Named(scope, after)
  {
    var t, ms := Scan(template), Matches(scope, template);
    BoundTemplate(scope, template, vars);
    BindActive(scope, t, vars);
    forall c, d | c in Choices(scope, ms) && d in Choices(scope, ms) && |c| == |ms| && |d| == |ms|
                  && KeyUnder(scope, key, ms, c) == KeyUnder(scope, key, ms, d)
      ensures LineUnder(Bind(t, vars), ms, c) == LineUnder(Bind(t, vars), ms, d)
    {
      LineCommutes(scope, t, c, vars);
      LineCommutes(scope, t, d, vars);
    }
  }

  lemma SameLine(scope: Scope, key: string, template: string, vars: Vars, lines: Lines, result: Lines, j: string)
    requires WellFormed(template) && InertOptions(scope, Scan(template)) && NoBoundOptions(scope, Scan(template), vars)
    requires BraceFreeVars(vars) && CollisionFree(scope, key, template)
    requires Expands(scope, key, Scan(template), Matches(scope, template), lines)
    requires Expands(scope, key, Bind(Scan(template), vars), Matches(scope, template), result)
    requires j in lines && j in result
    ensures result[j] == VarSub(lines[j], vars)
  {
    var t, ms := Scan(template), Matches(scope, template);
    assert ExpandsAt(scope, key, t, ms, j, lines[j]) && ExpandsAt(scope, key, Bind(t, vars), ms, j, result[j]);
    var d :| d in Choices(scope, ms) && |d| == |ms| && j == KeyUnder(scope, key, ms, d) && result[j] == LineUnder(Bind(t, vars), ms, d);
    LineCommutes(scope, t, d, vars);
    var c :| c in Choices(scope, ms) && |c| == |ms| && j == KeyUnder(scope, key, ms, c) && lines[j] == LineUnder(t, ms, c);
    assert LineUnder(t, ms, c) == LineUnder(t, ms, d);
  }

  lemma BothExpand(scope: Scope, key: string, template: string, vars: Vars, lines: Lines, result: Lines)
    requires WellFormed(template) && InertOptions(scope, Scan(template)) && BraceFreeVars(vars)
    requires InertOptions(scope, Scan(VarSub(template, vars)))
    requires Substitutes(scope, key, template, Success(lines))
    requires Substitutes(scope, key, VarSub(template, vars), Success(result))
    ensures Expands(scope, key, Scan(template), Matches(scope, template), lines)
    ensures Expands(scope, key, Bind(Scan(template), vars), Matches(scope, template), result)
    ensures lines.Keys == result.Keys
  {
    var after := VarSub(template, vars);
    BoundTemplate(scope, template, vars);
    InertLaterFree(scope, Scan(template));
    InertLaterFree(scope, Scan(after));
    Simultaneous(scope, key, template, lines);
    Simultaneous(scope, key, after, result);
    ResultKeys(scope, key, template, lines);
    ResultKeys(scope, key, after, result);
  }

  lemma LinesCommute(scope: Scope, key: string, template: string, vars: Vars, lines: Lines, result: Lines)
    requires WellFormed(template) && InertOptions(scope, Scan(template)) && NoBoundOptions(scope, Scan(template), vars)
    requires BraceFreeVars(vars) && CollisionFree(scope, key, template)
    requires InertOptions(scope, Scan(VarSub(template, vars)))
    requires Substitutes(scope, key, template, Success(lines))
    requires Substitutes(scope, key, VarSub(template, vars), Success(result))
    ensures result == VarSubLines(lines, vars)
  {
    BothExpand(scope, key, template, vars, lines, result);
    forall j | j in lines ensures result[j] == VarSub(lines[j], vars) {
      SameLine(scope, key, template, vars, lines, result, j);
    }
    AreVarSubLines(lines, vars, result);
  }

  lemma AreVarSubLines(lines: Lines, vars: Vars, result: Lines)
    requires lines.Keys == result.Keys && forall j | j in lines :: result[j] == VarSub(lines[j], vars)
    ensures result == VarSubLines(lines, vars)
  {
  }

  /** The two phases commute, inflation included: substituting VAR first and then expanding gives
      the same keys, and the same lines, as expanding and then substituting VAR in every line. */
  lemma PhasesCommute(scope: Scope, key: string, template: string, vars: Vars, lines: Lines, outcome: Outcome)
    requires WellFormed(template) && InertOptions(scope, Scan(template)) && NoBoundOptions(scope, Scan(template), vars)
    requires BraceFreeVars(vars) && CollisionFree(scope, key, template) && Resolvable(scope, template) && Named(scope, template)
    requires Substitutes(scope, key, template, Success(lines))
    requires Substitutes(scope, key, VarSub(template, vars), outcome)
    ensures outcome == Success(VarSubLines(lines, vars))
  {
    BoundHypotheses(scope, key, template, vars);
    FailsExactlyWhen(scope, key, VarSub(template, vars), outcome);
    LinesCommute(scope, key, template, vars, lines, outcome.lines);
  }
}
