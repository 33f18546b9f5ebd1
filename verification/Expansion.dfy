/** What `parameterSubstitute` means: one simultaneous substitution for every choice of values. */
module Expansion {
  import opened GoStrings
  import opened Placeholders
  import opened Templates
  import opened ParameterSubstitution

  /** The texts a match can turn into. */
  function Options(scope: Scope, p: Placeholder): set<string>
  {
    match PlanFor(scope, p)
    case Insert(text) => {text}
    case Inflate(texts) => texts
    case _ => {}
  }

  /** The matches that are substituted in this scope, in order, repetitions included. */
  function Active(scope: Scope, matches: seq<Placeholder>): seq<Placeholder>
  {
    if matches == [] then []
    else (if PlanFor(scope, matches[0]).Keep? then [] else [matches[0]]) + Active(scope, matches[1..])
  }

  /** All ways to choose one option for each of the matches. */
  function Choices(scope: Scope, matches: seq<Placeholder>): set<seq<string>>
  {
    if matches == [] then {[]}
    else
      var n := |matches| - 1;
      Extended(Choices(scope, matches[..n]), Options(scope, matches[n]))
  }

  function Extended(choices: set<seq<string>>, options: set<string>): set<seq<string>>
  {
    set c, v | c in choices && v in options :: c + [v]
  }

  /** The key of the line under a choice: one suffix for each inflating match. */
  function KeyUnder(scope: Scope, key: string, matches: seq<Placeholder>, choice: seq<string>): string
    requires |choice| == |matches|
  {
    if matches == [] then key
    else
      var n := |matches| - 1;
      var k := KeyUnder(scope, key, matches[..n], choice[..n]);
      if PlanFor(scope, matches[n]).Inflate? then k + "-" + choice[n] else k
  }

  /** The value of each placeholder under a choice: that of its first match. */
  function Chosen(matches: seq<Placeholder>, choice: seq<string>): map<string, string>
    requires |choice| == |matches|
  {
    if matches == [] then map[]
    else
      var n := |matches| - 1;
      map[Text(matches[n]) := choice[n]] + Chosen(matches[..n], choice[..n])
  }

  function LineUnder(t: Template, matches: seq<Placeholder>, choice: seq<string>): string
    requires |choice| == |matches|
  {
    Render(Fill(t, Chosen(matches, choice)))
  }

  /** `lines` holds, under the keys of the choices, the template filled simultaneously. */
  ghost predicate Expands(scope: Scope, key: string, t: Template, matches: seq<Placeholder>, lines: Lines)
  {
    && (forall c | c in Choices(scope, matches) :: |c| == |matches| && KeyUnder(scope, key, matches, c) in lines)
    && forall j | j in lines :: ExpandsAt(scope, key, t, matches, j, lines[j])
  }

  ghost predicate ExpandsAt(scope: Scope, key: string, t: Template, matches: seq<Placeholder>, j: string, line: string)
  {
    exists c :: c in Choices(scope, matches) && |c| == |matches|
                && j == KeyUnder(scope, key, matches, c) && line == LineUnder(t, matches, c)
  }

  /** Text that substitution leaves alone: well formed, with no automatic placeholder. */
  ghost predicate Inert(scope: Scope, s: string)
  {
    WellFormed(s) && forall p | p in Refs(Scan(s)) :: !Automatic(scope, p)
  }

  /** Every text that may be put into the template is inert. Brace-free text always is. */
  ghost predicate InertOptions(scope: Scope, t: Template)
  {
    forall p, v | p in Refs(t) && v in Options(scope, p) :: Inert(scope, v)
  }

  /** The texts put in for `q` are well formed and do not contain the placeholder `p`. */
  ghost predicate FreeOf(scope: Scope, q: Placeholder, p: Placeholder)
  {
    forall v | v in Options(scope, q) :: WellFormed(v) && forall r | r in Refs(Scan(v)) :: Text(r) != Text(p)
  }

  /** No text put in for a match contains a later match. */
  ghost predicate LaterFree(scope: Scope, matches: seq<Placeholder>)
  {
    forall i, j | 0 <= i < j < |matches| :: FreeOf(scope, matches[i], matches[j])
  }

  lemma BraceFreeIsInert(scope: Scope, s: string)
    requires BraceFree(s)
    ensures Inert(scope, s)
  {
    ScanBraceFree(s);
  }

  // ------------------------------------------------------------ one match

  lemma {:induction false} ChoiceLength(scope: Scope, matches: seq<Placeholder>, c: seq<string>)
    requires c in Choices(scope, matches)
    ensures |c| == |matches|
  {
    if matches != [] {
      var n := |matches| - 1;
      var d, v :| d in Choices(scope, matches[..n]) && v in Options(scope, matches[n]) && c == d + [v];
      ChoiceLength(scope, matches[..n], d);
    }
  }

  /** A choice for one more match. */
  lemma ChoiceSnoc(scope: Scope, key: string, t: Template, matches: seq<Placeholder>, p: Placeholder, c: seq<string>, v: string)
    requires |c| == |matches|
    ensures c in Choices(scope, matches) && v in Options(scope, p) ==> c + [v] in Choices(scope, matches + [p])
    ensures KeyUnder(scope, key, matches + [p], c + [v])
         == if PlanFor(scope, p).Inflate? then KeyUnder(scope, key, matches, c) + "-" + v else KeyUnder(scope, key, matches, c)
    ensures Chosen(matches + [p], c + [v]) == map[Text(p) := v] + Chosen(matches, c)
  {
    assert (matches + [p])[..|matches|] == matches && (c + [v])[..|c|] == c;
  }

  lemma ChoiceSplit(scope: Scope, matches: seq<Placeholder>, p: Placeholder, e: seq<string>) returns (c: seq<string>, v: string)
    requires e in Choices(scope, matches + [p])
    ensures c in Choices(scope, matches) && |c| == |matches| && v in Options(scope, p) && e == c + [v]
  {
    assert (matches + [p])[..|matches|] == matches;
    c, v :| c in Choices(scope, matches) && v in Options(scope, p) && e == c + [v];
    ChoiceLength(scope, matches, c);
  }

  /** Each value under a choice is an option of the match it belongs to. */
  lemma {:induction false} ChosenFrom(scope: Scope, matches: seq<Placeholder>, c: seq<string>, k: string) returns (p: Placeholder)
    requires c in Choices(scope, matches) && |c| == |matches| && k in Chosen(matches, c)
    ensures p in matches && Text(p) == k && Chosen(matches, c)[k] in Options(scope, p)
    decreases |matches|
  {
    var front, last := Unsnoc(matches);
    var d, v := ChoiceSplit(scope, front, last, c);
    ChosenSnoc(front, last, d, v, k);
    if k in Chosen(front, d) {
      p := ChosenFrom(scope, front, d, k);
    } else {
      p := last;
    }
  }

  lemma Unsnoc(matches: seq<Placeholder>) returns (front: seq<Placeholder>, last: Placeholder)
    requires matches != []
    ensures matches == front + [last] && |front| < |matches|
  {
    front, last := matches[..|matches| - 1], matches[|matches| - 1];
  }

  lemma ChosenSnoc(matches: seq<Placeholder>, p: Placeholder, c: seq<string>, v: string, k: string)
    requires |c| == |matches| && k in Chosen(matches + [p], c + [v])
    ensures var value := Chosen(matches + [p], c + [v])[k];
            if k in Chosen(matches, c) then value == Chosen(matches, c)[k] else k == Text(p) && value == v
  {
    assert (matches + [p])[..|matches|] == matches && (c + [v])[..|c|] == c;
  }

  lemma {:induction false} ChosenHas(matches: seq<Placeholder>, c: seq<string>, p: Placeholder)
    requires |c| == |matches| && p in matches
    ensures Text(p) in Chosen(matches, c)
  {
    var n := |matches| - 1;
    assert matches == matches[..n] + [matches[n]];
    if p != matches[n] { ChosenHas(matches[..n], c[..n], p); }
  }

  /** The values under a choice are inert. */
  lemma ChosenInert(scope: Scope, matches: seq<Placeholder>, c: seq<string>)
    requires c in Choices(scope, matches) && |c| == |matches|
    requires forall p, v | p in matches && v in Options(scope, p) :: Inert(scope, v)
    ensures forall k | k in Chosen(matches, c) :: Inert(scope, Chosen(matches, c)[k])
  {
    forall k | k in Chosen(matches, c) ensures Inert(scope, Chosen(matches, c)[k]) {
      var p := ChosenFrom(scope, matches, c, k);
    }
  }

  lemma OtherText(scope: Scope, t: Template, p: Placeholder, u: Template, r: Placeholder)
    requires Clean(t) && p in Refs(t) && !PlanFor(scope, p).Keep?
    requires Clean(u) && r in Refs(u) && !Automatic(scope, r)
    ensures Text(r) != Text(p)
  {
    CleanRef(t, p);
    CleanRef(u, r);
    if Text(r) == Text(p) { TextInjective(p, r); }
  }

  lemma InertFreeOf(scope: Scope, t: Template, q: Placeholder, p: Placeholder)
    requires Clean(t) && InertOptions(scope, t) && q in Refs(t) && p in Refs(t) && !PlanFor(scope, p).Keep?
    ensures FreeOf(scope, q, p)
  {
    forall v | v in Options(scope, q) ensures WellFormed(v) && forall r | r in Refs(Scan(v)) :: Text(r) != Text(p) {
      assert Inert(scope, v);
      forall r | r in Refs(Scan(v)) ensures Text(r) != Text(p) {
        OtherText(scope, t, p, Scan(v), r);
      }
    }
  }

  lemma {:induction false} ActiveFrom(scope: Scope, matches: seq<Placeholder>, p: Placeholder)
    requires p in Active(scope, matches)
    ensures p in matches && !PlanFor(scope, p).Keep?
  {
    if p !in Active(scope, matches[1..]) {
      assert p == matches[0];
    } else {
      ActiveFrom(scope, matches[1..], p);
    }
  }

  /** Inert texts contain no match at all. */
  lemma InertLaterFree(scope: Scope, t: Template)
    requires Clean(t) && InertOptions(scope, t)
    ensures LaterFree(scope, Active(scope, Refs(t)))
  {
    var ms := Active(scope, Refs(t));
    forall i, j | 0 <= i < j < |ms| ensures FreeOf(scope, ms[i], ms[j]) {
      ActiveFrom(scope, Refs(t), ms[i]);
      ActiveFrom(scope, Refs(t), ms[j]);
      InertFreeOf(scope, t, ms[i], ms[j]);
    }
  }

  /** The values under a choice contain no placeholder that is free of them. */
  lemma ChosenFreeOf(scope: Scope, matches: seq<Placeholder>, c: seq<string>, p: Placeholder, v: string)
    requires c in Choices(scope, matches) && |c| == |matches| && forall q | q in matches :: FreeOf(scope, q, p)
    ensures WellFormedValues(Chosen(matches, c)) && Independent(Chosen(matches, c), map[Text(p) := v])
  {
    var values := Chosen(matches, c);
    forall k | k in values ensures WellFormed(values[k]) && forall r | r in Refs(Scan(values[k])) :: Text(r) != Text(p) {
      var q := ChosenFrom(scope, matches, c, k);
    }
  }

  /** Replacing one more placeholder in a filled template. */
  lemma ReplaceInFilled(t: Template, values: map<string, string>, p: Placeholder, v: string)
    requires Clean(t) && p in Refs(t) && WellFormedValues(values) && Independent(values, map[Text(p) := v])
    ensures ReplaceAll(Render(Fill(t, values)), Text(p), v) == Render(Fill(t, map[Text(p) := v] + values))
  {
    CleanRef(t, p);
    FillClean(t, values);
    ReplaceIsFill(Fill(t, values), Text(p), v);
    FillFill(t, values, map[Text(p) := v]);
  }

  /** Replacing one more match in a line that is filled under a choice. */
  lemma LineStep(scope: Scope, t: Template, matches: seq<Placeholder>, p: Placeholder, c: seq<string>, v: string)
    requires Clean(t) && p in Refs(t) && forall q | q in matches :: FreeOf(scope, q, p)
    requires c in Choices(scope, matches) && |c| == |matches|
    ensures ReplaceAll(LineUnder(t, matches, c), Text(p), v) == LineUnder(t, matches + [p], c + [v])
  {
    ChosenFreeOf(scope, matches, c, p, v);
    ReplaceInFilled(t, Chosen(matches, c), p, v);
    ChoiceSnoc(scope, "", t, matches, p, c, v);
  }

  /** The key of every longer choice is present after the step. */
  lemma StepHasKey(scope: Scope, key: string, t: Template, matches: seq<Placeholder>, p: Placeholder, lines: Lines,
                   next: Lines, e: seq<string>)
    requires !PlanFor(scope, p).Keep? && Expands(scope, key, t, matches, lines) && MatchStep(scope, p, lines, Success(next))
    requires e in Choices(scope, matches + [p])
    ensures |e| == |matches + [p]| && KeyUnder(scope, key, matches + [p], e) in next
  {
    var c, v := ChoiceSplit(scope, matches, p, e);
    ChoiceSnoc(scope, key, t, matches, p, c, v);
    assert KeyUnder(scope, key, matches, c) in lines;
    if PlanFor(scope, p).Inflate? { InflatedLines(lines, Text(p), PlanFor(scope, p).texts, next); }
  }

  /** Every line after the step is the template filled under a longer choice. */
  lemma StepLine(scope: Scope, key: string, t: Template, matches: seq<Placeholder>, p: Placeholder, lines: Lines, next: Lines, j: string)
    requires Clean(t) && p in Refs(t) && !PlanFor(scope, p).Keep? && forall q | q in matches :: FreeOf(scope, q, p)
    requires Expands(scope, key, t, matches, lines) && MatchStep(scope, p, lines, Success(next)) && j in next
    ensures ExpandsAt(scope, key, t, matches + [p], j, next[j])
  {
    var k, v := Origin(scope, p, lines, next, j);
    var c := ChoiceAt(scope, key, t, matches, k, lines[k]);
    LineStep(scope, t, matches, p, c, v);
    ExpandsLonger(scope, key, t, matches, p, c, v);
  }

  lemma ChoiceAt(scope: Scope, key: string, t: Template, matches: seq<Placeholder>, k: string, line: string) returns (c: seq<string>)
    requires ExpandsAt(scope, key, t, matches, k, line)
    ensures c in Choices(scope, matches) && |c| == |matches|
    ensures k == KeyUnder(scope, key, matches, c) && line == LineUnder(t, matches, c)
  {
    c :| c in Choices(scope, matches) && |c| == |matches|
         && k == KeyUnder(scope, key, matches, c) && line == LineUnder(t, matches, c);
  }

  lemma ExpandsLonger(scope: Scope, key: string, t: Template, matches: seq<Placeholder>, p: Placeholder, c: seq<string>, v: string)
    requires c in Choices(scope, matches) && |c| == |matches| && v in Options(scope, p)
    ensures var k := KeyUnder(scope, key, matches, c);
            ExpandsAt(scope, key, t, matches + [p], if PlanFor(scope, p).Inflate? then k + "-" + v else k,
                      LineUnder(t, matches + [p], c + [v]))
  {
    ChoiceSnoc(scope, key, t, matches, p, c, v);
    assert c + [v] in Choices(scope, matches + [p]);
  }

  /** Treating one more match keeps the lines an expansion. */
  lemma MatchStepExpands(scope: Scope, key: string, t: Template, matches: seq<Placeholder>, p: Placeholder, lines: Lines, next: Lines)
    requires Clean(t) && p in Refs(t) && !PlanFor(scope, p).Keep? && forall q | q in matches :: FreeOf(scope, q, p)
    requires Expands(scope, key, t, matches, lines)
    requires MatchStep(scope, p, lines, Success(next))
    ensures Expands(scope, key, t, matches + [p], next)
  {
    forall e | e in Choices(scope, matches + [p])
      ensures |e| == |matches + [p]| && KeyUnder(scope, key, matches + [p], e) in next
    {
      StepHasKey(scope, key, t, matches, p, lines, next, e);
    }
    forall j | j in next ensures ExpandsAt(scope, key, t, matches + [p], j, next[j]) {
      StepLine(scope, key, t, matches, p, lines, next, j);
    }
  }

  /** The line and the option that a line after the step comes from. */
  lemma Origin(scope: Scope, p: Placeholder, lines: Lines, next: Lines, j: string) returns (k: string, v: string)
    requires !PlanFor(scope, p).Keep? && MatchStep(scope, p, lines, Success(next)) && j in next
    ensures k in lines && v in Options(scope, p) && next[j] == ReplaceAll(lines[k], Text(p), v)
    ensures j == if PlanFor(scope, p).Inflate? then k + "-" + v else k
  {
    match PlanFor(scope, p)
    case Insert(text) => k, v := j, text;
    case Inflate(texts) =>
      InflatedLines(lines, Text(p), texts, next);
      k, v :| k in lines && v in texts && j == k + "-" + v && next[j] == ReplaceAll(lines[k], Text(p), v);
    case _ => k, v := "", ""; assert false;
  }

  // ------------------------------------------------------------ all matches

  lemma StartExpands(scope: Scope, key: string, template: string)
    ensures Expands(scope, key, Scan(template), [], map[key := template])
  {
    var t := Scan(template);
    RenderScan(template);
    FillUntouched(t, map[]);
    assert Choices(scope, []) == {[]};
    assert LineUnder(t, [], []) == template;
    assert [] in Choices(scope, []) && ExpandsAt(scope, key, t, [], key, template);
  }

  lemma FirstStep(scope: Scope, matches: seq<Placeholder>, lines: Lines, result: Lines) returns (next: Lines)
    requires matches != [] && Rewrites(scope, matches, lines, Success(result))
    ensures MatchStep(scope, matches[0], lines, Success(next)) && Rewrites(scope, matches[1..], next, Success(result))
  {
    var mid :| MatchStep(scope, matches[0], lines, mid) && Continues(scope, matches[1..], mid, Success(result));
    next := mid.lines;
  }

  lemma ActiveSplit(scope: Scope, done: seq<Placeholder>, matches: seq<Placeholder>)
    requires matches != []
    ensures done + Active(scope, matches)
         == (if PlanFor(scope, matches[0]).Keep? then done else done + [matches[0]]) + Active(scope, matches[1..])
  {
    var p, tail := matches[0], Active(scope, matches[1..]);
    if PlanFor(scope, p).Keep? {
      assert [] + tail == tail;
    } else {
      Regroup(done, p, tail);
    }
  }

  lemma Regroup(a: seq<Placeholder>, p: Placeholder, b: seq<Placeholder>)
    ensures a + ([p] + b) == a + [p] + b
  {
  }

  lemma FreeOfNext(scope: Scope, done: seq<Placeholder>, p: Placeholder, later: seq<Placeholder>)
    requires LaterFree(scope, done + [p] + later)
    ensures forall q | q in done :: FreeOf(scope, q, p)
  {
    var ms := done + [p] + later;
    forall q | q in done ensures FreeOf(scope, q, p) {
      var i :| 0 <= i < |done| && done[i] == q;
      assert ms[i] == q && ms[|done|] == p;
    }
  }

  lemma {:induction false} RewritesExpands(scope: Scope, key: string, t: Template, done: seq<Placeholder>,
                                           matches: seq<Placeholder>, lines: Lines, result: Lines)
    requires Clean(t) && LaterFree(scope, done + Active(scope, matches)) && forall q | q in matches :: q in Refs(t)
    requires Expands(scope, key, t, done, lines)
    requires Rewrites(scope, matches, lines, Success(result))
    ensures Expands(scope, key, t, done + Active(scope, matches), result)
    decreases |matches|
  {
    if matches == [] {
      assert done + Active(scope, matches) == done;
    } else {
      var p, later := matches[0], matches[1..];
      var next := FirstStep(scope, matches, lines, result);
      ActiveSplit(scope, done, matches);
      if PlanFor(scope, p).Keep? {
        RewritesExpands(scope, key, t, done, later, lines, result);
      } else {
        FreeOfNext(scope, done, p, Active(scope, later));
        MatchStepExpands(scope, key, t, done, p, lines, next);
        RewritesExpands(scope, key, t, done + [p], later, next, result);
      }
    }
  }

  /** The sequential rewriting equals one simultaneous substitution: for every well-formed
      template whose values do not contain a later match, the result has exactly the keys of the
      choices, and each of its lines is the template filled under a choice with that key. */
  lemma Simultaneous(scope: Scope, key: string, template: string, lines: Lines)
    requires WellFormed(template) && LaterFree(scope, Active(scope, Refs(Scan(template))))
    requires Substitutes(scope, key, template, Success(lines))
    ensures Expands(scope, key, Scan(template), Active(scope, Refs(Scan(template))), lines)
  {
    var t := Scan(template);
    StartExpands(scope, key, template);
    assert [] + Active(scope, Refs(t)) == Active(scope, Refs(t));
    RewritesExpands(scope, key, t, [], Refs(t), map[key := template], lines);
  }
}
