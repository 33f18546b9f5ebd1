/** What remains in a template after substitution, and which text may be put in. */
module Completeness {
  import opened GoStrings
  import opened Placeholders
  import opened Templates
  import opened EmbeddedVars
  import opened ParameterSubstitution
  import opened Expansion
  import opened Inflation

  // ------------------------------------------------------------ one template

  /** The placeholders that this scope does not substitute, in order. */
  function Kept(scope: Scope, matches: seq<Placeholder>): seq<Placeholder>
  {
    if matches == [] then []
    else (if Automatic(scope, matches[0]) then [] else [matches[0]]) + Kept(scope, matches[1..])
  }

  /** The placeholders of the given kinds, in order. */
  function OfKinds(kinds: set<VarKind>, matches: seq<Placeholder>): seq<Placeholder>
  {
    if matches == [] then []
    else (if matches[0].kind in kinds then [matches[0]] else []) + OfKinds(kinds, matches[1..])
  }

  /** What is kept: VAR always, ATTR where attributes may not be used. */
  lemma {:induction false} KeptOfKinds(scope: Scope, matches: seq<Placeholder>)
    ensures Kept(scope, matches) == OfKinds(if scope.allowAttributes then {VAR} else {ATTR, VAR}, matches)
  {
    if matches != [] { KeptOfKinds(scope, matches[1..]); }
  }

  ghost predicate BraceFreeOptions(scope: Scope, t: Template)
  {
    forall p, v | p in Refs(t) && v in Options(scope, p) :: BraceFree(v)
  }

  lemma {:induction false} FillKeeps(scope: Scope, t: Template, values: map<string, string>)
    requires forall p | p in Refs(t) :: Automatic(scope, p) <==> Text(p) in values
    requires forall k | k in values :: BraceFree(values[k])
    ensures Refs(Fill(t, values)) == Kept(scope, Refs(t))
  {
    match t
    case End =>
    case Lit(_, rest) => FillKeeps(scope, rest, values);
    case Ref(p, rest) =>
      assert p in Refs(t);
      assert Refs(t)[1..] == Refs(rest);
      FillKeeps(scope, rest, values);
      if Text(p) in values {
        RefsAppend(Scan(values[Text(p)]), Fill(rest, values));
        ScanBraceFree(values[Text(p)]);
      }
  }

  lemma ChosenBraceFree(scope: Scope, matches: seq<Placeholder>, c: seq<string>)
    requires c in Choices(scope, matches) && |c| == |matches|
    requires forall p, v | p in matches && v in Options(scope, p) :: BraceFree(v)
    ensures forall k | k in Chosen(matches, c) :: BraceFree(Chosen(matches, c)[k])
  {
    forall k | k in Chosen(matches, c) ensures BraceFree(Chosen(matches, c)[k]) {
      var p := ChosenFrom(scope, matches, c, k);
    }
  }

  lemma LineKeeps(scope: Scope, t: Template, ms: seq<Placeholder>, c: seq<string>)
    requires Clean(t) && InertOptions(scope, t) && BraceFreeOptions(scope, t) && ms == Active(scope, Refs(t))
    requires c in Choices(scope, ms) && |c| == |ms|
    ensures Refs(Fill(t, Chosen(ms, c))) == Kept(scope, Refs(t))
  {
    ActiveMembers(scope, Refs(t));
    ChosenBraceFree(scope, ms, c);
    forall p | p in Refs(t) ensures Automatic(scope, p) <==> Text(p) in Chosen(ms, c) {
      AutomaticIsActive(scope, p);
      if p in ms { ChosenHas(ms, c, p); }
      if Text(p) in Chosen(ms, c) {
        var q := ChosenFrom(scope, ms, c, Text(p));
        CleanRef(t, p);
        CleanRef(t, q);
        TextInjective(p, q);
      }
    }
    FillKeeps(scope, t, Chosen(ms, c));
  }

  /** A line of the template, with the key and the text of one choice, in which exactly the
      placeholders remain that the scope does not substitute. */
  ghost predicate LineOf(scope: Scope, key: string, template: string, j: string, line: string)
  {
    && ExpandsAt(scope, key, Scan(template), Matches(scope, template), j, line)
    && WellFormed(line) && Refs(Scan(line)) == Kept(scope, Refs(Scan(template)))
  }

  lemma ChoiceKeeps(scope: Scope, key: string, template: string, j: string, line: string)
    requires WellFormed(template) && BraceFreeOptions(scope, Scan(template))
    requires ExpandsAt(scope, key, Scan(template), Matches(scope, template), j, line)
    ensures LineOf(scope, key, template, j, line)
  {
    var t, ms := Scan(template), Matches(scope, template);
    BraceFreeInert(scope, t);
    var c := ChoiceAt(scope, key, t, ms, j, line);
    FilledInert(scope, t, ms, c);
    LineKeeps(scope, t, ms, c);
  }

  /** In every line produced no placeholder of the scope remains, and all others survive
      verbatim, in order. */
  lemma OnlyKeptRemain(scope: Scope, key: string, template: string, lines: Lines, j: string)
    requires WellFormed(template) && BraceFreeOptions(scope, Scan(template))
    requires Substitutes(scope, key, template, Success(lines)) && j in lines
    ensures LineOf(scope, key, template, j, lines[j])
  {
    var t := Scan(template);
    BraceFreeInert(scope, t);
    InertLaterFree(scope, t);
    Simultaneous(scope, key, template, lines);
    ChoiceKeeps(scope, key, template, j, lines[j]);
  }

  lemma DashBraceFree(a: string, b: string)
    requires BraceFree(a) && BraceFree(b)
    ensures BraceFree(a + "-" + b)
  {
  }

  /** With brace-free values a brace-free key stays brace-free. */
  lemma {:induction false} KeyBraceFree(scope: Scope, key: string, matches: seq<Placeholder>, c: seq<string>)
    requires c in Choices(scope, matches) && |c| == |matches| && BraceFree(key)
    requires forall p, v | p in matches && v in Options(scope, p) :: BraceFree(v)
    ensures BraceFree(KeyUnder(scope, key, matches, c))
    decreases |matches|
  {
    if matches != [] {
      var front, last := Unsnoc(matches);
      var d, v := ChoiceSplit(scope, front, last, c);
      assert last in matches && forall p | p in front :: p in matches;
      KeyBraceFree(scope, key, front, d);
      ChoiceSnoc(scope, key, End, front, last, d, v);
      DashBraceFree(KeyUnder(scope, key, front, d), v);
    }
  }

  lemma LineKeyBraceFree(scope: Scope, key: string, template: string, j: string, line: string)
    requires BraceFreeOptions(scope, Scan(template)) && LineOf(scope, key, template, j, line) && BraceFree(key)
    ensures BraceFree(j)
  {
    var ms := Matches(scope, template);
    var c := ChoiceAt(scope, key, Scan(template), ms, j, line);
    ActiveMembers(scope, Refs(Scan(template)));
    KeyBraceFree(scope, key, ms, c);
  }

  lemma BraceFreeInert(scope: Scope, t: Template)
    requires BraceFreeOptions(scope, t)
    ensures InertOptions(scope, t)
  {
    forall p, v | p in Refs(t) && v in Options(scope, p) ensures Inert(scope, v) {
      BraceFreeIsInert(scope, v);
    }
  }

  lemma {:induction false} NoRefsBraceFree(t: Template)
    requires Clean(t) && Refs(t) == []
    ensures BraceFree(Render(t))
  {
    match t
    case End =>
    case Lit(_, rest) => NoRefsBraceFree(rest);
  }

  lemma {:induction false} KeptMembers(scope: Scope, matches: seq<Placeholder>)
    ensures forall p :: p in Kept(scope, matches) <==> p in matches && !Automatic(scope, p)
  {
    if matches != [] { KeptMembers(scope, matches[1..]); }
  }

  lemma {:induction false} NamedNeverFails(scope: Scope, matches: seq<Placeholder>, lines: Lines)
    requires forall p | p in matches :: !PlanFor(scope, p).Unknown?
    ensures !Rewrites(scope, matches, lines, Failure)
  {
    if matches != [] && Rewrites(scope, matches, lines, Failure) {
      var mid :| MatchStep(scope, matches[0], lines, mid) && Continues(scope, matches[1..], mid, Failure);
      assert matches[0] in matches;
      if mid.Success? { NamedNeverFails(scope, matches[1..], mid.lines); }
    }
  }

  // ------------------------------------------------------------ values that may be put in

  lemma {:induction false} JoinBraceFree(parts: seq<string>)
    requires forall s | s in parts :: BraceFree(s)
    ensures BraceFree(Join(parts, ','))
  {
    if |parts| > 1 {
      assert forall s | s in parts[1..] :: s in parts;
      JoinBraceFree(parts[1..]);
      assert parts[0] in parts;
    } else if |parts| == 1 {
      assert parts[0] in parts;
    }
  }

  lemma {:induction false} SplitBraceFree(s: string)
    requires BraceFree(s)
    ensures forall f | f in Split(s, ',') :: BraceFree(f)
  {
    if s != "" {
      assert !IsBrace(s[0]);
      SplitBraceFree(s[1..]);
      var rest := Split(s[1..], ',');
      assert rest[0] in rest;
    }
  }

  lemma {:induction false} ShowAllMembers(scope: Scope, vs: seq<Value>)
    ensures forall s | s in ShowAll(scope, vs) :: exists v :: v in vs && s == Show(scope, v)
  {
    if vs != [] {
      ShowAllMembers(scope, vs[1..]);
      assert vs[0] in vs && forall v | v in vs[1..] :: v in vs;
    }
  }

  /** Strings, scalars, and the keys of nested maps, have no brace. */
  ghost predicate PlainValue(v: Value)
  {
    match v
    case Str(s) => BraceFree(s)
    case Scalar(shown) => BraceFree(shown)
    case List(elems) => forall i | 0 <= i < |elems| :: PlainValue(elems[i])
    case Map(entries) => forall k | k in entries :: BraceFree(k) && PlainValue(entries[k])
  }

  /** The values of an attribute map are plain; its own keys may be any. */
  ghost predicate PlainMap(m: map<string, Value>)
  {
    forall k | k in m :: PlainValue(m[k])
  }

  /** `%v` shows plain lists and maps without a brace. */
  ghost predicate ShowsBraceFree(composite: Value -> string)
  {
    forall v | PlainValue(v) :: BraceFree(composite(v))
  }

  /** The character is in a string, a scalar or the key of a map somewhere in the value. */
  ghost predicate Occurs(v: Value, c: char)
  {
    match v
    case Str(s) => c in s
    case Scalar(shown) => c in shown
    case List(elems) => exists i :: 0 <= i < |elems| && Occurs(elems[i], c)
    case Map(entries) => exists k :: k in entries && (c in k || Occurs(entries[k], c))
  }

  /** What `fmt` does: it prints the parts, with the characters of "map[", ":", " " and "]". */
  ghost predicate AddsPunctuation(composite: Value -> string)
  {
    forall v, c | c in composite(v) :: c in "map[]: " || Occurs(v, c)
  }

  lemma {:induction false} PlainOccurs(v: Value, c: char)
    requires PlainValue(v) && Occurs(v, c)
    ensures !IsBrace(c)
  {
    match v
    case Str(_) =>
    case Scalar(_) =>
    case List(elems) =>
      var i :| 0 <= i < |elems| && Occurs(elems[i], c);
      PlainOccurs(elems[i], c);
    case Map(entries) =>
      var k :| k in entries && (c in k || Occurs(entries[k], c));
      if c !in k { PlainOccurs(entries[k], c); }
  }

  /** So the text of a plain value, keys of nested maps included, has no brace. */
  lemma PunctuationIsBraceFree(composite: Value -> string)
    requires AddsPunctuation(composite)
    ensures ShowsBraceFree(composite)
  {
    forall v, i | PlainValue(v) && 0 <= i < |composite(v)| ensures !IsBrace(composite(v)[i]) {
      var c := composite(v)[i];
      assert c in composite(v);
      if c !in "map[]: " { PlainOccurs(v, c); }
    }
  }

  /** A scope all of whose values are brace-free as shown. Without attributes only the
      environment matters. */
  ghost predicate BraceFreeScope(scope: Scope)
  {
    && (forall x :: BraceFree(scope.env(x)))
    && (scope.allowAttributes ==> PlainMap(scope.attributes) && ShowsBraceFree(scope.composite))
  }

  lemma FieldsBraceFree(scope: Scope, ev: EmbeddedVar, fields: seq<string>)
    requires forall f | f in fields :: BraceFree(f)
    ensures var plan := PlanForValue(scope, ev, List(Strings(fields)));
            (plan.Insert? ==> BraceFree(plan.text)) && (plan.Inflate? ==> forall t | t in plan.texts :: BraceFree(t))
  {
    ShowAllMembers(scope, Strings(fields));
    JoinBraceFree(ShowAll(scope, Strings(fields)));
  }

  lemma PlanBraceFree(scope: Scope, ev: EmbeddedVar, val: Value)
    requires ShowsBraceFree(scope.composite) && PlainValue(val)
    ensures var plan := PlanForValue(scope, ev, val);
            (plan.Insert? ==> BraceFree(plan.text)) && (plan.Inflate? ==> forall t | t in plan.texts :: BraceFree(t))
  {
    match val
    case Str(_) =>
    case Scalar(_) =>
    case List(elems) =>
      forall e | e in elems ensures BraceFree(Show(scope, e)) {
        assert PlainValue(e);
      }
      ShowAllMembers(scope, elems);
      JoinBraceFree(ShowAll(scope, elems));
    case Map(entries) =>
      forall k | k in entries ensures BraceFree(Show(scope, entries[k])) {
        assert PlainValue(entries[k]);
      }
  }

  /** With brace-free environment values and plain attributes only brace-free text is put in. */
  lemma ScopeOptions(scope: Scope, t: Template)
    requires BraceFreeScope(scope)
    ensures BraceFreeOptions(scope, t)
  {
    forall p, v | p in Refs(t) && v in Options(scope, p) ensures BraceFree(v) {
      var ev := MatchToEmbeddedVars(p);
      var val := GetSubstitutionVal(scope, ev).value;
      if ev.kind == ENV {
        SplitBraceFree(scope.env(ev.varname));
        FieldsBraceFree(scope, ev, Split(scope.env(ev.varname), ','));
      } else {
        assert PlainValue(val);
        PlanBraceFree(scope, ev, val);
      }
    }
  }
}
