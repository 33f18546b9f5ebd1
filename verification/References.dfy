/** What one written reference makes of the text around it, for each kind of value it can name. */
module References {
  import opened GoStrings
  import opened Placeholders
  import opened Templates
  import opened EmbeddedVars
  import opened ParameterSubstitution
  import opened TemplateVars

  /** A reference as it is written, and plain text before and after it. */
  datatype Setting = Setting(kind: VarKind, name: string, ref: Reference, before: string, after: string,
                             prefix: string, suffix: string)
  {
    function Match(): Placeholder { PlaceholderFor(kind, name, ref, before, after) }

    /** The template. */
    function Written(): string { prefix + (Text(Match()) + suffix) }

    /** The template with `text` in the place of the reference. */
    function With(text: string): string { prefix + (text + suffix) }

    predicate Valid()
    {
      && name != "" && IsNameStart(name[0]) && All(name, IsNameChar)
      && All(before, IsSpace) && All(after, IsSpace) && GoodReference(ref)
      && BraceFree(prefix) && BraceFree(suffix) && (ref.Keyed? ==> BraceFree(ref.key))
    }

    /** The reference asks for every element: empty brackets, or an index that no `int` holds. */
    predicate AsksEvery() { ref.Every? || (ref.At? && ref.i > MAX_INT) }

    /** The reference asks for an element by its index. */
    predicate AsksIndex() { ref.At? && ref.i <= MAX_INT }

    /** The key asked of a map: that in quotes, and none for a bare name. */
    function AskedKey(): string { if ref.Keyed? then ref.key else "" }
  }

  function Elements(vs: seq<Value>): set<Value> { set v | v in vs }

  /** What stands in a line for `v`: a string itself, what `%v` gives for any other value. */
  predicate StandsFor(scope: Scope, text: string, v: Value)
  {
    match v
    case Str(s) => text == s
    case Scalar(shown) => text == shown
    case List(_) => text == scope.composite(v)
    case Map(_) => text == scope.composite(v)
  }

  /** One line under each text that stands for a value, and no other. */
  ghost predicate LineForEach(scope: Scope, key: string, at: Setting, values: set<Value>, lines: Lines)
  {
    && (forall v, text | v in values && StandsFor(scope, text, v) :: key + "-" + text in lines)
    && (forall j | j in lines :: exists v, text ::
                                   v in values && StandsFor(scope, text, v) && j == key + "-" + text && lines[j] == at.With(text))
  }

  // ------------------------------------------------------------ a template of one reference

  lemma BraceFreePieces(a: string, b: string)
    requires BraceFree(a) && BraceFree(b)
    ensures BraceFree(a + b)
  {
  }

  lemma BracketBraceFree(at: Setting)
    requires at.Valid()
    ensures BraceFree(BracketText(at.Match().bracket))
  {
    match at.ref
    case Whole =>
    case Every => BraceFreePieces(at.before, "]");
    case At(i) =>
      BraceFreePieces(at.after, "]");
      BraceFreePieces(Digits(i), at.after + "]");
      BraceFreePieces(at.before, Digits(i) + (at.after + "]"));
    case Keyed(key, quote) =>
      BraceFreePieces(at.after, "]");
      BraceFreePieces([quote], at.after + "]");
      BraceFreePieces(key, [quote] + (at.after + "]"));
      BraceFreePieces([quote], key + ([quote] + (at.after + "]")));
      BraceFreePieces(at.before, [quote] + (key + ([quote] + (at.after + "]"))));
  }

  lemma MatchGood(at: Setting)
    requires at.Valid()
    ensures GoodPlaceholder(at.Match()) && BraceFree(Inner(at.Match()))
  {
    var b := BracketText(at.Match().bracket);
    ReferenceRecovered(at.kind, at.name, at.ref, at.before, at.after);
    BracketBraceFree(at);
    BraceFreePieces(at.name, b);
    BraceFreePieces("::", at.name + b);
    BraceFreePieces(KindText(at.kind), "::" + (at.name + b));
  }

  lemma OneMatch(at: Setting)
    requires at.Valid()
    ensures Refs(Scan(at.Written())) == [at.Match()] && WellFormed(at.Written())
  {
    var p, front, back := at.Match(), Scan(at.prefix), Scan(at.suffix);
    MatchGood(at);
    ScanBraceFree(at.prefix);
    ScanBraceFree(at.suffix);
    RenderScan(at.prefix);
    RenderScan(at.suffix);
    CleanAppend(front, Ref(p, back));
    RenderAppend(front, Ref(p, back));
    ScanClean(Append(front, Ref(p, back)));
    RefsAppend(front, Ref(p, back));
  }

  /** The placeholder occurs once, and replacing it leaves the text around it alone. */
  lemma ReplacedOnce(at: Setting, text: string)
    requires at.Valid()
    ensures ReplaceAll(at.Written(), Text(at.Match()), text) == at.With(text)
    ensures ReplaceFirst(at.Written(), Text(at.Match()), text) == at.With(text)
  {
    var p := at.Match();
    MatchGood(at);
    InnerOf(p);
    ReplacePassesOver(at.prefix, Text(p) + at.suffix, Text(p), text);
    assert (Text(p) + at.suffix)[|Text(p)|..] == at.suffix;
    ReplacePassesOver(at.suffix, "", Text(p), text);
    assert at.suffix + "" == at.suffix;
  }

  /** Treating the template is treating its one match. */
  lemma OneStepOnly(scope: Scope, key: string, at: Setting, outcome: Outcome)
    requires at.Valid()
    ensures Substitutes(scope, key, at.Written(), outcome)
       <==> MatchStep(scope, at.Match(), map[key := at.Written()], outcome)
  {
    OneMatch(at);
    RewritesOne(scope, at.Match(), map[key := at.Written()], outcome);
  }

  lemma RewritesOne(scope: Scope, p: Placeholder, lines: Lines, outcome: Outcome)
    ensures Rewrites(scope, [p], lines, outcome) <==> MatchStep(scope, p, lines, outcome)
  {
    assert [p][1..] == [] && [p][0] == p;
    assert Continues(scope, [], outcome, outcome);
    forall mid | Continues(scope, [], mid, outcome) ensures mid == outcome {
      assert mid.Success? ==> Rewrites(scope, [], mid.lines, outcome);
    }
  }

  lemma RewrittenOnce(key: string, at: Setting, text: string)
    requires at.Valid()
    ensures Rewritten(map[key := at.Written()], Text(at.Match()), text) == map[key := at.With(text)]
  {
    ReplacedOnce(at, text);
  }

  /** A match with a text to insert has one outcome. */
  lemma InsertsText(scope: Scope, key: string, at: Setting, text: string, outcome: Outcome)
    requires at.Valid() && PlanFor(scope, at.Match()) == Insert(text)
    ensures Substitutes(scope, key, at.Written(), outcome) <==> outcome == Success(map[key := at.With(text)])
  {
    OneStepOnly(scope, key, at, outcome);
    RewrittenOnce(key, at, text);
  }

  /** A match with nothing to insert panics, there being a line. */
  lemma Panics(scope: Scope, key: string, at: Setting, outcome: Outcome)
    requires at.Valid() && PlanFor(scope, at.Match()) == Faulty
    ensures Substitutes(scope, key, at.Written(), outcome) <==> outcome == Panicked
  {
    OneStepOnly(scope, key, at, outcome);
    assert key in map[key := at.Written()];
  }

  lemma OneLineOrder(order: seq<string>, key: string)
    requires IsOrderOf(order, {key})
    ensures order == [key]
  {
    assert key in {key} && order != [];
    assert |order| > 1 ==> order[0] != order[1];
    forall i | 0 <= i < |order| ensures order[i] == key {
      assert order[i] in order && order[i] in {key};
    }
  }

  lemma InflatedOnce(key: string, line: string, pat: string, texts: set<string>, next: Lines)
    requires pat != ""
    ensures Inflated(map[key := line], pat, texts, next) <==> next == LineInflated(key, line, pat, texts)
  {
    var lines := map[key := line];
    assert lines.Keys == {key};
    assert [key][..0] == [];
    assert InflateInOrder(lines, [key], pat, texts) == LineInflated(key, line, pat, texts);
    assert IsOrderOf([key], lines.Keys);
    forall order | IsOrderOf(order, lines.Keys) ensures order == [key] { OneLineOrder(order, key); }
  }

  /** The texts are exactly those that stand for the values. */
  ghost predicate TextsOf(scope: Scope, texts: set<string>, values: set<Value>)
  {
    && (forall v, text | v in values && StandsFor(scope, text, v) :: text in texts)
    && (forall text | text in texts :: exists v :: v in values && StandsFor(scope, text, v))
  }

  lemma InflatedEach(scope: Scope, key: string, at: Setting, texts: set<string>, values: set<Value>)
    requires at.Valid() && TextsOf(scope, texts, values)
    ensures LineForEach(scope, key, at, values, LineInflated(key, at.Written(), Text(at.Match()), texts))
  {
    var lines := LineInflated(key, at.Written(), Text(at.Match()), texts);
    forall v, text | v in values && StandsFor(scope, text, v) ensures key + "-" + text in lines {
      LineInflatedHas(key, at.Written(), Text(at.Match()), texts, text);
    }
    forall j | j in lines
      ensures exists v, text ::
                v in values && StandsFor(scope, text, v) && j == key + "-" + text && lines[j] == at.With(text)
    {
      var text := LineInflatedAt(key, at.Written(), Text(at.Match()), texts, j);
      ReplacedOnce(at, text);
    }
  }

  lemma LinesForEachUnique(scope: Scope, key: string, at: Setting, values: set<Value>, one: Lines, two: Lines)
    requires LineForEach(scope, key, at, values, one) && LineForEach(scope, key, at, values, two)
    ensures one == two
  {
    assert one.Keys <= two.Keys && two.Keys <= one.Keys;
    forall j | j in one ensures one[j] == two[j] { SameLine(scope, key, at, values, one, two, j); }
  }

  lemma SameLine(scope: Scope, key: string, at: Setting, values: set<Value>, one: Lines, two: Lines, j: string)
    requires LineForEach(scope, key, at, values, one) && LineForEach(scope, key, at, values, two)
    requires j in one && j in two
    ensures one[j] == two[j]
  {
    var v, text :| v in values && StandsFor(scope, text, v) && j == key + "-" + text && one[j] == at.With(text);
    var w, other :| w in values && StandsFor(scope, other, w) && j == key + "-" + other && two[j] == at.With(other);
    SuffixInverse(key, text);
    SuffixInverse(key, other);
  }

  /** A match over a collection has one outcome: a line for each text. */
  lemma InflatesTexts(scope: Scope, key: string, at: Setting, texts: set<string>, values: set<Value>, outcome: Outcome)
    requires at.Valid() && PlanFor(scope, at.Match()) == Inflate(texts) && TextsOf(scope, texts, values)
    ensures Substitutes(scope, key, at.Written(), outcome)
       <==> outcome.Success? && LineForEach(scope, key, at, values, outcome.lines)
  {
    var lines := LineInflated(key, at.Written(), Text(at.Match()), texts);
    OneStepOnly(scope, key, at, outcome);
    InflatedEach(scope, key, at, texts, values);
    if outcome.Success? {
      InflatedOnce(key, at.Written(), Text(at.Match()), texts, outcome.lines);
      if LineForEach(scope, key, at, values, outcome.lines) {
        LinesForEachUnique(scope, key, at, values, lines, outcome.lines);
      }
    }
  }

  // ------------------------------------------------------------ what each reference inserts

  lemma ShowStandsFor(scope: Scope, v: Value, text: string)
    ensures StandsFor(scope, text, v) <==> text == Show(scope, v)
  {
  }

  lemma {:induction false} TextsInOrder(scope: Scope, vs: seq<Value>)
    ensures |ShowAll(scope, vs)| == |vs|
    ensures forall i | 0 <= i < |vs| :: StandsFor(scope, ShowAll(scope, vs)[i], vs[i])
  {
    if vs != [] { TextsInOrder(scope, vs[1..]); }
  }

  lemma {:induction false} TextsFixed(scope: Scope, vs: seq<Value>, texts: seq<string>)
    requires |texts| == |vs| && forall i | 0 <= i < |vs| :: StandsFor(scope, texts[i], vs[i])
    ensures texts == ShowAll(scope, vs)
  {
    if vs != [] {
      TextsFixed(scope, vs[1..], texts[1..]);
      assert texts == [texts[0]] + texts[1..];
    }
  }

  lemma TextsOfList(scope: Scope, elems: seq<Value>)
    ensures TextsOf(scope, Shown(scope, elems), Elements(elems))
  {
    forall text | text in Shown(scope, elems) ensures exists v :: v in Elements(elems) && StandsFor(scope, text, v) {
      var v :| v in elems && text == Show(scope, v);
      ShowStandsFor(scope, v, text);
      assert v in Elements(elems);
    }
  }

  lemma TextsOfMap(scope: Scope, entries: map<string, Value>)
    ensures TextsOf(scope, ShownEntries(scope, entries), entries.Values)
  {
    forall text | text in ShownEntries(scope, entries)
      ensures exists v :: v in entries.Values && StandsFor(scope, text, v)
    {
      var k :| k in entries && text == Show(scope, entries[k]);
      ShowStandsFor(scope, entries[k], text);
      assert entries[k] in entries.Values;
    }
  }

  lemma Recovered(at: Setting)
    requires at.Valid()
    ensures MatchToEmbeddedVars(at.Match()) ==
            match at.ref
            case Whole => EmbeddedVar(at.kind, at.name, false, -1, "")
            case Every => EmbeddedVar(at.kind, at.name, true, -1, "")
            case At(i) => EmbeddedVar(at.kind, at.name, true, if i <= MAX_INT then i else -1, "")
            case Keyed(key, _) => EmbeddedVar(at.kind, at.name, true, -1, key)
  {
    ReferenceRecovered(at.kind, at.name, at.ref, at.before, at.after);
  }

  /** A reference kept for later: VAR always, ATTR where attributes may not be used. */
  lemma KeptReference(scope: Scope, key: string, at: Setting, outcome: Outcome)
    requires at.Valid() && (at.kind == VAR || (at.kind == ATTR && !scope.allowAttributes))
    ensures Substitutes(scope, key, at.Written(), outcome) <==> outcome == Success(map[key := at.Written()])
  {
    OneStepOnly(scope, key, at, outcome);
  }

  /** The reference reads an attribute that this scope may use. */
  ghost predicate Reads(scope: Scope, at: Setting, v: Value)
  {
    at.Valid() && at.kind == ATTR && scope.allowAttributes && at.name in scope.attributes && scope.attributes[at.name] == v
  }

  lemma MissingAttribute(scope: Scope, key: string, at: Setting, outcome: Outcome)
    requires at.Valid() && at.kind == ATTR && scope.allowAttributes && at.name !in scope.attributes
    ensures Substitutes(scope, key, at.Written(), outcome) <==> outcome == Failure
  {
    Recovered(at);
    OneStepOnly(scope, key, at, outcome);
  }

  /** A string or a scalar is inserted whatever brackets follow its name. */
  lemma ScalarReference(scope: Scope, key: string, at: Setting, v: Value, outcome: Outcome)
    requires Reads(scope, at, v)
    ensures v.Str? ==> (Substitutes(scope, key, at.Written(), outcome) <==> outcome == Success(map[key := at.With(v.s)]))
    ensures v.Scalar? ==>
              (Substitutes(scope, key, at.Written(), outcome) <==> outcome == Success(map[key := at.With(v.shown)]))
  {
    Recovered(at);
    match v
    case Str(s) => InsertsText(scope, key, at, s, outcome);
    case Scalar(shown) => InsertsText(scope, key, at, shown, outcome);
    case List(_) =>
    case Map(_) =>
  }

  /** An index inserts that element, or panics when there is none. */
  lemma ListIndexed(scope: Scope, key: string, at: Setting, elems: seq<Value>, text: string, outcome: Outcome)
    requires Reads(scope, at, List(elems)) && at.AsksIndex()
    requires at.ref.i < |elems| ==> StandsFor(scope, text, elems[at.ref.i])
    ensures Substitutes(scope, key, at.Written(), outcome)
       <==> outcome == if at.ref.i < |elems| then Success(map[key := at.With(text)]) else Panicked
  {
    Recovered(at);
    if at.ref.i < |elems| {
      ShowStandsFor(scope, elems[at.ref.i], text);
      InsertsText(scope, key, at, text, outcome);
    } else {
      Panics(scope, key, at, outcome);
    }
  }

  /** A bare name inserts all elements, in order, with commas between them. */
  lemma ListWhole(scope: Scope, key: string, at: Setting, elems: seq<Value>, texts: seq<string>, outcome: Outcome)
    requires Reads(scope, at, List(elems)) && at.ref.Whole?
    requires |texts| == |elems| && forall i | 0 <= i < |elems| :: StandsFor(scope, texts[i], elems[i])
    ensures Substitutes(scope, key, at.Written(), outcome)
       <==> outcome == Success(map[key := at.With(Join(texts, ','))])
  {
    Recovered(at);
    TextsFixed(scope, elems, texts);
    InsertsText(scope, key, at, Join(texts, ','), outcome);
  }

  /** Empty brackets give a line for each distinct text; so does a quoted key, which a list ignores. */
  lemma ListEvery(scope: Scope, key: string, at: Setting, elems: seq<Value>, outcome: Outcome)
    requires Reads(scope, at, List(elems)) && (at.AsksEvery() || at.ref.Keyed?)
    ensures Substitutes(scope, key, at.Written(), outcome)
       <==> outcome.Success? && LineForEach(scope, key, at, Elements(elems), outcome.lines)
  {
    Recovered(at);
    TextsOfList(scope, elems);
    InflatesTexts(scope, key, at, Shown(scope, elems), Elements(elems), outcome);
  }

  /** A key inserts the value of that entry, or panics when there is none; a bare name stands for
      the empty key. */
  lemma MapKeyed(scope: Scope, key: string, at: Setting, entries: map<string, Value>, text: string, outcome: Outcome)
    requires Reads(scope, at, Map(entries)) && (at.ref.Keyed? || at.ref.Whole?)
    requires at.AskedKey() in entries ==> StandsFor(scope, text, entries[at.AskedKey()])
    ensures Substitutes(scope, key, at.Written(), outcome)
       <==> outcome == if at.AskedKey() in entries then Success(map[key := at.With(text)]) else Panicked
  {
    Recovered(at);
    if at.AskedKey() in entries {
      ShowStandsFor(scope, entries[at.AskedKey()], text);
      InsertsText(scope, key, at, text, outcome);
    } else {
      Panics(scope, key, at, outcome);
    }
  }

  /** Empty brackets give a line for each distinct value; so does an index, which a map ignores. */
  lemma MapEvery(scope: Scope, key: string, at: Setting, entries: map<string, Value>, outcome: Outcome)
    requires Reads(scope, at, Map(entries)) && (at.ref.Every? || at.ref.At?)
    ensures Substitutes(scope, key, at.Written(), outcome)
       <==> outcome.Success? && LineForEach(scope, key, at, entries.Values, outcome.lines)
  {
    Recovered(at);
    TextsOfMap(scope, entries);
    InflatesTexts(scope, key, at, ShownEntries(scope, entries), entries.Values, outcome);
  }

  // ------------------------------------------------------------ the environment

  /** `fields` are the parts of the variable between its commas. */
  ghost predicate Fields(scope: Scope, at: Setting, fields: seq<string>)
  {
    && at.Valid() && at.kind == ENV
    && fields != [] && (forall f | f in fields :: ',' !in f) && Join(fields, ',') == scope.env(at.name)
  }

  lemma FieldsFixed(scope: Scope, at: Setting, fields: seq<string>)
    requires Fields(scope, at, fields)
    ensures GetSubstitutionVal(scope, MatchToEmbeddedVars(at.Match())) == Some(List(Strings(fields)))
  {
    Recovered(at);
    SplitJoin(fields, ',');
  }

  /** A bare reference inserts the environment string, commas and all. */
  lemma EnvironmentWhole(scope: Scope, key: string, at: Setting, outcome: Outcome)
    requires at.Valid() && at.kind == ENV && at.ref.Whole?
    ensures Substitutes(scope, key, at.Written(), outcome)
       <==> outcome == Success(map[key := at.With(scope.env(at.name))])
  {
    var fields := Split(scope.env(at.name), ',');
    JoinSplit(scope.env(at.name), ',');
    Recovered(at);
    TextsFixed(scope, Strings(fields), fields);
    InsertsText(scope, key, at, scope.env(at.name), outcome);
  }

  /** An index inserts that field, or panics when there is none. */
  lemma EnvironmentIndexed(scope: Scope, key: string, at: Setting, fields: seq<string>, outcome: Outcome)
    requires Fields(scope, at, fields) && at.AsksIndex()
    ensures Substitutes(scope, key, at.Written(), outcome)
       <==> outcome == if at.ref.i < |fields| then Success(map[key := at.With(fields[at.ref.i])]) else Panicked
  {
    FieldsFixed(scope, at, fields);
    Recovered(at);
    if at.ref.i < |fields| {
      InsertsText(scope, key, at, fields[at.ref.i], outcome);
    } else {
      Panics(scope, key, at, outcome);
    }
  }

  /** Empty brackets, or a quoted key, give a line for each distinct field. */
  lemma EnvironmentEvery(scope: Scope, key: string, at: Setting, fields: seq<string>, outcome: Outcome)
    requires Fields(scope, at, fields) && (at.AsksEvery() || at.ref.Keyed?)
    ensures Substitutes(scope, key, at.Written(), outcome)
       <==> outcome.Success? && LineForEach(scope, key, at, Elements(Strings(fields)), outcome.lines)
  {
    FieldsFixed(scope, at, fields);
    Recovered(at);
    TextsOfList(scope, Strings(fields));
    InflatesTexts(scope, key, at, Shown(scope, Strings(fields)), Elements(Strings(fields)), outcome);
  }

  // ------------------------------------------------------------ at use time

  /** A VAR reference, whatever its brackets, becomes the value bound to its name; every other
      reference stays. */
  lemma VariableReference(at: Setting, vars: Vars)
    requires at.Valid()
    ensures ReplaceFirsts(Refs(Scan(at.Written())), at.Written(), vars)
         == if at.kind == VAR && at.name in vars then at.With(vars[at.name]) else at.Written()
  {
    OneMatch(at);
    assert [at.Match()][1..] == [];
    if at.kind == VAR && at.name in vars { ReplacedOnce(at, vars[at.name]); }
  }

  /** The loop over the keys does the same for a reference without brackets. */
  lemma VariableByKey(at: Setting, order: seq<string>, vars: Vars)
    requires at.Valid() && at.kind == VAR && at.ref.Whole? && BraceFreeVars(vars) && IsOrderOf(order, vars.Keys)
    ensures ReplaceKeys(order, at.Written(), vars) == if at.name in vars then at.With(vars[at.name]) else at.Written()
  {
    OneMatch(at);
    AgreeWithoutBrackets(at.Written(), order, vars);
    VariableReference(at, vars);
  }

  // ------------------------------------------------------------ a reference spelled out

  const KEY_A := Setting(ATTR, "m", Keyed("a", '\''), "", "", "", "")

  lemma WrittenKey()
    ensures KEY_A.Valid() && KEY_A.Written() == "{ATTR::m['a']}" && KEY_A.With("x") == "x"
  {
    assert BracketText(KEY_A.Match().bracket) == "['a']";
    assert "::" + ("m" + "['a']") == "::m['a']";
    assert Inner(KEY_A.Match()) == "ATTR" + "::m['a']" == "ATTR::m['a']";
  }

  /** `{ATTR::m['a']}` is the entry `a` of the map. */
  lemma EntrySpelledOut(scope: Scope, outcome: Outcome)
    requires scope.allowAttributes && scope.attributes == map["m" := Map(map["a" := Str("x")])]
    ensures Substitutes(scope, "k", "{ATTR::m['a']}", outcome) <==> outcome == Success(map["k" := "x"])
  {
    WrittenKey();
    MapKeyed(scope, "k", KEY_A, map["a" := Str("x")], "x", outcome);
  }
}
