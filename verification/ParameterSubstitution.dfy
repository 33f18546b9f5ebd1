/** `parameterSubstitute`: rewriting a set of keyed template lines placeholder by placeholder. */
module ParameterSubstitution {
  import opened GoStrings
  import opened Placeholders
  import opened Templates
  import opened EmbeddedVars

  /** An attribute value. A scalar other than a string carries the text `%v` gives it. */
  datatype Value =
    | Str(s: string)
    | Scalar(shown: string)
    | List(elems: seq<Value>)
    | Map(entries: map<string, Value>)

  /** What a substitution reads: the environment, the attributes and whether they may be used,
      and how `%v` shows a list or a map. */
  datatype Scope = Scope(
    env: string -> string,
    attributes: map<string, Value>,
    allowAttributes: bool,
    composite: Value -> string)

  /** `fmt.Sprintf("%v", v)` */
  function Show(scope: Scope, v: Value): string
  {
    match v
    case Str(s) => s
    case Scalar(shown) => shown
    case _ => scope.composite(v)
  }

  function ShowAll(scope: Scope, vs: seq<Value>): seq<string>
  {
    if vs == [] then [] else [Show(scope, vs[0])] + ShowAll(scope, vs[1..])
  }

  /** The distinct shown values of a list. */
  function Shown(scope: Scope, vs: seq<Value>): set<string> { set v | v in vs :: Show(scope, v) }

  /** The distinct shown values of a map. */
  function ShownEntries(scope: Scope, entries: map<string, Value>): set<string>
  {
    set k | k in entries :: Show(scope, entries[k])
  }

  function Strings(ss: seq<string>): seq<Value>
  {
    seq(|ss|, i requires 0 <= i < |ss| => Str(ss[i]))
  }

  /** `getSubstitutionVal` for the two kinds it serves; `None` is the "invalid attribute name" error. */
  function GetSubstitutionVal(scope: Scope, ev: EmbeddedVar): Option<Value>
  {
    if ev.kind == ENV then Some(List(Strings(Split(scope.env(ev.varname), ','))))
    else if ev.varname in scope.attributes then Some(scope.attributes[ev.varname])
    else None
  }

  /** What one match does to every line.
      `Faulty` is an index out of range or a missing key, which make the reflection calls panic. */
  datatype Plan =
    | Keep
    | Insert(text: string)
    | Inflate(texts: set<string>)
    | Unknown
    | Faulty

  /** The match is one of those substituted automatically in this scope. */
  predicate Automatic(scope: Scope, p: Placeholder)
  {
    p.kind == ENV || (p.kind == ATTR && scope.allowAttributes)
  }

  function PlanFor(scope: Scope, p: Placeholder): Plan
  {
    if !Automatic(scope, p) then Keep
    else
      match GetSubstitutionVal(scope, MatchToEmbeddedVars(p))
      case None => Unknown
      case Some(val) => PlanForValue(scope, MatchToEmbeddedVars(p), val)
  }

  function PlanForValue(scope: Scope, ev: EmbeddedVar, val: Value): Plan
  {
    match val
    case Str(s) => Insert(s)
    case Scalar(shown) => Insert(shown)
    case List(elems) =>
      if ev.isArrayOrMap && ev.arrayIndex == -1 then Inflate(Shown(scope, elems))
      else if ev.isArrayOrMap && ev.arrayIndex >= 0 then
        if ev.arrayIndex < |elems| then Insert(Show(scope, elems[ev.arrayIndex])) else Faulty
      else Insert(Join(ShowAll(scope, elems), ','))
    case Map(entries) =>
      if ev.isArrayOrMap && ev.mapIndex == "" then Inflate(ShownEntries(scope, entries))
      else if ev.mapIndex in entries then Insert(Show(scope, entries[ev.mapIndex]))
      else Faulty
  }

  // ------------------------------------------------------------ what a substitution may return

  type Lines = map<string, string>

  datatype Outcome = Success(lines: Lines) | Failure | Panicked

  function Rewritten(lines: Lines, pat: string, sub: string): Lines
    requires pat != ""
  {
    map k | k in lines :: ReplaceAll(lines[k], pat, sub)
  }

  /** Every key extended by every text. */
  function Suffixed(keys: set<string>, texts: set<string>): set<string>
  {
    set k, v | k in keys && v in texts :: k + "-" + v
  }

  /** The key an inflated line came with: what follows the first key and the dash. */
  function SuffixOf(key: string, j: string): string
  {
    if |key| < |j| then j[|key| + 1..] else ""
  }

  /** One line under each text: what the outer loop adds for one line. */
  function LineInflated(key: string, line: string, pat: string, texts: set<string>): Lines
    requires pat != ""
  {
    map j | j in Suffixed({key}, texts) :: ReplaceAll(line, pat, SuffixOf(key, j))
  }

  /** An order in which a range over a map with these keys may yield them. */
  ghost predicate IsOrderOf(order: seq<string>, keys: set<string>)
  {
    (forall k :: k in order <==> k in keys) && forall i, j | 0 <= i < j < |order| :: order[i] != order[j]
  }

  /** The new lines when the old ones are visited in this order: where two lines inflate to the
      same key, the one visited last stays. */
  function InflateInOrder(lines: Lines, order: seq<string>, pat: string, texts: set<string>): Lines
    requires pat != "" && forall k | k in order :: k in lines
  {
    if order == [] then map[]
    else
      var n := |order| - 1;
      InflateInOrder(lines, order[..n], pat, texts) + LineInflated(order[n], lines[order[n]], pat, texts)
  }

  /** `next` is the result of inflating `lines` for some order of the range over them. */
  ghost predicate Inflated(lines: Lines, pat: string, texts: set<string>, next: Lines)
    requires pat != ""
  {
    exists order :: IsOrderOf(order, lines.Keys) && next == InflateInOrder(lines, order, pat, texts)
  }

  ghost predicate InflatedFrom(lines: Lines, pat: string, texts: set<string>, key: string, line: string)
    requires pat != ""
  {
    exists k, v :: k in lines && v in texts && key == k + "-" + v && line == ReplaceAll(lines[k], pat, v)
  }

  /** `outcome` is one permitted result of treating one match. */
  ghost predicate MatchStep(scope: Scope, p: Placeholder, lines: Lines, outcome: Outcome)
  {
    match PlanFor(scope, p)
    case Keep => outcome == Success(lines)
    case Insert(text) => outcome == Success(Rewritten(lines, Text(p), text))
    case Inflate(texts) => outcome.Success? && Inflated(lines, Text(p), texts, outcome.lines)
    case Unknown => outcome == Failure
    // without a line no element is accessed
    case Faulty => outcome == if lines == map[] then Success(lines) else Panicked
  }

  /** `outcome` is one permitted result of treating the matches in turn. */
  ghost predicate Rewrites(scope: Scope, matches: seq<Placeholder>, lines: Lines, outcome: Outcome)
    decreases |matches|, 0
  {
    if matches == [] then outcome == Success(lines)
    else exists mid :: MatchStep(scope, matches[0], lines, mid) && Continues(scope, matches[1..], mid, outcome)
  }

  ghost predicate Continues(scope: Scope, matches: seq<Placeholder>, mid: Outcome, outcome: Outcome)
    decreases |matches|, 1
  {
    if mid.Success? then Rewrites(scope, matches, mid.lines, outcome) else outcome == mid
  }

  ghost predicate Substitutes(scope: Scope, key: string, template: string, outcome: Outcome)
  {
    Rewrites(scope, Refs(Scan(template)), map[key := template], outcome)
  }

  // ------------------------------------------------------------ the loops

  method RewriteLines(lines: Lines, pat: string, sub: string) returns (output: Lines)
    requires pat != ""
    ensures output == Rewritten(lines, pat, sub)
  {
    output := lines;
    var todo := lines.Keys;
    while todo != {}
      invariant todo <= lines.Keys && output.Keys == lines.Keys
      invariant forall k | k in lines :: output[k] == if k in todo then lines[k] else ReplaceAll(lines[k], pat, sub)
      decreases todo
    {
      var k :| k in todo;
      todo := todo - {k};
      output := output[k := ReplaceAll(output[k], pat, sub)];
    }
  }

  lemma SuffixInverse(key: string, v: string)
    ensures SuffixOf(key, key + "-" + v) == v
  {
  }

  lemma LineInflatedAt(key: string, line: string, pat: string, texts: set<string>, j: string) returns (v: string)
    requires pat != "" && j in LineInflated(key, line, pat, texts)
    ensures v in texts && j == key + "-" + v && LineInflated(key, line, pat, texts)[j] == ReplaceAll(line, pat, v)
  {
    v :| v in texts && j == key + "-" + v;
    SuffixInverse(key, v);
  }

  lemma LineInflatedHas(key: string, line: string, pat: string, texts: set<string>, v: string)
    requires pat != "" && v in texts
    ensures key + "-" + v in LineInflated(key, line, pat, texts)
    ensures LineInflated(key, line, pat, texts)[key + "-" + v] == ReplaceAll(line, pat, v)
  {
    assert key in {key};
    SuffixInverse(key, v);
  }

  lemma SuffixedMore(key: string, texts: set<string>, v: string)
    ensures Suffixed({key}, texts + {v}) == Suffixed({key}, texts) + {key + "-" + v}
  {
  }

  /** One more element of the collection. */
  lemma LineInflatedStep(before: Lines, key: string, line: string, pat: string, texts: set<string>, v: string)
    requires pat != ""
    ensures (before + LineInflated(key, line, pat, texts))[key + "-" + v := ReplaceAll(line, pat, v)]
         == before + LineInflated(key, line, pat, texts + {v})
  {
    SuffixedMore(key, texts, v);
    SuffixInverse(key, v);
  }

  lemma LineInflatedNone(before: Lines, key: string, line: string, pat: string)
    requires pat != ""
    ensures before + LineInflated(key, line, pat, {}) == before
  {
    assert LineInflated(key, line, pat, {}) == map[];
  }

  lemma {:induction false} InflatedMember(lines: Lines, order: seq<string>, pat: string, texts: set<string>, j: string)
    requires pat != "" && (forall k | k in order :: k in lines) && j in InflateInOrder(lines, order, pat, texts)
    ensures InflatedFrom(lines, pat, texts, j, InflateInOrder(lines, order, pat, texts)[j])
  {
    var n := |order| - 1;
    var last := LineInflated(order[n], lines[order[n]], pat, texts);
    if j in last {
      var v := LineInflatedAt(order[n], lines[order[n]], pat, texts, j);
    } else {
      InflatedMember(lines, order[..n], pat, texts, j);
    }
  }

  function Members(order: seq<string>): set<string> { set k | k in order }

  lemma SuffixedUnion(a: set<string>, b: set<string>, texts: set<string>)
    ensures Suffixed(a + b, texts) == Suffixed(a, texts) + Suffixed(b, texts)
  {
  }

  lemma {:induction false} InflatedKeys(lines: Lines, order: seq<string>, pat: string, texts: set<string>)
    requires pat != "" && forall k | k in order :: k in lines
    ensures InflateInOrder(lines, order, pat, texts).Keys == Suffixed(Members(order), texts)
  {
    if order == [] {
      assert Members(order) == {};
    } else {
      var n := |order| - 1;
      InflatedKeys(lines, order[..n], pat, texts);
      SuffixedUnion(Members(order[..n]), {order[n]}, texts);
      assert Members(order) == Members(order[..n]) + {order[n]};
    }
  }

  /** Whatever the order, the keys are all pairs of an old key and a text, and each line comes
      from such a pair. */
  lemma InflatedLines(lines: Lines, pat: string, texts: set<string>, next: Lines)
    requires pat != "" && Inflated(lines, pat, texts, next)
    ensures next.Keys == Suffixed(lines.Keys, texts)
    ensures forall j | j in next :: InflatedFrom(lines, pat, texts, j, next[j])
  {
    var order :| IsOrderOf(order, lines.Keys) && next == InflateInOrder(lines, order, pat, texts);
    InflatedMembers(lines, order, pat, texts);
    InflatedKeys(lines, order, pat, texts);
    assert Members(order) == lines.Keys;
  }

  lemma InflatedMembers(lines: Lines, order: seq<string>, pat: string, texts: set<string>)
    requires pat != "" && forall k | k in order :: k in lines
    ensures var next := InflateInOrder(lines, order, pat, texts);
            forall j | j in next :: InflatedFrom(lines, pat, texts, j, next[j])
  {
    var next := InflateInOrder(lines, order, pat, texts);
    forall j | j in next ensures InflatedFrom(lines, pat, texts, j, next[j]) {
      InflatedMember(lines, order, pat, texts, j);
    }
  }

  /** One more line. */
  lemma InflateSnoc(lines: Lines, order: seq<string>, k: string, pat: string, texts: set<string>)
    requires pat != "" && (forall j | j in order :: j in lines) && k in lines
    ensures forall j | j in order + [k] :: j in lines
    ensures InflateInOrder(lines, order + [k], pat, texts)
         == InflateInOrder(lines, order, pat, texts) + LineInflated(k, lines[k], pat, texts)
  {
    assert (order + [k])[..|order|] == order;
  }

  lemma ShownSnoc(scope: Scope, vs: seq<Value>, v: Value)
    ensures Shown(scope, vs + [v]) == Shown(scope, vs) + {Show(scope, v)}
  {
    assert forall w | w in vs + [v] :: w in vs || w == v;
    assert v in vs + [v] && forall w | w in vs :: w in vs + [v];
  }

  method InflateOverList(scope: Scope, lines: Lines, pat: string, elems: seq<Value>) returns (output: Lines)
    requires pat != ""
    ensures Inflated(lines, pat, Shown(scope, elems), output)
  {
    output := map[];
    ghost var order := [];
    var todo := lines.Keys;
    while todo != {}
      invariant todo <= lines.Keys && IsOrderOf(order, lines.Keys - todo)
      invariant output == InflateInOrder(lines, order, pat, Shown(scope, elems))
      decreases todo
    {
      var k :| k in todo;
      ghost var before := output;
      LineInflatedNone(before, k, lines[k], pat);
      for i := 0 to |elems|
        invariant output == before + LineInflated(k, lines[k], pat, Shown(scope, elems[..i]))
      {
        var text := Show(scope, elems[i]);
        LineInflatedStep(before, k, lines[k], pat, Shown(scope, elems[..i]), text);
        ShownSnoc(scope, elems[..i], elems[i]);
        assert elems[..i + 1] == elems[..i] + [elems[i]];
        output := output[k + "-" + text := ReplaceAll(lines[k], pat, text)];
      }
      assert elems[..|elems|] == elems;
      InflateSnoc(lines, order, k, pat, Shown(scope, elems));
      order, todo := order + [k], todo - {k};
    }
  }

  method InflateOverMap(scope: Scope, lines: Lines, pat: string, entries: map<string, Value>) returns (output: Lines)
    requires pat != ""
    ensures Inflated(lines, pat, ShownEntries(scope, entries), output)
  {
    output := map[];
    ghost var order := [];
    var todo := lines.Keys;
    while todo != {}
      invariant todo <= lines.Keys && IsOrderOf(order, lines.Keys - todo)
      invariant output == InflateInOrder(lines, order, pat, ShownEntries(scope, entries))
      decreases todo
    {
      var k :| k in todo;
      ghost var before, seen := output, {};
      LineInflatedNone(before, k, lines[k], pat);
      var unread := entries.Keys;
      while unread != {}
        invariant unread <= entries.Keys
        invariant forall e | e in entries.Keys - unread :: Show(scope, entries[e]) in seen
        invariant seen <= ShownEntries(scope, entries)
        invariant output == before + LineInflated(k, lines[k], pat, seen)
        decreases unread
      {
        var e :| e in unread;
        var text := Show(scope, entries[e]);
        LineInflatedStep(before, k, lines[k], pat, seen, text);
        seen := seen + {text};
        output := output[k + "-" + text := ReplaceAll(lines[k], pat, text)];
        unread := unread - {e};
      }
      assert seen == ShownEntries(scope, entries);
      InflateSnoc(lines, order, k, pat, ShownEntries(scope, entries));
      order, todo := order + [k], todo - {k};
    }
  }

  /** The `strings.Builder` loop that writes a list as comma-separated text. */
  method Concatenate(scope: Scope, elems: seq<Value>) returns (csv: string)
    ensures csv == Join(ShowAll(scope, elems), ',')
  {
    csv := "";
    for i := 0 to |elems|
      invariant csv == Join(ShowAll(scope, elems[..i]), ',')
    {
      JoinSnoc(scope, elems[..i], elems[i]);
      assert elems[..i + 1] == elems[..i] + [elems[i]];
      if i > 0 {
        csv := csv + ",";
      }
      csv := csv + Show(scope, elems[i]);
    }
    assert elems[..|elems|] == elems;
  }

  lemma {:induction false} JoinSnoc(scope: Scope, vs: seq<Value>, v: Value)
    ensures |ShowAll(scope, vs)| == |vs|
    ensures Join(ShowAll(scope, vs + [v]), ',')
         == (if vs == [] then "" else Join(ShowAll(scope, vs), ',') + ",") + Show(scope, v)
  {
    if vs == [] {
      assert vs + [v] == [v];
    } else {
      JoinSnoc(scope, vs[1..], v);
      assert (vs + [v])[1..] == vs[1..] + [v];
      var all := ShowAll(scope, vs + [v]);
      assert all[1..] == ShowAll(scope, vs[1..] + [v]);
      assert ShowAll(scope, vs)[1..] == ShowAll(scope, vs[1..]);
    }
  }

  /** One iteration of the loop over the matches. */
  method SubstituteMatch(scope: Scope, p: Placeholder, lines: Lines) returns (outcome: Outcome)
    ensures MatchStep(scope, p, lines, outcome)
  {
    var ev := MatchToEmbeddedVars(p);
    if ev.kind == VAR {
      return Success(lines);
    }
    if ev.kind == ATTR && !scope.allowAttributes {
      return Success(lines);
    }
    var found := GetSubstitutionVal(scope, ev);
    if found.None? {
      return Failure;
    }
    var output := lines;
    match found.value {
      case Str(s) =>
        output := RewriteLines(output, Text(p), s);
      case List(elems) =>
        if ev.arrayIndex == -1 && ev.isArrayOrMap {
          output := InflateOverList(scope, output, Text(p), elems);
        } else if ev.arrayIndex > -1 && ev.isArrayOrMap {
          if ev.arrayIndex < |elems| {
            output := RewriteLines(output, Text(p), Show(scope, elems[ev.arrayIndex]));
          } else if output != map[] {
            return Panicked;
          }
        } else {
          var csv := Concatenate(scope, elems);
          output := RewriteLines(output, Text(p), csv);
        }
      case Map(entries) =>
        if ev.mapIndex == "" && ev.isArrayOrMap {
          output := InflateOverMap(scope, output, Text(p), entries);
        } else if ev.mapIndex in entries {
          output := RewriteLines(output, Text(p), Show(scope, entries[ev.mapIndex]));
        } else if output != map[] {
          return Panicked;
        }
      case Scalar(shown) =>
        output := RewriteLines(output, Text(p), shown);
    }
    return Success(output);
  }

  method ParameterSubstitute(scope: Scope, key: string, template: string) returns (outcome: Outcome)
    ensures Substitutes(scope, key, template, outcome)
  {
    var output: Lines := map[key := template];
    var matches := Refs(Scan(template));
    for i := 0 to |matches|
      invariant forall o :: Rewrites(scope, matches[i..], output, o) ==> Substitutes(scope, key, template, o)
    {
      assert matches[i..][1..] == matches[i + 1..] && matches[i..][0] == matches[i];
      var mid := SubstituteMatch(scope, matches[i], output);
      forall o | Continues(scope, matches[i + 1..], mid, o) ensures Substitutes(scope, key, template, o) {
        assert Rewrites(scope, matches[i..], output, o);
      }
      if !mid.Success? {
        assert Continues(scope, matches[i + 1..], mid, mid);
        return mid;
      }
      output := mid.lines;
    }
    assert Rewrites(scope, matches[|matches|..], output, Success(output));
    return Success(output);
  }
}
