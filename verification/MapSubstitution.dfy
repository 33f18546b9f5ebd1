/** Substituting in a map while ranging over it: `substituteMapVariables`, `handleSliceSub` and
    the paths loop of `pathsSubstitute`.

    Each visit deletes the entry and inserts its expansions. The Go Programming Language
    Specification, section "For statements with range clause", leaves open in which order
    entries are visited, and whether entries created during the loop are visited at all. */
module MapSubstitution {
  import opened Templates
  import opened ParameterSubstitution
  import opened Expansion
  import opened Inflation

  type Attributes = map<string, Value>

  /** The visits of one range loop, in order, each with the visits of the nested loop it starts
      when the entry is itself a map. */
  datatype Schedule = Done | Visit(key: string, inner: Schedule, rest: Schedule)

  function Visited(s: Schedule): set<string>
  {
    match s case Done => {} case Visit(k, _, rest) => {k} + Visited(rest)
  }

  function AsValues(lines: Lines): Attributes { map k | k in lines :: Str(lines[k]) }

  /** What replaces an entry: the entry is deleted, then its expansions are inserted. */
  function Replaced(m: Attributes, k: string, entries: Attributes): Attributes { (m - {k}) + entries }

  // ------------------------------------------------------------ the loops as relations

  function Ordered(order: seq<string>, lines: Lines): seq<Value>
    requires forall k | k in order :: k in lines
  {
    if order == [] then [] else [Str(lines[order[0]])] + Ordered(order[1..], lines)
  }

  /** One element of a list: its expansions in any order, nothing when it fails. */
  ghost predicate ElementSubstitutes(scope: Scope, e: Value, result: seq<Value>)
  {
    if e.Str? then
      || (exists lines, order :: Substitutes(scope, "", e.s, Success(lines)) && IsOrderOf(order, lines.Keys)
                                 && result == Ordered(order, lines))
      || (Substitutes(scope, "", e.s, Failure) && result == [])
    else result == [e]
  }

  /** `handleSliceSub` */
  ghost predicate ListSubstitutes(scope: Scope, elems: seq<Value>, result: seq<Value>)
  {
    if elems == [] then result == []
    else
      var n := |elems| - 1;
      exists front, last :: ListSubstitutes(scope, elems[..n], front)
                            && ElementSubstitutes(scope, elems[n], last) && result == front + last
  }

  /** One visit turns `m` into `after`. In a strict loop, that of the paths, a failure is
      returned; otherwise it leaves the entry as it is. */
  ghost predicate Visits(scope: Scope, strict: bool, m: Attributes, k: string, inner: Schedule, after: Attributes)
    requires k in m
    decreases inner, 1
  {
    match m[k]
    case Str(t) =>
      || (exists lines :: Substitutes(scope, k, t, Success(lines)) && after == Replaced(m, k, AsValues(lines)))
      || (!strict && Substitutes(scope, k, t, Failure) && after == m)
    case List(elems) => exists result :: ListSubstitutes(scope, elems, result) && after == m[k := List(result)]
    case Map(sub) => exists result :: Ranges(scope, strict, sub, inner, result) && after == m[k := Map(result)]
    case Scalar(_) => after == m
  }

  /** The visits of a schedule, one after the other. */
  ghost predicate Runs(scope: Scope, strict: bool, m: Attributes, s: Schedule, after: Attributes)
    decreases s, 0, 0
  {
    match s
    case Done => after == m
    case Visit(k, inner, rest) =>
      k in m && exists mid :: Visits(scope, strict, m, k, inner, mid) && Runs(scope, strict, mid, rest, after)
  }

  /** A whole range loop: every entry present at the start is visited; entries created during
      the loop, and entries put back, may be visited any number of times or not at all. */
  ghost predicate Ranges(scope: Scope, strict: bool, m: Attributes, s: Schedule, after: Attributes)
    decreases s, 0, 1
  {
    m.Keys <= Visited(s) && Runs(scope, strict, m, s, after)
  }

  /** A visit in which the substitution of some string panics. */
  ghost predicate VisitPanics(scope: Scope, strict: bool, m: Attributes, k: string, inner: Schedule)
    requires k in m
    decreases inner, 1
  {
    match m[k]
    case Str(t) => Substitutes(scope, k, t, Panicked)
    case List(elems) => ListPanics(scope, elems)
    case Map(sub) => RunPanics(scope, strict, sub, inner)
    case Scalar(_) => false
  }

  ghost predicate ListPanics(scope: Scope, elems: seq<Value>)
  {
    exists e :: e in elems && e.Str? && Substitutes(scope, "", e.s, Panicked)
  }

  /** The visits of a schedule lead to a panic. */
  ghost predicate RunPanics(scope: Scope, strict: bool, m: Attributes, s: Schedule)
    decreases s, 0
  {
    s.Visit? && s.key in m
    && (VisitPanics(scope, strict, m, s.key, s.inner)
        || exists mid :: Visits(scope, strict, m, s.key, s.inner, mid) && RunPanics(scope, strict, mid, s.rest))
  }

  // ------------------------------------------------------------ the result, without a loop

  /** The elements of a list after substitution, when none inflates. */
  ghost function ExpandList(scope: Scope, elems: seq<Value>): seq<Value>
  {
    if elems == [] then []
    else
      var n := |elems| - 1;
      ExpandList(scope, elems[..n]) + ExpandElement(scope, elems[n])
  }

  ghost function ExpandElement(scope: Scope, e: Value): seq<Value>
  {
    if !e.Str? then [e]
    else if Named(scope, e.s) && "" in ExpandedKeys(scope, "", e.s) then [Str(Expanded(scope, "", e.s)[""])]
    else []
  }

  /** The entries that stand for one entry of the original map. */
  ghost function ExpandEntry(scope: Scope, k: string, v: Value): Attributes
    decreases v, 1
  {
    match v
    case Str(t) => if Named(scope, t) then AsValues(Expanded(scope, k, t)) else map[k := v]
    case List(elems) => map[k := List(ExpandList(scope, elems))]
    case Map(_) => map[k := Map(ExpandMap(scope, v))]
    case Scalar(_) => map[k := v]
  }

  /** The expansions of every entry. */
  ghost function Parts(scope: Scope, v: Value): map<string, Attributes>
    requires v.Map?
    decreases v, 0, 0
  {
    map k | k in v.entries :: ExpandEntry(scope, k, v.entries[k])
  }

  /** The map that all schedules reach: the expansions of all entries together. */
  ghost function ExpandMap(scope: Scope, v: Value): Attributes
    requires v.Map?
    decreases v, 0, 1
  {
    Union(Parts(scope, v))
  }

  function UnionKeys(parts: map<string, Attributes>): set<string>
  {
    set k, j | k in parts && j in parts[k] :: j
  }

  ghost function Union(parts: map<string, Attributes>): Attributes
  {
    map j | j in UnionKeys(parts) :: parts[Owner(parts, j)][j]
  }

  /** An entry whose expansions include the key. */
  ghost function Owner(parts: map<string, Attributes>, j: string): (k: string)
    requires j in UnionKeys(parts)
    ensures k in parts && j in parts[k]
  {
    var k :| k in parts && j in parts[k];
    k
  }

  /** No entry expands to the key of another entry. */
  ghost predicate NoCapture(parts: map<string, Attributes>)
  {
    forall k, l, j | k in parts && l in parts && k != l && j in parts[k] :: j != l
  }

  /** Entries that expand to the same key put the same value there. */
  ghost predicate Agree(parts: map<string, Attributes>)
  {
    forall k, l, j | k in parts && l in parts && j in parts[k] && j in parts[l] :: parts[k][j] == parts[l][j]
  }

  // ------------------------------------------------------------ hypotheses

  /** A template whose substitution neither panics nor depends on text put in earlier. */
  ghost predicate Tame(scope: Scope, template: string)
  {
    WellFormed(template) && InertOptions(scope, Scan(template)) && Resolvable(scope, template)
  }

  /** A list element that becomes at most one element. */
  ghost predicate RegularElement(scope: Scope, e: Value)
  {
    e.Str? ==>
      && Tame(scope, e.s) && CollisionFree(scope, "", e.s)
      && forall j | j in ExpandedKeys(scope, "", e.s) :: j == ""
  }

  ghost predicate RegularEntry(scope: Scope, k: string, v: Value)
    decreases v, 1
  {
    match v
    case Str(t) => Tame(scope, t) && CollisionFree(scope, k, t)
    case List(elems) => forall e | e in elems :: RegularElement(scope, e)
    case Map(_) => RegularMap(scope, v)
    case Scalar(_) => true
  }

  ghost predicate RegularEntries(scope: Scope, v: Value)
    requires v.Map?
    decreases v, 0, 0
  {
    forall k | k in v.entries :: RegularEntry(scope, k, v.entries[k])
  }

  /** Tame strings at every depth, list elements that do not inflate to several, no entry that
      expands to the key of another, and agreement where two expand to the same key. */
  ghost predicate RegularMap(scope: Scope, v: Value)
    requires v.Map?
    decreases v, 0, 1
  {
    RegularEntries(scope, v) && NoCapture(Parts(scope, v)) && Agree(Parts(scope, v))
  }

  // ------------------------------------------------------------ what one visit does

  lemma ReplacedSelf(m: Attributes, k: string, v: Value)
    requires k in m
    ensures m[k := v] == Replaced(m, k, map[k := v])
    ensures m == Replaced(m, k, map[k := m[k]])
  {
  }

  lemma StringVisit(scope: Scope, strict: bool, m: Attributes, k: string, inner: Schedule, after: Attributes) returns (lines: Lines)
    requires k in m && m[k].Str? && Visits(scope, strict, m, k, inner, after)
    requires strict || !Substitutes(scope, k, m[k].s, Failure)
    ensures Substitutes(scope, k, m[k].s, Success(lines)) && after == Replaced(m, k, AsValues(lines))
  {
    lines :| Substitutes(scope, k, m[k].s, Success(lines)) && after == Replaced(m, k, AsValues(lines));
  }

  lemma ListVisit(scope: Scope, strict: bool, m: Attributes, k: string, inner: Schedule, after: Attributes) returns (result: seq<Value>)
    requires k in m && m[k].List? && Visits(scope, strict, m, k, inner, after)
    ensures ListSubstitutes(scope, m[k].elems, result) && after == Replaced(m, k, map[k := List(result)])
  {
    result :| ListSubstitutes(scope, m[k].elems, result) && after == m[k := List(result)];
    ReplacedSelf(m, k, List(result));
  }

  lemma MapVisit(scope: Scope, strict: bool, m: Attributes, k: string, inner: Schedule, after: Attributes) returns (result: Attributes)
    requires k in m && m[k].Map? && Visits(scope, strict, m, k, inner, after)
    ensures Ranges(scope, strict, m[k].entries, inner, result) && after == Replaced(m, k, map[k := Map(result)])
  {
    result :| Ranges(scope, strict, m[k].entries, inner, result) && after == m[k := Map(result)];
    ReplacedSelf(m, k, Map(result));
  }

  lemma RunsFirst(scope: Scope, strict: bool, m: Attributes, s: Schedule, after: Attributes) returns (next: Attributes)
    requires s.Visit? && Runs(scope, strict, m, s, after)
    ensures s.key in m && Visits(scope, strict, m, s.key, s.inner, next) && Runs(scope, strict, next, s.rest, after)
  {
    next :| Visits(scope, strict, m, s.key, s.inner, next) && Runs(scope, strict, next, s.rest, after);
  }

  lemma RunsCons(scope: Scope, strict: bool, m: Attributes, k: string, inner: Schedule, next: Attributes, rest: Schedule, after: Attributes)
    requires k in m && Visits(scope, strict, m, k, inner, next) && Runs(scope, strict, next, rest, after)
    ensures Runs(scope, strict, m, Visit(k, inner, rest), after)
  {
  }

  // ------------------------------------------------------------ entries that stay as they are

  /** A value that a visit leaves as it is: inert text, or text whose substitution fails. */
  ghost predicate StableValue(scope: Scope, v: Value)
  {
    match v
    case Str(t) => Inert(scope, t) || (Resolvable(scope, t) && !Named(scope, t))
    case List(elems) => forall e | e in elems :: e.Str? ==> Inert(scope, e.s)
    case Map(entries) => forall k | k in entries :: StableValue(scope, entries[k])
    case Scalar(_) => true
  }

  ghost predicate StableMap(scope: Scope, m: Attributes)
  {
    forall k | k in m :: StableValue(scope, m[k])
  }

  lemma StableString(scope: Scope, k: string, t: string, outcome: Outcome)
    requires StableValue(scope, Str(t)) && Substitutes(scope, k, t, outcome)
    ensures outcome == Success(map[k := t]) || outcome == Failure
  {
    if Inert(scope, t) {
      InertIdentity(scope, k, t, outcome);
    } else {
      FailsExactlyWhen(scope, k, t, outcome);
    }
  }

  lemma OrderedOne(order: seq<string>, k: string, t: string)
    requires IsOrderOf(order, map[k := t].Keys)
    ensures Ordered(order, map[k := t]) == [Str(t)]
  {
    assert k in order;
    assert order[0] in order && order[|order| - 1] in order;
    assert order == [k];
    assert order[1..] == [];
  }

  lemma StableElement(scope: Scope, e: Value, result: seq<Value>)
    requires e.Str? ==> Inert(scope, e.s)
    requires ElementSubstitutes(scope, e, result)
    ensures result == [e]
  {
    if e.Str? {
      InertIdentity(scope, "", e.s, Failure);
      var lines, order :| Substitutes(scope, "", e.s, Success(lines)) && IsOrderOf(order, lines.Keys)
                          && result == Ordered(order, lines);
      InertIdentity(scope, "", e.s, Success(lines));
      OrderedOne(order, "", e.s);
    }
  }

  lemma LastElement(scope: Scope, elems: seq<Value>, result: seq<Value>) returns (front: seq<Value>, last: seq<Value>)
    requires elems != [] && ListSubstitutes(scope, elems, result)
    ensures var n := |elems| - 1;
            ListSubstitutes(scope, elems[..n], front) && ElementSubstitutes(scope, elems[n], last) && result == front + last
  {
    var n := |elems| - 1;
    front, last :| ListSubstitutes(scope, elems[..n], front)
                   && ElementSubstitutes(scope, elems[n], last) && result == front + last;
  }

  lemma Snoc(elems: seq<Value>)
    requires elems != []
    ensures elems == elems[..|elems| - 1] + [elems[|elems| - 1]]
    ensures elems[|elems| - 1] in elems && forall e | e in elems[..|elems| - 1] :: e in elems
  {
  }

  lemma {:induction false} StableList(scope: Scope, elems: seq<Value>, result: seq<Value>)
    requires forall e | e in elems :: e.Str? ==> Inert(scope, e.s)
    requires ListSubstitutes(scope, elems, result)
    ensures result == elems
    decreases |elems|
  {
    if elems != [] {
      var n := |elems| - 1;
      var front, last := LastElement(scope, elems, result);
      Snoc(elems);
      StableList(scope, elems[..n], front);
      StableElement(scope, elems[n], last);
    }
  }

  lemma OneEntry(m: Attributes, k: string, lines: Lines)
    requires k in m && m[k].Str? && lines == map[k := m[k].s]
    ensures Replaced(m, k, AsValues(lines)) == m
  {
    assert AsValues(lines) == map[k := m[k]];
    ReplacedSelf(m, k, m[k]);
  }

  lemma StableStringVisit(scope: Scope, strict: bool, m: Attributes, k: string, inner: Schedule, after: Attributes)
    requires k in m && m[k].Str? && StableValue(scope, m[k]) && Visits(scope, strict, m, k, inner, after)
    ensures after == m
  {
    if after != m {
      var lines :| Substitutes(scope, k, m[k].s, Success(lines)) && after == Replaced(m, k, AsValues(lines));
      StableString(scope, k, m[k].s, Success(lines));
      OneEntry(m, k, lines);
    }
  }

  lemma StableVisit(scope: Scope, strict: bool, m: Attributes, k: string, inner: Schedule, after: Attributes)
    requires k in m && StableValue(scope, m[k]) && Visits(scope, strict, m, k, inner, after)
    ensures after == m
    decreases inner, 1
  {
    ReplacedSelf(m, k, m[k]);
    if m[k].Str? {
      StableStringVisit(scope, strict, m, k, inner, after);
    } else if m[k].List? {
      var result := ListVisit(scope, strict, m, k, inner, after);
      StableList(scope, m[k].elems, result);
    } else if m[k].Map? {
      var result := MapVisit(scope, strict, m, k, inner, after);
      StableRun(scope, strict, m[k].entries, inner, result);
    }
  }

  /** A range over a map of stable values changes nothing, whatever the schedule. */
  lemma {:induction false} StableRun(scope: Scope, strict: bool, m: Attributes, s: Schedule, after: Attributes)
    requires StableMap(scope, m) && Runs(scope, strict, m, s, after)
    ensures after == m
    decreases s, 0
  {
    if s.Visit? {
      var mid := RunsFirst(scope, strict, m, s, after);
      StableVisit(scope, strict, m, s.key, s.inner, mid);
      StableRun(scope, strict, m, s.rest, after);
    }
  }

  // ------------------------------------------------------------ expansions are stable

  lemma ExpandedInert(scope: Scope, k: string, t: string, j: string)
    requires Tame(scope, t) && j in ExpandedKeys(scope, k, t)
    ensures Inert(scope, Expanded(scope, k, t)[j])
  {
    var ms := Matches(scope, t);
    var line := ExpandedLine(scope, k, t, j);
    var c :| c in Choices(scope, ms) && |c| == |ms| && j == KeyUnder(scope, k, ms, c) && line == LineUnder(Scan(t), ms, c);
    FilledInert(scope, Scan(t), ms, c);
  }

  lemma {:induction false} ExpandListStable(scope: Scope, elems: seq<Value>)
    requires forall e | e in elems :: e.Str? ==> Tame(scope, e.s)
    ensures forall e | e in ExpandList(scope, elems) :: e.Str? ==> Inert(scope, e.s)
  {
    if elems != [] {
      var n := |elems| - 1;
      ExpandListStable(scope, elems[..n]);
      var e := elems[n];
      assert e in elems;
      if e.Str? && "" in ExpandedKeys(scope, "", e.s) { ExpandedInert(scope, "", e.s, ""); }
    }
  }

  lemma ExpandEntryStable(scope: Scope, k: string, v: Value)
    requires RegularEntry(scope, k, v)
    ensures StableMap(scope, ExpandEntry(scope, k, v))
    decreases v, 1
  {
    match v
    case Str(t) =>
      if Named(scope, t) {
        forall j | j in ExpandedKeys(scope, k, t) ensures StableValue(scope, Str(Expanded(scope, k, t)[j])) {
          ExpandedInert(scope, k, t, j);
        }
      }
    case List(elems) => ExpandListStable(scope, elems);
    case Map(_) => ExpandMapStable(scope, v);
    case Scalar(_) =>
  }

  lemma ExpandMapStable(scope: Scope, v: Value)
    requires v.Map? && RegularMap(scope, v)
    ensures StableMap(scope, ExpandMap(scope, v))
    decreases v, 0
  {
    forall j | j in ExpandMap(scope, v) ensures StableValue(scope, ExpandMap(scope, v)[j]) {
      var k := Owner(Parts(scope, v), j);
      ExpandEntryStable(scope, k, v.entries[k]);
    }
  }

  // ------------------------------------------------------------ the first visit of an entry

  lemma LinesOfElement(lines: Lines, order: seq<string>)
    requires (forall j | j in lines :: j == "") && IsOrderOf(order, lines.Keys)
    ensures Ordered(order, lines) == if "" in lines then [Str(lines[""])] else []
  {
    if "" in lines {
      assert lines == map[("") := lines[""]];
      OrderedOne(order, "", lines[""]);
    } else {
      assert lines == map[];
    }
  }

  lemma ElementExpands(scope: Scope, e: Value, result: seq<Value>)
    requires RegularElement(scope, e) && ElementSubstitutes(scope, e, result)
    ensures result == ExpandElement(scope, e)
  {
    if e.Str? {
      if !(Substitutes(scope, "", e.s, Failure) && result == []) {
        var lines, order :| Substitutes(scope, "", e.s, Success(lines)) && IsOrderOf(order, lines.Keys)
                            && result == Ordered(order, lines);
        FailsExactlyWhen(scope, "", e.s, Success(lines));
        InertLaterFree(scope, Scan(e.s));
        ResultUnique(scope, "", e.s, lines);
        assert lines.Keys == ExpandedKeys(scope, "", e.s);
        LinesOfElement(lines, order);
      } else {
        FailsExactlyWhen(scope, "", e.s, Failure);
      }
    }
  }

  lemma {:induction false} ListExpands(scope: Scope, elems: seq<Value>, result: seq<Value>)
    requires RegularEntry(scope, "", List(elems)) && ListSubstitutes(scope, elems, result)
    ensures result == ExpandList(scope, elems)
  {
    if elems != [] {
      var n := |elems| - 1;
      var front, last := LastElement(scope, elems, result);
      ListExpands(scope, elems[..n], front);
      assert elems[n] in elems;
      ElementExpands(scope, elems[n], last);
    }
  }

  lemma FailingExpands(scope: Scope, strict: bool, m: Attributes, k: string)
    requires k in m && m[k].Str? && RegularEntry(scope, k, m[k]) && Substitutes(scope, k, m[k].s, Failure)
    ensures m == Replaced(m, k, ExpandEntry(scope, k, m[k]))
    ensures forall lines :: !Substitutes(scope, k, m[k].s, Success(lines))
  {
    FailsExactlyWhen(scope, k, m[k].s, Failure);
    forall lines ensures !Substitutes(scope, k, m[k].s, Success(lines)) {
      if Substitutes(scope, k, m[k].s, Success(lines)) { FailsExactlyWhen(scope, k, m[k].s, Success(lines)); }
    }
    ReplacedSelf(m, k, m[k]);
  }

  lemma StringExpands(scope: Scope, strict: bool, m: Attributes, k: string, inner: Schedule, after: Attributes)
    requires k in m && m[k].Str? && RegularEntry(scope, k, m[k]) && Visits(scope, strict, m, k, inner, after)
    ensures after == Replaced(m, k, ExpandEntry(scope, k, m[k]))
  {
    if Substitutes(scope, k, m[k].s, Failure) {
      FailingExpands(scope, strict, m, k);
    } else {
      var lines := StringVisit(scope, strict, m, k, inner, after);
      FailsExactlyWhen(scope, k, m[k].s, Success(lines));
      InertLaterFree(scope, Scan(m[k].s));
      ResultUnique(scope, k, m[k].s, lines);
    }
  }

  /** Visiting an entry for the first time replaces it by its expansions. */
  lemma VisitExpands(scope: Scope, strict: bool, m: Attributes, k: string, inner: Schedule, after: Attributes)
    requires k in m && RegularEntry(scope, k, m[k]) && Visits(scope, strict, m, k, inner, after)
    ensures after == Replaced(m, k, ExpandEntry(scope, k, m[k]))
    decreases inner, 2
  {
    if m[k].Str? {
      StringExpands(scope, strict, m, k, inner, after);
    } else if m[k].List? {
      var result := ListVisit(scope, strict, m, k, inner, after);
      ListExpands(scope, m[k].elems, result);
    } else if m[k].Map? {
      var result := MapVisit(scope, strict, m, k, inner, after);
      ScheduleIndependence(scope, strict, m[k], inner, result);
    } else {
      ReplacedSelf(m, k, m[k]);
    }
  }

  // ------------------------------------------------------------ schedule independence

  /** The map during the loop: entries not yet visited are the original ones, the others have
      been replaced by their expansions, and there is nothing else. */
  ghost predicate Progress(original: Attributes, parts: map<string, Attributes>, pending: set<string>, m: Attributes)
  {
    && parts.Keys == original.Keys && pending <= original.Keys
    && (forall j | j in m :: j in pending || MadeBy(parts, pending, j))
    && (forall k | k in pending :: k in m && m[k] == original[k])
    && (forall k | k in parts && k !in pending :: Contains(m, parts[k]))
  }

  ghost predicate MadeBy(parts: map<string, Attributes>, pending: set<string>, j: string)
  {
    exists k :: k in parts && k !in pending && j in parts[k]
  }

  ghost predicate Contains(m: Attributes, part: Attributes)
  {
    forall j | j in part :: j in m && m[j] == part[j]
  }

  /** Replacing one entry does not disturb what another entry stands for. */
  lemma Undisturbed(parts: map<string, Attributes>, m: Attributes, k: string, l: string)
    requires NoCapture(parts) && Agree(parts) && k in parts && l in parts && k != l && Contains(m, parts[l])
    ensures Contains(Replaced(m, k, parts[k]), parts[l])
  {
  }

  lemma PendingKept(parts: map<string, Attributes>, m: Attributes, k: string, l: string)
    requires NoCapture(parts) && Agree(parts) && k in parts && l in parts && k != l && l in m
    ensures l in Replaced(m, k, parts[k]) && Replaced(m, k, parts[k])[l] == m[l]
  {
  }

  lemma MadeAfter(parts: map<string, Attributes>, pending: set<string>, m: Attributes, k: string, j: string)
    requires k in parts && k in pending && j in Replaced(m, k, parts[k])
    requires forall i | i in m :: i in pending || MadeBy(parts, pending, i)
    ensures j in pending - {k} || MadeBy(parts, pending - {k}, j)
  {
    if j in parts[k] {
      assert k !in pending - {k};
    } else if j !in pending {
      var l :| l in parts && l !in pending && j in parts[l];
      assert l !in pending - {k};
    }
  }

  lemma ProgressStep(original: Attributes, parts: map<string, Attributes>, pending: set<string>, m: Attributes, k: string)
    requires NoCapture(parts) && Agree(parts) && Progress(original, parts, pending, m) && k in pending
    ensures Progress(original, parts, pending - {k}, Replaced(m, k, parts[k]))
  {
    var after := Replaced(m, k, parts[k]);
    forall j | j in after ensures j in pending - {k} || MadeBy(parts, pending - {k}, j) {
      MadeAfter(parts, pending, m, k, j);
    }
    forall l | l in pending - {k} ensures l in after && after[l] == original[l] {
      PendingKept(parts, m, k, l);
    }
    forall l | l in parts && l !in pending - {k} ensures Contains(after, parts[l]) {
      if l != k { Undisturbed(parts, m, k, l); }
    }
  }

  lemma ProgressEnd(original: Attributes, parts: map<string, Attributes>, m: Attributes)
    requires Progress(original, parts, {}, m)
    ensures m == Union(parts)
  {
    forall j | j in m ensures j in UnionKeys(parts) {
      assert MadeBy(parts, {}, j);
    }
    forall j | j in UnionKeys(parts) ensures j in m && m[j] == parts[Owner(parts, j)][j] {
      OwnedEntry(original, parts, m, j);
    }
    IsUnion(parts, m);
  }

  lemma OwnedEntry(original: Attributes, parts: map<string, Attributes>, m: Attributes, j: string)
    requires Progress(original, parts, {}, m) && j in UnionKeys(parts)
    ensures j in m && m[j] == parts[Owner(parts, j)][j]
  {
    assert Contains(m, parts[Owner(parts, j)]);
  }

  lemma IsUnion(parts: map<string, Attributes>, m: Attributes)
    requires m.Keys == UnionKeys(parts) && forall j | j in UnionKeys(parts) :: m[j] == parts[Owner(parts, j)][j]
    ensures m == Union(parts)
  {
  }

  /** What is in the map but not to be visited any more was made by a visit, and is stable. */
  lemma MadeIsStable(scope: Scope, v: Value, pending: set<string>, m: Attributes, k: string)
    requires v.Map? && RegularMap(scope, v) && Progress(v.entries, Parts(scope, v), pending, m)
    requires k in m && k !in pending
    ensures StableValue(scope, m[k])
  {
    var parts := Parts(scope, v);
    assert MadeBy(parts, pending, k);
    var l :| l in parts && l !in pending && k in parts[l];
    ExpandEntryStable(scope, l, v.entries[l]);
    assert Contains(m, parts[l]);
  }

  lemma ProgressVisit(scope: Scope, strict: bool, v: Value, pending: set<string>, m: Attributes, k: string, inner: Schedule,
                      after: Attributes)
    requires v.Map? && RegularMap(scope, v) && Progress(v.entries, Parts(scope, v), pending, m)
    requires k in m && Visits(scope, strict, m, k, inner, after)
    ensures Progress(v.entries, Parts(scope, v), pending - {k}, after)
    decreases inner, 3
  {
    if k in pending {
      VisitExpands(scope, strict, m, k, inner, after);
      ProgressStep(v.entries, Parts(scope, v), pending, m, k);
    } else {
      MadeIsStable(scope, v, pending, m, k);
      StableVisit(scope, strict, m, k, inner, after);
      assert pending - {k} == pending;
    }
  }

  lemma {:induction false} RunProgress(scope: Scope, strict: bool, v: Value, pending: set<string>, m: Attributes,
                                       s: Schedule, after: Attributes)
    requires v.Map? && RegularMap(scope, v) && Progress(v.entries, Parts(scope, v), pending, m)
    requires Runs(scope, strict, m, s, after)
    ensures Progress(v.entries, Parts(scope, v), pending - Visited(s), after)
    decreases s, 0
  {
    if s.Done? {
      assert pending - Visited(s) == pending;
    } else {
      var mid := RunsFirst(scope, strict, m, s, after);
      ProgressVisit(scope, strict, v, pending, m, s.key, s.inner, mid);
      RunProgress(scope, strict, v, pending - {s.key}, mid, s.rest, after);
      assert pending - {s.key} - Visited(s.rest) == pending - Visited(s);
    }
  }

  /** Every schedule that the language permits reaches one and the same map. */
  lemma ScheduleIndependence(scope: Scope, strict: bool, v: Value, s: Schedule, after: Attributes)
    requires v.Map? && RegularMap(scope, v) && Ranges(scope, strict, v.entries, s, after)
    ensures after == ExpandMap(scope, v)
    decreases s, 1
  {
    assert Progress(v.entries, Parts(scope, v), v.entries.Keys, v.entries);
    RunProgress(scope, strict, v, v.entries.Keys, v.entries, s, after);
    assert v.entries.Keys - Visited(s) == {};
    ProgressEnd(v.entries, Parts(scope, v), after);
  }
}
