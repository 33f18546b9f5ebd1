/** Where the entries of a map come from after it has been substituted in, whatever the schedule
    and even where expansions of different entries collide. */
module Provenance {
  import opened Templates
  import opened ParameterSubstitution
  import opened Expansion
  import opened Inflation
  import opened MapSubstitution

  // ------------------------------------------------------------ what an entry may become

  /** The entry `j`, `w` is one that the entry `k`, `v` may become. */
  ghost predicate Comes(scope: Scope, strict: bool, k: string, v: Value, j: string, w: Value)
    decreases v, 1
  {
    match v
    case Str(t) => w.Str? && TextComes(scope, strict, k, t, j, w.s)
    case Scalar(_) => j == k && w == v
    case List(elems) => j == k && w.List? && ListSubstitutes(scope, elems, w.elems)
    case Map(_) => j == k && w.Map? && forall i | i in w.entries :: SomeComes(scope, strict, v, i, w.entries[i])
  }

  ghost predicate SomeComes(scope: Scope, strict: bool, v: Value, j: string, w: Value)
    requires v.Map?
    decreases v, 0
  {
    exists l :: l in v.entries && Comes(scope, strict, l, v.entries[l], j, w)
  }

  /** A line of the template, or, where a failure does not end the loop, the template itself when
      its substitution fails. */
  ghost predicate TextComes(scope: Scope, strict: bool, k: string, t: string, j: string, s: string)
  {
    || (!strict && j == k && s == t && Substitutes(scope, k, t, Failure))
    || exists lines :: Substitutes(scope, k, t, Success(lines)) && j in lines && s == lines[j]
  }

  /** A well-formed template into which only inert text is put. */
  ghost predicate SafeText(scope: Scope, t: string)
  {
    WellFormed(t) && InertOptions(scope, Scan(t))
  }

  ghost predicate SafeValue(scope: Scope, v: Value)
  {
    match v
    case Str(t) => SafeText(scope, t)
    case Scalar(_) => true
    case List(elems) => forall e | e in elems :: e.Str? ==> SafeText(scope, e.s)
    case Map(entries) => forall k | k in entries :: SafeValue(scope, entries[k])
  }

  // ------------------------------------------------------------ the first visit of an entry

  ghost predicate AllCome(scope: Scope, strict: bool, k: string, v: Value, entries: Attributes)
  {
    forall j | j in entries :: Comes(scope, strict, k, v, j, entries[j])
  }

  lemma StringFirst(scope: Scope, strict: bool, m: Attributes, k: string, inner: Schedule, after: Attributes)
    returns (entries: Attributes)
    requires k in m && m[k].Str? && Visits(scope, strict, m, k, inner, after)
    ensures after == Replaced(m, k, entries) && AllCome(scope, strict, k, m[k], entries)
  {
    if !strict && Substitutes(scope, k, m[k].s, Failure) && after == m {
      entries := map[k := m[k]];
      ReplacedSelf(m, k, m[k]);
    } else {
      var lines :| Substitutes(scope, k, m[k].s, Success(lines)) && after == Replaced(m, k, AsValues(lines));
      entries := AsValues(lines);
    }
  }

  lemma MapComes(scope: Scope, strict: bool, k: string, v: Value, result: Attributes)
    requires v.Map? && forall j | j in result :: SomeComes(scope, strict, v, j, result[j])
    ensures AllCome(scope, strict, k, v, map[k := Map(result)])
  {
  }

  lemma VisitFirst(scope: Scope, strict: bool, m: Attributes, k: string, inner: Schedule, after: Attributes)
    returns (entries: Attributes)
    requires k in m && SafeValue(scope, m[k]) && Visits(scope, strict, m, k, inner, after)
    ensures after == Replaced(m, k, entries) && AllCome(scope, strict, k, m[k], entries)
    decreases inner, 1
  {
    if m[k].Str? {
      entries := StringFirst(scope, strict, m, k, inner, after);
    } else if m[k].List? {
      var result := ListVisit(scope, strict, m, k, inner, after);
      entries := map[k := List(result)];
    } else if m[k].Map? {
      var v := m[k];
      var result := MapVisit(scope, strict, m, k, inner, after);
      RunTraced(scope, strict, v, v.entries.Keys, v.entries, inner, result);
      entries := map[k := Map(result)];
      MapComes(scope, strict, k, v, result);
    } else {
      entries := map[k := m[k]];
      ReplacedSelf(m, k, m[k]);
    }
  }

  // ------------------------------------------------------------ further visits

  lemma ElementInert(scope: Scope, e: Value, result: seq<Value>)
    requires (e.Str? ==> SafeText(scope, e.s)) && ElementSubstitutes(scope, e, result)
    ensures forall r | r in result :: r.Str? ==> Inert(scope, r.s)
  {
    if e.Str? && result != [] {
      var lines, order :| Substitutes(scope, "", e.s, Success(lines)) && IsOrderOf(order, lines.Keys)
                          && result == Ordered(order, lines);
      forall j | j in lines ensures Inert(scope, lines[j]) {
        OutputInert(scope, "", e.s, lines, j);
      }
      OrderedFrom(order, lines);
    }
  }

  lemma {:induction false} OrderedFrom(order: seq<string>, lines: Lines)
    requires forall k | k in order :: k in lines
    ensures forall r | r in Ordered(order, lines) :: exists j :: j in lines && r == Str(lines[j])
  {
    if order != [] {
      OrderedFrom(order[1..], lines);
      assert order[0] in lines;
    }
  }

  lemma {:induction false} ListInert(scope: Scope, elems: seq<Value>, result: seq<Value>)
    requires (forall e | e in elems :: e.Str? ==> SafeText(scope, e.s)) && ListSubstitutes(scope, elems, result)
    ensures forall r | r in result :: r.Str? ==> Inert(scope, r.s)
    decreases |elems|
  {
    if elems != [] {
      var front, last := LastElement(scope, elems, result);
      Snoc(elems);
      ListInert(scope, elems[..|elems| - 1], front);
      ElementInert(scope, elems[|elems| - 1], last);
    }
  }

  lemma InertAgain(scope: Scope, strict: bool, m: Attributes, k: string, inner: Schedule, after: Attributes)
    requires k in m && m[k].Str? && Inert(scope, m[k].s) && Visits(scope, strict, m, k, inner, after)
    ensures after == m
  {
    assert StableValue(scope, m[k]);
    StableVisit(scope, strict, m, k, inner, after);
  }

  lemma StringAgain(scope: Scope, strict: bool, l: string, v: Value, m: Attributes, k: string, inner: Schedule, after: Attributes)
    returns (entries: Attributes)
    requires v.Str? && SafeText(scope, v.s) && k in m && Comes(scope, strict, l, v, k, m[k])
    requires Visits(scope, strict, m, k, inner, after)
    ensures after == Replaced(m, k, entries) && AllCome(scope, strict, l, v, entries)
  {
    if k == l && m[k] == v {
      entries := StringFirst(scope, strict, m, k, inner, after);
    } else {
      var lines :| Substitutes(scope, l, v.s, Success(lines)) && k in lines && m[k].s == lines[k];
      OutputInert(scope, l, v.s, lines, k);
      InertAgain(scope, strict, m, k, inner, after);
      entries := map[k := m[k]];
      ReplacedSelf(m, k, m[k]);
    }
  }

  /** Whatever a further visit makes of an entry still comes from the same original entry. */
  lemma VisitAgain(scope: Scope, strict: bool, l: string, v: Value, m: Attributes, k: string, inner: Schedule, after: Attributes)
    returns (entries: Attributes)
    requires SafeValue(scope, v) && k in m && Comes(scope, strict, l, v, k, m[k]) && Visits(scope, strict, m, k, inner, after)
    ensures after == Replaced(m, k, entries) && AllCome(scope, strict, l, v, entries)
    decreases inner, 1
  {
    if v.Str? {
      entries := StringAgain(scope, strict, l, v, m, k, inner, after);
    } else if v.Map? {
      var result := MapVisit(scope, strict, m, k, inner, after);
      RunTraced(scope, strict, v, {}, m[k].entries, inner, result);
      entries := map[k := Map(result)];
      MapComes(scope, strict, k, v, result);
    } else {
      if v.List? { ListInert(scope, v.elems, m[k].elems); }
      StableVisit(scope, strict, m, k, inner, after);
      entries := map[k := m[k]];
      ReplacedSelf(m, k, m[k]);
    }
  }

  // ------------------------------------------------------------ whole loops

  /** Every entry is an original one still to be visited, or comes from an original one. */
  ghost predicate Traced(scope: Scope, strict: bool, v: Value, pending: set<string>, m: Attributes)
    requires v.Map?
  {
    forall j | j in m :: (j in pending && j in v.entries && m[j] == v.entries[j]) || SomeComes(scope, strict, v, j, m[j])
  }

  lemma TracedReplaced(scope: Scope, strict: bool, v: Value, pending: set<string>, m: Attributes, k: string, l: string, entries: Attributes)
    requires v.Map? && Traced(scope, strict, v, pending, m) && l in v.entries && AllCome(scope, strict, l, v.entries[l], entries)
    ensures Traced(scope, strict, v, pending - {k}, Replaced(m, k, entries))
  {
    var after := Replaced(m, k, entries);
    forall j | j in after
      ensures (j in pending - {k} && j in v.entries && after[j] == v.entries[j]) || SomeComes(scope, strict, v, j, after[j])
    {
      if j in entries {
        assert Comes(scope, strict, l, v.entries[l], j, entries[j]);
      } else {
        assert j in m && j != k && after[j] == m[j];
      }
    }
  }

  lemma VisitTraced(scope: Scope, strict: bool, v: Value, pending: set<string>, m: Attributes, k: string, inner: Schedule,
                    after: Attributes)
    requires v.Map? && SafeValue(scope, v) && Traced(scope, strict, v, pending, m) && k in m
    requires Visits(scope, strict, m, k, inner, after)
    ensures Traced(scope, strict, v, pending - {k}, after)
    decreases inner, 2
  {
    if k in v.entries && m[k] == v.entries[k] {
      var entries := VisitFirst(scope, strict, m, k, inner, after);
      TracedReplaced(scope, strict, v, pending, m, k, k, entries);
    } else {
      assert SomeComes(scope, strict, v, k, m[k]);
      var l :| l in v.entries && Comes(scope, strict, l, v.entries[l], k, m[k]);
      var entries := VisitAgain(scope, strict, l, v.entries[l], m, k, inner, after);
      TracedReplaced(scope, strict, v, pending, m, k, l, entries);
    }
  }

  /** After a range over safe entries every entry comes from one of the original map, in nested
      maps from one of the same nested map. */
  lemma {:induction false} RunTraced(scope: Scope, strict: bool, v: Value, pending: set<string>, m: Attributes, s: Schedule,
                                     after: Attributes)
    requires v.Map? && SafeValue(scope, v) && Traced(scope, strict, v, pending, m) && Runs(scope, strict, m, s, after)
    requires pending <= Visited(s)
    ensures forall j | j in after :: SomeComes(scope, strict, v, j, after[j])
    decreases s, 0
  {
    if s.Visit? {
      var mid := RunsFirst(scope, strict, m, s, after);
      VisitTraced(scope, strict, v, pending, m, s.key, s.inner, mid);
      RunTraced(scope, strict, v, pending - {s.key}, mid, s.rest, after);
    }
  }

  lemma RangeTraced(scope: Scope, strict: bool, v: Value, s: Schedule, after: Attributes)
    requires v.Map? && SafeValue(scope, v) && Ranges(scope, strict, v.entries, s, after)
    ensures forall j | j in after :: SomeComes(scope, strict, v, j, after[j])
  {
    RunTraced(scope, strict, v, v.entries.Keys, v.entries, s, after);
  }
}
