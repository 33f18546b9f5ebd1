/** What `handleSliceSub` makes of a list, element by element. */
module Slices {
  import opened Placeholders
  import opened ParameterSubstitution
  import opened MapSubstitution
  import opened References

  /** One more element. */
  lemma ConcatLast(a: seq<Value>, b: seq<Value>)
    requires b != []
    ensures (a + b)[..|a + b| - 1] == a + b[..|b| - 1] && (a + b)[|a + b| - 1] == b[|b| - 1]
  {
  }

  lemma Associative(a: seq<Value>, b: seq<Value>, c: seq<Value>)
    ensures a + (b + c) == (a + b) + c
  {
  }

  lemma LastAdded(scope: Scope, elems: seq<Value>, front: seq<Value>, last: seq<Value>)
    requires elems != [] && ListSubstitutes(scope, elems[..|elems| - 1], front)
    requires ElementSubstitutes(scope, elems[|elems| - 1], last)
    ensures ListSubstitutes(scope, elems, front + last)
  {
  }

  lemma BothLast(scope: Scope, a: seq<Value>, b: seq<Value>, ra: seq<Value>, front: seq<Value>, last: seq<Value>)
    requires b != [] && ListSubstitutes(scope, a + b[..|b| - 1], ra + front) && ElementSubstitutes(scope, b[|b| - 1], last)
    ensures ListSubstitutes(scope, a + b, ra + (front + last))
  {
    ConcatLast(a, b);
    LastAdded(scope, a + b, ra + front, last);
    Associative(ra, front, last);
  }

  lemma {:induction false} ConcatBoth(scope: Scope, a: seq<Value>, b: seq<Value>, ra: seq<Value>, rb: seq<Value>)
    requires ListSubstitutes(scope, a, ra) && ListSubstitutes(scope, b, rb)
    ensures ListSubstitutes(scope, a + b, ra + rb)
    decreases |b|
  {
    if b == [] {
      assert a + b == a && ra + rb == ra;
    } else {
      var front, last := LastElement(scope, b, rb);
      ConcatBoth(scope, a, b[..|b| - 1], ra, front);
      BothLast(scope, a, b, ra, front, last);
    }
  }

  lemma SplitLast(scope: Scope, a: seq<Value>, b: seq<Value>, result: seq<Value>) returns (front: seq<Value>, last: seq<Value>)
    requires b != [] && ListSubstitutes(scope, a + b, result)
    ensures ListSubstitutes(scope, a + b[..|b| - 1], front) && ElementSubstitutes(scope, b[|b| - 1], last) && result == front + last
  {
    ConcatLast(a, b);
    front, last := LastElement(scope, a + b, result);
  }

  lemma {:induction false} ConcatSplit(scope: Scope, a: seq<Value>, b: seq<Value>, result: seq<Value>)
    returns (ra: seq<Value>, rb: seq<Value>)
    requires ListSubstitutes(scope, a + b, result)
    ensures ListSubstitutes(scope, a, ra) && ListSubstitutes(scope, b, rb) && result == ra + rb
    decreases |b|
  {
    if b == [] {
      assert a + b == a;
      ra, rb := result, [];
    } else {
      var front, last := SplitLast(scope, a, b, result);
      var rest;
      ra, rest := ConcatSplit(scope, a, b[..|b| - 1], front);
      LastAdded(scope, b, rest, last);
      Associative(ra, rest, last);
      rb := rest + last;
    }
  }

  /** Lists are substituted piece by piece, in order. */
  lemma ListConcat(scope: Scope, a: seq<Value>, b: seq<Value>, result: seq<Value>)
    ensures ListSubstitutes(scope, a + b, result)
       <==> exists ra, rb :: ListSubstitutes(scope, a, ra) && ListSubstitutes(scope, b, rb) && result == ra + rb
  {
    if ListSubstitutes(scope, a + b, result) {
      var ra, rb := ConcatSplit(scope, a, b, result);
    }
    forall ra, rb | ListSubstitutes(scope, a, ra) && ListSubstitutes(scope, b, rb) ensures ListSubstitutes(scope, a + b, ra + rb) {
      ConcatBoth(scope, a, b, ra, rb);
    }
  }

  lemma ListOne(scope: Scope, e: Value, result: seq<Value>)
    ensures ListSubstitutes(scope, [e], result) <==> ElementSubstitutes(scope, e, result)
  {
    assert [e][..0] == [] && [] + result == result;
    assert ListSubstitutes(scope, [], []);
  }

  /** Numbers, lists and maps inside a list stay as they are. */
  lemma OtherElement(scope: Scope, e: Value, result: seq<Value>)
    requires !e.Str?
    ensures ListSubstitutes(scope, [e], result) <==> result == [e]
  {
    ListOne(scope, e, result);
  }

  /** An element that refers to a missing attribute is dropped. */
  lemma MissingElement(scope: Scope, at: Setting, result: seq<Value>)
    requires at.Valid() && at.kind == ATTR && scope.allowAttributes && at.name !in scope.attributes
    ensures ListSubstitutes(scope, [Str(at.Written())], result) <==> result == []
  {
    ListOne(scope, Str(at.Written()), result);
    forall o ensures Substitutes(scope, "", at.Written(), o) <==> o == Failure { MissingAttribute(scope, "", at, o); }
  }

  lemma OneLine(k: string, text: string, order: seq<string>)
    requires IsOrderOf(order, map[k := text].Keys)
    ensures Ordered(order, map[k := text]) == [Str(text)]
  {
    OrderedOne(order, k, text);
  }

  /** An element that refers to a string attribute becomes one element. */
  lemma StringElement(scope: Scope, at: Setting, s: string, result: seq<Value>)
    requires Reads(scope, at, Str(s))
    ensures ListSubstitutes(scope, [Str(at.Written())], result) <==> result == [Str(at.With(s))]
  {
    ListOne(scope, Str(at.Written()), result);
    var lines := map["" := at.With(s)];
    forall o ensures Substitutes(scope, "", at.Written(), o) <==> o == Success(lines) {
      ScalarReference(scope, "", at, Str(s), o);
    }
    forall order | IsOrderOf(order, lines.Keys) ensures Ordered(order, lines) == [Str(at.With(s))] {
      OneLine("", at.With(s), order);
    }
    assert IsOrderOf([""], lines.Keys);
  }

  lemma {:induction false} OrderedLines(order: seq<string>, lines: Lines)
    requires forall k | k in order :: k in lines
    ensures |Ordered(order, lines)| == |order|
    ensures forall i | 0 <= i < |order| :: Ordered(order, lines)[i] == Str(lines[order[i]])
  {
    if order != [] { OrderedLines(order[1..], lines); }
  }

  /** An element that refers to every element of a list becomes one element for each distinct
      text, in some order, and no other. */
  lemma EveryElement(scope: Scope, at: Setting, elems: seq<Value>, result: seq<Value>)
    requires Reads(scope, at, List(elems)) && at.AsksEvery() && ListSubstitutes(scope, [Str(at.Written())], result)
    ensures forall v, text | v in elems && StandsFor(scope, text, v) :: Str(at.With(text)) in result
    ensures forall r | r in result :: exists v, text :: v in elems && StandsFor(scope, text, v) && r == Str(at.With(text))
  {
    ListOne(scope, Str(at.Written()), result);
    ListEvery(scope, "", at, elems, Failure);
    var lines, order :| Substitutes(scope, "", at.Written(), Success(lines)) && IsOrderOf(order, lines.Keys)
                        && result == Ordered(order, lines);
    ListEvery(scope, "", at, elems, Success(lines));
    OrderedLines(order, lines);
    EveryThere(scope, at, Elements(elems), lines, order, result);
  }

  lemma EveryThere(scope: Scope, at: Setting, values: set<Value>, lines: Lines, order: seq<string>, result: seq<Value>)
    requires LineForEach(scope, "", at, values, lines) && IsOrderOf(order, lines.Keys) && |result| == |order|
    requires forall i | 0 <= i < |order| :: result[i] == Str(lines[order[i]])
    ensures forall v, text | v in values && StandsFor(scope, text, v) :: Str(at.With(text)) in result
    ensures forall r | r in result :: exists v, text :: v in values && StandsFor(scope, text, v) && r == Str(at.With(text))
  {
    forall v, text | v in values && StandsFor(scope, text, v) ensures Str(at.With(text)) in result {
      var j := "" + "-" + text;
      assert j in lines;
      var w, other :| w in values && StandsFor(scope, other, w) && j == "" + "-" + other && lines[j] == at.With(other);
      SuffixInverse("", text);
      SuffixInverse("", other);
      assert j in order;
      var i :| 0 <= i < |order| && order[i] == j;
      assert result[i] == Str(at.With(text));
    }
    forall r | r in result ensures exists v, text :: v in values && StandsFor(scope, text, v) && r == Str(at.With(text)) {
      var i :| 0 <= i < |result| && result[i] == r;
      assert order[i] in order;
      var v, text :| v in values && StandsFor(scope, text, v) && order[i] == "" + "-" + text && lines[order[i]] == at.With(text);
    }
  }
}
