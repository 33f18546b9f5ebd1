/** Templates as scanned text: finding all matches, printing, and filling placeholders. */
module Templates {
  import opened GoStrings
  import opened Placeholders

  /** A scanned template: plain characters and matches, left to right. */
  datatype Template = End | Lit(c: char, rest: Template) | Ref(p: Placeholder, rest: Template)

  /** `FindAllStringSubmatch(s, -1)`: leftmost matches, none overlapping, with the text between them. */
  function Scan(s: string): Template
  {
    if s == "" then End
    else
      match MatchAt(s)
      case None => Lit(s[0], Scan(s[1..]))
      case Some(p) => MatchIsPrefix(s); Ref(p, Scan(s[|Text(p)|..]))
  }

  lemma MatchIsPrefix(s: string)
    requires MatchAt(s).Some?
    ensures Text(MatchAt(s).value) <= s
  {
    var rest := MatchSound(s);
  }

  function Render(t: Template): string
  {
    match t
    case End => ""
    case Lit(c, rest) => [c] + Render(rest)
    case Ref(p, rest) => Text(p) + Render(rest)
  }

  /** The matches of a template, in order. */
  function Refs(t: Template): seq<Placeholder>
  {
    match t
    case End => []
    case Lit(_, rest) => Refs(rest)
    case Ref(p, rest) => [p] + Refs(rest)
  }

  function Append(t: Template, u: Template): Template
  {
    match t
    case End => u
    case Lit(c, rest) => Lit(c, Append(rest, u))
    case Ref(p, rest) => Ref(p, Append(rest, u))
  }

  predicate IsBrace(c: char) { c == '{' || c == '}' }

  predicate BraceFree(s: string) { forall i | 0 <= i < |s| :: !IsBrace(s[i]) }

  /** Characters other than an opening brace around placeholders of the grammar. */
  predicate Printable(t: Template)
  {
    match t
    case End => true
    case Lit(c, rest) => c != '{' && Printable(rest)
    case Ref(p, rest) => GoodPlaceholder(p) && Printable(rest)
  }

  /** Every brace belongs to a placeholder, and no placeholder has a brace inside. */
  predicate Clean(t: Template)
  {
    match t
    case End => true
    case Lit(c, rest) => !IsBrace(c) && Clean(rest)
    case Ref(p, rest) => GoodPlaceholder(p) && BraceFree(Inner(p)) && Clean(rest)
  }

  predicate WellFormed(s: string) { Clean(Scan(s)) }

  /** Puts values for placeholders, all at once; a placeholder is identified by its text. */
  function Fill(t: Template, values: map<string, string>): Template
  {
    match t
    case End => End
    case Lit(c, rest) => Lit(c, Fill(rest, values))
    case Ref(p, rest) =>
      if Text(p) in values then Append(Scan(values[Text(p)]), Fill(rest, values))
      else Ref(p, Fill(rest, values))
  }

  // ------------------------------------------------------------ scanning and printing

  /** Scanning keeps every character. */
  lemma {:induction false} RenderScan(s: string)
    ensures Render(Scan(s)) == s
  {
    if s == "" {
    } else if MatchAt(s).None? {
      RenderScan(s[1..]);
      RestOf(s, [s[0]]);
    } else {
      var text := Text(MatchAt(s).value);
      MatchIsPrefix(s);
      RenderScan(s[|text|..]);
      RestOf(s, text);
    }
  }

  /** Scanning inverts printing: the same placeholders, in the same order, with the same groups. */
  lemma {:induction false} ScanRender(t: Template)
    requires Printable(t)
    ensures Scan(Render(t)) == t
  {
    match t
    case End =>
    case Lit(c, rest) =>
      ScanRender(rest);
      assert ([c] + Render(rest))[1..] == Render(rest);
    case Ref(p, rest) =>
      ScanRender(rest);
      MatchComplete(p, Render(rest));
      assert (Text(p) + Render(rest))[|Text(p)|..] == Render(rest);
  }

  lemma {:induction false} CleanIsPrintable(t: Template)
    requires Clean(t)
    ensures Printable(t)
  {
    match t
    case End =>
    case Lit(_, rest) => CleanIsPrintable(rest);
    case Ref(_, rest) => CleanIsPrintable(rest);
  }

  lemma ScanClean(t: Template)
    requires Clean(t)
    ensures Scan(Render(t)) == t
  {
    CleanIsPrintable(t);
    ScanRender(t);
  }

  lemma {:induction false} ScanBraceFree(s: string)
    requires BraceFree(s)
    ensures Clean(Scan(s)) && Refs(Scan(s)) == []
  {
    if s != "" {
      assert !IsBrace(s[0]);
      ScanBraceFree(s[1..]);
    }
  }

  /** The text of some placeholder of the grammar begins here. */
  ghost predicate Begins(s: string) { exists p :: GoodPlaceholder(p) && Text(p) <= s }

  /** Leftmost and complete: every match is of the grammar, and outside the matches none begins. */
  ghost predicate Leftmost(t: Template)
  {
    match t
    case End => true
    case Lit(_, rest) => !Begins(Render(t)) && Leftmost(rest)
    case Ref(p, rest) => GoodPlaceholder(p) && Leftmost(rest)
  }

  lemma MatchExactlyWhen(s: string)
    ensures MatchAt(s).Some? <==> Begins(s)
  {
    if MatchAt(s).Some? {
      var rest := MatchSound(s);
      MatchIsPrefix(s);
    }
    if Begins(s) {
      var p :| GoodPlaceholder(p) && Text(p) <= s;
      PrefixMatches(p, s);
    }
  }

  /** Whatever the string, braces that match nothing included, its matches are leftmost and none
      is missed. */
  lemma {:induction false} ScanLeftmost(s: string)
    ensures Leftmost(Scan(s))
  {
    if s != "" {
      MatchExactlyWhen(s);
      if MatchAt(s).None? {
        RenderScan(s);
        ScanLeftmost(s[1..]);
      } else {
        var rest := MatchSound(s);
        ScanLeftmost(s[|Text(MatchAt(s).value)|..]);
      }
    }
  }

  /** And there is only one such way to cut a string into text and matches. */
  lemma {:induction false} LeftmostUnique(t: Template)
    requires Leftmost(t)
    ensures Scan(Render(t)) == t
  {
    match t
    case End =>
    case Lit(c, rest) =>
      MatchExactlyWhen(Render(t));
      LeftmostUnique(rest);
      assert ([c] + Render(rest))[1..] == Render(rest);
    case Ref(p, rest) =>
      LeftmostUnique(rest);
      MatchComplete(p, Render(rest));
      assert (Text(p) + Render(rest))[|Text(p)|..] == Render(rest);
  }

  /** Two placeholders with the same text are the same placeholder. */
  lemma TextInjective(p: Placeholder, q: Placeholder)
    requires GoodPlaceholder(p) && GoodPlaceholder(q) && Text(p) == Text(q)
    ensures p == q
  {
    Unambiguous(p, q, Text(p));
  }

  lemma {:induction false} CleanRef(t: Template, p: Placeholder)
    requires Clean(t) && p in Refs(t)
    ensures GoodPlaceholder(p) && BraceFree(Inner(p)) && Braced(Text(p))
  {
    match t
    case End =>
    case Lit(_, rest) => CleanRef(rest, p);
    case Ref(q, rest) =>
      if p == q {
        InnerOf(p);
      } else {
        CleanRef(rest, p);
      }
  }

  lemma InnerOf(p: Placeholder)
    ensures Text(p)[1..|Text(p)| - 1] == Inner(p)
  {
  }

  // ------------------------------------------------------------ concatenation

  lemma {:induction false} RenderAppend(t: Template, u: Template)
    ensures Render(Append(t, u)) == Render(t) + Render(u)
  {
    match t
    case End =>
    case Lit(c, rest) =>
      RenderAppend(rest, u);
      Assoc([c], Render(rest), Render(u));
    case Ref(p, rest) =>
      RenderAppend(rest, u);
      Assoc(Text(p), Render(rest), Render(u));
  }

  lemma {:induction false} RefsAppend(t: Template, u: Template)
    ensures Refs(Append(t, u)) == Refs(t) + Refs(u)
  {
    match t
    case End =>
    case Lit(_, rest) => RefsAppend(rest, u);
    case Ref(_, rest) => RefsAppend(rest, u);
  }

  lemma {:induction false} CleanAppend(t: Template, u: Template)
    requires Clean(t) && Clean(u)
    ensures Clean(Append(t, u))
  {
    match t
    case End =>
    case Lit(_, rest) => CleanAppend(rest, u);
    case Ref(_, rest) => CleanAppend(rest, u);
  }

  lemma {:induction false} FillAppend(t: Template, u: Template, values: map<string, string>)
    ensures Fill(Append(t, u), values) == Append(Fill(t, values), Fill(u, values))
  {
    match t
    case End =>
    case Lit(_, rest) => FillAppend(rest, u, values);
    case Ref(p, rest) =>
      FillAppend(rest, u, values);
      if Text(p) in values {
        AppendAssoc(Scan(values[Text(p)]), Fill(rest, values), Fill(u, values));
      }
  }

  lemma {:induction false} AppendAssoc(t: Template, u: Template, v: Template)
    ensures Append(Append(t, u), v) == Append(t, Append(u, v))
  {
    match t
    case End =>
    case Lit(_, rest) => AppendAssoc(rest, u, v);
    case Ref(_, rest) => AppendAssoc(rest, u, v);
  }

  // ------------------------------------------------------------ filling

  predicate WellFormedValues(values: map<string, string>)
  {
    forall k | k in values :: WellFormed(values[k])
  }

  lemma {:induction false} FillClean(t: Template, values: map<string, string>)
    requires Clean(t) && WellFormedValues(values)
    ensures Clean(Fill(t, values))
  {
    match t
    case End =>
    case Lit(_, rest) => FillClean(rest, values);
    case Ref(p, rest) =>
      FillClean(rest, values);
      if Text(p) in values { CleanAppend(Scan(values[Text(p)]), Fill(rest, values)); }
  }

  lemma {:induction false} FillUntouched(t: Template, values: map<string, string>)
    requires forall p | p in Refs(t) :: Text(p) !in values
    ensures Fill(t, values) == t
  {
    match t
    case End =>
    case Lit(_, rest) => FillUntouched(rest, values);
    case Ref(p, rest) =>
      assert p in Refs(t);
      FillUntouched(rest, values);
  }

  /** No placeholder inside a value of `first` is one that `second` fills. */
  ghost predicate Independent(first: map<string, string>, second: map<string, string>)
  {
    forall k, p | k in first && p in Refs(Scan(first[k])) :: Text(p) !in second
  }

  /** Filling twice is filling once, the first values taking precedence. */
  lemma {:induction false} FillFill(t: Template, first: map<string, string>, second: map<string, string>)
    requires Independent(first, second)
    ensures Fill(Fill(t, first), second) == Fill(t, second + first)
  {
    match t
    case End =>
    case Lit(_, rest) => FillFill(rest, first, second);
    case Ref(p, rest) =>
      FillFill(rest, first, second);
      if Text(p) in first {
        var value := Scan(first[Text(p)]);
        FillAppend(value, Fill(rest, first), second);
        FillUntouched(value, second);
      }
  }

  /** Maps that agree on the placeholders present fill alike. */
  lemma {:induction false} FillSame(t: Template, a: map<string, string>, b: map<string, string>)
    requires forall p | p in Refs(t) ::
               (Text(p) in a <==> Text(p) in b) && (Text(p) in a ==> a[Text(p)] == b[Text(p)])
    ensures Fill(t, a) == Fill(t, b)
  {
    match t
    case End =>
    case Lit(_, rest) => FillSame(rest, a, b);
    case Ref(p, rest) =>
      assert p in Refs(t);
      FillSame(rest, a, b);
  }

  /** What remains after filling: an untouched placeholder, or one inside a value put in. */
  lemma {:induction false} FillRefs(t: Template, values: map<string, string>, q: Placeholder)
    requires q in Refs(Fill(t, values))
    ensures (q in Refs(t) && Text(q) !in values)
            || exists p :: p in Refs(t) && Text(p) in values && q in Refs(Scan(values[Text(p)]))
  {
    match t
    case End =>
    case Lit(_, rest) => FillRefs(rest, values, q);
    case Ref(p, rest) =>
      assert p in Refs(t);
      if Text(p) in values {
        RefsAppend(Scan(values[Text(p)]), Fill(rest, values));
        if q !in Refs(Scan(values[Text(p)])) { FillRefs(rest, values, q); }
      } else if q != p {
        FillRefs(rest, values, q);
      }
  }

  // ------------------------------------------------------------ replacing text is filling

  /** A pattern that opens and closes one pair of braces. */
  predicate Braced(pat: string)
  {
    |pat| >= 2 && pat[0] == '{' && pat[|pat| - 1] == '}' && BraceFree(pat[1..|pat| - 1])
  }

  lemma ReplaceSteps(c: char, s: string, pat: string, sub: string)
    requires pat != "" && c != pat[0]
    ensures ReplaceAll([c] + s, pat, sub) == [c] + ReplaceAll(s, pat, sub)
    ensures ReplaceFirst([c] + s, pat, sub) == [c] + ReplaceFirst(s, pat, sub)
  {
    assert ([c] + s)[1..] == s;
  }

  /** Replacing passes over text that has no opening brace. */
  lemma {:induction false} ReplacePassesOver(u: string, rest: string, pat: string, sub: string)
    requires Braced(pat) && forall i | 0 <= i < |u| :: u[i] != '{'
    ensures ReplaceAll(u + rest, pat, sub) == u + ReplaceAll(rest, pat, sub)
    ensures ReplaceFirst(u + rest, pat, sub) == u + ReplaceFirst(rest, pat, sub)
  {
    if u == "" {
      assert u + rest == rest;
    } else {
      var c, v := u[0], u[1..];
      assert u == [c] + v;
      ReplacePassesOver(v, rest, pat, sub);
      Assoc([c], v, rest);
      ReplaceSteps(c, v + rest, pat, sub);
      Assoc([c], v, ReplaceAll(rest, pat, sub));
      Assoc([c], v, ReplaceFirst(rest, pat, sub));
    }
  }

  /** A braced pattern occurs at a clean placeholder only as its whole text. */
  lemma BracedPrefix(p: Placeholder, rest: string, pat: string)
    requires BraceFree(Inner(p)) && Braced(pat)
    ensures pat <= Text(p) + rest <==> pat == Text(p)
  {
    var t := Text(p);
    InnerOf(p);
    if pat <= t + rest {
      BracedLength(pat, t, rest);
    }
  }

  lemma BracedLength(a: string, b: string, rest: string)
    requires Braced(a) && Braced(b) && a <= b + rest
    ensures a == b
  {
    var s := b + rest;
    assert forall i | 0 < i < |a| - 1 :: !IsBrace(a[i]) by {
      assert forall i | 0 < i < |a| - 1 :: a[i] == a[1..|a| - 1][i - 1];
    }
    assert forall i | 0 < i < |b| - 1 :: !IsBrace(b[i]) by {
      assert forall i | 0 < i < |b| - 1 :: b[i] == b[1..|b| - 1][i - 1];
    }
    assert s[|a| - 1] == a[|a| - 1] && s[|b| - 1] == b[|b| - 1];
    assert |a| <= |b| ==> b[|a| - 1] == s[|a| - 1];
    assert |b| <= |a| ==> a[|b| - 1] == s[|b| - 1];
    assert |a| == |b|;
    assert a == s[..|a|] == b;
  }

  lemma SkipPlaceholder(p: Placeholder, rest: string, pat: string, sub: string)
    requires BraceFree(Inner(p)) && Braced(pat) && pat != Text(p)
    ensures ReplaceAll(Text(p) + rest, pat, sub) == Text(p) + ReplaceAll(rest, pat, sub)
    ensures ReplaceFirst(Text(p) + rest, pat, sub) == Text(p) + ReplaceFirst(rest, pat, sub)
  {
    var u := Inner(p) + "}";
    BracedPrefix(p, rest, pat);
    assert Text(p) == "{" + u;
    Assoc("{", u, rest);
    assert (Text(p) + rest)[1..] == u + rest;
    ReplacePassesOver(u, rest, pat, sub);
    Assoc("{", u, ReplaceAll(rest, pat, sub));
    Assoc("{", u, ReplaceFirst(rest, pat, sub));
  }

  /** One textual replace-all on a clean template is filling one placeholder everywhere. */
  lemma {:induction false} ReplaceIsFill(t: Template, pat: string, sub: string)
    requires Clean(t) && Braced(pat)
    ensures ReplaceAll(Render(t), pat, sub) == Render(Fill(t, map[pat := sub]))
  {
    match t
    case End =>
    case Lit(c, rest) =>
      ReplaceIsFill(rest, pat, sub);
      ReplaceSteps(c, Render(rest), pat, sub);
    case Ref(p, rest) =>
      ReplaceIsFill(rest, pat, sub);
      BracedPrefix(p, Render(rest), pat);
      if pat == Text(p) {
        assert (pat + Render(rest))[|pat|..] == Render(rest);
        RenderScan(sub);
        RenderAppend(Scan(sub), Fill(rest, map[pat := sub]));
      } else {
        SkipPlaceholder(p, Render(rest), pat, sub);
      }
  }
}
