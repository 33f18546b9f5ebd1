/** The placeholder grammar: what the substitution regular expression recognises, and how a
    template is scanned for its matches. */
module Placeholders {
  import opened GoStrings

  datatype VarKind = ATTR | VAR | ENV

  /** The optional bracket part of a placeholder, with the white space the pattern allows. */
  datatype Bracket =
    | Absent
    | Empty(gap: string)
    | Index(before: string, digits: string, after: string)
    | Quoted(before: string, quote: char, key: string, after: string)

  datatype Placeholder = Placeholder(kind: VarKind, name: string, bracket: Bracket)

  predicate IsSpace(c: char) { c in {'\t', '\n', '\U{0C}', '\r', ' '} }

  predicate IsDigit(c: char) { '0' <= c <= '9' }

  predicate IsNameStart(c: char) { 'a' <= c <= 'z' || 'A' <= c <= 'Z' || c == '_' }

  predicate IsNameChar(c: char) { IsNameStart(c) || IsDigit(c) }

  predicate IsQuote(c: char) { c == '\'' || c == '"' }

  predicate All(s: string, f: char -> bool) { forall i | 0 <= i < |s| :: f(s[i]) }

  predicate GoodBracket(b: Bracket)
  {
    match b
    case Absent => true
    case Empty(gap) => All(gap, IsSpace)
    case Index(before, digits, after) =>
      All(before, IsSpace) && digits != "" && All(digits, IsDigit) && All(after, IsSpace)
    case Quoted(before, quote, key, after) =>
      All(before, IsSpace) && IsQuote(quote) && All(key, c => c != quote) && All(after, IsSpace)
  }

  predicate GoodPlaceholder(p: Placeholder)
  {
    p.name != "" && IsNameStart(p.name[0]) && All(p.name, IsNameChar) && GoodBracket(p.bracket)
  }

  function KindText(k: VarKind): string
  {
    match k case ATTR => "ATTR" case VAR => "VAR" case ENV => "ENV"
  }

  function BracketText(b: Bracket): string
  {
    match b
    case Absent => ""
    case Empty(gap) => "[" + (gap + "]")
    case Index(before, digits, after) => "[" + (before + (digits + (after + "]")))
    case Quoted(before, quote, key, after) => "[" + (before + ([quote] + (key + ([quote] + (after + "]")))))
  }

  /** The text between the braces of a placeholder. */
  function Inner(p: Placeholder): string
  {
    KindText(p.kind) + ("::" + (p.name + BracketText(p.bracket)))
  }

  /** The whole matched text, group 0 of the pattern. The language of the pattern is
      `Text(p)` for every good placeholder `p`. */
  function Text(p: Placeholder): (t: string)
    ensures |t| >= 2 && t[0] == '{' && t[|t| - 1] == '}'
  {
    "{" + (Inner(p) + "}")
  }

  // ------------------------------------------------------------ recognising

  /** Splits off the longest prefix of `s` whose characters all satisfy `f`. */
  function Cut(s: string, f: char -> bool): (r: (string, string))
    ensures r.0 + r.1 == s && All(r.0, f) && (r.1 != "" ==> !f(r.1[0]))
  {
    if s == "" || !f(s[0]) then ("", s)
    else var (u, v) := Cut(s[1..], f); ([s[0]] + u, v)
  }

  /** What follows the literal `lit` at the head of `s`. */
  function After(s: string, lit: string): (r: Option<string>)
    ensures r.Some? ==> s == lit + r.value
  {
    if lit <= s then Some(s[|lit|..]) else None
  }

  /** What follows a numeric index or a closing quote: white space, then the end. */
  function TailAt(s: string): Option<string>
  {
    var (gap, t) := Cut(s, IsSpace);
    if After(t, "]}").Some? then Some(gap) else None
  }

  /** What follows an opening bracket and its white space. */
  function ReferenceAt(gap: string, t: string): Option<Bracket>
  {
    if After(t, "]}").Some? then Some(Empty(gap))
    else if t == "" then None
    else if IsDigit(t[0]) then
      var (digits, rest) := Cut(t, IsDigit);
      match TailAt(rest)
      case None => None
      case Some(after) => Some(Index(gap, digits, after))
    else if IsQuote(t[0]) then
      var (key, rest) := Cut(t[1..], c => c != t[0]);
      if rest == "" then None
      else
        match TailAt(rest[1..])
        case None => None
        case Some(after) => Some(Quoted(gap, t[0], key, after))
    else None
  }

  /** Recognises the bracket part and the closing brace at the head of `s`. */
  function BracketAt(s: string): Option<Bracket>
  {
    if After(s, "}").Some? then Some(Absent)
    else
      match After(s, "[")
      case None => None
      case Some(t) => var (gap, u) := Cut(t, IsSpace); ReferenceAt(gap, u)
  }

  function KindAt(s: string): Option<VarKind>
  {
    if "ATTR::" <= s then Some(ATTR)
    else if "VAR::" <= s then Some(VAR)
    else if "ENV::" <= s then Some(ENV)
    else None
  }

  /** Recognises a name and what follows it. */
  function NameAt(kind: VarKind, t: string): Option<Placeholder>
  {
    if t == "" || !IsNameStart(t[0]) then None
    else
      var (name, u) := Cut(t, IsNameChar);
      match BracketAt(u)
      case None => None
      case Some(b) => Some(Placeholder(kind, name, b))
  }

  /** Recognises a placeholder at the head of `s`. */
  function MatchAt(s: string): Option<Placeholder>
  {
    match After(s, "{")
    case None => None
    case Some(t) =>
      match KindAt(t)
      case None => None
      case Some(kind) => NameAt(kind, t[|KindText(kind)| + 2..])
  }

  // ------------------------------------------------------------ recogniser and grammar agree

  lemma Assoc(a: string, b: string, c: string)
    ensures a + b + c == a + (b + c)
  {
  }

  /** The bracket part and what follows it, opened up piece by piece. */
  lemma BracketLayout(b: Bracket, rest: string)
    ensures BracketText(b) + ("}" + rest) ==
            match b
            case Absent => "}" + rest
            case Empty(gap) => "[" + (gap + ("]}" + rest))
            case Index(before, digits, after) => "[" + (before + (digits + (after + ("]}" + rest))))
            case Quoted(before, quote, key, after) =>
              "[" + (before + ([quote] + (key + ([quote] + (after + ("]}" + rest))))))
  {
    var y := "}" + rest;
    assert "]" + y == "]}" + rest;
    match b
    case Absent =>
    case Empty(gap) =>
      Assoc("[", gap + "]", y); Assoc(gap, "]", y);
    case Index(before, digits, after) =>
      Assoc("[", before + (digits + (after + "]")), y); Assoc(before, digits + (after + "]"), y);
      Assoc(digits, after + "]", y); Assoc(after, "]", y);
    case Quoted(before, quote, key, after) =>
      var close := [quote] + (after + "]");
      Assoc("[", before + ([quote] + (key + close)), y); Assoc(before, [quote] + (key + close), y);
      Assoc([quote], key + close, y); Assoc(key, close, y); Assoc([quote], after + "]", y); Assoc(after, "]", y);
  }

  /** A placeholder and what follows it, opened up piece by piece. */
  lemma TextLayout(p: Placeholder, rest: string)
    ensures Text(p) + rest
         == "{" + ((KindText(p.kind) + "::") + (p.name + (BracketText(p.bracket) + ("}" + rest))))
  {
    var b := BracketText(p.bracket);
    Assoc("{", Inner(p) + "}", rest); Assoc(Inner(p), "}", rest);
    Assoc(KindText(p.kind), "::" + (p.name + b), "}" + rest); Assoc("::", p.name + b, "}" + rest);
    Assoc(p.name, b, "}" + rest); Assoc(KindText(p.kind), "::", p.name + (b + ("}" + rest)));
  }

  lemma AfterExact(lit: string, rest: string)
    ensures After(lit + rest, lit) == Some(rest)
  {
  }

  lemma {:induction false} CutExact(u: string, rest: string, f: char -> bool)
    requires All(u, f) && (rest == "" || !f(rest[0]))
    ensures Cut(u + rest, f) == (u, rest)
  {
    if u == "" {
      assert u + rest == rest;
    } else {
      assert (u + rest)[1..] == u[1..] + rest;
      assert [u[0]] + u[1..] == u;
      CutExact(u[1..], rest, f);
    }
  }

  lemma TailComplete(after: string, rest: string)
    requires All(after, IsSpace)
    ensures TailAt(after + ("]}" + rest)) == Some(after)
  {
    CutExact(after, "]}" + rest, IsSpace);
    AfterExact("]}", rest);
  }

  lemma {:induction false} CutSame(s: string, f: char -> bool, g: char -> bool)
    requires forall c :: f(c) == g(c)
    ensures Cut(s, f) == Cut(s, g)
  {
    if s != "" { CutSame(s[1..], f, g); }
  }

  lemma IndexComplete(before: string, digits: string, after: string, rest: string)
    requires digits != "" && All(digits, IsDigit) && All(after, IsSpace)
    ensures ReferenceAt(before, digits + (after + ("]}" + rest))) == Some(Index(before, digits, after))
  {
    var tail := after + ("]}" + rest);
    assert tail[0] == if after != "" then after[0] else ']';
    CutExact(digits, tail, IsDigit);
    TailComplete(after, rest);
  }

  lemma QuotedComplete(before: string, quote: char, key: string, after: string, rest: string)
    requires IsQuote(quote) && All(key, c => c != quote) && All(after, IsSpace)
    ensures ReferenceAt(before, [quote] + (key + ([quote] + (after + ("]}" + rest)))))
         == Some(Quoted(before, quote, key, after))
  {
    var close := [quote] + (after + ("]}" + rest));
    var t := [quote] + (key + close);
    assert t[1..] == key + close && t[0] == quote;
    CutExact(key, close, c => c != quote);
    CutSame(key + close, c => c != quote, c => c != t[0]);
    assert close[1..] == after + ("]}" + rest);
    TailComplete(after, rest);
  }

  lemma BracketComplete(b: Bracket, rest: string)
    requires GoodBracket(b)
    ensures BracketAt(BracketText(b) + ("}" + rest)) == Some(b)
  {
    BracketLayout(b, rest);
    match b
    case Absent =>
      AfterExact("}", rest);
    case Empty(gap) =>
      OpenComplete(gap, "]}" + rest);
      AfterExact("]}", rest);
    case Index(before, digits, after) =>
      OpenComplete(before, digits + (after + ("]}" + rest)));
      IndexComplete(before, digits, after, rest);
    case Quoted(before, quote, key, after) =>
      OpenComplete(before, [quote] + (key + ([quote] + (after + ("]}" + rest)))));
      QuotedComplete(before, quote, key, after, rest);
  }

  lemma OpenComplete(gap: string, t: string)
    requires All(gap, IsSpace) && t != "" && !IsSpace(t[0])
    ensures BracketAt("[" + (gap + t)) == ReferenceAt(gap, t)
  {
    AfterExact("[", gap + t);
    CutExact(gap, t, IsSpace);
  }

  lemma NameComplete(p: Placeholder, rest: string)
    requires GoodPlaceholder(p)
    ensures NameAt(p.kind, p.name + (BracketText(p.bracket) + ("}" + rest))) == Some(p)
  {
    var u := BracketText(p.bracket) + ("}" + rest);
    assert u[0] == '}' || u[0] == '[';
    CutExact(p.name, u, IsNameChar);
    BracketComplete(p.bracket, rest);
  }

  lemma KindComplete(kind: VarKind, u: string)
    ensures KindAt((KindText(kind) + "::") + u) == Some(kind)
    ensures ((KindText(kind) + "::") + u)[|KindText(kind)| + 2..] == u
  {
    assert ((KindText(kind) + "::") + u)[0] == KindText(kind)[0];
    assert KindText(kind) + "::" <= (KindText(kind) + "::") + u;
  }

  /** Every text of the grammar is recognised, with its own groups, whatever follows it. */
  lemma MatchComplete(p: Placeholder, rest: string)
    requires GoodPlaceholder(p)
    ensures MatchAt(Text(p) + rest) == Some(p)
  {
    var u := p.name + (BracketText(p.bracket) + ("}" + rest));
    var t := (KindText(p.kind) + "::") + u;
    TextLayout(p, rest);
    AfterExact("{", t);
    KindComplete(p.kind, u);
    NameComplete(p, rest);
  }

  lemma TailSound(s: string) returns (rest: string)
    requires TailAt(s).Some?
    ensures All(TailAt(s).value, IsSpace) && s == TailAt(s).value + ("]}" + rest)
  {
    var (gap, t) := Cut(s, IsSpace);
    rest := After(t, "]}").value;
  }

  lemma ReferenceSound(gap: string, t: string) returns (rest: string)
    requires ReferenceAt(gap, t).Some? && All(gap, IsSpace)
    ensures GoodBracket(ReferenceAt(gap, t).value)
    ensures "[" + (gap + t) == BracketText(ReferenceAt(gap, t).value) + ("}" + rest)
  {
    var b := ReferenceAt(gap, t).value;
    match b
    case Empty(_) =>
      rest := After(t, "]}").value;
      BracketLayout(b, rest);
    case Index(_, digits, after) =>
      var (_, tail) := Cut(t, IsDigit);
      rest := TailSound(tail);
      BracketLayout(b, rest);
    case Quoted(_, quote, key, after) =>
      var (_, tail) := Cut(t[1..], c => c != t[0]);
      rest := TailSound(tail[1..]);
      assert tail == [quote] + tail[1..];
      assert t == [quote] + t[1..];
      BracketLayout(b, rest);
  }

  lemma BracketSound(s: string) returns (rest: string)
    requires BracketAt(s).Some?
    ensures GoodBracket(BracketAt(s).value)
    ensures s == BracketText(BracketAt(s).value) + ("}" + rest)
  {
    if After(s, "}").Some? {
      rest := After(s, "}").value;
      BracketLayout(Absent, rest);
    } else {
      var (gap, u) := Cut(After(s, "[").value, IsSpace);
      rest := ReferenceSound(gap, u);
    }
  }

  lemma KindSound(r: string)
    requires KindAt(r).Some?
    ensures |KindText(KindAt(r).value)| + 2 <= |r|
    ensures r == (KindText(KindAt(r).value) + "::") + r[|KindText(KindAt(r).value)| + 2..]
  {
    match KindAt(r).value
    case ATTR => assert "ATTR" + "::" == "ATTR::"; assert r == "ATTR::" + r[6..];
    case VAR => assert "VAR" + "::" == "VAR::"; assert r == "VAR::" + r[5..];
    case ENV => assert "ENV" + "::" == "ENV::"; assert r == "ENV::" + r[5..];
  }

  lemma NameSound(kind: VarKind, t: string) returns (rest: string)
    requires NameAt(kind, t).Some?
    ensures GoodPlaceholder(NameAt(kind, t).value) && NameAt(kind, t).value.kind == kind
    ensures var p := NameAt(kind, t).value; t == p.name + (BracketText(p.bracket) + ("}" + rest))
  {
    var (name, u) := Cut(t, IsNameChar);
    rest := BracketSound(u);
  }

  /** Whatever is recognised is a text of the grammar. */
  lemma MatchSound(s: string) returns (rest: string)
    requires MatchAt(s).Some?
    ensures GoodPlaceholder(MatchAt(s).value)
    ensures s == Text(MatchAt(s).value) + rest
  {
    var p := MatchAt(s).value;
    var r := After(s, "{").value;
    KindSound(r);
    rest := NameSound(KindAt(r).value, r[|KindText(KindAt(r).value)| + 2..]);
    TextLayout(p, rest);
  }

  lemma RestOf(s: string, front: string)
    requires front <= s
    ensures front + s[|front|..] == s
  {
  }

  lemma PrefixMatches(p: Placeholder, s: string)
    requires GoodPlaceholder(p) && Text(p) <= s
    ensures MatchAt(s) == Some(p)
  {
    RestOf(s, Text(p));
    MatchComplete(p, s[|Text(p)|..]);
  }

  /** The grammar is unambiguous: at one starting point there is at most one end and at most
      one assignment of the groups, so neither greediness nor alternation order matters. */
  lemma Unambiguous(p: Placeholder, q: Placeholder, s: string)
    requires GoodPlaceholder(p) && GoodPlaceholder(q)
    requires Text(p) <= s && Text(q) <= s
    ensures p == q
  {
    PrefixMatches(p, s);
    PrefixMatches(q, s);
  }
}
