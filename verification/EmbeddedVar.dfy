/** The record the SDK makes of a match: `EmbeddedVar` and `matchToEmbeddedVars`. */
module EmbeddedVars {
  import opened GoStrings
  import opened Placeholders
  import opened Templates

  datatype EmbeddedVar =
    EmbeddedVar(kind: VarKind, varname: string, isArrayOrMap: bool, arrayIndex: int, mapIndex: string)

  /** The largest value of Go's `int` on a 64-bit platform. */
  const MAX_INT := 0x7fff_ffff_ffff_ffff

  function DigitValue(c: char): (d: nat)
    ensures d <= 9
  {
    if IsDigit(c) then c as int - '0' as int else 0
  }

  function Decimal(digits: string): nat
  {
    if digits == "" then 0
    else 10 * Decimal(digits[..|digits| - 1]) + DigitValue(digits[|digits| - 1])
  }

  /** `strconv.Atoi` on a string of decimal digits: nothing when the value overflows. */
  function Atoi(digits: string): Option<nat>
  {
    if Decimal(digits) <= MAX_INT then Some(Decimal(digits)) else None
  }

  /** `matchToEmbeddedVars`; an empty quoted key counts as no bracket at all. */
  function MatchToEmbeddedVars(p: Placeholder): EmbeddedVar
  {
    match p.bracket
    case Absent => EmbeddedVar(p.kind, p.name, false, -1, "")
    case Empty(_) => EmbeddedVar(p.kind, p.name, true, -1, "")
    case Index(_, digits, _) =>
      (match Atoi(digits)
       case Some(i) => EmbeddedVar(p.kind, p.name, true, i, "")
       case None => EmbeddedVar(p.kind, p.name, true, -1, ""))
    case Quoted(_, _, key, _) => EmbeddedVar(p.kind, p.name, key != "", -1, key)
  }

  // ------------------------------------------------------------ printing references

  function DigitChar(d: nat): (c: char)
    requires d <= 9
    ensures IsDigit(c) && DigitValue(c) == d
  {
    ('0' as int + d) as char
  }

  function Digits(n: nat): (s: string)
    ensures s != "" && All(s, IsDigit)
  {
    if n <= 9 then [DigitChar(n)] else Digits(n / 10) + [DigitChar(n % 10)]
  }

  lemma {:induction false} DecimalDigits(n: nat)
    ensures Decimal(Digits(n)) == n
  {
    if n <= 9 {
      assert Digits(n)[..0] == "";
    } else {
      DecimalDigits(n / 10);
      assert Digits(n)[..|Digits(n)| - 1] == Digits(n / 10);
    }
  }

  /** What a template author can refer to: a whole variable, every element, one index, one key. */
  datatype Reference = Whole | Every | At(i: nat) | Keyed(key: string, quote: char)

  function PlaceholderFor(kind: VarKind, name: string, ref: Reference, before: string, after: string): Placeholder
  {
    Placeholder(kind, name,
                match ref
                case Whole => Absent
                case Every => Empty(before)
                case At(i) => Index(before, Digits(i), after)
                case Keyed(key, quote) => Quoted(before, quote, key, after))
  }

  predicate GoodReference(ref: Reference)
  {
    match ref
    case Keyed(key, quote) => IsQuote(quote) && key != "" && All(key, c => c != quote)
    case _ => true
  }

  /** A written reference is read back with its type, name, key and index; an index too large
      for an `int` is read as a reference to every element. */
  lemma ReferenceRecovered(kind: VarKind, name: string, ref: Reference, before: string, after: string)
    requires name != "" && IsNameStart(name[0]) && All(name, IsNameChar)
    requires All(before, IsSpace) && All(after, IsSpace) && GoodReference(ref)
    ensures GoodPlaceholder(PlaceholderFor(kind, name, ref, before, after))
    ensures MatchToEmbeddedVars(PlaceholderFor(kind, name, ref, before, after)) ==
            match ref
            case Whole => EmbeddedVar(kind, name, false, -1, "")
            case Every => EmbeddedVar(kind, name, true, -1, "")
            case At(i) => EmbeddedVar(kind, name, true, if i <= MAX_INT then i else -1, "")
            case Keyed(key, _) => EmbeddedVar(kind, name, true, -1, key)
  {
    if ref.At? { DecimalDigits(ref.i); }
  }

  /** An empty quoted key is read as no bracket at all, and zeros before an index change nothing. */
  lemma {:induction false} BracketVariants(kind: VarKind, name: string, before: string, quote: char, digits: string, after: string)
    ensures MatchToEmbeddedVars(Placeholder(kind, name, Quoted(before, quote, "", after)))
         == MatchToEmbeddedVars(Placeholder(kind, name, Absent))
    ensures MatchToEmbeddedVars(Placeholder(kind, name, Index(before, "0" + digits, after)))
         == MatchToEmbeddedVars(Placeholder(kind, name, Index(before, digits, after)))
  {
    LeadingZero(digits);
  }

  lemma {:induction false} LeadingZero(digits: string)
    ensures Decimal("0" + digits) == Decimal(digits)
  {
    var n := |digits|;
    if n == 0 {
      assert "0" + digits == "0" && "0"[..0] == "";
    } else {
      LeadingZero(digits[..n - 1]);
      assert ("0" + digits)[..n] == "0" + digits[..n - 1];
    }
  }

  /** `FindAllStringSubmatch` on a printed template returns its placeholders, in order. */
  lemma FindAllInvertsPrinting(t: Template)
    requires Printable(t)
    ensures Refs(Scan(Render(t))) == Refs(t)
  {
    ScanRender(t);
  }
}
