/** The functions of Go's `strings` package that the SDK relies on. */
module GoStrings {

  datatype Option<+T> = None | Some(value: T)

  /** `strings.Replace(s, pat, sub, -1)` for a non-empty pattern: leftmost, non-overlapping. */
  function ReplaceAll(s: string, pat: string, sub: string): string
    requires pat != ""
  {
    if s == "" then ""
    else if pat <= s then sub + ReplaceAll(s[|pat|..], pat, sub)
    else [s[0]] + ReplaceAll(s[1..], pat, sub)
  }

  /** `strings.Replace(s, pat, sub, 1)` for a non-empty pattern. */
  function ReplaceFirst(s: string, pat: string, sub: string): string
    requires pat != ""
  {
    if s == "" then ""
    else if pat <= s then sub + s[|pat|..]
    else [s[0]] + ReplaceFirst(s[1..], pat, sub)
  }

  /** `strings.Split` on a one-character separator. */
  function Split(s: string, sep: char): (fields: seq<string>)
    ensures fields != []
    ensures forall f | f in fields :: sep !in f
  {
    if s == "" then [""]
    else
      var rest := Split(s[1..], sep);
      if s[0] == sep then [""] + rest else [[s[0]] + rest[0]] + rest[1..]
  }

  function Join(parts: seq<string>, sep: char): string
  {
    if parts == [] then ""
    else if |parts| == 1 then parts[0]
    else parts[0] + [sep] + Join(parts[1..], sep)
  }

  /** Splitting loses nothing: leading, trailing and repeated separators come back. */
  lemma {:induction false} JoinSplit(s: string, sep: char)
    ensures Join(Split(s, sep), sep) == s
  {
    if s != "" {
      JoinSplit(s[1..], sep);
      var rest := Split(s[1..], sep);
      if s[0] == sep {
        assert ([""] + rest)[1..] == rest;
      } else {
        var all := [[s[0]] + rest[0]] + rest[1..];
        assert all[1..] == rest[1..];
        if |rest| == 1 {
          assert Join(all, sep) == [s[0]] + s[1..];
        }
      }
    }
  }

  /** The fields of a split are the only separator-free list that joins back to the string. */
  lemma {:induction false} SplitJoin(parts: seq<string>, sep: char)
    requires parts != [] && forall f | f in parts :: sep !in f
    ensures Split(Join(parts, sep), sep) == parts
    decreases |parts|, |parts[0]|
  {
    if parts[0] == "" {
      if |parts| > 1 {
        SplitJoin(parts[1..], sep);
        assert Join(parts, sep) == [sep] + Join(parts[1..], sep);
      }
    } else {
      var shorter := [parts[0][1..]] + parts[1..];
      assert forall f | f in shorter :: sep !in f by {
        assert forall i | 0 <= i < |parts| :: parts[i] in parts;
      }
      JoinHead(parts, sep);
      SplitJoin(shorter, sep);
      assert Join(parts, sep)[1..] == Join(shorter, sep);
      assert parts[0] in parts && parts[0][0] != sep;
      assert [parts[0][0]] + shorter[0] == parts[0];
    }
  }

  /** Everything up to the first separator is the first field. */
  lemma {:induction false} SplitHead(field: string, rest: string, sep: char)
    requires sep !in field
    ensures Split(field, sep) == [field]
    ensures Split(field + [sep] + rest, sep) == [field] + Split(rest, sep)
  {
    if field == "" {
      assert ([sep] + rest)[1..] == rest && field + [sep] + rest == [sep] + rest;
    } else {
      var tail := field[1..];
      SplitHead(tail, rest, sep);
      assert (field + [sep] + rest)[1..] == tail + [sep] + rest;
      assert [field[0]] + tail == field && [tail][0] == tail;
    }
  }

  lemma JoinHead(parts: seq<string>, sep: char)
    requires parts != [] && parts[0] != ""
    ensures Join(parts, sep) == [parts[0][0]] + Join([parts[0][1..]] + parts[1..], sep)
  {
    var shorter := [parts[0][1..]] + parts[1..];
    assert shorter[1..] == parts[1..];
    assert parts[0] == [parts[0][0]] + parts[0][1..];
  }
}
