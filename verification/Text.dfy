/** The string functions of Go's standard library that the model needs, on sequences of
    characters. */
module Text {

  /** unicode.IsSpace. */
  predicate IsSpace(c: char) {
    || '\t' <= c <= '\r' || c == ' ' || c == '\U{85}' || c == '\U{A0}' || c == '\U{1680}'
    || '\U{2000}' <= c <= '\U{200A}' || c == '\U{2028}' || c == '\U{2029}' || c == '\U{202F}'
    || c == '\U{205F}' || c == '\U{3000}'
  }

  function TrimLeft(s: string): (t: string)
    ensures t == "" || !IsSpace(t[0])
  {
    if s != "" && IsSpace(s[0]) then TrimLeft(s[1..]) else s
  }

  function TrimRight(s: string): (t: string)
    ensures t == "" || !IsSpace(t[|t| - 1])
    ensures t <= s
  {
    if s != "" && IsSpace(s[|s| - 1]) then TrimRight(s[..|s| - 1]) else s
  }

  /** strings.TrimSpace. */
  function TrimSpace(s: string): (t: string)
    ensures t == "" || (!IsSpace(t[0]) && !IsSpace(t[|t| - 1]))
  {
    TrimRight(TrimLeft(s))
  }

  lemma {:induction false} LeadingBlanks(s: string) returns (lead: string)
    ensures s == lead + TrimLeft(s)
    ensures forall c | c in lead :: IsSpace(c)
  {
    lead := "";
    if s != "" && IsSpace(s[0]) {
      lead := LeadingBlanks(s[1..]);
      Regroup([s[0]], lead, TrimLeft(s));
      lead := [s[0]] + lead;
    }
  }

  lemma {:induction false} TrailingBlanks(s: string) returns (tail: string)
    ensures s == TrimRight(s) + tail
    ensures forall c | c in tail :: IsSpace(c)
  {
    tail := "";
    if s != "" && IsSpace(s[|s| - 1]) {
      tail := TrailingBlanks(s[..|s| - 1]);
      Regroup(TrimRight(s), tail, [s[|s| - 1]]);
      tail := tail + [s[|s| - 1]];
    }
  }

  lemma Regroup(a: string, b: string, c: string)
    ensures a + (b + c) == a + b + c
  {
  }

  /** Only blanks are cut off, and at the ends only. */
  lemma TrimmedBlanks(s: string) returns (lead: string, tail: string)
    ensures s == lead + TrimSpace(s) + tail
    ensures forall c | c in lead :: IsSpace(c)
    ensures forall c | c in tail :: IsSpace(c)
  {
    var left := TrimLeft(s);
    lead := LeadingBlanks(s);
    tail := TrailingBlanks(left);
    Regroup(lead, TrimRight(left), tail);
  }

  /** strings.Split on one character. */
  function Split(s: string, sep: char): (parts: seq<string>)
    ensures parts != []
    ensures forall p | p in parts :: sep !in p
  {
    if s == "" then [""]
    else
      var rest := Split(s[1..], sep);
      if s[0] == sep then [""] + rest else [[s[0]] + rest[0]] + rest[1..]
  }

  function Join(parts: seq<string>, sep: char): string
    requires parts != []
  {
    if |parts| == 1 then parts[0] else parts[0] + [sep] + Join(parts[1..], sep)
  }

  lemma {:induction false} JoinSplit(s: string, sep: char)
    ensures Join(Split(s, sep), sep) == s
  {
    if s != "" {
      var rest := Split(s[1..], sep);
      JoinSplit(s[1..], sep);
      assert [s[0]] + s[1..] == s;
      if s[0] == sep {
        JoinEmpty(rest, sep);
      } else {
        JoinPrefix([s[0]], rest, sep);
      }
    }
  }

  lemma JoinEmpty(rest: seq<string>, sep: char)
    requires rest != []
    ensures Join([""] + rest, sep) == [sep] + Join(rest, sep)
  {
    assert ([""] + rest)[1..] == rest;
  }

  lemma JoinPrefix(a: string, rest: seq<string>, sep: char)
    requires rest != []
    ensures Join([a + rest[0]] + rest[1..], sep) == a + Join(rest, sep)
  {
    var parts := [a + rest[0]] + rest[1..];
    assert parts[1..] == rest[1..];
    if |rest| > 1 {
      assert a + rest[0] + [sep] + Join(rest[1..], sep) == a + (rest[0] + [sep] + Join(rest[1..], sep));
    }
  }

  lemma {:induction false} SplitPlain(s: string, sep: char)
    requires sep !in s
    ensures Split(s, sep) == [s]
  {
    if s != "" {
      SplitPlain(s[1..], sep);
      assert [s[0]] + s[1..] == s;
    }
  }

  lemma {:induction false} SplitAt(a: string, sep: char, b: string)
    requires sep !in a
    ensures Split(a + [sep] + b, sep) == [a] + Split(b, sep)
  {
    var s := a + [sep] + b;
    if a == "" {
      assert s[1..] == b;
    } else {
      SplitAt(a[1..], sep, b);
      assert s[1..] == a[1..] + [sep] + b;
      assert [a[0]] + a[1..] == a;
    }
  }
}
