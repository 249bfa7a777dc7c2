/** The subject line of a conventional commit
    (scripts/ci_release/domain/conventional_commit.go). */
module ConventionalCommits {
  import opened Options

  // ---------- the subject line ----------

  datatype Subject = Subject(kind: string, scope: string, bang: bool, description: string)

  predicate IsLower(c: char) {
    'a' <= c <= 'z'
  }

  /** The text a subject was read from. */
  function Render(s: Subject): string {
    s.kind + RenderTail(s)
  }

  function RenderTail(s: Subject): string {
    (if s.scope == "" then "" else "(" + s.scope + ")") + ((if s.bang then "!" else "") + (": " + s.description))
  }

  /** What the groups of `^([a-z]+)(\(([^)]+)\))?(!)?: (.+)$` may hold. */
  predicate WellFormed(s: Subject) {
    && s.kind != "" && (forall c | c in s.kind :: 'a' <= c <= 'z')
    && ')' !in s.scope
    && s.description != "" && '\n' !in s.description
  }

  function LowerPrefix(s: string): (n: nat)
    ensures n <= |s| && (forall c | c in s[..n] :: IsLower(c))
    ensures n < |s| ==> !IsLower(s[n])
  {
    if s == "" || !IsLower(s[0]) then 0
    else
      var n := 1 + LowerPrefix(s[1..]);
      assert s[..n] == [s[0]] + s[1..][..n - 1];
      n
  }

  function IndexOf(s: string, c: char): (n: nat)
    ensures n <= |s| && c !in s[..n]
    ensures n < |s| ==> s[n] == c
  {
    if s == "" || s[0] == c then 0
    else
      var n := 1 + IndexOf(s[1..], c);
      assert s[..n] == [s[0]] + s[1..][..n - 1];
      n
  }

  /** The optional scope and what follows it. */
  function TakeScope(s: string): (r: (string, string)) {
    if s == "" || s[0] != '(' then ("", s)
    else
      var n := IndexOf(s[1..], ')');
      if n == 0 || n == |s| - 1 then ("", s) else (s[1..n + 1], s[n + 2..])
  }

  function TakeBang(s: string): (bool, string) {
    if s != "" && s[0] == '!' then (true, s[1..]) else (false, s)
  }

  function TakeDescription(s: string): Option<string> {
    if |s| > 2 && s[..2] == ": " && '\n' !in s[2..] then Some(s[2..]) else None
  }

  function ParseSubject(s: string): Option<Subject> {
    var n := LowerPrefix(s);
    if n == 0 then None
    else
      var (scope, afterScope) := TakeScope(s[n..]);
      var (bang, afterBang) := TakeBang(afterScope);
      match TakeDescription(afterBang)
      case None => None
      case Some(description) => Some(Subject(s[..n], scope, bang, description))
  }

  lemma {:induction false} LowerPrefixOf(kind: string, rest: string)
    requires (forall c | c in kind :: IsLower(c)) && (rest == "" || !IsLower(rest[0]))
    ensures LowerPrefix(kind + rest) == |kind|
  {
    if kind == "" {
      assert kind + rest == rest;
    } else {
      assert IsLower(kind[0]);
      LowerPrefixOf(kind[1..], rest);
      assert (kind + rest)[1..] == kind[1..] + rest;
    }
  }

  lemma {:induction false} IndexOfFirst(a: string, c: char, b: string)
    requires c !in a
    ensures IndexOf(a + [c] + b, c) == |a|
  {
    if a != "" {
      IndexOfFirst(a[1..], c, b);
      assert (a + [c] + b)[1..] == a[1..] + [c] + b;
    }
  }

  lemma TakeScopeOf(scope: string, rest: string)
    requires ')' !in scope && rest != "" && rest[0] != '('
    ensures TakeScope((if scope == "" then "" else "(" + scope + ")") + rest) == (scope, rest)
  {
    if scope == "" {
      assert "" + rest == rest;
    } else {
      var s := "(" + scope + ")" + rest;
      assert s[1..] == scope + [')'] + rest;
      IndexOfFirst(scope, ')', rest);
      assert s[1..|scope| + 1] == scope && s[|scope| + 2..] == rest;
    }
  }

  lemma TakeScopeSound(s: string)
    ensures var (scope, rest) := TakeScope(s);
            ')' !in scope && s == (if scope == "" then "" else "(" + scope + ")") + rest
  {
    var (scope, rest) := TakeScope(s);
    if scope != "" {
      var n := IndexOf(s[1..], ')');
      assert scope == s[1..][..n];
      assert s == "(" + scope + ")" + rest;
    }
  }

  lemma TakeBangSound(s: string)
    ensures var (bang, rest) := TakeBang(s); s == (if bang then "!" else "") + rest
  {
  }

  lemma TakeDescriptionSound(s: string)
    requires TakeDescription(s).Some?
    ensures var d := TakeDescription(s).value; d != "" && '\n' !in d && s == ": " + d
  {
  }

  lemma ParseSubjectSound(text: string, s: Subject)
    requires ParseSubject(text) == Some(s)
    ensures WellFormed(s) && text == Render(s)
  {
    var n := LowerPrefix(text);
    var (scope, afterScope) := TakeScope(text[n..]);
    TakeScopeSound(text[n..]);
    TakeBangSound(afterScope);
    var afterBang := TakeBang(afterScope).1;
    TakeDescriptionSound(afterBang);
    assert text == text[..n] + text[n..];
  }

  /** The parser is the pattern: it accepts exactly the texts of well-formed subjects, and
      finds the only way to read each. */
  lemma ParseSubjectExact(text: string, s: Subject)
    ensures ParseSubject(text) == Some(s) <==> WellFormed(s) && text == Render(s)
  {
    if WellFormed(s) && text == Render(s) {
      ParseOfRender(s);
    } else if ParseSubject(text) == Some(s) {
      ParseSubjectSound(text, s);
    }
  }

  lemma TakeBangOf(bang: bool, rest: string)
    requires rest != "" && rest[0] != '!'
    ensures TakeBang((if bang then "!" else "") + rest) == (bang, rest)
  {
    assert "" + rest == rest;
    assert ("!" + rest)[1..] == rest;
  }

  lemma TakeDescriptionOf(description: string)
    requires description != "" && '\n' !in description
    ensures TakeDescription(": " + description) == Some(description)
  {
    var s := ": " + description;
    assert s[..2] == ": " && s[2..] == description;
  }

  /** The parser puts together what its parts find. */
  lemma ParsedByParts(text: string, s: Subject, afterScope: string, afterBang: string)
    requires s.kind != "" && LowerPrefix(text) == |s.kind| && text[..|s.kind|] == s.kind
    requires TakeScope(text[|s.kind|..]) == (s.scope, afterScope)
    requires TakeBang(afterScope) == (s.bang, afterBang)
    requires TakeDescription(afterBang) == Some(s.description)
    ensures ParseSubject(text) == Some(s)
  {
  }

  lemma TailStart(s: Subject)
    ensures RenderTail(s) != "" && !IsLower(RenderTail(s)[0])
  {
  }

  lemma ParseOfRender(s: Subject)
    requires WellFormed(s)
    ensures ParseSubject(Render(s)) == Some(s)
  {
    var text, tail := Render(s), RenderTail(s);
    var afterBang := ": " + s.description;
    var afterScope := (if s.bang then "!" else "") + afterBang;
    TailStart(s);
    LowerPrefixOf(s.kind, tail);
    assert text[..|s.kind|] == s.kind && text[|s.kind|..] == tail;
    TakeScopeOf(s.scope, afterScope);
    TakeBangOf(s.bang, afterBang);
    TakeDescriptionOf(s.description);
    ParsedByParts(text, s, afterScope, afterBang);
  }

  lemma WrittenOut()
    ensures Render(Subject("feat", "api", true, "x")) == "feat(api)!: x"
    ensures Render(Subject("fix", "", false, "y z")) == "fix: y z"
  {
  }
}
