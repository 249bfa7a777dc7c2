/** Release versions: text form, order and bumps (scripts/ci_release/domain/semantic_version.go). */
module SemanticVersions {
  import opened Decimal
  import opened Int64
  import opened Options
  import opened Text

  datatype Version = Version(major: int64, minor: int64, patch: int64)

  datatype Increment = Unset | Major | Minor | Patch

  const BOOTSTRAP := Version(0, 1, 0)

  // ---------- text form ----------

  /** `0|[1-9][0-9]*`: section 2 of Semantic Versioning 2.0.0 forbids leading zeros. */
  predicate IsNumericIdentifier(s: string) {
    s != "" && AllDigits(s) && (|s| > 1 ==> s[0] != '0')
  }

  /** The pattern `^v(0|[1-9][0-9]*)\.(0|[1-9][0-9]*)\.(0|[1-9][0-9]*)$` with its groups. */
  ghost predicate Matches(raw: string, a: string, b: string, c: string) {
    && IsNumericIdentifier(a) && IsNumericIdentifier(b) && IsNumericIdentifier(c)
    && raw == "v" + (a + ['.'] + (b + ['.'] + c))
  }

  function Groups(raw: string): Option<(string, string, string)> {
    if raw == "" || raw[0] != 'v' then None
    else
      var parts := Split(raw[1..], '.');
      if |parts| == 3 && IsNumericIdentifier(parts[0]) && IsNumericIdentifier(parts[1])
         && IsNumericIdentifier(parts[2])
      then Some((parts[0], parts[1], parts[2]))
      else None
  }

  function Parse(raw: string): Option<Version> {
    match Groups(raw)
    case None => None
    case Some((a, b, c)) =>
      match (ParseInt(a), ParseInt(b), ParseInt(c))
      case (Some(major), Some(minor), Some(patch)) => Some(Version(major, minor, patch))
      case _ => None
  }

  function String(v: Version): string {
    "v" + (FormatInt(v.major) + ['.'] + (FormatInt(v.minor) + ['.'] + FormatInt(v.patch)))
  }

  lemma DigitsHaveNoDot(s: string)
    requires AllDigits(s)
    ensures '.' !in s
  {
  }

  /** Splitting finds the groups of the pattern, and only those. */
  lemma GroupsExact(raw: string, a: string, b: string, c: string)
    ensures Groups(raw) == Some((a, b, c)) <==> Matches(raw, a, b, c)
  {
    if Matches(raw, a, b, c) {
      DigitsHaveNoDot(a);
      DigitsHaveNoDot(b);
      DigitsHaveNoDot(c);
      assert raw[1..] == a + ['.'] + (b + ['.'] + c);
      SplitAt(a, '.', b + ['.'] + c);
      SplitAt(b, '.', c);
      SplitPlain(c, '.');
    }
    if Groups(raw) == Some((a, b, c)) {
      var parts := Split(raw[1..], '.');
      JoinSplit(raw[1..], '.');
      JoinThree(parts, '.');
      assert raw == "v" + raw[1..];
    }
  }

  lemma JoinThree(parts: seq<string>, sep: char)
    requires |parts| == 3
    ensures Join(parts, sep) == parts[0] + [sep] + (parts[1] + [sep] + parts[2])
  {
    assert parts[1..][1..] == [parts[2]];
    assert Join(parts[1..], sep) == parts[1] + [sep] + parts[2];
  }

  /** What is accepted: the pattern, with each number an int64, and nothing else. */
  lemma ParseExact(raw: string, v: Version)
    ensures Parse(raw) == Some(v) <==>
              exists a, b, c :: Matches(raw, a, b, c)
                && ParseInt(a) == Some(v.major) && ParseInt(b) == Some(v.minor) && ParseInt(c) == Some(v.patch)
  {
    if Parse(raw) == Some(v) {
      var (a, b, c) := Groups(raw).value;
      GroupsExact(raw, a, b, c);
    }
    forall a, b, c | Matches(raw, a, b, c)
      ensures Groups(raw) == Some((a, b, c))
    {
      GroupsExact(raw, a, b, c);
    }
  }

  lemma IdentifierRoundTrip(s: string)
    requires IsNumericIdentifier(s) && ParseInt(s).Some?
    ensures FormatInt(ParseInt(s).value) == s && ParseInt(s).value >= 0
  {
    ParseDigits(s);
    FormatOfNumber(s);
  }

  /** Printing and parsing gives a version back exactly if it has no negative number. */
  lemma ParseOfString(v: Version)
    ensures Parse(String(v)) == Some(v) <==> v.major >= 0 && v.minor >= 0 && v.patch >= 0
  {
    if v.major >= 0 && v.minor >= 0 && v.patch >= 0 {
      GroupsExact(String(v), FormatInt(v.major), FormatInt(v.minor), FormatInt(v.patch));
      ParseOfFormat(v.major);
      ParseOfFormat(v.minor);
      ParseOfFormat(v.patch);
    } else if Parse(String(v)) == Some(v) {
      var (a, b, c) := Groups(String(v)).value;
      GroupsExact(String(v), a, b, c);
      IdentifierRoundTrip(a);
      IdentifierRoundTrip(b);
      IdentifierRoundTrip(c);
    }
  }

  /** An accepted text is the only text of its version. */
  lemma StringOfParse(raw: string)
    requires Parse(raw).Some?
    ensures String(Parse(raw).value) == raw
  {
    var (a, b, c) := Groups(raw).value;
    GroupsExact(raw, a, b, c);
    IdentifierRoundTrip(a);
    IdentifierRoundTrip(b);
    IdentifierRoundTrip(c);
  }

  // ---------- order ----------

  function CompareInt(a: int, b: int): int {
    if a < b then -1 else if a > b then 1 else 0
  }

  function Compare(v: Version, other: Version): int {
    if v.major != other.major then CompareInt(v.major, other.major)
    else if v.minor != other.minor then CompareInt(v.minor, other.minor)
    else CompareInt(v.patch, other.patch)
  }

  /** The precedence of section 11 of Semantic Versioning 2.0.0, as a total order. */
  lemma CompareIsTotalOrder(a: Version, b: Version, c: Version)
    ensures Compare(a, b) == 0 <==> a == b
    ensures Compare(a, b) == -Compare(b, a)
    ensures Compare(a, b) <= 0 && Compare(b, c) <= 0 ==> Compare(a, c) <= 0
  {
  }

  // ---------- bumps ----------

  function Bump(v: Version, increment: Increment): Option<Version> {
    match increment
    case Major => Some(Version(Wrap(v.major + 1), 0, 0))
    case Minor => Some(Version(v.major, Wrap(v.minor + 1), 0))
    case Patch => Some(Version(v.major, v.minor, Wrap(v.patch + 1)))
    case Unset => None
  }

  function Component(v: Version, increment: Increment): int64 {
    match increment
    case Major => v.major
    case Minor => v.minor
    case Patch => v.patch
    case Unset => 0
  }

  function Rank(increment: Increment): nat {
    match increment
    case Major => 3
    case Minor => 2
    case Patch => 1
    case Unset => 0
  }

  /** A bump is above its base exactly if the bumped number is not yet the int64 maximum. */
  lemma BumpAbove(v: Version, increment: Increment)
    requires increment != Unset
    ensures Compare(Bump(v, increment).value, v) > 0 <==> Component(v, increment) < MAX
  {
    WrapOnce(Component(v, increment) + 1);
  }

  /** A bump of higher rank gives the greater version. */
  lemma BumpMonotone(v: Version, low: Increment, high: Increment)
    requires low != Unset && high != Unset && Rank(low) <= Rank(high) && Component(v, high) < MAX
    ensures Compare(Bump(v, low).value, Bump(v, high).value) <= 0
    ensures low != high ==> Compare(Bump(v, low).value, Bump(v, high).value) < 0
  {
  }

  // ---------- what a bump is for ----------

  predicate NonNegative(v: Version) {
    v.major >= 0 && v.minor >= 0 && v.patch >= 0
  }

  /** The versions a bump of the base may lead to: it raises the number in question and leaves
      those before it alone. */
  predicate Raises(v: Version, base: Version, increment: Increment) {
    NonNegative(v) &&
    match increment
    case Major => v.major > base.major
    case Minor => v.major == base.major && v.minor > base.minor
    case Patch => v.major == base.major && v.minor == base.minor && v.patch > base.patch
    case Unset => false
  }

  /** The least of them: no lower number of the base survives. */
  ghost predicate IsLeast(v: Version, base: Version, increment: Increment) {
    Raises(v, base, increment) && forall w | Raises(w, base, increment) :: Compare(v, w) <= 0
  }

  lemma BumpLeast(base: Version, increment: Increment)
    requires NonNegative(base) && increment != Unset && Component(base, increment) < MAX
    ensures IsLeast(Bump(base, increment).value, base, increment)
  {
    WrapOnce(Component(base, increment) + 1);
  }

  /** There is only one least version. */
  lemma LeastUnique(v: Version, w: Version, base: Version, increment: Increment)
    requires IsLeast(v, base, increment) && IsLeast(w, base, increment)
    ensures v == w
  {
    CompareIsTotalOrder(v, w, v);
  }

  /** Section 11 of Semantic Versioning 2.0.0: the first number that differs decides. */
  lemma CompareLexicographic(a: Version, b: Version)
    ensures Compare(a, b) < 0 <==>
              || a.major < b.major
              || (a.major == b.major && a.minor < b.minor)
              || (a.major == b.major && a.minor == b.minor && a.patch < b.patch)
  {
  }

  lemma WrittenOut()
    ensures String(Version(1, 20, 3)) == "v1.20.3"
  {
    assert Format(20) == Format(2) + Format(0);
  }
}
