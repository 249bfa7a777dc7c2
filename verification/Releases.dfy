/** Resolving the next release and admitting its candidate
    (scripts/ci_release/domain/conventional_commit.go, release_candidate.go). */
module Releases {
  import opened ConventionalCommits
  import opened Int64
  import opened Options
  import opened SemanticVersions
  import opened Text

  datatype Error =
    | InvalidCommit | UnsupportedType(kind: string) | NoVersionIncrement
    | BranchNotAllowed | GateFailed(gates: seq<Gate>) | TagExists
    | NotesMismatch | NotBootstrap | NotAboveBase
    | MissingSection | AmbiguousSection

  // ---------- commits ----------

  datatype Commit = Commit(subject: string, body: string)

  const BREAKING_FOOTER := "BREAKING CHANGE:"
  const KINDS := {"feat", "fix", "perf", "refactor", "docs", "build", "ci", "chore", "test"}

  predicate HasBreakingFooter(body: string) {
    exists line | line in Split(body, '\n') :: BREAKING_FOOTER <= TrimSpace(line)
  }

  /** The increment a commit asks for; Unset if it releases nothing. */
  function Classify(c: Commit): Result<Increment, Error> {
    match ParseSubject(c.subject)
    case None => Err(InvalidCommit)
    case Some(s) =>
      if s.kind !in KINDS then Err(UnsupportedType(s.kind))
      else if s.bang || HasBreakingFooter(c.body) then Ok(Major)
      else if s.kind == "feat" then Ok(Minor)
      else if s.kind in {"fix", "perf", "refactor"} then Ok(Patch)
      else Ok(Unset)
  }

  /** The body of a commit announces a breaking change on some line. */
  ghost predicate Announces(body: string) {
    exists line | line in Split(body, '\n') :: IsAnnouncement(TrimSpace(line))
  }

  predicate IsAnnouncement(line: string) {
    |line| >= 16 && line[..16] == "BREAKING CHANGE:"
  }

  lemma AnnouncesFooter(body: string)
    ensures Announces(body) <==> HasBreakingFooter(body)
  {
    if line :| line in Split(body, '\n') && IsAnnouncement(TrimSpace(line)) {
      AnnouncementPrefix(TrimSpace(line));
    }
    if line :| line in Split(body, '\n') && BREAKING_FOOTER <= TrimSpace(line) {
      AnnouncementPrefix(TrimSpace(line));
    }
  }

  lemma AnnouncementPrefix(line: string)
    ensures IsAnnouncement(line) <==> BREAKING_FOOTER <= line
  {
    assert |BREAKING_FOOTER| == 16;
  }

  /** What each kind of commit asks for. */
  lemma ClassifyExact(c: Commit, s: Subject)
    requires ParseSubject(c.subject) == Some(s)
    ensures var breaking := s.bang || Announces(c.body);
            && (Classify(c) == Ok(Major) <==>
                  breaking && s.kind in {"feat", "fix", "perf", "refactor", "docs", "build", "ci", "chore", "test"})
            && (Classify(c) == Ok(Minor) <==> !breaking && s.kind == "feat")
            && (Classify(c) == Ok(Patch) <==> !breaking && s.kind in {"fix", "perf", "refactor"})
            && (Classify(c) == Ok(Unset) <==> !breaking && s.kind in {"docs", "build", "ci", "chore", "test"})
            && (Classify(c).Err? ==> Classify(c).error == UnsupportedType(s.kind))
  {
    AnnouncesFooter(c.body);
    KindsDiffer(s.kind);
  }

  lemma KindsDiffer(kind: string)
    ensures kind == "feat" ==> kind !in {"fix", "perf", "refactor", "docs", "build", "ci", "chore", "test"}
    ensures kind in {"fix", "perf", "refactor"} ==> kind !in {"docs", "build", "ci", "chore", "test"}
  {
    assert "feat"[1] == 'e' && "perf"[0] == 'p' && "test"[0] == 't';
    assert |"fix"| == 3 && |"perf"| == 4 && |"refactor"| == 8;
    assert |"docs"| == 4 && |"build"| == 5 && |"ci"| == 2 && |"chore"| == 5 && |"test"| == 4;
    assert "docs"[0] == 'd';
  }

  lemma UnparsedIsInvalid(c: Commit)
    ensures ParseSubject(c.subject) == None <==> Classify(c) == Err(InvalidCommit)
  {
  }

  predicate AllParse(commits: seq<Commit>) {
    forall c | c in commits :: Classify(c).Ok?
  }

  /** `highest` is asked for by some commit, and no commit asks for more. */
  ghost predicate IsHighest(commits: seq<Commit>, highest: Increment)
    requires AllParse(commits)
  {
    && (highest == Unset || exists c | c in commits :: Classify(c).value == highest)
    && forall c | c in commits :: Rank(Classify(c).value) <= Rank(highest)
  }

  lemma HighestUnique(commits: seq<Commit>, a: Increment, b: Increment)
    requires AllParse(commits) && IsHighest(commits, a) && IsHighest(commits, b)
    ensures a == b
  {
  }

  /** The highest increment of commits that all parse. */
  function HighestOf(commits: seq<Commit>): (highest: Increment)
    requires AllParse(commits)
    ensures IsHighest(commits, highest)
  {
    if commits == [] then Unset
    else
      var n := |commits| - 1;
      ParsePrefix(commits, n);
      var before := HighestOf(commits[..n]);
      HighestStep(commits, before);
      Higher(before, Classify(commits[n]).value)
  }

  /** A later commit counts only if it asks for more. */
  function Higher(before: Increment, asked: Increment): Increment {
    if Rank(asked) > Rank(before) then asked else before
  }

  lemma ParsePrefix(commits: seq<Commit>, n: nat)
    requires AllParse(commits) && n <= |commits|
    ensures AllParse(commits[..n])
  {
  }

  lemma HighestStep(commits: seq<Commit>, before: Increment)
    requires AllParse(commits) && commits != []
    requires AllParse(commits[..|commits| - 1]) && IsHighest(commits[..|commits| - 1], before)
    ensures IsHighest(commits, Higher(before, Classify(commits[|commits| - 1]).value))
  {
    var n := |commits| - 1;
    assert commits == commits[..n] + [commits[n]];
    assert forall c | c in commits :: c in commits[..n] || c == commits[n];
    assert commits[n] in commits;
  }

  /** The first commit that does not parse. */
  function FirstBad(commits: seq<Commit>): (n: nat)
    ensures n <= |commits| && AllParse(commits[..n])
    ensures n < |commits| ==> Classify(commits[n]).Err?
    ensures n == |commits| <==> AllParse(commits)
  {
    if commits == [] then 0
    else
      assert commits[0] in commits;
      if Classify(commits[0]).Err? then 0
      else
        assert commits == [commits[0]] + commits[1..];
        var n := 1 + FirstBad(commits[1..]);
        assert commits[..n] == [commits[0]] + commits[1..][..n - 1];
        n
  }

  /** What ResolveNextVersion answers. */
  function Resolution(base: Option<Version>, commits: seq<Commit>): Result<Version, Error> {
    if base == None then Ok(BOOTSTRAP)
    else if FirstBad(commits) < |commits| then Err(Classify(commits[FirstBad(commits)]).error)
    else
      match Bump(base.value, HighestOf(commits))
      case None => Err(NoVersionIncrement)
      case Some(v) => Ok(v)
  }

  /** ResolveNextVersion. Without a base the bootstrap version; otherwise the first commit
      that does not parse is the error, and else the base bumped by the highest increment. */
  method ResolveNextVersion(base: Option<Version>, commits: seq<Commit>)
    returns (r: Result<Version, Error>, ghost highest: Increment)
    ensures base == None ==> r == Ok(Version(0, 1, 0))
    ensures base.Some? && !AllParse(commits) ==>
              exists i | 0 <= i < |commits| ::
                AllParse(commits[..i]) && Classify(commits[i]).Err? && r == Err(Classify(commits[i]).error)
    ensures base.Some? && AllParse(commits) ==>
              && IsHighest(commits, highest)
              && r == match Bump(base.value, highest) { case None => Err(NoVersionIncrement) case Some(v) => Ok(v) }
    ensures r == Resolution(base, commits)
  {
    highest := Unset;
    if base == None {
      return Ok(BOOTSTRAP), highest;
    }
    var rank, selected := 0, Unset;
    for i := 0 to |commits|
      invariant i <= FirstBad(commits) && AllParse(commits[..i])
      invariant rank == Rank(selected) && selected == HighestOf(commits[..i])
    {
      var classified := Classify(commits[i]);
      FirstBadAt(commits, i);
      if classified.Err? {
        return Err(classified.error), highest;
      }
      HighestAppend(commits, i);
      if classified.value == Unset {
        continue;
      }
      if Rank(classified.value) > rank {
        rank, selected := Rank(classified.value), classified.value;
      }
    }
    assert commits[..|commits|] == commits;
    highest := selected;
    if selected == Unset {
      return Err(NoVersionIncrement), highest;
    }
    return Ok(Bump(base.value, selected).value), highest;
  }

  lemma FirstBadAt(commits: seq<Commit>, i: nat)
    requires i < |commits| && i <= FirstBad(commits)
    ensures Classify(commits[i]).Err? <==> FirstBad(commits) == i
  {
    if i < FirstBad(commits) {
      assert commits[..FirstBad(commits)][i] in commits[..FirstBad(commits)];
    }
  }

  lemma HighestAppend(commits: seq<Commit>, i: nat)
    requires i < |commits| && AllParse(commits[..i]) && Classify(commits[i]).Ok?
    ensures AllParse(commits[..i + 1])
    ensures HighestOf(commits[..i + 1]) == Higher(HighestOf(commits[..i]), Classify(commits[i]).value)
  {
    assert commits[..i + 1] == commits[..i] + [commits[i]];
    assert commits[..i + 1][..i] == commits[..i];
  }

  /** The resolved version is the greatest of the commits' own bumps and one of them, as long
      as the number it bumps is below the int64 maximum. */
  lemma ResolvedIsGreatest(base: Version, commits: seq<Commit>, highest: Increment)
    requires AllParse(commits) && IsHighest(commits, highest) && highest != Unset
    requires Component(base, highest) < MAX
    ensures exists c | c in commits :: Bump(base, Classify(c).value) == Bump(base, highest)
    ensures forall c | c in commits && Classify(c).value != Unset ::
              Compare(Bump(base, Classify(c).value).value, Bump(base, highest).value) <= 0
  {
    var best :| best in commits && Classify(best).value == highest;
    assert Bump(base, Classify(best).value) == Bump(base, highest);
    forall c | c in commits && Classify(c).value != Unset
      ensures Compare(Bump(base, Classify(c).value).value, Bump(base, highest).value) <= 0
    {
      BumpMonotone(base, Classify(c).value, highest);
    }
  }

  /** Some commit asks for this. */
  ghost predicate Asks(commits: seq<Commit>, increment: Increment) {
    exists c | c in commits :: Classify(c) == Ok(increment)
  }

  /** With a base without negative numbers, and below the int64 maximum: a breaking commit leads
      to the least version of a greater major number; without one, a feature to the least of
      the same major and a greater minor number; without either, a fix to the least above the
      base of the same major and minor number; and nothing else to no version at all. */
  lemma ResolvedIsLeast(base: Version, commits: seq<Commit>)
    requires AllParse(commits) && NonNegative(base)
    requires base.major < MAX && base.minor < MAX && base.patch < MAX
    ensures var increment :=
              if Asks(commits, Major) then Major
              else if Asks(commits, Minor) then Minor
              else if Asks(commits, Patch) then Patch
              else Unset;
            if increment == Unset then Resolution(Some(base), commits) == Err(NoVersionIncrement)
            else exists v :: Resolution(Some(base), commits) == Ok(v) && IsLeast(v, base, increment)
  {
    HighestAsked(commits);
    ResolvedBump(base, commits);
    var highest := HighestOf(commits);
    if highest != Unset {
      var v := Bump(base, highest).value;
      BumpLeast(base, highest);
      assert Resolution(Some(base), commits) == Ok(v) && IsLeast(v, base, highest);
    }
  }

  lemma ResolvedBump(base: Version, commits: seq<Commit>)
    requires AllParse(commits)
    ensures HighestOf(commits) == Unset ==> Resolution(Some(base), commits) == Err(NoVersionIncrement)
    ensures HighestOf(commits) != Unset ==>
              Resolution(Some(base), commits) == Ok(Bump(base, HighestOf(commits)).value)
  {
  }

  lemma HighestAsked(commits: seq<Commit>)
    requires AllParse(commits)
    ensures HighestOf(commits) ==
              if Asks(commits, Major) then Major
              else if Asks(commits, Minor) then Minor
              else if Asks(commits, Patch) then Patch
              else Unset
  {
    var highest := HighestOf(commits);
    assert highest != Unset ==> Asks(commits, highest);
    forall c | c in commits
      ensures Rank(Classify(c).value) <= Rank(highest)
    {
    }
  }

  /** The order of commits that all parse does not matter. */
  lemma OrderIrrelevant(commits: seq<Commit>, permuted: seq<Commit>, a: Increment, b: Increment)
    requires multiset(commits) == multiset(permuted) && AllParse(commits)
    requires AllParse(permuted) && IsHighest(commits, a) && IsHighest(permuted, b)
    ensures a == b
  {
    SameCommits(commits, permuted);
    assert IsHighest(permuted, a);
    HighestUnique(permuted, a, b);
  }

  lemma SameCommits(commits: seq<Commit>, permuted: seq<Commit>)
    requires multiset(commits) == multiset(permuted)
    ensures forall c :: c in commits <==> c in permuted
    ensures AllParse(commits) <==> AllParse(permuted)
  {
    forall c
      ensures c in commits <==> c in permuted
    {
      assert c in commits <==> c in multiset(commits);
      assert c in permuted <==> c in multiset(permuted);
    }
  }

  /** The commits that do not parse, if any, all have the same error. */
  ghost predicate OneError(commits: seq<Commit>) {
    forall c, d | c in commits && d in commits && Classify(c).Err? && Classify(d).Err? ::
      Classify(c).error == Classify(d).error
  }

  lemma SameResolution(base: Option<Version>, commits: seq<Commit>, permuted: seq<Commit>)
    requires multiset(commits) == multiset(permuted) && (base == None || OneError(commits))
    ensures Resolution(base, commits) == Resolution(base, permuted)
  {
    SameCommits(commits, permuted);
    if base.Some? {
      if AllParse(commits) {
        OrderIrrelevant(commits, permuted, HighestOf(commits), HighestOf(permuted));
      } else {
        assert commits[FirstBad(commits)] in commits;
        assert permuted[FirstBad(permuted)] in permuted;
      }
    }
  }

  /** A commit that does not parse decides the error when it comes first. */
  lemma BadFirst(base: Option<Version>, commits: seq<Commit>, i: nat) returns (permuted: seq<Commit>)
    requires base.Some? && i < |commits| && Classify(commits[i]).Err?
    ensures multiset(permuted) == multiset(commits)
    ensures Resolution(base, permuted) == Err(Classify(commits[i]).error)
  {
    permuted := MovedFirst(commits, i);
    FirstBadAt(permuted, 0);
  }

  lemma MovedFirst(commits: seq<Commit>, i: nat) returns (permuted: seq<Commit>)
    requires i < |commits|
    ensures multiset(permuted) == multiset(commits) && permuted != [] && permuted[0] == commits[i]
  {
    permuted := [commits[i]] + (commits[..i] + commits[i + 1..]);
    assert commits == commits[..i] + [commits[i]] + commits[i + 1..];
  }

  /** The answer is the same for every order of the commits exactly if there is no base or the
      commits that do not parse all have the same error. */
  lemma OrderIrrelevantExactly(base: Option<Version>, commits: seq<Commit>)
    ensures (forall permuted | multiset(permuted) == multiset(commits) ::
               Resolution(base, permuted) == Resolution(base, commits))
            <==> base == None || OneError(commits)
  {
    if base == None || OneError(commits) {
      forall permuted | multiset(permuted) == multiset(commits)
        ensures Resolution(base, permuted) == Resolution(base, commits)
      {
        SameResolution(base, commits, permuted);
      }
    } else {
      var c, d :| c in commits && d in commits && Classify(c).Err? && Classify(d).Err?
                  && Classify(c).error != Classify(d).error;
      var i :| 0 <= i < |commits| && commits[i] == c;
      var j :| 0 <= j < |commits| && commits[j] == d;
      var first := BadFirst(base, commits, i);
      var second := BadFirst(base, commits, j);
      assert Resolution(base, first) != Resolution(base, second);
    }
  }

  // ---------- the changelog section ----------

  datatype Section = Section(version: Version, heading: string, body: string, occurrences: int)

  function Heading(v: Version): string {
    "## [" + String(v) + "]"
  }

  function NewChangelogSection(v: Version, heading: string, body: string, occurrences: int): Result<Section, Error> {
    CheckSection(v, Heading(v), heading, body, occurrences)
  }

  function CheckSection(
    v: Version, expected: string, heading: string, body: string, occurrences: int): Result<Section, Error>
  {
    if occurrences == 0 then Err(MissingSection)
    else if occurrences > 1 then Err(AmbiguousSection)
    else if heading != expected then Err(MissingSection)
    else if TrimSpace(body) == "" then Err(MissingSection)
    else Ok(Section(v, heading, TrimSpace(body), occurrences))
  }

  // ---------- the candidate ----------

  const RELEASE_BRANCH := "main"

  datatype Gates = Gates(lint: bool, unit: bool, integration: bool, vulncheck: bool)

  datatype Gate = Lint | Unit | Integration | Vulncheck

  /** The gates in the order they are reported. */
  const GATES := [Lint, Unit, Integration, Vulncheck]

  predicate Passed(g: Gates, gate: Gate) {
    match gate
    case Lint => g.lint
    case Unit => g.unit
    case Integration => g.integration
    case Vulncheck => g.vulncheck
  }

  /** Where a gate stands in GATES. */
  function Position(gate: Gate): (n: nat)
    ensures n < |GATES| && GATES[n] == gate
  {
    match gate
    case Lint => 0
    case Unit => 1
    case Integration => 2
    case Vulncheck => 3
  }

  /** Those of the first n gates that have not passed. */
  function FailedUpTo(g: Gates, n: nat): seq<Gate>
    requires n <= |GATES|
  {
    if n == 0 then []
    else if Passed(g, GATES[n - 1]) then FailedUpTo(g, n - 1)
    else FailedUpTo(g, n - 1) + [GATES[n - 1]]
  }

  function FailedGates(g: Gates): seq<Gate> {
    FailedUpTo(g, |GATES|)
  }

  /** FailedGateNames: the slice it appends to holds exactly the gates that have not passed, in
      the order of GATES and so each once. */
  method FailedGateNames(g: Gates) returns (failed: seq<Gate>)
    ensures failed == FailedGates(g)
    ensures (Lint in failed <==> !g.lint) && (Unit in failed <==> !g.unit)
    ensures (Integration in failed <==> !g.integration) && (Vulncheck in failed <==> !g.vulncheck)
    ensures forall gate :: gate in failed <==> !Passed(g, gate)
    ensures forall i, j | 0 <= i < j < |failed| :: Position(failed[i]) < Position(failed[j])
  {
    FailedExactly(g, |GATES|);
    failed := [];
    if !g.lint {
      failed := failed + [Lint];
    }
    assert failed == FailedUpTo(g, 1);
    if !g.unit {
      failed := failed + [Unit];
    }
    assert failed == FailedUpTo(g, 2);
    if !g.integration {
      failed := failed + [Integration];
    }
    assert failed == FailedUpTo(g, 3);
    if !g.vulncheck {
      failed := failed + [Vulncheck];
    }
    assert failed == FailedUpTo(g, 4);
  }

  lemma {:induction false} FailedExactly(g: Gates, n: nat)
    requires n <= |GATES|
    ensures forall gate :: gate in FailedUpTo(g, n) <==> Position(gate) < n && !Passed(g, gate)
    ensures forall i, j | 0 <= i < j < |FailedUpTo(g, n)| ::
              Position(FailedUpTo(g, n)[i]) < Position(FailedUpTo(g, n)[j])
  {
    if n > 0 {
      FailedExactly(g, n - 1);
      var before := FailedUpTo(g, n - 1);
      assert Position(GATES[n - 1]) == n - 1;
      assert forall i | 0 <= i < |before| :: before[i] in before;
    }
  }

  /** NewReleaseCandidate: nothing if the candidate is admitted, else the first check it fails. */
  function Rejection(
    branch: string, base: Option<Version>, next: Version, notes: Section, gates: Gates, tagExists: bool): Option<Error>
  {
    if branch != RELEASE_BRANCH then Some(BranchNotAllowed)
    else if FailedGates(gates) != [] then Some(GateFailed(FailedGates(gates)))
    else if tagExists then Some(TagExists)
    else if Compare(notes.version, next) != 0 || notes.occurrences != 1 || TrimSpace(notes.body) == "" then
      Some(NotesMismatch)
    else if base.None? then
      if Compare(next, BOOTSTRAP) != 0 then Some(NotBootstrap) else None
    else if Compare(next, base.value) <= 0 then Some(NotAboveBase)
    else None
  }

  /** A text without blanks at its ends is not trimmed. */
  lemma TrimmedStays(t: string)
    requires t != "" && !IsSpace(t[0]) && !IsSpace(t[|t| - 1])
    ensures TrimSpace(t) == t
  {
  }

  lemma CheckedSection(
    v: Version, expected: string, heading: string, body: string, occurrences: nat, notes: Section)
    requires CheckSection(v, expected, heading, body, occurrences) == Ok(notes)
    ensures notes.version == v && notes.occurrences == 1
    ensures notes.body != "" && !IsSpace(notes.body[0]) && !IsSpace(notes.body[|notes.body| - 1])
  {
  }

  /** What is refused, check by check in the source's order. */
  lemma RejectionExact(
    branch: string, base: Option<Version>, next: Version, notes: Section, gates: Gates, tagExists: bool)
    ensures var r := Rejection(branch, base, next, notes, gates, tagExists);
            var allPassed := gates.lint && gates.unit && gates.integration && gates.vulncheck;
            var own := notes.version == next && notes.occurrences == 1 && TrimSpace(notes.body) != "";
            && (r == Some(BranchNotAllowed) <==> branch != "main")
            && ((exists failed :: r == Some(GateFailed(failed))) <==> branch == "main" && !allPassed)
            && (forall failed :: r == Some(GateFailed(failed)) ==>
                  && (Lint in failed <==> !gates.lint) && (Unit in failed <==> !gates.unit)
                  && (Integration in failed <==> !gates.integration) && (Vulncheck in failed <==> !gates.vulncheck))
            && (r == Some(TagExists) <==> branch == "main" && allPassed && tagExists)
            && (r == Some(NotesMismatch) <==> branch == "main" && allPassed && !tagExists && !own)
            && (r == Some(NotBootstrap) <==>
                  branch == "main" && allPassed && !tagExists && own && base == None && next != Version(0, 1, 0))
            && (r == Some(NotAboveBase) <==>
                  branch == "main" && allPassed && !tagExists && own && base.Some? && Compare(next, base.value) <= 0)
            && (r == None <==>
                  branch == "main" && allPassed && !tagExists && own
                  && if base == None then next == Version(0, 1, 0) else Compare(base.value, next) < 0)
  {
    NoFailedGates(gates);
    FailedExactly(gates, |GATES|);
    CompareIsTotalOrder(notes.version, next, next);
    CompareIsTotalOrder(next, BOOTSTRAP, next);
    if base.Some? {
      CompareIsTotalOrder(next, base.value, next);
    }
  }

  /** What makes a changelog section, and what it is made of. */
  lemma SectionExact(v: Version, heading: string, body: string, occurrences: int, notes: Section)
    ensures NewChangelogSection(v, heading, body, occurrences) == Ok(notes) <==>
              && occurrences != 0 && occurrences <= 1
              && heading == "## [" + String(v) + "]" && TrimSpace(body) != ""
              && notes == Section(v, heading, TrimSpace(body), occurrences)
    ensures occurrences > 1 <==> NewChangelogSection(v, heading, body, occurrences) == Err(AmbiguousSection)
  {
  }

  lemma NoFailedGates(g: Gates)
    ensures FailedGates(g) == [] <==> g == Gates(true, true, true, true)
  {
    FailedExactly(g, |GATES|);
    if FailedGates(g) == [] {
      assert Passed(g, Lint) && Passed(g, Unit) && Passed(g, Integration) && Passed(g, Vulncheck);
    } else {
      assert FailedGates(g)[0] in FailedGates(g);
    }
  }

  /** The section made for a version passes the candidate's own check of its notes. */
  lemma SectionMatches(v: Version, heading: string, body: string, occurrences: nat, notes: Section)
    requires NewChangelogSection(v, heading, body, occurrences) == Ok(notes)
    ensures notes.version == v && notes.occurrences == 1 && TrimSpace(notes.body) != ""
    ensures Compare(notes.version, v) == 0
  {
    CheckedSection(v, Heading(v), heading, body, occurrences, notes);
    TrimmedStays(notes.body);
  }

  /** A candidate built from the resolved version and its own changelog section passes every
      check but those of branch, gates and tag; with a base, it passes the order check exactly
      if the bumped number is below the int64 maximum. */
  lemma ResolvedIsAdmitted(
    branch: string, base: Option<Version>, commits: seq<Commit>, highest: Increment, next: Version,
    notes: Section, heading: string, body: string, occurrences: nat, gates: Gates, tagExists: bool)
    requires base == None ==> next == BOOTSTRAP
    requires base.Some? ==> AllParse(commits) && IsHighest(commits, highest) && Bump(base.value, highest) == Some(next)
    requires NewChangelogSection(next, heading, body, occurrences) == Ok(notes)
    ensures Rejection(branch, base, next, notes, gates, tagExists) == None <==>
              && branch == RELEASE_BRANCH && gates == Gates(true, true, true, true) && !tagExists
              && (base.Some? ==> Component(base.value, highest) < MAX)
    ensures branch == RELEASE_BRANCH && gates == Gates(true, true, true, true) && !tagExists
            && base.Some? && Component(base.value, highest) == MAX ==>
              Rejection(branch, base, next, notes, gates, tagExists) == Some(NotAboveBase)
  {
    NoFailedGates(gates);
    SectionMatches(next, heading, body, occurrences, notes);
    if base.Some? {
      BumpAbove(base.value, highest);
    }
  }
}
