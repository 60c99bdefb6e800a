/** The file name under which a finished build's log is cached, and the
    end-of-log marker that decides whether a log is finished. */
module CacheKey {
  import opened Sequences
  import JobPath

  const MAX_SLUG := 180
  const EXTENSION := ".log"

  // ---- slug ----

  predicate IsSafe(c: char) {
    || 'a' <= c <= 'z' || 'A' <= c <= 'Z' || '0' <= c <= '9'
    || c == '_' || c == '.' || c == '-'
  }

  /** The safe characters are letters, digits, underscore, dot and hyphen. */
  lemma SafeCharacters(c: char)
    ensures IsSafe(c) <==>
      var n := c as int;
      65 <= n <= 90 || 97 <= n <= 122 || 48 <= n <= 57 || n == 95 || n == 46 || n == 45
  {
  }

  /** strings.ReplaceAll(s, "/", "__") */
  function FlattenSlashes(s: string): string {
    if s == "" then ""
    else (if s[0] == '/' then "__" else [s[0]]) + FlattenSlashes(s[1..])
  }

  function DropUnsafeRun(s: string): (r: string)
    ensures |r| <= |s|
  {
    if s != "" && !IsSafe(s[0]) then DropUnsafeRun(s[1..]) else s
  }

  /** Every maximal run of unsafe characters becomes one underscore. */
  function ReplaceUnsafeRuns(s: string): (r: string)
    ensures forall c :: c in r ==> IsSafe(c)
    decreases |s|
  {
    if s == "" then ""
    else if IsSafe(s[0]) then [s[0]] + ReplaceUnsafeRuns(s[1..])
    else "_" + ReplaceUnsafeRuns(DropUnsafeRun(s[1..]))
  }

  function Slug(jobPath: string): (slug: string)
    ensures |slug| <= 180
    ensures forall c :: c in slug ==> IsSafe(c)
  {
    Take(ReplaceUnsafeRuns(FlattenSlashes(JobPath.Trim(jobPath))), MAX_SLUG)
  }

  lemma {:induction false} ReplaceUnsafeRunsKeepsSafe(s: string)
    requires forall c :: c in s ==> IsSafe(c)
    ensures ReplaceUnsafeRuns(s) == s
  {
    if s == "" {
    } else {
      ReplaceUnsafeRunsKeepsSafe(s[1..]);
    }
  }

  lemma {:induction false} DropRun(run: string, rest: string)
    requires forall c :: c in run ==> !IsSafe(c)
    requires rest == "" || IsSafe(rest[0])
    ensures DropUnsafeRun(run + rest) == rest
  {
    if run == "" {
      assert run + rest == rest;
    } else {
      assert (run + rest)[0] == run[0] && run[0] in run;
      assert (run + rest)[1..] == run[1..] + rest;
      DropRun(run[1..], rest);
    }
  }

  /** A run of unsafe characters between safe ones leaves exactly one underscore. */
  lemma {:induction false} UnsafeRunLeavesOneUnderscore(before: string, run: string, rest: string)
    requires forall c :: c in before ==> IsSafe(c)
    requires run != "" && forall c :: c in run ==> !IsSafe(c)
    requires rest == "" || IsSafe(rest[0])
    ensures ReplaceUnsafeRuns(before + run + rest) == before + "_" + ReplaceUnsafeRuns(rest)
    decreases |before|
  {
    var s := before + run + rest;
    if before == "" {
      assert s[0] == run[0] && run[0] in run;
      assert s[1..] == run[1..] + rest;
      DropRun(run[1..], rest);
    } else {
      assert s[0] == before[0] && s[1..] == before[1..] + run + rest;
      UnsafeRunLeavesOneUnderscore(before[1..], run, rest);
    }
  }

  lemma {:induction false} FlattenSlashesKeepsNames(s: string)
    requires '/' !in s
    ensures FlattenSlashes(s) == s
  {
    if s == "" {
    } else {
      FlattenSlashesKeepsNames(s[1..]);
    }
  }

  /** A slug is its own slug: sanitizing twice changes nothing. */
  lemma SlugIdempotent(jobPath: string)
    ensures Slug(Slug(jobPath)) == Slug(jobPath)
  {
    var slug := Slug(jobPath);
    assert '/' !in slug;
    TrimKeepsInner(slug);
    FlattenSlashesKeepsNames(slug);
    ReplaceUnsafeRunsKeepsSafe(slug);
  }

  lemma {:induction false} TrimLeftIgnoresPadding(s: string, n: nat)
    ensures JobPath.TrimLeft(Slashes(n) + s) == JobPath.TrimLeft(s)
  {
    if n == 0 {
      assert Slashes(n) + s == s;
    } else {
      TrimLeftIgnoresPadding(s, n - 1);
      assert (Slashes(n) + s)[1..] == Slashes(n - 1) + s;
    }
  }

  lemma OneMoreSlash(s: string, n: nat)
    ensures JobPath.TrimRight(s + Slashes(n + 1)) == JobPath.TrimRight(s + Slashes(n))
  {
    var padded := s + Slashes(n + 1);
    assert padded[|padded| - 1] == '/';
    assert padded[..|padded| - 1] == s + Slashes(n);
  }

  lemma {:induction false} TrimRightIgnoresPadding(s: string, n: nat)
    ensures JobPath.TrimRight(s + Slashes(n)) == JobPath.TrimRight(s)
  {
    if n == 0 {
      assert s + Slashes(n) == s;
    } else {
      TrimRightIgnoresPadding(s, n - 1);
      OneMoreSlash(s, n - 1);
    }
  }

  lemma {:induction false} TrimLeftOfPaddedEnd(s: string, n: nat)
    ensures JobPath.TrimRight(JobPath.TrimLeft(s + Slashes(n))) == JobPath.Trim(s)
  {
    if s == "" {
      assert s + Slashes(n) == Slashes(n) + "";
      TrimLeftIgnoresPadding("", n);
    } else if s[0] == '/' {
      assert (s + Slashes(n))[1..] == s[1..] + Slashes(n);
      TrimLeftOfPaddedEnd(s[1..], n);
    } else {
      TrimRightIgnoresPadding(s, n);
    }
  }

  function Slashes(n: nat): string {
    seq(n, i => '/')
  }

  /** Leading and trailing slashes of the job path do not reach the slug. */
  lemma SlugIgnoresOuterSlashes(s: string, before: nat, after: nat)
    ensures Slug(Slashes(before) + s + Slashes(after)) == Slug(s)
  {
    assert Slashes(before) + s + Slashes(after) == Slashes(before) + (s + Slashes(after));
    TrimLeftIgnoresPadding(s + Slashes(after), before);
    TrimLeftOfPaddedEnd(s, after);
  }

  lemma {:induction false} FlattenSlashesJoin(a: string, b: string)
    ensures FlattenSlashes(a + "/" + b) == FlattenSlashes(a) + "__" + FlattenSlashes(b)
  {
    var s := a + "/" + b;
    if a == "" {
      assert s[0] == '/' && s[1..] == b;
    } else {
      FlattenSlashesJoin(a[1..], b);
      assert s[0] == a[0] && s[1..] == a[1..] + "/" + b;
      var head := if a[0] == '/' then "__" else [a[0]];
      var x, y := FlattenSlashes(a[1..]), FlattenSlashes(b);
      ConcatAssociates(head, x + "__", y);
      ConcatAssociates(head, x, "__");
    }
  }

  /** Different jobs can share a slug, so the cache needs distinct slugs as an
      assumption: a job `b` in a folder `a`, and a job `a__b`. */
  lemma SlugsCanCollide(a: string, b: string)
    requires a != "" && b != "" && '/' !in a && '/' !in b
    ensures Slug(a + "/" + b) == Slug(a + "__" + b)
    ensures JobPath.Segments(a + "/" + b) != JobPath.Segments(a + "__" + b)
  {
    FlattenSlashesJoin(a, b);
    FlattenSlashesKeepsNames(a);
    FlattenSlashesKeepsNames(b);
    var nested, flat := a + "/" + b, a + "__" + b;
    assert nested[0] == a[0] && nested[|nested| - 1] == b[|b| - 1];
    assert JobPath.Trim(nested) == nested;
    TrimKeepsInner(flat);
    FlattenSlashesKeepsNames(flat);
    JobPath.SegmentsJoin(a, b);
    JobPath.NameIsOneSegment(a);
    JobPath.NameIsOneSegment(b);
    JobPath.NameIsOneSegment(flat);
  }

  /** A job path on which flattening can be undone: safe characters and slashes,
      at most 180 characters once flattened, and no underscore directly before
      an underscore or a slash. */
  predicate Unflattens(s: string) {
    && (forall c :: c in s ==> IsSafe(c) || c == '/')
    && |FlattenSlashes(s)| <= MAX_SLUG
    && forall i :: 0 < i < |s| && s[i - 1] == '_' ==> s[i] != '_' && s[i] != '/'
  }

  function Unflatten(s: string): string {
    if |s| >= 2 && s[..2] == "__" then "/" + Unflatten(s[2..])
    else if s != "" then [s[0]] + Unflatten(s[1..])
    else ""
  }

  lemma FlattenedStart(s: string)
    requires s != "" && s[0] != '_' && s[0] != '/'
    ensures FlattenSlashes(s) != "" && FlattenSlashes(s)[0] != '_'
  {
  }

  lemma {:induction false} UnflattenUndoes(s: string)
    requires forall i :: 0 < i < |s| && s[i - 1] == '_' ==> s[i] != '_' && s[i] != '/'
    ensures Unflatten(FlattenSlashes(s)) == s
  {
    if s == "" {
    } else {
      UnflattenUndoes(s[1..]);
      var rest := FlattenSlashes(s[1..]);
      if s[0] == '/' {
        assert FlattenSlashes(s)[2..] == rest;
      } else {
        assert FlattenSlashes(s)[1..] == rest;
        if s[0] == '_' && |s| > 1 {
          FlattenedStart(s[1..]);
        }
      }
    }
  }

  lemma {:induction false} FlattenSlashesIsSafe(s: string)
    requires forall c :: c in s ==> IsSafe(c) || c == '/'
    ensures forall c :: c in FlattenSlashes(s) ==> IsSafe(c)
  {
    if s == "" {
    } else {
      assert s[0] in s;
      FlattenSlashesIsSafe(s[1..]);
    }
  }

  /** Jobs named within these bounds never share a slug. */
  lemma SlugTellsJobsApart(a: string, b: string)
    requires Unflattens(JobPath.Trim(a)) && Unflattens(JobPath.Trim(b))
    ensures Slug(a) == Slug(b) <==> JobPath.Trim(a) == JobPath.Trim(b)
  {
    forall s | s in [a, b] ensures Unflatten(Slug(s)) == JobPath.Trim(s) {
      FlattenSlashesIsSafe(JobPath.Trim(s));
      ReplaceUnsafeRunsKeepsSafe(FlattenSlashes(JobPath.Trim(s)));
      UnflattenUndoes(JobPath.Trim(s));
    }
    assert a in [a, b] && b in [a, b];
  }

  // ---- when a slug is shared ----

  /** A trimmed job path that no other job shares its slug with. */
  predicate HasOwnSlug(path: string) {
    |path| < 180 && forall c :: c in path ==> IsSafe(c) && c != '_'
  }

  ghost predicate SharesNoSlug(a: string) {
    forall b :: Slug(b) == Slug(a) ==> JobPath.Trim(b) == JobPath.Trim(a)
  }

  lemma {:induction false} NoUnderscoreMeansUnchanged(s: string)
    ensures '_' !in ReplaceUnsafeRuns(s) ==> ReplaceUnsafeRuns(s) == s
    ensures '_' !in FlattenSlashes(s) ==> FlattenSlashes(s) == s
  {
    if s == "" {
    } else {
      NoUnderscoreMeansUnchanged(s[1..]);
      assert s == [s[0]] + s[1..];
    }
  }

  lemma OwnSlugIsUnshared(a: string, b: string)
    requires HasOwnSlug(JobPath.Trim(a)) && Slug(b) == Slug(a)
    ensures JobPath.Trim(b) == JobPath.Trim(a)
  {
    var path, flat := JobPath.Trim(a), FlattenSlashes(JobPath.Trim(b));
    FlattenSlashesKeepsNames(path);
    ReplaceUnsafeRunsKeepsSafe(path);
    assert ReplaceUnsafeRuns(flat) == path;
    NoUnderscoreMeansUnchanged(flat);
    NoUnderscoreMeansUnchanged(JobPath.Trim(b));
  }

  /** Neither the first nor the last character is a slash. */
  predicate HasInnerEnds(s: string) {
    s != "" ==> s[0] != '/' && s[|s| - 1] != '/'
  }

  lemma TrimKeepsInner(s: string)
    requires HasInnerEnds(s)
    ensures JobPath.Trim(s) == s
  {
  }

  /** Flattening and replacing, applied to a path that is already trimmed. */
  function Sanitized(path: string): string {
    ReplaceUnsafeRuns(FlattenSlashes(path))
  }

  lemma SlugOfTrimmed(a: string, path: string)
    requires HasInnerEnds(path)
    requires Take(Sanitized(path), MAX_SLUG) == Take(Sanitized(JobPath.Trim(a)), MAX_SLUG)
    ensures Slug(path) == Slug(a) && JobPath.Trim(path) == path
  {
    TrimKeepsInner(path);
  }

  lemma {:induction false} FlattenSlashesConcat(a: string, b: string)
    ensures FlattenSlashes(a + b) == FlattenSlashes(a) + FlattenSlashes(b)
  {
    if a == "" {
      assert a + b == b;
    } else {
      FlattenSlashesConcat(a[1..], b);
      assert (a + b)[1..] == a[1..] + b;
      var head := if a[0] == '/' then "__" else [a[0]];
      ConcatAssociates(head, FlattenSlashes(a[1..]), FlattenSlashes(b));
    }
  }

  lemma {:induction false} SafePrefixStays(before: string, rest: string)
    requires forall c :: c in before ==> IsSafe(c)
    ensures ReplaceUnsafeRuns(before + rest) == before + ReplaceUnsafeRuns(rest)
  {
    if before == "" {
      assert before + rest == rest;
    } else {
      assert (before + rest)[0] == before[0] && before[0] in before;
      assert (before + rest)[1..] == before[1..] + rest;
      SafePrefixStays(before[1..], rest);
    }
  }

  /** Doubling an unsafe character lengthens its run and changes nothing else. */
  lemma DoubledUnsafe(before: string, c: char, rest: string)
    requires forall d :: d in before ==> IsSafe(d) || d == '/'
    requires !IsSafe(c) && c != '/'
    ensures Sanitized(before + [c] + ([c] + rest)) == Sanitized(before + ([c] + rest))
  {
    var flat, more := FlattenSlashes(before), [c] + FlattenSlashes(rest);
    FlattenSlashesIsSafe(before);
    assert [c][1..] == "";
    FlattenSlashesConcat([c], rest);
    FlattenSlashesConcat(before, [c] + rest);
    FlattenSlashesConcat(before + [c], [c] + rest);
    FlattenSlashesConcat(before, [c]);
    SafePrefixStays(flat, more);
    SafePrefixStays(flat, [c] + more);
    ConcatAssociates(flat, [c], more);
    assert ([c] + more)[1..] == more && more[1..] == FlattenSlashes(rest);
  }

  lemma {:induction false} FirstUnsafe(path: string) returns (i: nat)
    requires exists c :: c in path && !IsSafe(c) && c != '/'
    ensures i < |path| && !IsSafe(path[i]) && path[i] != '/'
    ensures forall c :: c in path[..i] ==> IsSafe(c) || c == '/'
  {
    if !IsSafe(path[0]) && path[0] != '/' {
      i := 0;
    } else {
      var j := FirstUnsafe(path[1..]);
      i := j + 1;
      assert path[..i] == [path[0]] + path[1..][..j];
    }
  }

  /** Any other path has a twin: a different one with the same slug. */
  lemma SharedSlugTwin(a: string) returns (b: string)
    requires !HasOwnSlug(JobPath.Trim(a))
    ensures Slug(b) == Slug(a) && JobPath.Trim(b) != JobPath.Trim(a)
  {
    assert HasInnerEnds(JobPath.Trim(a));
    b := TwinOfTrimmed(JobPath.Trim(a));
    SlugOfTrimmed(a, b);
  }

  lemma TwinOfTrimmed(path: string) returns (b: string)
    requires !HasOwnSlug(path) && HasInnerEnds(path)
    ensures b != path && HasInnerEnds(b)
    ensures Take(Sanitized(b), MAX_SLUG) == Take(Sanitized(path), MAX_SLUG)
  {
    if exists c :: c in path && !IsSafe(c) && c != '/' {
      b := TwinByDoubling(path);
    } else if '/' in path {
      b := TwinByFlattening(path);
    } else if '_' in path {
      b := TwinBySpace(path);
    } else {
      b := TwinByLength(path);
    }
  }

  lemma TwinByLength(path: string) returns (b: string)
    requires |path| >= MAX_SLUG && forall c :: c in path ==> IsSafe(c)
    ensures b != path && HasInnerEnds(b)
    ensures Take(Sanitized(b), MAX_SLUG) == Take(Sanitized(path), MAX_SLUG)
  {
    b := path + "a";
    assert !IsSafe('/') && path[0] in path;
    forall c | c in b ensures IsSafe(c) {
      assert c in path || c == 'a';
    }
    PlainIsSanitized(path);
    PlainIsSanitized(b);
  }

  lemma PlainIsSanitized(path: string)
    requires forall c :: c in path ==> IsSafe(c)
    ensures Sanitized(path) == path
  {
    FlattenSlashesKeepsNames(path);
    ReplaceUnsafeRunsKeepsSafe(path);
  }

  lemma TwinByDoubling(path: string) returns (b: string)
    requires HasInnerEnds(path)
    requires exists c :: c in path && !IsSafe(c) && c != '/'
    ensures b != path && Sanitized(b) == Sanitized(path)
    ensures HasInnerEnds(b)
  {
    var i := FirstUnsafe(path);
    var c, before, rest := path[i], path[..i], path[i + 1..];
    assert path == before + ([c] + rest);
    DoubledUnsafe(before, c, rest);
    b := before + [c] + ([c] + rest);
    assert |b| == |path| + 1 && b[0] == path[0] && b[|b| - 1] == path[|path| - 1];
  }

  lemma TwinByFlattening(path: string) returns (b: string)
    requires '/' in path && forall c :: c in path ==> IsSafe(c) || c == '/'
    ensures b != path && Sanitized(b) == Sanitized(path) && HasInnerEnds(b)
  {
    b := FlattenSlashes(path);
    FlattenSlashesIsSafe(path);
    FlattenSlashesKeepsNames(b);
  }

  lemma SpaceReadsAsUnderscore(before: string, rest: string)
    requires forall c :: c in before ==> IsSafe(c)
    requires forall c :: c in rest ==> IsSafe(c)
    ensures Sanitized(before + " " + rest) == before + "_" + rest
    ensures '/' !in before + " " + rest
  {
    assert '/' !in before + " " + rest by {
      assert !IsSafe('/');
    }
    FlattenSlashesKeepsNames(before + " " + rest);
    UnsafeRunLeavesOneUnderscore(before, " ", rest);
    ReplaceUnsafeRunsKeepsSafe(rest);
  }

  lemma TwinBySpace(path: string) returns (b: string)
    requires '_' in path && forall c :: c in path ==> IsSafe(c)
    ensures b != path && Sanitized(b) == Sanitized(path) && HasInnerEnds(b)
  {
    var i :| 0 <= i < |path| && path[i] == '_';
    var before, rest := path[..i], path[i + 1..];
    assert path == before + "_" + rest;
    b := before + " " + rest;
    assert b[i] == ' ';
    PlainIsSanitized(path);
    assert forall c :: c in before ==> c in path;
    assert forall c :: c in rest ==> c in path;
    SpaceReadsAsUnderscore(before, rest);
  }

  /** A job shares its slug with no other job exactly when its trimmed path is
      shorter than 180 characters and made of safe characters other than underscores. */
  lemma SlugIsUnsharedExactly(a: string)
    ensures SharesNoSlug(a) <==> HasOwnSlug(JobPath.Trim(a))
  {
    if HasOwnSlug(JobPath.Trim(a)) {
      forall b | Slug(b) == Slug(a) ensures JobPath.Trim(b) == JobPath.Trim(a) {
        OwnSlugIsUnshared(a, b);
      }
    } else {
      var b := SharedSlugTwin(a);
    }
  }

  // ---- decimal numbers ----

  predicate IsDigit(c: char) {
    '0' <= c <= '9'
  }

  function Digits(n: nat): (s: string)
    ensures s != "" && forall c :: c in s ==> IsDigit(c)
  {
    var last := [('0' as int + n % 10) as char];
    if n < 10 then last else Digits(n / 10) + last
  }

  /** fmt's %d */
  function Decimal(n: int): string {
    if n < 0 then "-" + Digits(-n) else Digits(n)
  }

  function DigitsValue(s: string): int {
    if s == "" then 0
    else 10 * DigitsValue(s[..|s| - 1]) + (s[|s| - 1] as int - '0' as int)
  }

  lemma {:induction false} DigitsRoundTrip(n: nat)
    ensures DigitsValue(Digits(n)) == n
  {
    var s := Digits(n);
    if n < 10 {
    } else {
      DigitsRoundTrip(n / 10);
      assert s[..|s| - 1] == Digits(n / 10);
    }
  }

  // ---- file name codec ----

  function FileName(jobPath: string, number: int, timestamp: int): string {
    Slug(jobPath) + "-" + Decimal(number) + "-" + Decimal(timestamp) + EXTENSION
  }

  function LastDash(s: string): (r: int)
    ensures -1 <= r < |s|
    ensures r >= 0 ==> s[r] == '-'
    ensures forall i :: r < i < |s| ==> s[i] != '-'
  {
    if s == "" then -1
    else if s[|s| - 1] == '-' then |s| - 1
    else LastDash(s[..|s| - 1])
  }

  lemma LastDashAt(prefix: string, digits: string)
    requires forall c :: c in digits ==> IsDigit(c)
    ensures LastDash(prefix + "-" + digits) == |prefix|
  {
    var s := prefix + "-" + digits;
    assert s[|prefix|] == '-';
    forall i | |prefix| < i < |s| ensures s[i] != '-' {
      assert s[i] in digits;
    }
  }

  datatype Key = Key(slug: string, number: int, timestamp: int)

  /** Reads a cache file name from the right. */
  function ReadName(name: string): Option<Key> {
    if |name| < |EXTENSION| then None else ReadStem(name[..|name| - |EXTENSION|])
  }

  function ReadStem(stem: string): Option<Key> {
    var (rest, timestamp) := CutTimestamp(stem);
    var e := LastDash(rest);
    if e < 0 then None
    else Some(Key(rest[..e], DigitsValue(rest[e + 1..]), timestamp))
  }

  /** Splits off the last number; a second dash before it is its sign. */
  function CutTimestamp(stem: string): (string, int) {
    var d := LastDash(stem);
    if d < 1 then ("", 0)
    else if stem[d - 1] == '-' then (stem[..d - 1], -DigitsValue(stem[d + 1..]))
    else (stem[..d], DigitsValue(stem[d + 1..]))
  }

  /** The text after the last dash is the digits behind it. */
  lemma CutAt(prefix: string, digits: string)
    requires forall c :: c in digits ==> IsDigit(c)
    ensures LastDash(prefix + "-" + digits) == |prefix|
    ensures (prefix + "-" + digits)[|prefix| + 1..] == digits
    ensures (prefix + "-" + digits)[..|prefix|] == prefix
  {
    LastDashAt(prefix, digits);
    assert (prefix + "-" + digits)[|prefix| + 1..] == digits;
  }

  lemma CutNegative(rest: string, digits: string)
    requires forall c :: c in digits ==> IsDigit(c)
    ensures CutTimestamp(rest + "-" + "-" + digits) == (rest, -DigitsValue(digits))
  {
    var stem := rest + "-" + "-" + digits;
    CutAt(rest + "-", digits);
    assert stem[|rest|] == '-';
    assert stem[..|rest|] == rest;
  }

  lemma CutPositive(rest: string, digits: string)
    requires rest != "" && rest[|rest| - 1] != '-'
    requires forall c :: c in digits ==> IsDigit(c)
    ensures CutTimestamp(rest + "-" + digits) == (rest, DigitsValue(digits))
  {
    CutAt(rest, digits);
    assert (rest + "-" + digits)[|rest| - 1] == rest[|rest| - 1];
  }

  lemma CutTimestampUndoes(rest: string, timestamp: int)
    requires rest != "" && rest[|rest| - 1] != '-'
    ensures CutTimestamp(rest + "-" + Decimal(timestamp)) == (rest, timestamp)
  {
    var digits := Digits(if timestamp < 0 then -timestamp else timestamp);
    DigitsRoundTrip(if timestamp < 0 then -timestamp else timestamp);
    if timestamp < 0 {
      assert rest + "-" + Decimal(timestamp) == rest + "-" + "-" + digits;
      CutNegative(rest, digits);
    } else {
      CutPositive(rest, digits);
    }
  }

  lemma ReadStemUndoes(slug: string, number: nat, timestamp: int)
    ensures ReadStem(slug + "-" + Digits(number) + "-" + Decimal(timestamp)) == Some(Key(slug, number, timestamp))
  {
    var digits := Digits(number);
    var rest := slug + "-" + digits;
    assert rest[|rest| - 1] == digits[|digits| - 1] && IsDigit(digits[|digits| - 1]);
    CutTimestampUndoes(rest, timestamp);
    CutAt(slug, digits);
    DigitsRoundTrip(number);
  }

  /** The number and the timestamp can be read back, whatever the slug holds. */
  lemma FileNameReadsBack(jobPath: string, number: int, timestamp: int)
    requires number > 0
    ensures ReadName(FileName(jobPath, number, timestamp)) == Some(Key(Slug(jobPath), number, timestamp))
  {
    var slug := Slug(jobPath);
    var stem := slug + "-" + Digits(number) + "-" + Decimal(timestamp);
    var name := FileName(jobPath, number, timestamp);
    assert name == stem + EXTENSION;
    assert name[..|name| - |EXTENSION|] == stem;
    ReadStemUndoes(slug, number, timestamp);
  }

  /** Two builds share a cache file exactly when slug, number and timestamp all agree. */
  lemma FileNameIdentity(jobA: string, numA: int, tsA: int, jobB: string, numB: int, tsB: int)
    requires numA > 0 && numB > 0
    ensures FileName(jobA, numA, tsA) == FileName(jobB, numB, tsB) <==>
            Slug(jobA) == Slug(jobB) && numA == numB && tsA == tsB
  {
    FileNameReadsBack(jobA, numA, tsA);
    FileNameReadsBack(jobB, numB, tsB);
  }

  lemma FileNameIsFlat(jobPath: string, number: int, timestamp: int)
    ensures '/' !in FileName(jobPath, number, timestamp)
    ensures FileName(jobPath, number, timestamp) !in {"", ".", ".."}
  {
    forall c | c in FileName(jobPath, number, timestamp) ensures c != '/' {
      assert c in Slug(jobPath) || c in "-" || c in Decimal(number) || c in Decimal(timestamp) || c in EXTENSION;
    }
    assert |FileName(jobPath, number, timestamp)| > 4;
  }

  /** The number is written in decimal: its last digit is the remainder by ten, and the
      digits before it write the quotient. */
  lemma DigitsAreDecimal(n: nat)
    ensures n < 10 ==> |Digits(n)| == 1
    ensures n >= 10 ==> Digits(n)[..|Digits(n)| - 1] == Digits(n / 10) && Digits(n)[0] != '0'
    ensures Digits(n)[|Digits(n)| - 1] as int == 48 + n % 10
  {
    if n >= 100 {
      DigitsAreDecimal(n / 10);
    }
  }

  /** The parts of a file name: slug, number, timestamp and the extension `.log`. */
  lemma FileNameParts(jobPath: string, number: nat, timestamp: nat)
    ensures FileName(jobPath, number, timestamp)
         == Slug(jobPath) + "-" + Digits(number) + "-" + Digits(timestamp) + ".log"
  {
  }

  // ---- end-of-log marker ----

  const TAIL := 256
  const RESULTS := ["SUCCESS", "FAILURE", "ABORTED", "UNSTABLE", "NOT_BUILT"]

  predicate IsSpace(c: char) {
    c == ' ' || c == '\t' || c == '\n' || c == '\r' || c == 12 as char
  }

  predicate StartsWithAt(s: string, i: nat, word: string) {
    i + |word| <= |s| && s[i..i + |word|] == word
  }

  /** From position i on, s reads `Finished: <result>`, blanks, end of line. */
  predicate MarkerAt(s: string, i: nat) {
    exists result, stop | result in RESULTS && 0 <= stop <= |s| :: MarkerSpans(s, i, result, stop)
  }

  predicate MarkerSpans(s: string, i: nat, result: string, stop: nat) {
    && result in RESULTS
    && StartsWithAt(s, i, "Finished: " + result)
    && MarkerEndsAt(s, i + |"Finished: " + result|, stop)
  }

  /** s reads `Finished: `, then r, then blanks up to the end of a line or of s. */
  ghost predicate ReadsFinished(s: string, i: nat, r: string, stop: nat) {
    && i + 10 + |r| <= stop <= |s|
    && s[i..i + 10] == "Finished: " && s[i + 10..i + 10 + |r|] == r
    && (forall j :: i + 10 + |r| <= j < stop ==>
          s[j] == ' ' || s[j] == '\t' || s[j] == '\n' || s[j] == 12 as char || s[j] == '\r')
    && (stop == |s| || s[stop] == '\n')
  }

  lemma SpanReads(s: string, i: nat, r: string, stop: nat)
    requires r in RESULTS
    ensures MarkerSpans(s, i, r, stop) <==> ReadsFinished(s, i, r, stop)
  {
    var f := "Finished: ";
    var w := f + r;
    assert |f| == 10 && |w| == 10 + |r|;
    if i + |w| <= |s| {
      assert s[i..i + |w|] == s[i..i + 10] + s[i + 10..i + |w|];
      assert s[i..i + |w|][..10] == s[i..i + 10] && s[i..i + |w|][10..] == s[i + 10..i + |w|];
      assert w[..10] == f && w[10..] == r;
    }
  }

  /** A marker is one of the five results, written like that. */
  lemma MarkerReads(s: string, i: nat)
    ensures MarkerAt(s, i) <==>
      exists stop: nat ::
        || ReadsFinished(s, i, "SUCCESS", stop) || ReadsFinished(s, i, "FAILURE", stop)
        || ReadsFinished(s, i, "ABORTED", stop) || ReadsFinished(s, i, "UNSTABLE", stop)
        || ReadsFinished(s, i, "NOT_BUILT", stop)
  {
    assert RESULTS[0] == "SUCCESS" && RESULTS[1] == "FAILURE" && RESULTS[2] == "ABORTED";
    assert RESULTS[3] == "UNSTABLE" && RESULTS[4] == "NOT_BUILT";
    forall r, stop: nat | r in RESULTS ensures MarkerSpans(s, i, r, stop) <==> ReadsFinished(s, i, r, stop) {
      SpanReads(s, i, r, stop);
    }
  }

  predicate MarkerEndsAt(s: string, from: nat, stop: nat) {
    && from <= stop <= |s|
    && (forall j :: from <= j < stop ==> IsSpace(s[j]))
    && (stop == |s| || s[stop] == '\n')
  }

  /** The marker regular expression: a marker at the start of some line. */
  predicate HasMarker(s: string) {
    exists i | 0 <= i <= |s| :: (i == 0 || s[i - 1] == '\n') && MarkerAt(s, i)
  }

  function TailBytes(b: string, n: nat): (t: string)
    ensures |t| <= n
  {
    if |b| <= n then b else b[|b| - n..]
  }

  /** The test a body must pass to be written to disk. */
  predicate PassesFinishedCheck(body: string) {
    HasMarker(TailBytes(body, TAIL))
  }

  lemma SpanShift(b: string, k: nat, i: nat, result: string, stop: nat)
    requires k <= |b|
    ensures MarkerSpans(b[k..], i, result, stop) <==> MarkerSpans(b, k + i, result, k + stop)
  {
    var w := "Finished: " + result;
    var t := b[k..];
    if k + i + |w| <= |b| {
      assert t[i..i + |w|] == b[k + i..k + i + |w|];
    }
    forall j | 0 <= j < |t| ensures t[j] == b[k + j] {
    }
    if MarkerSpans(b[k..], i, result, stop) {
      forall j | k + i + |w| <= j < k + stop ensures IsSpace(b[j]) {
        assert t[j - k] == b[j];
      }
    }
  }

  lemma MarkerShift(b: string, k: nat, i: nat)
    requires k <= |b|
    ensures MarkerAt(b[k..], i) <==> MarkerAt(b, k + i)
  {
    if MarkerAt(b[k..], i) {
      var result, stop :| result in RESULTS && 0 <= stop <= |b| - k && MarkerSpans(b[k..], i, result, stop);
      SpanShift(b, k, i, result, stop);
    }
    if MarkerAt(b, k + i) {
      var result, stop :| result in RESULTS && 0 <= stop <= |b| && MarkerSpans(b, k + i, result, stop);
      SpanShift(b, k, i, result, stop - k);
    }
  }

  /** A marker that the check can see: inside the last 256 bytes, and at the start
      of a line or exactly where the window is cut. */
  ghost predicate MarkerInWindow(body: string, i: nat) {
    && |body| - 256 <= i <= |body|
    && (i == 0 || body[i - 1] == '\n' || i == |body| - 256)
    && MarkerAt(body, i)
  }

  /** Where the checked window begins. */
  function Cut(body: string): nat {
    if |body| <= TAIL then 0 else |body| - TAIL
  }

  lemma WindowMarker(body: string, i: nat)
    requires i <= |body| - Cut(body)
    ensures var t := TailBytes(body, TAIL);
      ((i == 0 || t[i - 1] == '\n') && MarkerAt(t, i)) <==> MarkerInWindow(body, Cut(body) + i)
  {
    var t := TailBytes(body, TAIL);
    assert t == body[Cut(body)..];
    MarkerShift(body, Cut(body), i);
    if i > 0 {
      assert t[i - 1] == body[Cut(body) + i - 1];
    }
  }

  /** The check accepts a body exactly when some marker stands in its window. */
  lemma FinishedCheckExact(body: string)
    ensures PassesFinishedCheck(body) <==> exists i: nat :: MarkerInWindow(body, i)
  {
    var t := TailBytes(body, TAIL);
    if PassesFinishedCheck(body) {
      var i :| 0 <= i <= |t| && (i == 0 || t[i - 1] == '\n') && MarkerAt(t, i);
      WindowMarker(body, i);
    }
    if i: nat :| MarkerInWindow(body, i) {
      WindowMarker(body, i - Cut(body));
    }
  }

  /** An accepted body holds the marker at the start of a line, unless the marker
      in the window stands exactly on the cut. */
  lemma AcceptedBodyHasMarker(body: string)
    requires PassesFinishedCheck(body)
    ensures HasMarker(body) || (|body| > 256 && MarkerAt(body, |body| - 256) && body[|body| - 257] != '\n')
  {
    FinishedCheckExact(body);
    var i: nat :| MarkerInWindow(body, i);
  }

  /** The window can match although the whole body does not: a character glued
      before a marker that, with its line feeds, fills the window exactly. */
  lemma FinishedCheckCanAcceptWithoutMarkerLine(feeds: string)
    requires |feeds| == 239 && forall j :: 0 <= j < 239 ==> feeds[j] == '\n'
    ensures PassesFinishedCheck("xFinished: SUCCESS" + feeds)
    ensures !HasMarker("xFinished: SUCCESS" + feeds)
  {
    var head := "xFinished: SUCCESS";
    var body := head + feeds;
    assert |head| == 18;
    GluedMarkerPasses(head, feeds);
    assert forall j :: 0 <= j < 18 ==> head[j] != '\n';
    forall i: nat | i <= |body| && (i == 0 || body[i - 1] == '\n') ensures !MarkerAt(body, i) {
      assert i == 0 || i >= 18;
      assert i < |body| ==> body[i] != 'F';
      if MarkerAt(body, i) {
        MarkerStartsWithF(body, i);
        assert false;
      }
    }
  }

  lemma GluedMarkerPasses(head: string, feeds: string)
    requires head == "xFinished: SUCCESS"
    requires |feeds| == 239 && forall j :: 0 <= j < 239 ==> feeds[j] == '\n'
    ensures PassesFinishedCheck(head + feeds)
  {
    var body := head + feeds;
    assert RESULTS[0] == "SUCCESS";
    assert body[1..18] == "Finished: " + "SUCCESS";
    assert MarkerSpans(body, 1, "SUCCESS", 257);
    assert MarkerInWindow(body, 1);
    FinishedCheckExact(body);
  }

  lemma MarkerStartsWithF(s: string, i: nat)
    requires MarkerAt(s, i)
    ensures i < |s| && s[i] == 'F'
  {
    var result, stop :| result in RESULTS && 0 <= stop <= |s| && MarkerSpans(s, i, result, stop);
    var w := "Finished: " + result;
    assert StartsWithAt(s, i, w);
    assert s[i] == s[i..i + |w|][0] == 'F';
  }
}
