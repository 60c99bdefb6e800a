/** Two independent counts of a test's status flips over recent builds: the flaky
    ranking, which folds whole reports, and the history of one test. */
module Flips {
  import opened Sequences

  datatype State = Unknown | Pass | Fail | Skip

  /** Jenkins' per-case status strings collapse to four states. */
  function Normalize(status: string): State {
    if status in {"PASSED", "FIXED"} then Pass
    else if status in {"FAILED", "REGRESSION"} then Fail
    else if status == "SKIPPED" then Skip
    else Unknown
  }

  datatype Case = Case(className: string, name: string, status: string, duration: real, errorDetails: Option<string>) {
    function FullName(): string {
      className + "." + name
    }
  }

  /** What the test report request of a build gives: no report (404), an error, a body
      that cannot be parsed, or the test cases in report order. */
  datatype Report = NoReport | RequestFailed | Unreadable | Cases(cases: seq<Case>)

  datatype Build = Build(number: int, result: string, report: Report) {
    predicate Fails() {
      report.RequestFailed? || report.Unreadable?
    }
  }

  predicate Counts(state: State, includeSkipped: bool) {
    state != Skip || includeSkipped
  }

  // ---- flips of a state sequence ----

  function Flips(states: seq<State>): nat {
    if |states| < 2 then 0
    else
      var n := |states| - 1;
      Flips(states[..n]) + if states[n] != states[n - 1] then 1 else 0
  }

  function Tally(states: seq<State>, s: State): nat {
    if states == [] then 0
    else Tally(states[..|states| - 1], s) + if states[|states| - 1] == s then 1 else 0
  }

  predicate NotSkip(s: State) {
    s != Skip
  }

  function LastOr(states: seq<State>, default: State): State {
    if states == [] then default else states[|states| - 1]
  }

  /** Adding one state flips at most once, and dropping a SKIPPED one never adds a flip. */
  lemma {:induction false} SkippingNeverAddsFlips(states: seq<State>)
    ensures Flips(Filter(states, NotSkip)) <= Flips(states)
    ensures states != [] && Filter(states, NotSkip) != [] && LastOr(states, Skip) == Skip ==>
      Flips(Filter(states, NotSkip)) < Flips(states)
  {
    if states == [] {
    } else {
      var n := |states| - 1;
      SkippingNeverAddsFlips(states[..n]);
      var front := Filter(states[..n], NotSkip);
      if NotSkip(states[n]) {
        assert Filter(states, NotSkip)[..|front|] == front;
        if n > 0 && front != [] && NotSkip(states[n - 1]) {
          LastKept(states[..n]);
        }
      } else if n > 0 && front != [] && NotSkip(states[n - 1]) {
        assert states[n] != states[n - 1];
      }
    }
  }

  lemma LastKept(states: seq<State>)
    requires states != [] && NotSkip(states[|states| - 1])
    ensures LastOr(Filter(states, NotSkip), Skip) == states[|states| - 1]
  {
  }

  ghost predicate PassFailOnly(states: seq<State>) {
    forall i :: 0 <= i < |states| ==> states[i].Pass? || states[i].Fail?
  }

  /** The bounds sharpened by how the sequence starts and ends. */
  lemma {:induction false} FlipBoundsByEnds(states: seq<State>)
    requires states != [] && PassFailOnly(states)
    ensures var p, f, first, last := Tally(states, Pass), Tally(states, Fail), states[0], states[|states| - 1];
      && p + f == |states|
      && Flips(states) <= |states| - 1
      && Flips(states) <= 2 * p - (if first.Pass? then 1 else 0) - (if last.Pass? then 1 else 0)
      && Flips(states) <= 2 * f - (if first.Fail? then 1 else 0) - (if last.Fail? then 1 else 0)
      && Flips(states) % 2 == if first == last then 0 else 1
  {
    var n := |states| - 1;
    if n == 0 {
      assert states[..0] == [];
    } else {
      FlipBoundsByEnds(states[..n]);
    }
  }

  /** In a pass/fail sequence the flips are bounded by both tallies, and are odd
      exactly when the last state differs from the first. */
  lemma FlipBounds(states: seq<State>)
    requires states != [] && PassFailOnly(states)
    ensures var p, f := Tally(states, Pass), Tally(states, Fail);
      && Flips(states) <= p + f - 1
      && Flips(states) <= 2 * (if p < f then p else f)
      && (Flips(states) % 2 == 1 <==> states[0] != states[|states| - 1])
  {
    FlipBoundsByEnds(states);
  }

  // ---- flaky: fold each report, then aggregate ----

  type Tests = map<string, State>

  /** The last known state under each full name. */
  function Folded(cases: seq<Case>): Tests {
    if cases == [] then map[]
    else
      var c := cases[|cases| - 1];
      var front := Folded(cases[..|cases| - 1]);
      if Normalize(c.status).Unknown? then front else front[c.FullName() := Normalize(c.status)]
  }

  datatype FlakyResult = FlakyResult(number: int, tests: Tests, failed: bool)

  function FlakyOf(b: Build): FlakyResult {
    FlakyResult(b.number, if b.report.Cases? then Folded(b.report.cases) else map[], b.Fails())
  }

  method FetchOneFlakyResult(b: Build) returns (r: FlakyResult)
    ensures r == FlakyOf(b)
  {
    r := FlakyResult(b.number, map[], false);
    match b.report
    case NoReport => return;
    case RequestFailed => return r.(failed := true);
    case Unreadable => return r.(failed := true);
    case Cases(cases) =>
      var tests: Tests := map[];
      for i := 0 to |cases|
        invariant tests == Folded(cases[..i])
      {
        assert cases[..i + 1][..i] == cases[..i];
        var state := Normalize(cases[i].status);
        if state != Unknown {
          tests := tests[cases[i].FullName() := state];
        }
      }
      assert cases[..|cases|] == cases;
      return r.(tests := tests);
  }

  predicate OlderFirst(a: FlakyResult, b: FlakyResult) {
    a.number <= b.number
  }

  /** The states of one test over the results, in the given order. */
  function StatesOf(results: seq<FlakyResult>, name: string, includeSkipped: bool): seq<State> {
    if results == [] then []
    else
      var r := results[|results| - 1];
      var front := StatesOf(results[..|results| - 1], name, includeSkipped);
      if name in r.tests && Counts(r.tests[name], includeSkipped) then front + [r.tests[name]] else front
  }

  /** The newest build the test was observed in, or 0. */
  function LastSeen(results: seq<FlakyResult>, name: string, includeSkipped: bool): int {
    if results == [] then 0
    else
      var r := results[|results| - 1];
      var front := LastSeen(results[..|results| - 1], name, includeSkipped);
      if name in r.tests && Counts(r.tests[name], includeSkipped) && r.number > front then r.number else front
  }

  datatype Stats = Stats(name: string, flips: nat, passes: nat, failures: nat, lastSeen: int)

  function StatsOf(sorted: seq<FlakyResult>, name: string, includeSkipped: bool): Stats {
    var states := StatesOf(sorted, name, includeSkipped);
    Stats(name, Flips(states), Tally(states, Pass), Tally(states, Fail), LastSeen(sorted, name, includeSkipped))
  }

  datatype Sequence = Sequence(states: seq<State>, lastSeen: int)

  /** Exactly the tests observed in sorted, each with its states and newest build. */
  ghost predicate Gathered(perTest: map<string, Sequence>, sorted: seq<FlakyResult>, includeSkipped: bool) {
    forall name :: GatheredFor(perTest, sorted, includeSkipped, name)
  }

  ghost predicate GatheredFor(
      perTest: map<string, Sequence>, sorted: seq<FlakyResult>, includeSkipped: bool, name: string)
  {
    var states := StatesOf(sorted, name, includeSkipped);
    && (name in perTest <==> states != [])
    && (name in perTest ==> perTest[name] == Sequence(states, LastSeen(sorted, name, includeSkipped)))
  }

  lemma {:induction false} NeverSeen(sorted: seq<FlakyResult>, name: string, includeSkipped: bool)
    requires StatesOf(sorted, name, includeSkipped) == []
    ensures LastSeen(sorted, name, includeSkipped) == 0
  {
    if sorted == [] {
    } else {
      NeverSeen(sorted[..|sorted| - 1], name, includeSkipped);
    }
  }

  method Gather(sorted: seq<FlakyResult>, includeSkipped: bool) returns (perTest: map<string, Sequence>)
    ensures Gathered(perTest, sorted, includeSkipped)
  {
    perTest := map[];
    for i := 0 to |sorted|
      invariant Gathered(perTest, sorted[..i], includeSkipped)
    {
      assert sorted[..i + 1][..i] == sorted[..i];
      perTest := GatherOne(perTest, sorted[i], includeSkipped, sorted[..i]);
      assert sorted[..i] + [sorted[i]] == sorted[..i + 1];
    }
    assert sorted[..|sorted|] == sorted;
  }

  /** Appends one build's states; the order in which its tests come up does not matter. */
  method GatherOne(before: map<string, Sequence>, r: FlakyResult, includeSkipped: bool, ghost sorted: seq<FlakyResult>)
    returns (perTest: map<string, Sequence>)
    requires Gathered(before, sorted, includeSkipped)
    ensures Gathered(perTest, sorted + [r], includeSkipped)
  {
    assert (sorted + [r])[..|sorted|] == sorted;
    perTest := before;
    var pending := r.tests.Keys;
    while pending != {}
      invariant pending <= r.tests.Keys
      invariant forall name :: name in pending || name !in r.tests ==>
        GatheredFor(perTest, sorted, includeSkipped, name)
      invariant forall name :: name in r.tests && name !in pending ==>
        GatheredFor(perTest, sorted + [r], includeSkipped, name)
      decreases pending
    {
      var name :| name in pending;
      pending := pending - {name};
      var state := r.tests[name];
      if state == Skip && !includeSkipped {
        continue;
      }
      if name !in perTest {
        NeverSeen(sorted, name, includeSkipped);
      }
      var s := if name in perTest then perTest[name] else Sequence([], 0);
      perTest := perTest[name := Sequence(s.states + [state], if r.number > s.lastSeen then r.number else s.lastSeen)];
    }
    forall name ensures GatheredFor(perTest, sorted + [r], includeSkipped, name) {
      assert name !in r.tests ==> GatheredFor(perTest, sorted, includeSkipped, name);
    }
  }

  /** One row per observed test, in no particular order. */
  ghost predicate RowsFor(rows: seq<Stats>, sorted: seq<FlakyResult>, includeSkipped: bool) {
    && (forall i :: 0 <= i < |rows| ==>
          && rows[i] == StatsOf(sorted, rows[i].name, includeSkipped)
          && StatesOf(sorted, rows[i].name, includeSkipped) != [])
    && (forall i, j :: 0 <= i < j < |rows| ==> rows[i].name != rows[j].name)
    && (forall name :: StatesOf(sorted, name, includeSkipped) != [] ==> HasRow(rows, name))
  }

  ghost predicate HasRow(rows: seq<Stats>, name: string) {
    exists i :: 0 <= i < |rows| && rows[i].name == name
  }

  /** The rows are those of the results taken in build order. */
  ghost predicate Aggregates(rows: seq<Stats>, results: seq<FlakyResult>, includeSkipped: bool) {
    exists sorted :: InBuildOrder(sorted, results) && RowsFor(rows, sorted, includeSkipped)
  }

  ghost predicate InBuildOrder(sorted: seq<FlakyResult>, results: seq<FlakyResult>) {
    SortedBy(sorted, OlderFirst) && multiset(sorted) == multiset(results)
  }

  method CountStates(states: seq<State>) returns (passes: nat, failures: nat, flips: nat)
    ensures passes == Tally(states, Pass) && failures == Tally(states, Fail) && flips == Flips(states)
  {
    passes, failures, flips := 0, 0, 0;
    for i := 0 to |states|
      invariant passes == Tally(states[..i], Pass)
      invariant failures == Tally(states[..i], Fail)
      invariant flips == Flips(states[..i])
    {
      assert states[..i + 1][..i] == states[..i];
      match states[i] {
        case Pass => passes := passes + 1;
        case Fail => failures := failures + 1;
        case _ =>
      }
      if i > 0 && states[i] != states[i - 1] {
        flips := flips + 1;
      }
    }
    assert states[..|states|] == states;
  }

  function RowOf(name: string, q: Sequence): Stats {
    Stats(name, Flips(q.states), Tally(q.states, Pass), Tally(q.states, Fail), q.lastSeen)
  }

  /** One row for each of these names, in no particular order. */
  ghost predicate Counted(rows: seq<Stats>, perTest: map<string, Sequence>, names: set<string>) {
    && (forall i :: 0 <= i < |rows| ==>
          rows[i].name in names && rows[i].name in perTest && rows[i] == RowOf(rows[i].name, perTest[rows[i].name]))
    && (forall i, j :: 0 <= i < j < |rows| ==> rows[i].name != rows[j].name)
    && (forall name :: name in names ==> HasRow(rows, name))
  }

  lemma CountedOneMore(rows: seq<Stats>, perTest: map<string, Sequence>, names: set<string>, name: string)
    requires Counted(rows, perTest, names) && name !in names && name in perTest
    ensures Counted(rows + [RowOf(name, perTest[name])], perTest, names + {name})
  {
    var more := rows + [RowOf(name, perTest[name])];
    forall other | other in names + {name} ensures HasRow(more, other) {
      if other == name {
        assert more[|rows|].name == name;
      } else {
        assert HasRow(rows, other);
        var i :| 0 <= i < |rows| && rows[i].name == other;
        assert more[i].name == other;
      }
    }
  }

  lemma AllCounted(
      rows: seq<Stats>, perTest: map<string, Sequence>, sorted: seq<FlakyResult>, includeSkipped: bool)
    requires Gathered(perTest, sorted, includeSkipped) && Counted(rows, perTest, perTest.Keys)
    ensures RowsFor(rows, sorted, includeSkipped)
  {
    forall i | 0 <= i < |rows|
      ensures rows[i] == StatsOf(sorted, rows[i].name, includeSkipped)
      ensures StatesOf(sorted, rows[i].name, includeSkipped) != []
    {
      assert GatheredFor(perTest, sorted, includeSkipped, rows[i].name);
    }
    forall name | StatesOf(sorted, name, includeSkipped) != [] ensures HasRow(rows, name) {
      assert GatheredFor(perTest, sorted, includeSkipped, name);
    }
  }

  method CountAll(perTest: map<string, Sequence>) returns (rows: seq<Stats>)
    ensures Counted(rows, perTest, perTest.Keys)
  {
    rows := [];
    var done: set<string> := {};
    var pending := perTest.Keys;
    while pending != {}
      invariant done !! pending && done + pending == perTest.Keys
      invariant Counted(rows, perTest, done)
      decreases pending
    {
      var name :| name in pending;
      CountedOneMore(rows, perTest, done, name);
      pending, done := pending - {name}, done + {name};
      var passes, failures, flips := CountStates(perTest[name].states);
      rows := rows + [Stats(name, flips, passes, failures, perTest[name].lastSeen)];
    }
  }

  method AggregateFlaky(results: seq<FlakyResult>, includeSkipped: bool) returns (rows: seq<Stats>)
    ensures Aggregates(rows, results, includeSkipped)
  {
    var sorted := SortBy(results, OlderFirst);
    var perTest := Gather(sorted, includeSkipped);
    rows := CountAll(perTest);
    AllCounted(rows, perTest, sorted, includeSkipped);
    assert InBuildOrder(sorted, results);
  }

  // ---- flaky: selection and ranking ----

  predicate Ranks(a: Stats, b: Stats) {
    if a.flips != b.flips then a.flips > b.flips
    else if a.failures != b.failures then a.failures > b.failures
    else LexLe(a.name, b.name)
  }

  lemma RanksIsTotalPreorder()
    ensures TotalPreorder(Ranks)
  {
    forall a, b ensures Ranks(a, b) || Ranks(b, a) {
      LexTotal(a.name, b.name);
    }
    forall a, b, c | Ranks(a, b) && Ranks(b, c) ensures Ranks(a, c) {
      if a.flips == b.flips == c.flips && a.failures == b.failures == c.failures {
        LexTransitive(a.name, b.name, c.name);
      }
    }
  }

  function Enough(minFlips: int): Stats -> bool {
    (t: Stats) => t.flips >= minFlips
  }

  method SelectFlaky(agg: seq<Stats>, minFlips: int) returns (kept: seq<Stats>)
    ensures SortedBy(kept, Ranks)
    ensures multiset(kept) == multiset(Filter(agg, Enough(minFlips)))
  {
    kept := [];
    for i := 0 to |agg|
      invariant kept == Filter(agg[..i], Enough(minFlips))
    {
      assert agg[..i + 1][..i] == agg[..i];
      if agg[i].flips >= minFlips {
        kept := kept + [agg[i]];
      }
    }
    assert agg[..|agg|] == agg;
    RanksIsTotalPreorder();
    kept := SortBy(kept, Ranks);
  }

  lemma {:induction false} FilterMultiset<T>(xs: seq<T>, p: T -> bool, x: T)
    ensures multiset(Filter(xs, p))[x] == if p(x) then multiset(xs)[x] else 0
  {
    if xs == [] {
    } else {
      var n := |xs| - 1;
      FilterMultiset(xs[..n], p, x);
      assert xs == xs[..n] + [xs[n]];
    }
  }

  lemma SameCounts<T>(a: multiset<T>, b: multiset<T>)
    requires forall x :: a[x] == b[x]
    ensures a == b
  {
  }

  lemma FilterOfPermutation<T>(xs: seq<T>, ys: seq<T>, p: T -> bool)
    requires multiset(xs) == multiset(ys)
    ensures multiset(Filter(xs, p)) == multiset(Filter(ys, p))
    ensures |Filter(xs, p)| == |Filter(ys, p)|
  {
    var a, b := multiset(Filter(xs, p)), multiset(Filter(ys, p));
    forall x ensures a[x] == b[x] {
      FilterMultiset(xs, p, x);
      FilterMultiset(ys, p, x);
    }
    SameCounts(a, b);
    SameElements(Filter(xs, p), Filter(ys, p));
  }

  /** The ranking does not depend on the order in which the aggregation hands out
      its rows. */
  lemma {:induction false} RankingIsUnique(
      aggA: seq<Stats>, aggB: seq<Stats>, minFlips: int, keptA: seq<Stats>, keptB: seq<Stats>)
    requires multiset(aggA) == multiset(aggB)
    requires SortedBy(keptA, Ranks) && SortedBy(keptB, Ranks)
    requires multiset(keptA) == multiset(Filter(aggA, Enough(minFlips)))
    requires multiset(keptB) == multiset(Filter(aggB, Enough(minFlips)))
    requires forall i, j :: 0 <= i < j < |aggA| ==> aggA[i].name != aggA[j].name
    ensures keptA == keptB
  {
    var enough := Enough(minFlips);
    FilterOfPermutation(aggA, aggB, enough);
    SameElements(keptA, Filter(aggA, enough));
    FilterMembers(aggA, enough);
    forall i, j | 0 <= i < |keptA| && 0 <= j < |keptA| && Ranks(keptA[i], keptA[j]) && Ranks(keptA[j], keptA[i])
      ensures keptA[i] == keptA[j]
    {
      LexTotal(keptA[i].name, keptA[j].name);
      assert keptA[i] in aggA && keptA[j] in aggA;
      var k :| 0 <= k < |aggA| && aggA[k] == keptA[i];
      var l :| 0 <= l < |aggA| && aggA[l] == keptA[j];
    }
    assert AntisymmetricOn(keptA, Ranks);
    SortedUnique(keptA, keptB, Ranks);
  }

  // ---- history of one test ----

  datatype HistoryResult = HistoryResult(
    number: int, result: string, hasReport: bool, found: bool,
    status: State, duration: real, errorHead: string, failed: bool)

  predicate IsBlank(c: char) {
    c == ' ' || '\t' <= c <= '\r'
  }

  function TrimLeftBlanks(s: string): (r: string)
    ensures r == "" <==> forall c :: c in s ==> IsBlank(c)
    ensures r != "" ==> !IsBlank(r[0])
  {
    if s != "" && IsBlank(s[0]) then TrimLeftBlanks(s[1..]) else s
  }

  function TrimRightBlanks(s: string): (r: string)
    ensures r <= s
    ensures s != "" && !IsBlank(s[0]) ==> r != ""
  {
    if s != "" && IsBlank(s[|s| - 1]) then TrimRightBlanks(s[..|s| - 1]) else s
  }

  function UpToLineBreak(s: string): (r: string)
    ensures r <= s
    ensures forall c :: c in r ==> c != '\r' && c != '\n'
    ensures r == s || s[|r|] == '\r' || s[|r|] == '\n'
  {
    if s == "" || s[0] == '\r' || s[0] == '\n' then "" else [s[0]] + UpToLineBreak(s[1..])
  }

  /** The head shown for an error text: its first line that is not blank. */
  function FirstLine(s: string): (r: string)
    ensures forall c :: c in r ==> c != '\r' && c != '\n'
    ensures r == "" <==> forall c :: c in s ==> IsBlank(c)
  {
    UpToLineBreak(TrimRightBlanks(TrimLeftBlanks(s)))
  }

  /** The first case with that full name. */
  function FirstCase(cases: seq<Case>, name: string): Option<Case> {
    if cases == [] then None
    else if cases[0].FullName() == name then Some(cases[0])
    else FirstCase(cases[1..], name)
  }

  /** r is the line of s that starts at i, the first character that is not blank: up to
      a line break with more text behind it, or up to the last one that is not blank. */
  ghost predicate IsFirstLine(s: string, i: nat, r: string) {
    && i + |r| <= |s| && s[i..i + |r|] == r
    && (forall j :: 0 <= j < i ==> IsBlank(s[j]))
    && (r == "" ==> i == |s|)
    && (r != "" ==> !IsBlank(r[0]))
    && ((i + |r| < |s| && (s[i + |r|] == '\r' || s[i + |r|] == '\n'))
        || (AllBlank(s[i + |r|..]) && (r != "" ==> !IsBlank(r[|r| - 1]))))
  }

  ghost predicate AllBlank(s: string) {
    forall j :: 0 <= j < |s| ==> IsBlank(s[j])
  }

  lemma {:induction false} LeftTrimmedAt(s: string) returns (i: nat)
    ensures i <= |s| && TrimLeftBlanks(s) == s[i..] && forall j :: 0 <= j < i ==> IsBlank(s[j])
  {
    if s == "" || !IsBlank(s[0]) {
      i := 0;
    } else {
      var k := LeftTrimmedAt(s[1..]);
      i := k + 1;
      assert s[1..][k..] == s[i..];
      assert forall j :: 0 < j < i ==> s[j] == s[1..][j - 1];
    }
  }

  lemma {:induction false} RightTrimmedRest(s: string)
    ensures var t := TrimRightBlanks(s);
      && t <= s && AllBlank(s[|t|..]) && (t != "" ==> !IsBlank(t[|t| - 1]))
  {
    if s == "" || !IsBlank(s[|s| - 1]) {
    } else {
      var front := s[..|s| - 1];
      RightTrimmedRest(front);
      var k := |TrimRightBlanks(front)|;
      assert forall j :: 0 <= j < |s| - k ==> s[k..][j] == if j < |front| - k then front[k..][j] else s[|s| - 1];
    }
  }

  /** t is s without the blanks at its end, and s starts with a character that is not
      blank. */
  ghost predicate TrimmedEnd(s: string, t: string) {
    && t <= s && AllBlank(s[|t|..]) && (s == "" || (t != "" && !IsBlank(t[0]) && !IsBlank(t[|t| - 1])))
  }

  lemma FirstLineOfTrimmed(s: string, t: string)
    requires TrimmedEnd(s, t)
    ensures IsFirstLine(s, 0, UpToLineBreak(t))
  {
    var r := UpToLineBreak(t);
    assert r <= t <= s;
    assert s[0..|r|] == r;
    if r == t {
      assert r == "" ==> s == "";
    } else {
      assert s[|r|] == t[|r|];
      assert r != "";
    }
  }

  /** The head of an error text is a piece of it: its first line that is not blank. */
  lemma FirstLineIsExact(s: string) returns (i: nat)
    ensures IsFirstLine(s, i, FirstLine(s))
  {
    i := LeftTrimmedAt(s);
    var rest := TrimLeftBlanks(s);
    var t := TrimRightBlanks(rest);
    RightTrimmedRest(rest);
    FirstLineOfTrimmed(rest, t);
    ShiftFirstLine(s, i, FirstLine(s));
  }

  lemma ShiftFirstLine(s: string, i: nat, r: string)
    requires i <= |s| && (forall j :: 0 <= j < i ==> IsBlank(s[j])) && IsFirstLine(s[i..], 0, r)
    ensures IsFirstLine(s, i, r)
  {
    assert s[i..][|r|..] == s[i + |r|..];
    assert s[i..][0..|r|] == s[i..i + |r|];
  }

  function HistoryOf(b: Build, name: string): HistoryResult {
    var first := if b.report.Cases? then FirstCase(b.report.cases, name) else None;
    var blank := HistoryResult(
      b.number, b.result, b.report.Cases? || b.report.Unreadable?, false, Unknown, 0.0, "", b.Fails());
    if first.None? then blank else Found(blank, first.value)
  }

  function Found(r: HistoryResult, c: Case): HistoryResult {
    r.(found := true, status := Normalize(c.status), duration := c.duration,
       errorHead := if c.errorDetails.Some? then FirstLine(c.errorDetails.value) else "")
  }

  method FetchOneTestHistory(b: Build, normalized: string) returns (r: HistoryResult)
    ensures r == HistoryOf(b, normalized)
  {
    r := HistoryResult(b.number, b.result, false, false, Unknown, 0.0, "", false);
    match b.report
    case NoReport => return;
    case RequestFailed => return r.(failed := true);
    case Unreadable => return r.(hasReport := true, failed := true);
    case Cases(cases) =>
      r := r.(hasReport := true);
      ghost var blank := r;
      assert cases[0..] == cases;
      for i := 0 to |cases|
        invariant r == blank
        invariant FirstCase(cases, normalized) == FirstCase(cases[i..], normalized)
      {
        assert cases[i..][1..] == cases[i + 1..];
        var c := cases[i];
        if c.FullName() != normalized {
          continue;
        }
        r := r.(found := true, status := Normalize(c.status), duration := c.duration);
        if c.errorDetails.Some? {
          r := r.(errorHead := FirstLine(c.errorDetails.value));
        }
        return;
      }
  }

  predicate Newer(a: HistoryResult, b: HistoryResult) {
    a.number >= b.number
  }

  predicate Older(a: HistoryResult, b: HistoryResult) {
    a.number <= b.number
  }

  function HistoryStates(chrono: seq<HistoryResult>, includeSkipped: bool): seq<State> {
    if chrono == [] then []
    else
      var r := chrono[|chrono| - 1];
      var front := HistoryStates(chrono[..|chrono| - 1], includeSkipped);
      if r.found && Counts(r.status, includeSkipped) then front + [r.status] else front
  }

  predicate IsPass(r: HistoryResult) { r.status == Pass }
  predicate IsFail(r: HistoryResult) { r.status == Fail }
  predicate IsSkip(r: HistoryResult) { r.status == Skip }

  datatype Summary = Summary(passes: nat, fails: nat, skips: nat, flips: nat)

  ghost predicate Chronological(chrono: seq<HistoryResult>, results: seq<HistoryResult>) {
    SortedBy(chrono, Older) && multiset(chrono) == multiset(results)
  }

  /** The summary line for a set of results: tallies in any order, flips in build order. */
  ghost predicate Summarizes(s: Summary, results: seq<HistoryResult>, includeSkipped: bool) {
    && s.passes == |Filter(results, IsPass)|
    && s.fails == |Filter(results, IsFail)|
    && s.skips == (if includeSkipped then |Filter(results, IsSkip)| else 0)
    && exists chrono :: Chronological(chrono, results) && s.flips == Flips(HistoryStates(chrono, includeSkipped))
  }

  function Visible(includeSkipped: bool): HistoryResult -> bool {
    (r: HistoryResult) => Counts(r.status, includeSkipped)
  }

  /** timeline is what is printed, newest build first. */
  method RenderTestHistory(results: seq<HistoryResult>, includeSkipped: bool)
    returns (s: Summary, timeline: seq<HistoryResult>)
    ensures Summarizes(s, results, includeSkipped)
    ensures SortedBy(timeline, Newer)
    ensures multiset(timeline) == multiset(Filter(results, Visible(includeSkipped)))
  {
    var sorted := SortBy(results, Newer);
    var passes, fails, skips;
    passes, fails, skips, timeline := TallyResults(sorted, includeSkipped);
    FilterOfPermutation(sorted, results, IsPass);
    FilterOfPermutation(sorted, results, IsFail);
    FilterOfPermutation(sorted, results, IsSkip);
    FilterOfPermutation(sorted, results, Visible(includeSkipped));
    var chrono := SortBy(sorted, Older);
    assert Chronological(chrono, results);
    var ordered := StatesInOrder(chrono, includeSkipped);
    var flips := CountFlips(ordered);
    s := Summary(passes, fails, skips, flips);
  }

  method StatesInOrder(chrono: seq<HistoryResult>, includeSkipped: bool) returns (ordered: seq<State>)
    ensures ordered == HistoryStates(chrono, includeSkipped)
  {
    ordered := [];
    for i := 0 to |chrono|
      invariant ordered == HistoryStates(chrono[..i], includeSkipped)
    {
      assert chrono[..i + 1][..i] == chrono[..i];
      if !chrono[i].found {
        continue;
      }
      if chrono[i].status == Skip && !includeSkipped {
        continue;
      }
      ordered := ordered + [chrono[i].status];
    }
    assert chrono[..|chrono|] == chrono;
  }

  method CountFlips(ordered: seq<State>) returns (flips: nat)
    ensures flips == Flips(ordered)
  {
    flips := 0;
    var i := 1;
    while i < |ordered|
      invariant 1 <= i && (i <= |ordered| || |ordered| < 1)
      invariant flips == Flips(Take(ordered, i))
    {
      assert ordered[..i + 1][..i] == ordered[..i];
      if ordered[i] != ordered[i - 1] {
        flips := flips + 1;
      }
      i := i + 1;
    }
  }

  method TallyResults(sorted: seq<HistoryResult>, includeSkipped: bool)
    returns (passes: nat, fails: nat, skips: nat, shown: seq<HistoryResult>)
    requires SortedBy(sorted, Newer)
    ensures passes == |Filter(sorted, IsPass)| && fails == |Filter(sorted, IsFail)|
    ensures skips == if includeSkipped then |Filter(sorted, IsSkip)| else 0
    ensures shown == Filter(sorted, Visible(includeSkipped)) && SortedBy(shown, Newer)
  {
    passes, fails, skips, shown := 0, 0, 0, [];
    for i := 0 to |sorted|
      invariant passes == |Filter(sorted[..i], IsPass)| && fails == |Filter(sorted[..i], IsFail)|
      invariant skips == if includeSkipped then |Filter(sorted[..i], IsSkip)| else 0
      invariant shown == Filter(sorted[..i], Visible(includeSkipped)) && SortedBy(shown, Newer)
      invariant forall k, j :: 0 <= k < |shown| && i <= j < |sorted| ==> Newer(shown[k], sorted[j])
    {
      var r := sorted[i];
      assert sorted[..i + 1][..i] == sorted[..i];
      if !includeSkipped && r.status == Skip {
        continue;
      }
      shown := shown + [r];
      match r.status {
        case Pass => passes := passes + 1;
        case Fail => fails := fails + 1;
        case Skip => skips := skips + 1;
        case _ =>
      }
    }
    assert sorted[..|sorted|] == sorted;
  }

  // ---- the two counters agree ----

  /** The last known state among the cases with that full name. */
  function LastKnown(cases: seq<Case>, name: string): Option<State> {
    if cases == [] then None
    else
      var c := cases[|cases| - 1];
      var state := Normalize(c.status);
      if c.FullName() == name && state != Unknown then Some(state) else LastKnown(cases[..|cases| - 1], name)
  }

  lemma {:induction false} FoldHoldsLastKnown(cases: seq<Case>, name: string)
    ensures name in Folded(cases) <==> LastKnown(cases, name).Some?
    ensures name in Folded(cases) ==> LastKnown(cases, name) == Some(Folded(cases)[name])
  {
    if cases == [] {
    } else {
      FoldHoldsLastKnown(cases[..|cases| - 1], name);
    }
  }

  lemma {:induction false} NoCaseAtAll(cases: seq<Case>, name: string)
    ensures FirstCase(cases, name).None? <==> forall i :: 0 <= i < |cases| ==> cases[i].FullName() != name
  {
    if cases == [] {
    } else {
      var rest := cases[1..];
      NoCaseAtAll(rest, name);
      assert forall i :: 0 < i < |cases| ==> cases[i] == rest[i - 1];
      assert forall i :: 0 <= i < |rest| ==> rest[i] == cases[i + 1];
    }
  }

  lemma {:induction false} NoCaseNoState(cases: seq<Case>, name: string)
    requires forall i :: 0 <= i < |cases| ==> cases[i].FullName() != name
    ensures LastKnown(cases, name).None?
  {
    if cases == [] {
    } else {
      NoCaseNoState(cases[..|cases| - 1], name);
    }
  }

  /** The report has no case of the test, or the state of its first case is known and
      is the last known state. */
  predicate SeenAlike(b: Build, name: string) {
    b.report.Cases? ==>
      var first := FirstCase(b.report.cases, name);
      first.Some? ==>
        var state := Normalize(first.value.status);
        state != Unknown && LastKnown(b.report.cases, name) == Some(state)
  }

  /** Both tools saw the same thing of the test in one build. */
  ghost predicate Paired(f: FlakyResult, h: HistoryResult, name: string) {
    && f.number == h.number
    && (name in f.tests <==> h.found)
    && (h.found ==> h.status == f.tests[name] && h.status != Unknown)
    && (!h.found ==> h.status == Unknown)
  }

  /** The two tools agree on one build exactly under that condition. */
  lemma PairedExactly(b: Build, name: string)
    ensures Paired(FlakyOf(b), HistoryOf(b, name), name) <==> SeenAlike(b, name)
  {
    if b.report.Cases? {
      FoldHoldsLastKnown(b.report.cases, name);
      NoCaseAtAll(b.report.cases, name);
      if FirstCase(b.report.cases, name).None? {
        NoCaseNoState(b.report.cases, name);
      }
    }
  }

  lemma {:induction false} PairedStates(
      fs: seq<FlakyResult>, hs: seq<HistoryResult>, name: string, includeSkipped: bool)
    requires |fs| == |hs| && forall i :: 0 <= i < |fs| ==> Paired(fs[i], hs[i], name)
    ensures StatesOf(fs, name, includeSkipped) == HistoryStates(hs, includeSkipped)
    ensures Tally(HistoryStates(hs, includeSkipped), Pass) == |Filter(hs, IsPass)|
    ensures Tally(HistoryStates(hs, includeSkipped), Fail) == |Filter(hs, IsFail)|
  {
    if fs == [] {
    } else {
      var n := |fs| - 1;
      PairedStates(fs[..n], hs[..n], name, includeSkipped);
      var front, r := HistoryStates(hs[..n], includeSkipped), hs[n];
      assert (front + [r.status])[..|front|] == front;
    }
  }

  ghost predicate DistinctNumbers(builds: seq<Build>) {
    forall i, j :: 0 <= i < j < |builds| ==> builds[i].number != builds[j].number
  }

  function FlakyResults(builds: seq<Build>): seq<FlakyResult> {
    Map(builds, FlakyOf)
  }

  function HistoryResults(builds: seq<Build>, name: string): seq<HistoryResult> {
    Map(builds, (b: Build) => HistoryOf(b, name))
  }

  predicate OlderBuild(a: Build, b: Build) {
    a.number <= b.number
  }

  lemma NumbersTellApart(builds: seq<Build>, order: seq<Build>)
    requires DistinctNumbers(builds) && multiset(order) == multiset(builds)
    ensures forall i, j :: 0 <= i < |order| && 0 <= j < |order| && order[i].number == order[j].number ==>
      order[i] == order[j]
  {
    SameElements(builds, order);
    forall i, j | 0 <= i < |order| && 0 <= j < |order| && order[i].number == order[j].number
      ensures order[i] == order[j]
    {
      assert order[i] in builds && order[j] in builds;
    }
  }

  /** Sorted flaky results are the flaky results of the builds in sorted order. */
  lemma FlakyInOrder(builds: seq<Build>, order: seq<Build>, sorted: seq<FlakyResult>)
    requires SortedBy(order, OlderBuild) && multiset(order) == multiset(builds) && DistinctNumbers(order)
    requires InBuildOrder(sorted, FlakyResults(builds))
    ensures sorted == FlakyResults(order)
  {
    var results := FlakyResults(order);
    MapOfPermutation(order, builds, FlakyOf);
    forall i, j | 0 <= i < j < |order|
      ensures OlderFirst(results[i], results[j]) && results[i].number != results[j].number
    {
      assert OlderBuild(order[i], order[j]);
    }
    SortedUnique(results, sorted, OlderFirst);
  }

  lemma HistoryInOrder(builds: seq<Build>, order: seq<Build>, name: string, chrono: seq<HistoryResult>)
    requires SortedBy(order, OlderBuild) && multiset(order) == multiset(builds) && DistinctNumbers(order)
    requires Chronological(chrono, HistoryResults(builds, name))
    ensures chrono == HistoryResults(order, name)
  {
    var results := HistoryResults(order, name);
    MapOfPermutation(order, builds, (b: Build) => HistoryOf(b, name));
    forall i, j | 0 <= i < j < |order| ensures Older(results[i], results[j]) && results[i].number != results[j].number {
      assert OlderBuild(order[i], order[j]);
    }
    SortedUnique(results, chrono, Older);
  }

  lemma DistinctInOrder(builds: seq<Build>, order: seq<Build>)
    requires DistinctNumbers(builds) && multiset(order) == multiset(builds)
    ensures DistinctNumbers(order)
  {
    NumbersTellApart(builds, order);
    DistinctOfMultiset(builds, order);
  }

  /** In whatever order the results of the two fan-outs arrive, sorting them pairs
      up what the two tools saw of the test, build by build. */
  lemma SortedResultsPair(
      forFlaky: seq<Build>, forHistory: seq<Build>, name: string,
      sorted: seq<FlakyResult>, chrono: seq<HistoryResult>)
    requires DistinctNumbers(forFlaky) && multiset(forFlaky) == multiset(forHistory)
    requires forall i :: 0 <= i < |forFlaky| ==> SeenAlike(forFlaky[i], name)
    requires InBuildOrder(sorted, FlakyResults(forFlaky))
    requires Chronological(chrono, HistoryResults(forHistory, name))
    ensures |sorted| == |chrono| && forall i :: 0 <= i < |sorted| ==> Paired(sorted[i], chrono[i], name)
  {
    var order := SortedArrangement(forFlaky, OlderBuild);
    DistinctInOrder(forFlaky, order);
    FlakyInOrder(forFlaky, order, sorted);
    HistoryInOrder(forHistory, order, name, chrono);
    SameElements(forFlaky, order);
    forall i | 0 <= i < |order| ensures Paired(sorted[i], chrono[i], name) {
      assert order[i] in forFlaky;
      PairedExactly(order[i], name);
    }
  }

  /** The two tools agree: over the same builds, for a test that each report shows
      both of them alike, the flaky row and the history summary give equal
      passes, failures and flips, and a test without a row has none of either. */
  lemma {:induction false} CountersAgree(
      forFlaky: seq<Build>, forHistory: seq<Build>, name: string, includeSkipped: bool,
      rows: seq<Stats>, s: Summary)
    requires DistinctNumbers(forFlaky) && multiset(forFlaky) == multiset(forHistory)
    requires forall i :: 0 <= i < |forFlaky| ==> SeenAlike(forFlaky[i], name)
    requires Aggregates(rows, FlakyResults(forFlaky), includeSkipped)
    requires Summarizes(s, HistoryResults(forHistory, name), includeSkipped)
    ensures forall i :: 0 <= i < |rows| && rows[i].name == name ==>
      rows[i].passes == s.passes && rows[i].failures == s.fails && rows[i].flips == s.flips
    ensures !HasRow(rows, name) ==> s.passes == s.fails == s.flips == 0
  {
    var results := HistoryResults(forHistory, name);
    var sorted :| InBuildOrder(sorted, FlakyResults(forFlaky)) && RowsFor(rows, sorted, includeSkipped);
    var chrono :| Chronological(chrono, results) && s.flips == Flips(HistoryStates(chrono, includeSkipped));
    SortedResultsPair(forFlaky, forHistory, name, sorted, chrono);
    PairedStates(sorted, chrono, name, includeSkipped);
    FilterOfPermutation(chrono, results, IsPass);
    FilterOfPermutation(chrono, results, IsFail);
    var states := StatesOf(sorted, name, includeSkipped);
    assert s.passes == Tally(states, Pass) && s.fails == Tally(states, Fail) && s.flips == Flips(states);
    if !HasRow(rows, name) {
      assert states == [];
    }
  }

  // ---- the name the history looks up ----

  /** strings.ReplaceAll(name, "/", ".") */
  function DotSlashes(name: string): (r: string)
    ensures |r| == |name|
    ensures forall i :: 0 <= i < |name| ==> r[i] == if name[i] == '/' then '.' else name[i]
  {
    if name == "" then ""
    else [if name[0] == '/' then '.' else name[0]] + DotSlashes(name[1..])
  }

  /** A test name is looked up as it is exactly when it holds no slash. */
  lemma {:induction false} SlashFreeNameIsKept(name: string)
    ensures DotSlashes(name) == name <==> '/' !in name
  {
    if name == "" {
    } else {
      SlashFreeNameIsKept(name[1..]);
      assert name == [name[0]] + name[1..];
    }
  }

  /** The agreement needs its hypothesis: when an older report lists a test twice, passed
      and then failed, and a newer one lists it as passed, the flaky row counts a failure
      and a flip that the history does not see. */
  lemma DuplicatesSplitTheTools(c: Case, result: string, rows: seq<Stats>, s: Summary, includeSkipped: bool)
    requires c.status == "PASSED"
    requires Aggregates(rows, FlakyResults(TwiceThenOnce(c, result)), includeSkipped)
    requires Summarizes(s, HistoryResults(TwiceThenOnce(c, result), c.FullName()), includeSkipped)
    ensures !SeenAlike(TwiceThenOnce(c, result)[0], c.FullName())
    ensures HasRow(rows, c.FullName())
    ensures forall i :: 0 <= i < |rows| && rows[i].name == c.FullName() ==>
      rows[i].passes == 1 && rows[i].failures == 1 && rows[i].flips == 1
    ensures s.passes == 2 && s.fails == 0 && s.flips == 0
  {
    SplitFolds(c, result);
    SplitRow(c, result, rows, includeSkipped);
    SplitSummary(c, result, s, includeSkipped);
  }

  lemma SplitRow(c: Case, result: string, rows: seq<Stats>, includeSkipped: bool)
    requires c.status == "PASSED"
    requires Aggregates(rows, FlakyResults(TwiceThenOnce(c, result)), includeSkipped)
    ensures HasRow(rows, c.FullName())
    ensures forall i :: 0 <= i < |rows| && rows[i].name == c.FullName() ==>
      rows[i].passes == 1 && rows[i].failures == 1 && rows[i].flips == 1
  {
    var builds := TwiceThenOnce(c, result);
    var sorted :| InBuildOrder(sorted, FlakyResults(builds)) && RowsFor(rows, sorted, includeSkipped);
    FlakyInOrder(builds, builds, sorted);
    assert sorted == [FlakyOf(builds[0]), FlakyOf(builds[1])];
    SplitFolds(c, result);
    SplitStates(sorted[0], sorted[1], c.FullName(), includeSkipped);
  }

  lemma SplitSummary(c: Case, result: string, s: Summary, includeSkipped: bool)
    requires c.status == "PASSED"
    requires Summarizes(s, HistoryResults(TwiceThenOnce(c, result), c.FullName()), includeSkipped)
    ensures s.passes == 2 && s.fails == 0 && s.flips == 0
  {
    var builds, name := TwiceThenOnce(c, result), c.FullName();
    var hs := HistoryResults(builds, name);
    var chrono :| Chronological(chrono, hs) && s.flips == Flips(HistoryStates(chrono, includeSkipped));
    HistoryInOrder(builds, builds, name, chrono);
    assert hs == [HistoryOf(builds[0], name), HistoryOf(builds[1], name)];
    SplitFolds(c, result);
    SplitHistory(hs[0], hs[1], includeSkipped);
  }

  function TwiceThenOnce(c: Case, result: string): seq<Build> {
    [Build(1, result, Cases([c, c.(status := "FAILED")])), Build(2, result, Cases([c]))]
  }

  lemma SplitFolds(c: Case, result: string)
    requires c.status == "PASSED"
    ensures var name, builds := c.FullName(), TwiceThenOnce(c, result);
      && !SeenAlike(builds[0], name)
      && FlakyOf(builds[0]).tests == map[name := Fail] && FlakyOf(builds[1]).tests == map[name := Pass]
      && HistoryOf(builds[0], name).found && HistoryOf(builds[0], name).status == Pass
      && HistoryOf(builds[1], name).found && HistoryOf(builds[1], name).status == Pass
  {
    var d := c.(status := "FAILED");
    assert [c, d][..1] == [c] && [c][..0] == [];
    assert Folded([c]) == map[c.FullName() := Pass];
    assert Folded([c, d]) == map[c.FullName() := Fail];
    FoldHoldsLastKnown([c, d], c.FullName());
  }

  lemma TwoStates(a: State, b: State)
    ensures Flips([a, b]) == if a == b then 0 else 1
    ensures Tally([a, b], a) == (if a == b then 2 else 1) && Tally([a, b], b) == (if a == b then 2 else 1)
  {
    assert [a, b][..1] == [a] && [a][..0] == [];
    assert forall s :: Tally([a], s) == if a == s then 1 else 0;
  }

  lemma SplitStates(older: FlakyResult, newer: FlakyResult, name: string, includeSkipped: bool)
    requires older.tests == map[name := Fail] && newer.tests == map[name := Pass]
    ensures var states := StatesOf([older, newer], name, includeSkipped);
      states == [Fail, Pass] && Flips(states) == 1 && Tally(states, Pass) == 1 && Tally(states, Fail) == 1
  {
    assert [older, newer][..1] == [older] && [older][..0] == [];
    assert StatesOf([older], name, includeSkipped) == [Fail];
    TwoStates(Fail, Pass);
  }

  lemma SplitHistory(older: HistoryResult, newer: HistoryResult, includeSkipped: bool)
    requires older.found && newer.found && older.status == newer.status == Pass
    ensures Flips(HistoryStates([older, newer], includeSkipped)) == 0
    ensures |Filter([older, newer], IsPass)| == 2 && |Filter([older, newer], IsFail)| == 0
  {
    assert [older, newer][..1] == [older] && [older][..0] == [];
    assert HistoryStates([older], includeSkipped) == [Pass];
    TwoStates(Pass, Pass);
    assert Filter([older], IsPass) == [older] && Filter([older], IsFail) == [];
  }

  // ---- the flaky rows under the two include_skipped settings ----

  lemma {:induction false} FoldedIsKnown(cases: seq<Case>)
    ensures forall name :: name in Folded(cases) ==> Folded(cases)[name] != Unknown
  {
    if cases == [] {
    } else {
      FoldedIsKnown(cases[..|cases| - 1]);
    }
  }

  ghost predicate KnownOnly(results: seq<FlakyResult>) {
    forall i, name :: 0 <= i < |results| && name in results[i].tests ==> results[i].tests[name] != Unknown
  }

  lemma ReportsAreKnown(builds: seq<Build>, sorted: seq<FlakyResult>)
    requires InBuildOrder(sorted, FlakyResults(builds))
    ensures KnownOnly(sorted)
  {
    var results := FlakyResults(builds);
    SameElements(sorted, results);
    forall i | 0 <= i < |sorted|
      ensures forall name :: name in sorted[i].tests ==> sorted[i].tests[name] != Unknown
    {
      assert sorted[i] in results;
      var j :| 0 <= j < |results| && results[j] == sorted[i];
      if builds[j].report.Cases? {
        FoldedIsKnown(builds[j].report.cases);
      }
    }
  }

  /** Ignoring SKIPPED drops exactly those states from a test's sequence, and what is
      left is passed or failed. */
  lemma {:induction false} StatesWithoutSkips(results: seq<FlakyResult>, name: string)
    requires KnownOnly(results)
    ensures StatesOf(results, name, false) == Filter(StatesOf(results, name, true), NotSkip)
    ensures PassFailOnly(StatesOf(results, name, false))
  {
    if results == [] {
    } else {
      var n := |results| - 1;
      StatesWithoutSkips(results[..n], name);
      var front, tests := StatesOf(results[..n], name, true), results[n].tests;
      if name in tests {
        assert (front + [tests[name]])[..|front|] == front;
      }
    }
  }

  lemma {:induction false} TallyWithoutSkips(states: seq<State>, s: State)
    requires s != Skip
    ensures Tally(Filter(states, NotSkip), s) == Tally(states, s)
  {
    if states == [] {
    } else {
      var n := |states| - 1;
      TallyWithoutSkips(states[..n], s);
      var front := Filter(states[..n], NotSkip);
      assert (front + [states[n]])[..|front|] == front;
    }
  }

  lemma SameOrder(forA: seq<Build>, forB: seq<Build>, a: seq<FlakyResult>, b: seq<FlakyResult>)
    requires DistinctNumbers(forA) && multiset(forA) == multiset(forB)
    requires InBuildOrder(a, FlakyResults(forA)) && InBuildOrder(b, FlakyResults(forB))
    ensures a == b
  {
    var order := SortedArrangement(forA, OlderBuild);
    DistinctInOrder(forA, order);
    FlakyInOrder(forA, order, a);
    FlakyInOrder(forB, order, b);
  }

  /** Over the same builds, a test has no more flips with SKIPPED ignored than with it
      included, and the same passes and failures. */
  lemma IgnoringSkipsAddsNoFlips(
      forOff: seq<Build>, forOn: seq<Build>, off: seq<Stats>, on: seq<Stats>, i: nat, j: nat)
    requires DistinctNumbers(forOff) && multiset(forOff) == multiset(forOn)
    requires Aggregates(off, FlakyResults(forOff), false) && Aggregates(on, FlakyResults(forOn), true)
    requires i < |off| && j < |on| && off[i].name == on[j].name
    ensures off[i].flips <= on[j].flips
    ensures off[i].passes == on[j].passes && off[i].failures == on[j].failures
  {
    var a :| InBuildOrder(a, FlakyResults(forOff)) && RowsFor(off, a, false);
    var b :| InBuildOrder(b, FlakyResults(forOn)) && RowsFor(on, b, true);
    SameOrder(forOff, forOn, a, b);
    ReportsAreKnown(forOff, a);
    var states := StatesOf(a, off[i].name, true);
    StatesWithoutSkips(a, off[i].name);
    SkippingNeverAddsFlips(states);
    TallyWithoutSkips(states, Pass);
    TallyWithoutSkips(states, Fail);
  }

  /** A test with a row when SKIPPED is ignored also has one when it is included. */
  lemma IgnoringSkipsAddsNoRows(
      forOff: seq<Build>, forOn: seq<Build>, off: seq<Stats>, on: seq<Stats>, name: string)
    requires DistinctNumbers(forOff) && multiset(forOff) == multiset(forOn)
    requires Aggregates(off, FlakyResults(forOff), false) && Aggregates(on, FlakyResults(forOn), true)
    ensures HasRow(off, name) ==> HasRow(on, name)
  {
    var a :| InBuildOrder(a, FlakyResults(forOff)) && RowsFor(off, a, false);
    var b :| InBuildOrder(b, FlakyResults(forOn)) && RowsFor(on, b, true);
    SameOrder(forOff, forOn, a, b);
    ReportsAreKnown(forOff, a);
    StatesWithoutSkips(a, name);
    if HasRow(off, name) {
      assert StatesOf(a, name, true) != [];
    }
  }

  /** With SKIPPED ignored, the flips of every row are bounded by its tallies. */
  lemma RowsAreBounded(builds: seq<Build>, rows: seq<Stats>, i: nat)
    requires Aggregates(rows, FlakyResults(builds), false) && i < |rows|
    ensures rows[i].flips <= rows[i].passes + rows[i].failures - 1
    ensures rows[i].flips <= 2 * rows[i].passes && rows[i].flips <= 2 * rows[i].failures
  {
    var sorted :| InBuildOrder(sorted, FlakyResults(builds)) && RowsFor(rows, sorted, false);
    ReportsAreKnown(builds, sorted);
    StatesWithoutSkips(sorted, rows[i].name);
    FlipBounds(StatesOf(sorted, rows[i].name, false));
  }

  lemma RowsAreDetermined(sorted: seq<FlakyResult>, includeSkipped: bool, a: seq<Stats>, b: seq<Stats>)
    requires RowsFor(a, sorted, includeSkipped) && RowsFor(b, sorted, includeSkipped)
    ensures multiset(a) == multiset(b)
  {
    RowsAreAmong(sorted, includeSkipped, a, b);
    RowsAreAmong(sorted, includeSkipped, b, a);
    DistinctSameSetSameMultiset(a, b);
  }

  lemma RowsAreAmong(sorted: seq<FlakyResult>, includeSkipped: bool, a: seq<Stats>, b: seq<Stats>)
    requires RowsFor(a, sorted, includeSkipped) && RowsFor(b, sorted, includeSkipped)
    ensures Distinct(a) && forall t :: t in a ==> t in b
  {
    forall t | t in a ensures t in b {
      var i :| 0 <= i < |a| && a[i] == t;
      assert HasRow(b, t.name);
      var j :| 0 <= j < |b| && b[j].name == t.name;
      assert b[j] == t;
    }
  }

  // ---- the two tools, request by request ----

  const DEFAULT_MIN_FLIPS := 2

  /** The first build whose report request fails. */
  ghost predicate FirstFailure(builds: seq<Build>, number: int) {
    exists i :: 0 <= i < |builds| && FailsFirst(builds, i) && builds[i].number == number
  }

  ghost predicate FailsFirst(builds: seq<Build>, i: nat)
    requires i < |builds|
  {
    && (builds[i].report.RequestFailed? || builds[i].report.Unreadable?)
    && forall j :: 0 <= j < i ==> builds[j].report.NoReport? || builds[j].report.Cases?
  }

  ghost predicate NoFailure(builds: seq<Build>) {
    forall i :: 0 <= i < |builds| ==> builds[i].report.NoReport? || builds[i].report.Cases?
  }

  datatype FlakyAnswer = TooFewBuilds(found: nat) | FlakyError(number: int) | Ranked(kept: seq<Stats>)

  /** kept ranks the rows with enough flips of what the builds' reports aggregate to. */
  ghost predicate IsRanking(kept: seq<Stats>, builds: seq<Build>, minFlips: int, includeSkipped: bool) {
    exists rows: seq<Stats> ::
      Aggregates(rows, FlakyResults(builds), includeSkipped) && RanksRows(kept, rows, minFlips)
  }

  ghost predicate RanksRows(kept: seq<Stats>, rows: seq<Stats>, minFlips: int) {
    SortedBy(kept, Ranks) && multiset(kept) == multiset(Filter(rows, Enough(minFlips)))
  }

  /** The whole answer is determined: two rankings over the same builds are equal,
      whatever order results arrive in and maps are walked in. */
  lemma RankingIsDetermined(
      forA: seq<Build>, forB: seq<Build>, minFlips: int, includeSkipped: bool, a: seq<Stats>, b: seq<Stats>)
    requires DistinctNumbers(forA) && multiset(forA) == multiset(forB)
    requires IsRanking(a, forA, minFlips, includeSkipped) && IsRanking(b, forB, minFlips, includeSkipped)
    ensures a == b
  {
    var rowsA: seq<Stats> :|
      Aggregates(rowsA, FlakyResults(forA), includeSkipped) && RanksRows(a, rowsA, minFlips);
    var rowsB: seq<Stats> :|
      Aggregates(rowsB, FlakyResults(forB), includeSkipped) && RanksRows(b, rowsB, minFlips);
    var x :| InBuildOrder(x, FlakyResults(forA)) && RowsFor(rowsA, x, includeSkipped);
    var y :| InBuildOrder(y, FlakyResults(forB)) && RowsFor(rowsB, y, includeSkipped);
    SameOrder(forA, forB, x, y);
    RowsAreDetermined(x, includeSkipped, rowsA, rowsB);
    RankingIsUnique(rowsA, rowsB, minFlips, a, b);
  }

  /** One failed report request aborts the whole answer; a missing report does not. */
  method GetFlakyCandidates(builds: seq<Build>, minFlipsIn: int, includeSkipped: bool) returns (r: FlakyAnswer)
    ensures |builds| < 2 ==> r == TooFewBuilds(|builds|)
    ensures |builds| >= 2 && !NoFailure(builds) ==> r.FlakyError? && FirstFailure(builds, r.number)
    ensures |builds| >= 2 && NoFailure(builds) ==>
      r.Ranked? && IsRanking(r.kept, builds, if minFlipsIn <= 0 then 2 else minFlipsIn, includeSkipped)
  {
    var minFlips := minFlipsIn;
    if minFlips <= 0 {
      minFlips := DEFAULT_MIN_FLIPS;
    }
    if |builds| < 2 {
      return TooFewBuilds(|builds|);
    }
    var results: seq<FlakyResult> := [];
    for i := 0 to |builds|
      invariant |results| == i && forall j :: 0 <= j < i ==> results[j] == FlakyOf(builds[j])
    {
      var one := FetchOneFlakyResult(builds[i]);
      results := results + [one];
    }
    assert results == FlakyResults(builds);
    for i := 0 to |results|
      invariant forall j :: 0 <= j < i ==> !builds[j].Fails()
    {
      if results[i].failed {
        assert FailsFirst(builds, i);
        return FlakyError(results[i].number);
      }
    }
    var agg := AggregateFlaky(results, includeSkipped);
    var kept := SelectFlaky(agg, minFlips);
    assert RanksRows(kept, agg, minFlips);
    return Ranked(kept);
  }

  /** For a slash-free test name that the reports show alike, the two tools' answers
      match: its flaky row repeats the history's counts, and there is such a row
      exactly when the history counts enough flips. */
  lemma ToolsAgree(
      forFlaky: seq<Build>, forHistory: seq<Build>, testName: string, minFlips: int, includeSkipped: bool,
      kept: seq<Stats>, s: Summary)
    requires '/' !in testName && minFlips > 0
    requires DistinctNumbers(forFlaky) && multiset(forFlaky) == multiset(forHistory)
    requires forall i :: 0 <= i < |forFlaky| ==> SeenAlike(forFlaky[i], testName)
    requires IsRanking(kept, forFlaky, minFlips, includeSkipped)
    requires Summarizes(s, HistoryResults(forHistory, DotSlashes(testName)), includeSkipped)
    ensures forall t: Stats :: t in kept && t.name == testName ==>
      t.passes == s.passes && t.failures == s.fails && t.flips == s.flips
    ensures (exists t: Stats :: t in kept && t.name == testName) <==> s.flips >= minFlips
  {
    SlashFreeNameIsKept(testName);
    var rows: seq<Stats> :|
      Aggregates(rows, FlakyResults(forFlaky), includeSkipped) && RanksRows(kept, rows, minFlips);
    CountersAgree(forFlaky, forHistory, testName, includeSkipped, rows, s);
    SameElements(kept, Filter(rows, Enough(minFlips)));
    FilterMembers(rows, Enough(minFlips));
    forall t: Stats | t in rows && t.name == testName
      ensures t.passes == s.passes && t.failures == s.fails && t.flips == s.flips
    {
      var i :| 0 <= i < |rows| && rows[i] == t;
    }
    if s.flips >= minFlips {
      assert HasRow(rows, testName);
      var i :| 0 <= i < |rows| && rows[i].name == testName;
      assert rows[i] in rows && Enough(minFlips)(rows[i]);
      assert rows[i] in kept;
    }
  }

  datatype HistoryAnswer =
    | NoBuilds
    | HistoryError(number: int)
    | NotSeen(builds: nat)
    | History(summary: Summary, timeline: seq<HistoryResult>)

  predicate Seen(builds: seq<Build>, name: string) {
    exists i | 0 <= i < |builds| :: HistoryOf(builds[i], name).found
  }

  method GetTestHistory(builds: seq<Build>, testName: string, includeSkipped: bool) returns (r: HistoryAnswer)
    ensures builds == [] ==> r == NoBuilds
    ensures builds != [] && !NoFailure(builds) ==> r.HistoryError? && FirstFailure(builds, r.number)
    ensures builds != [] && NoFailure(builds) ==>
      if Seen(builds, DotSlashes(testName)) then
        var results := HistoryResults(builds, DotSlashes(testName));
        && r.History? && Summarizes(r.summary, results, includeSkipped)
        && SortedBy(r.timeline, Newer)
        && multiset(r.timeline) == multiset(Filter(results, Visible(includeSkipped)))
      else r == NotSeen(|builds|)
  {
    var name := DotSlashes(testName);
    if |builds| == 0 {
      return NoBuilds;
    }
    var results: seq<HistoryResult> := [];
    for i := 0 to |builds|
      invariant |results| == i && forall j :: 0 <= j < i ==> results[j] == HistoryOf(builds[j], name)
    {
      var one := FetchOneTestHistory(builds[i], name);
      results := results + [one];
    }
    assert results == HistoryResults(builds, name);
    for i := 0 to |results|
      invariant forall j :: 0 <= j < i ==> !builds[j].Fails()
    {
      if results[i].failed {
        assert FailsFirst(builds, i);
        return HistoryError(results[i].number);
      }
    }
    var anyFound := false;
    for i := 0 to |results|
      invariant anyFound <==> exists j | 0 <= j < i :: HistoryOf(builds[j], name).found
    {
      anyFound := anyFound || results[i].found;
    }
    if !anyFound {
      return NotSeen(|results|);
    }
    var summary, timeline := RenderTestHistory(results, includeSkipped);
    return History(summary, timeline);
  }
}
