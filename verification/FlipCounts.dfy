/** What the flaky rows and the history summary count, said on the test cases of the
    builds' reports and on positions of a state sequence. */
module FlipCounts {
  import opened Sequences
  import opened Flips

  // ---- one state sequence ----

  ghost predicate ChangesAt(states: seq<State>, i: nat) {
    0 < i < |states| && states[i] != states[i - 1]
  }

  /** The positions whose state differs from the one before. */
  ghost function ChangePoints(states: seq<State>): set<nat> {
    set i: nat | i < |states| && ChangesAt(states, i)
  }

  ghost function PositionsOf(states: seq<State>, s: State): set<nat> {
    set i: nat | i < |states| && states[i] == s
  }

  lemma {:induction false} FlipsAreChangePoints(states: seq<State>)
    ensures Flips.Flips(states) == |ChangePoints(states)|
  {
    if |states| < 2 {
      assert ChangePoints(states) == {};
    } else {
      var n := |states| - 1;
      FlipsAreChangePoints(states[..n]);
      assert ChangePoints(states) == ChangePoints(states[..n]) + if states[n] != states[n - 1] then {n} else {};
    }
  }

  lemma {:induction false} TallyIsPositions(states: seq<State>, s: State)
    ensures Tally(states, s) == |PositionsOf(states, s)|
  {
    if states == [] {
      assert PositionsOf(states, s) == {};
    } else {
      var n := |states| - 1;
      TallyIsPositions(states[..n], s);
      var before := PositionsOf(states[..n], s);
      assert n !in before && forall i: nat :: i < n ==> states[..n][i] == states[i];
      if states[n] == s {
        assert PositionsOf(states, s) == before + {n};
      } else {
        assert PositionsOf(states, s) == before;
      }
    }
  }

  // ---- what one report shows of a test ----

  /** The state a JUnit status stands for. */
  ghost predicate Means(status: string, s: State) {
    || (s == Pass && (status == "PASSED" || status == "FIXED"))
    || (s == Fail && (status == "FAILED" || status == "REGRESSION"))
    || (s == Skip && status == "SKIPPED")
  }

  lemma NormalizeReads(status: string, s: State)
    ensures s != Unknown ==> (Normalize(status) == s <==> Means(status, s))
    ensures Normalize(status) == Unknown <==>
      status != "PASSED" && status != "FIXED" && status != "FAILED" && status != "REGRESSION" && status != "SKIPPED"
  {
  }

  ghost predicate IsCaseOf(c: Case, name: string) {
    c.className + "." + c.name == name
  }

  ghost predicate KnownCase(c: Case, name: string, s: State) {
    IsCaseOf(c, name) && Means(c.status, s)
  }

  /** Case i is the test's last one with a known state, which is s. */
  ghost predicate LastKnownAt(cases: seq<Case>, name: string, i: nat, s: State) {
    && i < |cases| && KnownCase(cases[i], name, s)
    && forall j, t :: i < j < |cases| ==> !KnownCase(cases[j], name, t)
  }

  /** Case i is the test's first one. */
  ghost predicate FirstAt(cases: seq<Case>, name: string, i: nat) {
    && i < |cases| && IsCaseOf(cases[i], name)
    && forall j :: 0 <= j < i ==> !IsCaseOf(cases[j], name)
  }

  lemma {:induction false} LastKnownPosition(cases: seq<Case>, name: string) returns (i: nat)
    ensures LastKnown(cases, name).Some? ==> LastKnownAt(cases, name, i, LastKnown(cases, name).value)
    ensures LastKnown(cases, name).None? ==> forall j, s :: 0 <= j < |cases| ==> !KnownCase(cases[j], name, s)
  {
    i := 0;
    if cases == [] {
    } else {
      var n := |cases| - 1;
      var state := Normalize(cases[n].status);
      if cases[n].FullName() == name && state != Unknown {
        i := n;
      } else {
        i := LastKnownPosition(cases[..n], name);
        assert forall j :: 0 <= j < n ==> cases[..n][j] == cases[j];
        assert forall s :: !KnownCase(cases[n], name, s);
      }
    }
  }

  lemma {:induction false} FirstPosition(cases: seq<Case>, name: string) returns (i: nat)
    ensures FirstCase(cases, name).Some? ==> FirstAt(cases, name, i) && FirstCase(cases, name).value == cases[i]
    ensures FirstCase(cases, name).None? ==> forall j :: 0 <= j < |cases| ==> !IsCaseOf(cases[j], name)
  {
    i := 0;
    if cases == [] {
    } else if cases[0].FullName() == name {
    } else {
      var k := FirstPosition(cases[1..], name);
      i := k + 1;
      assert forall j :: 1 <= j < |cases| ==> cases[1..][j - 1] == cases[j];
    }
  }

  /** The flaky tool reads this state off the build: that of the last known case. */
  ghost predicate LastShows(b: Build, name: string, s: State) {
    b.report.Cases? && exists i: nat :: LastKnownAt(b.report.cases, name, i, s)
  }

  /** The history reads this state off the build: that of the first case. */
  ghost predicate FirstShows(b: Build, name: string, s: State) {
    b.report.Cases? && exists i: nat :: FirstAt(b.report.cases, name, i) && Normalize(b.report.cases[i].status) == s
  }

  lemma FlakyShows(b: Build, name: string, s: State)
    ensures LastShows(b, name, s) <==> name in FlakyOf(b).tests && FlakyOf(b).tests[name] == s
  {
    if b.report.Cases? {
      var cases := b.report.cases;
      FoldHoldsLastKnown(cases, name);
      var i := LastKnownPosition(cases, name);
      if j: nat :| LastKnownAt(cases, name, j, s) {
        assert KnownCase(cases[j], name, s);
      }
    }
  }

  lemma HistoryShows(b: Build, name: string, s: State)
    ensures FirstShows(b, name, s) <==> HistoryOf(b, name).found && HistoryOf(b, name).status == s
  {
    if b.report.Cases? {
      var i := FirstPosition(b.report.cases, name);
      if j: nat :| FirstAt(b.report.cases, name, j) {
        assert IsCaseOf(b.report.cases[j], name);
      }
    }
  }

  /** The flaky tool's result of a build: its number, and whether its request failed or
      could not be read. */
  lemma FlakyRow(b: Build)
    ensures FlakyOf(b).number == b.number
    ensures FlakyOf(b).failed <==> b.report.RequestFailed? || b.report.Unreadable?
    ensures b.report.NoReport? ==> FlakyOf(b).tests == map[]
  {
  }

  /** The printed row of a build: its own number and result, what its first case of the
      test says, and whether there was a report. */
  lemma HistoryRow(b: Build, name: string) returns (i: nat)
    ensures var r := HistoryOf(b, name);
      && r.number == b.number && r.result == b.result
      && r.hasReport == (b.report.Cases? || b.report.Unreadable?)
      && r.failed == (b.report.RequestFailed? || b.report.Unreadable?)
      && (r.found ==>
            && b.report.Cases? && FirstAt(b.report.cases, name, i)
            && var c := b.report.cases[i];
            && r.status == Normalize(c.status) && r.duration == c.duration
            && r.errorHead == (if c.errorDetails.Some? then FirstLine(c.errorDetails.value) else ""))
      && (!r.found ==>
            && (b.report.Cases? ==> forall j :: 0 <= j < |b.report.cases| ==> !IsCaseOf(b.report.cases[j], name))
            && r.status == Unknown && r.duration == 0.0 && r.errorHead == "")
  {
    i := 0;
    if b.report.Cases? {
      i := FirstPosition(b.report.cases, name);
    }
  }

  // ---- the states over many builds ----

  ghost predicate Increasing(at: seq<nat>) {
    forall k, l :: 0 <= k < l < |at| ==> at[k] < at[l]
  }

  /** order is the builds from the oldest to the newest. */
  ghost predicate OldestFirst(order: seq<Build>, builds: seq<Build>) {
    && multiset(order) == multiset(builds)
    && forall i, j :: 0 <= i < j < |order| ==> order[i].number <= order[j].number
  }

  /** What a tool reads off builds in a given order: at lists the builds that show a
      state, other than an ignored SKIPPED, and states what they show. */
  ghost predicate Reads(
      order: seq<Build>, shows: (Build, State) -> bool, includeSkipped: bool, at: seq<nat>, states: seq<State>)
  {
    && |at| == |states| && Increasing(at)
    && (forall k :: 0 <= k < |at| ==> at[k] < |order| && shows(order[at[k]], states[k]))
    && (forall k :: 0 <= k < |at| ==> states[k] != Skip || includeSkipped)
    && (forall i, s :: 0 <= i < |order| && shows(order[i], s) && (s != Skip || includeSkipped) ==> i in at)
  }

  ghost function LastCase(name: string): (Build, State) -> bool {
    (b, s) => LastShows(b, name, s)
  }

  ghost function FirstOne(name: string): (Build, State) -> bool {
    (b, s) => FirstShows(b, name, s)
  }

  lemma ReadsGrow(
      order: seq<Build>, shows: (Build, State) -> bool, includeSkipped: bool, before: seq<nat>, states: seq<State>,
      last: Option<State>)
    returns (at: seq<nat>)
    requires order != [] && Reads(order[..|order| - 1], shows, includeSkipped, before, states)
    requires forall s :: shows(order[|order| - 1], s) <==> last == Some(s)
    ensures Reads(order, shows, includeSkipped, at, states + LastKept(last, includeSkipped))
  {
    var n := |order| - 1;
    at := before + if LastKept(last, includeSkipped) != [] then [n] else [];
    forall i, s | 0 <= i < |order| && shows(order[i], s) && (s != Skip || includeSkipped) ensures i in at {
      if i < n {
        assert shows(order[..n][i], s);
        assert i in before;
      } else {
        assert last == Some(s);
        assert at[|before|] == n;
      }
    }
  }

  /** The last build's state, if it shows one that counts. */
  function LastKept(last: Option<State>, includeSkipped: bool): seq<State> {
    if last.Some? && (last.value != Skip || includeSkipped) then [last.value] else []
  }

  lemma FlakyStep(order: seq<Build>, name: string, includeSkipped: bool) returns (last: Option<State>)
    requires order != []
    ensures forall s :: LastCase(name)(order[|order| - 1], s) <==> last == Some(s)
    ensures StatesOf(FlakyResults(order), name, includeSkipped) ==
      StatesOf(FlakyResults(order[..|order| - 1]), name, includeSkipped) + LastKept(last, includeSkipped)
  {
    var n := |order| - 1;
    var tests := FlakyOf(order[n]).tests;
    last := if name in tests then Some(tests[name]) else None;
    forall s ensures LastCase(name)(order[n], s) <==> last == Some(s) {
      FlakyShows(order[n], name, s);
    }
    assert FlakyResults(order)[..n] == FlakyResults(order[..n]);
  }

  lemma {:induction false} FlakyStatesAt(order: seq<Build>, name: string, includeSkipped: bool) returns (at: seq<nat>)
    ensures Reads(order, LastCase(name), includeSkipped, at, StatesOf(FlakyResults(order), name, includeSkipped))
  {
    if order == [] {
      at := [];
    } else {
      var n := |order| - 1;
      at := FlakyStatesAt(order[..n], name, includeSkipped);
      var last := FlakyStep(order, name, includeSkipped);
      var states := StatesOf(FlakyResults(order[..n]), name, includeSkipped);
      at := ReadsGrow(order, LastCase(name), includeSkipped, at, states, last);
    }
  }

  lemma HistoryStep(order: seq<Build>, name: string, includeSkipped: bool) returns (last: Option<State>)
    requires order != []
    ensures forall s :: FirstOne(name)(order[|order| - 1], s) <==> last == Some(s)
    ensures HistoryStates(HistoryResults(order, name), includeSkipped) ==
      HistoryStates(HistoryResults(order[..|order| - 1], name), includeSkipped) + LastKept(last, includeSkipped)
  {
    var n := |order| - 1;
    var r := HistoryOf(order[n], name);
    last := if r.found then Some(r.status) else None;
    forall s ensures FirstOne(name)(order[n], s) <==> last == Some(s) {
      HistoryShows(order[n], name, s);
    }
    assert HistoryResults(order, name)[..n] == HistoryResults(order[..n], name);
  }

  lemma {:induction false} HistoryStatesAt(order: seq<Build>, name: string, includeSkipped: bool)
    returns (at: seq<nat>)
    ensures Reads(order, FirstOne(name), includeSkipped, at, HistoryStates(HistoryResults(order, name), includeSkipped))
  {
    if order == [] {
      at := [];
    } else {
      var n := |order| - 1;
      at := HistoryStatesAt(order[..n], name, includeSkipped);
      var last := HistoryStep(order, name, includeSkipped);
      var states := HistoryStates(HistoryResults(order[..n], name), includeSkipped);
      at := ReadsGrow(order, FirstOne(name), includeSkipped, at, states, last);
    }
  }

  // ---- results in any order come from builds in that order ----

  lemma MapWithout<T, U>(xs: seq<T>, ys: seq<U>, f: T -> U, j: nat)
    requires multiset(ys) == multiset(Map(xs, f)) && ys != []
    requires j < |xs| && f(xs[j]) == ys[|ys| - 1]
    ensures multiset(ys[..|ys| - 1]) == multiset(Map(xs[..j] + xs[j + 1..], f))
  {
    var n := |ys| - 1;
    MapAround(xs, j, f);
    assert ys == ys[..n] + [ys[n]];
    assert multiset(ys[..n]) == multiset(ys) - multiset{ys[n]};
  }

  lemma PutBack<T, U>(xs: seq<T>, ys: seq<U>, f: T -> U, j: nat, rest: seq<T>)
    requires j < |xs| && multiset(rest) == multiset(xs[..j] + xs[j + 1..])
    requires ys != [] && Map(rest, f) == ys[..|ys| - 1] && f(xs[j]) == ys[|ys| - 1]
    ensures multiset(rest + [xs[j]]) == multiset(xs) && Map(rest + [xs[j]], f) == ys
  {
    RemoveOne(xs, j);
    assert xs[j] in multiset(xs);
    assert ys == ys[..|ys| - 1] + [ys[|ys| - 1]];
  }

  lemma {:induction false} Unmap<T, U>(xs: seq<T>, ys: seq<U>, f: T -> U) returns (order: seq<T>)
    requires multiset(ys) == multiset(Map(xs, f))
    ensures multiset(order) == multiset(xs) && Map(order, f) == ys
    decreases |ys|
  {
    SameElements(ys, Map(xs, f));
    if ys == [] {
      order := xs;
    } else {
      var n := |ys| - 1;
      assert ys[n] in Map(xs, f);
      var j :| 0 <= j < |xs| && Map(xs, f)[j] == ys[n];
      MapWithout(xs, ys, f, j);
      var rest := Unmap(xs[..j] + xs[j + 1..], ys[..n], f);
      PutBack(xs, ys, f, j, rest);
      order := rest + [xs[j]];
    }
  }

  lemma FlakyOrder(builds: seq<Build>, sorted: seq<FlakyResult>) returns (order: seq<Build>)
    requires InBuildOrder(sorted, FlakyResults(builds))
    ensures OldestFirst(order, builds) && FlakyResults(order) == sorted
  {
    order := Unmap(builds, sorted, FlakyOf);
    forall i, j | 0 <= i < j < |order| ensures order[i].number <= order[j].number {
      assert OlderFirst(sorted[i], sorted[j]);
      assert sorted[i] == FlakyOf(order[i]) && sorted[j] == FlakyOf(order[j]);
    }
  }

  lemma HistoryOrder(builds: seq<Build>, name: string, chrono: seq<HistoryResult>) returns (order: seq<Build>)
    requires Chronological(chrono, HistoryResults(builds, name))
    ensures OldestFirst(order, builds) && HistoryResults(order, name) == chrono
  {
    order := Unmap(builds, chrono, (b: Build) => HistoryOf(b, name));
    forall i, j | 0 <= i < j < |order| ensures order[i].number <= order[j].number {
      assert Older(chrono[i], chrono[j]);
      assert chrono[i] == HistoryOf(order[i], name) && chrono[j] == HistoryOf(order[j], name);
    }
  }

  // ---- what the rows and the summary count ----

  /** The build shows a state of the test that counts. */
  ghost predicate SeenIn(b: Build, name: string, includeSkipped: bool) {
    exists s :: LastShows(b, name, s) && (s != Skip || includeSkipped)
  }

  /** last is the number of the newest build that shows the test, or 0. */
  ghost predicate IsLastSeen(last: int, order: seq<Build>, name: string, includeSkipped: bool) {
    && (forall i :: 0 <= i < |order| && SeenIn(order[i], name, includeSkipped) ==> order[i].number <= last)
    && last >= 0
    && (last > 0 ==> exists i :: 0 <= i < |order| && SeenIn(order[i], name, includeSkipped) && order[i].number == last)
  }

  lemma SeenInTests(b: Build, name: string, includeSkipped: bool)
    ensures var tests := FlakyOf(b).tests;
      SeenIn(b, name, includeSkipped) <==> name in tests && (tests[name] != Skip || includeSkipped)
  {
    forall s ensures LastShows(b, name, s) <==> name in FlakyOf(b).tests && FlakyOf(b).tests[name] == s {
      FlakyShows(b, name, s);
    }
    if name in FlakyOf(b).tests {
      assert LastShows(b, name, FlakyOf(b).tests[name]);
    }
  }

  lemma {:induction false} LastSeenIsNewest(order: seq<Build>, name: string, includeSkipped: bool)
    ensures IsLastSeen(LastSeen(FlakyResults(order), name, includeSkipped), order, name, includeSkipped)
  {
    if order == [] {
    } else {
      var n := |order| - 1;
      var front := order[..n];
      LastSeenIsNewest(front, name, includeSkipped);
      assert FlakyResults(order)[..n] == FlakyResults(front);
      SeenInTests(order[n], name, includeSkipped);
      var last := LastSeen(FlakyResults(order), name, includeSkipped);
      var before := LastSeen(FlakyResults(front), name, includeSkipped);
      if last == before && last > 0 {
        var i :| 0 <= i < |front| && SeenIn(front[i], name, includeSkipped) && front[i].number == last;
        assert SeenIn(order[i], name, includeSkipped) && order[i].number == last;
      }
      forall i | 0 <= i < |order| && SeenIn(order[i], name, includeSkipped) ensures order[i].number <= last {
        if i < n {
          assert SeenIn(front[i], name, includeSkipped);
        }
      }
    }
  }

  /** Every row of the flaky tool counts over the states that the builds, oldest first,
      show of its test: changes from one state to the next, passes, failures, and the
      newest build. */
  lemma RowCounts(builds: seq<Build>, rows: seq<Stats>, includeSkipped: bool, i: nat)
    returns (order: seq<Build>, at: seq<nat>, states: seq<State>)
    requires Aggregates(rows, FlakyResults(builds), includeSkipped) && i < |rows|
    ensures OldestFirst(order, builds) && Reads(order, LastCase(rows[i].name), includeSkipped, at, states)
    ensures rows[i].flips == |ChangePoints(states)|
    ensures rows[i].passes == |PositionsOf(states, Pass)| && rows[i].failures == |PositionsOf(states, Fail)|
    ensures IsLastSeen(rows[i].lastSeen, order, rows[i].name, includeSkipped)
  {
    var sorted :| InBuildOrder(sorted, FlakyResults(builds)) && RowsFor(rows, sorted, includeSkipped);
    order := FlakyOrder(builds, sorted);
    var name := rows[i].name;
    at := FlakyStatesAt(order, name, includeSkipped);
    states := StatesOf(sorted, name, includeSkipped);
    FlipsAreChangePoints(states);
    TallyIsPositions(states, Pass);
    TallyIsPositions(states, Fail);
    LastSeenIsNewest(order, name, includeSkipped);
  }

  /** There is one row for each test that some build shows, and no other. */
  lemma RowsAreSeenTests(builds: seq<Build>, rows: seq<Stats>, includeSkipped: bool, name: string)
    requires Aggregates(rows, FlakyResults(builds), includeSkipped)
    ensures (exists i :: 0 <= i < |rows| && rows[i].name == name) <==>
            (exists b :: b in builds && SeenIn(b, name, includeSkipped))
    ensures forall i, j :: 0 <= i < j < |rows| ==> rows[i].name != rows[j].name
  {
    var sorted :| InBuildOrder(sorted, FlakyResults(builds)) && RowsFor(rows, sorted, includeSkipped);
    var order := FlakyOrder(builds, sorted);
    SameElements(order, builds);
    var at := FlakyStatesAt(order, name, includeSkipped);
    var states := StatesOf(sorted, name, includeSkipped);
    assert HasRow(rows, name) <==> states != [];
    SomeStateIsSeen(order, name, includeSkipped, at, states);
  }

  lemma SomeStateIsSeen(order: seq<Build>, name: string, includeSkipped: bool, at: seq<nat>, states: seq<State>)
    requires Reads(order, LastCase(name), includeSkipped, at, states)
    ensures states != [] <==> exists b :: b in order && SeenIn(b, name, includeSkipped)
  {
    if states != [] {
      assert LastCase(name)(order[at[0]], states[0]);
      assert order[at[0]] in order && SeenIn(order[at[0]], name, includeSkipped);
    }
    if b :| b in order && SeenIn(b, name, includeSkipped) {
      var i :| 0 <= i < |order| && order[i] == b;
      var s :| LastShows(b, name, s) && (s != Skip || includeSkipped);
      assert LastCase(name)(order[i], s);
      assert i in at;
    }
  }

  /** The summary of the history counts over the builds' first cases of the test:
      passes, failures and shown skips in any order, changes oldest build first. */
  lemma SummaryCounts(builds: seq<Build>, name: string, s: Summary, includeSkipped: bool)
    returns (order: seq<Build>, at: seq<nat>, states: seq<State>)
    requires Summarizes(s, HistoryResults(builds, name), includeSkipped)
    ensures OldestFirst(order, builds) && Reads(order, FirstOne(name), includeSkipped, at, states)
    ensures s.flips == |ChangePoints(states)|
    ensures s.passes == |Showing(builds, name, Pass)| && s.fails == |Showing(builds, name, Fail)|
    ensures s.skips == if includeSkipped then |Showing(builds, name, Skip)| else 0
  {
    var results := HistoryResults(builds, name);
    var chrono :| Chronological(chrono, results)
               && s.flips == Flips.Flips(HistoryStates(chrono, includeSkipped));
    order := HistoryOrder(builds, name, chrono);
    at := HistoryStatesAt(order, name, includeSkipped);
    states := HistoryStates(chrono, includeSkipped);
    FlipsAreChangePoints(states);
    ShowingIsFiltered(builds, name, Pass, IsPass);
    ShowingIsFiltered(builds, name, Fail, IsFail);
    ShowingIsFiltered(builds, name, Skip, IsSkip);
  }

  /** The builds whose first case of the test has that state. */
  ghost function Showing(builds: seq<Build>, name: string, s: State): set<nat> {
    set i: nat | i < |builds| && FirstShows(builds[i], name, s)
  }

  lemma ShowingIsFiltered(builds: seq<Build>, name: string, s: State, p: HistoryResult -> bool)
    requires s != Unknown && forall r :: p(r) <==> r.status == s
    ensures |Filter(HistoryResults(builds, name), p)| == |Showing(builds, name, s)|
  {
    var results := HistoryResults(builds, name);
    FilterCount(results, p);
    forall i: nat | i < |builds| ensures p(results[i]) <==> FirstShows(builds[i], name, s) {
      HistoryShows(builds[i], name, s);
      assert results[i] == HistoryOf(builds[i], name);
      assert p(results[i]) <==> results[i].status == s;
    }
    assert Places(results, p) == Showing(builds, name, s);
  }

  // ---- the ranked answer ----

  /** Ranked: more flips first, then more failures, then the smaller name. */
  ghost predicate RankedBefore(a: Stats, b: Stats) {
    || a.flips > b.flips
    || (a.flips == b.flips && a.failures > b.failures)
    || (a.flips == b.flips && a.failures == b.failures && LexLe(a.name, b.name))
  }

  /** The kept rows are exactly those with enough flips, ranked. */
  lemma RankedExactly(kept: seq<Stats>, rows: seq<Stats>, minFlips: int)
    ensures RanksRows(kept, rows, minFlips) <==>
      && (forall i, j :: 0 <= i < j < |kept| ==> RankedBefore(kept[i], kept[j]))
      && (forall t :: multiset(kept)[t] == if t.flips >= minFlips then multiset(rows)[t] else 0)
  {
    forall t
      ensures multiset(Filter(rows, Enough(minFlips)))[t] == if t.flips >= minFlips then multiset(rows)[t] else 0 {
      FilterMultiset(rows, Enough(minFlips), t);
    }
    if forall t :: multiset(kept)[t] == if t.flips >= minFlips then multiset(rows)[t] else 0 {
      SameCounts(multiset(kept), multiset(Filter(rows, Enough(minFlips))));
    }
    assert SortedBy(kept, Ranks) <==> forall i, j :: 0 <= i < j < |kept| ==> Ranks(kept[i], kept[j]);
  }

  ghost predicate Shown(r: HistoryResult, includeSkipped: bool) {
    r.status != Skip || includeSkipped
  }

  /** The printed timeline: newest build first, and exactly the builds whose first case
      is not an ignored SKIPPED one. */
  lemma TimelineExactly(
      builds: seq<Build>, name: string, includeSkipped: bool, timeline: seq<HistoryResult>)
    requires SortedBy(timeline, Newer)
    requires multiset(timeline) == multiset(Filter(HistoryResults(builds, name), Visible(includeSkipped)))
    ensures forall i, j :: 0 <= i < j < |timeline| ==> timeline[i].number >= timeline[j].number
    ensures forall r ::
      multiset(timeline)[r] == if Shown(r, includeSkipped) then multiset(HistoryResults(builds, name))[r] else 0
  {
    forall i, j | 0 <= i < j < |timeline| ensures timeline[i].number >= timeline[j].number {
      assert Newer(timeline[i], timeline[j]);
    }
    forall r
      ensures multiset(timeline)[r] == if Shown(r, includeSkipped) then multiset(HistoryResults(builds, name))[r] else 0
    {
      FilterMultiset(HistoryResults(builds, name), Visible(includeSkipped), r);
    }
  }
}
