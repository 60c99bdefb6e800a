/** The comparison of two builds: parameters, pipeline stages and test states. */
module BuildDiff {
  import opened Sequences
  import Flips

  // ---- parameters ----

  datatype Param<V> = Param(name: string, value: V)

  /** Each named parameter with the last value given for it. */
  function Collected<V>(params: seq<Param<V>>): map<string, V> {
    if params == [] then map[]
    else
      var p := params[|params| - 1];
      var front := Collected(params[..|params| - 1]);
      if p.name == "" then front else front[p.name := p.value]
  }

  /** Parameter j of action i is the last one of that name. */
  ghost predicate LastGiven<V>(actions: seq<seq<Param<V>>>, name: string, i: nat, j: nat) {
    && i < |actions| && j < |actions[i]| && actions[i][j].name == name
    && forall k, l :: 0 <= k < |actions| && 0 <= l < |actions[k]| && (i < k || (i == k && j < l)) ==>
         actions[k][l].name != name
  }

  /** m holds exactly the named parameters, each with the last value given for it. */
  ghost predicate HoldsLastGiven<V>(m: map<string, V>, actions: seq<seq<Param<V>>>) {
    && (forall i, j :: 0 <= i < |actions| && 0 <= j < |actions[i]| && actions[i][j].name != "" ==>
          actions[i][j].name in m)
    && (forall name :: name in m ==>
          name != "" && exists i: nat, j: nat :: LastGiven(actions, name, i, j) && m[name] == actions[i][j].value)
  }

  lemma {:induction false} CollectedLast<V>(params: seq<Param<V>>, name: string) returns (k: nat)
    ensures name in Collected(params) <==> name != "" && exists l :: 0 <= l < |params| && params[l].name == name
    ensures name in Collected(params) ==>
      && k < |params| && params[k].name == name && params[k].value == Collected(params)[name]
      && forall l :: k < l < |params| ==> params[l].name != name
  {
    k := 0;
    if params == [] {
    } else {
      var n := |params| - 1;
      k := CollectedLast(params[..n], name);
      assert forall l :: 0 <= l < n ==> params[..n][l] == params[l];
      if params[n].name == name {
        k := n;
      }
    }
  }

  /** What is collected is, for each named parameter, the last value given for it. */
  lemma CollectedHoldsLast<V>(actions: seq<seq<Param<V>>>)
    ensures HoldsLastGiven(Collected(Flatten(actions)), actions)
  {
    var flat, m := Flatten(actions), Collected(Flatten(actions));
    var from := FlattenAt(actions);
    forall i, j | 0 <= i < |actions| && 0 <= j < |actions[i]| && actions[i][j].name != ""
      ensures actions[i][j].name in m
    {
      assert (i, j) in from;
      var l :| 0 <= l < |from| && from[l] == (i, j);
      assert flat[l].name == actions[i][j].name;
      var _ := CollectedLast(flat, actions[i][j].name);
    }
    forall name | name in m
      ensures name != "" && exists i: nat, j: nat :: LastGiven(actions, name, i, j) && m[name] == actions[i][j].value
    {
      var k := CollectedLast(flat, name);
      LastOfFlat(actions, flat, from, name, k);
    }
  }

  lemma LastOfFlat<V>(
      actions: seq<seq<Param<V>>>, flat: seq<Param<V>>, from: seq<(nat, nat)>, name: string, k: nat)
    requires FlattenedAt(flat, actions, from)
    requires k < |flat| && flat[k].name == name && forall l :: k < l < |flat| ==> flat[l].name != name
    ensures LastGiven(actions, name, from[k].0, from[k].1)
  {
    var i, j := from[k].0, from[k].1;
    forall x, y | 0 <= x < |actions| && 0 <= y < |actions[x]| && (i < x || (i == x && j < y))
      ensures actions[x][y].name != name
    {
      assert (x, y) in from;
      var l :| 0 <= l < |from| && from[l] == (x, y);
      assert flat[l] == actions[x][y];
    }
  }

  method CollectParams<V>(actions: seq<seq<Param<V>>>) returns (m: map<string, V>)
    ensures m == Collected(Flatten(actions))
  {
    m := map[];
    for i := 0 to |actions|
      invariant m == Collected(Flatten(actions[..i]))
    {
      assert actions[..i + 1][..i] == actions[..i];
      ghost var before := Flatten(actions[..i]);
      var params := actions[i];
      assert before + params[..0] == before;
      for j := 0 to |params|
        invariant m == Collected(before + params[..j])
      {
        assert before + params[..j + 1] == before + params[..j] + [params[j]];
        CollectedStep(before + params[..j], params[j]);
        if params[j].name != "" {
          m := m[params[j].name := params[j].value];
        }
      }
      assert params[..|params|] == params;
    }
    assert actions[..|actions|] == actions;
  }

  lemma CollectedStep<V>(params: seq<Param<V>>, p: Param<V>)
    ensures Collected(params + [p]) == if p.name == "" then Collected(params) else Collected(params)[p.name := p.value]
  {
    assert (params + [p])[..|params|] == params;
  }

  /** A diff line, by the strings it shows. */
  datatype Line =
    | Removed(name: string, was: string)
    | Added(name: string, now: string)
    | Changed(name: string, was: string, now: string)
  {
    function Text(): string {
      match this
      case Removed(k, v) => "  - " + k + "=" + v
      case Added(k, v) => "  + " + k + "=" + v
      case Changed(k, v, w) => "  ~ " + k + ": " + v + " → " + w
    }
  }

  lemma LineTexts(k: string, v: string, w: string)
    ensures Removed(k, v).Text() == "  - " + k + "=" + v
    ensures Added(k, v).Text() == "  + " + k + "=" + v
    ensures Changed(k, v, w).Text() == "  ~ " + k + ": " + v + " → " + w
  {
  }

  function TextOf(l: Line): string {
    l.Text()
  }

  predicate ByText(a: Line, b: Line) {
    LexLe(a.Text(), b.Text())
  }

  lemma ByTextIsTotalPreorder()
    ensures TotalPreorder(ByText)
  {
    LexIsTotalPreorder();
  }

  /** Parameters as they are shown. */
  function Shown<V>(m: map<string, V>, show: V -> string): map<string, string> {
    map k | k in m :: show(m[k])
  }

  /** The line of one parameter, if it has one. */
  function LineFor(a: map<string, string>, b: map<string, string>, k: string): Option<Line> {
    if k in a && k in b then (if a[k] != b[k] then Some(Changed(k, a[k], b[k])) else None)
    else if k in a then Some(Removed(k, a[k]))
    else if k in b then Some(Added(k, b[k]))
    else None
  }

  datatype ParamsDiff = ParamsDiff(removed: seq<Line>, added: seq<Line>, changed: seq<Line>) {
    function Lines(): seq<Line> {
      removed + added + changed
    }
  }

  /** A sorted list of exactly the lines of one kind. */
  ghost predicate Section(lines: seq<Line>, a: map<string, string>, b: map<string, string>, kind: Line -> bool) {
    && SortedBy(lines, ByText) && Distinct(lines)
    && forall l :: l in lines <==> kind(l) && LineFor(a, b, l.name) == Some(l)
  }

  function IsRemoved(): Line -> bool { (l: Line) => l.Removed? }
  function IsAdded(): Line -> bool { (l: Line) => l.Added? }
  function IsChanged(): Line -> bool { (l: Line) => l.Changed? }

  ghost predicate IsDiff(d: ParamsDiff, a: map<string, string>, b: map<string, string>) {
    && Section(d.removed, a, b, IsRemoved())
    && Section(d.added, a, b, IsAdded())
    && Section(d.changed, a, b, IsChanged())
  }

  method RenderParamsDiff<V>(paramsA: map<string, V>, paramsB: map<string, V>, show: V -> string)
    returns (d: ParamsDiff)
    ensures IsDiff(d, Shown(paramsA, show), Shown(paramsB, show))
  {
    ghost var a, b := Shown(paramsA, show), Shown(paramsB, show);
    var added: seq<Line> := [];
    var pending := paramsB.Keys;
    while pending != {}
      invariant pending <= paramsB.Keys
      invariant Partial(added, a, b, IsAdded(), paramsB.Keys - pending)
      decreases pending
    {
      var k :| k in pending;
      pending := pending - {k};
      if k !in paramsA {
        added := added + [Added(k, show(paramsB[k]))];
      }
    }
    var removed: seq<Line> := [];
    pending := paramsA.Keys;
    while pending != {}
      invariant pending <= paramsA.Keys
      invariant Partial(removed, a, b, IsRemoved(), paramsA.Keys - pending)
      decreases pending
    {
      var k :| k in pending;
      pending := pending - {k};
      if k !in paramsB {
        removed := removed + [Removed(k, show(paramsA[k]))];
      }
    }
    var changed: seq<Line> := [];
    pending := paramsA.Keys;
    while pending != {}
      invariant pending <= paramsA.Keys
      invariant Partial(changed, a, b, IsChanged(), paramsA.Keys - pending)
      decreases pending
    {
      var k :| k in pending;
      pending := pending - {k};
      if k in paramsB && show(paramsA[k]) != show(paramsB[k]) {
        changed := changed + [Changed(k, show(paramsA[k]), show(paramsB[k]))];
      }
    }
    removed := SortLines(removed, a, b, IsRemoved(), paramsA.Keys);
    added := SortLines(added, a, b, IsAdded(), paramsB.Keys);
    changed := SortLines(changed, a, b, IsChanged(), paramsA.Keys);
    d := ParamsDiff(removed, added, changed);
  }

  /** Exactly the lines of one kind for the names looked at so far. */
  ghost predicate Partial(
      lines: seq<Line>, a: map<string, string>, b: map<string, string>, kind: Line -> bool, names: set<string>)
  {
    && Distinct(lines)
    && forall l :: l in lines <==> kind(l) && LineFor(a, b, l.name) == Some(l) && l.name in names
  }

  method SortLines(
      lines: seq<Line>, ghost a: map<string, string>, ghost b: map<string, string>,
      ghost kind: Line -> bool, ghost names: set<string>)
    returns (sorted: seq<Line>)
    requires Partial(lines, a, b, kind, names)
    requires forall l :: kind(l) && LineFor(a, b, l.name) == Some(l) ==> l.name in names
    ensures Section(sorted, a, b, kind)
  {
    ByTextIsTotalPreorder();
    sorted := SortBy(lines, ByText);
    DistinctOfMultiset(lines, sorted);
    SameElements(lines, sorted);
  }

  /** The lines are those of the parameters that build A alone has, that build B alone
      has, and that both have but show differently; and they are printed in byte order. */
  lemma LinesAreExact<V>(
      d: ParamsDiff, paramsA: map<string, V>, paramsB: map<string, V>, show: V -> string,
      k: string, v: string, w: string)
    requires IsDiff(d, Shown(paramsA, show), Shown(paramsB, show))
    ensures Removed(k, v) in d.removed <==> k in paramsA && k !in paramsB && v == show(paramsA[k])
    ensures Added(k, v) in d.added <==> k !in paramsA && k in paramsB && v == show(paramsB[k])
    ensures Changed(k, v, w) in d.changed <==>
      k in paramsA && k in paramsB && v == show(paramsA[k]) && w == show(paramsB[k]) && v != w
    ensures forall l :: l in d.removed ==> l.Removed?
    ensures forall l :: l in d.added ==> l.Added?
    ensures forall l :: l in d.changed ==> l.Changed?
  {
    assert IsAdded()(Added(k, v)) && IsRemoved()(Removed(k, v)) && IsChanged()(Changed(k, v, w));
  }

  // ---- what a parameter diff is good for ----

  function Apply(m: map<string, string>, l: Line): map<string, string> {
    match l
    case Removed(k, _) => m - {k}
    case Added(k, v) => m[k := v]
    case Changed(k, _, v) => m[k := v]
  }

  function Patch(m: map<string, string>, lines: seq<Line>): map<string, string> {
    if lines == [] then m else Apply(Patch(m, lines[..|lines| - 1]), lines[|lines| - 1])
  }

  ghost predicate DistinctNames(lines: seq<Line>) {
    forall i, j :: 0 <= i < j < |lines| ==> lines[i].name != lines[j].name
  }

  lemma {:induction false} PatchLeaves(m: map<string, string>, lines: seq<Line>, k: string)
    requires forall i :: 0 <= i < |lines| ==> lines[i].name != k
    ensures k in Patch(m, lines) <==> k in m
    ensures k in m ==> Patch(m, lines)[k] == m[k]
  {
    if lines == [] {
    } else {
      PatchLeaves(m, lines[..|lines| - 1], k);
    }
  }

  lemma {:induction false} PatchSets(m: map<string, string>, lines: seq<Line>, i: nat)
    requires DistinctNames(lines) && i < |lines|
    ensures lines[i].name in Patch(m, lines) <==> !lines[i].Removed?
    ensures !lines[i].Removed? ==> Patch(m, lines)[lines[i].name] == lines[i].now
  {
    var n := |lines| - 1;
    if i == n {
    } else {
      PatchSets(m, lines[..n], i);
      assert lines[n].name != lines[i].name;
    }
  }

  lemma DiffLines(d: ParamsDiff, a: map<string, string>, b: map<string, string>)
    requires IsDiff(d, a, b)
    ensures DistinctNames(d.Lines())
    ensures forall l :: l in d.Lines() <==> LineFor(a, b, l.name) == Some(l)
  {
    var lines := d.Lines();
    forall l ensures l in lines <==> LineFor(a, b, l.name) == Some(l) {
      assert l in lines <==> l in d.removed || l in d.added || l in d.changed;
      assert IsRemoved()(l) || IsAdded()(l) || IsChanged()(l);
    }
    assert Distinct(lines) by {
      DisjointConcat(d.removed, d.added);
      DisjointConcat(d.removed + d.added, d.changed);
    }
    forall i, j | 0 <= i < j < |lines| ensures lines[i].name != lines[j].name {
      assert lines[i] in lines && lines[j] in lines;
    }
  }

  lemma DisjointConcat(x: seq<Line>, y: seq<Line>)
    requires Distinct(x) && Distinct(y) && forall l :: l in x ==> l !in y
    ensures Distinct(x + y)
  {
    forall i, j | 0 <= i < j < |x + y| ensures (x + y)[i] != (x + y)[j] {
      if i < |x| <= j {
        assert (x + y)[i] in x && (x + y)[j] in y;
      }
    }
  }

  /** Applying the lines to build A's parameters gives build B's, as shown. */
  lemma PatchGivesB(d: ParamsDiff, a: map<string, string>, b: map<string, string>)
    requires IsDiff(d, a, b)
    ensures Patch(a, d.Lines()) == b
  {
    DiffLines(d, a, b);
    var lines := d.Lines();
    forall k ensures (k in Patch(a, lines) <==> k in b) && (k in b ==> Patch(a, lines)[k] == b[k]) {
      PatchGivesOne(lines, a, b, k);
    }
  }

  lemma PatchGivesOne(lines: seq<Line>, a: map<string, string>, b: map<string, string>, k: string)
    requires DistinctNames(lines) && forall l :: l in lines <==> LineFor(a, b, l.name) == Some(l)
    ensures k in Patch(a, lines) <==> k in b
    ensures k in b ==> Patch(a, lines)[k] == b[k]
  {
    var l := LineFor(a, b, k);
    if l.Some? {
      assert l.value in lines;
      var i :| 0 <= i < |lines| && lines[i] == l.value;
      PatchSets(a, lines, i);
    } else {
      forall i | 0 <= i < |lines| ensures lines[i].name != k {
        assert lines[i] in lines;
      }
      PatchLeaves(a, lines, k);
    }
  }

  /** "(no diff)" is shown exactly when the two builds show the same parameters. */
  lemma NoDiffMeansSame(d: ParamsDiff, a: map<string, string>, b: map<string, string>)
    requires IsDiff(d, a, b)
    ensures |d.removed| + |d.added| + |d.changed| == 0 <==> a == b
  {
    PatchGivesB(d, a, b);
    DiffLines(d, a, b);
    if a == b {
      assert forall l :: l !in d.Lines();
    }
  }

  /** Swapping the builds swaps added with removed and the two sides of a change. */
  lemma SwapSwapsLines(
      d: ParamsDiff, e: ParamsDiff, a: map<string, string>, b: map<string, string>, k: string, v: string, w: string)
    requires IsDiff(d, a, b) && IsDiff(e, b, a)
    ensures Added(k, v) in d.added <==> Removed(k, v) in e.removed
    ensures Removed(k, v) in d.removed <==> Added(k, v) in e.added
    ensures Changed(k, v, w) in d.changed <==> Changed(k, w, v) in e.changed
  {
    assert IsAdded()(Added(k, v)) && IsRemoved()(Removed(k, v));
    assert IsChanged()(Changed(k, v, w)) && IsChanged()(Changed(k, w, v));
  }

  lemma SectionIsDetermined(
      x: seq<Line>, y: seq<Line>, a: map<string, string>, b: map<string, string>, kind: Line -> bool)
    requires Section(x, a, b, kind) && Section(y, a, b, kind)
    ensures Map(x, TextOf) == Map(y, TextOf)
  {
    assert forall l :: l in x <==> l in y;
    DistinctSameSetSameMultiset(x, y);
    MapOfPermutation(x, y, TextOf);
    var s, t := Map(x, TextOf), Map(y, TextOf);
    forall i, j | 0 <= i < j < |x| ensures LexLe(s[i], s[j]) {
      assert ByText(x[i], x[j]);
    }
    forall i, j | 0 <= i < j < |y| ensures LexLe(t[i], t[j]) {
      assert ByText(y[i], y[j]);
    }
    SortedStringsUnique(s, t);
  }

  lemma SortedStringsUnique(s: seq<string>, t: seq<string>)
    requires SortedBy(s, LexLe) && SortedBy(t, LexLe) && multiset(s) == multiset(t)
    ensures s == t
  {
    forall i, j | 0 <= i < |s| && 0 <= j < |s| && LexLe(s[i], s[j]) && LexLe(s[j], s[i]) ensures s[i] == s[j] {
      LexTotal(s[i], s[j]);
    }
    SortedUnique(s, t, LexLe);
  }

  /** The printed lines do not depend on the order in which the maps are walked. */
  lemma DiffTextIsDetermined(d: ParamsDiff, e: ParamsDiff, a: map<string, string>, b: map<string, string>)
    requires IsDiff(d, a, b) && IsDiff(e, a, b)
    ensures Map(d.removed, TextOf) == Map(e.removed, TextOf)
    ensures Map(d.added, TextOf) == Map(e.added, TextOf)
    ensures Map(d.changed, TextOf) == Map(e.changed, TextOf)
  {
    SectionIsDetermined(d.removed, e.removed, a, b, IsRemoved());
    SectionIsDetermined(d.added, e.added, a, b, IsAdded());
    SectionIsDetermined(d.changed, e.changed, a, b, IsChanged());
  }

  // ---- tests ----

  type Tests = map<string, Flips.State>

  /** The last state under each full name, unknown states included. */
  function TestsOf(cases: seq<Flips.Case>): Tests {
    if cases == [] then map[]
    else
      var c := cases[|cases| - 1];
      TestsOf(cases[..|cases| - 1])[c.FullName() := Flips.Normalize(c.status)]
  }

  /** Case i is the last one with that full name. */
  ghost predicate LastCaseAt(cases: seq<Flips.Case>, name: string, i: nat) {
    && i < |cases| && cases[i].className + "." + cases[i].name == name
    && forall j :: i < j < |cases| ==> cases[j].className + "." + cases[j].name != name
  }

  /** tests holds exactly the full names of the cases, each with its last case's state. */
  ghost predicate HoldsLastStates(tests: Tests, cases: seq<Flips.Case>) {
    && (forall i :: 0 <= i < |cases| ==> cases[i].className + "." + cases[i].name in tests)
    && (forall name :: name in tests ==> LastStateIs(cases, name, tests[name]))
  }

  ghost predicate LastStateIs(cases: seq<Flips.Case>, name: string, s: Flips.State) {
    exists i: nat :: LastCaseAt(cases, name, i) && Flips.Normalize(cases[i].status) == s
  }

  lemma {:induction false} LastStateHeld(cases: seq<Flips.Case>, name: string)
    ensures forall i :: 0 <= i < |cases| && cases[i].className + "." + cases[i].name == name ==> name in TestsOf(cases)
    ensures name in TestsOf(cases) ==> LastStateIs(cases, name, TestsOf(cases)[name])
  {
    if cases == [] {
    } else {
      var n := |cases| - 1;
      LastStateHeld(cases[..n], name);
      assert forall i :: 0 <= i < n ==> cases[..n][i] == cases[i];
      if name == cases[n].className + "." + cases[n].name {
        assert LastCaseAt(cases, name, n);
      } else if name in TestsOf(cases) {
        var i: nat :| LastCaseAt(cases[..n], name, i)
                   && Flips.Normalize(cases[..n][i].status) == TestsOf(cases)[name];
        assert LastCaseAt(cases, name, i);
      }
    }
  }

  lemma TestsHoldLastStates(cases: seq<Flips.Case>)
    ensures HoldsLastStates(TestsOf(cases), cases)
  {
    forall i | 0 <= i < |cases| ensures cases[i].className + "." + cases[i].name in TestsOf(cases) {
      LastStateHeld(cases, cases[i].className + "." + cases[i].name);
    }
    forall name | name in TestsOf(cases) ensures LastStateIs(cases, name, TestsOf(cases)[name]) {
      LastStateHeld(cases, name);
    }
  }

  method CollectTests(report: Option<seq<Flips.Case>>) returns (tests: Tests)
    ensures tests == if report.Some? then TestsOf(report.value) else map[]
    ensures report.Some? ==> HoldsLastStates(tests, report.value)
  {
    tests := map[];
    if report.None? {
      return;
    }
    var cases := report.value;
    for i := 0 to |cases|
      invariant tests == TestsOf(cases[..i])
    {
      assert cases[..i + 1][..i] == cases[..i];
      tests := tests[cases[i].FullName() := Flips.Normalize(cases[i].status)];
    }
    TestsHoldLastStates(cases);
    assert cases[..|cases|] == cases;
  }

  datatype Bucket = PassToFail | FailToPass | New | Gone

  /** The bucket a test name belongs to, if any. */
  function BucketOf(a: Tests, b: Tests, k: string): Option<Bucket> {
    if k in a && k in b then
      if a[k].Pass? && b[k].Fail? then Some(PassToFail)
      else if a[k].Fail? && b[k].Pass? then Some(FailToPass)
      else None
    else if k in b then Some(New)
    else if k in a then Some(Gone)
    else None
  }

  /** New tests are listed, and sorted, under a label that shows how they ended. */
  function LabelOf(b: Tests, k: string): string {
    if k in b && b[k].Fail? then k + " [FAILED]"
    else if k in b && b[k].Pass? then k + " [PASSED]"
    else k
  }

  datatype TestsDiff = TestsDiff(
      passToFail: seq<string>, failToPass: seq<string>, newTests: seq<string>, removed: seq<string>)

  /** names, in any order, are the tests of one bucket, each once. */
  ghost predicate Fills(names: seq<string>, a: Tests, b: Tests, bucket: Bucket) {
    Distinct(names) && forall k :: k in names <==> BucketOf(a, b, k) == Some(bucket)
  }

  ghost predicate IsBucket(names: seq<string>, a: Tests, b: Tests, bucket: Bucket) {
    Fills(names, a, b, bucket) && SortedBy(names, LexLe)
  }

  ghost predicate IsTestsDiff(d: TestsDiff, a: Tests, b: Tests) {
    && IsBucket(d.passToFail, a, b, PassToFail)
    && IsBucket(d.failToPass, a, b, FailToPass)
    && IsBucket(d.removed, a, b, Gone)
    && SortedBy(d.newTests, LexLe)
    && exists names :: LabelsNew(d, a, b, names)
  }

  /** The listed labels are those of the new tests. */
  ghost predicate LabelsNew(d: TestsDiff, a: Tests, b: Tests, names: seq<string>) {
    Fills(names, a, b, New) && multiset(d.newTests) == multiset(Map(names, Labeller(b)))
  }

  function Labeller(b: Tests): string -> string {
    (k: string) => LabelOf(b, k)
  }

  ghost predicate PartBucket(names: seq<string>, a: Tests, b: Tests, bucket: Bucket, seen: set<string>) {
    Distinct(names) && forall k :: k in names <==> k in seen && BucketOf(a, b, k) == Some(bucket)
  }

  method RenderTestsDiff(a: Tests, b: Tests) returns (d: TestsDiff)
    ensures IsTestsDiff(d, a, b)
  {
    var passToFail, failToPass, newTests := WalkB(a, b);
    var removed := WalkA(a, b);
    ghost var names :| Fills(names, a, b, New) && Map(names, Labeller(b)) == newTests;
    LexIsTotalPreorder();
    passToFail := SortNames(passToFail, a, b, PassToFail);
    failToPass := SortNames(failToPass, a, b, FailToPass);
    newTests := SortBy(newTests, LexLe);
    removed := SortNames(removed, a, b, Gone);
    d := TestsDiff(passToFail, failToPass, newTests, removed);
    assert LabelsNew(d, a, b, names);
  }

  method SortNames(names: seq<string>, ghost a: Tests, ghost b: Tests, ghost bucket: Bucket)
    returns (sorted: seq<string>)
    requires Fills(names, a, b, bucket)
    ensures IsBucket(sorted, a, b, bucket)
  {
    LexIsTotalPreorder();
    sorted := SortBy(names, LexLe);
    DistinctOfMultiset(names, sorted);
    SameElements(names, sorted);
  }

  method WalkB(a: Tests, b: Tests) returns (passToFail: seq<string>, failToPass: seq<string>, labels: seq<string>)
    ensures Fills(passToFail, a, b, PassToFail) && Fills(failToPass, a, b, FailToPass)
    ensures exists names :: Fills(names, a, b, New) && Map(names, Labeller(b)) == labels
  {
    passToFail, failToPass, labels := [], [], [];
    ghost var names: seq<string> := [];
    var pending := b.Keys;
    while pending != {}
      invariant pending <= b.Keys
      invariant PartBucket(passToFail, a, b, PassToFail, b.Keys - pending)
      invariant PartBucket(failToPass, a, b, FailToPass, b.Keys - pending)
      invariant PartBucket(names, a, b, New, b.Keys - pending)
      invariant Map(names, Labeller(b)) == labels
      decreases pending
    {
      var k :| k in pending;
      pending := pending - {k};
      if k !in a {
        labels := labels + [LabelOf(b, k)];
        names := names + [k];
      } else if a[k].Pass? && b[k].Fail? {
        passToFail := passToFail + [k];
      } else if a[k].Fail? && b[k].Pass? {
        failToPass := failToPass + [k];
      }
    }
    assert Fills(names, a, b, New);
  }

  method WalkA(a: Tests, b: Tests) returns (removed: seq<string>)
    ensures Fills(removed, a, b, Gone)
  {
    removed := [];
    var pending := a.Keys;
    while pending != {}
      invariant pending <= a.Keys
      invariant PartBucket(removed, a, b, Gone, a.Keys - pending)
      decreases pending
    {
      var k :| k in pending;
      pending := pending - {k};
      if k !in b {
        removed := removed + [k];
      }
    }
  }

  /** k is a test only build B has, and `shown` is how it is listed. */
  ghost predicate IsNewUnder(a: Tests, b: Tests, k: string, shown: string) {
    && k in b && k !in a
    && shown == match b[k]
                case Fail => k + " [FAILED]"
                case Pass => k + " [PASSED]"
                case _ => k
  }

  /** The lists are, in byte order, the tests that went from passed to failed, those that
      went from failed to passed, and those that only build A has. */
  lemma BucketsAreExact(d: TestsDiff, a: Tests, b: Tests, k: string)
    requires IsTestsDiff(d, a, b)
    ensures k in d.passToFail <==> k in a && k in b && a[k] == Flips.Pass && b[k] == Flips.Fail
    ensures k in d.failToPass <==> k in a && k in b && a[k] == Flips.Fail && b[k] == Flips.Pass
    ensures k in d.removed <==> k in a && k !in b
    ensures Distinct(d.passToFail) && Distinct(d.failToPass) && Distinct(d.removed)
  {
  }

  /** No test name is in two of the unlabelled lists, and a test that is new is in none
      of them. */
  lemma BucketsAreDisjoint(d: TestsDiff, a: Tests, b: Tests)
    requires IsTestsDiff(d, a, b)
    ensures forall k :: k in d.passToFail ==> k !in d.failToPass && k !in d.removed && k in a
    ensures forall k :: k in d.failToPass ==> k !in d.removed && k in a
    ensures forall k :: k in d.removed <==> k in a && k !in b
  {
  }

  ghost predicate HasNew(a: Tests, b: Tests, shown: string) {
    exists k :: IsNewUnder(a, b, k, shown)
  }

  /** The labels listed as new are exactly those of the tests only build B has, one for
      each of them. */
  lemma NewTestsAreLabelled(d: TestsDiff, a: Tests, b: Tests)
    requires IsTestsDiff(d, a, b)
    ensures forall shown :: shown in d.newTests <==> HasNew(a, b, shown)
    ensures |d.newTests| == |b.Keys - a.Keys|
  {
    var names :| LabelsNew(d, a, b, names);
    var labels := Map(names, Labeller(b));
    SameElements(d.newTests, labels);
    forall shown ensures shown in d.newTests <==> HasNew(a, b, shown) {
      LabelsAreOfNew(a, b, names, shown);
    }
    DistinctSize(names, b.Keys - a.Keys);
  }

  lemma LabelsAreOfNew(a: Tests, b: Tests, names: seq<string>, shown: string)
    requires Fills(names, a, b, New)
    ensures shown in Map(names, Labeller(b)) <==> HasNew(a, b, shown)
  {
    var labels := Map(names, Labeller(b));
    if shown in labels {
      var i :| 0 <= i < |labels| && labels[i] == shown;
      assert names[i] in names;
      assert IsNewUnder(a, b, names[i], shown);
    }
    if k :| IsNewUnder(a, b, k, shown) {
      assert k in names;
      var i :| 0 <= i < |names| && names[i] == k;
      assert labels[i] == shown;
    }
  }

  lemma {:induction false} DistinctSize(xs: seq<string>, s: set<string>)
    requires Distinct(xs) && forall x :: x in xs <==> x in s
    ensures |xs| == |s|
  {
    if xs == [] {
      assert s == {};
    } else {
      var n := |xs| - 1;
      assert xs[n] in xs;
      forall x ensures x in xs[..n] <==> x in s - {xs[n]} {
        assert x in xs <==> x in xs[..n] || x == xs[n];
      }
      DistinctSize(xs[..n], s - {xs[n]});
    }
  }

  /** Swapping the builds swaps the two transition lists, and turns the removed tests
      into the new ones. */
  lemma SwapSwapsBuckets(d: TestsDiff, e: TestsDiff, a: Tests, b: Tests)
    requires IsTestsDiff(d, a, b) && IsTestsDiff(e, b, a)
    ensures d.passToFail == e.failToPass && d.failToPass == e.passToFail
    ensures multiset(e.newTests) == multiset(Map(d.removed, Labeller(a)))
    ensures multiset(d.newTests) == multiset(Map(e.removed, Labeller(b)))
  {
    SameBucket(d.passToFail, e.failToPass);
    SameBucket(d.failToPass, e.passToFail);
    RemovedBecomesNew(d, e, a, b);
    RemovedBecomesNew(e, d, b, a);
  }

  lemma RemovedBecomesNew(d: TestsDiff, e: TestsDiff, a: Tests, b: Tests)
    requires IsTestsDiff(d, a, b) && IsTestsDiff(e, b, a)
    ensures multiset(e.newTests) == multiset(Map(d.removed, Labeller(a)))
  {
    var names :| LabelsNew(e, b, a, names);
    assert forall k :: k in names <==> k in d.removed;
    DistinctSameSetSameMultiset(names, d.removed);
    MapOfPermutation(names, d.removed, Labeller(a));
  }

  lemma SameBucket(x: seq<string>, y: seq<string>)
    requires Distinct(x) && Distinct(y) && SortedBy(x, LexLe) && SortedBy(y, LexLe)
    requires forall k :: k in x <==> k in y
    ensures x == y
  {
    DistinctSameSetSameMultiset(x, y);
    SortedStringsUnique(x, y);
  }

  /** The four lists do not depend on the order in which the maps are walked. */
  lemma TestsDiffIsDetermined(d: TestsDiff, e: TestsDiff, a: Tests, b: Tests)
    requires IsTestsDiff(d, a, b) && IsTestsDiff(e, a, b)
    ensures d == e
  {
    SameBucket(d.passToFail, e.passToFail);
    SameBucket(d.failToPass, e.failToPass);
    SameBucket(d.removed, e.removed);
    var m :| LabelsNew(d, a, b, m);
    var n :| LabelsNew(e, a, b, n);
    assert forall k :: k in m <==> k in n;
    DistinctSameSetSameMultiset(m, n);
    MapOfPermutation(m, n, Labeller(b));
    SortedStringsUnique(d.newTests, e.newTests);
  }

  // ---- stages ----

  datatype Stage = Stage(name: string, status: string)

  /** The last status of each stage name. */
  function Statuses(stages: seq<Stage>): map<string, string> {
    if stages == [] then map[]
    else
      var s := stages[|stages| - 1];
      Statuses(stages[..|stages| - 1])[s.name := s.status]
  }

  /** Stage i is the last one of that name. */
  ghost predicate LastOfName(stages: seq<Stage>, name: string, i: nat) {
    i < |stages| && stages[i].name == name && forall j :: i < j < |stages| ==> stages[j].name != name
  }

  /** o is the status of the last stage of that name, or None when there is none. */
  ghost predicate IsLastStatus(stages: seq<Stage>, name: string, o: Option<string>) {
    match o
    case None => forall i :: 0 <= i < |stages| ==> stages[i].name != name
    case Some(status) => exists i: nat :: LastOfName(stages, name, i) && stages[i].status == status
  }

  lemma {:induction false} StatusesHoldLast(stages: seq<Stage>, name: string)
    ensures IsLastStatus(stages, name, Lookup(Statuses(stages), name))
  {
    if stages == [] {
    } else {
      var n := |stages| - 1;
      var o := Lookup(Statuses(stages), name);
      StatusesHoldLast(stages[..n], name);
      assert forall i :: 0 <= i < n ==> stages[..n][i] == stages[i];
      if stages[n].name == name {
        assert LastOfName(stages, name, n);
      } else if o.Some? {
        var i: nat :| LastOfName(stages[..n], name, i) && stages[..n][i].status == o.value;
        assert LastOfName(stages, name, i);
      }
    }
  }

  lemma OneLastStatus(stages: seq<Stage>, name: string, o: Option<string>, p: Option<string>)
    requires IsLastStatus(stages, name, o) && IsLastStatus(stages, name, p)
    ensures o == p
  {
    if o.Some? && p.Some? {
      var i: nat :| LastOfName(stages, name, i) && stages[i].status == o.value;
      var j: nat :| LastOfName(stages, name, j) && stages[j].status == p.value;
      assert i == j;
    }
  }

  /** The stage ends alike in both builds, or is in neither. */
  ghost predicate EndsAlike(a: seq<Stage>, b: seq<Stage>, name: string) {
    exists o :: IsLastStatus(a, name, o) && IsLastStatus(b, name, o)
  }

  lemma EndsAlikeExactly(a: seq<Stage>, b: seq<Stage>, name: string)
    ensures EndsAlike(a, b, name) <==> Lookup(Statuses(a), name) == Lookup(Statuses(b), name)
  {
    StatusesHoldLast(a, name);
    StatusesHoldLast(b, name);
    if o :| IsLastStatus(a, name, o) && IsLastStatus(b, name, o) {
      OneLastStatus(a, name, o, Lookup(Statuses(a), name));
      OneLastStatus(b, name, o, Lookup(Statuses(b), name));
    }
  }

  /** changed reports, in the order of names, exactly those that do not end alike, each
      with its last status in either build. */
  ghost predicate ReportsStages(changed: seq<StageChange>, names: seq<string>, a: seq<Stage>, b: seq<Stage>) {
    exists at :: ReportsAt(changed, names, a, b, at)
  }

  ghost predicate ReportsAt(
      changed: seq<StageChange>, names: seq<string>, a: seq<Stage>, b: seq<Stage>, at: seq<nat>)
  {
    && |at| == |changed|
    && (forall k :: 0 <= k < |at| ==> at[k] < |names| && IsChange(changed[k], names[at[k]], a, b))
    && (forall k, l :: 0 <= k < l < |at| ==> at[k] < at[l])
    && (forall i :: 0 <= i < |names| ==> (i in at <==> !EndsAlike(a, b, names[i])))
  }

  ghost predicate IsChange(c: StageChange, name: string, a: seq<Stage>, b: seq<Stage>) {
    && c.name == name && c.before != c.after
    && IsLastStatus(a, name, c.before) && IsLastStatus(b, name, c.after)
  }

  lemma {:induction false} ChangesReport(names: seq<string>, a: seq<Stage>, b: seq<Stage>) returns (at: seq<nat>)
    ensures ReportsAt(Changes(names, Statuses(a), Statuses(b)), names, a, b, at)
  {
    if names == [] {
      at := [];
    } else {
      var n := |names| - 1;
      var before := ChangesReport(names[..n], a, b);
      EndsAlikeExactly(a, b, names[n]);
      StatusesHoldLast(a, names[n]);
      StatusesHoldLast(b, names[n]);
      at := before + if EndsAlike(a, b, names[n]) then [] else [n];
      forall i | 0 <= i < |names| ensures i in at <==> !EndsAlike(a, b, names[i]) {
        if i < n {
          assert names[..n][i] == names[i] && (i in at <==> i in before);
        } else {
          assert n !in before && (!EndsAlike(a, b, names[n]) ==> at[|before|] == n);
        }
      }
    }
  }

  /** ordered lists each stage name of the stages where it comes first. */
  ghost predicate NamesInOrder(ordered: seq<string>, stages: seq<Stage>) {
    exists at :: NamesAt(ordered, stages, at)
  }

  ghost predicate NamesAt(ordered: seq<string>, stages: seq<Stage>, at: seq<nat>) {
    && |at| == |ordered|
    && (forall k :: 0 <= k < |at| ==> at[k] < |stages| && ordered[k] == stages[at[k]].name)
    && (forall k, l :: 0 <= k < l < |at| ==> at[k] < at[l])
    && (forall i :: 0 <= i < |stages| ==> (i in at <==> FirstOfName(stages, i)))
  }

  ghost predicate FirstOfName(stages: seq<Stage>, i: nat)
    requires i < |stages|
  {
    forall j :: 0 <= j < i ==> stages[j].name != stages[i].name
  }

  lemma OrderIsFirstNames(stages: seq<Stage>)
    ensures NamesInOrder(FirstOccurrences(Map(stages, StageName), Self), stages)
  {
    var names := Map(stages, StageName);
    var at := FirstOccurrencesAt(names, Self);
    forall i | 0 <= i < |stages| ensures IsFirst(names, Self, i) <==> FirstOfName(stages, i) {
      assert forall j :: 0 <= j <= i ==> Self(names[j]) == stages[j].name;
    }
    assert NamesAt(FirstOccurrences(names, Self), stages, at);
  }

  function StageName(s: Stage): string {
    s.name
  }

  function Self(name: string): string {
    name
  }

  datatype StageChange = StageChange(name: string, before: Option<string>, after: Option<string>)

  function Lookup(m: map<string, string>, k: string): Option<string> {
    if k in m then Some(m[k]) else None
  }

  function Changes(names: seq<string>, a: map<string, string>, b: map<string, string>): seq<StageChange> {
    if names == [] then []
    else
      var k := names[|names| - 1];
      Changes(names[..|names| - 1], a, b)
      + if Lookup(a, k) != Lookup(b, k) then [StageChange(k, Lookup(a, k), Lookup(b, k))] else []
  }

  method CollectStatuses(stages: seq<Stage>) returns (m: map<string, string>)
    ensures m == Statuses(stages)
  {
    m := map[];
    for i := 0 to |stages|
      invariant m == Statuses(stages[..i])
    {
      assert stages[..i + 1][..i] == stages[..i];
      m := m[stages[i].name := stages[i].status];
    }
    assert stages[..|stages|] == stages;
  }

  method RenderStagesDiff(a: seq<Stage>, b: seq<Stage>) returns (ordered: seq<string>, changed: seq<StageChange>)
    ensures ordered == FirstOccurrences(Map(b + a, StageName), Self)
    ensures changed == Changes(ordered, Statuses(a), Statuses(b))
    ensures NamesInOrder(ordered, b + a) && ReportsStages(changed, ordered, a, b)
  {
    var aMap := CollectStatuses(a);
    var bMap := CollectStatuses(b);
    var seen: set<string> := {};
    ordered := [];
    assert b[..0] == [] && Map(b[..0], StageName) == [];
    ordered, seen := AddNames(ordered, seen, b, []);
    assert [] + b == b;
    ordered, seen := AddNames(ordered, seen, a, b);
    changed := ChangedStages(ordered, aMap, bMap);
    OrderIsFirstNames(b + a);
    var _ := ChangesReport(ordered, a, b);
  }

  method ChangedStages(ordered: seq<string>, aMap: map<string, string>, bMap: map<string, string>)
    returns (changed: seq<StageChange>)
    ensures changed == Changes(ordered, aMap, bMap)
  {
    changed := [];
    for i := 0 to |ordered|
      invariant changed == Changes(ordered[..i], aMap, bMap)
    {
      var name := ordered[i];
      assert ordered[..i + 1][..i] == ordered[..i];
      if name in aMap && name in bMap {
        if aMap[name] != bMap[name] {
          changed := changed + [StageChange(name, Some(aMap[name]), Some(bMap[name]))];
        }
      } else if name in bMap {
        changed := changed + [StageChange(name, None, Some(bMap[name]))];
      } else if name in aMap {
        changed := changed + [StageChange(name, Some(aMap[name]), None)];
      }
    }
    assert ordered[..|ordered|] == ordered;
  }

  /** ordered holds each stage name of done once, seen the same names. */
  ghost predicate InOrder(ordered: seq<string>, seen: set<string>, done: seq<Stage>) {
    && ordered == FirstOccurrences(Map(done, StageName), Self)
    && forall k :: k in seen <==> Named(done, k)
  }

  ghost predicate Named(stages: seq<Stage>, k: string) {
    exists i :: 0 <= i < |stages| && stages[i].name == k
  }

  method AddNames(names: seq<string>, known: set<string>, stages: seq<Stage>, ghost done: seq<Stage>)
    returns (ordered: seq<string>, seen: set<string>)
    requires InOrder(names, known, done)
    ensures InOrder(ordered, seen, done + stages)
  {
    ordered, seen := names, known;
    assert done + stages[..0] == done;
    for i := 0 to |stages|
      invariant InOrder(ordered, seen, done + stages[..i])
    {
      OneMoreStage(ordered, seen, done + stages[..i], stages[i]);
      assert done + stages[..i] + [stages[i]] == done + stages[..i + 1];
      if stages[i].name !in seen {
        ordered := ordered + [stages[i].name];
        seen := seen + {stages[i].name};
      }
    }
    assert stages[..|stages|] == stages;
  }

  lemma OneMoreStage(ordered: seq<string>, seen: set<string>, done: seq<Stage>, s: Stage)
    requires InOrder(ordered, seen, done)
    ensures s.name in seen ==> InOrder(ordered, seen, done + [s])
    ensures s.name !in seen ==> InOrder(ordered + [s.name], seen + {s.name}, done + [s])
  {
    var more := done + [s];
    var names := Map(more, StageName);
    assert names[..|done|] == Map(done, StageName);
    if s.name in seen {
      var i :| 0 <= i < |done| && done[i].name == s.name;
      assert names[i] == s.name;
    }
    assert IsFirst(names, Self, |done|) <==> s.name !in seen by {
      if s.name !in seen {
        forall j | 0 <= j < |done| ensures names[j] != s.name {
          assert done[j].name == names[j];
          assert Named(done, names[j]);
        }
      }
    }
    forall k ensures Named(more, k) <==> Named(done, k) || k == s.name {
      if Named(done, k) {
        var i :| 0 <= i < |done| && done[i].name == k;
        assert more[i].name == k;
      }
      assert more[|done|].name == s.name;
    }
  }

  function NotIn(names: seq<string>): string -> bool {
    (k: string) => k !in names
  }

  lemma FirstOccurrencesSnoc(xs: seq<string>, y: string)
    ensures FirstOccurrences(xs + [y], Self) == FirstOccurrences(xs, Self) + if y in xs then [] else [y]
  {
    var all := xs + [y];
    assert all[..|xs|] == xs;
    assert forall j :: 0 <= j < |xs| ==> Self(all[j]) == xs[j];
    if y in xs {
      var j :| 0 <= j < |xs| && xs[j] == y;
      assert Self(all[j]) == Self(all[|xs|]);
    }
  }

  lemma FilterSnoc(front: seq<string>, y: string, p: string -> bool)
    ensures Filter(front + [y], p) == Filter(front, p) + if p(y) then [y] else []
  {
    assert (front + [y])[..|front|] == front;
  }

  lemma SplitStep(first: seq<string>, second: seq<string>, y: string, known: bool, p: string -> bool)
    ensures first + Filter(second, p) + (if known || !p(y) then [] else [y])
         == first + Filter(second + (if known then [] else [y]), p)
  {
    if known {
      assert second + [] == second;
    } else {
      FilterSnoc(second, y, p);
      ConcatAssociates(first, Filter(second, p), if p(y) then [y] else []);
    }
  }

  lemma SplitOneMore(xs: seq<string>, front: seq<string>, y: string)
    requires FirstOccurrences(xs + front, Self) ==
      FirstOccurrences(xs, Self) + Filter(FirstOccurrences(front, Self), NotIn(xs))
    ensures FirstOccurrences(xs + front + [y], Self) ==
      FirstOccurrences(xs, Self) + Filter(FirstOccurrences(front + [y], Self), NotIn(xs))
  {
    var first, second := FirstOccurrences(xs, Self), FirstOccurrences(front, Self);
    FirstOccurrencesSnoc(xs + front, y);
    FirstOccurrencesSnoc(front, y);
    SplitStep(first, second, y, y in front, NotIn(xs));
  }

  /** Keeping first occurrences over two lists keeps those of the first, then those
      of the second that the first does not hold. */
  lemma {:induction false} FirstOccurrencesSplit(xs: seq<string>, ys: seq<string>)
    ensures FirstOccurrences(xs + ys, Self) ==
      FirstOccurrences(xs, Self) + Filter(FirstOccurrences(ys, Self), NotIn(xs))
    decreases |ys|
  {
    if ys == [] {
      assert xs + ys == xs;
    } else {
      var n := |ys| - 1;
      var y, front := ys[n], ys[..n];
      FirstOccurrencesSplit(xs, front);
      assert ys == front + [y] && xs + ys == xs + front + [y];
      SplitOneMore(xs, front, y);
    }
  }

  lemma {:induction false} FirstOccurrencesMembers(xs: seq<string>)
    ensures forall k :: k in FirstOccurrences(xs, Self) <==> k in xs
  {
    if xs == [] {
    } else {
      var n := |xs| - 1;
      FirstOccurrencesMembers(xs[..n]);
      assert xs == xs[..n] + [xs[n]];
      if !IsFirst(xs, Self, n) {
        var j :| 0 <= j < n && Self(xs[j]) == Self(xs[n]);
        assert xs[..n][j] == xs[n];
      }
    }
  }

  /** Every stage name of either build is listed exactly once: build B's names in
      order of first occurrence, then the names only build A has, in theirs. */
  lemma OrderedNames(a: seq<Stage>, b: seq<Stage>)
    ensures var namesA, namesB, ordered :=
        Map(a, StageName), Map(b, StageName), FirstOccurrences(Map(b + a, StageName), Self);
      && Distinct(ordered)
      && (forall k :: k in ordered <==> k in namesA || k in namesB)
      && ordered == FirstOccurrences(namesB, Self) + Filter(FirstOccurrences(namesA, Self), NotIn(namesB))
  {
    var names := Map(b + a, StageName);
    assert names == Map(b, StageName) + Map(a, StageName);
    FirstOccurrencesDistinct(names, Self);
    FirstOccurrencesMembers(names);
    FirstOccurrencesSplit(Map(b, StageName), Map(a, StageName));
  }

  function ChangedName(c: StageChange): string {
    c.name
  }

  /** The last status differs, or the stage exists in one build only. */
  function Differs(a: map<string, string>, b: map<string, string>): string -> bool {
    (k: string) => if k in a && k in b then a[k] != b[k] else k in a || k in b
  }

  /** The reported stages are exactly those that differ, in list order, each with its
      status on both sides. */
  lemma {:induction false} ChangesAreExact(names: seq<string>, a: map<string, string>, b: map<string, string>)
    ensures Map(Changes(names, a, b), ChangedName) == Filter(names, Differs(a, b))
    ensures forall c :: c in Changes(names, a, b) ==>
      c.before == Lookup(a, c.name) && c.after == Lookup(b, c.name) && c.before != c.after
  {
    if names == [] {
    } else {
      var n := |names| - 1;
      ChangesAreExact(names[..n], a, b);
      assert Differs(a, b)(names[n]) <==> Lookup(a, names[n]) != Lookup(b, names[n]);
    }
  }
}
