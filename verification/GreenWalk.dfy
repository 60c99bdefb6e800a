/** Commits since the last green build: a walk over `previousCompletedBuild`
    pointers that may point anywhere, and the commit lists rendered from it. */
module GreenWalk {
  import opened Sequences

  datatype Commit = Commit(id: string, info: string, files: seq<string>)

  datatype ChangeSet = ChangeSet(kind: string, items: seq<Commit>)

  datatype Build = Build(changeSets: seq<ChangeSet>, previousCompleted: Option<int>)

  /** What each build number answers; a request for any other number fails. */
  type Builds = map<int, Build>

  function IdOf(c: Commit): string {
    c.id
  }

  function ItemsOf(sets: seq<ChangeSet>): seq<Commit> {
    if sets == [] then [] else ItemsOf(sets[..|sets| - 1]) + sets[|sets| - 1].items
  }

  lemma {:induction false} ItemsAreFlat(sets: seq<ChangeSet>)
    ensures ItemsOf(sets) == Flatten(Map(sets, (s: ChangeSet) => s.items))
  {
    var rows := Map(sets, (s: ChangeSet) => s.items);
    if sets == [] {
    } else {
      var n := |sets| - 1;
      ItemsAreFlat(sets[..n]);
      assert rows[..n] == Map(sets[..n], (s: ChangeSet) => s.items);
    }
  }

  // ---- which builds are visited ----

  /** The builds visited from cur on, or None when a request fails. */
  function Path(builds: Builds, g: int, cur: int, visited: set<int>): Option<seq<int>>
    decreases builds.Keys - visited
  {
    if cur <= g || cur in visited then Some([])
    else if cur !in builds then None
    else
      var previous := builds[cur].previousCompleted;
      if previous.None? || previous.value <= g then Some([cur])
      else
        assert cur in builds.Keys - visited;
        match Path(builds, g, previous.value, visited + {cur})
        case None => None
        case Some(rest) => Some([cur] + rest)
  }

  function Continues(builds: Builds, g: int, last: int): Option<int>
    requires last in builds
  {
    var p := builds[last].previousCompleted;
    if p.Some? && p.value > g then p else None
  }

  /** p visits known builds above g, each once, following the pointers, and stops
      only where a pointer is missing, at or below g, or already visited. */
  ghost predicate IsWalk(builds: Builds, g: int, cur: int, visited: set<int>, p: seq<int>) {
    if cur <= g || cur in visited then p == []
    else
      && p != [] && p[0] == cur
      && (forall i :: 0 <= i < |p| ==> p[i] in builds && p[i] > g && p[i] !in visited)
      && Distinct(p)
      && (forall i :: 0 <= i < |p| - 1 ==> Continues(builds, g, p[i]) == Some(p[i + 1]))
      && (var next := Continues(builds, g, p[|p| - 1]); next.None? || next.value in visited || next.value in p)
  }

  /** The visited builds are the one walk there is. */
  lemma {:induction false} PathIsTheWalk(builds: Builds, g: int, cur: int, visited: set<int>, p: seq<int>)
    ensures Path(builds, g, cur, visited) == Some(p) <==> IsWalk(builds, g, cur, visited, p)
    decreases builds.Keys - visited
  {
    if cur <= g || cur in visited || cur !in builds {
    } else {
      assert cur in builds.Keys - visited;
      var next := Continues(builds, g, cur);
      if next.None? {
        assert p == [cur] || p == [] || p[0] != cur || |p| > 1;
        if IsWalk(builds, g, cur, visited, p) && |p| > 1 {
          SecondIsContinuation(builds, g, cur, visited, p);
        }
        assert [cur][0] == cur;
      } else {
        var sub := Path(builds, g, next.value, visited + {cur});
        if sub.Some? {
          assert ([cur] + sub.value)[0] == cur && ([cur] + sub.value)[1..] == sub.value;
        }
        if p != [] && p[0] == cur {
          assert p == [cur] + p[1..];
          PathIsTheWalk(builds, g, next.value, visited + {cur}, p[1..]);
          WalkUnfolds(builds, g, cur, visited, p);
        }
      }
    }
  }

  lemma SecondIsContinuation(builds: Builds, g: int, cur: int, visited: set<int>, p: seq<int>)
    requires IsWalk(builds, g, cur, visited, p) && |p| > 1
    ensures cur in builds && Continues(builds, g, cur) == Some(p[1])
  {
    assert Continues(builds, g, p[0]) == Some(p[1]);
  }

  lemma WalkUnfolds(builds: Builds, g: int, cur: int, visited: set<int>, p: seq<int>)
    requires cur > g && cur !in visited && cur in builds && p != [] && p[0] == cur
    requires Continues(builds, g, cur).Some?
    ensures IsWalk(builds, g, cur, visited, p)
       <==> IsWalk(builds, g, Continues(builds, g, cur).value, visited + {cur}, p[1..])
  {
    var next, below, rest := Continues(builds, g, cur).value, visited + {cur}, p[1..];
    if IsWalk(builds, g, cur, visited, p) {
      WalkTail(builds, g, cur, visited, p);
    }
    if IsWalk(builds, g, next, below, rest) {
      assert forall i :: 0 < i < |p| ==> p[i] == rest[i - 1];
      assert rest != [] ==> p[|p| - 1] == rest[|rest| - 1];
    }
  }

  lemma WalkTail(builds: Builds, g: int, cur: int, visited: set<int>, p: seq<int>)
    requires cur > g && cur !in visited && cur in builds && IsWalk(builds, g, cur, visited, p)
    requires Continues(builds, g, cur).Some?
    ensures IsWalk(builds, g, Continues(builds, g, cur).value, visited + {cur}, p[1..])
  {
    var next, rest := Continues(builds, g, cur).value, p[1..];
    assert forall i :: 0 <= i < |rest| ==> rest[i] == p[i + 1];
    if rest == [] {
      assert p == [cur];
    } else {
      assert Continues(builds, g, p[0]) == Some(p[1]);
      var last := Continues(builds, g, p[|p| - 1]);
      if last.Some? && last.value in p && last.value != cur {
        var i :| 0 <= i < |p| && p[i] == last.value;
        assert rest[i - 1] == last.value;
      }
    }
  }

  /** Whatever the pointers say, no more builds are visited than there are. */
  lemma {:induction false} WalkIsBounded(builds: Builds, g: int, cur: int, visited: set<int>)
    ensures var p := Path(builds, g, cur, visited); p.Some? ==> |p.value| <= |builds.Keys - visited|
    decreases builds.Keys - visited
  {
    if cur <= g || cur in visited || cur !in builds {
    } else {
      var left := builds.Keys - visited;
      assert cur in left;
      assert |left - {cur}| == |left| - 1;
      var next := Continues(builds, g, cur);
      if next.Some? {
        WalkIsBounded(builds, g, next.value, visited + {cur});
        assert builds.Keys - (visited + {cur}) == left - {cur};
      }
    }
  }

  // ---- the walk ----

  datatype Walked = Walked(commits: seq<Commit>, builds: nat) | Failed

  function ItemsAlong(builds: Builds, path: seq<int>): seq<Commit> {
    if path == [] then []
    else
      var last := path[|path| - 1];
      ItemsAlong(builds, path[..|path| - 1]) + if last in builds then ItemsOf(builds[last].changeSets) else []
  }

  /** The commits of a build: those of its change sets, set by set. */
  ghost function BuildItems(builds: Builds, b: int): seq<Commit> {
    if b in builds then Flatten(Map(builds[b].changeSets, (s: ChangeSet) => s.items)) else []
  }

  lemma {:induction false} AlongIsFlat(builds: Builds, path: seq<int>)
    ensures ItemsAlong(builds, path) == Flatten(Map(path, b => BuildItems(builds, b)))
  {
    var rows := Map(path, b => BuildItems(builds, b));
    if path == [] {
    } else {
      var n := |path| - 1;
      AlongIsFlat(builds, path[..n]);
      assert rows[..n] == Map(path[..n], b => BuildItems(builds, b));
      if path[n] in builds {
        ItemsAreFlat(builds[path[n]].changeSets);
      }
    }
  }

  /** unique is all read at exactly the positions whose id no earlier commit carries. */
  ghost predicate Deduplicated(unique: seq<Commit>, all: seq<Commit>) {
    exists at :: UniqueAt(unique, all, at)
  }

  ghost predicate UniqueAt(unique: seq<Commit>, all: seq<Commit>, at: seq<nat>) {
    && |at| == |unique|
    && (forall k :: 0 <= k < |at| ==> at[k] < |all| && unique[k] == all[at[k]])
    && (forall k, l :: 0 <= k < l < |at| ==> at[k] < at[l])
    && (forall i :: 0 <= i < |all| ==> (i in at <==> FirstOfId(all, i)))
  }

  ghost predicate FirstOfId(all: seq<Commit>, i: nat)
    requires i < |all|
  {
    forall j :: 0 <= j < i ==> all[j].id != all[i].id
  }

  lemma FirstOccurrencesAreDeduplicated(all: seq<Commit>)
    ensures Deduplicated(FirstOccurrences(all, IdOf), all)
  {
    var at := FirstOccurrencesAt(all, IdOf);
    forall i | 0 <= i < |all| ensures IsFirst(all, IdOf, i) <==> FirstOfId(all, i) {
    }
    assert UniqueAt(FirstOccurrences(all, IdOf), all, at);
  }

  /** The first-occurrence-by-id deduplication of the commits along the visited
      builds, in visiting order. Commits without an id share the id "". */
  method WalkChangesSinceLastGreen(builds: Builds, g: int, c: int) returns (r: Walked)
    ensures r.Failed? <==> Path(builds, g, c, {}).None?
    ensures r.Walked? ==>
      var path := Path(builds, g, c, {}).value;
      && r.builds == |path|
      && r.commits == FirstOccurrences(ItemsAlong(builds, path), IdOf)
      && Deduplicated(r.commits, ItemsAlong(builds, path))
  {
    var commits: seq<Commit> := [];
    var seen: set<string> := {};
    var visited: set<int> := {};
    var buildsWalked := 0;
    var cur := c;
    ghost var done: seq<int> := [];
    PrependNothing(Path(builds, g, c, {}));
    while cur > g
      invariant Path(builds, g, c, {}) == Prepend(done, Path(builds, g, cur, visited))
      invariant Deduped(commits, seen, ItemsAlong(builds, done))
      invariant buildsWalked == |done|
      decreases builds.Keys - visited
    {
      if cur in visited {
        break;
      }
      visited := visited + {cur};
      if cur !in builds {
        return Failed;
      }
      var b := builds[cur];
      buildsWalked := buildsWalked + 1;
      commits, seen := Union(commits, seen, b.changeSets, ItemsAlong(builds, done));
      ghost var before := done;
      done := done + [cur];
      assert done[..|done| - 1] == before;
      if b.previousCompleted.None? || b.previousCompleted.value <= g {
        FirstOccurrencesAreDeduplicated(ItemsAlong(builds, done));
        return Walked(commits, buildsWalked);
      }
      PrependMore(before, cur, Path(builds, g, b.previousCompleted.value, visited));
      cur := b.previousCompleted.value;
    }
    assert done + [] == done;
    FirstOccurrencesAreDeduplicated(ItemsAlong(builds, done));
    return Walked(commits, buildsWalked);
  }

  function Prepend(a: seq<int>, b: Option<seq<int>>): Option<seq<int>> {
    if b.None? then None else Some(a + b.value)
  }

  lemma PrependNothing(b: Option<seq<int>>)
    ensures Prepend([], b) == b
  {
    assert b.Some? ==> [] + b.value == b.value;
  }

  lemma PrependMore(a: seq<int>, x: int, b: Option<seq<int>>)
    ensures Prepend(a, Prepend([x], b)) == Prepend(a + [x], b)
  {
    if b.Some? {
      ConcatAssociates(a, [x], b.value);
    }
  }

  /** seen holds the ids of all, commits its first occurrences. */
  ghost predicate Deduped(commits: seq<Commit>, seen: set<string>, all: seq<Commit>) {
    && (forall i :: 0 <= i < |all| ==> all[i].id in seen)
    && (forall id :: id in seen ==> Carries(all, id))
    && commits == FirstOccurrences(all, IdOf)
  }

  ghost predicate Carries(all: seq<Commit>, id: string) {
    exists i :: 0 <= i < |all| && all[i].id == id
  }

  /** Adds one build's change sets to the commits kept so far. */
  method Union(kept: seq<Commit>, ids: set<string>, sets: seq<ChangeSet>, ghost all: seq<Commit>)
    returns (commits: seq<Commit>, seen: set<string>)
    requires Deduped(kept, ids, all)
    ensures Deduped(commits, seen, all + ItemsOf(sets))
  {
    commits, seen := kept, ids;
    assert all + [] == all;
    for i := 0 to |sets|
      invariant Deduped(commits, seen, all + ItemsOf(sets[..i]))
    {
      assert sets[..i + 1][..i] == sets[..i];
      commits, seen := AddItems(commits, seen, sets[i].items, all + ItemsOf(sets[..i]));
      ConcatAssociates(all, ItemsOf(sets[..i]), sets[i].items);
    }
    assert sets[..|sets|] == sets;
  }

  method AddItems(kept: seq<Commit>, ids: set<string>, items: seq<Commit>, ghost all: seq<Commit>)
    returns (commits: seq<Commit>, seen: set<string>)
    requires Deduped(kept, ids, all)
    ensures Deduped(commits, seen, all + items)
  {
    commits, seen := kept, ids;
    assert all + items[..0] == all;
    for j := 0 to |items|
      invariant Deduped(commits, seen, all + items[..j])
    {
      OneMore(commits, seen, all + items[..j], items[j]);
      assert all + items[..j] + [items[j]] == all + items[..j + 1];
      if items[j].id in seen {
        continue;
      }
      seen := seen + {items[j].id};
      commits := commits + [items[j]];
    }
    assert items[..|items|] == items;
  }

  lemma OneMore(commits: seq<Commit>, seen: set<string>, all: seq<Commit>, c: Commit)
    requires Deduped(commits, seen, all)
    ensures c.id in seen ==> Deduped(commits, seen, all + [c])
    ensures c.id !in seen ==> Deduped(commits + [c], seen + {c.id}, all + [c])
  {
    var more := all + [c];
    assert more[..|all|] == all;
    assert IsFirst(more, IdOf, |all|) <==> c.id !in seen by {
      assert forall j :: 0 <= j < |all| ==> more[j] == all[j];
      if c.id in seen {
        assert Carries(all, c.id);
        var i :| 0 <= i < |all| && all[i].id == c.id;
        assert more[i].id == c.id;
      }
    }
    forall id | id in seen + {c.id} ensures Carries(more, id) {
      if id in seen {
        assert Carries(all, id);
        var i :| 0 <= i < |all| && all[i].id == id;
        assert more[i].id == id;
      } else {
        assert more[|all|].id == id;
      }
    }
  }

  // ---- on a well-behaved job ----

  /** previousCompletedBuild of b is the greatest completed build below b. */
  ghost predicate PointsToPrevious(builds: Builds, completed: set<int>, b: int) {
    && b in builds
    && match builds[b].previousCompleted
       case None => forall x :: x in completed ==> x >= b
       case Some(p) => p in completed && p < b && forall x :: x in completed && x < b ==> x <= p
  }

  /** Then the walk visits exactly the completed builds in (g, c], newest first. */
  lemma {:induction false} VisitsCompletedDescending(
      builds: Builds, completed: set<int>, g: int, cur: int, visited: set<int>)
    requires forall b :: b in completed ==> PointsToPrevious(builds, completed, b)
    requires cur in completed && forall v :: v in visited ==> v > cur
    ensures var p := Path(builds, g, cur, visited);
      && p.Some?
      && (forall i, j :: 0 <= i < j < |p.value| ==> p.value[i] > p.value[j])
      && (forall b :: b in p.value <==> b in completed && g < b <= cur)
    decreases builds.Keys - visited
  {
    if cur <= g {
    } else {
      assert PointsToPrevious(builds, completed, cur);
      assert cur in builds.Keys - visited;
      var next := builds[cur].previousCompleted;
      if next.Some? && next.value > g {
        VisitsCompletedDescending(builds, completed, g, next.value, visited + {cur});
        var rest := Path(builds, g, next.value, visited + {cur}).value;
        assert Path(builds, g, cur, visited) == Some([cur] + rest);
        assert forall i :: 0 <= i < |rest| ==> rest[i] in rest;
        assert forall b :: b in [cur] + rest <==> b == cur || b in rest;
      }
    }
  }

  // ---- filtering and capping ----

  predicate Touches(c: Commit, pathRe: string -> bool) {
    exists f | f in c.files :: pathRe(f)
  }

  function Kept(items: seq<Commit>, pathRe: Option<string -> bool>): seq<Commit> {
    if pathRe.None? then items else Filter(items, (c: Commit) => Touches(c, pathRe.value))
  }

  /** keep is items read at exactly the positions whose commit has a matching file. */
  ghost predicate TouchingAt(keep: seq<Commit>, items: seq<Commit>, re: string -> bool, at: seq<nat>) {
    && |at| == |keep|
    && (forall k :: 0 <= k < |at| ==> at[k] < |items| && keep[k] == items[at[k]])
    && (forall k, l :: 0 <= k < l < |at| ==> at[k] < at[l])
    && (forall i :: 0 <= i < |items| ==> (i in at <==> exists f :: f in items[i].files && re(f)))
  }

  ghost predicate Filtered(keep: seq<Commit>, items: seq<Commit>, pathRe: Option<string -> bool>) {
    match pathRe
    case None => keep == items
    case Some(re) => exists at :: TouchingAt(keep, items, re, at)
  }

  lemma KeptIsFiltered(items: seq<Commit>, pathRe: Option<string -> bool>)
    ensures Filtered(Kept(items, pathRe), items, pathRe)
  {
    if pathRe.Some? {
      var at := FilterAt(items, (c: Commit) => Touches(c, pathRe.value));
      assert TouchingAt(Kept(items, pathRe), items, pathRe.value, at);
    }
  }

  method FilterCommitsByPath(items: seq<Commit>, pathRe: Option<string -> bool>) returns (keep: seq<Commit>)
    ensures keep == Kept(items, pathRe) && Filtered(keep, items, pathRe)
  {
    if pathRe.None? {
      return items;
    }
    ghost var touches := (c: Commit) => Touches(c, pathRe.value);
    keep := [];
    for i := 0 to |items|
      invariant keep == Filter(items[..i], touches)
    {
      assert items[..i + 1][..i] == items[..i];
      var files := items[i].files;
      var hit := false;
      for k := 0 to |files|
        invariant !hit
        invariant forall j :: 0 <= j < k ==> !pathRe.value(files[j])
      {
        if pathRe.value(files[k]) {
          hit := true;
          break;
        }
      }
      assert hit <==> Touches(items[i], pathRe.value);
      if hit {
        keep := keep + [items[i]];
      }
    }
    assert items[..|items|] == items;
    KeptIsFiltered(items, pathRe);
  }

  datatype Lookup = Number(n: int) | NotFound | LookupError

  const CHANGES_DEFAULT_MAX := 100

  datatype Report =
    | NoSuccessfulBuild | NoCompletedBuild | AllGreen(c: int)
    | Changes(commits: seq<Commit>, walked: nat, truncated: bool)
    | Error

  /** The report lists the first max_commits of the filtered, deduplicated commits along
      these builds. */
  ghost predicate Reports(builds: Builds, path: seq<int>, maxIn: int, pathRe: Option<string -> bool>, r: Report) {
    exists unique, kept ::
      && Deduplicated(unique, ItemsAlong(builds, path)) && Filtered(kept, unique, pathRe)
      && r == FirstOf(kept, if maxIn <= 0 then 100 else maxIn, |path|)
  }

  ghost function FirstOf(kept: seq<Commit>, max: nat, walked: nat): Report {
    if |kept| <= max then Changes(kept, walked, false) else Changes(kept[..max], walked, true)
  }

  ghost predicate ReportsWalk(
      builds: Builds, g: int, c: int, maxIn: int, pathRe: Option<string -> bool>, r: Report)
  {
    var path := Path(builds, g, c, {});
    && (path.None? <==> r.Error?)
    && (path.Some? ==> Reports(builds, path.value, maxIn, pathRe, r))
  }

  predicate NewerFirst(a: int, b: int) {
    a >= b
  }

  /** The completed builds in (g, c], newest first. */
  ghost predicate CompletedBetween(path: seq<int>, completed: set<int>, g: int, c: int) {
    && (forall i, j :: 0 <= i < j < |path| ==> path[i] > path[j])
    && (forall b :: b in path <==> b in completed && g < b <= c)
  }

  lemma OneCompletedBetween(a: seq<int>, b: seq<int>, completed: set<int>, g: int, c: int)
    requires CompletedBetween(a, completed, g, c) && CompletedBetween(b, completed, g, c)
    ensures a == b
  {
    assert forall x :: x in a <==> x in b;
    DistinctSameSetSameMultiset(a, b);
    SortedUnique(a, b, NewerFirst);
  }

  /** On a well-behaved job the tool shows the first max_commits of the filtered,
      deduplicated commits of the completed builds in (g, c], newest build first. */
  lemma WellBehavedReport(
      builds: Builds, completed: set<int>, g: int, c: int, path: seq<int>,
      maxIn: int, pathRe: Option<string -> bool>, r: Report)
    requires forall b :: b in completed ==> PointsToPrevious(builds, completed, b)
    requires c in completed && CompletedBetween(path, completed, g, c)
    requires ReportsWalk(builds, g, c, maxIn, pathRe, r)
    ensures Reports(builds, path, maxIn, pathRe, r)
  {
    VisitsCompletedDescending(builds, completed, g, c, {});
    OneCompletedBetween(path, Path(builds, g, c, {}).value, completed, g, c);
  }

  /** What changes_since_last_green shows: the first max_commits of the filtered,
      deduplicated commits of the visited builds. */
  method ChangesSinceLastGreen(
      builds: Builds, green: Lookup, latest: Lookup, maxIn: int, pathRe: Option<string -> bool>)
    returns (r: Report)
    ensures green.NotFound? ==> r.NoSuccessfulBuild?
    ensures green.LookupError? ==> r.Error?
    ensures green.Number? && latest.NotFound? ==> r.NoCompletedBuild?
    ensures green.Number? && latest.LookupError? ==> r.Error?
    ensures green.Number? && latest.Number? && green.n == latest.n ==> r == AllGreen(latest.n)
    ensures green.Number? && latest.Number? && green.n != latest.n ==>
      ReportsWalk(builds, green.n, latest.n, maxIn, pathRe, r)
  {
    var maxCommits := maxIn;
    if maxCommits <= 0 {
      maxCommits := CHANGES_DEFAULT_MAX;
    }
    match green
    case NotFound => return NoSuccessfulBuild;
    case LookupError => return Error;
    case Number(g) =>
      match latest
      case NotFound => return NoCompletedBuild;
      case LookupError => return Error;
      case Number(c) =>
        if g == c {
          return AllGreen(c);
        }
        var walk := WalkChangesSinceLastGreen(builds, g, c);
        if walk.Failed? {
          return Error;
        }
        var kept := FilterCommitsByPath(walk.commits, pathRe);
        var truncated := false;
        if |kept| > maxCommits {
          kept := kept[..maxCommits];
          truncated := true;
        }
        return Changes(kept, walk.builds, truncated);
  }

  // ---- one build's change sets under a cap ----

  function KeptIn(sets: seq<ChangeSet>, pathRe: Option<string -> bool>): seq<Commit> {
    if sets == [] then []
    else KeptIn(sets[..|sets| - 1], pathRe) + Kept(sets[|sets| - 1].items, pathRe)
  }

  const CONTEXT_DEFAULT_MAX := 50

  datatype Context = Context(rendered: seq<Commit>, matched: nat, truncated: bool)

  lemma {:induction false} KeptIsFlat(sets: seq<ChangeSet>, pathRe: Option<string -> bool>)
    ensures KeptIn(sets, pathRe) == Kept(ItemsOf(sets), pathRe)
  {
    if sets == [] {
    } else {
      var n := |sets| - 1;
      KeptIsFlat(sets[..n], pathRe);
      if pathRe.Some? {
        FilterConcat(ItemsOf(sets[..n]), sets[n].items, (c: Commit) => Touches(c, pathRe.value));
      }
    }
  }

  /** What is kept of all change sets is the filtered flat list of their commits. */
  lemma AllKeptIsFiltered(sets: seq<ChangeSet>, pathRe: Option<string -> bool>)
    ensures Filtered(KeptIn(sets, pathRe), Flatten(Map(sets, (s: ChangeSet) => s.items)), pathRe)
  {
    KeptIsFlat(sets, pathRe);
    ItemsAreFlat(sets);
    KeptIsFiltered(ItemsOf(sets), pathRe);
  }

  /** The rendered commits are the first max of the filtered flat list. */
  ghost predicate ShowsFirst(sets: seq<ChangeSet>, max: nat, pathRe: Option<string -> bool>, r: Context) {
    exists kept: seq<Commit> ::
      && Filtered(kept, Flatten(Map(sets, (s: ChangeSet) => s.items)), pathRe)
      && (r.truncated <==> |kept| > max)
      && r.rendered == if |kept| > max then kept[..max] else kept
  }

  /** The capped loop over the change sets of one build. `looked` is the number of
      sets it got to see. */
  method GetSCMContext(sets: seq<ChangeSet>, maxIn: int, pathRe: Option<string -> bool>)
    returns (r: Context, looked: nat)
    ensures ContextOf(sets, if maxIn <= 0 then 50 else maxIn, pathRe, r, looked)
  {
    var maxCommits := maxIn;
    if maxCommits <= 0 {
      maxCommits := CONTEXT_DEFAULT_MAX;
    }
    var rendered: seq<Commit> := [];
    var matched := 0;
    looked := 0;
    while looked < |sets|
      invariant looked <= |sets|
      invariant rendered == KeptIn(sets[..looked], pathRe) && |rendered| <= maxCommits
      invariant matched == |rendered|
    {
      var keep := FilterCommitsByPath(sets[looked].items, pathRe);
      ghost var before := rendered;
      KeptStep(sets, looked, pathRe);
      matched := matched + |keep|;
      looked := looked + 1;
      var truncated;
      rendered, truncated := RenderUpTo(rendered, keep, maxCommits);
      if truncated {
        r := Context(rendered, matched, true);
        OverrunIsContext(sets, looked, maxCommits, pathRe, rendered);
        return;
      }
    }
    assert sets[..|sets|] == sets;
    r := Context(rendered, matched, false);
  }

  lemma OverrunIsContext(
      sets: seq<ChangeSet>, looked: nat, max: nat, pathRe: Option<string -> bool>, rendered: seq<Commit>)
    requires 0 < looked <= |sets|
    requires |KeptIn(sets[..looked - 1], pathRe)| <= max < |KeptIn(sets[..looked], pathRe)|
    requires rendered == Take(KeptIn(sets[..looked], pathRe), max)
    ensures ContextOf(sets, max, pathRe, Context(rendered, |KeptIn(sets[..looked], pathRe)|, true), looked)
  {
    KeptPrefix(sets, looked, pathRe);
    assert Take(KeptIn(sets, pathRe), max) == Take(KeptIn(sets[..looked], pathRe), max);
  }

  /** The rendered commits are the first max of all matching ones; the match count
      covers the sets looked at, which end with the one that overran the cap. */
  ghost predicate ContextOf(sets: seq<ChangeSet>, max: nat, pathRe: Option<string -> bool>, r: Context, looked: nat) {
    && looked <= |sets|
    && r.rendered == Take(KeptIn(sets, pathRe), max)
    && (r.truncated <==> |KeptIn(sets, pathRe)| > max)
    && r.matched == |KeptIn(sets[..looked], pathRe)|
    && (if r.truncated then looked > 0 && |KeptIn(sets[..looked - 1], pathRe)| <= max < r.matched else looked == |sets|)
  }

  /** So they are the first of the filtered flat list, and truncated says whether any
      are left over. */
  lemma ContextShowsFirst(sets: seq<ChangeSet>, max: nat, pathRe: Option<string -> bool>, r: Context, looked: nat)
    requires ContextOf(sets, max, pathRe, r, looked)
    ensures ShowsFirst(sets, max, pathRe, r)
  {
    AllKeptIsFiltered(sets, pathRe);
  }

  lemma KeptStep(sets: seq<ChangeSet>, k: nat, pathRe: Option<string -> bool>)
    requires k < |sets|
    ensures KeptIn(sets[..k + 1], pathRe) == KeptIn(sets[..k], pathRe) + Kept(sets[k].items, pathRe)
  {
    assert sets[..k + 1][..k] == sets[..k];
  }

  /** Renders commits until the cap; truncated when one is left over. */
  method RenderUpTo(rendered: seq<Commit>, keep: seq<Commit>, max: nat) returns (out: seq<Commit>, truncated: bool)
    requires |rendered| <= max
    ensures out == Take(rendered + keep, max)
    ensures truncated <==> |rendered + keep| > max
  {
    out := rendered;
    assert keep[..0] == [];
    for k := 0 to |keep|
      invariant out == rendered + keep[..k] && |out| <= max
    {
      if |out| >= max {
        assert out == (rendered + keep)[..max];
        return out, true;
      }
      assert keep[..k + 1] == keep[..k] + [keep[k]];
      out := out + [keep[k]];
    }
    assert keep[..|keep|] == keep;
    return out, false;
  }

  lemma KeptInSnoc(sets: seq<ChangeSet>, last: ChangeSet, pathRe: Option<string -> bool>)
    ensures KeptIn(sets + [last], pathRe) == KeptIn(sets, pathRe) + Kept(last.items, pathRe)
  {
    assert (sets + [last])[..|sets|] == sets;
  }

  lemma {:induction false} KeptInConcat(a: seq<ChangeSet>, b: seq<ChangeSet>, pathRe: Option<string -> bool>)
    ensures KeptIn(a + b, pathRe) == KeptIn(a, pathRe) + KeptIn(b, pathRe)
    decreases |b|
  {
    if b == [] {
      assert a + b == a;
    } else {
      var front, last := b[..|b| - 1], b[|b| - 1];
      assert b == front + [last] && a + b == a + front + [last];
      KeptInConcat(a, front, pathRe);
      KeptInSnoc(a + front, last, pathRe);
      KeptInSnoc(front, last, pathRe);
      ConcatAssociates(KeptIn(a, pathRe), KeptIn(front, pathRe), Kept(last.items, pathRe));
    }
  }

  lemma KeptPrefix(sets: seq<ChangeSet>, k: nat, pathRe: Option<string -> bool>)
    requires k <= |sets|
    ensures KeptIn(sets, pathRe) == KeptIn(sets[..k], pathRe) + KeptIn(sets[k..], pathRe)
  {
    KeptInConcat(sets[..k], sets[k..], pathRe);
    assert sets[..k] + sets[k..] == sets;
  }

  /** Some change set up to j already overran the cap. */
  ghost predicate Overran(sets: seq<ChangeSet>, j: nat, max: nat, pathRe: Option<string -> bool>)
    requires j <= |sets|
  {
    |KeptIn(sets[..j], pathRe)| > max
  }

  lemma KeptInGrows(sets: seq<ChangeSet>, j: nat, k: nat, pathRe: Option<string -> bool>)
    requires j <= k <= |sets|
    ensures |KeptIn(sets[..j], pathRe)| <= |KeptIn(sets[..k], pathRe)|
  {
    KeptPrefix(sets[..k], j, pathRe);
    assert sets[..k][..j] == sets[..j];
  }

  ghost predicate KeepsNothing(sets: seq<ChangeSet>, pathRe: Option<string -> bool>) {
    forall j :: 0 <= j < |sets| ==> Kept(sets[j].items, pathRe) == []
  }

  lemma KeepsNothingSnoc(front: seq<ChangeSet>, last: ChangeSet, pathRe: Option<string -> bool>)
    ensures KeepsNothing(front + [last], pathRe) <==> KeepsNothing(front, pathRe) && Kept(last.items, pathRe) == []
  {
    var sets := front + [last];
    assert sets[|front|] == last;
    assert forall j :: 0 <= j < |front| ==> sets[j] == front[j];
  }

  lemma {:induction false} NothingKept(sets: seq<ChangeSet>, pathRe: Option<string -> bool>)
    ensures KeptIn(sets, pathRe) == [] <==> KeepsNothing(sets, pathRe)
  {
    if sets == [] {
    } else {
      var front, last := sets[..|sets| - 1], sets[|sets| - 1];
      assert sets == front + [last];
      NothingKept(front, pathRe);
      KeptInSnoc(front, last, pathRe);
      KeepsNothingSnoc(front, last, pathRe);
    }
  }

  /** The loop leaves out exactly the change sets behind one that overran the cap. */
  lemma LookedUntilOverrun(
      sets: seq<ChangeSet>, max: nat, pathRe: Option<string -> bool>, r: Context, looked: nat, j: nat)
    requires ContextOf(sets, max, pathRe, r, looked) && j < |sets|
    ensures j >= looked <==> Overran(sets, j, max, pathRe)
  {
    if j >= looked {
      KeptInGrows(sets, looked, j, pathRe);
    } else {
      KeptInGrows(sets, j, if r.truncated then looked - 1 else looked, pathRe);
      if !r.truncated {
        KeptPrefix(sets, j, pathRe);
      }
    }
  }

  /** The printed match count covers all matching commits exactly when no change set
      behind one that overran the cap holds a match. */
  lemma MatchedCountsAll(sets: seq<ChangeSet>, max: nat, pathRe: Option<string -> bool>, r: Context, looked: nat)
    requires ContextOf(sets, max, pathRe, r, looked)
    ensures r.matched == |KeptIn(sets, pathRe)|
       <==> forall j :: 0 <= j < |sets| && Overran(sets, j, max, pathRe) ==> Kept(sets[j].items, pathRe) == []
  {
    KeptPrefix(sets, looked, pathRe);
    NothingKept(sets[looked..], pathRe);
    forall j | 0 <= j < |sets| ensures j >= looked <==> Overran(sets, j, max, pathRe) {
      LookedUntilOverrun(sets, max, pathRe, r, looked, j);
    }
    assert forall j :: 0 <= j < |sets| - looked ==> sets[looked..][j] == sets[looked + j];
    assert forall j :: looked <= j < |sets| ==> sets[j] == sets[looked..][j - looked];
  }

  lemma {:induction false} FilterWhole<T>(xs: seq<T>, p: T -> bool)
    requires forall x :: x in xs ==> p(x)
    ensures Filter(xs, p) == xs
  {
    if xs == [] {
    } else {
      var n := |xs| - 1;
      assert xs[n] in xs;
      FilterWhole(xs[..n], p);
      assert xs == xs[..n] + [xs[n]];
    }
  }

  lemma KeptWhole(items: seq<Commit>, re: string -> bool)
    requires forall c :: c in items ==> Touches(c, re)
    ensures Kept(items, Some(re)) == items
  {
    FilterWhole(items, (c: Commit) => Touches(c, re));
  }

  lemma MatchesOfTwo(first: ChangeSet, second: ChangeSet, re: string -> bool)
    requires forall c :: c in first.items ==> Touches(c, re)
    requires forall c :: c in second.items ==> Touches(c, re)
    ensures KeptIn([first, second][..0], Some(re)) == []
    ensures KeptIn([first, second][..1], Some(re)) == first.items
    ensures KeptIn([first, second], Some(re)) == first.items + second.items
  {
    KeptWhole(first.items, re);
    KeptWhole(second.items, re);
    assert [first, second] == [first] + [second] && [first, second][..1] == [] + [first];
    KeptInSnoc([], first, Some(re));
    KeptInSnoc([first], second, Some(re));
  }

  /** Two change sets with two and one matching commits, under a cap of one: whatever
      comes out says two, and three match. */
  lemma MatchedCanMissSome(c: Commit, kind: string, re: string -> bool, r: Context, looked: nat)
    requires Touches(c, re)
    requires ContextOf([ChangeSet(kind, [c, c]), ChangeSet(kind, [c])], 1, Some(re), r, looked)
    ensures r == Context([c], 2, true)
    ensures |KeptIn([ChangeSet(kind, [c, c]), ChangeSet(kind, [c])], Some(re))| == 3
  {
    var first, second := ChangeSet(kind, [c, c]), ChangeSet(kind, [c]);
    MatchesOfTwo(first, second, re);
    assert r.truncated;
    assert looked == 1 by {
      assert looked != 2;
    }
    assert Take([c, c] + [c], 1) == [c];
  }
}
