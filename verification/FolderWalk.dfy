/** The capped recursive folder walk: a depth-first walk over shared, mutable
    accumulators. It is proved against the plain pre-order trace of the tree. */
module FolderWalk {
  import opened Sequences
  import JobPath

  const CAP := 500

  datatype Build = Build(number: int, result: string)

  /** One entry of a folder listing. `sub` is what Jenkins would answer if the
      entry's own listing were requested. */
  datatype Job = Job(name: string, url: string, color: string, isFolder: bool,
                     lastBuild: Option<Build>, sub: Listing)

  datatype Listing = Jobs(jobs: seq<Job>) | Unreachable

  datatype Row = Row(jobPath: string, url: string, color: string,
                     lastNumber: int, lastResult: string, isFolder: bool)

  /** What the walk does, in order: a listing request, a row, or a failed request. */
  datatype Event = Requested(apiPath: string) | Emitted(row: Row) | Broke

  function ChildPath(folder: string, name: string): string {
    if folder == "" then name else folder + "/" + name
  }

  function ApiPath(folder: string): string {
    JobPath.Nested(JobPath.Segments(folder)) + "/api/json"
  }

  function RowOf(path: string, j: Job): Row {
    Row(path, j.url, j.color,
        if j.lastBuild.Some? then j.lastBuild.value.number else 0,
        if j.lastBuild.Some? then j.lastBuild.value.result else "",
        j.isFolder)
  }

  // ---- the uncapped pre-order trace ----

  function Trace(folder: string, listing: Listing, recursive: bool, matches: string -> bool): seq<Event>
    decreases listing, 0
  {
    [Requested(ApiPath(folder))] +
    match listing
    case Unreachable => [Broke]
    case Jobs(jobs) => TraceJobs(folder, jobs, recursive, matches)
  }

  function TraceJobs(folder: string, jobs: seq<Job>, recursive: bool, matches: string -> bool): seq<Event>
    decreases jobs, 0
  {
    if jobs == [] then []
    else TraceJob(folder, jobs[0], recursive, matches) + TraceJobs(folder, jobs[1..], recursive, matches)
  }

  function TraceJob(folder: string, j: Job, recursive: bool, matches: string -> bool): seq<Event>
    decreases j, 2
  {
    RowEvents(folder, j, matches) + BelowEvents(folder, j, recursive, matches)
  }

  function RowEvents(folder: string, j: Job, matches: string -> bool): seq<Event> {
    if matches(j.name) then [Emitted(RowOf(ChildPath(folder, j.name), j))] else []
  }

  function BelowEvents(folder: string, j: Job, recursive: bool, matches: string -> bool): seq<Event>
    decreases j, 1
  {
    if recursive && j.isFolder then Trace(ChildPath(folder, j.name), j.sub, recursive, matches) else []
  }

  // ---- cutting a trace ----

  function Rows(log: seq<Event>): seq<Row> {
    if log == [] then []
    else
      var front := Rows(log[..|log| - 1]);
      match log[|log| - 1]
      case Emitted(row) => front + [row]
      case _ => front
  }

  /** A log after which nothing more may happen: the cap is reached or a request failed. */
  predicate Stopped(log: seq<Event>) {
    |Rows(log)| >= CAP || Broke in log
  }

  /** log continued with events until it stops. */
  function Continue(log: seq<Event>, events: seq<Event>): seq<Event>
    decreases |events|
  {
    if events == [] || Stopped(log) then log else Continue(log + [events[0]], events[1..])
  }

  lemma {:induction false} ContinueConcat(log: seq<Event>, a: seq<Event>, b: seq<Event>)
    ensures Continue(log, a + b) == Continue(Continue(log, a), b)
    decreases |a|
  {
    if a == [] {
      assert a + b == b;
    } else if Stopped(log) {
      ContinueStopped(log, a + b);
      ContinueStopped(log, a);
      ContinueStopped(log, b);
    } else {
      assert (a + b)[0] == a[0] && (a + b)[1..] == a[1..] + b;
      ContinueConcat(log + [a[0]], a[1..], b);
    }
  }

  lemma ContinueStopped(log: seq<Event>, events: seq<Event>)
    requires Stopped(log)
    ensures Continue(log, events) == log
  {
  }

  lemma ContinueOne(log: seq<Event>, e: Event)
    requires !Stopped(log)
    ensures Continue(log, [e]) == log + [e]
  {
    assert [e][1..] == [];
    assert Continue(log + [e], []) == log + [e];
  }

  /** The part of the trace from entry i on: its row, what lies below it, and the rest. */
  lemma ContinueJob(log: seq<Event>, folder: string, jobs: seq<Job>, i: nat, recursive: bool, matches: string -> bool)
    requires i < |jobs|
    ensures Continue(log, TraceJobs(folder, jobs[i..], recursive, matches)) ==
      Continue(
        Continue(Continue(log, RowEvents(folder, jobs[i], matches)), BelowEvents(folder, jobs[i], recursive, matches)),
        TraceJobs(folder, jobs[i + 1..], recursive, matches))
  {
    var rest := TraceJobs(folder, jobs[i + 1..], recursive, matches);
    assert jobs[i..][0] == jobs[i] && jobs[i..][1..] == jobs[i + 1..];
    ContinueConcat(log, TraceJob(folder, jobs[i], recursive, matches), rest);
    ContinueConcat(log, RowEvents(folder, jobs[i], matches), BelowEvents(folder, jobs[i], recursive, matches));
  }

  // ---- the walk ----

  class Walker {
    var entries: seq<Row>
    var hitCap: bool
    ghost var log: seq<Event>

    ghost predicate Valid()
      reads this
    {
      && entries == Rows(log)
      && hitCap == (|entries| >= CAP)
    }

    constructor ()
      ensures Valid() && log == [] && !hitCap
    {
      entries, hitCap, log := [], false, [];
    }

    /** Returns false when a listing request failed, which ends the whole walk. */
    method Walk(folder: string, listing: Listing, recursive: bool, matches: string -> bool) returns (ok: bool)
      requires Valid() && !Stopped(log)
      modifies this
      ensures Valid()
      ensures log == Continue(old(log), Trace(folder, listing, recursive, matches))
      ensures ok == (Broke !in log)
      decreases listing
    {
      ghost var start := log;
      ghost var requested := Requested(ApiPath(folder));
      log := log + [requested];
      ContinueOne(start, requested);
      if listing.Unreachable? {
        ContinueConcat(start, [requested], [Broke]);
        ContinueOne(log, Broke);
        log := log + [Broke];
        return false;
      }
      ghost var asked := log;
      var jobs := listing.jobs;
      ContinueConcat(start, [requested], TraceJobs(folder, jobs, recursive, matches));
      assert jobs[0..] == jobs;
      for i := 0 to |jobs|
        invariant Valid() && Broke !in log
        invariant Continue(log, TraceJobs(folder, jobs[i..], recursive, matches))
               == Continue(asked, TraceJobs(folder, jobs, recursive, matches))
      {
        ContinueJob(log, folder, jobs, i, recursive, matches);
        EmitRow(folder, jobs[i], matches);
        if recursive && jobs[i].isFolder && !hitCap {
          var ok' := Walk(ChildPath(folder, jobs[i].name), jobs[i].sub, recursive, matches);
          if !ok' {
            ContinueStopped(log, TraceJobs(folder, jobs[i + 1..], recursive, matches));
            return false;
          }
        } else if hitCap {
          ContinueStopped(log, BelowEvents(folder, jobs[i], recursive, matches));
        }
      }
      assert jobs[|jobs|..] == [];
      return true;
    }

    method EmitRow(folder: string, j: Job, matches: string -> bool)
      requires Valid() && Broke !in log
      modifies this
      ensures Valid() && Broke !in log
      ensures log == Continue(old(log), RowEvents(folder, j, matches))
    {
      var row := RowOf(ChildPath(folder, j.name), j);
      if !hitCap && matches(j.name) {
        ContinueOne(log, Emitted(row));
        log := log + [Emitted(row)];
        entries := entries + [row];
        if |entries| >= CAP {
          hitCap := true;
        }
      } else if hitCap {
        ContinueStopped(log, RowEvents(folder, j, matches));
      }
    }
  }

  // ---- the listing the walk is meant to produce ----

  datatype Found = Found(path: string, job: Job)

  /** Every entry below a folder in pre-order, whatever its name and however many. */
  function Descendants(folder: string, listing: Listing, recursive: bool): seq<Found>
    decreases listing, 0
  {
    match listing
    case Unreachable => []
    case Jobs(jobs) => DescendantsOf(folder, jobs, recursive)
  }

  function DescendantsOf(folder: string, jobs: seq<Job>, recursive: bool): seq<Found>
    decreases jobs, 0
  {
    if jobs == [] then []
    else
      var path := ChildPath(folder, jobs[0].name);
      [Found(path, jobs[0])]
      + (if recursive && jobs[0].isFolder then Descendants(path, jobs[0].sub, recursive) else [])
      + DescendantsOf(folder, jobs[1..], recursive)
  }

  /** The uncapped listing: rows of the entries whose own name matches. */
  function FullListing(folder: string, listing: Listing, recursive: bool, matches: string -> bool): seq<Row> {
    Matching(Descendants(folder, listing, recursive), matches)
  }

  function RowsOf(found: seq<Found>): (rows: seq<Row>)
    ensures |rows| == |found|
    ensures forall i :: 0 <= i < |rows| ==> rows[i] == RowOf(found[i].path, found[i].job)
  {
    seq(|found|, i requires 0 <= i < |found| => RowOf(found[i].path, found[i].job))
  }

  function Matching(found: seq<Found>, matches: string -> bool): seq<Row> {
    RowsOf(Filter(found, (f: Found) => matches(f.job.name)))
  }

  lemma MatchingConcat(a: seq<Found>, b: seq<Found>, matches: string -> bool)
    ensures Matching(a + b, matches) == Matching(a, matches) + Matching(b, matches)
  {
    FilterConcat(a, b, (f: Found) => matches(f.job.name));
  }

  lemma MatchingOne(f: Found, matches: string -> bool)
    ensures Matching([f], matches) == if matches(f.job.name) then [RowOf(f.path, f.job)] else []
  {
    assert [f][..0] == [];
    assert Filter([f][..0], (g: Found) => matches(g.job.name)) == [];
  }

  lemma {:induction false} RowsConcat(a: seq<Event>, b: seq<Event>)
    ensures Rows(a + b) == Rows(a) + Rows(b)
    decreases |b|
  {
    if b == [] {
      assert a + b == a;
    } else {
      var n := |b| - 1;
      assert (a + b)[..|a + b| - 1] == a + b[..n];
      RowsConcat(a, b[..n]);
    }
  }

  lemma RowsOne(e: Event)
    ensures Rows([e]) == if e.Emitted? then [e.row] else []
  {
    assert [e][..0] == [];
  }

  lemma {:induction false} TraceHasListing(folder: string, listing: Listing, recursive: bool, matches: string -> bool)
    ensures Rows(Trace(folder, listing, recursive, matches)) ==
      Matching(Descendants(folder, listing, recursive), matches)
    decreases listing, 0
  {
    var events := if listing.Jobs? then TraceJobs(folder, listing.jobs, recursive, matches) else [Broke];
    RequestIsNoRow(ApiPath(folder), events);
    match listing
    case Unreachable =>
      RowsOne(Broke);
    case Jobs(jobs) =>
      TraceJobsHasListing(folder, jobs, recursive, matches);
  }

  lemma RequestIsNoRow(apiPath: string, events: seq<Event>)
    ensures Rows([Requested(apiPath)] + events) == Rows(events)
  {
    RowsConcat([Requested(apiPath)], events);
    RowsOne(Requested(apiPath));
  }

  lemma {:induction false} TraceJobsHasListing(folder: string, jobs: seq<Job>, recursive: bool, matches: string -> bool)
    ensures Rows(TraceJobs(folder, jobs, recursive, matches)) ==
      Matching(DescendantsOf(folder, jobs, recursive), matches)
    decreases jobs, 0
  {
    if jobs == [] {
    } else {
      var j := jobs[0];
      var path := ChildPath(folder, j.name);
      var row := RowEvents(folder, j, matches);
      var below := BelowEvents(folder, j, recursive, matches);
      var found := if recursive && j.isFolder then Descendants(path, j.sub, recursive) else [];
      if recursive && j.isFolder {
        TraceHasListing(path, j.sub, recursive, matches);
      }
      TraceJobsHasListing(folder, jobs[1..], recursive, matches);
      RowsConcat(row + below, TraceJobs(folder, jobs[1..], recursive, matches));
      RowsConcat(row, below);
      RowsOne(Emitted(RowOf(path, j)));
      MatchingConcat([Found(path, j)] + found, DescendantsOf(folder, jobs[1..], recursive), matches);
      MatchingConcat([Found(path, j)], found, matches);
      MatchingOne(Found(path, j), matches);
    }
  }

  // ---- main results ----

  lemma RowsShift(log: seq<Event>, events: seq<Event>)
    requires events != []
    ensures Rows(log) + Rows(events) == Rows(log + [events[0]]) + Rows(events[1..])
    ensures |Rows(log + [events[0]])| <= |Rows(log)| + 1
  {
    var e, rest := events[0], events[1..];
    RowsConcat(log, [e]);
    RowsOne(e);
    assert Rows(events) == Rows([e]) + Rows(rest) by {
      assert events == [e] + rest;
      RowsConcat([e], rest);
    }
    ConcatAssociates(Rows(log), Rows([e]), Rows(rest));
  }

  lemma {:induction false} ContinueRows(log: seq<Event>, events: seq<Event>)
    requires |Rows(log)| <= CAP && Broke !in Continue(log, events)
    ensures Rows(Continue(log, events)) == Take(Rows(log) + Rows(events), CAP)
    decreases |events|
  {
    if events == [] {
      assert Rows(log) + Rows(events) == Rows(log);
    } else if !Stopped(log) {
      RowsShift(log, events);
      ContinueRows(log + [events[0]], events[1..]);
    }
  }

  /** Event i is a failed request that the walk reaches: fewer than 500 rows precede it. */
  ghost predicate BreaksAt(log: seq<Event>, events: seq<Event>, i: nat) {
    i < |events| && events[i].Broke? && |Rows(log + events[..i])| < CAP
  }

  lemma BreaksLater(log: seq<Event>, events: seq<Event>, i: nat)
    requires 0 < i && events != []
    ensures BreaksAt(log, events, i) <==> BreaksAt(log + [events[0]], events[1..], i - 1)
  {
    if i < |events| {
      assert log + events[..i] == log + [events[0]] + events[1..][..i - 1];
    }
  }

  /** The walk fails exactly when it reaches a failed request. */
  lemma {:induction false} ContinueBreaks(log: seq<Event>, events: seq<Event>)
    requires Broke !in log
    ensures Broke in Continue(log, events) <==> exists i: nat :: BreaksAt(log, events, i)
    decreases |events|
  {
    if |Rows(log)| >= CAP {
      forall i: nat ensures !BreaksAt(log, events, i) {
        if i < |events| {
          RowsConcat(log, events[..i]);
        }
      }
    } else if events == [] {
    } else if events[0].Broke? {
      assert log + events[..0] == log;
      assert BreaksAt(log, events, 0);
      ContinueStopped(log + [events[0]], events[1..]);
    } else {
      ContinueBreaks(log + [events[0]], events[1..]);
      forall i: nat | i > 0 ensures BreaksAt(log, events, i) <==> BreaksAt(log + [events[0]], events[1..], i - 1) {
        BreaksLater(log, events, i);
      }
      if j: nat :| BreaksAt(log + [events[0]], events[1..], j) {
        assert BreaksAt(log, events, j + 1);
      }
    }
  }

  /** When the walk reaches no failed request, its rows are the first 500 of the full
      listing, and hitCap says whether that listing has 500 rows. */
  lemma WalkIsCappedListing(folder: string, listing: Listing, recursive: bool, matches: string -> bool)
    requires Broke !in Continue([], Trace(folder, listing, recursive, matches))
    ensures var rows := Rows(Continue([], Trace(folder, listing, recursive, matches)));
      && rows == Take(FullListing(folder, listing, recursive, matches), 500)
      && (|rows| >= CAP <==> |FullListing(folder, listing, recursive, matches)| >= 500)
  {
    var trace := Trace(folder, listing, recursive, matches);
    ContinueRows([], trace);
    assert Rows([]) + Rows(trace) == Rows(trace);
    TraceHasListing(folder, listing, recursive, matches);
  }

  /** The row shows this entry: its path, URL, color, kind and last build, or 0 and no
      result without one. */
  ghost predicate ShowsJob(row: Row, f: Found) {
    && row.jobPath == f.path && row.url == f.job.url && row.color == f.job.color && row.isFolder == f.job.isFolder
    && match f.job.lastBuild
       case Some(b) => row.lastNumber == b.number && row.lastResult == b.result
       case None => row.lastNumber == 0 && row.lastResult == ""
  }

  /** rows show, in order, the first 500 of the entries whose name matches. */
  ghost predicate ListsFirst(rows: seq<Row>, found: seq<Found>, matches: string -> bool) {
    exists at :: ListsAt(rows, found, matches, at)
  }

  ghost predicate ListsAt(rows: seq<Row>, found: seq<Found>, matches: string -> bool, at: seq<nat>) {
    && |at| == |rows| <= 500
    && (forall k :: 0 <= k < |at| ==>
          at[k] < |found| && matches(found[at[k]].job.name) && ShowsJob(rows[k], found[at[k]]))
    && (forall k, l :: 0 <= k < l < |at| ==> at[k] < at[l])
    && (forall i :: 0 <= i < |found| && matches(found[i].job.name) ==> i in at || (|at| == 500 && at[499] < i))
  }

  lemma FirstOfSelection(found: seq<Found>, kept: seq<Found>, matches: string -> bool, all: seq<nat>)
    requires SelectedAt(kept, found, (f: Found) => matches(f.job.name), all)
    ensures ListsAt(Take(RowsOf(kept), 500), found, matches, Take(all, 500))
  {
    var p := (f: Found) => matches(f.job.name);
    var at := Take(all, 500);
    forall k | 0 <= k < |at|
      ensures at[k] < |found| && matches(found[at[k]].job.name) && ShowsJob(RowsOf(kept)[k], found[at[k]])
    {
      assert p(found[all[k]]) && kept[k] == found[all[k]];
    }
    forall i | 0 <= i < |found| && matches(found[i].job.name) ensures i in at || (|at| == 500 && at[499] < i) {
      assert p(found[i]);
      InFirst(all, i, 500);
    }
  }

  lemma FirstMatchesAreListed(found: seq<Found>, matches: string -> bool)
    ensures ListsFirst(Take(Matching(found, matches), 500), found, matches)
  {
    var all := FilterAt(found, (f: Found) => matches(f.job.name));
    FirstOfSelection(found, Filter(found, (f: Found) => matches(f.job.name)), matches, all);
  }

  /** The whole listing: it fails exactly when a failed request comes before the 500th
      row, and else returns the first 500 rows of the full listing. */
  method ListJobs(folderPath: string, listing: Listing, recursive: bool, matches: string -> bool)
    returns (ok: bool, rows: seq<Row>, hit: bool)
    ensures var root := JobPath.Trim(folderPath);
      && (!ok <==> exists i: nat :: BreaksAt([], Trace(root, listing, recursive, matches), i))
      && (ok ==> rows == Take(FullListing(root, listing, recursive, matches), 500))
      && (ok ==> (hit <==> |FullListing(root, listing, recursive, matches)| >= 500))
      && (ok ==> ListsFirst(rows, Descendants(root, listing, recursive), matches) && (hit <==> |rows| == 500))
  {
    var root := JobPath.Trim(folderPath);
    var walker := new Walker();
    ok := walker.Walk(root, listing, recursive, matches);
    ContinueBreaks([], Trace(root, listing, recursive, matches));
    if ok {
      WalkIsCappedListing(root, listing, recursive, matches);
      FirstMatchesAreListed(Descendants(root, listing, recursive), matches);
    }
    rows, hit := walker.entries, walker.hitCap;
  }

  /** Once the cap is hit nothing more happens: the last event of a capped walk is
      its 500th row, so every request came before it. */
  lemma {:induction false} NoRequestAfterCap(log: seq<Event>, events: seq<Event>)
    requires !Stopped(log) && |Rows(Continue(log, events))| >= CAP
    ensures var end := Continue(log, events);
      && end != [] && end[|end| - 1].Emitted?
      && |Rows(end)| == CAP && |Rows(end[..|end| - 1])| == CAP - 1
    decreases |events|
  {
    if events == [] {
    } else {
      var next := log + [events[0]];
      assert next[..|next| - 1] == log;
      RowsConcat(log, [events[0]]);
      RowsOne(events[0]);
      if Stopped(next) {
        ContinueStopped(next, events[1..]);
      } else {
        NoRequestAfterCap(next, events[1..]);
      }
    }
  }

  /** The folder requests of a trace. */
  function Requests(log: seq<Event>): seq<string> {
    if log == [] then []
    else if log[|log| - 1].Requested? then Requests(log[..|log| - 1]) + [log[|log| - 1].apiPath]
    else Requests(log[..|log| - 1])
  }

  lemma {:induction false} RequestsConcat(a: seq<Event>, b: seq<Event>)
    ensures Requests(a + b) == Requests(a) + Requests(b)
    decreases |b|
  {
    if b == [] {
      assert a + b == a;
    } else {
      var n := |b| - 1;
      assert (a + b)[..|a + b| - 1] == a + b[..n];
      RequestsConcat(a, b[..n]);
    }
  }

  /** Folders are entered whether or not their own name matches: the requests of the
      uncapped walk do not depend on the filter. */
  lemma {:induction false} RequestsIgnoreFilter(
      folder: string, listing: Listing, recursive: bool, m: string -> bool, n: string -> bool)
    ensures Requests(Trace(folder, listing, recursive, m)) == Requests(Trace(folder, listing, recursive, n))
    decreases listing, 0
  {
    var requested := [Requested(ApiPath(folder))];
    match listing
    case Unreachable =>
    case Jobs(jobs) =>
      RequestsConcat(requested, TraceJobs(folder, jobs, recursive, m));
      RequestsConcat(requested, TraceJobs(folder, jobs, recursive, n));
      JobRequestsIgnoreFilter(folder, jobs, recursive, m, n);
  }

  lemma {:induction false} JobRequestsIgnoreFilter(
      folder: string, jobs: seq<Job>, recursive: bool, m: string -> bool, n: string -> bool)
    ensures Requests(TraceJobs(folder, jobs, recursive, m)) == Requests(TraceJobs(folder, jobs, recursive, n))
    decreases jobs, 0
  {
    if jobs == [] {
    } else {
      var j, rest := jobs[0], jobs[1..];
      var path := ChildPath(folder, j.name);
      JobRequestsIgnoreFilter(folder, rest, recursive, m, n);
      if recursive && j.isFolder {
        RequestsIgnoreFilter(path, j.sub, recursive, m, n);
      }
      OwnRequests(folder, j, recursive, m);
      OwnRequests(folder, j, recursive, n);
      RequestsConcat(TraceJob(folder, j, recursive, m), TraceJobs(folder, rest, recursive, m));
      RequestsConcat(TraceJob(folder, j, recursive, n), TraceJobs(folder, rest, recursive, n));
    }
  }

  lemma OwnRequests(folder: string, j: Job, recursive: bool, m: string -> bool)
    ensures Requests(TraceJob(folder, j, recursive, m)) ==
      if recursive && j.isFolder then Requests(Trace(ChildPath(folder, j.name), j.sub, recursive, m)) else []
  {
    RequestsConcat(RowEvents(folder, j, m), BelowEvents(folder, j, recursive, m));
    var row := Emitted(RowOf(ChildPath(folder, j.name), j));
    assert [row][..0] == [] && Requests([row]) == [];
  }

  /** A folder is requested, and the walk breaks off when that fails. */
  function FolderEvents(path: string, listing: Listing): seq<Event> {
    [Requested(ApiPath(path))] + if listing.Unreachable? then [Broke] else []
  }

  function EntryEvents(recursive: bool, matches: string -> bool): Found -> seq<Event> {
    (f: Found) =>
      (if matches(f.job.name) then [Emitted(RowOf(f.path, f.job))] else [])
      + if recursive && f.job.isFolder then FolderEvents(f.path, f.job.sub) else []
  }

  function EventsOf(found: seq<Found>, recursive: bool, matches: string -> bool): seq<Event> {
    Flatten(Map(found, EntryEvents(recursive, matches)))
  }

  lemma EventsConcat(a: seq<Found>, b: seq<Found>, recursive: bool, matches: string -> bool)
    ensures EventsOf(a + b, recursive, matches) == EventsOf(a, recursive, matches) + EventsOf(b, recursive, matches)
  {
    var e := EntryEvents(recursive, matches);
    assert Map(a + b, e) == Map(a, e) + Map(b, e);
    FlattenConcat(Map(a, e), Map(b, e));
  }

  lemma EventsOne(f: Found, recursive: bool, matches: string -> bool)
    ensures EventsOf([f], recursive, matches) == EntryEvents(recursive, matches)(f)
  {
    var e := EntryEvents(recursive, matches);
    assert Map([f], e) == [e(f)];
    FlattenOne(e(f));
  }

  /** The uncapped trace, entry by entry: the folder's own request, then for each entry of
      the pre-order listing its row, if its name matches, and its request, if the walk is
      recursive and it is a folder. */
  lemma {:induction false} TraceIsFlat(folder: string, listing: Listing, recursive: bool, matches: string -> bool)
    ensures Trace(folder, listing, recursive, matches) ==
      FolderEvents(folder, listing) + EventsOf(Descendants(folder, listing, recursive), recursive, matches)
    decreases listing, 0
  {
    match listing
    case Unreachable =>
    case Jobs(jobs) =>
      TraceJobsAreFlat(folder, jobs, recursive, matches);
  }

  lemma {:induction false} TraceJobsAreFlat(folder: string, jobs: seq<Job>, recursive: bool, matches: string -> bool)
    ensures TraceJobs(folder, jobs, recursive, matches) ==
      EventsOf(DescendantsOf(folder, jobs, recursive), recursive, matches)
    decreases jobs, 0
  {
    if jobs == [] {
    } else {
      var j, rest := jobs[0], jobs[1..];
      var path := ChildPath(folder, j.name);
      var below := if recursive && j.isFolder then Descendants(path, j.sub, recursive) else [];
      TraceJobsAreFlat(folder, rest, recursive, matches);
      if recursive && j.isFolder {
        TraceIsFlat(path, j.sub, recursive, matches);
      }
      TraceJobIsFlat(folder, j, recursive, matches);
      EventsConcat([Found(path, j)] + below, DescendantsOf(folder, rest, recursive), recursive, matches);
    }
  }

  ghost predicate IsFlat(folder: string, listing: Listing, recursive: bool, matches: string -> bool) {
    Trace(folder, listing, recursive, matches) ==
      FolderEvents(folder, listing) + EventsOf(Descendants(folder, listing, recursive), recursive, matches)
  }

  lemma TraceJobIsFlat(folder: string, j: Job, recursive: bool, matches: string -> bool)
    requires recursive && j.isFolder ==> IsFlat(ChildPath(folder, j.name), j.sub, recursive, matches)
    ensures var path := ChildPath(folder, j.name);
      var below := if recursive && j.isFolder then Descendants(path, j.sub, recursive) else [];
      TraceJob(folder, j, recursive, matches) == EventsOf([Found(path, j)] + below, recursive, matches)
  {
    var path := ChildPath(folder, j.name);
    var below := if recursive && j.isFolder then Descendants(path, j.sub, recursive) else [];
    EventsConcat([Found(path, j)], below, recursive, matches);
    EventsOne(Found(path, j), recursive, matches);
    if recursive && j.isFolder {
      ConcatAssociates(
        RowEvents(folder, j, matches), FolderEvents(path, j.sub), EventsOf(below, recursive, matches));
    } else {
      assert EventsOf(below, recursive, matches) == [];
    }
  }

  /** A child is requested at its parent's API path plus `/job/<name>`. */
  lemma ChildIsRequestedBelowParent(folder: string, name: string)
    requires name != "" && '/' !in name
    ensures ApiPath(ChildPath(folder, name)) == JobPath.Nested(JobPath.Segments(folder)) + "/job/" + name + "/api/json"
    ensures ApiPath("") == "/api/json"
  {
    assert JobPath.Segments("") == [] && JobPath.Nested([]) == "";
    if folder == "" {
      JobPath.NameIsOneSegment(name);
      assert [name][..0] == [];
      assert JobPath.Segments(folder) == [];
      assert JobPath.Nested([name]) == "" + "/job/" + name;
    } else {
      JobPath.ApiPathOfChild(folder, name);
    }
  }

  // ---- the order of the listing ----

  /** The entry reached by taking entry trail[0] of the listing, in it entry trail[1], and
      so on through folders. */
  function EntryAt(folder: string, listing: Listing, recursive: bool, trail: seq<nat>): Option<Found>
    decreases |trail|
  {
    if trail == [] || listing.Unreachable? || trail[0] >= |listing.jobs| then None
    else
      var j := listing.jobs[trail[0]];
      var path := ChildPath(folder, j.name);
      if |trail| == 1 then Some(Found(path, j))
      else if recursive && j.isFolder then EntryAt(path, j.sub, recursive, trail[1..])
      else None
  }

  /** An entry comes before what lies below it and before its later siblings and what
      lies below them. */
  predicate Precedes(s: seq<nat>, t: seq<nat>) {
    t != [] && (s == [] || s[0] < t[0] || (s[0] == t[0] && Precedes(s[1..], t[1..])))
  }

  /** trails are those of found, one by one. */
  ghost predicate Lead(
      trails: seq<seq<nat>>, found: seq<Found>, folder: string, listing: Listing, recursive: bool, from: nat)
  {
    && |trails| == |found|
    && (forall k :: 0 <= k < |trails| ==> EntryAt(folder, listing, recursive, trails[k]) == Some(found[k]))
    && (forall k :: 0 <= k < |trails| ==> trails[k] != [] && trails[k][0] >= from)
  }

  ghost predicate Ordered(trails: seq<seq<nat>>) {
    forall k, l :: 0 <= k < l < |trails| ==> Precedes(trails[k], trails[l])
  }

  /** Every trail from entry `from` on is listed. */
  ghost predicate Complete(trails: seq<seq<nat>>, folder: string, listing: Listing, recursive: bool, from: nat) {
    forall t :: t != [] && t[0] >= from && EntryAt(folder, listing, recursive, t).Some? ==> t in trails
  }

  ghost predicate Trails(
      trails: seq<seq<nat>>, found: seq<Found>, folder: string, listing: Listing, recursive: bool, from: nat)
  {
    && Lead(trails, found, folder, listing, recursive, from) && Ordered(trails)
    && Complete(trails, folder, listing, recursive, from)
  }

  function Under(i: nat): seq<nat> -> seq<nat> {
    (t: seq<nat>) => [i] + t
  }

  lemma UnderReaches(folder: string, listing: Listing, recursive: bool, i: nat, t: seq<nat>)
    requires listing.Jobs? && i < |listing.jobs| && t != []
    ensures var j := listing.jobs[i];
      EntryAt(folder, listing, recursive, [i] + t) ==
        if recursive && j.isFolder then EntryAt(ChildPath(folder, j.name), j.sub, recursive, t) else None
  {
    assert ([i] + t)[1..] == t;
  }

  lemma UnderKeepsOrder(i: nat, s: seq<nat>, t: seq<nat>)
    ensures Precedes([i] + s, [i] + t) <==> Precedes(s, t)
  {
    assert ([i] + s)[1..] == s && ([i] + t)[1..] == t;
  }

  /** The listing holds every entry at or below the folder exactly once, in pre-order. */
  lemma {:induction false} ListingIsPreOrder(folder: string, listing: Listing, recursive: bool)
    returns (trails: seq<seq<nat>>)
    ensures Trails(trails, Descendants(folder, listing, recursive), folder, listing, recursive, 0)
    decreases listing, 1, 0
  {
    match listing
    case Unreachable =>
      trails := [];
    case Jobs(jobs) =>
      trails := SiblingsInOrder(folder, listing, recursive, 0);
      assert jobs[0..] == jobs;
  }

  lemma {:induction false} SiblingsInOrder(folder: string, listing: Listing, recursive: bool, from: nat)
    returns (trails: seq<seq<nat>>)
    requires listing.Jobs? && from <= |listing.jobs|
    ensures Trails(trails, DescendantsOf(folder, listing.jobs[from..], recursive), folder, listing, recursive, from)
    decreases listing, 0, |listing.jobs| - from
  {
    var jobs := listing.jobs;
    if from == |jobs| {
      trails := [];
    } else {
      var j := jobs[from];
      var path := ChildPath(folder, j.name);
      var later := SiblingsInOrder(folder, listing, recursive, from + 1);
      var below: seq<seq<nat>> := [];
      if recursive && j.isFolder {
        below := ListingIsPreOrder(path, j.sub, recursive);
      }
      assert jobs[from..][0] == j && jobs[from..][1..] == jobs[from + 1..];
      trails := [[from]] + Map(below, Under(from)) + later;
      EntryInOrder(folder, listing, recursive, from, below, later);
    }
  }

  /** below leads to what is below entry `from`, later to the entries behind it. */
  ghost predicate Around(
      below: seq<seq<nat>>, later: seq<seq<nat>>, folder: string, listing: Listing, recursive: bool, from: nat)
    requires listing.Jobs? && from < |listing.jobs|
  {
    var j := listing.jobs[from];
    var path := ChildPath(folder, j.name);
    && (if recursive && j.isFolder then
          Trails(below, Descendants(path, j.sub, recursive), path, j.sub, recursive, 0)
        else below == [])
    && Trails(later, DescendantsOf(folder, listing.jobs[from + 1..], recursive), folder, listing, recursive, from + 1)
  }

  lemma EntryInOrder(
      folder: string, listing: Listing, recursive: bool, from: nat, below: seq<seq<nat>>, later: seq<seq<nat>>)
    requires listing.Jobs? && from < |listing.jobs| && Around(below, later, folder, listing, recursive, from)
    ensures var found := DescendantsOf(folder, listing.jobs[from..], recursive);
      Trails([[from]] + Map(below, Under(from)) + later, found, folder, listing, recursive, from)
  {
    EntryLeads(folder, listing, recursive, from, below, later);
    EntryOrdered(from, below, later);
    EntryComplete(folder, listing, recursive, from, below, later);
  }

  function PathAt(folder: string, listing: Listing, i: nat): string
    requires listing.Jobs? && i < |listing.jobs|
  {
    ChildPath(folder, listing.jobs[i].name)
  }

  lemma LeadConcat(
      s: seq<seq<nat>>, t: seq<seq<nat>>, a: seq<Found>, b: seq<Found>,
      folder: string, listing: Listing, recursive: bool, from: nat)
    requires Lead(s, a, folder, listing, recursive, from) && Lead(t, b, folder, listing, recursive, from)
    ensures Lead(s + t, a + b, folder, listing, recursive, from)
  {
  }

  lemma BelowLeads(
      folder: string, listing: Listing, recursive: bool, from: nat, below: seq<seq<nat>>, found: seq<Found>)
    requires listing.Jobs? && from < |listing.jobs| && recursive && listing.jobs[from].isFolder
    requires Lead(below, found, PathAt(folder, listing, from), listing.jobs[from].sub, recursive, 0)
    ensures Lead(Map(below, Under(from)), found, folder, listing, recursive, from)
  {
    var mine := Map(below, Under(from));
    forall k | 0 <= k < |mine|
      ensures mine[k] != [] && mine[k][0] >= from && EntryAt(folder, listing, recursive, mine[k]) == Some(found[k])
    {
      assert mine[k] == [from] + below[k];
      UnderReaches(folder, listing, recursive, from, below[k]);
    }
  }

  lemma EntryLeads(
      folder: string, listing: Listing, recursive: bool, from: nat, below: seq<seq<nat>>, later: seq<seq<nat>>)
    requires listing.Jobs? && from < |listing.jobs| && Around(below, later, folder, listing, recursive, from)
    ensures var found := DescendantsOf(folder, listing.jobs[from..], recursive);
      Lead([[from]] + Map(below, Under(from)) + later, found, folder, listing, recursive, from)
  {
    var j, jobs := listing.jobs[from], listing.jobs;
    var path := ChildPath(folder, j.name);
    var sub := if recursive && j.isFolder then Descendants(path, j.sub, recursive) else [];
    var rest := DescendantsOf(folder, jobs[from + 1..], recursive);
    assert jobs[from..][0] == j && jobs[from..][1..] == jobs[from + 1..];
    if recursive && j.isFolder {
      BelowLeads(folder, listing, recursive, from, below, sub);
    }
    var mine := Map(below, Under(from));
    LeadConcat([[from]], mine, [Found(path, j)], sub, folder, listing, recursive, from);
    LeadConcat([[from]] + mine, later, [Found(path, j)] + sub, rest, folder, listing, recursive, from);
  }

  lemma EntryOrdered(from: nat, below: seq<seq<nat>>, later: seq<seq<nat>>)
    requires Ordered(below) && Ordered(later)
    requires forall k :: 0 <= k < |below| ==> below[k] != []
    requires forall k :: 0 <= k < |later| ==> later[k] != [] && later[k][0] > from
    ensures Ordered([[from]] + Map(below, Under(from)) + later)
  {
    var mine := [[from]] + Map(below, Under(from));
    MineOrdered(from, below);
    forall k | 0 <= k < |mine| ensures mine[k] != [] && mine[k][0] == from {
    }
    forall k, l | 0 <= k < l < |mine + later| ensures Precedes((mine + later)[k], (mine + later)[l]) {
      if k < |mine| <= l {
        assert (mine + later)[k] == mine[k] && (mine + later)[l] == later[l - |mine|];
      }
    }
  }

  lemma MineOrdered(from: nat, below: seq<seq<nat>>)
    requires Ordered(below) && forall k :: 0 <= k < |below| ==> below[k] != []
    ensures Ordered([[from]] + Map(below, Under(from)))
  {
    var mine := [[from]] + Map(below, Under(from));
    forall k, l | 0 <= k < l < |mine| ensures Precedes(mine[k], mine[l]) {
      var s: seq<nat> := if k == 0 then [] else below[k - 1];
      assert mine[k] == [from] + s && mine[l] == [from] + below[l - 1];
      UnderKeepsOrder(from, s, below[l - 1]);
    }
  }

  lemma TrailBelow(
      folder: string, listing: Listing, recursive: bool, from: nat, below: seq<seq<nat>>, t: seq<nat>)
    requires listing.Jobs? && from < |listing.jobs| && |t| > 1 && t[0] == from
    requires recursive && listing.jobs[from].isFolder ==>
      Complete(below, PathAt(folder, listing, from), listing.jobs[from].sub, recursive, 0)
    requires EntryAt(folder, listing, recursive, t).Some?
    ensures t in Map(below, Under(from))
  {
    assert t == [from] + t[1..];
    UnderReaches(folder, listing, recursive, from, t[1..]);
    assert t[1..][0] >= 0 && t[1..] in below;
    var k :| 0 <= k < |below| && below[k] == t[1..];
    assert Map(below, Under(from))[k] == t;
  }

  lemma InThreeParts(t: seq<nat>, head: seq<nat>, mine: seq<seq<nat>>, later: seq<seq<nat>>)
    requires t == head || t in mine || t in later
    ensures t in [head] + mine + later
  {
  }

  lemma EntryComplete(
      folder: string, listing: Listing, recursive: bool, from: nat, below: seq<seq<nat>>, later: seq<seq<nat>>)
    requires listing.Jobs? && from < |listing.jobs|
    requires recursive && listing.jobs[from].isFolder ==>
      Complete(below, PathAt(folder, listing, from), listing.jobs[from].sub, recursive, 0)
    requires Complete(later, folder, listing, recursive, from + 1)
    ensures Complete([[from]] + Map(below, Under(from)) + later, folder, listing, recursive, from)
  {
    var mine := Map(below, Under(from));
    forall t: seq<nat> | t != [] && t[0] >= from && EntryAt(folder, listing, recursive, t).Some?
      ensures t in [[from]] + mine + later
    {
      if t[0] == from {
        if |t| == 1 {
          assert t == [from];
        } else {
          TrailBelow(folder, listing, recursive, from, below, t);
        }
      }
      InThreeParts(t, [from], mine, later);
    }
  }

  // ---- distinct job paths ----

  /** Sibling names are distinct, non-empty and slash-free in every listing that the
      walk may request. */
  ghost predicate WellNamed(listing: Listing, recursive: bool)
    decreases listing, 0
  {
    listing.Jobs? ==> WellNamedJobs(listing.jobs, recursive)
  }

  ghost predicate WellNamedJobs(jobs: seq<Job>, recursive: bool)
    decreases jobs, 0
  {
    jobs != [] ==>
      && jobs[0].name != "" && '/' !in jobs[0].name
      && (forall k :: 0 < k < |jobs| ==> jobs[k].name != jobs[0].name)
      && (recursive && jobs[0].isFolder ==> WellNamed(jobs[0].sub, recursive))
      && WellNamedJobs(jobs[1..], recursive)
  }

  /** path is top itself or lies below it. */
  predicate AtOrBelow(path: string, top: string) {
    top <= path && (|path| > |top| ==> path[|top|] == '/')
  }

  lemma SiblingsDisjoint(folder: string, a: string, b: string, path: string)
    requires '/' !in a && '/' !in b && a != b
    requires AtOrBelow(path, ChildPath(folder, a))
    ensures !AtOrBelow(path, ChildPath(folder, b))
  {
    if AtOrBelow(path, ChildPath(folder, b)) {
      if |a| <= |b| {
        SiblingPrefix(folder, a, b, path);
      } else {
        SiblingPrefix(folder, b, a, path);
      }
      assert false;
    }
  }

  lemma SiblingPrefix(folder: string, a: string, b: string, path: string)
    requires '/' !in b && |a| <= |b|
    requires AtOrBelow(path, ChildPath(folder, a)) && AtOrBelow(path, ChildPath(folder, b))
    ensures a == b
  {
    var n := |ChildPath(folder, a)| - |a|;
    assert forall k :: 0 <= k < |a| ==> a[k] == path[n + k];
    assert forall k :: 0 <= k < |b| ==> b[k] == path[n + k];
    if |a| < |b| {
      LongerSiblingHasSlash(folder, a, b, path);
      assert false;
    }
  }

  lemma LongerSiblingHasSlash(folder: string, a: string, b: string, path: string)
    requires |a| < |b|
    requires AtOrBelow(path, ChildPath(folder, a)) && AtOrBelow(path, ChildPath(folder, b))
    ensures '/' in b
  {
    var n := |ChildPath(folder, a)| - |a|;
    assert b[|a|] == ChildPath(folder, b)[n + |a|] == path[n + |a|];
  }

  /** Every entry listed from these siblings lies at or below one of them. */
  lemma {:induction false} FoundBelowSome(folder: string, jobs: seq<Job>, recursive: bool, f: Found) returns (k: nat)
    requires WellNamedJobs(jobs, recursive) && f in DescendantsOf(folder, jobs, recursive)
    ensures k < |jobs| && AtOrBelow(f.path, ChildPath(folder, jobs[k].name))
    decreases jobs, 0
  {
    var j := jobs[0];
    var path := ChildPath(folder, j.name);
    if f == Found(path, j) {
      k := 0;
    } else if f in DescendantsOf(folder, jobs[1..], recursive) {
      var m := FoundBelowSome(folder, jobs[1..], recursive, f);
      k := m + 1;
    } else {
      FoundStrictlyBelow(path, j.sub, recursive, f);
      k := 0;
    }
  }

  lemma {:induction false} FoundStrictlyBelow(folder: string, listing: Listing, recursive: bool, f: Found)
    requires folder != "" && WellNamed(listing, recursive) && f in Descendants(folder, listing, recursive)
    ensures AtOrBelow(f.path, folder) && f.path != folder
    decreases listing, 0
  {
    var k := FoundBelowSome(folder, listing.jobs, recursive, f);
    NamesAreNames(listing.jobs, k, recursive);
    assert AtOrBelow(ChildPath(folder, listing.jobs[k].name), folder);
  }

  lemma {:induction false} NamesAreNames(jobs: seq<Job>, k: nat, recursive: bool)
    requires WellNamedJobs(jobs, recursive) && k < |jobs|
    ensures jobs[k].name != "" && '/' !in jobs[k].name
  {
    if k == 0 {
    } else {
      NamesAreNames(jobs[1..], k - 1, recursive);
    }
  }

  ghost predicate DistinctFound(found: seq<Found>) {
    forall i, j :: 0 <= i < j < |found| ==> found[i].path != found[j].path
  }

  lemma DistinctFoundConcat(a: seq<Found>, b: seq<Found>)
    requires DistinctFound(a) && DistinctFound(b)
    requires forall f, g :: f in a && g in b ==> f.path != g.path
    ensures DistinctFound(a + b)
  {
    var c := a + b;
    forall i, j | 0 <= i < j < |c| ensures c[i].path != c[j].path {
      if i < |a| <= j {
        assert c[i] in a && c[j] in b;
      }
    }
  }

  lemma {:induction false} DescendantsDistinct(folder: string, listing: Listing, recursive: bool)
    requires WellNamed(listing, recursive)
    ensures DistinctFound(Descendants(folder, listing, recursive))
    decreases listing, 0
  {
    if listing.Unreachable? {
    } else {
      DescendantsOfDistinct(folder, listing.jobs, recursive);
    }
  }

  lemma {:induction false} DescendantsOfDistinct(folder: string, jobs: seq<Job>, recursive: bool)
    requires WellNamedJobs(jobs, recursive)
    ensures DistinctFound(DescendantsOf(folder, jobs, recursive))
    decreases jobs, 0
  {
    if jobs == [] {
    } else {
      var j, rest := jobs[0], jobs[1..];
      var path := ChildPath(folder, j.name);
      var own := [Found(path, j)];
      var below := if recursive && j.isFolder then Descendants(path, j.sub, recursive) else [];
      var others := DescendantsOf(folder, rest, recursive);
      if recursive && j.isFolder {
        DescendantsDistinct(path, j.sub, recursive);
      }
      DescendantsOfDistinct(folder, rest, recursive);
      forall f | f in below ensures AtOrBelow(f.path, path) && f.path != path {
        FoundStrictlyBelow(path, j.sub, recursive, f);
      }
      DistinctFoundConcat(own, below);
      forall f, g | f in own + below && g in others ensures f.path != g.path {
        var k := FoundBelowSome(folder, rest, recursive, g);
        NamesAreNames(rest, k, recursive);
        assert rest[k] == jobs[k + 1];
        SiblingsDisjoint(folder, rest[k].name, j.name, g.path);
      }
      DistinctFoundConcat(own + below, others);
    }
  }

  lemma {:induction false} FilterKeepsDistinct(found: seq<Found>, p: Found -> bool)
    requires DistinctFound(found)
    ensures DistinctFound(Filter(found, p))
  {
    if found == [] {
    } else {
      var n := |found| - 1;
      FilterKeepsDistinct(found[..n], p);
      FilterMembers(found[..n], p);
      forall f | f in Filter(found[..n], p) ensures f.path != found[n].path {
        assert f in found[..n];
        var i :| 0 <= i < n && found[..n][i] == f;
        assert found[i] == f;
      }
    }
  }

  /** With distinct, non-empty, slash-free sibling names, no two rows of the listing
      carry the same job path. */
  lemma ListedPathsAreDistinct(folder: string, listing: Listing, recursive: bool, matches: string -> bool)
    requires WellNamed(listing, recursive)
    ensures var rows := FullListing(folder, listing, recursive, matches);
      forall i, j :: 0 <= i < j < |rows| ==> rows[i].jobPath != rows[j].jobPath
  {
    DescendantsDistinct(folder, listing, recursive);
    FilterKeepsDistinct(Descendants(folder, listing, recursive), (f: Found) => matches(f.job.name));
  }
}
