/** The bounded fan-out: one goroutine per item, a six-slot semaphore, a wait
    group, and a result slice filled by index. Every schedule is a run. */
module FanOut {
  import opened Sequences

  const CONCURRENCY := 6

  /** Where the goroutine of one item stands. */
  datatype Phase = Unspawned | Ready | Holding | Stored | Released | Finished {
    predicate InSemaphore() {
      Holding? || Stored?
    }

    predicate InWaitGroup() {
      !Unspawned? && !Finished?
    }

    function StepsLeft(): nat {
      match this
      case Unspawned => 5
      case Ready => 4
      case Holding => 3
      case Stored => 2
      case Released => 1
      case Finished => 0
    }
  }

  datatype State<T> = State(
    spawned: nat,             // goroutines started so far, in item order
    tasks: seq<Phase>,
    sem: nat,                 // occupied semaphore slots
    wg: nat,                  // wait-group counter
    results: seq<Option<T>>,  // None until the slot is written
    returned: bool)

  function Count(tasks: seq<Phase>, p: Phase -> bool): nat {
    if tasks == [] then 0
    else Count(tasks[..|tasks| - 1], p) + if p(tasks[|tasks| - 1]) then 1 else 0
  }

  function Init<T>(n: nat): State<T> {
    State(0, seq(n, i => Unspawned), 0, 0, seq(n, i => None), false)
  }

  // ---- steps ----

  function Move<T>(s: State<T>, i: nat, phase: Phase): State<T>
    requires i < |s.tasks|
  {
    s.(tasks := s.tasks[i := phase])
  }

  ghost predicate Spawn<T>(s: State<T>, t: State<T>) {
    && !s.returned && s.spawned < |s.tasks|
    && t == Move(s, s.spawned, Ready).(spawned := s.spawned + 1, wg := s.wg + 1)
  }

  ghost predicate Acquire<T>(s: State<T>, t: State<T>, i: nat) {
    && i < |s.tasks| && s.tasks[i].Ready? && s.sem < CONCURRENCY
    && t == Move(s, i, Holding).(sem := s.sem + 1)
  }

  ghost predicate Store<K, T>(items: seq<K>, fetch: K -> T, s: State<T>, t: State<T>, i: nat) {
    && i < |s.tasks| && i < |items| && i < |s.results| && s.tasks[i].Holding?
    && t == Move(s, i, Stored).(results := s.results[i := Some(fetch(items[i]))])
  }

  ghost predicate Release<T>(s: State<T>, t: State<T>, i: nat) {
    && i < |s.tasks| && s.tasks[i].Stored? && s.sem > 0
    && t == Move(s, i, Released).(sem := s.sem - 1)
  }

  ghost predicate Finish<T>(s: State<T>, t: State<T>, i: nat) {
    && i < |s.tasks| && s.tasks[i].Released? && s.wg > 0
    && t == Move(s, i, Finished).(wg := s.wg - 1)
  }

  /** wg.Wait lets the caller go on once every goroutine was started and has finished. */
  ghost predicate Return<T>(s: State<T>, t: State<T>) {
    && !s.returned && s.spawned == |s.tasks| && s.wg == 0
    && t == s.(returned := true)
  }

  ghost predicate TaskStep<K, T>(items: seq<K>, fetch: K -> T, s: State<T>, t: State<T>, i: nat) {
    Acquire(s, t, i) || Store(items, fetch, s, t, i) || Release(s, t, i) || Finish(s, t, i)
  }

  ghost predicate Step<K, T>(items: seq<K>, fetch: K -> T, s: State<T>, t: State<T>) {
    Spawn(s, t) || Return(s, t) || exists i: nat :: TaskStep(items, fetch, s, t, i)
  }

  ghost predicate IsRun<K, T>(items: seq<K>, fetch: K -> T, states: seq<State<T>>) {
    && states != [] && states[0] == Init(|items|)
    && forall i :: 0 <= i < |states| - 1 ==> Step(items, fetch, states[i], states[i + 1])
  }

  // ---- invariant ----

  const IN_SEMAPHORE: Phase -> bool := (p: Phase) => p.InSemaphore()
  const IN_WAIT_GROUP: Phase -> bool := (p: Phase) => p.InWaitGroup()

  ghost predicate Inv<K, T>(items: seq<K>, fetch: K -> T, s: State<T>) {
    && |s.tasks| == |s.results| == |items| && s.spawned <= |items|
    && (forall i :: 0 <= i < |items| ==> (s.tasks[i].Unspawned? <==> i >= s.spawned))
    && s.sem == Count(s.tasks, IN_SEMAPHORE) && s.sem <= CONCURRENCY
    && s.wg == Count(s.tasks, IN_WAIT_GROUP)
    && (forall i :: 0 <= i < |items| ==>
          s.results[i] == if s.tasks[i].StepsLeft() <= 2 then Some(fetch(items[i])) else None)
    && (s.returned ==> forall i :: 0 <= i < |items| ==> s.tasks[i].Finished?)
  }

  lemma {:induction false} CountUpdate(tasks: seq<Phase>, p: Phase -> bool, i: nat, phase: Phase)
    requires i < |tasks|
    ensures Count(tasks[i := phase], p) ==
            Count(tasks, p) - (if p(tasks[i]) then 1 else 0) + (if p(phase) then 1 else 0)
  {
    var n := |tasks| - 1;
    if i < n {
      CountUpdate(tasks[..n], p, i, phase);
      assert tasks[i := phase][..n] == tasks[..n][i := phase];
    } else {
      assert tasks[i := phase][..n] == tasks[..n];
    }
  }

  lemma {:induction false} CountAt(tasks: seq<Phase>, p: Phase -> bool, i: nat)
    requires i < |tasks| && p(tasks[i])
    ensures Count(tasks, p) > 0
  {
    if i == |tasks| - 1 {
    } else {
      CountAt(tasks[..|tasks| - 1], p, i);
    }
  }

  lemma {:induction false} CountNone(tasks: seq<Phase>, p: Phase -> bool)
    requires forall i :: 0 <= i < |tasks| ==> !p(tasks[i])
    ensures Count(tasks, p) == 0
  {
    if tasks == [] {
    } else {
      CountNone(tasks[..|tasks| - 1], p);
    }
  }

  lemma {:induction false} CountWitness(tasks: seq<Phase>, p: Phase -> bool) returns (i: nat)
    requires Count(tasks, p) > 0
    ensures i < |tasks| && p(tasks[i])
  {
    var n := |tasks| - 1;
    if p(tasks[n]) {
      i := n;
    } else {
      i := CountWitness(tasks[..n], p);
    }
  }

  lemma InitHolds<K, T>(items: seq<K>, fetch: K -> T)
    ensures Inv(items, fetch, Init(|items|))
  {
    var s: State<T> := Init(|items|);
    CountNone(s.tasks, IN_SEMAPHORE);
    CountNone(s.tasks, IN_WAIT_GROUP);
  }

  lemma SpawnKeepsInv<K, T>(items: seq<K>, fetch: K -> T, s: State<T>, t: State<T>)
    requires Inv(items, fetch, s) && Spawn(s, t)
    ensures Inv(items, fetch, t)
  {
    CountUpdate(s.tasks, IN_SEMAPHORE, s.spawned, Ready);
    CountUpdate(s.tasks, IN_WAIT_GROUP, s.spawned, Ready);
  }

  lemma ReturnKeepsInv<K, T>(items: seq<K>, fetch: K -> T, s: State<T>, t: State<T>)
    requires Inv(items, fetch, s) && Return(s, t)
    ensures Inv(items, fetch, t)
  {
    forall i | 0 <= i < |items| ensures s.tasks[i].Finished? {
      if s.tasks[i].InWaitGroup() {
        CountAt(s.tasks, IN_WAIT_GROUP, i);
      }
    }
  }

  lemma FetchKeepsInv<K, T>(items: seq<K>, fetch: K -> T, s: State<T>, t: State<T>, i: nat)
    requires Inv(items, fetch, s) && (Acquire(s, t, i) || Store(items, fetch, s, t, i))
    ensures Inv(items, fetch, t)
  {
    CountUpdate(s.tasks, IN_SEMAPHORE, i, t.tasks[i]);
    CountUpdate(s.tasks, IN_WAIT_GROUP, i, t.tasks[i]);
  }

  lemma LeaveKeepsInv<K, T>(items: seq<K>, fetch: K -> T, s: State<T>, t: State<T>, i: nat)
    requires Inv(items, fetch, s) && (Release(s, t, i) || Finish(s, t, i))
    ensures Inv(items, fetch, t)
  {
    CountUpdate(s.tasks, IN_SEMAPHORE, i, t.tasks[i]);
    CountUpdate(s.tasks, IN_WAIT_GROUP, i, t.tasks[i]);
  }

  lemma TaskKeepsInv<K, T>(items: seq<K>, fetch: K -> T, s: State<T>, t: State<T>, i: nat)
    requires Inv(items, fetch, s) && TaskStep(items, fetch, s, t, i)
    ensures Inv(items, fetch, t)
  {
    if Acquire(s, t, i) || Store(items, fetch, s, t, i) {
      FetchKeepsInv(items, fetch, s, t, i);
    } else {
      LeaveKeepsInv(items, fetch, s, t, i);
    }
  }

  lemma StepKeepsInv<K, T>(items: seq<K>, fetch: K -> T, s: State<T>, t: State<T>)
    requires Inv(items, fetch, s) && Step(items, fetch, s, t)
    ensures Inv(items, fetch, t)
  {
    if Spawn(s, t) {
      SpawnKeepsInv(items, fetch, s, t);
    } else if Return(s, t) {
      ReturnKeepsInv(items, fetch, s, t);
    } else {
      var i: nat :| TaskStep(items, fetch, s, t, i);
      TaskKeepsInv(items, fetch, s, t, i);
    }
  }

  lemma {:induction false} RunKeepsInv<K, T>(items: seq<K>, fetch: K -> T, states: seq<State<T>>, k: nat)
    requires IsRun(items, fetch, states) && k < |states|
    ensures Inv(items, fetch, states[k])
  {
    if k == 0 {
      InitHolds(items, fetch);
    } else {
      RunKeepsInv(items, fetch, states, k - 1);
      assert Step(items, fetch, states[k - 1], states[k]);
      StepKeepsInv(items, fetch, states[k - 1], states[k]);
    }
  }

  // ---- main results ----

  /** In every schedule at most six tasks fetch at once, one per occupied slot. */
  lemma AtMostSixInFlight<K, T>(items: seq<K>, fetch: K -> T, states: seq<State<T>>, k: nat)
    requires IsRun(items, fetch, states) && k < |states|
    ensures Count(states[k].tasks, IN_SEMAPHORE) == states[k].sem <= 6
  {
    RunKeepsInv(items, fetch, states, k);
  }

  /** A step writes at most the result slot of the task that took it, and a slot
      once written never changes. */
  lemma WritesOwnSlotOnce<K, T>(items: seq<K>, fetch: K -> T, s: State<T>, t: State<T>, i: nat)
    requires Inv(items, fetch, s) && TaskStep(items, fetch, s, t, i)
    ensures |t.results| == |s.results|
    ensures forall j :: 0 <= j < |s.results| && (j != i || s.results[j].Some?) ==> t.results[j] == s.results[j]
  {
  }

  lemma TaskCanStep<K, T>(items: seq<K>, fetch: K -> T, s: State<T>, i: nat) returns (t: State<T>)
    requires Inv(items, fetch, s) && i < |items| && s.tasks[i].InWaitGroup()
    requires s.tasks[i].Ready? ==> s.sem < CONCURRENCY
    ensures TaskStep(items, fetch, s, t, i)
  {
    match s.tasks[i]
    case Ready =>
      t := Move(s, i, Holding).(sem := s.sem + 1);
    case Holding =>
      t := Move(s, i, Stored).(results := s.results[i := Some(fetch(items[i]))]);
    case Stored =>
      CountAt(s.tasks, IN_SEMAPHORE, i);
      t := Move(s, i, Released).(sem := s.sem - 1);
    case Released =>
      CountAt(s.tasks, IN_WAIT_GROUP, i);
      t := Move(s, i, Finished).(wg := s.wg - 1);
  }

  /** Until the call has returned, some step is possible. */
  lemma NeverStuck<K, T>(items: seq<K>, fetch: K -> T, s: State<T>)
    requires Inv(items, fetch, s) && !s.returned
    ensures exists t :: Step(items, fetch, s, t)
  {
    if s.spawned < |items| {
      var t := Move(s, s.spawned, Ready).(spawned := s.spawned + 1, wg := s.wg + 1);
      assert Spawn(s, t);
      assert Step(items, fetch, s, t);
    } else if s.wg == 0 {
      var t := s.(returned := true);
      assert Return(s, t);
      assert Step(items, fetch, s, t);
    } else {
      var i := CountWitness(s.tasks, IN_WAIT_GROUP);
      if s.sem > 0 {
        i := CountWitness(s.tasks, IN_SEMAPHORE);
      }
      var t := TaskCanStep(items, fetch, s, i);
      assert Step(items, fetch, s, t);
    }
  }

  function Work(tasks: seq<Phase>): nat {
    if tasks == [] then 0 else Work(tasks[..|tasks| - 1]) + tasks[|tasks| - 1].StepsLeft()
  }

  lemma {:induction false} WorkUpdate(tasks: seq<Phase>, i: nat, phase: Phase)
    requires i < |tasks|
    ensures Work(tasks[i := phase]) == Work(tasks) - tasks[i].StepsLeft() + phase.StepsLeft()
  {
    var n := |tasks| - 1;
    if i < n {
      WorkUpdate(tasks[..n], i, phase);
      assert tasks[i := phase][..n] == tasks[..n][i := phase];
    } else {
      assert tasks[i := phase][..n] == tasks[..n];
    }
  }

  lemma {:induction false} WorkOfAll(tasks: seq<Phase>, phase: Phase)
    requires forall i :: 0 <= i < |tasks| ==> tasks[i] == phase
    ensures Work(tasks) == phase.StepsLeft() * |tasks|
  {
    if tasks == [] {
    } else {
      WorkOfAll(tasks[..|tasks| - 1], phase);
    }
  }

  function Measure<T>(s: State<T>): nat {
    Work(s.tasks) + if s.returned then 0 else 1
  }

  lemma StepCostsOne<K, T>(items: seq<K>, fetch: K -> T, s: State<T>, t: State<T>)
    requires Inv(items, fetch, s) && Step(items, fetch, s, t)
    ensures Measure(t) == Measure(s) - 1
  {
    if Spawn(s, t) {
      WorkUpdate(s.tasks, s.spawned, Ready);
    } else if !Return(s, t) {
      var i: nat :| TaskStep(items, fetch, s, t, i);
      TaskCostsOne(items, fetch, s, t, i);
    }
  }

  lemma TaskCostsOne<K, T>(items: seq<K>, fetch: K -> T, s: State<T>, t: State<T>, i: nat)
    requires TaskStep(items, fetch, s, t, i)
    ensures Measure(t) == Measure(s) - 1
  {
    WorkUpdate(s.tasks, i, t.tasks[i]);
  }

  lemma {:induction false} RunMeasure<K, T>(items: seq<K>, fetch: K -> T, states: seq<State<T>>, k: nat)
    requires IsRun(items, fetch, states) && k < |states|
    ensures Measure(states[k]) == 5 * |items| + 1 - k
  {
    if k == 0 {
      WorkOfAll(states[0].tasks, Unspawned);
    } else {
      RunMeasure(items, fetch, states, k - 1);
      RunKeepsInv(items, fetch, states, k - 1);
      assert Step(items, fetch, states[k - 1], states[k]);
      StepCostsOne(items, fetch, states[k - 1], states[k]);
    }
  }

  /** Every schedule ends: the call has returned after exactly 5n + 1 steps and never before. */
  lemma ReturnsAfterExactly<K, T>(items: seq<K>, fetch: K -> T, states: seq<State<T>>, k: nat)
    requires IsRun(items, fetch, states) && k < |states|
    ensures k <= 5 * |items| + 1
    ensures states[k].returned <==> k == 5 * |items| + 1
  {
    RunMeasure(items, fetch, states, k);
    RunKeepsInv(items, fetch, states, k);
    if states[k].returned {
      WorkOfAll(states[k].tasks, Finished);
    }
  }

  /** Whatever the schedule, the returned slice is the sequential map of fetch. */
  lemma ReturnsSequentialMap<K, T>(items: seq<K>, fetch: K -> T, states: seq<State<T>>, k: nat)
    requires IsRun(items, fetch, states) && k < |states| && states[k].returned
    ensures |states[k].results| == |items|
    ensures forall i :: 0 <= i < |items| ==> states[k].results[i] == Some(fetch(items[i]))
  {
    RunKeepsInv(items, fetch, states, k);
  }

  // ---- the sample the fan-out runs over ----

  const COMPLETED_BUILDS_BUFFER := 5

  datatype Build = Build(number: int, result: string)

  predicate IsCompleted(b: Build) {
    b.result != ""
  }

  /** The listing request covers the newest sampleSize + 5 builds of the job. */
  function Window(history: seq<Build>, sampleSize: nat): seq<Build> {
    Take(history, sampleSize + COMPLETED_BUILDS_BUFFER)
  }

  /** out is the newest completed builds, up to sampleSize of them, among the newest
      sampleSize + 5 builds. */
  ghost predicate SampleAt(out: seq<Build>, history: seq<Build>, sampleSize: nat, at: seq<nat>) {
    && |at| == |out| <= sampleSize
    && (forall k :: 0 <= k < |at| ==>
          at[k] < |history| && at[k] < sampleSize + 5 && out[k] == history[at[k]] && out[k].result != "")
    && (forall k, l :: 0 <= k < l < |at| ==> at[k] < at[l])
    && (forall i :: 0 <= i < |history| && i < sampleSize + 5 && history[i].result != "" ==>
          i in at || (|at| == sampleSize && 0 < sampleSize && at[sampleSize - 1] < i))
  }

  lemma SampleIsExact(history: seq<Build>, sampleSize: nat) returns (at: seq<nat>)
    requires sampleSize > 0
    ensures SampleAt(Take(Filter(Window(history, sampleSize), IsCompleted), sampleSize), history, sampleSize, at)
  {
    var w := Window(history, sampleSize);
    var all := FilterAt(w, IsCompleted);
    at := Take(all, sampleSize);
    forall i | 0 <= i < |history| && i < sampleSize + 5 && history[i].result != ""
      ensures i in at || (|at| == sampleSize && at[sampleSize - 1] < i)
    {
      assert w[i] == history[i] && IsCompleted(w[i]);
      InFirst(all, i, sampleSize);
    }
  }

  method DiscoverCompletedBuilds(history: seq<Build>, sampleSize: nat) returns (out: seq<Build>)
    requires sampleSize > 0
    ensures out == Take(Filter(Window(history, sampleSize), IsCompleted), sampleSize)
  {
    var listing := Window(history, sampleSize);
    out := [];
    for i := 0 to |listing|
      invariant out == Filter(listing[..i], IsCompleted)
      invariant |out| < sampleSize
    {
      assert listing[..i + 1][..i] == listing[..i];
      if listing[i].result != "" {
        out := out + [listing[i]];
        if |out| >= sampleSize {
          FilterPrefix(listing, i + 1, IsCompleted);
          return;
        }
      }
    }
    assert listing[..|listing|] == listing;
  }

  lemma {:induction false} FilterSplit<T>(xs: seq<T>, i: nat, p: T -> bool)
    requires i <= |xs|
    ensures Filter(xs, p) == Filter(xs[..i], p) + Filter(xs[i..], p)
  {
    if i == |xs| {
      assert xs[..i] == xs && xs[i..] == [];
    } else {
      var n := |xs| - 1;
      FilterSplit(xs[..n], i, p);
      assert xs[..n][..i] == xs[..i];
      assert xs[i..][..|xs[i..]| - 1] == xs[..n][i..];
    }
  }

  lemma FilterPrefix<T>(xs: seq<T>, i: nat, p: T -> bool)
    requires i <= |xs|
    ensures Filter(xs[..i], p) <= Filter(xs, p)
  {
    FilterSplit(xs, i, p);
  }

  predicate InProgress(b: Build) {
    b.result == ""
  }

  lemma {:induction false} CompletedAndInProgress(builds: seq<Build>)
    ensures |Filter(builds, IsCompleted)| + |Filter(builds, InProgress)| == |builds|
  {
    if builds == [] {
    } else {
      CompletedAndInProgress(builds[..|builds| - 1]);
    }
  }

  /** The sample is the latest sampleSize completed builds of the whole history
      exactly when at most five of the listed builds are still in progress, or no
      build beyond them is completed. */
  lemma SampleIsLatest(history: seq<Build>, sampleSize: nat)
    ensures var w := Window(history, sampleSize);
      Take(Filter(w, IsCompleted), sampleSize) == Take(Filter(history, IsCompleted), sampleSize)
      <==> |Filter(w, InProgress)| <= 5 || Filter(history[|w|..], IsCompleted) == []
  {
    var w := Window(history, sampleSize);
    CompletedAndInProgress(w);
    FilterSplit(history, |w|, IsCompleted);
    assert history[..|w|] == w;
    TakeOfFront(Filter(w, IsCompleted), Filter(history[|w|..], IsCompleted), sampleSize);
  }

  lemma TakeOfFront<T>(seen: seq<T>, unseen: seq<T>, n: nat)
    ensures Take(seen, n) == Take(seen + unseen, n) <==> |seen| >= n || unseen == []
  {
    if |seen| >= n {
      assert Take(seen, n) == Take(seen + unseen, n);
    } else if unseen == [] {
      assert seen + unseen == seen;
    } else {
      assert |Take(seen + unseen, n)| > |Take(seen, n)|;
    }
  }

  /** On a long enough history the sample is full exactly when at most five of the
      listed builds are still in progress. */
  lemma BufferAbsorbsFive(history: seq<Build>, sampleSize: nat)
    requires |history| >= sampleSize + 5
    ensures var w := Window(history, sampleSize);
      |Take(Filter(w, IsCompleted), sampleSize)| == sampleSize <==> |Filter(w, InProgress)| <= 5
  {
    CompletedAndInProgress(Window(history, sampleSize));
  }

  lemma {:induction false} NoneCompleted(builds: seq<Build>)
    requires forall b :: b in builds ==> InProgress(b)
    ensures Filter(builds, IsCompleted) == []
  {
    if builds == [] {
    } else {
      var n := |builds| - 1;
      assert builds[n] in builds;
      NoneCompleted(builds[..n]);
    }
  }

  /** Six builds in progress hide the completed build behind them from a sample of one. */
  lemma SixInProgressHideTheLatest(running: seq<Build>, done: Build)
    requires |running| == 6 && forall b :: b in running ==> InProgress(b)
    requires IsCompleted(done)
    ensures Take(Filter(Window(running + [done], 1), IsCompleted), 1) == []
    ensures Take(Filter(running + [done], IsCompleted), 1) == [done]
  {
    var history := running + [done];
    assert Window(history, 1) == running;
    NoneCompleted(running);
    assert history[..6] == running;
  }
}
