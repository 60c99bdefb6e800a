/** Concurrent Fetch calls against a changing Jenkins: every interleaving of
    their steps, with server changes in between.

    What the code does not guarantee is built into the steps as an assumption:
    a file write is a single step; while a Fetch stands between its timestamp
    probe and its body request, the probed build slot is not replaced or
    deleted; a replayed build gets a timestamp its slot never had; a log that
    passes the finished check is final; job paths in use with one slug name one job. */
module CacheProtocol {
  import opened Sequences
  import opened CacheDir
  import CacheKey
  import JobPath

  /** A build slot of Jenkins: the names of the job's path, and a build number. */
  datatype Slot = Slot(names: seq<string>, number: int)

  /** What a Fetch is called with. Jenkins answers for the slot its API path names. */
  datatype Request = Request(jobPath: string, number: int) {
    function Target(): Slot {
      Slot(JobPath.Segments(jobPath), number)
    }

    function FileName(timestamp: int): string {
      CacheKey.FileName(jobPath, number, timestamp)
    }
  }

  /** One run of a build: the slot it sits in and its start time. */
  datatype Run = Run(slot: Slot, timestamp: int)

  /** Which run each slot holds now, and the log of every run there ever was. */
  datatype Server = Server(current: map<Slot, int>, logs: map<Run, string>) {
    /** What a consoleText request for the slot returns now. */
    function ConsoleText(slot: Slot): Option<string> {
      if slot in current && Run(slot, current[slot]) in logs
      then Some(logs[Run(slot, current[slot])]) else None
    }
  }

  /** Where one Fetch stands. `timestamp` is None when the build is lastBuild or
      the probe failed. */
  datatype Phase =
    | Idle
    | Probed(ask: Request, timestamp: Option<int>)
    | Touching(body: string, path: string)
    | Missed(ask: Request, timestamp: Option<int>)
    | Waiting(body: string, path: string)
    | Locked(body: string, path: string)
    | Written(body: string, path: string)
    | Evicting(body: string, path: string, items: seq<Item>, next: nat, total: int)
    | Done(body: string, path: string)
  {
    predicate HoldsLock() {
      Locked? || Written? || Evicting?
    }

    predicate Asks() {
      Probed? || Missed?
    }

    /** The Fetch carries a body to or from the cache file it names. */
    predicate Carries() {
      Touching? || Waiting? || Locked? || Written? || Evicting?
    }

    predicate MidProbe(s: Slot) {
      Asks() && ask.Target() == s && timestamp.Some?
    }
  }

  datatype State = State(server: Server, disk: Dir, lock: Option<nat>, procs: seq<Phase>)

  /** The jobs in use, the byte cap, and the files whose removal may be refused. */
  datatype Config = Config(jobs: set<string>, cap: nat, stuck: set<string>)

  /** Job paths with one slug name one job; they may differ in outer slashes. */
  ghost predicate DistinctSlugs(jobs: set<string>) {
    forall a, b :: a in jobs && b in jobs && CacheKey.Slug(a) == CacheKey.Slug(b) ==>
      JobPath.Segments(a) == JobPath.Segments(b)
  }

  // ---- steps of Jenkins ----

  ghost predicate ServerStep(s: State, t: State) {
    && t.disk == s.disk && t.lock == s.lock && t.procs == s.procs
    && ((exists slot, ts, log :: StartBuild(s, t, slot, ts, log))
        || (exists run, more :: GrowLog(s, t, run, more))
        || (exists slot :: DeleteBuild(s, t, slot)))
  }

  ghost predicate Undisturbed(s: State, slot: Slot) {
    forall p :: 0 <= p < |s.procs| ==> !s.procs[p].MidProbe(slot)
  }

  /** A build starts in a free slot, or replaces the one there. */
  ghost predicate StartBuild(s: State, t: State, slot: Slot, ts: int, log: string) {
    && Undisturbed(s, slot) && Run(slot, ts) !in s.server.logs
    && t.server == Server(s.server.current[slot := ts], s.server.logs[Run(slot, ts) := log])
  }

  ghost predicate GrowLog(s: State, t: State, run: Run, more: string) {
    && run in s.server.logs && !CacheKey.PassesFinishedCheck(s.server.logs[run])
    && t.server == s.server.(logs := s.server.logs[run := s.server.logs[run] + more])
  }

  ghost predicate DeleteBuild(s: State, t: State, slot: Slot) {
    && Undisturbed(s, slot)
    && t.server == s.server.(current := s.server.current - {slot})
  }

  // ---- steps of one Fetch ----

  function Put(s: State, p: nat, phase: Phase): State
    requires p < |s.procs|
  {
    s.(procs := s.procs[p := phase])
  }

  /** A known timestamp is that of the run the slot holds now. */
  ghost predicate IsCurrent(server: Server, ask: Request, ts: Option<int>) {
    ts.Some? ==> ask.number > 0 && ask.Target() in server.current && server.current[ask.Target()] == ts.value
  }

  /** The timestamp probe: it may fail, and it is skipped for lastBuild. */
  ghost predicate Probe(cfg: Config, s: State, t: State, p: nat) {
    && p < |s.procs| && s.procs[p].Idle?
    && exists ask: Request, ts: Option<int> ::
      ask.jobPath in cfg.jobs && IsCurrent(s.server, ask, ts) && t == Put(s, p, Probed(ask, ts))
  }

  /** Reading the cache file; a read can fail even when the file is there. */
  ghost predicate ReadHit(s: State, t: State, p: nat) {
    && p < |s.procs| && s.procs[p].Probed? && s.procs[p].timestamp.Some?
    && var path := s.procs[p].ask.FileName(s.procs[p].timestamp.value);
    && path in s.disk
    && t == Put(s, p, Touching(s.disk[path].bytes, path))
  }

  ghost predicate ReadMiss(s: State, t: State, p: nat) {
    && p < |s.procs| && s.procs[p].Probed?
    && t == Put(s, p, Missed(s.procs[p].ask, s.procs[p].timestamp))
  }

  function Refreshed(s: State, path: string, now: int): State
    requires path in s.disk
  {
    s.(disk := s.disk[path := s.disk[path].(mtime := now)])
  }

  /** Refreshing the modification time; the file may be gone by now. */
  ghost predicate Touch(s: State, t: State, p: nat) {
    && p < |s.procs| && s.procs[p].Touching?
    && var path := s.procs[p].path;
    && (|| t == Put(s, p, Done(s.procs[p].body, path))
        || (path in s.disk && exists now: int :: t == Put(Refreshed(s, path, now), p, Done(s.procs[p].body, path))))
  }

  /** The consoleText request, answered by the build the slot holds now. A
      lastBuild request is answered with any text, and nothing is cached. */
  ghost predicate Download(s: State, t: State, p: nat) {
    && p < |s.procs| && s.procs[p].Missed?
    && var ask, ts := s.procs[p].ask, s.procs[p].timestamp;
    && (|| t == Put(s, p, Idle)
        || (ts.None? && exists body :: t == Put(s, p, Done(body, "")))
        || (&& ts.Some? && s.server.ConsoleText(ask.Target()).Some?
            && var body := s.server.ConsoleText(ask.Target()).value;
               t == Put(s, p, if CacheKey.PassesFinishedCheck(body)
                              then Waiting(body, ask.FileName(ts.value))
                              else Done(body, ""))))
  }

  ghost predicate Lock(s: State, t: State, p: nat) {
    && p < |s.procs| && s.procs[p].Waiting? && s.lock.None?
    && t == Put(s.(lock := Some(p)), p, Locked(s.procs[p].body, s.procs[p].path))
  }

  ghost predicate Write(s: State, t: State, p: nat) {
    && p < |s.procs| && s.procs[p].Locked?
    && var body, path := s.procs[p].body, s.procs[p].path;
    && (|| t == Put(s.(lock := None), p, Done(body, ""))
        || exists now :: t == Put(s.(disk := s.disk[path := File(body, now)]), p, Written(body, path)))
  }

  /** The eviction's listing: every file once, in some order. Modification times
      play no part in the capacity argument, so they are left open. */
  ghost predicate ListDir(s: State, t: State, p: nat) {
    && p < |s.procs| && s.procs[p].Written?
    && exists items: seq<Item> ::
      && Snapshot(items, 0, s.disk, {})
      && t == Put(s, p, Evicting(s.procs[p].body, s.procs[p].path, items, 0, Total(s.disk)))
  }

  /** items[next..] are files of d, each once and with its size; the only other files
      of d are stuck ones. */
  ghost predicate Snapshot(items: seq<Item>, next: nat, d: Dir, stuck: set<string>) {
    && next <= |items| && DistinctPaths(items)
    && (forall j :: next <= j < |items| ==> items[j].path in d && items[j].size == |d[items[j].path].bytes|)
    && (forall n :: n in d && n !in stuck ==> exists j :: next <= j < |items| && items[j].path == n)
  }

  ghost predicate Remove(cfg: Config, s: State, t: State, p: nat) {
    && p < |s.procs| && s.procs[p].Evicting?
    && var e := s.procs[p];
    && e.next < |e.items| && e.total > cfg.cap
    && var it := e.items[e.next];
       t == Put(s.(disk := s.disk - {it.path}), p, e.(next := e.next + 1, total := e.total - it.size))
  }

  ghost predicate Refuse(cfg: Config, s: State, t: State, p: nat) {
    && p < |s.procs| && s.procs[p].Evicting?
    && var e := s.procs[p];
    && e.next < |e.items| && e.total > cfg.cap && e.items[e.next].path in cfg.stuck
    && t == Put(s, p, e.(next := e.next + 1))
  }

  ghost predicate Unlock(cfg: Config, s: State, t: State, p: nat) {
    && p < |s.procs| && s.procs[p].Evicting?
    && var e := s.procs[p];
    && (e.total <= cfg.cap || e.next == |e.items|)
    && t == Put(s.(lock := None), p, Done(e.body, e.path))
  }

  ghost predicate Return(s: State, t: State, p: nat) {
    && p < |s.procs| && s.procs[p].Done?
    && t == Put(s, p, Idle)
  }

  ghost predicate ProcStep(cfg: Config, s: State, t: State, p: nat) {
    || Probe(cfg, s, t, p) || ReadHit(s, t, p) || ReadMiss(s, t, p) || Touch(s, t, p)
    || Download(s, t, p) || Lock(s, t, p) || Write(s, t, p) || ListDir(s, t, p)
    || Remove(cfg, s, t, p) || Refuse(cfg, s, t, p) || Unlock(cfg, s, t, p) || Return(s, t, p)
  }

  /** A step of one Fetch leaves the server and every other Fetch alone. */
  lemma ProcFrame(cfg: Config, s: State, t: State, p: nat)
    requires ProcStep(cfg, s, t, p)
    ensures t.server == s.server && |t.procs| == |s.procs| && p < |s.procs|
    ensures forall q :: 0 <= q < |s.procs| && q != p ==> t.procs[q] == s.procs[q]
  {
    if Probe(cfg, s, t, p) {
    } else if Touch(s, t, p) {
    } else if Download(s, t, p) {
    } else if Write(s, t, p) {
    } else if ListDir(s, t, p) {
    } else if Remove(cfg, s, t, p) {
    } else if Refuse(cfg, s, t, p) {
    } else if Unlock(cfg, s, t, p) {
    }
  }

  ghost predicate Step(cfg: Config, s: State, t: State) {
    ServerStep(s, t) || exists p: nat :: ProcStep(cfg, s, t, p)
  }

  /** No Fetch is under way, and each slot's log is there to be served. */
  ghost predicate Quiet(s: State) {
    && s.lock.None?
    && (forall p :: 0 <= p < |s.procs| ==> s.procs[p].Idle?)
    && (forall slot :: slot in s.server.current ==> Run(slot, s.server.current[slot]) in s.server.logs)
  }

  ghost predicate IsRun(cfg: Config, states: seq<State>) {
    && states != [] && Quiet(states[0])
    && forall i :: 0 <= i < |states| - 1 ==> Step(cfg, states[i], states[i + 1])
  }

  // ---- the cache agrees with the server ----

  ghost predicate FinishedRun(cfg: Config, server: Server, ask: Request, ts: int) {
    && ask.jobPath in cfg.jobs && ask.number > 0
    && Run(ask.Target(), ts) in server.logs && CacheKey.PassesFinishedCheck(server.logs[Run(ask.Target(), ts)])
  }

  /** `body` is the finished log of the run that `path` names. */
  ghost predicate IsLogOf(cfg: Config, server: Server, path: string, body: string) {
    exists ask: Request, ts: int :: IsLogFor(cfg, server, path, body, ask, ts)
  }

  ghost predicate IsLogFor(cfg: Config, server: Server, path: string, body: string, ask: Request, ts: int) {
    && FinishedRun(cfg, server, ask, ts)
    && path == ask.FileName(ts) && body == server.logs[Run(ask.Target(), ts)]
  }

  ghost predicate PhaseAgrees(cfg: Config, server: Server, phase: Phase) {
    && (phase.Asks() ==> phase.ask.jobPath in cfg.jobs && IsCurrent(server, phase.ask, phase.timestamp))
    && (phase.Carries() ==> IsLogOf(cfg, server, phase.path, phase.body))
  }

  ghost predicate Agrees(cfg: Config, s: State) {
    && (forall slot :: slot in s.server.current ==> Run(slot, s.server.current[slot]) in s.server.logs)
    && (forall n :: n in s.disk ==> IsLogOf(cfg, s.server, n, s.disk[n].bytes))
    && (forall p :: 0 <= p < |s.procs| ==> PhaseAgrees(cfg, s.server, s.procs[p]))
  }

  lemma ServerKeepsRun(s: State, t: State, run: Run)
    requires ServerStep(s, t) && run in s.server.logs && CacheKey.PassesFinishedCheck(s.server.logs[run])
    ensures run in t.server.logs && t.server.logs[run] == s.server.logs[run]
  {
    if slot, ts, log :| StartBuild(s, t, slot, ts, log) {
    } else if grown, more :| GrowLog(s, t, grown, more) {
      assert grown != run;
    }
  }

  lemma ServerKeepsLogs(cfg: Config, s: State, t: State, path: string, body: string)
    requires ServerStep(s, t)
    ensures IsLogOf(cfg, s.server, path, body) ==> IsLogOf(cfg, t.server, path, body)
  {
    if ask: Request, ts: int :| IsLogFor(cfg, s.server, path, body, ask, ts) {
      ServerKeepsRun(s, t, Run(ask.Target(), ts));
      assert IsLogFor(cfg, t.server, path, body, ask, ts);
    }
  }

  lemma ServerKeepsProbes(cfg: Config, s: State, t: State, p: nat)
    requires ServerStep(s, t) && p < |s.procs| && PhaseAgrees(cfg, s.server, s.procs[p])
    ensures PhaseAgrees(cfg, t.server, s.procs[p])
  {
    var phase := s.procs[p];
    if phase.Carries() {
      ServerKeepsLogs(cfg, s, t, phase.path, phase.body);
    } else if phase.Asks() && phase.timestamp.Some? {
      assert phase.MidProbe(phase.ask.Target());
    }
  }

  lemma {:induction false} ServerStepAgrees(cfg: Config, s: State, t: State)
    requires Agrees(cfg, s) && ServerStep(s, t)
    ensures Agrees(cfg, t)
  {
    forall n | n in t.disk ensures IsLogOf(cfg, t.server, n, t.disk[n].bytes) {
      ServerKeepsLogs(cfg, s, t, n, s.disk[n].bytes);
    }
    forall p | 0 <= p < |t.procs| ensures PhaseAgrees(cfg, t.server, t.procs[p]) {
      ServerKeepsProbes(cfg, s, t, p);
    }
  }

  lemma MoverAgrees(cfg: Config, s: State, t: State, p: nat)
    requires Agrees(cfg, s) && ProcStep(cfg, s, t, p)
    ensures p < |t.procs| && PhaseAgrees(cfg, t.server, t.procs[p])
  {
    ProcFrame(cfg, s, t, p);
    assert PhaseAgrees(cfg, s.server, s.procs[p]);
    if Probe(cfg, s, t, p) {
    } else if Download(s, t, p) {
      var ask, ts := s.procs[p].ask, s.procs[p].timestamp;
      if t.procs[p].Waiting? {
        assert IsLogFor(cfg, s.server, t.procs[p].path, t.procs[p].body, ask, ts.value);
      }
    } else if Touch(s, t, p) {
    } else if Write(s, t, p) {
    } else if ListDir(s, t, p) {
    } else if Remove(cfg, s, t, p) {
    } else if Refuse(cfg, s, t, p) {
    } else if Unlock(cfg, s, t, p) {
    }
  }

  lemma FilesAgree(cfg: Config, s: State, t: State, p: nat, n: string)
    requires p < |s.procs| && PhaseAgrees(cfg, s.server, s.procs[p]) && ProcStep(cfg, s, t, p)
    requires n in t.disk && (n in s.disk ==> IsLogOf(cfg, s.server, n, s.disk[n].bytes))
    ensures IsLogOf(cfg, t.server, n, t.disk[n].bytes)
  {
    ProcFrame(cfg, s, t, p);
    if Touch(s, t, p) {
    } else if Write(s, t, p) {
    } else if Remove(cfg, s, t, p) {
    } else {
      assert t.disk == s.disk;
    }
  }

  lemma {:induction false} ProcStepAgrees(cfg: Config, s: State, t: State, p: nat)
    requires Agrees(cfg, s) && ProcStep(cfg, s, t, p)
    ensures Agrees(cfg, t)
  {
    ProcFrame(cfg, s, t, p);
    MoverAgrees(cfg, s, t, p);
    forall n | n in t.disk ensures IsLogOf(cfg, t.server, n, t.disk[n].bytes) {
      FilesAgree(cfg, s, t, p, n);
    }
  }

  lemma {:induction false} RunAgrees(cfg: Config, states: seq<State>, i: nat)
    requires IsRun(cfg, states) && states[0].disk == map[] && i < |states|
    ensures Agrees(cfg, states[i])
  {
    if i == 0 {
    } else {
      RunAgrees(cfg, states, i - 1);
      var s, t := states[i - 1], states[i];
      assert Step(cfg, s, t);
      if ServerStep(s, t) {
        ServerStepAgrees(cfg, s, t);
      } else {
        var p: nat :| ProcStep(cfg, s, t, p);
        ProcStepAgrees(cfg, s, t, p);
      }
    }
  }

  /** Transparency: in every run from an empty directory, a body read from disk is what a
      consoleText request for the same build would return at that moment. */
  lemma CacheIsTransparent(cfg: Config, states: seq<State>, i: nat, p: nat)
    requires DistinctSlugs(cfg.jobs) && IsRun(cfg, states) && states[0].disk == map[] && i + 1 < |states|
    requires ReadHit(states[i], states[i + 1], p)
    ensures states[i].server.ConsoleText(states[i].procs[p].ask.Target()) == Some(states[i + 1].procs[p].body)
  {
    var s := states[i];
    RunAgrees(cfg, states, i);
    assert PhaseAgrees(cfg, s.server, s.procs[p]);
    var asked, now := s.procs[p].ask, s.procs[p].timestamp.value;
    var path := asked.FileName(now);
    assert IsLogOf(cfg, s.server, path, s.disk[path].bytes);
    var ask: Request, ts: int :| IsLogFor(cfg, s.server, path, s.disk[path].bytes, ask, ts);
    CacheKey.FileNameIdentity(asked.jobPath, asked.number, now, ask.jobPath, ask.number, ts);
  }

  /** In every run from an empty directory, every file on disk passes the finished check. */
  lemma DiskHoldsFinishedLogs(cfg: Config, states: seq<State>, i: nat)
    requires IsRun(cfg, states) && states[0].disk == map[] && i < |states|
    ensures forall n :: n in states[i].disk ==> CacheKey.PassesFinishedCheck(states[i].disk[n].bytes)
  {
    RunAgrees(cfg, states, i);
    var s := states[i];
    forall n | n in s.disk ensures CacheKey.PassesFinishedCheck(s.disk[n].bytes) {
      assert IsLogOf(cfg, s.server, n, s.disk[n].bytes);
      var ask: Request, ts: int :| IsLogFor(cfg, s.server, n, s.disk[n].bytes, ask, ts);
    }
  }

  // ---- mutual exclusion and capacity ----

  ghost predicate LockHeld(s: State) {
    && (s.lock.Some? ==> s.lock.value < |s.procs|)
    && forall p :: 0 <= p < |s.procs| ==> (s.procs[p].HoldsLock() <==> s.lock == Some(p))
  }

  /** The lock is held by at most one Fetch; what its eviction still has to try is there. */
  ghost predicate Orderly(cfg: Config, s: State) {
    && LockHeld(s)
    && (s.lock.Some? ==> ListingHolds(cfg, s.procs[s.lock.value], s.disk))
  }

  ghost predicate ListingHolds(cfg: Config, phase: Phase, d: Dir) {
    phase.Evicting? ==> Snapshot(phase.items, phase.next, d, cfg.stuck)
  }

  ghost function StuckSize(cfg: Config, d: Dir): nat {
    Total(Keep(d, cfg.stuck))
  }

  /** What an eviction can bring the directory down to: the cap, or what cannot be
      removed if that alone is more. */
  ghost function Limit(cfg: Config, d: Dir): nat {
    if StuckSize(cfg, d) > cfg.cap then StuckSize(cfg, d) else cfg.cap
  }

  /** The size bound, given what the lock holder (if any) is doing. */
  ghost predicate WithinLimit(cfg: Config, s: State)
    requires LockHeld(s)
  {
    if s.lock.None? then Total(s.disk) <= Limit(cfg, s.disk)
    else match s.procs[s.lock.value]
      case Locked(_, _) => Total(s.disk) <= Limit(cfg, s.disk)
      case Written(body, _) => Total(s.disk) <= Limit(cfg, s.disk) + |body|
      case Evicting(body, _, _, _, total) =>
        total == Total(s.disk) <= Limit(cfg, s.disk) + |body|
      case _ => true
  }

  ghost predicate Bounded(cfg: Config, s: State) {
    Orderly(cfg, s) && WithinLimit(cfg, s)
  }

  lemma LockStep(cfg: Config, s: State, t: State, p: nat)
    requires LockHeld(s) && ProcStep(cfg, s, t, p)
    ensures LockHeld(t)
  {
    ProcFrame(cfg, s, t, p);
    if Touch(s, t, p) {
    } else if Write(s, t, p) {
    } else if Remove(cfg, s, t, p) {
    } else if Refuse(cfg, s, t, p) {
    } else if ListDir(s, t, p) {
    } else if Download(s, t, p) {
    } else if Probe(cfg, s, t, p) {
    } else if Unlock(cfg, s, t, p) {
    }
  }

  lemma SnapshotAfterTouch(items: seq<Item>, next: nat, d: Dir, n: string, now: int, stuck: set<string>)
    requires n in d && Snapshot(items, next, d, stuck)
    ensures Snapshot(items, next, d[n := d[n].(mtime := now)], stuck)
  {
    assert forall m :: m in d[n := d[n].(mtime := now)] ==> m in d;
  }

  lemma SnapshotAfterRemove(items: seq<Item>, next: nat, d: Dir, stuck: set<string>)
    requires next < |items| && Snapshot(items, next, d, stuck)
    ensures Snapshot(items, next + 1, d - {items[next].path}, stuck)
  {
    var rest := d - {items[next].path};
    forall n | n in rest && n !in stuck ensures exists j :: next + 1 <= j < |items| && items[j].path == n {
      var j :| next <= j < |items| && items[j].path == n;
    }
  }

  lemma SnapshotAfterRefuse(items: seq<Item>, next: nat, d: Dir, stuck: set<string>)
    requires next < |items| && Snapshot(items, next, d, stuck) && items[next].path in stuck
    ensures Snapshot(items, next + 1, d, stuck)
  {
    forall n | n in d && n !in stuck ensures exists j :: next + 1 <= j < |items| && items[j].path == n {
      var j :| next <= j < |items| && items[j].path == n;
    }
  }

  lemma TouchOrderly(cfg: Config, s: State, t: State, p: nat)
    requires Orderly(cfg, s) && LockHeld(t) && Touch(s, t, p)
    ensures Orderly(cfg, t)
  {
    if s.lock.Some? && s.procs[s.lock.value].Evicting? && t.disk != s.disk {
      var e, path := s.procs[s.lock.value], s.procs[p].path;
      SnapshotAfterTouch(e.items, e.next, s.disk, path, t.disk[path].mtime, cfg.stuck);
    }
  }

  lemma EvictionOrderly(cfg: Config, s: State, t: State, p: nat)
    requires Orderly(cfg, s) && LockHeld(t) && (Remove(cfg, s, t, p) || Refuse(cfg, s, t, p))
    ensures Orderly(cfg, t)
  {
    var e := s.procs[p];
    assert s.lock == Some(p) && t.lock == Some(p);
    if Remove(cfg, s, t, p) {
      SnapshotAfterRemove(e.items, e.next, s.disk, cfg.stuck);
    } else {
      SnapshotAfterRefuse(e.items, e.next, s.disk, cfg.stuck);
    }
  }

  lemma ListDirOrderly(cfg: Config, s: State, t: State, p: nat)
    requires Orderly(cfg, s) && LockHeld(t) && ListDir(s, t, p)
    ensures Orderly(cfg, t)
  {
    assert s.lock == Some(p) && t.lock == Some(p);
    var items: seq<Item> :|
      && Snapshot(items, 0, s.disk, {})
      && t == Put(s, p, Evicting(s.procs[p].body, s.procs[p].path, items, 0, Total(s.disk)));
    assert Snapshot(items, 0, s.disk, cfg.stuck);
  }

  /** A step that lists or removes nothing and changes no file outside the lock leaves
      the listing of another holder as it is. */
  lemma OtherOrderly(cfg: Config, s: State, t: State, p: nat)
    requires Orderly(cfg, s) && LockHeld(t) && p < |t.procs|
    requires !t.procs[p].Evicting? && (t.disk == s.disk || s.lock == Some(p))
    requires |t.procs| == |s.procs| && p < |s.procs|
    requires forall q :: 0 <= q < |s.procs| && q != p ==> t.procs[q] == s.procs[q]
    requires t.lock == s.lock || t.lock.None? || t.lock == Some(p)
    ensures Orderly(cfg, t)
  {
  }

  /** Every Fetch step keeps the order, from any directory. */
  lemma ProcStepOrderly(cfg: Config, s: State, t: State, p: nat)
    requires Orderly(cfg, s) && ProcStep(cfg, s, t, p)
    ensures Orderly(cfg, t)
  {
    ProcFrame(cfg, s, t, p);
    LockStep(cfg, s, t, p);
    if Touch(s, t, p) {
      TouchOrderly(cfg, s, t, p);
    } else if Remove(cfg, s, t, p) || Refuse(cfg, s, t, p) {
      EvictionOrderly(cfg, s, t, p);
    } else if ListDir(s, t, p) {
      ListDirOrderly(cfg, s, t, p);
    } else {
      QuietStep(cfg, s, t, p);
      OtherOrderly(cfg, s, t, p);
    }
  }

  lemma QuietStep(cfg: Config, s: State, t: State, p: nat)
    requires LockHeld(s) && ProcStep(cfg, s, t, p) && p < |s.procs| && p < |t.procs|
    requires !Touch(s, t, p) && !Remove(cfg, s, t, p) && !Refuse(cfg, s, t, p) && !ListDir(s, t, p)
    ensures !t.procs[p].Evicting? && (t.disk == s.disk || s.lock == Some(p))
    ensures t.lock == s.lock || t.lock.None? || t.lock == Some(p)
  {
    if Write(s, t, p) {
    } else if Unlock(cfg, s, t, p) {
    } else if Lock(s, t, p) {
    } else if Download(s, t, p) {
    } else if Probe(cfg, s, t, p) {
    }
  }

  lemma {:induction false} RunOrderly(cfg: Config, states: seq<State>, i: nat)
    requires IsRun(cfg, states) && i < |states|
    ensures Orderly(cfg, states[i])
  {
    if i == 0 {
    } else {
      RunOrderly(cfg, states, i - 1);
      var s, t := states[i - 1], states[i];
      assert Step(cfg, s, t);
      if !ServerStep(s, t) {
        var p: nat :| ProcStep(cfg, s, t, p);
        ProcStepOrderly(cfg, s, t, p);
      }
    }
  }

  lemma TouchKeepsSizes(cfg: Config, d: Dir, n: string, now: int)
    requires n in d
    ensures Total(d[n := d[n].(mtime := now)]) == Total(d)
    ensures Limit(cfg, d[n := d[n].(mtime := now)]) == Limit(cfg, d)
  {
    var f := d[n].(mtime := now);
    TotalPut(d, n, f);
    TotalWithout(d, n);
    var stuck := Keep(d, cfg.stuck);
    if n in cfg.stuck {
      TotalPut(stuck, n, f);
      TotalWithout(stuck, n);
      assert Keep(d[n := f], cfg.stuck) == stuck[n := f];
    } else {
      assert Keep(d[n := f], cfg.stuck) == stuck;
    }
  }

  lemma TouchBounded(cfg: Config, s: State, t: State, p: nat)
    requires Bounded(cfg, s) && Orderly(cfg, t) && Touch(s, t, p)
    ensures Bounded(cfg, t)
  {
    var path := s.procs[p].path;
    if t.disk != s.disk {
      var now := t.disk[path].mtime;
      TouchKeepsSizes(cfg, s.disk, path, now);
    }
  }

  /** Removing a file lowers the size at least as far as the limit. */
  lemma RemovalKeepsExcess(cfg: Config, d: Dir, n: string)
    requires n in d
    ensures Total(d - {n}) == Total(d) - |d[n].bytes|
    ensures Limit(cfg, d) - |d[n].bytes| <= Limit(cfg, d - {n})
  {
    TotalWithout(d, n);
    var stuck := Keep(d, cfg.stuck);
    if n in cfg.stuck {
      TotalWithout(stuck, n);
      assert Keep(d - {n}, cfg.stuck) == stuck - {n};
    } else {
      assert Keep(d - {n}, cfg.stuck) == stuck;
    }
  }

  lemma WriteExcess(cfg: Config, d: Dir, n: string, f: File)
    requires Total(d) <= Limit(cfg, d)
    ensures Total(d[n := f]) <= Limit(cfg, d[n := f]) + |f.bytes|
  {
    TotalPut(d, n, f);
    if n in d {
      RemovalKeepsExcess(cfg, d, n);
    } else {
      assert d - {n} == d;
    }
    TotalOfSubmap(Keep(d - {n}, cfg.stuck), Keep(d[n := f], cfg.stuck));
  }

  lemma RemoveBounded(cfg: Config, s: State, t: State, p: nat)
    requires Bounded(cfg, s) && Orderly(cfg, t) && Remove(cfg, s, t, p)
    ensures Bounded(cfg, t)
  {
    var e := s.procs[p];
    assert s.lock == Some(p) && t.lock == Some(p);
    RemovalKeepsExcess(cfg, s.disk, e.items[e.next].path);
  }

  lemma OnlyStuckLeft(cfg: Config, items: seq<Item>, d: Dir)
    requires Snapshot(items, |items|, d, cfg.stuck)
    ensures Total(d) == StuckSize(cfg, d)
  {
    assert Keep(d, cfg.stuck) == d;
  }

  lemma HolderStepBounded(cfg: Config, s: State, t: State, p: nat)
    requires Bounded(cfg, s) && Orderly(cfg, t)
    requires Lock(s, t, p) || Write(s, t, p) || ListDir(s, t, p) || Unlock(cfg, s, t, p)
    ensures Bounded(cfg, t)
  {
    if Write(s, t, p) {
      assert s.lock == Some(p);
      if t.procs[p].Written? {
        WriteExcess(cfg, s.disk, s.procs[p].path, t.disk[s.procs[p].path]);
      }
    } else if Unlock(cfg, s, t, p) {
      assert s.lock == Some(p);
      var e := s.procs[p];
      if e.next == |e.items| {
        OnlyStuckLeft(cfg, e.items, s.disk);
      }
    } else if ListDir(s, t, p) {
      assert s.lock == Some(p);
    }
  }

  lemma ProcStepBounded(cfg: Config, s: State, t: State, p: nat)
    requires Bounded(cfg, s) && ProcStep(cfg, s, t, p)
    ensures Bounded(cfg, t)
  {
    ProcFrame(cfg, s, t, p);
    ProcStepOrderly(cfg, s, t, p);
    if Touch(s, t, p) {
      TouchBounded(cfg, s, t, p);
    } else if Remove(cfg, s, t, p) {
      RemoveBounded(cfg, s, t, p);
    } else if Refuse(cfg, s, t, p) {
      assert s.lock == Some(p) && t.lock == Some(p);
    } else if Lock(s, t, p) || Write(s, t, p) || ListDir(s, t, p) || Unlock(cfg, s, t, p) {
      HolderStepBounded(cfg, s, t, p);
    } else {
      assert t.disk == s.disk && t.lock == s.lock by {
        assert Probe(cfg, s, t, p) || ReadHit(s, t, p) || ReadMiss(s, t, p) || Download(s, t, p) || Return(s, t, p);
      }
    }
  }

  lemma {:induction false} RunBounded(cfg: Config, states: seq<State>, i: nat)
    requires IsRun(cfg, states) && Total(states[0].disk) <= Limit(cfg, states[0].disk) && i < |states|
    ensures Bounded(cfg, states[i])
  {
    if i == 0 {
    } else {
      RunBounded(cfg, states, i - 1);
      var s, t := states[i - 1], states[i];
      assert Step(cfg, s, t);
      if !ServerStep(s, t) {
        var p: nat :| ProcStep(cfg, s, t, p);
        ProcStepBounded(cfg, s, t, p);
      }
    }
  }

  /** Capacity: in every run that starts within the limit, the directory exceeds it
      only while some Fetch holds the lock between its write and the end of its
      eviction, and then by at most the body that Fetch wrote. The limit is the cap,
      or the size of the files that cannot be removed if that is more. No two
      Fetches hold the lock at once. */
  lemma CapacityHolds(cfg: Config, states: seq<State>, i: nat)
    requires IsRun(cfg, states) && Total(states[0].disk) <= Limit(cfg, states[0].disk) && i < |states|
    ensures var s := states[i];
      Total(s.disk) > Limit(cfg, s.disk) ==>
        exists p :: 0 <= p < |s.procs| && (s.procs[p].Written? || s.procs[p].Evicting?)
          && Total(s.disk) <= Limit(cfg, s.disk) + |s.procs[p].body|
    ensures var s := states[i];
      forall p, q :: 0 <= p < q < |s.procs| ==> !(s.procs[p].HoldsLock() && s.procs[q].HoldsLock())
  {
    RunBounded(cfg, states, i);
    var s := states[i];
    if Total(s.disk) > Limit(cfg, s.disk) {
      assert s.procs[s.lock.value].Written? || s.procs[s.lock.value].Evicting?;
    }
  }

  /** When every removal succeeds, the limit is the cap. */
  lemma NothingStuck(cfg: Config, d: Dir)
    requires cfg.stuck == {}
    ensures Limit(cfg, d) == cfg.cap
  {
    assert Keep(d, cfg.stuck) == map[];
  }

  // ---- liveness ----

  lemma SnapshotOneMore(rest: seq<Item>, d: Dir, n: string)
    requires n in d && Snapshot(rest, 0, d - {n}, {})
    ensures Snapshot(rest + [Item(n, |d[n].bytes|, d[n].mtime)], 0, d, {})
  {
    var items := rest + [Item(n, |d[n].bytes|, d[n].mtime)];
    assert items[|rest|].path == n;
    forall m | m in d && m != n ensures exists j :: 0 <= j < |items| && items[j].path == m {
      assert m in d - {n};
      var j :| 0 <= j < |rest| && rest[j].path == m;
      assert items[j].path == m;
    }
    forall j | 0 <= j < |rest| ensures items[j] == rest[j] && rest[j].path in d - {n} {
    }
  }

  lemma {:induction false} SomeSnapshot(d: Dir) returns (items: seq<Item>)
    ensures Snapshot(items, 0, d, {})
    decreases |d|
  {
    if d == map[] {
      items := [];
    } else {
      var n :| n in d;
      var rest := SomeSnapshot(d - {n});
      SnapshotOneMore(rest, d, n);
      items := rest + [Item(n, |d[n].bytes|, d[n].mtime)];
    }
  }

  /** The step takes the branch on which nothing fails, where there is one: a cached
      file is read and refreshed, an answered download is used, a write goes through. */
  ghost predicate Succeeds(s: State, t: State, p: nat, now: int)
    requires p < |s.procs| && p < |t.procs|
  {
    match s.procs[p]
    case Probed(ask, ts) => ts.Some? && ask.FileName(ts.value) in s.disk ==> t.procs[p].Touching?
    case Touching(_, path) => path in s.disk ==> path in t.disk && t.disk[path].mtime == now
    case Missed(ask, ts) => t.procs[p].Idle? ==> ts.Some? && s.server.ConsoleText(ask.Target()).None?
    case Locked(body, path) => t.procs[p].Written? && path in t.disk && t.disk[path] == File(body, now)
    case Evicting(_, _, _, _, _) => t.disk != s.disk || t.procs[p].Done?
    case _ => true
  }

  /** A Fetch under way can take a step on which nothing fails, unless it waits for a
      lock another one holds. */
  lemma CanStep(cfg: Config, s: State, p: nat, now: int) returns (t: State)
    requires Orderly(cfg, s) && p < |s.procs| && !s.procs[p].Idle?
    requires s.procs[p].Waiting? ==> s.lock.None?
    ensures ProcStep(cfg, s, t, p) && p < |t.procs| && Succeeds(s, t, p, now)
  {
    match s.procs[p]
    case Probed(_, _) =>
      t := ProbeCanStep(cfg, s, p, now);
    case Touching(body, path) =>
      t := Put(if path in s.disk then Refreshed(s, path, now) else s, p, Done(body, path));
      assert Touch(s, t, p);
    case Missed(_, _) =>
      t := DownloadCanStep(cfg, s, p, now);
    case Waiting(body, path) =>
      t := Put(s.(lock := Some(p)), p, Locked(body, path));
      assert Lock(s, t, p);
    case Locked(body, path) =>
      t := Put(s.(disk := s.disk[path := File(body, now)]), p, Written(body, path));
      assert Write(s, t, p);
    case Written(body, path) =>
      var items := SomeSnapshot(s.disk);
      t := Put(s, p, Evicting(body, path, items, 0, Total(s.disk)));
      assert ListDir(s, t, p);
    case Evicting(_, _, _, _, _) =>
      t := EvictionCanStep(cfg, s, p, now);
    case Done(_, _) =>
      t := Put(s, p, Idle);
      assert Return(s, t, p);
  }

  lemma ProbeCanStep(cfg: Config, s: State, p: nat, now: int) returns (t: State)
    requires p < |s.procs| && s.procs[p].Probed?
    ensures ProcStep(cfg, s, t, p) && p < |t.procs| && Succeeds(s, t, p, now)
  {
    var ask, ts := s.procs[p].ask, s.procs[p].timestamp;
    if ts.Some? && ask.FileName(ts.value) in s.disk {
      var path := ask.FileName(ts.value);
      t := Put(s, p, Touching(s.disk[path].bytes, path));
      assert ReadHit(s, t, p);
    } else {
      t := Put(s, p, Missed(ask, ts));
      assert ReadMiss(s, t, p);
    }
  }

  lemma DownloadCanStep(cfg: Config, s: State, p: nat, now: int) returns (t: State)
    requires p < |s.procs| && s.procs[p].Missed?
    ensures ProcStep(cfg, s, t, p) && p < |t.procs| && Succeeds(s, t, p, now)
  {
    var ask, ts := s.procs[p].ask, s.procs[p].timestamp;
    if ts.None? {
      t := Put(s, p, Done("", ""));
    } else if s.server.ConsoleText(ask.Target()).None? {
      t := Put(s, p, Idle);
    } else {
      var body := s.server.ConsoleText(ask.Target()).value;
      t := Put(s, p, if CacheKey.PassesFinishedCheck(body)
                     then Waiting(body, ask.FileName(ts.value))
                     else Done(body, ""));
    }
    assert Download(s, t, p);
  }

  lemma EvictionCanStep(cfg: Config, s: State, p: nat, now: int) returns (t: State)
    requires Orderly(cfg, s) && p < |s.procs| && s.procs[p].Evicting?
    ensures ProcStep(cfg, s, t, p) && p < |t.procs| && Succeeds(s, t, p, now)
  {
    var e := s.procs[p];
    assert s.lock == Some(p);
    if e.total <= cfg.cap || e.next == |e.items| {
      t := Put(s.(lock := None), p, Done(e.body, e.path));
      assert Unlock(cfg, s, t, p);
    } else {
      var it := e.items[e.next];
      t := Put(s.(disk := s.disk - {it.path}), p, e.(next := e.next + 1, total := e.total - it.size));
      assert it.path in s.disk && it.path !in t.disk;
      assert Remove(cfg, s, t, p);
    }
  }

  /** No deadlock: as long as some Fetch is under way, some Fetch can take a step, at
      any time the clock shows, on which no file operation or download fails. */
  lemma NoDeadlock(cfg: Config, states: seq<State>, i: nat, p: nat, now: int) returns (q: nat, t: State)
    requires IsRun(cfg, states) && i < |states|
    requires p < |states[i].procs| && !states[i].procs[p].Idle?
    ensures ProcStep(cfg, states[i], t, q) && q < |states[i].procs| && q < |t.procs|
    ensures Succeeds(states[i], t, q, now)
  {
    RunOrderly(cfg, states, i);
    var s := states[i];
    q := if s.procs[p].Waiting? && s.lock.Some? then s.lock.value else p;
    t := CanStep(cfg, s, q, now);
  }

  /** Stages left, and files left to try within the eviction stage. */
  function Remaining(phase: Phase): (nat, nat) {
    match phase
    case Idle => (0, 0)
    case Probed(_, _) => (7, 0)
    case Missed(_, _) => (6, 0)
    case Waiting(_, _) => (5, 0)
    case Locked(_, _) => (4, 0)
    case Written(_, _) => (3, 0)
    case Evicting(_, _, items, next, _) => (2, if next <= |items| then |items| - next else 0)
    case Touching(_, _) => (2, 0)
    case Done(_, _) => (1, 0)
  }

  /** Phase b is closer to the return than phase a. */
  predicate Closer(a: Phase, b: Phase) {
    Remaining(b).0 < Remaining(a).0 || (Remaining(b).0 == Remaining(a).0 && Remaining(b).1 < Remaining(a).1)
  }

  lemma EvictionRunsOut(cfg: Config, s: State, t: State, p: nat)
    requires ListDir(s, t, p) || Remove(cfg, s, t, p) || Refuse(cfg, s, t, p) || Unlock(cfg, s, t, p)
    ensures p < |s.procs| && p < |t.procs| && Closer(s.procs[p], t.procs[p])
  {
    if ListDir(s, t, p) {
    } else if Remove(cfg, s, t, p) {
    } else if Refuse(cfg, s, t, p) {
    }
  }

  lemma ReadingRunsOut(s: State, t: State, p: nat)
    requires ReadHit(s, t, p) || ReadMiss(s, t, p) || Touch(s, t, p) || Return(s, t, p)
    ensures p < |s.procs| && p < |t.procs| && Closer(s.procs[p], t.procs[p])
  {
    if Touch(s, t, p) {
    }
  }

  lemma StoringRunsOut(s: State, t: State, p: nat)
    requires Download(s, t, p) || Lock(s, t, p) || Write(s, t, p)
    ensures p < |s.procs| && p < |t.procs| && Closer(s.procs[p], t.procs[p])
  {
    if Download(s, t, p) {
    } else if Write(s, t, p) {
    }
  }

  /** Each step of a Fetch after its probe brings it closer to its return. */
  lemma StepsRunOut(cfg: Config, s: State, t: State, p: nat)
    requires ProcStep(cfg, s, t, p) && !Probe(cfg, s, t, p)
    ensures p < |s.procs| && p < |t.procs| && Closer(s.procs[p], t.procs[p])
  {
    if ReadHit(s, t, p) || ReadMiss(s, t, p) || Touch(s, t, p) || Return(s, t, p) {
      ReadingRunsOut(s, t, p);
    } else if Download(s, t, p) || Lock(s, t, p) || Write(s, t, p) {
      StoringRunsOut(s, t, p);
    } else {
      EvictionRunsOut(cfg, s, t, p);
    }
  }
}
