/** What one Fetch achieves when nothing fails: a finished log that fits the cap is
    stored under its file name, and the next Fetch of the build is served from disk. */
module CacheRuns {
  import opened Sequences
  import opened CacheDir
  import opened CacheProtocol
  import CacheKey

  /** Every step of the run is one of Fetch p. */
  ghost predicate OwnRun(cfg: Config, states: seq<State>, p: nat) {
    states != [] && forall i :: 0 <= i < |states| - 1 ==> ProcStep(cfg, states[i], states[i + 1], p)
  }

  ghost predicate RunsTo(cfg: Config, states: seq<State>, p: nat, s: State, t: State) {
    OwnRun(cfg, states, p) && states[0] == s && states[|states| - 1] == t
  }

  lemma OneStep(cfg: Config, p: nat, s: State, t: State) returns (states: seq<State>)
    requires ProcStep(cfg, s, t, p)
    ensures RunsTo(cfg, states, p, s, t) && states == [s, t]
  {
    states := [s, t];
  }

  lemma Joined(cfg: Config, a: seq<State>, b: seq<State>, p: nat, s: State, t: State, u: State)
    returns (states: seq<State>)
    requires RunsTo(cfg, a, p, s, t) && RunsTo(cfg, b, p, t, u)
    ensures RunsTo(cfg, states, p, s, u)
    ensures states == a + b[1..]
  {
    states := a + b[1..];
    forall i | 0 <= i < |states| - 1 ensures ProcStep(cfg, states[i], states[i + 1], p) {
      if i >= |a| - 1 {
        assert states[i] == b[i - |a| + 1] && states[i + 1] == b[i - |a| + 2];
      }
    }
  }

  /** The server holds a finished log for the request, and it fits the cap. */
  ghost predicate HoldsFinished(cfg: Config, s: State, ask: Request, body: string) {
    && ask.jobPath in cfg.jobs && ask.number > 0 && ask.Target() in s.server.current
    && s.server.ConsoleText(ask.Target()) == Some(body)
    && CacheKey.PassesFinishedCheck(body) && |body| <= cfg.cap
  }

  function PathOf(s: State, ask: Request): string
    requires ask.Target() in s.server.current
  {
    ask.FileName(s.server.current[ask.Target()])
  }

  /** t is s with Fetch p at this phase, and nothing else changed but files and lock. */
  ghost predicate Moved(s: State, t: State, p: nat, phase: Phase) {
    p < |s.procs| && t.server == s.server && t.procs == s.procs[p := phase]
  }

  lemma AsksAndMisses(cfg: Config, s: State, p: nat, ask: Request, body: string) returns (states: seq<State>)
    requires p < |s.procs| && s.procs[p].Idle? && HoldsFinished(cfg, s, ask, body)
    ensures RunsTo(cfg, states, p, s, Put(s, p, Waiting(body, PathOf(s, ask))))
  {
    var ts := Some(s.server.current[ask.Target()]);
    var probed, missed := Put(s, p, Probed(ask, ts)), Put(s, p, Missed(ask, ts));
    var waiting := Put(s, p, Waiting(body, PathOf(s, ask)));
    assert Probe(cfg, s, probed, p);
    assert missed == Put(probed, p, Missed(ask, ts));
    assert ReadMiss(probed, missed, p);
    assert waiting == Put(missed, p, Waiting(body, PathOf(s, ask)));
    assert Download(missed, waiting, p);
    states := [s, probed, missed, waiting];
  }

  lemma WritesUnderLock(cfg: Config, s: State, p: nat, body: string, path: string, now: int)
    returns (states: seq<State>, t: State)
    requires p < |s.procs| && s.procs[p] == Waiting(body, path) && s.lock.None?
    ensures RunsTo(cfg, states, p, s, t)
    ensures Moved(s, t, p, Written(body, path)) && t.lock == Some(p) && t.disk == s.disk[path := File(body, now)]
  {
    var locked := Put(s.(lock := Some(p)), p, Locked(body, path));
    assert Lock(s, locked, p);
    t := Put(locked.(disk := locked.disk[path := File(body, now)]), p, Written(body, path));
    assert Write(locked, t, p);
    states := [s, locked, t];
  }

  /** The eviction lists the new file last, and it fits once the others are gone. */
  ghost predicate ListsLast(cap: nat, e: Phase, d: Dir) {
    && e.Evicting? && e.next < |e.items| && Snapshot(e.items, e.next, d, {}) && e.total == Total(d)
    && e.items[|e.items| - 1].path == e.path
    && e.path in d && d[e.path].bytes == e.body && |e.body| <= cap
  }

  /** The file just written is in place and fits the cap. */
  ghost predicate HoldsWritten(cfg: Config, s: State, w: Phase) {
    w.Written? && w.path in s.disk && s.disk[w.path].bytes == w.body && |w.body| <= cfg.cap
  }

  lemma ListsNewFileLast(cfg: Config, s: State, p: nat) returns (states: seq<State>, t: State)
    requires p < |s.procs| && HoldsWritten(cfg, s, s.procs[p])
    ensures RunsTo(cfg, states, p, s, t) && |t.procs| == |s.procs| && ListsLast(cfg.cap, t.procs[p], t.disk)
    ensures t.server == s.server && t.disk == s.disk && t.lock == s.lock
    ensures t.procs == s.procs[p := t.procs[p]]
    ensures t.procs[p].body == s.procs[p].body && t.procs[p].path == s.procs[p].path
  {
    var w := s.procs[p];
    var rest := SomeSnapshot(s.disk - {w.path});
    SnapshotOneMore(rest, s.disk, w.path);
    var items := rest + [Item(w.path, |s.disk[w.path].bytes|, s.disk[w.path].mtime)];
    t := Put(s, p, Evicting(w.body, w.path, items, 0, Total(s.disk)));
    assert ListDir(s, t, p);
    states := OneStep(cfg, p, s, t);
  }

  lemma OnlyNewFileLeft(items: seq<Item>, d: Dir, path: string)
    requires items != [] && Snapshot(items, |items| - 1, d, {})
    requires items[|items| - 1].path == path && path in d
    ensures Total(d) == |d[path].bytes|
  {
    assert d - {path} == map[] by {
      forall n | n in d ensures n == path {
        var j :| |items| - 1 <= j < |items| && items[j].path == n;
      }
    }
    TotalWithout(d, path);
  }

  /** As long as the directory is over the cap, something older is still to be tried. */
  lemma OthersLeft(cap: nat, e: Phase, d: Dir)
    requires ListsLast(cap, e, d) && e.total > cap
    ensures e.next < |e.items| - 1 && e.items[e.next].path != e.path
  {
    if e.next == |e.items| - 1 {
      OnlyNewFileLeft(e.items, d, e.path);
    }
  }

  function OneFewer(e: Phase): Phase
    requires e.Evicting? && e.next < |e.items|
  {
    e.(next := e.next + 1, total := e.total - e.items[e.next].size)
  }

  lemma RestIsListed(items: seq<Item>, next: nat, d: Dir)
    requires next < |items| && Snapshot(items, next, d, {})
    ensures Snapshot(items, next + 1, d - {items[next].path}, {})
    ensures Total(d - {items[next].path}) == Total(d) - items[next].size
  {
    SnapshotAfterRemove(items, next, d, {});
    TotalWithout(d, items[next].path);
  }

  lemma StillLast(cap: nat, e: Phase, d: Dir)
    requires ListsLast(cap, e, d) && e.total > cap
    ensures ListsLast(cap, OneFewer(e), d - {e.items[e.next].path})
  {
    OthersLeft(cap, e, d);
    RestIsListed(e.items, e.next, d);
  }

  /** The eviction ends with the new file in place. */
  lemma {:induction false} EvictsToDone(cfg: Config, s: State, p: nat) returns (states: seq<State>, t: State)
    requires p < |s.procs| && ListsLast(cfg.cap, s.procs[p], s.disk)
    ensures RunsTo(cfg, states, p, s, t)
    ensures var e := s.procs[p];
      && Moved(s, t, p, Done(e.body, e.path)) && t.lock.None?
      && e.path in t.disk && t.disk[e.path].bytes == e.body
    decreases |s.procs[p].items| - s.procs[p].next
  {
    var e := s.procs[p];
    if e.total <= cfg.cap {
      t := Put(s.(lock := None), p, Done(e.body, e.path));
      assert Unlock(cfg, s, t, p);
      states := OneStep(cfg, p, s, t);
    } else {
      var u := Put(s.(disk := s.disk - {e.items[e.next].path}), p, OneFewer(e));
      assert Remove(cfg, s, u, p);
      StillLast(cfg.cap, e, s.disk);
      var first := OneStep(cfg, p, s, u);
      var rest;
      rest, t := EvictsToDone(cfg, u, p);
      states := Joined(cfg, first, rest, p, s, u, t);
    }
  }

  /** From any state with the lock free, an idle Fetch of a build whose log is finished
      and fits the cap can store that log: steps of its own lead to the reply with the
      file's path, and the file holds the log. */
  lemma FinishedLogCanBeStored(cfg: Config, s: State, p: nat, ask: Request, body: string, now: int)
    returns (states: seq<State>, t: State)
    requires p < |s.procs| && s.procs[p].Idle? && s.lock.None? && HoldsFinished(cfg, s, ask, body)
    ensures RunsTo(cfg, states, p, s, t)
    ensures var path := PathOf(s, ask);
      && Moved(s, t, p, Done(body, path)) && t.lock.None?
      && path in t.disk && t.disk[path].bytes == body
  {
    var path := PathOf(s, ask);
    var waiting := Put(s, p, Waiting(body, path));
    var a := AsksAndMisses(cfg, s, p, ask, body);
    var b, written := WritesUnderLock(cfg, waiting, p, body, path, now);
    var c, listed := ListsNewFileLast(cfg, written, p);
    var d;
    d, t := EvictsToDone(cfg, listed, p);
    var ab := Joined(cfg, a, b, p, s, waiting, written);
    var cd := Joined(cfg, c, d, p, written, listed, t);
    states := Joined(cfg, ab, cd, p, s, written, t);
  }

  /** An idle Fetch of a build whose file is there can be served from that file: it
      reads the bytes, refreshes the time and returns, without asking for the log. */
  lemma StoredLogCanBeRead(cfg: Config, s: State, p: nat, ask: Request, now: int)
    returns (states: seq<State>, t: State)
    requires p < |s.procs| && s.procs[p].Idle? && ask.jobPath in cfg.jobs && ask.number > 0
    requires ask.Target() in s.server.current && PathOf(s, ask) in s.disk
    ensures RunsTo(cfg, states, p, s, t)
    ensures var path := PathOf(s, ask);
      var bytes := s.disk[path].bytes;
      && Moved(s, t, p, Done(bytes, path)) && t.lock == s.lock
      && t.disk == s.disk[path := File(bytes, now)]
      && |states| == 4 && Moved(s, states[2], p, Touching(bytes, path))
  {
    var ts := Some(s.server.current[ask.Target()]);
    var path := PathOf(s, ask);
    var bytes := s.disk[path].bytes;
    var probed := Put(s, p, Probed(ask, ts));
    assert Probe(cfg, s, probed, p);
    var touching := Put(probed, p, Touching(bytes, path));
    assert ReadHit(probed, touching, p);
    t := Put(Refreshed(touching, path, now), p, Done(bytes, path));
    assert Touch(touching, t, p);
    states := [s, probed, touching, t];
  }

  /** Both together: the log is stored, and the next Fetch of the build, which starts
      with the return of the first, reads it back from the file. */
  lemma StoredThenRead(cfg: Config, s: State, p: nat, ask: Request, body: string, now: int, later: int)
    returns (storing: seq<State>, t: State, reading: seq<State>, u: State)
    requires p < |s.procs| && s.procs[p].Idle? && s.lock.None? && HoldsFinished(cfg, s, ask, body)
    ensures RunsTo(cfg, storing, p, s, t) && RunsTo(cfg, reading, p, t, u)
    ensures var path := PathOf(s, ask);
      && Moved(s, t, p, Done(body, path)) && path in t.disk && t.disk[path].bytes == body
      && |reading| == 5 && Moved(t, reading[1], p, Idle) && Moved(t, reading[3], p, Touching(body, path))
      && Moved(s, u, p, Done(body, path)) && u.disk == t.disk[path := File(body, later)]
  {
    storing, t := FinishedLogCanBeStored(cfg, s, p, ask, body, now);
    var idle := Put(t, p, Idle);
    assert Return(t, idle, p);
    var back := OneStep(cfg, p, t, idle);
    var read;
    read, u := StoredLogCanBeRead(cfg, idle, p, ask, later);
    reading := Joined(cfg, back, read, p, t, idle, u);
    assert reading[1] == idle && reading[3] == read[2];
  }

  /** A Fetch that knows its build's timestamp answers without a path only when the log
      is not finished, and then with that log. */
  lemma OnlyUnfinishedSkipsDisk(cfg: Config, s: State, t: State, p: nat)
    requires ProcStep(cfg, s, t, p) && p < |s.procs| && p < |t.procs|
    requires s.procs[p].Missed? && s.procs[p].timestamp.Some? && t.procs[p].Done?
    ensures !CacheKey.PassesFinishedCheck(t.procs[p].body) && t.procs[p].path == "" && t.disk == s.disk
    ensures s.server.ConsoleText(s.procs[p].ask.Target()) == Some(t.procs[p].body)
  {
    assert Download(s, t, p);
  }

  /** Jenkins is free to act whenever no Fetch stands between its probe and its body
      request for the slot: a build can start there or replace the one there, the build
      there can be deleted, and an unfinished log can grow by anything at any time. */
  lemma JenkinsIsFree(s: State, slot: Slot, ts: int, log: string, run: Run, more: string)
    ensures Undisturbed(s, slot) && Run(slot, ts) !in s.server.logs ==>
      ServerStep(s, s.(server := Server(s.server.current[slot := ts], s.server.logs[Run(slot, ts) := log])))
    ensures Undisturbed(s, slot) ==>
      ServerStep(s, s.(server := s.server.(current := s.server.current - {slot})))
    ensures run in s.server.logs && !CacheKey.PassesFinishedCheck(s.server.logs[run]) ==>
      ServerStep(s, s.(server := s.server.(logs := s.server.logs[run := s.server.logs[run] + more])))
  {
    if Undisturbed(s, slot) {
      var removed := s.(server := s.server.(current := s.server.current - {slot}));
      assert DeleteBuild(s, removed, slot);
      if Run(slot, ts) !in s.server.logs {
        var started := s.(server := Server(s.server.current[slot := ts], s.server.logs[Run(slot, ts) := log]));
        assert StartBuild(s, started, slot, ts, log);
      }
    }
    if run in s.server.logs && !CacheKey.PassesFinishedCheck(s.server.logs[run]) {
      var grown := s.(server := s.server.(logs := s.server.logs[run := s.server.logs[run] + more]));
      assert GrowLog(s, grown, run, more);
    }
  }
}
