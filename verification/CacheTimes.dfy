/** What modification times mean over a run of Fetch calls, and when a log that was
    just stored is still there after its own eviction. */
module CacheTimes {
  import opened CacheDir
  import opened CacheLru

  // ---- modification times are last uses ----

  /** The call serves file n from disk or writes it. */
  ghost predicate Uses(d: Dir, c: Call, n: string) {
    c.Identified() && c.Name() == n && (IsHit(d, c) || IsStored(d, c))
  }

  /** Call i used file n, and no later call before call k did. */
  ghost predicate LastUse(dirs: seq<Dir>, calls: seq<Call>, k: nat, n: string, i: nat)
    requires |dirs| == |calls| + 1 && k <= |calls|
  {
    i < k && UsedBy(dirs, calls, n, i) && forall j :: i < j < k ==> !UsedBy(dirs, calls, n, j)
  }

  ghost predicate UsedBy(dirs: seq<Dir>, calls: seq<Call>, n: string, i: nat)
    requires i < |dirs| && i < |calls|
  {
    Uses(dirs[i], calls[i], n)
  }

  ghost predicate RefreshesWork(calls: seq<Call>) {
    forall i :: 0 <= i < |calls| ==> calls[i].disk.chtimesOk
  }

  /** A file that stays unused keeps its time; a used one gets the time of the call. */
  lemma StepTimes(before: Dir, c: Call, cap: int, after: Dir, r: Reply, n: string)
    requires FetchStep(before, c, cap, after, r) && c.disk.chtimesOk && n in after
    ensures Uses(before, c, n) ==> after[n].mtime == c.now
    ensures !Uses(before, c, n) ==> n in before && after[n] == before[n]
  {
    if IsStored(before, c) {
      assert Submap(after, before[c.Name() := File(c.network.value, c.now)]);
    }
  }

  lemma UnusedKeepsLastUse(dirs: seq<Dir>, calls: seq<Call>, k: nat, n: string, i: nat)
    requires |dirs| == |calls| + 1 && k < |calls|
    requires LastUse(dirs, calls, k, n, i) && !UsedBy(dirs, calls, n, k)
    ensures LastUse(dirs, calls, k + 1, n, i)
  {
  }

  /** As long as refreshing modification times works, each cached file's time is that
      of its last hit or write. */
  lemma {:induction false} MtimeIsLastUse(
      dirs: seq<Dir>, calls: seq<Call>, replies: seq<Reply>, cap: int, k: nat, n: string) returns (i: nat)
    requires IsRun(dirs, calls, replies, cap) && RefreshesWork(calls) && k <= |calls| && n in dirs[k]
    ensures LastUse(dirs, calls, k, n, i) && dirs[k][n].mtime == calls[i].now
  {
    var last := k - 1;
    StepTimes(dirs[last], calls[last], cap, dirs[k], replies[last], n);
    if Uses(dirs[last], calls[last], n) {
      i := last;
    } else {
      i := MtimeIsLastUse(dirs, calls, replies, cap, last, n);
      UnusedKeepsLastUse(dirs, calls, last, n, i);
    }
  }

  lemma OldestFirst(before: Dir, after: Dir, cap: int, disk: Disk, gone: string, kept: string)
    requires Evicted(before, after, cap, disk)
    requires gone in before && gone !in after && kept in after
    requires kept in disk.statable && kept in disk.removable
    ensures before[gone].mtime <= before[kept].mtime == after[kept].mtime
  {
  }

  /** What one call removes is no newer than what it could have removed instead. */
  lemma StepEvictsOldest(before: Dir, c: Call, cap: int, after: Dir, r: Reply, gone: string, kept: string)
    requires FetchStep(before, c, cap, after, r) && (gone in before || Uses(before, c, gone)) && gone !in after
    requires kept in after && kept in c.disk.statable && kept in c.disk.removable
    ensures IsStored(before, c)
    ensures (if Uses(before, c, gone) then c.now else before[gone].mtime) <= after[kept].mtime
  {
    assert IsStored(before, c);
    OldestFirst(before[c.Name() := File(c.network.value, c.now)], after, cap, c.disk, gone, kept);
  }

  /** When a file was last used, up to and including call k, if call k found or wrote it. */
  lemma LastUseOfGone(
      dirs: seq<Dir>, calls: seq<Call>, replies: seq<Reply>, cap: int, k: nat, gone: string) returns (i: nat)
    requires IsRun(dirs, calls, replies, cap) && RefreshesWork(calls) && k < |calls|
    requires gone in dirs[k] || Uses(dirs[k], calls[k], gone)
    ensures LastUse(dirs, calls, k + 1, gone, i)
    ensures calls[i].now == if Uses(dirs[k], calls[k], gone) then calls[k].now else dirs[k][gone].mtime
  {
    if Uses(dirs[k], calls[k], gone) {
      i := k;
    } else {
      i := MtimeIsLastUse(dirs, calls, replies, cap, k, gone);
      UnusedKeepsLastUse(dirs, calls, k, gone, i);
    }
  }

  lemma InCallOrder(dirs: seq<Dir>, calls: seq<Call>, replies: seq<Reply>, cap: int, i: nat, j: nat)
    requires IsRun(dirs, calls, replies, cap) && i < |calls| && j < |calls| && calls[i].now <= calls[j].now
    ensures i <= j
  {
  }

  /** A file evicted by call k was last used no later than any listed, removable
      file that survives. */
  lemma {:induction false} EvictedIsLeastRecentlyUsed(
      dirs: seq<Dir>, calls: seq<Call>, replies: seq<Reply>, cap: int, k: nat, gone: string, kept: string)
    returns (i: nat, j: nat)
    requires IsRun(dirs, calls, replies, cap) && RefreshesWork(calls) && k < |calls|
    requires gone in dirs[k] || Uses(dirs[k], calls[k], gone)
    requires gone !in dirs[k + 1]
    requires kept in dirs[k + 1] && kept in calls[k].disk.statable && kept in calls[k].disk.removable
    ensures LastUse(dirs, calls, k + 1, gone, i) && LastUse(dirs, calls, k + 1, kept, j) && i <= j
  {
    i := LastUseOfGone(dirs, calls, replies, cap, k, gone);
    j := MtimeIsLastUse(dirs, calls, replies, cap, k + 1, kept);
    StepEvictsOldest(dirs[k], calls[k], cap, dirs[k + 1], replies[k], gone, kept);
    InCallOrder(dirs, calls, replies, cap, i, j);
  }

  // ---- the log just stored ----

  /** The other listed files that an eviction leaves in place as long as it has not
      removed a file of time `now`: those it cannot remove, and the newer ones; with
      `ties`, also those of the same time. */
  ghost function Beside(d: Dir, name: string, now: int, disk: Disk, ties: bool): Dir {
    map n | n in d && n != name && n in disk.statable
      && (n !in disk.removable || d[n].mtime > now || (ties && d[n].mtime == now)) :: d[n]
  }

  /** If the file was removed, it did not fit with those beside it, ties included. */
  lemma RemovedDoesNotFit(d: Dir, name: string, f: File, cap: int, after: Dir, disk: Disk)
    requires Evicted(d[name := f], after, cap, disk) && name !in after
    ensures disk.readDirOk && name in disk.statable && name in disk.removable
    ensures |f.bytes| + Total(Beside(d, name, f.mtime, disk, true)) > cap
  {
    var e, beside := d[name := f], Beside(d, name, f.mtime, disk, true);
    var last :| NeededLast(e, after, cap, disk.statable, last);
    assert e[name] == f && f.mtime <= e[last].mtime;
    TotalPut(beside, name, f);
    var listed := Keep(after[last := e[last]], disk.statable);
    forall n | n in listed ensures n in beside[name := f] && beside[name := f][n] == listed[n] {
      if n != last && n in disk.removable {
        assert n in after && f.mtime <= e[n].mtime;
      }
    }
    TotalOfSubmap(listed, beside[name := f]);
  }

  /** If it was listed, removable and stayed, it fits with those beside it, ties left out. */
  lemma KeptFits(d: Dir, name: string, f: File, cap: int, after: Dir, disk: Disk)
    requires Evicted(d[name := f], after, cap, disk) && name in after
    requires disk.readDirOk && name in disk.statable && name in disk.removable
    ensures |f.bytes| + Total(Beside(d, name, f.mtime, disk, false)) <= cap
  {
    var beside := Beside(d, name, f.mtime, disk, false);
    BesideStays(d, name, f, cap, after, disk);
    TotalPut(beside, name, f);
    TotalOfSubmap(beside[name := f], Keep(after, disk.statable));
  }

  lemma BesideStays(d: Dir, name: string, f: File, cap: int, after: Dir, disk: Disk)
    requires Evicted(d[name := f], after, cap, disk) && name in after
    requires disk.readDirOk && name in disk.statable && name in disk.removable
    ensures Submap(Beside(d, name, f.mtime, disk, false)[name := f], Keep(after, disk.statable))
    ensures Total(Keep(after, disk.statable)) <= cap
  {
    var e := d[name := f];
    assert e[name] == f;
    assert forall n :: n in e && n !in after ==> n in disk.removable && e[n].mtime <= f.mtime;
  }

  /** What a store leaves at the returned path, under any clock and any refusals. */
  lemma StoredLogBounds(before: Dir, c: Call, cap: int, after: Dir, r: Reply)
    requires FetchStep(before, c, cap, after, r) && IsStored(before, c)
    ensures var name, body, disk := c.Name(), c.network.value, c.disk;
      && r == Served(body, name, true)
      && (name in after ==> after[name] == File(body, c.now))
      && (name !in after ==>
            && disk.readDirOk && name in disk.statable && name in disk.removable
            && |body| + Total(Beside(before, name, c.now, disk, true)) > cap)
      && (name in after && disk.readDirOk && name in disk.statable && name in disk.removable ==>
            |body| + Total(Beside(before, name, c.now, disk, false)) <= cap)
  {
    var name, f := c.Name(), File(c.network.value, c.now);
    if name !in after {
      RemovedDoesNotFit(before, name, f, cap, after, c.disk);
    } else if c.disk.readDirOk && name in c.disk.statable && name in c.disk.removable {
      KeptFits(before, name, f, cap, after, c.disk);
    }
  }

  /** No other listed file has the time of the new one. */
  ghost predicate NoTie(before: Dir, c: Call)
    requires c.Identified()
  {
    forall n :: n in before && n != c.Name() && n in c.disk.statable ==> before[n].mtime != c.now
  }

  /** A log that was just stored is at the returned path unless the eviction lists it,
      may remove it, and finds that it does not fit the cap together with the files it
      cannot remove and the newer ones. */
  lemma StoredLogStays(before: Dir, c: Call, cap: int, after: Dir, r: Reply)
    requires FetchStep(before, c, cap, after, r) && IsStored(before, c) && NoTie(before, c)
    ensures c.Name() in after <==>
      || !c.disk.readDirOk || c.Name() !in c.disk.statable || c.Name() !in c.disk.removable
      || |c.network.value| + Total(Beside(before, c.Name(), c.now, c.disk, false)) <= cap
  {
    StoredLogBounds(before, c, cap, after, r);
    assert Beside(before, c.Name(), c.now, c.disk, true) == Beside(before, c.Name(), c.now, c.disk, false);
  }

  /** The log is newer than every other file. */
  ghost predicate Newest(before: Dir, c: Call)
    requires c.Identified()
  {
    forall n :: n in before && n != c.Name() ==> before[n].mtime < c.now
  }

  /** The newest log, among files that can all be removed, stays exactly if it fits the
      cap on its own, or is not listed. */
  lemma NewestLogStays(before: Dir, c: Call, cap: int, after: Dir, r: Reply)
    requires FetchStep(before, c, cap, after, r) && IsStored(before, c) && Newest(before, c)
    requires c.disk.statable <= c.disk.removable
    ensures c.Name() in after <==>
      !c.disk.readDirOk || c.Name() !in c.disk.statable || |c.network.value| <= cap
  {
    StoredLogStays(before, c, cap, after, r);
    assert Beside(before, c.Name(), c.now, c.disk, false) == map[];
  }

  /** A log over the cap, stored in an empty directory of a healthy file system, is
      returned with a path that holds nothing. */
  lemma OversizedLogGoes(c: Call, cap: int, after: Dir, r: Reply)
    requires FetchStep(map[], c, cap, after, r) && IsStored(map[], c) && |c.network.value| > cap
    requires c.disk.readDirOk && c.disk.statable == c.disk.removable == {c.Name()}
    ensures r.Served? && r.cachePath == c.Name() && after == map[]
  {
    NewestLogStays(map[], c, cap, after, r);
    assert Submap(after, map[c.Name() := File(c.network.value, c.now)]);
  }

  /** After the clock stepped back, a log that fits the cap is evicted by its own store,
      and the older use of another log survives. */
  lemma ClockStepLosesNewLog(c: Call, other: string, f: File, cap: int, after: Dir, r: Reply)
    requires FetchStep(map[other := f], c, cap, after, r) && IsStored(map[other := f], c)
    requires other != c.Name() && f.mtime > c.now
    requires c.disk.readDirOk && c.disk.statable == c.disk.removable == {c.Name(), other}
    requires |c.network.value| <= cap && |f.bytes| <= cap < |c.network.value| + |f.bytes|
    ensures r.cachePath == c.Name() && after == map[other := f]
  {
    var before, body := map[other := f], c.network.value;
    StoredLogStays(before, c, cap, after, r);
    assert Beside(before, c.Name(), c.now, c.disk, false) == before;
    TotalWithout(before, other);
    assert before - {other} == map[];
    assert c.Name() !in after;
    if other !in after {
      assert after == map[] by {
        assert Submap(after, before[c.Name() := File(body, c.now)]);
      }
      OnlyOneNeeded(before[c.Name() := File(body, c.now)], after, cap, c.disk);
    }
    assert Submap(after, before[c.Name() := File(body, c.now)]);
  }

  /** An eviction that empties the directory removed a last file that was over the cap
      on its own. */
  lemma OnlyOneNeeded(before: Dir, after: Dir, cap: int, disk: Disk)
    requires Evicted(before, after, cap, disk) && before != map[] && after == map[]
    ensures exists n :: n in before && |before[n].bytes| > cap
  {
    var last :| NeededLast(before, after, cap, disk.statable, last);
    var one := Keep(after[last := before[last]], disk.statable);
    TotalOfSubmap(one, map[last := before[last]]);
    TotalWithout(map[last := before[last]], last);
    assert map[last := before[last]] - {last} == map[];
  }
}
