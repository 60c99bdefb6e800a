/** The on-disk console-log cache: what one Fetch and one eviction do to the
    cache directory, including when the file system refuses some of it. */
module CacheDir {
  import opened Sequences
  import CacheKey

  datatype File = File(bytes: string, mtime: int)

  /** The cache directory: file name to content and modification time. */
  type Dir = map<string, File>

  function Keep(d: Dir, names: set<string>): Dir {
    map n | n in d && n in names :: d[n]
  }

  // ---- sizes ----

  ghost function Total(d: Dir): nat {
    if d == map[] then 0
    else
      var n :| n in d;
      |d[n].bytes| + Total(d - {n})
  }

  lemma {:induction false} TotalWithout(d: Dir, n: string)
    requires n in d
    ensures Total(d) == |d[n].bytes| + Total(d - {n})
    decreases |d|
  {
    var m :| m in d && Total(d) == |d[m].bytes| + Total(d - {m});
    if m != n {
      TotalWithout(d - {m}, n);
      TotalWithout(d - {n}, m);
      assert d - {m} - {n} == d - {n} - {m};
    }
  }

  lemma TotalPut(d: Dir, n: string, f: File)
    ensures Total(d[n := f]) == |f.bytes| + Total(d - {n})
    ensures Total(d[n := f]) <= |f.bytes| + Total(d)
    ensures n !in d ==> Total(d[n := f]) == |f.bytes| + Total(d)
  {
    TotalWithout(d[n := f], n);
    assert d[n := f] - {n} == d - {n};
    if n in d {
      TotalWithout(d, n);
    } else {
      assert d - {n} == d;
    }
  }

  lemma {:induction false} TotalOfSubmap(a: Dir, b: Dir)
    requires Submap(a, b)
    ensures Total(a) <= Total(b)
    decreases |a|
  {
    if a == map[] {
    } else {
      var n :| n in a;
      TotalWithout(a, n);
      TotalWithout(b, n);
      TotalOfSubmap(a - {n}, b - {n});
    }
  }

  // ---- eviction ----

  /** What the file system allows during one Fetch. Names outside `statable` are
      sub-directories or files whose metadata cannot be read. */
  datatype Disk = Disk(
    readOk: bool, chtimesOk: bool, writeOk: bool,
    readDirOk: bool, statable: set<string>, removable: set<string>)

  ghost predicate Submap(a: Dir, b: Dir) {
    forall n :: n in a ==> n in b && a[n] == b[n]
  }

  /** `last` was removed, is no older than anything else removed, and its removal
      was still needed. */
  ghost predicate NeededLast(before: Dir, after: Dir, cap: int, statable: set<string>, last: string) {
    && last in before && last !in after
    && (forall n :: n in before && n !in after ==> before[n].mtime <= before[last].mtime)
    && Total(Keep(after[last := before[last]], statable)) > cap
  }

  /** The outcome of one eviction pass. */
  ghost predicate Evicted(before: Dir, after: Dir, cap: int, disk: Disk) {
    && Submap(after, before)
    // only listed, removable files go
    && (forall n :: n in before && n !in after ==> disk.readDirOk && n in disk.statable && n in disk.removable)
    // it ends within the cap, or nothing is left to try
    && (disk.readDirOk ==>
          || Total(Keep(after, disk.statable)) <= cap
          || forall n :: n in after && n in disk.statable ==> n !in disk.removable)
    // oldest first
    && (forall r, s :: r in before && r !in after && s in after && s in disk.statable && s in disk.removable ==>
          before[r].mtime <= before[s].mtime)
    // and no further than needed
    && (before != after ==> exists last :: NeededLast(before, after, cap, disk.statable, last))
  }

  datatype Item = Item(path: string, size: int, mtime: int)

  // ---- one Fetch ----

  /** One call: what is asked, what the server would answer to the timestamp
      probe and to the consoleText request, the clock, and the file system. */
  datatype Call = Call(
    jobPath: string, number: int,
    probe: Option<int>, network: Option<string>,
    now: int, disk: Disk)
  {
    predicate Identified() {
      number > 0 && probe.Some?
    }

    function Name(): string
      requires Identified()
    {
      CacheKey.FileName(jobPath, number, probe.value)
    }
  }

  datatype Reply = Served(body: string, cachePath: string, viaNetwork: bool) | Failed

  ghost predicate IsHit(d: Dir, c: Call) {
    c.Identified() && c.Name() in d && c.disk.readOk
  }

  ghost predicate IsStored(d: Dir, c: Call) {
    && !IsHit(d, c) && c.Identified()
    && c.network.Some? && CacheKey.PassesFinishedCheck(c.network.value) && c.disk.writeOk
  }

  ghost predicate FetchStep(before: Dir, c: Call, cap: int, after: Dir, r: Reply) {
    if IsHit(before, c) then
      var f := before[c.Name()];
      && r == Served(f.bytes, c.Name(), false)
      && after == if c.disk.chtimesOk then before[c.Name() := f.(mtime := c.now)] else before
    else if IsStored(before, c) then
      && r == Served(c.network.value, c.Name(), true)
      && Evicted(before[c.Name() := File(c.network.value, c.now)], after, cap, c.disk)
    else
      && r == (if c.network.Some? then Served(c.network.value, "", true) else Failed)
      && after == before
  }

  ghost predicate DistinctPaths(items: seq<Item>) {
    forall i, j :: 0 <= i < j < |items| ==> items[i].path != items[j].path
  }

  lemma DistinctPathsKept(xs: seq<Item>, ys: seq<Item>)
    requires DistinctPaths(xs) && multiset(xs) == multiset(ys)
    ensures DistinctPaths(ys)
  {
    SameElements(xs, ys);
    DistinctOfMultiset(xs, ys);
    forall i, j | 0 <= i < j < |ys| ensures ys[i].path != ys[j].path {
      assert ys[i] in xs && ys[j] in xs;
    }
  }

  ghost predicate ByAge(items: seq<Item>) {
    forall i, j :: 0 <= i < j < |items| ==> items[i].mtime <= items[j].mtime
  }

  /** The items are the readable files of d, each once. */
  ghost predicate Lists(items: seq<Item>, d: Dir, statable: set<string>) {
    && DistinctPaths(items)
    && (forall it :: it in items ==>
          it.path in d && it.path in statable && it == Item(it.path, |d[it.path].bytes|, d[it.path].mtime))
    && (forall n :: n in d && n in statable ==> exists it :: it in items && it.path == n)
  }

  /** An eviction pass that started from `before` has tried items[..i]: the running
      total is the size of the listed files still there. */
  ghost predicate Tried(before: Dir, items: seq<Item>, i: nat, d: Dir, total: int, disk: Disk) {
    && i <= |items|
    && Submap(d, before)
    && (forall n :: n in before && n !in d ==> n in disk.statable && n in disk.removable)
    && (forall j :: 0 <= j < i ==> (items[j].path in d <==> items[j].path !in disk.removable))
    && (forall j :: i <= j < |items| ==> items[j].path in d)
    && total == Total(Keep(d, disk.statable))
  }

  lemma TriedRemoves(before: Dir, items: seq<Item>, i: nat, d: Dir, total: int, disk: Disk)
    requires Lists(items, before, disk.statable)
    requires Tried(before, items, i, d, total, disk) && i < |items|
    requires items[i].path in disk.removable
    ensures Tried(before, items, i + 1, d - {items[i].path}, total - items[i].size, disk)
  {
    var p := items[i].path;
    assert items[i] in items;
    TotalWithout(Keep(d, disk.statable), p);
    assert Keep(d, disk.statable) - {p} == Keep(d - {p}, disk.statable);
  }

  lemma RemovedIsNeeded(before: Dir, items: seq<Item>, i: nat, d: Dir, total: int, cap: int, disk: Disk)
    requires Lists(items, before, disk.statable) && ByAge(items)
    requires Tried(before, items, i, d, total, disk) && i < |items| && total > cap
    ensures NeededLast(before, d - {items[i].path}, cap, disk.statable, items[i].path)
  {
    var p := items[i].path;
    assert items[i] in items;
    assert (d - {p})[p := before[p]] == d;
    forall n | n in before && n !in d - {p} ensures before[n].mtime <= before[p].mtime {
      if n != p {
        var it :| it in items && it.path == n;
        var j :| 0 <= j < |items| && items[j] == it;
        assert j < i;
      }
    }
  }

  lemma TriedEnough(before: Dir, items: seq<Item>, i: nat, d: Dir, total: int, cap: int, disk: Disk)
    requires disk.readDirOk && Lists(items, before, disk.statable) && ByAge(items)
    requires Tried(before, items, i, d, total, disk)
    requires total <= cap || i == |items|
    requires before != d ==> exists last :: NeededLast(before, d, cap, disk.statable, last)
    ensures Evicted(before, d, cap, disk)
  {
    forall n | n in d && n in disk.statable && i == |items| ensures n !in disk.removable {
      var it :| it in items && it.path == n;
    }
    forall r, s | r in before && r !in d && s in d && s in disk.statable && s in disk.removable
      ensures before[r].mtime <= before[s].mtime
    {
      var a :| a in items && a.path == r;
      var b :| b in items && b.path == s;
      var j :| 0 <= j < |items| && items[j] == a;
      var k :| 0 <= k < |items| && items[k] == b;
      assert j < i && i <= k;
    }
  }

  class ConsoleCache {
    var files: Dir
    const maxBytes: int

    constructor (maxBytes: int)
      ensures files == map[] && this.maxBytes == maxBytes
    {
      files := map[];
      this.maxBytes := maxBytes;
    }

    method Fetch(c: Call) returns (r: Reply)
      modifies this`files
      ensures FetchStep(old(files), c, maxBytes, files, r)
    {
      var probeOK := false;
      var path := "";
      if c.number > 0 {
        if c.probe.Some? {
          probeOK := true;
          path := CacheKey.FileName(c.jobPath, c.number, c.probe.value);
          if path in files && c.disk.readOk {
            var body := files[path].bytes;
            if c.disk.chtimesOk {
              files := files[path := File(body, c.now)];
            }
            return Served(body, path, false);
          }
        }
      }
      if c.network.None? {
        return Failed;
      }
      var body := c.network.value;
      if probeOK && CacheKey.PassesFinishedCheck(body) && c.disk.writeOk {
        files := files[path := File(body, c.now)];
        EvictIfOverCap(c.disk);
        return Served(body, path, true);
      }
      return Served(body, "", true);
    }

    method EvictIfOverCap(disk: Disk)
      modifies this`files
      ensures Evicted(old(files), files, maxBytes, disk)
    {
      if !disk.readDirOk {
        return;
      }
      ghost var before := files;
      var items, total := ListFiles(disk.statable);
      if total <= maxBytes {
        return;
      }
      items := SortByAge(items, files, disk.statable);
      var i := 0;
      ghost var last := "";
      while i < |items| && total > maxBytes
        invariant Tried(before, items, i, files, total, disk)
        invariant files != before ==> NeededLast(before, files, maxBytes, disk.statable, last)
      {
        if items[i].path in disk.removable {
          RemovedIsNeeded(before, items, i, files, total, maxBytes, disk);
          TriedRemoves(before, items, i, files, total, disk);
          last := items[i].path;
          files := files - {items[i].path};
          total := total - items[i].size;
        }
        i := i + 1;
      }
      TriedEnough(before, items, i, files, total, maxBytes, disk);
    }

    method SortByAge(items: seq<Item>, ghost d: Dir, ghost statable: set<string>) returns (sorted: seq<Item>)
      requires Lists(items, d, statable)
      ensures Lists(sorted, d, statable) && ByAge(sorted)
    {
      sorted := SortBy(items, (a: Item, b: Item) => a.mtime <= b.mtime);
      SameElements(items, sorted);
      DistinctPathsKept(items, sorted);
    }

    /** The listing an eviction works on: every readable file once, and the sum of their sizes. */
    method ListFiles(statable: set<string>) returns (items: seq<Item>, total: int)
      ensures Lists(items, files, statable)
      ensures total == Total(Keep(files, statable))
    {
      items, total := [], 0;
      var pending := files.Keys;
      assert Keep(files, statable - pending) == map[];
      while pending != {}
        invariant pending <= files.Keys
        invariant forall it :: it in items ==>
          && it.path in files && it.path in statable && it.path !in pending
          && it == Item(it.path, |files[it.path].bytes|, files[it.path].mtime)
        invariant forall n :: n in files && n in statable && n !in pending ==> exists it :: it in items && it.path == n
        invariant DistinctPaths(items)
        invariant total == Total(Keep(files, statable - pending))
        decreases pending
      {
        var n :| n in pending;
        ghost var done := Keep(files, statable - pending);
        pending := pending - {n};
        if n in statable {
          var it := Item(n, |files[n].bytes|, files[n].mtime);
          items := items + [it];
          total := total + it.size;
          TotalPut(done, n, files[n]);
          assert Keep(files, statable - pending) == done[n := files[n]];
        } else {
          assert Keep(files, statable - pending) == done;
        }
      }
      assert Keep(files, statable - {}) == Keep(files, statable);
    }
  }
}
