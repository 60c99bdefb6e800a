/** The cache directory with modification times refines a least-recently-used list,
    on every sequential run with a strictly increasing clock, whatever reads,
    refreshes, writes, listings and removals the file system refuses. */
module CacheLru {
  import opened Sequences
  import opened CacheDir
  import CacheKey

  /** One cached log; the list is ordered from least to most recently used. */
  datatype Entry = Entry(name: string, bytes: string)

  function IndexOf(l: seq<Entry>, name: string): (i: int)
    ensures -1 <= i < |l|
    ensures i >= 0 ==> l[i].name == name
    ensures i < 0 ==> forall j :: 0 <= j < |l| ==> l[j].name != name
  {
    if l == [] then -1
    else if l[|l| - 1].name == name then |l| - 1
    else IndexOf(l[..|l| - 1], name)
  }

  function Without(l: seq<Entry>, i: nat): (m: seq<Entry>)
    requires i < |l|
    ensures |m| == |l| - 1
    ensures forall j :: 0 <= j < |m| ==> m[j] == l[if j < i then j else j + 1]
  {
    l[..i] + l[i + 1..]
  }

  /** Entry i becomes the most recently used one. */
  function Touch(l: seq<Entry>, i: nat): seq<Entry>
    requires i < |l|
  {
    Without(l, i) + [l[i]]
  }

  /** A log is stored as the most recently used one, in place of an older one. */
  function Put(l: seq<Entry>, name: string, body: string): seq<Entry> {
    var i := IndexOf(l, name);
    (if i >= 0 then Without(l, i) else l) + [Entry(name, body)]
  }

  /** What an eviction sees of the list: the entries whose metadata can be read. */
  function ListedSize(l: seq<Entry>, disk: Disk): nat {
    if l == [] then 0
    else
      var last := l[|l| - 1];
      ListedSize(l[..|l| - 1], disk) + if last.name in disk.statable then |last.bytes| else 0
  }

  predicate CanGo(e: Entry, disk: Disk) {
    e.name in disk.statable && e.name in disk.removable
  }

  /** What is left after trying to remove the k least recently used entries. */
  function Survivors(l: seq<Entry>, k: nat, disk: Disk): seq<Entry> {
    if l == [] then []
    else
      var n := |l| - 1;
      Survivors(l[..n], k, disk) + if n < k && CanGo(l[n], disk) then [] else [l[n]]
  }

  predicate Fits(l: seq<Entry>, k: nat, cap: int, disk: Disk) {
    ListedSize(Survivors(l, k, disk), disk) <= cap
  }

  /** The first number from k on that satisfies p, or n. */
  function FirstFrom(p: nat -> bool, k: nat, n: nat): (r: nat)
    requires k <= n
    ensures k <= r <= n && (r == n || p(r))
    ensures forall j: nat :: k <= j < r ==> !p(j)
    decreases n - k
  {
    if k == n || p(k) then k else FirstFrom(p, k + 1, n)
  }

  function FitsAt(l: seq<Entry>, cap: int, disk: Disk): nat -> bool {
    (k: nat) => Fits(l, k, cap, disk)
  }

  /** How many entries an eviction tries, from the least recently used one on, until
      the listed ones fit. */
  function Tries(l: seq<Entry>, cap: int, disk: Disk): nat {
    FirstFrom(FitsAt(l, cap, disk), 0, |l|)
  }

  function Shrink(l: seq<Entry>, cap: int, disk: Disk): seq<Entry> {
    if disk.readDirOk then Survivors(l, Tries(l, cap, disk), disk) else l
  }

  /** Trying that many entries makes the listed ones fit, or tries all of them; fewer
      would not have. */
  lemma TriesIsFirst(l: seq<Entry>, cap: int, disk: Disk)
    ensures var k := Tries(l, cap, disk);
      && k <= |l| && (k == |l| || Fits(l, k, cap, disk))
      && NoneFits(l, cap, disk, k)
  {
    var p := FitsAt(l, cap, disk);
    var k := FirstFrom(p, 0, |l|);
    assert k == |l| || p(k);
    forall j: nat | j < k ensures !Fits(l, j, cap, disk) {
      assert !p(j);
    }
  }

  function LruFetch(l: seq<Entry>, c: Call, cap: int): (seq<Entry>, Reply) {
    var name := if c.Identified() then c.Name() else "";
    var i := IndexOf(l, name);
    if c.Identified() && i >= 0 && c.disk.readOk then
      (if c.disk.chtimesOk then Touch(l, i) else l, Served(l[i].bytes, name, false))
    else if c.network.None? then
      (l, Failed)
    else if c.Identified() && CacheKey.PassesFinishedCheck(c.network.value) && c.disk.writeOk then
      (Shrink(Put(l, name, c.network.value), cap, c.disk), Served(c.network.value, name, true))
    else
      (l, Served(c.network.value, "", true))
  }

  /** The directory holds exactly the listed logs, and its modification times
      increase along the list up to the clock. */
  ghost predicate Represents(l: seq<Entry>, d: Dir, clock: int) {
    && (forall i :: 0 <= i < |l| ==>
          l[i].name in d && d[l[i].name].bytes == l[i].bytes && d[l[i].name].mtime <= clock)
    && (forall n :: n in d ==> Holds(l, n))
    && Ages(l, d)
  }

  ghost predicate Holds(l: seq<Entry>, name: string) {
    exists i :: 0 <= i < |l| && l[i].name == name
  }

  ghost predicate Ages(l: seq<Entry>, d: Dir)
    requires forall i :: 0 <= i < |l| ==> l[i].name in d
  {
    forall i, j :: 0 <= i < j < |l| ==> d[l[i].name].mtime < d[l[j].name].mtime
  }

  // ---- single entries ----

  lemma OthersStillHeld(l: seq<Entry>, i: nat, name: string)
    requires i < |l| && l[i].name != name && Holds(l, name)
    ensures Holds(Without(l, i), name)
  {
    var j :| 0 <= j < |l| && l[j].name == name;
    assert Without(l, i)[if j < i then j else j - 1].name == name;
  }

  lemma NamesDiffer(l: seq<Entry>, d: Dir, clock: int, i: nat, j: nat)
    requires Represents(l, d, clock) && i < |l| && j < |l| && i != j
    ensures l[i].name != l[j].name
  {
    assert d[l[i].name].mtime != d[l[j].name].mtime;
  }

  lemma ForgetOne(l: seq<Entry>, d: Dir, clock: int, i: nat)
    requires Represents(l, d, clock) && i < |l|
    ensures Represents(Without(l, i), d - {l[i].name}, clock)
  {
    var m := Without(l, i);
    var e := d - {l[i].name};
    forall j | 0 <= j < |m| ensures m[j].name in e && e[m[j].name] == d[m[j].name] {
      NamesDiffer(l, d, clock, i, if j < i then j else j + 1);
    }
    forall n | n in e ensures Holds(m, n) {
      OthersStillHeld(l, i, n);
    }
  }

  lemma ForgetNewest(l: seq<Entry>, d: Dir, clock: int)
    requires Represents(l, d, clock) && l != []
    ensures Represents(l[..|l| - 1], d - {l[|l| - 1].name}, d[l[|l| - 1].name].mtime - 1)
  {
    var n := |l| - 1;
    ForgetOne(l, d, clock, n);
    assert Without(l, n) == l[..n];
    forall j | 0 <= j < n ensures d[l[j].name].mtime <= d[l[n].name].mtime - 1 {
      assert d[l[j].name].mtime < d[l[n].name].mtime;
    }
  }

  lemma AppendNewest(l: seq<Entry>, d: Dir, clock: int, name: string, body: string, now: int)
    requires Represents(l, d, clock) && name !in d && clock < now
    ensures Represents(l + [Entry(name, body)], d[name := File(body, now)], now)
  {
    var m := l + [Entry(name, body)];
    var e := d[name := File(body, now)];
    forall n | n in e ensures Holds(m, n) {
      if n != name {
        var j :| 0 <= j < |l| && l[j].name == n;
        assert m[j].name == n;
      } else {
        assert m[|l|].name == n;
      }
    }
  }

  /** Writing a file again, or refreshing it, moves its entry to the end. */
  lemma RewriteNewest(l: seq<Entry>, d: Dir, clock: int, i: nat, body: string, now: int)
    requires Represents(l, d, clock) && i < |l| && clock < now
    ensures Represents(Without(l, i) + [Entry(l[i].name, body)], d[l[i].name := File(body, now)], now)
  {
    var e := d - {l[i].name};
    ForgetOne(l, d, clock, i);
    AppendNewest(Without(l, i), e, clock, l[i].name, body, now);
    assert d[l[i].name := File(body, now)] == e[l[i].name := File(body, now)];
  }

  lemma LaterClock(l: seq<Entry>, d: Dir, clock: int, now: int)
    requires Represents(l, d, clock) && (clock <= now || d == map[])
    ensures Represents(l, d, now)
  {
    assert l != [] ==> l[0].name in d;
  }

  lemma ListedIsOnDisk(l: seq<Entry>, d: Dir, clock: int, name: string)
    requires Represents(l, d, clock)
    ensures IndexOf(l, name) >= 0 <==> name in d
  {
    if name in d {
      assert Holds(l, name);
    }
  }

  lemma PutRepresents(l: seq<Entry>, d: Dir, clock: int, name: string, body: string, now: int)
    requires Represents(l, d, clock) && clock < now
    ensures Represents(Put(l, name, body), d[name := File(body, now)], now)
  {
    ListedIsOnDisk(l, d, clock, name);
    if name in d {
      RewriteNewest(l, d, clock, IndexOf(l, name), body, now);
    } else {
      AppendNewest(l, d, clock, name, body, now);
    }
  }

  // ---- sizes and survivors ----

  lemma TotalOfListed(d: Dir, name: string, listed: set<string>)
    requires name in d
    ensures Total(Keep(d, listed)) == Total(Keep(d - {name}, listed)) + if name in listed then |d[name].bytes| else 0
  {
    if name in listed {
      TotalWithout(Keep(d, listed), name);
      assert Keep(d, listed) - {name} == Keep(d - {name}, listed);
    } else {
      assert Keep(d, listed) == Keep(d - {name}, listed);
    }
  }

  lemma {:induction false} ListedSizeIsTotal(l: seq<Entry>, d: Dir, clock: int, disk: Disk)
    requires Represents(l, d, clock)
    ensures ListedSize(l, disk) == Total(Keep(d, disk.statable))
  {
    if l == [] {
      assert d == map[];
    } else {
      var last := l[|l| - 1];
      ForgetNewest(l, d, clock);
      ListedSizeIsTotal(l[..|l| - 1], d - {last.name}, d[last.name].mtime - 1, disk);
      TotalOfListed(d, last.name, disk.statable);
    }
  }

  lemma ListedSizeSnoc(l: seq<Entry>, e: Entry, disk: Disk)
    ensures ListedSize(l + [e], disk) == ListedSize(l, disk) + if e.name in disk.statable then |e.bytes| else 0
  {
    assert (l + [e])[..|l|] == l;
  }

  lemma {:induction false} SurvivorsShrink(l: seq<Entry>, k: nat, disk: Disk)
    ensures ListedSize(Survivors(l, k + 1, disk), disk) <= ListedSize(Survivors(l, k, disk), disk)
  {
    if l == [] {
    } else {
      var n := |l| - 1;
      SurvivorsShrink(l[..n], k, disk);
      ListedSizeSnoc(Survivors(l[..n], k, disk), l[n], disk);
      ListedSizeSnoc(Survivors(l[..n], k + 1, disk), l[n], disk);
      assert Survivors(l[..n], k + 1, disk) + [] == Survivors(l[..n], k + 1, disk);
      assert Survivors(l[..n], k, disk) + [] == Survivors(l[..n], k, disk);
    }
  }

  ghost predicate NoneFits(l: seq<Entry>, cap: int, disk: Disk, below: nat) {
    forall j :: 0 <= j < below ==> !Fits(l, j, cap, disk)
  }

  lemma {:induction false} NoneFitsBefore(l: seq<Entry>, k: nat, cap: int, disk: Disk)
    requires !Fits(l, k, cap, disk)
    ensures NoneFits(l, cap, disk, k + 1)
  {
    if k == 0 {
    } else {
      SurvivorsShrink(l, k - 1, disk);
      NoneFitsBefore(l, k - 1, cap, disk);
    }
  }

  lemma {:induction false} SurvivorsStay(l: seq<Entry>, k: nat, j: nat, disk: Disk)
    requires k <= j && forall i :: k <= i < |l| ==> !CanGo(l[i], disk)
    ensures Survivors(l, j, disk) == Survivors(l, k, disk)
  {
    if l == [] {
    } else {
      SurvivorsStay(l[..|l| - 1], k, j, disk);
    }
  }

  /** d lacks exactly the removable files among the first k entries. */
  ghost predicate CutAt(l: seq<Entry>, k: nat, before: Dir, d: Dir, disk: Disk) {
    && Submap(d, before)
    && forall i :: 0 <= i < |l| ==> (l[i].name in d <==> !(i < k && CanGo(l[i], disk)))
  }

  lemma CutForgetsNewest(l: seq<Entry>, k: nat, before: Dir, d: Dir, disk: Disk, clock: int)
    requires Represents(l, before, clock) && CutAt(l, k, before, d, disk) && l != []
    ensures var name := l[|l| - 1].name;
      CutAt(l[..|l| - 1], k, before - {name}, d - {name}, disk)
  {
    var n := |l| - 1;
    forall i | 0 <= i < n ensures l[i].name != l[n].name {
      NamesDiffer(l, before, clock, i, n);
    }
  }

  /** The newest entry joins the survivors of the others, if its file is there. */
  lemma NewestSurvives(s: seq<Entry>, e: Entry, d: Dir, mtime: int, clock: int)
    requires Represents(s, d - {e.name}, mtime - 1) && mtime <= clock
    requires e.name in d ==> d[e.name] == File(e.bytes, mtime)
    ensures Represents(s + if e.name in d then [e] else [], d, clock)
  {
    var rest := d - {e.name};
    if e.name in d {
      AppendNewest(s, rest, mtime - 1, e.name, e.bytes, mtime);
      assert d == rest[e.name := File(e.bytes, mtime)];
      LaterClock(s + [e], d, mtime, clock);
    } else {
      assert d == rest && s + [] == s;
      LaterClock(s, d, mtime - 1, clock);
    }
  }

  lemma {:induction false} SurvivorsRepresent(
      l: seq<Entry>, k: nat, before: Dir, d: Dir, disk: Disk, clock: int)
    requires Represents(l, before, clock) && CutAt(l, k, before, d, disk)
    ensures Represents(Survivors(l, k, disk), d, clock)
  {
    if l == [] {
      assert d == map[];
    } else {
      var n := |l| - 1;
      var last := l[n];
      var mtime := before[last.name].mtime;
      ForgetNewest(l, before, clock);
      CutForgetsNewest(l, k, before, d, disk, clock);
      SurvivorsRepresent(l[..n], k, before - {last.name}, d - {last.name}, disk, mtime - 1);
      assert last.name in d ==> d[last.name] == before[last.name] == File(last.bytes, mtime);
      NewestSurvives(Survivors(l[..n], k, disk), last, d, mtime, clock);
    }
  }

  // ---- eviction ----

  /** Everything removable up to the last removed file went, and nothing beyond it. */
  lemma EvictionCuts(l: seq<Entry>, before: Dir, after: Dir, cap: int, disk: Disk, clock: int, k: nat)
    requires Represents(l, before, clock) && Evicted(before, after, cap, disk)
    requires 0 < k <= |l| && NeededLast(before, after, cap, disk.statable, l[k - 1].name)
    ensures CutAt(l, k, before, after, disk)
  {
    forall i | 0 <= i < |l| ensures l[i].name in after <==> !(i < k && CanGo(l[i], disk)) {
      if l[i].name in after {
        SurvivorIsBeyond(l, before, after, cap, disk, clock, k, i);
      } else {
        RemovedIsBelow(l, before, after, cap, disk, clock, k, i);
      }
    }
  }

  lemma SurvivorIsBeyond(
      l: seq<Entry>, before: Dir, after: Dir, cap: int, disk: Disk, clock: int, k: nat, i: nat)
    requires Represents(l, before, clock) && Evicted(before, after, cap, disk)
    requires 0 < k <= |l| && l[k - 1].name !in after && i < |l| && l[i].name in after
    ensures CanGo(l[i], disk) ==> i >= k
  {
    var last := l[k - 1].name;
    if CanGo(l[i], disk) {
      assert before[last].mtime <= before[l[i].name].mtime;
      assert l[i].name != last;
    }
  }

  lemma RemovedIsBelow(
      l: seq<Entry>, before: Dir, after: Dir, cap: int, disk: Disk, clock: int, k: nat, i: nat)
    requires Represents(l, before, clock) && Evicted(before, after, cap, disk)
    requires 0 < k <= |l| && NeededLast(before, after, cap, disk.statable, l[k - 1].name)
    requires i < |l| && l[i].name !in after
    ensures i < k && CanGo(l[i], disk)
  {
    assert l[i].name in before;
    assert before[l[i].name].mtime <= before[l[k - 1].name].mtime;
  }

  lemma PutBack(l: seq<Entry>, before: Dir, after: Dir, disk: Disk, clock: int, k: nat)
    requires Represents(l, before, clock) && 0 < k <= |l| && CutAt(l, k, before, after, disk)
    ensures CutAt(l, k - 1, before, after[l[k - 1].name := before[l[k - 1].name]], disk)
  {
    forall i | 0 <= i < |l| && i != k - 1 ensures l[i].name != l[k - 1].name {
      NamesDiffer(l, before, clock, i, k - 1);
    }
  }

  /** One removal earlier the list was still over the cap. */
  lemma LastCutWasNeeded(l: seq<Entry>, before: Dir, after: Dir, cap: int, disk: Disk, clock: int, k: nat)
    requires Represents(l, before, clock) && 0 < k <= |l| && CutAt(l, k, before, after, disk)
    requires NeededLast(before, after, cap, disk.statable, l[k - 1].name)
    ensures !Fits(l, k - 1, cap, disk)
  {
    var one := after[l[k - 1].name := before[l[k - 1].name]];
    PutBack(l, before, after, disk, clock, k);
    SurvivorsRepresent(l, k - 1, before, one, disk, clock);
    ListedSizeIsTotal(Survivors(l, k - 1, disk), one, clock, disk);
  }

  lemma LastRemoved(l: seq<Entry>, before: Dir, after: Dir, cap: int, disk: Disk, clock: int) returns (i: nat)
    requires Represents(l, before, clock) && Evicted(before, after, cap, disk) && before != after
    ensures i < |l| && NeededLast(before, after, cap, disk.statable, l[i].name)
  {
    var last :| NeededLast(before, after, cap, disk.statable, last);
    assert Holds(l, last);
    i :| i < |l| && l[i].name == last;
  }

  /** How far an eviction got through the list. */
  lemma EvictionPoint(l: seq<Entry>, before: Dir, after: Dir, cap: int, disk: Disk, clock: int) returns (k: nat)
    requires Represents(l, before, clock) && Evicted(before, after, cap, disk)
    ensures k <= |l| && CutAt(l, k, before, after, disk)
    ensures NoneFits(l, cap, disk, k)
  {
    if before == after {
      k := 0;
    } else {
      var i := LastRemoved(l, before, after, cap, disk, clock);
      k := i + 1;
      EvictionCuts(l, before, after, cap, disk, clock, k);
      LastCutWasNeeded(l, before, after, cap, disk, clock, k);
      NoneFitsBefore(l, i, cap, disk);
    }
  }

  lemma TriesAtLeast(l: seq<Entry>, cap: int, disk: Disk, k: nat)
    requires k <= |l| && NoneFits(l, cap, disk, k)
    ensures Tries(l, cap, disk) >= k
  {
    TriesIsFirst(l, cap, disk);
  }

  /** The eviction got exactly as far as the list's own tries matter. */
  lemma TriesMatch(l: seq<Entry>, cap: int, disk: Disk, k: nat)
    requires k <= |l| && NoneFits(l, cap, disk, k)
    requires Fits(l, k, cap, disk) || forall i :: k <= i < |l| ==> !CanGo(l[i], disk)
    ensures Survivors(l, Tries(l, cap, disk), disk) == Survivors(l, k, disk)
  {
    var tries := Tries(l, cap, disk);
    TriesIsFirst(l, cap, disk);
    TriesAtLeast(l, cap, disk, k);
    if tries > k {
      assert !Fits(l, k, cap, disk);
      SurvivorsStay(l, k, tries, disk);
    }
  }

  lemma EvictionIsOver(l: seq<Entry>, before: Dir, after: Dir, cap: int, disk: Disk, clock: int, k: nat)
    requires Represents(l, before, clock) && Evicted(before, after, cap, disk) && disk.readDirOk
    requires CutAt(l, k, before, after, disk) && Represents(Survivors(l, k, disk), after, clock)
    ensures Fits(l, k, cap, disk) || forall i :: k <= i < |l| ==> !CanGo(l[i], disk)
  {
    ListedSizeIsTotal(Survivors(l, k, disk), after, clock, disk);
    if Total(Keep(after, disk.statable)) > cap {
      forall i | k <= i < |l| ensures !CanGo(l[i], disk) {
        assert l[i].name in after;
      }
    }
  }

  /** Evicting by modification time is shrinking the list. */
  lemma EvictionIsShrink(l: seq<Entry>, before: Dir, after: Dir, cap: int, disk: Disk, clock: int)
    requires Represents(l, before, clock) && Evicted(before, after, cap, disk)
    ensures Represents(Shrink(l, cap, disk), after, clock)
  {
    if disk.readDirOk {
      var k := EvictionPoint(l, before, after, cap, disk, clock);
      SurvivorsRepresent(l, k, before, after, disk, clock);
      EvictionIsOver(l, before, after, cap, disk, clock, k);
      TriesMatch(l, cap, disk, k);
    } else {
      assert after == before;
    }
  }

  // ---- one Fetch ----

  lemma HitRefinesLru(l: seq<Entry>, before: Dir, clock: int, c: Call, cap: int, after: Dir, r: Reply)
    requires Represents(l, before, clock) && clock < c.now
    requires IsHit(before, c) && FetchStep(before, c, cap, after, r)
    ensures Represents(LruFetch(l, c, cap).0, after, c.now)
    ensures r == LruFetch(l, c, cap).1
  {
    var name := c.Name();
    ListedIsOnDisk(l, before, clock, name);
    var i := IndexOf(l, name);
    assert before[name].bytes == l[i].bytes;
    if c.disk.chtimesOk {
      RewriteNewest(l, before, clock, i, l[i].bytes, c.now);
      assert Entry(l[i].name, l[i].bytes) == l[i];
    } else {
      LaterClock(l, before, clock, c.now);
    }
  }

  lemma LruStores(l: seq<Entry>, before: Dir, clock: int, c: Call, cap: int)
    requires Represents(l, before, clock) && IsStored(before, c)
    ensures var body := c.network.value;
      LruFetch(l, c, cap) == (Shrink(Put(l, c.Name(), body), cap, c.disk), Served(body, c.Name(), true))
  {
    ListedIsOnDisk(l, before, clock, c.Name());
  }

  lemma StoreRefinesLru(l: seq<Entry>, before: Dir, clock: int, c: Call, cap: int, after: Dir, r: Reply)
    requires Represents(l, before, clock) && clock < c.now
    requires IsStored(before, c) && FetchStep(before, c, cap, after, r)
    ensures Represents(LruFetch(l, c, cap).0, after, c.now)
    ensures r == LruFetch(l, c, cap).1
  {
    var name, body := c.Name(), c.network.value;
    LruStores(l, before, clock, c, cap);
    PutRepresents(l, before, clock, name, body, c.now);
    EvictionIsShrink(Put(l, name, body), before[name := File(body, c.now)], after, cap, c.disk, c.now);
  }

  /** One Fetch on the directory is one Fetch on the list, with the same reply. */
  lemma {:induction false} FetchRefinesLru(
      l: seq<Entry>, before: Dir, clock: int, c: Call, cap: int, after: Dir, r: Reply)
    requires Represents(l, before, clock) && clock < c.now
    requires FetchStep(before, c, cap, after, r)
    ensures Represents(LruFetch(l, c, cap).0, after, c.now)
    ensures r == LruFetch(l, c, cap).1
  {
    if IsHit(before, c) {
      HitRefinesLru(l, before, clock, c, cap, after, r);
    } else if IsStored(before, c) {
      StoreRefinesLru(l, before, clock, c, cap, after, r);
    } else {
      LaterClock(l, before, clock, c.now);
      if c.Identified() {
        ListedIsOnDisk(l, before, clock, c.Name());
      }
    }
  }

  // ---- whole runs ----

  /** dirs[i] is the directory before calls[i]; it starts out empty. Each call has
      its own file system, which may refuse anything. */
  ghost predicate IsRun(dirs: seq<Dir>, calls: seq<Call>, replies: seq<Reply>, cap: int) {
    && |dirs| == |calls| + 1 && |replies| == |calls|
    && dirs[0] == map[]
    && (forall i :: 0 <= i < |calls| ==> FetchStep(dirs[i], calls[i], cap, dirs[i + 1], replies[i]))
    && (forall i, j :: 0 <= i < j < |calls| ==> calls[i].now < calls[j].now)
  }

  function LruRun(calls: seq<Call>, cap: int): (seq<Entry>, seq<Reply>) {
    if calls == [] then ([], [])
    else
      var (l, replies) := LruRun(calls[..|calls| - 1], cap);
      var (l', r) := LruFetch(l, calls[|calls| - 1], cap);
      (l', replies + [r])
  }

  /** Every run of Fetch calls from an empty directory gives the replies of the LRU
      list, and leaves the directory holding exactly that list. */
  lemma {:induction false} RunRefinesLru(dirs: seq<Dir>, calls: seq<Call>, replies: seq<Reply>, cap: int)
    returns (clock: int)
    requires IsRun(dirs, calls, replies, cap)
    ensures replies == LruRun(calls, cap).1
    ensures Represents(LruRun(calls, cap).0, dirs[|calls|], clock)
    ensures calls != [] ==> clock == calls[|calls| - 1].now
    decreases |calls|
  {
    if calls == [] {
      clock := 0;
    } else {
      var n := |calls| - 1;
      var c := calls[n];
      RunPrefix(dirs, calls, replies, cap);
      var earlier := RunRefinesLru(dirs[..n + 1], calls[..n], replies[..n], cap);
      var l := LruRun(calls[..n], cap).0;
      if n == 0 {
        LaterClock(l, dirs[n], earlier, c.now - 1);
        earlier := c.now - 1;
      }
      FetchRefinesLru(l, dirs[n], earlier, c, cap, dirs[n + 1], replies[n]);
      clock := c.now;
      assert replies == replies[..n] + [replies[n]];
    }
  }

  lemma RunPrefix(dirs: seq<Dir>, calls: seq<Call>, replies: seq<Reply>, cap: int)
    requires IsRun(dirs, calls, replies, cap) && calls != []
    ensures var n := |calls| - 1;
      IsRun(dirs[..n + 1], calls[..n], replies[..n], cap)
  {
  }

  // ---- what the LRU list guarantees ----

  lemma {:induction false} SurvivorsAreSuffix(l: seq<Entry>, k: nat, disk: Disk)
    requires k <= |l| && forall e :: e in l ==> CanGo(e, disk)
    ensures Survivors(l, k, disk) == l[k..]
  {
    if l == [] {
    } else {
      var n := |l| - 1;
      assert l[n] in l;
      if k <= n {
        SurvivorsAreSuffix(l[..n], k, disk);
        assert l[k..] == l[..n][k..] + [l[n]];
      } else {
        SurvivorsAreSuffix(l[..n], n, disk);
        SurvivorsBeyond(l[..n], k, disk);
      }
    }
  }

  lemma {:induction false} SurvivorsBeyond(l: seq<Entry>, k: nat, disk: Disk)
    requires k >= |l|
    ensures Survivors(l, k, disk) == Survivors(l, |l|, disk)
  {
    if l == [] {
    } else {
      var n := |l| - 1;
      SurvivorsBeyond(l[..n], k, disk);
      SurvivorsBeyond(l[..n], |l|, disk);
    }
  }

  /** When nothing is refused, shrinking keeps the longest list of most recently used
      entries that fits the cap. */
  lemma ShrinkFits(l: seq<Entry>, cap: int, disk: Disk) returns (k: nat)
    requires cap >= 0 && disk.readDirOk && forall e :: e in l ==> CanGo(e, disk)
    ensures k <= |l| && Shrink(l, cap, disk) == l[k..] && ListedSize(l[k..], disk) <= cap
    ensures forall j :: 0 <= j < k ==> ListedSize(l[j..], disk) > cap
  {
    k := Tries(l, cap, disk);
    TriesIsFirst(l, cap, disk);
    SurvivorsAreSuffix(l, k, disk);
    forall j | 0 <= j < k ensures ListedSize(l[j..], disk) > cap {
      SurvivorsAreSuffix(l, j, disk);
      assert !Fits(l, j, cap, disk);
    }
  }
}
