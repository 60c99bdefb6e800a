/** Slash-separated job paths and Jenkins' nested `/job/a/job/b` form. */
module JobPath {
  import opened Sequences

  function TrimLeft(s: string): (r: string)
    ensures r == "" || r[0] != '/'
  {
    if s != "" && s[0] == '/' then TrimLeft(s[1..]) else s
  }

  function TrimRight(s: string): (r: string)
    ensures r == "" || r[|r| - 1] != '/'
    ensures r <= s
  {
    if s != "" && s[|s| - 1] == '/' then TrimRight(s[..|s| - 1]) else s
  }

  /** strings.Trim(s, "/") */
  function Trim(s: string): string {
    TrimRight(TrimLeft(s))
  }

  lemma {:induction false} LeftTrimmedAt(s: string) returns (i: nat)
    ensures i <= |s| && TrimLeft(s) == s[i..] && forall k :: 0 <= k < i ==> s[k] == '/'
  {
    i := 0;
    if s == "" || s[0] != '/' {
    } else {
      var k := LeftTrimmedAt(s[1..]);
      i := k + 1;
      assert s[1..][k..] == s[i..];
      assert forall l :: 0 < l < i ==> s[l] == s[1..][l - 1];
    }
  }

  lemma {:induction false} RightTrimmedAt(s: string)
    ensures forall k :: |TrimRight(s)| <= k < |s| ==> s[k] == '/'
  {
    if s == "" || s[|s| - 1] != '/' {
    } else {
      RightTrimmedAt(s[..|s| - 1]);
      assert forall k :: 0 <= k < |s| - 1 ==> s[..|s| - 1][k] == s[k];
    }
  }

  /** Trimming cuts off exactly the slashes at both ends. */
  lemma TrimIsPiece(s: string) returns (i: nat, j: nat)
    ensures i <= j <= |s| && Trim(s) == s[i..j]
    ensures forall k :: 0 <= k < i || j <= k < |s| ==> s[k] == '/'
    ensures i < j ==> s[i] != '/' && s[j - 1] != '/'
  {
    i := LeftTrimmedAt(s);
    var rest := TrimLeft(s);
    RightTrimmedAt(rest);
    j := i + |Trim(s)|;
    assert Trim(s) == rest[..j - i] == s[i..j];
    forall k | j <= k < |s| ensures s[k] == '/' {
      assert s[k] == rest[k - i];
    }
    assert i < j ==> s[i] == rest[0] && s[j - 1] == Trim(s)[j - 1 - i];
  }

  /** The first part grows by one character at its front. */
  function Extend(c: char, parts: seq<string>): seq<string>
    requires |parts| >= 1
  {
    [[c] + parts[0]] + parts[1..]
  }

  /** strings.Split(s, "/"): one part more than there are slashes. */
  function Split(s: string): (parts: seq<string>)
    ensures |parts| >= 1
    ensures forall p :: p in parts ==> '/' !in p
  {
    if s == "" then [""]
    else
      var rest := Split(s[1..]);
      if s[0] == '/' then [""] + rest else Extend(s[0], rest)
  }

  predicate NonBlank(part: string) {
    part != ""
  }

  function NonEmpty(parts: seq<string>): seq<string> {
    Filter(parts, NonBlank)
  }

  /** The names a job path stands for. */
  function Segments(s: string): seq<string> {
    NonEmpty(Split(s))
  }

  function Nested(segs: seq<string>): string {
    if segs == [] then ""
    else Nested(segs[..|segs| - 1]) + "/job/" + segs[|segs| - 1]
  }

  method JobAPIPath(jobPath: string) returns (r: string)
    ensures r == Nested(Segments(jobPath))
  {
    var parts := Split(Trim(jobPath));
    r := "";
    for i := 0 to |parts|
      invariant r == Nested(NonEmpty(parts[..i]))
    {
      assert parts[..i + 1][..i] == parts[..i];
      if parts[i] != "" {
        r := r + "/job/" + parts[i];
      }
    }
    assert parts[..|parts|] == parts;
    TrimKeepsSegments(jobPath);
  }

  // ---- splitting and joining ----

  lemma ExtendJoin(c: char, x: seq<string>, y: seq<string>)
    requires |x| >= 1
    ensures Extend(c, x + y) == Extend(c, x) + y
  {
    assert (x + y)[1..] == x[1..] + y;
  }

  lemma {:induction false} SplitJoin(a: string, b: string)
    ensures Split(a + "/" + b) == Split(a) + Split(b)
  {
    var s := a + "/" + b;
    if a == "" {
      assert s[0] == '/' && s[1..] == b;
    } else {
      SplitJoin(a[1..], b);
      assert s[0] == a[0];
      assert s[1..] == a[1..] + "/" + b;
      var x, y := Split(a[1..]), Split(b);
      if a[0] == '/' {
        assert [""] + (x + y) == [""] + x + y;
      } else {
        ExtendJoin(a[0], x, y);
      }
    }
  }

  lemma SegmentsJoin(a: string, b: string)
    ensures Segments(a + "/" + b) == Segments(a) + Segments(b)
  {
    SplitJoin(a, b);
    FilterConcat(Split(a), Split(b), NonBlank);
  }

  lemma {:induction false} TrimLeftKeepsSegments(s: string)
    ensures Segments(TrimLeft(s)) == Segments(s)
  {
    if s == "" || s[0] != '/' {
    } else {
      TrimLeftKeepsSegments(s[1..]);
      SegmentsJoin("", s[1..]);
      assert "" + "/" + s[1..] == s;
    }
  }

  lemma {:induction false} TrimRightKeepsSegments(s: string)
    ensures Segments(TrimRight(s)) == Segments(s)
  {
    if s == "" || s[|s| - 1] != '/' {
    } else {
      var front := s[..|s| - 1];
      TrimRightKeepsSegments(front);
      SegmentsJoin(front, "");
      assert front + "/" + "" == s;
      assert Segments(front) + [] == Segments(front);
    }
  }

  lemma TrimKeepsSegments(s: string)
    ensures Segments(Trim(s)) == Segments(s)
  {
    TrimLeftKeepsSegments(s);
    TrimRightKeepsSegments(TrimLeft(s));
  }

  lemma SegmentsAreNames(s: string)
    ensures forall p :: p in Segments(s) ==> p != "" && '/' !in p
  {
    FilterMembers(Split(s), NonBlank);
  }

  lemma {:induction false} SplitName(p: string)
    requires '/' !in p
    ensures Split(p) == [p]
  {
    if p == "" {
    } else {
      SplitName(p[1..]);
      assert p == [p[0]] + p[1..];
    }
  }

  lemma NameIsOneSegment(p: string)
    requires p != "" && '/' !in p
    ensures Segments(p) == [p]
  {
    SplitName(p);
    assert Filter([p][..0], NonBlank) == [];
    assert NonBlank([p][0]);
  }

  lemma {:induction false} NestedConcat(a: seq<string>, b: seq<string>)
    ensures Nested(a + b) == Nested(a) + Nested(b)
    decreases |b|
  {
    if b == [] {
      assert a + b == a;
    } else {
      var n := |b| - 1;
      assert (a + b)[..|a + b| - 1] == a + b[..n];
      NestedConcat(a, b[..n]);
    }
  }

  /** The API path of a joined job path is the concatenation of the two API paths. */
  lemma ApiPathJoin(a: string, b: string)
    ensures Nested(Segments(a + "/" + b)) == Nested(Segments(a)) + Nested(Segments(b))
  {
    SegmentsJoin(a, b);
    NestedConcat(Segments(a), Segments(b));
  }

  /** A child job is requested one `/job/<name>` below its folder. */
  lemma ApiPathOfChild(folder: string, name: string)
    requires name != "" && '/' !in name
    ensures Nested(Segments(folder + "/" + name)) == Nested(Segments(folder)) + "/job/" + name
  {
    ApiPathJoin(folder, name);
    NameIsOneSegment(name);
    assert Nested([name]) == "/job/" + name by {
      assert [name][..0] == [];
    }
  }

  // ---- reading an API path back ----

  /** Every second segment: what follows each `job` marker. */
  function AfterMarkers(segs: seq<string>): seq<string> {
    if |segs| < 2 then [] else AfterMarkers(segs[..|segs| - 2]) + [segs[|segs| - 1]]
  }

  lemma SegmentsOfNestedStep(front: string, name: string)
    requires name != "" && '/' !in name
    ensures Segments(front + "/job/" + name) == Segments(front) + ["job", name]
  {
    var tail := "job" + "/" + name;
    assert front + "/job/" + name == front + "/" + tail;
    SegmentsJoin(front, tail);
    assert Segments(tail) == ["job", name] by {
      SegmentsJoin("job", name);
      NameIsOneSegment("job");
      NameIsOneSegment(name);
    }
  }

  lemma {:induction false} ReadNested(names: seq<string>)
    requires forall p :: p in names ==> p != "" && '/' !in p
    ensures |Segments(Nested(names))| == 2 * |names|
    ensures AfterMarkers(Segments(Nested(names))) == names
  {
    if names == [] {
    } else {
      var n := |names| - 1;
      var earlier := names[..n];
      assert forall p :: p in earlier ==> p in names;
      ReadNested(earlier);
      assert names[n] in names;
      SegmentsOfNestedStep(Nested(earlier), names[n]);
      var inner := Segments(Nested(earlier));
      assert (inner + ["job", names[n]])[..|inner|] == inner;
      assert names == earlier + [names[n]];
    }
  }

  /** The names of a job path can be read back from its API path. */
  lemma ApiPathReadsBack(jobPath: string)
    ensures AfterMarkers(Segments(Nested(Segments(jobPath)))) == Segments(jobPath)
  {
    SegmentsAreNames(jobPath);
    ReadNested(Segments(jobPath));
  }

  /** Two job paths are requested at one URL exactly when they name the same job. */
  lemma ApiPathIdentity(a: string, b: string)
    ensures Nested(Segments(a)) == Nested(Segments(b)) <==> Segments(a) == Segments(b)
  {
    ApiPathReadsBack(a);
    ApiPathReadsBack(b);
  }
}
