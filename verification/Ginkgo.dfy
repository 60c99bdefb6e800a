/** Reading the failure summary at the end of a Ginkgo log: a backward search for
    the summary line, then a forward scan of the block that follows it. */
module Ginkgo {
  import opened Sequences

  datatype Header = Header(spec: string, nodeType: string, desc: string, tags: string)

  /** The line patterns: the announced number of failures, the parts of a [FAIL]
      line, and the first file reference of a line. */
  datatype Patterns = Patterns(
    summary: string -> Option<int>,
    fail: string -> Option<Header>,
    fileRef: string -> Option<string>)
  {
    /** A matched file reference starts with a slash, so it is never empty. */
    ghost predicate Valid() {
      forall ln :: fileRef(ln).Some? ==> fileRef(ln).value != ""
    }
  }

  predicate OccursAt(s: string, word: string, i: int) {
    0 <= i <= |s| - |word| && s[i..i + |word|] == word
  }

  predicate Contains(s: string, word: string) {
    exists i | 0 <= i <= |s| - |word| :: OccursAt(s, word, i)
  }

  predicate EndsBlock(ln: string) {
    Contains(ln, "Ran ") && Contains(ln, " Specs")
  }

  /** A line ends the block when it says both "Ran " and " Specs". */
  lemma EndsBlockExact(ln: string)
    ensures EndsBlock(ln) <==>
      && (exists a, b :: ln == a + "Ran " + b)
      && (exists a, b :: ln == a + " Specs" + b)
  {
    OccursExactly(ln, "Ran ");
    OccursExactly(ln, " Specs");
  }

  lemma OccursExactly(s: string, word: string)
    ensures Contains(s, word) <==> exists a, b :: s == a + word + b
  {
    if i :| 0 <= i <= |s| - |word| && OccursAt(s, word, i) {
      assert s == s[..i] + word + s[i + |word|..];
    }
    if a, b :| s == a + word + b {
      assert s[|a|..|a| + |word|] == word;
      assert OccursAt(s, word, |a|);
    }
  }

  datatype Failure = Failure(header: Header, fileRef: string, line: nat)

  datatype Parsed = Parsed(total: int, failures: seq<Failure>, summaryLine: int)

  // ---- what the scan is meant to find ----

  /** s is the last line announcing a summary. */
  ghost predicate IsLastSummary(lines: seq<string>, p: Patterns, s: nat) {
    && s < |lines| && p.summary(lines[s]).Some?
    && forall i :: s < i < |lines| ==> p.summary(lines[i]).None?
  }

  /** e is the first line from `from` on that ends the block, or the end of the log. */
  ghost predicate IsBlockEnd(lines: seq<string>, from: nat, e: nat) {
    && from <= e <= |lines|
    && (forall i :: from <= i < e ==> !EndsBlock(lines[i]))
    && (e < |lines| ==> EndsBlock(lines[e]))
  }

  function BlockEnd(lines: seq<string>, from: nat): (e: nat)
    requires from <= |lines|
    ensures IsBlockEnd(lines, from, e)
    decreases |lines| - from
  {
    if from == |lines| || EndsBlock(lines[from]) then from else BlockEnd(lines, from + 1)
  }

  /** The [FAIL] lines of lines[from..to], in order. */
  function FailLines(lines: seq<string>, p: Patterns, from: nat, to: nat): (at: seq<nat>)
    requires to <= |lines|
    ensures forall k :: 0 <= k < |at| ==> from <= at[k] < to
  {
    if to <= from then []
    else FailLines(lines, p, from, to - 1) + if p.fail(lines[to - 1]).Some? then [to - 1] else []
  }

  /** The first file reference in lines[from..to], or "". */
  function FirstRef(lines: seq<string>, p: Patterns, from: nat, to: nat): string
    requires to <= |lines|
  {
    if to <= from then ""
    else
      var earlier := FirstRef(lines, p, from, to - 1);
      if earlier != "" then earlier
      else if p.fileRef(lines[to - 1]).Some? then p.fileRef(lines[to - 1]).value
      else ""
  }

  /** The failure announced at line i, whose details run up to line `to`. */
  function FailureAt(lines: seq<string>, p: Patterns, i: nat, to: nat): Failure
    requires i < |lines| && to <= |lines|
  {
    var h := p.fail(lines[i]);
    Failure(if h.Some? then h.value else Header("", "", "", ""), FirstRef(lines, p, i + 1, to), i + 1)
  }

  /** One failure per [FAIL] line, each running up to the next one or the end. */
  function FailuresOf(lines: seq<string>, p: Patterns, at: seq<nat>, end: nat): seq<Failure>
    requires end <= |lines| && forall k :: 0 <= k < |at| ==> at[k] < |lines|
  {
    seq(|at|, k requires 0 <= k < |at| => FailureAt(lines, p, at[k], if k + 1 < |at| then at[k + 1] else end))
  }

  /** The failures of the block that starts at line `from`. */
  function BlockFailures(lines: seq<string>, p: Patterns, from: nat): seq<Failure>
    requires from <= |lines|
  {
    var end := BlockEnd(lines, from);
    FailuresOf(lines, p, FailLines(lines, p, from, end), end)
  }

  lemma {:induction false} FailLinesExact(lines: seq<string>, p: Patterns, from: nat, to: nat)
    requires to <= |lines|
    ensures var at := FailLines(lines, p, from, to);
      && (forall i: nat :: i in at <==> from <= i < to && p.fail(lines[i]).Some?)
      && (forall k, l :: 0 <= k < l < |at| ==> at[k] < at[l])
  {
    if to <= from {
    } else {
      FailLinesExact(lines, p, from, to - 1);
    }
  }

  /** Line i is the first of lines[from..to] with a file reference. */
  ghost predicate IsFirstRefLine(lines: seq<string>, p: Patterns, from: nat, to: nat, i: nat) {
    && from <= i < to <= |lines| && p.fileRef(lines[i]).Some?
    && forall j :: from <= j < i ==> p.fileRef(lines[j]).None?
  }

  /** The reference found is that of the first line that has one. */
  lemma {:induction false} FirstRefExact(lines: seq<string>, p: Patterns, from: nat, to: nat)
    requires to <= |lines| && p.Valid()
    ensures FirstRef(lines, p, from, to) == "" <==> forall i: nat :: from <= i < to ==> p.fileRef(lines[i]).None?
    ensures forall i: nat :: IsFirstRefLine(lines, p, from, to, i) ==>
      FirstRef(lines, p, from, to) == p.fileRef(lines[i]).value
  {
    if to <= from {
    } else {
      FirstRefExact(lines, p, from, to - 1);
      forall i: nat | IsFirstRefLine(lines, p, from, to, i)
        ensures FirstRef(lines, p, from, to) == p.fileRef(lines[i]).value
      {
        if i < to - 1 {
          assert IsFirstRefLine(lines, p, from, to - 1, i);
        }
      }
    }
  }

  // ---- the scan ----

  /** cur is the failure being read; the two together are what was found up to line i. */
  ghost predicate Scanned(
      lines: seq<string>, p: Patterns, from: nat, i: nat, failures: seq<Failure>, cur: Option<Failure>)
    requires from <= i <= |lines|
  {
    var at := FailLines(lines, p, from, i);
    && failures + (if cur.Some? then [cur.value] else []) == FailuresOf(lines, p, at, i)
    && (cur.None? ==> at == [])
  }

  lemma ScanFail(lines: seq<string>, p: Patterns, from: nat, i: nat, failures: seq<Failure>, cur: Option<Failure>)
    requires from <= i < |lines| && Scanned(lines, p, from, i, failures, cur)
    requires p.fail(lines[i]).Some?
    ensures Scanned(lines, p, from, i + 1,
      failures + (if cur.Some? then [cur.value] else []), Some(Failure(p.fail(lines[i]).value, "", i + 1)))
  {
    var at := FailLines(lines, p, from, i);
    assert FailLines(lines, p, from, i + 1) == at + [i];
  }

  /** Reading one more line touches only the last failure, and only its reference. */
  lemma LastFailureGrows(lines: seq<string>, p: Patterns, at: seq<nat>, i: nat)
    requires i < |lines| && at != [] && forall k :: 0 <= k < |at| ==> at[k] < i
    ensures var before := FailuresOf(lines, p, at, i);
      var last := before[|at| - 1];
      var ref := if last.fileRef == "" && p.fileRef(lines[i]).Some? then p.fileRef(lines[i]).value else last.fileRef;
      FailuresOf(lines, p, at, i + 1) == before[..|at| - 1] + [last.(fileRef := ref)]
  {
  }

  lemma ScanOther(lines: seq<string>, p: Patterns, from: nat, i: nat, failures: seq<Failure>, cur: Option<Failure>)
    requires from <= i < |lines| && Scanned(lines, p, from, i, failures, cur)
    requires p.fail(lines[i]).None?
    ensures cur.None? ==> Scanned(lines, p, from, i + 1, failures, None)
    ensures cur.Some? && (cur.value.fileRef != "" || p.fileRef(lines[i]).None?) ==>
      Scanned(lines, p, from, i + 1, failures, cur)
    ensures cur.Some? && cur.value.fileRef == "" && p.fileRef(lines[i]).Some? ==>
      Scanned(lines, p, from, i + 1, failures, Some(cur.value.(fileRef := p.fileRef(lines[i]).value)))
  {
    var at := FailLines(lines, p, from, i);
    assert FailLines(lines, p, from, i + 1) == at;
    if cur.Some? {
      var before := FailuresOf(lines, p, at, i);
      assert before[|at| - 1] == cur.value && before[..|at| - 1] == failures;
      LastFailureGrows(lines, p, at, i);
    }
  }

  /** The summary line found is the last one; the failures are exactly those of the
      [FAIL] lines between it and the end of its block, in order, each with the first
      file reference before the next [FAIL] line or the end. */
  method ParseGinkgoFailures(lines: seq<string>, p: Patterns) returns (r: Parsed)
    requires p.Valid()
    ensures (forall i :: 0 <= i < |lines| ==> p.summary(lines[i]).None?) ==> r == Parsed(0, [], -1)
    ensures (exists i :: 0 <= i < |lines| && p.summary(lines[i]).Some?) ==>
      && r.summaryLine >= 1 && IsLastSummary(lines, p, r.summaryLine - 1)
      && r.total == p.summary(lines[r.summaryLine - 1]).value
      && r.failures == BlockFailures(lines, p, r.summaryLine)
  {
    var total, summaryLine := 0, -1;
    var i := |lines| - 1;
    while i >= 0
      invariant -1 <= i < |lines|
      invariant summaryLine == -1
      invariant forall j :: i < j < |lines| ==> p.summary(lines[j]).None?
    {
      var m := p.summary(lines[i]);
      if m.Some? {
        total := m.value;
        summaryLine := i;
        break;
      }
      i := i - 1;
    }
    if summaryLine == -1 {
      return Parsed(0, [], -1);
    }
    var failures := ScanBlock(lines, p, summaryLine + 1);
    r := Parsed(total, failures, summaryLine + 1);
  }

  lemma OneBlockEnd(lines: seq<string>, from: nat, e: nat)
    requires IsBlockEnd(lines, from, e)
    ensures e == BlockEnd(lines, from)
  {
  }

  method ScanBlock(lines: seq<string>, p: Patterns, from: nat) returns (failures: seq<Failure>)
    requires from <= |lines|
    ensures failures == BlockFailures(lines, p, from)
  {
    failures := [];
    var cur: Option<Failure> := None;
    var i := from;
    while i < |lines|
      invariant from <= i <= |lines|
      invariant Scanned(lines, p, from, i, failures, cur)
      invariant forall j :: from <= j < i ==> !EndsBlock(lines[j])
    {
      var ln := lines[i];
      if EndsBlock(ln) {
        break;
      }
      var m := p.fail(ln);
      if m.Some? {
        ScanFail(lines, p, from, i, failures, cur);
        if cur.Some? {
          failures := failures + [cur.value];
        }
        cur := Some(Failure(m.value, "", i + 1));
      } else {
        ScanOther(lines, p, from, i, failures, cur);
        if cur.Some? && cur.value.fileRef == "" {
          var fm := p.fileRef(ln);
          if fm.Some? {
            cur := Some(cur.value.(fileRef := fm.value));
          }
        }
      }
      i := i + 1;
    }
    OneBlockEnd(lines, from, i);
    if cur.Some? {
      failures := failures + [cur.value];
    }
  }

  // ---- what a reader of the result can rely on ----

  lemma FailureHead(lines: seq<string>, p: Patterns, at: seq<nat>, end: nat, k: nat)
    requires end <= |lines| && k < |at| && forall j :: 0 <= j < |at| ==> at[j] < |lines|
    ensures FailuresOf(lines, p, at, end)[k].line == at[k] + 1
    ensures p.fail(lines[at[k]]).Some? ==> p.fail(lines[at[k]]) == Some(FailuresOf(lines, p, at, end)[k].header)
  {
  }

  /** The k-th failure is that of the k-th [FAIL] line of the block. */
  lemma FailureIsOfLine(lines: seq<string>, p: Patterns, from: nat, end: nat, k: nat)
    requires end <= |lines| && k < |FailLines(lines, p, from, end)|
    ensures var at := FailLines(lines, p, from, end);
      var f := FailuresOf(lines, p, at, end)[k];
      f.line == at[k] + 1 && from <= at[k] < end && p.fail(lines[at[k]]) == Some(f.header)
  {
    FailLinesExact(lines, p, from, end);
    var at := FailLines(lines, p, from, end);
    FailureHead(lines, p, at, end, k);
    assert at[k] in at;
  }

  /** Line numbers point at [FAIL] lines of the block, carry the header of their line,
      and increase. */
  lemma {:induction false} FailuresMatchLines(
      lines: seq<string>, p: Patterns, from: nat, end: nat, failures: seq<Failure>)
    requires end <= |lines|
    requires failures == FailuresOf(lines, p, FailLines(lines, p, from, end), end)
    ensures forall k :: 0 <= k < |failures| ==> from < failures[k].line <= end
    ensures forall k :: 0 <= k < |failures| ==> p.fail(lines[failures[k].line - 1]) == Some(failures[k].header)
    ensures forall k, l :: 0 <= k < l < |failures| ==> failures[k].line < failures[l].line
  {
    forall k | 0 <= k < |failures|
      ensures from < failures[k].line <= end && p.fail(lines[failures[k].line - 1]) == Some(failures[k].header)
    {
      FailureIsOfLine(lines, p, from, end, k);
    }
    forall k, l | 0 <= k < l < |failures| ensures failures[k].line < failures[l].line {
      FailureIsOfLine(lines, p, from, end, k);
      FailureIsOfLine(lines, p, from, end, l);
      FailLinesExact(lines, p, from, end);
    }
  }

  /** Every [FAIL] line of the block has its failure. */
  lemma EveryFailIsReported(lines: seq<string>, p: Patterns, from: nat, end: nat, i: nat) returns (k: nat)
    requires from <= i < end <= |lines| && p.fail(lines[i]).Some?
    ensures k < |FailLines(lines, p, from, end)|
    ensures FailuresOf(lines, p, FailLines(lines, p, from, end), end)[k].line == i + 1
  {
    FailLinesExact(lines, p, from, end);
    var at := FailLines(lines, p, from, end);
    assert i in at;
    k :| k < |at| && at[k] == i;
    FailureIsOfLine(lines, p, from, end, k);
  }

  /** Between two neighbours of an increasing sequence there is no third entry. */
  lemma NothingBetween(at: seq<nat>, k: nat, l: nat)
    requires k < |at| && l < |at|
    requires forall a, b :: 0 <= a < b < |at| ==> at[a] < at[b]
    ensures l <= k ==> at[l] <= at[k]
    ensures k < l ==> at[k + 1] <= at[l]
  {
  }

  /** The lines searched for a failure's file reference hold no other [FAIL] line. */
  lemma DetailsHoldNoFail(lines: seq<string>, p: Patterns, from: nat, end: nat, k: nat)
    requires end <= |lines| && k < |FailLines(lines, p, from, end)|
    ensures var at := FailLines(lines, p, from, end);
      var to := if k + 1 < |at| then at[k + 1] else end;
      at[k] < to <= end && forall i :: at[k] < i < to ==> p.fail(lines[i]).None?
  {
    FailLinesExact(lines, p, from, end);
    var at := FailLines(lines, p, from, end);
    var to := if k + 1 < |at| then at[k + 1] else end;
    assert at[k] in at;
    if k + 1 < |at| {
      assert at[k + 1] in at;
    }
    forall l | 0 <= l < |at| ensures !(at[k] < at[l] < to) {
      NothingBetween(at, k, l);
    }
  }

  /** The first lines after line i that hold a header or end the block: what belongs to
      the failure at line i lies before it. */
  ghost predicate DetailsEnd(lines: seq<string>, p: Patterns, i: nat, to: nat) {
    && i < to <= |lines|
    && (forall j :: i < j < to ==> p.fail(lines[j]).None? && !EndsBlock(lines[j]))
    && (to < |lines| ==> p.fail(lines[to]).Some? || EndsBlock(lines[to]))
  }

  /** The reference found for a failure at line i that has details up to line `to`. */
  ghost predicate FirstReference(lines: seq<string>, p: Patterns, from: nat, to: nat, ref: string) {
    && to <= |lines|
    && (ref == "" <==> forall i: nat :: from <= i < to ==> p.fileRef(lines[i]).None?)
    && (forall i: nat :: IsFirstRefLine(lines, p, from, to, i) ==> ref == p.fileRef(lines[i]).value)
  }

  lemma FailureDetails(lines: seq<string>, p: Patterns, from: nat, end: nat, k: nat) returns (to: nat)
    requires IsBlockEnd(lines, from, end) && k < |FailLines(lines, p, from, end)|
    ensures var at := FailLines(lines, p, from, end);
      && to == (if k + 1 < |at| then at[k + 1] else end)
      && DetailsEnd(lines, p, at[k], to)
  {
    var at := FailLines(lines, p, from, end);
    to := if k + 1 < |at| then at[k + 1] else end;
    DetailsHoldNoFail(lines, p, from, end, k);
    if k + 1 < |at| {
      FailureIsOfLine(lines, p, from, end, k + 1);
    }
  }

  lemma FirstRefReads(lines: seq<string>, p: Patterns, from: nat, to: nat, ref: string)
    requires to <= |lines| && p.Valid() && ref == FirstRef(lines, p, from, to)
    ensures FirstReference(lines, p, from, to, ref)
  {
    FirstRefExact(lines, p, from, to);
  }

  lemma FailureReads(lines: seq<string>, p: Patterns, at: seq<nat>, end: nat, k: nat)
    requires end <= |lines| && k < |at| && forall j :: 0 <= j < |at| ==> at[j] < |lines|
    ensures var f := FailuresOf(lines, p, at, end)[k];
      && f.line == at[k] + 1
      && f.fileRef == FirstRef(lines, p, f.line, if k + 1 < |at| then at[k + 1] else end)
  {
  }

  /** Every failure of the block carries the first file reference between its line and
      the next header or the end of the block, and none exactly when there is none. */
  lemma FailureRefIsFirst(lines: seq<string>, p: Patterns, from: nat, k: nat) returns (to: nat)
    requires from <= |lines| && p.Valid() && k < |BlockFailures(lines, p, from)|
    ensures var f := BlockFailures(lines, p, from)[k];
      DetailsEnd(lines, p, f.line - 1, to) && FirstReference(lines, p, f.line, to, f.fileRef)
  {
    var end := BlockEnd(lines, from);
    var f := BlockFailures(lines, p, from)[k];
    to := FailureDetails(lines, p, from, end, k);
    FailureReads(lines, p, FailLines(lines, p, from, end), end, k);
    FirstRefReads(lines, p, f.line, to, f.fileRef);
  }
}
