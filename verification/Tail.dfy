/** Progressive tailing of a running build's console: each call returns a capped
    chunk and the offset to ask for next. */
module Tail {
  import opened Sequences

  const DEFAULT_MAX_BYTES := 65536
  const MAX_MAX_BYTES := 1048576

  /** The build's console as Jenkins holds it at one moment. */
  datatype Console = Console(text: string, running: bool) {
    /** The progressiveText answer: everything from `start` on. */
    function From(start: nat): string {
      if start <= |text| then text[start..] else ""
    }
  }

  datatype Input = Input(jobPath: string, sinceByte: int, maxBytes: int)

  datatype Reply =
    | Chunk(body: string, from: nat, next: nat, more: bool, finished: bool)
    | Rejected(reason: string)
    | RequestFailed

  /** console is None when the progressiveText request fails. */
  method TailRunningBuild(input: Input, console: Option<Console>) returns (r: Reply)
    ensures r.Rejected? <==> input.jobPath == "" || input.sinceByte < 0
    ensures r.RequestFailed? <==> !r.Rejected? && console.None?
    ensures r.Chunk? && input.maxBytes <= 0 ==> Answers(console.value, input.sinceByte, 65536, r)
    ensures r.Chunk? && 0 < input.maxBytes <= 1048576 ==>
      Answers(console.value, input.sinceByte, input.maxBytes, r)
    ensures r.Chunk? && input.maxBytes > 1048576 ==> Answers(console.value, input.sinceByte, 1048576, r)
  {
    if input.jobPath == "" {
      return Rejected("job_path is required");
    }
    if input.sinceByte < 0 {
      return Rejected("since_byte must be >= 0");
    }
    var maxBytes := input.maxBytes;
    if maxBytes <= 0 {
      maxBytes := DEFAULT_MAX_BYTES;
    }
    if maxBytes > MAX_MAX_BYTES {
      maxBytes := MAX_MAX_BYTES;
    }
    if console.None? {
      return RequestFailed;
    }
    var body := console.value.From(input.sinceByte);
    var textSize := |console.value.text|;
    var buildRunning := console.value.running;
    var truncated := false;
    var nextByte := textSize;
    if |body| > maxBytes {
      body := body[..maxBytes];
      nextByte := input.sinceByte + maxBytes;
      truncated := true;
    }
    var more := buildRunning || truncated;
    return Chunk(body, input.sinceByte, nextByte, more, !buildRunning);
  }

  /** What one answered call promises about the console it saw: for an offset inside
      the text, the chunk is the text between the two offsets, it is full-sized
      unless it reaches the end, and `more` is false exactly when the build has
      finished and the end is reached. */
  ghost predicate Answers(console: Console, since: nat, max: nat, r: Reply) {
    && r.Chunk? && r.from == since && r.finished == !console.running
    && |r.body| <= max
    && (since > |console.text| ==> r.body == "" && r.next == |console.text| && r.more == console.running)
    && (since <= |console.text| ==>
          && since <= r.next <= |console.text|
          && r.body == console.text[since..r.next]
          && (r.next < |console.text| ==> |r.body| == max)
          && (r.more <==> console.running || r.next < |console.text|))
  }

  // ---- sessions ----

  /** The text only grows, and neither changes once the build has finished. */
  ghost predicate Grows(a: Console, b: Console) {
    && a.text <= b.text
    && (!a.running ==> b == a)
  }

  /** A tailing session: it starts at offset 0, each call echoes the offset of the
      one before, and call k sees the console as it is then, under its own cap. */
  ghost predicate IsSession(consoles: seq<Console>, maxes: seq<nat>, replies: seq<Reply>) {
    && |consoles| == |maxes| == |replies|
    && (forall k :: 0 <= k < |replies| ==> maxes[k] >= 1)
    && (forall k :: 0 <= k < |replies| ==>
      replies[k].Chunk? && Answers(consoles[k], Offset(0, replies, k), maxes[k], replies[k]))
    && (forall k :: 0 < k < |replies| ==> Grows(consoles[k - 1], consoles[k]))
  }

  /** The since_byte of call k, when call 0 was given `start`. */
  ghost function Offset(start: nat, replies: seq<Reply>, k: nat): nat
    requires k <= |replies|
  {
    if k > 0 && replies[k - 1].Chunk? then replies[k - 1].next else start
  }

  function Received(replies: seq<Reply>): string {
    if replies == [] then ""
    else
      var last := replies[|replies| - 1];
      Received(replies[..|replies| - 1]) + if last.Chunk? then last.body else ""
  }

  lemma SessionPrefix(consoles: seq<Console>, maxes: seq<nat>, replies: seq<Reply>, k: nat)
    requires IsSession(consoles, maxes, replies) && k <= |replies|
    ensures IsSession(consoles[..k], maxes[..k], replies[..k])
  {
    forall i | 0 <= i < k ensures Offset(0, replies[..k], i) == Offset(0, replies, i) {
    }
  }

  /** After every call, the chunks received so far are exactly the console text up
      to the offset to ask for next. */
  lemma {:induction false} ChunksReassemble(consoles: seq<Console>, maxes: seq<nat>, replies: seq<Reply>)
    requires IsSession(consoles, maxes, replies) && replies != []
    ensures var n := |replies| - 1;
      && replies[n].next <= |consoles[n].text|
      && Received(replies) == consoles[n].text[..replies[n].next]
    decreases |replies|
  {
    var n := |replies| - 1;
    if n == 0 {
      assert Received(replies[..0]) == "";
    } else {
      SessionPrefix(consoles, maxes, replies, n);
      ChunksReassemble(consoles[..n], maxes[..n], replies[..n]);
      assert Grows(consoles[n - 1], consoles[n]);
    }
    var before := if n == 0 then "" else consoles[n - 1].text;
    ChunkExtends(before, consoles[n].text, Offset(0, replies, n), replies[n].next);
  }

  lemma ChunkExtends(was: string, text: string, since: nat, next: nat)
    requires since <= |was| && was <= text && since <= next <= |text|
    ensures was[..since] + text[since..next] == text[..next]
  {
  }

  /** A session that was told there is no more has received the whole log of a
      finished build. */
  lemma {:induction false} NoMoreMeansWholeLog(consoles: seq<Console>, maxes: seq<nat>, replies: seq<Reply>)
    requires IsSession(consoles, maxes, replies) && replies != []
    requires !replies[|replies| - 1].more
    ensures var n := |replies| - 1; !consoles[n].running && Received(replies) == consoles[n].text
  {
    var n := |replies| - 1;
    ChunksReassemble(consoles, maxes, replies);
    OffsetInText(consoles, maxes, replies, n);
    assert consoles[n].text[..|consoles[n].text|] == consoles[n].text;
  }

  lemma OffsetInText(consoles: seq<Console>, maxes: seq<nat>, replies: seq<Reply>, k: nat)
    requires IsSession(consoles, maxes, replies) && k < |replies|
    ensures Offset(0, replies, k) <= |consoles[k].text|
  {
    if k > 0 {
      SessionPrefix(consoles, maxes, replies, k);
      ChunksReassemble(consoles[..k], maxes[..k], replies[..k]);
      assert Grows(consoles[k - 1], consoles[k]);
    }
  }

  // ---- how many calls a finished build still takes ----

  /** ceil(left / max), but at least one call. */
  function CallsNeeded(left: nat, max: nat): (n: nat)
    requires max >= 1
    ensures n >= 1
  {
    if left <= max then 1 else 1 + CallsNeeded(left - max, max)
  }

  lemma {:induction false} CallsNeededIsCeiling(left: nat, max: nat)
    requires max >= 1
    ensures var n := CallsNeeded(left, max);
      n >= 1 && left <= n * max && (n > 1 ==> (n - 1) * max < left)
  {
    if left <= max {
    } else {
      CallsNeededIsCeiling(left - max, max);
      var n := CallsNeeded(left, max);
      assert n * max == (n - 1) * max + max;
      assert n > 2 ==> (n - 1) * max == (n - 2) * max + max;
    }
  }

  /** Calls against a finished build from an offset inside its log, all with one cap. */
  ghost predicate IsDrain(console: Console, start: nat, max: nat, replies: seq<Reply>) {
    && !console.running && start <= |console.text| && max >= 1
    && forall k :: 0 <= k < |replies| ==> Answers(console, Offset(start, replies, k), max, replies[k])
  }

  lemma DrainRest(console: Console, start: nat, max: nat, replies: seq<Reply>)
    requires IsDrain(console, start, max, replies) && replies != []
    ensures replies[0].next <= |console.text|
    ensures IsDrain(console, replies[0].next, max, replies[1..])
  {
    assert Answers(console, Offset(start, replies, 0), max, replies[0]);
    var rest, next := replies[1..], replies[0].next;
    forall k | 0 <= k < |rest| ensures Answers(console, Offset(next, rest, k), max, rest[k]) {
      assert Answers(console, Offset(start, replies, k + 1), max, replies[k + 1]);
      assert Answers(console, Offset(start, replies, k), max, replies[k]);
    }
  }

  /** One call of a drain: it is full-sized and asks for more, or the last. */
  lemma DrainFirst(console: Console, start: nat, max: nat, replies: seq<Reply>)
    requires IsDrain(console, start, max, replies) && replies != []
    ensures replies[0].Chunk?
    ensures |console.text| - start <= max ==> !replies[0].more
    ensures |console.text| - start > max ==> replies[0].more && replies[0].next == start + max
  {
    assert Answers(console, Offset(start, replies, 0), max, replies[0]);
  }

  /** The first n replies are chunks, and only the n-th says there is no more. */
  ghost predicate EndsWithCall(replies: seq<Reply>, n: nat) {
    && n <= |replies|
    && (forall k :: 0 <= k < n ==> replies[k].Chunk?)
    && (forall k :: 0 <= k < n ==> (replies[k].more <==> k < n - 1))
  }

  lemma OneCallEarlier(replies: seq<Reply>, n: nat)
    requires replies != [] && replies[0].Chunk? && replies[0].more
    requires n >= 1 && EndsWithCall(replies[1..], n)
    ensures EndsWithCall(replies, n + 1)
  {
    assert forall k :: 0 < k <= n ==> replies[k] == replies[1..][k - 1];
  }

  /** The call that first says there is no more is call number max(1, ceil(left / max)). */
  lemma {:induction false} DrainTakesExactly(console: Console, start: nat, max: nat, replies: seq<Reply>)
    requires IsDrain(console, start, max, replies)
    requires |replies| >= CallsNeeded(|console.text| - start, max)
    ensures EndsWithCall(replies, CallsNeeded(|console.text| - start, max))
    decreases |console.text| - start
  {
    var left := |console.text| - start;
    DrainFirst(console, start, max, replies);
    if left <= max {
    } else {
      DrainRest(console, start, max, replies);
      DrainTakesExactly(console, start + max, max, replies[1..]);
      OneCallEarlier(replies, CallsNeeded(left - max, max));
    }
  }
}
