/**
 * The resumable download loop (`download_with_retries`) and its
 * escalation prompt (`handle_download_failure`) as functions of the
 * process state. The network, the clock and the keyboard are oracle
 * inputs: the `n`-th request the process sends meets `net(n)`.
 */
module Retry {
  import opened Wrappers
  import opened Text
  import opened HttpRange
  import opened Process

  /** An exception raised during one attempt. */
  datatype Fault =
    | Conn(now: real)   // requests.ConnectionError or Timeout; `now` is what time.time() reads after the back-off sleep
    | Other             // any other exception

  /** What happens to one request. */
  datatype Reply =
    | Raised(fault: Fault)            // requests.get itself raised
    | Response(status: int, contentRange: Option<string>, chunks: seq<seq<byte>>, cut: Option<Fault>)
      // a response; `chunks` are the body chunks delivered before the stream ended
      // normally (`cut == None`) or raised `cut`

  /** One request: time.time() when the attempt starts, and what the request meets. */
  datatype Attempt = Attempt(start: real, reply: Reply)

  type Network = nat -> Attempt

  /** The parameters `max_attempts`, `wait_time` and `reset_interval`. */
  datatype Params = Params(maxAttempts: int, waitTime: real, resetInterval: real)

  /** The defaults every caller in the program uses, including the restart after "s". */
  const Defaults: Params := Params(7, 5.0, 60.0)

  /** The literal wait time restored by a reset. */
  const ResetWait: real := 5.0

  /** The loop's local counters `attempt`, `total_attempts` and `wait_time`. */
  datatype Counters = Counters(attempt: int, totalAttempts: int, waitTime: real)

  /** How a call returns or which exception leaves it. */
  datatype Outcome =
    | AlreadyComplete       // status 416: nothing is written
    | Rejected(status: int) // any status other than 200, 206 and 416
    | Completed             // the body was streamed to its end
    | Exhausted             // the loop ran out of attempts (only inside the loop)
    | NameError             // `progress_bar.close()` before any progress bar existed
    | EndOfInput            // the prompt met the end of input (EOFError)
    | Cancelled             // the user answered "n": sys.exit(0)

  /** The result of one pass through the loop body. */
  datatype Next = Again(w: Proc, c: Counters) | Stop(w: Proc, outcome: Outcome)

  function Flatten(chunks: seq<seq<byte>>): seq<byte> {
    if chunks == [] then [] else Flatten(chunks[..|chunks| - 1]) + chunks[|chunks| - 1]
  }

  function Max0(n: int): nat {
    if n < 0 then 0 else n
  }

  /** The reset condition: a connection error, another attempt left, and the failed attempt spanned more than the interval. */
  predicate Resets(p: Params, w: Proc, after: Counters, f: Fault) {
    f.Conn? && after.totalAttempts < p.maxAttempts && f.now - w.startTime > p.resetInterval
  }

  /**
   * The two exception handlers: close the progress bar (a NameError when
   * none was ever bound), count the failure, sleep when another attempt
   * remains, and, for connection errors only, restart the displayed count
   * and the wait time when the failed attempt's span exceeded the reset
   * interval. `total_attempts` is never reset.
   */
  function AfterFault(p: Params, w: Proc, c: Counters, f: Fault): (n: Next)
    ensures n.Stop? <==> !w.barCreated
    ensures n.Stop? ==> n == Stop(w, NameError)
    ensures n.Again? ==> n.c.totalAttempts == c.totalAttempts + 1
    ensures n.Again? ==> n.w == if n.c.totalAttempts < p.maxAttempts then w.(sleeps := w.sleeps + [c.waitTime]) else w
    ensures n.Again? && Resets(p, w, n.c, f) ==> n.c.attempt == 0 && n.c.waitTime == ResetWait
    ensures n.Again? && !Resets(p, w, n.c, f) ==> n.c.waitTime == c.waitTime && n.c.attempt == c.attempt + (if f.Conn? then 1 else 0)
  {
    if !w.barCreated then Stop(w, NameError)
    else
      var total := c.totalAttempts + 1;
      var w' := if total < p.maxAttempts then w.(sleeps := w.sleeps + [c.waitTime]) else w;
      match f
      case Conn(now) =>
        if total < p.maxAttempts && now - w.startTime > p.resetInterval then Again(w', Counters(0, total, ResetWait))
        else Again(w', Counters(c.attempt + 1, total, c.waitTime))
      case Other => Again(w', c.(totalAttempts := total))
  }

  /**
   * The start of an attempt: record `start_time`, read the file's size
   * (0 when it does not exist) and send one request resuming from it.
   */
  function Begin(net: Network, url: string, name: string, w: Proc): (w1: Proc)
    ensures w1 == w.(startTime := net(w.sent).start, sent := w.sent + 1, requests := w1.requests)
    ensures |w1.requests| == |w.requests| + 1 && w.requests <= w1.requests
    ensures w1.requests[|w.requests|].url == url
    ensures ParseRange(w1.requests[|w.requests|].range) == Some(|Contents(w.files, name)|)
  {
    var size := |Contents(w.files, name)|;
    RangeRoundTrip(size);
    w.(startTime := net(w.sent).start, sent := w.sent + 1, requests := w.requests + [Request(url, RangeHeader(size))])
  }

  /** Open the file for appending (creating it) and write the delivered chunks after its bytes. */
  function Append(w: Proc, name: string, chunks: seq<seq<byte>>): (w2: Proc)
    ensures w2 == w.(barCreated := true, files := w2.files)
    ensures name in w2.files && w2.files - {name} == w.files - {name}
    ensures w2.files[name] == Contents(w.files, name) + Flatten(chunks)
  {
    w.(barCreated := true, files := w.files[name := Contents(w.files, name) + Flatten(chunks)])
  }

  /** The handlers change nothing but the sleep trace. */
  lemma AfterFaultExtends(p: Params, w: Proc, c: Counters, f: Fault, name: string)
    ensures Extends(w, AfterFault(p, w, c, f).w, name)
    ensures AfterFault(p, w, c, f).w.sent == w.sent && AfterFault(p, w, c, f).w.stdin == w.stdin
  {
  }

  /** What the loop body does with a reply, once the request has been sent. */
  function Handle(p: Params, name: string, w1: Proc, c: Counters, reply: Reply, size: nat): (n: Next)
    ensures Extends(w1, n.w, name) && n.w.stdin == w1.stdin && n.w.sent == w1.sent
    ensures n.Again? ==> n.c.totalAttempts == c.totalAttempts + 1
    ensures n.Stop? ==> n.w.sleeps == w1.sleeps
    ensures n.Again? ==> n.w.sleeps == if n.c.totalAttempts < p.maxAttempts then w1.sleeps + [c.waitTime] else w1.sleeps
    ensures n.Stop? ==> n.outcome.AlreadyComplete? || n.outcome.Completed? || n.outcome.NameError? || n.outcome.Rejected?
    ensures n.Stop? && n.outcome == NameError ==> !w1.barCreated
    ensures n.Again? ==> n.c.waitTime == c.waitTime || n.c.waitTime == ResetWait
  {
    match reply
    case Raised(f) =>
      AfterFaultExtends(p, w1, c, f, name);
      AfterFault(p, w1, c, f)
    case Response(status, contentRange, chunks, cut) =>
      if status == 416 then Stop(w1, AlreadyComplete)
      else if status != 200 && status != 206 then Stop(w1, Rejected(status))
      else if TotalSize(contentRange, size).None? then
        AfterFaultExtends(p, w1, c, Other, name);
        AfterFault(p, w1, c, Other)
      else
        Streamed(p, name, w1, c, chunks, cut)
  }

  /** Handling a reply leaves the recorded start of the attempt as it was. */
  lemma HandleKeepsStart(p: Params, name: string, w1: Proc, c: Counters, reply: Reply, size: nat)
    ensures Handle(p, name, w1, c, reply, size).w.startTime == w1.startTime
  {
  }

  /** A 200 or 206 reply whose total could be read: the body is appended, then the stream ends or raises. */
  function Streamed(p: Params, name: string, w1: Proc, c: Counters, chunks: seq<seq<byte>>, cut: Option<Fault>): (n: Next)
    ensures Extends(w1, n.w, name) && n.w.stdin == w1.stdin && n.w.sent == w1.sent
    ensures n.w.startTime == w1.startTime
    ensures n.w.barCreated
    ensures n.Again? ==> n.c.totalAttempts == c.totalAttempts + 1
    ensures n.Stop? ==> n.w.sleeps == w1.sleeps
    ensures n.Again? ==> n.w.sleeps == if n.c.totalAttempts < p.maxAttempts then w1.sleeps + [c.waitTime] else w1.sleeps
    ensures n.Stop? ==> n.outcome == Completed
    ensures n.Again? ==> n.c.waitTime == c.waitTime || n.c.waitTime == ResetWait
  {
    var w2 := Append(w1, name, chunks);
    assert Extends(w1, w2, name);
    if cut.None? then Stop(w2, Completed)
    else
      var n := AfterFault(p, w2, c, cut.value);
      AfterFaultExtends(p, w2, c, cut.value, name);
      ExtendsTrans(w1, w2, n.w, name);
      n
  }

  /** One pass through the loop body. */
  function Step(net: Network, p: Params, url: string, name: string, w: Proc, c: Counters): (n: Next)
    ensures Extends(w, n.w, name) && n.w.stdin == w.stdin
    ensures n.w.sent == w.sent + 1
    ensures n.w.requests[|w.requests|].url == url
    ensures ParseRange(n.w.requests[|w.requests|].range) == Some(|Contents(w.files, name)|)
    ensures n.Again? ==> n.c.totalAttempts == c.totalAttempts + 1
    ensures n.Stop? ==> n.w.sleeps == w.sleeps
    ensures n.Again? ==> n.w.sleeps == if n.c.totalAttempts < p.maxAttempts then w.sleeps + [c.waitTime] else w.sleeps
    ensures n.Stop? ==> n.outcome.AlreadyComplete? || n.outcome.Completed? || n.outcome.NameError? || n.outcome.Rejected?
    ensures n.Stop? && n.outcome == NameError ==> !w.barCreated
    ensures n.Again? ==> n.c.waitTime == c.waitTime || n.c.waitTime == ResetWait
  {
    var w1 := Begin(net, url, name, w);
    var n := Handle(p, name, w1, c, net(w.sent).reply, |Contents(w.files, name)|);
    ExtendsTrans(w, w1, n.w, name);
    n
  }

  /** The `while total_attempts < max_attempts` loop from the given counters on. */
  function Attempts(net: Network, p: Params, url: string, name: string, w: Proc, c: Counters): (r: (Proc, Outcome))
    ensures Extends(w, r.0, name) && r.0.stdin == w.stdin
    ensures r.1.AlreadyComplete? || r.1.Completed? || r.1.NameError? || r.1.Exhausted? || r.1.Rejected?
    ensures r.0.sent - w.sent <= Max0(p.maxAttempts - c.totalAttempts)
    ensures r.1 == Exhausted ==> r.0.sent - w.sent == Max0(p.maxAttempts - c.totalAttempts)
    ensures r.1 != Exhausted ==> r.0.sent > w.sent
    decreases p.maxAttempts - c.totalAttempts
  {
    if c.totalAttempts >= p.maxAttempts then (w, Exhausted)
    else
      match Step(net, p, url, name, w, c)
      case Stop(w', o) => (w', o)
      case Again(w', c') =>
        var r := Attempts(net, p, url, name, w', c');
        ExtendsTrans(w, w', r.0, name);
        r
  }

  /** `download_with_retries`: the loop from fresh counters, then the prompt if it ran out. */
  function Download(net: Network, p: Params, url: string, name: string, w: Proc): (r: (Proc, Outcome))
    ensures Extends(w, r.0, name)
    ensures r.1 != Exhausted
    ensures r.0.sent - w.sent <= Max0(p.maxAttempts) + 7 * (|w.stdin| - |r.0.stdin|)
    decreases |w.stdin|, 1
  {
    var (w', o) := Attempts(net, p, url, name, w, Counters(0, 0, p.waitTime));
    if o == Exhausted then
      var r := Escalate(net, url, name, w');
      ExtendsTrans(w, w', r.0, name);
      r
    else (w', o)
  }

  /**
   * `handle_download_failure`: read answers until "s" (restart the whole
   * download with the default parameters) or "n" (exit); other lines are
   * asked again, and the end of input raises.
   */
  function Escalate(net: Network, url: string, name: string, w: Proc): (r: (Proc, Outcome))
    ensures Extends(w, r.0, name)
    ensures r.1 != Exhausted
    ensures r.0.sent - w.sent <= 7 * (|w.stdin| - |r.0.stdin|)
    decreases |w.stdin|, 0
  {
    if w.stdin == [] then (w, EndOfInput)
    else
      var w' := w.(stdin := w.stdin[1..]);
      ConsumeExtends(w, name);
      match AnswerOf(w.stdin[0])
      case Yes =>
        var r := Download(net, Defaults, url, name, w');
        ExtendsTrans(w, w', r.0, name);
        r
      case No => (w', Cancelled)
      case Invalid =>
        var r := Escalate(net, url, name, w');
        ExtendsTrans(w, w', r.0, name);
        r
  }

  /** One line of the prompt: it settles the prompt, or the prompt is asked again on the rest. */
  lemma EscalateReads(net: Network, url: string, name: string, w: Proc)
    requires w.stdin != []
    ensures var w' := w.(stdin := w.stdin[1..]);
      match AnswerOf(w.stdin[0])
      case Yes => Escalate(net, url, name, w) == Download(net, Defaults, url, name, w')
      case No => Escalate(net, url, name, w) == (w', Cancelled)
      case Invalid => Escalate(net, url, name, w) == Escalate(net, url, name, w')
  {
  }

  /** Lines that do not answer are only consumed: the prompt goes on as if they had not been typed. */
  lemma {:induction false} EscalateSkips(net: Network, url: string, name: string, w: Proc, k: nat)
    requires k <= |w.stdin| && Unanswered(w.stdin[..k])
    ensures Escalate(net, url, name, w) == Escalate(net, url, name, w.(stdin := w.stdin[k..]))
    decreases k
  {
    if k == 0 {
      assert w.stdin[0..] == w.stdin;
    } else {
      assert w.stdin[..k][k - 1] == w.stdin[k - 1];
      assert w.stdin[..k - 1] == w.stdin[..k][..k - 1];
      EscalateSkips(net, url, name, w, k - 1);
      var v := w.(stdin := w.stdin[k - 1..]);
      EscalateReads(net, url, name, v);
      assert v.stdin[1..] == w.stdin[k..];
      assert v.(stdin := v.stdin[1..]) == w.(stdin := w.stdin[k..]);
    }
  }

  /**
   * The prompt is settled by the first line that answers it, and every
   * line up to that one is consumed: "n" exits, "s" restarts the whole
   * download with the default parameters on the lines after it; with no
   * answering line all input is consumed and the prompt meets the end of
   * input.
   */
  lemma EscalateAnswers(net: Network, url: string, name: string, w: Proc)
    ensures match FirstAnswer(w.stdin)
      case None => Escalate(net, url, name, w) == (w.(stdin := []), EndOfInput)
      case Some(i) =>
        if AnswerOf(w.stdin[i]) == No then Escalate(net, url, name, w) == (w.(stdin := w.stdin[i + 1..]), Cancelled)
        else Escalate(net, url, name, w) == Download(net, Defaults, url, name, w.(stdin := w.stdin[i + 1..]))
  {
    FirstAnswerSpec(w.stdin);
    match FirstAnswer(w.stdin)
    case None =>
      assert w.stdin[..|w.stdin|] == w.stdin;
      EscalateSkips(net, url, name, w, |w.stdin|);
      assert w.stdin[|w.stdin|..] == [];
    case Some(i) =>
      EscalateSkips(net, url, name, w, i);
      var v := w.(stdin := w.stdin[i..]);
      EscalateReads(net, url, name, v);
      assert v.stdin[1..] == w.stdin[i + 1..];
      assert v.(stdin := v.stdin[1..]) == w.(stdin := w.stdin[i + 1..]);
  }

  /** Status 416 ends the call at once: one request, no byte written, no sleep. */
  lemma Status416Stops(net: Network, p: Params, url: string, name: string, w: Proc, c: Counters)
    requires net(w.sent).reply.Response? && net(w.sent).reply.status == 416
    requires c.totalAttempts < p.maxAttempts
    ensures Attempts(net, p, url, name, w, c).1 == AlreadyComplete
    ensures Attempts(net, p, url, name, w, c).0.files == w.files
    ensures Attempts(net, p, url, name, w, c).0.sleeps == w.sleeps
    ensures Attempts(net, p, url, name, w, c).0.sent == w.sent + 1
  {
  }

  /** Any status but 200, 206 and 416 ends the call at once, without retry, write or sleep. */
  lemma OtherStatusStops(net: Network, p: Params, url: string, name: string, w: Proc, c: Counters)
    requires net(w.sent).reply.Response?
    requires net(w.sent).reply.status !in {200, 206, 416}
    requires c.totalAttempts < p.maxAttempts
    ensures Attempts(net, p, url, name, w, c).1 == Rejected(net(w.sent).reply.status)
    ensures Attempts(net, p, url, name, w, c).0.files == w.files
    ensures Attempts(net, p, url, name, w, c).0.sleeps == w.sleeps
    ensures Attempts(net, p, url, name, w, c).0.sent == w.sent + 1
  {
  }

  /**
   * A 200 (whole resource) is handled exactly like a 206 (the requested
   * part): its body is appended after the bytes already on disk.
   */
  lemma FullReplyLikePartial(p: Params, name: string, w1: Proc, c: Counters,
                             contentRange: Option<string>, chunks: seq<seq<byte>>, cut: Option<Fault>, size: nat)
    ensures Handle(p, name, w1, c, Response(200, contentRange, chunks, cut), size)
         == Handle(p, name, w1, c, Response(206, contentRange, chunks, cut), size)
    ensures TotalSize(contentRange, size).Some? ==>
              Handle(p, name, w1, c, Response(200, contentRange, chunks, cut), size).w.files[name]
                == Contents(w1.files, name) + Flatten(chunks)
  {
  }

  /**
   * A 200 or 206 reply whose total size cannot be read (no `content-range`,
   * or a `*` total) is a failed attempt of the generic kind: nothing is
   * written, the attempt is counted, the wait time and displayed count are
   * kept, and before any progress bar existed it is a NameError instead.
   */
  lemma UnreadableTotalFails(p: Params, name: string, w1: Proc, c: Counters, status: int,
                             first: nat, last: nat, missing: bool, chunks: seq<seq<byte>>, cut: Option<Fault>, size: nat)
    requires status == 200 || status == 206
    ensures var header := if missing then None else Some(ContentRangeUnknown(first, last));
      var n := Handle(p, name, w1, c, Response(status, header, chunks, cut), size);
      && (w1.barCreated ==> n.Again? && n.w.files == w1.files && n.c == c.(totalAttempts := c.totalAttempts + 1))
      && (!w1.barCreated ==> n == Stop(w1, NameError))
  {
    TotalSizeMissing(size);
    TotalSizeUnknown(first, last, size);
  }

  /** Once a progress bar has existed, the handlers can no longer raise NameError. */
  lemma {:induction false} NameErrorOnlyBeforeAnyBar(net: Network, p: Params, url: string, name: string, w: Proc, c: Counters)
    requires w.barCreated
    ensures Attempts(net, p, url, name, w, c).1 != NameError
    decreases p.maxAttempts - c.totalAttempts
  {
    if c.totalAttempts < p.maxAttempts {
      var n := Step(net, p, url, name, w, c);
      if n.Again? {
        NameErrorOnlyBeforeAnyBar(net, p, url, name, n.w, n.c);
      }
    }
  }

  /** Every value in `sleeps` is `a` or `b`. */
  ghost predicate OnlyWaits(sleeps: seq<real>, a: real, b: real) {
    forall i :: 0 <= i < |sleeps| ==> sleeps[i] == a || sleeps[i] == b
  }

  /** What `c` adds to `a` is what `b` adds, then what `c` adds to `b`. */
  lemma OnlyWaitsSplit(a: seq<real>, b: seq<real>, c: seq<real>, x: real, y: real)
    requires a <= b <= c
    requires OnlyWaits(b[|a|..], x, y) && OnlyWaits(c[|b|..], x, y)
    ensures OnlyWaits(c[|a|..], x, y)
  {
    forall i | 0 <= i < |c| - |a| ensures c[|a|..][i] == x || c[|a|..][i] == y {
      if i < |b| - |a| {
        assert c[|a| + i] == b[|a| + i] == b[|a|..][i];
      } else {
        assert c[|a| + i] == c[|b|..][i - (|b| - |a|)];
      }
    }
  }

  /** One failed pass sleeps at most once, for the current wait time, and keeps the wait time one of the two values. */
  lemma StepSleeps(net: Network, p: Params, url: string, name: string, w: Proc, c: Counters)
    requires c.waitTime == p.waitTime || c.waitTime == ResetWait
    requires Step(net, p, url, name, w, c).Again?
    ensures var n := Step(net, p, url, name, w, c);
      w.sleeps <= n.w.sleeps && OnlyWaits(n.w.sleeps[|w.sleeps|..], p.waitTime, ResetWait)
    ensures var n := Step(net, p, url, name, w, c);
      n.c.waitTime == p.waitTime || n.c.waitTime == ResetWait
  {
    var n := Step(net, p, url, name, w, c);
    if n.w.sleeps != w.sleeps {
      assert n.w.sleeps[|w.sleeps|..] == [c.waitTime];
    }
  }

  /** A failed pass is followed by the rest of the loop from its new state and counters. */
  lemma AttemptsAgain(net: Network, p: Params, url: string, name: string, w: Proc, c: Counters)
    requires c.totalAttempts < p.maxAttempts && Step(net, p, url, name, w, c).Again?
    ensures var n := Step(net, p, url, name, w, c);
      Attempts(net, p, url, name, w, c) == Attempts(net, p, url, name, n.w, n.c)
  {
  }

  /** The loop sleeps between consecutive requests only: one sleep fewer than requests sent. */
  lemma {:induction false} SleepsBetweenRequests(net: Network, p: Params, url: string, name: string, w: Proc, c: Counters)
    ensures var r := Attempts(net, p, url, name, w, c).0;
      |r.sleeps| - |w.sleeps| == if r.sent == w.sent then 0 else r.sent - w.sent - 1
    decreases p.maxAttempts - c.totalAttempts
  {
    if c.totalAttempts < p.maxAttempts {
      var n := Step(net, p, url, name, w, c);
      if n.Again? {
        AttemptsAgain(net, p, url, name, w, c);
        SleepsBetweenRequests(net, p, url, name, n.w, n.c);
        var r := Attempts(net, p, url, name, n.w, n.c);
        if n.c.totalAttempts < p.maxAttempts {
          assert r.0.sent > n.w.sent;
        }
      }
    }
  }

  /** Every back-off sleep of one call lasts the caller's wait time or the reset value 5. */
  lemma {:induction false} SleepsAreWaitTimes(net: Network, p: Params, url: string, name: string, w: Proc, c: Counters)
    requires c.waitTime == p.waitTime || c.waitTime == ResetWait
    ensures var r := Attempts(net, p, url, name, w, c).0;
      OnlyWaits(r.sleeps[|w.sleeps|..], p.waitTime, ResetWait)
    decreases p.maxAttempts - c.totalAttempts
  {
    if c.totalAttempts < p.maxAttempts {
      var n := Step(net, p, url, name, w, c);
      if n.Again? {
        var r := Attempts(net, p, url, name, n.w, n.c).0;
        AttemptsAgain(net, p, url, name, w, c);
        StepSleeps(net, p, url, name, w, c);
        SleepsAreWaitTimes(net, p, url, name, n.w, n.c);
        OnlyWaitsSplit(w.sleeps, n.w.sleeps, r.sleeps, p.waitTime, ResetWait);
      }
    }
  }

  /**
   * The offsets named by successive Range headers, read back, never go
   * backwards: each is at least `lo` and at most `hi`, and at most the next.
   */
  ghost predicate Resumes(requests: seq<Request>, url: string, lo: nat, hi: nat)
    decreases |requests|
  {
    requests == [] ||
    (requests[0].url == url &&
     var offset := ParseRange(requests[0].range);
     offset.Some? && lo <= offset.value <= hi && Resumes(requests[1..], url, offset.value, hi))
  }

  lemma {:induction false} ResumesWeaken(requests: seq<Request>, url: string, lo: nat, lo': nat, hi: nat)
    requires Resumes(requests, url, lo, hi) && lo' <= lo
    ensures Resumes(requests, url, lo', hi)
  {
  }

  /**
   * Within one call every request goes to the same URL and resumes from
   * the file's size at that moment: offsets start no lower than the size
   * before the call, never decrease, and never exceed the size after it.
   */
  lemma {:induction false} AttemptsResume(net: Network, p: Params, url: string, name: string, w: Proc, c: Counters)
    ensures var r := Attempts(net, p, url, name, w, c).0;
      Resumes(r.requests[|w.requests|..], url, |Contents(w.files, name)|, |Contents(r.files, name)|)
    decreases p.maxAttempts - c.totalAttempts
  {
    var r := Attempts(net, p, url, name, w, c).0;
    if c.totalAttempts < p.maxAttempts {
      var n := Step(net, p, url, name, w, c);
      var size := |Contents(w.files, name)|;
      var mid := |Contents(n.w.files, name)|;
      var tail := r.requests[|w.requests|..];
      assert |Contents(n.w.files, name)| <= |Contents(r.files, name)|;
      match n
      case Stop(_, _) =>
        assert r == n.w;
        assert |tail| == 1 && tail[0] == n.w.requests[|w.requests|] && tail[1..] == [];
      case Again(w', c') =>
        AttemptsAgain(net, p, url, name, w, c);
        AttemptsResume(net, p, url, name, w', c');
        assert tail[0] == w'.requests[|w.requests|];
        assert tail[1..] == r.requests[|w'.requests|..];
        ResumesWeaken(tail[1..], url, mid, size, |Contents(r.files, name)|);
    }
  }

  /**
   * The scenario of three quick connection failures with three attempts
   * allowed: exactly three requests, two one-second sleeps, then the loop
   * gives up.
   */
  lemma ThreeQuickFailures(w: Proc)
    requires w.barCreated
    ensures var net: Network := (i: nat) => Attempt(0.0, Raised(Conn(1.0)));
      var r := Attempts(net, Params(3, 1.0, 100.0), "u", "f", w, Counters(0, 0, 1.0));
      r.1 == Exhausted && r.0.sent == w.sent + 3 && r.0.sleeps == w.sleeps + [1.0] + [1.0] && r.0.files == w.files
  {
    var net: Network := (i: nat) => Attempt(0.0, Raised(Conn(1.0)));
    var p := Params(3, 1.0, 100.0);
    var n1 := QuickFailure(net, p, w, Counters(0, 0, 1.0));
    var n2 := QuickFailure(net, p, n1.w, n1.c);
    var n3 := QuickFailure(net, p, n2.w, n2.c);
    assert Attempts(net, p, "u", "f", n3.w, n3.c) == (n3.w, Exhausted);
  }

  /** One pass of the scenario above: a connection error long before the reset interval. */
  lemma QuickFailure(net: Network, p: Params, w: Proc, c: Counters) returns (n: Next)
    requires net(w.sent) == Attempt(0.0, Raised(Conn(1.0))) && p.resetInterval == 100.0
    requires w.barCreated && c.totalAttempts < p.maxAttempts
    ensures n == Step(net, p, "u", "f", w, c) && n.Again?
    ensures n.c == Counters(c.attempt + 1, c.totalAttempts + 1, c.waitTime)
    ensures n.w.sent == w.sent + 1 && n.w.files == w.files && n.w.barCreated
    ensures n.w.sleeps == if n.c.totalAttempts < p.maxAttempts then w.sleeps + [c.waitTime] else w.sleeps
    ensures Attempts(net, p, "u", "f", w, c) == Attempts(net, p, "u", "f", n.w, n.c)
  {
    n := Step(net, p, "u", "f", w, c);
    AttemptsAgain(net, p, "u", "f", w, c);
  }

  /**
   * One attempt that fails on the connection after spanning more than the
   * reset interval restarts the displayed count and the wait time, but the
   * attempt budget keeps counting.
   */
  lemma LongOutageResets(w: Proc, c: Counters)
    requires w.barCreated && c.totalAttempts == 0
    ensures var net: Network := (i: nat) => Attempt(0.0, Raised(Conn(150.0)));
      var n := Step(net, Params(3, 1.0, 100.0), "u", "f", w, c);
      n.Again? && n.c == Counters(0, 1, ResetWait) && n.w.sleeps == w.sleeps + [c.waitTime]
  {
  }

  /** With no attempt allowed the loop sends nothing and goes straight to the prompt. */
  lemma NoAttemptsAllowed(net: Network, p: Params, url: string, name: string, w: Proc)
    requires p.maxAttempts <= 0
    ensures Download(net, p, url, name, w) == Escalate(net, url, name, w)
  {
  }
}
