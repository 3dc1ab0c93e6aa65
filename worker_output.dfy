/**
 * What a download worker makes of the downloader's output stream: the unit
 * table, the handler for one output line, the read loop, and the exit
 * reconciliation that turns the end of the attempt into exactly one outcome
 * (workers.py:162-274).
 *
 * Regular-expression matching is not modelled: each line arrives as the
 * results of the four searches the source runs on it. The pause and cancel
 * flags are set by other threads; a `Requests` value says from which loop
 * iteration on each flag reads as set.
 */
module WorkerOutput {
  import opened Options
  import opened WorkerNaming

  /** Downloaded MB, total MB, speed in MB/s and the ETA text. */
  datatype Metrics = Metrics(downloadedMb: real, totalMb: real, speedMbs: real, eta: string)

  /**
   * The groups of the detailed progress match. A number is `None` when
   * `float()` rejects its text (the pattern `[0-9.]+` admits "1.2.3").
   */
  datatype Detail = Detail(total: Option<real>, totalUnit: string, speed: Option<real>,
                           speedUnit: string, eta: string)

  /**
   * The results of the four searches on one line: the Destination and the
   * Merger announcements, the bare percentage (the number `float()` read)
   * and the detailed progress line. `None` is no match.
   */
  datatype LineMatch = LineMatch(dest: Option<string>, merge: Option<string>,
                                 percent: Option<real>, detail: Option<Detail>)

  /** The worker's signals, and the partial-file cleanup it performs. */
  datatype WorkerEvent =
    | Progress(percent: int)
    | MetricsReported(metrics: Metrics)
    | CleanupPartial(patterns: seq<string>)
    | PausedOutcome(title: string)
    | CanceledOutcome(title: string)
    | Finished(rc: int, title: string, path: string)

  predicate IsOutcome(e: WorkerEvent) {
    e.PausedOutcome? || e.CanceledOutcome? || e.Finished?
  }

  function CountOutcomes(events: seq<WorkerEvent>): (n: nat)
    ensures n <= |events|
  {
    if events == [] then 0
    else (if IsOutcome(events[0]) then 1 else 0) + CountOutcomes(events[1..])
  }

  lemma {:induction false} CountOutcomesAppend(a: seq<WorkerEvent>, b: seq<WorkerEvent>)
    ensures CountOutcomes(a + b) == CountOutcomes(a) + CountOutcomes(b)
    decreases |a|
  {
    if a == [] {
      assert a + b == b;
    } else {
      assert (a + b)[0] == a[0] && (a + b)[1..] == a[1..] + b;
      CountOutcomesAppend(a[1..], b);
    }
  }

  // ---------- units ----------

  /** The size multiplier to MB (workers.py:250); an unknown unit counts as MB. */
  function Multiplier(unit: string): (r: real)
    ensures r == 1.0 / 1024.0 <==> unit == "KiB" || unit == "KB"
    ensures r == 1024.0 <==> unit == "GiB" || unit == "GB"
    ensures r == 1.0 <==> unit != "KiB" && unit != "KB" && unit != "GiB" && unit != "GB"
  {
    if unit == "KiB" || unit == "KB" then 1.0 / 1024.0
    else if unit == "GiB" || unit == "GB" then 1024.0
    else 1.0
  }

  /** A binary label and its decimal twin ("KiB" and "KB", ...) give the same factor. */
  lemma UnitLabelsAgree(letter: char)
    ensures Multiplier([letter] + "iB") == Multiplier([letter] + "B")
  {
    if letter == 'K' {
      assert [letter] + "iB" == "KiB" && [letter] + "B" == "KB";
    } else if letter == 'G' {
      assert [letter] + "iB" == "GiB" && [letter] + "B" == "GB";
    } else {
      assert ([letter] + "iB")[0] == letter && ([letter] + "B")[0] == letter;
    }
  }

  /** 512 KiB is half a MB, 256 KiB/s a quarter of a MB per second, 2 GiB 2048 MB. */
  lemma UnitExamples()
    ensures 512.0 * Multiplier("KiB") == 0.5
    ensures 256.0 * Multiplier("KiB") == 0.25
    ensures 2.0 * Multiplier("GiB") == 2048.0
  {
  }

  // ---------- one line ----------

  /** Python's `int()` on a float: truncation towards zero. */
  function Trunc(v: real): (r: int)
    ensures v >= 0.0 ==> r >= 0 && r as real <= v < r as real + 1.0
    ensures v < 0.0 ==> r <= 0 && r as real - 1.0 < v <= r as real
  {
    if v >= 0.0 then v.Floor else -((-v).Floor)
  }

  /**
   * The loop's variables that outlive one line: the destination path and
   * the local `pct`, which is unassigned until the first percentage is read.
   */
  datatype LineState = LineState(dest: Option<string>, pct: Option<int>)

  /** The path after one line: a Merger announcement beats a Destination one on the same line. */
  function NextDest(m: LineMatch, dest: Option<string>): Option<string> {
    if m.merge.Some? then m.merge else if m.dest.Some? then m.dest else dest
  }

  /**
   * The metrics of a detailed line, when its numbers parse and `pct` is
   * bound; the downloaded size is the total times the TRUNCATED percentage.
   */
  function DetailMetrics(d: Detail, pct: Option<int>): Option<Metrics> {
    if d.total.Some? && d.speed.Some? && pct.Some? then
      var totalMb := d.total.value * Multiplier(d.totalUnit);
      var speedMbs := d.speed.value * Multiplier(d.speedUnit);
      Some(Metrics(totalMb * (pct.value as real / 100.0), totalMb, speedMbs, d.eta))
    else None
  }

  /** The per-line handler (workers.py:219-256): new loop state and the signals emitted. */
  function HandleLine(m: LineMatch, st: LineState): (r: (LineState, seq<WorkerEvent>))
    ensures |r.1| <= 2
    ensures forall e | e in r.1 :: !IsOutcome(e)
  {
    var pct := if m.percent.Some? then Some(Trunc(m.percent.value)) else st.pct;
    var progress := if m.percent.Some? then [Progress(Trunc(m.percent.value))] else [];
    var metrics := if m.detail.Some? && DetailMetrics(m.detail.value, pct).Some?
                   then [MetricsReported(DetailMetrics(m.detail.value, pct).value)] else [];
    (LineState(NextDest(m, st.dest), pct), progress + metrics)
  }

  /**
   * What one line does. The path follows `NextDest`. A percentage updates
   * `pct` and is reported first, truncated; a bare percentage is all that
   * is reported. Without a percentage `pct` stays and no progress goes out.
   * Metrics go out, last, exactly when the line is a detailed one whose two
   * numbers parse and `pct` is bound; their downloaded size is the total
   * times `pct` percent.
   */
  lemma HandleLineCases(m: LineMatch, st: LineState)
    ensures var r := HandleLine(m, st);
      && r.0.dest == NextDest(m, st.dest)
      && (m.percent.Some? ==>
            && r.0.pct == Some(Trunc(m.percent.value))
            && |r.1| >= 1 && r.1[0] == Progress(Trunc(m.percent.value)))
      && (m.percent.Some? && m.detail.None? ==> r.1 == [Progress(Trunc(m.percent.value))])
      && (m.percent.None? ==> r.0.pct == st.pct && forall e | e in r.1 :: !e.Progress?)
      && ((exists e :: e in r.1 && e.MetricsReported?) <==>
            m.detail.Some? && m.detail.value.total.Some? && m.detail.value.speed.Some? && r.0.pct.Some?)
      && (m.detail.Some? && m.detail.value.total.Some? && m.detail.value.speed.Some? && r.0.pct.Some? ==>
            var d := m.detail.value;
            var total := d.total.value * Multiplier(d.totalUnit);
            r.1[|r.1| - 1] == MetricsReported(Metrics(total * (r.0.pct.value as real / 100.0), total,
                                                      d.speed.value * Multiplier(d.speedUnit), d.eta)))
  {
    var r := HandleLine(m, st);
    if m.detail.Some? && m.detail.value.total.Some? && m.detail.value.speed.Some? && r.0.pct.Some? {
      assert r.1[|r.1| - 1].MetricsReported?;
    }
  }

  /**
   * A detailed line reports the downloaded size from the truncated
   * percentage, so for a fractional percentage it is below total * percent / 100
   * (37.5% of 120 MiB gives 44.4 MB, not 45).
   */
  lemma DownloadedUsesTruncatedPercent(m: LineMatch, st: LineState)
    requires m.percent.Some? && m.percent.value >= 0.0
    requires m.detail.Some? && m.detail.value.total.Some? && m.detail.value.speed.Some?
    ensures var r := HandleLine(m, st);
      var total := m.detail.value.total.value * Multiplier(m.detail.value.totalUnit);
      && r.1 == [Progress(Trunc(m.percent.value)),
                 MetricsReported(Metrics(total * (Trunc(m.percent.value) as real / 100.0), total,
                   m.detail.value.speed.value * Multiplier(m.detail.value.speedUnit), m.detail.value.eta))]
      && (total > 0.0 && m.percent.value != Trunc(m.percent.value) as real ==>
            r.1[1].metrics.downloadedMb < total * (m.percent.value / 100.0))
  {
    var total := m.detail.value.total.value * Multiplier(m.detail.value.totalUnit);
    var p := m.percent.value;
    var t := Trunc(p) as real;
    var r := HandleLine(m, st);
    assert r.1[1].metrics.downloadedMb == total * (t / 100.0);
    if total > 0.0 && p != t {
      assert t < p;
      assert t / 100.0 < p / 100.0;
      assert total * (t / 100.0) < total * (p / 100.0);
    }
  }

  lemma ExampleLine()
    ensures HandleLine(LineMatch(None, None, Some(37.5), Some(Detail(Some(120.0), "MiB", Some(3.2), "MiB", "00:25"))),
                       LineState(None, None)).1
            == [Progress(37), MetricsReported(Metrics(44.4, 120.0, 3.2, "00:25"))]
  {
    assert Trunc(37.5) == 37;
  }

  // ---------- the read loop ----------

  /** One `readline()`: `None` when it returned "", and whether `poll()` then saw the process gone. */
  datatype Read = Read(line: Option<LineMatch>, exited: bool)

  /**
   * The iteration from which each flag reads as set. A flag set only after
   * the loop has ended has an index past the last read; `None` is never set.
   */
  datatype Requests = Requests(pauseAt: Option<nat>, cancelAt: Option<nat>)

  predicate PauseSeen(req: Requests, i: nat) {
    req.pauseAt.Some? && req.pauseAt.value <= i
  }

  predicate CancelSeen(req: Requests, i: nat) {
    req.cancelAt.Some? && req.cancelAt.value <= i
  }

  datatype LoopResult = LoopResult(state: LineState, events: seq<WorkerEvent>)

  /** What the loop does with one parsed line: the new loop state and the signals emitted. */
  type Handler = (LineMatch, LineState) -> (LineState, seq<WorkerEvent>)

  /**
   * The read loop from iteration `i` on (workers.py:205-256), passing each
   * line it parses to `handle`.
   */
  function DrainWith(stream: seq<Read>, i: nat, req: Requests, st: LineState, handle: Handler): LoopResult
    decreases |stream| - i
  {
    if i >= |stream| || PauseSeen(req, i) then LoopResult(st, [])
    else if stream[i].line.None? then
      if stream[i].exited then LoopResult(st, []) else DrainWith(stream, i + 1, req, st, handle)
    else if CancelSeen(req, i) then DrainWith(stream, i + 1, req, st, handle)
    else
      var (st', ev) := handle(stream[i].line.value, st);
      var rest := DrainWith(stream, i + 1, req, st', handle);
      LoopResult(rest.state, ev + rest.events)
  }

  /** The worker's read loop: lines go to `HandleLine`. */
  function Drain(stream: seq<Read>, i: nat, req: Requests, st: LineState): LoopResult {
    DrainWith(stream, i, req, st, HandleLine)
  }

  const Fresh: LineState := LineState(None, None)

  /**
   * The loop itself, over the stream of one attempt. It is proved for any
   * line handler, so that the proof does not depend on what is parsed.
   */
  method ReadLoop(stream: seq<Read>, req: Requests, handle: Handler) returns (st: LineState, events: seq<WorkerEvent>)
    ensures LoopResult(st, events) == DrainWith(stream, 0, req, Fresh, handle)
  {
    st, events := Fresh, [];
    var i := 0;
    while i < |stream|
      invariant 0 <= i <= |stream|
      invariant DrainWith(stream, 0, req, Fresh, handle)
                == LoopResult(DrainWith(stream, i, req, st, handle).state, events + DrainWith(stream, i, req, st, handle).events)
      decreases |stream| - i
    {
      if PauseSeen(req, i) {
        break;
      }
      var r := stream[i];
      if r.line.None? {
        if r.exited {
          break;
        }
        i := i + 1;
        continue;
      }
      if CancelSeen(req, i) {
        i := i + 1;
        continue;
      }
      var next, ev := handle(r.line.value, st).0, handle(r.line.value, st).1;
      var rest := DrainWith(stream, i + 1, req, next, handle);
      assert DrainWith(stream, i, req, st, handle) == LoopResult(rest.state, ev + rest.events);
      AppendAssoc(events, ev, rest.events);
      st, events := next, events + ev;
      i := i + 1;
    }
  }

  lemma AppendAssoc(a: seq<WorkerEvent>, b: seq<WorkerEvent>, c: seq<WorkerEvent>)
    ensures a + (b + c) == (a + b) + c
  {
  }

  /** Once the pause flag reads as set at iteration `k`, nothing the stream holds from there on matters. */
  lemma {:induction false} PauseIgnoresLaterReads(stream: seq<Read>, i: nat, req: Requests, st: LineState, k: nat)
    requires i <= k <= |stream| && PauseSeen(req, k)
    ensures Drain(stream, i, req, st) == Drain(stream[..k], i, req, st)
    decreases k - i
  {
    if i < k && !PauseSeen(req, i) {
      assert stream[..k][i] == stream[i];
      if stream[i].line.Some? && !CancelSeen(req, i) {
        PauseIgnoresLaterReads(stream, i + 1, req, HandleLine(stream[i].line.value, st).0, k);
      } else {
        PauseIgnoresLaterReads(stream, i + 1, req, st, k);
      }
    }
  }

  /** Lines read while the cancel flag is set are drained without a signal and without a state change. */
  lemma {:induction false} CancelSilencesRest(stream: seq<Read>, i: nat, req: Requests, st: LineState)
    requires req.cancelAt.Some? && req.cancelAt.value <= i
    ensures Drain(stream, i, req, st) == LoopResult(st, [])
    decreases |stream| - i
  {
    if i < |stream| && !PauseSeen(req, i) && !(stream[i].line.None? && stream[i].exited) {
      CancelSilencesRest(stream, i + 1, req, st);
    }
  }

  /** The lines the loop parses, in order: read before a stop, with no flag set. */
  function Examined(stream: seq<Read>, i: nat, req: Requests): seq<LineMatch>
    decreases |stream| - i
  {
    if i >= |stream| || PauseSeen(req, i) then []
    else if stream[i].line.None? then
      if stream[i].exited then [] else Examined(stream, i + 1, req)
    else if CancelSeen(req, i) then Examined(stream, i + 1, req)
    else [stream[i].line.value] + Examined(stream, i + 1, req)
  }

  /** The path announced last among `lines`, read from the end; `dest` if none announces one. */
  function LastAnnounced(lines: seq<LineMatch>, dest: Option<string>): Option<string>
    decreases |lines|
  {
    if lines == [] then dest
    else
      var l := lines[|lines| - 1];
      if l.merge.Some? then l.merge
      else if l.dest.Some? then l.dest
      else LastAnnounced(lines[..|lines| - 1], dest)
  }

  lemma {:induction false} LastAnnouncedCons(l: LineMatch, lines: seq<LineMatch>, dest: Option<string>)
    ensures LastAnnounced([l] + lines, dest) == LastAnnounced(lines, NextDest(l, dest))
    decreases |lines|
  {
    if lines != [] {
      var all := [l] + lines;
      assert all[..|all| - 1] == [l] + lines[..|lines| - 1];
      LastAnnouncedCons(l, lines[..|lines| - 1], dest);
    } else {
      assert ([l] + lines)[..0] == [];
    }
  }

  /** The latest announced path wins: the loop ends with the last path any parsed line named. */
  lemma {:induction false} LatestPathWins(stream: seq<Read>, i: nat, req: Requests, st: LineState)
    ensures Drain(stream, i, req, st).state.dest == LastAnnounced(Examined(stream, i, req), st.dest)
    decreases |stream| - i
  {
    if i < |stream| && !PauseSeen(req, i) && !(stream[i].line.None? && stream[i].exited) {
      if stream[i].line.Some? && !CancelSeen(req, i) {
        var l := stream[i].line.value;
        LatestPathWins(stream, i + 1, req, HandleLine(l, st).0);
        LastAnnouncedCons(l, Examined(stream, i + 1, req), st.dest);
      } else {
        LatestPathWins(stream, i + 1, req, st);
      }
    }
  }

  lemma {:induction false} DrainHasNoOutcome(stream: seq<Read>, i: nat, req: Requests, st: LineState)
    ensures CountOutcomes(Drain(stream, i, req, st).events) == 0
    decreases |stream| - i
  {
    if i < |stream| && !PauseSeen(req, i) && !(stream[i].line.None? && stream[i].exited) {
      if stream[i].line.Some? && !CancelSeen(req, i) {
        var (st', ev) := HandleLine(stream[i].line.value, st);
        DrainHasNoOutcome(stream, i + 1, req, st');
        assert CountOutcomes(ev) == 0 by {
          if ev != [] { assert ev[1..] == [] || ev[1..] == [ev[1]]; }
        }
        CountOutcomesAppend(ev, Drain(stream, i + 1, req, st').events);
      } else {
        DrainHasNoOutcome(stream, i + 1, req, st);
      }
    }
  }

  // ---------- exit reconciliation ----------

  /** `self._proc.poll() or 0`: a process still running, or exited with 0, reads as 0. */
  function ExitCode(poll: Option<int>): int {
    if poll.Some? then poll.value else 0
  }

  /** `str(self._dest_path) if self._dest_path else ""`. */
  function PathText(dest: Option<string>): string {
    if dest.Some? then dest.value else ""
  }

  /** What the attempt emits once the loop is over (workers.py:262-274). */
  function Reconcile(req: Requests, poll: Option<int>, dest: Option<string>, title: string, prefix: string): seq<WorkerEvent> {
    if req.pauseAt.Some? then [PausedOutcome(title)]
    else if req.cancelAt.Some? then [CleanupPartial(CleanupPatterns(prefix)), CanceledOutcome(title)]
    else if ExitCode(poll) == 0 then [Progress(100), Finished(0, title, PathText(dest))]
    else [Finished(ExitCode(poll), title, PathText(dest))]
  }

  /**
   * Pause beats cancel, cancel beats the exit code; exactly one outcome ends
   * the attempt; the final 100% goes out only on a clean exit with neither
   * flag set; partial files are removed only on cancel.
   */
  lemma ReconcilePriority(req: Requests, poll: Option<int>, dest: Option<string>, title: string, prefix: string)
    ensures var ev := Reconcile(req, poll, dest, title, prefix);
      && CountOutcomes(ev) == 1 && IsOutcome(ev[|ev| - 1])
      && (ev[|ev| - 1].PausedOutcome? <==> req.pauseAt.Some?)
      && (ev[|ev| - 1].CanceledOutcome? <==> req.pauseAt.None? && req.cancelAt.Some?)
      && (ev[|ev| - 1].Finished? <==> req.pauseAt.None? && req.cancelAt.None?)
      && (Progress(100) in ev <==> req.pauseAt.None? && req.cancelAt.None? && ExitCode(poll) == 0)
      && ((exists e :: e in ev && e.CleanupPartial?) <==> req.pauseAt.None? && req.cancelAt.Some?)
  {
    var ev := Reconcile(req, poll, dest, title, prefix);
    var stop := ev[|ev| - 1];
    assert CountOutcomes(ev) == 1 by {
      if |ev| == 2 { assert ev[1..] == [stop]; }
    }
    if req.pauseAt.None? && req.cancelAt.Some? {
      assert ev[0].CleanupPartial?;
    }
  }

  const NotFoundMessage: string := "yt-dlp не найден"

  /**
   * Every signal of one attempt: the loop's, then the reconciliation's.
   * `spawned` is whether creating the output directory and starting the
   * process both succeeded; they happen before the guarded part of the
   * attempt, so when either fails the thread ends with no signal at all.
   */
  function RunEvents(found: bool, spawned: bool, stream: seq<Read>, req: Requests, poll: Option<int>, title: string,
                     prefix: string): seq<WorkerEvent> {
    if !found then [Finished(127, NotFoundMessage, "")]
    else if !spawned then []
    else
      var loop := Drain(stream, 0, req, Fresh);
      loop.events + Reconcile(req, poll, loop.state.dest, title, prefix)
  }

  /**
   * `_run` (workers.py:162-274) without the process itself: `found` is
   * whether the downloader was found, `spawned` whether the directory and
   * the process could be created.
   */
  method Run(found: bool, spawned: bool, stream: seq<Read>, req: Requests, poll: Option<int>, title: string, prefix: string)
    returns (events: seq<WorkerEvent>)
    ensures events == RunEvents(found, spawned, stream, req, poll, title, prefix)
  {
    if !found {
      return [Finished(127, NotFoundMessage, "")];
    }
    if !spawned {
      return [];
    }
    var st, loopEvents := ReadLoop(stream, req, HandleLine);
    events := loopEvents + Reconcile(req, poll, st.dest, title, prefix);
  }

  /**
   * Every attempt whose process starts, or whose downloader is missing,
   * ends with exactly one outcome, its last signal; which one is fixed by
   * the flags and the exit code, and the path it reports is the latest one
   * the parsed lines announced. An attempt that fails before its process
   * starts emits nothing.
   */
  lemma RunEndsWithOneOutcome(found: bool, spawned: bool, stream: seq<Read>, req: Requests, poll: Option<int>,
                              title: string, prefix: string)
    ensures var ev := RunEvents(found, spawned, stream, req, poll, title, prefix);
      && (found && !spawned <==> ev == [])
      && (!found || spawned ==> CountOutcomes(ev) == 1 && |ev| > 0 && IsOutcome(ev[|ev| - 1]))
      && (found && spawned && req.pauseAt.Some? ==> ev[|ev| - 1] == PausedOutcome(title))
      && (found && spawned && req.pauseAt.None? && req.cancelAt.Some? ==> ev[|ev| - 1] == CanceledOutcome(title))
      && (found && spawned && req.pauseAt.None? && req.cancelAt.None? ==>
            ev[|ev| - 1] == Finished(ExitCode(poll), title, PathText(LastAnnounced(Examined(stream, 0, req), None))))
  {
    if found && spawned {
      var loop := Drain(stream, 0, req, Fresh);
      var tail := Reconcile(req, poll, loop.state.dest, title, prefix);
      DrainHasNoOutcome(stream, 0, req, Fresh);
      ReconcilePriority(req, poll, loop.state.dest, title, prefix);
      CountOutcomesAppend(loop.events, tail);
      LatestPathWins(stream, 0, req, Fresh);
    }
  }
}
