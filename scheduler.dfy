/**
 * The download manager's state and its operations as functions from one
 * state to the next (workers.py:279-403). Each locked method of the source
 * is one step; the signals it emits and the requests it sends to workers
 * are appended to an event log. A worker is represented by the arguments
 * it was built with.
 */
module Scheduler {
  import opened Options
  import opened TaskStatus
  import opened WorkerOutput

  /** The task record kept under its id; `metrics` is absent until the first metrics report. */
  datatype Task = Task(id: int, url: string, outDir: string, title: string, height: Option<int>,
                       progress: int, status: Status, path: string, metrics: Option<Metrics>)

  /** Stands for the `DownloadWorker` started for a task: what it was built from. */
  datatype WorkerSpec = WorkerSpec(url: string, outDir: string, title: string, height: Option<int>, fragments: int)

  /** What the manager emits, and what it asks of the workers it owns. */
  datatype Event =
    | TaskAdded(task: Task)
    | TaskProgress(id: int, progress: int)
    | TaskMetrics(id: int, metrics: Metrics)
    | StatusChanged(task: Task)
    | WorkerStart(id: int, worker: WorkerSpec)
    | WorkerCancel(id: int)
    | WorkerPause(id: int)

  /** `_tasks`, `_queue`, `_active`, `_next_id`, `max_concurrent`, `concurrent_fragments` and the log. */
  datatype Sched = Sched(tasks: map<int, Task>, queue: seq<int>, active: map<int, WorkerSpec>,
                         nextId: int, limit: int, fragments: int, log: seq<Event>)

  /**
   * What every reachable state satisfies: ids run from 1 below `nextId`,
   * each record carries its own id, and every id that is queued or active
   * has a record.
   */
  predicate Valid(s: Sched) {
    && s.nextId >= 1 && s.limit >= 1
    && (forall k | k in s.tasks :: 1 <= k < s.nextId && s.tasks[k].id == k)
    && (forall k | k in s.active :: k in s.tasks)
    && (forall k | k in s.queue :: k in s.tasks)
  }

  /** `max(1, int(n))`. */
  function ClampLimit(n: int): (r: int)
    ensures r >= 1 && r >= n && (n >= 1 ==> r == n)
  {
    if n < 1 then 1 else n
  }

  /** `__init__`: nothing queued, nothing active, ids start at 1. */
  function Init(maxConcurrent: int, fragments: int): (r: Sched)
    ensures Valid(r) && r.tasks == map[] && r.queue == [] && r.active == map[]
    ensures r.nextId == 1 && r.limit == ClampLimit(maxConcurrent) && r.log == []
  {
    Sched(map[], [], map[], 1, ClampLimit(maxConcurrent), fragments, [])
  }

  function WorkerFor(t: Task, fragments: int): WorkerSpec {
    WorkerSpec(t.url, t.outDir, t.title, t.height, fragments)
  }

  // ---------- admission ----------

  /** One turn of the admission loop: pop the front id; start it if it has a record. */
  function AdmitOne(s: Sched): (r: Sched)
    requires s.queue != []
    ensures r.queue == s.queue[1..]
    ensures r.tasks.Keys == s.tasks.Keys && r.nextId == s.nextId && r.limit == s.limit
    ensures r.fragments == s.fragments
    ensures |s.active| <= |r.active| <= |s.active| + 1
  {
    var tid := s.queue[0];
    if tid !in s.tasks then s.(queue := s.queue[1..])
    else
      var t := s.tasks[tid].(status := Downloading);
      var w := WorkerFor(t, s.fragments);
      s.(queue := s.queue[1..], tasks := s.tasks[tid := t], active := s.active[tid := w],
         log := s.log + [StatusChanged(t), WorkerStart(tid, w)])
  }

  /**
   * `_try_start_more` (workers.py:343-359). No task is started once the
   * limit is reached; `AdmitStops` shows that on return the queue is empty
   * or the limit is reached.
   */
  function Admit(s: Sched): (r: Sched)
    ensures |s.active| >= s.limit ==> r == s
    ensures |r.queue| <= |s.queue| && r.queue == s.queue[|s.queue| - |r.queue|..]
    ensures r.tasks.Keys == s.tasks.Keys && r.nextId == s.nextId && r.limit == s.limit
    ensures r.fragments == s.fragments
    decreases |s.queue|
  {
    if |s.active| >= s.limit || s.queue == [] then s
    else
      var s1 := AdmitOne(s);
      var r := Admit(s1);
      AdmitStep(s, s1, r);
      r
  }

  /** What one admission turn followed by the rest of admission keeps, in terms of the turn's own facts. */
  lemma AdmitStep(s: Sched, s1: Sched, r: Sched)
    requires s.queue != []
    requires s1.queue == s.queue[1..] && s1.tasks.Keys == s.tasks.Keys
    requires s1.nextId == s.nextId && s1.limit == s.limit && s1.fragments == s.fragments
    requires |r.queue| <= |s1.queue| && r.queue == s1.queue[|s1.queue| - |r.queue|..]
    requires r.tasks.Keys == s1.tasks.Keys && r.nextId == s1.nextId && r.limit == s1.limit
    requires r.fragments == s1.fragments
    ensures |r.queue| <= |s.queue| && r.queue == s.queue[|s.queue| - |r.queue|..]
    ensures r.tasks.Keys == s.tasks.Keys && r.nextId == s.nextId && r.limit == s.limit
    ensures r.fragments == s.fragments
  {
    SuffixOfTail(s.queue, s1.queue, r.queue);
  }

  /** Admission stops only when the queue is empty or every slot is taken. */
  lemma {:induction false} AdmitStops(s: Sched)
    ensures Admit(s).queue == [] || |Admit(s).active| >= s.limit
    decreases |s.queue|
  {
    if |s.active| < s.limit && s.queue != [] {
      AdmitStops(AdmitOne(s));
    }
  }

  /** Admission only adds active tasks, and never goes past the limit from below it. */
  lemma {:induction false} AdmitBounds(s: Sched)
    ensures |Admit(s).active| >= |s.active|
    ensures |s.active| < s.limit ==> |Admit(s).active| <= s.limit
    decreases |s.queue|
  {
    if |s.active| < s.limit && s.queue != [] {
      var s1 := AdmitOne(s);
      AdmitBounds(s1);
      assert Admit(s) == Admit(s1);
    }
  }

  lemma SuffixOfTail(q: seq<int>, t: seq<int>, u: seq<int>)
    requires q != [] && t == q[1..]
    requires |u| <= |t| && u == t[|t| - |u|..]
    ensures |u| <= |q| && u == q[|q| - |u|..]
  {
    forall k | 0 <= k < |u| ensures u[k] == q[|q| - |u|..][k] {
      assert u[k] == t[|t| - |u| + k];
    }
  }

  /** One admission turn keeps the state invariant. */
  lemma AdmitOneKeepsValid(s: Sched)
    requires s.queue != []
    ensures Valid(s) ==> Valid(AdmitOne(s))
  {
  }

  /** Admission keeps the state invariant. */
  lemma {:induction false} AdmitKeepsValid(s: Sched)
    ensures Valid(s) ==> Valid(Admit(s))
    decreases |s.queue|
  {
    if |s.active| < s.limit && s.queue != [] {
      AdmitOneKeepsValid(s);
      AdmitKeepsValid(AdmitOne(s));
    }
  }

  /** How many queue entries admission consumes. */
  function Popped(s: Sched): (k: nat)
    ensures k <= |s.queue|
  {
    |s.queue| - |Admit(s).queue|
  }

  /** Below the limit with a non-empty queue, admission is one turn followed by admission. */
  lemma AdmitUnfold(s: Sched)
    requires |s.active| < s.limit && s.queue != []
    ensures Admit(s) == Admit(AdmitOne(s))
  {
  }

  lemma PoppedCount(s: Sched)
    requires |s.active| < s.limit && s.queue != []
    ensures Popped(s) == Popped(AdmitOne(s)) + 1
  {
    AdmitUnfold(s);
    assert |AdmitOne(s).queue| == |s.queue| - 1;
  }

  lemma PoppedPrefix(s: Sched)
    requires |s.active| < s.limit && s.queue != []
    ensures s.queue[..Popped(s)] == [s.queue[0]] + AdmitOne(s).queue[..Popped(AdmitOne(s))]
  {
    var s1 := AdmitOne(s);
    var k1 := Popped(s1);
    PoppedCount(s);
    PrefixCons(s.queue, s1.queue, Popped(s), k1);
  }

  lemma PoppedStep(s: Sched)
    requires |s.active| < s.limit && s.queue != []
    ensures Admit(s) == Admit(AdmitOne(s))
    ensures Popped(s) == Popped(AdmitOne(s)) + 1
    ensures s.queue[..Popped(s)] == [s.queue[0]] + AdmitOne(s).queue[..Popped(AdmitOne(s))]
  {
    AdmitUnfold(s);
    PoppedCount(s);
    PoppedPrefix(s);
  }

  lemma PrefixCons(q: seq<int>, t: seq<int>, k: nat, k1: nat)
    requires q != [] && t == q[1..] && k == k1 + 1 && k <= |q|
    ensures q[..k] == [q[0]] + t[..k1]
  {
    assert forall i | 0 <= i < k :: q[..k][i] == ([q[0]] + t[..k1])[i];
  }

  /** Admission turns exactly the popped ids that have a record into "Загрузка"; no other record changes. */
  lemma {:induction false} AdmitMarksPopped(s: Sched)
    ensures var r := Admit(s); var popped := s.queue[..Popped(s)];
      forall id | id in s.tasks ::
        r.tasks[id] == if id in popped then s.tasks[id].(status := Downloading) else s.tasks[id]
    decreases |s.queue|
  {
    if |s.active| < s.limit && s.queue != [] {
      var s1 := AdmitOne(s);
      PoppedStep(s);
      AdmitMarksPopped(s1);
      AdmitOneTasks(s);
      var p1 := s1.queue[..Popped(s1)];
      assert forall id :: id in s.queue[..Popped(s)] <==> id == s.queue[0] || id in p1;
    }
  }

  /** Popping marks the popped id downloading, if it has a record, and no other record. */
  lemma AdmitOneTasks(s: Sched)
    requires s.queue != []
    ensures forall id | id in s.tasks ::
      AdmitOne(s).tasks[id] == if id == s.queue[0] then s.tasks[id].(status := Downloading) else s.tasks[id]
  {
  }

  /** The active set grows by exactly the popped ids that have a record. */
  lemma {:induction false} AdmitActivatesPopped(s: Sched)
    ensures var r := Admit(s); var popped := s.queue[..Popped(s)];
      forall id :: id in r.active <==> id in s.active || (id in popped && id in s.tasks)
    decreases |s.queue|
  {
    if |s.active| < s.limit && s.queue != [] {
      PoppedStep(s);
      AdmitActivatesPopped(AdmitOne(s));
    }
  }

  /** The events admission emits for the ids in `ids`, front first. */
  function StartEvents(ids: seq<int>, tasks: map<int, Task>, fragments: int): seq<Event>
    decreases |ids|
  {
    if ids == [] then []
    else if ids[0] !in tasks then StartEvents(ids[1..], tasks, fragments)
    else
      var t := tasks[ids[0]].(status := Downloading);
      [StatusChanged(t), WorkerStart(ids[0], WorkerFor(t, fragments))] + StartEvents(ids[1..], tasks, fragments)
  }

  lemma {:induction false} StartEventsIgnoreStatus(ids: seq<int>, tasks: map<int, Task>, x: int, fragments: int)
    requires x in tasks
    ensures StartEvents(ids, tasks[x := tasks[x].(status := Downloading)], fragments) == StartEvents(ids, tasks, fragments)
    decreases |ids|
  {
    if ids != [] {
      StartEventsIgnoreStatus(ids[1..], tasks, x, fragments);
    }
  }

  /**
   * Admission logs, for each popped id with a record and in queue order, a
   * status event with the "Загрузка" record and then the worker start.
   */
  lemma {:induction false} AdmitLogsPopped(s: Sched)
    ensures Admit(s).log == s.log + StartEvents(s.queue[..Popped(s)], s.tasks, s.fragments)
    decreases |s.queue|
  {
    if |s.active| >= s.limit || s.queue == [] {
      assert s.queue[..Popped(s)] == [];
    } else {
      var s1 := AdmitOne(s);
      PoppedStep(s);
      AdmitLogsPopped(s1);
      var x := s.queue[0];
      var rest := s1.queue[..Popped(s1)];
      assert StartEvents(s.queue[..Popped(s)], s.tasks, s.fragments)
          == (if x in s.tasks then s1.log[|s.log|..] else []) + StartEvents(rest, s.tasks, s.fragments);
      if x in s.tasks {
        StartEventsIgnoreStatus(rest, s.tasks, x, s.fragments);
      }
    }
  }

  /** Distinct entries. */
  predicate Distinct(q: seq<int>) {
    forall i, j | 0 <= i < j < |q| :: q[i] != q[j]
  }

  /**
   * With no stale or repeated ids in the queue and none of them already
   * active, admission fills the free slots: afterwards `min(limit, pending
   * + active)` tasks are active.
   */
  lemma {:induction false} AdmitFills(s: Sched)
    requires Valid(s) && Distinct(s.queue) && |s.active| <= s.limit
    requires forall i | 0 <= i < |s.queue| :: s.queue[i] !in s.active
    ensures |Admit(s).active| == if s.limit < |s.active| + |s.queue| then s.limit else |s.active| + |s.queue|
    decreases |s.queue|
  {
    if |s.active| < s.limit && s.queue != [] {
      var s1 := AdmitOne(s);
      var x := s.queue[0];
      assert x !in s.active && x in s.tasks;
      assert s1.active.Keys == s.active.Keys + {x};
      forall i | 0 <= i < |s1.queue| ensures s1.queue[i] !in s1.active {
        assert s1.queue[i] == s.queue[i + 1];
      }
      AdmitOneKeepsValid(s);
      AdmitFills(s1);
    }
  }

  // ---------- enqueue ----------

  /** The record `enqueue` stores: status "queued", progress 0, no path; an empty title becomes "—". */
  function NewTask(id: int, url: string, outDir: string, title: string, height: Option<int>): Task {
    Task(id, url, outDir, if title == "" then "—" else title, height, 0, Queued, "", None)
  }

  /** The locked part of `enqueue` and its `task_added` signal (workers.py:300-310). */
  function AddTask(s: Sched, url: string, outDir: string, title: string, height: Option<int>, priority: bool): (r: Sched)
    ensures Valid(s) ==> Valid(r)
  {
    var t := NewTask(s.nextId, url, outDir, title, height);
    s.(tasks := s.tasks[s.nextId := t],
       queue := if priority then [s.nextId] + s.queue else s.queue + [s.nextId],
       nextId := s.nextId + 1,
       log := s.log + [TaskAdded(t)])
  }

  /** `enqueue`: add the task, then admit; its id is the old `nextId`. */
  function Enqueue(s: Sched, url: string, outDir: string, title: string, height: Option<int>, priority: bool): (r: Sched)
    ensures Valid(s) ==> Valid(r)
  {
    var a := AddTask(s, url, outDir, title, height, priority);
    AdmitKeepsValid(a);
    Admit(a)
  }

  /**
   * `enqueue` hands out `nextId`, which no record holds yet, and moves past
   * it, so ids are never reused; the new id goes to the front of the queue
   * with priority and to the back without, as a "queued" record with
   * progress 0, announced by one `task_added`.
   */
  lemma EnqueueFreshId(s: Sched, url: string, outDir: string, title: string, height: Option<int>, priority: bool)
    requires Valid(s)
    ensures var a := AddTask(s, url, outDir, title, height, priority);
      && s.nextId !in s.tasks
      && a.nextId == s.nextId + 1
      && a.tasks.Keys == s.tasks.Keys + {s.nextId}
      && a.tasks[s.nextId].status == Queued && a.tasks[s.nextId].progress == 0
      && a.tasks[s.nextId].id == s.nextId
      && (priority ==> a.queue == [s.nextId] + s.queue)
      && (!priority ==> a.queue == s.queue + [s.nextId])
      && a.log == s.log + [TaskAdded(a.tasks[s.nextId])]
      && Enqueue(s, url, outDir, title, height, priority).nextId == s.nextId + 1
      && forall k | k in Enqueue(s, url, outDir, title, height, priority).tasks :: k <= s.nextId
  {
  }

  // ---------- cancel, pause, resume ----------

  /** `[t for t in queue if t != x]`. */
  function RemoveAll(q: seq<int>, x: int): (r: seq<int>)
    ensures forall y :: y in r <==> y in q && y != x
    ensures |r| <= |q|
    ensures x !in q ==> r == q
    decreases |q|
  {
    if q == [] then []
    else (if q[0] == x then [] else [q[0]]) + RemoveAll(q[1..], x)
  }

  /** `cancel` (workers.py:314-324). */
  function Cancel(s: Sched, id: int): (r: Sched)
    requires Valid(s)
    ensures Valid(r)
  {
    if id in s.active then
      s.(tasks := s.tasks[id := s.tasks[id].(status := Canceling)], log := s.log + [WorkerCancel(id)])
    else if id in s.queue then
      var t := s.tasks[id].(status := Canceled);
      s.(queue := RemoveAll(s.queue, id), tasks := s.tasks[id := t], log := s.log + [StatusChanged(t)])
    else s
  }

  /**
   * An active task turns "canceling", stays active and keeps its queue
   * entries, and its worker is asked to cancel; a task that is only queued
   * leaves the queue entirely, turns "canceled" and is announced once; any
   * other id changes nothing.
   */
  lemma CancelCases(s: Sched, id: int)
    requires Valid(s)
    ensures var r := Cancel(s, id);
      && r.tasks.Keys == s.tasks.Keys && r.nextId == s.nextId && r.limit == s.limit
      && (forall k | k in s.tasks && k != id :: r.tasks[k] == s.tasks[k])
      && (id in s.active ==>
            && r.active == s.active && r.queue == s.queue
            && r.tasks[id] == s.tasks[id].(status := Canceling)
            && r.log == s.log + [WorkerCancel(id)])
      && (id !in s.active && id in s.queue ==>
            && r.active == s.active && id !in r.queue
            && (forall y :: y in r.queue <==> y in s.queue && y != id)
            && r.tasks[id] == s.tasks[id].(status := Canceled)
            && r.log == s.log + [StatusChanged(r.tasks[id])])
      && (id !in s.active && id !in s.queue ==> r == s)
  {
  }

  /** `pause` (workers.py:326-331): only an active task is affected. */
  function Pause(s: Sched, id: int): (r: Sched)
    requires Valid(s)
    ensures Valid(r)
    ensures r.active == s.active && r.queue == s.queue
    ensures id in s.active ==> r.tasks == s.tasks[id := s.tasks[id].(status := Paused)] && r.log == s.log + [WorkerPause(id)]
    ensures id !in s.active ==> r == s
  {
    if id in s.active then
      s.(tasks := s.tasks[id := s.tasks[id].(status := Paused)], log := s.log + [WorkerPause(id)])
    else s
  }

  /** The locked part of `resume` (workers.py:335-339). */
  function Requeue(s: Sched, id: int): Sched
    requires id in s.tasks
  {
    s.(queue := [id] + s.queue, tasks := s.tasks[id := s.tasks[id].(status := Queued)])
  }

  /** `resume`: nothing for an id without a record; otherwise requeue at the front and admit. */
  function Resume(s: Sched, id: int): (r: Sched)
    ensures Valid(s) ==> Valid(r)
  {
    if id !in s.tasks then s
    else
      var q := Requeue(s, id);
      AdmitKeepsValid(q);
      Admit(q)
  }

  /**
   * Resume of an unknown id is a no-op. Otherwise the id goes to the front
   * of the queue as "queued" without any check: an id that is active, or
   * already queued, is queued once more.
   */
  lemma ResumeCases(s: Sched, id: int)
    ensures id !in s.tasks ==> Resume(s, id) == s
    ensures id in s.tasks ==>
      var q := Requeue(s, id);
      && Resume(s, id) == Admit(q)
      && q.queue == [id] + s.queue && q.active == s.active && q.log == s.log
      && q.tasks[id].status == Queued
      && |q.queue| == |s.queue| + 1
  {
  }

  /**
   * The missing check has a visible effect: resuming a task that is still
   * downloading, when no slot is free, leaves it active and queued at once.
   */
  lemma ResumeOfActiveDuplicates(s: Sched, id: int)
    requires Valid(s) && id in s.active && |s.active| >= s.limit
    ensures var r := Resume(s, id);
      id in r.active && r.queue == [id] + s.queue && r.tasks[id].status == Queued
  {
  }

  /** `set_max_concurrent`: clamp, then admit; nothing already running is stopped. */
  function SetLimit(s: Sched, n: int): (r: Sched)
    ensures Valid(s) ==> Valid(r)
  {
    var s1 := s.(limit := ClampLimit(n));
    AdmitKeepsValid(s1);
    Admit(s1)
  }

  lemma SetLimitNeverEvicts(s: Sched, n: int)
    ensures var r := SetLimit(s, n);
      && r.limit == ClampLimit(n)
      && s.active.Keys <= r.active.Keys
      && (ClampLimit(n) <= |s.active| ==> r.active == s.active && r.queue == s.queue)
  {
    var s1 := s.(limit := ClampLimit(n));
    AdmitActivatesPopped(s1);
    var r := Admit(s1);
    forall id | id in s.active ensures id in r.active {
      assert id in s1.active;
    }
  }

  // ---------- outcome handlers ----------

  /** `_on_paused` (workers.py:361-368): no admission follows. */
  function OnPaused(s: Sched, id: int): (r: Sched)
    ensures Valid(s) ==> Valid(r)
  {
    if id in s.tasks then
      var t := s.tasks[id].(status := Paused);
      s.(tasks := s.tasks[id := t], active := s.active - {id}, log := s.log + [StatusChanged(t)])
    else s.(active := s.active - {id})
  }

  /** `_on_progress`: the record (if any) takes the value; the signal goes out either way. */
  function OnProgress(s: Sched, id: int, progress: int): (r: Sched)
    ensures Valid(s) ==> Valid(r)
    ensures r.queue == s.queue && r.active == s.active && r.tasks.Keys == s.tasks.Keys
    ensures r.log == s.log + [TaskProgress(id, progress)]
    ensures id in s.tasks ==> r.tasks[id] == s.tasks[id].(progress := progress)
    ensures forall k | k in s.tasks && k != id :: r.tasks[k] == s.tasks[k]
  {
    var tasks := if id in s.tasks then s.tasks[id := s.tasks[id].(progress := progress)] else s.tasks;
    s.(tasks := tasks, log := s.log + [TaskProgress(id, progress)])
  }

  /** `_on_metrics`: the record (if any) takes the four figures; the signal goes out either way. */
  function OnMetrics(s: Sched, id: int, m: Metrics): (r: Sched)
    ensures Valid(s) ==> Valid(r)
    ensures r.queue == s.queue && r.active == s.active && r.tasks.Keys == s.tasks.Keys
    ensures r.log == s.log + [TaskMetrics(id, m)]
    ensures id in s.tasks ==> r.tasks[id] == s.tasks[id].(metrics := Some(m))
    ensures forall k | k in s.tasks && k != id :: r.tasks[k] == s.tasks[k]
  {
    var tasks := if id in s.tasks then s.tasks[id := s.tasks[id].(metrics := Some(m))] else s.tasks;
    s.(tasks := tasks, log := s.log + [TaskMetrics(id, m)])
  }

  /** The status `_on_finished` records: "Готово" for 0, "Ошибка(rc)" otherwise. */
  function FinishStatus(rc: int): Status {
    if rc == 0 then Done else Error(rc)
  }

  /**
   * Releasing a slot keeps the state invariant, whether or not the record
   * is replaced by one with the same id.
   */
  lemma ReleaseKeepsValid(s: Sched, id: int, t: Task, log: seq<Event>)
    ensures Valid(s) ==> Valid(s.(active := s.active - {id}, log := log))
    ensures Valid(s) && id in s.tasks && t.id == id ==> Valid(s.(tasks := s.tasks[id := t], active := s.active - {id}, log := log))
  {
    if Valid(s) {
      var r := s.(active := s.active - {id}, log := log);
      assert forall k | k in r.active :: k in s.active;
      if id in s.tasks && t.id == id {
        var r2 := s.(tasks := s.tasks[id := t], active := s.active - {id}, log := log);
        assert r2.tasks.Keys == s.tasks.Keys;
        assert forall k | k in r2.tasks :: 1 <= k < r2.nextId && r2.tasks[k].id == k;
        assert forall k | k in r2.active :: k in s.active;
      }
    }
  }

  /** The locked part of `_on_finished` and its status signal (workers.py:385-392). */
  function Finish(s: Sched, id: int, rc: int, path: string): (r: Sched)
    ensures Valid(s) ==> Valid(r)
  {
    if id in s.tasks then
      var old_ := s.tasks[id];
      var t := old_.(path := if path != "" then path else old_.path, status := FinishStatus(rc));
      ReleaseKeepsValid(s, id, t, s.log + [StatusChanged(t)]);
      s.(tasks := s.tasks[id := t], active := s.active - {id}, log := s.log + [StatusChanged(t)])
    else
      ReleaseKeepsValid(s, id, NewTask(id, "", "", "", None), s.log);
      s.(active := s.active - {id})
  }

  /** `_on_finished`: record the outcome, release the slot, admit. */
  function OnFinished(s: Sched, id: int, rc: int, path: string): (r: Sched)
    ensures Valid(s) ==> Valid(r)
  {
    var f := Finish(s, id, rc, path);
    AdmitKeepsValid(f);
    Admit(f)
  }

  /** The locked part of `_on_canceled` and its status signal (workers.py:396-402). */
  function Abort(s: Sched, id: int): (r: Sched)
    ensures Valid(s) ==> Valid(r)
  {
    if id in s.tasks then
      var t := s.tasks[id].(status := CanceledActive);
      ReleaseKeepsValid(s, id, t, s.log + [StatusChanged(t)]);
      s.(tasks := s.tasks[id := t], active := s.active - {id}, log := s.log + [StatusChanged(t)])
    else
      ReleaseKeepsValid(s, id, NewTask(id, "", "", "", None), s.log);
      s.(active := s.active - {id})
  }

  /** `_on_canceled`: record the cancellation, release the slot, admit. */
  function OnCanceled(s: Sched, id: int): (r: Sched)
    ensures Valid(s) ==> Valid(r)
  {
    var c := Abort(s, id);
    AdmitKeepsValid(c);
    Admit(c)
  }

  /**
   * Each outcome handler removes exactly its own id from the active set and
   * sets that task's status; a finished task keeps its old path when the
   * reported one is empty; only the finished and canceled handlers admit.
   */
  lemma OutcomeHandlers(s: Sched, id: int, rc: int, path: string)
    ensures OnPaused(s, id).active.Keys == s.active.Keys - {id}
    ensures Finish(s, id, rc, path).active.Keys == s.active.Keys - {id}
    ensures Abort(s, id).active.Keys == s.active.Keys - {id}
    ensures OnPaused(s, id).queue == s.queue
    ensures id in s.tasks ==>
      && OnPaused(s, id).tasks[id].status == Paused
      && Finish(s, id, rc, path).tasks[id].status == (if rc == 0 then Done else Error(rc))
      && Finish(s, id, rc, path).tasks[id].path == (if path == "" then s.tasks[id].path else path)
      && Abort(s, id).tasks[id].status == CanceledActive
      && OnPaused(s, id).log == s.log + [StatusChanged(OnPaused(s, id).tasks[id])]
    ensures id !in s.tasks ==> OnPaused(s, id).log == s.log && Finish(s, id, rc, path).log == s.log
    ensures OnFinished(s, id, rc, path) == Admit(Finish(s, id, rc, path))
    ensures OnCanceled(s, id) == Admit(Abort(s, id))
  {
  }

  /**
   * `_on_finished`'s locked part touches only its own record: the queue,
   * the ids, the other records and everything but the active set stay;
   * with a record, exactly one status event, carrying the updated record,
   * is logged; without one, only the slot is released.
   */
  lemma FinishCases(s: Sched, id: int, rc: int, path: string)
    ensures var r := Finish(s, id, rc, path);
      && r.queue == s.queue && r.tasks.Keys == s.tasks.Keys
      && r.nextId == s.nextId && r.limit == s.limit && r.fragments == s.fragments
      && (forall k | k in s.tasks && k != id :: r.tasks[k] == s.tasks[k])
      && (forall k | k in s.active && k != id :: k in r.active && r.active[k] == s.active[k])
      && (id in s.tasks ==>
            && r.tasks[id] == s.tasks[id].(path := if path != "" then path else s.tasks[id].path, status := FinishStatus(rc))
            && r.log == s.log + [StatusChanged(r.tasks[id])])
      && (id !in s.tasks ==> r == s.(active := s.active - {id}))
  {
  }

  /**
   * `_on_canceled`'s locked part, likewise: only its own record becomes
   * "Отменено", announced once; without a record nothing but the slot changes.
   */
  lemma AbortCases(s: Sched, id: int)
    ensures var r := Abort(s, id);
      && r.queue == s.queue && r.tasks.Keys == s.tasks.Keys
      && r.nextId == s.nextId && r.limit == s.limit && r.fragments == s.fragments
      && (forall k | k in s.tasks && k != id :: r.tasks[k] == s.tasks[k])
      && (forall k | k in s.active && k != id :: k in r.active && r.active[k] == s.active[k])
      && (id in s.tasks ==>
            && r.tasks[id] == s.tasks[id].(status := CanceledActive)
            && r.log == s.log + [StatusChanged(r.tasks[id])])
      && (id !in s.tasks ==> r == s.(active := s.active - {id}))
  {
  }

  /** `_on_paused`, likewise, and it does not admit. */
  lemma OnPausedCases(s: Sched, id: int)
    ensures var r := OnPaused(s, id);
      && r.queue == s.queue && r.tasks.Keys == s.tasks.Keys
      && r.nextId == s.nextId && r.limit == s.limit && r.fragments == s.fragments
      && (forall k | k in s.tasks && k != id :: r.tasks[k] == s.tasks[k])
      && (forall k | k in s.active && k != id :: k in r.active && r.active[k] == s.active[k])
      && (id in s.tasks ==> r.tasks[id] == s.tasks[id].(status := Paused))
      && (id !in s.tasks ==> r == s.(active := s.active - {id}))
  {
  }

  // ---------- the concurrency bound ----------

  predicate WithinLimit(s: Sched) {
    |s.active| <= s.limit
  }

  lemma RemoveKeyCard(m: map<int, WorkerSpec>, id: int)
    ensures |m - {id}| <= |m|
  {
    assert (m - {id}).Keys <= m.Keys;
    assert |(m - {id}).Keys| <= |m.Keys| by {
      SubsetCard((m - {id}).Keys, m.Keys);
    }
  }

  lemma SubsetCard(a: set<int>, b: set<int>)
    requires a <= b
    ensures |a| <= |b|
  {
    assert b == a + (b - a);
  }

  /**
   * No command takes the number of active tasks over the limit; a new limit
   * is kept to when it is no lower than what is running, since nothing is
   * ever evicted.
   */
  lemma CommandsKeepLimit(s: Sched, id: int, n: int, url: string, outDir: string,
                          title: string, height: Option<int>, priority: bool)
    requires Valid(s) && WithinLimit(s)
    ensures WithinLimit(Enqueue(s, url, outDir, title, height, priority))
    ensures WithinLimit(Cancel(s, id)) && WithinLimit(Pause(s, id)) && WithinLimit(Resume(s, id))
    ensures ClampLimit(n) >= |s.active| ==> WithinLimit(SetLimit(s, n))
  {
    EnqueueKeepsLimit(s, url, outDir, title, height, priority);
    CancelCases(s, id);
    ResumeKeepsLimit(s, id);
    SetLimitKeepsLimit(s, n);
  }

  lemma EnqueueKeepsLimit(s: Sched, url: string, outDir: string, title: string, height: Option<int>, priority: bool)
    requires WithinLimit(s)
    ensures WithinLimit(Enqueue(s, url, outDir, title, height, priority))
  {
    var a := AddTask(s, url, outDir, title, height, priority);
    assert a.active == s.active && a.limit == s.limit;
    AdmitBounds(a);
  }

  lemma ResumeKeepsLimit(s: Sched, id: int)
    requires WithinLimit(s)
    ensures WithinLimit(Resume(s, id))
  {
    if id in s.tasks {
      var q := Requeue(s, id);
      assert q.active == s.active && q.limit == s.limit;
      AdmitBounds(q);
      assert Resume(s, id) == Admit(q);
    }
  }

  lemma SetLimitKeepsLimit(s: Sched, n: int)
    ensures ClampLimit(n) >= |s.active| ==> WithinLimit(SetLimit(s, n))
  {
    var s1 := s.(limit := ClampLimit(n));
    AdmitBounds(s1);
    assert SetLimit(s, n) == Admit(s1);
  }

  /** Outcome handlers only release slots, and the admission that follows keeps to the limit. */
  lemma OutcomesKeepLimit(s: Sched, id: int, rc: int, path: string)
    requires WithinLimit(s)
    ensures WithinLimit(OnPaused(s, id)) && WithinLimit(OnFinished(s, id, rc, path)) && WithinLimit(OnCanceled(s, id))
  {
    RemoveKeyCard(s.active, id);
    ReleaseKeepsLimit(s, Finish(s, id, rc, path), id);
    ReleaseKeepsLimit(s, Abort(s, id), id);
  }

  lemma ReleaseKeepsLimit(s: Sched, f: Sched, id: int)
    requires WithinLimit(s) && f.active == s.active - {id} && f.limit == s.limit
    ensures WithinLimit(Admit(f))
  {
    RemoveKeyCard(s.active, id);
    AdmitBounds(f);
  }

  /** With a slot free and a single id waiting, admission pops that id and stops. */
  lemma AdmitLast(s: Sched)
    requires |s.active| < s.limit && |s.queue| == 1
    ensures Admit(s) == AdmitOne(s)
  {
    var s1 := AdmitOne(s);
    assert s1.queue == [];
    assert Admit(s) == Admit(s1);
  }

  /** Popping a known id marks it downloading and gives it a slot. */
  lemma AdmitOneStarts(s: Sched)
    requires s.queue != [] && s.queue[0] in s.tasks
    ensures var r := AdmitOne(s);
      && r.active.Keys == s.active.Keys + {s.queue[0]}
      && s.queue[0] in r.tasks && r.tasks[s.queue[0]].status == Downloading
  {
  }

  /** A task enqueued while a slot is free and nothing waits starts at once. */
  lemma EnqueueIntoFreeSlot(s: Sched, url: string, outDir: string, title: string, height: Option<int>, priority: bool)
    requires s.queue == [] && |s.active| < s.limit && s.nextId !in s.active
    ensures var r := Enqueue(s, url, outDir, title, height, priority);
      r.queue == [] && r.active.Keys == s.active.Keys + {s.nextId} && r.tasks[s.nextId].status == Downloading
  {
    var a := AddTask(s, url, outDir, title, height, priority);
    assert a.queue == [s.nextId] && a.active == s.active && a.limit == s.limit && s.nextId in a.tasks;
    AdmitLast(a);
    AdmitOneStarts(a);
  }

  /** A task enqueued while every slot is taken only joins the queue. */
  lemma EnqueueIntoFullSlots(s: Sched, url: string, outDir: string, title: string, height: Option<int>, priority: bool)
    requires |s.active| >= s.limit
    ensures var r := Enqueue(s, url, outDir, title, height, priority);
      && r.active == s.active
      && r.queue == (if priority then [s.nextId] + s.queue else s.queue + [s.nextId])
  {
    var a := AddTask(s, url, outDir, title, height, priority);
    assert a.active == s.active && a.limit == s.limit;
  }

  /** `Finish` releases the slot and leaves the queue, the record keys and the limit alone. */
  lemma FinishShape(s: Sched, id: int, rc: int, path: string)
    ensures var f := Finish(s, id, rc, path);
      && f.active == s.active - {id} && f.queue == s.queue
      && f.tasks.Keys == s.tasks.Keys && f.limit == s.limit
  {
  }

  /** When the only running task finishes, the task at the front of the queue takes its slot. */
  lemma FinishHandsSlotOn(s: Sched, id: int, next: int, rc: int, path: string)
    requires s.active.Keys == {id} && s.queue == [next] && next in s.tasks && s.limit == 1
    ensures var r := OnFinished(s, id, rc, path);
      r.active.Keys == {next} && r.queue == [] && r.tasks[next].status == Downloading
  {
    var f := Finish(s, id, rc, path);
    FinishShape(s, id, rc, path);
    assert f.active == map[] by { assert f.active.Keys == {}; }
    AdmitLast(f);
    AdmitOneStarts(f);
  }

  /**
   * With limit 1: enqueue A, then B with priority. A starts at once, since
   * the slot is free; B waits at the front of the queue until A finishes,
   * and is admitted then.
   */
  lemma PriorityScenario(a: string, b: string, dir: string)
    ensures var s1 := Enqueue(Init(1, 16), a, dir, "A", None, false);
      var s2 := Enqueue(s1, b, dir, "B", None, true);
      var s3 := OnFinished(s2, 1, 0, "");
      && s1.active.Keys == {1} && s1.queue == []
      && s2.active.Keys == {1} && s2.queue == [2]
      && s3.active.Keys == {2} && s3.queue == []
  {
    var s0 := Init(1, 16);
    EnqueueIntoFreeSlot(s0, a, dir, "A", None, false);
    var s1 := Enqueue(s0, a, dir, "A", None, false);
    assert |s1.active| == 1 by { assert s1.active.Keys == {1}; }
    EnqueueIntoFullSlots(s1, b, dir, "B", None, true);
    var s2 := Enqueue(s1, b, dir, "B", None, true);
    assert 2 in s2.tasks by { EnqueueFreshId(s1, b, dir, "B", None, true); }
    FinishHandsSlotOn(s2, 1, 2, 0, "");
  }



  // ---------- queue hygiene ----------

  /**
   * A tidy state holds each waiting id once and none that is running. It is
   * what `AdmitFills` needs; every operation except `resume` keeps it.
   */
  predicate Tidy(s: Sched) {
    && Valid(s) && Distinct(s.queue)
    && (forall k | k in s.queue :: k !in s.active)
  }

  lemma DistinctTail(q: seq<int>)
    requires q != [] && Distinct(q)
    ensures Distinct(q[1..]) && q[0] !in q[1..]
  {
    assert forall i | 0 <= i < |q| - 1 :: q[1..][i] == q[i + 1];
  }

  lemma DistinctCons(x: int, q: seq<int>)
    requires Distinct(q) && x !in q
    ensures Distinct([x] + q)
  {
    assert forall i | 0 < i < |q| + 1 :: ([x] + q)[i] == q[i - 1];
  }

  lemma DistinctSnoc(q: seq<int>, x: int)
    requires Distinct(q) && x !in q
    ensures Distinct(q + [x])
  {
    assert forall i | 0 <= i < |q| :: (q + [x])[i] == q[i];
  }

  /** Removing every copy of one id keeps the others distinct. */
  lemma {:induction false} RemoveAllDistinct(q: seq<int>, x: int)
    requires Distinct(q)
    ensures Distinct(RemoveAll(q, x))
    decreases |q|
  {
    if q != [] {
      DistinctTail(q);
      RemoveAllDistinct(q[1..], x);
      if q[0] != x {
        DistinctCons(q[0], RemoveAll(q[1..], x));
      }
    }
  }

  lemma AdmitOneKeepsTidy(s: Sched)
    requires s.queue != [] && Tidy(s)
    ensures Tidy(AdmitOne(s))
  {
    AdmitOneKeepsValid(s);
    DistinctTail(s.queue);
    var s1 := AdmitOne(s);
    assert s1.active.Keys <= s.active.Keys + {s.queue[0]};
  }

  lemma {:induction false} AdmitKeepsTidy(s: Sched)
    requires Tidy(s)
    ensures Tidy(Admit(s))
    decreases |s.queue|
  {
    if |s.active| < s.limit && s.queue != [] {
      AdmitOneKeepsTidy(s);
      AdmitKeepsTidy(AdmitOne(s));
      AdmitUnfold(s);
    }
  }

  /** The fresh id is neither waiting nor running, so enqueueing keeps the state tidy. */
  lemma EnqueueKeepsTidy(s: Sched, url: string, outDir: string, title: string, height: Option<int>, priority: bool)
    requires Tidy(s)
    ensures Tidy(AddTask(s, url, outDir, title, height, priority))
    ensures Tidy(Enqueue(s, url, outDir, title, height, priority))
  {
    var a := AddTask(s, url, outDir, title, height, priority);
    assert s.nextId !in s.queue && s.nextId !in s.active;
    if priority {
      DistinctCons(s.nextId, s.queue);
    } else {
      DistinctSnoc(s.queue, s.nextId);
    }
    assert Tidy(a);
    AdmitKeepsTidy(a);
  }

  /** What `AdmitFills` needs is exactly a tidy state within the limit. */
  lemma TidyAdmitFills(s: Sched)
    requires Tidy(s) && WithinLimit(s)
    ensures |Admit(s).active| == if s.limit < |s.active| + |s.queue| then s.limit else |s.active| + |s.queue|
  {
    forall i | 0 <= i < |s.queue| ensures s.queue[i] !in s.active {
      assert s.queue[i] in s.queue;
    }
    AdmitFills(s);
  }

  lemma EnqueueIsAdmit(s: Sched, url: string, outDir: string, title: string, height: Option<int>, priority: bool)
    ensures Enqueue(s, url, outDir, title, height, priority) == Admit(AddTask(s, url, outDir, title, height, priority))
  {
  }

  /** Enqueueing into a tidy state within the limit runs as many tasks as the slots and the waiting ids allow. */
  lemma EnqueueFills(s: Sched, url: string, outDir: string, title: string, height: Option<int>, priority: bool)
    requires Tidy(s) && WithinLimit(s)
    ensures var n := |s.active| + |s.queue| + 1;
      |Enqueue(s, url, outDir, title, height, priority).active| == if s.limit < n then s.limit else n
  {
    var a := AddTask(s, url, outDir, title, height, priority);
    var n := |s.active| + |s.queue| + 1;
    assert Tidy(a) by {
      EnqueueKeepsTidy(s, url, outDir, title, height, priority);
    }
    assert |a.active| + |a.queue| == n && WithinLimit(a) && a.limit == s.limit by {
      AddTaskShape(s, url, outDir, title, height, priority);
    }
    assert |Admit(a).active| == if a.limit < n then a.limit else n by {
      TidyAdmitFills(a);
    }
    EnqueueIsAdmit(s, url, outDir, title, height, priority);
  }

  lemma AddTaskShape(s: Sched, url: string, outDir: string, title: string, height: Option<int>, priority: bool)
    ensures var a := AddTask(s, url, outDir, title, height, priority);
      |a.queue| == |s.queue| + 1 && a.active == s.active && a.limit == s.limit
  {
  }

  lemma CancelKeepsTidy(s: Sched, id: int)
    requires Tidy(s)
    ensures Tidy(Cancel(s, id))
  {
    CancelCases(s, id);
    if id !in s.active && id in s.queue {
      RemoveAllDistinct(s.queue, id);
    }
  }

  lemma PauseKeepsTidy(s: Sched, id: int)
    requires Tidy(s)
    ensures Tidy(Pause(s, id))
  {
  }

  lemma SetLimitKeepsTidy(s: Sched, n: int)
    requires Tidy(s)
    ensures Tidy(SetLimit(s, n))
  {
    AdmitKeepsTidy(s.(limit := ClampLimit(n)));
  }

  /** The worker's signals keep the state tidy: they only release slots, or touch no slot. */
  lemma HandlersKeepTidy(s: Sched, id: int, rc: int, path: string, progress: int, m: Metrics)
    requires Tidy(s)
    ensures Tidy(OnPaused(s, id)) && Tidy(OnFinished(s, id, rc, path)) && Tidy(OnCanceled(s, id))
    ensures Tidy(OnProgress(s, id, progress)) && Tidy(OnMetrics(s, id, m))
  {
    OnPausedCases(s, id);
    FinishCases(s, id, rc, path);
    AbortCases(s, id);
    AdmitKeepsTidy(Finish(s, id, rc, path));
    AdmitKeepsTidy(Abort(s, id));
  }

  /**
   * `resume` is the exception: with every slot taken, resuming a running
   * task queues a running id, and resuming a waiting one queues it twice.
   */
  lemma ResumeBreaksTidy(s: Sched, id: int)
    requires Valid(s) && |s.active| >= s.limit && (id in s.active || id in s.queue)
    ensures !Tidy(Resume(s, id))
  {
    assert id in s.tasks;
    var q := Requeue(s, id);
    ResumeWhenFull(s, id);
    if id in s.active {
      RunningQueuedUntidy(q, id);
    } else {
      var j :| 0 <= j < |s.queue| && s.queue[j] == id;
      assert q.queue[0] == q.queue[j + 1];
      RepeatedUntidy(q, 0, j + 1);
    }
  }

  /** With every slot taken, `resume` of a known id is the requeue alone. */
  lemma ResumeWhenFull(s: Sched, id: int)
    requires id in s.tasks && |s.active| >= s.limit
    ensures Resume(s, id) == Requeue(s, id)
  {
    var q := Requeue(s, id);
    assert |q.active| >= q.limit;
  }

  lemma RunningQueuedUntidy(s: Sched, id: int)
    requires id in s.queue && id in s.active
    ensures !Tidy(s)
  {
  }

  lemma RepeatedUntidy(s: Sched, i: int, j: int)
    requires 0 <= i < j < |s.queue| && s.queue[i] == s.queue[j]
    ensures !Tidy(s)
  {
  }

  /**
   * With a slot free, resuming a task that is still downloading starts a
   * second worker for it: the id is popped again, a new worker start is
   * logged, and the slot is overwritten rather than added, so the running
   * count does not show the first worker.
   */
  lemma ResumeOfActiveRestarts(s: Sched, id: int)
    requires Valid(s) && id in s.active && |s.active| < s.limit
    ensures var r := Resume(s, id);
      var t := s.tasks[id].(status := Downloading);
      && |r.log| >= |s.log| + 2
      && r.log[|s.log|..|s.log| + 2] == [StatusChanged(t), WorkerStart(id, WorkerFor(t, s.fragments))]
      && id in r.active
  {
    var q := Requeue(s, id);
    AdmitUnfold(q);
    var q1 := AdmitOne(q);
    var t := s.tasks[id].(status := Downloading);
    assert q.tasks[id].(status := Downloading) == t;
    assert q1.log == s.log + [StatusChanged(t), WorkerStart(id, WorkerFor(t, s.fragments))];
    AdmitLogsPopped(q1);
    AdmitActivatesPopped(q1);
    var r := Admit(q1);
    assert r.log[..|q1.log|] == q1.log;
  }

  // ---------- slots held by a silent worker ----------

  /** Admission never takes a slot away. */
  lemma AdmitKeepsActive(s: Sched, id: int)
    requires id in s.active
    ensures id in Admit(s).active
  {
    AdmitActivatesPopped(s);
  }

  /*
   * Only an outcome for its own id frees a task's slot: every command, every
   * report and every other task's outcome leaves it active. So a worker that
   * ends without any signal holds its slot for good. The four lemmas below
   * say this operation by operation.
   */

  lemma EnqueueKeepsActive(s: Sched, id: int, url: string, outDir: string, title: string, height: Option<int>, priority: bool)
    requires id in s.active
    ensures id in Enqueue(s, url, outDir, title, height, priority).active
  {
    EnqueueIsAdmit(s, url, outDir, title, height, priority);
    AdmitKeepsActive(AddTask(s, url, outDir, title, height, priority), id);
  }

  /** Cancel and pause only ask the worker to stop, and reports touch no slot. */
  lemma RequestsKeepActive(s: Sched, id: int, k: int, progress: int, m: Metrics)
    requires Valid(s) && id in s.active
    ensures id in Cancel(s, k).active && id in Pause(s, k).active
    ensures id in OnProgress(s, k, progress).active && id in OnMetrics(s, k, m).active
  {
    CancelCases(s, k);
  }

  lemma ResumeAndLimitKeepActive(s: Sched, id: int, k: int, n: int)
    requires id in s.active
    ensures id in Resume(s, k).active && id in SetLimit(s, n).active
  {
    if k in s.tasks {
      AdmitKeepsActive(Requeue(s, k), id);
    }
    AdmitKeepsActive(s.(limit := ClampLimit(n)), id);
  }

  lemma OtherOutcomesKeepActive(s: Sched, id: int, k: int, rc: int, path: string)
    requires id in s.active && k != id
    ensures id in OnPaused(s, k).active
    ensures id in OnFinished(s, k, rc, path).active && id in OnCanceled(s, k).active
  {
    FinishCases(s, k, rc, path);
    AdmitKeepsActive(Finish(s, k, rc, path), id);
    AbortCases(s, k);
    AdmitKeepsActive(Abort(s, k), id);
  }
}
