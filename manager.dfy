/**
 * `DownloadManager` (workers.py:279-403) as an object whose fields the
 * methods update in place. Each method is proved to leave the object in
 * the state the matching step function of `Scheduler` computes from the
 * old state, so every property proved there holds of the object.
 */
module Manager {
  import opened Options
  import opened TaskStatus
  import opened WorkerOutput
  import opened Scheduler

  class DownloadManager {
    var tasks: map<int, Task>
    var queue: seq<int>
    var active: map<int, WorkerSpec>
    var nextId: int
    var maxConcurrent: int
    var concurrentFragments: int
    /** The signals emitted and the requests sent to workers, oldest first. */
    var log: seq<Event>

    /** The object's fields as one value. */
    function State(): Sched
      reads this
    {
      Sched(tasks, queue, active, nextId, maxConcurrent, concurrentFragments, log)
    }

    /** `__init__` (workers.py:285-293). */
    constructor (maxConcurrent: int, concurrentFragments: int)
      ensures State() == Init(maxConcurrent, concurrentFragments)
      ensures Valid(State())
    {
      tasks := map[];
      queue := [];
      active := map[];
      nextId := 1;
      this.maxConcurrent := ClampLimit(maxConcurrent);
      this.concurrentFragments := concurrentFragments;
      log := [];
    }

    /** `_try_start_more` (workers.py:343-359): pop and start until the limit or the end of the queue. */
    method TryStartMore()
      modifies this
      ensures State() == Admit(old(State()))
    {
      while |active| < maxConcurrent && queue != []
        invariant Admit(State()) == Admit(old(State()))
        decreases |queue|
      {
        ghost var before := State();
        var tid := queue[0];
        queue := queue[1..];
        if tid in tasks {
          var t := tasks[tid].(status := Downloading);
          var w := WorkerFor(t, concurrentFragments);
          active := active[tid := w];
          tasks := tasks[tid := t];
          log := log + [StatusChanged(t), WorkerStart(tid, w)];
        }
        assert State() == AdmitOne(before);
      }
    }

    /** `set_max_concurrent` (workers.py:295-297). */
    method SetMaxConcurrent(n: int)
      requires Valid(State())
      modifies this
      ensures State() == SetLimit(old(State()), n)
      ensures Valid(State())
    {
      maxConcurrent := ClampLimit(n);
      TryStartMore();
    }

    /** `enqueue` (workers.py:299-312); the id handed out is the old `nextId`. */
    method Enqueue(url: string, outDir: string, title: string, height: Option<int>, priority: bool) returns (tid: int)
      requires Valid(State())
      modifies this
      ensures tid == old(nextId)
      ensures State() == Scheduler.Enqueue(old(State()), url, outDir, title, height, priority)
      ensures Valid(State())
    {
      tid := nextId;
      nextId := nextId + 1;
      var t := NewTask(tid, url, outDir, title, height);
      tasks := tasks[tid := t];
      if priority {
        queue := [tid] + queue;
      } else {
        queue := queue + [tid];
      }
      log := log + [TaskAdded(t)];
      assert State() == AddTask(old(State()), url, outDir, title, height, priority);
      TryStartMore();
    }

    /** `cancel` (workers.py:314-324). */
    method Cancel(id: int)
      requires Valid(State())
      modifies this
      ensures State() == Scheduler.Cancel(old(State()), id)
      ensures Valid(State())
    {
      if id in active {
        tasks := tasks[id := tasks[id].(status := Canceling)];
        log := log + [WorkerCancel(id)];
      } else if id in queue {
        queue := RemoveAll(queue, id);
        var t := tasks[id].(status := Canceled);
        tasks := tasks[id := t];
        log := log + [StatusChanged(t)];
      }
    }

    /** `pause` (workers.py:326-331). */
    method Pause(id: int)
      requires Valid(State())
      modifies this
      ensures State() == Scheduler.Pause(old(State()), id)
      ensures Valid(State())
    {
      if id in active {
        tasks := tasks[id := tasks[id].(status := Paused)];
        log := log + [WorkerPause(id)];
      }
    }

    /** `resume` (workers.py:333-340). */
    method Resume(id: int)
      requires Valid(State())
      modifies this
      ensures State() == Scheduler.Resume(old(State()), id)
      ensures Valid(State())
    {
      if id !in tasks {
        return;
      }
      queue := [id] + queue;
      tasks := tasks[id := tasks[id].(status := Queued)];
      assert State() == Requeue(old(State()), id);
      TryStartMore();
    }

    /** `_on_paused` (workers.py:361-368). */
    method OnPaused(id: int)
      requires Valid(State())
      modifies this
      ensures State() == Scheduler.OnPaused(old(State()), id)
      ensures Valid(State())
    {
      if id in tasks {
        var t := tasks[id].(status := Paused);
        tasks := tasks[id := t];
        active := active - {id};
        log := log + [StatusChanged(t)];
      } else {
        active := active - {id};
      }
    }

    /** `_on_progress` (workers.py:371-375). */
    method OnProgress(id: int, progress: int)
      requires Valid(State())
      modifies this
      ensures State() == Scheduler.OnProgress(old(State()), id, progress)
      ensures Valid(State())
    {
      if id in tasks {
        tasks := tasks[id := tasks[id].(progress := progress)];
      }
      log := log + [TaskProgress(id, progress)];
    }

    /** `_on_metrics` (workers.py:377-382). */
    method OnMetrics(id: int, m: Metrics)
      requires Valid(State())
      modifies this
      ensures State() == Scheduler.OnMetrics(old(State()), id, m)
      ensures Valid(State())
    {
      if id in tasks {
        tasks := tasks[id := tasks[id].(metrics := Some(m))];
      }
      log := log + [TaskMetrics(id, m)];
    }

    /** `_on_finished` (workers.py:384-393). */
    method OnFinished(id: int, rc: int, path: string)
      requires Valid(State())
      modifies this
      ensures State() == Scheduler.OnFinished(old(State()), id, rc, path)
      ensures Valid(State())
    {
      if id in tasks {
        var t0 := tasks[id];
        var t := t0.(path := if path != "" then path else t0.path, status := FinishStatus(rc));
        tasks := tasks[id := t];
        active := active - {id};
        log := log + [StatusChanged(t)];
      } else {
        active := active - {id};
      }
      assert State() == Finish(old(State()), id, rc, path);
      TryStartMore();
    }

    /** `_on_canceled` (workers.py:395-403). */
    method OnCanceled(id: int)
      requires Valid(State())
      modifies this
      ensures State() == Scheduler.OnCanceled(old(State()), id)
      ensures Valid(State())
    {
      if id in tasks {
        var t := tasks[id].(status := CanceledActive);
        tasks := tasks[id := t];
        active := active - {id};
        log := log + [StatusChanged(t)];
      } else {
        active := active - {id};
      }
      assert State() == Abort(old(State()), id);
      TryStartMore();
    }
  }
}
