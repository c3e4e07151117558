/** The job system as its atomic steps: submitting, a worker taking a task, a worker finishing one, waiting
    and shutting down. Any interleaving of submitters and workers is a sequence of these steps. */
module JobSystems {
  import opened Sequences

  const INVALID_BATCH: nat := 0

  /** `serial` tells accepted tasks apart. */
  datatype QueuedTask = QueuedTask(serial: nat, batchId: nat)

  /** A worker and what it is running. */
  datatype Hand = Hand(worker: nat, task: QueuedTask)

  function TasksOf(hands: seq<Hand>): (tasks: seq<QueuedTask>)
    ensures |tasks| == |hands| && forall i :: 0 <= i < |hands| ==> tasks[i] == hands[i].task
  {
    seq(|hands|, i requires 0 <= i < |hands| => hands[i].task)
  }

  /** How many of the tasks belong to a batch. */
  function Count(tasks: seq<QueuedTask>, batch: nat): nat {
    if tasks == [] then 0 else
    Count(tasks[..|tasks| - 1], batch) + if tasks[|tasks| - 1].batchId == batch then 1 else 0
  }

  lemma {:induction false} CountConcat(a: seq<QueuedTask>, b: seq<QueuedTask>, batch: nat)
    ensures Count(a + b, batch) == Count(a, batch) + Count(b, batch)
  {
    if b == [] {
      assert a + b == a;
    } else {
      CountConcat(a, b[..|b| - 1], batch);
      assert (a + b)[..|a + b| - 1] == a + b[..|b| - 1];
    }
  }

  lemma CountWithout(tasks: seq<QueuedTask>, i: nat, batch: nat)
    requires i < |tasks|
    ensures Count(tasks, batch) ==
            Count(tasks[..i] + tasks[i + 1..], batch) + if tasks[i].batchId == batch then 1 else 0
  {
    assert tasks == (tasks[..i] + [tasks[i]]) + tasks[i + 1..];
    CountConcat(tasks[..i] + [tasks[i]], tasks[i + 1..], batch);
    CountConcat(tasks[..i], [tasks[i]], batch);
    CountConcat(tasks[..i], tasks[i + 1..], batch);
    CountOne(tasks[i], batch);
  }

  lemma CountOne(task: QueuedTask, batch: nat)
    ensures Count([task], batch) == if task.batchId == batch then 1 else 0
  {
    assert [task][..0] == [];
  }

  lemma {:induction false} CountZero(tasks: seq<QueuedTask>, batch: nat)
    ensures Count(tasks, batch) == 0 <==> forall i :: 0 <= i < |tasks| ==> tasks[i].batchId != batch
  {
    if tasks != [] {
      CountZero(tasks[..|tasks| - 1], batch);
      assert forall i :: 0 <= i < |tasks| - 1 ==> tasks[i] == tasks[..|tasks| - 1][i];
    }
  }

  lemma {:induction false} CountAll(tasks: seq<QueuedTask>, batch: nat)
    requires forall i :: 0 <= i < |tasks| ==> tasks[i].batchId == batch
    ensures Count(tasks, batch) == |tasks|
  {
    if tasks != [] {
      CountAll(tasks[..|tasks| - 1], batch);
    }
  }

  /** The count of every pending batch is that of its tasks queued or running, and no batch without such
      tasks is pending. */
  ghost predicate CountsOk(pendingBatches: map<nat, nat>, outstanding: seq<QueuedTask>) {
    && (forall b :: b in pendingBatches ==> pendingBatches[b] == Count(outstanding, b) > 0)
    && (forall b :: b !in pendingBatches ==> Count(outstanding, b) == 0)
  }

  /** Every accepted task is queued, running or has run, exactly once each, and its serial is its position. */
  ghost predicate TasksOk(accepted: seq<QueuedTask>, outstanding: seq<QueuedTask>, ran: seq<QueuedTask>, nextBatchId: nat) {
    && (forall i :: 0 <= i < |accepted| ==> accepted[i].serial == i && accepted[i].batchId < nextBatchId)
    && multiset(accepted) == multiset(outstanding) + multiset(ran)
  }

  predicate Busy(hands: seq<Hand>, worker: nat) {
    exists i :: 0 <= i < |hands| && hands[i].worker == worker
  }

  /** A worker runs one task at a time, and none once it has returned. */
  ghost predicate HandsOk(hands: seq<Hand>, exited: set<nat>, workers: nat) {
    && (forall w :: w in exited ==> w < workers && !Busy(hands, w))
    && (forall i :: 0 <= i < |hands| ==> hands[i].worker < workers)
    && (forall i, j :: 0 <= i < j < |hands| ==> hands[i].worker != hands[j].worker)
  }

  class JobSystem {
    const workers: nat
    var queue: seq<QueuedTask>
    var pendingBatches: map<nat, nat>
    var nextBatchId: nat
    var nextSerial: nat
    var running: bool
    var hands: seq<Hand>        // the workers that are running a task
    var exited: set<nat>        // the workers that returned

    ghost var accepted: seq<QueuedTask>
    ghost var ran: seq<QueuedTask>

    ghost function Outstanding(): seq<QueuedTask>
      reads this
    {
      TasksOf(hands) + queue
    }

    ghost predicate Valid()
      reads this
    {
      && workers > 0 && nextBatchId > INVALID_BATCH && nextSerial == |accepted|
      && CountsOk(pendingBatches, Outstanding())
      && (forall b :: b in pendingBatches ==> INVALID_BATCH < b < nextBatchId)
      && TasksOk(accepted, Outstanding(), ran, nextBatchId)
      && HandsOk(hands, exited, workers)
      && (exited != {} ==> !running && queue == [])
    }

    constructor (workers: nat)
      requires workers > 0
      ensures Valid() && running && accepted == [] && ran == [] && exited == {}
    {
      this.workers := workers;
      queue, pendingBatches, nextBatchId, nextSerial, running := [], map[], 1, 0, true;
      hands, exited, accepted, ran := [], {}, [], [];
    }

    /** Queues `count` tasks as one batch, unless there are none or the system was shut down. */
    method Submit(count: nat) returns (batch: nat)
      requires Valid()
      modifies this`queue, this`pendingBatches, this`nextBatchId, this`nextSerial, this`accepted
      ensures Valid() && old(accepted) <= accepted
      ensures batch != INVALID_BATCH <==> count > 0 && running
      ensures batch == INVALID_BATCH ==>
                accepted == old(accepted) && queue == old(queue) && pendingBatches == old(pendingBatches)
      ensures batch != INVALID_BATCH ==>
                && |accepted| == |old(accepted)| + count
                && (forall i :: |old(accepted)| <= i < |accepted| ==> accepted[i].batchId == batch)
                && queue == old(queue) + accepted[|old(accepted)|..]
      ensures batch != INVALID_BATCH ==> batch !in old(pendingBatches) && pendingBatches == old(pendingBatches)[batch := count]
    {
      hide CountsOk;
      hide TasksOk;
      hide HandsOk;
      if count == 0 || !running {
        return INVALID_BATCH;
      }
      batch := nextBatchId;
      ghost var outstanding := Outstanding();
      var tasks := MakeTasks(count, batch, nextSerial);
      SubmittedOk(pendingBatches, outstanding, tasks, batch, accepted, ran);
      nextBatchId := nextBatchId + 1;
      nextSerial := nextSerial + count;
      pendingBatches := pendingBatches[batch := count];
      queue := queue + tasks;
      accepted := accepted + tasks;
      assert Outstanding() == outstanding + tasks;
    }

    /** A worker that was waiting goes on: it takes the first task, or returns once the system is shut down
        and the queue is empty. */
    method Take(worker: nat)
      requires Valid() && worker < workers && worker !in exited && !Busy(hands, worker)
      requires !running || queue != []
      modifies this`queue, this`hands, this`exited
      ensures Valid() && Outstanding() == old(Outstanding())
      ensures old(queue) == [] ==> exited == old(exited) + {worker} && hands == old(hands) && queue == []
      ensures old(queue) != [] ==>
                exited == old(exited) && hands == old(hands) + [Hand(worker, old(queue)[0])] && queue == old(queue)[1..]
    {
      hide CountsOk;
      hide TasksOk;
      hide HandsOk;
      if queue == [] {
        WorkerReturned(hands, exited, workers, worker);
        exited := exited + {worker};
      } else {
        HandFilled(hands, exited, workers, worker, queue);
        hands := hands + [Hand(worker, queue[0])];
        queue := queue[1..];
      }
    }

    /** A worker has run its task: the batch has one task less to wait for. */
    method Finish(i: nat)
      requires Valid() && i < |hands|
      modifies this`hands, this`pendingBatches, this`ran
      ensures Valid()
      ensures ran == old(ran) + [old(hands)[i].task] && hands == old(hands)[..i] + old(hands)[i + 1..]
    {
      hide CountsOk;
      hide TasksOk;
      hide HandsOk;
      var task := hands[i].task;
      FinishedCounts(pendingBatches, Outstanding(), i);
      FinishedTasks(accepted, Outstanding(), ran, nextBatchId, i);
      HandEmptied(hands, exited, workers, queue, i);
      Discharge(task.batchId);
      hands := hands[..i] + hands[i + 1..];
      ran := ran + [task];
    }

    /** The count of the batch goes down, and the batch goes when it reaches zero. */
    method Discharge(batch: nat)
      modifies this`pendingBatches
      ensures pendingBatches == Discharged(old(pendingBatches), batch)
    {
      if batch in pendingBatches {
        if pendingBatches[batch] == 1 {
          pendingBatches := pendingBatches - {batch};
        } else {
          pendingBatches := pendingBatches[batch := OneLess(pendingBatches[batch])];
        }
      }
    }

    /** The condition a wait returns on: the batch is pending no more, so every task of it has run. */
    lemma WaitReturns(batch: nat)
      requires Valid() && batch !in pendingBatches
      ensures forall i :: 0 <= i < |accepted| && accepted[i].batchId == batch ==> accepted[i] in ran
    {
      hide HandsOk;
      CountZero(Outstanding(), batch);
      forall i | 0 <= i < |accepted| && accepted[i].batchId == batch ensures accepted[i] in ran {
        assert accepted[i] in multiset(accepted);
        assert accepted[i] !in multiset(Outstanding());
      }
    }

    /** No task runs twice. */
    lemma RanOnce(i: nat, j: nat)
      requires Valid() && i < j < |ran|
      ensures ran[i] != ran[j]
    {
      hide CountsOk;
      hide HandsOk;
      SerialsOnce(accepted, ran[i]);
      if ran[i] == ran[j] {
        TwiceIn(ran, i, j);
      }
    }

    /** Waiting: workers go on in any order and at the same time, with others submitting in between, until
        the batch is done. */
    method Wait(batch: nat, arrivals: seq<nat>)
      requires Valid() && batch < nextBatchId
      modifies this
      ensures Valid() && old(accepted) <= accepted
      ensures batch !in pendingBatches
      ensures forall i :: 0 <= i < |accepted| && accepted[i].batchId == batch ==> accepted[i] in ran
    {
      hide CountsOk;
      hide TasksOk;
      hide HandsOk;
      var coming := arrivals;
      while batch in pendingBatches
        invariant Valid() && old(accepted) <= accepted
        decreases |coming|, 2 * |queue| + |hands|, |Below(workers) - exited|
      {
        var arrives: bool := *;
        if coming != [] && arrives {
          var _ := Submit(coming[0]);
          coming := coming[1..];
        } else {
          SomethingOutstanding(batch);
          WorkerStep();
        }
      }
      WaitReturns(batch);
    }

    /** Some worker goes on: one that is running a task finishes it, or an idle one takes a task or returns.
        Which one is up to the scheduler. */
    method WorkerStep()
      requires Valid() && (hands != [] || queue != [] || (!running && exists w: nat :: w < workers && w !in exited))
      modifies this
      ensures Valid() && old(accepted) == accepted && running == old(running)
      ensures Less(old(queue), old(hands), old(exited))
    {
      hide CountsOk;
      hide TasksOk;
      hide HandsOk;
      hide JobSystem.Valid;
      hide JobSystem.Outstanding;
      var worker: nat := *;
      if worker < workers && worker !in exited && !Busy(hands, worker) && (!running || queue != []) {
        StillWorking(worker);
        Take(worker);
      } else if hands != [] {
        var i: nat :| i < |hands|;
        Finish(i);
      } else {
        Idle();
        var other: nat :| other < workers && other !in exited;
        StillWorking(other);
        Take(other);
      }
    }

    /** A step closer to the end: less to do, or as much with fewer workers left. */
    ghost predicate Less(queue0: seq<QueuedTask>, hands0: seq<Hand>, exited0: set<nat>)
      reads this
    {
      || 2 * |queue| + |hands| < 2 * |queue0| + |hands0|
      || (2 * |queue| + |hands| == 2 * |queue0| + |hands0|
          && |Below(workers) - exited| < |Below(workers) - exited0|)
    }

    lemma Idle()
      requires Valid() && (queue != [] || exists w: nat :: w < workers && w !in exited)
      ensures exists w: nat :: w < workers && w !in exited
    {
      if queue != [] {
        assert 0 !in exited;
      }
    }

    lemma StillWorking(worker: nat)
      requires worker < workers && worker !in exited
      ensures |Below(workers) - (exited + {worker})| < |Below(workers) - exited|
    {
      assert Below(workers) - exited == (Below(workers) - (exited + {worker})) + {worker};
    }

    /** As long as a batch is pending, some worker can go on. */
    lemma SomethingOutstanding(batch: nat)
      requires Valid() && batch in pendingBatches
      ensures hands != [] || queue != []
    {
      CountZero(Outstanding(), batch);
    }

    /** Stops taking new tasks and waits until every worker has returned. */
    method Shutdown()
      requires Valid()
      modifies this
      ensures Valid() && !running && accepted == old(accepted)
      ensures multiset(ran) == multiset(accepted) && queue == [] && hands == []
    {
      hide CountsOk;
      hide TasksOk;
      hide HandsOk;
      running := false;
      while exists w: nat :: w < workers && w !in exited
        invariant Valid() && !running && accepted == old(accepted)
        decreases 2 * |queue| + |hands|, |Below(workers) - exited|
      {
        WorkerStep();
      }
      AllReturned();
    }

    /** Once every worker has returned, nothing is queued, nothing is running, and everything accepted has run. */
    lemma AllReturned()
      requires Valid() && forall w: nat :: w < workers ==> w in exited
      ensures queue == [] && hands == [] && multiset(ran) == multiset(accepted)
    {
      hide CountsOk;
      assert 0 in exited;
      assert hands != [] ==> Busy(hands, hands[0].worker);
    }
  }

  method MakeTasks(count: nat, batch: nat, first: nat) returns (tasks: seq<QueuedTask>)
    ensures |tasks| == count && forall i :: 0 <= i < count ==> tasks[i] == QueuedTask(first + i, batch)
  {
    tasks := [];
    for k := 0 to count
      invariant |tasks| == k && forall i :: 0 <= i < k ==> tasks[i] == QueuedTask(first + i, batch)
    {
      tasks := tasks + [QueuedTask(first + k, batch)];
    }
  }

  function OneLess(n: nat): nat {
    if n == 0 then 0 else n - 1
  }

  function Discharged(pendingBatches: map<nat, nat>, batch: nat): map<nat, nat> {
    if batch !in pendingBatches then pendingBatches
    else if pendingBatches[batch] == 1 then pendingBatches - {batch}
    else pendingBatches[batch := OneLess(pendingBatches[batch])]
  }

  ghost function Ones(condition: bool, n: nat): nat {
    if condition then n else 0
  }

  lemma AddedCount(outstanding: seq<QueuedTask>, tasks: seq<QueuedTask>, batch: nat, b: nat)
    requires forall i :: 0 <= i < |tasks| ==> tasks[i].batchId == batch
    ensures Count(outstanding + tasks, b) == Count(outstanding, b) + Ones(b == batch, |tasks|)
  {
    CountConcat(outstanding, tasks, b);
    if b == batch {
      CountAll(tasks, b);
    } else {
      CountZero(tasks, b);
    }
  }

  /** A new batch is pending with the number of its tasks. */
  lemma AddedCounts(pendingBatches: map<nat, nat>, outstanding: seq<QueuedTask>, tasks: seq<QueuedTask>, batch: nat)
    requires CountsOk(pendingBatches, outstanding) && batch !in pendingBatches && tasks != []
    requires forall i :: 0 <= i < |tasks| ==> tasks[i].batchId == batch
    ensures CountsOk(pendingBatches[batch := |tasks|], outstanding + tasks)
  {
    hide Count;
    var pending, all := pendingBatches[batch := |tasks|], outstanding + tasks;
    forall b | b in pending ensures pending[b] == Count(all, b) > 0 {
      AddedCount(outstanding, tasks, batch, b);
    }
    forall b: nat | b !in pending ensures Count(all, b) == 0 {
      AddedCount(outstanding, tasks, batch, b);
    }
  }

  lemma SubmittedOk(pendingBatches: map<nat, nat>, outstanding: seq<QueuedTask>, tasks: seq<QueuedTask>, batch: nat,
                    accepted: seq<QueuedTask>, ran: seq<QueuedTask>)
    requires CountsOk(pendingBatches, outstanding) && batch !in pendingBatches && tasks != []
    requires TasksOk(accepted, outstanding, ran, batch)
    requires forall i :: 0 <= i < |tasks| ==> tasks[i] == QueuedTask(|accepted| + i, batch)
    ensures CountsOk(pendingBatches[batch := |tasks|], outstanding + tasks)
    ensures TasksOk(accepted + tasks, outstanding + tasks, ran, batch + 1)
  {
    AddedCounts(pendingBatches, outstanding, tasks, batch);
  }

  /** A finished task leaves its batch, which is always still pending, with one less, or gone if it was the last. */
  lemma FinishedCounts(pendingBatches: map<nat, nat>, outstanding: seq<QueuedTask>, i: nat)
    requires CountsOk(pendingBatches, outstanding) && i < |outstanding|
    ensures outstanding[i].batchId in pendingBatches
    ensures CountsOk(Discharged(pendingBatches, outstanding[i].batchId), outstanding[..i] + outstanding[i + 1..])
  {
    hide Count;
    var batch, rest := outstanding[i].batchId, outstanding[..i] + outstanding[i + 1..];
    CountWithout(outstanding, i, batch);
    var pending := Discharged(pendingBatches, batch);
    forall b | b in pending ensures pending[b] == Count(rest, b) > 0 {
      CountWithout(outstanding, i, b);
    }
    forall b: nat | b !in pending ensures Count(rest, b) == 0 {
      CountWithout(outstanding, i, b);
    }
  }

  lemma FinishedTasks(accepted: seq<QueuedTask>, outstanding: seq<QueuedTask>, ran: seq<QueuedTask>, nextBatchId: nat, i: nat)
    requires TasksOk(accepted, outstanding, ran, nextBatchId) && i < |outstanding|
    ensures TasksOk(accepted, outstanding[..i] + outstanding[i + 1..], ran + [outstanding[i]], nextBatchId)
  {
    assert outstanding == outstanding[..i] + [outstanding[i]] + outstanding[i + 1..];
  }

  lemma WorkerReturned(hands: seq<Hand>, exited: set<nat>, workers: nat, worker: nat)
    requires HandsOk(hands, exited, workers) && worker < workers && worker !in exited && !Busy(hands, worker)
    ensures HandsOk(hands, exited + {worker}, workers)
  {
  }

  /** Taking the first task changes neither which tasks are outstanding nor their order. */
  lemma HandFilled(hands: seq<Hand>, exited: set<nat>, workers: nat, worker: nat, queue: seq<QueuedTask>)
    requires HandsOk(hands, exited, workers) && worker < workers && worker !in exited && !Busy(hands, worker) && queue != []
    ensures HandsOk(hands + [Hand(worker, queue[0])], exited, workers)
    ensures TasksOf(hands + [Hand(worker, queue[0])]) + queue[1..] == TasksOf(hands) + queue
  {
    var filled := hands + [Hand(worker, queue[0])];
    forall w | w in exited ensures !Busy(filled, w) {
      assert !Busy(hands, w);
    }
    assert TasksOf(filled) == TasksOf(hands) + [queue[0]];
  }

  lemma HandEmptied(hands: seq<Hand>, exited: set<nat>, workers: nat, queue: seq<QueuedTask>, i: nat)
    requires HandsOk(hands, exited, workers) && i < |hands|
    ensures HandsOk(hands[..i] + hands[i + 1..], exited, workers)
    ensures var outstanding := TasksOf(hands) + queue;
            TasksOf(hands[..i] + hands[i + 1..]) + queue == outstanding[..i] + outstanding[i + 1..]
  {
    var left := hands[..i] + hands[i + 1..];
    forall w | w in exited ensures !Busy(left, w) {
      assert !Busy(hands, w);
    }
  }

  lemma SerialsOnce(accepted: seq<QueuedTask>, task: QueuedTask)
    requires forall i :: 0 <= i < |accepted| ==> accepted[i].serial == i
    ensures multiset(accepted)[task] <= 1
  {
    if task in accepted {
      var k := task.serial;
      assert accepted == accepted[..k] + [task] + accepted[k + 1..];
    }
  }

  lemma TwiceIn(s: seq<QueuedTask>, i: nat, j: nat)
    requires i < j < |s| && s[i] == s[j]
    ensures multiset(s)[s[i]] >= 2
  {
    assert s == s[..i] + [s[i]] + s[i + 1..j] + [s[j]] + s[j + 1..];
  }
}
