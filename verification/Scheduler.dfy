/** Scheduler: the task list, submission, and the critical section in which a worker picks a task. */
module Schedulers {
  import opened Basics

  type Fiber = nat
  type Thread = int

  const ANY_THREAD: Thread := -1

  datatype Work = FiberWork(fiber: Fiber) | FuncWork(callback: nat) | Nothing

  /** `ticket` numbers the submissions; it tells equal tasks apart and no decision looks at it. */
  datatype Task = Task(work: Work, thread: Thread, ticket: nat)

  datatype Handed = Handed(task: Task, to: Thread)

  predicate Elsewhere(t: Task, self: Thread) {
    t.thread != ANY_THREAD && t.thread != self
  }

  predicate Running(t: Task, running: set<Fiber>) {
    t.work.FiberWork? && t.work.fiber in running
  }

  /** This thread may run it and it is not a fiber some thread is executing. */
  predicate Eligible(t: Task, self: Thread, running: set<Fiber>) {
    !Elsewhere(t, self) && !Running(t, running)
  }

  /** Two callbacks pinned alike: whoever may take one may take the other. */
  predicate Alike(a: Task, b: Task) {
    a.work.FuncWork? && b.work.FuncWork? && a.thread == b.thread
  }

  function TasksOf(hs: seq<Handed>): (ts: seq<Task>)
    ensures |ts| == |hs| && forall i | 0 <= i < |hs| :: ts[i] == hs[i].task
  {
    seq(|hs|, i requires 0 <= i < |hs| => hs[i].task)
  }

  lemma MoveOne(ts: seq<Task>, k: nat, hs: seq<Handed>, h: Handed)
    requires k < |ts| && h.task == ts[k]
    ensures multiset(Removed(ts, k)) + multiset(TasksOf(hs + [h])) == multiset(ts) + multiset(TasksOf(hs))
  {
    assert ts == ts[..k] + [ts[k]] + ts[k + 1..];
    assert TasksOf(hs + [h]) == TasksOf(hs) + [h.task];
  }

  /** Queued tasks are in submission order and none of them was handed out. */
  ghost predicate Ordered(tasks: seq<Task>, handed: seq<Handed>, n: nat) {
    && (forall i, j | 0 <= i < j < |tasks| :: tasks[i].ticket < tasks[j].ticket)
    && (forall i | 0 <= i < |tasks| :: tasks[i].ticket < n && tasks[i].work != Nothing)
    && (forall i | 0 <= i < |handed| :: handed[i].task.ticket < n)
    && (forall i, j | 0 <= i < |handed| && 0 <= j < |tasks| :: handed[i].task.ticket != tasks[j].ticket)
  }

  /** No ticket was handed out twice, and each went to a thread it admits. */
  ghost predicate Once(handed: seq<Handed>) {
    && (forall i, j | 0 <= i < j < |handed| :: handed[i].task.ticket != handed[j].task.ticket)
    && (forall i | 0 <= i < |handed| :: !Elsewhere(handed[i].task, handed[i].to))
  }

  /** Callbacks pinned alike leave in submission order. */
  ghost predicate Fifo(tasks: seq<Task>, handed: seq<Handed>) {
    && (forall i, j | 0 <= i < j < |handed| && Alike(handed[i].task, handed[j].task) ::
          handed[i].task.ticket < handed[j].task.ticket)
    && (forall i, j | 0 <= i < |handed| && 0 <= j < |tasks| && Alike(handed[i].task, tasks[j]) ::
          handed[i].task.ticket < tasks[j].ticket)
  }

  ghost predicate Earliest(ts: seq<Task>, k: nat, self: Thread, running: set<Fiber>) {
    k < |ts| && Eligible(ts[k], self, running) && forall j | 0 <= j < k :: !Eligible(ts[j], self, running)
  }

  lemma TakeOrdered(ts: seq<Task>, k: nat, hs: seq<Handed>, to: Thread, n: nat)
    requires k < |ts| && Ordered(ts, hs, n) && Once(hs) && !Elsewhere(ts[k], to)
    ensures Ordered(Removed(ts, k), hs + [Handed(ts[k], to)], n) && Once(hs + [Handed(ts[k], to)])
  {
  }

  lemma TakeFifo(ts: seq<Task>, k: nat, hs: seq<Handed>, to: Thread, running: set<Fiber>, n: nat)
    requires Earliest(ts, k, to, running) && Ordered(ts, hs, n) && Fifo(ts, hs)
    ensures Fifo(Removed(ts, k), hs + [Handed(ts[k], to)])
  {
  }

  lemma AddOrdered(ts: seq<Task>, hs: seq<Handed>, t: Task)
    requires Ordered(ts, hs, t.ticket) && Fifo(ts, hs) && t.work != Nothing
    ensures Ordered(ts + [t], hs, t.ticket + 1) && Fifo(ts + [t], hs)
  {
  }

  class Scheduler {
    var tasks: seq<Task>
    var next: nat
    ghost var submitted: seq<Task>
    ghost var handed: seq<Handed>

    /** Every submission is queued or was handed out, exactly once, to a thread it admits. */
    ghost predicate Valid()
      reads this
    {
      && next == |submitted|
      && (forall i | 0 <= i < |submitted| :: submitted[i].ticket == i)
      && multiset(submitted) == multiset(tasks) + multiset(TasksOf(handed))
      && Ordered(tasks, handed, next) && Once(handed) && Fifo(tasks, handed)
    }

    constructor ()
      ensures Valid() && tasks == [] && submitted == [] && handed == []
    {
      tasks, next, submitted, handed := [], 0, [], [];
    }

    /** SubmitNoLock: an empty task is dropped; a task for an empty list asks for a notification. */
    method Submit(work: Work, thread: Thread) returns (needNotify: bool)
      requires Valid()
      modifies this
      ensures Valid() && handed == old(handed)
      ensures needNotify <==> old(tasks) == []
      ensures work == Nothing ==> tasks == old(tasks) && submitted == old(submitted)
      ensures work != Nothing ==>
                var t := Task(work, thread, |old(submitted)|);
                tasks == old(tasks) + [t] && submitted == old(submitted) + [t]
    {
      hide Ordered, Once, Fifo, TasksOf;
      needNotify := tasks == [];
      if work != Nothing {
        var t := Task(work, thread, next);
        AddOrdered(tasks, handed, t);
        assert multiset(tasks + [t]) == multiset(tasks) + multiset{t};
        assert multiset(submitted + [t]) == multiset(submitted) + multiset{t};
        tasks, next := tasks + [t], next + 1;
        submitted := submitted + [t];
      }
    }

    /** The locked section of Run: `self` takes the earliest task it may run, if any. It asks for a
        notification when it took a task or stepped over one pinned to another thread. */
    method Take(self: Thread, running: set<Fiber>) returns (task: Option<Task>, tickle: bool)
      requires Valid()
      modifies this
      ensures Valid() && submitted == old(submitted)
      ensures task.None? ==> tasks == old(tasks) && handed == old(handed)
      ensures task.None? <==> forall j | 0 <= j < |old(tasks)| :: !Eligible(old(tasks)[j], self, running)
      ensures task.Some? ==>
                && handed == old(handed) + [Handed(task.value, self)]
                && (exists k: nat :: Earliest(old(tasks), k, self, running)
                                  && task.value == old(tasks)[k] && tasks == Removed(old(tasks), k))
      ensures task.Some? ==>
                && (task.value.thread == -1 || task.value.thread == self)
                && !(task.value.work.FiberWork? && task.value.work.fiber in running)
      ensures forall j | 0 <= j < |old(tasks)| && (task.None? || old(tasks)[j].ticket < task.value.ticket) ::
                || (old(tasks)[j].thread != -1 && old(tasks)[j].thread != self)
                || (old(tasks)[j].work.FiberWork? && old(tasks)[j].work.fiber in running)
      ensures tickle <==> task.Some? || exists j :: 0 <= j < |old(tasks)| && Elsewhere(old(tasks)[j], self)
    {
      task, tickle := None, false;
      var it := 0;
      while it < |tasks|
        invariant 0 <= it <= |tasks|
        invariant Valid() && tasks == old(tasks) && submitted == old(submitted) && handed == old(handed)
        invariant task == None
        invariant forall j | 0 <= j < it :: !Eligible(tasks[j], self, running)
        invariant tickle <==> exists j :: 0 <= j < it && Elsewhere(tasks[j], self)
      {
        if tasks[it].thread != ANY_THREAD && tasks[it].thread != self {
          tickle := true;
        } else if !(tasks[it].work.FiberWork? && tasks[it].work.fiber in running) {
          task, tickle := Some(tasks[it]), true;
          Hand(it, self, running);
          return;
        }
        it := it + 1;
      }
    }

    method Hand(k: nat, self: Thread, ghost running: set<Fiber>)
      requires Valid() && Earliest(tasks, k, self, running)
      modifies this
      ensures Valid() && submitted == old(submitted) && tasks == Removed(old(tasks), k)
      ensures handed == old(handed) + [Handed(old(tasks)[k], self)]
    {
      hide Ordered, Once, Fifo;
      ghost var h := Handed(tasks[k], self);
      MoveOne(tasks, k, handed, h);
      TakeOrdered(tasks, k, handed, self, next);
      TakeFifo(tasks, k, handed, self, running, next);
      tasks := Removed(tasks, k);
      handed := handed + [h];
    }
  }
}
