/**
 * Consuming in batches: every message of a batch becomes a task of a shared worker pool, and
 * the batch returns when its wait group is down to zero. Batches and workers run concurrently;
 * an action below is one atomic step of one of them.
 */
module BatchBarrier {
  import opened Common
  import opened Counting

  /** A worker's program counter on one task: push the message, count it, report it done. */
  datatype Stage = Queued | Pushed | Counted | Finished

  datatype Work = Work(batch: nat, msg: nat, stage: Stage)

  /** `next` is the message to be submitted next, `lost` how many submissions the pool refused. */
  datatype Batch = Batch(size: nat, next: nat, lost: nat, wg: int, returned: bool)

  datatype Sys = Sys(batches: seq<Batch>, tasks: seq<Work>, pushedCount: int)

  datatype Action =
    | Begin(size: nat)
    | Invoke(b: nat)
    | InvokeFails(b: nat)
    | Push(t: nat)
    | Count(t: nat)
    | Done(t: nat)
    | Return(b: nat)

  predicate Enabled(s: Sys, a: Action) {
    match a
    case Begin(_) => true
    case Invoke(b) => b < |s.batches| && s.batches[b].next < s.batches[b].size
    case InvokeFails(b) => b < |s.batches| && s.batches[b].next < s.batches[b].size
    case Push(t) => t < |s.tasks| && s.tasks[t].stage.Queued?
    case Count(t) => t < |s.tasks| && s.tasks[t].stage.Pushed?
    case Done(t) => t < |s.tasks| && s.tasks[t].stage.Counted? && s.tasks[t].batch < |s.batches|
    case Return(b) => b < |s.batches| && !s.batches[b].returned
                      && s.batches[b].next == s.batches[b].size && s.batches[b].wg == 0
  }

  function Do(s: Sys, a: Action): Sys
    requires Enabled(s, a)
  {
    match a
    case Begin(size) => s.(batches := s.batches + [Batch(size, 0, 0, size, false)])
    case Invoke(b) =>
      var x := s.batches[b];
      s.(batches := s.batches[b := x.(next := x.next + 1)], tasks := s.tasks + [Work(b, x.next, Queued)])
    case InvokeFails(b) =>
      var x := s.batches[b];
      s.(batches := s.batches[b := x.(next := x.next + 1, lost := x.lost + 1)])
    case Push(t) => s.(tasks := s.tasks[t := s.tasks[t].(stage := Pushed)])
    case Count(t) => s.(tasks := s.tasks[t := s.tasks[t].(stage := Counted)], pushedCount := s.pushedCount + 1)
    case Done(t) =>
      var b := s.tasks[t].batch;
      s.(tasks := s.tasks[t := s.tasks[t].(stage := Finished)],
         batches := s.batches[b := s.batches[b].(wg := s.batches[b].wg - 1)])
    case Return(b) => s.(batches := s.batches[b := s.batches[b].(returned := true)])
  }

  predicate Legal(s: Sys, acts: seq<Action>)
    decreases |acts|
  {
    acts == [] || (Enabled(s, acts[0]) && Legal(Do(s, acts[0]), acts[1..]))
  }

  function Exec(s: Sys, acts: seq<Action>): Sys
    requires Legal(s, acts)
    decreases |acts|
  {
    if acts == [] then s else Exec(Do(s, acts[0]), acts[1..])
  }

  const IDLE := Sys([], [], 0)

  /** A message of a batch, with the wait group of the batch. */
  datatype Args = Args(wg: WaitGroup, msg: nat)

  class WorkPool {
    var queue: seq<Args>

    constructor ()
      ensures queue == []
    {
      queue := [];
    }

    method Invoke(wg: WaitGroup, msg: nat, refused: bool) returns (err: bool)
      modifies this
      ensures err == refused && queue == if refused then old(queue) else old(queue) + [Args(wg, msg)]
    {
      if !refused {
        queue := queue + [Args(wg, msg)];
      }
      err := refused;
    }
  }

  /** The messages below n that the pool takes, in order. */
  function Taken(n: nat, refused: set<nat>): seq<nat> {
    if n == 0 then [] else Taken(n - 1, refused) + if n - 1 in refused then [] else [n - 1]
  }

  function ArgsFor(wg: WaitGroup, msgs: seq<nat>): seq<Args> {
    seq(|msgs|, i requires 0 <= i < |msgs| => Args(wg, msgs[i]))
  }

  /** The submitting half of a batch: a refused message is logged and passed over, but was added to the wait group. */
  method Submit(pool: WorkPool, size: nat, refused: set<nat>) returns (wg: WaitGroup)
    modifies pool
    ensures fresh(wg) && wg.count == size
    ensures pool.queue == old(pool.queue) + ArgsFor(wg, Taken(size, refused))
    ensures forall i :: 0 <= i < |Taken(size, refused)| ==>
              pool.queue[|old(pool.queue)| + i] == Args(wg, Taken(size, refused)[i])
  {
    wg := new WaitGroup();
    wg.Add(size);
    var i := 0;
    while i < size
      invariant 0 <= i <= size && wg.count == size
      invariant pool.queue == old(pool.queue) + ArgsFor(wg, Taken(i, refused))
    {
      var err := pool.Invoke(wg, i, i in refused);
      i := i + 1;
    }
  }

  /** The messages are taken in ascending order, and each once. */
  lemma {:induction false} TakenInOrder(n: nat, refused: set<nat>)
    ensures forall i, j :: 0 <= i < j < |Taken(n, refused)| ==> Taken(n, refused)[i] < Taken(n, refused)[j] < n
    ensures forall i :: 0 <= i < |Taken(n, refused)| ==> Taken(n, refused)[i] < n
  {
    if n > 0 { TakenInOrder(n - 1, refused); }
  }

  lemma {:induction false} TakenExactly(n: nat, refused: set<nat>, m: nat)
    ensures m in Taken(n, refused) <==> m < n && m !in refused
  {
    if n > 0 { TakenExactly(n - 1, refused, m); }
  }

  function RefusedBelow(n: nat, refused: set<nat>): set<nat> {
    set m | m in refused && m < n
  }

  /** What is taken falls short of the wait group by the refused messages: nobody will ever report those. */
  lemma {:induction false} TakenFallsShort(n: nat, refused: set<nat>)
    ensures |Taken(n, refused)| == n - |RefusedBelow(n, refused)|
  {
    if n > 0 {
      TakenFallsShort(n - 1, refused);
      assert RefusedBelow(n, refused)
          == if n - 1 in refused then RefusedBelow(n - 1, refused) + {n - 1} else RefusedBelow(n - 1, refused);
    }
  }

  /** A goroutine of the pool at work on one message. */
  class Task {
    var stage: Stage

    constructor ()
      ensures stage == Queued
    {
      stage := Queued;
    }
  }

  /** Each step asks for the one before it: a message is pushed, then counted, and only then reported. */
  class Worker {
    const counter: Counter

    constructor (counter: Counter)
      ensures this.counter == counter
    {
      this.counter := counter;
    }

    method Push(task: Task)
      requires task.stage == Queued
      modifies task
      ensures task.stage == Pushed
    {
      task.stage := Pushed;
    }

    method Count(task: Task)
      requires task.stage == Pushed
      modifies task, counter`pushedCount
      ensures task.stage == Counted && counter.pushedCount == old(counter.pushedCount) + 1
    {
      counter.IncrPushedCount();
      task.stage := Counted;
    }

    method Report(task: Task, wg: WaitGroup)
      requires task.stage == Counted
      modifies task, wg
      ensures task.stage == Finished && wg.count == old(wg.count) - 1
    {
      wg.Done();
      task.stage := Finished;
    }

    method Work(task: Task, args: Args)
      requires task.stage == Queued
      modifies task, counter`pushedCount, args.wg
      ensures task.stage == Finished
      ensures counter.pushedCount == old(counter.pushedCount) + 1 && args.wg.count == old(args.wg.count) - 1
    {
      Push(task);
      Count(task);
      Report(task, args.wg);
    }
  }

  /** Three worker steps that nobody interrupts do to the shared state what Work does. */
  lemma UninterruptedWork(s: Sys, t: nat)
    requires t < |s.tasks| && s.tasks[t].stage.Queued? && s.tasks[t].batch < |s.batches|
    ensures Legal(s, [Push(t), Count(t), Done(t)])
    ensures var b := s.tasks[t].batch;
            var done := Sys(s.batches[b := s.batches[b].(wg := s.batches[b].wg - 1)],
                            s.tasks[t := s.tasks[t].(stage := Finished)], s.pushedCount + 1);
            Exec(s, [Push(t), Count(t), Done(t)]) == done
  {
    var s1 := Do(s, Push(t));
    var s2 := Do(s1, Count(t));
    var s3 := Do(s2, Done(t));
    assert s2.tasks[t] == s.tasks[t].(stage := Counted) && s2.batches == s.batches;
    assert s3.tasks == s.tasks[t := s.tasks[t].(stage := Finished)];
    assert [Done(t)][1..] == [];
    assert Legal(s2, [Done(t)]) && Exec(s2, [Done(t)]) == s3;
    assert [Count(t), Done(t)][1..] == [Done(t)];
    assert Legal(s1, [Count(t), Done(t)]) && Exec(s1, [Count(t), Done(t)]) == s3;
    assert [Push(t), Count(t), Done(t)][1..] == [Count(t), Done(t)];
  }

  // ---------------------------------------------------------------- the invariant

  function Worked(tasks: seq<Work>): set<nat> {
    set t | 0 <= t < |tasks| && (tasks[t].stage.Counted? || tasks[t].stage.Finished?)
  }

  /** The tasks of batch b, and those of them that are finished. */
  function TasksOf(tasks: seq<Work>, b: nat): set<nat> {
    set t | 0 <= t < |tasks| && tasks[t].batch == b
  }

  function FinishedOf(tasks: seq<Work>, b: nat): set<nat> {
    set t | 0 <= t < |tasks| && tasks[t].batch == b && tasks[t].stage.Finished?
  }

  ghost predicate BatchOk(s: Sys, b: nat)
    requires b < |s.batches|
  {
    var x := s.batches[b];
    && x.next <= x.size
    && |TasksOf(s.tasks, b)| == x.next - x.lost
    && x.wg == x.size - |FinishedOf(s.tasks, b)|
    && (x.returned ==> x.next == x.size && x.wg == 0)
  }

  ghost predicate NoMessageTwice(tasks: seq<Work>) {
    forall t, u :: 0 <= t < u < |tasks| ==> tasks[t].batch != tasks[u].batch || tasks[t].msg != tasks[u].msg
  }

  ghost predicate TasksOk(s: Sys) {
    && (forall t :: 0 <= t < |s.tasks| ==>
          s.tasks[t].batch < |s.batches| && s.tasks[t].msg < s.batches[s.tasks[t].batch].next)
    && NoMessageTwice(s.tasks)
  }

  ghost predicate Inv(s: Sys) {
    && TasksOk(s)
    && (forall b :: 0 <= b < |s.batches| ==> BatchOk(s, b))
    && s.pushedCount == |Worked(s.tasks)|
  }

  lemma InvokeKeepsBatch(s: Sys, b: nat, c: nat)
    requires c < |s.batches| && BatchOk(s, c) && Enabled(s, Invoke(b))
    ensures BatchOk(Do(s, Invoke(b)), c)
  {
    var tasks' := Do(s, Invoke(b)).tasks;
    assert FinishedOf(tasks', c) == FinishedOf(s.tasks, c);
    assert TasksOf(tasks', c) == TasksOf(s.tasks, c) + if c == b then {|s.tasks|} else {};
  }

  lemma InvokeKeeps(s: Sys, b: nat)
    requires Inv(s) && Enabled(s, Invoke(b))
    ensures Inv(Do(s, Invoke(b)))
  {
    var s' := Do(s, Invoke(b));
    assert Worked(s'.tasks) == Worked(s.tasks);
    forall c | 0 <= c < |s.batches| ensures BatchOk(s', c) { InvokeKeepsBatch(s, b, c); }
  }

  lemma BatchActionKeeps(s: Sys, a: Action)
    requires Inv(s) && Enabled(s, a) && (a.Begin? || a.InvokeFails? || a.Return?)
    ensures Inv(Do(s, a))
  {
    var s' := Do(s, a);
    forall c | 0 <= c < |s'.batches| ensures BatchOk(s', c) {
      if c < |s.batches| {
        assert BatchOk(s, c);
      } else {
        assert TasksOf(s.tasks, c) == {} && FinishedOf(s.tasks, c) == {};
      }
    }
  }

  lemma PushOrCountKeepsBatch(s: Sys, a: Action, c: nat)
    requires c < |s.batches| && BatchOk(s, c) && Enabled(s, a) && (a.Push? || a.Count?)
    ensures BatchOk(Do(s, a), c)
  {
    var tasks' := Do(s, a).tasks;
    assert TasksOf(tasks', c) == TasksOf(s.tasks, c);
    assert FinishedOf(tasks', c) == FinishedOf(s.tasks, c);
  }

  lemma PushOrCountKeeps(s: Sys, a: Action)
    requires Inv(s) && Enabled(s, a) && (a.Push? || a.Count?)
    ensures Inv(Do(s, a))
  {
    var s' := Do(s, a);
    assert s'.pushedCount == |Worked(s'.tasks)| by {
      assert Worked(s'.tasks) == if a.Count? then Worked(s.tasks) + {a.t} else Worked(s.tasks);
    }
    forall c | 0 <= c < |s.batches| ensures BatchOk(s', c) { PushOrCountKeepsBatch(s, a, c); }
  }

  /** A batch with a task still to be reported has not returned, so the wait group never goes below zero. */
  lemma ReportedBatchWaits(s: Sys, t: nat)
    requires Inv(s) && Enabled(s, Done(t))
    ensures var x := s.batches[s.tasks[t].batch];
            !x.returned && x.wg > 0
  {
    var b := s.tasks[t].batch;
    assert BatchOk(s, b);
    var done := FinishedOf(s.tasks, b);
    SubsetSize(done + {t}, TasksOf(s.tasks, b));
    assert |done + {t}| == |done| + 1;
  }

  lemma DoneKeeps(s: Sys, t: nat)
    requires Inv(s) && Enabled(s, Done(t))
    ensures Inv(Do(s, Done(t)))
  {
    var s', b := Do(s, Done(t)), s.tasks[t].batch;
    ReportedBatchWaits(s, t);
    assert Worked(s'.tasks) == Worked(s.tasks);
    forall c | 0 <= c < |s.batches| ensures BatchOk(s', c) {
      assert BatchOk(s, c);
      assert TasksOf(s'.tasks, c) == TasksOf(s.tasks, c);
      assert FinishedOf(s'.tasks, c) == if c == b then FinishedOf(s.tasks, c) + {t} else FinishedOf(s.tasks, c);
    }
  }

  lemma OneStepKeeps(s: Sys, a: Action)
    requires Inv(s) && Enabled(s, a)
    ensures Inv(Do(s, a))
  {
    if a.Invoke? {
      InvokeKeeps(s, a.b);
    } else if a.Push? || a.Count? {
      PushOrCountKeeps(s, a);
    } else if a.Done? {
      DoneKeeps(s, a.t);
    } else {
      BatchActionKeeps(s, a);
    }
  }

  lemma {:induction false} RunKeepsInv(s: Sys, acts: seq<Action>)
    requires Inv(s) && Legal(s, acts)
    ensures Inv(Exec(s, acts))
    decreases |acts|
  {
    if acts != [] {
      OneStepKeeps(s, acts[0]);
      RunKeepsInv(Do(s, acts[0]), acts[1..]);
    }
  }

  // ---------------------------------------------------------------- main results

  lemma IdleInv()
    ensures Inv(IDLE)
  {
    assert Worked([]) == {};
  }

  /** A state of some interleaving of batches and workers, from the idle pool on. */
  ghost predicate Reachable(s: Sys) {
    exists acts :: Legal(IDLE, acts) && Exec(IDLE, acts) == s
  }

  lemma ReachableInv(s: Sys)
    requires Reachable(s)
    ensures Inv(s)
  {
    var acts :| Legal(IDLE, acts) && Exec(IDLE, acts) == s;
    IdleInv();
    RunKeepsInv(IDLE, acts);
  }

  /** Task t is the one task of message m of batch b, and its work is over. */
  predicate WorkedOnce(s: Sys, b: nat, m: nat, t: nat) {
    && t < |s.tasks| && s.tasks[t] == Work(b, m, Finished)
    && forall u :: 0 <= u < |s.tasks| && s.tasks[u].batch == b && s.tasks[u].msg == m ==> u == t
  }

  /** The messages of a set of tasks of one batch are as many as the tasks. */
  function Messages(tasks: seq<Work>, ts: set<nat>): set<nat>
    requires forall t :: t in ts ==> t < |tasks|
  {
    set t | t in ts :: tasks[t].msg
  }

  lemma {:induction false} MessagesDiffer(tasks: seq<Work>, b: nat, ts: set<nat>)
    requires NoMessageTwice(tasks) && ts <= TasksOf(tasks, b)
    ensures |Messages(tasks, ts)| == |ts|
    decreases |ts|
  {
    if ts != {} {
      var t := Member(ts);
      var rest := ts - {t};
      MessagesDiffer(tasks, b, rest);
      forall u | u in rest ensures tasks[u].msg != tasks[t].msg {
        assert tasks[u].batch == tasks[t].batch == b;
      }
      assert Messages(tasks, ts) == Messages(tasks, rest) + {tasks[t].msg};
    }
  }

  /**
   * In every interleaving of batches and workers: a batch that has returned has had each of its
   * messages worked exactly once.
   */
  lemma BatchBarrierHolds(s: Sys, b: nat, m: nat) returns (t: nat)
    requires Reachable(s) && b < |s.batches| && s.batches[b].returned && m < s.batches[b].size
    ensures WorkedOnce(s, b, m, t)
  {
    ReachableInv(s);
    assert BatchOk(s, b);
    var done := FinishedOf(s.tasks, b);
    var msgs := Messages(s.tasks, done);
    MessagesDiffer(s.tasks, b, done);
    FullSubset(msgs, Below(s.batches[b].size));
    assert m in msgs;
    t :| t in done && s.tasks[t].msg == m;
  }

  function ReturnedSizes(batches: seq<Batch>): nat {
    if batches == [] then 0 else
    var last := batches[|batches| - 1];
    ReturnedSizes(batches[..|batches| - 1]) + if last.returned then last.size else 0
  }

  function FinishedBelow(tasks: seq<Work>, n: nat): set<nat> {
    set t | 0 <= t < |tasks| && tasks[t].batch < n && tasks[t].stage.Finished?
  }

  lemma {:induction false} ReturnedAreFinished(s: Sys, n: nat)
    requires Inv(s) && n <= |s.batches|
    ensures ReturnedSizes(s.batches[..n]) <= |FinishedBelow(s.tasks, n)|
  {
    if n > 0 {
      ReturnedAreFinished(s, n - 1);
      assert s.batches[..n][..n - 1] == s.batches[..n - 1];
      assert BatchOk(s, n - 1);
      assert FinishedBelow(s.tasks, n) == FinishedBelow(s.tasks, n - 1) + FinishedOf(s.tasks, n - 1);
      assert FinishedBelow(s.tasks, n - 1) !! FinishedOf(s.tasks, n - 1);
    }
  }

  lemma WorkedWithin(tasks: seq<Work>, n: nat)
    ensures |FinishedBelow(tasks, n)| <= |Worked(tasks)| <= |tasks|
  {
    SubsetSize(FinishedBelow(tasks, n), Worked(tasks));
    SubsetSize(Worked(tasks), Below(|tasks|));
  }

  /** With no reset, every message of every returned batch is already in the pushed count. */
  lemma ReturnedAreCounted(s: Sys)
    requires Reachable(s)
    ensures ReturnedSizes(s.batches) <= s.pushedCount <= |s.tasks|
  {
    ReachableInv(s);
    ReturnedAreFinished(s, |s.batches|);
    assert s.batches[..|s.batches|] == s.batches;
    WorkedWithin(s.tasks, |s.batches|);
  }

  // ---------------------------------------------------------------- a batch can return

  function StepsLeft(w: Work): nat {
    match w.stage
    case Queued => 3
    case Pushed => 2
    case Counted => 1
    case Finished => 0
  }

  /** The worker steps still to be done for batch b. */
  function WorkLeft(tasks: seq<Work>, b: nat): nat {
    if tasks == [] then 0 else
    var last := tasks[|tasks| - 1];
    WorkLeft(tasks[..|tasks| - 1], b) + if last.batch == b then StepsLeft(last) else 0
  }

  lemma {:induction false} WorkerStepReduces(tasks: seq<Work>, b: nat, t: nat, w: Work)
    requires t < |tasks| && tasks[t].batch == w.batch == b && StepsLeft(w) < StepsLeft(tasks[t])
    ensures WorkLeft(tasks[t := w], b) < WorkLeft(tasks, b)
  {
    var n := |tasks| - 1;
    if t < n {
      WorkerStepReduces(tasks[..n], b, t, w);
      assert tasks[t := w][..n] == tasks[..n][t := w];
    } else {
      assert tasks[t := w][..n] == tasks[..n];
    }
  }

  function BatchLeft(s: Sys, b: nat): nat
    requires b < |s.batches| && s.batches[b].next <= s.batches[b].size
  {
    4 * (s.batches[b].size - s.batches[b].next) + WorkLeft(s.tasks, b) + if s.batches[b].returned then 0 else 1
  }

  /** A step that brings the batch nearer to its return: submit, work, or return. */
  lemma NextUsefulStep(s: Sys, b: nat) returns (a: Action)
    requires Inv(s) && b < |s.batches| && BatchOk(s, b) && s.batches[b].lost == 0 && !s.batches[b].returned
    ensures Enabled(s, a) && Inv(Do(s, a))
    ensures var s' := Do(s, a);
            && b < |s'.batches| && BatchOk(s', b) && s'.batches[b].lost == 0
            && BatchLeft(s', b) < BatchLeft(s, b)
  {
    if s.batches[b].next < s.batches[b].size {
      a := Invoke(b);
      InvokeKeeps(s, b);
      var next := Do(s, a).tasks;
      assert next[..|s.tasks|] == s.tasks;
    } else if s.batches[b].wg == 0 {
      a := Return(b);
      BatchActionKeeps(s, a);
    } else {
      if FinishedOf(s.tasks, b) == TasksOf(s.tasks, b) { assert false; }
      var t :| t in TasksOf(s.tasks, b) && t !in FinishedOf(s.tasks, b);
      match s.tasks[t].stage
      case Queued =>
        a := Push(t);
        PushOrCountKeeps(s, a);
        WorkerStepReduces(s.tasks, b, t, s.tasks[t].(stage := Pushed));
      case Pushed =>
        a := Count(t);
        PushOrCountKeeps(s, a);
        WorkerStepReduces(s.tasks, b, t, s.tasks[t].(stage := Counted));
      case Counted =>
        a := Done(t);
        DoneKeeps(s, t);
        WorkerStepReduces(s.tasks, b, t, s.tasks[t].(stage := Finished));
    }
  }

  lemma {:induction false} CanReturn(s: Sys, b: nat) returns (acts: seq<Action>)
    requires Inv(s) && b < |s.batches| && BatchOk(s, b) && s.batches[b].lost == 0
    ensures Legal(s, acts) && b < |Exec(s, acts).batches| && Exec(s, acts).batches[b].returned
    decreases BatchLeft(s, b)
  {
    if s.batches[b].returned {
      acts := [];
    } else {
      var a := NextUsefulStep(s, b);
      var rest := CanReturn(Do(s, a), b);
      acts := [a] + rest;
      assert acts[1..] == rest;
    }
  }

  lemma {:induction false} LostStaysLost(s: Sys, b: nat, acts: seq<Action>)
    requires Inv(s) && b < |s.batches| && s.batches[b].lost > 0 && Legal(s, acts)
    ensures b < |Exec(s, acts).batches| && !Exec(s, acts).batches[b].returned
    decreases |acts|
  {
    if acts == [] {
      assert BatchOk(s, b);
      SubsetSize(FinishedOf(s.tasks, b), TasksOf(s.tasks, b));
    } else {
      OneStepKeeps(s, acts[0]);
      LostStaysLost(Do(s, acts[0]), b, acts[1..]);
    }
  }

  /**
   * From every reachable state some continuation lets the batch return, exactly when the pool has
   * refused none of its messages so far.
   */
  lemma ReturnsExactly(s: Sys, b: nat)
    requires Reachable(s) && b < |s.batches|
    ensures (exists acts :: Legal(s, acts) && b < |Exec(s, acts).batches| && Exec(s, acts).batches[b].returned)
       <==> s.batches[b].lost == 0
  {
    ReachableInv(s);
    if s.batches[b].lost == 0 {
      assert BatchOk(s, b);
      var acts := CanReturn(s, b);
    } else {
      forall acts | Legal(s, acts)
        ensures b < |Exec(s, acts).batches| && !Exec(s, acts).batches[b].returned
      {
        LostStaysLost(s, b, acts);
      }
    }
  }

  lemma ReachThen(s: Sys, a: Action)
    requires Reachable(s) && Enabled(s, a)
    ensures Reachable(Do(s, a))
  {
    var acts :| Legal(IDLE, acts) && Exec(IDLE, acts) == s;
    ExecThen(IDLE, acts, a);
  }

  lemma {:induction false} ExecThen(s: Sys, acts: seq<Action>, a: Action)
    requires Legal(s, acts) && Enabled(Exec(s, acts), a)
    ensures Legal(s, acts + [a]) && Exec(s, acts + [a]) == Do(Exec(s, acts), a)
    decreases |acts|
  {
    if acts == [] {
      assert [a][1..] == [] && [] + [a] == [a];
    } else {
      ExecThen(Do(s, acts[0]), acts[1..], a);
      assert (acts + [a])[1..] == acts[1..] + [a];
    }
  }

  /** At any time a new batch of any size can begin, and it can return. */
  lemma NewBatchReturns(s: Sys, size: nat) returns (acts: seq<Action>)
    requires Reachable(s)
    ensures Enabled(s, Begin(size)) && Reachable(Do(s, Begin(size)))
    ensures Do(s, Begin(size)).batches == s.batches + [Batch(size, 0, 0, size, false)]
    ensures Legal(Do(s, Begin(size)), acts)
    ensures var end := Exec(Do(s, Begin(size)), acts);
            |s.batches| < |end.batches| && end.batches[|s.batches|].returned
  {
    var s' := Do(s, Begin(size));
    ReachThen(s, Begin(size));
    ReachableInv(s');
    assert BatchOk(s', |s.batches|);
    acts := CanReturn(s', |s.batches|);
  }

  /** Any message still to be submitted can be refused, and then its batch cannot return any more. */
  lemma RefusedBlocks(s: Sys, b: nat)
    requires Reachable(s) && b < |s.batches| && s.batches[b].next < s.batches[b].size
    ensures Enabled(s, InvokeFails(b)) && Reachable(Do(s, InvokeFails(b)))
    ensures var s' := Do(s, InvokeFails(b));
            forall acts :: Legal(s', acts) ==> b < |Exec(s', acts).batches| && !Exec(s', acts).batches[b].returned
  {
    var s' := Do(s, InvokeFails(b));
    ReachThen(s, InvokeFails(b));
    ReachableInv(s');
    assert BatchOk(s, b) by { ReachableInv(s); }
    forall acts | Legal(s', acts) ensures b < |Exec(s', acts).batches| && !Exec(s', acts).batches[b].returned {
      LostStaysLost(s', b, acts);
    }
  }
}
