/** The corpus minimiser: dispatcher, workers and main process around their
    queues, as a transition system.

  The dispatcher puts every batch and then one sentinel per worker into a
  first-in first-out queue.  Workers take jobs, handle the files of a batch
  one by one, each with a progress message, and stop at a sentinel with a
  result message.  The main process first receives one progress message per
  file and then one result per worker.  A run is any sequence of enabled
  steps, so every interleaving is covered.
 */
module CminQueue {

  datatype Job = Batch(files: seq<nat>) | Sentinel

  datatype Pc = Waiting | Busy(rest: seq<nat>) | Stopped

  /** A worker and the files it has handled, in order. */
  datatype Worker = Worker(pc: Pc, handled: seq<nat>)

  datatype State = State(
    todo: seq<Job>,                 // what the dispatcher has still to put
    queue: seq<Job>,
    workers: seq<Worker>,
    progress: seq<(nat, nat)>,      // (worker, file) messages not yet received
    received: seq<(nat, nat)>,
    results: seq<nat>,              // workers whose results wait
    collected: seq<nat>)

  datatype Step = Put | Take(w: nat) | Work(w: nat) | Finish(w: nat) | Receive | Collect

  /** One sentinel per worker. */
  function Ends(n: nat): (jobs: seq<Job>)
    ensures |jobs| == n && forall i :: 0 <= i < n ==> jobs[i] == Sentinel
  {
    if n == 0 then [] else [Sentinel] + Ends(n - 1)
  }

  function Idle(n: nat): (workers: seq<Worker>)
    ensures |workers| == n && forall i :: 0 <= i < n ==> workers[i] == Worker(Waiting, [])
  {
    if n == 0 then [] else [Worker(Waiting, [])] + Idle(n - 1)
  }

  function Init(batches: seq<Job>, workers: nat): State {
    State(batches + Ends(workers), [], Idle(workers), [], [], [], [])
  }

  /** `total` is the number of files: main receives that many messages. */
  predicate Enabled(s: State, step: Step, total: nat) {
    match step
    case Put => s.todo != []
    case Take(w) => w < |s.workers| && s.workers[w].pc.Waiting? && s.queue != []
    case Work(w) => w < |s.workers| && s.workers[w].pc.Busy? && s.workers[w].pc.rest != []
    case Finish(w) => w < |s.workers| && s.workers[w].pc == Busy([])
    case Receive => |s.received| < total && s.progress != []
    case Collect => |s.received| == total && |s.collected| < |s.workers| && s.results != []
  }

  /** The worker after one more file of its batch. */
  function Worked(worker: Worker): Worker
    requires worker.pc.Busy? && worker.pc.rest != []
  {
    Worker(Busy(worker.pc.rest[1..]), worker.handled + [worker.pc.rest[0]])
  }

  /** The worker after it has taken a job. */
  function Took(worker: Worker, job: Job): Worker {
    match job
    case Batch(files) => worker.(pc := Busy(files))
    case Sentinel => worker.(pc := Stopped)
  }

  function Apply(s: State, step: Step, total: nat): State
    requires Enabled(s, step, total)
  {
    match step
    case Put => s.(todo := s.todo[1..], queue := s.queue + [s.todo[0]])
    case Take(w) =>
      s.(queue := s.queue[1..],
         workers := s.workers[w := Took(s.workers[w], s.queue[0])],
         results := if s.queue[0].Sentinel? then s.results + [w] else s.results)
    case Work(w) =>
      s.(workers := s.workers[w := Worked(s.workers[w])],
         progress := s.progress + [(w, s.workers[w].pc.rest[0])])
    case Finish(w) => s.(workers := s.workers[w := s.workers[w].(pc := Waiting)])
    case Receive => s.(progress := s.progress[1..], received := s.received + [s.progress[0]])
    case Collect => s.(results := s.results[1..], collected := s.collected + [s.results[0]])
  }

  /** `steps` leads from s to s'. */
  ghost predicate Run(s: State, steps: seq<Step>, s': State, total: nat)
    decreases |steps|
  {
    if steps == [] then s' == s
    else Enabled(s, steps[0], total) && Run(Apply(s, steps[0], total), steps[1..], s', total)
  }

  ghost predicate Final(s: State, total: nat) {
    && s.todo == [] && s.queue == [] && s.progress == [] && s.results == []
    && (forall w :: 0 <= w < |s.workers| ==> s.workers[w].pc.Stopped?)
    && |s.received| == total && |s.collected| == |s.workers|
  }

  // --------------------------------------------------------------- counting

  ghost function Count<T>(s: seq<T>, x: T): nat {
    if s == [] then 0 else (if s[0] == x then 1 else 0) + Count(s[1..], x)
  }

  lemma {:induction false} CountAppend<T>(a: seq<T>, b: seq<T>, x: T)
    ensures Count(a + b, x) == Count(a, x) + Count(b, x)
  {
    if a == [] {
      assert a + b == b;
    } else {
      CountAppend(a[1..], b, x);
      assert (a + b)[1..] == a[1..] + b;
    }
  }

  lemma CountLast<T>(s: seq<T>, y: T, x: T)
    ensures Count(s + [y], x) == Count(s, x) + if y == x then 1 else 0
  {
    CountAppend(s, [y], x);
    assert [y][1..] == [];
  }

  lemma CountHead<T>(s: seq<T>, x: T)
    requires s != []
    ensures Count(s, x) == Count(s[1..], x) + if s[0] == x then 1 else 0
  {
  }

  lemma {:induction false} CountIsMultiplicity<T>(s: seq<T>, x: T)
    ensures Count(s, x) == multiset(s)[x]
  {
    if s != [] {
      CountIsMultiplicity(s[1..], x);
      assert s == [s[0]] + s[1..];
    }
  }

  /** What jobs carry: occurrences of file f, files, sentinels, and the steps
      they cost from the queue on. */
  datatype Load = Load(file: nat, files: nat, sentinels: nat, cost: nat)

  ghost function JobLoad(job: Job, f: nat): Load {
    match job
    case Batch(files) => Load(Count<nat>(files, f), |files|, 0, 2 + 2 * |files|)
    case Sentinel => Load(0, 0, 1, 2)
  }

  ghost function Both(a: Load, b: Load): Load {
    Load(a.file + b.file, a.files + b.files, a.sentinels + b.sentinels, a.cost + b.cost)
  }

  const NOTHING := Load(0, 0, 0, 0)

  lemma BothLaws(a: Load, b: Load, c: Load)
    ensures Both(NOTHING, b) == b
    ensures Both(Both(a, b), c) == Both(a, Both(b, c))
  {
  }

  ghost function Jobs(jobs: seq<Job>, f: nat): Load {
    if jobs == [] then NOTHING else Both(JobLoad(jobs[0], f), Jobs(jobs[1..], f))
  }

  lemma {:induction false} JobsAppend(a: seq<Job>, b: seq<Job>, f: nat)
    ensures Jobs(a + b, f) == Both(Jobs(a, f), Jobs(b, f))
  {
    hide JobLoad, Both;
    if a == [] {
      assert a + b == b;
      BothLaws(NOTHING, Jobs(b, f), NOTHING);
    } else {
      JobsAppend(a[1..], b, f);
      BothLaws(JobLoad(a[0], f), Jobs(a[1..], f), Jobs(b, f));
      assert (a + b)[1..] == a[1..] + b;
    }
  }

  /** The load of a queue without its head. */
  lemma JobsHead(jobs: seq<Job>, f: nat)
    requires jobs != []
    ensures Jobs(jobs, f) == Both(JobLoad(jobs[0], f), Jobs(jobs[1..], f))
  {
  }

  /** What workers hold: occurrences of file f taken, files taken, files
      handled, workers stopped, and the steps the busy ones still cost. */
  datatype Account = Account(file: nat, files: nat, handled: nat, stopped: nat, cost: nat)

  ghost function Own(worker: Worker, f: nat): Account {
    var rest := if worker.pc.Busy? then worker.pc.rest else [];
    Account(
      Count<nat>(worker.handled, f) + Count<nat>(rest, f),
      |worker.handled| + |rest|,
      |worker.handled|,
      if worker.pc.Stopped? then 1 else 0,
      if worker.pc.Busy? then 1 + 2 * |rest| else 0)
  }

  ghost function Plus(a: Account, b: Account): Account {
    Account(a.file + b.file, a.files + b.files, a.handled + b.handled, a.stopped + b.stopped, a.cost + b.cost)
  }

  ghost function Workers(workers: seq<Worker>, f: nat): Account {
    if workers == [] then Account(0, 0, 0, 0, 0) else Plus(Own(workers[0], f), Workers(workers[1..], f))
  }

  /** All workers but one. */
  ghost function Others(workers: seq<Worker>, w: nat, f: nat): Account
    requires w < |workers|
  {
    if w == 0 then Workers(workers[1..], f)
    else Plus(Own(workers[0], f), Others(workers[1..], w - 1, f))
  }

  lemma PlusLaws(a: Account, b: Account, c: Account)
    ensures Plus(a, b) == Plus(b, a)
    ensures Plus(a, Plus(b, c)) == Plus(Plus(a, b), c)
  {
  }

  lemma UpdateTail<T>(s: seq<T>, w: nat, x: T)
    requires w < |s|
    ensures s[w := x][1..] == if w == 0 then s[1..] else s[1..][w - 1 := x]
    ensures s[w := x][0] == if w == 0 then x else s[0]
  {
  }

  /** Changing one worker changes its own share and nothing else. */
  lemma {:induction false} OneChanges(workers: seq<Worker>, w: nat, worker: Worker, f: nat)
    requires w < |workers|
    ensures Workers(workers, f) == Plus(Others(workers, w, f), Own(workers[w], f))
    ensures Workers(workers[w := worker], f) == Plus(Others(workers, w, f), Own(worker, f))
  {
    hide Own, Plus;
    UpdateTail(workers, w, worker);
    if w == 0 {
      PlusLaws(Workers(workers[1..], f), Own(workers[0], f), Own(worker, f));
      PlusLaws(Workers(workers[1..], f), Own(worker, f), Own(worker, f));
    } else {
      OneChanges(workers[1..], w - 1, worker, f);
      PlusLaws(Own(workers[0], f), Others(workers[1..], w - 1, f), Own(workers[w], f));
      PlusLaws(Own(workers[0], f), Others(workers[1..], w - 1, f), Own(worker, f));
    }
  }

  // -------------------------------------------------------------- invariant

  /** No batch behind a sentinel. */
  ghost predicate SentinelsLast(jobs: seq<Job>) {
    forall i, j :: 0 <= i < j < |jobs| && jobs[i].Sentinel? ==> jobs[j].Sentinel?
  }

  ghost predicate AllSentinels(jobs: seq<Job>) {
    forall i :: 0 <= i < |jobs| ==> jobs[i].Sentinel?
  }

  /** Conservation of sizes: of `total` files, of as many sentinels as there
      are workers, of messages. */
  ghost predicate Sizes(s: State, total: nat, f: nat) {
    var jobs, held := Jobs(s.queue + s.todo, f), Workers(s.workers, f);
    && jobs.files + held.files == total
    && jobs.sentinels + held.stopped == |s.workers|
    && |s.progress| + |s.received| == held.handled
    && |s.results| + |s.collected| == held.stopped
    && (held.stopped > 0 ==> AllSentinels(s.queue + s.todo))
  }

  /** Conservation of file f, of which there are n occurrences. */
  ghost predicate FileKept(s: State, f: nat, n: nat) {
    Jobs(s.queue + s.todo, f).file + Workers(s.workers, f).file == n
  }

  /** Every handled file has exactly its own message, and every stopped worker
      its own result. */
  ghost predicate Messages(s: State, w: nat, f: nat) {
    && Count<(nat, nat)>(s.progress, (w, f)) + Count<(nat, nat)>(s.received, (w, f)) == Count<nat>(HandledBy(s, w), f)
    && Count<nat>(s.results, w) + Count<nat>(s.collected, w) == if HasStopped(s, w) then 1 else 0
  }

  ghost function HandledBy(s: State, w: nat): seq<nat> {
    if w < |s.workers| then s.workers[w].handled else []
  }

  ghost predicate HasStopped(s: State, w: nat) {
    w < |s.workers| && s.workers[w].pc.Stopped?
  }

  /** Holds in every reachable state, for any file f. */
  ghost predicate Inv(s: State, total: nat, f: nat, n: nat) {
    && SentinelsLast(s.queue + s.todo)
    && Sizes(s, total, f)
    && FileKept(s, f, n)
    && (forall w: nat :: Messages(s, w, f))
  }

  /** Bounds the length of the rest of the run. */
  ghost function Measure(s: State): nat {
    |s.todo| + Jobs(s.queue + s.todo, 0).cost + Workers(s.workers, 0).cost + |s.progress| + |s.results|
  }

  lemma {:induction false} IdleWorkers(n: nat, f: nat)
    ensures Workers(Idle(n), f) == Account(0, 0, 0, 0, 0)
  {
    hide *;
    if n > 0 {
      IdleWorkers(n - 1, f);
      OneIdle(n);
      WorkersHead(Idle(n), f);
      OwnNothing(f);
    } else {
      NoWorkers(Idle(n), f);
    }
  }

  lemma OneIdle(n: nat)
    requires n > 0
    ensures Idle(n) != [] && Idle(n)[0] == Worker(Waiting, []) && Idle(n)[1..] == Idle(n - 1)
  {
  }

  lemma WorkersHead(workers: seq<Worker>, f: nat)
    requires workers != []
    ensures Workers(workers, f) == Plus(Own(workers[0], f), Workers(workers[1..], f))
  {
  }

  lemma OwnNothing(f: nat)
    ensures var nothing := Account(0, 0, 0, 0, 0); Own(Worker(Waiting, []), f) == nothing && Plus(nothing, nothing) == nothing
  {
    EmptyCount(f);
    hide Count;
  }

  lemma NoWorkers(workers: seq<Worker>, f: nat)
    requires workers == []
    ensures Workers(workers, f) == Account(0, 0, 0, 0, 0)
  {
  }

  lemma {:induction false} OnlySentinels(n: nat, f: nat)
    ensures Jobs(Ends(n), f) == Load(0, 0, n, 2 * n)
  {
    hide *;
    if n > 0 {
      OnlySentinels(n - 1, f);
      OneEnd(n);
      JobsHead(Ends(n), f);
      SentinelLoad(n, f);
    } else {
      NoJobs(Ends(n), f);
    }
  }

  lemma OneEnd(n: nat)
    requires n > 0
    ensures Ends(n) != [] && Ends(n)[0] == Sentinel && Ends(n)[1..] == Ends(n - 1)
  {
  }

  lemma SentinelLoad(n: nat, f: nat)
    requires n > 0
    ensures Both(JobLoad(Sentinel, f), Load(0, 0, n - 1, 2 * (n - 1))) == Load(0, 0, n, 2 * n)
  {
  }

  lemma NoJobs(jobs: seq<Job>, f: nat)
    requires jobs == []
    ensures Jobs(jobs, f) == Load(0, 0, 0, 0)
  {
  }

  lemma {:induction false} NoSentinels(jobs: seq<Job>, f: nat)
    requires forall i :: 0 <= i < |jobs| ==> jobs[i].Batch?
    ensures Jobs(jobs, f).sentinels == 0
  {
    if jobs != [] {
      NoSentinels(jobs[1..], f);
    }
  }

  lemma InitInv(batches: seq<Job>, workers: nat, f: nat)
    requires forall i :: 0 <= i < |batches| ==> batches[i].Batch?
    ensures Inv(Init(batches, workers), Jobs(batches, f).files, f, Jobs(batches, f).file)
  {
    hide Sizes, FileKept, SentinelsLast, Messages, Jobs, Init;
    InitOrder(batches, workers);
    InitSums(batches, workers, f);
    InitMessages(batches, workers, f);
  }

  lemma InitOrder(batches: seq<Job>, workers: nat)
    requires forall i :: 0 <= i < |batches| ==> batches[i].Batch?
    ensures var s := Init(batches, workers); s.queue + s.todo == batches + Ends(workers) && SentinelsLast(s.queue + s.todo)
  {
  }

  lemma InitSums(batches: seq<Job>, workers: nat, f: nat)
    requires forall i :: 0 <= i < |batches| ==> batches[i].Batch?
    ensures Sizes(Init(batches, workers), Jobs(batches, f).files, f)
    ensures FileKept(Init(batches, workers), f, Jobs(batches, f).file)
  {
    hide Jobs, Workers, SentinelsLast, AllSentinels, Idle, Ends;
    InitOrder(batches, workers);
    OnlySentinels(workers, f);
    NoSentinels(batches, f);
    IdleWorkers(workers, f);
    JobsAppend(batches, Ends(workers), f);
  }

  lemma InitMessages(batches: seq<Job>, workers: nat, f: nat)
    ensures forall w: nat :: Messages(Init(batches, workers), w, f)
  {
    var s := Init(batches, workers);
    forall w: nat
      ensures Messages(s, w, f)
    {
      assert HandledBy(s, w) == [];
    }
  }

  // ------------------------------------------------------------------- steps

  /** Every step keeps the invariant. */
  lemma StepInv(s: State, step: Step, total: nat, f: nat, n: nat)
    requires Inv(s, total, f, n) && Enabled(s, step, total)
    ensures Inv(Apply(s, step, total), total, f, n)
  {
    match step
    case Put => PutInv(s, total, f, n);
    case Take(w) => TakeInv(s, w, total, f, n);
    case Work(w) => WorkInv(s, w, total, f, n);
    case Finish(w) => FinishInv(s, w, total, f, n);
    case Receive => ReceiveInv(s, total, f, n);
    case Collect => CollectInv(s, total, f, n);
  }

  lemma PutInv(s: State, total: nat, f: nat, n: nat)
    requires Inv(s, total, f, n) && Enabled(s, Put, total)
    ensures Inv(Apply(s, Put, total), total, f, n)
  {
    hide Jobs, Workers, SentinelsLast, AllSentinels, Messages;
    PutJobs(s, total);
    SameMessages(s, Apply(s, Put, total), total, f, n);
  }

  lemma PutJobs(s: State, total: nat)
    requires Enabled(s, Put, total)
    ensures var s' := Apply(s, Put, total); s'.queue + s'.todo == s.queue + s.todo
  {
  }

  lemma SameMessages(s: State, s': State, total: nat, f: nat, n: nat)
    requires Inv(s, total, f, n)
    requires s'.progress == s.progress && s'.received == s.received
    requires s'.results == s.results && s'.collected == s.collected
    requires |s'.workers| == |s.workers|
    requires forall v :: 0 <= v < |s.workers| ==>
      s'.workers[v].handled == s.workers[v].handled && s'.workers[v].pc.Stopped? == s.workers[v].pc.Stopped?
    ensures forall v: nat :: Messages(s', v, f)
  {
    hide Sizes, FileKept, SentinelsLast, Count;
    forall v: nat
      ensures Messages(s', v, f)
    {
      assert Messages(s, v, f);
    }
  }

  lemma TakeInv(s: State, w: nat, total: nat, f: nat, n: nat)
    requires Inv(s, total, f, n) && Enabled(s, Take(w), total)
    ensures Inv(Apply(s, Take(w), total), total, f, n)
  {
    hide Sizes, FileKept, Messages, SentinelsLast, Apply, Enabled;
    TakeJobs(s, w, total);
    StillLast(s.queue + s.todo);
    TakeSums(s, w, total, f, n);
    forall v: nat
      ensures Messages(Apply(s, Take(w), total), v, f)
    {
      TakeMessage(s, w, total, f, v);
    }
  }

  lemma TakeJobs(s: State, w: nat, total: nat)
    requires Enabled(s, Take(w), total)
    ensures var s', jobs := Apply(s, Take(w), total), s.queue + s.todo;
            s.queue != [] && jobs != [] && jobs[0] == s.queue[0] && s'.queue + s'.todo == jobs[1..]
  {
  }

  lemma StillLast(jobs: seq<Job>)
    requires SentinelsLast(jobs) && jobs != []
    ensures SentinelsLast(jobs[1..])
    ensures AllSentinels(jobs) || jobs[0].Sentinel? ==> jobs[0].Sentinel? && AllSentinels(jobs[1..])
  {
  }

  /** Taking a job moves its load to the worker, for one step or two. */
  lemma TookOwn(worker: Worker, job: Job, f: nat)
    requires worker.pc.Waiting?
    ensures var own, load := Own(worker, f), JobLoad(job, f);
            load.sentinels == (if job.Sentinel? then 1 else 0) && load.cost >= 1 + load.sentinels &&
            Own(Took(worker, job), f) == Account(own.file + load.file, own.files + load.files, own.handled,
                                                 own.stopped + load.sentinels, own.cost + load.cost - 1 - load.sentinels)
  {
    EmptyCount(f);
    hide Count;
  }

  lemma TakeSums(s: State, w: nat, total: nat, f: nat, n: nat)
    requires SentinelsLast(s.queue + s.todo) && Sizes(s, total, f) && FileKept(s, f, n) && Enabled(s, Take(w), total)
    ensures Sizes(Apply(s, Take(w), total), total, f)
    ensures FileKept(Apply(s, Take(w), total), f, n)
  {
    hide Jobs, Workers, Others, Own, JobLoad, Took, AllSentinels, SentinelsLast;
    var jobs, job, worker := s.queue + s.todo, s.queue[0], s.workers[w];
    TakeJobs(s, w, total);
    StillLast(jobs);
    JobsHead(jobs, f);
    OneChanges(s.workers, w, Took(worker, job), f);
    TookOwn(worker, job, f);
  }

  lemma TakeMessage(s: State, w: nat, total: nat, f: nat, v: nat)
    requires Messages(s, v, f) && Enabled(s, Take(w), total)
    ensures Messages(Apply(s, Take(w), total), v, f)
  {
    hide Count;
    CountLast<nat>(s.results, w, v);
  }

  lemma WorkInv(s: State, w: nat, total: nat, f: nat, n: nat)
    requires Inv(s, total, f, n) && Enabled(s, Work(w), total)
    ensures Inv(Apply(s, Work(w), total), total, f, n)
  {
    hide Sizes, FileKept, SentinelsLast, Messages;
    WorkSums(s, w, total, f, n);
    forall v: nat
      ensures Messages(Apply(s, Work(w), total), v, f)
    {
      WorkMessage(s, w, total, f, v);
    }
  }

  lemma WorkSums(s: State, w: nat, total: nat, f: nat, n: nat)
    requires Sizes(s, total, f) && FileKept(s, f, n) && Enabled(s, Work(w), total)
    ensures Sizes(Apply(s, Work(w), total), total, f)
    ensures FileKept(Apply(s, Work(w), total), f, n)
  {
    hide Jobs, Workers, Others, Own, AllSentinels, Worked;
    OneChanges(s.workers, w, Worked(s.workers[w]), f);
    WorkOwn(s.workers[w], f);
  }

  /** Handling one file of a batch: it moves from the rest to the handled. */
  lemma WorkOwn(worker: Worker, f: nat)
    requires worker.pc.Busy? && worker.pc.rest != []
    ensures var own := Own(worker, f);
            Own(Worked(worker), f) == own.(handled := own.handled + 1, cost := own.cost - 2)
  {
    CountLast<nat>(worker.handled, worker.pc.rest[0], f);
    CountHead<nat>(worker.pc.rest, f);
    hide Count;
  }

  lemma WorkMessage(s: State, w: nat, total: nat, f: nat, v: nat)
    requires Messages(s, v, f) && Enabled(s, Work(w), total)
    ensures Messages(Apply(s, Work(w), total), v, f)
  {
    hide Count;
    var s', file := Apply(s, Work(w), total), s.workers[w].pc.rest[0];
    CountLast<nat>(s.workers[w].handled, file, f);
    CountLast<(nat, nat)>(s.progress, (w, file), (v, f));
    if v == w {
      assert HandledBy(s', v) == s.workers[w].handled + [file];
    } else {
      assert HandledBy(s', v) == HandledBy(s, v);
    }
  }

  lemma FinishInv(s: State, w: nat, total: nat, f: nat, n: nat)
    requires Inv(s, total, f, n) && Enabled(s, Finish(w), total)
    ensures Inv(Apply(s, Finish(w), total), total, f, n)
  {
    hide Sizes, FileKept, SentinelsLast, Messages;
    FinishSums(s, w, total, f, n);
    SameMessages(s, Apply(s, Finish(w), total), total, f, n);
  }

  lemma FinishSums(s: State, w: nat, total: nat, f: nat, n: nat)
    requires Sizes(s, total, f) && FileKept(s, f, n) && Enabled(s, Finish(w), total)
    ensures Sizes(Apply(s, Finish(w), total), total, f)
    ensures FileKept(Apply(s, Finish(w), total), f, n)
  {
    hide Jobs, Workers, Others, Own, AllSentinels;
    OneChanges(s.workers, w, s.workers[w].(pc := Waiting), f);
    FinishOwn(s.workers[w], f);
  }

  lemma FinishOwn(worker: Worker, f: nat)
    requires worker.pc == Busy([])
    ensures var own := Own(worker, f); Own(worker.(pc := Waiting), f) == own.(cost := own.cost - 1)
  {
  }

  lemma EmptyCount(f: nat)
    ensures Count<nat>([], f) == 0
  {
  }

  lemma ReceiveInv(s: State, total: nat, f: nat, n: nat)
    requires Inv(s, total, f, n) && Enabled(s, Receive, total)
    ensures Inv(Apply(s, Receive, total), total, f, n)
  {
    hide Jobs, Workers, SentinelsLast, AllSentinels, Messages;
    forall v: nat
      ensures Messages(Apply(s, Receive, total), v, f)
    {
      ReceiveMessage(s, total, f, v);
    }
  }

  lemma ReceiveMessage(s: State, total: nat, f: nat, v: nat)
    requires Messages(s, v, f) && Enabled(s, Receive, total)
    ensures Messages(Apply(s, Receive, total), v, f)
  {
    hide Count;
    CountHead<(nat, nat)>(s.progress, (v, f));
    CountLast<(nat, nat)>(s.received, s.progress[0], (v, f));
  }

  lemma CollectInv(s: State, total: nat, f: nat, n: nat)
    requires Inv(s, total, f, n) && Enabled(s, Collect, total)
    ensures Inv(Apply(s, Collect, total), total, f, n)
  {
    hide Jobs, Workers, SentinelsLast, AllSentinels, Messages;
    forall v: nat
      ensures Messages(Apply(s, Collect, total), v, f)
    {
      CollectMessage(s, total, f, v);
    }
  }

  lemma CollectMessage(s: State, total: nat, f: nat, v: nat)
    requires Messages(s, v, f) && Enabled(s, Collect, total)
    ensures Messages(Apply(s, Collect, total), v, f)
  {
    hide Count;
    CountHead<nat>(s.results, v);
    CountLast<nat>(s.collected, s.results[0], v);
  }

  /** Every step brings the end exactly one step nearer. */
  lemma StepCosts(s: State, step: Step, total: nat)
    requires Enabled(s, step, total)
    ensures Measure(Apply(s, step, total)) == Measure(s) - 1
  {
    hide Jobs, Workers, Others, Own, JobLoad, Took, Worked;
    match step
    case Put =>
      PutJobs(s, total);
    case Take(w) =>
      TakeCosts(s, w, total);
    case Work(w) =>
      OneChanges(s.workers, w, Worked(s.workers[w]), 0);
      WorkOwn(s.workers[w], 0);
    case Finish(w) =>
      OneChanges(s.workers, w, s.workers[w].(pc := Waiting), 0);
      FinishOwn(s.workers[w], 0);
    case Receive =>
    case Collect =>
  }

  lemma TakeCosts(s: State, w: nat, total: nat)
    requires Enabled(s, Take(w), total)
    ensures Measure(Apply(s, Take(w), total)) == Measure(s) - 1
  {
    hide Jobs, Workers, Others, Own, JobLoad, Took;
    TakeJobs(s, w, total);
    JobsHead(s.queue + s.todo, 0);
    OneChanges(s.workers, w, Took(s.workers[w], s.queue[0]), 0);
    TookOwn(s.workers[w], s.queue[0], 0);
  }

  // -------------------------------------------------------------- whole runs

  lemma {:induction false} RunInv(s: State, steps: seq<Step>, s': State, total: nat, f: nat, n: nat)
    requires Inv(s, total, f, n) && Run(s, steps, s', total)
    ensures Inv(s', total, f, n)
    decreases |steps|
  {
    hide Inv;
    if steps != [] {
      StepInv(s, steps[0], total, f, n);
      RunInv(Apply(s, steps[0], total), steps[1..], s', total, f, n);
    }
  }

  lemma {:induction false} RunCosts(s: State, steps: seq<Step>, s': State, total: nat)
    requires Run(s, steps, s', total)
    ensures Measure(s') + |steps| == Measure(s)
    decreases |steps|
  {
    hide Measure;
    if steps != [] {
      StepCosts(s, steps[0], total);
      RunCosts(Apply(s, steps[0], total), steps[1..], s', total);
    }
  }
}
