/** The corpus minimiser: every run of the queues ends, and what a run that has
    ended has done. */
module CminRuns {
  import opened CminQueue

  // ------------------------------------------------------ no run gets stuck

  /** Short of the final state some step is always enabled. */
  lemma NeverStuck(s: State, total: nat, f: nat, n: nat)
    requires Inv(s, total, f, n) && |s.workers| > 0
    requires |s.received| <= total && |s.collected| <= |s.workers|
    requires |s.received| < total ==> s.collected == []
    requires !Final(s, total)
    ensures exists step :: Enabled(s, step, total)
  {
    if s.todo != [] {
      assert Enabled(s, Put, total);
    } else if w :| 0 <= w < |s.workers| && s.workers[w].pc.Busy? {
      assert Enabled(s, if s.workers[w].pc.rest == [] then Finish(w) else Work(w), total);
    } else if |s.received| < total && s.progress != [] {
      assert Enabled(s, Receive, total);
    } else if w :| 0 <= w < |s.workers| && s.workers[w].pc.Waiting? && s.queue != [] {
      assert Enabled(s, Take(w), total);
    } else {
      QueueEmpty(s, total, f);
      EverybodyStopped(s, total, f);
      assert Enabled(s, Collect, total);
    }
  }

  /** With no busy worker and none waiting at a non-empty queue, the queue is
      empty: sentinels and stopped workers are as many as workers. */
  lemma QueueEmpty(s: State, total: nat, f: nat)
    requires Sizes(s, total, f) && |s.workers| > 0
    requires s.todo == []
    requires forall w :: 0 <= w < |s.workers| ==> s.workers[w].pc.Stopped? || (s.workers[w].pc.Waiting? && s.queue == [])
    ensures s.queue == []
  {
    if s.queue != [] {
      assert s.queue + s.todo == s.queue;
      assert Workers(s.workers, f).stopped > 0 ==> s.queue[0].Sentinel?;
      JobsHead(s.queue, f);
      AllStopped(s.workers, f);
    }
  }

  lemma EverybodyStopped(s: State, total: nat, f: nat)
    requires Sizes(s, total, f)
    requires s.todo == [] && s.queue == []
    requires forall w :: 0 <= w < |s.workers| ==> !s.workers[w].pc.Busy?
    ensures forall w :: 0 <= w < |s.workers| ==> s.workers[w].pc.Stopped?
    ensures |s.progress| + |s.received| == total && |s.results| + |s.collected| == |s.workers|
  {
    assert s.queue + s.todo == [];
    NoneBusy(s.workers, f);
  }

  lemma {:induction false} AllStopped(workers: seq<Worker>, f: nat)
    requires forall w :: 0 <= w < |workers| ==> workers[w].pc.Stopped?
    ensures Workers(workers, f).stopped == |workers|
    ensures Workers(workers, f).files == Workers(workers, f).handled
  {
    if workers != [] {
      AllStopped(workers[1..], f);
    }
  }

  lemma {:induction false} NoneBusy(workers: seq<Worker>, f: nat)
    requires forall w :: 0 <= w < |workers| ==> !workers[w].pc.Busy?
    ensures Workers(workers, f).files == Workers(workers, f).handled
    ensures Workers(workers, f).stopped <= |workers|
    ensures Workers(workers, f).stopped == |workers| ==> forall w :: 0 <= w < |workers| ==> workers[w].pc.Stopped?
  {
    if workers != [] {
      NoneBusy(workers[1..], f);
      assert forall w :: 0 < w < |workers| ==> workers[w] == workers[1..][w - 1];
    }
  }

  /** Main receives all progress before it collects any result. */
  ghost predicate InOrder(s: State, total: nat) {
    && |s.received| <= total && |s.collected| <= |s.workers|
    && (|s.received| < total ==> s.collected == [])
  }

  lemma {:induction false} RunInOrder(s: State, steps: seq<Step>, s': State, total: nat)
    requires InOrder(s, total) && Run(s, steps, s', total)
    ensures InOrder(s', total) && |s'.workers| == |s.workers|
    decreases |steps|
  {
    if steps != [] {
      RunInOrder(Apply(s, steps[0], total), steps[1..], s', total);
    }
  }

  // ----------------------------------------------------------- the main result

  /** The recipe `batched`: consecutive batches of n, the last one shorter. */
  function Batched(files: seq<nat>, n: nat): (jobs: seq<Job>)
    requires n >= 1
    ensures forall i :: 0 <= i < |jobs| ==> jobs[i].Batch?
  {
    if |files| <= n then (if files == [] then [] else [Batch(files)])
    else [Batch(files[..n])] + Batched(files[n..], n)
  }

  lemma {:induction false} BatchedKeepsFiles(files: seq<nat>, n: nat, f: nat)
    requires n >= 1
    ensures Jobs(Batched(files, n), f).files == |files|
    ensures Jobs(Batched(files, n), f).file == Count<nat>(files, f)
  {
    if |files| > n {
      hide Count, Batched, Jobs;
      BatchedKeepsFiles(files[n..], n, f);
      CountAppend<nat>(files[..n], files[n..], f);
      assert files == files[..n] + files[n..];
      FirstBatch(files, n);
      JobsHead(Batched(files, n), f);
    } else if files != [] {
      assert Batched(files, n)[1..] == [];
    }
  }

  lemma FirstBatch(files: seq<nat>, n: nat)
    requires 1 <= n < |files|
    ensures var jobs := Batched(files, n);
            jobs != [] && jobs[0] == Batch(files[..n]) && jobs[1..] == Batched(files[n..], n)
  {
  }

  /** All files handled, worker after worker. */
  function AllHandled(workers: seq<Worker>): seq<nat> {
    if workers == [] then [] else workers[0].handled + AllHandled(workers[1..])
  }

  lemma {:induction false} HandledCounts(workers: seq<Worker>, f: nat)
    requires forall w :: 0 <= w < |workers| ==> workers[w].pc.Stopped?
    ensures Count<nat>(AllHandled(workers), f) == Workers(workers, f).file
  {
    if workers != [] {
      HandledCounts(workers[1..], f);
      CountAppend<nat>(workers[0].handled, AllHandled(workers[1..]), f);
      EmptyCount(f);
      hide Count;
    }
  }

  lemma SameCounts<T>(a: seq<T>, b: seq<T>)
    requires forall x :: Count(a, x) == Count(b, x)
    ensures multiset(a) == multiset(b)
  {
    forall x
      ensures multiset(a)[x] == multiset(b)[x]
    {
      CountIsMultiplicity(a, x);
      CountIsMultiplicity(b, x);
    }
  }

  /** However the processes interleave: a run is never longer than a bound
      fixed at the start, and a run can go on exactly until it is final. */
  lemma EveryRunEnds(files: seq<nat>, chunk: nat, workers: nat, steps: seq<Step>, s: State)
    requires chunk >= 1 && workers >= 1
    requires Run(Init(Batched(files, chunk), workers), steps, s, |files|)
    ensures |steps| <= Measure(Init(Batched(files, chunk), workers))
    ensures (forall step :: !Enabled(s, step, |files|)) <==> Final(s, |files|)
  {
    hide *;
    var total := |files|;
    var start := Init(Batched(files, chunk), workers);
    RunCosts(start, steps, s, total);
    InitInOrder(Batched(files, chunk), workers, total);
    RunInOrder(start, steps, s, total);
    ReachedInv(files, chunk, workers, steps, s, 0);
    if Final(s, total) {
      FinalHasNoStep(s, total);
    } else {
      NeverStuck(s, total, 0, Count<nat>(files, 0));
    }
  }

  lemma InitInOrder(batches: seq<Job>, workers: nat, total: nat)
    ensures InOrder(Init(batches, workers), total) && |Init(batches, workers).workers| == workers
  {
  }

  lemma FinalHasNoStep(s: State, total: nat)
    requires Final(s, total)
    ensures forall step :: !Enabled(s, step, total)
  {
  }

  /** 0, 1, .. , n-1. */
  function Range(n: nat): (r: seq<nat>)
    ensures |r| == n && forall i :: 0 <= i < n ==> r[i] == i
  {
    if n == 0 then [] else Range(n - 1) + [n - 1]
  }

  lemma {:induction false} RangeCounts(n: nat, x: nat)
    ensures Count<nat>(Range(n), x) == if x < n then 1 else 0
  {
    if n > 0 {
      RangeCounts(n - 1, x);
      CountLast<nat>(Range(n - 1), n - 1, x);
    }
  }

  /** A final run has stopped every worker, handled every file exactly once,
      delivered exactly the messages of the files handled, and collected every
      worker's result exactly once. */
  lemma EveryFileOnce(files: seq<nat>, chunk: nat, workers: nat, steps: seq<Step>, s: State)
    requires chunk >= 1 && workers >= 1
    requires Run(Init(Batched(files, chunk), workers), steps, s, |files|) && Final(s, |files|)
    ensures |s.workers| == workers
    ensures multiset(AllHandled(s.workers)) == multiset(files)
    ensures forall w: nat, f: nat ::
              Count<(nat, nat)>(s.received, (w, f)) == Count<nat>(HandledBy(s, w), f)
    ensures multiset(s.collected) == multiset(Range(workers))
  {
    var total := |files|;
    RunInOrder(Init(Batched(files, chunk), workers), steps, s, total);
    forall f
      ensures Count<nat>(AllHandled(s.workers), f) == Count<nat>(files, f)
    {
      ReachedInv(files, chunk, workers, steps, s, f);
      FinalCounts(s, total, f, Count<nat>(files, f));
    }
    SameCounts<nat>(AllHandled(s.workers), files);
    forall w: nat, f: nat
      ensures Count<(nat, nat)>(s.received, (w, f)) == Count<nat>(HandledBy(s, w), f)
    {
      ReachedInv(files, chunk, workers, steps, s, f);
      FinalMessages(s, total, w, f, Count<nat>(files, f));
    }
    forall w: nat
      ensures Count<nat>(s.collected, w) == Count<nat>(Range(workers), w)
    {
      ReachedInv(files, chunk, workers, steps, s, 0);
      FinalMessages(s, total, w, 0, Count<nat>(files, 0));
      RangeCounts(workers, w);
    }
    SameCounts<nat>(s.collected, Range(workers));
  }

  lemma FinalMessages(s: State, total: nat, w: nat, f: nat, n: nat)
    requires Inv(s, total, f, n) && Final(s, total)
    ensures Count<(nat, nat)>(s.received, (w, f)) == Count<nat>(HandledBy(s, w), f)
    ensures Count<nat>(s.collected, w) == if w < |s.workers| then 1 else 0
  {
    assert Messages(s, w, f);
  }

  lemma ReachedInv(files: seq<nat>, chunk: nat, workers: nat, steps: seq<Step>, s: State, f: nat)
    requires chunk >= 1
    requires Run(Init(Batched(files, chunk), workers), steps, s, |files|)
    ensures Inv(s, |files|, f, Count<nat>(files, f))
  {
    hide Inv, Init, Batched, Count, Run;
    BatchedKeepsFiles(files, chunk, f);
    InitInv(Batched(files, chunk), workers, f);
    RunInv(Init(Batched(files, chunk), workers), steps, s, |files|, f, Count<nat>(files, f));
  }

  lemma FinalCounts(s: State, total: nat, f: nat, n: nat)
    requires Inv(s, total, f, n) && Final(s, total)
    ensures Count<nat>(AllHandled(s.workers), f) == n
  {
    assert s.queue + s.todo == [];
    HandledCounts(s.workers, f);
  }
}
