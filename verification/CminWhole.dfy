/** The corpus minimiser from end to end: what the workers do with the files
    that a run of the queues gives them, and what is saved in the end. */
module CminWhole {
  import opened Words
  import opened CminWorker
  import opened CminMerge
  import opened CminCover
  import Q = CminQueue
  import R = CminRuns

  // ------------------------------------------------------------- the batches

  function FilesOf(job: Q.Job): seq<nat> {
    match job
    case Batch(files) => files
    case Sentinel => []
  }

  /** The files of all jobs, one after the other. */
  function BatchFiles(jobs: seq<Q.Job>): seq<nat> {
    if jobs == [] then [] else FilesOf(jobs[0]) + BatchFiles(jobs[1..])
  }

  /** Nothing is lost, repeated or reordered, no batch is empty or too large, and
      only the last one may be short. */
  lemma {:induction false} BatchedInOrder(files: seq<nat>, n: nat)
    requires n >= 1
    ensures BatchFiles(R.Batched(files, n)) == files
    ensures forall i :: 0 <= i < |R.Batched(files, n)| ==> 1 <= |FilesOf(R.Batched(files, n)[i])| <= n
    ensures forall i :: 0 <= i < |R.Batched(files, n)| - 1 ==> |FilesOf(R.Batched(files, n)[i])| == n
    decreases |files|
  {
    var jobs := R.Batched(files, n);
    if |files| > n {
      BatchedInOrder(files[n..], n);
      assert jobs[1..] == R.Batched(files[n..], n);
      assert files == files[..n] + files[n..];
      forall i | 0 <= i < |jobs|
        ensures 1 <= |FilesOf(jobs[i])| <= n
        ensures i < |jobs| - 1 ==> |FilesOf(jobs[i])| == n
      {
        if i > 0 {
          assert jobs[i] == jobs[1..][i - 1];
        }
      }
    } else if files != [] {
      assert jobs[1..] == [];
    }
  }

  // ------------------------------------------------------ every file only once

  lemma {:induction false} TwiceCounts(s: seq<nat>, i: nat, j: nat)
    requires i < j < |s| && s[i] == s[j]
    ensures Q.Count<nat>(s, s[i]) >= 2
    decreases i
  {
    if i == 0 {
      OnceCounts(s[1..], j - 1);
    } else {
      TwiceCounts(s[1..], i - 1, j - 1);
    }
  }

  lemma {:induction false} OnceCounts(s: seq<nat>, j: nat)
    requires j < |s|
    ensures Q.Count<nat>(s, s[j]) >= 1
    decreases j
  {
    if j > 0 {
      OnceCounts(s[1..], j - 1);
    }
  }

  lemma {:induction false} PartCounts(workers: seq<Q.Worker>, w: nat, x: nat)
    requires w < |workers|
    ensures Q.Count<nat>(workers[w].handled, x) <= Q.Count<nat>(R.AllHandled(workers), x)
    decreases w
  {
    Q.CountAppend<nat>(workers[0].handled, R.AllHandled(workers[1..]), x);
    hide Q.Count;
    if w > 0 {
      PartCounts(workers[1..], w - 1, x);
    }
  }

  /** What a worker handles in a complete run are different files of the
      corpus. */
  lemma HandledOnce(workers: seq<Q.Worker>, n: nat, w: nat)
    requires multiset(R.AllHandled(workers)) == multiset(R.Range(n)) && w < |workers|
    ensures Different(workers[w].handled) && forall i :: i in workers[w].handled ==> i < n
  {
    hide Q.Count, R.Range, R.AllHandled;
    var s := workers[w].handled;
    forall i | 0 <= i < |s|
      ensures s[i] < n && Q.Count<nat>(s, s[i]) <= 1
    {
      OnceCounts(s, i);
      PartCounts(workers, w, s[i]);
      Q.CountIsMultiplicity<nat>(R.AllHandled(workers), s[i]);
      Q.CountIsMultiplicity<nat>(R.Range(n), s[i]);
      R.RangeCounts(n, s[i]);
    }
    forall i, j | 0 <= i < j < |s|
      ensures s[i] != s[j]
    {
      if s[i] == s[j] {
        TwiceCounts(s, i, j);
        assert false;
      }
    }
  }

  lemma {:induction false} TwoPartsCount(workers: seq<Q.Worker>, v: nat, w: nat, x: nat)
    requires v < w < |workers|
    ensures Q.Count<nat>(workers[v].handled, x) + Q.Count<nat>(workers[w].handled, x)
         <= Q.Count<nat>(R.AllHandled(workers), x)
    decreases v
  {
    Q.CountAppend<nat>(workers[0].handled, R.AllHandled(workers[1..]), x);
    hide Q.Count;
    if v > 0 {
      TwoPartsCount(workers[1..], v - 1, w - 1, x);
    } else {
      PartCounts(workers[1..], w - 1, x);
    }
  }

  /** No file is handled by two workers. */
  lemma HandledByOne(workers: seq<Q.Worker>, n: nat, v: nat, w: nat, i: nat)
    requires multiset(R.AllHandled(workers)) == multiset(R.Range(n)) && v < |workers| && w < |workers|
    requires i in workers[v].handled && i in workers[w].handled
    ensures v == w
  {
    hide Q.Count, R.Range, R.AllHandled;
    var a: nat :| a < |workers[v].handled| && workers[v].handled[a] == i;
    var b: nat :| b < |workers[w].handled| && workers[w].handled[b] == i;
    OnceCounts(workers[v].handled, a);
    OnceCounts(workers[w].handled, b);
    Q.CountIsMultiplicity<nat>(R.AllHandled(workers), i);
    Q.CountIsMultiplicity<nat>(R.Range(n), i);
    R.RangeCounts(n, i);
    if v < w {
      TwoPartsCount(workers, v, w, i);
    } else if w < v {
      TwoPartsCount(workers, w, v, i);
    }
  }

  /** In a complete run the records do not depend on the order in which the
      messages of different workers arrive. */
  lemma MessagesAnyOrder(c: Corpus, s: Q.State, o: Outcome, received: seq<(nat, nat)>)
    requires multiset(R.AllHandled(s.workers)) == multiset(R.Range(|c.traces|)) && OutcomeOf(c, s, o)
    requires multiset(received) == multiset(s.received)
    ensures TraceInfo(received, o.records) == TraceInfo(s.received, o.records)
  {
    hide R.AllHandled, R.Range, TraceInfo;
    forall v: nat, w: nat, i: nat {:trigger i in o.records[v], i in o.records[w]} |
      v < |o.records| && w < |o.records| && i in o.records[v] && i in o.records[w]
      ensures v == w
    {
      RecordIsHandled(c, s, o, v, i);
      RecordIsHandled(c, s, o, w, i);
      HandledByOne(s.workers, |c.traces|, v, w, i);
    }
    InfoAnyOrder(received, s.received, o.records);
  }

  lemma RecordIsHandled(c: Corpus, s: Q.State, o: Outcome, w: nat, i: nat)
    requires OutcomeOf(c, s, o) && w < |o.records| && i in o.records[w]
    ensures w < |s.workers| && i in s.workers[w].handled
  {
  }

  // ------------------------------------------------------------- the workers

  /** What the workers hold after the files that a run gave them. */
  method RunWorkers(c: Corpus, s: Q.State, crashDir: bool) returns (o: Outcome)
    requires WellFormed(c) && multiset(R.AllHandled(s.workers)) == multiset(R.Range(|c.traces|))
    ensures OutcomeOf(c, s, o)
  {
    hide WellFormed, Holds, R.AllHandled, R.Range;
    o := Outcome([], [], [], [], []);
    var w := 0;
    while w < |s.workers|
      invariant 0 <= w <= |s.workers| && OutcomeBefore(c, s, o, w)
    {
      HandledOnce(s.workers, |c.traces|, w);
      var m, counter, crashes, pack, records := RunWorker(c, w, s.workers[w].handled, crashDir);
      o := Outcome(o.ms + [m], o.counters + [counter], o.crashes + [crashes], o.packs + [pack], o.records + [records]);
      w := w + 1;
    }
  }

  /** The first n workers' part of an outcome. */
  ghost predicate OutcomeBefore(c: Corpus, s: Q.State, o: Outcome, n: nat) {
    && |o.ms| == |o.counters| == |o.crashes| == |o.packs| == |o.records| == n <= |s.workers|
    && forall w :: 0 <= w < n ==>
         Holds(c, w, s.workers[w].handled, o.ms[w], o.counters[w], o.crashes[w], o.packs[w], |o.packs[w]|, o.records[w])
  }

  method RunWorker(c: Corpus, idx: nat, files: seq<nat>, crashDir: bool)
    returns (m: seq<nat>, counter: multiset<nat>, crashes: seq<nat>, pack: seq<byte>, records: map<nat, Record>)
    requires WellFormed(c) && Different(files) && forall i :: i in files ==> i < |c.traces|
    ensures Holds(c, idx, files, m, counter, crashes, pack, |pack|, records)
  {
    var worker := new Worker(c, idx);
    OneBatch(files);
    var messages := worker.Run(c, [files], crashDir);
    m, counter, crashes, pack, records := worker.m[..], worker.counter, worker.crashes, worker.pack, AllReported(messages);
  }

  lemma OneBatch(files: seq<nat>)
    ensures All([files]) == files
  {
    assert [files][..0] == [];
  }

  // ---------------------------------------------------------------- the whole

  /** most_common(): the tuples of a counter, the most common ones first. */
  method ListTuples(counter: multiset<nat>) returns (order: seq<nat>)
    ensures MostCommonFirst(order, counter)
  {
    hide Listed, MostCommonFirst, Distinct;
    order := [];
    var rest := counter;
    NothingListed(counter);
    while rest != multiset{}
      invariant Listed(order, rest, counter)
      decreases |rest|
    {
      MostCommon(rest);
      var t :| t in rest && forall u :: u in rest ==> rest[u] <= rest[t];
      ListedMore(order, rest, counter, t);
      order := order + [t];
      Fewer(rest, t);
      rest := rest[t := 0];
    }
    AllListed(order, counter);
  }

  lemma NothingListed(counter: multiset<nat>)
    ensures Listed([], counter, counter)
  {
  }

  lemma AllListed(order: seq<nat>, counter: multiset<nat>)
    requires Listed(order, multiset{}, counter)
    ensures MostCommonFirst(order, counter)
  {
    hide Distinct;
    var rest: multiset<nat> := multiset{};
    forall t
      ensures t in order <==> t in counter
    {
      assert rest[t] == 0;
    }
  }

  /** What is listed is complete but for the rest, and nothing in it is rarer than
      the rest. */
  ghost predicate Listed(order: seq<nat>, rest: multiset<nat>, counter: multiset<nat>) {
    && Distinct(order) && (forall t {:trigger rest[t]} :: rest[t] == if t in order then 0 else counter[t])
    && (forall t :: t in order ==> t in counter)
    && (forall i, j :: 0 <= i < j < |order| ==> counter[order[i]] >= counter[order[j]])
    && (forall t, u :: t in order && u in rest ==> counter[t] >= counter[u])
  }

  lemma ListedMore(order: seq<nat>, rest: multiset<nat>, counter: multiset<nat>, t: nat)
    requires Listed(order, rest, counter) && t in rest && forall u :: u in rest ==> rest[u] <= rest[t]
    ensures Listed(order + [t], rest[t := 0], counter)
  {
    hide Distinct;
    assert rest[t] > 0 && t !in order;
    DistinctLonger(order, t);
    forall i, j | 0 <= i < j < |order + [t]|
      ensures counter[(order + [t])[i]] >= counter[(order + [t])[j]]
    {
      assert order[i] in order;
    }
    forall x, u | x in order + [t] && u in rest[t := 0]
      ensures counter[x] >= counter[u]
    {
      assert u in rest && u !in order;
    }
  }

  /** Nothing in m is more common than t. */
  ghost predicate IsMostCommon(m: multiset<nat>, t: nat) {
    t in m && forall u :: u in m ==> m[u] <= m[t]
  }

  lemma {:induction false} MostCommon(m: multiset<nat>)
    requires m != multiset{}
    ensures exists t :: IsMostCommon(m, t)
    decreases |m|
  {
    hide IsMostCommon;
    var x :| x in m;
    Fewer(m, x);
    if m[x := 0] == multiset{} {
      OnlyOne(m, x);
    } else {
      MostCommon(m[x := 0]);
      var t :| IsMostCommon(m[x := 0], t);
      OneMore(m, x, t);
    }
  }

  lemma OnlyOne(m: multiset<nat>, x: nat)
    requires x in m && m[x := 0] == multiset{}
    ensures IsMostCommon(m, x)
  {
    assert forall u :: u == x || m[x := 0][u] == m[u];
  }

  lemma OneMore(m: multiset<nat>, x: nat, t: nat)
    requires x in m && IsMostCommon(m[x := 0], t)
    ensures IsMostCommon(m, if m[x] <= m[t] then t else x)
  {
    assert forall u :: u == x || m[x := 0][u] == m[u];
    assert forall u :: u in m ==> u == x || u in m[x := 0];
  }

  lemma Fewer(m: multiset<nat>, t: nat)
    requires t in m
    ensures |m[t := 0]| < |m|
  {
  }

  /** However the processes were scheduled: the files saved in the end are
      distinct and cover every tuple seen; the first of them are files nothing
      can replace, and all such files if no trace repeats a tuple; every later
      one is the first file with a rarest tuple that is still missing. */
  method MinimiseCorpus(c: Corpus, chunk: nat, workers: nat, ghost steps: seq<Q.Step>, s: Q.State, crashDir: bool)
    returns (saved: seq<nat>, unique: nat)
    requires WellFormed(c) && chunk >= 1 && workers >= 1
    requires Q.Run(Q.Init(R.Batched(R.Range(|c.traces|), chunk), workers), steps, s, |c.traces|)
    requires Q.Final(s, |c.traces|)
    ensures Distinct(saved) && unique <= |saved| && Covers(c, saved)
    ensures forall i :: i in saved ==> i < |c.traces|
    ensures forall i :: i in saved[..unique] ==> Essential(c, i)
    ensures DuplicateFree(c) ==> forall i :: Essential(c, i) ==> i in saved[..unique]
    ensures forall k :: unique <= k < |saved| ==> RarestFirst(c, saved, k)
  {
    hide *;
    R.EveryFileOnce(R.Range(|c.traces|), chunk, workers, steps, s);
    var o := RunWorkers(c, s, crashDir);
    AnyRunGivesPlan(c, chunk, workers, steps, s, o);
    OutcomeSizes(c, s, o);
    var best := BestIdxes(InOrder(s.collected, o.ms), c.maxTuple);
    var counter := Sum(InOrder(s.collected, o.counters));
    var info := TraceInfo(s.received, o.records);
    var order := ListTuples(counter);
    saved, unique := Minimise(c, best, counter, info, o.packs, order);
  }

  lemma OutcomeSizes(c: Corpus, s: Q.State, o: Outcome)
    requires OutcomeOf(c, s, o)
    ensures |o.ms| == |o.counters| == |o.packs| == |s.workers|
  {
  }
}
