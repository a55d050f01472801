/** The corpus minimiser: what the main process puts together from the
    messages and results of the workers, for every way a run can go. */
module CminMerge {
  import opened Words
  import opened CminWorker
  import Q = CminQueue
  import R = CminRuns

  // ----------------------------------------------------------- merged tables

  /** The least entry for tuple t over all tables. */
  function MinAt(ms: seq<seq<nat>>, t: nat): nat
    requires ms != [] && forall k :: 0 <= k < |ms| ==> t < |ms[k]|
  {
    if |ms| == 1 then ms[0][t]
    else
      var rest := MinAt(ms[1..], t);
      if ms[0][t] <= rest then ms[0][t] else rest
  }

  /** list(map(min, zip(*ms))) */
  function BestIdxes(ms: seq<seq<nat>>, maxTuple: nat): (best: seq<nat>)
    requires ms != [] && forall k :: 0 <= k < |ms| ==> |ms[k]| == maxTuple
    ensures |best| == maxTuple
  {
    seq(maxTuple, t requires 0 <= t < maxTuple => MinAt(ms, t))
  }

  lemma {:induction false} MinAtIsLeast(ms: seq<seq<nat>>, t: nat)
    requires ms != [] && forall k :: 0 <= k < |ms| ==> t < |ms[k]|
    ensures forall k :: 0 <= k < |ms| ==> MinAt(ms, t) <= ms[k][t]
    ensures exists k :: 0 <= k < |ms| && MinAt(ms, t) == ms[k][t]
  {
    if |ms| > 1 {
      MinAtIsLeast(ms[1..], t);
      var k :| 0 <= k < |ms[1..]| && MinAt(ms[1..], t) == ms[1..][k][t];
      assert ms[1..][k] == ms[k + 1];
      assert forall j :: 0 < j < |ms| ==> ms[j] == ms[1..][j - 1];
    }
  }

  /** The files handled according to all results together. */
  function Concat(lists: seq<seq<nat>>): seq<nat> {
    if lists == [] then [] else lists[0] + Concat(lists[1..])
  }

  lemma {:induction false} InConcat(lists: seq<seq<nat>>, i: nat)
    ensures i in Concat(lists) <==> exists k :: 0 <= k < |lists| && i in lists[k]
  {
    if lists != [] {
      InConcat(lists[1..], i);
      if k :| 0 <= k < |lists| && i in lists[k] {
        if k > 0 {
          assert lists[1..][k - 1] == lists[k];
        }
      }
      if k :| 0 <= k < |lists[1..]| && i in lists[1..][k] {
        assert lists[k + 1] == lists[1..][k];
      }
    }
  }

  lemma MinTableEntry(c: Corpus, handled: seq<nat>, m: seq<nat>, t: nat)
    requires IsMinTable(c, handled, m) && t < c.maxTuple
    ensures m[t] == c.sentinel || (m[t] in handled && t in TraceOf(c, m[t]))
  {
  }

  lemma MinTableBelow(c: Corpus, handled: seq<nat>, m: seq<nat>, i: nat, t: nat)
    requires IsMinTable(c, handled, m) && i in handled && t in TraceOf(c, i)
    ensures t < |m| == c.maxTuple && m[t] <= i
  {
  }

  /** Each table is the table of its own list of files. */
  ghost predicate Tables(c: Corpus, lists: seq<seq<nat>>, ms: seq<seq<nat>>) {
    && |ms| == |lists| > 0
    && (forall k :: 0 <= k < |ms| ==> |ms[k]| == c.maxTuple)
    && (forall k :: 0 <= k < |ms| ==> IsMinTable(c, lists[k], ms[k]))
  }

  lemma MergedEntry(c: Corpus, lists: seq<seq<nat>>, ms: seq<seq<nat>>, t: nat)
    requires Tables(c, lists, ms) && t < c.maxTuple
    ensures var i := MinAt(ms, t);
            i == c.sentinel || (i in Concat(lists) && t in TraceOf(c, i))
  {
    MinAtIsLeast(ms, t);
    var k :| 0 <= k < |ms| && MinAt(ms, t) == ms[k][t];
    MinTableEntry(c, lists[k], ms[k], t);
    InConcat(lists, MinAt(ms, t));
  }

  lemma MergedBelow(c: Corpus, lists: seq<seq<nat>>, ms: seq<seq<nat>>, i: nat, t: nat)
    requires Tables(c, lists, ms) && i in Concat(lists) && t in TraceOf(c, i)
    ensures t < c.maxTuple && MinAt(ms, t) <= i
  {
    InConcat(lists, i);
    var k :| 0 <= k < |lists| && i in lists[k];
    MinTableBelow(c, lists[k], ms[k], i, t);
    MinAtIsLeast(ms, t);
  }

  /** Merged minima are the minima of the whole corpus. */
  lemma MergedMinTable(c: Corpus, lists: seq<seq<nat>>, ms: seq<seq<nat>>, all: seq<nat>)
    requires Tables(c, lists, ms)
    requires forall i :: i in Concat(lists) <==> i in all
    ensures IsMinTable(c, all, BestIdxes(ms, c.maxTuple))
  {
    var best := BestIdxes(ms, c.maxTuple);
    assert |best| == c.maxTuple && forall t :: 0 <= t < c.maxTuple ==> best[t] == MinAt(ms, t);
    hide BestIdxes, MinAt, Tables, Concat;
    forall t | 0 <= t < c.maxTuple
      ensures best[t] == c.sentinel || (best[t] in all && t in TraceOf(c, best[t]))
    {
      MergedEntry(c, lists, ms, t);
    }
    forall i, t {:trigger i in all, t in TraceOf(c, i)} | i in all && t in TraceOf(c, i)
      ensures t < c.maxTuple && best[t] <= i
    {
      MergedBelow(c, lists, ms, i, t);
    }
  }

  // --------------------------------------------------------- merged counters

  /** counter.update, result after result. */
  function Sum(counters: seq<multiset<nat>>): multiset<nat> {
    if counters == [] then multiset{} else counters[0] + Sum(counters[1..])
  }

  lemma NoOccurrences(c: Corpus)
    ensures Occurrences(c, []) == multiset{}
  {
  }

  lemma {:induction false} OccurrencesConcat(c: Corpus, a: seq<nat>, b: seq<nat>)
    ensures Occurrences(c, a + b) == Occurrences(c, a) + Occurrences(c, b)
    decreases |b|
  {
    hide Occurrences;
    if b == [] {
      assert a + b == a;
      NoOccurrences(c);
    } else {
      var b', last := b[..|b| - 1], b[|b| - 1];
      OccurrencesConcat(c, a, b');
      assert a + b == (a + b') + [last];
      assert b == b' + [last];
      OccurrencesStep(c, a + b', last);
      OccurrencesStep(c, b', last);
    }
  }

  lemma {:induction false} SumOfOccurrences(c: Corpus, lists: seq<seq<nat>>, counters: seq<multiset<nat>>)
    requires |lists| == |counters|
    requires forall k :: 0 <= k < |lists| ==> counters[k] == Occurrences(c, lists[k])
    ensures Sum(counters) == Occurrences(c, Concat(lists))
  {
    if lists != [] {
      SumOfOccurrences(c, lists[1..], counters[1..]);
      OccurrencesConcat(c, lists[0], Concat(lists[1..]));
    }
  }

  /** Sequences with the same elements: the first of one is found in the other,
      and what remains has the same elements again. */
  lemma FindFirst(a: seq<nat>, b: seq<nat>) returns (k: nat)
    requires a != [] && multiset(a) == multiset(b)
    ensures k < |b| && b == b[..k] + [a[0]] + b[k + 1..]
    ensures multiset(a[1..]) == multiset(b[..k] + b[k + 1..])
  {
    assert a == [a[0]] + a[1..];
    assert a[0] in multiset(b);
    k :| 0 <= k < |b| && b[k] == a[0];
    var b1, b2 := b[..k], b[k + 1..];
    assert b == b1 + [a[0]] + b2;
    assert multiset(a) == multiset{a[0]} + multiset(a[1..]);
    assert multiset(b) == multiset(b1) + multiset{a[0]} + multiset(b2);
    assert multiset(b1 + b2) == multiset(b1) + multiset(b2);
    CancelOne(a[0], multiset(a[1..]), multiset(b1 + b2));
  }

  lemma CancelOne(x: nat, a: multiset<nat>, b: multiset<nat>)
    requires multiset{x} + a == multiset{x} + b
    ensures a == b
  {
    forall y
      ensures a[y] == b[y]
    {
      assert (multiset{x} + a)[y] == (multiset{x} + b)[y];
    }
  }

  lemma SameAsEmpty(b: seq<nat>)
    requires multiset(b) == multiset([])
    ensures b == []
  {
    assert |multiset(b)| == |b|;
  }

  /** The order in which files are counted does not matter. */
  lemma {:induction false} OccurrencesPermute(c: Corpus, a: seq<nat>, b: seq<nat>)
    requires multiset(a) == multiset(b)
    ensures Occurrences(c, a) == Occurrences(c, b)
    decreases |a|
  {
    if a == [] {
      SameAsEmpty(b);
    } else {
      var k := FindFirst(a, b);
      var first, b1, b2 := [a[0]], b[..k], b[k + 1..];
      OccurrencesPermute(c, a[1..], b1 + b2);
      hide Occurrences;
      OccurrencesConcat(c, first, a[1..]);
      assert a == first + a[1..];
      OccurrencesConcat(c, b1 + first, b2);
      OccurrencesConcat(c, b1, first);
      OccurrencesConcat(c, b1, b2);
    }
  }

  // -------------------------------------------------------------- trace_info

  /** The main process's table of records, as messages come in. */
  function TraceInfo(received: seq<(nat, nat)>, records: seq<map<nat, Record>>): map<nat, Record> {
    if received == [] then map[]
    else
      var info := TraceInfo(received[..|received| - 1], records);
      var (w, i) := received[|received| - 1];
      if w < |records| && i in records[w] then info[i := records[w][i]] else info
  }

  /** Every entry is some worker's record. */
  lemma {:induction false} InfoIsRecorded(received: seq<(nat, nat)>, records: seq<map<nat, Record>>, i: nat)
    requires i in TraceInfo(received, records)
    ensures exists w: nat :: w < |records| && i in records[w] && TraceInfo(received, records)[i] == records[w][i]
  {
    var (w, j) := received[|received| - 1];
    if w < |records| && j in records[w] && j == i {
      assert TraceInfo(received, records)[i] == records[w][i];
    } else {
      InfoIsRecorded(received[..|received| - 1], records, i);
    }
  }

  /** No record whose message was received is missing. */
  lemma {:induction false} RecordedIsKnown(received: seq<(nat, nat)>, records: seq<map<nat, Record>>, w: nat, i: nat)
    requires (w, i) in received && w < |records| && i in records[w]
    ensures i in TraceInfo(received, records)
  {
    var last := received[|received| - 1];
    if last != (w, i) {
      assert received == received[..|received| - 1] + [last];
      RecordedIsKnown(received[..|received| - 1], records, w, i);
    }
  }

  /** Every entry has come with a message. */
  lemma {:induction false} InfoIsReceived(received: seq<(nat, nat)>, records: seq<map<nat, Record>>, i: nat)
    requires i in TraceInfo(received, records)
    ensures exists w: nat :: (w, i) in received && w < |records| && i in records[w]
  {
    var before := received[..|received| - 1];
    var (w, j) := received[|received| - 1];
    if w < |records| && j in records[w] && j == i {
      assert (w, i) in received;
    } else {
      InfoIsReceived(before, records, i);
      var v: nat :| (v, i) in before && v < |records| && i in records[v];
      assert (v, i) in received;
    }
  }

  /** No file has records of two workers. */
  ghost predicate OneRecordEach(records: seq<map<nat, Record>>) {
    forall v: nat, w: nat, i: nat {:trigger i in records[v], i in records[w]} ::
      v < |records| && w < |records| && i in records[v] && i in records[w] ==> v == w
  }

  lemma InfoWithin(a: seq<(nat, nat)>, b: seq<(nat, nat)>, records: seq<map<nat, Record>>, i: nat)
    requires multiset(a) == multiset(b) && OneRecordEach(records) && i in TraceInfo(a, records)
    ensures i in TraceInfo(b, records) && TraceInfo(a, records)[i] == TraceInfo(b, records)[i]
  {
    InfoIsReceived(a, records, i);
    var w: nat :| (w, i) in a && w < |records| && i in records[w];
    assert (w, i) in multiset(a);
    assert (w, i) in b;
    RecordedIsKnown(b, records, w, i);
    InfoIsRecorded(a, records, i);
    InfoIsRecorded(b, records, i);
  }

  /** The table does not depend on the order in which messages arrive, so it does
      not matter how long the queue holds those of one worker back. */
  lemma InfoAnyOrder(a: seq<(nat, nat)>, b: seq<(nat, nat)>, records: seq<map<nat, Record>>)
    requires multiset(a) == multiset(b) && OneRecordEach(records)
    ensures TraceInfo(a, records) == TraceInfo(b, records)
  {
    forall i: nat
      ensures i in TraceInfo(a, records) <==> i in TraceInfo(b, records)
      ensures i in TraceInfo(a, records) ==> TraceInfo(a, records)[i] == TraceInfo(b, records)[i]
    {
      if i in TraceInfo(a, records) {
        InfoWithin(a, b, records, i);
      }
      if i in TraceInfo(b, records) {
        InfoWithin(b, a, records, i);
      }
    }
  }

  // ----------------------------------------------------------- the whole run

  /** The tables the two cover phases work from. */
  ghost predicate Plan(c: Corpus, best: seq<nat>, counter: multiset<nat>, info: map<nat, Record>,
                       packs: seq<seq<byte>>)
  {
    && IsMinTable(c, R.Range(|c.traces|), best)
    && counter == Occurrences(c, R.Range(|c.traces|))
    && (forall i :: i in info ==>
          && i < |c.traces| && info[i].worker < |packs|
          && PointsAt(packs[info[i].worker], info[i], TraceOf(c, i), c.width))
    && (forall t :: 0 <= t < |best| && best[t] != c.sentinel ==> best[t] in info)
  }

  /** What the workers hold when the run is over, by worker number. */
  datatype Outcome = Outcome(
    ms: seq<seq<nat>>, counters: seq<multiset<nat>>, crashes: seq<seq<nat>>,
    packs: seq<seq<byte>>, records: seq<map<nat, Record>>)

  ghost predicate OutcomeOf(c: Corpus, s: Q.State, o: Outcome) {
    && |o.ms| == |o.counters| == |o.crashes| == |o.packs| == |o.records| == |s.workers|
    && forall w :: 0 <= w < |s.workers| ==>
         Holds(c, w, s.workers[w].handled, o.ms[w], o.counters[w], o.crashes[w], o.packs[w], |o.packs[w]|, o.records[w])
  }

  /** Results in the order in which they were collected. */
  function InOrder<T>(order: seq<nat>, items: seq<T>): (r: seq<T>)
    requires forall k :: 0 <= k < |order| ==> order[k] < |items|
    ensures |r| == |order| && forall k :: 0 <= k < |order| ==> r[k] == items[order[k]]
  {
    seq(|order|, k requires 0 <= k < |order| => items[order[k]])
  }

  /** Handled files, taken in two orders of the same workers. */
  lemma {:induction false} OrderIrrelevant(lists: seq<seq<nat>>, a: seq<nat>, b: seq<nat>)
    requires multiset(a) == multiset(b)
    requires forall k :: 0 <= k < |a| ==> a[k] < |lists|
    requires forall k :: 0 <= k < |b| ==> b[k] < |lists|
    ensures multiset(Concat(InOrder(a, lists))) == multiset(Concat(InOrder(b, lists)))
    decreases |a|
  {
    if a == [] {
      SameAsEmpty(b);
    } else {
      var k := FindFirst(a, b);
      var first, b1, b2 := [a[0]], b[..k], b[k + 1..];
      OrderIrrelevant(lists, a[1..], b1 + b2);
      hide Concat, InOrder;
      ConcatSplits(first, a[1..], lists);
      assert a == first + a[1..];
      ConcatSplits(b1 + first, b2, lists);
      ConcatSplits(b1, first, lists);
      ConcatSplits(b1, b2, lists);
    }
  }

  /** The merged table is the same in whatever order the results arrive. */
  lemma MergedTableAnyOrder(ms: seq<seq<nat>>, a: seq<nat>, b: seq<nat>, maxTuple: nat)
    requires multiset(a) == multiset(b) && a != []
    requires forall k :: 0 <= k < |a| ==> a[k] < |ms|
    requires forall k :: 0 <= k < |b| ==> b[k] < |ms|
    requires forall k :: 0 <= k < |ms| ==> |ms[k]| == maxTuple
    ensures b != [] && BestIdxes(InOrder(a, ms), maxTuple) == BestIdxes(InOrder(b, ms), maxTuple)
  {
    assert |multiset(a)| == |a| && |multiset(b)| == |b|;
    forall t | 0 <= t < maxTuple
      ensures MinAt(InOrder(a, ms), t) == MinAt(InOrder(b, ms), t)
    {
      MinNotAbove(ms, a, b, t);
      MinNotAbove(ms, b, a, t);
    }
  }

  lemma MinNotAbove(ms: seq<seq<nat>>, a: seq<nat>, b: seq<nat>, t: nat)
    requires multiset(a) == multiset(b) && a != [] && b != []
    requires forall k :: 0 <= k < |a| ==> a[k] < |ms|
    requires forall k :: 0 <= k < |b| ==> b[k] < |ms|
    requires forall k :: 0 <= k < |ms| ==> t < |ms[k]|
    ensures MinAt(InOrder(a, ms), t) <= MinAt(InOrder(b, ms), t)
  {
    hide MinAt;
    var x, y := InOrder(a, ms), InOrder(b, ms);
    MinAtIsLeast(x, t);
    MinAtIsLeast(y, t);
    var k :| 0 <= k < |y| && MinAt(y, t) == y[k][t];
    assert b[k] in multiset(a);
    var j :| 0 <= j < |a| && a[j] == b[k];
    assert x[j] == y[k];
  }

  lemma {:induction false} ConcatSplits(a: seq<nat>, b: seq<nat>, lists: seq<seq<nat>>)
    requires forall k :: 0 <= k < |a| ==> a[k] < |lists|
    requires forall k :: 0 <= k < |b| ==> b[k] < |lists|
    ensures Concat(InOrder(a + b, lists)) == Concat(InOrder(a, lists)) + Concat(InOrder(b, lists))
  {
    if a == [] {
      assert a + b == b;
      assert InOrder(a, lists) == [];
    } else {
      ConcatSplits(a[1..], b, lists);
      assert InOrder(a, lists)[1..] == InOrder(a[1..], lists);
      assert InOrder(a + b, lists)[1..] == InOrder(a[1..] + b, lists);
    }
  }

  // --------------------------------------------------------- the whole theorem

  /** Every way the dispatcher, the workers and the queues can interleave ends
      in the same plan: the merged table holds the smallest index of any file
      with each tuple, the merged counter all occurrences, and every file that
      is best for a tuple has a record that points at its own trace. */
  lemma AnyRunGivesPlan(c: Corpus, chunk: nat, workers: nat, steps: seq<Q.Step>, s: Q.State, o: Outcome)
    requires WellFormed(c) && chunk >= 1 && workers >= 1
    requires Q.Run(Q.Init(R.Batched(R.Range(|c.traces|), chunk), workers), steps, s, |c.traces|)
    requires Q.Final(s, |c.traces|)
    requires OutcomeOf(c, s, o)
    ensures |s.workers| == workers && s.collected != []
    ensures forall k :: 0 <= k < |s.collected| ==> s.collected[k] < |s.workers|
    ensures forall w :: 0 <= w < |s.workers| ==> |o.ms[w]| == c.maxTuple
    ensures Plan(c, BestIdxes(InOrder(s.collected, o.ms), c.maxTuple), Sum(InOrder(s.collected, o.counters)),
                 TraceInfo(s.received, o.records), o.packs)
  {
    var all := R.Range(|c.traces|);
    R.EveryFileOnce(all, chunk, workers, steps, s);
    hide Q.Run, Q.Init, R.Batched, Q.Final, R.AllHandled, R.Range, OutcomeOf, Plan;
    CollectedOnce(s.collected, workers);
    MergedInOrder(c, s, o, all);
    PlanRecords(c, s, o, all);
  }

  lemma CollectedOnce(collected: seq<nat>, workers: nat)
    requires multiset(collected) == multiset(R.Range(workers)) && workers >= 1
    ensures collected != [] && forall k :: 0 <= k < |collected| ==> collected[k] < workers
  {
    forall k | 0 <= k < |collected|
      ensures collected[k] < workers
    {
      assert collected[k] in multiset(collected);
      assert collected[k] in R.Range(workers);
    }
    assert |multiset(collected)| == |collected| && |multiset(R.Range(workers))| == workers;
  }

  /** The handled files of all workers, by worker number. */
  function Lists(workers: seq<Q.Worker>): (r: seq<seq<nat>>)
    ensures |r| == |workers| && forall w :: 0 <= w < |workers| ==> r[w] == workers[w].handled
  {
    seq(|workers|, w requires 0 <= w < |workers| => workers[w].handled)
  }

  lemma {:induction false} ListsConcat(workers: seq<Q.Worker>)
    ensures Concat(Lists(workers)) == R.AllHandled(workers)
  {
    if workers != [] {
      ListsConcat(workers[1..]);
      assert Lists(workers)[1..] == Lists(workers[1..]);
    }
  }

  lemma MergedInOrder(c: Corpus, s: Q.State, o: Outcome, all: seq<nat>)
    requires OutcomeOf(c, s, o) && |s.workers| > 0 && s.collected != []
    requires forall k :: 0 <= k < |s.collected| ==> s.collected[k] < |s.workers|
    requires multiset(s.collected) == multiset(R.Range(|s.workers|))
    requires multiset(R.AllHandled(s.workers)) == multiset(all)
    ensures forall w :: 0 <= w < |s.workers| ==> |o.ms[w]| == c.maxTuple
    ensures IsMinTable(c, all, BestIdxes(InOrder(s.collected, o.ms), c.maxTuple))
    ensures Sum(InOrder(s.collected, o.counters)) == Occurrences(c, all)
  {
    var order, lists := s.collected, Lists(s.workers);
    OutcomeTables(c, s, o);
    hide IsMinTable, Occurrences, OutcomeOf, Concat, BestIdxes, Sum, R.AllHandled, R.Range, Lists, InOrder, Tables;
    ListsInOrder(s.workers, order, all);
    OrderedTables(c, order, lists, o.ms, o.counters);
    SameElements(Concat(InOrder(order, lists)), all);
    MergedMinTable(c, InOrder(order, lists), InOrder(order, o.ms), all);
    SumOfOccurrences(c, InOrder(order, lists), InOrder(order, o.counters));
    OccurrencesPermute(c, Concat(InOrder(order, lists)), all);
  }

  lemma OrderedTables(c: Corpus, order: seq<nat>, lists: seq<seq<nat>>, ms: seq<seq<nat>>, counters: seq<multiset<nat>>)
    requires |lists| == |ms| == |counters| && order != []
    requires forall w :: 0 <= w < |ms| ==> IsMinTable(c, lists[w], ms[w])
    requires forall w :: 0 <= w < |ms| ==> counters[w] == Occurrences(c, lists[w])
    requires forall k :: 0 <= k < |order| ==> order[k] < |lists|
    ensures Tables(c, InOrder(order, lists), InOrder(order, ms))
    ensures forall k :: 0 <= k < |order| ==> InOrder(order, counters)[k] == Occurrences(c, InOrder(order, lists)[k])
    ensures forall w :: 0 <= w < |ms| ==> |ms[w]| == c.maxTuple
  {
    TableSizes(c, lists, ms);
    hide IsMinTable, Occurrences;
  }

  lemma OutcomeTables(c: Corpus, s: Q.State, o: Outcome)
    requires OutcomeOf(c, s, o)
    ensures forall w :: 0 <= w < |s.workers| ==> IsMinTable(c, Lists(s.workers)[w], o.ms[w])
    ensures forall w :: 0 <= w < |s.workers| ==> o.counters[w] == Occurrences(c, Lists(s.workers)[w])
  {
    forall w | 0 <= w < |s.workers|
      ensures IsMinTable(c, Lists(s.workers)[w], o.ms[w])
      ensures o.counters[w] == Occurrences(c, Lists(s.workers)[w])
    {
      assert Holds(c, w, s.workers[w].handled, o.ms[w], o.counters[w], o.crashes[w], o.packs[w], |o.packs[w]|, o.records[w]);
      hide IsMinTable, Occurrences, RecordsFit;
    }
  }

  lemma TableSizes(c: Corpus, lists: seq<seq<nat>>, ms: seq<seq<nat>>)
    requires |lists| == |ms| && forall w :: 0 <= w < |ms| ==> IsMinTable(c, lists[w], ms[w])
    ensures forall w :: 0 <= w < |ms| ==> |ms[w]| == c.maxTuple
  {
    forall w | 0 <= w < |ms|
      ensures |ms[w]| == c.maxTuple
    {
      assert IsMinTable(c, lists[w], ms[w]);
    }
  }

  lemma SameElements(a: seq<nat>, b: seq<nat>)
    requires multiset(a) == multiset(b)
    ensures forall i :: i in a <==> i in b
  {
    assert forall i :: i in a <==> i in multiset(a);
    assert forall i :: i in b <==> i in multiset(b);
  }

  lemma ListsInOrder(workers: seq<Q.Worker>, order: seq<nat>, all: seq<nat>)
    requires forall k :: 0 <= k < |order| ==> order[k] < |workers|
    requires multiset(order) == multiset(R.Range(|workers|))
    requires multiset(R.AllHandled(workers)) == multiset(all)
    ensures multiset(Concat(InOrder(order, Lists(workers)))) == multiset(all)
  {
    var lists, n := Lists(workers), |workers|;
    ListsConcat(workers);
    NaturalOrder(lists);
    hide Lists, InOrder, Concat, R.AllHandled, R.Range;
    OrderIrrelevant(lists, order, R.Range(n));
  }

  lemma NaturalOrder<T>(items: seq<T>)
    ensures InOrder(R.Range(|items|), items) == items
  {
    hide R.Range, InOrder;
  }

  lemma OutcomeSizes(c: Corpus, s: Q.State, o: Outcome)
    requires OutcomeOf(c, s, o)
    ensures |o.ms| == |o.counters| == |o.crashes| == |o.packs| == |o.records| == |s.workers|
  {
  }

  lemma PlanRecords(c: Corpus, s: Q.State, o: Outcome, all: seq<nat>)
    requires OutcomeOf(c, s, o) && s.collected != []
    requires all == R.Range(|c.traces|)
    requires forall k :: 0 <= k < |s.collected| ==> s.collected[k] < |s.workers|
    requires forall w: nat, f: nat ::
               Q.Count<(nat, nat)>(s.received, (w, f)) == Q.Count<nat>(Q.HandledBy(s, w), f)
    requires multiset(R.AllHandled(s.workers)) == multiset(all)
    requires forall w :: 0 <= w < |s.workers| ==> |o.ms[w]| == c.maxTuple
    requires IsMinTable(c, all, BestIdxes(InOrder(s.collected, o.ms), c.maxTuple))
    requires Sum(InOrder(s.collected, o.counters)) == Occurrences(c, all)
    ensures Plan(c, BestIdxes(InOrder(s.collected, o.ms), c.maxTuple), Sum(InOrder(s.collected, o.counters)),
                 TraceInfo(s.received, o.records), o.packs)
  {
    hide OutcomeOf, IsMinTable, Occurrences, Sum, TraceInfo, PointsAt, R.AllHandled, R.Range, Q.Count, Q.HandledBy, MinAt, InOrder;
    OutcomeSizes(c, s, o);
    var best, info := BestIdxes(InOrder(s.collected, o.ms), c.maxTuple), TraceInfo(s.received, o.records);
    forall i | i in info
      ensures i < |c.traces| && info[i].worker < |o.packs|
      ensures PointsAt(o.packs[info[i].worker], info[i], TraceOf(c, i), c.width)
    {
      InfoFits(c, s, o, i);
    }
    forall t | 0 <= t < |best| && best[t] != c.sentinel
      ensures best[t] in info
    {
      BestIsKnown(c, s, o, t);
    }
  }

  lemma InfoFits(c: Corpus, s: Q.State, o: Outcome, i: nat)
    requires OutcomeOf(c, s, o)
    requires multiset(R.AllHandled(s.workers)) == multiset(R.Range(|c.traces|))
    requires i in TraceInfo(s.received, o.records)
    ensures var r := TraceInfo(s.received, o.records)[i];
            i < |c.traces| && r.worker < |o.packs| && PointsAt(o.packs[r.worker], r, TraceOf(c, i), c.width)
  {
    hide TraceInfo, PointsAt, IsMinTable, Occurrences, Crashed;
    InfoIsRecorded(s.received, o.records, i);
    var w: nat :| w < |o.records| && i in o.records[w] && TraceInfo(s.received, o.records)[i] == o.records[w][i];
    assert Holds(c, w, s.workers[w].handled, o.ms[w], o.counters[w], o.crashes[w], o.packs[w], |o.packs[w]|, o.records[w]);
    HandledIsFile(c, s, w, i);
  }

  lemma HandledIsFile(c: Corpus, s: Q.State, w: nat, i: nat)
    requires multiset(R.AllHandled(s.workers)) == multiset(R.Range(|c.traces|))
    requires w < |s.workers| && i in s.workers[w].handled
    ensures i < |c.traces|
  {
    var lists := Lists(s.workers);
    ListsConcat(s.workers);
    hide Concat, R.AllHandled, R.Range;
    assert i in lists[w];
    InConcat(lists, i);
    SameElements(R.AllHandled(s.workers), R.Range(|c.traces|));
  }

  /** The file that is best for t overall was already best for t in the table
      of the worker that handled it, so that worker kept a record. */
  lemma BestIsKnown(c: Corpus, s: Q.State, o: Outcome, t: nat)
    requires OutcomeOf(c, s, o) && s.collected != []
    requires forall k :: 0 <= k < |s.collected| ==> s.collected[k] < |s.workers|
    requires forall w: nat, f: nat ::
               Q.Count<(nat, nat)>(s.received, (w, f)) == Q.Count<nat>(Q.HandledBy(s, w), f)
    requires forall w :: 0 <= w < |s.workers| ==> |o.ms[w]| == c.maxTuple
    requires t < c.maxTuple && MinAt(InOrder(s.collected, o.ms), t) != c.sentinel
    ensures MinAt(InOrder(s.collected, o.ms), t) in TraceInfo(s.received, o.records)
  {
    var ms := InOrder(s.collected, o.ms);
    var i := MinAt(ms, t);
    MinAtIsLeast(ms, t);
    var k :| 0 <= k < |ms| && i == ms[k][t];
    var w := s.collected[k];
    assert Holds(c, w, s.workers[w].handled, o.ms[w], o.counters[w], o.crashes[w], o.packs[w], |o.packs[w]|, o.records[w]);
    hide PointsAt, TraceInfo, MinAt;
    assert i in o.records[w] && i in s.workers[w].handled;
    Received(s, w, i);
    RecordedIsKnown(s.received, o.records, w, i);
  }

  lemma Received(s: Q.State, w: nat, i: nat)
    requires Q.Count<(nat, nat)>(s.received, (w, i)) == Q.Count<nat>(Q.HandledBy(s, w), i)
    requires w < |s.workers| && i in s.workers[w].handled
    ensures (w, i) in s.received
  {
    Q.CountIsMultiplicity<(nat, nat)>(s.received, (w, i));
    Q.CountIsMultiplicity<nat>(Q.HandledBy(s, w), i);
  }
}
