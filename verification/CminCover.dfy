/** The corpus minimiser: the two phases that choose the files to save.

  Phase one saves, for every tuple that occurs exactly once, the one file that
  has it.  Phase two goes through the tuples again, rarest last in the list
  and so first in the walk, and saves the best file for every tuple that the
  saved files do not have yet.
 */
module CminCover {
  import opened Words
  import opened CminWorker
  import opened CminMerge
  import R = CminRuns

  // ------------------------------------------------------------- vocabulary

  /** Tuple t occurs in the corpus. */
  ghost predicate Seen(c: Corpus, t: nat) {
    exists i :: 0 <= i < |c.traces| && t in c.traces[i]
  }

  ghost predicate Has(c: Corpus, files: seq<nat>, t: nat) {
    exists i :: i in files && t in TraceOf(c, i)
  }

  /** The files together have every tuple seen. */
  ghost predicate Covers(c: Corpus, files: seq<nat>) {
    forall t :: Seen(c, t) ==> Has(c, files, t)
  }

  /** Some tuple is in this file and in no other. */
  ghost predicate Essential(c: Corpus, i: nat) {
    exists t :: t in TraceOf(c, i) && OnlyIn(c, i, t)
  }

  ghost predicate OnlyIn(c: Corpus, i: nat, t: nat) {
    forall j :: 0 <= j < |c.traces| && t in c.traces[j] ==> j == i
  }

  ghost predicate Distinct(s: seq<nat>) {
    forall i, j :: 0 <= i < j < |s| ==> s[i] != s[j]
  }

  /** No tuple occurs twice in one trace. */
  ghost predicate DuplicateFree(c: Corpus) {
    forall i :: 0 <= i < |c.traces| ==> Distinct(c.traces[i])
  }

  /** An essential file is in every covering choice of files. */
  lemma EssentialIsEverywhere(c: Corpus, i: nat, files: seq<nat>)
    requires Essential(c, i) && Covers(c, files)
    ensures i in files
  {
    var t :| t in TraceOf(c, i) && OnlyIn(c, i, t);
    assert Seen(c, t);
    var j :| j in files && t in TraceOf(c, j);
  }

  // ------------------------------------------------- counts and the counter

  lemma {:induction false} CountedIfSeen(c: Corpus, files: seq<nat>, t: nat)
    ensures t in Occurrences(c, files) <==> Has(c, files, t)
    decreases |files|
  {
    if files != [] {
      var last, rest := files[|files| - 1], files[..|files| - 1];
      CountedIfSeen(c, rest, t);
      assert files == rest + [last];
      assert t in multiset(TraceOf(c, last)) <==> t in TraceOf(c, last);
    }
  }

  /** A tuple counted once has no second file. */
  lemma {:induction false} CountedOnce(c: Corpus, files: seq<nat>, t: nat, i: nat, j: nat)
    requires Distinct(files) && i in files && j in files
    requires t in TraceOf(c, i) && t in TraceOf(c, j) && i != j
    ensures Occurrences(c, files)[t] >= 2
    decreases |files|
  {
    var last, rest := files[|files| - 1], files[..|files| - 1];
    assert files == rest + [last];
    assert t in TraceOf(c, last) ==> t in multiset(TraceOf(c, last));
    if i == last || j == last {
      var other := if i == last then j else i;
      assert other in rest;
      assert Has(c, rest, t);
      CountedIfSeen(c, rest, t);
    } else {
      CountedOnce(c, rest, t, i, j);
    }
  }

  /** Without repeats in traces, a tuple of a single file is counted once. */
  lemma {:induction false} CountedOnceIfOnly(c: Corpus, files: seq<nat>, t: nat, i: nat)
    requires DuplicateFree(c) && Distinct(files)
    requires forall j :: j in files && t in TraceOf(c, j) ==> j == i
    ensures Occurrences(c, files)[t] <= 1
    ensures i !in files ==> Occurrences(c, files)[t] == 0
    decreases |files|
  {
    if files != [] {
      var last, rest := files[|files| - 1], files[..|files| - 1];
      assert files == rest + [last];
      CountedOnceIfOnly(c, rest, t, i);
      OneOfDistinct(TraceOf(c, last), t);
      assert t in multiset(TraceOf(c, last)) <==> t in TraceOf(c, last);
    }
  }

  lemma {:induction false} OneOfDistinct(s: seq<nat>, t: nat)
    requires Distinct(s)
    ensures multiset(s)[t] <= 1
  {
    if s != [] {
      var last, rest := s[|s| - 1], s[..|s| - 1];
      assert s == rest + [last];
      OneOfDistinct(rest, t);
      assert last == t ==> t !in multiset(rest);
    }
  }

  // ----------------------------------------------------- reading traces back

  /** The jobs for one worker's pack point at the traces of these files. */
  ghost predicate JobsFit(c: Corpus, w: nat, pack: seq<byte>, jobs: seq<(nat, nat)>, files: seq<nat>) {
    && |jobs| == |files|
    && forall k :: 0 <= k < |jobs| ==>
         PointsAt(pack, Record(w, jobs[k].0, jobs[k].1), TraceOf(c, files[k]), c.width)
  }

  /** CombineTraceWorker.run: the union of the traces that the jobs point at. */
  method CombineTraces(c: Corpus, ghost w: nat, pack: seq<byte>, jobs: seq<(nat, nat)>, ghost files: seq<nat>)
    returns (have: set<nat>)
    requires JobsFit(c, w, pack, jobs, files)
    ensures forall t :: t in have <==> Has(c, files, t)
  {
    hide *;
    have := {};
    var k := 0;
    NothingRead(c, w, pack, jobs, files);
    while k < |jobs|
      invariant 0 <= k <= |jobs|
      invariant forall t :: t in have <==> Has(c, files[..k], t)
    {
      var (pos, count) := jobs[k];
      JobReads(c, w, pack, jobs, files, k);
      var trace := Decode(pack[pos..], count, c.width).value;
      have := have + (set t | t in trace);
      HasOneMore(c, files[..k], files[k]);
      assert files[..k + 1] == files[..k] + [files[k]];
      k := k + 1;
    }
    assert files[..k] == files;
  }

  lemma NothingRead(c: Corpus, w: nat, pack: seq<byte>, jobs: seq<(nat, nat)>, files: seq<nat>)
    requires JobsFit(c, w, pack, jobs, files)
    ensures |files| == |jobs| && forall t :: !Has(c, files[..0], t)
  {
  }

  lemma JobReads(c: Corpus, w: nat, pack: seq<byte>, jobs: seq<(nat, nat)>, files: seq<nat>, k: nat)
    requires JobsFit(c, w, pack, jobs, files) && k < |jobs|
    ensures |files| == |jobs| && jobs[k].0 <= |pack|
    ensures var read := Decode(pack[jobs[k].0..], jobs[k].1, c.width); read.Some? && read.value == TraceOf(c, files[k])
  {
    hide Decode, TraceOf;
    assert PointsAt(pack, Record(w, jobs[k].0, jobs[k].1), TraceOf(c, files[k]), c.width);
  }

  lemma HasOneMore(c: Corpus, files: seq<nat>, i: nat)
    ensures forall t :: Has(c, files + [i], t) <==> Has(c, files, t) || t in TraceOf(c, i)
  {
    forall t
      ensures Has(c, files + [i], t) <==> Has(c, files, t) || t in TraceOf(c, i)
    {
      if t in TraceOf(c, i) {
        assert i in files + [i];
      }
      if Has(c, files, t) {
        var j :| j in files && t in TraceOf(c, j);
        assert j in files + [i];
      }
    }
  }

  // ------------------------------------------------------------- the phases

  /** Every tuple of the counter, once, the most common ones first; equally
      common ones in any order. */
  ghost predicate MostCommonFirst(order: seq<nat>, counter: multiset<nat>) {
    && Distinct(order) && (forall t :: t in order <==> t in counter)
    && forall i, j :: 0 <= i < j < |order| ==> counter[order[i]] >= counter[order[j]]
  }

  /** The first of the files with tuple t. */
  ghost predicate IsFirstWith(c: Corpus, i: nat, t: nat) {
    i < |c.traces| && t in c.traces[i] && forall j :: 0 <= j < |c.traces| && t in c.traces[j] ==> i <= j
  }

  /** What the plan says of a tuple: its best file is the first with the tuple,
      and its trace can be read back. */
  lemma BestOf(c: Corpus, best: seq<nat>, counter: multiset<nat>, info: map<nat, Record>, packs: seq<seq<byte>>, t: nat)
    requires WellFormed(c) && Plan(c, best, counter, info, packs) && t in counter
    ensures t < |best| && IsFirstWith(c, best[t], t)
    ensures best[t] in info && info[best[t]].worker < |packs|
    ensures PointsAt(packs[info[best[t]].worker], info[best[t]], TraceOf(c, best[t]), c.width)
  {
    var all := R.Range(|c.traces|);
    CountedIfSeen(c, all, t);
    var i :| i in all && t in TraceOf(c, i);
    hide PointsAt, Occurrences;
    assert best[t] <= i < |c.traces| <= c.sentinel;
    forall j | 0 <= j < |c.traces| && t in c.traces[j]
      ensures best[t] <= j
    {
      assert all[j] == j && j in all && t in TraceOf(c, j);
    }
  }

  /** The best file of some tuple that occurs once. */
  ghost predicate BestOfUnique(best: seq<nat>, counter: multiset<nat>, i: nat) {
    exists t :: 0 <= t < |best| && counter[t] == 1 && best[t] == i
  }

  /** Jobs by worker, and the files they stand for: exactly the saved ones. */
  ghost predicate JobsOf(c: Corpus, packs: seq<seq<byte>>, jobs: seq<seq<(nat, nat)>>, files: seq<seq<nat>>, saved: seq<nat>) {
    && |jobs| == |files| == |packs|
    && (forall w :: 0 <= w < |packs| ==> JobsFit(c, w, packs[w], jobs[w], files[w]))
    && (forall i :: i in saved <==> exists w :: 0 <= w < |files| && i in files[w])
  }

  lemma JobAdded(c: Corpus, packs: seq<seq<byte>>, jobs: seq<seq<(nat, nat)>>, files: seq<seq<nat>>, saved: seq<nat>,
                 i: nat, r: Record)
    requires JobsOf(c, packs, jobs, files, saved)
    requires r.worker < |packs| && PointsAt(packs[r.worker], r, TraceOf(c, i), c.width)
    ensures JobsOf(c, packs, jobs[r.worker := jobs[r.worker] + [(r.pos, r.count)]],
                   files[r.worker := files[r.worker] + [i]], saved + [i])
  {
    hide PointsAt;
    var w0 := r.worker;
    var jobs', files' := jobs[w0 := jobs[w0] + [(r.pos, r.count)]], files[w0 := files[w0] + [i]];
    assert r == Record(w0, r.pos, r.count);
    assert JobsFit(c, w0, packs[w0], jobs[w0], files[w0]);
    forall j
      ensures j in saved + [i] <==> exists w :: 0 <= w < |files'| && j in files'[w]
    {
      if j in saved {
        var w :| 0 <= w < |files| && j in files[w];
        assert j in files'[w];
      }
      if j == i {
        assert j in files'[w0];
      }
    }
  }

  /** jobs[worker_idx].append((pos, tuple_count)) */
  method AddJob(c: Corpus, packs: seq<seq<byte>>, jobs: seq<seq<(nat, nat)>>, ghost files: seq<seq<nat>>,
                ghost saved: seq<nat>, ghost i: nat, r: Record)
    returns (jobs': seq<seq<(nat, nat)>>, ghost files': seq<seq<nat>>)
    requires JobsOf(c, packs, jobs, files, saved)
    requires r.worker < |packs| && PointsAt(packs[r.worker], r, TraceOf(c, i), c.width)
    ensures JobsOf(c, packs, jobs', files', saved + [i])
  {
    JobAdded(c, packs, jobs, files, saved, i, r);
    JobsShape(c, packs, jobs, files, saved);
    hide JobsOf, PointsAt;
    jobs' := jobs[r.worker := jobs[r.worker] + [(r.pos, r.count)]];
    files' := files[r.worker := files[r.worker] + [i]];
  }

  /** Phase one: the files of the tuples that occur once. */
  method SaveUnique(c: Corpus, best: seq<nat>, counter: multiset<nat>, info: map<nat, Record>, packs: seq<seq<byte>>,
                    order: seq<nat>)
    returns (saved: seq<nat>, jobs: seq<seq<(nat, nat)>>, ghost files: seq<seq<nat>>)
    requires WellFormed(c) && Plan(c, best, counter, info, packs) && MostCommonFirst(order, counter)
    ensures Distinct(saved)
    ensures forall i :: i in saved <==> BestOfUnique(best, counter, i)
    ensures JobsOf(c, packs, jobs, files, saved)
  {
    hide PointsAt, Plan, WellFormed, JobsOf, Distinct, MostCommonFirst, IsFirstWith;
    AllOfThem(order, counter);
    saved, jobs, files := [], seq(|packs|, _ => []), seq(|packs|, _ => []);
    NoJobs(c, packs);
    var k := 0;
    while k < |order|
      invariant 0 <= k <= |order|
      invariant Distinct(saved)
      invariant forall t :: t in order[..k] ==> t < |best| && (counter[t] == 1 ==> best[t] in saved)
      invariant forall i :: i in saved ==> BestOfUnique(best, counter, i)
      invariant JobsOf(c, packs, jobs, files, saved)
    {
      var t := order[k];
      assert order[..k + 1] == order[..k] + [t];
      BestOf(c, best, counter, info, packs, t);
      if counter[t] == 1 && best[t] !in saved {
        var i := best[t];
        var r := info[i];
        jobs, files := AddJob(c, packs, jobs, files, saved, i, r);
        DistinctLonger(saved, i);
        assert BestOfUnique(best, counter, i);
        saved := saved + [i];
      }
      k := k + 1;
    }
    assert order[..k] == order;
    forall i | BestOfUnique(best, counter, i)
      ensures i in saved
    {
      var t :| 0 <= t < |best| && counter[t] == 1 && best[t] == i;
      assert t in order;
    }
  }

  lemma NoJobs(c: Corpus, packs: seq<seq<byte>>)
    ensures JobsOf(c, packs, seq(|packs|, _ => []), seq(|packs|, _ => []), []) && Distinct([])
  {
  }

  lemma DistinctLonger(s: seq<nat>, x: nat)
    requires Distinct(s) && x !in s
    ensures Distinct(s + [x])
  {
  }

  lemma JobsShape(c: Corpus, packs: seq<seq<byte>>, jobs: seq<seq<(nat, nat)>>, files: seq<seq<nat>>, saved: seq<nat>)
    requires JobsOf(c, packs, jobs, files, saved)
    ensures |jobs| == |files| == |packs|
  {
  }

  /** Between the phases: all packs' jobs combined. */
  method CombineAll(c: Corpus, packs: seq<seq<byte>>, jobs: seq<seq<(nat, nat)>>, ghost files: seq<seq<nat>>, ghost saved: seq<nat>)
    returns (have: set<nat>)
    requires JobsOf(c, packs, jobs, files, saved)
    ensures forall t :: t in have <==> Has(c, saved, t)
  {
    have := {};
    var w := 0;
    JobsShape(c, packs, jobs, files, saved);
    while w < |packs|
      invariant 0 <= w <= |packs|
      invariant forall t :: t in have <==> HasBefore(c, files, w, t)
    {
      assert JobsFit(c, w, packs[w], jobs[w], files[w]);
      hide Has, HasBefore, JobsFit, JobsOf;
      var result := CombineTraces(c, w, packs[w], jobs[w], files[w]);
      have := have + result;
      OneMoreList(c, files, w);
      w := w + 1;
    }
    hide Has, HasBefore, JobsFit, JobsOf;
    forall t
      ensures t in have <==> Has(c, saved, t)
    {
      SavedHas(c, packs, jobs, files, saved, t);
    }
  }

  /** One of the first w lists has tuple t. */
  ghost predicate HasBefore(c: Corpus, files: seq<seq<nat>>, w: nat, t: nat)
    requires w <= |files|
  {
    exists v :: 0 <= v < w && Has(c, files[v], t)
  }

  lemma OneMoreList(c: Corpus, files: seq<seq<nat>>, w: nat)
    requires w < |files|
    ensures forall t :: HasBefore(c, files, w + 1, t) <==> HasBefore(c, files, w, t) || Has(c, files[w], t)
  {
    hide Has;
  }

  lemma SavedHas(c: Corpus, packs: seq<seq<byte>>, jobs: seq<seq<(nat, nat)>>, files: seq<seq<nat>>, saved: seq<nat>, t: nat)
    requires JobsOf(c, packs, jobs, files, saved)
    ensures |packs| == |files| && (Has(c, saved, t) <==> HasBefore(c, files, |packs|, t))
  {
    hide JobsFit;
    if Has(c, saved, t) {
      var i :| i in saved && t in TraceOf(c, i);
      var v :| 0 <= v < |files| && i in files[v];
      assert Has(c, files[v], t);
    }
    if v :| 0 <= v < |packs| && Has(c, files[v], t) {
      var i :| i in files[v] && t in TraceOf(c, i);
      assert i in saved;
    }
  }

  /** File k of the list has a tuple that none before it has. */
  ghost predicate Adds(c: Corpus, saved: seq<nat>, k: nat)
    requires k < |saved|
  {
    exists t :: t in TraceOf(c, saved[k]) && !Has(c, saved[..k], t)
  }

  /** How often a tuple occurs in the corpus. */
  ghost function Occurs(c: Corpus, t: nat): nat {
    Occurrences(c, R.Range(|c.traces|))[t]
  }

  /** Tuple t is a rarest one of those that the files do not have. */
  ghost predicate RarestMissing(c: Corpus, files: seq<nat>, t: nat) {
    && Seen(c, t) && !Has(c, files, t)
    && forall u :: Seen(c, u) && !Has(c, files, u) ==> Occurs(c, t) <= Occurs(c, u)
  }

  /** File k of the list is the first with a rarest one of the tuples that the
      files before it do not have. */
  ghost predicate RarestFirst(c: Corpus, saved: seq<nat>, k: nat)
    requires k < |saved|
  {
    exists t :: RarestMissing(c, saved[..k], t) && IsFirstWith(c, saved[k], t)
  }

  lemma RarestAdds(c: Corpus, saved: seq<nat>, k: nat)
    requires k < |saved| && RarestFirst(c, saved, k)
    ensures Adds(c, saved, k)
  {
    var t :| RarestMissing(c, saved[..k], t) && IsFirstWith(c, saved[k], t);
    assert t in TraceOf(c, saved[k]);
  }

  /** Looks the best file of a tuple up and reads its trace from the pack. */
  method ReadBest(c: Corpus, best: seq<nat>, counter: multiset<nat>, info: map<nat, Record>, packs: seq<seq<byte>>, t: nat)
    returns (i: nat, trace: Trace)
    requires WellFormed(c) && Plan(c, best, counter, info, packs) && t in counter
    ensures t < |best| && i == best[t] && IsFirstWith(c, i, t)
    ensures i < |c.traces| && trace == TraceOf(c, i) && t in trace
  {
    BestOf(c, best, counter, info, packs, t);
    hide Plan, Decode;
    i := best[t];
    var r := info[i];
    trace := Decode(packs[r.worker][r.pos..], r.count, c.width).value;
  }

  /** Phase two: from the rarest tuple to the most common one, the first file of
      every tuple not yet had. */
  method SaveMissing(c: Corpus, best: seq<nat>, counter: multiset<nat>, info: map<nat, Record>, packs: seq<seq<byte>>,
                     order: seq<nat>, unique: seq<nat>, had: set<nat>)
    returns (saved: seq<nat>)
    requires WellFormed(c) && Plan(c, best, counter, info, packs) && MostCommonFirst(order, counter)
    requires Distinct(unique) && forall t :: t in had <==> Has(c, unique, t)
    requires forall i :: i in unique ==> i < |c.traces|
    ensures Distinct(saved) && unique <= saved
    ensures forall i :: i in saved ==> i < |c.traces|
    ensures forall k :: |unique| <= k < |saved| ==> RarestFirst(c, saved, k)
    ensures forall t :: t in counter ==> Has(c, saved, t)
  {
    hide Plan, WellFormed, Has, Distinct, MostCommonFirst, RarestFirst, IsFirstWith, RarestMissing;
    AllOfThem(order, counter);
    saved := unique;
    var have := had;
    var k := |order|;
    while k > 0
      invariant 0 <= k <= |order|
      invariant Distinct(saved) && unique <= saved
      invariant forall i :: i in saved ==> i < |c.traces|
      invariant forall t :: t in have <==> Has(c, saved, t)
      invariant forall j :: |unique| <= j < |saved| ==> RarestFirst(c, saved, j)
      invariant forall t :: t in order[k..] ==> t in have
    {
      k := k - 1;
      var t := order[k];
      assert order[k..] == [t] + order[k + 1..];
      if t !in have {
        var i, trace := ReadBest(c, best, counter, info, packs, t);
        RarestLeft(c, best, counter, info, packs, order, k, saved);
        SavesNew(c, unique, saved, t, i);
        have := have + (set u | u in trace);
        HasOneMore(c, saved, i);
        saved := saved + [i];
      }
    }
    assert order[0..] == order;
  }

  /** A file with a tuple that no saved file has is not saved yet. */
  lemma SavesNew(c: Corpus, unique: seq<nat>, saved: seq<nat>, t: nat, i: nat)
    requires Distinct(saved) && unique <= saved
    requires forall j :: |unique| <= j < |saved| ==> RarestFirst(c, saved, j)
    requires RarestMissing(c, saved, t) && IsFirstWith(c, i, t)
    ensures Distinct(saved + [i])
    ensures forall j :: |unique| <= j < |saved + [i]| ==> RarestFirst(c, saved + [i], j)
  {
    assert t in TraceOf(c, i);
    assert i !in saved;
    hide RarestMissing, IsFirstWith;
    var saved' := saved + [i];
    forall j | |unique| <= j < |saved'|
      ensures RarestFirst(c, saved', j)
    {
      if j < |saved| {
        assert saved'[..j] == saved[..j];
        assert RarestFirst(c, saved, j);
      } else {
        assert saved'[..j] == saved;
      }
    }
  }

  lemma AllOfThem(order: seq<nat>, counter: multiset<nat>)
    requires MostCommonFirst(order, counter)
    ensures forall t :: t in order <==> t in counter
  {
  }

  /** When every tuple behind order[k] is had, and order[k] is not, nothing rarer
      is missing. */
  lemma RarestLeft(c: Corpus, best: seq<nat>, counter: multiset<nat>, info: map<nat, Record>, packs: seq<seq<byte>>,
                   order: seq<nat>, k: nat, saved: seq<nat>)
    requires Plan(c, best, counter, info, packs) && MostCommonFirst(order, counter) && k < |order|
    requires !Has(c, saved, order[k]) && forall t :: t in order[k + 1..] ==> Has(c, saved, t)
    ensures RarestMissing(c, saved, order[k])
  {
    hide Plan, Has, Seen, Occurrences, R.Range, Distinct;
    PlanCounts(c, best, counter, info, packs);
    CountedAreSeen(c, order[k]);
    forall i | k + 1 <= i < |order|
      ensures Has(c, saved, order[i])
    {
      assert order[k + 1..][i - k - 1] == order[i];
    }
    forall u | Seen(c, u) && !Has(c, saved, u)
      ensures counter[order[k]] <= counter[u]
    {
      CountedAreSeen(c, u);
      var i :| 0 <= i < |order| && order[i] == u;
    }
  }

  lemma CountedAreSeen(c: Corpus, t: nat)
    ensures t in Occurrences(c, R.Range(|c.traces|)) <==> Seen(c, t)
  {
    var all := R.Range(|c.traces|);
    CountedIfSeen(c, all, t);
    hide Occurrences;
    if i :| 0 <= i < |c.traces| && t in c.traces[i] {
      assert all[i] == i && i in all;
    }
  }

  // ---------------------------------------------------------------- together

  /** The files saved, `unique` of them in phase one: no file twice; every
      tuple seen is covered; phase one saves only files that no covering
      choice can do without, and all of them if no trace repeats a tuple;
      every later file is the first one with a rarest missing tuple. */
  method Minimise(c: Corpus, best: seq<nat>, counter: multiset<nat>, info: map<nat, Record>, packs: seq<seq<byte>>,
                  order: seq<nat>)
    returns (saved: seq<nat>, unique: nat)
    requires WellFormed(c) && Plan(c, best, counter, info, packs) && MostCommonFirst(order, counter)
    ensures Distinct(saved) && unique <= |saved|
    ensures forall i :: i in saved ==> i < |c.traces|
    ensures Covers(c, saved)
    ensures forall i :: i in saved[..unique] ==> Essential(c, i)
    ensures DuplicateFree(c) ==> forall i :: Essential(c, i) ==> i in saved[..unique]
    ensures forall k :: unique <= k < |saved| ==> RarestFirst(c, saved, k)
  {
    hide WellFormed, Plan, MostCommonFirst, Distinct, JobsOf, Covers, Essential, DuplicateFree, RarestFirst, BestOfUnique, Has;
    var first, jobs;
    ghost var files;
    first, jobs, files := SaveUnique(c, best, counter, info, packs, order);
    forall i | i in first
      ensures i < |c.traces| && Essential(c, i)
    {
      UniqueIsEssential(c, best, counter, info, packs, i);
    }
    forall i | DuplicateFree(c) && Essential(c, i)
      ensures i in first
    {
      EssentialIsUnique(c, best, counter, info, packs, i);
    }
    var have := CombineAll(c, packs, jobs, files, first);
    saved := SaveMissing(c, best, counter, info, packs, order, first, have);
    unique := |first|;
    assert saved[..unique] == first;
    CounterCovers(c, best, counter, info, packs, saved);
  }

  lemma CounterCovers(c: Corpus, best: seq<nat>, counter: multiset<nat>, info: map<nat, Record>, packs: seq<seq<byte>>,
                      saved: seq<nat>)
    requires Plan(c, best, counter, info, packs)
    requires forall t :: t in counter ==> Has(c, saved, t)
    ensures Covers(c, saved)
  {
    hide PointsAt, Occurrences, IsMinTable;
    forall t | Seen(c, t)
      ensures Has(c, saved, t)
    {
      var i :| 0 <= i < |c.traces| && t in c.traces[i];
      assert i in R.Range(|c.traces|) by { assert R.Range(|c.traces|)[i] == i; }
      assert Has(c, R.Range(|c.traces|), t);
      CountedIfSeen(c, R.Range(|c.traces|), t);
    }
  }

  lemma RangeDistinct(n: nat)
    ensures Distinct(R.Range(n))
  {
  }

  lemma UniqueIsEssential(c: Corpus, best: seq<nat>, counter: multiset<nat>, info: map<nat, Record>, packs: seq<seq<byte>>,
                          i: nat)
    requires WellFormed(c) && Plan(c, best, counter, info, packs) && BestOfUnique(best, counter, i)
    ensures i < |c.traces| && Essential(c, i)
  {
    var all := R.Range(|c.traces|);
    RangeDistinct(|c.traces|);
    var t :| 0 <= t < |best| && counter[t] == 1 && best[t] == i;
    BestOf(c, best, counter, info, packs, t);
    hide PointsAt, Occurrences, IsMinTable, R.Range;
    forall j | 0 <= j < |c.traces| && t in c.traces[j]
      ensures j == i
    {
      if j != i {
        assert all[i] == i && all[j] == j;
        CountedOnce(c, all, t, i, j);
      }
    }
    assert OnlyIn(c, i, t);
  }

  lemma EssentialIsUnique(c: Corpus, best: seq<nat>, counter: multiset<nat>, info: map<nat, Record>, packs: seq<seq<byte>>,
                          i: nat)
    requires WellFormed(c) && Plan(c, best, counter, info, packs)
    requires DuplicateFree(c) && Essential(c, i)
    ensures BestOfUnique(best, counter, i)
  {
    var all := R.Range(|c.traces|);
    RangeDistinct(|c.traces|);
    var t :| t in TraceOf(c, i) && OnlyIn(c, i, t);
    SingleFile(c, i, t);
    hide *;
    PlanCounts(c, best, counter, info, packs);
    CountedIfSeen(c, all, t);
    CountedOnceIfOnly(c, all, t, i);
    BestOf(c, best, counter, info, packs, t);
    FoundBest(c, best, counter, i, t);
  }

  lemma SingleFile(c: Corpus, i: nat, t: nat)
    requires t in TraceOf(c, i) && OnlyIn(c, i, t)
    ensures Has(c, R.Range(|c.traces|), t)
    ensures forall j :: t in TraceOf(c, j) ==> j == i
  {
    assert R.Range(|c.traces|)[i] == i;
  }

  lemma FoundBest(c: Corpus, best: seq<nat>, counter: multiset<nat>, i: nat, t: nat)
    requires forall j :: t in TraceOf(c, j) ==> j == i
    requires t < |best| && t in TraceOf(c, best[t]) && t in counter && counter[t] <= 1
    ensures BestOfUnique(best, counter, i)
  {
    assert best[t] == i;
  }

  lemma PlanCounts(c: Corpus, best: seq<nat>, counter: multiset<nat>, info: map<nat, Record>, packs: seq<seq<byte>>)
    requires Plan(c, best, counter, info, packs)
    ensures counter == Occurrences(c, R.Range(|c.traces|))
  {
  }
}
