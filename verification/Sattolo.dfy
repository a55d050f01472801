/** Sattolo's way to rearrange positions: whatever is drawn, the result is one
    cycle through all of them. */
module Sattolo {

  /** p is a rearrangement of 0 .. n-1. */
  ghost predicate Permutation(p: seq<nat>) {
    && (forall k :: 0 <= k < |p| ==> p[k] < |p|)
    && (forall i, j :: 0 <= i < j < |p| ==> p[i] != p[j])
  }

  ghost predicate Derangement(p: seq<nat>) {
    forall k :: 0 <= k < |p| ==> p[k] != k
  }

  /** Following p goes through the items of c in turn and back to the first. */
  ghost predicate IsCycle(p: seq<nat>, c: seq<nat>) {
    && c != []
    && (forall m :: 0 <= m < |c| ==> c[m] < |p|)
    && (forall m, n :: 0 <= m < n < |c| ==> c[m] != c[n])
    && (forall m {:trigger c[m]} :: 0 <= m < |c| ==> p[c[m]] == c[if m + 1 < |c| then m + 1 else 0])
  }

  /** p is one cycle through all positions. */
  ghost predicate SingleCycle(p: seq<nat>) {
    exists c :: IsCycle(p, c) && |c| == |p| && forall k: nat :: k < |p| ==> k in c
  }

  predicate IntoItself(p: seq<nat>) {
    forall k :: 0 <= k < |p| ==> p[k] < |p|
  }

  /** Where following p from k leads in n steps. */
  function Follow(p: seq<nat>, k: nat, n: nat): (r: nat)
    requires k < |p| && IntoItself(p)
    ensures r < |p|
  {
    if n == 0 then k else p[Follow(p, k, n - 1)]
  }

  lemma {:induction false} FollowCycle(p: seq<nat>, c: seq<nat>, m: nat, n: nat)
    requires IsCycle(p, c) && m < |c| && n < |c| && c[m] < |p| && IntoItself(p)
    ensures Follow(p, c[m], n) == c[if m + n < |c| then m + n else m + n - |c|]
  {
    hide IsCycle, IntoItself;
    if n > 0 {
      FollowCycle(p, c, m, n - 1);
      CycleAt(p, c, if m + n - 1 < |c| then m + n - 1 else m + n - 1 - |c|);
    }
  }

  /** From any position, following p reaches every position. */
  lemma VisitsAll(p: seq<nat>, j: nat, k: nat)
    requires SingleCycle(p) && IntoItself(p) && j < |p| && k < |p|
    ensures exists n: nat :: n < |p| && Follow(p, j, n) == k
  {
    hide IsCycle, IntoItself;
    var c :| IsCycle(p, c) && |c| == |p| && forall k: nat :: k < |p| ==> k in c;
    assert j in c && k in c;
    var a: nat :| a < |c| && c[a] == j;
    var b: nat :| b < |c| && c[b] == k;
    FollowCycle(p, c, a, if a <= b then b - a else b + |c| - a);
  }

  function Swap<T>(s: seq<T>, i: nat, j: nat): (r: seq<T>)
    requires i < |s| && j < |s|
    ensures |r| == |s|
  {
    s[i := s[j]][j := s[i]]
  }

  /** The position map 0, 1, .., n-1. */
  function Identity(n: nat): (p: seq<nat>)
    ensures |p| == n && forall k :: 0 <= k < n ==> p[k] == k
  {
    seq(n, k => k)
  }

  // -------------------------------------------------------------- permutations

  /** What the shuffle has done when positions above i are settled: position k
      holds the byte that was at p[k], a settled position never its own, and
      an unsettled one its own or one from above. */
  ghost predicate Shuffling(p: seq<nat>, i: nat) {
    && Permutation(p) && i < |p|
    && (forall k :: i < k < |p| ==> p[k] != k)
    && (forall k :: 0 <= k <= i ==> p[k] == k || p[k] > i)
    && (i == 0 && |p| > 1 ==> p[0] != 0)
  }

  lemma ShufflingMap(p: seq<nat>, i: nat)
    requires Shuffling(p, i)
    ensures Permutation(p) && i < |p|
    ensures i == 0 && |p| > 1 ==> Derangement(p)
  {
  }

  lemma ShuffleStep(p: seq<nat>, i: nat, j: nat)
    requires Shuffling(p, i) && j < i
    ensures Shuffling(Swap(p, i, j), i - 1)
  {
  }

  lemma ShuffleStart(n: nat)
    requires n > 0
    ensures Shuffling(Identity(n), n - 1)
  {
  }

  // ------------------------------------------------------------------- cycles

  /** p falls apart into cycles cs, one for each unsettled position r, which
      starts with r; own tells the cycle of every position. */
  ghost predicate FallsApart(p: seq<nat>, cs: seq<seq<nat>>, own: seq<nat>, i: nat) {
    && i < |p| && |cs| == i + 1 && |own| == |p|
    && (forall r: nat {:trigger cs[r]} :: r <= i ==> StartsWith(p, cs[r], r))
    && (forall k: nat {:trigger own[k]} :: k < |p| ==> own[k] <= i && k in cs[own[k]])
    && (forall r: nat, k: nat {:trigger k in cs[r]} :: r <= i && k in cs[r] ==> k < |p| && own[k] == r)
  }

  ghost predicate StartsWith(p: seq<nat>, c: seq<nat>, r: nat) {
    IsCycle(p, c) && c[0] == r
  }

  ghost predicate Cyclic(p: seq<nat>, i: nat) {
    exists cs, own :: FallsApart(p, cs, own, i)
  }

  /** At first every position is its own cycle. */
  lemma CyclicStart(n: nat)
    requires n > 0
    ensures Cyclic(Identity(n), n - 1)
  {
    var cs: seq<seq<nat>> := seq(n, k => [k]);
    assert FallsApart(Identity(n), cs, Identity(n), n - 1);
  }

  /** An exchange joins the cycle of i to the one of j. */
  function Joined(ci: seq<nat>, cj: seq<nat>): seq<nat>
    requires ci != [] && cj != []
  {
    [cj[0]] + ci[1..] + [ci[0]] + cj[1..]
  }

  lemma JoinedItems(ci: seq<nat>, cj: seq<nat>)
    requires ci != [] && cj != []
    ensures forall k :: k in Joined(ci, cj) <==> k in ci || k in cj
  {
    assert ci == [ci[0]] + ci[1..] && cj == [cj[0]] + cj[1..];
  }

  lemma JoinedAt(ci: seq<nat>, cj: seq<nat>, m: nat)
    requires ci != [] && cj != [] && m < |ci| + |cj|
    ensures |Joined(ci, cj)| == |ci| + |cj|
    ensures Joined(ci, cj)[m] ==
      if m == 0 then cj[0] else if m < |ci| then ci[m] else if m == |ci| then ci[0] else cj[m - |ci|]
  {
  }

  ghost predicate Apart(a: seq<nat>, b: seq<nat>) {
    forall k :: k in a ==> k !in b
  }

  lemma ApartAt(a: seq<nat>, b: seq<nat>, m: nat, n: nat)
    requires Apart(a, b) && m < |a| && n < |b|
    ensures a[m] != b[n]
  {
    assert a[m] in a && b[n] in b;
  }

  lemma CycleAt(p: seq<nat>, c: seq<nat>, m: nat)
    requires IsCycle(p, c) && m < |c|
    ensures c[m] < |p| && p[c[m]] == c[if m + 1 < |c| then m + 1 else 0]
    ensures m > 0 ==> c[m] != c[0]
  {
  }

  lemma CycleDiffers(p: seq<nat>, c: seq<nat>, m: nat, n: nat)
    requires IsCycle(p, c) && m < n < |c|
    ensures c[m] != c[n]
  {
  }

  lemma SwapAt(p: seq<nat>, i: nat, j: nat, k: nat)
    requires i < |p| && j < |p| && k < |p|
    ensures Swap(p, i, j)[k] == if k == j then p[i] else if k == i then p[j] else p[k]
  {
  }

  lemma JoinedIsCycle(p: seq<nat>, ci: seq<nat>, cj: seq<nat>)
    requires IsCycle(p, ci) && IsCycle(p, cj) && ci != [] && cj != [] && ci[0] < |p| && cj[0] < |p| && Apart(ci, cj)
    ensures IsCycle(Swap(p, ci[0], cj[0]), Joined(ci, cj)) && Joined(ci, cj)[0] == cj[0]
  {
    var q, c := Swap(p, ci[0], cj[0]), Joined(ci, cj);
    JoinedAt(ci, cj, 0);
    forall m | 0 <= m < |c|
      ensures c[m] < |q| && q[c[m]] == c[if m + 1 < |c| then m + 1 else 0]
    {
      JoinedNext(p, ci, cj, m);
    }
    forall m, n | 0 <= m < n < |c|
      ensures c[m] != c[n]
    {
      JoinedDiffers(p, ci, cj, m, n);
    }
    hide Joined, Swap, Apart;
  }

  lemma JoinedDiffers(p: seq<nat>, ci: seq<nat>, cj: seq<nat>, m: nat, n: nat)
    requires IsCycle(p, ci) && IsCycle(p, cj) && ci != [] && cj != [] && Apart(ci, cj)
    requires m < n < |Joined(ci, cj)|
    ensures Joined(ci, cj)[m] != Joined(ci, cj)[n]
  {
    hide IsCycle, Joined, Apart;
    JoinedAt(ci, cj, 0);
    JoinedAt(ci, cj, m);
    JoinedAt(ci, cj, n);
    // the places that the two items have in their own cycles
    var m' := if m == 0 || m == |ci| then 0 else if m < |ci| then m else m - |ci|;
    var n' := if n == |ci| then 0 else if n < |ci| then n else n - |ci|;
    if 0 < m <= |ci| && n <= |ci| {
      if m' < n' { CycleDiffers(p, ci, m', n'); } else { CycleDiffers(p, ci, n', m'); }
    } else if 0 < m <= |ci| {
      ApartAt(ci, cj, m', n');
    } else if n <= |ci| {
      ApartAt(ci, cj, n', m');
    } else {
      CycleDiffers(p, cj, m', n');
    }
  }

  lemma JoinedNext(p: seq<nat>, ci: seq<nat>, cj: seq<nat>, m: nat)
    requires IsCycle(p, ci) && IsCycle(p, cj) && ci != [] && cj != [] && ci[0] < |p| && cj[0] < |p| && Apart(ci, cj)
    requires m < |Joined(ci, cj)|
    ensures var c := Joined(ci, cj);
            c[m] < |p| && Swap(p, ci[0], cj[0])[c[m]] == c[if m + 1 < |c| then m + 1 else 0]
  {
    hide IsCycle, Joined, Apart, Swap;
    JoinedAt(ci, cj, 0);
    JoinedAt(ci, cj, m);
    if m + 1 < |ci| + |cj| {
      JoinedAt(ci, cj, m + 1);
    }
    ApartAt(ci, cj, 0, 0);
    if m == 0 {
      CycleAt(p, ci, 0);
      SwapAt(p, ci[0], cj[0], cj[0]);
    } else if m < |ci| {
      CycleAt(p, ci, m);
      ApartAt(ci, cj, m, 0);
      SwapAt(p, ci[0], cj[0], ci[m]);
    } else if m == |ci| {
      CycleAt(p, cj, 0);
      SwapAt(p, ci[0], cj[0], ci[0]);
    } else {
      var x := m - |ci|;
      CycleAt(p, cj, x);
      ApartAt(ci, cj, 0, x);
      SwapAt(p, ci[0], cj[0], cj[x]);
    }
  }

  /** A cycle without i and j is not touched. */
  lemma OtherCycle(p: seq<nat>, c: seq<nat>, i: nat, j: nat)
    requires IsCycle(p, c) && i < |p| && j < |p| && i !in c && j !in c
    ensures IsCycle(Swap(p, i, j), c)
  {
    forall m | 0 <= m < |c|
      ensures Swap(p, i, j)[c[m]] == p[c[m]]
    {
      assert c[m] in c;
    }
  }

  function NewCycles(cs: seq<seq<nat>>, i: nat, j: nat): (r: seq<seq<nat>>)
    requires j < i < |cs| && cs[i] != [] && cs[j] != []
    ensures |r| == i
  {
    cs[j := Joined(cs[i], cs[j])][..i]
  }

  lemma NewCycleAt(cs: seq<seq<nat>>, i: nat, j: nat, r: nat)
    requires j < i < |cs| && cs[i] != [] && cs[j] != [] && r < i
    ensures NewCycles(cs, i, j)[r] == if r == j then Joined(cs[i], cs[j]) else cs[r]
  {
  }

  function NewOwners(own: seq<nat>, i: nat, j: nat): (r: seq<nat>)
    ensures |r| == |own| && forall k :: 0 <= k < |own| ==> r[k] == if own[k] == i then j else own[k]
  {
    seq(|own|, k requires 0 <= k < |own| => if own[k] == i then j else own[k])
  }

  /** The exchange joins two cycles and leaves the others alone. */
  lemma CyclicStep(p: seq<nat>, i: nat, j: nat)
    requires Cyclic(p, i) && j < i
    ensures i < |p| && Cyclic(Swap(p, i, j), i - 1)
  {
    hide IsCycle, Joined, Swap, NewCycles, NewOwners, FallsApart, StartsWith;
    var cs, own :| FallsApart(p, cs, own, i);
    OneOfThem(p, cs, own, i, i);
    OneOfThem(p, cs, own, i, j);
    StillApart(p, cs, own, i, j);
  }

  lemma StillApart(p: seq<nat>, cs: seq<seq<nat>>, own: seq<nat>, i: nat, j: nat)
    requires FallsApart(p, cs, own, i) && j < i < |cs| && cs[i] != [] && cs[j] != []
    ensures i < |p| && FallsApart(Swap(p, i, j), NewCycles(cs, i, j), NewOwners(own, i, j), i - 1)
  {
    hide StartsWith, Joined, Swap, NewCycles, NewOwners;
    forall r: nat | r <= i - 1
      ensures StartsWith(Swap(p, i, j), NewCycles(cs, i, j)[r], r)
    {
      StepCycle(p, cs, own, i, j, r);
    }
    forall k: nat | k < |p|
      ensures NewOwners(own, i, j)[k] <= i - 1 && k in NewCycles(cs, i, j)[NewOwners(own, i, j)[k]]
    {
      OwnerAt(p, cs, own, i, j, k);
    }
    forall r: nat, k: nat {:trigger k in NewCycles(cs, i, j)[r]} | r <= i - 1 && k in NewCycles(cs, i, j)[r]
      ensures k < |p| && NewOwners(own, i, j)[k] == r
    {
      OwnerOf(p, cs, own, i, j, r, k);
    }
  }

  lemma StepCycle(p: seq<nat>, cs: seq<seq<nat>>, own: seq<nat>, i: nat, j: nat, r: nat)
    requires FallsApart(p, cs, own, i) && j < i < |cs| && cs[i] != [] && cs[j] != [] && r < i
    ensures i < |p| && StartsWith(Swap(p, i, j), NewCycles(cs, i, j)[r], r)
  {
    hide FallsApart, IsCycle, Joined, Swap, Apart, NewCycles;
    NewCycleAt(cs, i, j, r);
    if r == j {
      TwoJoined(p, cs, own, i, j);
    } else {
      OtherStays(p, cs, own, i, j, r);
    }
  }

  lemma TwoJoined(p: seq<nat>, cs: seq<seq<nat>>, own: seq<nat>, i: nat, j: nat)
    requires FallsApart(p, cs, own, i) && j < i < |cs| && cs[i] != [] && cs[j] != []
    ensures i < |p| && StartsWith(Swap(p, i, j), Joined(cs[i], cs[j]), j)
  {
    hide FallsApart, IsCycle, Joined, Swap, Apart;
    OneOfThem(p, cs, own, i, i);
    OneOfThem(p, cs, own, i, j);
    ApartFrom(p, cs, own, i, i, j);
    JoinedIsCycle(p, cs[i], cs[j]);
  }

  lemma OwnerAt(p: seq<nat>, cs: seq<seq<nat>>, own: seq<nat>, i: nat, j: nat, k: nat)
    requires FallsApart(p, cs, own, i) && j < i < |cs| && cs[i] != [] && cs[j] != [] && k < |p|
    ensures |own| == |p| && NewOwners(own, i, j)[k] <= i - 1 && k in NewCycles(cs, i, j)[NewOwners(own, i, j)[k]]
  {
    hide StartsWith, Joined, NewCycles, NewOwners;
    NewCycleAt(cs, i, j, if own[k] == i then j else own[k]);
    assert k in cs[own[k]];
    JoinedItems(cs[i], cs[j]);
  }

  lemma OwnerOf(p: seq<nat>, cs: seq<seq<nat>>, own: seq<nat>, i: nat, j: nat, r: nat, k: nat)
    requires FallsApart(p, cs, own, i) && j < i < |cs| && cs[i] != [] && cs[j] != []
    requires r < i && k in NewCycles(cs, i, j)[r]
    ensures |own| == |p| && k < |p| && NewOwners(own, i, j)[k] == r
  {
    hide StartsWith, Joined, NewCycles, NewOwners;
    NewCycleAt(cs, i, j, r);
    JoinedItems(cs[i], cs[j]);
    if k in cs[r] {
      assert own[k] == r;
    } else {
      assert own[k] == i;
    }
  }

  lemma OtherStays(p: seq<nat>, cs: seq<seq<nat>>, own: seq<nat>, i: nat, j: nat, r: nat)
    requires FallsApart(p, cs, own, i) && j < i && r < i && r != j
    ensures i < |p| && r < |cs| && StartsWith(Swap(p, i, j), cs[r], r)
  {
    hide FallsApart, IsCycle, Swap, Apart;
    OneOfThem(p, cs, own, i, r);
    ApartFrom(p, cs, own, i, i, r);
    ApartFrom(p, cs, own, i, j, r);
    OtherCycle(p, cs[r], i, j);
  }

  lemma OneOfThem(p: seq<nat>, cs: seq<seq<nat>>, own: seq<nat>, i: nat, r: nat)
    requires FallsApart(p, cs, own, i) && r <= i
    ensures i < |p| && r < |cs| == i + 1 && IsCycle(p, cs[r]) && cs[r] != [] && cs[r][0] == r
  {
  }

  lemma ApartFrom(p: seq<nat>, cs: seq<seq<nat>>, own: seq<nat>, i: nat, r: nat, r': nat)
    requires FallsApart(p, cs, own, i) && r <= i && r' <= i && r != r'
    ensures r < |cs| && r' < |cs| && Apart(cs[r], cs[r']) && r !in cs[r']
  {
    OneOfThem(p, cs, own, i, r);
    hide IsCycle;
    assert r in cs[r];
    forall k | k in cs[r]
      ensures k !in cs[r']
    {
      assert own[k] == r;
    }
  }

  /** When all positions but the first are settled, one cycle is left. */
  lemma CyclicEnd(p: seq<nat>)
    requires Cyclic(p, 0)
    ensures SingleCycle(p)
  {
    var cs, own :| FallsApart(p, cs, own, 0);
    CycleItems(p, cs[0]);
    hide IsCycle;
    forall k: nat | k < |p|
      ensures k in cs[0]
    {
      assert own[k] <= 0 && k in cs[own[k]];
    }
    AllItems(cs[0], |p|);
  }

  // -------------------------------------------------------------------- draws

  /** Positions are settled from n - 1 down; for each one a position below it
      is drawn. */
  predicate Drawn(n: nat, js: seq<nat>) {
    |js| < n && forall k :: 0 <= k < |js| ==> js[k] < n - 1 - k
  }

  /** The position map after the exchanges drawn. */
  function Arranged(n: nat, js: seq<nat>): (p: seq<nat>)
    requires Drawn(n, js)
    ensures |p| == n && IntoItself(p)
  {
    if js == [] then Identity(n)
    else Swap(Arranged(n, js[..|js| - 1]), n - |js|, js[|js| - 1])
  }

  lemma DrawnLength(n: nat, js: seq<nat>)
    requires Drawn(n, js)
    ensures |js| < n
  {
  }

  lemma NothingDrawn(n: nat)
    requires n > 0
    ensures Drawn(n, []) && Arranged(n, []) == Identity(n)
  {
  }

  /** One more draw is one more exchange. */
  lemma OneMoreExchange(n: nat, js: seq<nat>, j: nat)
    requires Drawn(n, js) && |js| < n - 1 && j < n - 1 - |js|
    ensures Drawn(n, js + [j]) && n - 1 - |js| < |Arranged(n, js)|
    ensures Arranged(n, js + [j]) == Swap(Arranged(n, js), n - 1 - |js|, j)
  {
    hide IntoItself, Swap;
    assert (js + [j])[..|js|] == js;
  }

  /** The last draw, and those before it. */
  lemma LastOfDraws(n: nat, js: seq<nat>)
    requires Drawn(n, js) && js != []
    ensures var m := |js| - 1;
            js == js[..m] + [js[m]] && Drawn(n, js[..m]) && m < n - 1 && js[m] < n - 1 - m
  {
  }

  lemma {:induction false} ArrangedSoFar(n: nat, js: seq<nat>)
    requires Drawn(n, js)
    ensures |js| < n && Shuffling(Arranged(n, js), n - 1 - |js|) && Cyclic(Arranged(n, js), n - 1 - |js|)
    decreases |js|
  {
    hide *;
    DrawnLength(n, js);
    if js == [] {
      NothingDrawn(n);
      ShuffleStart(n);
      CyclicStart(n);
    } else {
      LastOfDraws(n, js);
      var m := |js| - 1;
      ArrangedSoFar(n, js[..m]);
      OneMoreExchange(n, js[..m], js[m]);
      ShuffleStep(Arranged(n, js[..m]), n - 1 - m, js[m]);
      CyclicStep(Arranged(n, js[..m]), n - 1 - m, js[m]);
    }
  }

  /** Whatever is drawn, the result is one cycle through all positions. */
  lemma ArrangedIsCycle(n: nat, js: seq<nat>)
    requires Drawn(n, js) && |js| == n - 1
    ensures var p := Arranged(n, js); Permutation(p) && (n >= 2 ==> Derangement(p)) && SingleCycle(p)
  {
    hide Arranged, Shuffling, Cyclic, SingleCycle, Permutation, Derangement;
    ArrangedSoFar(n, js);
    ShufflingMap(Arranged(n, js), 0);
    CyclicEnd(Arranged(n, js));
  }

  ghost predicate AlikeFrom(p: seq<nat>, q: seq<nat>, i: nat) {
    |p| == |q| && forall k :: i <= k < |p| ==> p[k] == q[k]
  }

  /** Different draws give different results, so that all draws being alike
      makes all results alike. */
  lemma {:induction false} DrawsDiffer(n: nat, js: seq<nat>, js': seq<nat>)
    requires Drawn(n, js) && Drawn(n, js') && |js| == |js'| <= n
    requires AlikeFrom(Arranged(n, js), Arranged(n, js'), n - |js|)
    ensures js == js'
    decreases |js|
  {
    hide *;
    if js != [] {
      var m := |js| - 1;
      LastOfDraws(n, js);
      LastOfDraws(n, js');
      var p, q := Arranged(n, js[..m]), Arranged(n, js'[..m]);
      OneMoreExchange(n, js[..m], js[m]);
      OneMoreExchange(n, js'[..m], js'[m]);
      LastDraw(p, q, n - 1 - m, js[m], js'[m]);
      DrawsDiffer(n, js[..m], js'[..m]);
      ArrangedSoFar(n, js[..m]);
      SameItem(p, n - 1 - m, js[m], js'[m]);
    }
  }

  lemma SameItem(p: seq<nat>, i: nat, j: nat, j': nat)
    requires Shuffling(p, i) && j < i && j' < i
    ensures i < |p| && (p[j] == p[j'] ==> j == j')
  {
  }

  lemma LastDraw(p: seq<nat>, q: seq<nat>, i: nat, j: nat, j': nat)
    requires i < |p| == |q| && j < i && j' < i && AlikeFrom(Swap(p, i, j), Swap(q, i, j'), i)
    ensures AlikeFrom(p, q, i + 1) && p[j] == q[j']
  {
    hide Swap;
    SwapAt(p, i, j, i);
    SwapAt(q, i, j', i);
    forall k | i + 1 <= k < |p|
      ensures p[k] == q[k]
    {
      SwapAt(p, i, j, k);
      SwapAt(q, i, j', k);
    }
  }

  // ------------------------------------------------------------------ counting

  lemma CycleItems(p: seq<nat>, c: seq<nat>)
    requires IsCycle(p, c)
    ensures Different(c) && forall k :: k in c ==> k < |p|
  {
  }

  ghost predicate Different(c: seq<nat>) {
    forall a, b :: 0 <= a < b < |c| ==> c[a] != c[b]
  }

  function WithoutItem(c: seq<nat>, m: nat): (r: seq<nat>)
    requires m < |c|
    ensures |r| == |c| - 1 && forall x :: 0 <= x < |r| ==> r[x] == c[if x < m then x else x + 1]
  {
    c[..m] + c[m + 1..]
  }

  lemma OneItemLess(c: seq<nat>, m: nat)
    requires Different(c) && m < |c|
    ensures Different(WithoutItem(c, m))
    ensures forall k :: k in WithoutItem(c, m) ==> k in c && k != c[m]
    ensures forall k :: k in c && k != c[m] ==> k in WithoutItem(c, m)
  {
    var rest := WithoutItem(c, m);
    forall k | k in c && k != c[m]
      ensures k in rest
    {
      var x :| 0 <= x < |c| && c[x] == k;
      assert rest[if x < m then x else x - 1] == k;
    }
  }

  /** Different numbers below n that leave out none are n. */
  lemma {:induction false} AllItems(c: seq<nat>, n: nat)
    requires Different(c) && (forall k: nat :: k < n ==> k in c)
    requires forall k :: k in c ==> k < n
    ensures |c| == n
    decreases n
  {
    hide *;
    if n > 0 {
      var last: nat := n - 1;
      assert last in c;
      var m: nat :| m < |c| && c[m] == last;
      OneItemLess(c, m);
      AllItems(WithoutItem(c, m), n - 1);
    } else {
      HasItem(c);
    }
  }

  lemma HasItem(c: seq<nat>)
    ensures c == [] || exists k {:trigger k in c} :: k in c
  {
    if c != [] {
      assert c[0] in c;
    }
  }
}
