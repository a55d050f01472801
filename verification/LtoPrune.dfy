/** Which basic blocks the LTO pass leaves without a counter, and why nothing
    is lost by it: on complete runs of a function whose critical edges are
    split, the counted blocks determine all executed blocks. */
module LtoPrune {

  /** A function: block 0 is its entry, succs lists the successors of each
      block, one for each edge, and `plain` tells the blocks that have an
      insertion point and more than an unreachable instruction. */
  datatype Cfg = Cfg(succs: seq<seq<nat>>, plain: seq<bool>)

  datatype Options = Options(noPrune: bool, functionLevel: bool)

  ghost predicate Edge(g: Cfg, u: nat, i: nat, b: nat) {
    u < |g.succs| && i < |g.succs[u]| && g.succs[u][i] == b
  }

  /** Edges lead to blocks, and none to the entry. */
  ghost predicate WellFormed(g: Cfg) {
    && |g.succs| > 0 && |g.plain| == |g.succs|
    && forall u, i {:trigger g.succs[u][i]} :: 0 <= u < |g.succs| && 0 <= i < |g.succs[u]| ==>
         0 < g.succs[u][i] < |g.succs|
  }

  ghost predicate IsPath(g: Cfg, p: seq<nat>) {
    && p != [] && (forall k :: 0 <= k < |p| ==> p[k] < |g.succs|)
    && forall k {:trigger p[k]} :: 0 < k < |p| ==> p[k] in g.succs[p[k - 1]]
  }

  function Last(p: seq<nat>): nat
    requires p != []
  {
    p[|p| - 1]
  }

  ghost predicate IsExit(g: Cfg, b: nat) {
    b < |g.succs| && g.succs[b] == []
  }

  /** A path that starts at the entry and ends at b. */
  ghost predicate Reaches(g: Cfg, p: seq<nat>, b: nat) {
    IsPath(g, p) && p[0] == 0 && Last(p) == b
  }

  /** A path that starts at b and ends at an exit. */
  ghost predicate Leaves(g: Cfg, p: seq<nat>, b: nat) {
    IsPath(g, p) && p[0] == b && IsExit(g, Last(p))
  }

  /** A complete run of the function. */
  ghost predicate Complete(g: Cfg, p: seq<nat>) {
    Leaves(g, p, 0)
  }

  ghost predicate Connected(g: Cfg) {
    forall b: nat :: b < |g.succs| ==> CanBeReached(g, b) && CanLeave(g, b)
  }

  ghost predicate CanBeReached(g: Cfg, b: nat) {
    exists p :: Reaches(g, p, b)
  }

  ghost predicate CanLeave(g: Cfg, b: nat) {
    exists p :: Leaves(g, p, b)
  }

  ghost predicate Dominates(g: Cfg, a: nat, b: nat) {
    forall p :: Reaches(g, p, b) ==> a in p
  }

  ghost predicate PostDominates(g: Cfg, a: nat, b: nat) {
    forall p :: Leaves(g, p, b) ==> a in p
  }

  // --------------------------------------------------- which blocks are counted

  ghost predicate IsFullDominator(g: Cfg, b: nat)
    requires b < |g.succs|
  {
    g.succs[b] != [] && forall s :: s in g.succs[b] ==> Dominates(g, b, s)
  }

  ghost predicate IsFullPostDominator(g: Cfg, b: nat) {
    && (exists u: nat, i: nat :: Edge(g, u, i, b))
    && forall u: nat, i: nat :: Edge(g, u, i, b) ==> PostDominates(g, b, u)
  }

  /** Exactly one edge leads to b. */
  ghost predicate HasSinglePredecessor(g: Cfg, b: nat) {
    exists u: nat, i: nat :: Edge(g, u, i, b) && forall v: nat, j: nat :: Edge(g, v, j, b) ==> v == u && j == i
  }

  ghost predicate ShouldInstrumentBlock(g: Cfg, b: nat, o: Options)
    requires b < |g.succs| == |g.plain|
  {
    if !g.plain[b] then false
    else if !o.noPrune && b == 0 && |g.succs| > 1 then false
    else if o.noPrune || b == 0 then true
    else if o.functionLevel then false
    else !IsFullDominator(g, b) && !(IsFullPostDominator(g, b) && !HasSinglePredecessor(g, b))
  }

  // --------------------------------------------------------------------- paths

  lemma Prefix(g: Cfg, p: seq<nat>, k: nat)
    requires IsPath(g, p) && k < |p|
    ensures IsPath(g, p[..k + 1]) && Last(p[..k + 1]) == p[k] && p[..k + 1][0] == p[0]
  {
  }

  lemma Suffix(g: Cfg, p: seq<nat>, k: nat)
    requires IsPath(g, p) && k < |p|
    ensures IsPath(g, p[k..]) && Last(p[k..]) == Last(p) && p[k..][0] == p[k]
  {
    var q := p[k..];
    forall j | 0 < j < |q|
      ensures q[j] in g.succs[q[j - 1]]
    {
      assert q[j] == p[k + j];
    }
  }

  lemma Join(g: Cfg, p: seq<nat>, q: seq<nat>)
    requires IsPath(g, p) && IsPath(g, q) && q[0] in g.succs[Last(p)]
    ensures IsPath(g, p + q) && (p + q)[0] == p[0] && Last(p + q) == Last(q)
  {
    var r := p + q;
    forall j | 0 <= j < |r|
      ensures r[j] < |g.succs| && (j > 0 ==> r[j] in g.succs[r[j - 1]])
    {
      JoinStep(g, p, q, j);
    }
  }

  lemma JoinStep(g: Cfg, p: seq<nat>, q: seq<nat>, j: nat)
    requires IsPath(g, p) && IsPath(g, q) && q[0] in g.succs[Last(p)] && j < |p + q|
    ensures var r := p + q; r[j] < |g.succs| && (j > 0 ==> r[j - 1] < |g.succs| && r[j] in g.succs[r[j - 1]])
  {
    if j < |p| {
      assert (p + q)[j] == p[j];
    } else {
      assert (p + q)[j] == q[j - |p|];
    }
  }

  /** What dominates a block on a complete run is on the run, and so is what
      postdominates it. */
  lemma DominatorExecuted(g: Cfg, p: seq<nat>, a: nat, b: nat)
    requires Complete(g, p) && Dominates(g, a, b) && b in p
    ensures a in p
  {
    var k :| 0 <= k < |p| && p[k] == b;
    Prefix(g, p, k);
    assert Reaches(g, p[..k + 1], b);
  }

  lemma PostDominatorExecuted(g: Cfg, p: seq<nat>, a: nat, b: nat)
    requires Complete(g, p) && PostDominates(g, a, b) && b in p
    ensures a in p
  {
    var k :| 0 <= k < |p| && p[k] == b;
    Suffix(g, p, k);
    assert Leaves(g, p[k..], b);
  }

  /** A block pruned as a full dominator runs exactly if one of its successors
      runs. */
  lemma DominatorIffSuccessor(g: Cfg, p: seq<nat>, b: nat)
    requires WellFormed(g) && Complete(g, p) && b < |g.succs| && IsFullDominator(g, b)
    ensures b in p <==> exists s :: s in g.succs[b] && s in p
  {
    if b in p {
      var k :| 0 <= k < |p| && p[k] == b;
      assert k + 1 < |p|;
      var s := p[k + 1];
      assert s in g.succs[b] && s in p;
    }
    if s :| s in g.succs[b] && s in p {
      DominatorExecuted(g, p, b, s);
    }
  }

  /** A block pruned as a full postdominator runs exactly if one of its
      predecessors runs. */
  lemma PostDominatorIffPredecessor(g: Cfg, p: seq<nat>, b: nat)
    requires WellFormed(g) && Complete(g, p) && IsFullPostDominator(g, b)
    ensures b in p <==> exists u: nat, i: nat :: Edge(g, u, i, b) && u in p
  {
    if b in p {
      var k :| 0 <= k < |p| && p[k] == b;
      var u: nat, i: nat :| Edge(g, u, i, b);
      assert g.succs[u][i] == b;
      var j := PredecessorOnPath(g, p, k);
      assert p[k - 1] in p;
    }
    if u: nat, i: nat :| Edge(g, u, i, b) && u in p {
      PostDominatorExecuted(g, p, b, u);
    }
  }

  lemma PredecessorOnPath(g: Cfg, p: seq<nat>, k: nat) returns (i: nat)
    requires IsPath(g, p) && 0 < k < |p|
    ensures Edge(g, p[k - 1], i, p[k])
  {
    var out := g.succs[p[k - 1]];
    assert p[k] in out;
    i :| 0 <= i < |out| && out[i] == p[k];
  }

  // ------------------------------------------------- nothing is lost by pruning

  /** A block with nothing but an unreachable instruction. */
  predicate IsBare(g: Cfg, b: nat) {
    b < |g.succs| == |g.plain| && !g.plain[b] && g.succs[b] == []
  }

  /** After the splitting no edge leads from a block with several successors to
      a block with several predecessors, unless that is a bare one: edges into
      bare blocks are not split. */
  ghost predicate EdgesSplit(g: Cfg) {
    forall u: nat, i: nat, b: nat ::
      Edge(g, u, i, b) && |g.succs[u]| > 1 && !IsBare(g, b) ==> HasSinglePredecessor(g, b)
  }

  /** Blocks are counted, and every block that can be left has a place for its
      counter. */
  ghost predicate EdgeCoverage(g: Cfg, o: Options) {
    && !o.functionLevel && |g.plain| == |g.succs|
    && forall b {:trigger g.plain[b]} :: 0 <= b < |g.succs| && g.succs[b] != [] ==> g.plain[b]
  }

  /** A complete run that does not end in an unreachable instruction. */
  ghost predicate Returns(g: Cfg, p: seq<nat>) {
    Complete(g, p) && !IsBare(g, Last(p))
  }

  /** A block that can only continue with e is followed by e. */
  lemma OnlyWayOn(g: Cfg, p: seq<nat>, d: nat, e: nat)
    requires IsPath(g, p) && d < |g.succs| && g.succs[d] == [e] && d in p && Last(p) != d
    ensures e in p
  {
    var k :| 0 <= k < |p| && p[k] == d;
    assert p[k + 1] in g.succs[p[k]];
  }

  /** A block whose only way on leads back to itself never leaves. */
  lemma NoTrap(g: Cfg, d: nat)
    requires Connected(g) && d < |g.succs|
    ensures g.succs[d] != [d]
  {
    if g.succs[d] == [d] {
      assert CanLeave(g, d);
      var p :| Leaves(g, p, d);
      AllTheSame(g, p, d);
    }
  }

  lemma {:induction false} AllTheSame(g: Cfg, p: seq<nat>, d: nat)
    requires IsPath(g, p) && d < |g.succs| && g.succs[d] == [d] && p[0] == d
    ensures Last(p) == d
    decreases |p|
  {
    if |p| > 1 {
      assert p[1] in g.succs[p[0]];
      Suffix(g, p, 1);
      AllTheSame(g, p[1..], d);
    }
  }

  /** The last place of b on a path. */
  lemma LastPlace(p: seq<nat>, b: nat) returns (k: nat)
    requires b in p
    ensures k < |p| && p[k] == b && b !in p[k + 1..]
  {
    k := |p| - 1;
    assert p[..k + 1] == p;
    while p[k] != b
      invariant k < |p| && b !in p[k + 1..] && b in p[..k + 1]
      decreases k
    {
      assert p[..k + 1] == p[..k] + [p[k]];
      assert p[k..] == [p[k]] + p[k + 1..];
      k := k - 1;
    }
  }

  /** On a path to a block that is not b, b is followed by one of its
      successors, and b does not come again. */
  lemma AfterLast(g: Cfg, p: seq<nat>, b: nat) returns (q: seq<nat>)
    requires IsPath(g, p) && b in p && Last(p) != b
    ensures IsPath(g, q) && Last(q) == Last(p) && b !in q
    ensures b < |g.succs| && q[0] in g.succs[b]
  {
    var k := LastPlace(p, b);
    Suffix(g, p, k + 1);
    q := p[k + 1..];
  }

  /** A path to another way into a block that is not a full dominator. */
  lemma WayAround(g: Cfg, e: nat, s: nat) returns (p: seq<nat>)
    requires WellFormed(g) && e < |g.succs| && s in g.succs[e] && !Dominates(g, e, s)
    ensures Reaches(g, p, s) && e !in p
    ensures !HasSinglePredecessor(g, s)
  {
    p :| Reaches(g, p, s) && e !in p;
    var i: nat :| i < |g.succs[e]| && g.succs[e][i] == s;
    assert Edge(g, e, i, s);
    assert |p| > 1;
    var j := PredecessorOnPath(g, p, |p| - 1);
    assert p[|p| - 2] != e;
  }

  /** Where a block with several predecessors follows one that dominates it, it
      dominates what follows in turn. */
  lemma DominanceGoesOn(g: Cfg, d: nat, i: nat, e: nat, k: nat, f: nat)
    requires WellFormed(g) && Connected(g) && EdgesSplit(g)
    requires Edge(g, d, i, e) && Dominates(g, d, e) && !HasSinglePredecessor(g, e)
    requires Edge(g, e, k, f) && !IsBare(g, f)
    ensures Dominates(g, e, f)
  {
    hide IsPath, Reaches, Leaves, Dominates, HasSinglePredecessor, EdgesSplit, WellFormed;
    IntoJoin(g, d, i, e);
    var l, j := OtherEdge(g, d, i, e);
    IntoJoin(g, l, j, e);
    assert l != d;
    NoTrap(g, d);
    NoTrap(g, l);
    var p := PathTo(g, l);
    PassesThrough(g, p, l, d, e);
    OnlyWayOn(g, p, d, e);
    var q := AfterLast(g, p, e);
    if !Dominates(g, e, f) {
      var a := WayAround(g, e, f);
      IntoJoin(g, e, k, f);
      Detour(g, a, q, f);
      NotOnDetour(a, q, e);
      PassesThrough(g, a + q[1..], l, d, e);
      PathOf(g, a + q[1..], l);
      OnlyWayOn(g, a + q[1..], d, e);
      assert false;
    }
  }

  lemma NotOnDetour(a: seq<nat>, q: seq<nat>, e: nat)
    requires e !in a && e !in q && q != []
    ensures e !in a + q[1..]
  {
  }

  lemma PathOf(g: Cfg, p: seq<nat>, b: nat)
    requires Reaches(g, p, b)
    ensures IsPath(g, p) && p != [] && Last(p) == b
  {
  }

  lemma PathTo(g: Cfg, b: nat) returns (p: seq<nat>)
    requires Connected(g) && b < |g.succs|
    ensures Reaches(g, p, b) && IsPath(g, p) && p != [] && Last(p) == b
  {
    assert CanBeReached(g, b);
    p :| Reaches(g, p, b);
  }

  lemma IntoJoin(g: Cfg, d: nat, i: nat, e: nat)
    requires WellFormed(g) && EdgesSplit(g) && Edge(g, d, i, e) && !HasSinglePredecessor(g, e) && !IsBare(g, e)
    ensures d < |g.succs| && e < |g.succs| && g.succs[d] == [e] && i == 0
  {
    assert |g.succs[d]| == 1;
  }

  /** Both runs leave the same counters behind. */
  ghost predicate Counts(g: Cfg, o: Options, p: seq<nat>, q: seq<nat>) {
    forall b: nat :: b < |g.succs| == |g.plain| && ShouldInstrumentBlock(g, b, o) ==> (b in p <==> b in q)
  }

  /** A function after the splitting, and two complete runs, the first of which
      returns, that leave the same counters. */
  ghost predicate LookAlike(g: Cfg, o: Options, p: seq<nat>, q: seq<nat>) {
    && WellFormed(g) && Connected(g) && EdgesSplit(g) && EdgeCoverage(g, o)
    && Returns(g, p) && Complete(g, q) && Counts(g, o, p, q)
  }

  /** No block of a run that returns is bare. */
  lemma NeverBare(g: Cfg, p: seq<nat>, k: nat)
    requires Returns(g, p) && k < |p|
    ensures !IsBare(g, p[k])
  {
    if k + 1 < |p| {
      assert p[k + 1] in g.succs[p[k]];
    }
  }

  lemma PrunedBecause(g: Cfg, o: Options, p: seq<nat>, q: seq<nat>, k: nat)
    requires LookAlike(g, o, p, q) && k < |p| && p[k] !in q
    ensures p[k] < |g.succs| && p[k] != 0
    ensures IsFullDominator(g, p[k]) || (IsFullPostDominator(g, p[k]) && !HasSinglePredecessor(g, p[k]))
  {
    hide IsFullDominator, IsFullPostDominator, HasSinglePredecessor, WellFormed, Connected, EdgesSplit;
    var b := p[k];
    assert q[0] == 0;
    NeverBare(g, p, k);
    assert b in p;
    assert !ShouldInstrumentBlock(g, b, o);
  }

  /** A visited block that dominates the next one is visited by the other run as
      well: if it were not, nor would be what comes after it, up to the end. */
  lemma {:induction false} DominatorShared(g: Cfg, o: Options, p: seq<nat>, q: seq<nat>, k: nat)
    requires LookAlike(g, o, p, q) && k + 1 < |p| && Dominates(g, p[k], p[k + 1])
    ensures p[k] in q
    decreases |p| - k
  {
    hide Connected, EdgesSplit, EdgeCoverage, Counts, Dominates, HasSinglePredecessor, WellFormed, IsFullPostDominator;
    var d, e := p[k], p[k + 1];
    var i := PredecessorOnPath(g, p, k + 1);
    if e !in q {
      PrunedBecause(g, o, p, q, k + 1);
      NextDominated(g, o, p, q, k + 1, i);
      DominatorShared(g, o, p, q, k + 1);
    }
    DominatorExecuted(g, q, d, e);
  }

  /** The step of the induction: a block pruned for either reason dominates the
      one after it. */
  lemma NextDominated(g: Cfg, o: Options, p: seq<nat>, q: seq<nat>, k: nat, i: nat)
    requires LookAlike(g, o, p, q) && 0 < k < |p|
    requires Edge(g, p[k - 1], i, p[k]) && Dominates(g, p[k - 1], p[k])
    requires p[k] < |g.succs| && (IsFullDominator(g, p[k]) || !HasSinglePredecessor(g, p[k]))
    requires p[k] !in q
    ensures k + 1 < |p| && Dominates(g, p[k], p[k + 1])
  {
    hide Connected, EdgesSplit, EdgeCoverage, Counts, Dominates, HasSinglePredecessor, WellFormed;
    NeverBare(g, p, k);
    if k + 1 == |p| {
      assert !IsFullDominator(g, p[k]);
      NoExitHere(g, p[k - 1], i, p[k]);
      assert false;
    }
    assert p[k + 1] in g.succs[p[k]];
    if !IsFullDominator(g, p[k]) {
      NeverBare(g, p, k + 1);
      var j := PredecessorOnPath(g, p, k + 1);
      DominanceGoesOn(g, p[k - 1], i, p[k], j, p[k + 1]);
    }
  }

  /** A block with several predecessors, one of which dominates it, is on a
      cycle. */
  lemma NoExitHere(g: Cfg, d: nat, i: nat, e: nat)
    requires WellFormed(g) && Connected(g) && EdgesSplit(g)
    requires Edge(g, d, i, e) && Dominates(g, d, e) && !HasSinglePredecessor(g, e) && !IsBare(g, e)
    ensures e < |g.succs| && g.succs[e] != []
  {
    hide IsPath, Reaches, Leaves, Dominates, HasSinglePredecessor, EdgesSplit, WellFormed;
    IntoJoin(g, d, i, e);
    var l, j := OtherEdge(g, d, i, e);
    IntoJoin(g, l, j, e);
    assert l != d;
    NoTrap(g, d);
    NoTrap(g, l);
    var p := PathTo(g, l);
    PassesThrough(g, p, l, d, e);
    OnlyWayOn(g, p, d, e);
    var q := AfterLast(g, p, e);
  }

  /** Runs that leave the same counters visit the same blocks: no visited block
      of the one is missed by the other. */
  lemma {:induction false} NothingMissed(g: Cfg, o: Options, p: seq<nat>, q: seq<nat>, k: nat)
    requires LookAlike(g, o, p, q) && k < |p|
    ensures p[k] in q
    decreases k
  {
    hide Connected, EdgesSplit, EdgeCoverage, Counts, Dominates, HasSinglePredecessor, WellFormed;
    var b := p[k];
    if b !in q {
      PrunedBecause(g, o, p, q, k);
      assert k > 0;
      NothingMissed(g, o, p, q, k - 1);
      var i := PredecessorOnPath(g, p, k);
      if IsFullDominator(g, b) {
        assert k + 1 < |p|;
        assert p[k + 1] in g.succs[b];
        DominatorShared(g, o, p, q, k);
      } else {
        PostDominatorExecuted(g, q, b, p[k - 1]);
      }
    }
  }

  lemma GoesOn(g: Cfg, q: seq<nat>, k: nat)
    requires IsPath(g, q) && k + 1 < |q|
    ensures !IsExit(g, q[k])
  {
    assert q[k + 1] in g.succs[q[k]];
  }

  /** Complete runs of which one has all blocks of the other end in the same
      block. */
  lemma SameEnd(g: Cfg, p: seq<nat>, q: seq<nat>)
    requires Returns(g, p) && Complete(g, q) && forall b :: b in p ==> b in q
    ensures Returns(g, q)
  {
    var b := Last(p);
    assert b in p;
    var k :| 0 <= k < |q| && q[k] == b;
    if k + 1 < |q| {
      GoesOn(g, q, k);
    }
  }

  lemma AllShared(g: Cfg, o: Options, p: seq<nat>, q: seq<nat>)
    requires LookAlike(g, o, p, q)
    ensures forall b :: b in p ==> b in q
  {
    hide *;
    forall b | b in p
      ensures b in q
    {
      var k :| 0 <= k < |p| && p[k] == b;
      NothingMissed(g, o, p, q, k);
    }
  }

  lemma ReturnsIsComplete(g: Cfg, p: seq<nat>)
    requires Returns(g, p)
    ensures Complete(g, p)
  {
  }

  /** The counters of a run that returns determine which blocks it visited: a
      complete run that leaves the same ones returns as well, and visits the same
      blocks. */
  lemma CountersDetermineBlocks(g: Cfg, o: Options, p: seq<nat>, q: seq<nat>)
    requires WellFormed(g) && Connected(g) && EdgesSplit(g) && EdgeCoverage(g, o)
    requires Returns(g, p) && Complete(g, q) && Counts(g, o, p, q)
    ensures Returns(g, q)
    ensures forall b :: b in p <==> b in q
  {
    hide WellFormed, Connected, EdgesSplit, EdgeCoverage, HasSinglePredecessor, ShouldInstrumentBlock, IsPath, Returns, Complete;
    assert LookAlike(g, o, p, q);
    AllShared(g, o, p, q);
    SameEnd(g, p, q);
    ReturnsIsComplete(g, p);
    assert LookAlike(g, o, q, p);
    AllShared(g, o, q, p);
  }

  /** A path that ends where another one starts is continued by it. */
  lemma Detour(g: Cfg, a: seq<nat>, q: seq<nat>, s: nat)
    requires Reaches(g, a, s) && IsPath(g, q) && q[0] == s
    ensures Reaches(g, a + q[1..], Last(q))
  {
    if |q| > 1 {
      Suffix(g, q, 1);
      Join(g, a, q[1..]);
    } else {
      assert a + q[1..] == a;
    }
  }

  /** The only block before e on a run dominates everything before e. */
  lemma PassesThrough(g: Cfg, p: seq<nat>, l: nat, d: nat, e: nat)
    requires Reaches(g, p, l) && l < |g.succs| && g.succs[l] == [e] && e < |g.succs|
    requires Dominates(g, d, e) && d != e
    ensures d in p
  {
    Join(g, p, [e]);
    assert Reaches(g, p + [e], e);
    assert d in p + [e];
  }

  lemma OtherEdge(g: Cfg, d: nat, i: nat, e: nat) returns (l: nat, j: nat)
    requires Edge(g, d, i, e) && !HasSinglePredecessor(g, e)
    ensures Edge(g, l, j, e) && (l != d || j != i)
  {
    assert exists v: nat, k: nat :: Edge(g, v, k, e) && (v != d || k != i);
    l, j :| Edge(g, l, j, e) && (l != d || j != i);
  }

  // ------------------------------------------------ nothing is counted in vain

  /** No path comes back to where it started. */
  ghost predicate Acyclic(g: Cfg) {
    forall p :: IsPath(g, p) && |p| > 1 ==> p[0] != Last(p)
  }

  /** A path from the entry to a successor of b that does not visit b. */
  ghost predicate EntersWithout(g: Cfg, b: nat, p: seq<nat>) {
    && IsPath(g, p) && p[0] == 0 && b !in p
    && b < |g.succs| && exists s :: s in g.succs[b] && s in p
  }

  /** A path to an exit that visits a predecessor of b and not b. */
  ghost predicate LeavesWithout(g: Cfg, b: nat, p: seq<nat>) {
    && IsPath(g, p) && IsExit(g, Last(p)) && b !in p
    && exists u: nat, i: nat :: Edge(g, u, i, b) && u in p
  }

  /** A full dominator is a block that every path from the entry to one of its
      successors visits. */
  lemma FullDominatorExactly(g: Cfg, b: nat)
    requires b < |g.succs| && g.succs[b] != []
    ensures IsFullDominator(g, b) <==> !exists p :: EntersWithout(g, b, p)
  {
    hide IsPath;
    if p :| EntersWithout(g, b, p) {
      var s :| s in g.succs[b] && s in p;
      var k :| 0 <= k < |p| && p[k] == s;
      Prefix(g, p, k);
      assert Reaches(g, p[..k + 1], s);
    }
    if !IsFullDominator(g, b) {
      var s :| s in g.succs[b] && !Dominates(g, b, s);
      var p :| Reaches(g, p, s) && b !in p;
      ReachedInPath(g, p, s);
      assert EntersWithout(g, b, p);
    }
  }

  lemma ReachedInPath(g: Cfg, p: seq<nat>, s: nat)
    requires Reaches(g, p, s)
    ensures s in p
  {
  }

  lemma LeftInPath(g: Cfg, p: seq<nat>, u: nat)
    requires Leaves(g, p, u)
    ensures u in p
  {
  }

  /** A full postdominator is a block that every path from one of its
      predecessors to an exit visits. */
  lemma FullPostDominatorExactly(g: Cfg, b: nat)
    requires exists u: nat, i: nat :: Edge(g, u, i, b)
    ensures IsFullPostDominator(g, b) <==> !exists p :: LeavesWithout(g, b, p)
  {
    hide IsPath, Edge;
    if p :| LeavesWithout(g, b, p) {
      var u: nat, i: nat :| Edge(g, u, i, b) && u in p;
      var k :| 0 <= k < |p| && p[k] == u;
      Suffix(g, p, k);
      assert Leaves(g, p[k..], u);
    }
    if !IsFullPostDominator(g, b) {
      var u: nat, i: nat :| Edge(g, u, i, b) && !PostDominates(g, b, u);
      var p :| Leaves(g, p, u) && b !in p;
      LeftInPath(g, p, u);
      assert LeavesWithout(g, b, p);
    }
  }

  /** A complete run that visits a successor of b and not b. */
  ghost predicate SkippedBefore(g: Cfg, b: nat, p: seq<nat>) {
    Complete(g, p) && EntersWithout(g, b, p)
  }

  /** A complete run that visits a predecessor of b and not b. */
  ghost predicate SkippedAfter(g: Cfg, b: nat, p: seq<nat>) {
    Complete(g, p) && LeavesWithout(g, b, p)
  }

  /** Without cycles, what follows a successor of b does not come to b. */
  lemma NotAgain(g: Cfg, b: nat, s: nat, p: seq<nat>)
    requires Acyclic(g) && b < |g.succs| && s in g.succs[b] && IsPath(g, p) && p[0] == s
    ensures b !in p
  {
    if b in p {
      var k :| 0 <= k < |p| && p[k] == b;
      Prefix(g, p, k);
      hide IsPath;
      SingleBlock(g, b);
      Join(g, [b], p[..k + 1]);
    }
  }

  /** And what leads to a predecessor of b has not come from b. */
  lemma NotBefore(g: Cfg, b: nat, u: nat, i: nat, p: seq<nat>)
    requires WellFormed(g) && Acyclic(g) && Edge(g, u, i, b) && IsPath(g, p) && Last(p) == u
    ensures b !in p
  {
    if b in p {
      var k :| 0 <= k < |p| && p[k] == b;
      Suffix(g, p, k);
      assert g.succs[u][i] == b;
      hide IsPath;
      SingleBlock(g, b);
      Join(g, p[k..], [b]);
    }
  }

  lemma SingleBlock(g: Cfg, b: nat)
    requires b < |g.succs|
    ensures IsPath(g, [b])
  {
  }

  /** Where a path meets one of the blocks asked for. */
  lemma SuccessorOn(g: Cfg, b: nat, p: seq<nat>) returns (k: nat)
    requires EntersWithout(g, b, p)
    ensures b < |g.succs| && k < |p| && p[k] in g.succs[b] && p[k] < |g.succs|
    ensures Reaches(g, p[..k + 1], p[k]) && b !in p[..k + 1]
  {
    var s :| s in g.succs[b] && s in p;
    k :| 0 <= k < |p| && p[k] == s;
    Prefix(g, p, k);
  }

  lemma PredecessorOn(g: Cfg, b: nat, p: seq<nat>) returns (k: nat, i: nat)
    requires LeavesWithout(g, b, p)
    ensures k < |p| && Edge(g, p[k], i, b) && Leaves(g, p[k..], p[k]) && b !in p[k..]
  {
    var u: nat;
    u, i :| Edge(g, u, i, b) && u in p;
    k :| 0 <= k < |p| && p[k] == u;
    Suffix(g, p, k);
  }

  /** A path to x and one from it to an exit are a complete run. */
  lemma Through(g: Cfg, a: seq<nat>, r: seq<nat>, x: nat, b: nat)
    requires Reaches(g, a, x) && Leaves(g, r, x) && b !in a && b !in r
    ensures Complete(g, a + r[1..]) && x in a + r[1..] && b !in a + r[1..]
  {
    Detour(g, a, r, x);
    ReachedInPath(g, a, x);
  }

  lemma LeaveFrom(g: Cfg, b: nat) returns (p: seq<nat>)
    requires Connected(g) && b < |g.succs|
    ensures Leaves(g, p, b) && IsPath(g, p) && p != [] && p[0] == b
  {
    assert CanLeave(g, b);
    p :| Leaves(g, p, b);
  }

  lemma CompletedAfter(g: Cfg, b: nat, p: seq<nat>) returns (q: seq<nat>)
    requires WellFormed(g) && Connected(g) && Acyclic(g) && EntersWithout(g, b, p)
    ensures SkippedBefore(g, b, q)
  {
    hide IsPath, Acyclic, Connected, WellFormed, IsExit;
    var k := SuccessorOn(g, b, p);
    var r := LeaveFrom(g, p[k]);
    NotAgain(g, b, p[k], r);
    Through(g, p[..k + 1], r, p[k], b);
    q := p[..k + 1] + r[1..];
  }

  lemma CompletedBefore(g: Cfg, b: nat, p: seq<nat>) returns (q: seq<nat>)
    requires WellFormed(g) && Connected(g) && Acyclic(g) && LeavesWithout(g, b, p)
    ensures SkippedAfter(g, b, q)
  {
    hide IsPath, Acyclic, Connected, WellFormed, IsExit;
    var k, i := PredecessorOn(g, b, p);
    assert p[k] < |g.succs|;
    var a := PathTo(g, p[k]);
    NotBefore(g, b, p[k], i, a);
    Through(g, a, p[k..], p[k], b);
    q := a + p[k..][1..];
  }

  /** Without cycles, the blocks with a counter are exactly those that complete
      runs need: whether a successor runs does not tell whether the block does,
      and neither, if there are several ways into it, does a predecessor. */
  lemma CountedExactly(g: Cfg, o: Options, b: nat)
    requires WellFormed(g) && Connected(g) && Acyclic(g) && !o.noPrune && !o.functionLevel
    requires 0 < b < |g.succs| && g.plain[b]
    ensures ShouldInstrumentBlock(g, b, o) <==>
      && (g.succs[b] == [] || exists p :: SkippedBefore(g, b, p))
      && (HasSinglePredecessor(g, b) || exists p :: SkippedAfter(g, b, p))
  {
    hide WellFormed, Connected, Acyclic, HasSinglePredecessor, IsFullDominator, IsFullPostDominator, EntersWithout, LeavesWithout;
    if g.succs[b] != [] {
      FullDominatorExactly(g, b);
      if p :| EntersWithout(g, b, p) {
        var q := CompletedAfter(g, b, p);
      }
    } else {
      ExitDominatesNothing(g, b);
    }
    SomeEdge(g, b);
    FullPostDominatorExactly(g, b);
    if p :| LeavesWithout(g, b, p) {
      var q := CompletedBefore(g, b, p);
    }
  }

  lemma ExitDominatesNothing(g: Cfg, b: nat)
    requires b < |g.succs| && g.succs[b] == []
    ensures !IsFullDominator(g, b)
  {
  }

  /** Every block but the entry has a predecessor. */
  lemma SomeEdge(g: Cfg, b: nat)
    requires Connected(g) && 0 < b < |g.succs|
    ensures exists u: nat, i: nat :: Edge(g, u, i, b)
  {
    assert CanBeReached(g, b);
    var p :| Reaches(g, p, b);
    var i := PredecessorOnPath(g, p, |p| - 1);
  }

  /** With cycles, the same holds of paths from the entry and of paths to an exit
      in place of complete runs. */
  lemma CountedByPaths(g: Cfg, o: Options, b: nat)
    requires WellFormed(g) && Connected(g) && !o.noPrune && !o.functionLevel
    requires 0 < b < |g.succs| && g.plain[b]
    ensures ShouldInstrumentBlock(g, b, o) <==>
      && (g.succs[b] == [] || exists p :: EntersWithout(g, b, p))
      && (HasSinglePredecessor(g, b) || exists p :: LeavesWithout(g, b, p))
  {
    hide WellFormed, Connected, HasSinglePredecessor, IsFullDominator, IsFullPostDominator, EntersWithout, LeavesWithout;
    if g.succs[b] != [] {
      FullDominatorExactly(g, b);
    } else {
      ExitDominatesNothing(g, b);
    }
    SomeEdge(g, b);
    FullPostDominatorExactly(g, b);
  }

  /** A loop whose second block is counted, although every complete run visits it:
      that there are no cycles is needed. */
  const LOOP := Cfg([[1], [2], [1, 3], []], [true, true, true, true])

  lemma LoopCounted()
    ensures WellFormed(LOOP) && Connected(LOOP) && ShouldInstrumentBlock(LOOP, 2, Options(false, false))
    ensures !exists p :: SkippedBefore(LOOP, 2, p)
  {
    hide Connected, ShouldInstrumentBlock, EntersWithout, Complete;
    LoopBlock();
    LoopConnected();
    forall p | SkippedBefore(LOOP, 2, p)
      ensures false
    {
      LoopVisits(p);
      NotVisited(LOOP, 2, p);
    }
  }

  lemma NotVisited(g: Cfg, b: nat, p: seq<nat>)
    requires EntersWithout(g, b, p)
    ensures b !in p
  {
  }

  lemma LoopVisits(p: seq<nat>)
    requires Complete(LOOP, p)
    ensures 2 in p
  {
    assert p[|p| - 1] in LOOP.succs[p[|p| - 2]];
    assert p[|p| - 2] == 2;
  }

  lemma LoopBlock()
    ensures ShouldInstrumentBlock(LOOP, 2, Options(false, false))
  {
    ShortPaths(LOOP, 0, 1, 2);
    assert Reaches(LOOP, [0, 1], 1) && 2 !in [0, 1];
    assert Edge(LOOP, 1, 0, 2);
    forall v: nat, j: nat | Edge(LOOP, v, j, 2)
      ensures v == 1 && j == 0
    {
      assert v in {0, 1, 2, 3};
    }
    assert HasSinglePredecessor(LOOP, 2);
    assert !Dominates(LOOP, 2, 1);
    assert 1 in LOOP.succs[2];
  }

  lemma LoopConnected()
    ensures Connected(LOOP)
  {
    ShortPaths(LOOP, 0, 1, 2);
    ShortPaths(LOOP, 1, 2, 3);
    Join(LOOP, [0], [1, 2, 3]);
    hide IsPath;
    assert Reaches(LOOP, [0], 0) && Reaches(LOOP, [0, 1], 1) && Reaches(LOOP, [0, 1, 2], 2) && Reaches(LOOP, [0] + [1, 2, 3], 3);
    assert Leaves(LOOP, [0] + [1, 2, 3], 0) && Leaves(LOOP, [1, 2, 3], 1) && Leaves(LOOP, [2, 3], 2) && Leaves(LOOP, [3], 3);
  }

  /** Without pruning exactly the plain blocks are counted; with it, the entry only
      if it is all there is, and on the level of functions nothing else. */
  lemma CountedOtherwise(g: Cfg, o: Options, b: nat)
    requires WellFormed(g) && b < |g.succs|
    ensures o.noPrune ==> (ShouldInstrumentBlock(g, b, o) <==> g.plain[b])
    ensures !o.noPrune && (o.functionLevel || b == 0) ==>
      (ShouldInstrumentBlock(g, b, o) <==> g.plain[b] && |g.succs| == 1)
  {
  }

  // --------------------------------------- runs into unreachable instructions

  /** Two branches, each into a bare block, and a third one that returns. */
  const ABORTS := Cfg([[1, 2, 3], [4], [5], [], [], []], [true, true, true, true, false, false])

  /** The last block of a branch is reached through its first one only. */
  lemma BranchPruned(d: nat, b: nat)
    requires (d, b) in {(1, 4), (2, 5)}
    ensures IsFullDominator(ABORTS, d)
  {
    forall p | Reaches(ABORTS, p, b)
      ensures d in p
    {
      assert p[|p| - 1] in ABORTS.succs[p[|p| - 2]];
      assert p[|p| - 2] == d;
    }
  }

  /** That one of the runs returns is needed: this function has no critical edge
      at all, but its runs into bare blocks leave no counter. */
  lemma UnreachableRunsLookAlike()
    ensures WellFormed(ABORTS) && Connected(ABORTS) && EdgesSplit(ABORTS) && EdgeCoverage(ABORTS, Options(false, false))
    ensures Complete(ABORTS, [0, 1, 4]) && Complete(ABORTS, [0, 2, 5])
    ensures Counts(ABORTS, Options(false, false), [0, 1, 4], [0, 2, 5])
    ensures !Returns(ABORTS, [0, 1, 4]) && !Returns(ABORTS, [0, 2, 5])
  {
    AbortsShape();
    AbortsSplit();
    AbortsConnected();
    SameCounters();
    hide *;
  }

  lemma AbortsShape()
    ensures WellFormed(ABORTS) && EdgeCoverage(ABORTS, Options(false, false))
    ensures !Returns(ABORTS, [0, 1, 4]) && !Returns(ABORTS, [0, 2, 5])
  {
    hide IsPath;
  }

  lemma AbortsSplit()
    ensures EdgesSplit(ABORTS)
  {
    hide HasSinglePredecessor, IsBare;
    forall u: nat, i: nat, b: nat | Edge(ABORTS, u, i, b) && |ABORTS.succs[u]| > 1
      ensures HasSinglePredecessor(ABORTS, b)
    {
      assert u == 0;
      assert i == 0 || i == 1 || i == 2;
      FirstEdges(i, b);
    }
  }

  lemma FirstEdges(i: nat, b: nat)
    requires Edge(ABORTS, 0, i, b)
    ensures HasSinglePredecessor(ABORTS, b)
  {
    assert b == i + 1 && b <= 3;
    forall v: nat, j: nat | Edge(ABORTS, v, j, b)
      ensures v == 0 && j == i
    {
      assert v == 0;
    }
  }

  lemma SameCounters()
    ensures Counts(ABORTS, Options(false, false), [0, 1, 4], [0, 2, 5])
  {
    BranchPruned(1, 4);
    BranchPruned(2, 5);
    hide IsFullDominator, IsFullPostDominator, HasSinglePredecessor;
  }

  lemma ShortPaths(g: Cfg, a: nat, b: nat, c: nat)
    requires a < |g.succs| && b < |g.succs| && c < |g.succs| && b in g.succs[a] && c in g.succs[b]
    ensures IsPath(g, [a]) && IsPath(g, [c]) && IsPath(g, [a, b]) && IsPath(g, [b, c]) && IsPath(g, [a, b, c])
  {
  }

  lemma BranchConnected(d: nat, b: nat)
    requires (d, b) in {(1, 4), (2, 5)}
    ensures CanBeReached(ABORTS, 0) && CanBeReached(ABORTS, d) && CanBeReached(ABORTS, b)
    ensures CanLeave(ABORTS, 0) && CanLeave(ABORTS, d) && CanLeave(ABORTS, b)
    ensures Complete(ABORTS, [0, d, b])
  {
    hide IsPath;
    ShortPaths(ABORTS, 0, d, b);
    assert Reaches(ABORTS, [0], 0);
    assert Reaches(ABORTS, [0, d], d);
    assert Reaches(ABORTS, [0, d, b], b);
    assert Leaves(ABORTS, [0, d, b], 0);
    assert Leaves(ABORTS, [d, b], d);
    assert Leaves(ABORTS, [b], b);
  }

  lemma AbortsConnected()
    ensures Connected(ABORTS) && Complete(ABORTS, [0, 1, 4]) && Complete(ABORTS, [0, 2, 5])
  {
    hide CanBeReached, CanLeave, IsPath, Leaves, Reaches, Complete;
    BranchConnected(1, 4);
    BranchConnected(2, 5);
    ThirdConnected();
    forall x: nat | x < 6
      ensures CanBeReached(ABORTS, x) && CanLeave(ABORTS, x)
    {
      assert x in {0, 1, 2, 3, 4, 5};
    }
  }

  lemma ThirdConnected()
    ensures CanBeReached(ABORTS, 3) && CanLeave(ABORTS, 3)
  {
    assert Reaches(ABORTS, [0, 3], 3) && Leaves(ABORTS, [3], 3);
  }
}
