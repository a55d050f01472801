/** How the LTO pass numbers what it instruments: counters for blocks, selects
    and marked calls, and room for the copies of a function's counters in its
    contexts.  The pass counts in 32 bits; layouts say what it would do without
    wrapping. */
module LtoIds {
  import opened Words

  /** What gets counters, in the order of numbering. */
  datatype Site = MarkedCall | Select | VectorSelect(elements: nat) | Block

  /** A function: how many counters the counting pass finds, what is then
      instrumented, and the number of calls that lead to it. */
  datatype Func = Func(counted: u32, sites: seq<Site>, callers: u32)

  /** A counter's number; `shifted` ones are moved by the context. */
  datatype Id = Id(local: nat, shifted: bool)

  /** The counters of a function: the numbers above `base`, up to `end`. */
  datatype Layout = Layout(base: nat, ids: seq<Id>, contexts: nat, end: nat)

  function Wrap(x: nat): u32 { x % TWO32 }

  function Size(site: Site): nat {
    match site
    case MarkedCall => 1
    case Select => 2
    case VectorSelect(n) => 2 * n
    case Block => 1
  }

  /** n * k */
  function Times(n: nat, k: nat): nat {
    if k == 0 then 0 else Times(n, k - 1) + n
  }

  /** The position of a counter in the map at run time, as it should be. */
  function Index(l: Layout, k: nat, ctx: nat): nat
    requires k < |l.ids|
  {
    l.ids[k].local + if l.ids[k].shifted then Times(|l.ids|, ctx) else 0
  }

  /** The same as the instrumented program computes it. */
  function Index32(l: Layout, k: nat, ctx: u32): u32
    requires k < |l.ids|
  {
    Add32(Wrap(l.ids[k].local), if l.ids[k].shifted then Mul32(Wrap(|l.ids|), ctx) else 0)
  }

  /** A single caller is no context of its own. */
  function Contexts(callers: nat): nat { if callers == 1 then 0 else callers }

  /** The counters of one site after `last`: only the first two elements of a
      vector are moved by the context. */
  function Numbered(site: Site, last: nat, shift: bool): (ids: seq<Id>)
    ensures |ids| == Size(site)
  {
    seq(Size(site), k requires 0 <= k < Size(site) => Id(last + 1 + k, shift && (site.VectorSelect? ==> k < 2)))
  }

  function AllNumbered(sites: seq<Site>, last: nat, shift: bool): (ids: seq<Id>)
    ensures forall k :: 0 <= k < |ids| ==> ids[k].local == last + 1 + k && (ids[k].shifted ==> shift)
    decreases |sites|
  {
    if sites == [] then []
    else
      var before := AllNumbered(sites[..|sites| - 1], last, shift);
      before + Numbered(sites[|sites| - 1], last + |before|, shift)
  }

  /** Whether a function gets room for its contexts: it has several callers, and
      more than one counter was found in it. */
  predicate IsMoved(instrumentCtx: bool, f: Func, inst: nat) {
    instrumentCtx && f.callers > 1 && f.counted > 0 && Add32(Wrap(inst), f.counted) > Add32(Wrap(inst), 1)
  }

  function LayoutOf(instrumentCtx: bool, f: Func, id: nat, inst: nat): Layout {
    var moved := IsMoved(instrumentCtx, f, inst);
    var ids := AllNumbered(f.sites, id, moved);
    var contexts := if moved then f.callers else 1;
    Layout(id, ids, contexts, id + Times(|ids|, contexts))
  }

  /** The two passes agree, or the program ends. */
  predicate Agrees(instrumentCtx: bool, f: Func, inst: nat, l: Layout) {
    IsMoved(instrumentCtx, f, inst) ==> f.counted == Wrap(|l.ids|)
  }

  /** __afl_final_loc */
  function FinalLoc(id: u32): u32 { Add32(id, 8) / 8 * 8 }

  // ------------------------------------------------------------- allocation

  class Allocator {
    var aflGlobalId: u32
    var inst: u32
    var extraCtxInst: u32
    const instrumentCtx: bool
    const start: u32
    /** The counters without wrapping. */
    ghost var trueId: nat
    ghost var trueInst: nat
    ghost var trueExtra: nat

    ghost predicate Valid()
      reads this
    {
      && start >= 4 && trueId == start + trueInst + trueExtra
      && aflGlobalId == Wrap(trueId) && inst == Wrap(trueInst) && extraCtxInst == Wrap(trueExtra)
    }

    constructor (startId: u32, instrumentCtx: bool)
      ensures Valid() && trueId == start == (if startId < 4 then 4 else startId) && trueInst == 0
      ensures this.instrumentCtx == instrumentCtx
    {
      start := if startId < 4 then 4 else startId;
      aflGlobalId := if startId < 4 then 4 else startId;
      inst, extraCtxInst := 0, 0;
      this.instrumentCtx := instrumentCtx;
      trueId := if startId < 4 then 4 else startId;
      trueInst, trueExtra := 0, 0;
    }

    /** ++afl_global_id for every counter of a site. */
    method NumberSite(site: Site, shift: bool) returns (ids: seq<Id>)
      requires Valid()
      modifies this`aflGlobalId, this`inst, this`trueId, this`trueInst
      ensures Valid() && ids == Wrapped(Numbered(site, old(trueId), shift))
      ensures trueId == old(trueId) + Size(site) && trueInst == old(trueInst) + Size(site)
    {
      ids := [];
      while |ids| < Size(site)
        invariant |ids| <= Size(site) && trueId == old(trueId) + |ids| && trueInst == old(trueInst) + |ids| && Valid()
        invariant ids == Wrapped(Numbered(site, old(trueId), shift))[..|ids|]
      {
        WrapSum(trueId, 1);
        WrapSum(trueInst, 1);
        aflGlobalId := Add32(aflGlobalId, 1);
        inst := Add32(inst, 1);
        trueId, trueInst := trueId + 1, trueInst + 1;
        ids := ids + [Id(aflGlobalId, shift && (site.VectorSelect? ==> |ids| < 2))];
      }
    }

    /** The fake instrumentation: how many counters the contexts are to have, or
        zero. */
    method CountForContexts(f: Func) returns (callCounter: u32, instInThisFunc: u32)
      requires Valid()
      ensures IsMoved(instrumentCtx, f, trueInst) ==> callCounter == f.callers > 1 && instInThisFunc == f.counted
      ensures !IsMoved(instrumentCtx, f, trueInst) ==> instInThisFunc == 0
    {
      callCounter, instInThisFunc := 0, 0;
      if instrumentCtx {
        callCounter := Contexts(f.callers);
        if callCounter > 1 {
          var counted := Add32(inst, f.counted);
          if counted > Add32(inst, 1) {
            instInThisFunc := Sub32(counted, inst);
          }
        }
      }
    }

    /** Numbers all sites of a function. */
    method NumberSites(sites: seq<Site>, shift: bool) returns (ids: seq<Id>)
      requires Valid()
      modifies this`aflGlobalId, this`inst, this`trueId, this`trueInst
      ensures Valid() && ids == Wrapped(AllNumbered(sites, old(trueId), shift))
      ensures trueId == old(trueId) + |ids| && trueInst == old(trueInst) + |ids|
    {
      hide Valid, Numbered, Wrap;
      ids := [];
      var i := 0;
      while i < |sites|
        invariant 0 <= i <= |sites| && Valid()
        invariant ids == Wrapped(AllNumbered(sites[..i], old(trueId), shift))
        invariant trueId == old(trueId) + |ids| && trueInst == old(trueInst) + |ids|
      {
        var more := NumberSite(sites[i], shift);
        assert sites[..i + 1][..i] == sites[..i];
        WrappedJoin(AllNumbered(sites[..i], old(trueId), shift), Numbered(sites[i], old(trueId) + |ids|, shift));
        ids := ids + more;
        i := i + 1;
      }
      assert sites[..i] == sites;
    }

    /** Room for the copies in all but the first context. */
    method MakeRoom(instInThisFunc: u32, callCounter: u32, ghost n: nat)
      requires Valid() && instInThisFunc == Wrap(n) && callCounter > 1
      modifies this`aflGlobalId, this`extraCtxInst, this`trueId, this`trueExtra
      ensures Valid() && trueId == old(trueId) + Times(n, callCounter - 1)
    {
      var extra := Mul32(instInThisFunc, callCounter - 1);
      ghost var room := Times(n, callCounter - 1);
      WrapProduct(n, callCounter - 1);
      WrapSum(trueExtra, room);
      WrapSum(trueId, room);
      extraCtxInst := Add32(extraCtxInst, extra);
      aflGlobalId := Add32(aflGlobalId, extra);
      trueExtra, trueId := trueExtra + room, trueId + room;
    }

    /** instrumentFunction: the numbers it hands out are those of the layout,
        modulo 2^32. */
    method InstrumentFunction(f: Func) returns (ok: bool, ids: seq<Id>)
      requires Valid()
      modifies this
      ensures var l := LayoutOf(instrumentCtx, f, old(trueId), old(trueInst));
        && ids == Wrapped(l.ids)
        && (ok <==> Agrees(instrumentCtx, f, old(trueInst), l))
        && (ok ==> Valid() && trueId == l.end && trueInst == old(trueInst) + |l.ids|)
    {
      hide AllNumbered, Wrap, Numbered, Wrapped, Mul32, Add32;
      var saveGlobal := aflGlobalId;
      var callCounter, instInThisFunc := CountForContexts(f);
      ghost var moved := IsMoved(instrumentCtx, f, trueInst);
      if moved {
        MovedHasCounters(instrumentCtx, f, trueInst);
      }
      ids := NumberSites(f.sites, instInThisFunc > 0);
      ok := true;
      if instInThisFunc > 0 && callCounter > 1 {
        WrapDifference(old(trueId), |ids|);
        if instInThisFunc != Sub32(aflGlobalId, saveGlobal) {
          return false, ids;
        }
        MakeRoom(instInThisFunc, callCounter, |ids|);
      }
      OneCopy(|ids|);
    }

    /** All functions of a module, and the size of the map. */
    method InstrumentModule(fs: seq<Func>) returns (ok: bool, numbers: seq<seq<Id>>, finalLoc: u32)
      requires Valid() && trueId == start && trueInst == 0
      modifies this
      ensures ok <==> AllAgree(instrumentCtx, fs, start)
      ensures ok ==> AreNumbers(numbers, Layouts(instrumentCtx, fs, start))
      ensures ok ==> finalLoc == FinalLoc(Wrap(EndOf(instrumentCtx, fs, start)))
    {
      hide *;
      numbers, finalLoc := [], 0;
      var i := 0;
      NoFunctions(instrumentCtx, start);
      NoNumbers();
      assert fs[..0] == [];
      while i < |fs|
        invariant 0 <= i <= |fs| && Valid()
        invariant trueId == EndOf(instrumentCtx, fs[..i], start) && trueInst == InstOf(instrumentCtx, fs[..i], start)
        invariant AllAgree(instrumentCtx, fs[..i], start)
        invariant AreNumbers(numbers, Layouts(instrumentCtx, fs[..i], start))
      {
        OneMore(instrumentCtx, fs, i, start);
        ghost var l := LayoutOf(instrumentCtx, fs[i], trueId, trueInst);
        var done, ids := InstrumentFunction(fs[i]);
        if !done {
          DisagreesForGood(instrumentCtx, fs, i + 1, start);
          return false, numbers, 0;
        }
        MoreNumbers(numbers, Layouts(instrumentCtx, fs[..i], start), ids, l);
        numbers := numbers + [ids];
        i := i + 1;
      }
      assert fs[..i] == fs;
      ok := true;
      finalLoc := Final();
    }

    method Final() returns (finalLoc: u32)
      requires Valid()
      ensures finalLoc == FinalLoc(Wrap(trueId))
    {
      finalLoc := FinalLoc(aflGlobalId);
    }
  }

  function Wrapped(ids: seq<Id>): (r: seq<Id>)
    ensures |r| == |ids|
  {
    seq(|ids|, k requires 0 <= k < |ids| => Id(Wrap(ids[k].local), ids[k].shifted))
  }

  lemma WrappedJoin(a: seq<Id>, b: seq<Id>)
    ensures Wrapped(a + b) == Wrapped(a) + Wrapped(b)
  {
    hide Wrap;
  }

  // ------------------------------------------------------------ whole modules

  /** The layouts of all functions, one after the other. */
  function Layouts(instrumentCtx: bool, fs: seq<Func>, start: nat): (r: seq<Layout>)
    ensures |r| == |fs|
    decreases |fs|
  {
    if fs == [] then []
    else
      var before := Layouts(instrumentCtx, fs[..|fs| - 1], start);
      before + [LayoutOf(instrumentCtx, fs[|fs| - 1], End(before, start), Counters(before))]
  }

  function End(layouts: seq<Layout>, start: nat): nat {
    if layouts == [] then start else layouts[|layouts| - 1].end
  }

  /** All counters, without copies. */
  function Counters(layouts: seq<Layout>): nat {
    if layouts == [] then 0 else Counters(layouts[..|layouts| - 1]) + |layouts[|layouts| - 1].ids|
  }

  /** The last number that a module's counters and copies take: the start plus
      all of them. */
  function EndOf(instrumentCtx: bool, fs: seq<Func>, start: nat): nat {
    End(Layouts(instrumentCtx, fs, start), start)
  }

  function InstOf(instrumentCtx: bool, fs: seq<Func>, start: nat): nat {
    Counters(Layouts(instrumentCtx, fs, start))
  }

  predicate AllAgree(instrumentCtx: bool, fs: seq<Func>, start: nat)
    decreases |fs|
  {
    fs == [] || (
      var n := |fs| - 1;
      && AllAgree(instrumentCtx, fs[..n], start)
      && Agrees(instrumentCtx, fs[n], InstOf(instrumentCtx, fs[..n], start),
                LayoutOf(instrumentCtx, fs[n], EndOf(instrumentCtx, fs[..n], start), InstOf(instrumentCtx, fs[..n], start))))
  }

  /** Every function has the numbers of its layout, modulo 2^32. */
  ghost predicate AreNumbers(numbers: seq<seq<Id>>, layouts: seq<Layout>) {
    |numbers| == |layouts| && forall i :: 0 <= i < |numbers| ==> numbers[i] == Wrapped(layouts[i].ids)
  }

  lemma NoNumbers()
    ensures AreNumbers([], [])
  {
  }

  lemma MoreNumbers(numbers: seq<seq<Id>>, layouts: seq<Layout>, ids: seq<Id>, l: Layout)
    requires AreNumbers(numbers, layouts) && ids == Wrapped(l.ids)
    ensures AreNumbers(numbers + [ids], layouts + [l])
  {
  }

  lemma NoFunctions(instrumentCtx: bool, start: nat)
    ensures EndOf(instrumentCtx, [], start) == start && InstOf(instrumentCtx, [], start) == 0
    ensures AllAgree(instrumentCtx, [], start) && Layouts(instrumentCtx, [], start) == []
  {
  }

  lemma OneMore(instrumentCtx: bool, fs: seq<Func>, i: nat, start: nat)
    requires i < |fs|
    ensures var id, inst := EndOf(instrumentCtx, fs[..i], start), InstOf(instrumentCtx, fs[..i], start);
            var l := LayoutOf(instrumentCtx, fs[i], id, inst);
            && Layouts(instrumentCtx, fs[..i + 1], start) == Layouts(instrumentCtx, fs[..i], start) + [l]
            && EndOf(instrumentCtx, fs[..i + 1], start) == l.end
            && InstOf(instrumentCtx, fs[..i + 1], start) == inst + |l.ids|
            && (AllAgree(instrumentCtx, fs[..i + 1], start) <==>
                AllAgree(instrumentCtx, fs[..i], start) && Agrees(instrumentCtx, fs[i], inst, l))
  {
    hide LayoutOf, Agrees;
    assert fs[..i + 1][..i] == fs[..i];
    var before := Layouts(instrumentCtx, fs[..i], start);
    var l := LayoutOf(instrumentCtx, fs[i], End(before, start), Counters(before));
    assert (before + [l])[..|before|] == before;
  }

  lemma {:induction false} DisagreesForGood(instrumentCtx: bool, fs: seq<Func>, i: nat, start: nat)
    requires i <= |fs| && !AllAgree(instrumentCtx, fs[..i], start)
    ensures !AllAgree(instrumentCtx, fs, start)
    decreases |fs|
  {
    if i == |fs| {
      assert fs[..i] == fs;
    } else {
      var n := |fs| - 1;
      assert fs[..n][..i] == fs[..i];
      DisagreesForGood(instrumentCtx, fs[..n], i, start);
    }
  }

  // ---------------------------------------------------------------- wrapping

  lemma WrapSum(a: nat, b: nat)
    ensures Add32(Wrap(a), Wrap(b)) == Wrap(a + b)
    ensures b < TWO32 ==> Wrap(b) == b
  {
  }

  lemma WrapDifference(a: nat, b: nat)
    ensures Sub32(Wrap(a + b), Wrap(a)) == Wrap(b)
  {
    WrapSum(a, b);
  }

  lemma {:induction false} WrapProduct(n: nat, k: u32)
    ensures Mul32(Wrap(n), k) == Wrap(Times(n, k))
    decreases k
  {
    Product(n, k);
    var q := n / TWO32;
    assert n == q * TWO32 + Wrap(n);
    Distributed(q, TWO32, Wrap(n), k);
    Remainders(q * k, Wrap(n) * k);
  }

  lemma Distributed(q: int, m: int, r: int, k: int)
    ensures (q * m + r) * k == (q * k) * m + r * k
  {
  }

  lemma Remainders(q: int, r: nat)
    requires q * TWO32 + r >= 0
    ensures (q * TWO32 + r) % TWO32 == r % TWO32
  {
  }

  lemma {:induction false} Product(n: nat, k: nat)
    ensures Times(n, k) == n * k
  {
    if k > 0 {
      Product(n, k - 1);
    }
  }

  lemma OneCopy(n: nat)
    ensures Times(n, 1) == n && forall k: nat {:trigger Times(n, k)} :: k > 0 ==> n + Times(n, k - 1) == Times(n, k)
  {
  }

  lemma MovedHasCounters(instrumentCtx: bool, f: Func, inst: nat)
    requires IsMoved(instrumentCtx, f, inst)
    ensures f.counted > 0
  {
  }

  // ------------------------------------------------------------ no collisions

  /** The numbers are consecutive, copies lie above them, and nothing lies
      outside. */
  ghost predicate WellLaid(l: Layout) {
    && (forall k :: 0 <= k < |l.ids| ==> l.ids[k].local == l.base + 1 + k)
    && (forall k :: 0 <= k < |l.ids| && l.ids[k].shifted ==> l.contexts > 1)
    && 1 <= l.contexts < TWO32
    && l.end == l.base + Times(|l.ids|, l.contexts)
  }

  ghost predicate Chained(layouts: seq<Layout>, start: nat) {
    && (forall i :: 0 <= i < |layouts| ==> WellLaid(layouts[i]))
    && (forall i {:trigger layouts[i]} :: 0 <= i < |layouts| ==>
          layouts[i].base == if i == 0 then start else layouts[i - 1].end)
  }

  lemma LayoutFits(instrumentCtx: bool, f: Func, id: nat, inst: nat)
    ensures WellLaid(LayoutOf(instrumentCtx, f, id, inst)) && LayoutOf(instrumentCtx, f, id, inst).base == id
  {
  }

  lemma {:induction false} LayoutsChained(instrumentCtx: bool, fs: seq<Func>, start: nat)
    ensures Chained(Layouts(instrumentCtx, fs, start), start)
    decreases |fs|
  {
    hide LayoutOf, WellLaid, Chained, End, Counters;
    if fs == [] {
      NoneChained(start);
    } else {
      var before := Layouts(instrumentCtx, fs[..|fs| - 1], start);
      LayoutsChained(instrumentCtx, fs[..|fs| - 1], start);
      var l := LayoutOf(instrumentCtx, fs[|fs| - 1], End(before, start), Counters(before));
      LayoutFits(instrumentCtx, fs[|fs| - 1], End(before, start), Counters(before));
      MoreChained(before, start, l);
    }
  }

  lemma NoneChained(start: nat)
    ensures Chained([], start)
  {
  }

  lemma MoreChained(layouts: seq<Layout>, start: nat, l: Layout)
    requires Chained(layouts, start) && WellLaid(l) && l.base == End(layouts, start)
    ensures Chained(layouts + [l], start)
  {
    hide WellLaid;
  }

  lemma {:induction false} Multiples(n: nat, a: nat, b: nat)
    requires a < b
    ensures Times(n, a) + n <= Times(n, b)
    decreases b
  {
    if a < b - 1 {
      Multiples(n, a, b - 1);
    }
  }

  /** Every index of a function lies in its range. */
  lemma IndexInRange(l: Layout, k: nat, ctx: nat)
    requires WellLaid(l) && k < |l.ids| && ctx < l.contexts
    ensures l.base < Index(l, k, ctx) <= l.end
  {
    Multiples(|l.ids|, 0, l.contexts);
    Multiples(|l.ids|, ctx, l.contexts);
  }

  /** Within a function, different counters never share an index, and one
      counter has different indices for different contexts if it is moved. */
  lemma IndexInjective(l: Layout, k: nat, ctx: nat, k': nat, ctx': nat)
    requires WellLaid(l) && k < |l.ids| && k' < |l.ids| && ctx < l.contexts && ctx' < l.contexts
    requires Index(l, k, ctx) == Index(l, k', ctx')
    ensures k == k' && (l.ids[k].shifted ==> ctx == ctx')
  {
    var c, c' := if l.ids[k].shifted then ctx else 0, if l.ids[k'].shifted then ctx' else 0;
    if c < c' {
      Multiples(|l.ids|, c, c');
      assert false;
    } else if c' < c {
      Multiples(|l.ids|, c', c);
      assert false;
    }
  }

  lemma RangeUp(l: Layout)
    requires WellLaid(l)
    ensures l.base <= l.end
  {
  }

  lemma {:induction false} RangesOrdered(layouts: seq<Layout>, start: nat, i: nat, j: nat)
    requires Chained(layouts, start) && i < j < |layouts|
    ensures layouts[i].end <= layouts[j].base
    decreases j
  {
    hide WellLaid;
    if i < j - 1 {
      RangesOrdered(layouts, start, i, j - 1);
      RangeUp(layouts[j - 1]);
    }
  }

  /** All ranges lie between the start and the end of the whole. */
  lemma RangesWithin(layouts: seq<Layout>, start: nat, i: nat)
    requires Chained(layouts, start) && i < |layouts|
    ensures start <= layouts[i].base && layouts[i].end <= End(layouts, start)
  {
    hide WellLaid;
    if i > 0 {
      RangesOrdered(layouts, start, 0, i);
      RangeUp(layouts[0]);
    }
    if i < |layouts| - 1 {
      RangesOrdered(layouts, start, i, |layouts| - 1);
      RangeUp(layouts[|layouts| - 1]);
    }
  }

  /** Where the program computes the index that it should. */
  lemma IndexWraps(l: Layout, k: nat, ctx: u32)
    requires k < |l.ids|
    ensures Index32(l, k, ctx) == Wrap(Index(l, k, ctx))
  {
    WrapProduct(|l.ids|, ctx);
    hide Wrap, Mul32;
    WrapSum(l.ids[k].local, if l.ids[k].shifted then Times(|l.ids|, ctx) else 0);
    WrapZero();
  }

  lemma WrapZero()
    ensures Wrap(0) == 0
  {
  }

  /** A counter of a module, in a context. */
  datatype Counter = Counter(f: nat, k: nat, ctx: u32)

  ghost predicate IsCounter(layouts: seq<Layout>, c: Counter) {
    c.f < |layouts| && c.k < |layouts[c.f].ids| && c.ctx < layouts[c.f].contexts
  }

  function IndexOf(layouts: seq<Layout>, c: Counter): u32
    requires c.f < |layouts| && c.k < |layouts[c.f].ids|
  {
    Index32(layouts[c.f], c.k, c.ctx)
  }

  /** What a caller can check before: the start, all counters and all copies
      leave room for eight numbers below 2^32. */
  predicate Fits(instrumentCtx: bool, fs: seq<Func>, start: nat) {
    EndOf(instrumentCtx, fs, start) + 8 < TWO32
  }

  lemma CounterInRange(layouts: seq<Layout>, start: nat, c: Counter)
    requires Chained(layouts, start) && IsCounter(layouts, c) && End(layouts, start) < TWO32
    ensures start < IndexOf(layouts, c) == Index(layouts[c.f], c.k, c.ctx) <= End(layouts, start)
    ensures layouts[c.f].base < IndexOf(layouts, c) <= layouts[c.f].end
  {
    hide WellLaid, Index, Index32;
    IndexInRange(layouts[c.f], c.k, c.ctx);
    RangesWithin(layouts, start, c.f);
    IndexWraps(layouts[c.f], c.k, c.ctx);
  }

  /** Then every index is at least 5 and lies in the map. */
  lemma IndicesFit(instrumentCtx: bool, fs: seq<Func>, start: nat, c: Counter)
    requires start >= 4 && Fits(instrumentCtx, fs, start) && IsCounter(Layouts(instrumentCtx, fs, start), c)
    ensures 5 <= IndexOf(Layouts(instrumentCtx, fs, start), c) < FinalLoc(Wrap(EndOf(instrumentCtx, fs, start)))
  {
    hide Layouts, Index32, IsCounter, IndexOf, FinalLoc, Wrap, End, Chained;
    LayoutsChained(instrumentCtx, fs, start);
    CounterInRange(Layouts(instrumentCtx, fs, start), start, c);
    FinalAbove(EndOf(instrumentCtx, fs, start));
  }

  lemma FinalAbove(end: nat)
    requires end + 8 < TWO32
    ensures Wrap(end) == end < FinalLoc(Wrap(end)) && FinalLoc(Wrap(end)) % 8 == 0
  {
  }

  /** And no two counters share an index, in whatever functions; and a moved
      counter has its own in every context. */
  lemma IndicesDistinct(instrumentCtx: bool, fs: seq<Func>, start: nat, c: Counter, c': Counter)
    requires Fits(instrumentCtx, fs, start)
    requires IsCounter(Layouts(instrumentCtx, fs, start), c) && IsCounter(Layouts(instrumentCtx, fs, start), c')
    requires IndexOf(Layouts(instrumentCtx, fs, start), c) == IndexOf(Layouts(instrumentCtx, fs, start), c')
    ensures c.f == c'.f && c.k == c'.k
    ensures Layouts(instrumentCtx, fs, start)[c.f].ids[c.k].shifted ==> c.ctx == c'.ctx
  {
    hide Layouts, Index32, Index, WellLaid, IndexOf;
    var layouts := Layouts(instrumentCtx, fs, start);
    LayoutsChained(instrumentCtx, fs, start);
    CounterInRange(layouts, start, c);
    CounterInRange(layouts, start, c');
    if c.f < c'.f {
      RangesOrdered(layouts, start, c.f, c'.f);
      assert false;
    } else if c'.f < c.f {
      RangesOrdered(layouts, start, c'.f, c.f);
      assert false;
    }
    IndexInjective(layouts[c.f], c.k, c.ctx, c'.k, c'.ctx);
  }

  /** The numbers taken for counters and copies all lie between 5 and the size
      of the map exactly if they fit. */
  lemma FitsExactly(instrumentCtx: bool, fs: seq<Func>, start: nat)
    requires 4 <= start < TWO32 && start < EndOf(instrumentCtx, fs, start)
    ensures var end := EndOf(instrumentCtx, fs, start);
            Fits(instrumentCtx, fs, start) <==>
            forall v: nat {:trigger Wrap(v)} :: start < v <= end ==> 5 <= Wrap(v) < FinalLoc(Wrap(end))
  {
    hide EndOf;
    var end := EndOf(instrumentCtx, fs, start);
    if end >= TWO32 {
      assert Wrap(TWO32) == 0;
    } else if end + 8 >= TWO32 {
      assert Wrap(end) == end && FinalLoc(end) == 0;
    }
  }

  /** All counters of functions with contexts are moved by them, as they are
      without vectors of more than one element. */
  ghost predicate AllMoved(layouts: seq<Layout>) {
    forall i, k :: 0 <= i < |layouts| && layouts[i].contexts > 1 && 0 <= k < |layouts[i].ids| ==> layouts[i].ids[k].shifted
  }

  /** Then every number taken is the index of a counter. */
  lemma {:induction false} NumberIsIndex(l: Layout, v: nat, contexts: nat) returns (k: nat, ctx: nat)
    requires WellLaid(l) && (l.contexts > 1 ==> forall j :: 0 <= j < |l.ids| ==> l.ids[j].shifted)
    requires contexts <= l.contexts && l.base < v <= l.base + Times(|l.ids|, contexts)
    ensures k < |l.ids| && ctx < contexts && Index(l, k, ctx) == v
    decreases contexts
  {
    var below := l.base + Times(|l.ids|, contexts - 1);
    if v > below {
      k, ctx := v - below - 1, contexts - 1;
    } else {
      k, ctx := NumberIsIndex(l, v, contexts - 1);
    }
  }

  lemma {:induction false} FunctionOf(layouts: seq<Layout>, start: nat, v: nat) returns (i: nat)
    requires Chained(layouts, start) && start < v <= End(layouts, start)
    ensures i < |layouts| && layouts[i].base < v <= layouts[i].end
    decreases |layouts|
  {
    hide WellLaid;
    i := |layouts| - 1;
    if v <= layouts[i].base {
      i := FunctionOf(layouts[..i], start, v);
    }
  }

  lemma CounterAt(layouts: seq<Layout>, start: nat, v: nat) returns (c: Counter)
    requires Chained(layouts, start) && AllMoved(layouts) && start < v <= End(layouts, start)
    ensures IsCounter(layouts, c) && IndexOf(layouts, c) == Wrap(v)
  {
    hide Index32, Wrap, Index;
    var i := FunctionOf(layouts, start, v);
    var k, ctx := NumberIsIndex(layouts[i], v, layouts[i].contexts);
    IndexWraps(layouts[i], k, ctx);
    c := Counter(i, k, ctx);
  }

  /** Where all counters are moved, they all have indices from 5 to below the map
      size exactly if they fit. */
  lemma IndicesFitExactly(instrumentCtx: bool, fs: seq<Func>, start: nat)
    requires 4 <= start < TWO32 && start < EndOf(instrumentCtx, fs, start)
    requires AllMoved(Layouts(instrumentCtx, fs, start))
    ensures var layouts, last := Layouts(instrumentCtx, fs, start), FinalLoc(Wrap(EndOf(instrumentCtx, fs, start)));
            Fits(instrumentCtx, fs, start) <==>
            forall c :: IsCounter(layouts, c) ==> 5 <= IndexOf(layouts, c) < last
  {
    hide Layouts, Index32, IndexOf, FinalLoc, Wrap, End, Chained, AllMoved;
    var layouts, end := Layouts(instrumentCtx, fs, start), EndOf(instrumentCtx, fs, start);
    LayoutsChained(instrumentCtx, fs, start);
    if Fits(instrumentCtx, fs, start) {
      forall c | IsCounter(layouts, c)
        ensures 5 <= IndexOf(layouts, c) < FinalLoc(Wrap(end))
      {
        IndicesFit(instrumentCtx, fs, start, c);
      }
    } else {
      var v := if end >= TWO32 then TWO32 else end;
      var c := CounterAt(layouts, start, v);
      TooFar(end);
    }
  }

  lemma TooFar(end: nat)
    requires end + 8 >= TWO32
    ensures Wrap(TWO32) == 0
    ensures end < TWO32 ==> Wrap(end) == end && FinalLoc(Wrap(end)) == 0
  {
  }

  /** The failing input: with -1 as the start number, which is not refused, the
      first counter has index 0. */
  lemma StartIdWraps()
    ensures var layouts := Layouts(false, [Func(1, [Block], 1)], TWO32 - 1);
            IsCounter(layouts, Counter(0, 0, 0)) && IndexOf(layouts, Counter(0, 0, 0)) == 0
    ensures !Fits(false, [Func(1, [Block], 1)], TWO32 - 1)
  {
    var f, id := Func(1, [Block], 1), TWO32 - 1;
    assert [f][..0] == [];
    assert AllNumbered([Block], id, false) == [Id(TWO32, false)] by {
      assert [Block][..0] == [];
      assert Numbered(Block, id, false) == [Id(TWO32, false)];
    }
    assert Layouts(false, [f], id) == [LayoutOf(false, f, id, 0)];
    hide Layouts, AllNumbered;
    assert Times(1, 1) == 1;
  }
}
