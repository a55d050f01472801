/** The corpus minimiser: one worker's tables and its trace pack.

  A worker receives files in some order.  For every tuple it keeps the
  smallest index among its files whose trace contains the tuple, it counts
  all tuple occurrences, and it appends to its pack the traces of those files
  that were, on arrival, the best for some tuple.
 */
module CminWorker {
  import opened Wrappers
  import opened Words

  type Trace = seq<nat>

  /** The input files, by index, with their traces; `width` is the item size
      of the packed tuples and `sentinel` the initial value of the tables. */
  datatype Corpus = Corpus(traces: seq<Trace>, maxTuple: nat, width: nat, sentinel: nat)

  ghost predicate WellFormed(c: Corpus) {
    && c.width > 0 && c.maxTuple <= Pow256(c.width)
    && |c.traces| <= c.sentinel
    && forall i, k :: 0 <= i < |c.traces| && 0 <= k < |c.traces[i]| ==> c.traces[i][k] < c.maxTuple
  }

  // ------------------------------------------------------------ item widths

  /** detect_type_code, by item size: the first of the array types B, H, I, L
      and Q whose items can hold `size`. */
  function DetectItemSize(size: nat): Option<nat> {
    if Pow256(1) > size then Some(1)
    else if Pow256(2) > size then Some(2)
    else if Pow256(4) > size then Some(4)
    else if Pow256(8) > size then Some(8)
    else None
  }

  /** Tables start out above every file index, and every tuple fits the pack
      items, when both widths come from the detection. */
  lemma DetectedSizesFit(traces: seq<Trace>, mapSize: nat, fileWidth: nat, width: nat)
    requires DetectItemSize(|traces|) == Some(fileWidth)
    requires DetectItemSize(mapSize * 9) == Some(width)
    requires forall i, k :: 0 <= i < |traces| && 0 <= k < |traces[i]| ==> traces[i][k] < mapSize * 9
    ensures WellFormed(Corpus(traces, mapSize * 9, width, Pow256(fileWidth) - 1))
  {
  }

  // ------------------------------------------------------------------- packs

  /** array.tofile: every item in `width` bytes. */
  function Encode(trace: Trace, width: nat): seq<byte> {
    if trace == [] then [] else WriteLE(trace[0], width) + Encode(trace[1..], width)
  }

  /** array.fromfile: exactly `count` items, or a failure at the end of file. */
  function Decode(bytes: seq<byte>, count: nat, width: nat): Option<Trace>
    decreases count
  {
    if count == 0 then Some([])
    else if |bytes| < width then None
    else
      match Decode(bytes[width..], count - 1, width)
      case None => None
      case Some(rest) => Some([ReadLE(bytes[..width])] + rest)
  }

  lemma {:induction false} EncodedLength(trace: Trace, width: nat)
    ensures |Encode(trace, width)| == |trace| * width
  {
    if trace != [] {
      EncodedLength(trace[1..], width);
      assert |trace| * width == (|trace| - 1) * width + width;
    }
  }

  lemma DecodeFirst(first: seq<byte>, rest: seq<byte>, count: nat, width: nat)
    requires count > 0 && |first| == width && Decode(rest, count - 1, width).Some?
    ensures Decode(first + rest, count, width) == Some([ReadLE(first)] + Decode(rest, count - 1, width).value)
  {
    hide ReadLE;
    assert (first + rest)[..width] == first && (first + rest)[width..] == rest;
  }

  lemma {:induction false} EncodeThenDecode(trace: Trace, width: nat, after: seq<byte>)
    requires forall k :: 0 <= k < |trace| ==> trace[k] < Pow256(width)
    ensures Decode(Encode(trace, width) + after, |trace|, width) == Some(trace)
  {
    hide *;
    if trace == [] {
      NothingEncoded(trace, width, after);
    } else {
      EncodeThenDecode(trace[1..], width, after);
      EncodeFirst(trace, width);
      WriteThenRead(trace[0], width);
      DecodeFirst(WriteLE(trace[0], width), Encode(trace[1..], width) + after, |trace|, width);
      assert Encode(trace, width) + after == WriteLE(trace[0], width) + (Encode(trace[1..], width) + after);
      assert trace == [trace[0]] + trace[1..];
    }
  }

  lemma NothingEncoded(trace: Trace, width: nat, after: seq<byte>)
    requires trace == []
    ensures Decode(Encode(trace, width) + after, |trace|, width) == Some(trace)
  {
  }

  lemma EncodeFirst(trace: Trace, width: nat)
    requires trace != []
    ensures Encode(trace, width) == WriteLE(trace[0], width) + Encode(trace[1..], width)
  {
  }

  /** What could be read before more was written reads the same after. */
  lemma {:induction false} DecodeExtends(bytes: seq<byte>, more: seq<byte>, count: nat, width: nat)
    requires Decode(bytes, count, width).Some?
    ensures Decode(bytes + more, count, width) == Decode(bytes, count, width)
    decreases count
  {
    if count != 0 {
      DecodeExtends(bytes[width..], more, count - 1, width);
      assert (bytes + more)[width..] == bytes[width..] + more;
      assert (bytes + more)[..width] == bytes[..width];
    }
  }

  /** Where a trace lies: which worker's pack, at which byte, how many items. */
  datatype Record = Record(worker: nat, pos: nat, count: nat)

  /** The record points at exactly this trace in the pack. */
  ghost predicate PointsAt(pack: seq<byte>, r: Record, trace: Trace, width: nat) {
    r.pos <= |pack| && Decode(pack[r.pos..], r.count, width) == Some(trace)
  }

  lemma PointsAtExtends(pack: seq<byte>, more: seq<byte>, r: Record, trace: Trace, width: nat)
    requires PointsAt(pack, r, trace, width)
    ensures PointsAt(pack + more, r, trace, width)
  {
    DecodeExtends(pack[r.pos..], more, r.count, width);
    assert (pack + more)[r.pos..] == pack[r.pos..] + more;
  }

  // ------------------------------------------------ what the tables must hold

  /** The trace of file i; files outside the corpus have none. */
  function TraceOf(c: Corpus, i: nat): Trace {
    if i < |c.traces| then c.traces[i] else []
  }

  /** m[t] is the least file among `handled` whose trace contains t, or the
      sentinel if there is none. */
  ghost predicate IsMinTable(c: Corpus, handled: seq<nat>, m: seq<nat>) {
    && |m| == c.maxTuple
    && (forall t :: 0 <= t < c.maxTuple ==> m[t] == c.sentinel || (m[t] in handled && t in TraceOf(c, m[t])))
    && (forall i, t {:trigger i in handled, t in TraceOf(c, i)} ::
          i in handled && t in TraceOf(c, i) ==> t < c.maxTuple && m[t] <= i)
  }

  /** All tuple occurrences in the handled files. */
  ghost function Occurrences(c: Corpus, handled: seq<nat>): multiset<nat> {
    if handled == [] then multiset{}
    else Occurrences(c, handled[..|handled| - 1]) + multiset(TraceOf(c, handled[|handled| - 1]))
  }

  /** The handled files without a trace, in order. */
  ghost function Crashed(c: Corpus, handled: seq<nat>): seq<nat> {
    if handled == [] then []
    else
      var last := handled[|handled| - 1];
      Crashed(c, handled[..|handled| - 1]) + if TraceOf(c, last) == [] then [last] else []
  }

  /** Every record points at its own file's trace in worker `idx`'s pack, and
      every file that is best for some tuple has a record. */
  ghost predicate RecordsFit(c: Corpus, idx: nat, handled: seq<nat>, records: map<nat, Record>,
                             pack: seq<byte>, m: seq<nat>)
  {
    && (forall i :: i in records ==>
          i in handled && records[i].worker == idx && PointsAt(pack, records[i], TraceOf(c, i), c.width))
    && (forall t :: 0 <= t < |m| && m[t] != c.sentinel ==> m[t] in records)
  }

  /** The file comes before all handled files with some tuple of its trace. */
  ghost predicate NewBest(c: Corpus, handled: seq<nat>, i: nat) {
    exists t :: t in TraceOf(c, i) && forall j :: j in handled && t in TraceOf(c, j) ==> i < j
  }

  /** The table after one more trace. */
  ghost predicate Lowered(was: seq<nat>, trace: Trace, i: nat, now: seq<nat>) {
    |now| == |was|
    && forall t :: 0 <= t < |was| ==> now[t] == if t in trace && i < was[t] then i else was[t]
  }

  ghost predicate Lowers(was: seq<nat>, trace: Trace, i: nat) {
    exists t :: 0 <= t < |was| && t in trace && i < was[t]
  }

  lemma LoweredIsMin(c: Corpus, handled: seq<nat>, i: nat, was: seq<nat>, now: seq<nat>)
    requires WellFormed(c) && IsMinTable(c, handled, was) && i < |c.traces|
    requires Lowered(was, TraceOf(c, i), i, now)
    ensures IsMinTable(c, handled + [i], now)
  {
    forall j, t | j in handled + [i] && t in TraceOf(c, j)
      ensures t < c.maxTuple && now[t] <= j
    {
      if j != i {
        assert j in handled;
      }
    }
    forall t | 0 <= t < c.maxTuple
      ensures now[t] == c.sentinel || (now[t] in handled + [i] && t in TraceOf(c, now[t]))
    {
      assert was[t] == c.sentinel || (was[t] in handled && t in TraceOf(c, was[t]));
    }
  }

  lemma LowersMeansBest(c: Corpus, handled: seq<nat>, i: nat, was: seq<nat>)
    requires WellFormed(c) && IsMinTable(c, handled, was) && i < |c.traces|
    ensures Lowers(was, TraceOf(c, i), i) <==> NewBest(c, handled, i)
  {
    if NewBest(c, handled, i) {
      var t :| t in TraceOf(c, i) && forall j :: j in handled && t in TraceOf(c, j) ==> i < j;
      assert t < c.maxTuple && i < was[t];
    }
    if Lowers(was, TraceOf(c, i), i) {
      var t :| 0 <= t < |was| && t in c.traces[i] && i < was[t];
      assert t in TraceOf(c, i) && forall j :: j in handled && t in TraceOf(c, j) ==> i < j;
    }
  }

  /** The pack and the message after file i: its trace appended and a record
      that points at it, or neither. */
  ghost predicate Published(c: Corpus, idx: nat, i: nat, used: bool, pack: seq<byte>, pack': seq<byte>,
                            message: Option<(nat, Record)>)
  {
    && (message.Some? <==> used)
    && (message.None? ==> pack' == pack)
    && (message.Some? ==>
          && pack' == pack + Encode(TraceOf(c, i), c.width)
          && message.value.0 == i && message.value.1.worker == idx
          && PointsAt(pack', message.value.1, TraceOf(c, i), c.width))
  }

  lemma RecordsStillFit(c: Corpus, idx: nat, handled: seq<nat>, records: map<nat, Record>, pack: seq<byte>,
                        was: seq<nat>, now: seq<nat>, i: nat, pack': seq<byte>, message: Option<(nat, Record)>)
    requires i !in handled
    requires RecordsFit(c, idx, handled, records, pack, was)
    requires Lowered(was, TraceOf(c, i), i, now)
    requires Published(c, idx, i, Lowers(was, TraceOf(c, i), i), pack, pack', message)
    ensures RecordsFit(c, idx, handled + [i], Reported(records, message), pack', now)
  {
    hide PointsAt, Encode, TraceOf;
    var more := if message.Some? then Encode(TraceOf(c, i), c.width) else [];
    assert pack' == pack + more;
    forall j | j in records
      ensures PointsAt(pack', records[j], TraceOf(c, j), c.width)
    {
      PointsAtExtends(pack, more, records[j], TraceOf(c, j), c.width);
    }
    if message.None? {
      assert now == was;
    }
  }

  /** Everything a worker holds after the files in `handled`. */
  ghost predicate Holds(c: Corpus, idx: nat, handled: seq<nat>, m: seq<nat>, counter: multiset<nat>,
                        crashes: seq<nat>, pack: seq<byte>, packPos: nat, records: map<nat, Record>)
  {
    && IsMinTable(c, handled, m)
    && counter == Occurrences(c, handled)
    && crashes == Crashed(c, handled)
    && packPos == |pack|
    && RecordsFit(c, idx, handled, records, pack, m)
  }

  lemma HoldsPosition(c: Corpus, idx: nat, handled: seq<nat>, m: seq<nat>, counter: multiset<nat>,
                      crashes: seq<nat>, pack: seq<byte>, packPos: nat, records: map<nat, Record>)
    requires Holds(c, idx, handled, m, counter, crashes, pack, packPos, records)
    ensures packPos == |pack| && |m| == c.maxTuple
  {
  }

  lemma HoldsAfter(c: Corpus, idx: nat, handled: seq<nat>, m: seq<nat>, counter: multiset<nat>,
                   crashes: seq<nat>, pack: seq<byte>, packPos: nat, records: map<nat, Record>,
                   i: nat, m': seq<nat>, pack': seq<byte>, message: Option<(nat, Record)>)
    requires WellFormed(c) && i < |c.traces| && i !in handled
    requires Holds(c, idx, handled, m, counter, crashes, pack, packPos, records)
    requires Lowered(m, TraceOf(c, i), i, m')
    requires Published(c, idx, i, Lowers(m, TraceOf(c, i), i), pack, pack', message)
    ensures Holds(c, idx, handled + [i], m', counter + multiset(TraceOf(c, i)),
                  crashes + if TraceOf(c, i) == [] then [i] else [],
                  pack', |pack'|, Reported(records, message))
    ensures message.Some? <==> NewBest(c, handled, i)
  {
    hide WellFormed, Published, RecordsFit, Lowered, NewBest, IsMinTable, TraceOf;
    LoweredIsMin(c, handled, i, m, m');
    LowersMeansBest(c, handled, i, m);
    RecordsStillFit(c, idx, handled, records, pack, m, m', i, pack', message);
    OccurrencesStep(c, handled, i);
    MessageIffUsed(c, idx, i, Lowers(m, TraceOf(c, i), i), pack, pack', message);
  }

  lemma MessageIffUsed(c: Corpus, idx: nat, i: nat, used: bool, pack: seq<byte>, pack': seq<byte>,
                       message: Option<(nat, Record)>)
    requires Published(c, idx, i, used, pack, pack', message)
    ensures message.Some? <==> used
    ensures message.Some? ==> message.value.0 == i
  {
  }

  /** The records once a message has been read. */
  function Reported(records: map<nat, Record>, message: Option<(nat, Record)>): map<nat, Record> {
    match message
    case None => records
    case Some((i, record)) => records[i := record]
  }

  class Worker {
    const idx: nat
    const m: array<nat>
    var counter: multiset<nat>
    var crashes: seq<nat>
    var pack: seq<byte>
    var packPos: nat

    /** The files handled so far, in order, and the records reported for them. */
    ghost var handled: seq<nat>
    ghost var records: map<nat, Record>

    ghost predicate Valid(c: Corpus)
      reads this, m
    {
      Holds(c, idx, handled, m[..], counter, crashes, pack, packPos, records)
    }

    constructor (c: Corpus, idx: nat)
      requires WellFormed(c)
      ensures Valid(c) && handled == [] && records == map[] && this.idx == idx
      ensures fresh(m)
    {
      this.idx := idx;
      m := new nat[c.maxTuple](_ => c.sentinel);
      counter, crashes, pack, packPos := multiset{}, [], [], 0;
      handled, records := [], map[];
    }

    /** One file.  The message reported is a record exactly if the file, when
        it arrives, is the best so far for some tuple of its trace. */
    method HandleFile(c: Corpus, i: nat, crashDir: bool) returns (message: Option<(nat, Record)>)
      requires WellFormed(c) && Valid(c)
      requires i < |c.traces| && i !in handled
      modifies this, m
      ensures Valid(c) && handled == old(handled) + [i]
      ensures records == Reported(old(records), message)
      ensures message.Some? ==> message.value.0 == i
      ensures message.Some? <==> NewBest(c, old(handled), i)
    {
      hide WellFormed, Holds, NewBest, Lowered, Lowers, Reported, TraceOf, Published, PointsAt, Encode, IsMinTable, RecordsFit;
      ghost var was, packed := m[..], pack;
      HoldsPosition(c, idx, handled, was, counter, crashes, pack, packPos, records);
      TraceBounded(c, i, was);
      var r := TraceOf(c, i);
      var crash := r == [];
      var used := LowerUnlessSaved(m, r, i, crash && crashDir);
      var pack', packPos';
      message, pack', packPos' := Publish(c, idx, i, used, pack, packPos);
      HoldsAfter(c, idx, handled, was, counter, crashes, packed, packPos, records, i, m[..], pack', message);
      MessageIffUsed(c, idx, i, used, packed, pack', message);
      counter, crashes := counter + multiset(r), crashes + if crash then [i] else [];
      pack, packPos := pack', packPos';
      handled, records := handled + [i], Reported(records, message);
    }

    /** The loop up to the sentinel: batch after batch, file after file, with
        one message for each. */
    method Run(c: Corpus, batches: seq<seq<nat>>, crashDir: bool) returns (messages: seq<Option<(nat, Record)>>)
      requires WellFormed(c) && Valid(c) && handled == [] && records == map[]
      requires Different(All(batches)) && forall i :: i in All(batches) ==> i < |c.traces|
      modifies this, m
      ensures Valid(c) && handled == All(batches)
      ensures |messages| == |handled| && records == AllReported(messages)
      ensures forall k :: 0 <= k < |messages| ==>
        (messages[k].Some? <==> NewBest(c, handled[..k], handled[k])) && (messages[k].Some? ==> messages[k].value.0 == handled[k])
    {
      hide WellFormed, Holds, NewBest, All, AllReported, Different;
      messages := [];
      NothingReported();
      var b := 0;
      while b < |batches|
        invariant 0 <= b <= |batches| && Valid(c) && handled == All(batches[..b])
        invariant |messages| == |handled| && records == AllReported(messages)
        invariant Told(c, handled, messages)
      {
        ghost var before := handled;
        var k := 0;
        OneMoreBatch(batches, b);
        while k < |batches[b]|
          invariant 0 <= k <= |batches[b]| && Valid(c) && handled == before + batches[b][..k]
          invariant |messages| == |handled| && records == AllReported(messages)
          invariant Told(c, handled, messages)
        {
          var i := batches[b][k];
          NotYet(batches, b, k);
          ghost var sofar, told := handled, messages;
          var message := HandleFile(c, i, crashDir);
          messages := messages + [message];
          ToldMore(c, sofar, told, i, message);
          assert batches[b][..k + 1] == batches[b][..k] + [i];
          k := k + 1;
        }
        assert batches[b][..k] == batches[b];
        b := b + 1;
      }
      assert batches[..b] == batches;
    }
  }

  function All(batches: seq<seq<nat>>): seq<nat> {
    if batches == [] then [] else All(batches[..|batches| - 1]) + batches[|batches| - 1]
  }

  ghost predicate Different(s: seq<nat>) {
    forall i, j :: 0 <= i < j < |s| ==> s[i] != s[j]
  }

  /** The records after all messages have been read. */
  function AllReported(messages: seq<Option<(nat, Record)>>): map<nat, Record> {
    if messages == [] then map[]
    else Reported(AllReported(messages[..|messages| - 1]), messages[|messages| - 1])
  }

  lemma NothingReported()
    ensures AllReported([]) == map[] && All([]) == []
  {
  }

  ghost predicate Told(c: Corpus, handled: seq<nat>, messages: seq<Option<(nat, Record)>>) {
    && |messages| == |handled|
    && forall k :: 0 <= k < |messages| ==>
         (messages[k].Some? <==> NewBest(c, handled[..k], handled[k])) && (messages[k].Some? ==> messages[k].value.0 == handled[k])
  }

  lemma ToldMore(c: Corpus, handled: seq<nat>, messages: seq<Option<(nat, Record)>>, i: nat, message: Option<(nat, Record)>)
    requires Told(c, handled, messages)
    requires (message.Some? <==> NewBest(c, handled, i)) && (message.Some? ==> message.value.0 == i)
    ensures Told(c, handled + [i], messages + [message])
    ensures AllReported(messages + [message]) == Reported(AllReported(messages), message)
  {
    hide NewBest;
    assert (messages + [message])[..|messages|] == messages;
    forall k | 0 <= k <= |handled|
      ensures (handled + [i])[..k] == handled[..k]
    {
    }
  }

  lemma OneMoreBatch(batches: seq<seq<nat>>, b: nat)
    requires b < |batches|
    ensures All(batches[..b + 1]) == All(batches[..b]) + batches[b]
  {
    assert batches[..b + 1][..b] == batches[..b];
  }

  /** What is left to handle has not been handled. */
  lemma NotYet(batches: seq<seq<nat>>, b: nat, k: nat)
    requires b < |batches| && k < |batches[b]| && Different(All(batches))
    ensures batches[b][k] !in All(batches[..b]) + batches[b][..k]
    ensures batches[b][k] in All(batches)
  {
    var rest := StartOfAll(batches, b + 1);
    OneMoreBatch(batches, b);
    var all, head := All(batches), All(batches[..b]);
    assert all == head + batches[b] + rest;
    assert all[|head| + k] == batches[b][k];
    assert all[..|head| + k] == head + batches[b][..k];
  }

  lemma {:induction false} StartOfAll(batches: seq<seq<nat>>, b: nat) returns (rest: seq<nat>)
    requires b <= |batches|
    ensures All(batches) == All(batches[..b]) + rest
    decreases |batches|
  {
    if b == |batches| {
      assert batches[..b] == batches;
      rest := [];
    } else {
      var n := |batches| - 1;
      assert batches[..n][..b] == batches[..b];
      var more := StartOfAll(batches[..n], b);
      rest := more + batches[n];
    }
  }

  /** Appends the trace of a file to the pack, if it is to be kept. */
  method Publish(c: Corpus, idx: nat, i: nat, used: bool, pack: seq<byte>, packPos: nat)
    returns (message: Option<(nat, Record)>, pack': seq<byte>, packPos': nat)
    requires WellFormed(c) && i < |c.traces| && packPos == |pack|
    ensures Published(c, idx, i, used, pack, pack', message)
    ensures packPos' == |pack'|
  {
    message, pack', packPos' := None, pack, packPos;
    if used {
      var r := TraceOf(c, i);
      PackedTrace(c, i, pack);
      EncodedLength(r, c.width);
      hide Encode, PointsAt;
      message := Some((i, Record(idx, packPos, |r|)));
      pack' := pack + Encode(r, c.width);
      packPos' := packPos + |r| * c.width;
    }
  }

  lemma TraceBounded(c: Corpus, i: nat, m: seq<nat>)
    requires WellFormed(c) && i < |c.traces| && |m| == c.maxTuple
    ensures forall k :: 0 <= k < |TraceOf(c, i)| ==> TraceOf(c, i)[k] < |m|
  {
  }

  lemma OccurrencesStep(c: Corpus, handled: seq<nat>, i: nat)
    ensures Occurrences(c, handled + [i]) == Occurrences(c, handled) + multiset(TraceOf(c, i))
    ensures Crashed(c, handled + [i]) == Crashed(c, handled) + if TraceOf(c, i) == [] then [i] else []
  {
    assert (handled + [i])[..|handled|] == handled;
  }

  lemma PackedTrace(c: Corpus, i: nat, pack: seq<byte>)
    requires WellFormed(c) && i < |c.traces|
    ensures forall w :: PointsAt(pack + Encode(c.traces[i], c.width), Record(w, |pack|, |c.traces[i]|), c.traces[i], c.width)
  {
    var r := c.traces[i];
    EncodeThenDecode(r, c.width, []);
    assert (pack + Encode(r, c.width))[|pack|..] == Encode(r, c.width) + [];
  }

  /** A crash that goes to the crash directory does not enter the table; it
      has no trace, so nothing is lost. */
  method LowerUnlessSaved(m: array<nat>, r: Trace, i: nat, savedApart: bool) returns (used: bool)
    requires forall k :: 0 <= k < |r| ==> r[k] < m.Length
    requires savedApart ==> r == []
    modifies m
    ensures Lowered(old(m[..]), r, i, m[..])
    ensures used <==> Lowers(old(m[..]), r, i)
  {
    used := false;
    if !savedApart {
      used := LowerTable(m, r, i);
    }
  }

  /** Lowers the table for one trace; reports whether anything was lowered. */
  method LowerTable(m: array<nat>, r: Trace, i: nat) returns (used: bool)
    requires forall k :: 0 <= k < |r| ==> r[k] < m.Length
    modifies m
    ensures Lowered(old(m[..]), r, i, m[..])
    ensures used <==> Lowers(old(m[..]), r, i)
  {
    used := false;
    var k := 0;
    while k < |r|
      invariant 0 <= k <= |r|
      invariant Lowered(old(m[..]), r[..k], i, m[..])
      invariant used <==> Lowers(old(m[..]), r[..k], i)
    {
      var t := r[k];
      assert r[..k + 1] == r[..k] + [t];
      if i < m[t] {
        m[t] := i;
        used := true;
      }
      k := k + 1;
    }
    assert r[..k] == r;
  }
}
