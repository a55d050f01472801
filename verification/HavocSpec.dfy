/** The havoc mutator: what its operators do to the input, as operations on
    byte sequences, and the laws those operations obey. */
module HavocSpec {
  import opened Words
  import opened Sattolo

  // ----------------------------------------------------- inserts and deletes

  /** Everything before `at`, then `block`, then everything from `from` on:
      an insertion if from == at, a deletion if the block is empty. */
  function Replace(s: seq<byte>, at: nat, block: seq<byte>, from: nat): (r: seq<byte>)
    requires at <= |s| && from <= |s|
    ensures |r| == at + |block| + |s| - from
  {
    s[..at] + block + s[from..]
  }

  function Without(s: seq<byte>, from: nat, n: nat): (r: seq<byte>)
    requires from + n <= |s|
    ensures |r| == |s| - n
  {
    Replace(s, from, [], from + n)
  }

  /** memset */
  function Filled(n: nat, b: byte): (r: seq<byte>)
    ensures |r| == n && forall k :: 0 <= k < n ==> r[k] == b
  {
    seq(n, _ => b)
  }

  lemma FilledOne(b: byte)
    ensures Filled(1, b) == [b]
  {
  }

  /** Deleting what was inserted restores the input. */
  lemma InsertThenDelete(s: seq<byte>, at: nat, block: seq<byte>)
    requires at <= |s|
    ensures Without(Replace(s, at, block, at), at, |block|) == s
  {
    var r := Replace(s, at, block, at);
    assert r[..at] == s[..at] && r[at + |block|..] == s[at..];
    assert s[..at] + s[at..] == s;
  }

  // ----------------------------------------------------------------- words

  /** A word in either byte order. */
  function Value(s: seq<byte>, bigEndian: bool): nat {
    ReadLE(if bigEndian then Reversed(s) else s)
  }

  function Bytes(v: nat, width: nat, bigEndian: bool): (s: seq<byte>)
    ensures |s| == width
  {
    if bigEndian then Reversed(WriteLE(v, width)) else WriteLE(v, width)
  }

  lemma BytesThenValue(v: nat, width: nat, bigEndian: bool)
    requires v < Pow256(width)
    ensures Value(Bytes(v, width, bigEndian), bigEndian) == v
  {
    hide WriteLE, ReadLE, Reversed;
    WriteThenRead(v, width);
    ReversedTwice(WriteLE(v, width));
  }

  /** SWAP(SWAP(x) + d) is an addition in the other byte order; SWAP(SWAP(x +
      d)), which is what the big-endian 32-bit addition computes, is the plain
      little-endian addition. */
  lemma SwapTwiceIsPlain(v: nat, width: nat)
    requires v < Pow256(width)
    ensures WriteLE(ReadLE(Reversed(WriteLE(ReadLE(Reversed(WriteLE(v, width))), width))), width) == WriteLE(v, width)
  {
    hide WriteLE, ReadLE, Reversed;
    var w := WriteLE(v, width);
    ReadThenWrite(Reversed(w));
    ReversedTwice(w);
    ReadThenWrite(w);
  }

  // ------------------------------------------------------------ permutations

  /** How often each byte occurs. */
  ghost function Bag(s: seq<byte>): multiset<byte> { multiset(s) }

  function Permuted<T>(s: seq<T>, p: seq<nat>): (r: seq<T>)
    requires |p| == |s| && forall k :: 0 <= k < |p| ==> p[k] < |s|
    ensures |r| == |s| && forall k :: 0 <= k < |s| ==> r[k] == s[p[k]]
  {
    seq(|s|, k requires 0 <= k < |s| => s[p[k]])
  }

  lemma SwapKeepsBag(s: seq<byte>, i: nat, j: nat)
    requires i < |s| && j < |s|
    ensures Bag(Swap(s, i, j)) == Bag(s)
  {
  }

  /** The input with a block of it rearranged. */
  function BlockPermuted(s: seq<byte>, off: nat, p: seq<nat>): (r: seq<byte>)
    requires off + |p| <= |s| && IntoItself(p)
    ensures |r| == |s|
  {
    Overlay(s, off, Permuted(s[off..off + |p|], p))
  }

  /** Nothing drawn yet, nothing moved. */
  lemma NothingArranged(s: seq<byte>, off: nat, n: nat)
    requires off + n <= |s| && n > 0
    ensures BlockPermuted(s, off, Arranged(n, [])) == s
  {
    var block := s[off..off + n];
    assert Permuted(block, Identity(n)) == block;
    OverlaySelf(s, off, n);
  }

  /** One more draw exchanges two bytes of the block. */
  lemma OneMoreDraw(s: seq<byte>, off: nat, n: nat, js: seq<nat>, j: nat)
    requires off + n <= |s| && Drawn(n, js) && |js| < n - 1 && j < n - 1 - |js|
    ensures Drawn(n, js + [j])
    ensures var i := off + n - 1 - |js|;
            BlockPermuted(s, off, Arranged(n, js + [j])) == Swap(BlockPermuted(s, off, Arranged(n, js)), i, off + j)
  {
    hide *;
    OneMoreExchange(n, js, j);
    SwapInBlock(s, off, Arranged(n, js), n - 1 - |js|, j);
  }

  /** Arranging a block loses no byte. */
  lemma {:induction false} ArrangedBag(s: seq<byte>, off: nat, n: nat, js: seq<nat>)
    requires off + n <= |s| && Drawn(n, js)
    ensures Bag(BlockPermuted(s, off, Arranged(n, js))) == Bag(s)
    decreases |js|
  {
    hide *;
    DrawnLength(n, js);
    if js == [] {
      NothingArranged(s, off, n);
    } else {
      var m := |js| - 1;
      LastOfDraws(n, js);
      ArrangedBag(s, off, n, js[..m]);
      OneMoreDraw(s, off, n, js[..m], js[m]);
      SwapKeepsBag(BlockPermuted(s, off, Arranged(n, js[..m])), off + n - 1 - m, off + js[m]);
    }
  }

  // ------------------------------------------------------------------ switch

  /** Exchanges the n bytes at a with the n bytes at b. */
  function Switched(s: seq<byte>, a: nat, b: nat, n: nat): (r: seq<byte>)
    requires a + n <= |s| && b + n <= |s|
    ensures |r| == |s|
  {
    Overlay(Overlay(s, a, s[b..b + n]), b, s[a..a + n])
  }

  ghost predicate Exchanged(s: seq<byte>, a: nat, b: nat, n: nat, r: seq<byte>)
    requires a + n <= b && b + n <= |s| && |r| == |s|
  {
    forall k {:trigger r[k]} :: 0 <= k < |s| ==>
      r[k] == if a <= k < a + n then s[b + k - a] else if b <= k < b + n then s[a + k - b] else s[k]
  }

  lemma SwitchExchanges(s: seq<byte>, a: nat, b: nat, n: nat)
    requires a + n <= b && b + n <= |s|
    ensures Exchanged(s, a, b, n, Switched(s, a, b, n))
    ensures Exchanged(s, a, b, n, Switched(s, b, a, n))
  {
    hide Switched;
    var r, r' := Switched(s, a, b, n), Switched(s, b, a, n);
    forall k {:trigger r[k]} | 0 <= k < |s|
      ensures r[k] == if a <= k < a + n then s[b + k - a] else if b <= k < b + n then s[a + k - b] else s[k]
    {
      SwitchedAt(s, a, b, n, k);
    }
    forall k {:trigger r'[k]} | 0 <= k < |s|
      ensures r'[k] == if a <= k < a + n then s[b + k - a] else if b <= k < b + n then s[a + k - b] else s[k]
    {
      SwitchedAt(s, b, a, n, k);
    }
  }

  lemma SwitchedAt(s: seq<byte>, a: nat, b: nat, n: nat, k: nat)
    requires a + n <= |s| && b + n <= |s| && k < |s|
    ensures Switched(s, a, b, n)[k] == if b <= k < b + n then s[a + k - b] else if a <= k < a + n then s[b + k - a] else s[k]
  {
    var m := Overlay(s, a, s[b..b + n]);
    OverlayAt(s, a, s[b..b + n], k);
    OverlayAt(m, b, s[a..a + n], k);
    hide Overlay;
  }

  /** Exchanging regions that do not overlap keeps all bytes, and doing it
      again restores the input. */
  lemma SwitchLaws(s: seq<byte>, a: nat, b: nat, n: nat)
    requires a + n <= b && b + n <= |s|
    ensures Bag(Switched(s, a, b, n)) == Bag(s)
    ensures Switched(Switched(s, a, b, n), a, b, n) == s
    ensures Switched(s, a, b, n) == Switched(s, b, a, n)
  {
    var r := Switched(s, a, b, n);
    SwitchExchanges(s, a, b, n);
    SwitchExchanges(r, a, b, n);
    hide Switched, Exchanged;
    ExchangeTwice(s, a, b, n, r, Switched(r, a, b, n));
    ExchangeUnique(s, a, b, n, r, Switched(s, b, a, n));
    ExchangeKeepsBag(s, a, b, n, r);
  }

  lemma ExchangeTwice(s: seq<byte>, a: nat, b: nat, n: nat, r: seq<byte>, q: seq<byte>)
    requires a + n <= b && b + n <= |s| && |q| == |r| == |s|
    requires Exchanged(s, a, b, n, r) && Exchanged(r, a, b, n, q)
    ensures q == s
  {
    forall k | 0 <= k < |s|
      ensures q[k] == s[k]
    {
      if a <= k < a + n {
        assert q[k] == r[b + k - a];
      } else if b <= k < b + n {
        assert q[k] == r[a + k - b];
      } else {
        assert q[k] == r[k];
      }
    }
  }

  lemma ExchangeUnique(s: seq<byte>, a: nat, b: nat, n: nat, r: seq<byte>, q: seq<byte>)
    requires a + n <= b && b + n <= |s| && |q| == |r| == |s|
    requires Exchanged(s, a, b, n, r) && Exchanged(s, a, b, n, q)
    ensures q == r
  {
    assert forall k :: 0 <= k < |s| ==> q[k] == r[k];
  }

  lemma ExchangeKeepsBag(s: seq<byte>, a: nat, b: nat, n: nat, r: seq<byte>)
    requires a + n <= b && b + n <= |s| && |r| == |s|
    requires Exchanged(s, a, b, n, r)
    ensures Bag(r) == Bag(s)
  {
    var head, x, mid, y, tail := s[..a], s[a..a + n], s[a + n..b], s[b..b + n], s[b + n..];
    var t := head + y + mid + x + tail;
    forall k | 0 <= k < |r|
      ensures r[k] == t[k]
    {
      if a <= k < a + n {
        assert t[k] == y[k - a];
      } else if b <= k < b + n {
        assert t[k] == x[k - b];
      }
    }
    assert r == t;
    hide Exchanged;
    FiveParts(s, a, n, b);
    BagOfFive(head, x, mid, y, tail);
  }

  lemma FiveParts(s: seq<byte>, a: nat, n: nat, b: nat)
    requires a + n <= b && b + n <= |s|
    ensures s == s[..a] + s[a..a + n] + s[a + n..b] + s[b..b + n] + s[b + n..]
  {
  }

  lemma BagOfFive(head: seq<byte>, x: seq<byte>, mid: seq<byte>, y: seq<byte>, tail: seq<byte>)
    ensures multiset(head + y + mid + x + tail) == multiset(head + x + mid + y + tail)
  {
    assert multiset(head + y + mid + x + tail)
        == multiset(head) + multiset(y) + multiset(mid) + multiset(x) + multiset(tail);
    assert multiset(head + x + mid + y + tail)
        == multiset(head) + multiset(x) + multiset(mid) + multiset(y) + multiset(tail);
  }

  // ------------------------------------------- what the buffers hold, in steps

  /** The staging buffer after head, inserted part and tail. */
  lemma StagedParts(s: seq<byte>, at: nat, block: seq<byte>, from: nat, t0: seq<byte>)
    requires at <= from <= |s| && at + |block| + |s| - from <= |t0|
    ensures var t1 := Overlay(t0, 0, s[..at]);
            var t2 := Overlay(t1, at, block);
            var t3 := Overlay(t2, at + |block|, s[from..]);
            t3[..at + |block| + |s| - from] == Replace(s, at, block, from)
  {
    var t1 := Overlay(t0, 0, s[..at]);
    var t2 := Overlay(t1, at, block);
    var t3 := Overlay(t2, at + |block|, s[from..]);
    assert t1[..at] == s[..at];
    assert t2[..at + |block|] == t1[..at] + block;
    assert t3[..at + |block| + |s| - from] == t2[..at + |block|] + s[from..];
  }

  /** The buffer after its tail has moved up and the gap has been filled. */
  lemma GapFilled(was: seq<byte>, len: nat, at: nat, extra: seq<byte>)
    requires at <= len && len + |extra| <= |was|
    ensures var moved := Overlay(was, at + |extra|, was[at..len]);
            Overlay(moved, at, extra)[..len + |extra|] == Replace(was[..len], at, extra, at)
  {
    var moved := Overlay(was, at + |extra|, was[at..len]);
    var now := Overlay(moved, at, extra);
    assert moved[..at] == was[..at] && moved[at + |extra|..len + |extra|] == was[at..len];
    assert now[..len + |extra|] == moved[..at] + extra + moved[at + |extra|..len + |extra|];
    assert was[..len][..at] == was[..at] && was[..len][at..] == was[at..len];
  }

  /** The buffer after its tail has moved down. */
  lemma GapClosed(was: seq<byte>, len: nat, from: nat, n: nat)
    requires from + n <= len <= |was|
    ensures Overlay(was, from, was[from + n..len])[..len - n] == Without(was[..len], from, n)
  {
    var now := Overlay(was, from, was[from + n..len]);
    assert now[..len - n] == was[..from] + was[from + n..len];
    assert was[..len][..from] == was[..from] && was[..len][from + n..] == was[from + n..len];
  }

  /** What happens inside the input happens to the input. */
  lemma OverlayInside(was: seq<byte>, len: nat, at: nat, block: seq<byte>)
    requires at + |block| <= len <= |was|
    ensures Overlay(was, at, block)[..len] == Overlay(was[..len], at, block)
  {
    assert was[..len][..at] == was[..at];
    assert was[..len][at + |block|..] == was[at + |block|..len];
  }

  lemma SwitchInBuffer(was: seq<byte>, len: nat, from: nat, to: nat, n: nat)
    requires len <= |was| && from + n <= len && to + n <= len
    ensures Overlay(Overlay(was, from, was[to..to + n]), to, was[from..from + n])[..len]
         == Switched(was[..len], from, to, n)
  {
    hide Overlay;
    OverlayInside(was, len, from, was[to..to + n]);
    OverlayInside(Overlay(was, from, was[to..to + n]), len, to, was[from..from + n]);
    assert was[..len][to..to + n] == was[to..to + n];
    assert was[..len][from..from + n] == was[from..from + n];
  }

  /** Exchanging two bytes of the shuffled block exchanges them in the map. */
  lemma SwapInBlock(s: seq<byte>, off: nat, p: seq<nat>, i: nat, j: nat)
    requires off + |p| <= |s| && IntoItself(p) && i < |p| && j < |p| && IntoItself(Swap(p, i, j))
    ensures BlockPermuted(s, off, Swap(p, i, j)) == Swap(BlockPermuted(s, off, p), off + i, off + j)
  {
    var q, block := Swap(p, i, j), s[off..off + |p|];
    OverlayItems(s, off, Permuted(block, q));
    OverlayItems(s, off, Permuted(block, p));
    hide Overlay;
    var l, r := BlockPermuted(s, off, q), Swap(BlockPermuted(s, off, p), off + i, off + j);
    assert forall k :: 0 <= k < |s| ==> l[k] == r[k];
  }
}
