/**
 The copy loops of the Ethernet driver (drv_eth.c): a frame between a chain of
 packet buffers and the ring of fixed-size DMA buffers.
 */
module Ethernet {
  import opened Arithmetic

  /** The contents of the ring, buffer by buffer. */
  type Store = seq<seq<byte>>

  // ---- Streams ----

  function Flatten(chain: seq<seq<byte>>): seq<byte> {
    if chain == [] then [] else chain[0] + Flatten(chain[1..])
  }

  function Sum(lens: seq<nat>): nat {
    if lens == [] then 0 else lens[0] + Sum(lens[1..])
  }

  /** A stream cut into pieces of the given lengths. */
  function Cut(stream: seq<byte>, lens: seq<nat>): (r: seq<seq<byte>>)
    requires Sum(lens) <= |stream|
    decreases |lens|
  {
    if lens == [] then [] else [stream[..lens[0]]] + Cut(stream[lens[0]..], lens[1..])
  }

  /** However it is cut, the pieces together are the stream. */
  lemma {:induction false} CutFlattens(stream: seq<byte>, lens: seq<nat>)
    requires Sum(lens) == |stream|
    ensures Flatten(Cut(stream, lens)) == stream
    ensures |Cut(stream, lens)| == |lens| && forall k :: 0 <= k < |lens| ==> |Cut(stream, lens)[k]| == lens[k]
    decreases |lens|
  {
    if lens != [] {
      CutFlattens(stream[lens[0]..], lens[1..]);
      var rest := Cut(stream[lens[0]..], lens[1..]);
      assert Cut(stream, lens) == [stream[..lens[0]]] + rest;
      assert Cut(stream, lens)[1..] == rest;
      assert forall k :: 1 <= k < |lens| ==> Cut(stream, lens)[k] == rest[k - 1] && lens[k] == lens[1..][k - 1];
    }
  }

  // ---- The ring of buffers ----

  ghost predicate Shaped(store: Store, n: nat, size: nat) {
    n > 0 && size > 0 && |store| == n && forall e :: 0 <= e < n ==> |store[e]| == size
  }

  /** Which buffer byte i of a frame that starts in buffer s belongs to. */
  function BufferOf(n: nat, size: nat, s: nat, i: nat): (d: nat)
    requires n > 0 && size > 0
    ensures d < n
  {
    Nth(n, s, i / size)
  }

  /** The m-th buffer from s on, round the ring. */
  function Nth(n: nat, s: nat, m: nat): (d: nat)
    requires n > 0
    ensures d < n
  {
    (s + m) % n
  }

  /** Where in a frame its m-th buffer starts. */
  function Start(size: nat, m: nat): nat {
    m * size
  }

  lemma StartNext(size: nat, m: nat)
    ensures Start(size, m + 1) == Start(size, m) + size && Start(size, 0) == 0
  {
  }

  function OffsetOf(size: nat, i: nat): (r: nat)
    requires size > 0
    ensures r < size
  {
    i % size
  }

  /** The bytes of a frame of length len as they lie in the ring from buffer s on. */
  function Gathered(store: Store, n: nat, size: nat, s: nat, len: nat): (r: seq<byte>)
    requires Shaped(store, n, size)
    ensures |r| == len
    ensures forall i :: 0 <= i < len ==> r[i] == store[BufferOf(n, size, s, i)][OffsetOf(size, i)]
  {
    seq(len, i requires 0 <= i < len => store[BufferOf(n, size, s, i)][OffsetOf(size, i)])
  }

  /** The ring holds frame w from buffer s on; where it has gone round, the later byte is there. */
  ghost predicate Holds(store: Store, n: nat, size: nat, s: nat, w: seq<byte>)
    requires Shaped(store, n, size)
  {
    forall i :: 0 <= i < |w| && |w| <= i + n * size ==> store[BufferOf(n, size, s, i)][OffsetOf(size, i)] == w[i]
  }

  /** One buffer overwritten from `off` on. */
  function Patched(store: Store, d: nat, off: nat, chunk: seq<byte>): Store
    requires d < |store| && off + |chunk| <= |store[d]|
  {
    store[d := store[d][..off] + chunk + store[d][off + |chunk|..]]
  }

  lemma Position(n: nat, size: nat, s: nat, m: nat, r: nat)
    requires n > 0 && r < size
    ensures BufferOf(n, size, s, Start(size, m) + r) == Nth(n, s, m) && OffsetOf(size, Start(size, m) + r) == r
  {
    RemainderIs(Start(size, m) + r, size, m, r);
  }

  /** Bytes that share a cell are at least a whole ring apart. */
  lemma SameCell(n: nat, size: nat, s: nat, i: nat, j: nat)
    requires n > 0 && size > 0 && i < j
    requires BufferOf(n, size, s, i) == BufferOf(n, size, s, j) && OffsetOf(size, i) == OffsetOf(size, j)
    ensures i + n * size <= j
  {
    var p: nat, q: nat := i / size, j / size;
    assert i == p * size + i % size && j == q * size + j % size;
    if q <= p {
      ProductGrows(q, p, size);
    } else {
      SameRemainder(s + p, s + q, n);
      ProductGrows(p + n, q, size);
      assert (p + n) * size == p * size + n * size;
    }
  }

  /** Copying a piece to where the frame goes on extends the frame. */
  lemma HoldsMore(store: Store, n: nat, size: nat, s: nat, w: seq<byte>, chunk: seq<byte>, m: nat, off: nat)
    requires Shaped(store, n, size) && Holds(store, n, size, s, w)
    requires |w| == Start(size, m) + off && off + |chunk| <= size
    ensures Shaped(Patched(store, Nth(n, s, m), off, chunk), n, size)
    ensures Holds(Patched(store, Nth(n, s, m), off, chunk), n, size, s, w + chunk)
  {
    var d, w' := Nth(n, s, m), w + chunk;
    var t := Patched(store, d, off, chunk);
    forall i | 0 <= i < |w'| && |w'| <= i + n * size
      ensures t[BufferOf(n, size, s, i)][OffsetOf(size, i)] == w'[i]
    {
      if i >= |w| {
        Position(n, size, s, m, off + (i - |w|));
      } else {
        NotInChunk(n, size, s, m, off, |chunk|, i);
      }
    }
  }

  /** A byte of the last whole ring of the frame is not overwritten by the piece that follows. */
  lemma NotInChunk(n: nat, size: nat, s: nat, m: nat, off: nat, c: nat, i: nat)
    requires n > 0 && size > 0 && off + c <= size && i < Start(size, m) + off
    requires Start(size, m) + off + c <= i + n * size
    ensures BufferOf(n, size, s, i) != Nth(n, s, m) || !(off <= OffsetOf(size, i) < off + c)
  {
    var r := OffsetOf(size, i);
    if off <= r < off + c {
      Position(n, size, s, m, r);
      if BufferOf(n, size, s, i) == Nth(n, s, m) {
        SameCell(n, size, s, i, Start(size, m) + r);
      }
    }
  }

  /** A ring further on lies the same cell. */
  lemma SameCellNextRound(n: nat, size: nat, s: nat, i: nat)
    requires n > 0 && size > 0
    ensures BufferOf(n, size, s, i + n * size) == BufferOf(n, size, s, i)
    ensures OffsetOf(size, i + n * size) == OffsetOf(size, i)
  {
    var q: nat, r: nat := i / size, i % size;
    assert i == q * size + r;
    assert (q + n) * size == q * size + n * size;
    RemainderIs(i + n * size, size, q + n, r);
    RoundTheRing(s + q, n);
  }

  lemma RoundTheRing(a: nat, n: nat)
    requires n > 0
    ensures (a + n) % n == a % n
  {
    var q: nat, r: nat := a / n, a % n;
    assert a == q * n + r;
    assert (q + 1) * n == q * n + n;
    RemainderIs(a + n, n, q + 1, r);
  }

  /** Bytes one ring apart are equal. */
  ghost predicate Repeats(w: seq<byte>, round: nat) {
    forall i, j :: 0 <= i < j < |w| && j == i + round ==> w[i] == w[j]
  }

  lemma {:induction false} RepeatedByte(store: Store, n: nat, size: nat, s: nat, w: seq<byte>, i: nat)
    requires Shaped(store, n, size) && Holds(store, n, size, s, w) && Repeats(w, n * size) && i < |w|
    ensures store[BufferOf(n, size, s, i)][OffsetOf(size, i)] == w[i]
    decreases |w| - i
  {
    hide BufferOf, OffsetOf;
    var round: nat := n * size;
    if i + round < |w| {
      assert round > 0;
      var j := i + round;
      RepeatedByte(store, n, size, s, w, j);
      SameCellNextRound(n, size, s, i);
      assert w[i] == w[j];
    }
  }

  /**
   Exactly when a frame can be gathered again from a ring that holds it: its bytes repeat from
   ring to ring, as they trivially do if it fits. Nothing in the driver stops other frames.
   */
  lemma GathersIff(store: Store, n: nat, size: nat, s: nat, w: seq<byte>)
    requires Shaped(store, n, size) && Holds(store, n, size, s, w)
    ensures Gathered(store, n, size, s, |w|) == w <==> Repeats(w, n * size)
    ensures |w| <= n * size ==> Repeats(w, n * size)
  {
    hide BufferOf, OffsetOf;
    var g := Gathered(store, n, size, s, |w|);
    if Repeats(w, n * size) {
      forall i | 0 <= i < |w|
        ensures g[i] == w[i]
      {
        RepeatedByte(store, n, size, s, w, i);
      }
    }
    if g == w {
      forall i, j | 0 <= i < j < |w| && j == i + n * size
        ensures w[i] == w[j]
      {
        SameCellNextRound(n, size, s, i);
        assert g[i] == g[j];
      }
    }
  }

  /** A frame of one 1 and zeros does not repeat. */
  function OneAndZeros(len: nat): (w: seq<byte>)
    requires len > 0
    ensures |w| == len && w[0] == 1 && forall i :: 0 < i < len ==> w[i] == 0
  {
    seq(len, i => if i == 0 then 1 else 0)
  }

  lemma LongFrame(len: nat, round: nat)
    requires 0 < round < len
    ensures !Repeats(OneAndZeros(len), round)
  {
    var w := OneAndZeros(len);
    var j := round;
    assert w[0] != w[j];
  }

  /** Hence every frame of a length can be gathered from the ring exactly if that length fits into it. */
  lemma GathersIffFits(n: nat, size: nat, s: nat, len: nat)
    requires n > 0 && size > 0
    ensures len <= n * size <==>
      forall store: Store, w: seq<byte> ::
        Shaped(store, n, size) && |w| == len && Holds(store, n, size, s, w) ==> Gathered(store, n, size, s, len) == w
  {
    if len <= n * size {
      forall store: Store, w: seq<byte> | Shaped(store, n, size) && |w| == len && Holds(store, n, size, s, w)
        ensures Gathered(store, n, size, s, len) == w
      {
        GathersIff(store, n, size, s, w);
      }
    } else {
      var w := OneAndZeros(len);
      assert n * size > 0;
      LongFrame(len, n * size);
      var store := ZerosHold(n, size, s, w);
      GathersIff(store, n, size, s, w);
    }
  }

  lemma ZerosHold(n: nat, size: nat, s: nat, w: seq<byte>) returns (store: Store)
    requires n > 0 && size > 0 && |w| > n * size && forall i :: 0 < i < |w| ==> w[i] == 0
    ensures Shaped(store, n, size) && Holds(store, n, size, s, w)
  {
    store := seq(n, e => seq(size, r => 0));
    forall i | 0 <= i < |w| && |w| <= i + n * size
      ensures store[BufferOf(n, size, s, i)][OffsetOf(size, i)] == w[i]
    {
    }
  }

  /**
   Scatter and gather: what one side put into its ring and the other side finds in its
   own comes out as the same bytes, however the two chains are split.
   */
  lemma ScatterGather(chain: seq<seq<byte>>, lens: seq<nat>, sent: Store, n: nat, size: nat, s: nat,
                      received: Store, n': nat, size': nat, s': nat)
    requires Shaped(sent, n, size) && Shaped(received, n', size')
    requires Holds(sent, n, size, s, Flatten(chain)) && |Flatten(chain)| <= n * size
    requires Sum(lens) == |Flatten(chain)|
    requires Gathered(received, n', size', s', |Flatten(chain)|) == Gathered(sent, n, size, s, |Flatten(chain)|)
    ensures Flatten(Cut(Gathered(received, n', size', s', |Flatten(chain)|), lens)) == Flatten(chain)
  {
    GathersIff(sent, n, size, s, Flatten(chain));
    CutFlattens(Flatten(chain), lens);
  }

  // ---- The loops ----

  /** How many buffers a frame occupies; its first one is needed in any case. */
  function BuffersFor(size: nat, len: nat): nat
    requires size > 0
  {
    if len == 0 then 1 else (len - 1) / size + 1
  }

  /** Buffer2NextDescAddr leads round the ring. */
  lemma NextBuffer(n: nat, s: nat, m: nat)
    requires n > 0
    ensures (Nth(n, s, m) + 1) % n == Nth(n, s, m + 1)
  {
    RemainderPlusOne(s + m, n);
  }

  lemma FirstBuffer(n: nat, size: nat, s: nat)
    requires s < n
    ensures Nth(n, s, 0) == s && Start(size, 0) == 0
  {
    SmallRemainder(s, n);
  }

  lemma RemainderPlusOne(a: nat, n: nat)
    requires n > 0
    ensures (a % n + 1) % n == (a + 1) % n
  {
    var q: nat, r: nat := a / n, a % n;
    assert a == q * n + r;
    if r + 1 < n {
      RemainderIs(a + 1, n, q, r + 1);
      SmallRemainder(r + 1, n);
    } else {
      StartNext(n, q);
      assert Start(n, q + 1) == (q + 1) * n && Start(n, q) == q * n;
      RemainderIs(a + 1, n, q + 1, 0);
      RemainderIs(n, n, 1, 0);
    }
  }

  /** A frame that goes beyond m whole buffers needs one more. */
  lemma NeedsBuffer(size: nat, m: nat, len: nat)
    requires size > 0 && (m == 0 || Start(size, m) < len)
    ensures m < BuffersFor(size, len)
  {
    if m > 0 {
      var q: nat := (len - 1) / size;
      assert len - 1 == q * size + (len - 1) % size;
      if q + 1 <= m {
        ProductGrows(q + 1, m, size);
      }
    }
  }

  /** A frame that ends in buffer m needs exactly the buffers up to it. */
  lemma EnoughBuffers(size: nat, m: nat, off: nat)
    requires size > 0 && off <= size && (m == 0 || off > 0)
    ensures BuffersFor(size, Start(size, m) + off) == m + 1
  {
    if off > 0 {
      RemainderIs(Start(size, m) + off - 1, size, m, off - 1);
    }
  }

  lemma NothingHeld(store: Store, n: nat, size: nat, s: nat)
    requires Shaped(store, n, size)
    ensures Holds(store, n, size, s, [])
  {
  }

  lemma FlattenNothing()
    ensures Flatten([]) == []
  {
  }

  lemma FlattenFirst(chain: seq<seq<byte>>)
    requires chain != []
    ensures Flatten(chain) == chain[0] + Flatten(chain[1..])
  {
  }

  lemma CutNothing()
    ensures Sum([]) == 0
  {
  }

  lemma CutNothingOf(stream: seq<byte>)
    ensures Cut(stream, []) == []
  {
  }

  lemma CutFirst(stream: seq<byte>, lens: seq<nat>)
    requires lens != [] && Sum(lens) <= |stream|
    ensures Sum(lens) == lens[0] + Sum(lens[1..])
    ensures Cut(stream, lens) == [stream[..lens[0]]] + Cut(stream[lens[0]..], lens[1..])
  {
  }

  class BufferRing {
    const n: nat
    const size: nat
    const buf: array2<byte>
    /** The OWN bit of every descriptor: set while the buffer belongs to the DMA. */
    var own: seq<bool>

    ghost predicate Valid()
      reads this
    {
      n > 0 && size > 0 && buf.Length0 == n && buf.Length1 == size && |own| == n
    }

    ghost function Contents(): (r: Store)
      requires Valid()
      reads this, buf
      ensures Shaped(r, n, size)
    {
      var b, k, w := buf, n, size;
      seq(k, e requires 0 <= e < k && b.Length0 == k && b.Length1 == w reads b =>
        seq(w, r requires 0 <= r < w && 0 <= e < k && b.Length0 == k && b.Length1 == w reads b => b[e, r]))
    }

    constructor (n: nat, size: nat)
      requires n > 0 && size > 0
      ensures Valid() && this.n == n && this.size == size && fresh(buf)
      ensures own == seq(n, e => false)
    {
      this.n, this.size := n, size;
      own := seq(n, e => false);
      buf := new byte[n, size];
    }

    /** memcpy into one buffer. */
    method CopyIn(d: nat, off: nat, payload: seq<byte>, from: nat, count: nat)
      requires Valid() && d < n && off + count <= size && from + count <= |payload|
      modifies buf
      ensures Contents() == Patched(old(Contents()), d, off, payload[from..from + count])
    {
      var j := 0;
      while j < count
        invariant j <= count
        invariant forall e, r :: 0 <= e < n && 0 <= r < size ==>
          buf[e, r] == if e == d && off <= r < off + j then payload[from + (r - off)] else old(buf[e, r])
      {
        buf[d, off + j] := payload[from + j];
        j := j + 1;
      }
      ghost var t := Patched(old(Contents()), d, off, payload[from..from + count]);
      forall e | 0 <= e < n
        ensures Contents()[e] == t[e]
      {
        assert forall r :: 0 <= r < size ==> Contents()[e][r] == t[e][r];
      }
    }

    /** Buffers that belong to the DMA are as they were. */
    ghost predicate OwnedKept(before: Store)
      requires Valid() && |before| == n
      reads this, buf
    {
      forall e :: 0 <= e < n && own[e] ==> Contents()[e] == before[e]
    }

    /** Copy a piece to where frame w goes on. */
    method Append(ghost s: nat, ghost m: nat, ghost w: seq<byte>, d: nat, off: nat, payload: seq<byte>, from: nat,
                  count: nat, ghost before: Store)
      requires Valid() && d == Nth(n, s, m) && !own[d] && |w| == Start(size, m) + off && off + count <= size
      requires from + count <= |payload|
      requires Holds(Contents(), n, size, s, w) && |before| == n && OwnedKept(before)
      modifies buf
      ensures Holds(Contents(), n, size, s, w + payload[from..from + count]) && OwnedKept(before)
    {
      hide Holds, Start, Nth;
      ghost var old' := Contents();
      HoldsMore(old', n, size, s, w, payload[from..from + count], m, off);
      CopyIn(d, off, payload, from, count);
      forall e | 0 <= e < n && own[e]
        ensures Contents()[e] == before[e]
      {
        assert old'[e] == before[e];
      }
    }

    /** The copying of one packet buffer in rt_stm32_eth_tx. */
    method PutPayload(payload: seq<byte>, ghost s: nat, d0: nat, off0: nat, ghost m0: nat, ghost w: seq<byte>,
                      ghost before: Store)
      returns (ok: bool, d: nat, off: nat, copied: nat, ghost m: nat)
      requires Valid() && d0 == Nth(n, s, m0) && !own[d0] && |w| == Start(size, m0) + off0 && off0 <= size
      requires Holds(Contents(), n, size, s, w) && |before| == n && OwnedKept(before)
      modifies buf
      ensures OwnedKept(before)
      ensures ok ==> d == Nth(n, s, m) && !own[d] && |w| + |payload| == Start(size, m) + off
      ensures ok ==> off <= size && copied == |payload|
      ensures ok ==> m0 <= m && (m == m0 || off > 0) && forall j :: m0 <= j <= m ==> !own[Nth(n, s, j)]
      ensures ok ==> Holds(Contents(), n, size, s, w + payload)
      ensures !ok ==> own[Nth(n, s, m)] && Start(size, m) < |w| + |payload|
    {
      hide Holds, OwnedKept, Start, Nth, BufferOf, OffsetOf;
      var left: nat, from: nat := |payload|, 0;
      d, off, m := d0, off0, m0;
      copied := 0;
      ok := true;
      assert w + payload[..0] == w;
      while left + off > size
        invariant from + left == |payload| && copied == from && ok
        invariant d == Nth(n, s, m) && !own[d] && off <= size && |w| + from == Start(size, m) + off
        invariant m0 <= m && (m == m0 || off > 0 || left > 0) && forall j :: m0 <= j <= m ==> !own[Nth(n, s, j)]
        invariant Holds(Contents(), n, size, s, w + payload[..from]) && OwnedKept(before)
        decreases left, off
      {
        var count: nat := size - off;
        assert w + payload[..from] + payload[from..from + count] == w + payload[..from + count];
        Append(s, m, w + payload[..from], d, off, payload, from, count, before);
        StartNext(size, m);
        NextBuffer(n, s, m);
        d := (d + 1) % n;
        m := m + 1;
        if own[d] {
          ok := false;
          return;
        }
        left := left - count;
        from := from + count;
        copied := copied + count;
        off := 0;
      }
      assert w + payload[..from] + payload[from..from + left] == w + payload;
      Append(s, m, w + payload[..from], d, off, payload, from, left, before);
      off := off + left;
      copied := copied + left;
    }

    /**
     rt_stm32_eth_tx up to the hand-over to the hardware. It succeeds exactly if none of the
     buffers the frame needs belongs to the DMA; then the ring holds the frame and the length
     is that of the whole chain. What the ring gives back is the frame exactly if its bytes
     repeat from ring to ring. Buffers of the DMA are never written.
     */
    method Tx(s: nat, chain: seq<seq<byte>>) returns (ok: bool, frameLength: nat)
      requires Valid() && s < n
      modifies buf
      ensures ok <==> chain == [] || forall j :: 0 <= j < BuffersFor(size, |Flatten(chain)|) ==> !own[Nth(n, s, j)]
      ensures ok ==> frameLength == |Flatten(chain)| && Holds(Contents(), n, size, s, Flatten(chain))
      ensures ok ==>
        (Gathered(Contents(), n, size, s, |Flatten(chain)|) == Flatten(chain)
         <==> Repeats(Flatten(chain), n * size))
      ensures forall e :: 0 <= e < n && own[e] ==> Contents()[e] == old(Contents())[e]
    {
      hide Holds, Flatten, BuffersFor, Start, Nth;
      ghost var before: Store, w: seq<byte>, m: nat := Contents(), [], 0;
      FirstBuffer(n, size, s);
      var d, off := s, 0;
      frameLength := 0;
      NothingHeld(before, n, size, s);
      FlattenNothing();
      var k := 0;
      assert chain[0..] == chain;
      while k < |chain|
        invariant k <= |chain| && d == Nth(n, s, m) && off <= size && |w| == Start(size, m) + off && frameLength == |w|
        invariant w + Flatten(chain[k..]) == Flatten(chain)
        invariant (m == 0 || off > 0) && (k > 0 ==> forall j :: 0 <= j <= m ==> !own[Nth(n, s, j)])
        invariant (k == 0 ==> m == 0)
        invariant Holds(Contents(), n, size, s, w) && OwnedKept(before)
      {
        if own[d] {
          NeedsBuffer(size, m, |Flatten(chain)|);
          return false, frameLength;
        }
        FlattenFirst(chain[k..]);
        assert chain[k..][0] == chain[k] && chain[k..][1..] == chain[k + 1..];
        var copied;
        ghost var m';
        ok, d, off, copied, m' := PutPayload(chain[k], s, d, off, m, w, before);
        assert w + (chain[k] + Flatten(chain[k + 1..])) == w + chain[k] + Flatten(chain[k + 1..]);
        if !ok {
          NeedsBuffer(size, m', |Flatten(chain)|);
          return;
        }
        frameLength := frameLength + copied;
        w, m := w + chain[k], m';
        k := k + 1;
      }
      assert chain[k..] == [];
      assert w + [] == w;
      EnoughBuffers(size, m, off);
      GathersIff(Contents(), n, size, s, w);
      ok := true;
    }

    /** Byte off of the m-th buffer is byte Start + off of the frame. */
    lemma ByteAt(s: nat, m: nat, off: nat, stream: seq<byte>)
      requires Valid() && off < size && Start(size, m) + off < |stream|
      requires stream == Gathered(Contents(), n, size, s, |stream|)
      ensures stream[Start(size, m) + off] == buf[Nth(n, s, m), off]
    {
      hide BufferOf, OffsetOf, Start, Nth;
      Position(n, size, s, m, off);
      assert stream[Start(size, m) + off] == Contents()[Nth(n, s, m)][off];
    }

    /** The copying of one packet buffer in rt_stm32_eth_rx. */
    method GetPayload(length: nat, ghost s: nat, d0: nat, off0: nat, ghost m0: nat, ghost stream: seq<byte>,
                      ghost at: nat)
      returns (payload: array<byte>, d: nat, off: nat, ghost m: nat)
      requires Valid() && d0 == Nth(n, s, m0) && at == Start(size, m0) + off0 && off0 <= size && at + length <= |stream|
      requires stream == Gathered(Contents(), n, size, s, |stream|)
      ensures fresh(payload) && payload[..] == stream[at..at + length]
      ensures d == Nth(n, s, m) && at + length == Start(size, m) + off && off <= size
    {
      hide BufferOf, OffsetOf, Start, Nth, Gathered, Contents;
      payload := new byte[length];
      var left: nat, from: nat := length, 0;
      d, off, m := d0, off0, m0;
      while left + off > size
        invariant from + left == length && d == Nth(n, s, m) && off <= size && at + from == Start(size, m) + off
        invariant forall i :: 0 <= i < from ==> payload[i] == stream[at + i]
        decreases left, off
      {
        var count: nat := size - off;
        CopyOut(payload, from, d, off, count, s, m, stream, at);
        StartNext(size, m);
        NextBuffer(n, s, m);
        d := (d + 1) % n;
        m := m + 1;
        left := left - count;
        from := from + count;
        off := 0;
      }
      CopyOut(payload, from, d, off, left, s, m, stream, at);
      off := off + left;
    }

    /** memcpy out of one buffer. */
    method CopyOut(payload: array<byte>, from: nat, d: nat, off: nat, count: nat, ghost s: nat, ghost m: nat,
                   ghost stream: seq<byte>, ghost at: nat)
      requires Valid() && d == Nth(n, s, m) && off + count <= size && from + count <= payload.Length
      requires at + from + count <= |stream|
      requires at + from == Start(size, m) + off
      requires stream == Gathered(Contents(), n, size, s, |stream|)
      modifies payload
      ensures forall i :: 0 <= i < from ==> payload[i] == old(payload[i])
      ensures forall i :: from <= i < from + count ==> payload[i] == stream[at + i]
    {
      hide BufferOf, OffsetOf, Start, Nth, Gathered, Contents;
      var j := 0;
      while j < count
        invariant j <= count
        invariant forall i :: 0 <= i < from ==> payload[i] == old(payload[i])
        invariant forall i :: from <= i < from + j ==> payload[i] == stream[at + i]
      {
        ByteAt(s, m, off + j, stream);
        payload[from + j] := buf[d, off + j];
        j := j + 1;
      }
    }

    /**
     rt_stm32_eth_rx behind the reception of a frame of `len` bytes that starts in buffer s:
     `lens` is how pbuf_alloc splits the chain, if it has room. The chain holds the frame,
     and the buffers of the frame's segments go back to the DMA in any case.
     */
    method Rx(s: nat, len: nat, granted: bool, lens: seq<nat>, segCount: nat) returns (p: bool, chain: seq<seq<byte>>)
      requires Valid() && s < n && (granted ==> Sum(lens) == len)
      modifies this`own
      ensures Valid() && p == (len > 0 && granted)
      ensures p ==> chain == Cut(Gathered(Contents(), n, size, s, len), lens)
      ensures p ==> Flatten(chain) == Gathered(Contents(), n, size, s, len)
      ensures forall e :: 0 <= e < n ==> (own[e] <==> old(own[e]) || exists i :: 0 <= i < segCount && Nth(n, s, i) == e)
    {
      hide Gathered, Flatten, Cut;
      p := len > 0 && granted;
      chain := [];
      if p {
        chain := GetChain(s, len, lens);
        CutFlattens(Gathered(Contents(), n, size, s, len), lens);
      }
      ReleaseBuffers(s, segCount);
    }

    method GetChain(s: nat, len: nat, lens: seq<nat>) returns (chain: seq<seq<byte>>)
      requires Valid() && s < n && Sum(lens) == len
      ensures chain == Cut(Gathered(Contents(), n, size, s, len), lens)
    {
      hide Gathered, Cut, Sum, Start, Nth;
      ghost var stream: seq<byte>, at: nat, m: nat := Gathered(Contents(), n, size, s, len), 0, 0;
      FirstBuffer(n, size, s);
      var d: nat, off: nat, k: nat := s, 0, 0;
      chain := [];
      assert lens[0..] == lens && stream[0..] == stream;
      CutNothing();
      assert [] + Cut(stream, lens) == Cut(stream, lens);
      while k < |lens|
        invariant k <= |lens| && at <= len && d == Nth(n, s, m) && off <= size && at == Start(size, m) + off
        invariant at + Sum(lens[k..]) == len
        invariant chain + Cut(stream[at..], lens[k..]) == Cut(stream, lens)
      {
        CutFirst(stream[at..], lens[k..]);
        assert lens[k..][0] == lens[k] && lens[k..][1..] == lens[k + 1..];
        var payload;
        payload, d, off, m := GetPayload(lens[k], s, d, off, m, stream, at);
        assert payload[..] == stream[at..][..lens[k]];
        assert stream[at..][lens[k]..] == stream[at + lens[k]..];
        assert chain + ([payload[..]] + Cut(stream[at + lens[k]..], lens[k + 1..]))
            == chain + [payload[..]] + Cut(stream[at + lens[k]..], lens[k + 1..]);
        chain := chain + [payload[..]];
        at := at + lens[k];
        k := k + 1;
      }
      assert lens[k..] == [];
      CutNothingOf(stream[at..]);
      assert chain + [] == chain;
    }

    /** The OWN bits of the frame's segments are set. */
    method ReleaseBuffers(s: nat, segCount: nat)
      requires Valid() && s < n
      modifies this`own
      ensures Valid() && Contents() == old(Contents())
      ensures forall e :: 0 <= e < n ==> (own[e] <==> old(own[e]) || exists i :: 0 <= i < segCount && Nth(n, s, i) == e)
    {
      hide Nth;
      var d, i := s, 0;
      FirstBuffer(n, size, s);
      while i < segCount
        invariant i <= segCount && Valid() && d == Nth(n, s, i)
        invariant forall e :: 0 <= e < n ==> (own[e] <==> old(own[e]) || exists j :: 0 <= j < i && Nth(n, s, j) == e)
      {
        NextBuffer(n, s, i);
        own := own[d := true];
        d := (d + 1) % n;
        i := i + 1;
      }
      ghost var c := old(Contents());
      assert forall e :: 0 <= e < n ==> Contents()[e] == c[e];
    }
  }

  /** A longer frame of one 1 and zeros is sent without complaint, and the ring does not give it back. */
  method SendTooLong(ring: BufferRing, s: nat, len: nat) returns (ok: bool)
    requires ring.Valid() && s < ring.n && len > ring.n * ring.size && forall e :: 0 <= e < ring.n ==> !ring.own[e]
    modifies ring.buf
    ensures ok && Gathered(ring.Contents(), ring.n, ring.size, s, len) != OneAndZeros(len)
  {
    hide Gathered, Repeats;
    var w := OneAndZeros(len);
    FlattenOne(w);
    assert ring.n * ring.size > 0;
    LongFrame(len, ring.n * ring.size);
    var frameLength;
    ok, frameLength := ring.Tx(s, [w]);
  }

  lemma FlattenOne(w: seq<byte>)
    ensures Flatten([w]) == w
  {
    assert [w][1..] == [] && w + [] == w;
  }
}
