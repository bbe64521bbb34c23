/**
 * Rings of bytes or nodes as sequences, and the copy routines of the net buffer: a read takes the oldest bytes,
 * a write appends.
 */
module Ring {

  /** (a + b) mod size for indices below size, as both copy routines compute it. */
  function Wrap(size: nat, x: nat): nat {
    if x < size then x else x - size
  }

  /** The n bytes that start at index r, in the order they were saved. */
  function Content<T>(ring: seq<T>, r: nat, n: nat): (c: seq<T>)
    requires r < |ring| && n <= |ring|
    ensures |c| == n
  {
    seq(n, i requires 0 <= i < n => ring[Wrap(|ring|, r + i)])
  }

  lemma ContentAt<T>(ring: seq<T>, r: nat, n: nat, i: nat)
    requires r < |ring| && i < n <= |ring|
    ensures Content(ring, r, n)[i] == ring[Wrap(|ring|, r + i)]
  {
  }

  /** Storing behind the last of n elements appends. */
  lemma PushBack<T>(ring: seq<T>, r: nat, n: nat, x: T)
    requires r < |ring| && n < |ring|
    ensures Wrap(|ring|, r + n) < |ring|
    ensures Content(ring[Wrap(|ring|, r + n) := x], r, n + 1) == Content(ring, r, n) + [x]
  {
    var out := ring[Wrap(|ring|, r + n) := x];
    forall i: nat | i <= n ensures Content(out, r, n + 1)[i] == (Content(ring, r, n) + [x])[i] {
      ContentAt(out, r, n + 1, i);
      if i < n {
        ContentAt(ring, r, n, i);
      }
    }
  }

  /** Moving the read index on by one drops the oldest element. */
  lemma PopFront<T>(ring: seq<T>, r: nat, n: nat)
    requires r < |ring| && 0 < n <= |ring|
    ensures Wrap(|ring|, r + 1) < |ring|
    ensures Content(ring, r, n)[0] == ring[r]
    ensures Content(ring, Wrap(|ring|, r + 1), n - 1) == Content(ring, r, n)[1..]
  {
    var r2 := Wrap(|ring|, r + 1);
    ContentAt(ring, r, n, 0);
    forall i: nat | i < n - 1 ensures Content(ring, r2, n - 1)[i] == Content(ring, r, n)[1..][i] {
      ContentAt(ring, r2, n - 1, i);
      ContentAt(ring, r, n, i + 1);
    }
  }

  /** What net_buf_read copies out. */
  function CopyOut(ring: seq<int>, r: nat, len: nat): seq<int>
    requires r < |ring| && len <= |ring|
  {
    if |ring| - r > len then ring[r..r + len] else ring[r..] + ring[..len - (|ring| - r)]
  }

  function NextRead(size: nat, r: nat, len: nat): nat
    requires r < size && len <= size
  {
    if size - r > len then r + len else len - (size - r)
  }

  /** What the worker copies in. */
  function CopyIn(ring: seq<int>, w: nat, block: seq<int>): (out: seq<int>)
    requires w < |ring| && |block| <= |ring|
    ensures |out| == |ring|
  {
    var room := |ring| - w;
    if room < |block| then block[room..] + ring[|block| - room..w] + block[..room]
    else ring[..w] + block + ring[w + |block|..]
  }

  function NextSave(size: nat, w: nat, len: nat): nat
    requires w < size && len <= size
  {
    if size - w < len then len - (size - w)
    else if w + len >= size then 0 else w + len
  }

  lemma WrapIsMod(size: nat, x: nat)
    requires 0 < size && x < 2 * size
    ensures Wrap(size, x) == x % size
  {
  }

  lemma CopyOutAt(ring: seq<int>, r: nat, len: nat, i: nat)
    requires r < |ring| && i < len <= |ring|
    ensures |CopyOut(ring, r, len)| == len
    ensures CopyOut(ring, r, len)[i] == ring[Wrap(|ring|, r + i)]
  {
    if |ring| - r <= len {
      assert |ring[r..]| == |ring| - r;
    }
  }

  /** A read returns the oldest bytes. */
  lemma ReadTakesOldest(ring: seq<int>, r: nat, n: nat, len: nat)
    requires r < |ring| && len <= n <= |ring|
    ensures CopyOut(ring, r, len) == Content(ring, r, n)[..len]
  {
    var out, whole := CopyOut(ring, r, len), Content(ring, r, n);
    forall i: nat | i < len
      ensures out[i] == whole[i]
    {
      CopyOutAt(ring, r, len, i);
    }
  }

  /** A read leaves the newer bytes. */
  lemma ReadLeavesRest(ring: seq<int>, r: nat, n: nat, len: nat)
    requires r < |ring| && len <= n <= |ring|
    ensures NextRead(|ring|, r, len) == Wrap(|ring|, r + len) < |ring|
    ensures Content(ring, NextRead(|ring|, r, len), n - len) == Content(ring, r, n)[len..]
  {
    var r2 := NextRead(|ring|, r, len);
    var rest, whole := Content(ring, r2, n - len), Content(ring, r, n);
    forall i: nat | i < n - len
      ensures rest[i] == whole[len..][i]
    {
      assert Wrap(|ring|, r2 + i) == Wrap(|ring|, r + (len + i));
    }
  }

  /** The bytes of a copied-in block sit at consecutive indices; nothing else moves. */
  lemma CopyInAt(ring: seq<int>, w: nat, block: seq<int>, i: nat)
    requires w < |ring| && |block| <= |ring| && i < |ring|
    ensures CopyIn(ring, w, block)[Wrap(|ring|, w + i)] ==
            if i < |block| then block[i] else ring[Wrap(|ring|, w + i)]
  {
  }

  /** A write that fits appends its block behind the bytes already there. */
  lemma WriteIsFifo(ring: seq<int>, r: nat, n: nat, w: nat, block: seq<int>)
    requires r < |ring| && n + |block| <= |ring| && w == Wrap(|ring|, r + n)
    ensures Content(CopyIn(ring, w, block), r, n + |block|) == Content(ring, r, n) + block
    ensures NextSave(|ring|, w, |block|) == Wrap(|ring|, r + n + |block|)
  {
    var out := CopyIn(ring, w, block);
    forall i | 0 <= i < n + |block|
      ensures out[Wrap(|ring|, r + i)] == (Content(ring, r, n) + block)[i]
    {
      var j := if i >= n then i - n else i + |ring| - n;
      assert Wrap(|ring|, r + i) == Wrap(|ring|, w + j);
      CopyInAt(ring, w, block, j);
    }
  }
}
