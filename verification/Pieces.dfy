/** Moving bytes: pieces stored one behind the other, and a tail moved to the front of its buffer. */
module Pieces {

  /** The bytes of the pieces, in order. */
  function Flatten(pieces: seq<seq<int>>): seq<int> {
    if pieces == [] then [] else Flatten(pieces[..|pieces| - 1]) + pieces[|pieces| - 1]
  }

  /** It is the concatenation: one piece gives its bytes, and pieces behind others give theirs behind theirs. */
  lemma {:induction false} FlattenConcat(a: seq<seq<int>>, b: seq<seq<int>>, piece: seq<int>)
    ensures Flatten(a + b) == Flatten(a) + Flatten(b) && Flatten([piece]) == piece
    decreases |b|
  {
    assert [piece][..0] == [] && Flatten([piece]) == [] + piece;
    if b == [] {
      assert a + b == a;
    } else {
      var c := b[..|b| - 1];
      FlattenConcat(a, c, piece);
      assert (a + b)[..|a + b| - 1] == a + c && (a + b)[|a + b| - 1] == b[|b| - 1];
    }
  }

  lemma {:induction false} FlattenGrows(pieces: seq<seq<int>>, k: nat)
    requires k <= |pieces|
    ensures |Flatten(pieces[..k])| <= |Flatten(pieces)|
    decreases |pieces|
  {
    if k < |pieces| {
      FlattenGrows(pieces[..|pieces| - 1], k);
      assert pieces[..|pieces| - 1][..k] == pieces[..k];
    } else {
      assert pieces[..k] == pieces;
    }
  }

  /** memcpy of one piece to position at. */
  method Store(to: array<int>, at: nat, piece: seq<int>)
    requires at + |piece| <= to.Length
    modifies to
    ensures to[..at + |piece|] == old(to[..at]) + piece
    ensures to[at + |piece|..] == old(to[at + |piece|..])
  {
    var i := 0;
    while i < |piece|
      invariant i <= |piece|
      invariant to[..at] == old(to[..at])
      invariant to[at..at + i] == piece[..i]
      invariant to[at + i..] == old(to[at + i..])
    {
      ghost var rest := to[at + i..];
      to[at + i] := piece[i];
      assert to[at + i + 1..] == rest[1..];
      i := i + 1;
    }
    assert to[..at + |piece|] == to[..at] + to[at..at + |piece|];
  }

  /** memmove to a lower address in the same buffer. */
  method MoveDown(buffer: array<int>, to: nat, from: nat, count: nat)
    requires to <= from && from + count <= buffer.Length
    modifies buffer
    ensures buffer[..to + count] == old(buffer[..to]) + old(buffer[from..from + count])
  {
    var i := 0;
    while i < count
      invariant i <= count
      invariant buffer[..to] == old(buffer[..to])
      invariant buffer[to..to + i] == old(buffer[from..from + i])
      invariant buffer[from + i..] == old(buffer[from + i..])
    {
      ghost var rest := buffer[from + i..];
      assert buffer[from + i] == old(buffer[from + i]);
      buffer[to + i] := buffer[from + i];
      assert rest[1..] == old(buffer[from + i + 1..]);
      i := i + 1;
    }
  }
}
