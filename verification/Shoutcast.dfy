/**
 * Metadata stripping in shoutcast_session_read: a stream of metaint audio bytes, a length byte, sixteen times
 * that many metadata bytes, and so on, read in pieces.
 */
module Shoutcast {
  import opened Pieces

  /* The reference: one byte at a time. */

  /** How much of the audio chunk, or of the metadata block, has been seen. */
  datatype Phase = Audio(seen: nat) | Meta(left: nat)

  datatype Stripped = Stripped(phase: Phase, audio: seq<int>)

  function BlockSize(lengthByte: int): nat {
    if lengthByte < 0 then 0 else lengthByte * 16
  }

  function StripByte(metaint: nat, p: Phase, byte: int): Stripped {
    match p
    case Audio(seen) =>
      if seen < metaint then Stripped(Audio(seen + 1), [byte])
      else Stripped(if byte <= 0 then Audio(0) else Meta(16 * byte), [])
    case Meta(left) => Stripped(if left <= 1 then Audio(0) else Meta(left - 1), [])
  }

  function Strip(metaint: nat, p: Phase, bytes: seq<int>): Stripped
    decreases |bytes|
  {
    if bytes == [] then Stripped(p, [])
    else
      var first := StripByte(metaint, p, bytes[0]);
      var rest := Strip(metaint, first.phase, bytes[1..]);
      Stripped(rest.phase, first.audio + rest.audio)
  }

  lemma {:induction false} StripConcat(metaint: nat, p: Phase, a: seq<int>, b: seq<int>)
    ensures Strip(metaint, p, a + b) ==
            Stripped(Strip(metaint, Strip(metaint, p, a).phase, b).phase,
                     Strip(metaint, p, a).audio + Strip(metaint, Strip(metaint, p, a).phase, b).audio)
    decreases |a|
  {
    if a == [] {
      assert a + b == b;
    } else {
      assert (a + b)[1..] == a[1..] + b;
      StripConcat(metaint, StripByte(metaint, p, a[0]).phase, a[1..], b);
    }
  }

  lemma {:induction false} StripAudio(metaint: nat, seen: nat, bytes: seq<int>)
    requires seen + |bytes| <= metaint
    ensures Strip(metaint, Audio(seen), bytes) == Stripped(Audio(seen + |bytes|), bytes)
    decreases |bytes|
  {
    if bytes != [] {
      StripAudio(metaint, seen + 1, bytes[1..]);
      assert bytes == [bytes[0]] + bytes[1..];
    }
  }

  lemma {:induction false} StripMeta(metaint: nat, left: nat, bytes: seq<int>)
    requires 0 < left && |bytes| <= left
    ensures Strip(metaint, Meta(left), bytes) ==
            Stripped(if |bytes| == left then Audio(0) else Meta(left - |bytes|), [])
  {
    if bytes != [] && left > 1 {
      StripMeta(metaint, left - 1, bytes[1..]);
    }
  }

  /** One period of the stream. */
  datatype Period = Period(audio: seq<int>, lengthByte: int, meta: seq<int>)

  predicate WellFormed(metaint: nat, periods: seq<Period>) {
    forall i :: 0 <= i < |periods| ==>
      |periods[i].audio| == metaint && 0 <= periods[i].lengthByte < 256
      && |periods[i].meta| == 16 * periods[i].lengthByte
  }

  function Bytes(periods: seq<Period>): seq<int> {
    if periods == [] then []
    else periods[0].audio + [periods[0].lengthByte] + periods[0].meta + Bytes(periods[1..])
  }

  function AudioOf(periods: seq<Period>): seq<int> {
    if periods == [] then [] else periods[0].audio + AudioOf(periods[1..])
  }

  /** The byte machine deletes exactly the metadata blocks and their length bytes. */
  lemma {:induction false} StripDeletesMetadata(metaint: nat, periods: seq<Period>, tail: seq<int>)
    requires WellFormed(metaint, periods) && |tail| <= metaint
    ensures Strip(metaint, Audio(0), Bytes(periods) + tail) == Stripped(Audio(|tail|), AudioOf(periods) + tail)
  {
    hide Strip, StripByte, BlockSize;
    if periods == [] {
      assert Bytes(periods) + tail == tail;
      StripAudio(metaint, 0, tail);
    } else {
      var p, rest := periods[0], Bytes(periods[1..]) + tail;
      StripDeletesMetadata(metaint, periods[1..], tail);
      StripPeriod(metaint, p);
      var first := p.audio + [p.lengthByte] + p.meta;
      assert Bytes(periods) + tail == first + rest;
      StripConcat(metaint, Audio(0), first, rest);
      assert AudioOf(periods) + tail == p.audio + (AudioOf(periods[1..]) + tail);
    }
  }

  lemma StripPeriod(metaint: nat, p: Period)
    requires WellFormed(metaint, [p])
    ensures Strip(metaint, Audio(0), p.audio + [p.lengthByte] + p.meta) == Stripped(Audio(0), p.audio)
  {
    assert [p][0] == p;
    StripBlock(metaint, 0, p.audio, p.lengthByte, p.meta);
  }

  /** Audio up to the end of a chunk, then one whole block. */
  lemma StripBlock(metaint: nat, seen: nat, audio: seq<int>, lengthByte: int, meta: seq<int>)
    requires seen + |audio| == metaint && |meta| == BlockSize(lengthByte)
    ensures Strip(metaint, Audio(seen), audio + [lengthByte] + meta) == Stripped(Audio(0), audio)
  {
    StripAudio(metaint, seen, audio);
    StripConcat(metaint, Audio(seen), audio, [lengthByte]);
    var after := StripByte(metaint, Audio(metaint), lengthByte);
    assert [lengthByte][1..] == [];
    assert Strip(metaint, Audio(metaint), [lengthByte]) == after;
    StripConcat(metaint, Audio(seen), audio + [lengthByte], meta);
    if meta != [] {
      StripMeta(metaint, BlockSize(lengthByte), meta);
    }
  }

  /* The driver's read. */

  /** The session's fields that carry over between reads. */
  datatype Session = Session(metaint: nat, chunk: nat, firstMeta: nat)

  /** Undefined: the length given to memmove would be negative. */
  datatype ReadResult = Undefined | Read(session: Session, audio: seq<int>, consumed: seq<int>)

  /** One read of data bytes; extra is the byte the boundary case receives on its own. */
  function SessionRead(s: Session, data: seq<int>, extra: int): ReadResult {
    var total := |data|;
    if s.firstMeta > 0 then
      if total < s.firstMeta then Undefined
      else Read(s.(firstMeta := 0, chunk := total - s.firstMeta), data[s.firstMeta..], data)
    else if s.chunk + total == s.metaint then
      Read(s.(firstMeta := BlockSize(extra), chunk := 0), data, data + [extra])
    else if s.chunk + total > s.metaint then
      var at := s.metaint - s.chunk;
      if at < 0 then Undefined
      else
        var next := total - at - (BlockSize(data[at]) + 1);
        if next < 0 then Undefined
        else Read(s.(chunk := next), data[..at] + data[total - next..], data)
    else
      Read(s.(chunk := s.chunk + total), data, data)
  }

  function PhaseOf(s: Session): Phase {
    if s.firstMeta > 0 then Meta(s.firstMeta) else Audio(s.chunk)
  }

  predicate Good(s: Session) {
    s.metaint > 0 && s.chunk <= s.metaint
  }

  /**
   * The reads the code handles: a pending block is not longer than the read; a block that starts inside the
   * read also ends inside it; and at most one chunk of audio follows the block.
   */
  predicate Fits(s: Session, data: seq<int>)
    requires Good(s)
  {
    if s.firstMeta > 0 then s.firstMeta <= |data| <= s.firstMeta + s.metaint
    else if s.chunk + |data| > s.metaint then
      var at := s.metaint - s.chunk;
      at + 1 + BlockSize(data[at]) <= |data| <= at + 1 + BlockSize(data[at]) + s.metaint
    else true
  }

  /** A read that fits does on its bytes what the byte machine does. */
  lemma ReadStrips(s: Session, data: seq<int>, extra: int)
    requires Good(s) && Fits(s, data)
    ensures var r := SessionRead(s, data, extra);
            && r.Read? && Good(r.session) && r.session.metaint == s.metaint
            && Strip(s.metaint, PhaseOf(s), r.consumed) == Stripped(PhaseOf(r.session), r.audio)
  {
    hide Strip, StripByte;
    if s.firstMeta > 0 {
      StripPending(s, data);
    } else if s.chunk + |data| == s.metaint {
      StripBoundary(s, data, extra);
    } else if s.chunk + |data| > s.metaint {
      StripInside(s, data);
    } else {
      StripAudio(s.metaint, s.chunk, data);
    }
  }

  lemma StripPending(s: Session, data: seq<int>)
    requires Good(s) && 0 < s.firstMeta <= |data| <= s.firstMeta + s.metaint
    ensures Strip(s.metaint, Meta(s.firstMeta), data) ==
            Stripped(Audio(|data| - s.firstMeta), data[s.firstMeta..])
  {
    var meta, audio := data[..s.firstMeta], data[s.firstMeta..];
    assert data == meta + audio;
    StripMeta(s.metaint, s.firstMeta, meta);
    StripAudio(s.metaint, 0, audio);
    StripConcat(s.metaint, Meta(s.firstMeta), meta, audio);
  }

  lemma StripBoundary(s: Session, data: seq<int>, extra: int)
    requires Good(s) && s.firstMeta == 0 && s.chunk + |data| == s.metaint
    ensures Strip(s.metaint, Audio(s.chunk), data + [extra]) ==
            Stripped(if BlockSize(extra) == 0 then Audio(0) else Meta(BlockSize(extra)), data)
  {
    StripAudio(s.metaint, s.chunk, data);
    StripConcat(s.metaint, Audio(s.chunk), data, [extra]);
    assert [extra][1..] == [];
  }

  lemma StripInside(s: Session, data: seq<int>)
    requires Good(s) && s.firstMeta == 0 && s.chunk + |data| > s.metaint && Fits(s, data)
    ensures var at := s.metaint - s.chunk;
            var next := |data| - at - (BlockSize(data[at]) + 1);
            Strip(s.metaint, Audio(s.chunk), data) == Stripped(Audio(next), data[..at] + data[|data| - next..])
  {
    hide Strip, StripByte, BlockSize;
    var at := s.metaint - s.chunk;
    var end := at + 1 + BlockSize(data[at]);
    CutInFour(data, at, end);
    StripFour(s.metaint, s.chunk, data[..at], data[at], data[at + 1..end], data[end..]);
  }

  lemma CutInFour(data: seq<int>, at: nat, end: nat)
    requires at < end <= |data|
    ensures data == (data[..at] + [data[at]] + data[at + 1..end]) + data[end..]
  {
  }

  lemma StripFour(metaint: nat, seen: nat, head: seq<int>, lengthByte: int, meta: seq<int>, audio: seq<int>)
    requires seen + |head| == metaint && |meta| == BlockSize(lengthByte) && |audio| <= metaint
    ensures Strip(metaint, Audio(seen), (head + [lengthByte] + meta) + audio) ==
            Stripped(Audio(|audio|), head + audio)
  {
    hide Strip, StripByte, BlockSize;
    StripBlock(metaint, seen, head, lengthByte, meta);
    StripAudio(metaint, 0, audio);
    StripConcat(metaint, Audio(seen), head + [lengthByte] + meta, audio);
  }

  /* When a read does not fit. */

  lemma {:induction false} StripShrinks(metaint: nat, p: Phase, bytes: seq<int>)
    ensures |Strip(metaint, p, bytes).audio| <= |bytes|
    decreases |bytes|
  {
    if bytes != [] {
      StripShrinks(metaint, StripByte(metaint, p, bytes[0]).phase, bytes[1..]);
    }
  }

  /** After a whole chunk at least the length byte is deleted. */
  lemma StripLosesLength(metaint: nat, bytes: seq<int>)
    requires |bytes| > metaint
    ensures |Strip(metaint, Audio(0), bytes).audio| < |bytes|
  {
    var chunk, rest := bytes[..metaint], bytes[metaint..];
    assert bytes == chunk + rest;
    StripAudio(metaint, 0, chunk);
    StripConcat(metaint, Audio(0), chunk, rest);
    StripShrinks(metaint, StripByte(metaint, Audio(metaint), rest[0]).phase, rest[1..]);
  }

  /** A read is defined and returns the right bytes exactly when it fits. */
  lemma RightExactlyWhenFits(s: Session, data: seq<int>, extra: int)
    requires Good(s)
    ensures var r := SessionRead(s, data, extra);
            r.Read? && r.audio == Strip(s.metaint, PhaseOf(s), r.consumed).audio <==> Fits(s, data)
  {
    hide Strip, StripByte;
    var r := SessionRead(s, data, extra);
    if Fits(s, data) {
      ReadStrips(s, data, extra);
    } else if r.Read? {
      if s.firstMeta > 0 {
        var meta, audio := data[..s.firstMeta], data[s.firstMeta..];
        assert data == meta + audio;
        StripMeta(s.metaint, s.firstMeta, meta);
        StripConcat(s.metaint, Meta(s.firstMeta), meta, audio);
        StripLosesLength(s.metaint, audio);
      } else {
        TooMuchAfterBlock(s, data);
      }
    }
  }

  lemma TooMuchAfterBlock(s: Session, data: seq<int>)
    requires Good(s) && s.firstMeta == 0 && s.chunk + |data| > s.metaint
    requires s.metaint - s.chunk + 1 + BlockSize(data[s.metaint - s.chunk]) + s.metaint < |data|
    ensures |Strip(s.metaint, Audio(s.chunk), data).audio| < |data| - (BlockSize(data[s.metaint - s.chunk]) + 1)
  {
    hide Strip, StripByte;
    var at := s.metaint - s.chunk;
    var end := at + 1 + BlockSize(data[at]);
    var meta, audio := data[at + 1..end], data[end..];
    CutInFour(data, at, end);
    StripBlock(s.metaint, s.chunk, data[..at], data[at], meta);
    StripConcat(s.metaint, Audio(s.chunk), data[..at] + [data[at]] + meta, audio);
    StripLosesLength(s.metaint, audio);
  }

  /* Whole sessions. */

  /** One call: the bytes it reads, and the byte it would receive on its own. */
  datatype Call = Call(data: seq<int>, extra: int)

  predicate AllFit(s: Session, calls: seq<Call>)
    decreases |calls|
  {
    calls == []
    || (Good(s) && Fits(s, calls[0].data)
        && SessionRead(s, calls[0].data, calls[0].extra).Read?
        && AllFit(SessionRead(s, calls[0].data, calls[0].extra).session, calls[1..]))
  }

  function Consumed(s: Session, calls: seq<Call>): seq<int>
    requires AllFit(s, calls)
    decreases |calls|
  {
    if calls == [] then []
    else
      var r := SessionRead(s, calls[0].data, calls[0].extra);
      r.consumed + Consumed(r.session, calls[1..])
  }

  function Output(s: Session, calls: seq<Call>): seq<int>
    requires AllFit(s, calls)
    decreases |calls|
  {
    if calls == [] then []
    else
      var r := SessionRead(s, calls[0].data, calls[0].extra);
      r.audio + Output(r.session, calls[1..])
  }

  /** The outputs of all reads together are the stripped stream, however the stream is cut into reads that fit. */
  lemma {:induction false} SessionStrips(s: Session, calls: seq<Call>)
    requires Good(s) && AllFit(s, calls)
    ensures Output(s, calls) == Strip(s.metaint, PhaseOf(s), Consumed(s, calls)).audio
    decreases |calls|
  {
    if calls != [] {
      var r := SessionRead(s, calls[0].data, calls[0].extra);
      ReadStrips(s, calls[0].data, calls[0].extra);
      SessionStrips(r.session, calls[1..]);
      StripConcat(s.metaint, PhaseOf(s), r.consumed, Consumed(r.session, calls[1..]));
    }
  }

  /** A fresh session on a stream of periods delivers exactly their audio. */
  lemma FreshSessionDeliversAudio(metaint: nat, calls: seq<Call>, periods: seq<Period>, tail: seq<int>)
    requires metaint > 0 && AllFit(Session(metaint, 0, 0), calls)
    requires WellFormed(metaint, periods) && |tail| <= metaint
    requires Consumed(Session(metaint, 0, 0), calls) == Bytes(periods) + tail
    ensures Output(Session(metaint, 0, 0), calls) == AudioOf(periods) + tail
  {
    SessionStrips(Session(metaint, 0, 0), calls);
    StripDeletesMetadata(metaint, periods, tail);
  }

  /* first_meta_size is one static variable: opening a session does not reset it. */

  /** A session as it is opened, with what the static variable holds at that time. */
  function Opened(metaint: nat, pending: nat): Session {
    Session(metaint, 0, pending)
  }

  /** The calls fit, and what they consume are whole periods and the beginning of one more. */
  predicate OnPeriods(s: Session, calls: seq<Call>, periods: seq<Period>, tail: seq<int>) {
    && AllFit(s, calls) && WellFormed(s.metaint, periods) && |tail| <= s.metaint
    && Consumed(s, calls) == Bytes(periods) + tail
  }

  /** On every stream of periods, however it is cut into reads that fit, the session delivers exactly the audio. */
  ghost predicate DeliversAudio(s: Session) {
    forall calls, periods, tail :: OnPeriods(s, calls, periods, tail) ==> Output(s, calls) == AudioOf(periods) + tail
  }

  /** n bytes of a stream without metadata. */
  lemma {:induction false} SomeStream(metaint: nat, n: nat) returns (periods: seq<Period>, tail: seq<int>)
    requires metaint > 0
    ensures WellFormed(metaint, periods) && |tail| <= metaint && |Bytes(periods) + tail| == n
    ensures n > 0 ==> AudioOf(periods) + tail != []
  {
    if n <= metaint {
      periods, tail := [], seq(n, i => 0);
      assert |Bytes(periods)| == 0;
    } else {
      var p := Period(seq(metaint, i => 0), 0, []);
      var more, end := SomeStream(metaint, n - metaint - 1);
      periods, tail := [p] + more, end;
      assert periods[1..] == more;
    }
  }

  /** A session delivers the audio if and only if the static variable is 0 as it is opened. */
  lemma OpenedDeliversExactly(metaint: nat, pending: nat)
    requires metaint > 0
    ensures DeliversAudio(Opened(metaint, pending)) <==> pending == 0
  {
    var s := Opened(metaint, pending);
    if pending == 0 {
      forall calls, periods, tail | OnPeriods(s, calls, periods, tail)
        ensures Output(s, calls) == AudioOf(periods) + tail
      {
        FreshSessionDeliversAudio(metaint, calls, periods, tail);
      }
    } else {
      var periods, tail := SomeStream(metaint, pending);
      var data := Bytes(periods) + tail;
      var calls := [Call(data, 0)];
      var r := SessionRead(s, data, 0);
      assert r == Read(s.(firstMeta := 0, chunk := 0), [], data);
      assert calls[1..] == [];
      assert AllFit(s, calls) && Consumed(s, calls) == data + [] && Output(s, calls) == [] + [];
      assert OnPeriods(s, calls, periods, tail) && Output(s, calls) != AudioOf(periods) + tail;
    }
  }

  /** A session closed between the length byte of a block and the block spoils the one opened next. */
  lemma ClosedInsideBlock(metaint: nat, audio: seq<int>, lengthByte: int, next: nat)
    requires 0 < metaint == |audio| && 0 < lengthByte < 256 && next > 0
    ensures var r := SessionRead(Opened(metaint, 0), audio, lengthByte);
            && r.Read? && r.audio == audio && r.session.firstMeta == 16 * lengthByte
            && !DeliversAudio(Opened(next, r.session.firstMeta))
  {
    hide DeliversAudio;
    OpenedDeliversExactly(next, 16 * lengthByte);
  }

  /* Reads that do not fit, on streams as a server sends them. */

  /** A read that ends with a chunk, followed by one shorter than the block: memmove gets a negative length. */
  lemma NegativeMoveIsReached(metaint: nat, audio: seq<int>, lengthByte: int, meta: seq<int>)
    requires 0 < metaint == |audio| && 0 < lengthByte < 256 && |meta| < 16 * lengthByte
    ensures var r := SessionRead(Opened(metaint, 0), audio, lengthByte);
            && r.Read? && r.consumed + meta == audio + [lengthByte] + meta
            && forall extra :: SessionRead(r.session, meta, extra) == Undefined
  {
  }

  /** A read of two whole periods: the second length byte comes out among the audio. */
  lemma LengthByteInAudio(metaint: nat, p: Period, q: Period, extra: int)
    requires metaint > 0 && WellFormed(metaint, [p, q]) && p.lengthByte == 0 == q.lengthByte
    ensures var r := SessionRead(Opened(metaint, 0), Bytes([p, q]), extra);
            && r.Read? && r.audio == AudioOf([p, q]) + [0]
            && Strip(metaint, Audio(0), r.consumed).audio == AudioOf([p, q])
  {
    hide Strip;
    var both := [p, q];
    assert both[0] == p && both[1] == q && both[1..] == [q] && both[1..][1..] == [];
    assert Bytes(both[1..]) == q.audio + [0] + [] + [] && AudioOf(both[1..]) == q.audio + [];
    var data := Bytes(both);
    assert data == p.audio + [0] + (q.audio + [0]);
    assert data[..metaint] == p.audio && data[metaint + 1..] == q.audio + [0];
    StripDeletesMetadata(metaint, both, []);
    assert data + [] == data && AudioOf(both) + [] == AudioOf(both);
  }

  /** A server that announces no metaint sends no metadata, but no read of such a stream returns its bytes. */
  lemma WithoutMetaintDamages(chunk: nat, data: seq<int>, extra: int)
    requires data != []
    ensures var r := SessionRead(Session(0, chunk, 0), data, extra); r.Undefined? || r.audio != data
  {
  }

  /* In place. */

  /** The static variable of shoutcast_session_read. */
  class FirstMeta {
    var size: nat

    constructor ()
      ensures size == 0
    {
      size := 0;
    }
  }

  class ShoutcastSession {
    const metaint: nat
    const firstMeta: FirstMeta
    var currentMetaChunk: nat

    ghost function Abs(): Session
      reads this, firstMeta
    {
      Session(metaint, currentMetaChunk, firstMeta.size)
    }

    /** shoutcast_session_open, after the headers; the static variable stays as it is. */
    constructor (metaint: nat, firstMeta: FirstMeta)
      ensures this.firstMeta == firstMeta && Abs() == Opened(metaint, firstMeta.size)
    {
      this.metaint, this.firstMeta := metaint, firstMeta;
      currentMetaChunk := 0;
    }

    /**
     * The receive loop: each recv stores one piece behind the others, until length bytes are there or the
     * peer stops. Returns how many bytes arrived.
     */
    method Receive(buffer: array<int>, length: nat, pieces: seq<seq<int>>) returns (totalRead: nat)
      requires length <= buffer.Length && |Flatten(pieces)| <= length
      modifies buffer
      ensures totalRead == |Flatten(pieces)| && buffer[..totalRead] == Flatten(pieces)
    {
      totalRead := 0;
      var left, k := length, 0;
      while k < |pieces|
        invariant k <= |pieces| && totalRead == |Flatten(pieces[..k])| && left == length - totalRead
        invariant totalRead <= length && buffer[..totalRead] == Flatten(pieces[..k])
      {
        assert pieces[..k + 1][..k] == pieces[..k];
        FlattenGrows(pieces, k + 1);
        Store(buffer, totalRead, pieces[k]);
        left := left - |pieces[k]|;
        totalRead := totalRead + |pieces[k]|;
        k := k + 1;
      }
      assert pieces[..|pieces|] == pieces;
    }

    /** The branch for a block announced by the read before. */
    method SkipPending(buffer: array<int>, length: nat) returns (totalRead: nat)
      requires 0 < firstMeta.size <= length <= buffer.Length
      modifies this`currentMetaChunk, firstMeta, buffer
      ensures totalRead == length - old(firstMeta.size)
      ensures buffer[..totalRead] == old(buffer[firstMeta.size..length])
      ensures Abs() == Session(metaint, totalRead, 0)
    {
      MoveDown(buffer, 0, firstMeta.size, length - firstMeta.size);
      totalRead := length - firstMeta.size;
      firstMeta.size := 0;
      currentMetaChunk := totalRead;
    }

    /** The branch for a block inside the read. */
    method SkipInside(buffer: array<int>, length: nat) returns (totalRead: nat)
      requires length <= buffer.Length
      requires firstMeta.size == 0 && currentMetaChunk <= metaint < currentMetaChunk + length
      requires metaint - currentMetaChunk + BlockSize(buffer[metaint - currentMetaChunk]) < length
      modifies this`currentMetaChunk, buffer
      ensures var at := metaint - old(currentMetaChunk);
              var skip := BlockSize(old(buffer[metaint - currentMetaChunk])) + 1;
              && totalRead == length - skip && at + skip <= length
              && buffer[..totalRead] == old(buffer[..length])[..at] + old(buffer[..length])[at + skip..]
              && Abs() == Session(metaint, length - at - skip, 0)
    {
      hide BlockSize;
      var at := metaint - currentMetaChunk;
      ghost var data := buffer[..length];
      var metaLength := BlockSize(buffer[at]);
      var nextChunkLength := length - at - (metaLength + 1);
      assert data[..at] == buffer[..at] && data[at + metaLength + 1..] == buffer[at + metaLength + 1..length];
      MoveDown(buffer, at, at + metaLength + 1, nextChunkLength);
      currentMetaChunk := nextChunkLength;
      totalRead := length - (metaLength + 1);
    }

    /** shoutcast_session_read after its receive loop, whenever no length it gives to memmove is negative. */
    method StripMetadata(buffer: array<int>, length: nat, extra: int) returns (totalRead: nat)
      requires length <= buffer.Length && SessionRead(Abs(), buffer[..length], extra).Read?
      modifies this`currentMetaChunk, firstMeta, buffer
      ensures totalRead <= buffer.Length
      ensures Abs() == SessionRead(old(Abs()), old(buffer[..length]), extra).session
      ensures buffer[..totalRead] == SessionRead(old(Abs()), old(buffer[..length]), extra).audio
    {
      assert currentMetaChunk <= metaint < currentMetaChunk + length ==>
          buffer[..length][metaint - currentMetaChunk] == buffer[metaint - currentMetaChunk];
      if firstMeta.size > 0 {
        totalRead := SkipPending(buffer, length);
      } else if currentMetaChunk + length == metaint {
        firstMeta.size := BlockSize(extra);
        currentMetaChunk := 0;
        totalRead := length;
      } else if currentMetaChunk + length > metaint {
        totalRead := SkipInside(buffer, length);
      } else {
        currentMetaChunk := currentMetaChunk + length;
        totalRead := length;
      }
    }

    /** shoutcast_session_read: the receive loop, then the stripping of what arrived. */
    method ReadSession(buffer: array<int>, length: nat, pieces: seq<seq<int>>, extra: int) returns (totalRead: nat)
      requires length <= buffer.Length && |Flatten(pieces)| <= length
      requires SessionRead(Abs(), Flatten(pieces), extra).Read?
      modifies this`currentMetaChunk, firstMeta, buffer
      ensures totalRead <= buffer.Length
      ensures SessionRead(old(Abs()), Flatten(pieces), extra) ==
              Read(Abs(), buffer[..totalRead], SessionRead(old(Abs()), Flatten(pieces), extra).consumed)
    {
      var arrived := Receive(buffer, length, pieces);
      totalRead := StripMetadata(buffer, arrived, extra);
    }
  }
}
