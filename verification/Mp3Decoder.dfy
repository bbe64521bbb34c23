/** The MP3 decoder loop: its window on the stream, the fate of each PCM block, mono made stereo in place. */
module Mp3Decoder {
  import opened Pieces

  const MP3_AUDIO_BUF_SZ := 5120
  const MAINBUF_SIZE := 1940
  /** Half words in one block of the pool. */
  const BLOCK_SAMPLES := 2560

  /* Mono to stereo. */

  function Stereo(mono: seq<int>): (s: seq<int>)
    ensures |s| == 2 * |mono|
  {
    if mono == [] then [] else Stereo(mono[..|mono| - 1]) + [mono[|mono| - 1], mono[|mono| - 1]]
  }

  lemma {:induction false} StereoAt(mono: seq<int>, i: nat)
    requires i < |mono|
    ensures Stereo(mono)[2 * i] == mono[i] && Stereo(mono)[2 * i + 1] == mono[i]
  {
    if i < |mono| - 1 {
      StereoAt(mono[..|mono| - 1], i);
    }
  }

  /** Stereo is the only sequence with both channels of every frame equal to its sample. */
  lemma Paired(mono: seq<int>, s: seq<int>)
    requires |s| == 2 * |mono|
    requires forall j :: 0 <= j < |mono| ==> s[2 * j] == mono[j] && s[2 * j + 1] == mono[j]
    ensures s == Stereo(mono)
  {
    hide Stereo;
    forall k | 0 <= k < |s| ensures s[k] == Stereo(mono)[k] {
      var j := k / 2;
      StereoAt(mono, j);
      assert k == 2 * j || k == 2 * j + 1;
    }
  }

  /** The downward loop: it may overwrite a sample only after it has used it. */
  method MonoToStereo(buffer: array<int>, samples: nat)
    requires 2 * samples <= buffer.Length
    modifies buffer
    ensures buffer[..2 * samples] == Stereo(old(buffer[..samples]))
  {
    ghost var mono := buffer[..samples];
    var i: int := samples - 1;
    while i >= 0
      invariant -1 <= i < samples
      invariant forall j :: 0 <= j <= i ==> buffer[j] == mono[j]
      invariant forall j :: i < j < samples ==> buffer[2 * j] == mono[j] && buffer[2 * j + 1] == mono[j]
    {
      buffer[i * 2], buffer[i * 2 + 1] := buffer[i], buffer[i];
      i := i - 1;
    }
    Paired(mono, buffer[..2 * samples]);
  }

  /* The window. */

  datatype Error = NoError | IndataUnderflow | MaindataUnderflow | Other

  /** What the decoder library reports: how many bytes it took, and the samples it put in the block. */
  datatype Decoded = Decoded(error: Error, consumed: nat, samples: seq<int>, mono: bool)

  predicate FitsBlock(d: Decoded) {
    (if d.mono then 2 * |d.samples| else |d.samples|) <= BLOCK_SAMPLES
  }

  lemma FitsLength(d: Decoded)
    requires FitsBlock(d)
    ensures |d.samples| <= BLOCK_SAMPLES
  {
  }

  lemma NothingFits()
    ensures FitsBlock(Decoded(NoError, 0, [], false))
  {
  }

  /** Where the PCM block of one run ends up. Refused: RT_ASSERT(0) was reached with the block in hand. */
  datatype Fate = NotTaken | Released | Written(samples: seq<int>) | Refused

  /** Whole sectors that fit behind the bytes left. */
  function Request(bytesLeft: nat): nat
    requires bytesLeft <= MP3_AUDIO_BUF_SZ
  {
    (MP3_AUDIO_BUF_SZ - bytesLeft) / 512 * 512
  }

  /**
   * A refill asks for whole sectors of 512 bytes, and for as many as fit behind the bytes left. mp3_decoder_run
   * refills below twice MAINBUF_SIZE and below 1024 bytes: it never asks for nothing.
   */
  lemma RequestIsPositive(bytesLeft: nat)
    requires bytesLeft <= 5120
    ensures Request(bytesLeft) % 512 == 0
    ensures bytesLeft + Request(bytesLeft) <= 5120 < bytesLeft + Request(bytesLeft) + 512
    ensures bytesLeft < 2 * 1940 ==> Request(bytesLeft) > 0
  {
  }

  class Decoder {
    const readBuffer: array<int>
    var started: bool
    var readPos: nat
    var bytesLeft: nat
    /** Everything fetched so far. */
    ghost var fetched: seq<int>

    /** The bytes left are the last of the bytes fetched, in place in the buffer. */
    ghost predicate Valid()
      reads this, readBuffer
    {
      && readBuffer.Length == MP3_AUDIO_BUF_SZ
      && readPos + bytesLeft <= MP3_AUDIO_BUF_SZ && bytesLeft <= |fetched|
      && readBuffer[readPos..readPos + bytesLeft] == fetched[|fetched| - bytesLeft..]
      && (!started ==> bytesLeft == 0)
    }

    /** How far into the stream the decoder has got. */
    ghost function Position(): int
      reads this
    {
      |fetched| - bytesLeft
    }

    constructor ()
      ensures Valid() && fresh(readBuffer) && Position() == 0 && fetched == []
    {
      readBuffer := new int[MP3_AUDIO_BUF_SZ];
      started, readPos, bytesLeft, fetched := false, 0, 0, [];
    }

    /**
     * mp3_decoder_fill_buffer; data is what the fetch returns. When it returns nothing the window has already
     * been moved but the read pointer has not: the decoder must not go on.
     */
    method FillBuffer(data: seq<int>) returns (ok: bool)
      requires Valid() && |data| <= Request(bytesLeft)
      modifies this`started, this`readPos, this`bytesLeft, this`fetched, readBuffer
      ensures ok <==> data != []
      ensures fetched == old(fetched) + data && bytesLeft == old(bytesLeft) + |data|
      ensures ok ==> Valid() && readPos == 0
    {
      Slide();
      Store(readBuffer, bytesLeft, data);
      if data != [] {
        started := true;
        readPos := 0;
      }
      bytesLeft := bytesLeft + |data|;
      fetched := fetched + data;
      ok := data != [];
    }

    /** The memmove that puts the bytes left at the start of the buffer. */
    method Slide()
      requires Valid()
      modifies readBuffer
      ensures readBuffer[..bytesLeft] == fetched[|fetched| - bytesLeft..]
    {
      if bytesLeft > 0 {
        MoveDown(readBuffer, 0, readPos, bytesLeft);
      }
    }

    /** Dropping count bytes off the front of the window. */
    method Skip(count: nat)
      requires Valid() && count <= bytesLeft
      modifies this`readPos, this`bytesLeft
      ensures Valid() && bytesLeft == old(bytesLeft) - count && readPos == old(readPos) + count
    {
      readPos := readPos + count;
      bytesLeft := bytesLeft - count;
    }

    /** A refill with whatever the fetch returns, up to what was asked for. */
    method Refill() returns (ok: bool, ghost got: seq<int>)
      requires Valid()
      modifies this`started, this`readPos, this`bytesLeft, this`fetched, readBuffer
      ensures ok <==> got != []
      ensures fetched == old(fetched) + got && |got| <= Request(old(bytesLeft))
      ensures ok ==> Valid()
      ensures Position() == old(Position())
    {
      var data: seq<int> :| |data| <= Request(bytesLeft);
      got := data;
      ok := FillBuffer(data);
    }

    /**
     * mp3_decoder_run up to the allocation of a block: is there a frame to decode, and if not, what is returned?
     * The library's search may answer with any offset into the window, or a negative number. It refills first
     * when there are less than 3880 bytes, and again when less than 1024 are left behind the offset; an answer
     * below 0 throws the window away, any other moves it on by just the offset.
     */
    method Locate() returns (found: bool, result: int, ghost offset: int, ghost first: seq<int>, ghost second: seq<int>)
      requires Valid()
      modifies this`started, this`readPos, this`bytesLeft, this`fetched, readBuffer
      ensures result == 0 || result == -1
      ensures found || result == 0 ==> Valid()
      ensures fetched == old(fetched) + first + second
      ensures first != [] ==> !old(started) || old(bytesLeft) < 3880
      ensures found || result == 0 ==> (first != [] <==> !old(started) || old(bytesLeft) < 3880)
      ensures found ==> offset >= 0 && Position() == old(Position()) + offset
      ensures found ==> (second != [] <==> old(bytesLeft) + |first| - offset < 1024)
      ensures !found && result == 0 ==> offset < 0 && second == [] && Position() == |fetched|
      ensures result == -1 ==> !found && second == []
      ensures result == -1 ==> first == [] || old(bytesLeft) + |first| - offset < 1024
      ensures old(Position()) <= Position()
    {
      found, result, offset, first, second := false, 0, -1, [], [];
      if !started || bytesLeft < 2 * MAINBUF_SIZE {
        var ok;
        ok, first := Refill();
        if !ok {
          result := -1;
          return;
        }
      }
      var sync: int :| sync <= bytesLeft;
      offset := sync;
      if sync < 0 {
        Skip(bytesLeft);
        return;
      }
      Skip(sync);
      if bytesLeft < 1024 {
        var ok;
        ok, second := Refill();
        if !ok {
          result := -1;
          return;
        }
      }
      found := true;
    }

    /**
     * mp3_decoder_run. While it returns 0 the window stays the end of the stream fetched so far. A block, once
     * taken, is released or written, once. From the place the library found, the decoder goes on by just what the
     * library's decoding took, by one byte more after an unknown error, and past everything after an underflow.
     * The decoding may take any part of the window and yield any samples that fit the block.
     */
    method Run() returns (result: int, fate: Fate, ghost offset: int, ghost decoded: Decoded, ghost seen: seq<int>)
      requires Valid()
      modifies this`started, this`readPos, this`bytesLeft, this`fetched, readBuffer
      ensures result == 0 || result == -1
      ensures result == 0 ==> Valid()
      ensures old(fetched) <= seen <= fetched && old(Position()) <= Position()
      ensures fate == NotTaken ==> fetched == seen && (result == 0 ==> Position() == |fetched|)
      ensures fate != NotTaken ==> offset >= 0 && old(Position()) + offset + decoded.consumed <= |seen|
      ensures fate.Written? <==> fate != NotTaken && decoded.error == NoError && decoded.samples != []
      ensures fate.Written? ==> fate.samples == if decoded.mono then Stereo(decoded.samples) else decoded.samples
      ensures fate == Refused <==> fate != NotTaken && decoded.error == Other
                                   && old(Position()) + offset + decoded.consumed == |seen|
      ensures fate != NotTaken && (decoded.error == NoError || decoded.error == MaindataUnderflow) ==>
                result == 0 && fetched == seen && Position() == old(Position()) + offset + decoded.consumed
      ensures fate != NotTaken && decoded.error == Other ==>
                result == 0 && fetched == seen
                && Position() == old(Position()) + offset + decoded.consumed + (if fate == Refused then 0 else 1)
      ensures fate != NotTaken && decoded.error == IndataUnderflow ==>
                Position() == |seen| && (result == -1 <==> fetched == seen)
      ensures result == -1 ==> fate == NotTaken || fate == Released
      ensures fate == Refused ==> bytesLeft == 0
    {
      hide FitsBlock;
      fate, decoded := NotTaken, Decoded(NoError, 0, [], false);
      var found;
      ghost var first, second;
      found, result, offset, first, second := Locate();
      seen := fetched;
      assert old(fetched) <= old(fetched) + first <= fetched;
      if found {
        NothingFits();
        var d: Decoded :| d.consumed <= bytesLeft && FitsBlock(d);
        decoded := d;
        FitsLength(d);
        Skip(d.consumed);
        var block := new int[BLOCK_SAMPLES];
        Store(block, 0, d.samples);
        assert block[..|d.samples|] == d.samples;
        result, fate := Dispose(d, block);
      }
    }

    /** The rest of mp3_decoder_run, with a block in hand. */
    method Dispose(decoded: Decoded, block: array<int>) returns (result: int, fate: Fate)
      requires Valid() && FitsBlock(decoded) && block != readBuffer && block.Length == BLOCK_SAMPLES
      requires block[..|decoded.samples|] == decoded.samples
      modifies this`started, this`readPos, this`bytesLeft, this`fetched, readBuffer, block
      ensures result == 0 ==> Valid()
      ensures result == -1 <==> decoded.error == IndataUnderflow && fetched == old(fetched)
      ensures result == 0 || result == -1
      ensures old(fetched) <= fetched
      ensures decoded.error != IndataUnderflow ==> fetched == old(fetched)
      ensures decoded.error == NoError || decoded.error == MaindataUnderflow ==> Position() == old(Position())
      ensures decoded.error == Other ==> Position() == old(Position()) + if old(bytesLeft) > 0 then 1 else 0
      ensures decoded.error == IndataUnderflow ==> Position() == |old(fetched)|
      ensures fate == (if decoded.error == NoError then
                         (if decoded.samples == [] then Released
                          else Written(if decoded.mono then Stereo(decoded.samples) else decoded.samples))
                       else if decoded.error == Other && old(bytesLeft) == 0 then Refused
                       else Released)
    {
      result, fate := 0, Released;
      match decoded.error
      case IndataUnderflow =>
        Skip(bytesLeft);
        var ok;
        ghost var got;
        ok, got := Refill();
        if !ok {
          result := -1;
        }
      case MaindataUnderflow =>
      case Other =>
        if bytesLeft > 0 {
          Skip(1);
        } else {
          fate := Refused;
        }
      case NoError =>
        var outputSamps := |decoded.samples|;
        if outputSamps > 0 {
          if decoded.mono {
            MonoToStereo(block, outputSamps);
            outputSamps := outputSamps * 2;
          }
          fate := Written(block[..outputSamps]);
        }
    }
  }
}
