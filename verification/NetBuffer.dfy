/** The net buffer's fields and its atomic steps in place, each proved to do what NetProtocol says. */
module NetBuffer {
  import opened Ring
  import opened NetProtocol

  /** memcpy between two buffers that do not overlap. */
  method Memcpy(dst: array<int>, d: nat, src: array<int>, s: nat, count: nat)
    requires dst != src && d + count <= dst.Length && s + count <= src.Length
    modifies dst
    ensures dst[..] == old(dst[..d]) + src[s..s + count] + old(dst[d + count..])
  {
    var i := 0;
    while i < count
      invariant i <= count
      invariant dst[..d] == old(dst[..d])
      invariant dst[d..d + i] == src[s..s + i]
      invariant dst[d + i..] == old(dst[d + i..])
    {
      ghost var rest := dst[d + i..];
      dst[d + i] := src[s + i];
      assert dst[d + i + 1..] == rest[1..];
      i := i + 1;
    }
    assert dst[..] == dst[..d] + dst[d..d + count] + dst[d + count..];
  }

  class NetBuffer {
    var readIndex: nat
    var saveIndex: nat
    const bufferData: array<int>
    var dataLength: nat
    const size: nat
    const readyWm: nat
    const resumeWm: nat
    var isWaitReady: bool
    var waitReady: nat
    var waitResume: nat
    var stat: Stat
    var jobs: nat

    ghost predicate Valid()
      reads this, bufferData
    {
      && size == bufferData.Length
      && readyWm == ReadyMark(size) && resumeWm == ResumeMark(size)
      && ValidBuf(Abs())
    }

    ghost function Abs(): Buf
      reads this, bufferData
    {
      Buf(stat, readIndex, saveIndex, dataLength, bufferData[..], isWaitReady, waitReady, waitResume, jobs)
    }

    /** net_buf_init */
    constructor (size: nat)
      requires size > 0
      ensures Valid() && fresh(bufferData) && bufferData.Length == size
      ensures Abs() == Buf(Stopped, 0, 0, 0, bufferData[..], false, 0, 0, 0)
      ensures size >= BLOCK_SIZE ==> Initial(System(Abs(), Idle, NoJob, false, [], [], 0))
      ensures readyWm == size * 90 / 100 && resumeWm == size * 80 / 100
    {
      this.size := size;
      readIndex, saveIndex, dataLength := 0, 0, 0;
      bufferData := new int[size];
      readyWm, resumeWm := size * 90 / 100, size * 80 / 100;
      stat := Stopped;
      waitReady, waitResume, isWaitReady, jobs := 0, 0, false, 0;
    }

    /** net_buf_read, first step: wait or go on. */
    method TestReady() returns (wait: bool)
      requires Valid()
      modifies this`isWaitReady
      ensures Valid() && wait == MustWait(old(Abs()))
      ensures Abs() == if wait then old(Abs()).(flag := true) else old(Abs())
    {
      wait := false;
      if dataLength == 0 && (stat == Buffering || stat == Suspend) {
        isWaitReady := true;
        wait := true;
      }
    }

    /** The copy out of the ring, in one piece or two. Returns the new read index. */
    method CopyPieces(dst: array<int>, count: nat) returns (next: nat)
      requires dst != bufferData && count <= dst.Length && count <= bufferData.Length == size && readIndex < size
      modifies dst
      ensures dst[..count] == CopyOut(bufferData[..], readIndex, count)
      ensures next == NextRead(size, readIndex, count)
    {
      if size - readIndex > count {
        Memcpy(dst, 0, bufferData, readIndex, count);
        assert dst[..count] == bufferData[..][readIndex..readIndex + count];
        next := readIndex + count;
      } else {
        var first := size - readIndex;
        Memcpy(dst, 0, bufferData, readIndex, first);
        assert dst[..first] == bufferData[..][readIndex..];
        Memcpy(dst, first, bufferData, 0, count - first);
        assert dst[..count] == bufferData[..][readIndex..] + bufferData[..][..count - first];
        next := count - first;
      }
    }

    /** net_buf_read, second step: copy, move the index, take the length off, resume the worker or not. */
    method CopyOutTo(dst: array<int>, length: nat) returns (count: nat, wake: bool)
      requires Valid() && dst != bufferData && length <= dst.Length && length <= size
      modifies this`readIndex, this`dataLength, this`stat, dst
      ensures Valid() && Abs() == AfterRead(old(Abs()), length)
      ensures count == Taken(old(Abs()), length) && wake == Wakes(old(Abs()), length)
      ensures dst[..count] == ReadBytes(old(Abs()), length)
      ensures count == if length < old(dataLength) then length else old(dataLength)
      ensures dataLength == old(dataLength) - count
    {
      hide ReadyMark, ResumeMark;
      wake := false;
      count := if length > dataLength then dataLength else length;
      if dataLength > 0 {
        readIndex := CopyPieces(dst, count);
        dataLength := dataLength - count;
        if stat == Suspend && dataLength < resumeWm {
          stat := Buffering;
          wake := true;
        }
      }
    }

    /** net_buf_start_job up to the point where the message is sent. */
    method StartJob() returns (ok: bool)
      requires Valid()
      modifies this`stat
      ensures Valid() && ok == (old(stat) == Stopped)
      ensures Abs() == if ok then old(Abs()).(stat := Buffering) else old(Abs())
    {
      ok := stat == Stopped;
      if ok {
        stat := Buffering;
      }
    }

    /** net_buf_stop_job */
    method StopJob()
      requires Valid()
      modifies this`stat, this`waitResume
      ensures Valid() && Abs() == AfterStop(old(Abs()))
    {
      if stat == Suspend {
        waitResume := waitResume + 1;
        stat := Stopping;
      } else if stat == Buffering {
        stat := Stopping;
      }
    }

    /** The room test of net_buf_do_job. */
    method TestRoomFor(ghost block: seq<int>, readLength: nat) returns (suspend: bool)
      requires Valid() && readLength == |block|
      modifies this`stat
      ensures Valid() && suspend == NoRoom(old(Abs()), block)
      ensures Abs() == if suspend then old(Abs()).(stat := Suspend) else old(Abs())
    {
      suspend := size - dataLength < readLength;
      if suspend {
        stat := Suspend;
      }
    }

    /** The copy into the ring when the block goes past its end. */
    method SaveWrapped(ptr: array<int>, readLength: nat)
      requires ptr != bufferData && readLength <= ptr.Length && readLength <= bufferData.Length == size
      requires saveIndex < size && size - saveIndex < readLength
      modifies bufferData
      ensures bufferData[..] == CopyIn(old(bufferData[..]), saveIndex, ptr[..readLength])
    {
      hide CopyIn;
      ghost var ring, block := bufferData[..], ptr[..readLength];
      var first := size - saveIndex;
      Memcpy(bufferData, saveIndex, ptr, 0, first);
      ghost var half := bufferData[..];
      assert half == ring[..saveIndex] + block[..first] by {
        assert ptr[0..first] == block[..first];
        assert ring[saveIndex + first..] == [];
      }
      Memcpy(bufferData, 0, ptr, first, readLength - first);
      assert bufferData[..] == block[first..] + half[readLength - first..] by {
        assert ptr[first..first + (readLength - first)] == block[first..];
      }
      WrappedCopy(ring, saveIndex, block, half, bufferData[..]);
    }

    /** The copy into the ring, in one piece or two. Returns the new save index. */
    method SavePieces(ptr: array<int>, readLength: nat) returns (next: nat)
      requires ptr != bufferData && readLength <= ptr.Length && readLength <= bufferData.Length == size
      requires saveIndex < size
      modifies bufferData
      ensures bufferData[..] == CopyIn(old(bufferData[..]), saveIndex, ptr[..readLength])
      ensures next == NextSave(size, saveIndex, readLength)
    {
      hide CopyIn;
      if size - saveIndex < readLength {
        SaveWrapped(ptr, readLength);
        next := readLength - (size - saveIndex);
      } else {
        ghost var ring, block := bufferData[..], ptr[..readLength];
        Memcpy(bufferData, saveIndex, ptr, 0, readLength);
        assert ptr[0..readLength] == block;
        StraightCopy(ring, saveIndex, block, bufferData[..]);
        next := saveIndex + readLength;
        if next >= size {
          next := 0;
        }
      }
    }

    /** The copy step of net_buf_do_job. Returns the length it then tests against the ready mark. */
    method SaveFrom(ptr: array<int>, readLength: nat) returns (saved: nat)
      requires Valid() && ptr != bufferData && readLength <= ptr.Length && readLength <= size
      modifies this`saveIndex, this`dataLength, bufferData
      ensures Valid() && Abs() == AfterSave(old(Abs()), ptr[..readLength])
      ensures saved == old(dataLength) + readLength
    {
      hide ReadyMark, ResumeMark, CopyIn;
      saveIndex := SavePieces(ptr, readLength);
      dataLength := dataLength + readLength;
      saved := dataLength;
    }

    /** The notification of net_buf_do_job. */
    method NotifyReady(saved: nat)
      requires Valid()
      modifies this`isWaitReady, this`waitReady
      ensures Valid()
      ensures Abs() == if Notifies(old(Abs()), saved) then AfterNotify(old(Abs())) else old(Abs())
    {
      if stat == Buffering && saved >= readyWm && isWaitReady {
        isWaitReady := false;
        waitReady := waitReady + 1;
      }
    }

    /** net_buf_do_stop, second step: after the status is set, wake a waiting reader. */
    method WakeWaiting()
      requires Valid()
      modifies this`isWaitReady, this`waitReady
      ensures Valid() && Abs() == if old(isWaitReady) then AfterNotify(old(Abs())) else old(Abs())
    {
      if isWaitReady {
        isWaitReady := false;
        waitReady := waitReady + 1;
      }
    }

    /** net_buf_do_stop, last step, and the first thing net_buf_thread_entry does with a job. */
    method Reset()
      requires Valid()
      modifies this`dataLength, this`readIndex, this`saveIndex
      ensures Valid() && Abs() == AfterReset(old(Abs()))
    {
      dataLength := 0;
      readIndex := 0;
      saveIndex := 0;
    }
  }

  lemma WrappedCopy(ring: seq<int>, w: nat, block: seq<int>, half: seq<int>, out: seq<int>)
    requires w < |ring| && |ring| - w < |block| <= |ring|
    requires half == ring[..w] + block[..|ring| - w]
    requires out == block[|ring| - w..] + half[|block| - (|ring| - w)..]
    ensures out == CopyIn(ring, w, block)
  {
  }

  lemma StraightCopy(ring: seq<int>, w: nat, block: seq<int>, out: seq<int>)
    requires w < |ring| && |block| <= |ring| - w
    requires out == ring[..w] + block + ring[w + |block|..]
    ensures out == CopyIn(ring, w, block)
  {
  }
}
