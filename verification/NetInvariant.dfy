/** Every step of the net buffer keeps the invariant; what that says about every run. */
module NetInvariant {
  import opened Ring
  import opened NetProtocol

  /** Five blocks of space put a whole block between the resume mark and the end of the ring. */
  lemma ResumeLeavesRoom(size: nat)
    requires size >= 5 * BLOCK_SIZE
    ensures 0 < ResumeMark(size) <= size - BLOCK_SIZE
  {
  }

  lemma ReadyLeavesRoom(size: nat)
    requires size >= 10 * BLOCK_SIZE
    ensures 0 < ReadyMark(size) <= size - BLOCK_SIZE
  {
  }

  lemma InitInv(s: System)
    requires Initial(s)
    ensures Inv(s) && Filling(s)
  {
  }

  lemma NextSized(s: System, a: Action)
    requires Sized(s) && Enabled(s, a)
    ensures Sized(Next(s, a)) && |Next(s, a).b.ring| == |s.b.ring|
  {
    if a.Copy? && s.b.n > 0 {
      assert NextRead(|s.b.ring|, s.b.r, Taken(s.b, s.reader.length)) < |s.b.ring|;
    }
  }

  lemma NextJobs(s: System, a: Action)
    requires Sized(s) && Jobs(s) && Resumes(s) && Enabled(s, a)
    ensures Jobs(Next(s, a))
  {
    hide Content, CopyIn, CopyOut, NextRead, NextSave;
  }

  lemma NextResumes(s: System, a: Action)
    requires |s.b.ring| >= 5 * BLOCK_SIZE
    requires Sized(s) && Jobs(s) && Resumes(s) && Stored(s) && Enabled(s, a)
    ensures Resumes(Next(s, a))
  {
    hide Content, CopyIn, CopyOut, NextRead, NextSave, ResumeMark;
    ResumeLeavesRoom(|s.b.ring|);
  }

  lemma NextReadies(s: System, a: Action)
    requires Sized(s) && Jobs(s) && Readies(s) && Enabled(s, a)
    ensures Readies(Next(s, a))
  {
    hide Content, CopyIn, CopyOut, NextRead, NextSave, ResumeMark, ReadyMark;
  }

  lemma NextFilling(s: System, a: Action)
    requires |s.b.ring| >= 10 * BLOCK_SIZE
    requires Sized(s) && Jobs(s) && Resumes(s) && Readies(s) && Stored(s) && Filling(s) && Enabled(s, a)
    ensures Filling(Next(s, a))
  {
    hide Content, CopyIn, CopyOut, NextRead, NextSave, ResumeMark, ReadyMark;
    ResumeLeavesRoom(|s.b.ring|);
    ReadyLeavesRoom(|s.b.ring|);
  }

  /* The ring's contents. */

  lemma CopyStored(s: System)
    requires Sized(s) && Stored(s) && Resumes(s) && s.reader.Copying?
    requires |s.b.ring| >= 5 * BLOCK_SIZE
    ensures Stored(Next(s, Copy))
  {
    hide Content, CopyIn, CopyOut, NextRead, NextSave, Wrap, ResumeMark;
    var t := Next(s, Copy);
    if InJob(t.worker) && !Overrun(t) {
      ResumeLeavesRoom(|s.b.ring|);
      var k := Taken(s.b, s.reader.length);
      ReadTakesOldest(s.b.ring, s.b.r, s.b.n, k);
      ReadLeavesRest(s.b.ring, s.b.r, s.b.n, k);
      WrapAgain(|s.b.ring|, s.b.r, k, s.b.n);
      FreshGrows(s.delivered, s.early, ReadBytes(s.b, s.reader.length));
      MoveOver(Fresh(s), Content(s.b.ring, s.b.r, s.b.n), k, Pending(s.worker));
    }
  }

  /**
   * A read returns the oldest bytes, as many as were asked for or as there are, and leaves the others. It wakes the
   * worker when it takes a suspended ring from resume_wm or more to below it.
   */
  lemma ReadReturnsOldest(b: Buf, length: nat)
    requires ValidBuf(b) && length <= |b.ring| && b.n <= |b.ring|
    ensures var k := if length < b.n then length else b.n;
            var after := AfterRead(b, length);
            && ValidBuf(after) && after.ring == b.ring
            && ReadBytes(b, length) == Content(b.ring, b.r, b.n)[..k]
            && after.n == b.n - k && Content(after.ring, after.r, after.n) == Content(b.ring, b.r, b.n)[k..]
            && after == b.(r := after.r, n := after.n, stat := after.stat)
            && after.stat == (if b.n > 0 && b.stat == Suspend && b.n - k < |b.ring| * 80 / 100 then Buffering else b.stat)
            && (Wakes(b, length) <==> after.stat != b.stat)
  {
    hide CopyOut, NextRead, Content;
    if b.n > 0 {
      ReadTakesOldest(b.ring, b.r, b.n, Taken(b, length));
      ReadLeavesRest(b.ring, b.r, b.n, Taken(b, length));
    } else {
      assert Taken(b, length) == 0;
      NothingToRead(b);
    }
  }

  lemma NothingToRead(b: Buf)
    requires ValidBuf(b) && b.n == 0
    ensures CopyOut(b.ring, b.r, 0) == [] == Content(b.ring, b.r, 0)
  {
  }

  lemma FreshGrows(delivered: seq<int>, early: nat, more: seq<int>)
    requires early <= |delivered|
    ensures (delivered + more)[early..] == delivered[early..] + more
  {
  }

  lemma MoveOver(late: seq<int>, c: seq<int>, k: nat, pending: seq<int>)
    requires k <= |c|
    ensures late + c + pending == (late + c[..k]) + c[k..] + pending
  {
    assert c == c[..k] + c[k..];
  }

  lemma WrapAgain(size: nat, r: nat, k: nat, n: nat)
    requires r < size && k <= n <= size
    ensures Wrap(size, Wrap(size, r + k) + (n - k)) == Wrap(size, r + n)
  {
  }

  lemma SaveStored(s: System)
    requires Sized(s) && Stored(s) && Jobs(s) && Resumes(s) && s.worker.Save?
    ensures Stored(Next(s, SaveBlock))
  {
    hide Content, CopyIn, CopyOut, NextRead, NextSave, Wrap;
    var t := Next(s, SaveBlock);
    if !Overrun(t) {
      WriteIsFifo(s.b.ring, s.b.r, s.b.n, s.b.w, s.worker.block);
    }
  }

  lemma FetchStored(s: System, block: seq<int>)
    requires Sized(s) && Stored(s) && Jobs(s) && Resumes(s) && Enabled(s, Fetch(block))
    ensures Stored(Next(s, Fetch(block)))
  {
    hide Content;
    assert s.fetched + block == s.fetched + [] + block;
  }

  lemma OtherStored(s: System, a: Action)
    requires |s.b.ring| >= 5 * BLOCK_SIZE
    requires Inv(s) && Enabled(s, a) && !a.Copy? && !a.SaveBlock? && !a.Fetch?
    ensures Stored(Next(s, a))
  {
    hide CopyIn, CopyOut, NextRead, NextSave, ResumeMark, ReadyMark, Readies;
    ResumeLeavesRoom(|s.b.ring|);
  }

  lemma NextStored(s: System, a: Action)
    requires |s.b.ring| >= 5 * BLOCK_SIZE
    requires Inv(s) && Enabled(s, a)
    ensures ValidBuf(Next(s, a).b) && Stored(Next(s, a))
  {
    hide Next, Stored, Jobs, Resumes, Readies;
    NextSized(s, a);
    if a.Copy? {
      CopyStored(s);
    } else if a.SaveBlock? {
      SaveStored(s);
    } else if a.Fetch? {
      FetchStored(s, a.block);
    } else {
      OtherStored(s, a);
    }
  }

  lemma NextInv(s: System, a: Action)
    requires |s.b.ring| >= 5 * BLOCK_SIZE
    requires Inv(s) && Enabled(s, a)
    ensures Inv(Next(s, a)) && |Next(s, a).b.ring| == |s.b.ring|
  {
    hide Sized, Jobs, Resumes, Readies, Stored, Next, Enabled;
    NextSized(s, a);
    NextJobs(s, a);
    NextResumes(s, a);
    NextReadies(s, a);
    NextStored(s, a);
  }
}
