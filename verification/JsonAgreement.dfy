/** One step of the table machine is one step of the tree reader. */
module JsonAgreement {
  import opened JsonMachine
  import opened JsonGrammar
  import opened JsonPrefix
  import opened JsonReader
  import opened JsonSteps

  /** The machine in the state of z takes c just as the reader at z does. Outside strings, a reader that has
      stopped only says something about a machine that takes no comments. */
  ghost predicate Agrees(cfg: Config, z: Prefix, before: State, c: int) {
    match Advance(cfg.depth, z, c)
    case Some(z1) => Step(cfg, StateOf(z, before), c) == Accept(StateOf(z1, before))
    case None => !cfg.allowComments || z.here.InString? ==> Step(cfg, StateOf(z, before), c).Reject?
  }

  lemma {:induction sp} StackShape(sp: Spine)
    ensures |SpineStack(sp)| == Depth(sp) + 1
    ensures sp.Root? || SpineStack(sp)[..|SpineStack(sp)| - 1] == SpineStack(sp.up)
  {
  }

  // ---------- Before a value or key ----------

  lemma GapAccepts(cfg: Config, sp: Spine, pre: seq<int>, before: State, c: int)
    requires ValidConfig(cfg) && WellFormedPrefix(cfg, Prefix(sp, Gap(pre))) && c >= 0
    requires ReadGap(cfg.depth, sp, pre, c).Some?
    ensures Step(cfg, HereState(sp, Gap(pre), before), c) ==
            Accept(StateOf(ReadGap(cfg.depth, sp, pre, c).value, before))
  {
    hide Step, StepClass, AddChar, Table, Classify, Perform;
    var s := HereState(sp, Gap(pre), before);
    var z1 := ReadGap(cfg.depth, sp, pre, c).value;
    StackShape(sp);
    if IsBlankChar(c) {
      StepBlankIdle(cfg, s, c);
    } else if c == QUOTE {
      StepQuote(cfg, s);
    } else if c == RCURB {
      StepEmptyObject(cfg, s);
      assert s.events + [ObjectEnd] == SpineTrace(sp.up) + [ObjectBegin, ObjectEnd];
    } else if c == LSQRB || c == LCURB {
      StepOpen(cfg, s, c);
    } else if c == RSQRB {
      StepClose(cfg, s, c);
      assert s.events + [] + [ArrayEnd] == SpineTrace(sp.up) + [ArrayBegin, ArrayEnd];
    } else {
      StepScalar(cfg, s, c);
      assert z1.here.InNumber? ==> NumberText(z1.here.n) == [c];
      assert z1.here.InWord? ==> WordText(z1.here.w)[..1] == [c];
    }
  }

  lemma GapRejects(cfg: Config, sp: Spine, pre: seq<int>, before: State, c: int)
    requires ValidConfig(cfg) && WellFormedPrefix(cfg, Prefix(sp, Gap(pre))) && c >= 0 && !cfg.allowComments
    requires ReadGap(cfg.depth, sp, pre, c).None?
    ensures Step(cfg, HereState(sp, Gap(pre), before), c).Reject?
  {
    hide Step, StepClass, AddChar, Table, Classify, Perform;
    var s := HereState(sp, Gap(pre), before);
    StackShape(sp);
    if !sp.InKey? && (c == LSQRB || c == LCURB) {
      StepOpen(cfg, s, c);
    } else {
      match sp
      case Root => StartRefuses(cfg, s, c);
      case InKey(_, _, _) => KeyRefuses(cfg, s, c);
      case _ => ValueRefuses(cfg, s, c);
    }
  }

  // ---------- Inside a string ----------

  /** What the decoder does with the first unit of an escape. */
  lemma FirstUnit(tail: seq<int>, c: int)
    requires EscapeTail(tail) && |tail| == 5 && IsHex(c)
    ensures var t := tail + [c];
            AllHex(tail[2..] + [c]) && AllHex(t[2..6]) && tail[2..] + [c] == t[2..6] &&
            match DecodeUnit(0, UnitOf(tail[2..] + [c]))
            case None => FirstPiece(t).None? && !EscapeTail(t)
            case Some(r) => if r.1 == 0 then FirstPiece(t) == Some((6, r.0))
                            else r.0 == [] && FirstPiece(t).None? && EscapeTail(t) && TailHigh(t) == r.1
  {
    hide EncodeWithTrail, Utf8;
    var t := tail + [c];
    assert tail[2..5] == tail[2..];
    assert t[2..6] == tail[2..] + [c];
    UnitRange(t[2..6]);
    EncodeIsUtf8(UnitOf(t[2..6]));
  }

  lemma SecondUnit(tail: seq<int>, c: int)
    requires EscapeTail(tail) && |tail| == 11 && IsHex(c)
    ensures var t := tail + [c];
            AllHex(tail[8..] + [c]) &&
            match DecodeUnit(TailHigh(tail), UnitOf(tail[8..] + [c]))
            case None => FirstPiece(t).None? && !EscapeTail(t)
            case Some(r) => r.1 == 0 && FirstPiece(t) == Some((12, r.0))
  {
    hide EncodeWithTrail, Utf8;
    var t := tail + [c];
    assert t[2..6] == tail[2..6] && t[6..][2..6] == tail[8..] + [c];
    assert StartsUnit(t[6..]);
    var hi, lo := UnitOf(t[2..6]), UnitOf(tail[8..] + [c]);
    UnitRange(t[6..][2..6]);
    if IsLowSurrogate(lo) {
      EncodeIsUtf8(SurrogatePair(hi, lo));
    }
  }

  lemma PlainAgrees(cfg: Config, sp: Spine, pre: seq<int>, raw: seq<int>, before: State, c: int)
    requires WellFormedPrefix(cfg, Prefix(sp, InString(pre, raw, []))) && c >= 0
    ensures Agrees(cfg, Prefix(sp, InString(pre, raw, [])), before, c)
  {
    hide Step, StepClass, AddChar, Table, Classify, Perform;
    var s := HereState(sp, InString(pre, raw, []), before);
    assert s.buf == Payload(raw);
    StackShape(sp);
    if c == QUOTE {
      StepEndString(cfg, s);
    } else if c == BACKS {
      StepBackslash(cfg, s);
    } else if IsPlain(c) {
      EscapeStarts(c);
      UnescapePiece(raw, [c]);
      StepPlain(cfg, s, c);
      assert Payload(raw) + [c % 256] + [] == Payload(raw) + [c % 256];
    } else {
      StringRefuses(cfg, s, c);
    }
  }

  /** The machine state in the middle of an escape. */
  lemma EscapedAgrees(cfg: Config, sp: Spine, pre: seq<int>, raw: seq<int>, before: State, c: int)
    requires WellFormedPrefix(cfg, Prefix(sp, InString(pre, raw, [BACKS]))) && c >= 0
    ensures Agrees(cfg, Prefix(sp, InString(pre, raw, [BACKS])), before, c)
  {
    hide Step, StepClass, AddChar, Table, Classify, Perform;
    var s := HereState(sp, InString(pre, raw, [BACKS]), before);
    var t := [BACKS] + [c];
    assert s.buf == Payload(raw) + [BACKS] && s.buf[..|s.buf| - 1] == Payload(raw);
    StepEscaped(cfg, s, c);
    if c == LOW_U {
      assert s.buf + [LOW_U] == Payload(raw) + t;
    } else if SimpleEscape(c).Some? {
      assert FirstPiece(t) == Some((2, [SimpleEscape(c).value]));
      UnescapePiece(raw, t);
      assert Payload(raw + t) + [] == Payload(raw) + [SimpleEscape(c).value];
    }
  }

  /** A digit that does not complete a unit only lengthens the tail. */
  lemma DigitTail(tail: seq<int>, c: int)
    requires EscapeTail(tail) && (2 <= |tail| < 5 || 8 <= |tail| < 11)
    ensures FirstPiece(tail + [c]).None?
    ensures EscapeTail(tail + [c]) <==> IsHex(c)
    ensures IsHex(c) ==> TailHigh(tail + [c]) == TailHigh(tail)
  {
    var t := tail + [c];
    if |tail| < 5 {
      assert tail[2..|tail|] == tail[2..];
      assert t[2..|t|] == tail[2..] + [c];
    } else {
      assert t[2..6] == tail[2..6] && t[8..] == tail[8..] + [c];
      assert AllHex(t[8..]) ==> IsHex(t[8..][|tail| - 8]);
    }
    if |tail| < 5 && EscapeTail(t) {
      assert IsHex(t[2..|t|][|tail| - 2]);
    }
  }

  lemma DigitAgrees(cfg: Config, sp: Spine, pre: seq<int>, raw: seq<int>, tail: seq<int>, before: State, c: int)
    requires WellFormedPrefix(cfg, Prefix(sp, InString(pre, raw, tail))) && c >= 0
    requires 2 <= |tail| < 5 || 8 <= |tail| < 11
    ensures Agrees(cfg, Prefix(sp, InString(pre, raw, tail)), before, c)
  {
    hide Step, StepClass, AddChar, Table, Classify, Perform, EscapeTail, TailHigh, FirstPiece;
    var s := HereState(sp, InString(pre, raw, tail), before);
    DigitTail(tail, c);
    if IsHex(c) {
      StepDigit(cfg, s, c);
      assert |tail| >= 8 ==> (tail + [c])[6..] == tail[6..] + [c];
      AppendAppend(Payload(raw), if |tail| < 6 then tail else tail[6..], c);
    } else {
      DigitRefuses(cfg, s, c);
    }
  }

  lemma UnitAgrees(cfg: Config, sp: Spine, pre: seq<int>, raw: seq<int>, tail: seq<int>, before: State, c: int)
    requires WellFormedPrefix(cfg, Prefix(sp, InString(pre, raw, tail))) && c >= 0 && |tail| == 5
    ensures Agrees(cfg, Prefix(sp, InString(pre, raw, tail)), before, c)
  {
    hide Step, StepClass, AddChar, Table, Classify, Perform, FirstPiece, DecodeUnit, EscapeTail, Unescape, WellFormedSpine;
    var s := HereState(sp, InString(pre, raw, tail), before);
    var t := tail + [c];
    assert s.buf[|s.buf| - 3..] == tail[2..] && s.buf[..|s.buf| - 5] == Payload(raw);
    assert AllHex(tail[2..]) by { TailDigits(tail, c); }
    if IsHex(c) {
      FirstUnit(tail, c);
      StepUnit(cfg, s, c);
      if FirstPiece(t).Some? {
        UnescapePiece(raw, t);
        assert Payload(raw + t) + [] == Payload(raw + t);
      } else if EscapeTail(t) {
        assert t[6..] == [];
      }
    } else {
      TailDigits(tail, c);
      DigitRefuses(cfg, s, c);
    }
  }

  lemma TailDigits(tail: seq<int>, c: int)
    requires EscapeTail(tail) && (|tail| == 5 || |tail| == 11)
    ensures |tail| == 5 ==> AllHex(tail[2..])
    ensures |tail| == 11 ==> AllHex(tail[8..])
    ensures !IsHex(c) ==> FirstPiece(tail + [c]).None? && !EscapeTail(tail + [c])
  {
    var t := tail + [c];
    if |tail| == 5 {
      assert tail[2..5] == tail[2..];
      assert t[2..6][3] == c;
    } else {
      assert t[6..][2..6][3] == c;
    }
  }

  lemma PairAgrees(cfg: Config, sp: Spine, pre: seq<int>, raw: seq<int>, tail: seq<int>, before: State, c: int)
    requires WellFormedPrefix(cfg, Prefix(sp, InString(pre, raw, tail))) && c >= 0 && |tail| == 11
    ensures Agrees(cfg, Prefix(sp, InString(pre, raw, tail)), before, c)
  {
    hide Step, StepClass, AddChar, Table, Classify, Perform, FirstPiece, DecodeUnit, EscapeTail;
    var s := HereState(sp, InString(pre, raw, tail), before);
    var t := tail + [c];
    assert s.buf[|s.buf| - 3..] == tail[8..] && s.buf[..|s.buf| - 5] == Payload(raw);
    TailDigits(tail, c);
    if IsHex(c) {
      SecondUnit(tail, c);
      StepUnit(cfg, s, c);
      if FirstPiece(t).Some? {
        UnescapePiece(raw, t);
        assert Payload(raw + t) + [] == Payload(raw + t);
      }
    } else {
      DigitRefuses(cfg, s, c);
    }
  }

  lemma BetweenAgrees(cfg: Config, sp: Spine, pre: seq<int>, raw: seq<int>, tail: seq<int>, before: State, c: int)
    requires WellFormedPrefix(cfg, Prefix(sp, InString(pre, raw, tail))) && c >= 0 && 6 <= |tail| < 8
    ensures Agrees(cfg, Prefix(sp, InString(pre, raw, tail)), before, c)
  {
    hide Step, StepClass, AddChar, Table, Classify, Perform;
    var s := HereState(sp, InString(pre, raw, tail), before);
    var t := tail + [c];
    assert t[2..6] == tail[2..6] && t[6..] == tail[6..] + [c];
    StepBetween(cfg, s, c);
    AppendAppend(Payload(raw), tail[6..], c);
  }

  lemma StringAgrees(cfg: Config, sp: Spine, pre: seq<int>, raw: seq<int>, tail: seq<int>, before: State, c: int)
    requires WellFormedPrefix(cfg, Prefix(sp, InString(pre, raw, tail))) && c >= 0
    ensures Agrees(cfg, Prefix(sp, InString(pre, raw, tail)), before, c)
  {
    hide Agrees;
    if |tail| == 0 {
      PlainAgrees(cfg, sp, pre, raw, before, c);
    } else if |tail| == 1 {
      assert tail == [BACKS];
      EscapedAgrees(cfg, sp, pre, raw, before, c);
    } else if |tail| == 5 {
      UnitAgrees(cfg, sp, pre, raw, tail, before, c);
    } else if |tail| == 11 {
      PairAgrees(cfg, sp, pre, raw, tail, before, c);
    } else if 6 <= |tail| < 8 {
      BetweenAgrees(cfg, sp, pre, raw, tail, before, c);
    } else {
      DigitAgrees(cfg, sp, pre, raw, tail, before, c);
    }
  }

  // ---------- Inside a number or word ----------

  lemma NumberContinues(n: Number, c: int)
    requires NumberShape(n)
    ensures ExtendNumber(n, c).Some? <==> Continues(NumberState(n), c)
    ensures EndsValue(NumberState(n)) <==> WellFormedNumber(n)
    ensures InsideNumber(NumberState(n))
  {
  }

  lemma NumberExtends(cfg: Config, sp: Spine, pre: seq<int>, n: Number, before: State, c: int)
    requires WellFormedPrefix(cfg, Prefix(sp, InNumber(pre, n))) && ExtendNumber(n, c).Some?
    ensures Step(cfg, HereState(sp, InNumber(pre, n), before), c) ==
            Accept(HereState(sp, InNumber(pre, ExtendNumber(n, c).value), before))
  {
    hide Step, StepClass, AddChar, Table, Classify, Perform, NumberText;
    var s := HereState(sp, InNumber(pre, n), before);
    NumberTextExtends(n, c);
    if IsDigit(c) {
      StepNumberDigit(cfg, s, c);
    } else if s.state.FX? || s.state.FR? || s.state.E1? {
      StepExponent(cfg, s, c);
    } else {
      StepFloat(cfg, s, c);
    }
  }

  /** The event a machine owes for a complete value. */
  lemma Owed(sp: Spine, h: Here, before: State)
    requires WellFormedHere(sp, h) && Finished(h).Some?
    ensures var s, f := HereState(sp, h, before), Finished(h).value;
            s.events + PendingEvent(s.typ, s.buf) == SpineTrace(sp) + Trace(f.1, f.2)
    ensures var s := HereState(sp, h, before);
            EndsValue(s.state) && !s.escaped && !s.comment && s.high == 0 && !s.typ.T_STRING? && s.stack == SpineStack(sp)
            && s.before == before
  {
    hide SpineTrace, SpineStack, NumberText;
    match h
    case InNumber(pre, n) =>
      NumberContinues(n, 0);
      assert NumberText(n) + [] == NumberText(n);
    case AfterValue(pre, v, post) =>
    case _ =>
  }

  lemma CloseAgrees(cfg: Config, sp: Spine, h: Here, before: State, c: int)
    requires ValidConfig(cfg) && WellFormedPrefix(cfg, Prefix(sp, h)) && WellFormedHere(sp, h)
    requires Finished(h).Some? && (c == COMMA || c == RSQRB || c == RCURB)
    ensures match Close(sp, h, c)
            case Some(z1) => Step(cfg, HereState(sp, h, before), c) == Accept(StateOf(z1, before))
            case None => Step(cfg, HereState(sp, h, before), c).Reject?
  {
    hide Step, StepClass, AddChar, Table, Classify, Perform, HereState;
    var s := HereState(sp, h, before);
    Owed(sp, h, before);
    StackShape(sp);
    if c == COMMA {
      StepComma(cfg, s);
    } else {
      StepClose(cfg, s, c);
    }
    match Close(sp, h, c)
    case None =>
    case Some(z1) => ClosedState(sp, h, c, before);
  }

  /** What is known and owed before the closing character is exactly what is known after it. */
  lemma ClosedState(sp: Spine, h: Here, c: int, before: State)
    requires WellFormedHere(sp, h) && Close(sp, h, c).Some?
    ensures var f, t, z1 := Finished(h).value, StateOf(Close(sp, h, c).value, before), Close(sp, h, c).value;
      var known := SpineTrace(sp) + Trace(f.1, f.2);
      t == PState(
        if c == COMMA then (if sp.InArray? then VA else KE) else OK, before, T_NONE, false, false, 0,
        if c != COMMA then SpineStack(sp.up) else if sp.InArray? then SpineStack(sp) else SpineStack(sp.up) + [MODE_KEY],
        [], if c == COMMA then known else known + [if c == RSQRB then ArrayEnd else ObjectEnd])
  {
    hide *;
    if sp.InArray? {
      ClosedArrayState(sp, h, c, before);
    } else {
      ClosedObjectState(sp, h, c, before);
    }
  }

  lemma ClosedArrayState(sp: Spine, h: Here, c: int, before: State)
    requires WellFormedHere(sp, h) && Close(sp, h, c).Some? && sp.InArray?
    ensures var f, t, z1 := Finished(h).value, StateOf(Close(sp, h, c).value, before), Close(sp, h, c).value;
      var known := SpineTrace(sp) + Trace(f.1, f.2);
      t == PState(
        if c == COMMA then VA else OK, before, T_NONE, false, false, 0,
        if c != COMMA then SpineStack(sp.up) else SpineStack(sp),
        [], if c == COMMA then known else known + [if c == RSQRB then ArrayEnd else ObjectEnd])
  {
    hide WellFormedHere, SpineTrace, WellFormedNumber, Trace;
    var f := Finished(h).value;
    ArrayTrace(sp, f.0, f.1, f.2);
  }

  lemma ClosedObjectState(sp: Spine, h: Here, c: int, before: State)
    requires WellFormedHere(sp, h) && Close(sp, h, c).Some? && !sp.InArray?
    ensures var f, t, z1 := Finished(h).value, StateOf(Close(sp, h, c).value, before), Close(sp, h, c).value;
      var known := SpineTrace(sp) + Trace(f.1, f.2);
      t == PState(
        if c == COMMA then KE else OK, before, T_NONE, false, false, 0,
        if c != COMMA then SpineStack(sp.up) else SpineStack(sp.up) + [MODE_KEY],
        [], if c == COMMA then known else known + [if c == RSQRB then ArrayEnd else ObjectEnd])
  {
    hide WellFormedHere, SpineTrace, WellFormedNumber, Trace;
    var f := Finished(h).value;
    ObjectTrace(sp, f.0, f.1, f.2);
  }

  lemma ArrayTrace(sp: Spine, pre: seq<int>, v: Value, post: seq<int>)
    requires sp.InArray?
    ensures var more := Items(sp.items, pre, v, post);
            var known := SpineTrace(sp) + Trace(v, post);
            SpineTrace(InArray(sp.up, sp.pre, more)) == known
            && SpineTrace(sp.up) + Trace(VArray(more), []) == known + [ArrayEnd]
  {
    var up, list, tr := SpineTrace(sp.up), ItemsTrace(sp.items), Trace(v, post);
    var more := Items(sp.items, pre, v, post);
    assert ItemsTrace(more) == list + tr;
    Regroup(up, [ArrayBegin], list, tr, [ArrayEnd]);
  }

  lemma ObjectTrace(sp: Spine, pre: seq<int>, v: Value, post: seq<int>)
    requires sp.InValue?
    ensures var more := Members(sp.members, sp.kpre, sp.key, sp.kpost, pre, v, post);
            var known := SpineTrace(sp) + Trace(v, post);
            SpineTrace(InKey(sp.up, sp.pre, more)) == known
            && SpineTrace(sp.up) + Trace(VObject(more), []) == known + [ObjectEnd]
  {
    var up, list, tr := SpineTrace(sp.up), MembersTrace(sp.members), Trace(v, post);
    var key := [Key(Payload(sp.key))];
    var more := Members(sp.members, sp.kpre, sp.key, sp.kpost, pre, v, post);
    assert MembersTrace(more) == list + key + tr;
    Regroup(up, [ObjectBegin], list + key, tr, [ObjectEnd]);
    assert up + [ObjectBegin] + list + key == up + [ObjectBegin] + (list + key);
  }

  lemma Regroup(up: seq<Event>, open: seq<Event>, list: seq<Event>, tr: seq<Event>, close: seq<Event>)
    ensures up + open + list + tr == up + open + (list + tr)
    ensures up + open + list + tr + close == up + (open + (list + tr) + close)
  {
  }

  lemma NumberAgrees(cfg: Config, sp: Spine, pre: seq<int>, n: Number, before: State, c: int)
    requires ValidConfig(cfg) && WellFormedPrefix(cfg, Prefix(sp, InNumber(pre, n))) && c >= 0
    ensures Agrees(cfg, Prefix(sp, InNumber(pre, n)), before, c)
  {
    hide Step, StepClass, AddChar, Table, Classify, Perform, NumberText, ExtendNumber, NumberShape, NumberState, Close;
    var h := InNumber(pre, n);
    var s := HereState(sp, h, before);
    NumberContinues(n, c);
    if ExtendNumber(n, c).Some? {
      NumberExtends(cfg, sp, pre, n, before, c);
    } else if WellFormedNumber(n) && IsBlankChar(c) {
      StepBlankPending(cfg, s, c);
    } else if WellFormedNumber(n) && (c == COMMA || c == RSQRB || c == RCURB) {
      CloseAgrees(cfg, sp, h, before, c);
    } else {
      NoClose(sp, h, c);
      if !cfg.allowComments {
        NumberRefuses(cfg, s, c);
      }
    }
  }

  lemma NoClose(sp: Spine, h: Here, c: int)
    requires Finished(h).None? || (c != COMMA && c != RSQRB && c != RCURB)
    ensures Close(sp, h, c).None?
  {
  }

  lemma WordLetters(w: Word, k: nat, c: int)
    requires 1 <= k < |WordText(w)|
    ensures InsideWord(WordState(w, k))
    ensures c == WordText(w)[k] ==>
            LetterEdge(WordState(w, k), c, if k + 1 == |WordText(w)| then OK else WordState(w, k + 1))
    ensures c != WordText(w)[k] ==> forall next :: !LetterEdge(WordState(w, k), c, next)
    ensures WordText(w)[..k] + [WordText(w)[k]] == WordText(w)[..k + 1]
    ensures WordText(w)[..|WordText(w)|] == WordText(w)
  {
  }

  lemma WordAgrees(cfg: Config, sp: Spine, pre: seq<int>, w: Word, k: nat, before: State, c: int)
    requires WellFormedPrefix(cfg, Prefix(sp, InWord(pre, w, k))) && c >= 0
    ensures Agrees(cfg, Prefix(sp, InWord(pre, w, k)), before, c)
  {
    hide Step, StepClass, AddChar, Table, Classify, Perform, WordText, WordState, LetterEdge;
    var s := HereState(sp, InWord(pre, w, k), before);
    WordLetters(w, k, c);
    WordValueText(w);
    if c == WordText(w)[k] {
      StepLetter(cfg, s, c, if k + 1 == |WordText(w)| then OK else WordState(w, k + 1));
      assert WordText(w) + [] == WordText(w);
    } else if !cfg.allowComments {
      LetterRefuses(cfg, s, c);
    }
  }

  // ---------- After a key or a value ----------

  lemma KeyAgrees(cfg: Config, sp: Spine, pre: seq<int>, key: seq<int>, post: seq<int>, before: State, c: int)
    requires ValidConfig(cfg) && WellFormedPrefix(cfg, Prefix(sp, AfterKey(pre, key, post))) && c >= 0
    ensures Agrees(cfg, Prefix(sp, AfterKey(pre, key, post)), before, c)
  {
    hide Step, StepClass, AddChar, Table, Classify, Perform;
    var s := HereState(sp, AfterKey(pre, key, post), before);
    StackShape(sp);
    if IsBlankChar(c) {
      StepBlankIdle(cfg, s, c);
    } else if c == COLON {
      StepColon(cfg, s);
    } else if !cfg.allowComments {
      ColonRefuses(cfg, s, c);
    }
  }

  lemma ValueAgrees(cfg: Config, sp: Spine, pre: seq<int>, v: Value, post: seq<int>, before: State, c: int)
    requires ValidConfig(cfg) && WellFormedPrefix(cfg, Prefix(sp, AfterValue(pre, v, post))) && c >= 0
    ensures Agrees(cfg, Prefix(sp, AfterValue(pre, v, post)), before, c)
  {
    hide Step, StepClass, AddChar, Table, Classify, Perform, Close, Text;
    var h := AfterValue(pre, v, post);
    var s := HereState(sp, h, before);
    if IsBlankChar(c) {
      if s.typ.T_NONE? {
        StepBlankIdle(cfg, s, c);
      } else {
        StepBlankPending(cfg, s, c);
        AppendAppend(Text(v), post, c);
      }
    } else if c == COMMA || c == RSQRB || c == RCURB {
      CloseAgrees(cfg, sp, h, before, c);
    } else {
      NoClose(sp, h, c);
      if !cfg.allowComments {
        OkRefuses(cfg, s, c);
      }
    }
  }

  /** The flat step function agrees with the reader of trees on every character, in every prefix. */
  lemma StepAgrees(cfg: Config, z: Prefix, before: State, c: int)
    requires ValidConfig(cfg) && WellFormedPrefix(cfg, z)
    ensures Agrees(cfg, z, before, c)
  {
    hide Step, HereState, ReadGap, ReadString, ReadNumber, ReadWord, Close;
    if c < 0 {
      StepControl(cfg, StateOf(z, before), c);
    } else {
      match z.here
      case Gap(pre) =>
        if ReadGap(cfg.depth, z.spine, pre, c).Some? {
          GapAccepts(cfg, z.spine, pre, before, c);
        } else if !cfg.allowComments {
          GapRejects(cfg, z.spine, pre, before, c);
        }
      case InString(pre, raw, tail) => StringAgrees(cfg, z.spine, pre, raw, tail, before, c);
      case InNumber(pre, n) => NumberAgrees(cfg, z.spine, pre, n, before, c);
      case InWord(pre, w, k) => WordAgrees(cfg, z.spine, pre, w, k, before, c);
      case AfterKey(pre, key, post) => KeyAgrees(cfg, z.spine, pre, key, post, before, c);
      case AfterValue(pre, v, post) => ValueAgrees(cfg, z.spine, pre, v, post, before, c);
    }
  }
}
