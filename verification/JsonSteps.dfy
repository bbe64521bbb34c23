/** What single characters do to the machine, one action at a time. */
module JsonSteps {
  import opened JsonMachine
  import opened JsonGrammar

  /** Nothing is being read: no pending scalar, no escape, no comment. */
  predicate Idle(s: PState) {
    s.typ.T_NONE? && !s.escaped && !s.comment && s.buf == []
  }

  function FollowEdge(cfg: Config, t: PState, e: Edge, c: int): Outcome {
    match e
    case Err => Reject(SetError(t.state, c))
    case To(st) => Accept(t.(state := st))
    case Do(a) => Perform(cfg, t, a)
  }

  /** A step in two parts: what is put into the buffer, and the edge that is followed. */
  lemma StepIs(cfg: Config, s: PState, c: int, k: Class, t: PState, e: Edge)
    requires c >= 0 && Classify(c) == Some(k) && AddChar(s, c, k) == Accept(t) && Table(t.state, k) == e
    ensures Step(cfg, s, c) == FollowEdge(cfg, t, e, c)
  {
    hide Classify, AddChar, Table, Perform;
  }

  lemma StepBlankIdle(cfg: Config, s: PState, c: int)
    requires Idle(s) && IsBlankChar(c)
    requires s.state.GO? || s.state.OK? || s.state.OB? || s.state.KE? || s.state.CO? || s.state.VA? || s.state.AR?
    ensures Step(cfg, s, c) == Accept(s)
  {
    hide Step, StepClass, Perform;
    StepIs(cfg, s, c, if c == 0x20 then C_SPACE else C_WHITE, s, To(s.state));
  }

  lemma StepOpen(cfg: Config, s: PState, c: int)
    requires Idle(s) && (c == LSQRB || c == LCURB) && (s.state.GO? || s.state.VA? || s.state.AR?)
    ensures Step(cfg, s, c) ==
      if cfg.depth >= 0 && |s.stack| - 1 == cfg.depth then Reject(E_NESTING_DEPTH_REACHED)
      else if c == LSQRB then
        Accept(s.(state := AR, stack := s.stack + [MODE_ARRAY], events := s.events + [ArrayBegin]))
      else
        Accept(s.(state := OB, stack := s.stack + [MODE_KEY], events := s.events + [ObjectBegin]))
  {
    hide Step, StepClass;
    var k := if c == LSQRB then C_LSQRB else C_LCURB;
    var e := if c == LSQRB then Do(BeginArray) else Do(BeginObject);
    assert DropLast(s.buf + [c % 256]) == [];
    StepIs(cfg, s, c, k, s.(buf := s.buf + [c % 256]), e);
  }

  lemma StepQuote(cfg: Config, s: PState)
    requires Idle(s) && (s.state.OB? || s.state.KE? || s.state.VA? || s.state.AR?)
    ensures Step(cfg, s, QUOTE) == Accept(s.(typ := T_STRING, state := ST))
  {
    hide Step, StepClass;
    StepIs(cfg, s, QUOTE, C_QUOTE, s.(buf := s.buf + [QUOTE]), Do(SB));
  }

  lemma StepEmptyObject(cfg: Config, s: PState)
    requires Idle(s) && s.state.OB?
    ensures Step(cfg, s, RCURB) ==
      if Top(s.stack).MODE_KEY? && s.stack != [] then
        Accept(s.(events := s.events + [ObjectEnd], stack := s.stack[..|s.stack| - 1], state := OK))
      else Reject(E_NONE)
  {
    hide Step, StepClass;
    StepIs(cfg, s, RCURB, C_RCURB, s.(buf := s.buf + [RCURB]), Do(EmptyObject));
  }

  /** The first character of a number or word. */
  lemma StepScalar(cfg: Config, s: PState, c: int)
    requires Idle(s) && (s.state.VA? || s.state.AR?)
    requires c == MINUS || 0x30 <= c <= 0x39 || c == 0x74 || c == 0x66 || c == 0x6E
    ensures Step(cfg, s, c) == Accept(s.(buf := [c], typ := ScalarType(c), state := ScalarState(c)))
  {
    hide Step, StepClass;
    assert s.buf + [c] == [c];
    StepIs(cfg, s, c, ScalarClass(c), s.(buf := s.buf + [c]), Do(ScalarAction(c)));
  }

  function ScalarClass(c: int): Class {
    if c == MINUS then C_MINUS else if c == 0x30 then C_ZERO else if c == 0x74 then C_LOW_T
    else if c == 0x66 then C_LOW_F else if c == 0x6E then C_LOW_N else C_DIGIT
  }

  function ScalarAction(c: int): Action {
    if c == MINUS then MX else if c == 0x30 then ZX else if c == 0x74 then TR
    else if c == 0x66 then FA else if c == 0x6E then NU else IX
  }

  function ScalarType(c: int): Type {
    if c == 0x74 then T_TRUE else if c == 0x66 then T_FALSE else if c == 0x6E then T_NULL else T_INTEGER
  }

  function ScalarState(c: int): State {
    if c == MINUS then MI else if c == 0x30 then ZE else if c == 0x74 then T1
    else if c == 0x66 then F1 else if c == 0x6E then N1 else IT
  }

  /** States in which a value has been read, or a number may end. */
  predicate EndsValue(s: State) {
    s.OK? || s.ZE? || s.IT? || s.FR? || s.E3? || s.FX?
  }

  predicate Scalar(t: Type) {
    !t.T_NONE? && !t.T_STRING?
  }

  lemma StepBlankPending(cfg: Config, s: PState, c: int)
    requires IsBlankChar(c) && EndsValue(s.state) && Scalar(s.typ) && !s.escaped && !s.comment
    ensures Step(cfg, s, c) == Accept(s.(buf := s.buf + [c], state := OK))
  {
    hide Step, StepClass, Perform;
    StepIs(cfg, s, c, if c == 0x20 then C_SPACE else C_WHITE, s.(buf := s.buf + [c]), To(OK));
  }

  /** The closing bracket of a container reports the pending scalar, then the end of the container. */
  lemma StepClose(cfg: Config, s: PState, c: int)
    requires !s.escaped && !s.comment && (c == RSQRB || c == RCURB)
    requires EndsValue(s.state) || (s.state.AR? && c == RSQRB)
    ensures Step(cfg, s, c) ==
      var m := if c == RSQRB then MODE_ARRAY else MODE_OBJECT;
      if s.stack != [] && Top(s.stack) == m then
        Accept(s.(buf := [], typ := T_NONE, state := OK, stack := s.stack[..|s.stack| - 1],
          events := s.events + PendingEvent(s.typ, s.buf) + [if c == RSQRB then ArrayEnd else ObjectEnd]))
      else Reject(E_UNBALANCED_COLLECTION)
  {
    hide Step, StepClass;
    assert DropLast(s.buf + [c]) == s.buf;
    StepIs(cfg, s, c, if c == RSQRB then C_RSQRB else C_RCURB, s.(buf := s.buf + [c]),
           if c == RSQRB then Do(EndArray) else Do(EndObject));
  }

  lemma StepComma(cfg: Config, s: PState)
    requires !s.escaped && !s.comment && EndsValue(s.state) && |s.stack| - 1 <= cfg.depth
    ensures Step(cfg, s, COMMA) ==
      var ev := s.events + PendingEvent(s.typ, s.buf);
      if s.stack != [] && Top(s.stack).MODE_OBJECT? then
        Accept(s.(buf := [], typ := T_NONE, state := KE, stack := s.stack[..|s.stack| - 1] + [MODE_KEY], events := ev))
      else if Top(s.stack).MODE_ARRAY? then Accept(s.(buf := [], typ := T_NONE, state := VA, events := ev))
      else Reject(E_NONE)
  {
    hide Step, StepClass;
    assert DropLast(s.buf + [COMMA]) == s.buf;
    StepIs(cfg, s, COMMA, C_COMMA, s.(buf := s.buf + [COMMA]), Do(NextItem));
  }

  lemma StepColon(cfg: Config, s: PState)
    requires Idle(s) && s.state.CO? && |s.stack| - 1 <= cfg.depth
    ensures Step(cfg, s, COLON) ==
      if s.stack != [] && Top(s.stack).MODE_KEY? then
        Accept(s.(state := VA, stack := s.stack[..|s.stack| - 1] + [MODE_OBJECT]))
      else Reject(E_NONE)
  {
    hide Step, StepClass;
    assert DropLast(s.buf + [COLON]) == s.buf;
    StepIs(cfg, s, COLON, C_COLON, s.(buf := s.buf + [COLON]), Do(KeyDone));
  }

  /** A character of a string, number or word that changes nothing but state and buffer. */
  lemma StepTo(cfg: Config, s: PState, c: int, k: Class, st: State)
    requires c >= 0 && Classify(c) == Some(k) && Table(s.state, k) == To(st)
    requires !s.escaped && !s.comment && !s.typ.T_NONE?
    ensures Step(cfg, s, c) == Accept(s.(buf := s.buf + [c % 256], state := st))
  {
    hide Step, StepClass, Perform, Classify, Table;
    StepIs(cfg, s, c, k, s.(buf := s.buf + [c % 256]), To(st));
  }

  lemma StepErr(cfg: Config, s: PState, c: int, k: Class)
    requires c >= 0 && Classify(c) == Some(k) && !s.escaped
    requires Table(s.state, k).Err? || (Table(s.state, k) == Do(CB) && !cfg.allowComments)
    ensures Step(cfg, s, c).Reject?
  {
    hide Step, StepClass, Classify, Table;
    StepIs(cfg, s, c, k, AddChar(s, c, k).st, Table(s.state, k));
  }

  lemma StepFloat(cfg: Config, s: PState, c: int)
    requires !s.escaped && !s.comment && Scalar(s.typ)
    requires if c == POINT then s.state.ZE? || s.state.IT? else (c == 0x65 || c == 0x45) && s.state.IT?
    ensures Step(cfg, s, c) ==
      Accept(s.(buf := s.buf + [c], typ := T_FLOAT, state := if c == POINT then FX else E1))
  {
    hide Step, StepClass;
    StepIs(cfg, s, c, if c == POINT then C_POINT else if c == 0x65 then C_LOW_E else C_E, s.(buf := s.buf + [c]),
           if c == POINT then Do(DF) else Do(DE));
  }

  lemma StepEndString(cfg: Config, s: PState)
    requires s.state.ST? && s.typ.T_STRING? && !s.escaped && !s.comment
    ensures Step(cfg, s, QUOTE) ==
      match Top(s.stack)
      case MODE_KEY => Accept(s.(buf := [], typ := T_NONE, state := CO, events := s.events + [Key(s.buf)]))
      case MODE_DONE => Reject(E_NONE)
      case _ => Accept(s.(buf := [], typ := T_NONE, state := OK, events := s.events + [Str(s.buf)]))
  {
    hide Step, StepClass;
    assert DropLast(s.buf + [QUOTE]) == s.buf;
    StepIs(cfg, s, QUOTE, C_QUOTE, s.(buf := s.buf + [QUOTE]), Do(EndString));
  }

  lemma StepBackslash(cfg: Config, s: PState)
    requires s.state.ST? && s.typ.T_STRING? && !s.escaped && !s.comment
    ensures Step(cfg, s, BACKS) == Accept(s.(buf := s.buf + [BACKS], escaped := true, state := ES))
  {
    hide Step, StepClass;
    StepIs(cfg, s, BACKS, C_BACKS, s.(buf := s.buf + [BACKS]), Do(EX));
  }

  /** The character after a backslash replaces it, or becomes the u of a longer escape. */
  lemma StepEscaped(cfg: Config, s: PState, c: int)
    requires c >= 0 && s.state.ES? && s.typ.T_STRING? && s.escaped && !s.comment
    requires s.buf != [] && s.buf[|s.buf| - 1] == BACKS
    ensures c == LOW_U ==> Step(cfg, s, c) == Accept(s.(escaped := false, buf := s.buf + [LOW_U], state := U1))
    ensures SimpleEscape(c).Some? ==>
      Step(cfg, s, c) ==
        Accept(s.(escaped := false, buf := s.buf[..|s.buf| - 1] + [SimpleEscape(c).value], state := ST))
    ensures c != LOW_U && SimpleEscape(c).None? ==> Step(cfg, s, c).Reject?
  {
    hide Step, StepClass, Perform;
    match Classify(c)
    case None => StepControl(cfg, s, c);
    case Some(k) =>
      match EscapedBytes(c)
      case None => StepBadEscape(cfg, s, c, k);
      case Some(bs) =>
        assert s.buf[..|s.buf| - 1] + [BACKS, LOW_U] == s.buf + [LOW_U];
        StepIs(cfg, s, c, k, s.(escaped := false, buf := s.buf[..|s.buf| - 1] + bs), Table(ES, k));
  }

  lemma StepControl(cfg: Config, s: PState, c: int)
    requires c < 0 || Classify(c).None?
    ensures Step(cfg, s, c).Reject?
  {
    hide StepClass;
  }

  lemma StepBadEscape(cfg: Config, s: PState, c: int, k: Class)
    requires c >= 0 && Classify(c) == Some(k) && s.escaped && EscapedBytes(c).None?
    ensures Step(cfg, s, c) == Reject(E_INVALID_ESCAPE_SEQUENCE)
  {
    hide Table, Perform, Classify;
  }

  lemma HexClass(c: int)
    requires c >= 0
    ensures IsHex(c) <==> Classify(c).Some? && IsHexClass(Classify(c).value)
    ensures IsHex(c) ==> HexDigit(c) == HexValue(c)
  {
  }

  /** The last digit of a unit: the six characters are replaced by what the unit stands for. */
  lemma StepUnit(cfg: Config, s: PState, c: int)
    requires IsHex(c) && s.state.U4? && s.typ.T_STRING? && !s.escaped && !s.comment
    requires |s.buf| >= 5 && AllHex(s.buf[|s.buf| - 3..])
    ensures AllHex(s.buf[|s.buf| - 3..] + [c])
    ensures Step(cfg, s, c) ==
      match DecodeUnit(s.high, UnitOf(s.buf[|s.buf| - 3..] + [c]))
      case None => Reject(E_INVALID_UNICODE_SEQUENCE)
      case Some(r) => Accept(s.(buf := s.buf[..|s.buf| - 5] + r.0, high := r.1, state := if r.1 != 0 then D1 else ST))
  {
    hide Step, StepClass, DecodeUnit, Classify;
    HexClass(c);
    var b := s.buf + [c];
    var h := s.buf[|s.buf| - 3..] + [c];
    assert b[|b| - 4..] == h && b[..|b| - 6] == s.buf[..|s.buf| - 5];
    forall i | 0 <= i < 4 ensures HexDigit(h[i]) == HexValue(h[i]) {
      HexClass(h[i]);
    }
    assert HexUnit(h) == UnitOf(h);
    StepIs(cfg, s, c, Classify(c).value, s.(buf := b), Do(UC));
  }

  // ---------- What the states refuse ----------

  /** No edge for this character, or only the one that begins a comment. */
  lemma StepRefuses(cfg: Config, s: PState, c: int)
    requires !s.escaped && !cfg.allowComments
    requires c >= 0 ==> match Classify(c) case None => true case Some(k) => Table(s.state, k).Err? || k.C_SLASH?
    requires !s.state.ST? && !s.state.ES? && !s.state.C1? && !s.state.C2? && !s.state.C3?
    ensures Step(cfg, s, c).Reject?
  {
    hide Step, StepClass, AddChar, Classify, Perform;
    if c < 0 || Classify(c).None? {
      StepControl(cfg, s, c);
    } else {
      StepErr(cfg, s, c, Classify(c).value);
    }
  }

  lemma StartRefuses(cfg: Config, s: PState, c: int)
    requires s.state.GO? && !s.escaped && !cfg.allowComments
    requires !IsBlankChar(c) && c != LSQRB && c != LCURB
    ensures Step(cfg, s, c).Reject?
  {
    hide Step, StepClass, AddChar, Perform;
    StepRefuses(cfg, s, c);
  }

  lemma KeyRefuses(cfg: Config, s: PState, c: int)
    requires (s.state.OB? || s.state.KE?) && !s.escaped && !cfg.allowComments
    requires !IsBlankChar(c) && c != QUOTE && (s.state.OB? ==> c != RCURB)
    ensures Step(cfg, s, c).Reject?
  {
    hide Step, StepClass, AddChar, Perform;
    StepRefuses(cfg, s, c);
  }

  lemma ColonRefuses(cfg: Config, s: PState, c: int)
    requires s.state.CO? && !s.escaped && !cfg.allowComments
    requires !IsBlankChar(c) && c != COLON
    ensures Step(cfg, s, c).Reject?
  {
    hide Step, StepClass, AddChar, Perform;
    StepRefuses(cfg, s, c);
  }

  lemma ValueRefuses(cfg: Config, s: PState, c: int)
    requires (s.state.VA? || s.state.AR?) && !s.escaped && !cfg.allowComments
    requires !IsBlankChar(c) && c != QUOTE && c != LSQRB && c != LCURB && c != MINUS && !IsDigit(c)
    requires c != 0x74 && c != 0x66 && c != 0x6E && (s.state.AR? ==> c != RSQRB)
    ensures Step(cfg, s, c).Reject?
  {
    hide Step, StepClass, AddChar, Perform;
    StepRefuses(cfg, s, c);
  }

  lemma OkRefuses(cfg: Config, s: PState, c: int)
    requires s.state.OK? && !s.escaped && !cfg.allowComments
    requires !IsBlankChar(c) && c != COMMA && c != RSQRB && c != RCURB
    ensures Step(cfg, s, c).Reject?
  {
    hide Step, StepClass, AddChar, Perform;
    StepRefuses(cfg, s, c);
  }

  // ---------- Inside strings ----------

  lemma StepPlain(cfg: Config, s: PState, c: int)
    requires s.state.ST? && s.typ.T_STRING? && !s.escaped && !s.comment && IsPlain(c)
    ensures Step(cfg, s, c) == Accept(s.(buf := s.buf + [c % 256]))
  {
    hide Step, StepClass, AddChar, Perform;
    StepTo(cfg, s, c, Classify(c).value, ST);
  }

  lemma StringRefuses(cfg: Config, s: PState, c: int)
    requires s.state.ST? && !s.escaped && c < 0x20
    ensures Step(cfg, s, c).Reject?
  {
    hide Step, StepClass, AddChar, Perform;
    if c < 0 || Classify(c).None? {
      StepControl(cfg, s, c);
    } else {
      StepErr(cfg, s, c, C_WHITE);
    }
  }

  function NextDigit(s: State): State {
    if s.U1? then U2 else if s.U2? then U3 else U4
  }

  /** The first three digits of a unit. */
  lemma StepDigit(cfg: Config, s: PState, c: int)
    requires (s.state.U1? || s.state.U2? || s.state.U3?) && s.typ.T_STRING? && !s.escaped && !s.comment && IsHex(c)
    ensures Step(cfg, s, c) == Accept(s.(buf := s.buf + [c], state := NextDigit(s.state)))
  {
    hide Step, StepClass, AddChar, Perform, Classify;
    HexClass(c);
    StepTo(cfg, s, c, Classify(c).value, NextDigit(s.state));
  }

  lemma DigitRefuses(cfg: Config, s: PState, c: int)
    requires (s.state.U1? || s.state.U2? || s.state.U3? || s.state.U4?) && !s.escaped && !IsHex(c)
    ensures Step(cfg, s, c).Reject?
  {
    hide Step, StepClass, AddChar, Perform, Classify;
    if c < 0 || Classify(c).None? {
      StepControl(cfg, s, c);
    } else {
      HexClass(c);
      StepErr(cfg, s, c, Classify(c).value);
    }
  }

  /** Between the two halves of a surrogate pair. */
  lemma StepBetween(cfg: Config, s: PState, c: int)
    requires (s.state.D1? || s.state.D2?) && s.typ.T_STRING? && !s.escaped && !s.comment && c >= 0
    ensures Step(cfg, s, c) ==
      if s.state.D1? && c == BACKS then Accept(s.(buf := s.buf + [c], state := D2))
      else if s.state.D2? && c == LOW_U then Accept(s.(buf := s.buf + [c], state := U1))
      else Reject(Step(cfg, s, c).error)
  {
    hide Step, StepClass, AddChar, Perform;
    if s.state.D1? && c == BACKS {
      StepTo(cfg, s, c, C_BACKS, D2);
    } else if s.state.D2? && c == LOW_U {
      StepTo(cfg, s, c, C_LOW_U, U1);
    } else if Classify(c).None? {
      StepControl(cfg, s, c);
    } else {
      StepErr(cfg, s, c, Classify(c).value);
    }
  }

  // ---------- Inside numbers and words ----------

  function DigitTarget(s: State, c: int): State {
    if s.MI? then if c == 0x30 then ZE else IT
    else if s.IT? then IT
    else if s.FX? || s.FR? then FR
    else E3
  }

  lemma StepNumberDigit(cfg: Config, s: PState, c: int)
    requires Scalar(s.typ) && !s.escaped && !s.comment && IsDigit(c)
    requires s.state.MI? || s.state.IT? || s.state.FX? || s.state.FR? || s.state.E1? || s.state.E2? || s.state.E3?
    ensures Step(cfg, s, c) == Accept(s.(buf := s.buf + [c], state := DigitTarget(s.state, c)))
  {
    hide Step, StepClass, AddChar, Perform;
    StepTo(cfg, s, c, if c == 0x30 then C_ZERO else C_DIGIT, DigitTarget(s.state, c));
  }

  /** The exponent marker after a fraction, and the sign after the marker. */
  lemma StepExponent(cfg: Config, s: PState, c: int)
    requires Scalar(s.typ) && !s.escaped && !s.comment
    requires ((s.state.FX? || s.state.FR?) && (c == 0x65 || c == 0x45)) || (s.state.E1? && (c == PLUS || c == MINUS))
    ensures Step(cfg, s, c) == Accept(s.(buf := s.buf + [c], state := if s.state.E1? then E2 else E1))
  {
    hide Step, StepClass, AddChar, Perform;
    StepTo(cfg, s, c, if c == 0x65 then C_LOW_E else if c == 0x45 then C_E else if c == PLUS then C_PLUS else C_MINUS,
           if s.state.E1? then E2 else E1);
  }

  /** The characters that continue a number literal in a given state. */
  predicate Continues(s: State, c: int) {
    || (IsDigit(c) && !s.ZE?)
    || (c == POINT && (s.ZE? || s.IT?))
    || ((c == 0x65 || c == 0x45) && (s.IT? || s.FX? || s.FR?))
    || ((c == PLUS || c == MINUS) && s.E1?)
  }

  predicate InsideNumber(s: State) {
    s.MI? || s.ZE? || s.IT? || s.FX? || s.FR? || s.E1? || s.E2? || s.E3?
  }

  lemma NumberRefuses(cfg: Config, s: PState, c: int)
    requires InsideNumber(s.state) && !s.escaped && !cfg.allowComments
    requires !Continues(s.state, c)
    requires EndsValue(s.state) ==> !IsBlankChar(c) && c != COMMA && c != RSQRB && c != RCURB
    ensures Step(cfg, s, c).Reject?
  {
    hide Step, StepClass, AddChar, Perform, Classify;
    if c >= 0 {
      NumberRefusesClass(s.state, c);
    }
    StepRefuses(cfg, s, c);
  }

  lemma NumberRefusesClass(s: State, c: int)
    requires InsideNumber(s) && c >= 0 && !Continues(s, c)
    requires EndsValue(s) ==> !IsBlankChar(c) && c != COMMA && c != RSQRB && c != RCURB
    ensures match Classify(c) case None => true case Some(k) => Table(s, k).Err? || k.C_SLASH?
  {
    if Classify(c).Some? {
      ClassMeans(c);
    }
  }

  /** The classes that matter outside strings each stand for one set of characters. */
  lemma ClassMeans(c: int)
    requires c >= 0 && Classify(c).Some?
    ensures var k := Classify(c).value;
      && (IsBlank(k) <==> IsBlankChar(c)) && (IsDigitClass(k) <==> IsDigit(c)) && (k.C_ZERO? <==> c == 0x30)
      && (IsExponentClass(k) <==> c == 0x65 || c == 0x45) && (k.C_POINT? <==> c == POINT)
      && (k.C_PLUS? <==> c == PLUS) && (k.C_MINUS? <==> c == MINUS) && (k.C_COMMA? <==> c == COMMA)
      && (k.C_RSQRB? <==> c == RSQRB) && (k.C_RCURB? <==> c == RCURB) && (k.C_SLASH? <==> c == SLASH)
  {
  }

  /** The next letter of true, false or null. */
  lemma StepLetter(cfg: Config, s: PState, c: int, next: State)
    requires Scalar(s.typ) && !s.escaped && !s.comment && LetterEdge(s.state, c, next)
    ensures Step(cfg, s, c) == Accept(s.(buf := s.buf + [c], state := next))
  {
    hide Step, StepClass, AddChar, Perform;
    StepTo(cfg, s, c, Classify(c).value, next);
  }

  predicate LetterEdge(s: State, c: int, next: State) {
    || (s.T1? && c == 0x72 && next.T2?) || (s.T2? && c == 0x75 && next.T3?) || (s.T3? && c == 0x65 && next.OK?)
    || (s.F1? && c == 0x61 && next.F2?) || (s.F2? && c == 0x6C && next.F3?) || (s.F3? && c == 0x73 && next.F4?)
    || (s.F4? && c == 0x65 && next.OK?)
    || (s.N1? && c == 0x75 && next.N2?) || (s.N2? && c == 0x6C && next.N3?) || (s.N3? && c == 0x6C && next.OK?)
  }

  predicate InsideWord(s: State) {
    s.T1? || s.T2? || s.T3? || s.F1? || s.F2? || s.F3? || s.F4? || s.N1? || s.N2? || s.N3?
  }

  lemma LetterRefuses(cfg: Config, s: PState, c: int)
    requires InsideWord(s.state) && !s.escaped && !cfg.allowComments
    requires forall next :: !LetterEdge(s.state, c, next)
    ensures Step(cfg, s, c).Reject?
  {
    hide Step, StepClass, AddChar, Perform;
    if c >= 0 && Classify(c).Some? {
      match Table(s.state, Classify(c).value)
      case To(next) => assert !LetterEdge(s.state, c, next);
      case _ =>
    }
    StepRefuses(cfg, s, c);
  }

  // ---------- Units ----------

  /** The shifts of decode_unicode_char give the bytes of RFC 3629. */
  lemma EncodeIsUtf8(u: int)
    requires 0 <= u < 0x200000
    ensures u < 0x80 ==> EncodeWithTrail(u, 0) == Utf8(u)
    ensures 0x80 <= u < 0x800 ==> EncodeWithTrail(u, 1) == Utf8(u)
    ensures 0x800 <= u < 0x10000 ==> EncodeWithTrail(u, 2) == Utf8(u)
    ensures 0x10000 <= u ==> EncodeWithTrail(u, 3) == Utf8(u)
  {
    assert Pow64(0) == 1 && Pow64(1) == 64 && Pow64(2) == 64 * Pow64(1) && Pow64(3) == 64 * Pow64(2);
    assert TrailBytes(u, 0) == [];
    assert TrailBytes(u, 1) == [u % 64 + 0x80];
    assert TrailBytes(u, 2) == [u / 64 % 64 + 0x80, u % 64 + 0x80];
    assert TrailBytes(u, 3) == [u / 4096 % 64 + 0x80, u / 64 % 64 + 0x80, u % 64 + 0x80];
  }

  lemma UnitRange(h: seq<int>)
    requires |h| == 4 && AllHex(h)
    ensures 0 <= UnitOf(h) < 0x10000
  {
  }
}
