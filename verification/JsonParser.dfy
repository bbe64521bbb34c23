/** The parser object: fields, mode stack, growable parse buffer and callback calls, updated in place. */
module JsonParser {
  import opened JsonMachine
  import opened JsonInvariant

  const STACK_SIZE := 128
  const BUFFER_SIZE := 4096

  /** How a call's result relates to the specified outcome; an outcome without an error leaves the field alone. */
  predicate Delivers(o: Outcome, ok: bool, s: PState, was: Error, now: Error) {
    match o
    case Accept(t) => ok && s == t && now == was
    case Reject(e) => !ok && now == if e.E_NONE? then was else e
  }

  class Parser {
    const cfg: Config
    var state: State
    var before: State
    var typ: Type
    var escaped: bool
    var comment: bool
    var error: Error
    var high: int
    var top: int
    var stack: array<Mode>
    var buffer: array<int>
    var count: nat
    var events: seq<Event>

    ghost predicate Shape()
      reads this
    {
      ValidConfig(cfg) && cfg.depth < STACK_SIZE == stack.Length && -1 <= top <= cfg.depth
      && BUFFER_SIZE <= buffer.Length && count < buffer.Length
    }

    ghost function Abs(): PState
      reads this, stack, buffer
      requires Shape()
    {
      PState(state, before, typ, escaped, comment, high, stack[..top + 1], buffer[..count], events)
    }

    /** The parse buffer is a zero-terminated string. */
    ghost predicate Terminated()
      reads this, buffer
    {
      count < buffer.Length && buffer[count] == 0
    }

    ghost predicate Valid()
      reads this, stack, buffer
    {
      Shape() && Terminated() && Inv(cfg, Abs())
    }

    /** new_JSON_parser: a requested depth of 0 means 1. */
    constructor (requested: Config)
      requires 0 <= requested.depth < STACK_SIZE
      ensures Valid() && Abs() == INIT && error.E_NONE?
      ensures cfg == if requested.depth == 0 then requested.(depth := 1) else requested
      ensures fresh(stack) && fresh(buffer)
    {
      cfg := if requested.depth == 0 then requested.(depth := 1) else requested;
      state, before, typ := GO, GO, T_NONE;
      escaped, comment, error, high, top := false, false, E_NONE, 0, -1;
      stack := new Mode[STACK_SIZE](_ => MODE_DONE);
      buffer := new int[BUFFER_SIZE](_ => 0);
      count := 0;
      events := [];
      new;
      hide Inv;
      var pushed := PushMode(MODE_DONE);
      BufferClear();
      assert stack[..top + 1] == [MODE_DONE] && buffer[..count] == [];
      InitInv(cfg);
    }

    // ---------- Mode stack ----------

    method PushMode(m: Mode) returns (ok: bool)
      requires Shape()
      modifies this`top, this`error, stack
      ensures Shape()
      ensures match Push(cfg, old(stack[..top + 1]), m)
              case Some(st) => ok && stack[..top + 1] == st && error == old(error)
              case None => !ok && error.E_NESTING_DEPTH_REACHED?
    {
      if top == cfg.depth {
        error := E_NESTING_DEPTH_REACHED;
        return false;
      }
      top := top + 1;
      stack[top] := m;
      return true;
    }

    method PopMode(m: Mode) returns (ok: bool)
      requires Shape()
      modifies this`top
      ensures Shape()
      ensures match Pop(stack[..old(top) + 1], m)
              case Some(st) => ok && stack[..top + 1] == st
              case None => !ok && top == old(top)
    {
      if top < 0 || stack[top] != m {
        return false;
      }
      top := top - 1;
      return true;
    }

    // ---------- Parse buffer ----------

    method BufferClear()
      requires Shape()
      modifies this`count, buffer
      ensures Shape() && Terminated() && count == 0 && Abs() == old(Abs()).(buf := [])
    {
      count := 0;
      buffer[0] := 0;
      assert buffer[..count] == [];
    }

    method PopBackChar()
      requires Shape() && count >= 1
      modifies this`count, buffer
      ensures Shape() && Terminated() && Abs() == DropChar(old(Abs())) && count == old(count) - 1
    {
      count := count - 1;
      buffer[count] := 0;
      assert buffer[..count] == DropLast(old(buffer[..count]));
    }

    method PushBackChar(c: int)
      requires Shape() && count + 2 <= buffer.Length
      modifies this`count, buffer
      ensures Shape() && Terminated() && buffer[..count] == old(buffer[..count]) + [c] && count == old(count) + 1
    {
      buffer[count] := c;
      count := count + 1;
      buffer[count] := 0;
    }

    method BufferGrow()
      requires Shape()
      modifies this`buffer
      ensures Shape() && fresh(buffer) && buffer.Length == 2 * old(buffer.Length)
      ensures buffer[..count] == old(buffer[..count])
    {
      var mem := new int[2 * buffer.Length];
      var i := 0;
      while i < count
        invariant 0 <= i <= count && mem[..i] == buffer[..i]
        modifies mem
      {
        mem[i] := buffer[i];
        i := i + 1;
      }
      buffer := mem;
    }

    /** Doubles the buffer until there is room for the characters and the terminator. */
    method BufferReserve(chars: nat)
      requires Shape()
      modifies this`buffer
      ensures Shape() && count + chars + 1 <= buffer.Length && buffer[..count] == old(buffer[..count])
      ensures buffer == old(buffer) || fresh(buffer)
      ensures count + chars + 1 <= old(buffer.Length) ==> buffer == old(buffer)
    {
      while count + chars + 1 > buffer.Length
        invariant Shape() && buffer[..count] == old(buffer[..count])
        invariant buffer == old(buffer) || fresh(buffer)
        invariant count + chars + 1 <= old(buffer.Length) ==> buffer == old(buffer)
        decreases count + chars + 1 - buffer.Length
      {
        BufferGrow();
      }
    }

    /** parse_parse_buffer: reports the pending scalar, if any, and clears the buffer. */
    method ReportPending()
      requires Shape()
      modifies this`events, this`count, buffer
      ensures Shape() && Terminated() && count == 0 && Abs() == Flush(old(Abs()))
    {
      match typ {
        case T_NONE =>
        case T_INTEGER => events := events + [Integer(buffer[..count])];
        case T_FLOAT => events := events + [Float(buffer[..count])];
        case T_NULL => events := events + [Null];
        case T_TRUE => events := events + [True];
        case T_FALSE => events := events + [False];
        case T_STRING => events := events + [Str(buffer[..count])];
      }
      BufferClear();
      assert buffer[..count] == [];
    }

    /** Takes the delimiter that has just arrived out of the buffer and reports what came before it. */
    method ReportBefore()
      requires Shape() && count >= 1
      modifies this`events, this`count, buffer
      ensures Shape() && Terminated() && count == 0 && Abs() == Flush(DropChar(old(Abs())))
    {
      hide Flush, DropChar;
      PopBackChar();
      ReportPending();
    }

    /** The unit that the last four characters of the buffer spell. */
    method UnitValue() returns (u: int)
      requires Shape() && AssertionsHold(Abs(), UC)
      ensures u == HexUnit(buffer[count - 4..count])
    {
      assert count >= 6;
      var p := count - 4;
      var h := buffer[p..count];
      var i, weight := 0, 4096;
      u := 0;
      while i < 4
        invariant 0 <= i <= 4
        invariant weight == if i == 0 then 4096 else if i == 1 then 256 else if i == 2 then 16 else if i == 3 then 1 else 0
        invariant u == (if i > 0 then HexDigit(h[0]) * 4096 else 0) + (if i > 1 then HexDigit(h[1]) * 256 else 0)
                       + (if i > 2 then HexDigit(h[2]) * 16 else 0) + (if i > 3 then HexDigit(h[3]) else 0)
      {
        var x := buffer[p + i];
        assert x == h[i] == buffer[..count][p + i];
        if x >= 0x61 {
          x := x - (0x61 - 10);
        } else if x >= 0x41 {
          x := x - (0x41 - 10);
        } else {
          x := x / 64 * 64 + x % 16;
        }
        assert 0 <= x < 16;
        u := u + x * weight;
        weight := weight / 16;
        i := i + 1;
      }
    }

    /** The lead byte and the continuation bytes of a character. */
    method AppendEncoded(u: int, trail: nat)
      requires Shape() && trail < 4 && count + 6 < buffer.Length
      modifies this`count, buffer
      ensures Shape() && Terminated() && buffer[..count] == old(buffer[..count]) + EncodeWithTrail(u, trail)
    {
      ghost var kept := buffer[..count];
      var lead := [u / Pow64(trail) + LEAD_BITS[trail]];
      buffer[count] := lead[0];
      count := count + 1;
      assert buffer[..count] == kept + lead;
      var j := trail;
      while j > 0
        invariant Shape() && 0 <= j <= trail && count == |kept| + 1 + (trail - j) && |kept| + 6 < buffer.Length
        invariant buffer[..count] + TrailBytes(u, j) == kept + lead + TrailBytes(u, trail)
      {
        var b := u / Pow64(j - 1) % 64 + 0x80;
        ghost var was := buffer[..count];
        buffer[count] := b;
        count := count + 1;
        assert buffer[..count] == was + [b];
        assert was + [b] + TrailBytes(u, j - 1) == was + ([b] + TrailBytes(u, j - 1));
        j := j - 1;
      }
      assert buffer[..count] + [] == buffer[..count];
      buffer[count] := 0;
    }

    /** decode_unicode_char once the escape is off the buffer: the unit's bytes, or the first half of a pair. */
    method DecodeUnitValue(unit: int) returns (ok: bool)
      requires Shape() && Terminated() && count + 6 < buffer.Length
      modifies this`count, this`high, buffer
      ensures Shape()
      ensures match DecodeUnit(old(high), unit)
              case None => !ok
              case Some(r) => ok && Terminated() && high == r.1 && buffer[..count] == old(buffer[..count]) + r.0
    {
      hide EncodeWithTrail;
      var u := unit;
      var trail: nat := 0;
      if high != 0 {
        if !IsLowSurrogate(u) {
          return false;
        }
        u := SurrogatePair(high, u);
        trail := 3;
        high := 0;
      } else if u < 0x80 {
        trail := 0;
      } else if u < 0x800 {
        trail := 1;
      } else if IsHighSurrogate(u) {
        high := u;
        return true;
      } else if IsLowSurrogate(u) {
        return false;
      } else {
        trail := 2;
      }
      AppendEncoded(u, trail);
      return true;
    }

    /** decode_unicode_char: replaces the six characters of a unit escape by what the unit stands for. */
    method DecodeUnicodeChar() returns (ok: bool)
      requires Shape() && AssertionsHold(Abs(), UC)
      modifies this`count, this`high, buffer
      ensures Shape()
      ensures match DecodeUnicode(old(Abs()))
              case None => !ok
              case Some(t) => ok && Terminated() && Abs() == t
    {
      hide DecodeUnit;
      var u := UnitValue();
      assert buffer[..count][count - 4..] == buffer[count - 4..count];
      assert buffer[..count][..count - 6] == buffer[..count - 6];
      count := count - 6;
      buffer[count] := 0;
      ok := DecodeUnitValue(u);
    }

    /** The character after a backslash takes its place. */
    method AddEscapedChar(c: int) returns (ok: bool)
      requires Shape() && count >= 1 && count + 2 <= buffer.Length
      modifies this`escaped, this`count, buffer
      ensures Shape() && !escaped
      ensures match EscapedBytes(c)
              case None => !ok
              case Some(bs) => ok && Terminated() && buffer[..count] == DropLast(old(buffer[..count])) + bs
    {
      escaped := false;
      PopBackChar();
      if c == 0x62 {
        PushBackChar(0x08);
      } else if c == 0x66 {
        PushBackChar(0x0C);
      } else if c == 0x6E {
        PushBackChar(0x0A);
      } else if c == 0x72 {
        PushBackChar(0x0D);
      } else if c == 0x74 {
        PushBackChar(0x09);
      } else if c == QUOTE || c == BACKS || c == SLASH {
        PushBackChar(c);
      } else if c == LOW_U {
        PushBackChar(BACKS);
        PushBackChar(LOW_U);
      } else {
        return false;
      }
      return true;
    }

    method AddCharToBuffer(c: int, k: Class) returns (ok: bool)
      requires Valid()
      modifies this`buffer, this`error, this`escaped, this`count, buffer
      ensures Shape() && (buffer == old(buffer) || fresh(buffer))
      ensures ok ==> Terminated()
      ensures Delivers(AddChar(old(Abs()), c, k), ok, if ok then Abs() else INIT, old(error), error)
    {
      EscapeHasBackslash(cfg, Abs());
      QuietBuffer(cfg, Abs());
      BufferReserve(1);
      if escaped {
        ok := AddEscapedChar(c);
        if !ok {
          error := E_INVALID_ESCAPE_SEQUENCE;
        }
        return ok;
      } else if !comment {
        if typ != T_NONE || !(k.C_SPACE? || k.C_WHITE?) {
          PushBackChar(c % 256);
        }
      }
      return true;
    }

    // ---------- Actions ----------

    method OnUnit() returns (ok: bool)
      requires Shape() && AssertionsHold(Abs(), UC)
      modifies this`count, this`high, this`state, this`error, buffer
      ensures Shape() && (ok ==> Terminated())
      ensures Delivers(Perform(cfg, old(Abs()), UC), ok, if ok then Abs() else INIT, old(error), error)
    {
      ok := DecodeUnicodeChar();
      if !ok {
        error := E_INVALID_UNICODE_SEQUENCE;
        return false;
      }
      if high != 0 {
        state := D1;
      } else {
        state := ST;
      }
    }

    /** The actions that begin a scalar, an escape or a fraction or exponent. */
    method OnBegin(a: Action)
      requires Shape() && Terminated() && AssertionsHold(Abs(), a)
      requires a.EX? || a.MX? || a.ZX? || a.IX? || a.DE? || a.DF? || a.SB? || a.NU? || a.FA? || a.TR?
      modifies this`state, this`typ, this`escaped, this`count, buffer
      ensures Shape() && Terminated() && Perform(cfg, old(Abs()), a) == Accept(Abs())
    {
      match a {
        case EX =>
          escaped := true;
          state := ES;
        case MX =>
          typ := T_INTEGER;
          state := MI;
        case ZX =>
          typ := T_INTEGER;
          state := ZE;
        case IX =>
          typ := T_INTEGER;
          state := IT;
        case DE =>
          assert !typ.T_FALSE? && !typ.T_TRUE? && !typ.T_NULL? && !typ.T_STRING?;
          typ := T_FLOAT;
          state := E1;
        case DF =>
          assert !typ.T_FALSE? && !typ.T_TRUE? && !typ.T_NULL? && !typ.T_STRING?;
          if !cfg.manualFloats {
            assert buffer[..count][count - 1] == POINT;
            buffer[count - 1] := POINT;
          }
          typ := T_FLOAT;
          state := FX;
        case SB =>
          BufferClear();
          assert typ.T_NONE?;
          typ := T_STRING;
          state := ST;
        case NU =>
          assert typ.T_NONE?;
          typ := T_NULL;
          state := N1;
        case FA =>
          assert typ.T_NONE?;
          typ := T_FALSE;
          state := F1;
        case TR =>
          assert typ.T_NONE?;
          typ := T_TRUE;
          state := T1;
      }
    }

    method OnCommentEnd()
      requires Shape() && Terminated() && AssertionsHold(Abs(), CE)
      modifies this`comment, this`state
      ensures Shape() && Terminated() && Perform(cfg, old(Abs()), CE) == Accept(Abs())
    {
      comment := false;
      assert |buffer[..count]| == 0;
      assert count == 0 && typ.T_NONE?;
      state := before;
    }

    method OnCommentBegin() returns (ok: bool)
      requires Shape() && top >= 0 && count >= 1 && !typ.T_STRING?
      modifies this`count, this`events, this`before, this`typ, this`state, this`comment, buffer
      ensures Shape() && (ok ==> Terminated())
      ensures Delivers(BeginComment(cfg, old(Abs())), ok, if ok then Abs() else INIT, old(error), error)
    {
      hide Flush, DropChar;
      if !cfg.allowComments {
        return false;
      }
      assert Top(stack[..top + 1]) == stack[top];
      ReportBefore();
      assert count == 0 && !typ.T_STRING?;
      match stack[top] {
        case MODE_ARRAY => before := if state.VA? || state.AR? then state else OK;
        case MODE_OBJECT => before := if state.VA? || state.AR? then state else OK;
        case _ => before := state;
      }
      typ := T_NONE;
      state := C1;
      comment := true;
      return true;
    }

    method OnEmptyObject() returns (ok: bool)
      requires Shape()
      modifies this`count, this`events, this`top, this`state, buffer
      ensures Shape() && (ok ==> Terminated())
      ensures Delivers(EmptyObjectAction(old(Abs())), ok, if ok then Abs() else INIT, old(error), error)
    {
      BufferClear();
      events := events + [ObjectEnd];
      ok := PopMode(MODE_KEY);
      if !ok {
        return false;
      }
      state := OK;
    }

    method OnClose(m: Mode, e: Event) returns (ok: bool)
      requires Shape() && count >= 1
      modifies this`count, this`events, this`top, this`typ, this`state, this`error, buffer
      ensures Shape() && (ok ==> Terminated())
      ensures Delivers(CloseContainer(old(Abs()), m, e), ok, if ok then Abs() else INIT, old(error), error)
    {
      hide Flush, DropChar;
      ReportBefore();
      events := events + [e];
      ok := PopMode(m);
      if !ok {
        error := E_UNBALANCED_COLLECTION;
        return false;
      }
      typ := T_NONE;
      state := OK;
    }

    method OnOpen(m: Mode, e: Event, next: State) returns (ok: bool)
      requires Shape() && count >= 1 && typ.T_NONE?
      modifies this`count, this`events, this`top, this`state, this`error, buffer, stack
      ensures Shape() && (ok ==> Terminated())
      ensures Delivers(OpenContainer(cfg, old(Abs()), m, e, next), ok, if ok then Abs() else INIT, old(error), error)
    {
      PopBackChar();
      events := events + [e];
      ok := PushMode(m);
      if !ok {
        return false;
      }
      assert typ.T_NONE?;
      state := next;
    }

    method OnStringEnd() returns (ok: bool)
      requires Shape() && top >= 0 && count >= 1 && typ.T_STRING?
      modifies this`count, this`events, this`typ, this`state, buffer
      ensures Shape() && (ok ==> Terminated())
      ensures Delivers(FinishString(old(Abs())), ok, if ok then Abs() else INIT, old(error), error)
    {
      hide Flush, DropChar;
      assert Top(stack[..top + 1]) == stack[top];
      PopBackChar();
      match stack[top] {
        case MODE_KEY =>
          assert typ.T_STRING?;
          typ := T_NONE;
          state := CO;
          events := events + [Key(buffer[..count])];
          BufferClear();
        case MODE_DONE =>
          return false;
        case _ =>
          assert typ.T_STRING?;
          ReportPending();
          typ := T_NONE;
          state := OK;
      }
      return true;
    }

    method OnComma() returns (ok: bool)
      requires Shape() && top >= 0 && count >= 1 && !typ.T_STRING?
      modifies this`count, this`events, this`typ, this`state, this`top, this`error, buffer, stack
      ensures Shape() && (ok ==> Terminated())
      ensures Delivers(NextElement(cfg, old(Abs())), ok, if ok then Abs() else INIT, old(error), error)
    {
      hide Flush, DropChar;
      assert Top(stack[..top + 1]) == stack[top];
      ReportBefore();
      match stack[top] {
        case MODE_OBJECT =>
          ok := PopMode(MODE_OBJECT);
          if !ok {
            return false;
          }
          ok := PushMode(MODE_KEY);
          if !ok {
            return false;
          }
          assert !typ.T_STRING?;
          typ := T_NONE;
          state := KE;
        case MODE_ARRAY =>
          assert !typ.T_STRING?;
          typ := T_NONE;
          state := VA;
        case _ =>
          return false;
      }
      return true;
    }

    method OnColon() returns (ok: bool)
      requires Shape() && count >= 1 && typ.T_NONE?
      modifies this`count, this`state, this`top, this`error, buffer, stack
      ensures Shape() && (ok ==> Terminated())
      ensures Delivers(ColonAction(cfg, old(Abs())), ok, if ok then Abs() else INIT, old(error), error)
    {
      PopBackChar();
      ok := PopMode(MODE_KEY);
      if !ok {
        return false;
      }
      ok := PushMode(MODE_OBJECT);
      if !ok {
        return false;
      }
      assert typ.T_NONE?;
      state := VA;
    }

    method Dispatch(a: Action) returns (ok: bool)
      requires Shape() && Terminated() && top >= 0 && AssertionsHold(Abs(), a)
      modifies this, buffer, stack
      ensures Shape() && buffer == old(buffer) && stack == old(stack) && (ok ==> Terminated())
      ensures Delivers(Perform(cfg, old(Abs()), a), ok, if ok then Abs() else INIT, old(error), error)
    {
      hide BeginComment, EmptyObjectAction, CloseContainer, OpenContainer, FinishString, NextElement, ColonAction, DecodeUnicode;
      assert |buffer[..count]| == count;
      match a {
        case UC => ok := OnUnit();
        case CE => OnCommentEnd(); ok := true;
        case CB => ok := OnCommentBegin();
        case EmptyObject => ok := OnEmptyObject();
        case EndObject => ok := OnClose(MODE_OBJECT, ObjectEnd);
        case EndArray => ok := OnClose(MODE_ARRAY, ArrayEnd);
        case BeginObject => ok := OnOpen(MODE_KEY, ObjectBegin, OB);
        case BeginArray => ok := OnOpen(MODE_ARRAY, ArrayBegin, AR);
        case EndString => ok := OnStringEnd();
        case NextItem => ok := OnComma();
        case KeyDone => ok := OnColon();
        case _ => OnBegin(a); ok := true;
      }
    }

    /** JSON_parser_char: a call that returns true does exactly the specified step and keeps the object valid;
        one that returns false reports the specified error. */
    method Char(c: int) returns (ok: bool)
      requires Valid()
      modifies this, buffer, stack
      ensures stack == old(stack) && (buffer == old(buffer) || fresh(buffer))
      ensures ok ==> Valid()
      ensures Shape() && Delivers(Step(cfg, old(Abs()), c), ok, if ok then Abs() else INIT, old(error), error)
    {
      hide Step, StepClass, Table, Classify, Perform, AddChar, Inv, AssertionsHold, SetError;
      ghost var s := Abs();
      StepKeepsInv(cfg, s, c);
      InvHasMode(cfg, s);
      if c < 0 {
        NegativeChar(cfg, s, c);
        error := E_INVALID_CHAR;
        return false;
      }
      var found := Classify(c);
      if found.None? {
        ControlChar(cfg, s, c);
        error := SetError(state, c);
        return false;
      }
      var k := found.value;
      StepParts(cfg, s, c, k);
      ok := AddCharToBuffer(c, k);
      if !ok {
        return false;
      }
      match Table(state, k) {
        case To(next) =>
          state := next;
          ok := true;
        case Err =>
          error := SetError(state, c);
          ok := false;
        case Do(a) =>
          ok := Dispatch(a);
      }
    }

    /** JSON_parser_done. */
    method Done() returns (ok: bool)
      requires Valid()
      modifies this`top, this`error
      ensures ok <==> IsComplete(old(Abs()))
      ensures !ok ==> error.E_UNBALANCED_COLLECTION?
    {
      if state.OK? || state.GO? {
        ok := PopMode(MODE_DONE);
        if ok {
          return true;
        }
      }
      error := E_UNBALANCED_COLLECTION;
      return false;
    }
  }

  /** A whole text, character by character, and the final verdict. */
  method Parse(cfg: Config, input: seq<int>) returns (ok: bool, events: seq<Event>)
    requires ValidConfig(cfg) && cfg.depth < STACK_SIZE
    ensures ok <==> Accepts(cfg, input)
    ensures ok ==> events == Run(cfg, INIT, input).st.events
  {
    hide Step, Inv;
    var p := new Parser(cfg);
    events := [];
    var i := 0;
    while i < |input|
      invariant 0 <= i <= |input| && p.Valid() && p.cfg == cfg && fresh(p) && fresh(p.buffer) && fresh(p.stack)
      invariant Run(cfg, INIT, input[..i]) == Accept(p.Abs())
    {
      RunSplit(cfg, input, i);
      var more := p.Char(input[i]);
      if !more {
        return false, events;
      }
      i := i + 1;
    }
    assert input[..i] == input;
    events := p.events;
    ok := p.Done();
  }

  /** The run over a text goes through the run over each of its beginnings. */
  lemma RunSplit(cfg: Config, input: seq<int>, i: nat)
    requires i < |input| && Run(cfg, INIT, input[..i]).Accept?
    ensures Run(cfg, INIT, input[..i + 1]) == Step(cfg, Run(cfg, INIT, input[..i]).st, input[i])
    ensures Step(cfg, Run(cfg, INIT, input[..i]).st, input[i]).Reject? ==> Run(cfg, INIT, input).Reject?
  {
    hide Step;
    assert input[..i + 1] == input[..i] + [input[i]];
    RunConcat(cfg, INIT, input[..i], [input[i]]);
    RunOne(cfg, Run(cfg, INIT, input[..i]).st, input[i]);
    assert input == input[..i + 1] + input[i + 1..];
    RunConcat(cfg, INIT, input[..i + 1], input[i + 1..]);
  }

  // ---------- Pieces of the step, for the method ----------

  lemma QuietBuffer(cfg: Config, s: PState)
    requires Inv(cfg, s)
    ensures s.typ.T_NONE? || s.comment ==> s.buf == []
  {
  }

  lemma InvHasMode(cfg: Config, s: PState)
    requires Inv(cfg, s)
    ensures |s.stack| >= 1
  {
  }

  lemma NegativeChar(cfg: Config, s: PState, c: int)
    requires c < 0
    ensures Step(cfg, s, c) == Reject(E_INVALID_CHAR)
  {
  }

  lemma ControlChar(cfg: Config, s: PState, c: int)
    requires c >= 0 && Classify(c).None?
    ensures Step(cfg, s, c) == Reject(SetError(s.state, c)) && !SetError(s.state, c).E_NONE?
  {
    hide Classify, StepClass;
  }

  lemma StepParts(cfg: Config, s: PState, c: int, k: Class)
    requires c >= 0 && Classify(c) == Some(k)
    ensures Step(cfg, s, c) ==
            match AddChar(s, c, k)
            case Reject(e) => Reject(e)
            case Accept(t) => match Table(s.state, k)
                              case Err => Reject(SetError(s.state, c))
                              case To(n) => Accept(t.(state := n))
                              case Do(a) => Perform(cfg, t, a)
    ensures AddChar(s, c, k).Accept? ==> AddChar(s, c, k).st.(buf := s.buf, escaped := s.escaped) == s
    ensures !SetError(s.state, c).E_NONE?
  {
    hide Table, Perform, Classify;
  }
}
