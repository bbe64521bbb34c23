/** One inductive invariant of the parser, for every input and configuration, comments included. */
module JsonInvariant {
  import opened JsonMachine
  import opened JsonGrammar
  import opened JsonSteps

  predicate EndsWith(b: seq<int>, x: int) {
    b != [] && b[|b| - 1] == x
  }

  /** The buffer ends in a backslash, a u and n hexadecimal digits. */
  predicate EndsInUnit(b: seq<int>, n: nat) {
    |b| >= n + 2 && b[|b| - n - 2] == BACKS && b[|b| - n - 1] == LOW_U
    && forall i :: |b| - n <= i < |b| ==> IsHex(b[i])
  }

  predicate ValueMode(m: Mode) {
    m.MODE_ARRAY? || m.MODE_OBJECT?
  }

  predicate Quiet(s: PState) {
    s.typ.T_NONE? && s.buf == []
  }

  predicate InsideString(s: PState) {
    s.typ.T_STRING? && !Top(s.stack).MODE_DONE?
  }

  predicate InScalar(s: PState, t: Type) {
    s.typ == t && ValueMode(Top(s.stack)) && s.buf != []
  }

  predicate StackForm(cfg: Config, stack: seq<Mode>) {
    1 <= |stack| <= cfg.depth + 1
    && (forall i :: 0 <= i < |stack| ==> (stack[i].MODE_DONE? <==> i == 0))
    && (forall i :: 0 <= i < |stack| - 1 ==> !stack[i].MODE_KEY?)
  }

  /** A state in which a comment may have begun, with the mode that goes with it. */
  predicate Resumable(st: State, stack: seq<Mode>) {
    var m := Top(stack);
    match st
    case GO => m.MODE_DONE?
    case OK => !m.MODE_KEY?
    case OB => m.MODE_KEY?
    case KE => m.MODE_KEY?
    case CO => m.MODE_KEY?
    case VA => ValueMode(m)
    case AR => m.MODE_ARRAY?
    case _ => false
  }

  /** What each automaton state says about type, mode and buffer. */
  predicate StateForm(s: PState) {
    match s.state
    case OK => Resumable(OK, s.stack) && !s.typ.T_STRING? && (s.typ.T_NONE? ==> s.buf == [])
               && (Top(s.stack).MODE_DONE? ==> s.typ.T_NONE?) && (!s.typ.T_NONE? ==> s.buf != [])
    case ST => InsideString(s)
    case ES => InsideString(s) && EndsWith(s.buf, BACKS)
    case U1 => InsideString(s) && EndsInUnit(s.buf, 0)
    case U2 => InsideString(s) && EndsInUnit(s.buf, 1)
    case U3 => InsideString(s) && EndsInUnit(s.buf, 2)
    case U4 => InsideString(s) && EndsInUnit(s.buf, 3)
    case D1 => InsideString(s)
    case D2 => InsideString(s) && EndsWith(s.buf, BACKS)
    case MI => InScalar(s, T_INTEGER)
    case ZE => InScalar(s, T_INTEGER)
    case IT => InScalar(s, T_INTEGER)
    case FR => InScalar(s, T_FLOAT)
    case FX => InScalar(s, T_FLOAT)
    case E1 => InScalar(s, T_FLOAT)
    case E2 => InScalar(s, T_FLOAT)
    case E3 => InScalar(s, T_FLOAT)
    case T1 => InScalar(s, T_TRUE)
    case T2 => InScalar(s, T_TRUE)
    case T3 => InScalar(s, T_TRUE)
    case F1 => InScalar(s, T_FALSE)
    case F2 => InScalar(s, T_FALSE)
    case F3 => InScalar(s, T_FALSE)
    case F4 => InScalar(s, T_FALSE)
    case N1 => InScalar(s, T_NULL)
    case N2 => InScalar(s, T_NULL)
    case N3 => InScalar(s, T_NULL)
    case C1 => Quiet(s) && Resumable(s.before, s.stack)
    case C2 => Quiet(s) && Resumable(s.before, s.stack)
    case C3 => Quiet(s) && Resumable(s.before, s.stack)
    case _ => Quiet(s) && Resumable(s.state, s.stack)
  }

  predicate InComment(s: State) {
    s.C1? || s.C2? || s.C3?
  }

  predicate InUnit(s: State) {
    s.U1? || s.U2? || s.U3? || s.U4?
  }

  predicate Bytes(b: seq<int>) {
    forall i :: 0 <= i < |b| ==> 0 <= b[i] < 256
  }

  predicate Inv(cfg: Config, s: PState) {
    && StackForm(cfg, s.stack)
    && StateForm(s)
    && Bytes(s.buf)
    && (s.escaped <==> s.state.ES?)
    && (s.comment <==> InComment(s.state))
    && (s.high != 0 ==> IsHighSurrogate(s.high))
    && (s.state.D1? || s.state.D2? ==> s.high != 0)
    && (s.high != 0 ==> s.state.D1? || s.state.D2? || InUnit(s.state))
  }

  /** The assertions that guard an action, on the state in which the action starts. */
  predicate AssertionsHold(s: PState, a: Action) {
    match a
    case UC => |s.buf| >= 6 && forall i :: |s.buf| - 4 <= i < |s.buf| ==> 0 <= HexDigit(s.buf[i]) < 16
    case DE => s.typ.T_INTEGER? || s.typ.T_FLOAT? || s.typ.T_NONE?
    case DF => (s.typ.T_INTEGER? || s.typ.T_FLOAT? || s.typ.T_NONE?) && EndsWith(s.buf, POINT)
    case SB => s.typ.T_NONE?
    case NU => s.typ.T_NONE?
    case FA => s.typ.T_NONE?
    case TR => s.typ.T_NONE?
    case CE => s.buf == [] && s.typ.T_NONE?
    case CB => s.buf != [] && !s.typ.T_STRING?
    case EndObject => s.buf != []
    case EndArray => s.buf != []
    case BeginObject => s.buf != [] && s.typ.T_NONE?
    case BeginArray => s.buf != [] && s.typ.T_NONE?
    case EndString => s.buf != [] && s.typ.T_STRING? && !Top(s.stack).MODE_DONE?
    case NextItem => s.buf != [] && !s.typ.T_STRING?
    case KeyDone => s.buf != [] && s.typ.T_NONE?
    case _ => true
  }

  // ---------- Where the edges of the table start and end ----------

  predicate HasComments(s: State) {
    s.GO? || s.OK? || s.OB? || s.KE? || s.CO? || s.VA? || s.AR? || s.ZE? || s.IT? || s.FR? || s.T3? || s.F4? || s.N3?
  }

  /** The states an action can start from, and the class that triggers it. */
  predicate StartsFrom(a: Action, s: State, k: Class) {
    match a
    case UC => s.U4? && IsHexClass(k)
    case EX => s.ST? && k.C_BACKS?
    case MX => (s.VA? || s.AR?) && k.C_MINUS?
    case ZX => (s.VA? || s.AR?) && k.C_ZERO?
    case IX => (s.VA? || s.AR?) && k.C_DIGIT?
    case DE => s.IT? && IsExponentClass(k)
    case DF => (s.ZE? || s.IT?) && k.C_POINT?
    case SB => (s.OB? || s.KE? || s.VA? || s.AR?) && k.C_QUOTE?
    case NU => (s.VA? || s.AR?) && k.C_LOW_N?
    case FA => (s.VA? || s.AR?) && k.C_LOW_F?
    case TR => (s.VA? || s.AR?) && k.C_LOW_T?
    case CE => s.C3? && k.C_SLASH?
    case CB => HasComments(s) && k.C_SLASH?
    case EmptyObject => s.OB? && k.C_RCURB?
    case EndObject => EndsValue(s) && k.C_RCURB?
    case EndArray => (EndsValue(s) || s.AR?) && k.C_RSQRB?
    case BeginObject => (s.GO? || s.VA? || s.AR?) && k.C_LCURB?
    case BeginArray => (s.GO? || s.VA? || s.AR?) && k.C_LSQRB?
    case EndString => s.ST? && k.C_QUOTE?
    case NextItem => EndsValue(s) && k.C_COMMA?
    case KeyDone => s.CO? && k.C_COLON?
  }

  predicate InGap(s: State) {
    s.GO? || s.OB? || s.KE? || s.CO? || s.VA? || s.AR?
  }

  /** The plain edges of the table. */
  predicate Follows(s: State, k: Class, n: State) {
    match s
    case OK => n.OK? && IsBlank(k)
    case ST => n.ST? && !k.C_BACKS? && !k.C_QUOTE? && !k.C_WHITE?
    case ES => n.ST? || (n.U1? && k.C_LOW_U?)
    case U1 => n.U2? && IsHexClass(k)
    case U2 => n.U3? && IsHexClass(k)
    case U3 => n.U4? && IsHexClass(k)
    case U4 => false
    case D1 => n.D2? && k.C_BACKS?
    case D2 => n.U1? && k.C_LOW_U?
    case MI => n.ZE? || n.IT?
    case ZE => n.OK? && IsBlank(k)
    case IT => n.IT? || (n.OK? && IsBlank(k))
    case FX => n.FR? || n.E1? || (n.OK? && IsBlank(k))
    case FR => n.FR? || n.E1? || (n.OK? && IsBlank(k))
    case E1 => n.E2? || n.E3?
    case E2 => n.E3?
    case E3 => n.E3? || (n.OK? && IsBlank(k))
    case T1 => n.T2?
    case T2 => n.T3?
    case T3 => n.OK?
    case F1 => n.F2?
    case F2 => n.F3?
    case F3 => n.F4?
    case F4 => n.OK?
    case N1 => n.N2?
    case N2 => n.N3?
    case N3 => n.OK?
    case C1 => n.C2?
    case C2 => n.C2? || n.C3?
    case C3 => n.C2? || n.C3?
    case _ => n == s && IsBlank(k)
  }

  /** Every edge of the table is one of the two kinds above. */
  lemma EdgeShape(s: State, k: Class)
    ensures Table(s, k).Do? ==> StartsFrom(Table(s, k).action, s, k)
    ensures Table(s, k).To? ==> Follows(s, k, Table(s, k).target)
  {
    hide Table, StartsFrom, Follows;
    match s
    case GO => IdleEdges(s, k);
    case OK => IdleEdges(s, k);
    case OB => IdleEdges(s, k);
    case KE => IdleEdges(s, k);
    case CO => IdleEdges(s, k);
    case VA => ValueEdges(s, k);
    case AR => ValueEdges(s, k);
    case ST => StringEdges(s, k);
    case ES => StringEdges(s, k);
    case U1 => StringEdges(s, k);
    case U2 => StringEdges(s, k);
    case U3 => StringEdges(s, k);
    case U4 => StringEdges(s, k);
    case D1 => StringEdges(s, k);
    case D2 => StringEdges(s, k);
    case MI => IntegerEdges(s, k);
    case ZE => IntegerEdges(s, k);
    case IT => IntegerEdges(s, k);
    case FR => FloatEdges(s, k);
    case E1 => FloatEdges(s, k);
    case E2 => FloatEdges(s, k);
    case E3 => FloatEdges(s, k);
    case FX => FloatEdges(s, k);
    case T1 => WordEdges(s, k);
    case T2 => WordEdges(s, k);
    case T3 => WordEdges(s, k);
    case F1 => WordEdges(s, k);
    case F2 => WordEdges(s, k);
    case F3 => WordEdges(s, k);
    case F4 => WordEdges(s, k);
    case N1 => WordEdges(s, k);
    case N2 => WordEdges(s, k);
    case N3 => WordEdges(s, k);
    case C1 => CommentEdges(s, k);
    case C2 => CommentEdges(s, k);
    case C3 => CommentEdges(s, k);
  }

  lemma IdleEdges(s: State, k: Class)
    requires s.GO? || s.OK? || s.OB? || s.KE? || s.CO?
    ensures Table(s, k).Do? ==> StartsFrom(Table(s, k).action, s, k)
    ensures Table(s, k).To? ==> Follows(s, k, Table(s, k).target)
  {
  }

  lemma ValueEdges(s: State, k: Class)
    requires s.VA? || s.AR?
    ensures Table(s, k).Do? ==> StartsFrom(Table(s, k).action, s, k)
    ensures Table(s, k).To? ==> Follows(s, k, Table(s, k).target)
  {
  }

  lemma StringEdges(s: State, k: Class)
    requires s.ST? || s.ES? || s.U1? || s.U2? || s.U3? || s.U4? || s.D1? || s.D2?
    ensures Table(s, k).Do? ==> StartsFrom(Table(s, k).action, s, k)
    ensures Table(s, k).To? ==> Follows(s, k, Table(s, k).target)
  {
  }

  lemma IntegerEdges(s: State, k: Class)
    requires s.MI? || s.ZE? || s.IT?
    ensures Table(s, k).Do? ==> StartsFrom(Table(s, k).action, s, k)
    ensures Table(s, k).To? ==> Follows(s, k, Table(s, k).target)
  {
  }

  lemma FloatEdges(s: State, k: Class)
    requires s.FR? || s.FX? || s.E1? || s.E2? || s.E3?
    ensures Table(s, k).Do? ==> StartsFrom(Table(s, k).action, s, k)
    ensures Table(s, k).To? ==> Follows(s, k, Table(s, k).target)
  {
  }

  lemma WordEdges(s: State, k: Class)
    requires s.T1? || s.T2? || s.T3? || s.F1? || s.F2? || s.F3? || s.F4? || s.N1? || s.N2? || s.N3?
    ensures Table(s, k).Do? ==> StartsFrom(Table(s, k).action, s, k)
    ensures Table(s, k).To? ==> Follows(s, k, Table(s, k).target)
  {
  }

  lemma CommentEdges(s: State, k: Class)
    requires s.C1? || s.C2? || s.C3?
    ensures Table(s, k).Do? ==> StartsFrom(Table(s, k).action, s, k)
    ensures Table(s, k).To? ==> Follows(s, k, Table(s, k).target)
  {
  }

  // ---------- Preservation ----------

  lemma HexDigitRange(x: int)
    requires IsHex(x)
    ensures 0 <= HexDigit(x) < 16
  {
  }

  lemma HexClassMeans(c: int, k: Class)
    requires c >= 0 && Classify(c) == Some(k)
    ensures IsHexClass(k) ==> IsHex(c)
    ensures (k.C_LOW_U? <==> c == LOW_U) && (k.C_BACKS? <==> c == BACKS) && (k.C_POINT? <==> c == POINT)
  {
  }

  /** What the buffer step does in each situation, for a character of class k. */
  predicate Added(s: PState, t: PState, c: int, k: Class) {
    && c >= 0
    && (IsHexClass(k) ==> IsHex(c))
    && (k.C_LOW_U? <==> c == LOW_U) && (k.C_BACKS? <==> c == BACKS) && (k.C_POINT? <==> c == POINT)
    && t == s.(buf := t.buf, escaped := false) && Bytes(t.buf)
    && (s.escaped || s.comment || (s.typ.T_NONE? && IsBlank(k)) || t.buf == s.buf + [c % 256])
    && (!s.escaped && (s.comment || (s.typ.T_NONE? && IsBlank(k))) ==> t.buf == s.buf)
    && (s.escaped && c == LOW_U ==> t.buf == DropLast(s.buf) + [BACKS, LOW_U])
  }

  lemma AddCharKeeps(s: PState, c: int, k: Class)
    requires AddChar(s, c, k).Accept? && Bytes(s.buf) && c >= 0 && Classify(c) == Some(k)
    ensures Added(s, AddChar(s, c, k).st, c, k)
  {
    hide Classify;
    HexClassMeans(c, k);
  }

  lemma BlankKeeps(cfg: Config, s: PState, t: PState, c: int, k: Class, n: State)
    requires ValidConfig(cfg) && Inv(cfg, s) && Added(s, t, c, k)
    requires Follows(s.state, k, n) && (InGap(s.state) || s.state.OK?)
    ensures Inv(cfg, t.(state := n))
  {
    hide StackForm, Bytes, EndsInUnit, EndsWith;
  }

  lemma EscapeKeeps(cfg: Config, s: PState, t: PState, c: int, k: Class, n: State)
    requires ValidConfig(cfg) && Inv(cfg, s) && Added(s, t, c, k)
    requires Follows(s.state, k, n) && (s.state.ST? || s.state.ES? || s.state.D1? || s.state.D2?)
    ensures Inv(cfg, t.(state := n))
  {
    hide StackForm, Bytes;
  }

  function DigitCount(s: State): nat {
    if s.U1? then 0 else if s.U2? then 1 else if s.U3? then 2 else 3
  }

  function LexemeType(s: State): Type {
    if s.MI? || s.ZE? || s.IT? then T_INTEGER
    else if InsideNumber(s) then T_FLOAT
    else if s.T1? || s.T2? || s.T3? then T_TRUE
    else if s.F1? || s.F2? || s.F3? || s.F4? then T_FALSE
    else T_NULL
  }

  /** The form of the states inside units, numbers and words, in one formula each. */
  lemma UnitForm(s: PState)
    requires InUnit(s.state)
    ensures StateForm(s) <==> InsideString(s) && EndsInUnit(s.buf, DigitCount(s.state))
  {
  }

  lemma LexemeForm(s: PState)
    requires InsideNumber(s.state) || InsideWord(s.state)
    ensures StateForm(s) <==> InScalar(s, LexemeType(s.state))
  {
  }

  lemma EndForm(s: PState)
    requires s.state.OK? && Scalar(s.typ) && InScalar(s, s.typ)
    ensures StateForm(s)
  {
  }

  lemma DigitKeeps(cfg: Config, s: PState, t: PState, c: int, k: Class, n: State)
    requires ValidConfig(cfg) && Inv(cfg, s) && Added(s, t, c, k)
    requires Follows(s.state, k, n) && (s.state.U1? || s.state.U2? || s.state.U3?)
    ensures Inv(cfg, t.(state := n))
  {
    hide StackForm, Bytes, StateForm, EndsInUnit;
    UnitForm(s);
    UnitForm(t.(state := n));
    UnitGrows(s.buf, DigitCount(s.state), c);
  }

  lemma UnitGrows(b: seq<int>, m: nat, c: int)
    requires EndsInUnit(b, m) && IsHex(c)
    ensures EndsInUnit(b + [c], m + 1)
  {
  }

  lemma LexemeKeeps(cfg: Config, s: PState, t: PState, c: int, k: Class, n: State)
    requires ValidConfig(cfg) && Inv(cfg, s) && Added(s, t, c, k)
    requires InsideNumber(s.state) || InsideWord(s.state)
    requires n.OK? || ((InsideNumber(n) || InsideWord(n)) && LexemeType(n) == LexemeType(s.state))
    ensures Inv(cfg, t.(state := n))
  {
    hide StackForm, Bytes, StateForm, EndsInUnit;
    LexemeForm(s);
    if n.OK? {
      EndForm(t.(state := n));
    } else {
      LexemeForm(t.(state := n));
    }
  }

  lemma NumberTargets(s: State, k: Class, n: State)
    requires Follows(s, k, n) && InsideNumber(s)
    ensures n.OK? || (InsideNumber(n) && LexemeType(n) == LexemeType(s))
  {
    match s
    case MI =>
    case IT =>
    case FX =>
    case FR =>
    case _ =>
  }

  lemma WordTargets(s: State, k: Class, n: State)
    requires Follows(s, k, n) && InsideWord(s)
    ensures n.OK? || (InsideWord(n) && LexemeType(n) == LexemeType(s))
  {
    match s
    case T1 =>
    case T2 =>
    case F1 =>
    case F2 =>
    case F3 =>
    case N1 =>
    case N2 =>
    case _ =>
  }

  lemma CommentKeeps(cfg: Config, s: PState, t: PState, c: int, k: Class, n: State)
    requires ValidConfig(cfg) && Inv(cfg, s) && Added(s, t, c, k)
    requires Follows(s.state, k, n) && (InComment(s.state))
    ensures Inv(cfg, t.(state := n))
  {
    hide StackForm, Bytes, EndsInUnit, EndsWith;
  }

  lemma PlainKeeps(cfg: Config, s: PState, t: PState, c: int, k: Class, n: State)
    requires ValidConfig(cfg) && Inv(cfg, s) && Added(s, t, c, k)
    requires Follows(s.state, k, n)
    ensures Inv(cfg, t.(state := n))
  {
    hide Inv, Follows;
    if InGap(s.state) || s.state.OK? {
      BlankKeeps(cfg, s, t, c, k, n);
    } else if InsideNumber(s.state) || InsideWord(s.state) {
      if InsideNumber(s.state) {
        NumberTargets(s.state, k, n);
      } else {
        WordTargets(s.state, k, n);
      }
      LexemeKeeps(cfg, s, t, c, k, n);
    } else if InComment(s.state) {
      CommentKeeps(cfg, s, t, c, k, n);
    } else if s.state.ST? || s.state.ES? || s.state.D1? || s.state.D2? {
      EscapeKeeps(cfg, s, t, c, k, n);
    } else {
      assert !s.state.U4? by { UnitEdges(s.state, k, n); }
      DigitKeeps(cfg, s, t, c, k, n);
    }
  }

  lemma UnitEdges(s: State, k: Class, n: State)
    requires Follows(s, k, n)
    ensures !s.U4?
  {
  }

  /** The action's assertions hold, and if it succeeds the invariant holds afterwards. */
  ghost predicate ActionKeeps(cfg: Config, t: PState, a: Action) {
    AssertionsHold(t, a) && (Perform(cfg, t, a).Accept? ==> Inv(cfg, Perform(cfg, t, a).st))
  }

  lemma BytesOfNothing()
    ensures Bytes([])
  {
  }

  lemma NumberStartKeeps(cfg: Config, s: PState, t: PState, c: int, k: Class, a: Action)
    requires ValidConfig(cfg) && Inv(cfg, s) && Added(s, t, c, k)
    requires StartsFrom(a, s.state, k) && (a.MX? || a.ZX? || a.IX?)
    ensures ActionKeeps(cfg, t, a)
  {
    hide HexDigit, StackForm, Bytes, EndsWith, EndsInUnit;
    BytesOfNothing();
  }

  lemma WordStartKeeps(cfg: Config, s: PState, t: PState, c: int, k: Class, a: Action)
    requires ValidConfig(cfg) && Inv(cfg, s) && Added(s, t, c, k)
    requires StartsFrom(a, s.state, k) && (a.NU? || a.FA? || a.TR?)
    ensures ActionKeeps(cfg, t, a)
  {
    hide HexDigit, StackForm, Bytes, EndsWith, EndsInUnit;
    BytesOfNothing();
  }

  lemma StringStartKeeps(cfg: Config, s: PState, t: PState, c: int, k: Class)
    requires ValidConfig(cfg) && Inv(cfg, s) && Added(s, t, c, k)
    requires StartsFrom(SB, s.state, k)
    ensures ActionKeeps(cfg, t, SB)
  {
    hide HexDigit, StackForm, Bytes, EndsWith, EndsInUnit;
    BytesOfNothing();
  }

  lemma EndsAdded(b: seq<int>, x: int)
    ensures EndsWith(b + [x], x)
  {
  }

  lemma EscapeStartKeeps(cfg: Config, s: PState, t: PState, c: int, k: Class)
    requires ValidConfig(cfg) && Inv(cfg, s) && Added(s, t, c, k)
    requires StartsFrom(EX, s.state, k)
    ensures ActionKeeps(cfg, t, EX)
  {
    hide HexDigit, StackForm, Bytes, EndsWith, EndsInUnit;
    EndsAdded(s.buf, c % 256);
  }

  lemma FloatKeeps(cfg: Config, s: PState, t: PState, c: int, k: Class, a: Action)
    requires ValidConfig(cfg) && Inv(cfg, s) && Added(s, t, c, k)
    requires StartsFrom(a, s.state, k) && (a.DE? || a.DF?)
    ensures ActionKeeps(cfg, t, a)
  {
    hide HexDigit, StackForm, Bytes, EndsWith, EndsInUnit;
    EndsAdded(s.buf, c % 256);
  }

  lemma StackBound(cfg: Config, stack: seq<Mode>)
    requires StackForm(cfg, stack)
    ensures 1 <= |stack| <= cfg.depth + 1
  {
  }

  lemma StackPop(cfg: Config, stack: seq<Mode>)
    requires StackForm(cfg, stack) && !Top(stack).MODE_DONE?
    ensures |stack| > 1 && !Top(stack[..|stack| - 1]).MODE_KEY?
    ensures StackForm(cfg, stack[..|stack| - 1])
    ensures StackForm(cfg, stack[..|stack| - 1] + [MODE_KEY]) && StackForm(cfg, stack[..|stack| - 1] + [MODE_OBJECT])
  {
  }

  lemma PushAfterPop(cfg: Config, stack: seq<Mode>, m: Mode)
    requires StackForm(cfg, stack)
    ensures Push(cfg, stack[..|stack| - 1], m) == Some(stack[..|stack| - 1] + [m])
  {
  }

  lemma StackPush(cfg: Config, stack: seq<Mode>, m: Mode)
    requires StackForm(cfg, stack) && !m.MODE_DONE? && |stack| <= cfg.depth && !Top(stack).MODE_KEY?
    ensures StackForm(cfg, stack + [m]) && Top(stack + [m]) == m
  {
  }

  /** A fresh container: its mode on top, nothing in the buffer. */
  lemma OpenedKeeps(cfg: Config, t: PState, m: Mode, e: Event, next: State)
    requires ValidConfig(cfg) && StackForm(cfg, t.stack) && !Top(t.stack).MODE_KEY?
    requires t.typ.T_NONE? && |t.buf| == 1 && !t.escaped && !t.comment && t.high == 0
    requires (m == MODE_KEY && next == OB) || (m == MODE_ARRAY && next == AR)
    ensures match OpenContainer(cfg, t, m, e, next) case Reject(_) => true case Accept(u) => Inv(cfg, u)
  {
    hide StackForm, Bytes;
    StackBound(cfg, t.stack);
    BytesOfNothing();
    assert DropLast(t.buf) == [];
    if |t.stack| <= cfg.depth {
      StackPush(cfg, t.stack, m);
    }
  }

  /** What is known where a container opens. */
  lemma BeforeOpening(cfg: Config, s: PState, t: PState, c: int, k: Class)
    requires Inv(cfg, s) && Added(s, t, c, k)
    requires (s.state.GO? || s.state.VA? || s.state.AR?) && (k.C_LCURB? || k.C_LSQRB?)
    ensures StackForm(cfg, t.stack) && !Top(t.stack).MODE_KEY?
    ensures t.typ.T_NONE? && |t.buf| == 1 && !t.escaped && !t.comment && t.high == 0
  {
    hide StackForm, EndsWith, EndsInUnit;
  }

  lemma OpenKeeps(cfg: Config, s: PState, t: PState, c: int, k: Class, a: Action)
    requires ValidConfig(cfg) && Inv(cfg, s) && Added(s, t, c, k)
    requires StartsFrom(a, s.state, k) && (a.BeginObject? || a.BeginArray?)
    ensures ActionKeeps(cfg, t, a)
  {
    hide Inv, OpenContainer, StackForm;
    BeforeOpening(cfg, s, t, c, k);
    if a.BeginObject? {
      OpenedKeeps(cfg, t, MODE_KEY, ObjectBegin, OB);
    } else {
      OpenedKeeps(cfg, t, MODE_ARRAY, ArrayBegin, AR);
    }
  }

  lemma CloseKeeps(cfg: Config, s: PState, t: PState, c: int, k: Class, a: Action)
    requires ValidConfig(cfg) && Inv(cfg, s) && Added(s, t, c, k)
    requires StartsFrom(a, s.state, k) && (a.EndObject? || a.EndArray? || a.EmptyObject?)
    ensures ActionKeeps(cfg, t, a)
  {
    hide HexDigit, StackForm, Bytes, EndsWith, EndsInUnit, PendingEvent;
    BytesOfNothing();
    StackBound(cfg, s.stack);
    if !Top(s.stack).MODE_DONE? {
      StackPop(cfg, s.stack);
    }
  }

  lemma CommaKeeps(cfg: Config, s: PState, t: PState, c: int, k: Class)
    requires ValidConfig(cfg) && Inv(cfg, s) && Added(s, t, c, k)
    requires StartsFrom(NextItem, s.state, k)
    ensures ActionKeeps(cfg, t, NextItem)
  {
    hide HexDigit, StackForm, Bytes, EndsWith, EndsInUnit, Push, PendingEvent;
    BytesOfNothing();
    StackBound(cfg, s.stack);
    if !Top(s.stack).MODE_DONE? {
      StackPop(cfg, s.stack);
      PushAfterPop(cfg, s.stack, MODE_KEY);
    }
  }

  lemma ColonKeeps(cfg: Config, s: PState, t: PState, c: int, k: Class)
    requires ValidConfig(cfg) && Inv(cfg, s) && Added(s, t, c, k)
    requires StartsFrom(KeyDone, s.state, k)
    ensures ActionKeeps(cfg, t, KeyDone)
  {
    hide HexDigit, StackForm, Bytes, EndsWith, EndsInUnit, Push, PendingEvent;
    assert Top(s.stack).MODE_KEY? && s.buf == [];
    assert DropLast(s.buf + [c % 256]) == s.buf;
    BytesOfNothing();
    StackBound(cfg, s.stack);
    StackPop(cfg, s.stack);
    PushAfterPop(cfg, s.stack, MODE_OBJECT);
    var st := s.stack[..|s.stack| - 1] + [MODE_OBJECT];
    assert ColonAction(cfg, t) == Accept(DropChar(t).(stack := st, state := VA));
  }

  lemma StringEndKeeps(cfg: Config, s: PState, t: PState, c: int, k: Class, a: Action)
    requires ValidConfig(cfg) && Inv(cfg, s) && Added(s, t, c, k)
    requires StartsFrom(a, s.state, k) && (a.EndString?)
    ensures ActionKeeps(cfg, t, a)
  {
    hide HexDigit, StackForm, Bytes, EndsWith, EndsInUnit;
    BytesOfNothing();
    StackBound(cfg, s.stack);
  }

  lemma CommentBeginKeeps(cfg: Config, s: PState, t: PState, c: int, k: Class)
    requires ValidConfig(cfg) && Inv(cfg, s) && Added(s, t, c, k)
    requires StartsFrom(CB, s.state, k)
    ensures ActionKeeps(cfg, t, CB)
  {
    hide HexDigit, StackForm, Bytes, PendingEvent, EndsWith, EndsInUnit;
    BytesOfNothing();
  }

  lemma CommentEndKeeps(cfg: Config, s: PState, t: PState, c: int, k: Class)
    requires ValidConfig(cfg) && Inv(cfg, s) && Added(s, t, c, k)
    requires StartsFrom(CE, s.state, k)
    ensures ActionKeeps(cfg, t, CE)
  {
    hide HexDigit, StackForm, Bytes, EndsWith, EndsInUnit;
  }

  lemma DecodedBytes(high: int, u: int)
    requires 0 <= u < 0x10000 && (high != 0 ==> IsHighSurrogate(high)) && DecodeUnit(high, u).Some?
    ensures Bytes(DecodeUnit(high, u).value.0)
    ensures var h := DecodeUnit(high, u).value.1; h != 0 ==> IsHighSurrogate(h)
  {
    hide EncodeWithTrail;
    EncodeIsUtf8(u);
    if high != 0 {
      EncodeIsUtf8(SurrogatePair(high, u));
    }
  }

  /** A completed unit has four digits behind it. */
  lemma UnitDigits(b: seq<int>, c: int)
    requires EndsInUnit(b, 3) && IsHex(c)
    ensures |b| >= 5 && (forall i :: |b| - 3 <= i <= |b| ==> 0 <= HexDigit((b + [c])[i]) < 16)
    ensures 0 <= HexUnit((b + [c])[|b| - 3..]) < 0x10000
  {
    var t := b + [c];
    var h := t[|t| - 4..];
    assert h == b[|b| - 3..] + [c];
    forall i | 0 <= i < 4 ensures 0 <= HexDigit(h[i]) < 16 {
      HexDigitRange(h[i]);
    }
    forall i | |t| - 4 <= i < |t| ensures 0 <= HexDigit(t[i]) < 16 {
      assert t[i] == h[i - (|t| - 4)];
    }
  }

  lemma BytesConcat(a: seq<int>, n: nat, b: seq<int>)
    requires Bytes(a) && n <= |a| && Bytes(b)
    ensures Bytes(a[..n] + b)
  {
  }

  lemma UnitKeeps(cfg: Config, s: PState, t: PState, c: int, k: Class, a: Action)
    requires ValidConfig(cfg) && Inv(cfg, s) && Added(s, t, c, k)
    requires StartsFrom(a, s.state, k) && a.UC?
    ensures ActionKeeps(cfg, t, a)
  {
    hide HexDigit, HexUnit, StackForm, Bytes, DecodeUnit;
    UnitDigits(s.buf, c);
    var u := HexUnit(t.buf[|t.buf| - 4..]);
    if DecodeUnit(t.high, u).Some? {
      DecodedBytes(t.high, u);
      BytesConcat(t.buf, |t.buf| - 6, DecodeUnit(t.high, u).value.0);
    }
  }

  lemma ActionKeepsInv(cfg: Config, s: PState, t: PState, c: int, k: Class, a: Action)
    requires ValidConfig(cfg) && Inv(cfg, s) && Added(s, t, c, k)
    requires StartsFrom(a, s.state, k)
    ensures ActionKeeps(cfg, t, a)
  {
    hide Inv, StartsFrom, ActionKeeps;
    match a
    case UC => UnitKeeps(cfg, s, t, c, k, a);
    case EX => EscapeStartKeeps(cfg, s, t, c, k);
    case SB => StringStartKeeps(cfg, s, t, c, k);
    case MX => NumberStartKeeps(cfg, s, t, c, k, a);
    case ZX => NumberStartKeeps(cfg, s, t, c, k, a);
    case IX => NumberStartKeeps(cfg, s, t, c, k, a);
    case DE => FloatKeeps(cfg, s, t, c, k, a);
    case DF => FloatKeeps(cfg, s, t, c, k, a);
    case NU => WordStartKeeps(cfg, s, t, c, k, a);
    case FA => WordStartKeeps(cfg, s, t, c, k, a);
    case TR => WordStartKeeps(cfg, s, t, c, k, a);
    case CE => CommentEndKeeps(cfg, s, t, c, k);
    case CB => CommentBeginKeeps(cfg, s, t, c, k);
    case EmptyObject => CloseKeeps(cfg, s, t, c, k, a);
    case EndObject => CloseKeeps(cfg, s, t, c, k, a);
    case EndArray => CloseKeeps(cfg, s, t, c, k, a);
    case BeginObject => OpenKeeps(cfg, s, t, c, k, a);
    case BeginArray => OpenKeeps(cfg, s, t, c, k, a);
    case EndString => StringEndKeeps(cfg, s, t, c, k, a);
    case NextItem => CommaKeeps(cfg, s, t, c, k);
    case KeyDone => ColonKeeps(cfg, s, t, c, k);
  }

  // ---------- The theorems ----------

  lemma InitInv(cfg: Config)
    requires ValidConfig(cfg)
    ensures Inv(cfg, INIT)
  {
  }

  /** The assertions a call of JSON_parser_char meets on its way to an action. */
  ghost predicate CallAssertions(s: PState, c: int, k: Class) {
    (s.escaped ==> s.buf != []) &&
    match AddChar(s, c, k)
    case Reject(_) => true
    case Accept(t) => Table(s.state, k).Do? ==> AssertionsHold(t, Table(s.state, k).action)
  }

  /** The invariant is inductive, and under it no assertion of the parser can fail. */
  lemma StepKeepsInv(cfg: Config, s: PState, c: int)
    requires ValidConfig(cfg) && Inv(cfg, s)
    ensures Step(cfg, s, c).Accept? ==> Inv(cfg, Step(cfg, s, c).st)
    ensures c >= 0 && Classify(c).Some? ==> CallAssertions(s, c, Classify(c).value)
  {
    hide Step, StepClass, Classify, AddChar, Table, Perform, Inv, StartsFrom, Follows, AssertionsHold, Added;
    if c < 0 || Classify(c).None? {
      StepControl(cfg, s, c);
    } else {
      var k := Classify(c).value;
      EscapeHasBackslash(cfg, s);
      match AddChar(s, c, k)
      case Reject(e) => RejectedChar(cfg, s, c, k);
      case Accept(t) =>
        assert t.state == s.state by { AddedChar(s, c, k); }
        assert Bytes(s.buf) by { InvBytes(cfg, s); }
        AddCharKeeps(s, c, k);
        EdgeShape(s.state, k);
        StepIs(cfg, s, c, k, t, Table(s.state, k));
        match Table(s.state, k)
        case Err =>
        case To(n) => PlainKeeps(cfg, s, t, c, k, n);
        case Do(a) => ActionKeepsInv(cfg, s, t, c, k, a);
    }
  }

  lemma AddedChar(s: PState, c: int, k: Class)
    requires AddChar(s, c, k).Accept?
    ensures AddChar(s, c, k).st.state == s.state
  {
  }

  lemma RejectedChar(cfg: Config, s: PState, c: int, k: Class)
    requires c >= 0 && Classify(c) == Some(k) && AddChar(s, c, k).Reject?
    ensures Step(cfg, s, c).Reject?
  {
    hide Classify, Table, Perform;
  }

  lemma InvBytes(cfg: Config, s: PState)
    requires Inv(cfg, s)
    ensures Bytes(s.buf)
  {
  }

  lemma EscapeHasBackslash(cfg: Config, s: PState)
    requires Inv(cfg, s)
    ensures s.escaped ==> s.buf != []
  {
  }

  /** Every state the parser can reach satisfies the invariant, whatever the input and with comments on or off. */
  lemma {:induction false} ReachableInv(cfg: Config, s: PState, input: seq<int>)
    requires ValidConfig(cfg) && Inv(cfg, s) && Run(cfg, s, input).Accept?
    ensures Inv(cfg, Run(cfg, s, input).st)
    decreases |input|
  {
    hide Step, Inv;
    if input != [] {
      StepKeepsInv(cfg, s, input[0]);
      ReachableInv(cfg, Step(cfg, s, input[0]).st, input[1..]);
    }
  }
}
